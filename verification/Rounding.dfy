/** Rounding an integer to the nearest double: it keeps order, and doubles keep still. */
module Rounding {
  import opened Json

  const TWO_52: int := 0x10_0000_0000_0000

  // Multiplying by q keeps order.
  lemma TimesKeepsOrder(a: nat, b: nat, q: nat)
    requires a <= b
    ensures a * q <= b * q
  {
  }

  // A multiple of q below q is zero.
  lemma SmallMultiple(d: int, q: nat)
    requires q > 0 && 0 <= d * q < q
    ensures d == 0
  {
    if d >= 1 {
      TimesKeepsOrder(1, d, q);
    }
  }

  lemma MultipleOf(k: nat, q: nat)
    requires q > 0
    ensures k * q % q == 0 && k * q / q == k
  {
    var m := k * q;
    var d := k - m / q;
    assert m % q == m - m / q * q;
    assert d * q == k * q - m / q * q;
    SmallMultiple(d, q);
  }

  lemma NearestIsMultiple(n: nat, q: nat)
    requires q > 0
    ensures NearestMultiple(n, q) == n / q * q || NearestMultiple(n, q) == (n / q + 1) * q
    ensures NearestMultiple(n, q) % q == 0
    ensures n % q == 0 ==> NearestMultiple(n, q) == n
  {
    MultipleOf(n / q, q);
    MultipleOf(n / q + 1, q);
  }

  lemma QuotientKeepsOrder(n: nat, m: nat, q: nat)
    requires q > 0 && n <= m
    ensures n / q <= m / q
  {
    if m / q < n / q {
      TimesKeepsOrder(m / q + 1, n / q, q);
    }
  }

  lemma PickKeepsOrder(a: nat, ra: nat, b: nat, rb: nat, q: nat)
    requires a < b || (a == b && ra <= rb)
    ensures Pick(a, ra, q) <= Pick(b, rb, q)
  {
    TimesKeepsOrder(a, a + 1, q);
    TimesKeepsOrder(b, b + 1, q);
    if a < b {
      TimesKeepsOrder(a + 1, b, q);
    }
  }

  lemma NearestKeepsOrder(n: nat, m: nat, q: nat)
    requires q > 0 && n <= m
    ensures NearestMultiple(n, q) <= NearestMultiple(m, q)
  {
    QuotientKeepsOrder(n, m, q);
    assert n == n / q * q + n % q && m == m / q * q + m % q;
    PickKeepsOrder(n / q, n % q, m / q, m % q, q);
  }

  // A multiple of q bounds the nearest multiples of what it bounds.
  lemma NearestBounded(n: nat, k: nat, q: nat)
    requires q > 0
    ensures n <= k * q ==> NearestMultiple(n, q) <= k * q
    ensures n >= k * q ==> NearestMultiple(n, q) >= k * q
  {
    MultipleOf(k, q);
    NearestIsMultiple(k * q, q);
    if n <= k * q {
      NearestKeepsOrder(n, k * q, q);
    }
    if n >= k * q {
      NearestKeepsOrder(k * q, n, q);
    }
  }

  lemma {:induction false} RoundAtLeast(n: nat, q: nat)
    requires q > 0 && n >= TWO_52 * q
    ensures RoundMagnitude(n, q) >= TWO_52 * q
    decreases n - q
  {
    if n <= q || n <= q * TWO_53 {
      NearestBounded(n, TWO_52, q);
    } else {
      RoundAtLeast(n, 2 * q);
    }
  }

  lemma {:induction false} MagnitudeKeepsOrder(n: nat, m: nat, q: nat)
    requires q > 0 && n <= m
    ensures RoundMagnitude(n, q) <= RoundMagnitude(m, q)
    decreases m - q
  {
    if m <= q || m <= q * TWO_53 {
      NearestKeepsOrder(n, m, q);
    } else if n <= q || n <= q * TWO_53 {
      NearestBounded(n, TWO_53, q);
      RoundAtLeast(m, 2 * q);
    } else {
      MagnitudeKeepsOrder(n, m, 2 * q);
    }
  }

  lemma {:induction false} MagnitudeFixed(n: nat, q: nat)
    requires q > 0
    ensures RoundMagnitude(n, q) % q == 0
    ensures RoundMagnitude(RoundMagnitude(n, q), q) == RoundMagnitude(n, q)
    decreases n - q
  {
    var r := RoundMagnitude(n, q);
    if n <= q || n <= q * TWO_53 {
      NearestIsMultiple(n, q);
      NearestBounded(n, TWO_53, q);
      NearestIsMultiple(r, q);
    } else {
      MagnitudeFixed(n, 2 * q);
      RoundAtLeast(n, 2 * q);
      EvenMultiple(r, q);
      NearestIsMultiple(r, q);
    }
  }

  lemma EvenMultiple(r: nat, q: nat)
    requires q > 0 && r % (2 * q) == 0
    ensures r % q == 0
  {
    var k := r / (2 * q);
    assert r == k * (2 * q) == (2 * k) * q;
    MultipleOf(2 * k, q);
  }

  predicate IsPowerOfTwo(q: nat) {
    q == 1 || (q > 0 && q % 2 == 0 && IsPowerOfTwo(q / 2))
  }

  // Rounded to a multiple of q: the nearest, of two equally near the even one.
  predicate IsNearest(n: nat, r: nat, q: nat)
    requires q > 0
  {
    r % q == 0 && 2 * (r - n) <= q && 2 * (n - r) <= q && (2 * (r - n) == q || 2 * (n - r) == q ==> r / q % 2 == 0)
  }

  lemma NearestMeaning(n: nat, q: nat)
    requires q > 0
    ensures IsNearest(n, NearestMultiple(n, q), q)
  {
    var (k, rest) := (n / q, n % q);
    assert n == k * q + rest;
    assert (k + 1) * q == k * q + q;
    MultipleOf(k, q);
    MultipleOf(k + 1, q);
  }

  /** Rounding keeps the 53 leading bits: the unit q is 1, or the power of two that leaves
      53 bits, and the result is the nearest multiple of it, ties to even. */
  lemma {:induction false} MagnitudeMeaning(n: nat, q: nat) returns (unit: nat)
    requires IsPowerOfTwo(q) && (q == 1 || n > TWO_52 * q)
    ensures IsPowerOfTwo(unit) && n <= TWO_53 * unit && (unit == 1 || n > TWO_52 * unit)
    ensures IsNearest(n, RoundMagnitude(n, q), unit)
    decreases n - q
  {
    if n <= q || n <= q * TWO_53 {
      NearestMeaning(n, q);
      return q;
    }
    assert (2 * q) / 2 == q;
    unit := MagnitudeMeaning(n, 2 * q);
  }

  /** Rounding keeps order. */
  lemma RoundKeepsOrder(n: int, m: int)
    requires n <= m
    ensures RoundToDouble(n) <= RoundToDouble(m)
  {
    if n >= 0 {
      MagnitudeKeepsOrder(n, m, 1);
    } else if m < 0 {
      MagnitudeKeepsOrder(-m, -n, 1);
    }
  }

  // The rounded value is an integer.
  function Rounded(n: int): (r: int)
    ensures r as real == RoundToDouble(n)
  {
    if n >= 0 then RoundMagnitude(n, 1) else -(RoundMagnitude(-n, 1) as int)
  }

  /** A rounded value is a double: it rounds to itself. */
  lemma RoundedStays(n: int)
    ensures Rounded(Rounded(n)) == Rounded(n)
  {
    if n >= 0 {
      MagnitudeFixed(n, 1);
    } else {
      MagnitudeFixed(-n, 1);
      if RoundMagnitude(-n, 1) == 0 {
        assert RoundMagnitude(0, 1) == 0;
      }
    }
  }

  lemma SmallStays(n: int)
    requires -TWO_53 <= n <= TWO_53
    ensures RoundToDouble(n) == n as real
  {
    NearestIsMultiple(if n >= 0 then n else -n, 1);
  }

  // The ends of the integers that serde_json holds are powers of two.
  lemma {:induction false} DoublesOfPower(q: nat, n: nat, k: nat)
    requires q > 0 && n == q * TWO_53
    ensures RoundMagnitude(Doubled(n, k), q) == Doubled(n, k)
    decreases k
  {
    if k == 0 {
      MultipleOf(TWO_53, q);
      NearestIsMultiple(n, q);
    } else {
      DoublesOfPower(2 * q, 2 * n, k - 1);
      DoubledGrows(2 * n, k - 1);
    }
  }

  function Doubled(n: nat, k: nat): nat
    decreases k
  {
    if k == 0 then n else Doubled(2 * n, k - 1)
  }

  lemma {:induction false} DoubledGrows(n: nat, k: nat)
    ensures Doubled(n, k) >= n
    decreases k
  {
    if k > 0 {
      DoubledGrows(2 * n, k - 1);
    }
  }

  lemma EndsStay()
    ensures RoundToDouble(0x1_0000_0000_0000_0000) == 0x1_0000_0000_0000_0000 as real
    ensures RoundToDouble(-0x8000_0000_0000_0000) == (-0x8000_0000_0000_0000) as real
  {
    DoublesOfPower(1, TWO_53, 10);
    DoublesOfPower(1, TWO_53, 11);
    assert Doubled(TWO_53, 10) == 0x8000_0000_0000_0000;
    assert Doubled(TWO_53, 11) == 0x1_0000_0000_0000_0000;
  }
}
