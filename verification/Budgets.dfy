/** The definition checker's limits and its mutable work counter. */
module Budgets {

  const MAX_STRING_BYTES: nat := 256 * 1024
  const MAX_KEY_BYTES: nat := 256
  const MAX_TEXT_BYTES: nat := 1024 * 1024
  const MAX_NODES: nat := 65_536
  const MAX_DEPTH: nat := 32
  const MAX_COLLECTION: nat := 4_096
  const MAX_DECLARATIONS: nat := 256
  const MAX_PARTS: nat := 1_024
  const MAX_WORK: nat := 262_144
  const USIZE_MAX: nat := 0xFFFF_FFFF_FFFF_FFFF

  function SaturatingAdd(a: nat, b: nat): nat {
    if a + b > USIZE_MAX then USIZE_MAX else a + b
  }

  class Budget {
    var work: nat

    constructor ()
      ensures work == 0
    {
      work := 0;
    }

    method Charge(amount: nat) returns (ok: bool)
      modifies this
      ensures work == SaturatingAdd(old(work), amount)
      ensures ok <==> old(work) + amount <= MAX_WORK
    {
      work := SaturatingAdd(work, amount);
      ok := work <= MAX_WORK;
    }
  }
}
