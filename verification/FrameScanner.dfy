/** Passive scans for the frames a generated executable embeds: capability
    records and definition digests, read in arbitrary chunks. */
module FrameScanner {
  import opened Text

  type byte = n: int | 0 <= n < 256
  type bytes = seq<byte>

  datatype ReadError = Missing | Malformed | Unsupported | Conflicting | Oversized | Unreadable
  datatype Result<T> = Ok(value: T) | Err(error: ReadError)

  // ----- frames of a byte string

  // A candidate frame is `len` bytes that have both framing constants in place.
  datatype Format = Format(framed: bytes -> bool, len: nat) {
    ghost predicate Valid() { 0 < len }
  }

  // `starts_with(open) && ends_with(close)`
  function FramedBy(open: bytes, close: bytes): bytes -> bool {
    (s: bytes) => open <= s && |close| <= |s| && s[|s| - |close|..] == close
  }

  // All frames that start at or after position i, in order.
  function FramesFrom(f: Format, s: bytes, i: nat): seq<bytes>
    decreases |s| - i
  {
    if i + f.len > |s| || i >= |s| then []
    else if f.framed(s[i..i + f.len]) then [s[i..i + f.len]] + FramesFrom(f, s, i + 1)
    else FramesFrom(f, s, i + 1)
  }

  function Frames(f: Format, s: bytes): seq<bytes> {
    FramesFrom(f, s, 0)
  }

  // The first frame must decode, and there must be no second one.
  function Verdict<T>(frames: seq<bytes>, decode: bytes -> Result<T>): Result<T> {
    if frames == [] then Err(Missing)
    else if decode(frames[0]).Err? then decode(frames[0])
    else if |frames| > 1 then Err(Conflicting)
    else decode(frames[0])
  }

  // What a scan has seen: nothing, one decoded frame, or a reason to stop.
  datatype Seen<T> = Nothing | One(value: T) | Stopped(error: ReadError)

  function Saw<T>(seen: Seen<T>, frame: bytes, decode: bytes -> Result<T>): Seen<T> {
    match seen
    case Nothing =>
      (match decode(frame)
       case Ok(v) => One(v)
       case Err(e) => Stopped(e))
    case One(_) => Stopped(Conflicting)
    case Stopped(_) => seen
  }

  function SawAll<T>(seen: Seen<T>, frames: seq<bytes>, decode: bytes -> Result<T>): Seen<T>
    decreases |frames|
  {
    if frames == [] then seen else SawAll(Saw(seen, frames[0], decode), frames[1..], decode)
  }

  function Conclude<T>(seen: Seen<T>): Result<T> {
    match seen
    case Nothing => Err(Missing)
    case One(v) => Ok(v)
    case Stopped(e) => Err(e)
  }

  lemma {:induction false} StoppedStays<T>(frames: seq<bytes>, e: ReadError, decode: bytes -> Result<T>)
    ensures SawAll(Stopped(e), frames, decode) == Stopped(e)
  {
    if frames != [] {
      StoppedStays(frames[1..], e, decode);
    }
  }

  // Folding over the frames gives the verdict on all of them.
  lemma FoldIsVerdict<T>(frames: seq<bytes>, decode: bytes -> Result<T>)
    ensures Conclude(SawAll(Nothing, frames, decode)) == Verdict(frames, decode)
  {
    if frames != [] {
      var first := Saw(Nothing, frames[0], decode);
      if first.Stopped? {
        StoppedStays(frames[1..], first.error, decode);
      } else if |frames| > 1 {
        StoppedStays(frames[1..][1..], Conflicting, decode);
      }
    }
  }

  lemma {:induction false} SawAllAppend<T>(seen: Seen<T>, a: seq<bytes>, b: seq<bytes>, decode: bytes -> Result<T>)
    ensures SawAll(seen, a + b, decode) == SawAll(SawAll(seen, a, decode), b, decode)
    decreases |a|
  {
    if a == [] {
      assert a + b == b;
    } else {
      assert (a + b)[1..] == a[1..] + b;
      SawAllAppend(Saw(seen, a[0], decode), a[1..], b, decode);
    }
  }

  // Frames of s and then those that only `s + t` completes.
  lemma {:induction false} FramesExtend(f: Format, s: bytes, t: bytes, i: nat)
    requires f.Valid() && i <= |s|
    ensures FramesFrom(f, s + t, i) == FramesFrom(f, s, i) + FramesFrom(f, s + t, NextStart(f, s, i))
    decreases |s| - i
  {
    if i + f.len <= |s| {
      assert (s + t)[i..i + f.len] == s[i..i + f.len];
      FramesExtend(f, s, t, i + 1);
      var here, more := [s[i..i + f.len]], FramesFrom(f, s + t, NextStart(f, s, i));
      assert here + (FramesFrom(f, s, i + 1) + more) == here + FramesFrom(f, s, i + 1) + more;
    } else {
      assert FramesFrom(f, s, i) == [];
    }
  }

  // The first start, from i on, whose frame s does not yet complete.
  function NextStart(f: Format, s: bytes, i: nat): nat {
    if i + f.len <= |s| then |s| - f.len + 1 else i
  }

  // Frames see only the bytes from their start on.
  lemma {:induction false} FramesShift(f: Format, s: bytes, d: nat, i: nat)
    requires f.Valid() && d + i <= |s|
    ensures FramesFrom(f, s[d..], i) == FramesFrom(f, s, d + i)
    decreases |s| - i
  {
    if d + i + f.len <= |s| {
      assert s[d..][i..i + f.len] == s[d + i..d + i + f.len];
      FramesShift(f, s, d, i + 1);
    }
  }

  // ----- what the frames of a byte string are

  ghost predicate StartsAt(f: Format, s: bytes, j: nat) {
    j + f.len <= |s| && f.framed(s[j..j + f.len])
  }

  ghost predicate OnlyStart(f: Format, s: bytes, j: nat) {
    StartsAt(f, s, j) && forall k: nat :: StartsAt(f, s, k) ==> k == j
  }

  ghost predicate NoStart(f: Format, s: bytes, from: nat, to: nat) {
    forall k: nat :: from <= k < to ==> !StartsAt(f, s, k)
  }

  // The first start from i on; past the end when there is none.
  lemma {:induction false} FirstStart(f: Format, s: bytes, i: nat) returns (j: nat)
    requires f.Valid()
    ensures i <= j && NoStart(f, s, i, j)
    ensures if FramesFrom(f, s, i) == [] then j + f.len > |s| else
              StartsAt(f, s, j) && FramesFrom(f, s, i) == [s[j..j + f.len]] + FramesFrom(f, s, j + 1)
    decreases |s| - i
  {
    j := i;
    if i + f.len <= |s| {
      if !f.framed(s[i..i + f.len]) {
        assert !StartsAt(f, s, i);
        j := FirstStart(f, s, i + 1);
      }
    }
  }

  /** A scan succeeds exactly when the content holds one frame, and it decodes. */
  lemma VerdictMeaning<T>(f: Format, s: bytes, decode: bytes -> Result<T>)
    requires f.Valid()
    ensures Verdict(Frames(f, s), decode).Ok?
       <==> exists j: nat :: OnlyStart(f, s, j) && decode(s[j..j + f.len]).Ok?
    ensures Verdict(Frames(f, s), decode).Ok? ==>
              exists j: nat :: OnlyStart(f, s, j) && Verdict(Frames(f, s), decode) == decode(s[j..j + f.len])
  {
    var j := FirstStart(f, s, 0);
    var k := FirstStart(f, s, j + 1);
    if |Frames(f, s)| == 1 {
      assert OnlyStart(f, s, j);
    }
  }

  ghost predicate FirstAt(f: Format, s: bytes, j: nat) {
    StartsAt(f, s, j) && NoStart(f, s, 0, j)
  }

  ghost predicate LaterStart(f: Format, s: bytes, j: nat) {
    exists k: nat :: j < k && StartsAt(f, s, k)
  }

  // The verdict from the places of frames: none, or the first one and whether
  // another follows.
  lemma VerdictByPlaces<T>(f: Format, s: bytes, decode: bytes -> Result<T>) returns (first: Option<nat>)
    requires f.Valid()
    ensures match first
            case None => (forall j: nat :: !StartsAt(f, s, j)) && Verdict(Frames(f, s), decode) == Err(Missing)
            case Some(j) =>
              && FirstAt(f, s, j)
              && var r := decode(s[j..j + f.len]);
                 Verdict(Frames(f, s), decode) == if r.Ok? && LaterStart(f, s, j) then Err(Conflicting) else r
  {
    var j := FirstStart(f, s, 0);
    if Frames(f, s) == [] {
      assert forall i: nat :: StartsAt(f, s, i) ==> i < j;
      return None;
    }
    var k := FirstStart(f, s, j + 1);
    assert LaterStart(f, s, j) <==> FramesFrom(f, s, j + 1) != [];
    return Some(j);
  }

  // ----- the window loop both scanners share

  // `for frame in window.windows(len)`: every start in the window, in order.
  method ScanWindow<T>(f: Format, window: bytes, seen: Seen<T>, decode: bytes -> Result<T>) returns (r: Seen<T>)
    requires f.Valid() && !seen.Stopped?
    ensures r == SawAll(seen, Frames(f, window), decode)
  {
    r := seen;
    var i := 0;
    while i + f.len <= |window|
      invariant 0 <= i <= |window| && !r.Stopped?
      invariant SawAll(r, FramesFrom(f, window, i), decode) == SawAll(seen, Frames(f, window), decode)
    {
      var frame := window[i..i + f.len];
      ghost var rest := FramesFrom(f, window, i + 1);
      if f.framed(frame) {
        assert ([frame] + rest)[0] == frame && ([frame] + rest)[1..] == rest;
        r := Saw(r, frame, decode);
        if r.Stopped? {
          StoppedStays(rest, r.error, decode);
          return;
        }
      }
      i := i + 1;
    }
  }

  // `window.drain(..)`: keep the bytes that may still start a frame.
  function Retain(f: Format, window: bytes): (r: bytes)
    requires f.Valid()
  {
    window[if |window| < f.len then 0 else |window| - (f.len - 1)..]
  }

  // Scanning `consumed` so far, with `window` its undecided end.
  ghost predicate InStep<T>(f: Format, consumed: bytes, window: bytes, seen: Seen<T>, decode: bytes -> Result<T>) {
    && !seen.Stopped?
    && |window| < f.len && |window| <= |consumed| && window == consumed[|consumed| - |window|..]
    && (|window| < f.len - 1 ==> window == consumed)
    && seen == SawAll(Nothing, Frames(f, consumed), decode)
  }

  // Scanning the window extended by a chunk continues the scan of the whole:
  // no frame start is skipped and none is seen twice.
  lemma StepExtends<T>(f: Format, consumed: bytes, window: bytes, seen: Seen<T>, chunk: bytes,
                       decode: bytes -> Result<T>)
    requires f.Valid() && InStep(f, consumed, window, seen, decode)
    ensures SawAll(seen, Frames(f, window + chunk), decode) == SawAll(Nothing, Frames(f, consumed + chunk), decode)
    ensures var next := Retain(f, window + chunk);
            && |next| < f.len && next == (consumed + chunk)[|consumed + chunk| - |next|..]
            && (|next| < f.len - 1 ==> next == consumed + chunk)
  {
    var all := consumed + chunk;
    var d := |consumed| - |window|;
    assert all[d..] == window + chunk;
    FramesExtend(f, consumed, chunk, 0);
    FramesShift(f, all, d, 0);
    assert NextStart(f, consumed, 0) == d;
    SawAllAppend(Nothing, Frames(f, consumed), FramesFrom(f, all, d), decode);
  }

  // A stop decides the verdict on everything, whatever follows.
  lemma StopDecides<T>(f: Format, consumed: bytes, rest: bytes, seen: Seen<T>, decode: bytes -> Result<T>)
    requires f.Valid() && seen == SawAll(Nothing, Frames(f, consumed), decode)
    ensures seen.Stopped? ==> Verdict(Frames(f, consumed + rest), decode) == Err(seen.error)
  {
    FoldIsVerdict(Frames(f, consumed + rest), decode);
    FramesExtend(f, consumed, rest, 0);
    var more := FramesFrom(f, consumed + rest, NextStart(f, consumed, 0));
    SawAllAppend(Nothing, Frames(f, consumed), more, decode);
    if seen.Stopped? {
      StoppedStays(more, seen.error, decode);
    }
  }

  // ----- readers

  const READ_BLOCK_SIZE: nat := 64 * 1024
  const MAX_ARTIFACT_BYTES: nat := 512 * 1024 * 1024
  const U64_MAX: nat := 0xFFFF_FFFF_FFFF_FFFF

  // How a reader answers its next call: an interruption, a failure, or some
  // bytes; it returns none only at the end. After the script it fills the
  // block. Every finite behaviour of a reader is one such script.
  datatype Reply = Interrupted | Failed | Bytes(want: nat)

  function ReplyAt(script: seq<Reply>, turn: nat): Reply {
    if turn < |script| then script[turn] else Bytes(0)
  }

  function Count(reply: Reply, blockLen: nat, remaining: nat): (n: nat)
    requires blockLen > 0
    ensures n <= blockLen && n <= remaining && (n == 0 <==> remaining == 0)
  {
    var want := if reply.Bytes? && reply.want > 0 then reply.want else blockLen;
    var most := if want < blockLen then want else blockLen;
    if most < remaining then most else remaining
  }

  lemma EndDecides<T>(f: Format, decode: bytes -> Result<T>, content: bytes, window: bytes, seen: Seen<T>)
    requires f.Valid() && InStep(f, content[..|content|], window, seen, decode)
    ensures Conclude(seen) == Verdict(Frames(f, content), decode)
  {
    assert content[..|content|] == content;
    FoldIsVerdict(Frames(f, content), decode);
  }

  // One chunk: extend the window, scan it, and keep its undecided end.
  method Feed<T>(f: Format, decode: bytes -> Result<T>, content: bytes, from: nat, to: nat,
                 window: bytes, seen: Seen<T>)
    returns (w: bytes, r: Seen<T>)
    requires f.Valid() && from <= to <= |content| && InStep(f, content[..from], window, seen, decode)
    ensures if r.Stopped? then Verdict(Frames(f, content), decode) == Err(r.error)
            else InStep(f, content[..to], w, r, decode)
  {
    var chunk := content[from..to];
    assert content[..from] + chunk == content[..to];
    StepExtends(f, content[..from], window, seen, chunk, decode);
    r := ScanWindow(f, window + chunk, seen, decode);
    w := Retain(f, window + chunk);
    if r.Stopped? {
      StopDecides(f, content[..to], content[to..], r, decode);
      assert content[..to] + content[to..] == content;
    }
  }

  /** `capabilities_from_reader`: whatever the chunks and interruptions, the result
      is the verdict on the whole content, unless the reader fails or the content
      is over the limit; then it is never Ok. */
  method ScanReader<T>(f: Format, decode: bytes -> Result<T>, content: bytes, script: seq<Reply>, limit: nat)
    returns (r: Result<T>)
    requires f.Valid() && limit <= U64_MAX
    ensures |content| <= limit && Failed !in script ==> r == Verdict(Frames(f, content), decode)
    ensures |content| > limit ==> r.Err?
    ensures r == Verdict(Frames(f, content), decode)
            || (r == Err(Oversized) && |content| > limit) || (r == Err(Unreadable) && Failed in script)
  {
    var window, total, seen, turn := [], 0, Nothing, 0;
    while true
      invariant 0 <= total <= |content| && total <= limit && turn <= |script|
      invariant InStep(f, content[..total], window, seen, decode)
      decreases |content| - total + |script| - turn
    {
      var remaining := if limit - total + 1 > U64_MAX then U64_MAX else limit - total + 1;
      var blockLen := if remaining < READ_BLOCK_SIZE then remaining else READ_BLOCK_SIZE;
      var reply := ReplyAt(script, turn);
      turn := if turn < |script| then turn + 1 else turn;
      if reply.Interrupted? {
        continue;
      }
      if reply.Failed? {
        return Err(Unreadable);
      }
      var count := Count(reply, blockLen, |content| - total);
      if count == 0 {
        break;
      }
      total := total + count;
      if total > limit {
        return Err(Oversized);
      }
      window, seen := Feed(f, decode, content, total - count, total, window, seen);
      if seen.Stopped? {
        return Err(seen.error);
      }
    }
    EndDecides(f, decode, content, window, seen);
    return Conclude(seen);
  }

  /** The read loop of `definition_for_artifact`: full blocks are requested, and an
      interruption is an error like any other. */
  method ScanArtifact<T>(f: Format, decode: bytes -> Result<T>, content: bytes, script: seq<Reply>)
    returns (r: Result<T>)
    requires f.Valid()
    ensures |content| <= MAX_ARTIFACT_BYTES && Failed !in script && Interrupted !in script
            ==> r == Verdict(Frames(f, content), decode)
    ensures |content| > MAX_ARTIFACT_BYTES ==> r.Err?
    ensures r == Verdict(Frames(f, content), decode)
            || (r == Err(Oversized) && |content| > MAX_ARTIFACT_BYTES)
            || (r == Err(Unreadable) && (Failed in script || Interrupted in script))
  {
    var window, total, seen, turn := [], 0, Nothing, 0;
    while true
      invariant 0 <= total <= |content| && total <= MAX_ARTIFACT_BYTES && turn <= |script|
      invariant InStep(f, content[..total], window, seen, decode)
      decreases |content| - total
    {
      var reply := ReplyAt(script, turn);
      turn := if turn < |script| then turn + 1 else turn;
      if !reply.Bytes? {
        return Err(Unreadable);
      }
      var count := Count(reply, READ_BLOCK_SIZE, |content| - total);
      if count == 0 {
        break;
      }
      total := total + count;
      if total > MAX_ARTIFACT_BYTES {
        return Err(Oversized);
      }
      window, seen := Feed(f, decode, content, total - count, total, window, seen);
      if seen.Stopped? {
        return Err(seen.error);
      }
    }
    EndDecides(f, decode, content, window, seen);
    return Conclude(seen);
  }
}
