/** The records generated executables embed, and what the scanners return for them. */
module Declarations {
  import opened FrameScanner

  const OPEN: bytes := [0, 217, 82, 166, 31, 240, 75, 136, 3, 193, 109, 229, 56, 154, 7, 252]
  const CLOSE: bytes := [253, 6, 155, 57, 228, 108, 192, 2, 137, 74, 241, 30, 167, 83, 216, 0]
  // "cargo-ai.generated-runtime" and "cargo-ai.cli-run-runtime" with two zero bytes.
  const IDENTITY: bytes := [
    99, 97, 114, 103, 111, 45, 97, 105, 46, 103, 101, 110, 101,
    114, 97, 116, 101, 100, 45, 114, 117, 110, 116, 105, 109, 101]
  const CLI_IDENTITY: bytes := [
    99, 97, 114, 103, 111, 45, 97, 105, 46, 99, 108, 105, 45,
    114, 117, 110, 45, 114, 117, 110, 116, 105, 109, 101, 0, 0]
  const RECORD_LEN: nat := 66
  const DEFINITION_OPEN: bytes := [17, 209, 42, 66, 171, 99, 187, 13, 214, 3, 168, 194, 51, 17, 222, 31]
  const DEFINITION_CLOSE: bytes := [32, 221, 18, 52, 193, 169, 4, 215, 14, 188, 100, 172, 67, 43, 210, 18]

  const RECORD: Format := Format(FramedBy(OPEN, CLOSE), RECORD_LEN)
  const DEFINITION: Format := Format(FramedBy(DEFINITION_OPEN, DEFINITION_CLOSE), 96)

  // ----- capability records

  datatype Capabilities = Capabilities(cliRun: bool, revision: nat)

  // The feature bits of each revision, from the first on.
  function Flags(revision: nat): nat
    requires 1 <= revision <= 8
  {
    [15, 127, 255, 511, 1023, 2047, 4095, 8191][revision - 1]
  }

  // `u32::to_le_bytes` of the small values a record holds.
  function LittleEndian(n: nat): bytes
    requires n < 0x1_0000
  {
    [n % 256, n / 256, 0, 0]
  }

  // `encoded_record`: the declaration of the current revision.
  function EncodedRecord(cliRun: bool): (r: bytes)
    ensures |r| == RECORD_LEN
  {
    OPEN + (if cliRun then CLI_IDENTITY else IDENTITY) + LittleEndian(8) + LittleEndian(8191) + CLOSE
  }

  // `copy_from_slice` over the payload, four bytes at a time.
  function Patched(record: bytes, revision: nat, flags: nat): bytes
    requires |record| == RECORD_LEN && revision < 0x1_0000 && flags < 0x1_0000
  {
    var first := record[..42] + LittleEndian(revision) + record[46..];
    first[..46] + LittleEndian(flags) + first[50..]
  }

  function FromLittleEndian(b: bytes): nat
    requires |b| == 4
  {
    b[0] as int + 256 * b[1] as int + 0x1_0000 * b[2] as int + 0x100_0000 * b[3] as int
  }

  // The declarations a reader accepts: the current one, and seven patched from it.
  predicate IsTemplate(record: bytes, cliRun: bool) {
    var current := EncodedRecord(cliRun);
    || record == current
    || record == Patched(current, 1, 15)
    || record == Patched(current, 2, 127)
    || record == Patched(current, 3, 255)
    || record == Patched(current, 4, 511)
    || record == Patched(current, 5, 1023)
    || record == Patched(current, 6, 2047)
    || record == Patched(current, 7, 4095)
  }

  // `decode_record`: the revision is read from the record, the whole record compared.
  function Decode(record: bytes): Result<Capabilities> {
    if |record| != RECORD_LEN || !RECORD.framed(record) then Err(Malformed)
    else
      var identity := record[16..42];
      if identity != CLI_IDENTITY && identity != IDENTITY then Err(Malformed)
      else
        var cliRun := identity == CLI_IDENTITY;
        if IsTemplate(record, cliRun) then Ok(Capabilities(cliRun, FromLittleEndian(record[42..46])))
        else Err(Unsupported)
  }

  // ----- what is accepted

  // The declaration of a runtime: its kind, its revision and the bits of that revision.
  function Encode(c: Capabilities): (r: bytes)
    requires 1 <= c.revision <= 8
    ensures |r| == RECORD_LEN
  {
    OPEN + (if c.cliRun then CLI_IDENTITY else IDENTITY)
    + LittleEndian(c.revision) + LittleEndian(Flags(c.revision)) + CLOSE
  }

  lemma PatchedPayload(cliRun: bool, revision: nat, flags: nat)
    requires 1 <= revision <= 8 && flags == Flags(revision)
    ensures Patched(EncodedRecord(cliRun), revision, flags) == Encode(Capabilities(cliRun, revision))
  {
    PatchedParts(OPEN + (if cliRun then CLI_IDENTITY else IDENTITY), LittleEndian(8), LittleEndian(8191), CLOSE,
                 LittleEndian(revision), LittleEndian(flags));
  }

  // Replacing the two middle parts of a record.
  lemma PatchedParts(head: bytes, a: bytes, b: bytes, tail: bytes, c: bytes, d: bytes)
    requires |head| == 42 && |a| == |b| == |c| == |d| == 4
    ensures var record := head + a + b + tail;
            var first := record[..42] + c + record[46..];
            first[..46] + d + first[50..] == head + c + d + tail
  {
    var record := head + a + b + tail;
    assert record[..42] == head && record[46..] == b + tail;
    var first := record[..42] + c + record[46..];
    assert first == head + c + b + tail;
    assert first[..46] == head + c && first[50..] == tail;
  }

  lemma TemplatesAreEncoded(record: bytes, cliRun: bool)
    ensures IsTemplate(record, cliRun)
       <==> exists revision :: 1 <= revision <= 8 && record == Encode(Capabilities(cliRun, revision))
  {
    PatchedPayload(cliRun, 1, 15);
    PatchedPayload(cliRun, 2, 127);
    PatchedPayload(cliRun, 3, 255);
    PatchedPayload(cliRun, 4, 511);
    PatchedPayload(cliRun, 5, 1023);
    PatchedPayload(cliRun, 6, 2047);
    PatchedPayload(cliRun, 7, 4095);
    assert EncodedRecord(cliRun) == Encode(Capabilities(cliRun, 8));
    TemplateOf(record, cliRun);
  }

  // One disjunct of the comparisons for each revision.
  lemma TemplateOf(record: bytes, cliRun: bool)
    ensures (exists revision :: 1 <= revision <= 8 && record == Encode(Capabilities(cliRun, revision)))
       <==> || record == Encode(Capabilities(cliRun, 1)) || record == Encode(Capabilities(cliRun, 2))
            || record == Encode(Capabilities(cliRun, 3)) || record == Encode(Capabilities(cliRun, 4))
            || record == Encode(Capabilities(cliRun, 5)) || record == Encode(Capabilities(cliRun, 6))
            || record == Encode(Capabilities(cliRun, 7)) || record == Encode(Capabilities(cliRun, 8))
  {
  }

  lemma FromLittleEndianOf(n: nat)
    requires n < 0x1_0000
    ensures FromLittleEndian(LittleEndian(n)) == n
  {
  }

  lemma EncodedParts(record: bytes, c: Capabilities)
    requires 1 <= c.revision <= 8 && record == Encode(c)
    ensures RECORD.framed(record)
    ensures record[16..42] == if c.cliRun then CLI_IDENTITY else IDENTITY
    ensures record[42..46] == LittleEndian(c.revision)
  {
    var body := (if c.cliRun then CLI_IDENTITY else IDENTITY)
                + LittleEndian(c.revision) + LittleEndian(Flags(c.revision));
    assert record == OPEN + body + CLOSE;
  }

  /** The eight comparisons accept exactly the declarations whose feature bits are those
      of the revision they carry, and read back their kind and revision. */
  lemma DecodeIffEncoded(record: bytes, c: Capabilities)
    ensures Decode(record) == Ok(c) <==> 1 <= c.revision <= 8 && record == Encode(c)
  {
    assert CLI_IDENTITY[9] != IDENTITY[9];
    TemplatesAreEncoded(record, true);
    TemplatesAreEncoded(record, false);
    if 1 <= c.revision <= 8 && record == Encode(c) {
      EncodedParts(record, c);
      FromLittleEndianOf(c.revision);
    }
    if Decode(record) == Ok(c) {
      var revision :| 1 <= revision <= 8 && record == Encode(Capabilities(c.cliRun, revision));
      EncodedParts(record, Capabilities(c.cliRun, revision));
      FromLittleEndianOf(revision);
    }
  }

  // ----- what a scan returns, by the places of records in the content

  // Both framing constants, 66 bytes apart at their ends; what stands alone is no record.
  ghost predicate RecordAt(s: bytes, j: nat) {
    j + 66 <= |s| && s[j..j + 16] == OPEN && s[j + 50..j + 66] == CLOSE
  }

  ghost predicate FirstRecord(s: bytes, j: nat) {
    RecordAt(s, j) && forall k: nat :: k < j ==> !RecordAt(s, k)
  }

  ghost predicate KnownIdentity(record: bytes)
    requires |record| == 66
  {
    record[16..42] == CLI_IDENTITY || record[16..42] == IDENTITY
  }

  ghost predicate IsDeclaration(record: bytes) {
    exists c: Capabilities :: 1 <= c.revision <= 8 && record == Encode(c)
  }

  // The first record decides, unless it is a declaration and another record follows.
  ghost predicate RecordVerdict(s: bytes, r: Result<Capabilities>) {
    match r
    case Ok(c) =>
      && 1 <= c.revision <= 8
      && exists j: nat :: FirstRecord(s, j) && s[j..j + 66] == Encode(c) && forall k: nat :: j < k ==> !RecordAt(s, k)
    case Err(Missing) => forall j: nat :: !RecordAt(s, j)
    case Err(Malformed) => exists j: nat :: FirstRecord(s, j) && !KnownIdentity(s[j..j + 66])
    case Err(Unsupported) =>
      exists j: nat :: FirstRecord(s, j) && KnownIdentity(s[j..j + 66]) && !IsDeclaration(s[j..j + 66])
    case Err(Conflicting) =>
      exists j: nat, k: nat :: FirstRecord(s, j) && IsDeclaration(s[j..j + 66]) && j < k && RecordAt(s, k)
    case _ => false
  }

  lemma RecordStarts(s: bytes, j: nat)
    ensures StartsAt(RECORD, s, j) <==> RecordAt(s, j)
  {
    if j + 66 <= |s| {
      var record := s[j..j + 66];
      assert record[..16] == s[j..j + 16] && record[50..] == s[j + 50..j + 66];
      assert OPEN <= record <==> record[..16] == OPEN;
    }
  }

  lemma DecodeErrors(record: bytes)
    requires RecordAt(record, 0) && |record| == 66
    ensures Decode(record) == Err(Malformed) <==> !KnownIdentity(record)
    ensures Decode(record) == Err(Unsupported) <==> KnownIdentity(record) && !IsDeclaration(record)
    ensures Decode(record).Ok? <==> IsDeclaration(record)
  {
    RecordStarts(record, 0);
    assert record[0..66] == record;
    forall c: Capabilities | 1 <= c.revision <= 8 && record == Encode(c) ensures Decode(record) == Ok(c) {
      DecodeIffEncoded(record, c);
    }
    if Decode(record).Ok? {
      DecodeIffEncoded(record, Decode(record).value);
    }
  }

  // What the first record makes of the scan, when another one follows or not.
  ghost predicate Answer(record: bytes, later: bool, r: Result<Capabilities>)
    requires |record| == 66
  {
    match r
    case Ok(c) => 1 <= c.revision <= 8 && record == Encode(c) && !later
    case Err(Malformed) => !KnownIdentity(record)
    case Err(Unsupported) => KnownIdentity(record) && !IsDeclaration(record)
    case Err(Conflicting) => IsDeclaration(record) && later
    case _ => false
  }

  lemma AnswerDecoded(record: bytes, later: bool, r: Result<Capabilities>)
    requires RecordAt(record, 0) && |record| == 66
    ensures var d := Decode(record);
            (if d.Ok? && later then Err(Conflicting) else d) == r <==> Answer(record, later, r)
  {
    DecodeErrors(record);
    if r.Ok? {
      DecodeIffEncoded(record, r.value);
    }
  }

  lemma AnswerAtFirst(s: bytes, j: nat, later: bool, r: Result<Capabilities>)
    requires FirstRecord(s, j) && (later <==> exists k: nat :: j < k && RecordAt(s, k))
    ensures RecordVerdict(s, r) <==> Answer(s[j..j + 66], later, r)
  {
    assert forall k: nat :: FirstRecord(s, k) ==> k == j;
  }

  lemma FirstRecordDecides(s: bytes, j: nat, later: bool, r: Result<Capabilities>)
    requires FirstRecord(s, j) && (later <==> exists k: nat :: j < k && RecordAt(s, k))
    ensures var d := Decode(s[j..j + 66]);
            (if d.Ok? && later then Err(Conflicting) else d) == r <==> RecordVerdict(s, r)
  {
    var record := s[j..j + 66];
    assert record[0..16] == s[j..j + 16] && record[50..66] == s[j + 50..j + 66];
    AnswerDecoded(record, later, r);
    AnswerAtFirst(s, j, later, r);
  }

  /** What the scan for capabilities answers, for every content: each result and each
      error by the places of the framing constants alone. */
  lemma RecordVerdictIff(s: bytes, r: Result<Capabilities>)
    ensures Verdict(Frames(RECORD, s), Decode) == r <==> RecordVerdict(s, r)
  {
    var first := VerdictByPlaces(RECORD, s, Decode);
    forall j: nat ensures StartsAt(RECORD, s, j) <==> RecordAt(s, j) {
      RecordStarts(s, j);
    }
    if first.Some? {
      FirstRecordDecides(s, first.value, LaterStart(RECORD, s, first.value), r);
    }
  }

  method CapabilitiesFromReader(content: bytes, script: seq<Reply>, limit: nat) returns (r: Result<Capabilities>)
    requires limit <= U64_MAX
    ensures |content| <= limit && Failed !in script ==> RecordVerdict(content, r)
    ensures |content| > limit ==> r.Err?
    ensures r.Ok? ==> |content| <= limit && RecordVerdict(content, r)
    ensures r == Err(Oversized) ==> |content| > limit
    ensures r == Err(Unreadable) ==> Failed in script
  {
    RecordVerdictIff(content, Verdict(Frames(RECORD, content), Decode));
    r := ScanReader(RECORD, Decode, content, script, limit);
  }

  // ----- definition digests

  predicate IsLowerHex(b: byte) {
    48 <= b <= 57 || 97 <= b <= 102
  }

  function Digest(frame: bytes): Result<bytes> {
    if |frame| == 96 && forall i :: 16 <= i < 80 ==> IsLowerHex(frame[i]) then Ok(frame[16..80]) else Err(Malformed)
  }

  ghost predicate DigestAt(s: bytes, j: nat) {
    j + 96 <= |s| && s[j..j + 16] == DEFINITION_OPEN && s[j + 80..j + 96] == DEFINITION_CLOSE
  }

  ghost predicate FirstDigest(s: bytes, j: nat) {
    DigestAt(s, j) && forall k: nat :: k < j ==> !DigestAt(s, k)
  }

  // Lowercase hex digits between the framing constants.
  ghost predicate HexAt(s: bytes, j: nat)
    requires j + 96 <= |s|
  {
    forall i :: j + 16 <= i < j + 80 ==> s[i] as char in "0123456789abcdef"
  }

  lemma HexDigits(b: byte)
    ensures IsLowerHex(b) <==> b as char in "0123456789abcdef"
  {
    var digits := "0123456789abcdef";
    if 48 <= b <= 57 {
      assert digits[b - 48] == b as char;
    } else if 97 <= b <= 102 {
      assert digits[b - 87] == b as char;
    }
  }

  ghost predicate DigestVerdict(s: bytes, r: Result<bytes>) {
    match r
    case Ok(digest) =>
      exists j: nat :: && FirstDigest(s, j) && HexAt(s, j) && digest == s[j + 16..j + 80]
                       && forall k: nat :: j < k ==> !DigestAt(s, k)
    case Err(Missing) => forall j: nat :: !DigestAt(s, j)
    case Err(Malformed) => exists j: nat :: FirstDigest(s, j) && !HexAt(s, j)
    case Err(Conflicting) => exists j: nat, k: nat :: FirstDigest(s, j) && HexAt(s, j) && j < k && DigestAt(s, k)
    case _ => false
  }

  lemma DigestStarts(s: bytes, j: nat)
    ensures StartsAt(DEFINITION, s, j) <==> DigestAt(s, j)
  {
    if j + 96 <= |s| {
      var frame := s[j..j + 96];
      assert frame[..16] == s[j..j + 16] && frame[80..] == s[j + 80..j + 96];
      assert DEFINITION_OPEN <= frame <==> frame[..16] == DEFINITION_OPEN;
    }
  }

  lemma DigestOf(s: bytes, j: nat)
    requires j + 96 <= |s|
    ensures Digest(s[j..j + 96]) == if HexAt(s, j) then Ok(s[j + 16..j + 80]) else Err(Malformed)
  {
    var frame := s[j..j + 96];
    assert |frame[16..80]| == |s[j + 16..j + 80]|;
    assert forall i :: 0 <= i < 64 ==> frame[16..80][i] == frame[16 + i] == s[j + (16 + i)];
    assert frame[16..80] == s[j + 16..j + 80];
    forall i | 16 <= i < 80 ensures IsLowerHex(frame[i]) <==> s[j + i] as char in "0123456789abcdef" {
      HexDigits(frame[i]);
    }
    assert forall i :: j + 16 <= i < j + 80 ==> s[i] == s[j + (i - j)];
    assert forall i :: 16 <= i < 80 ==> frame[i] == s[j + i];
  }

  lemma FirstDigestDecides(s: bytes, j: nat, later: bool, r: Result<bytes>)
    requires FirstDigest(s, j) && (later <==> exists k: nat :: j < k && DigestAt(s, k))
    ensures var d := Digest(s[j..j + 96]);
            (if d.Ok? && later then Err(Conflicting) else d) == r <==> DigestVerdict(s, r)
  {
    DigestOf(s, j);
    assert forall k: nat :: FirstDigest(s, k) ==> k == j;
  }

  /** The scan for a definition digest likewise. */
  lemma DigestVerdictIff(s: bytes, r: Result<bytes>)
    ensures Verdict(Frames(DEFINITION, s), Digest) == r <==> DigestVerdict(s, r)
  {
    var first := VerdictByPlaces(DEFINITION, s, Digest);
    forall j: nat ensures StartsAt(DEFINITION, s, j) <==> DigestAt(s, j) {
      DigestStarts(s, j);
    }
    if first.Some? {
      FirstDigestDecides(s, first.value, LaterStart(DEFINITION, s, first.value), r);
    }
  }

  method DefinitionForArtifact(content: bytes, script: seq<Reply>) returns (r: Result<bytes>)
    ensures |content| <= MAX_ARTIFACT_BYTES && Failed !in script && Interrupted !in script ==> DigestVerdict(content, r)
    ensures r.Ok? ==> |content| <= MAX_ARTIFACT_BYTES && DigestVerdict(content, r)
    ensures |content| > MAX_ARTIFACT_BYTES ==> r.Err?
    ensures r == Err(Oversized) ==> |content| > MAX_ARTIFACT_BYTES
    ensures r == Err(Unreadable) ==> Failed in script || Interrupted in script
  {
    DigestVerdictIff(content, Verdict(Frames(DEFINITION, content), Digest));
    r := ScanArtifact(DEFINITION, Digest, content, script);
  }
}
