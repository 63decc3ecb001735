/** The segment file header and its 53-byte encoding (tcslog/src/header.rs). */
module Header {
  import opened Bytes
  import opened Format

  const HEADER_LEN: nat := 53
  const VERSION_MAJOR: nat := 1
  const VERSION_PATCH: nat := 0
  const MAGIC: seq<byte> := [116, 99, 115, 108, 111, 103, 115, 102]

  datatype Header = Header(
    segmentId: u64,
    sessionId: u64,
    maxSize: u32,
    remaining: u64,
    format: Format,
    sequence: u64,
    minor: nat)
  {
    /** Data section length implied by the maximum size, saturating at zero. */
    function DataLen(): nat {
      if maxSize < HEADER_LEN then 0 else maxSize - HEADER_LEN
    }

    /** What decoding can yield: a version this build reads and a format. */
    predicate Readable() { minor <= VERSION_MINOR && format.Valid() }
  }

  datatype HeaderError = InvalidHeader | VersionMismatch

  function Digit(d: nat): byte
    requires d < 10
  {
    48 + d
  }

  predicate IsDigit(b: byte) { 48 <= b <= 57 }

  function VersionBytes(minor: nat): (s: seq<byte>)
    ensures |s| == 4
  {
    [Digit(VERSION_MAJOR / 10), Digit(VERSION_MAJOR % 10), Digit(minor % 10), Digit(VERSION_PATCH % 10)]
  }

  function CheckVersion(field: seq<byte>): (r: Result<nat, HeaderError>)
    ensures r.Ok? ==> r.value <= VERSION_MINOR
  {
    if |field| != 4 || exists i :: 0 <= i < |field| && !IsDigit(field[i]) then Err(VersionMismatch)
    else
      var major := (field[0] - 48) * 10 + (field[1] - 48);
      var minor := field[2] - 48;
      if major == VERSION_MAJOR && minor <= VERSION_MINOR then Ok(minor) else Err(VersionMismatch)
  }

  function ToBytes(h: Header): (s: seq<byte>)
    ensures |s| == HEADER_LEN
  {
    MAGIC + VersionBytes(h.minor) + ToLe(h.segmentId, 8) + ToLe(h.sessionId, 8)
    + ToLe(h.maxSize, 4) + ToLe(h.remaining, 8) + [h.format.Tag()]
    + ToLe(h.format.FixedLen(), 4) + ToLe(h.sequence, 8)
  }

  function FromBytes(s: seq<byte>): (r: Result<Header, HeaderError>)
    ensures r.Ok? ==> |s| >= HEADER_LEN && r.value.Readable()
  {
    if |s| < HEADER_LEN then Err(InvalidHeader)
    else if s[0..8] != MAGIC then Err(InvalidHeader)
    else
      var version := CheckVersion(s[8..12]);
      if version.Err? then Err(version.error)
      else
        var format := Format.FromTag(s[40], U32At(s, 41));
        if format.None? then Err(InvalidHeader)
        else Ok(Header(U64At(s, 12), U64At(s, 20), U32At(s, 28), U64At(s, 32),
                       format.value, U64At(s, 45), version.value))
  }

  /** Where each field of an encoded header lies. */
  lemma Fields(h: Header)
    ensures var s := ToBytes(h);
            && s[0..8] == MAGIC && s[8..12] == VersionBytes(h.minor)
            && s[12..20] == ToLe(h.segmentId, 8) && s[20..28] == ToLe(h.sessionId, 8)
            && s[28..32] == ToLe(h.maxSize, 4) && s[32..40] == ToLe(h.remaining, 8)
            && s[40] == h.format.Tag() && s[41..45] == ToLe(h.format.FixedLen(), 4)
            && s[45..53] == ToLe(h.sequence, 8)
  {
  }

  /** Everything the decoder ignores: the patch digit, and the format argument
      of the formats that have none. */
  predicate SameButIgnored(s: seq<byte>, t: seq<byte>, f: Format) {
    && |s| == |t| == HEADER_LEN
    && forall i :: 0 <= i < HEADER_LEN && i != 11 && (41 <= i < 45 ==> f.Fixed?) ==> s[i] == t[i]
  }

  /** Accepted bytes re-encode to themselves except where decoding ignores them. */
  lemma HeaderCanonical(s: seq<byte>)
    requires |s| == HEADER_LEN && FromBytes(s).Ok?
    ensures SameButIgnored(s, ToBytes(FromBytes(s).value), FromBytes(s).value.format)
  {
    var h := FromBytes(s).value;
    var t := ToBytes(h);
    Fields(h);
    LeCanonical(s[12..20]);
    LeCanonical(s[20..28]);
    LeCanonical(s[28..32]);
    LeCanonical(s[32..40]);
    LeCanonical(s[45..53]);
    LeCanonical(s[41..45]);
    assert s[8..11] == t[8..11] by {
      Version(s[8..12]);
      assert s[8..12][..3] == s[8..11];
      assert t[8..12][..3] == t[8..11];
    }
    assert s[0..8] == t[0..8];
    forall i | 0 <= i < HEADER_LEN && i != 11 && (41 <= i < 45 ==> h.format.Fixed?)
      ensures s[i] == t[i]
    {
      if i < 8 { assert s[0..8][i] == t[0..8][i]; }
      else if i < 11 { assert s[8..11][i - 8] == t[8..11][i - 8]; }
      else if i < 20 { assert s[12..20][i - 12] == t[12..20][i - 12]; }
      else if i < 28 { assert s[20..28][i - 20] == t[20..28][i - 20]; }
      else if i < 32 { assert s[28..32][i - 28] == t[28..32][i - 28]; }
      else if i < 40 { assert s[32..40][i - 32] == t[32..40][i - 32]; }
      else if i == 40 {}
      else if i < 45 { assert s[41..45][i - 41] == t[41..45][i - 41]; }
      else { assert s[45..53][i - 45] == t[45..53][i - 45]; }
    }
  }

  /** What decoding ignores may be anything, and a later patch is no obstacle. */
  lemma HeaderTolerant(s: seq<byte>, h: Header)
    requires h.Readable() && |s| == HEADER_LEN && SameButIgnored(s, ToBytes(h), h.format) && IsDigit(s[11])
    ensures FromBytes(s) == Ok(h)
  {
    hide ToBytes;
    hide SameButIgnored;
    hide CheckVersion;
    hide VersionBytes;
    hide ToLe;
    hide FromLe;
    hide Limit;
    Fields(h);
    Limits();
    SameFields(s, ToBytes(h), h.format);
    VersionRead(s[8..12], h.minor);
    LeRoundTrip(h.segmentId, 8);
    LeRoundTrip(h.sessionId, 8);
    LeRoundTrip(h.maxSize, 4);
    LeRoundTrip(h.remaining, 8);
    LeRoundTrip(h.format.FixedLen(), 4);
    LeRoundTrip(h.sequence, 8);
  }

  lemma SameFields(s: seq<byte>, t: seq<byte>, f: Format)
    requires SameButIgnored(s, t, f)
    ensures s[0..8] == t[0..8] && s[12..20] == t[12..20] && s[20..28] == t[20..28] && s[28..32] == t[28..32]
    ensures s[32..40] == t[32..40] && s[40] == t[40] && s[45..53] == t[45..53]
    ensures f.Fixed? ==> s[41..45] == t[41..45]
    ensures s[8..12][..3] == t[8..12][..3] && s[8..12][3] == s[11]
  {
  }

  lemma VersionRead(field: seq<byte>, minor: nat)
    requires |field| == 4 && field[..3] == VersionBytes(minor)[..3] && IsDigit(field[3]) && minor <= VERSION_MINOR
    ensures CheckVersion(field) == Ok(minor)
  {
    assert forall i :: 0 <= i < 3 ==> field[i] == field[..3][i] == VersionBytes(minor)[i];
  }

  /** Decoding inverts encoding, whatever follows the header. */
  lemma HeaderRoundTrip(h: Header, rest: seq<byte>)
    requires h.Readable()
    ensures FromBytes(ToBytes(h) + rest) == Ok(h)
  {
    hide FromBytes;
    var s := ToBytes(h);
    Fields(h);
    HeaderTolerant(s, h);
    FrontDecides(s, rest);
  }

  lemma FrontDecides(s: seq<byte>, rest: seq<byte>)
    requires |s| == HEADER_LEN
    ensures FromBytes(s + rest) == FromBytes(s)
  {
    var t := s + rest;
    assert t[0..8] == s[0..8] && t[8..12] == s[8..12] && t[12..20] == s[12..20] && t[20..28] == s[20..28];
    assert t[28..32] == s[28..32] && t[32..40] == s[32..40] && t[41..45] == s[41..45] && t[45..53] == s[45..53];
  }

  /** Exactly the encodings of headers this version can read are accepted, up to
      what decoding ignores. */
  lemma HeaderAccepted(s: seq<byte>)
    requires |s| == HEADER_LEN
    ensures FromBytes(s).Ok? <==>
            exists h: Header :: h.Readable() && SameButIgnored(s, ToBytes(h), h.format) && IsDigit(s[11])
  {
    hide SameButIgnored;
    hide ToBytes;
    if FromBytes(s).Ok? {
      HeaderCanonical(s);
      assert IsDigit(s[8..12][3]);
    }
    if h: Header :| h.Readable() && SameButIgnored(s, ToBytes(h), h.format) && IsDigit(s[11]) {
      HeaderTolerant(s, h);
    }
  }

  /** The version is named as the fault exactly where it is one. */
  lemma VersionRefused(s: seq<byte>)
    requires |s| >= HEADER_LEN
    ensures FromBytes(s) == Err(VersionMismatch) <==>
            && s[0..8] == MAGIC
            && !(IsDigit(s[11]) && exists minor: nat :: minor <= VERSION_MINOR && s[8..11] == VersionBytes(minor)[..3])
  {
    var field := s[8..12];
    assert field[..3] == s[8..11] && field[3] == s[11];
    if CheckVersion(field).Ok? { Version(field); }
    if minor: nat :| minor <= VERSION_MINOR && s[8..11] == VersionBytes(minor)[..3] {
      assert field[0] == s[8..11][0] && field[1] == s[8..11][1] && field[2] == s[8..11][2];
    }
  }

  lemma Version(field: seq<byte>)
    requires CheckVersion(field).Ok?
    ensures |field| == 4 && field[..3] == VersionBytes(CheckVersion(field).value)[..3]
  {
    assert IsDigit(field[0]) && IsDigit(field[1]) && IsDigit(field[2]);
  }
}
