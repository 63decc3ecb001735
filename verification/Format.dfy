/** Record layouts, the metadata a record carries, and the data header that
    opens a record (tcslog/src/format.rs). */
module Format {
  import opened Bytes

  /** The minor format version this build writes; it reads every one up to it. */
  const VERSION_MINOR: nat := 1

  const RECORD_COUNT_MAX: nat := 0xffff_ffff_ffff

  datatype Format = Fixed(n: u32) | VariableSimple | VariableTsRc {

    predicate Valid() { Fixed? ==> n > 0 }

    function Tag(): byte {
      match this
      case Fixed(_) => 0
      case VariableSimple => 1
      case VariableTsRc => 2
    }

    function FixedLen(): u32 {
      if Fixed? then n else 0
    }

    function DataHeaderLen(): (len: nat) {
      match this
      case Fixed(_) => 0
      case VariableSimple => 4
      case VariableTsRc => 18
    }

    /** The data header length in a file of the given minor version: a 1.0
        record count had 32 bits, a 1.1 count has 48. */
    function DataHeaderLenIn(minor: nat): nat {
      if VariableTsRc? && minor == 0 then 16 else DataHeaderLen()
    }

    static function FromTag(tag: byte, arg: u32): (r: Option<Format>)
      ensures r.Some? <==> tag <= 2 && (tag == 0 ==> arg > 0)
      ensures r.Some? ==> r.value.Valid() && r.value.Tag() == tag
      ensures r.Some? && tag == 0 ==> r.value.FixedLen() == arg
    {
      if tag == 0 && arg > 0 then Some(Fixed(arg))
      else if tag == 1 then Some(VariableSimple)
      else if tag == 2 then Some(VariableTsRc)
      else None
    }
  }

  datatype Meta = MetaFixed | MetaSimple | MetaTsRc(ts: u64, rc: nat)

  /** One record as written: its payload and the metadata minted for it. */
  datatype Record = Record(payload: seq<byte>, meta: Meta)

  /** What `LogWrite::write` accepts: the payload length the format allows,
      with a total that fits the u32 it returns. */
  predicate PayloadFits(f: Format, len: nat, minor: nat := VERSION_MINOR) {
    (f.Fixed? ==> len == f.n) && f.DataHeaderLenIn(minor) + len < U32_LIMIT
  }

  /** The bytes a record count takes. */
  function CountWidth(minor: nat): nat { if minor == 0 then 4 else 6 }

  predicate ValidRecord(f: Format, r: Record, minor: nat := VERSION_MINOR) {
    && f.Valid()
    && PayloadFits(f, |r.payload|, minor)
    && match f
       case Fixed(_) => r.meta.MetaFixed?
       case VariableSimple => r.meta.MetaSimple?
       case VariableTsRc => r.meta.MetaTsRc? && r.meta.rc <= (if minor == 0 then U32_LIMIT - 1 else RECORD_COUNT_MAX)
  }

  /** The bytes of a record's data header, in a file of the given minor version. */
  function DataHeader(f: Format, r: Record, minor: nat := VERSION_MINOR): (s: seq<byte>)
    requires ValidRecord(f, r, minor)
    ensures |s| == f.DataHeaderLenIn(minor)
  {
    match f
    case Fixed(_) => []
    case VariableSimple => ToLe(|r.payload|, 4)
    case VariableTsRc => ToLe(|r.payload|, 4) + ToLe(r.meta.ts, 8) + ToLe(r.meta.rc, CountWidth(minor))
  }

  /** What a data header says, once all its bytes have been read. */
  function DecodeLen(f: Format, head: seq<byte>): (n: u32)
    requires f.Valid() && (f.Fixed? || |head| >= 4)
  {
    if f.Fixed? then f.n else U32At(head, 0)
  }

  function DecodeMeta(f: Format, head: seq<byte>): Meta
    requires f.VariableTsRc? ==> |head| >= 12
  {
    match f
    case Fixed(_) => MetaFixed
    case VariableSimple => MetaSimple
    case VariableTsRc => MetaTsRc(U64At(head, 4), FromLe(head[12..]))
  }

  /** A data header decodes to the length and metadata it was built from. */
  lemma DataHeaderRoundTrip(f: Format, r: Record, minor: nat := VERSION_MINOR)
    requires ValidRecord(f, r, minor)
    ensures var head := DataHeader(f, r, minor);
            DecodeLen(f, head) == |r.payload| && DecodeMeta(f, head) == r.meta
  {
    Limits();
    var head := DataHeader(f, r, minor);
    if !f.Fixed? {
      LeRoundTrip(|r.payload|, 4);
      assert head[0..4] == ToLe(|r.payload|, 4);
    }
    if f.VariableTsRc? {
      LeRoundTrip(r.meta.ts, 8);
      LeRoundTrip(r.meta.rc, CountWidth(minor));
      assert head[4..12] == ToLe(r.meta.ts, 8);
      assert head[12..] == ToLe(r.meta.rc, CountWidth(minor));
    }
  }
}
