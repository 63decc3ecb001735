/** The iterator over a log's remaining records (tcslog/src/read.rs): a loop
    around `read` that skips what delivers nothing. */
module LogReadIter {
  import opened Bytes
  import opened Format
  import opened ReadSpec
  import opened ReadEnds
  import opened LogRead

  const ITER_BUF_LEN: nat := 64 * 1024

  /** What the iterator hands over: a record, or the front of one. */
  datatype Item = Item(meta: Meta, payload: seq<byte>, truncated: bool)

  /** What one read yields, if anything. */
  function Yield(att: Attempt): Option<Item> {
    match att
    case Nothing(_) => None
    case Payload(want, meta, got, cause) =>
      if want > ITER_BUF_LEN && |got| >= ITER_BUF_LEN then Some(Item(meta, got[..ITER_BUF_LEN], true))
      else if cause.None? then Some(Item(meta, got, false))
      else if cause.value.Truncated? && got != [] then Some(Item(meta, got, true))
      else None
  }

  function YieldSeq(att: Attempt): seq<Item> {
    if Yield(att).Some? then [Yield(att).value] else []
  }

  /** Everything a run of reads yields. */
  ghost function Items(trace: seq<Attempt>): seq<Item> {
    if trace == [] then [] else YieldSeq(trace[0]) + Items(trace[1..])
  }

  lemma {:induction false} FillMeta(dir: Dir, st: State, cur: Cursor, n: nat)
    ensures Fill(dir, st, cur, n).st.lastMeta == st.lastMeta
    decreases n, |st.pending|
  {
    hide OpenValidated;
    hide Unusable;
    if n > 0 {
      if st.Exhausted() {
        var c := Cross(dir, st, cur);
        CrossMeta(dir, st, cur);
        if c.fault.None? { FillMeta(dir, c.st, c.cur, n); }
      } else {
        var take := Min(|st.current.value.data| - st.current.value.pos, n);
        FillMeta(dir, Advance(st, take), cur.(consumed := cur.consumed + take), n - take);
      }
    }
  }

  lemma CrossMeta(dir: Dir, st: State, cur: Cursor)
    ensures Cross(dir, st, cur).st.lastMeta == st.lastMeta
  {
    hide OpenValidated;
    hide Unusable;
  }

  /** The reader remembers the metadata of the record it last read from. */
  lemma ReadMeta(dir: Dir, st: State)
    requires Sound(dir, st)
    ensures var (att, st1) := Read(dir, st); att.Payload? ==> st1.lastMeta == att.meta
  {
    hide Fill;
    hide OpenNext;
    hide OpenValidated;
    hide FindRecordStart;
    hide ReadDataHeader;
    if st.pending == [] && st.Exhausted() {
    } else if st.current.Some? {
      ReadFromMeta(dir, st, Fresh);
    } else {
      FindSound(dir, st.(resync := true));
      var found := FindRecordStart(dir, st.(resync := true));
      if found.Found? { ReadFromMeta(dir, found.st.(resync := false), found.start); }
    }
  }

  lemma ReadFromMeta(dir: Dir, st: State, start: Start)
    requires st.current.Some? && st.current.value.header.Readable()
    ensures var (att, st1) := ReadFrom(dir, st, start); att.Payload? ==> st1.lastMeta == att.meta
  {
    hide Fill;
    hide ReadDataHeader;
    var h := st.current.value.header;
    match start
    case Recovered(n) =>
      var len := h.format.DataHeaderLen();
      FillMeta(dir, st.(lastMeta := MetaSimple), Cursor(len, Some(len + n), None), n);
    case Fresh =>
      var d := ReadDataHeader(dir, st, h.format, h.minor);
      FillMeta(dir, d.st.(lastMeta := d.meta), d.cur, d.len);
  }

  /** What the iterator makes of a result is what the read behind it yields. */
  function TakenAs(result: Result<ReadResult, LogError>, lastMeta: Meta, bytes: seq<byte>): Option<Item> {
    match result
    case Ok(read) => Some(Item(read.meta, bytes, false))
    case Err(ErrReadOverflow(n)) => if n > 0 then Some(Item(lastMeta, bytes, true)) else None
    case Err(ErrReadTruncated(_, n)) => if n > 0 then Some(Item(lastMeta, bytes, true)) else None
    case _ => None
  }

  lemma TakenIs(att: Attempt, lastMeta: Meta)
    requires att.Payload? ==> lastMeta == att.meta && att.cause != Some(Eof)
    ensures var out := Clip(att, ITER_BUF_LEN);
            && TakenAs(Report(out), lastMeta, Delivered(out)) == Yield(att)
            && (Report(out).Ok? ==> Report(out).value.n == |Delivered(out)| && att != Nothing(Eof))
            && (Report(out).Err? ==>
                  && !Report(out).error.ErrNoSegmentFiles?
                  && (Report(out).error.ErrEof? <==> att == Nothing(Eof))
                  && (Report(out).error.ErrReadOverflow? || Report(out).error.ErrReadTruncated? ==>
                        Report(out).error.n == |Delivered(out)|)
                  && (Report(out).error.ErrReadOverflow? ==> Report(out).error.n > 0))
  {
  }

  class LogReadIter {
    const log: LogRead
    const buf: array<byte>

    ghost predicate Valid()
      reads this, log
    {
      log.Valid() && buf.Length == ITER_BUF_LEN
    }

    constructor (log: LogRead)
      requires log.Valid()
      ensures Valid() && this.log == log && fresh(buf)
    {
      this.log := log;
      buf := new byte[ITER_BUF_LEN](_ => 0);
    }

    /** The next record, or nothing at the end of the log, where it stays. */
    method Next() returns (r: Option<Item>)
      requires Valid()
      modifies log, buf
      ensures Valid()
      ensures var items := Items(Trace(log.dir, old(log.St())));
              if items == [] then r.None? && Items(Trace(log.dir, log.St())) == []
              else r == Some(items[0]) && Items(Trace(log.dir, log.St())) == items[1..]
    {
      hide Read;
      hide Potential;
      hide Sound;
      hide Trace;
      hide Items;
      hide Clip;
      hide Report;
      hide Delivered;
      hide Yield;
      ghost var items := Items(Trace(log.dir, log.St()));
      while true
        invariant Valid() && Items(Trace(log.dir, log.St())) == items
        decreases Potential(log.dir, log.St())
      {
        ghost var st := log.St();
        ghost var att := Read(log.dir, st).0;
        ReadPays(log.dir, st);
        ReadMeta(log.dir, st);
        ReadStep(log.dir, st);
        var result := log.Read(buf);
        TakenIs(att, log.lastMeta);
        ghost var bytes := Delivered(Clip(att, ITER_BUF_LEN));
        FrontIs(buf[..], bytes);
        match result {
          case Ok(read) =>
            assert buf[..read.n] == bytes;
            return Some(Item(read.meta, buf[..read.n], false));
          case Err(error) =>
            match error {
              case ErrReadOverflow(n) =>
                assert buf[..n] == bytes;
                return Some(Item(log.lastMeta, buf[..n], true));
              case ErrReadTruncated(_, n) =>
                if n > 0 {
                  assert buf[..n] == bytes;
                  return Some(Item(log.lastMeta, buf[..n], true));
                }
              case ErrSessionEnd =>
              case ErrEof =>
                return None;
              case ErrNoSegmentFiles =>
                assert false;
            }
        }
      }
    }
  }

  lemma FrontIs(buf: seq<byte>, bytes: seq<byte>)
    ensures |bytes| <= |buf| && buf == bytes + buf[|bytes|..] ==> buf[..|bytes|] == bytes
  {
  }

  lemma ReadStep(dir: Dir, st: State)
    requires Sound(dir, st)
    ensures Sound(dir, Read(dir, st).1)
    ensures var (att, st1) := Read(dir, st);
            var items := Items(Trace(dir, st));
            && (att == Nothing(Eof) ==> items == [] && Items(Trace(dir, st1)) == [])
            && (att != Nothing(Eof) && Yield(att).None? ==> items == Items(Trace(dir, st1)))
            && (att != Nothing(Eof) && Yield(att).Some? ==>
                  items != [] && items[0] == Yield(att).value && items[1..] == Items(Trace(dir, st1)))
  {
    hide Read;
    hide Potential;
    hide Yield;
    ReadPays(dir, st);
    var (att, st1) := Read(dir, st);
    if att == Nothing(Eof) { EofForGood(dir, st1, 0); }
  }
}
