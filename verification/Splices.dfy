/** What holds of a record that is read whole, whatever the files contain: every
    file that was read on into while it was read comes next in sequence in the
    same session, after a file that was full, and says of itself that it goes on
    with exactly what was left of that record (tcslog/src/read.rs). */
module Splices {
  import opened Bytes
  import opened Format
  import opened Header
  import opened ReadSpec
  import opened ReadEnds

  /** A file read on into, after so many bytes of the record: its header, and the
      session, the sequence, and whether it was full, of the file before it. */
  datatype Splice = Splice(at: nat, header: Header, session: Option<SegId>, sequence: Option<u64>, full: bool)

  /** The files read on into while n bytes are read. */
  ghost function Spliced(dir: Dir, st: State, cur: Cursor, n: nat): seq<Splice>
    decreases n, |st.pending|
  {
    if n == 0 then []
    else if st.Exhausted() then
      var c := Cross(dir, st, cur);
      if c.fault.Some? then []
      else
        [Splice(cur.consumed, c.st.current.value.header, st.session, st.prevSeq, !Short(st))]
        + Spliced(dir, c.st, c.cur, n)
    else
      var take := Min(|st.current.value.data| - st.current.value.pos, n);
      Spliced(dir, Advance(st, take), cur.(consumed := cur.consumed + take), n - take)
  }

  /** It comes right after a file that was full, in its session. */
  ghost predicate Follows(s: Splice) {
    && s.full && (s.session.Some? ==> s.header.sessionId == s.session.value)
    && (s.sequence.Some? ==> s.header.sequence == s.sequence.value + 1)
  }

  /** What a file of this format owes a record that breaks off `at` bytes into it
      and has so many bytes of payload. */
  function OwesAfter(h: Header, at: nat, payload: nat): nat {
    var own := h.format.DataHeaderLenIn(h.minor);
    payload + if at < own then own - at else 0
  }

  /** The lengths a cursor knows agree with what the file says. */
  ghost predicate Agrees(s: Splice, total: Option<nat>, implied: Option<nat>) {
    && (s.at == 0 ==> s.header.remaining == 0)
    && (s.at > 0 && total.Some? ==> s.header.remaining == total.value - s.at)
    && (s.at > 0 && total.None? ==> implied.Some? && s.header.remaining == OwesAfter(s.header, s.at, implied.value))
  }

  lemma CrossSplices(dir: Dir, st: State, cur: Cursor)
    requires Cross(dir, st, cur).fault.None?
    ensures var c := Cross(dir, st, cur);
            var s := Splice(cur.consumed, c.st.current.value.header, st.session, st.prevSeq, !Short(st));
            && Follows(s) && Agrees(s, cur.total, c.cur.implied)
            && (cur.implied.Some? ==> c.cur.implied == cur.implied)
  {
    hide OpenValidated;
    hide Unusable;
  }

  lemma {:induction false} FillSplices(dir: Dir, st: State, cur: Cursor, n: nat)
    requires Fill(dir, st, cur, n).fault.None?
    ensures var f := Fill(dir, st, cur, n);
            && (cur.implied.Some? ==> f.cur.implied == cur.implied)
            && forall s :: s in Spliced(dir, st, cur, n) ==>
                 cur.consumed <= s.at < cur.consumed + n && Follows(s) && Agrees(s, cur.total, f.cur.implied)
    decreases n, |st.pending|
  {
    hide Cross;
    hide Fill;
    hide Follows;
    hide Short;
    FillZero(dir, st, cur);
    if n > 0 {
      FillUnfold(dir, st, cur, n);
      if st.Exhausted() {
        var c := Cross(dir, st, cur);
        CrossSplices(dir, st, cur);
        FillSplices(dir, c.st, c.cur, n);
      } else {
        var take := Portion(st, n);
        FillSplices(dir, Advance(st, take), cur.(consumed := cur.consumed + take), n - take);
      }
    }
  }

  /** The files read on into while the next record is read, from the open file. */
  ghost function RecordSplices(dir: Dir, st: State): seq<Splice>
    requires st.current.Some? && st.current.value.header.Readable()
  {
    var h := st.current.value.header;
    if h.format.Fixed? then
      Spliced(dir, st.(lastMeta := MetaFixed), FRESH_CURSOR.(total := Some(h.format.n)), h.format.n)
    else
      var d := ReadDataHeader(dir, st, h.format, h.minor);
      Spliced(dir, st, FRESH_CURSOR, h.format.DataHeaderLenIn(h.minor))
      + if d.fault.Some? then [] else Spliced(dir, d.st.(lastMeta := d.meta), d.cur, d.len)
  }

  /** Whatever the files contain, a record is put together only of files that say
      they hold it: of n payload bytes behind a data header of `len`, a file read
      on into after `at` bytes owes just what is left of it, and one read on into
      before its first byte owes nothing. */
  lemma WholeIsSpliced(dir: Dir, st: State)
    requires Sound(dir, st) && st.current.Some? && Read(dir, st).0.Whole()
    ensures st.current.value.header.Readable()
    ensures var h, n := st.current.value.header, Read(dir, st).0.want;
            var len := h.format.DataHeaderLenIn(h.minor);
            forall s :: s in RecordSplices(dir, st) ==>
              && Follows(s) && s.at < len + n
              && (s.at == 0 ==> s.header.remaining == 0)
              && (0 < s.at < len ==> s.header.remaining == OwesAfter(s.header, s.at, n))
              && (0 < s.at && len <= s.at ==> s.header.remaining == len + n - s.at)
  {
    hide Fill;
    hide Spliced;
    hide Follows;
    hide DecodeLen;
    hide DecodeMeta;
    var h := st.current.value.header;
    if h.format.Fixed? {
      FillSplices(dir, st.(lastMeta := MetaFixed), FRESH_CURSOR.(total := Some(h.format.n)), h.format.n);
    } else {
      var d := ReadDataHeader(dir, st, h.format, h.minor);
      FillSplices(dir, st, FRESH_CURSOR, h.format.DataHeaderLenIn(h.minor));
      FillSplices(dir, d.st.(lastMeta := d.meta), d.cur, d.len);
    }
  }
}
