/** What becomes of a file the reader cannot use: its documentation says that
    such a file is one it does not have (tcslog/src/read.rs). */
module Overlooked {
  import opened Bytes
  import opened Format
  import opened ReadSpec
  import opened ReadEnds

  ghost function Usables(dir: Dir, ids: seq<SegId>): seq<SegId> {
    if ids == [] then []
    else if Usable(dir, ids[0]) then [ids[0]] + Usables(dir, ids[1..])
    else Usables(dir, ids[1..])
  }

  /** Every usable file of `dir` is in `other`, as it is. */
  ghost predicate KeepsUsables(dir: Dir, other: Dir) {
    forall id :: Usable(dir, id) ==> id in other && other[id] == dir[id]
  }

  /** The reader that never had the files it cannot use. */
  ghost function Without(dir: Dir, st: State): State {
    st.(pending := Usables(dir, st.pending))
  }

  /** The last file still to be opened cannot be used, or can; in the first case
      no file is open once there is none to be opened. */
  ghost predicate Ends(dir: Dir, junk: bool, st: State) {
    if st.pending == [] then junk ==> st.current.None?
    else Usable(dir, st.pending[|st.pending| - 1]) != junk
  }

  lemma {:induction false} UsablesFrom(dir: Dir, ids: seq<SegId>)
    ensures Usables(dir, []) == []
    ensures var t := Unusable(dir, ids);
            && Usables(dir, ids) == Usables(dir, ids[t..])
            && (t == |ids| ==> Usables(dir, ids) == [])
            && (t < |ids| ==> Usables(dir, ids) == [ids[t]] + Usables(dir, ids[t + 1..]))
  {
    hide Usable;
    var t := Unusable(dir, ids);
    if ids != [] && !Usable(dir, ids[0]) {
      UsablesFrom(dir, ids[1..]);
      assert ids[1..][t - 1..] == ids[t..] && (t < |ids| ==> ids[1..][t..] == ids[t + 1..]);
    } else {
      assert ids[0..] == ids;
    }
  }

  lemma UsablesFirst(dir: Dir, ids: seq<SegId>)
    requires ids != [] && Usable(dir, ids[0])
    ensures Usables(dir, ids) != [] && Usables(dir, ids)[1..] == Usables(dir, ids[1..])
  {
    hide Usable;
  }

  lemma UsableAlike(dir: Dir, other: Dir, id: SegId)
    requires KeepsUsables(dir, other) && Usable(dir, id)
    ensures OpenValidated(other, id) == OpenValidated(dir, id)
  {
  }

  lemma SoundWithout(dir: Dir, other: Dir, st: State)
    requires KeepsUsables(dir, other) && Sound(dir, st)
    ensures Sound(other, Without(dir, st))
  {
    hide OpenValidated;
    if st.current.Some? { UsableAlike(dir, other, st.current.value.id); }
  }

  lemma OpenNextIs(dir: Dir, st: State, t: nat)
    requires t == Unusable(dir, st.pending)
    ensures OpenNext(dir, st) ==
            if t == |st.pending| then (NoMore, st.(pending := []))
            else OpenAs(st, st.pending[t..], OpenValidated(dir, st.pending[t]).value)
  {
    hide OpenValidated;
    hide Admit;
    if t < |st.pending| { assert st.pending[t..][1..] == st.pending[t + 1..]; }
  }

  /** What becomes of the first usable file, with these still to be opened. */
  ghost function OpenAs(st: State, ids: seq<SegId>, seg: Segment): (Opening, State)
    requires ids != []
  {
    if st.session.Some? && seg.header.sessionId != st.session.value then
      (NewSession, st.(pending := ids, session := None, prevSeq := None, recovery := None))
    else
      (Opened, Admit(st, ids[1..], seg))
  }

  lemma OpenNextOverlooks(dir: Dir, other: Dir, st: State, junk: bool)
    requires KeepsUsables(dir, other) && st.current.None? && Ends(dir, junk, st)
    ensures var (opening, st1) := OpenNext(dir, st);
            && OpenNext(other, Without(dir, st)) == (opening, Without(dir, st1))
            && Ends(dir, junk, st1)
  {
    hide OpenValidated;
    hide OpenAs;
    hide OpenNext;
    hide Usables;
    var t, ids := Unusable(dir, st.pending), Usables(dir, st.pending);
    UsablesFrom(dir, st.pending);
    OpenNextIs(dir, st, t);
    if t < |st.pending| {
      UsableAlike(dir, other, ids[0]);
      assert ids[0..] == ids && Usable(other, ids[0]);
      OpenAsOverlooks(dir, st, st.pending[t..], OpenValidated(dir, ids[0]).value, junk);
    }
    OpenNextIs(other, Without(dir, st), 0);
  }

  lemma OpenAsOverlooks(dir: Dir, st: State, ids: seq<SegId>, seg: Segment, junk: bool)
    requires ids != [] && Usable(dir, ids[0]) && Usable(dir, ids[|ids| - 1]) != junk
    ensures var (opening, st1) := OpenAs(st, ids, seg);
            && OpenAs(Without(dir, st), Usables(dir, ids), seg) == (opening, Without(dir, st1))
            && Ends(dir, junk, st1)
  {
    hide Usable;
    hide Usables;
    hide Admit;
    UsablesFirst(dir, ids);
    AdmitOverlooks(dir, st, ids[1..], seg);
    assert |ids| > 1 ==> ids[1..][|ids| - 2] == ids[|ids| - 1];
  }

  lemma AdmitOverlooks(dir: Dir, st: State, rest: seq<SegId>, seg: Segment)
    ensures Admit(Without(dir, st), Usables(dir, rest), seg) == Without(dir, Admit(st, rest, seg))
    ensures Admit(st, rest, seg).pending == rest && Admit(st, rest, seg).current == Some(seg)
  {
  }

  lemma RejectOverlooks(dir: Dir, st: State, junk: bool)
    requires st.current.Some? ==> Usable(dir, st.current.value.id)
    requires Ends(dir, junk, st)
    ensures Reject(Without(dir, st)) == Without(dir, Reject(st)) && Ends(dir, junk, Reject(st))
  {
    hide Usable;
    if st.current.Some? {
      var ids := [st.current.value.id] + st.pending;
      assert ids[1..] == st.pending;
      assert st.pending != [] ==> ids[|ids| - 1] == st.pending[|st.pending| - 1];
    }
  }

  lemma CrossOverlooks(dir: Dir, other: Dir, st: State, cur: Cursor, junk: bool)
    requires KeepsUsables(dir, other) && Sound(dir, st.(resync := false)) && Ends(dir, junk, st)
    ensures var c := Cross(dir, st, cur);
            && Cross(other, Without(dir, st), cur) == c.(st := Without(dir, c.st))
            && Ends(dir, junk, c.st) && Sound(dir, c.st.(resync := false))
  {
    hide OpenValidated;
    hide OpenNext;
    hide Reject;
    hide Continues;
    hide NoteImplied;
    var st0 := st.(current := None);
    OpenNextOverlooks(dir, other, st0, junk);
    OpenNextSound(dir, st0);
    CrossSound(dir, st, cur);
    var (opening, st1) := OpenNext(dir, st0);
    assert Without(dir, st).(current := None) == Without(dir, st0);
    match opening
    case NewSession =>
    case NoMore =>
    case Opened => JudgeOverlooks(dir, st, st1, cur, junk);
  }

  lemma JudgeOverlooks(dir: Dir, st: State, st1: State, cur: Cursor, junk: bool)
    requires st1.current.Some? && Usable(dir, st1.current.value.id) && Ends(dir, junk, st1)
    ensures var c := Judge(st, st1, cur);
            && Judge(Without(dir, st), Without(dir, st1), cur) == c.(st := Without(dir, c.st))
            && Ends(dir, junk, c.st)
  {
    hide Usable;
    hide Reject;
    hide Continues;
    hide NoteImplied;
    forall hint: Option<Recovery> { RejectOverlooks(dir, st1.(recovery := hint), junk); }
  }

  lemma {:induction false} FillOverlooks(dir: Dir, other: Dir, st: State, cur: Cursor, n: nat, junk: bool)
    requires KeepsUsables(dir, other) && Sound(dir, st.(resync := false)) && Ends(dir, junk, st)
    ensures var f := Fill(dir, st, cur, n);
            && Fill(other, Without(dir, st), cur, n) == f.(st := Without(dir, f.st))
            && Ends(dir, junk, f.st) && Sound(dir, f.st.(resync := false)) && f.st.resync == st.resync
    decreases n, |st.pending|
  {
    hide Cross;
    hide Fill;
    hide OpenValidated;
    FillSound(dir, st, cur, n);
    var st2 := Without(dir, st);
    if n == 0 {
      FillZero(dir, st, cur);
      FillZero(other, st2, cur);
    } else {
      FillUnfold(dir, st, cur, n);
      FillUnfold(other, st2, cur, n);
      if st.Exhausted() {
        CrossOverlooks(dir, other, st, cur, junk);
        var c := Cross(dir, st, cur);
        if c.fault.None? { FillOverlooks(dir, other, c.st, c.cur, n, junk); }
      } else {
        var take := Min(|st.current.value.data| - st.current.value.pos, n);
        var st1 := Advance(st, take);
        assert Advance(st2, take) == Without(dir, st1);
        FillOverlooks(dir, other, st1, cur.(consumed := cur.consumed + take), n - take, junk);
      }
    }
  }

  lemma PayloadOverlooks(dir: Dir, other: Dir, st: State, cur: Cursor, want: nat, meta: Meta, junk: bool)
    requires KeepsUsables(dir, other) && Sound(dir, st) && Ends(dir, junk, st)
    ensures var (att, st1) := ReadPayload(dir, st, cur, want, meta);
            && ReadPayload(other, Without(dir, st), cur, want, meta) == (att, Without(dir, st1))
            && Ends(dir, junk, st1)
  {
    hide Fill;
    hide OpenValidated;
    FillOverlooks(dir, other, st.(lastMeta := meta), cur, want, junk);
    assert Without(dir, st).(lastMeta := meta) == Without(dir, st.(lastMeta := meta));
  }

  lemma HeaderOverlooks(dir: Dir, other: Dir, st: State, format: Format, minor: nat, junk: bool)
    requires KeepsUsables(dir, other) && Sound(dir, st) && Ends(dir, junk, st) && format.Valid() && st.current.Some?
    ensures var d := ReadDataHeader(dir, st, format, minor);
            && ReadDataHeader(other, Without(dir, st), format, minor) == d.(st := Without(dir, d.st))
            && Ends(dir, junk, d.st) && (d.fault.None? ==> Sound(dir, d.st))
  {
    hide Fill;
    hide OpenValidated;
    hide DecodeLen;
    hide DecodeMeta;
    hide Reject;
    var len := format.DataHeaderLenIn(minor);
    FillOverlooks(dir, other, st, FRESH_CURSOR, len, junk);
    var f := Fill(dir, st, FRESH_CURSOR, len);
    RejectOverlooks(dir, f.st, junk);
  }

  lemma ReadFromOverlooks(dir: Dir, other: Dir, st: State, start: Start, junk: bool)
    requires KeepsUsables(dir, other) && Sound(dir, st) && Ends(dir, junk, st) && st.current.Some?
    ensures var (att, st1) := ReadFrom(dir, st, start);
            && ReadFrom(other, Without(dir, st), start) == (att, Without(dir, st1))
            && Ends(dir, junk, st1)
  {
    hide ReadPayload;
    hide ReadDataHeader;
    hide OpenValidated;
    hide Format.DataHeaderLenIn;
    var h := st.current.value.header;
    match start
    case Recovered(n) =>
      var len := h.format.DataHeaderLen();
      PayloadOverlooks(dir, other, st, Cursor(len, Some(len + n), None), n, MetaSimple, junk);
    case Fresh =>
      HeaderOverlooks(dir, other, st, h.format, h.minor, junk);
      var d := ReadDataHeader(dir, st, h.format, h.minor);
      if d.fault.None? { PayloadOverlooks(dir, other, d.st, d.cur, d.len, d.meta, junk); }
  }

  lemma EndsStill(dir: Dir, st: State, st1: State, junk: bool)
    requires Ends(dir, junk, st) && st1.pending == st.pending && (st.current.None? ==> st1.current.None?)
    ensures Ends(dir, junk, st1)
  {
  }

  lemma OpenedOverlooks(dir: Dir, st: State, n: nat, junk: bool)
    requires st.current.Some? && Ends(dir, junk, st)
    ensures Advance(Without(dir, st), n) == Without(dir, Advance(st, n)) && Ends(dir, junk, Advance(st, n))
    ensures Without(dir, st).(current := None) == Without(dir, st.(current := None))
    ensures Ends(dir, junk, st.(current := None))
  {
    hide Usable;
    hide Usables;
  }

  lemma {:induction false} FindOverlooks(dir: Dir, other: Dir, st: State, junk: bool)
    requires KeepsUsables(dir, other) && st.current.None? && Ends(dir, junk, st)
    ensures var r := FindRecordStart(dir, st);
            var r2 := FindRecordStart(other, Without(dir, st));
            && r2 == (match r
                        case Found(start, st1) => Found(start, Without(dir, st1))
                        case Missing(fault, st1) => Missing(fault, Without(dir, st1)))
            && Ends(dir, junk, r.st)
    decreases |st.pending|
  {
    hide RecoveredPayloadLen;
    hide OpenNext;
    hide Advance;
    hide Usables;
    hide Ends;
    var st0 := st.(recovery := None);
    EndsStill(dir, st, st0, junk);
    OpenNextOverlooks(dir, other, st0, junk);
    var (opening, st1) := OpenNext(dir, st0);
    if opening.Opened? {
      OpenedOverlooks(dir, st1, st1.current.value.header.remaining, junk);
      FindOverlooks(dir, other, st1.(current := None), junk);
    }
  }

  // ------------------------------------------------------------ one read

  /** Nothing but files that cannot be used follows the end of an open one. */
  ghost predicate Lingers(dir: Dir, st: State) {
    st.pending != [] && Usables(dir, st.pending) == [] && st.current.Some? && st.Exhausted()
  }

  lemma ReadOverlooks(dir: Dir, other: Dir, st: State, junk: bool)
    requires KeepsUsables(dir, other) && Sound(dir, st) && Ends(dir, junk, st) && !Lingers(dir, st)
    requires Sound(other, Without(dir, st))
    ensures var (att, st1) := Read(dir, st);
            var (att2, st2) := Read(other, Without(dir, st));
            && att2 == att
            && (att != Nothing(Eof) ==> st2 == Without(dir, st1) && Ends(dir, junk, st1))
  {
    hide ReadFrom;
    hide FindRecordStart;
    hide OpenValidated;
    var clean := Without(dir, st);
    if st.current.Some? {
      if clean.pending != [] || !st.Exhausted() { ReadFromOverlooks(dir, other, st, Fresh, junk); }
    } else {
      var st0 := st.(resync := true);
      assert Without(dir, st0) == clean.(resync := true);
      FindOverlooks(dir, other, st0, junk);
      FindSound(dir, st0);
      FindSound(other, clean.(resync := true));
      if clean.pending == [] { FindNone(dir, st0); }
      match FindRecordStart(dir, st0)
      case Missing(_, _) =>
      case Found(start, st1) =>
        var st2 := st1.(resync := false);
        assert Without(dir, st1).(resync := false) == Without(dir, st2);
        if st1.startLost == 0 { ReadFromOverlooks(dir, other, st2, start, junk); }
    }
  }

  lemma FindNone(dir: Dir, st: State)
    requires Usables(dir, st.pending) == []
    ensures FindRecordStart(dir, st) == Missing(Eof, st.(recovery := None, pending := []))
  {
    hide OpenValidated;
    UsablesFrom(dir, st.pending);
  }

  /** What is reported where a record was looked for and there was no more. */
  ghost function OffTheEnd(format: Format): Attempt {
    if format.Fixed? then Payload(format.n, MetaFixed, [], Some(Truncated(0))) else Nothing(Truncated(0))
  }

  lemma CrossNone(dir: Dir, st: State, cur: Cursor)
    requires Usables(dir, st.pending) == []
    ensures Cross(dir, st, cur) == CrossOut(Some(Truncated(0)), st.(current := None, pending := []), cur)
  {
    hide OpenValidated;
    UsablesFrom(dir, st.pending);
  }

  lemma FillNone(dir: Dir, st: State, cur: Cursor, n: nat)
    requires Usables(dir, st.pending) == [] && st.Exhausted() && n > 0
    ensures Fill(dir, st, cur, n) == FillOut([], Some(Truncated(0)), st.(current := None, pending := []), cur)
  {
    hide Cross;
    hide Fill;
    FillUnfold(dir, st, cur, n);
    CrossNone(dir, st, cur);
  }

  lemma LingeringRead(dir: Dir, st: State)
    requires Sound(dir, st) && Lingers(dir, st)
    ensures var (att, st1) := Read(dir, st);
            && att == OffTheEnd(st.current.value.header.format) != Nothing(Eof)
            && st1.pending == [] && st1.current.None?
  {
    hide OpenValidated;
    hide Fill;
    var h := st.current.value.header;
    if h.format.Fixed? {
      FillNone(dir, st.(lastMeta := MetaFixed), FRESH_CURSOR.(total := Some(h.format.n)), h.format.n);
    } else {
      FillNone(dir, st, FRESH_CURSOR, h.format.DataHeaderLenIn(h.minor));
    }
  }

  // ----------------------------------------------------------- a whole run

  /** The reader as it is when it first reports the end of the log. */
  ghost function AtEnd(dir: Dir, st: State): State
    requires Sound(dir, st)
  {
    After(dir, st, |Trace(dir, st)|)
  }

  lemma TraceMore(dir: Dir, st: State)
    requires Sound(dir, st)
    ensures Sound(dir, Read(dir, st).1)
    ensures var (att, st1) := Read(dir, st);
            if att == Nothing(Eof) then Trace(dir, st) == [] && AtEnd(dir, st) == st
            else
              && Trace(dir, st) == [att] + Trace(dir, st1) && AtEnd(dir, st) == AtEnd(dir, st1)
              && Potential(dir, st1) < Potential(dir, st)
  {
    hide Read;
    hide Potential;
    ReadPays(dir, st);
  }

  /** The one thing more that is reported because of files that cannot be used. */
  ghost function Surplus(junk: bool, end: State): seq<Attempt> {
    if junk && end.current.Some? then [OffTheEnd(end.current.value.header.format)] else []
  }

  lemma LingersLast(dir: Dir, other: Dir, st: State, junk: bool)
    requires Sound(dir, st) && Lingers(dir, st) && Ends(dir, junk, st) && Sound(other, Without(dir, st))
    ensures Read(other, Without(dir, st)).0 == Nothing(Eof)
    ensures Surplus(junk, Without(dir, st)) == [OffTheEnd(st.current.value.header.format)]
    ensures forall st1: State :: Sound(dir, st1) && st1.pending == [] && st1.current.None? ==>
                                   Read(dir, st1).0 == Nothing(Eof)
  {
    hide OpenValidated;
    hide ReadFrom;
    hide FindRecordStart;
    if Usable(dir, st.pending[|st.pending| - 1]) { UsablesHas(dir, st.pending, |st.pending| - 1); }
  }

  lemma {:induction false} UsablesHas(dir: Dir, ids: seq<SegId>, i: nat)
    requires i < |ids| && Usable(dir, ids[i])
    ensures Usables(dir, ids) != []
  {
    hide Usable;
    if i > 0 { UsablesHas(dir, ids[1..], i - 1); }
  }

  /** No file is open, or there is none left to be opened. */
  lemma EndedWithout(dir: Dir, st: State, junk: bool)
    requires Sound(dir, st) && Ends(dir, junk, st) && Read(dir, st).0 == Nothing(Eof)
    ensures Surplus(junk, Without(dir, st)) == []
  {
    hide OpenValidated;
    hide ReadFrom;
    hide FindRecordStart;
    if st.pending != [] && st.current.Some? { ReadFromNeverEof(dir, st, Fresh); }
  }

  lemma {:induction false} TraceOverlooks(dir: Dir, other: Dir, st: State, junk: bool)
    requires KeepsUsables(dir, other) && Sound(dir, st) && Ends(dir, junk, st)
    ensures Sound(other, Without(dir, st))
    ensures Trace(dir, st) == Trace(other, Without(dir, st)) + Surplus(junk, AtEnd(other, Without(dir, st)))
    decreases Potential(dir, st)
  {
    hide *;
    var clean := Without(dir, st);
    SoundWithout(dir, other, st);
    TraceMore(dir, st);
    TraceMore(other, clean);
    var (att, st1) := Read(dir, st);
    var (att2, st2) := Read(other, clean);
    if Lingers(dir, st) {
      LingeringRead(dir, st);
      TraceMore(dir, st1);
      LingersLast(dir, other, st, junk);
      assert Trace(dir, st) == [att] && Surplus(junk, clean) == [att];
    } else {
      ReadOverlooks(dir, other, st, junk);
      if att == Nothing(Eof) {
        EndedWithout(dir, st, junk);
      } else {
        TraceOverlooks(dir, other, st1, junk);
      }
    }
  }

  /** A file that cannot be used changes nothing but this: where the last of the
      files is one, and the log without such files ends in an open file, the end
      is preceded by a report that something was cut short. */
  lemma UnusableOverlooked(dir: Dir, other: Dir, ids: seq<SegId>, collect: bool)
    requires KeepsUsables(dir, other)
    ensures var junk := ids != [] && !Usable(dir, ids[|ids| - 1]);
            var clean := Initial(Usables(dir, ids), collect);
            Trace(dir, Initial(ids, collect)) == Trace(other, clean) + Surplus(junk, AtEnd(other, clean))
  {
    hide *;
    StartOverlooks(dir, other, ids, collect);
    TraceOverlooks(dir, other, Initial(ids, collect), ids != [] && !Usable(dir, ids[|ids| - 1]));
  }

  lemma StartOverlooks(dir: Dir, other: Dir, ids: seq<SegId>, collect: bool)
    ensures Without(dir, Initial(ids, collect)) == Initial(Usables(dir, ids), collect)
    ensures Sound(dir, Initial(ids, collect)) && Sound(other, Initial(Usables(dir, ids), collect))
    ensures Ends(dir, ids != [] && !Usable(dir, ids[|ids| - 1]), Initial(ids, collect))
  {
    hide OpenValidated;
  }
}
