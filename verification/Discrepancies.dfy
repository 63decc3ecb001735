/** Where the reader and its documentation differ: exactly when, and at which
    input (tcslog/src/read.rs). */
module Discrepancies {
  import opened Bytes
  import opened Format
  import opened Header
  import opened ReadSpec
  import opened ReadEnds
  import opened ReadAccounts
  import opened Overlooked

  /** A file of one byte of data, in a log of one-byte records. */
  function SmallHeader(id: SegId, sequence: u64): Header {
    Header(id, id, 54, 0, Fixed(1), sequence, VERSION_MINOR)
  }

  function SmallFile(id: SegId, sequence: u64, b: byte): seq<byte> {
    ToBytes(SmallHeader(id, sequence)) + [b]
  }

  lemma SmallOpens(dir: Dir, id: SegId, sequence: u64, b: byte)
    requires id in dir && dir[id] == SmallFile(id, sequence, b)
    ensures OpenValidated(dir, id) == Some(Segment(id, SmallHeader(id, sequence), [b], 0))
  {
    hide ToBytes;
    hide FromBytes;
    var h := SmallHeader(id, sequence);
    HeaderRoundTrip(h, []);
    assert ToBytes(h) + [] == ToBytes(h);
    assert dir[id][..HEADER_LEN] == ToBytes(h) && dir[id][HEADER_LEN..] == [b];
  }

  /** The first file opened is the first of the list, if that can be used. */
  lemma FirstOpens(dir: Dir, st: State, seg: Segment)
    requires st.pending != [] && OpenValidated(dir, st.pending[0]) == Some(seg) && st.session.None?
    ensures OpenNext(dir, st) == (Opened, Admit(st, st.pending[1..], seg))
  {
    hide OpenValidated;
    hide Admit;
    assert Unusable(dir, st.pending) == 0;
  }

  lemma FindFirst(dir: Dir, st: State, seg: Segment)
    requires st.pending != [] && OpenValidated(dir, st.pending[0]) == Some(seg)
    requires st.session.None? && st.recovery.None?
    requires seg.header.remaining < |seg.data|
    ensures FindRecordStart(dir, st) == Found(Fresh, Advance(Admit(st, st.pending[1..], seg), seg.header.remaining))
  {
    hide OpenValidated;
    hide OpenNext;
    FirstOpens(dir, st, seg);
    assert st.(recovery := None) == st;
  }

  // --------------------------------------------------- a session end not told of

  const TWO_SESSIONS: Dir := map[1 := SmallFile(1, 0, 7), 2 := SmallFile(2, 0, 8)]

  /** The state after the first record is read. */
  lemma FirstRecordRead()
    ensures var st := Initial([1, 2], true);
            var (att, st1) := Read(TWO_SESSIONS, st);
            && att != Nothing(Eof) && HidesEnd(TWO_SESSIONS, st1, 0)
  {
    hide OpenValidated;
    hide OpenNext;
    hide FindRecordStart;
    hide SmallFile;
    var dir, st := TWO_SESSIONS, Initial([1, 2], true);
    SmallOpens(dir, 1, 0, 7);
    SmallOpens(dir, 2, 0, 8);
    var seg := Segment(1, SmallHeader(1, 0), [7], 0);
    FindFirst(dir, st, seg);
    var st1 := Admit(st, [2], seg);
    assert st.pending[1..] == [2] && st.(resync := true) == st;
    assert Advance(st1, 0) == st1;
    var st2 := st1.(resync := false);
    var cur := FRESH_CURSOR.(total := Some(1));
    var st3 := st2.(lastMeta := MetaFixed);
    FillUnfold(dir, st3, cur, 1);
    FillZero(dir, Advance(st3, 1), cur.(consumed := 1));
    SecondEnds(dir);
  }

  lemma SecondEnds(dir: Dir)
    requires OpenValidated(dir, 2) == Some(Segment(2, SmallHeader(2, 0), [8], 0))
    ensures EndNext(dir, [2], Some(1), Some(0), false)
  {
    hide OpenValidated;
  }

  /** With empty buffers throughout, the end of the first session goes untold,
      though the session changes once. */
  lemma EmptyBufferHidesEnd()
    ensures var trace := Trace(TWO_SESSIONS, Initial([1, 2], true));
            var rooms := seq(|trace|, _ => 0);
            SessionEnds(trace, rooms) < Changes(None, UsableHeaders(TWO_SESSIONS, [1, 2]))
  {
    hide Read;
    hide HidesEnd;
    hide SessionEnds;
    hide Changes;
    var dir, st := TWO_SESSIONS, Initial([1, 2], true);
    var trace := Trace(dir, st);
    var rooms := seq(|trace|, _ => 0);
    FirstRecordRead();
    ReadKeepsSound(dir, st);
    var st1 := Read(dir, st).1;
    ReadMeetsEnd(dir, st1);
    assert After(dir, st, 1) == st1;
    TraceIsRun(dir, st, 1);
    FilesAndSessionsAccounted(dir, [1, 2], rooms);
    assert HidesEnd(dir, After(dir, st, 1), rooms[1]);
  }

  // ------------------------------------------- a file that cannot be used

  const LAST_EMPTY: Dir := map[1 := SmallFile(1, 0, 7), 2 := []]

  /** The state after the only record is read. */
  lemma OnlyRecordRead(dir: Dir)
    requires 1 in dir && dir[1] == SmallFile(1, 0, 7)
    ensures var (att, st) := Read(dir, Initial([1], false));
            att != Nothing(Eof) && st.pending == [] && st.Exhausted()
            && st.current.Some? && st.current.value.header == SmallHeader(1, 0)
  {
    hide OpenValidated;
    hide OpenNext;
    hide FindRecordStart;
    hide SmallFile;
    var st := Initial([1], false);
    SmallOpens(dir, 1, 0, 7);
    var seg := Segment(1, SmallHeader(1, 0), [7], 0);
    FindFirst(dir, st, seg);
    var st1 := Admit(st, [], seg);
    assert st.pending[1..] == [] && st.(resync := true) == st && Advance(st1, 0) == st1;
    var st2 := st1.(resync := false, lastMeta := MetaFixed);
    var cur := FRESH_CURSOR.(total := Some(1));
    FillUnfold(dir, st2, cur, 1);
    FillZero(dir, Advance(st2, 1), cur.(consumed := 1));
  }

  /** An empty file after the end of a log is reported as a loss, which one that
      is not there is not. */
  lemma EmptyFileReported()
    ensures Trace(LAST_EMPTY, Initial([1, 2], false)) ==
            Trace(LAST_EMPTY, Initial([1], false)) + [OffTheEnd(Fixed(1))]
    ensures Clip(OffTheEnd(Fixed(1)), 1) == Failed(Truncated(0), [])
  {
    hide Read;
    hide SmallFile;
    hide OpenValidated;
    var dir, st := LAST_EMPTY, Initial([1], false);
    OnlyRecordRead(dir);
    SmallOpens(dir, 1, 0, 7);
    NoHeader(dir, 2);
    assert Usables(dir, [1, 2][1..]) == [] && Usables(dir, [1, 2]) == [1];
    UnusableOverlooked(dir, dir, [1, 2], false);
    TraceMore(dir, st);
    NothingLeft(dir, Read(dir, st).1);
    TraceMore(dir, Read(dir, st).1);
  }

  lemma NoHeader(dir: Dir, id: SegId)
    requires id in dir && |dir[id]| < HEADER_LEN
    ensures !Usable(dir, id)
  {
  }

  lemma NothingLeft(dir: Dir, st: State)
    requires Sound(dir, st) && st.pending == [] && st.Exhausted()
    ensures Read(dir, st).0 == Nothing(Eof)
  {
  }

  // ------------------------------------------- a loss that keeps the file open

  /** A record starts in one of the listed files, in the session being read or,
      between sessions, in the next: what the search for it looks at. */
  ghost predicate StartsAhead(dir: Dir, ids: seq<SegId>, session: Option<SegId>, hint: Option<Recovery>)
    decreases |ids|
  {
    if ids == [] then false
    else if !Usable(dir, ids[0]) then StartsAhead(dir, ids[1..], session, hint)
    else
      var seg := OpenValidated(dir, ids[0]).value;
      var h := seg.header;
      && (session.Some? ==> h.sessionId == session.value)
      && (h.remaining < |seg.data|
          || (hint.Some? && RecoveredPayloadLen(hint.value, seg.id, h.format, h.remaining, h.DataLen()).Some?)
          || StartsAhead(dir, ids[1..], Some(h.sessionId), None))
  }

  /** The sequence number the first usable file carries. */
  ghost function FirstSequence(dir: Dir, ids: seq<SegId>): nat {
    if ids == [] then 0
    else if Usable(dir, ids[0]) then OpenValidated(dir, ids[0]).value.header.sequence
    else FirstSequence(dir, ids[1..])
  }

  /** No file is open, files are missing ahead of a session's first, and a record
      starts in what is left of the session. */
  ghost predicate LossAhead(dir: Dir, st: State) {
    && st.current.None? && StartsAhead(dir, st.pending, st.session, st.recovery)
    && (if st.session.Some? then st.startLost else FirstSequence(dir, st.pending)) > 0
  }

  lemma {:induction false} StartsAheadDrop(dir: Dir, ids: seq<SegId>, session: Option<SegId>, hint: Option<Recovery>)
    ensures var t := Unusable(dir, ids);
            && StartsAhead(dir, ids, session, hint) == StartsAhead(dir, ids[t..], session, hint)
            && FirstSequence(dir, ids) == FirstSequence(dir, ids[t..])
    decreases |ids|
  {
    hide OpenValidated;
    if ids != [] && !Usable(dir, ids[0]) {
      StartsAheadDrop(dir, ids[1..], session, hint);
      assert ids[1..][Unusable(dir, ids[1..])..] == ids[Unusable(dir, ids)..];
    } else {
      assert ids[0..] == ids;
    }
  }

  /** The search succeeds exactly when a record starts ahead, and a loss is
      pending after it exactly when the session began with one. */
  lemma {:induction false} FindFinds(dir: Dir, st: State)
    requires st.current.None?
    ensures var r := FindRecordStart(dir, st);
            && (r.Found? <==> StartsAhead(dir, st.pending, st.session, st.recovery))
            && (r.Found? ==>
                  r.st.startLost == if st.session.Some? then st.startLost else FirstSequence(dir, st.pending))
    decreases |st.pending|
  {
    hide OpenValidated;
    hide RecoveredPayloadLen;
    hide OpenNext;
    var ids := st.pending;
    var st0 := st.(recovery := None);
    var (opening, st1) := OpenNext(dir, st0);
    OpenNextForm(dir, st0);
    StartsAheadDrop(dir, ids, st.session, st.recovery);
    var t := Unusable(dir, ids);
    if t < |ids| {
      assert ids[t..][0] == ids[t] && ids[t..][1..] == ids[t + 1..];
      if opening.Opened? { FindFinds(dir, st1.(current := None)); }
    }
  }

  /** The documentation has every reported loss give the open file up. One does
      not: a read that reports `ReadTruncated` leaves a file open if and only if
      the loss was ahead of a session's first file. */
  lemma LossKeepsFile(dir: Dir, st: State, room: nat)
    requires Sound(dir, st)
    requires var out := Clip(Read(dir, st).0, room); out.Failed? && out.fault.Truncated?
    ensures Read(dir, st).1.current.Some? <==> LossAhead(dir, st)
  {
    hide ReadFrom;
    hide FindRecordStart;
    hide StartsAhead;
    hide FirstSequence;
    if st.pending == [] && st.Exhausted() {
    } else if st.current.Some? {
      LossCloses(dir, st, Fresh);
    } else {
      var st0 := st.(resync := true);
      FindSound(dir, st0);
      FindFinds(dir, st0);
      FindCloses(dir, st0);
      var r := FindRecordStart(dir, st0);
      if r.Found? { LossCloses(dir, r.st.(resync := false), r.start); }
    }
  }

  /** Inside a record, or at its start, a loss does give the file up. */
  lemma LossCloses(dir: Dir, st: State, start: Start)
    requires st.current.Some? && st.current.value.header.Readable()
    ensures var (att, st1) := ReadFrom(dir, st, start);
            !att.Whole() ==> st1.current.None?
  {
    hide Fill;
    hide Reject;
  }

  lemma FindCloses(dir: Dir, st: State)
    ensures FindRecordStart(dir, st).Missing? ==> Lose(FindRecordStart(dir, st).st).current.None?
  {
  }

  const LATE_SESSION: Dir := map[5 := SmallFile(5, 3, 7)]

  /** A session of which the first three files are gone: the loss is reported,
      and the file stays open. */
  lemma LateSessionStaysOpen()
    ensures var st := Initial([5], false);
            Read(LATE_SESSION, st).0 == Nothing(Truncated(3)) && Read(LATE_SESSION, st).1.current.Some?
    ensures LossAhead(LATE_SESSION, Initial([5], false))
  {
    hide OpenValidated;
    hide OpenNext;
    hide FindRecordStart;
    hide SmallFile;
    var dir, st := LATE_SESSION, Initial([5], false);
    SmallOpens(dir, 5, 3, 7);
    FindFirst(dir, st, Segment(5, SmallHeader(5, 3), [7], 0));
    assert st.(resync := true) == st;
  }
}
