/** An undamaged log, written without faults, reads back as exactly what was
    written: every record with its metadata, one session end between
    consecutive sessions, no loss, then the end of the log. */
module RoundTrip {
  import opened Bytes
  import opened Format
  import opened Names
  import opened ReadSpec
  import opened ReadEnds
  import opened Layout
  import opened Damage
  import opened Standing
  import opened Filling
  import opened RecordTruth
  import opened ReadTruth

  ghost predicate Pristine(w: World) {
    w.Valid() && w.Intact() && Finished(w.log)
  }

  // ------------------------------------------------------- what is expected

  /** What a reader meets next. The end of a session it has read records of is
      met `inside` a record of a fixed length, before its first byte. */
  datatype Event = RecordRead(record: Record) | SessionEnded(inside: bool)

  /** What is left to tell from record j of session e on. */
  ghost function Story(epochs: seq<Epoch>, e: nat, j: nat): seq<Event>
    requires e < |epochs| && j <= |epochs[e].recs|
    decreases |epochs| - e, |epochs[e].recs| - j
  {
    if j < |epochs[e].recs| then [RecordRead(epochs[e].recs[j])] + Story(epochs, e, j + 1)
    else if e + 1 < |epochs| then
      [SessionEnded(epochs[e].fmt.Fixed? && epochs[e].recs != [])] + Story(epochs, e + 1, 0)
    else []
  }

  ghost function WholeStory(epochs: seq<Epoch>): seq<Event> {
    if epochs == [] then [] else Story(epochs, 0, 0)
  }

  ghost predicate Tells1(att: Attempt, event: Event) {
    match event
    case RecordRead(r) => att == Payload(|r.payload|, r.meta, r.payload, None)
    case SessionEnded(inside) =>
      if inside then att.Payload? && att.want > 0 && att.got == [] && att.cause == Some(SessionEnd)
      else att == Nothing(SessionEnd)
  }

  /** How an event is reported into a buffer of `room` bytes: an empty buffer
      is too small for a record that turns out not to be there. */
  function Said(event: Event, room: nat): Outcome {
    match event
    case RecordRead(r) => AsRead(r, room)
    case SessionEnded(inside) => if inside && room == 0 then Overflow([]) else Failed(SessionEnd, [])
  }

  lemma SaidIs(att: Attempt, event: Event, room: nat)
    requires Tells1(att, event)
    ensures Clip(att, room) == Said(event, room)
  {
  }

  // ---------------------------------------------------- facts about the log

  /** From some epoch on, every file that has data is there, whole. */
  ghost predicate DataIntact(w: World, since: nat) {
    forall g: nat :: g < |w.log.files| && w.log.files[g].len > 0 && w.log.files[g].epoch >= since ==>
      w.Survives(g) && |w.Left(g)| == w.log.files[g].len
  }

  /** A file that does not begin its epoch continues the one before. */
  lemma PreviousFile(log: Log, g: nat)
    requires log.Valid() && g < |log.files| && log.files[g].start > 0
    ensures g > 0 && log.SameEpoch(g - 1)
  {
    if g > 0 { assert log.SameEpoch(g - 1) || log.Resumed(g - 1) || log.NewSession(g - 1); }
  }

  /** Then every byte written out is still there. */
  lemma {:induction false} WrittenSurvives(w: World, since: nat, g: nat, x: nat)
    requires w.log.Valid() && DataIntact(w, since) && w.log.InRange(g) && w.log.files[g].epoch >= since
    requires x < w.log.files[g].start + w.log.files[g].len
    ensures w.ByteSurvives(w.log.files[g].epoch, x)
    decreases g
  {
    hide World.Survives;
    hide Epoch.End;
    hide Log.Valid;
    if x >= w.log.files[g].start {
      assert w.Holds(g, w.log.files[g].epoch, x);
    } else {
      PreviousFile(w.log, g);
      WrittenSurvives(w, since, g - 1, x);
    }
  }

  /** So every record written out is. */
  lemma OnDiskSurvives(w: World, since: nat, p: Place)
    requires w.log.Valid() && DataIntact(w, since) && w.OnDisk(p) && p.e >= since
    ensures w.RecordSurvives(p)
  {
    hide World.ByteSurvives;
    hide World.Survives;
    hide DataIntact;
    var g: nat :| w.log.InRange(g) && w.log.files[g].epoch == p.e
      && w.log.epochs[p.e].Start(p.j + 1) <= w.log.files[g].start + w.log.files[g].len;
    forall x | w.log.epochs[p.e].Start(p.j) <= x < w.log.epochs[p.e].Start(p.j + 1)
      ensures w.ByteSurvives(p.e, x)
    {
      WrittenSurvives(w, since, g, x);
    }
  }

  /** Every epoch has a last file. */
  lemma {:induction false} LastFile(log: Log, g: nat, e: nat) returns (h: nat)
    requires log.Valid() && log.InRange(g)
    requires e < log.files[g].epoch || (e == log.files[g].epoch && LastOfEpoch(log, g))
    ensures LastOfEpoch(log, h) && log.files[h].epoch == e
    decreases g
  {
    if e == log.files[g].epoch {
      h := g;
    } else {
      assert g > 0;
      assert log.InRange(g - 1);
      assert log.SameEpoch(g - 1) || log.Resumed(g - 1) || log.NewSession(g - 1);
      h := LastFile(log, g - 1, e);
    }
  }

  /** Every record of a finished log was written out. */
  lemma AllOnDisk(w: World, p: Place)
    requires Finished(w.log) && w.IsPlace(p)
    ensures w.OnDisk(p)
  {
    var n := |w.log.files| - 1;
    assert w.log.InRange(n);
    var g := LastFile(w.log, n, p.e);
    StartGrows(w.log.epochs[p.e], p.j + 1, |w.log.epochs[p.e].recs|);
  }

  // ------------------------------------------------------ reading a record

  /** Between records of a session the next file is accepted. */
  lemma CrossContinues(w: World, st: State, cur: Cursor, g: nat, lb: Place)
    requires Pristine(w) && ReadingAt(w, st, g, lb) && st.Exhausted() && cur.consumed == 0
    requires lb.j < |w.log.epochs[lb.e].recs|
    ensures Cross(w.dir, st, cur).fault.None? && NextPlace(w, g, lb) == lb
  {
    hide OpenNext;
    hide Judge;
    hide PendingAfter;
    hide World.Valid;
    hide World.Survives;
    hide Finished;
    hide Sound;
    ReadingFacts(w, st, g, lb);
    NotLast(w, st, g, lb);
    var st0 := st.(current := None);
    var (opening, st1) := OpenNext(w.dir, st0);
    FileFacts(w, st, g);
    LogOf(w);
    OneSession(w.log, g);
    var h := OpenNextTruth(w, st0, g);
    assert opening.Opened? && h == g + 1;
    NextAccepted(w, st, st1, cur, g, lb.j);
  }

  /** The next file of the epoch, starting on the boundary the reader is at. */
  lemma NextAccepted(w: World, st: State, st1: State, cur: Cursor, g: nat, j: nat)
    requires w.Valid() && JustOpened(w, st, st1, g, g + 1) && w.log.SameEpoch(g) && cur.consumed == 0
    requires |st.current.value.data| == w.log.epochs[w.log.files[g].epoch].dsize
    requires var ep := w.log.epochs[w.log.files[g].epoch]; j <= |ep.recs| && w.log.files[g + 1].start == ep.Start(j)
    ensures Judge(st, st1, cur).fault.None?
  {
    hide PendingAfter;
    hide World.Removed;
    hide World.ResumptionsHeld;
    hide World.Survives;
    hide Gone;
    hide NoteImplied;
    JustOpenedFacts(w, st, st1, g, g + 1);
    LogOf(w);
    BoundaryRemaining(w.log, g + 1, j);
  }

  lemma BoundaryRemaining(log: Log, g: nat, j: nat)
    requires log.Valid() && log.InRange(g)
    requires var ep := log.epochs[log.files[g].epoch]; j <= |ep.recs| && log.files[g].start == ep.Start(j)
    ensures log.HeaderOf(g).remaining == 0
  {
    IndexOfStart(log.epochs[log.files[g].epoch], j);
  }

  /** With records of the epoch still to come, its next file follows. */
  lemma NotLast(w: World, st: State, g: nat, lb: Place)
    requires Pristine(w) && ReadingAt(w, st, g, lb) && st.Exhausted()
    requires lb.j < |w.log.epochs[lb.e].recs|
    ensures w.log.SameEpoch(g) && w.Survives(g + 1) && w.Survives(g) && |w.Left(g)| == w.log.epochs[lb.e].dsize
    ensures w.log.files[g + 1].start == w.log.epochs[lb.e].Start(lb.j)
  {
    hide World.Removed;
    hide World.ResumptionsHeld;
    hide PendingAfter;
    hide Sound;
    ReadingFacts(w, st, g, lb);
    Exhaust(w, st, g, w.log.epochs[lb.e].Start(lb.j));
    LogOf(w);
    StartGrows(w.log.epochs[lb.e], lb.j, |w.log.epochs[lb.e].recs|);
    assert !LastOfEpoch(w.log, g);
    assert w.log.SameEpoch(g) || w.log.Resumed(g) || w.log.NewSession(g);
  }

  lemma {:induction false} FillFreshWhole(w: World, st: State, cur: Cursor, n: nat, g: nat, lb: Place)
    requires Pristine(w) && ReadingAt(w, st, g, lb) && lb.j < |w.log.epochs[lb.e].recs|
    requires FreshAsk(w.log.epochs[lb.e], cur, n) && n > 0
    ensures Fill(w.dir, st, cur, n).fault.None?
    decreases |st.pending|
  {
    hide *;
    PristineValid(w);
    ReadingFacts(w, st, g, lb);
    if st.Exhausted() {
      FillUnfold(w.dir, st, cur, n);
      InEpochs(w, g);
      FreshTotal(w.log.epochs[lb.e], cur, n);
      CrossContinues(w, st, cur, g, lb);
      CrossAt(w, st, cur, g, lb);
      FillFreshWhole(w, Cross(w.dir, st, cur).st, cur, n, g + 1, lb);
    } else {
      StartsHere(w, st, cur, n, g, lb);
      AllOnDisk(w, lb);
      OnDiskSurvives(w, 0, lb);
      var g1 := FillIn(w, st, cur, n, g, lb.e, lb.j, w.log.epochs[lb.e].Start(lb.j));
      FilledWhole(w, g1, lb, n, Fill(w.dir, st, cur, n));
    }
  }

  lemma FilledWhole(w: World, g: nat, lb: Place, n: nat, f: FillOut)
    requires w.IsPlace(lb) && FilledAs(w, g, lb.e, lb.j, w.log.epochs[lb.e].Start(lb.j), n, f) && w.RecordSurvives(lb)
    ensures f.fault.None?
  {
    assert Place(lb.e, lb.j) == lb;
  }

  lemma PristineValid(w: World)
    requires Pristine(w)
    ensures w.Valid() && w.log.Valid() && w.Intact() && DataIntact(w, 0) && Finished(w.log)
  {
  }

  /** The next record of a session is read whole. */
  lemma ReadsWhole(w: World, st: State, g: nat, lb: Place)
    requires Pristine(w) && ReadingAt(w, st, g, lb) && lb.j < |w.log.epochs[lb.e].recs|
    requires st.current.Some? && st.current.value.header.Readable()
    ensures ReadFrom(w.dir, st, Fresh).0.Whole()
  {
    hide Fill;
    hide World.Valid;
    hide World.Intact;
    hide World.RecordSurvives;
    hide Finished;
    hide ReadingAt;
    hide Resting;
    hide Ahead;
    hide FilledTo;
    hide StreamBytes;
    hide DecodeLen;
    hide DecodeMeta;
    hide Matches;
    hide ReadPayload;
    hide DataIntact;
    OpenHeader(w, st, g, lb);
    PristineValid(w);
    var ep := w.log.epochs[lb.e];
    if ep.fmt.Fixed? {
      FixedWhole(w, st, g, lb);
    } else {
      var n := ep.Head();
      FillFreshWhole(w, st, FRESH_CURSOR, n, g, lb);
      var g1, rec, lb1 := FillFresh(w, st, FRESH_CURSOR, n, g, lb);
      var f := Fill(w.dir, st, FRESH_CURSOR, n);
      HeaderSettles(w, rec, g1, f);
      var r := w.RecordAt(rec);
      LogOf(w);
      AllOnDisk(w, rec);
      OnDiskSurvives(w, 0, rec);
      var g2 := PayloadTruth(w, f.st, f.cur.(total := Some(n + |r.payload|)), g1, rec, r.meta);
    }
  }

  lemma FixedWhole(w: World, st: State, g: nat, lb: Place)
    requires Pristine(w) && ReadingAt(w, st, g, lb) && lb.j < |w.log.epochs[lb.e].recs|
    requires st.current.Some? && st.current.value.header.Readable() && w.log.epochs[lb.e].fmt.Fixed?
    ensures ReadFrom(w.dir, st, Fresh).0.Whole()
  {
    hide Fill;
    hide World.Valid;
    hide World.Intact;
    hide Finished;
    hide ReadingAt;
    OpenHeader(w, st, g, lb);
    var n := w.log.epochs[lb.e].fmt.n;
    FlagsApart(w, st, g, lb, MetaFixed);
    FillFreshWhole(w, st.(lastMeta := MetaFixed), FRESH_CURSOR.(total := Some(n)), n, g, lb);
  }

  /** ... and is the record that was next. */
  lemma ReadsNext(w: World, st: State, g: nat, lb: Place) returns (g1: nat)
    requires Pristine(w) && ReadingAt(w, st, g, lb) && lb.j < |w.log.epochs[lb.e].recs|
    requires st.current.Some? && st.current.value.header.Readable()
    ensures var (att, st1) := ReadFrom(w.dir, st, Fresh);
            && Tells1(att, RecordRead(w.log.epochs[lb.e].recs[lb.j]))
            && ReadingAt(w, st1, g1, Place(lb.e, lb.j + 1))
  {
    hide World.Valid;
    hide World.Intact;
    hide ReadingAt;
    hide Resting;
    hide Ahead;
    hide ReadFrom;
    hide World.RecordSurvives;
    hide Supported;
    hide Calm;
    OpenHeader(w, st, g, lb);
    ReadsWhole(w, st, g, lb);
    var rec, lb1;
    g1, rec, lb1 := FreshTruth(w, st, g, lb);
  }

  // --------------------------------------------------- between two sessions

  /** The reader has reported the end of the sessions before file g, the first
      of session e, or has yet to open any file. */
  ghost predicate AtSession(w: World, st: State, g: nat, e: nat) {
    && w.log.InRange(g) && w.log.files[g].epoch == e && w.log.files[g].start == 0 && w.log.files[g].ordinal == 0
    && st.current.None? && st.session.None? && st.recovery.None? && PendingAfter(w, st.pending, g - 1)
  }

  /** The file after the last one of a session opens the next session. */
  lemma SessionFollows(w: World, g: nat)
    requires Finished(w.log) && LastOfEpoch(w.log, g) && g + 1 < |w.log.files|
    ensures w.log.InRange(g + 1) && w.log.NewSession(g) && w.log.Base(g) != w.log.Base(g + 1)
    ensures w.log.files[g + 1].epoch == w.log.files[g].epoch + 1
  {
    assert w.log.InRange(g);
    assert w.log.SameEpoch(g) || w.log.Resumed(g) || w.log.NewSession(g);
  }

  /** Past a session's last file: the end of the log, or of the session. */
  lemma OpenPastEnd(w: World, st: State, g: nat)
    requires Pristine(w) && LastOfEpoch(w.log, g) && st.current.None? && PendingAfter(w, st.pending, g)
    requires st.session == Some(w.log.files[g].session)
    ensures var (opening, st1) := OpenNext(w.dir, st);
            if g + 1 == |w.log.files| then opening.NoMore? && st.pending == [] && st1.pending == []
            else opening.NewSession? && AtSession(w, st1, g + 1, w.log.files[g].epoch + 1) && st.pending != []
  {
    hide OpenNext;
    hide World.Valid;
    hide World.Survives;
    hide World.Intact;
    hide Finished;
    hide PendingAfter;
    hide AtFile;
    PristineValid(w);
    PendingIn(w, st.pending, g);
    if g + 1 == |w.log.files| {
      NothingOpens(w.dir, st);
    } else {
      var h := OpenNextTruth(w, st, g);
      var (opening, st1) := OpenNext(w.dir, st);
      SessionFollows(w, g);
      IntactAt(w, g);
      IntactAt(w, g + 1);
      SessionsApart(w, g, g + 1);
      assert h == g + 1;
      if opening.Opened? { FileFacts(w, st1, h); }
      SurvivorListed(w, st.pending, g);
    }
  }

  lemma NothingOpens(dir: Dir, st: State)
    ensures st.pending == [] ==> OpenNext(dir, st) == (NoMore, st)
  {
  }

  lemma IntactAt(w: World, g: nat)
    requires w.Intact() && g < |w.log.files|
    ensures w.Survives(g) && |w.Left(g)| == w.log.files[g].len
  {
  }

  lemma SurvivorListed(w: World, ids: seq<SegId>, g: int)
    requires PendingAfter(w, ids, g) && w.Survives(g + 1)
    ensures ids != []
  {
  }

  lemma PendingIn(w: World, ids: seq<SegId>, g: int)
    requires w.Removed() && PendingAfter(w, ids, g)
    ensures g + 1 >= |w.log.files| ==> ids == []
  {
    if ids != [] {
      assert ids[0] in ids;
      NamesOrdered(w, ids[0], ids[0]);
    }
  }

  /** A reader past a session's last record stands at the end of its last file. */
  lemma EndOfSession(w: World, st: State, g: nat, lb: Place)
    requires Pristine(w) && ReadingAt(w, st, g, lb) && lb.j == |w.log.epochs[lb.e].recs|
    ensures LastOfEpoch(w.log, g) && st.Exhausted()
  {
    hide World.Valid;
    hide World.Intact;
    hide World.Survives;
    hide Finished;
    hide ReadingAt;
    hide PendingAfter;
    hide OpenValidated;
    hide Log.Valid;
    PristineValid(w);
    ReadingFacts(w, st, g, lb);
    FileFacts(w, st, g);
    IntactAt(w, g);
    if g + 1 < |w.log.files| && w.log.files[g + 1].epoch == lb.e {
      EmptyTail(w, g, lb.e);
    }
  }

  /** No file of an epoch but the first is empty. */
  lemma EmptyTail(w: World, g: nat, e: nat)
    requires Finished(w.log) && g + 1 < |w.log.files| && w.log.files[g + 1].epoch == e == w.log.files[g].epoch
    ensures w.log.InRange(g) && w.log.InRange(g + 1) && w.log.files[g + 1].start < w.log.epochs[e].End()
    ensures w.log.files[g].len == w.log.epochs[e].dsize
    ensures w.log.files[g + 1].start == w.log.files[g].start + w.log.files[g].len
  {
    FilesOrdered(w.log, g, g + 1);
    assert w.log.SameEpoch(g) || w.log.Resumed(g) || w.log.NewSession(g);
    assert w.log.epochs[e].Valid();
  }

  /** There it finds the end of the log or of the session, and nothing else. */
  lemma ReadsEnd(w: World, st: State, g: nat, lb: Place)
    requires Pristine(w) && ReadingAt(w, st, g, lb) && lb.j == |w.log.epochs[lb.e].recs|
    requires st.current.Some? && st.current.value.header.Readable()
    ensures st.Exhausted()
    ensures if g + 1 == |w.log.files| then st.pending == []
            else
              var (att, st1) := ReadFrom(w.dir, st, Fresh);
              st.pending != [] && Tells1(att, SessionEnded(w.log.epochs[lb.e].fmt.Fixed?))
              && AtSession(w, st1, g + 1, lb.e + 1)
  {
    hide Fill;
    hide Cross;
    hide OpenNext;
    hide World.Valid;
    hide World.Intact;
    hide Finished;
    hide ReadingAt;
    hide PendingAfter;
    EndOfSession(w, st, g, lb);
    ReadingFacts(w, st, g, lb);
    PristineValid(w);
    FileFacts(w, st, g);
    OpenHeader(w, st, g, lb);
    var st0 := st.(current := None);
    OpenPastEnd(w, st0, g);
    if g + 1 < |w.log.files| {
      var fmt := w.log.epochs[lb.e].fmt;
      if fmt.Fixed? {
        EndCross(w, st.(lastMeta := MetaFixed), FRESH_CURSOR.(total := Some(fmt.n)), fmt.n);
        OpenApart(w.dir, st0, MetaFixed);
      } else {
        EndCross(w, st, FRESH_CURSOR, w.log.epochs[lb.e].Head());
      }
    }
  }

  lemma EndCross(w: World, st: State, cur: Cursor, n: nat)
    requires n > 0 && cur.consumed == 0 && st.Exhausted()
    ensures var (opening, st1) := OpenNext(w.dir, st.(current := None));
            opening.NewSession? ==> Fill(w.dir, st, cur, n) == FillOut([], Some(SessionEnd), st1, cur)
  {
    hide OpenNext;
    hide Judge;
  }

  lemma OpenApart(dir: Dir, st: State, meta: Meta)
    ensures OpenNext(dir, st.(lastMeta := meta)).0 == OpenNext(dir, st).0
    ensures OpenNext(dir, st).0.NewSession? ==>
      OpenNext(dir, st.(lastMeta := meta)).1 == OpenNext(dir, st).1.(lastMeta := meta)
  {
  }

  /** Opening a session's first file. */
  lemma OpenSession(w: World, st: State, g: nat, e: nat)
    requires Pristine(w) && AtSession(w, st, g, e)
    ensures var (opening, st1) := OpenNext(w.dir, st.(recovery := None));
            && opening.Opened? && AtFile(w, st1, g) && st1.current.value.pos == 0 && st1.startLost == 0
            && st1.recovery.None? && st1.session == Some(w.log.files[g].session)
            && st1.current.value.header.remaining == 0 && |st1.current.value.data| == w.log.files[g].len
  {
    hide OpenNext;
    hide World.Removed;
    hide World.Survives;
    hide PendingAfter;
    hide Sound;
    PristineValid(w);
    IntactAt(w, g);
    var h := OpenNextTruth(w, st.(recovery := None), g - 1);
    var (opening, st1) := OpenNext(w.dir, st.(recovery := None));
    assert opening.Opened? && h == g;
    FileFacts(w, st1, g);
    FreshFile(w.log, g);
  }

  /** A session's first file is empty exactly when the session has no records;
      then it is its only file. */
  lemma FirstFile(w: World, g: nat)
    requires Finished(w.log) && w.log.InRange(g) && w.log.files[g].start == 0
    ensures w.log.files[g].len == 0 <==> w.log.epochs[w.log.files[g].epoch].recs == []
    ensures w.log.files[g].len == 0 ==> LastOfEpoch(w.log, g)
  {
    var ep := w.log.epochs[w.log.files[g].epoch];
    assert ep.Valid();
    if ep.recs != [] { StartGrows(ep, 0, |ep.recs|); }
    if !LastOfEpoch(w.log, g) {
      assert w.log.SameEpoch(g) || w.log.Resumed(g) || w.log.NewSession(g);
    }
  }

  lemma SurvivesFirst(w: World, st: State, g: nat)
    requires w.Intact() && g < |w.log.files| && PendingAfter(w, st.pending, g - 1)
    ensures st.pending != []
  {
    IntactAt(w, g);
    SurvivorListed(w, st.pending, g - 1);
  }

  /** One step of the search, without a hint to consult. */
  lemma FindStep(dir: Dir, st: State)
    requires st.recovery.None?
    ensures var (opening, st1) := OpenNext(dir, st);
            && (opening.NoMore? ==> FindRecordStart(dir, st) == Missing(Eof, st1))
            && (opening.NewSession? ==> FindRecordStart(dir, st) == Missing(SessionEnd, st1))
            && (opening.Opened? ==>
                  var seg := st1.current.value;
                  FindRecordStart(dir, st) ==
                    if seg.header.remaining >= |seg.data| then FindRecordStart(dir, st1.(current := None))
                    else Found(Fresh, Advance(st1, seg.header.remaining)))
  {
    hide OpenNext;
    assert st.(recovery := None) == st;
  }

  lemma FreshOpen(w: World, st: State, g: nat, e: nat)
    requires w.log.InRange(g) && w.log.files[g].epoch == e && w.log.files[g].start == 0
    requires AtFile(w, st, g) && st.current.value.pos == 0 && st.startLost == 0 && st.recovery.None?
    ensures ReadingAt(w, st.(resync := false), g, Place(e, 0))
  {
    hide PendingAfter;
    hide OpenValidated;
  }

  /** The first read of a session that has records. */
  lemma ReadsFirst(w: World, st: State, g: nat, e: nat) returns (g1: nat)
    requires Pristine(w) && AtSession(w, st, g, e) && Sound(w.dir, st)
    requires e < |w.log.epochs| && w.log.epochs[e].recs != []
    ensures st.pending != []
    ensures var (att, st1) := Read(w.dir, st);
            Tells1(att, RecordRead(w.log.epochs[e].recs[0])) && ReadingAt(w, st1, g1, Place(e, 1))
  {
    hide OpenNext;
    hide World.Valid;
    hide World.Intact;
    hide Finished;
    hide PendingAfter;
    hide ReadFrom;
    hide AtFile;
    hide FindRecordStart;
    hide ReadingAt;
    hide Tells1;
    PristineValid(w);
    var st0 := st.(resync := true);
    var (opening, st1) := OpenNext(w.dir, st0);
    assert st0.(recovery := None) == st0;
    OpenSession(w, st0, g, e);
    FirstFile(w, g);
    SurvivesFirst(w, st, g);
    FindSound(w.dir, st0);
    FindStep(w.dir, st0);
    var st2 := st1.(resync := false);
    AdvanceNone(st1);
    FreshOpen(w, st1, g, e);
    OpenHeader(w, st2, g, Place(e, 0));
    g1 := ReadsNext(w, st2, g, Place(e, 0));
  }

  /** ... and of one that has none. */
  lemma ReadsEmpty(w: World, st: State, g: nat, e: nat)
    requires Pristine(w) && AtSession(w, st, g, e) && Sound(w.dir, st)
    requires e < |w.log.epochs| && w.log.epochs[e].recs == []
    ensures st.pending != []
    ensures var (att, st1) := Read(w.dir, st);
            if g + 1 == |w.log.files| then att == Nothing(Eof)
            else att == Nothing(SessionEnd) && AtSession(w, st1, g + 1, e + 1)
  {
    hide OpenNext;
    hide World.Valid;
    hide World.Intact;
    hide Finished;
    hide PendingAfter;
    hide ReadFrom;
    hide AtFile;
    hide FindRecordStart;
    PristineValid(w);
    var st0 := st.(resync := true);
    var (opening, st1) := OpenNext(w.dir, st0);
    assert st0.(recovery := None) == st0;
    OpenSession(w, st0, g, e);
    FirstFile(w, g);
    SurvivesFirst(w, st, g);
    FindSound(w.dir, st0);
    FindStep(w.dir, st0);
    var st2 := st1.(current := None);
    PendingOf(w, st1, g);
    OpenPastEnd(w, st2, g);
    FindStep(w.dir, st2);
  }

  // ------------------------------------------------------------ whole runs

  ghost predicate Follows(trace: seq<Attempt>, story: seq<Event>) {
    && |trace| == |story|
    && forall i :: 0 <= i < |trace| ==> Tells1(trace[i], story[i])
  }

  lemma FollowsMore(att: Attempt, trace: seq<Attempt>, event: Event, story: seq<Event>)
    requires Tells1(att, event) && Follows(trace, story)
    ensures Follows([att] + trace, [event] + story)
  {
    hide Tells1;
    var trace1, story1 := [att] + trace, [event] + story;
    forall i | 0 <= i < |trace1| ensures Tells1(trace1[i], story1[i]) {
      if i > 0 { assert trace1[i] == trace[i - 1] && story1[i] == story[i - 1]; }
    }
  }

  lemma FollowsNothing()
    ensures Follows([], [])
  {
  }

  /** The last file belongs to the last session. */
  lemma LastSession(log: Log, g: nat)
    requires Finished(log) && LastOfEpoch(log, g)
    ensures log.InRange(g) && (g + 1 == |log.files| <==> log.files[g].epoch + 1 == |log.epochs|)
  {
    assert log.InRange(g);
    if g + 1 < |log.files| { assert log.SameEpoch(g) || log.Resumed(g) || log.NewSession(g); }
  }

  /** A reader with records of the session still to come is not at the end. */
  lemma MoreToRead(w: World, st: State, g: nat, lb: Place)
    requires Pristine(w) && ReadingAt(w, st, g, lb) && lb.j < |w.log.epochs[lb.e].recs|
    ensures st.pending != [] || !st.Exhausted()
  {
    hide World.Valid;
    hide World.Intact;
    hide World.Survives;
    hide Finished;
    hide PendingAfter;
    hide ReadingAt;
    PristineValid(w);
    ReadingFacts(w, st, g, lb);
    if st.Exhausted() {
      NotLast(w, st, g, lb);
      SurvivorListed(w, st.pending, g);
    }
  }

  /** One read of an open session, in terms of `read` itself. */
  lemma ReadsOn(w: World, st: State, g: nat, lb: Place) returns (g1: nat)
    requires Pristine(w) && ReadingAt(w, st, g, lb) && Sound(w.dir, st)
    ensures lb.e < |w.log.epochs|
    ensures var (att, st1) := Read(w.dir, st);
            if lb.j < |w.log.epochs[lb.e].recs| then
              Tells1(att, RecordRead(w.log.epochs[lb.e].recs[lb.j])) && ReadingAt(w, st1, g1, Place(lb.e, lb.j + 1))
            else if lb.e + 1 == |w.log.epochs| then att == Nothing(Eof)
            else Tells1(att, SessionEnded(w.log.epochs[lb.e].fmt.Fixed?)) && AtSession(w, st1, g1, lb.e + 1)
  {
    hide World.Valid;
    hide World.Intact;
    hide Finished;
    hide ReadingAt;
    hide ReadFrom;
    hide FindRecordStart;
    hide AtSession;
    hide Tells1;
    PristineValid(w);
    OpenHeader(w, st, g, lb);
    ReadingFacts(w, st, g, lb);
    if lb.j < |w.log.epochs[lb.e].recs| {
      MoreToRead(w, st, g, lb);
      g1 := ReadsNext(w, st, g, lb);
    } else {
      g1 := g + 1;
      EndOfSession(w, st, g, lb);
      LastSession(w.log, g);
      ReadsEnd(w, st, g, lb);
    }
  }

  lemma TraceMore(dir: Dir, st: State)
    requires Sound(dir, st)
    ensures Sound(dir, Read(dir, st).1)
    ensures var (att, st1) := Read(dir, st);
            Trace(dir, st) == (if att == Nothing(Eof) then [] else [att] + Trace(dir, st1)) &&
            (att != Nothing(Eof) ==> Potential(dir, st1) < Potential(dir, st))
  {
    hide Read;
    hide Potential;
    ReadPays(dir, st);
  }

  lemma {:induction false} RunReads(w: World, st: State, g: nat, lb: Place)
    requires Pristine(w) && ReadingAt(w, st, g, lb) && Sound(w.dir, st) && lb.j > 0
    ensures lb.e < |w.log.epochs| && lb.j <= |w.log.epochs[lb.e].recs|
    ensures Follows(Trace(w.dir, st), Story(w.log.epochs, lb.e, lb.j))
    decreases Potential(w.dir, st)
  {
    hide *;
    PristineValid(w);
    ReadingFacts(w, st, g, lb);
    TraceMore(w.dir, st);
    var (att, st1) := Read(w.dir, st);
    var g1 := ReadsOn(w, st, g, lb);
    var recs := w.log.epochs[lb.e].recs;
    StoryMore(w.log.epochs, lb.e, lb.j);
    if lb.j < |recs| {
      ReadNotEof(att, recs[lb.j]);
      RunReads(w, st1, g1, Place(lb.e, lb.j + 1));
      FollowsMore(att, Trace(w.dir, st1), RecordRead(recs[lb.j]), Story(w.log.epochs, lb.e, lb.j + 1));
    } else if lb.e + 1 == |w.log.epochs| {
      FollowsNothing();
    } else {
      EndNotEof(att);
      RunSession(w, st1, g1, lb.e + 1);
      FollowsMore(att, Trace(w.dir, st1), SessionEnded(w.log.epochs[lb.e].fmt.Fixed?),
                  Story(w.log.epochs, lb.e + 1, 0));
    }
  }

  lemma StoryMore(epochs: seq<Epoch>, e: nat, j: nat)
    requires e < |epochs| && j <= |epochs[e].recs|
    ensures Story(epochs, e, j) ==
      if j < |epochs[e].recs| then [RecordRead(epochs[e].recs[j])] + Story(epochs, e, j + 1)
      else if e + 1 < |epochs| then
        [SessionEnded(epochs[e].fmt.Fixed? && epochs[e].recs != [])] + Story(epochs, e + 1, 0)
      else []
  {
  }

  lemma EndNotEof(att: Attempt)
    ensures forall inside :: Tells1(att, SessionEnded(inside)) ==> att != Nothing(Eof)
  {
  }

  lemma {:induction false} RunSession(w: World, st: State, g: nat, e: nat)
    requires Pristine(w) && AtSession(w, st, g, e) && Sound(w.dir, st)
    ensures e < |w.log.epochs| && Follows(Trace(w.dir, st), Story(w.log.epochs, e, 0))
    decreases Potential(w.dir, st)
  {
    hide Pristine;
    hide PendingAfter;
    hide Sound;
    hide Log.Valid;
    hide LastOfEpoch;
    hide World.Valid;
    hide World.Intact;
    hide Finished;
    hide ReadingAt;
    hide Follows;
    hide Tells1;
    hide Read;
    hide Potential;
    hide Story;
    PristineValid(w);
    ReadPays(w.dir, st);
    var (att, st1) := Read(w.dir, st);
    StoryMore(w.log.epochs, e, 0);
    if w.log.epochs[e].recs == [] {
      FirstFile(w, g);
      LastSession(w.log, g);
      ReadsEmpty(w, st, g, e);
      if g + 1 == |w.log.files| {
        FollowsNothing();
      } else {
        RunSession(w, st1, g + 1, e + 1);
        EmptyTells(att);
        FollowsMore(att, Trace(w.dir, st1), SessionEnded(false), Story(w.log.epochs, e + 1, 0));
      }
    } else {
      var g1 := ReadsFirst(w, st, g, e);
      ReadNotEof(att, w.log.epochs[e].recs[0]);
      RunReads(w, st1, g1, Place(e, 1));
      FollowsMore(att, Trace(w.dir, st1), RecordRead(w.log.epochs[e].recs[0]), Story(w.log.epochs, e, 1));
    }
  }

  lemma EmptyTells(att: Attempt)
    ensures att == Nothing(SessionEnd) ==> Tells1(att, SessionEnded(false))
  {
  }

  lemma ReadNotEof(att: Attempt, r: Record)
    ensures Tells1(att, RecordRead(r)) ==> att != Nothing(Eof)
  {
  }

  /** Read i of a log without damage meets event i of the story. */
  lemma FollowsStory(w: World, ids: seq<SegId>)
    requires Pristine(w) && Sorted(ids) && forall id :: id in ids <==> id in w.dir
    ensures Follows(Trace(w.dir, Initial(ids, false)), WholeStory(w.log.epochs))
  {
    hide World.Valid;
    hide World.Intact;
    hide Tells1;
    hide Read;
    hide Story;
    if w.log.epochs == [] {
      NothingToRead(w, ids);
    } else {
      StandsFirst(w, ids);
      RunSession(w, Initial(ids, false), 0, 0);
    }
  }

  /** Read i reports event i of the story, into a buffer of so many bytes. */
  ghost predicate Retells(trace: seq<Attempt>, story: seq<Event>, rooms: seq<nat>) {
    && |trace| == |story| == |rooms|
    && forall i :: 0 <= i < |trace| ==> Clip(trace[i], rooms[i]) == Said(story[i], rooms[i])
  }

  /** A log without damage reads back as what was written: read i reports event
      i of the story, each record with its metadata and one session end between
      consecutive sessions, then the end of the log. A payload too long for the
      caller's buffer is cut to it, and nothing else depends on the buffers but
      the one session end that an empty buffer hides. */
  lemma ReadsBackWhatWasWritten(w: World, ids: seq<SegId>, rooms: seq<nat>)
    requires Pristine(w) && Sorted(ids) && forall id :: id in ids <==> id in w.dir
    requires |rooms| == |WholeStory(w.log.epochs)|
    ensures Retells(Trace(w.dir, Initial(ids, false)), WholeStory(w.log.epochs), rooms)
  {
    hide Pristine;
    hide WholeStory;
    hide Said;
    hide Clip;
    hide Tells1;
    hide Trace;
    FollowsStory(w, ids);
    var trace, story := Trace(w.dir, Initial(ids, false)), WholeStory(w.log.epochs);
    forall i | 0 <= i < |rooms|
      ensures Clip(trace[i], rooms[i]) == Said(story[i], rooms[i])
    {
      SaidIs(trace[i], story[i], rooms[i]);
    }
  }

  lemma StandsFirst(w: World, ids: seq<SegId>)
    requires Pristine(w) && Sorted(ids) && (forall id :: id in ids <==> id in w.dir) && w.log.epochs != []
    ensures AtSession(w, Initial(ids, false), 0, 0)
  {
    hide Usable;
    hide World.Survives;
    hide World.Countable;
    hide World.ResumptionsHeld;
    hide World.Intact;
    PristineValid(w);
    assert w.log.InRange(0);
    StandsBefore(w, ids);
  }

  lemma StandsBefore(w: World, ids: seq<SegId>)
    requires w.Removed() && Sorted(ids) && forall id :: id in ids <==> id in w.dir
    ensures PendingAfter(w, ids, -1)
  {
    hide Usable;
  }

  lemma NothingToRead(w: World, ids: seq<SegId>)
    requires Pristine(w) && (forall id :: id in ids <==> id in w.dir) && w.log.epochs == []
    ensures Trace(w.dir, Initial(ids, false)) == []
  {
    hide FindRecordStart;
    hide ReadFrom;
    NoFiles(w, ids);
  }

  lemma NoFiles(w: World, ids: seq<SegId>)
    requires Pristine(w) && (forall id :: id in ids <==> id in w.dir) && w.log.epochs == []
    ensures ids == []
  {
    hide Usable;
    hide OpenValidated;
    FirstListed(w.dir, ids);
    assert w.log.files == [];
    assert w.dir.Keys == {};
  }

  lemma FirstListed(dir: Dir, ids: seq<SegId>)
    requires forall id :: id in ids <==> id in dir
    ensures ids != [] ==> ids[0] in dir
  {
    assert ids != [] ==> ids[0] in ids;
  }
}
