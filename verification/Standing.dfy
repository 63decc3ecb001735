/** Where a reader stands in a damaged log: its state is tied to the log by the
    file it stands in, or the last one it gave up, and by a lower bound on the
    place of the next record. What opening the next file, and crossing into it
    inside a record, do to that (tcslog/src/read.rs). */
module Standing {
  import opened Bytes
  import opened Format
  import opened Names
  import opened ReadSpec
  import opened ReadEnds
  import opened Layout
  import opened Damage

  // ------------------------------------------------------- where it stands

  /** The list holds, in order, files written after file g, and all of those
      that survive. */
  ghost predicate PendingAfter(w: World, ids: seq<SegId>, g: int) {
    && Sorted(ids)
    && (forall id :: id in ids ==> id in w.at && w.at[id] > g)
    && (forall h :: h > g && w.Survives(h) ==> w.log.files[h].id in ids)
  }

  /** File g is open. */
  ghost predicate AtFile(w: World, st: State, g: nat) {
    && st.current.Some? && Sound(w.dir, st.(resync := false))
    && st.current.value.id in w.at && w.at[st.current.value.id] == g
    && PendingAfter(w, st.pending, g)
  }

  /** The open file is file g, at offset o of its epoch's stream. */
  ghost predicate AtOffset(w: World, st: State, g: nat, o: nat) {
    && AtFile(w, st, g) && g < |w.log.files|
    && o == w.log.files[g].start + st.current.value.pos
  }

  /** Record j of a file's epoch starts at or after the file does. */
  ghost predicate StartsFrom(w: World, x: nat, j: nat) {
    && w.log.InRange(x)
    && var ep := w.log.epochs[w.log.files[x].epoch];
       j <= |ep.recs| && ep.Start(j) >= w.log.files[x].start
  }

  /** No record found in files after g precedes lb. */
  ghost predicate Bounded(w: World, g: int, lb: Place) {
    forall x: nat, j: nat :: x > g && StartsFrom(w, x, j) ==> Le(lb, Place(w.log.files[x].epoch, j))
  }

  /** A recovery hint names file g, two after the one in which a record ran
      out that ended `owed` bytes into the missing file between them. */
  ghost predicate HintFor(w: World, rec: Recovery, g: nat, j: nat) {
    && 2 <= g < |w.log.files| && w.log.InRange(g) && w.log.InRange(g - 1)
    && rec.segment in w.at && w.at[rec.segment] == g
    && (w.log.epochs[w.log.files[g].epoch].fmt == VariableSimple ==>
          var f := w.log.files[g - 1];
          var ep := w.log.epochs[f.epoch];
          && w.log.SameEpoch(g - 2) && w.log.Base(g - 1) == w.log.Base(g)
          && j < |ep.recs| && rec.owed == ep.Start(j + 1) - f.start)
  }

  ghost predicate HintTrue(w: World, st: State, g0: int, lb: Place) {
    st.recovery.Some? ==>
      && st.session.Some? && st.startLost == 0
      && exists g: nat, j: nat ::
           && g > g0 && HintFor(w, st.recovery.value, g, j)
           && (w.log.epochs[w.log.files[g].epoch].fmt == VariableSimple ==>
                 Le(lb, Place(w.log.files[g - 1].epoch, j + 1)))
  }

  /** No file is open; files up to g0 are done with. */
  ghost predicate Resting(w: World, st: State, g0: int, lb: Place) {
    && g0 >= -1 && st.current.None?
    && PendingAfter(w, st.pending, g0) && Bounded(w, g0, lb) && HintTrue(w, st, g0, lb)
  }

  /** File g0 is open at the start of the record at lb. */
  ghost predicate ReadingAt(w: World, st: State, g0: int, lb: Place) {
    && g0 >= 0 && st.recovery.None? && st.startLost == 0
    && w.log.InRange(g0) && lb.e == w.log.files[g0].epoch && lb.j <= |w.log.epochs[lb.e].recs|
    && AtOffset(w, st, g0, w.log.epochs[lb.e].Start(lb.j))
  }

  // ------------------------------------------------------------ one file on

  lemma FileFacts(w: World, st: State, g: nat)
    requires w.Valid() && AtFile(w, st, g)
    ensures w.log.InRange(g) && w.Survives(g) && w.log.files[g].id == st.current.value.id
    ensures w.Left(g) == st.current.value.data
    ensures |w.Left(g)| <= w.log.files[g].len <= w.log.epochs[w.log.files[g].epoch].dsize
    ensures st.current.value.header == w.log.HeaderOf(g)
    ensures st.session == Some(w.log.files[g].session) && st.prevSeq == Some(w.log.files[g].ordinal)
    ensures st.current.value.header.DataLen() == w.log.epochs[w.log.files[g].epoch].dsize
  {
    UsableIsTrue(w, st.current.value.id);
  }

  /** No file strictly between a and b survives. */
  ghost predicate Gone(w: World, a: int, b: int) {
    forall h :: a < h < b ==> !w.Survives(h)
  }

  /** The files before the first usable one in the list are no survivors. */
  lemma Skipping(w: World, ids: seq<SegId>, g0: int, t: nat)
    requires w.Removed() && PendingAfter(w, ids, g0) && t <= |ids|
    requires forall i :: 0 <= i < t ==> !Usable(w.dir, ids[i])
    ensures PendingAfter(w, ids[t..], g0)
  {
    hide Usable;
    hide World.Removed;
    forall h | h > g0 && w.Survives(h)
      ensures w.log.files[h].id in ids[t..]
    {
      var i :| 0 <= i < |ids| && ids[i] == w.log.files[h].id;
      assert ids[t..][i - t] == ids[i];
    }
  }

  lemma SkippedGone(w: World, ids: seq<SegId>, g0: int, t: nat)
    requires w.Removed() && PendingAfter(w, ids, g0) && t <= |ids|
    requires forall i :: 0 <= i < t ==> !Usable(w.dir, ids[i])
    ensures t == |ids| ==> Gone(w, g0, |w.log.files|)
    ensures t < |ids| ==> ids[t] in w.at && w.at[ids[t]] > g0 && Gone(w, g0, w.at[ids[t]])
  {
    hide Usable;
    hide World.Removed;
    assert t < |ids| ==> ids[t] in ids;
    var end := if t < |ids| then w.at[ids[t]] else |w.log.files|;
    forall h | g0 < h < end
      ensures !w.Survives(h)
    {
      if 0 <= h < |w.log.files| && w.log.files[h].id in ids {
        var i :| 0 <= i < |ids| && ids[i] == w.log.files[h].id;
        assert ids[i] in ids;
        if t < i { NamesOrdered(w, ids[t], ids[i]); }
      }
    }
  }

  /** Past the first file of the list. */
  lemma PendingRest(w: World, ids: seq<SegId>, g0: int)
    requires w.Removed() && PendingAfter(w, ids, g0) && ids != []
    ensures ids[0] in w.at && PendingAfter(w, ids[1..], w.at[ids[0]])
  {
    hide Usable;
    hide World.Removed;
    var id := ids[0];
    assert id in ids && ids == [id] + ids[1..];
    forall x | x in ids[1..]
      ensures x in w.at && w.at[x] > w.at[id]
    {
      assert x in ids && id < x;
      NamesOrdered(w, id, x);
    }
    forall h | h > w.at[id] && w.Survives(h)
      ensures w.log.files[h].id in ids[1..]
    {
      assert w.log.files[h].id in ids && w.log.files[h].id != id;
    }
  }

  /** Back in front of it. */
  lemma PendingBack(w: World, ids: seq<SegId>, g: nat, g0: int)
    requires w.Removed() && PendingAfter(w, ids, g) && w.Survives(g) && g0 < g && Gone(w, g0, g)
    ensures PendingAfter(w, [w.log.files[g].id] + ids, g0)
  {
    hide Usable;
    hide World.Removed;
    var id := w.log.files[g].id;
    var all := [id] + ids;
    forall i, j | 0 <= i < j < |all| ensures all[i] < all[j] {
      if i == 0 {
        assert all[j] in ids;
        NamesOrdered(w, id, all[j]);
      }
    }
    forall h | h > g0 && w.Survives(h)
      ensures w.log.files[h].id in all
    {
      assert h >= g;
    }
  }

  /** What opening the next file after g0 comes to: the next survivor, unless
      none is left or it belongs to another session. */
  ghost predicate OpenedAs(w: World, st: State, g0: int, g: nat, opening: Opening, st1: State) {
    match opening
    case Opened =>
      && g > g0 && AtFile(w, st1, g) && st1.current.value.pos == 0 && Gone(w, g0, g)
      && st1.recovery == st.recovery && st1.resync == st.resync
      && (st.session.Some? ==> st1.session == st.session && st1.startLost == st.startLost)
      && (st.session.None? ==> st1.startLost == st1.current.value.header.sequence)
    case NoMore =>
      st1 == st.(pending := []) && PendingAfter(w, [], g0) && Gone(w, g0, |w.log.files|)
    case NewSession =>
      && st.session.Some? && PendingAfter(w, st1.pending, g0)
      && g > g0 && w.Survives(g) && Gone(w, g0, g) && w.log.files[g].session != st.session.value
      && st1 == st.(pending := st1.pending, session := None, prevSeq := None, recovery := None)
  }

  lemma OpenNextTruth(w: World, st: State, g0: int) returns (g: nat)
    requires w.Valid() && st.current.None? && PendingAfter(w, st.pending, g0)
    ensures OpenedAs(w, st, g0, g, OpenNext(w.dir, st).0, OpenNext(w.dir, st).1)
  {
    hide PendingAfter;
    hide World.Survives;
    hide Gone;
    hide Unusable;
    hide OpenNext;
    hide OpenValidated;
    OpenNextForm(w.dir, st);
    var t := Unusable(w.dir, st.pending);
    g := 0;
    Skipping(w, st.pending, g0, t);
    SkippedGone(w, st.pending, g0, t);
    if t < |st.pending| {
      var rest := st.pending[t..];
      assert rest[0] == st.pending[t] && rest[1..] == st.pending[t + 1..];
      PendingRest(w, rest, g0);
      g := w.at[rest[0]];
      UsableIsTrue(w, rest[0]);
      OpenNextSound(w.dir, st);
    } else {
      assert st.pending[t..] == [];
    }
  }

  // --------------------------------------------------- what comes next in a log

  /** Two survivors of one session, one apart in sequence, are neighbours. */
  lemma NextInSession(w: World, g: nat, h: nat)
    requires w.Valid() && w.Survives(g) && w.Survives(h)
    requires w.log.files[g].session == w.log.files[h].session
    requires w.log.files[h].ordinal == w.log.files[g].ordinal + 1
    ensures h == g + 1 && (w.log.SameEpoch(g) || w.log.Resumed(g))
  {
    hide Usable;
    hide World.Removed;
    LogOf(w);
    SessionsApart(w, g, h);
  }

  /** Two apart in sequence, with the file between them gone: if the first is
      full, that one held the continuation of its epoch. */
  lemma OneMissing(w: World, g: nat, h: nat)
    requires w.Valid() && w.Survives(g) && w.Survives(h) && Gone(w, g, h)
    requires w.log.files[g].session == w.log.files[h].session
    requires w.log.files[h].ordinal == w.log.files[g].ordinal + 2
    ensures h == g + 2 && w.log.Base(g) == w.log.Base(g + 1) == w.log.Base(h)
    ensures w.FullSimple(g) ==> w.log.SameEpoch(g)
  {
    hide Usable;
    hide World.Removed;
    LogOf(w);
    SessionsApart(w, g, h);
    FilesOrdered(w.log, g, g + 1);
    FilesOrdered(w.log, g + 1, h);
    assert w.log.SameEpoch(g) || w.log.Resumed(g) || w.log.NewSession(g);
    assert !w.Survives(g + 1);
  }

  /** The boundary that bounds what files after g can yield. */
  lemma BoundedAfter(w: World, g: nat, j: nat)
    requires w.Valid() && w.log.InRange(g)
    requires var ep := w.log.epochs[w.log.files[g].epoch];
             j <= |ep.recs| && (j > 0 ==> ep.Start(j - 1) < w.log.files[g].start + ep.dsize)
    ensures Bounded(w, g, Place(w.log.files[g].epoch, j))
  {
    hide World.Removed;
    var f := w.log.files[g];
    var ep := w.log.epochs[f.epoch];
    forall x: nat, i: nat | x > g && StartsFrom(w, x, i)
      ensures Le(Place(f.epoch, j), Place(w.log.files[x].epoch, i))
    {
      LogOf(w);
      FilesOrdered(w.log, g, x);
      if w.log.files[x].epoch == f.epoch && i < j { StartGrows(ep, i, j - 1); }
    }
  }

  lemma LogOf(w: World)
    requires w.Valid()
    ensures w.log.Valid()
  {
  }

  // ------------------------------------------------- crossing inside a record

  /** The cursor of a reader at offset o, inside record j of the epoch. */
  ghost predicate CursorIn(ep: Epoch, j: nat, o: nat, cur: Cursor) {
    && j < |ep.recs| && ep.Start(j) <= o <= ep.Start(j + 1)
    && cur.consumed == o - ep.Start(j)
    && (cur.total.Some? ==> cur.total.value == ep.Start(j + 1) - ep.Start(j))
    && (cur.implied.Some? ==> cur.implied.value == |ep.recs[j].payload|)
  }

  /** The file that continues the record is recognized, and implies the length
      it has; one that starts on a fresh record is not taken for it. */
  lemma ContinuesIn(w: World, g: nat, j: nat, o: nat, cur: Cursor)
    requires w.log.Valid() && w.log.InRange(g)
    requires var ep := w.log.epochs[w.log.files[g].epoch];
             && w.log.files[g].start == o && CursorIn(ep, j, o, cur) && ep.Start(j) < o < ep.Start(j + 1)
             && (cur.total.None? ==> o < ep.Start(j) + ep.Head())
    ensures Continues(w.log.HeaderOf(g), cur)
    ensures var ep := w.log.epochs[w.log.files[g].epoch];
            CursorIn(ep, j, o, NoteImplied(w.log.HeaderOf(g), cur))
  {
    var ep := w.log.epochs[w.log.files[g].epoch];
    StartGrows(ep, j + 1, |ep.recs|);
    IndexInside(ep, o, j);
  }

  lemma FreshRefused(w: World, g: nat, cur: Cursor)
    requires w.log.Valid() && w.log.InRange(g) && w.log.files[g].start == 0
    requires cur.consumed > 0
    requires cur.total.Some? ==> cur.total.value > cur.consumed
    requires cur.total.None? ==> cur.consumed < w.log.epochs[w.log.files[g].epoch].Head()
    ensures !Continues(w.log.HeaderOf(g), cur)
  {
    var ep := w.log.epochs[w.log.files[g].epoch];
    IndexOfStart(ep, 0);
  }

  /** File h has just been opened after file g, in the same session. */
  ghost predicate JustOpened(w: World, st: State, st1: State, g: nat, h: nat) {
    && AtFile(w, st, g) && AtFile(w, st1, h) && g < h && Gone(w, g, h)
    && st1.session == st.session && st1.current.value.pos == 0
    && st1.recovery == st.recovery && st1.startLost == st.startLost && st1.resync == st.resync
  }

  /** What the two headers say of files g and h. */
  lemma JustOpenedFacts(w: World, st: State, st1: State, g: nat, h: nat)
    requires w.Valid() && JustOpened(w, st, st1, g, h)
    ensures w.log.InRange(g) && w.log.InRange(h) && w.Survives(g) && w.Survives(h)
    ensures w.log.files[g].session == w.log.files[h].session
    ensures st1.current.value.header == w.log.HeaderOf(h) && st1.current.value.id == w.log.files[h].id
    ensures st.prevSeq == Some(w.log.files[g].ordinal) && st1.current.value.header.sequence == w.log.files[h].ordinal
    ensures !Short(st) <==> |w.Left(g)| == w.log.epochs[w.log.files[g].epoch].dsize
    ensures w.Left(g) == st.current.value.data
    ensures |w.Left(g)| <= w.log.files[g].len <= w.log.epochs[w.log.files[g].epoch].dsize
  {
    hide PendingAfter;
    hide Gone;
    FileFacts(w, st, g);
    FileFacts(w, st1, h);
  }

  /** An accepted crossing inside a record reaches the next file of its epoch. */
  lemma JudgeAccepts(st: State, st1: State, cur: Cursor)
    requires st1.current.Some?
    ensures var h := st1.current.value.header;
            var c := Judge(st, st1, cur);
            && (c.fault.None? ==>
                  Continues(h, cur) && !Short(st) && InSequence(st.prevSeq, h.sequence) && c.cur == NoteImplied(h, cur))
            && (c.fault.Some? ==> exists hint :: c.st == Reject(st1.(recovery := hint)))
  {
    hide Continues;
    hide NoteImplied;
  }

  lemma AcceptedIn(w: World, st: State, st1: State, cur: Cursor, g: nat, h: nat, j: nat, o: nat)
    requires w.Valid() && JustOpened(w, st, st1, g, h)
    requires AtOffset(w, st, g, o) && st.Exhausted() && w.log.InRange(g)
    requires var ep := w.log.epochs[w.log.files[g].epoch];
             && CursorIn(ep, j, o, cur) && ep.Start(j) < o < ep.Start(j + 1)
             && (cur.total.None? ==> o < ep.Start(j) + ep.Head())
    requires Judge(st, st1, cur).fault.None?
    ensures h == g + 1 && w.log.InRange(h) && w.log.SameEpoch(g)
    ensures AtOffset(w, st1, h, o)
    ensures CursorIn(w.log.epochs[w.log.files[g].epoch], j, o, Judge(st, st1, cur).cur)
  {
    hide PendingAfter;
    hide World.Survives;
    hide World.Removed;
    hide Gone;
    hide Continues;
    hide NoteImplied;
    hide Judge;
    hide OpenValidated;
    JudgeAccepts(st, st1, cur);
    JustOpenedFacts(w, st, st1, g, h);
    LogOf(w);
    NextInSession(w, g, h);
    if w.log.Resumed(g) { FreshRefused(w, h, cur); }
    ContinuesIn(w, h, j, o, cur);
  }

  /** The true continuation is accepted. */
  lemma AcceptedIfNext(w: World, st: State, st1: State, cur: Cursor, g: nat, j: nat, o: nat)
    requires w.Valid() && JustOpened(w, st, st1, g, g + 1)
    requires AtOffset(w, st, g, o) && st.Exhausted() && w.log.SameEpoch(g)
    requires var ep := w.log.epochs[w.log.files[g].epoch];
             && CursorIn(ep, j, o, cur) && ep.Start(j) < o < ep.Start(j + 1)
             && (cur.total.None? ==> o < ep.Start(j) + ep.Head())
             && |st.current.value.data| == ep.dsize
    ensures Judge(st, st1, cur).fault.None?
  {
    hide PendingAfter;
    hide World.Survives;
    hide World.Removed;
    hide Gone;
    hide Continues;
    hide NoteImplied;
    JustOpenedFacts(w, st, st1, g, g + 1);
    LogOf(w);
    ContinuesIn(w, g + 1, j, o, cur);
  }

  /** What a refused crossing leaves: the file handed back, and a hint that is
      true if there is one. */
  lemma Refused(w: World, st: State, st1: State, cur: Cursor, g: nat, h: nat, j: nat, o: nat, lb: Place)
    requires w.Valid() && JustOpened(w, st, st1, g, h)
    requires AtOffset(w, st, g, o) && st.Exhausted() && w.log.InRange(g)
    requires st.recovery.None? && st.startLost == 0
    requires Bounded(w, g, lb)
    requires var ep := w.log.epochs[w.log.files[g].epoch];
             cur.total.Some? && ep.fmt == VariableSimple ==>
               && j < |ep.recs| && Le(lb, Place(w.log.files[g].epoch, j + 1))
               && cur.total.value - cur.consumed == ep.Start(j + 1) - o
    requires Judge(st, st1, cur).fault.Some?
    ensures Resting(w, Judge(st, st1, cur).st, g, lb)
  {
    hide PendingAfter;
    hide Judge;
    hide World.Valid;
    hide Bounded;
    hide OpenValidated;
    hide Gone;
    hide HintTrue;
    hide HintFor;
    var c := Judge(st, st1, cur);
    JustOpenedFacts(w, st, st1, g, h);
    PendingOf(w, st1, h);
    PendingBack(w, st1.pending, h, g);
    JudgeAccepts(st, st1, cur);
    RefusedHint(w, st, st1, cur, g, h, j, o, lb);
  }

  lemma RefusedHint(w: World, st: State, st1: State, cur: Cursor, g: nat, h: nat, j: nat, o: nat, lb: Place)
    requires w.Valid() && JustOpened(w, st, st1, g, h)
    requires AtOffset(w, st, g, o) && st.Exhausted() && w.log.InRange(g)
    requires st.recovery.None? && st.startLost == 0
    requires var ep := w.log.epochs[w.log.files[g].epoch];
             cur.total.Some? && ep.fmt == VariableSimple ==>
               && j < |ep.recs| && Le(lb, Place(w.log.files[g].epoch, j + 1))
               && cur.total.value - cur.consumed == ep.Start(j + 1) - o
    requires Judge(st, st1, cur).fault.Some?
    ensures HintTrue(w, Judge(st, st1, cur).st, g, lb)
  {
    hide PendingAfter;
    hide Continues;
    hide NoteImplied;
    hide World.Survives;
    hide World.Removed;
    hide OpenValidated;
    var c := Judge(st, st1, cur);
    if c.st.recovery.Some? {
      JustOpenedFacts(w, st, st1, g, h);
      OneMissing(w, g, h);
      LogOf(w);
      FilesOrdered(w.log, g, h);
      HintMade(w, st, st1, cur, g, j, o);
      assert HintFor(w, c.st.recovery.value, h, j);
    }
  }

  lemma PendingOf(w: World, st: State, g: nat)
    requires w.Valid() && AtFile(w, st, g)
    ensures PendingAfter(w, st.pending, g) && w.Removed()
  {
  }

  lemma HintMade(w: World, st: State, st1: State, cur: Cursor, g: nat, j: nat, o: nat)
    requires w.Valid() && JustOpened(w, st, st1, g, g + 2)
    requires AtOffset(w, st, g, o) && st.Exhausted() && w.log.InRange(g)
    requires w.log.Base(g) == w.log.Base(g + 1) == w.log.Base(g + 2) && !Short(st) && cur.total.Some?
    requires var ep := w.log.epochs[w.log.files[g].epoch];
             ep.fmt == VariableSimple ==>
               w.log.SameEpoch(g) && j < |ep.recs| && cur.total.value - cur.consumed == ep.Start(j + 1) - o
    ensures HintFor(w, Recovery(st1.current.value.id, cur.total.value - cur.consumed), g + 2, j)
  {
    hide PendingAfter;
    hide World.Survives;
    hide World.Removed;
    hide Gone;
    JustOpenedFacts(w, st, st1, g, g + 2);
    LogOf(w);
    FilesOrdered(w.log, g, g + 2);
  }

  /** Crossing part way through record j: either into the file that really
      continues it, or the record is given up and nothing before the next
      record can come of the files that follow. */
  lemma CrossIn(w: World, st: State, cur: Cursor, g: nat, j: nat, o: nat)
    requires w.Valid() && AtOffset(w, st, g, o) && st.Exhausted() && w.log.InRange(g)
    requires st.recovery.None? && st.startLost == 0
    requires var ep := w.log.epochs[w.log.files[g].epoch];
             && CursorIn(ep, j, o, cur) && ep.Start(j) < o < ep.Start(j + 1)
             && (cur.total.None? ==> o < ep.Start(j) + ep.Head())
    ensures var ep := w.log.epochs[w.log.files[g].epoch];
            var c := Cross(w.dir, st, cur);
            if c.fault.None? then
              && w.log.InRange(g + 1) && w.log.files[g + 1].epoch == w.log.files[g].epoch
              && AtOffset(w, c.st, g + 1, o) && CursorIn(ep, j, o, c.cur)
              && c.st.recovery.None? && c.st.startLost == 0 && c.st.resync == st.resync
            else
              && c.fault.value.Truncated?
              && Resting(w, c.st, g, Place(w.log.files[g].epoch, j + 1))
  {
    hide OpenNext;
    hide Judge;
    hide PendingAfter;
    hide World.Survives;
    hide World.Removed;
    hide World.ResumptionsHeld;
    hide Gone;
    hide Bounded;
    hide Sound;
    hide CursorIn;
    hide HintTrue;
    var lb := Place(w.log.files[g].epoch, j + 1);
    var st0 := st.(current := None);
    var (opening, st1) := OpenNext(w.dir, st0);
    FileFacts(w, st, g);
    PendingOf(w, st, g);
    WithinRecord(w, st, cur, g, j, o);
    BoundedAfter(w, g, j + 1);
    NoHint(w, g, lb);
    var h := OpenNextTruth(w, st0, g);
    match opening
    case NoMore =>
    case NewSession =>
    case Opened =>
      if Judge(st, st1, cur).fault.None? {
        AcceptedIn(w, st, st1, cur, g, h, j, o);
      } else {
        OwedIn(w, g, j, o, cur);
        Refused(w, st, st1, cur, g, h, j, o, lb);
      }
  }

  lemma WithinRecord(w: World, st: State, cur: Cursor, g: nat, j: nat, o: nat)
    requires w.Valid() && AtOffset(w, st, g, o) && st.Exhausted() && w.log.InRange(g)
    requires var ep := w.log.epochs[w.log.files[g].epoch]; CursorIn(ep, j, o, cur) && ep.Start(j) < o
    ensures var ep := w.log.epochs[w.log.files[g].epoch];
            && j + 1 <= |ep.recs| && ep.Start(j) < w.log.files[g].start + ep.dsize && cur.consumed > 0
  {
    hide PendingAfter;
    hide World.Removed;
    FileFacts(w, st, g);
  }

  lemma OwedIn(w: World, g: nat, j: nat, o: nat, cur: Cursor)
    requires w.log.InRange(g) && CursorIn(w.log.epochs[w.log.files[g].epoch], j, o, cur)
    ensures cur.total.Some? ==>
      cur.total.value - cur.consumed == w.log.epochs[w.log.files[g].epoch].Start(j + 1) - o
  {
  }

  lemma NoHint(w: World, g: int, lb: Place)
    ensures forall st: State :: st.recovery.None? ==> HintTrue(w, st, g, lb)
  {
  }

  /** When the next file of the epoch is there and this one is whole, crossing
      succeeds. */
  lemma CrossSucceeds(w: World, st: State, cur: Cursor, g: nat, j: nat, o: nat)
    requires w.Valid() && AtOffset(w, st, g, o) && st.Exhausted() && w.log.SameEpoch(g)
    requires var ep := w.log.epochs[w.log.files[g].epoch];
             && CursorIn(ep, j, o, cur) && ep.Start(j) < o < ep.Start(j + 1)
             && (cur.total.None? ==> o < ep.Start(j) + ep.Head())
             && |st.current.value.data| == ep.dsize
    requires w.Survives(g + 1)
    ensures Cross(w.dir, st, cur).fault.None?
  {
    hide OpenNext;
    hide Judge;
    hide PendingAfter;
    hide World.Survives;
    hide World.Removed;
    hide World.ResumptionsHeld;
    hide Sound;
    hide CursorIn;
    var st0 := st.(current := None);
    var (opening, st1) := OpenNext(w.dir, st0);
    FileFacts(w, st, g);
    PendingOf(w, st, g);
    LogOf(w);
    OneSession(w.log, g);
    var h := OpenNextTruth(w, st0, g);
    assert opening.Opened? && h == g + 1;
    AcceptedIfNext(w, st, st1, cur, g, j, o);
  }

  lemma OneSession(log: Log, g: nat)
    requires log.Valid() && (log.SameEpoch(g) || log.Resumed(g))
    ensures log.files[g + 1].session == log.files[g].session
  {
    assert log.InRange(g) && log.InRange(g + 1);
    var i := g - log.files[g].ordinal;
    assert log.files[g].session == log.files[i].id;
    assert log.files[g + 1].session == log.files[g + 1 - log.files[g + 1].ordinal].id;
  }
}
