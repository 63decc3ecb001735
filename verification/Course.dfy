/** The course a reader takes through a damaged log, told of the log alone: which
    record each read comes to, how much of it there is to be had, what loss is
    reported, and where that leaves the reader. `read` takes exactly this course
    (tcslog/src/read.rs). */
module Course {
  import opened Bytes
  import opened Format
  import opened Header
  import opened Names
  import opened ReadSpec
  import opened ReadEnds
  import opened Layout
  import opened Damage
  import opened Standing
  import opened Filling
  import opened RecordTruth
  import opened ReadTruth
  import opened LossCounts
  import opened Reach

  /** Where a reader is: in file g at the start of the record at p; or done with
      the files up to g, still in their session or not, and knowing or not that
      the next file starts with the payload of this record of its epoch. */
  datatype Spot = At(g: nat, p: Place) | Past(upto: int, within: bool, regained: Option<nat>)

  ghost predicate Fits(w: World, s: Spot) {
    match s
    case At(g, p) =>
      && w.Survives(g) && w.log.InRange(g) && p.e == w.log.files[g].epoch && p.j <= |w.log.epochs[p.e].recs|
      && w.log.files[g].start <= w.log.epochs[p.e].Start(p.j) <= EndOf(w, g) <= w.log.epochs[p.e].End()
    case Past(g, within, regained) =>
      && -1 <= g < |w.log.files| && (within ==> g >= 0)
      && (regained.Some? ==>
            within && g >= 0 && regained.value > 0 && HeaderGone(w, g, regained.value - 1))
  }

  // ---------------------------------------------------------- one record

  /** File g is whole, and the next of its session comes right after it. */
  ghost predicate Adjoins(w: World, g: nat) {
    && w.Survives(g) && w.Survives(g + 1) && (w.log.SameEpoch(g) || w.log.Resumed(g))
    && |w.Left(g)| == w.log.epochs[w.log.files[g].epoch].dsize
  }

  /** The record at p is in reach from file g on. */
  ghost predicate InFile(w: World, g: nat, p: Place) {
    w.Survives(g) && w.log.InRange(g) && p.e == w.log.files[g].epoch && p.j < |w.log.epochs[p.e].recs|
  }

  /** What reading the record at p from file g on comes to: the record, or as
      much of its payload as can be reached, or nothing of it if not even its
      data header can; and the loss of the files that are missing after that. */
  ghost function ReadOf(w: World, g: nat, p: Place): (Attempt, Spot)
    requires InFile(w, g, p)
  {
    var ep, r, m, h := w.log.epochs[p.e], w.RecordAt(p), ReachOf(w, g), Furthest(w, g);
    if ep.Start(p.j + 1) <= m then
      (Payload(|r.payload|, r.meta, r.payload, None), At(FileOf(w, g, ep.Start(p.j + 1)), Place(p.e, p.j + 1)))
    else
      GapKnown(w, h);
      var loss := Truncated(Gap(w, h));
      if m < ep.Start(p.j) + ep.Head() then (Nothing(loss), Past(h, true, None))
      else
        (Payload(|r.payload|, r.meta, r.payload[..m - ep.Start(p.j) - ep.Head()], Some(loss)),
         Past(h, true, if HeaderGone(w, h, p.j) then Some(p.j + 1) else None))
  }

  lemma GapKnown(w: World, h: nat)
    requires w.Survives(h)
    ensures h < |w.log.files|
  {
  }

  /** Where the record that comes next is read: here, or where the session goes
      on if this file ends before it. */
  ghost function HomeOf(w: World, g: nat, p: Place): (s: Spot)
    requires w.Valid() && Fits(w, At(g, p))
    ensures s.At? && Fits(w, s) && CodedAlike(w.log.epochs[s.p.e], w.log.epochs[p.e])
    ensures w.log.epochs[s.p.e].Start(s.p.j) == EndOf(w, s.g) ==> !Adjoins(w, s.g)
    decreases |w.log.files| - g
  {
    if w.log.epochs[p.e].Start(p.j) == EndOf(w, g) && Adjoins(w, g) then
      NextFits(w, g, p);
      HomeOf(w, g + 1, NextPlace(w, g, p))
    else At(g, p)
  }

  lemma NextFits(w: World, g: nat, p: Place)
    requires w.Valid() && Fits(w, At(g, p)) && w.log.epochs[p.e].Start(p.j) == EndOf(w, g) && Adjoins(w, g)
    ensures var q := NextPlace(w, g, p);
            && g + 1 < |w.log.files| && q.e < |w.log.epochs|
            && Fits(w, At(g + 1, q)) && CodedAlike(w.log.epochs[q.e], w.log.epochs[p.e])
  {
    hide World.Valid;
    hide World.Survives;
    LeftShort(w, g + 1);
  }

  /** Nothing of the session is left where the next record would start: its end
      is told, or the loss of what is missing. */
  ghost function EdgeOf(w: World, g: nat, fmt: Format): (Attempt, Spot)
    requires g < |w.log.files|
  {
    var fault := if Parts(w, g) then SessionEnd else Truncated(Gap(w, g));
    (if fmt.Fixed? then Payload(fmt.n, MetaFixed, [], Some(fault)) else Nothing(fault), Past(g, !Parts(w, g), None))
  }

  // ------------------------------------------------------------ the search

  /** What a search comes to: no file is left, or the session's last was passed,
      or a record to read, with that many files missing ahead of its session. */
  datatype Hit = Nowhere | SessionOver(g: int) | Begins(x: nat, p: Place, late: nat)

  /** The next record that starts in a file there is, or whose payload starts
      the next file, if it is known. */
  ghost function Sought(w: World, g: int, within: bool, late: nat, regained: Option<nat>): Hit
    requires w.Valid() && Fits(w, Past(g, within, regained))
    decreases |w.log.files| - g
  {
    var x := NextSurvivor(w, g);
    if x >= |w.log.files| then Nowhere
    else if within && w.log.files[x].session != w.log.files[g].session then SessionOver(g)
    else
      LeftShort(w, x);
      var f := w.log.files[x];
      var ep := w.log.epochs[f.epoch];
      var late1 := if within then late else f.ordinal;
      if regained.Some? then Begins(x, Place(f.epoch, regained.value), late1)
      else if ep.Remaining(f.start) >= |w.Left(x)| then Sought(w, x, true, late1, None)
      else Begins(x, Place(f.epoch, ep.IndexAt(f.start)), late1)
  }

  lemma {:induction false} SoughtFits(w: World, g: int, within: bool, late: nat, regained: Option<nat>)
    requires w.Valid() && Fits(w, Past(g, within, regained))
    ensures var hit := Sought(w, g, within, late, regained);
            && (hit.SessionOver? ==> g <= hit.g < |w.log.files| && 0 <= hit.g)
            && (hit.Begins? ==> g < hit.x && InFile(w, hit.x, hit.p))
            && (hit.Begins? && regained.None? ==>
                  Fits(w, At(hit.x, hit.p)) && w.log.epochs[hit.p.e].Start(hit.p.j) < EndOf(w, hit.x))
            && (hit.Begins? && regained.Some? ==> hit.late == late && within)
    decreases |w.log.files| - g
  {
    hide World.Valid;
    hide World.Survives;
    hide NextSurvivor;
    var x := NextSurvivor(w, g);
    NextWithin(w, g);
    if x < |w.log.files| && !(within && w.log.files[x].session != w.log.files[g].session) {
      LeftShort(w, x);
      if regained.Some? {
        GoneIsGap(w, g, regained.value - 1);
      } else if w.log.epochs[w.log.files[x].epoch].Remaining(w.log.files[x].start) >= |w.Left(x)| {
        SoughtFits(w, x, true, if within then late else w.log.files[x].ordinal, None);
      } else {
        StartsInside(w, x);
      }
    }
  }

  lemma StartsInside(w: World, x: nat)
    requires w.Valid() && w.Survives(x) && w.log.InRange(x)
    requires var f := w.log.files[x]; w.log.epochs[f.epoch].Remaining(f.start) < |w.Left(x)| <= f.len
    ensures var f := w.log.files[x];
            var p := Place(f.epoch, w.log.epochs[f.epoch].IndexAt(f.start));
            InFile(w, x, p) && Fits(w, At(x, p)) && w.log.epochs[p.e].Start(p.j) < EndOf(w, x)
  {
    hide World.Valid;
    hide World.Survives;
  }

  // -------------------------------------------------------------- one read

  /** No name is left of a file after file g. */
  ghost predicate LastName(w: World, g: nat) { forall id :: id in w.at ==> w.at[id] <= g }

  /** From a record boundary in file g. */
  ghost function NextAt(w: World, g: nat, p: Place): (Attempt, Spot)
    requires w.Valid() && Fits(w, At(g, p))
  {
    HomeInFile(w, g, p);
    var home := HomeOf(w, g, p);
    if w.log.epochs[p.e].Start(p.j) == EndOf(w, g) && LastName(w, g) then (Nothing(Eof), Past(g, true, None))
    else if AtEdge(w, home) then EdgeOf(w, home.g, w.log.epochs[home.p.e].fmt)
    else ReadOf(w, home.g, home.p)
  }

  /** What is left of the file ends where the next record would start. */
  ghost predicate AtEdge(w: World, s: Spot) {
    s.At? && Fits(w, s) && w.log.epochs[s.p.e].Start(s.p.j) == EndOf(w, s.g)
  }

  lemma HomeInFile(w: World, g: nat, p: Place)
    requires w.Valid() && Fits(w, At(g, p))
    ensures var home := HomeOf(w, g, p);
            && home.g < |w.log.files| && home.p.e < |w.log.epochs|
            && (!AtEdge(w, home) ==> InFile(w, home.g, home.p))
    ensures p.e < |w.log.epochs| && w.Survives(g) && g < |w.log.files|
  {
    hide World.Valid;
    hide World.Survives;
    hide HomeOf;
    var home := HomeOf(w, g, p);
    GapKnown(w, home.g);
    GapKnown(w, g);
  }

  /** From between files, after a search. */
  ghost function NextPast(w: World, g: int, within: bool, regained: Option<nat>): (Attempt, Spot)
    requires w.Valid() && Fits(w, Past(g, within, regained))
  {
    SoughtFits(w, g, within, 0, regained);
    match Sought(w, g, within, 0, regained)
    case Nowhere => (Nothing(Eof), Past(g, within, regained))
    case SessionOver(g1) => (Nothing(SessionEnd), Past(g1, false, None))
    case Begins(x, p, late) => if late > 0 then (Nothing(Truncated(late)), At(x, p)) else ReadOf(w, x, p)
  }

  /** What the next read finds, and where it leaves the reader. */
  ghost function Next(w: World, s: Spot): (Attempt, Spot)
    requires w.Valid() && Fits(w, s)
  {
    match s
    case At(g, p) => NextAt(w, g, p)
    case Past(g, within, regained) => NextPast(w, g, within, regained)
  }

  // -------------------------------------------------- where the reader stands

  /** The reader is at that spot. */
  ghost predicate StandsAt(w: World, st: State, s: Spot) {
    match s
    case At(g, p) => ReadingAt(w, st, g, p) && Lists(w, st.pending, g + 1)
    case Past(g, within, regained) =>
      if within then Parked(w, st, g) && w.log.Valid() && Hinted(w, st, g, regained)
      else Parted(w, st, g) && regained.None?
  }

  ghost predicate Hinted(w: World, st: State, g: int, regained: Option<nat>)
    requires w.log.Valid() && 0 <= g < |w.log.files|
  {
    var x := NextSurvivor(w, g);
    x < |w.log.files| && !Parts(w, g) ==>
      Settles(w, st.recovery, x) == if regained.Some? then PayloadLen(w, x, regained.value) else None
  }

  ghost function PayloadLen(w: World, x: nat, j: nat): Option<nat>
    requires x < |w.log.files|
  {
    if InFile(w, x, Place(w.log.files[x].epoch, j))
    then Some(|w.log.epochs[w.log.files[x].epoch].recs[j].payload|) else None
  }

  // ------------------------------------------------ from file to file, between

  /** Between records a crossing succeeds exactly when the session goes on right
      after a whole file. */
  lemma JoinsIf(w: World, st: State, cur: Cursor, g: nat, lb: Place)
    requires w.Valid() && ReadingAt(w, st, g, lb) && st.Exhausted() && cur.consumed == 0
    requires cur.total.Some? ==> w.log.epochs[lb.e].fmt.Fixed?
    ensures w.Survives(g) && w.log.InRange(g) && w.log.epochs[lb.e].Start(lb.j) == EndOf(w, g)
    ensures Cross(w.dir, st, cur).fault.None? <==> Adjoins(w, g)
  {
    hide *;
    ReadingFacts(w, st, g, lb);
    InFiles(w, g);
    OffsetFacts(w, st, g, w.log.epochs[lb.e].Start(lb.j));
    if Adjoins(w, g) {
      JoinsFacts(w, g);
      JoinCrosses(w, st, cur, g, lb);
    } else if Cross(w.dir, st, cur).fault.None? {
      CrossAt(w, st, cur, g, lb);
      CrossedJoins(w, st, cur, g, lb);
    }
  }

  lemma JoinsFacts(w: World, g: nat)
    requires Adjoins(w, g)
    ensures w.Survives(g) && w.Survives(g + 1) && (w.log.SameEpoch(g) || w.log.Resumed(g))
    ensures w.log.files[g].epoch < |w.log.epochs| && |w.Left(g)| == w.log.epochs[w.log.files[g].epoch].dsize
  {
    hide World.Survives;
  }

  lemma JoinCrosses(w: World, st: State, cur: Cursor, g: nat, lb: Place)
    requires w.Valid() && ReadingAt(w, st, g, lb) && st.Exhausted() && cur.consumed == 0
    requires w.Survives(g) && w.Survives(g + 1) && (w.log.SameEpoch(g) || w.log.Resumed(g))
    requires |w.Left(g)| == w.log.epochs[w.log.files[g].epoch].dsize
    ensures Cross(w.dir, st, cur).fault.None?
  {
    hide *;
    ReadingFacts(w, st, g, lb);
    InFiles(w, g);
    LogOf(w);
    OneSession(w.log, g);
    var st0 := st.(current := None);
    var (opening, st1) := OpenNext(w.dir, st0);
    var h := OpenNextTruth(w, st0, g);
    FileFacts(w, st, g);
    NextOpened(w, st0, g, h, opening, st1);
    OpenedJust(w, st, g, h);
    JoinAccepted(w, st, st1, cur, g, lb);
    CrossJudged(w.dir, st, cur);
  }

  lemma NextOpened(w: World, st: State, g: nat, h: nat, opening: Opening, st1: State)
    requires w.Valid() && OpenedAs(w, st, g, h, opening, st1)
    requires w.Survives(g) && w.Survives(g + 1) && st.session == Some(w.log.files[g].session)
    requires w.log.files[g + 1].session == w.log.files[g].session
    ensures opening.Opened? && h == g + 1
  {
    hide World.Valid;
    hide PendingAfter;
    hide AtFile;
    assert opening.Opened? ==> Gone(w, g, h);
  }

  lemma CrossJudged(dir: Dir, st: State, cur: Cursor)
    ensures var (opening, st1) := OpenNext(dir, st.(current := None));
            opening.Opened? && st1.current.Some? && Judge(st, st1, cur).fault.None? ==>
              Cross(dir, st, cur).fault.None?
  {
    hide OpenNext;
    hide Judge;
  }

  lemma JoinAccepted(w: World, st: State, st1: State, cur: Cursor, g: nat, lb: Place)
    requires w.Valid() && ReadingAt(w, st, g, lb) && JustOpened(w, st, st1, g, g + 1) && st.Exhausted()
    requires cur.consumed == 0 && (w.log.SameEpoch(g) || w.log.Resumed(g))
    requires w.Survives(g) && |w.Left(g)| == w.log.epochs[w.log.files[g].epoch].dsize
    ensures st1.current.Some? && Judge(st, st1, cur).fault.None?
  {
    hide World.Valid;
    hide World.Survives;
    hide PendingAfter;
    hide Gone;
    hide Sound;
    hide NoteImplied;
    JustOpenedFacts(w, st, st1, g, g + 1);
    Exhaust(w, st, g, w.log.epochs[lb.e].Start(lb.j));
    LogOf(w);
    FreshFile(w.log, g + 1);
    if w.log.SameEpoch(g) {
      EpochIs(w.log, lb.e);
      IndexOfStart(w.log.epochs[lb.e], lb.j);
    }
  }

  lemma CrossedJoins(w: World, st: State, cur: Cursor, g: nat, lb: Place)
    requires w.Valid() && ReadingAt(w, st, g, lb) && st.Exhausted() && Cross(w.dir, st, cur).fault.None?
    requires ReadingAt(w, Cross(w.dir, st, cur).st, g + 1, NextPlace(w, g, lb))
    requires w.log.SameEpoch(g) || w.log.Resumed(g)
    ensures Adjoins(w, g)
  {
    hide *;
    ReadingFacts(w, st, g, lb);
    InFiles(w, g);
    ReadingFacts(w, Cross(w.dir, st, cur).st, g + 1, NextPlace(w, g, lb));
    CrossJudges(w.dir, st, cur);
    var st1 := OpenNext(w.dir, st.(current := None)).1;
    var h := OpenNextTruth(w, st.(current := None), g);
    OpenedJust(w, st, g, h);
    JudgeAccepts(st, st1, cur);
    JustOpenedFacts(w, st, st1, g, h);
    JoinsWhen(w, g);
  }

  lemma JoinsWhen(w: World, g: nat)
    requires w.Survives(g) && w.Survives(g + 1) && (w.log.SameEpoch(g) || w.log.Resumed(g))
    requires |w.Left(g)| == w.log.epochs[w.log.files[g].epoch].dsize
    ensures Adjoins(w, g)
  {
    hide World.Survives;
  }

  // --------------------------------------------------------- coming home

  /** Asking for the next record is asking for it where it is. */
  lemma {:induction false} ComesHome(w: World, st: State, cur: Cursor, n: nat, g: nat, p: Place) returns (st1: State)
    requires w.Valid() && StandsAt(w, st, At(g, p)) && FreshAsk(w.log.epochs[p.e], cur, n) && n > 0
    ensures Fits(w, At(g, p))
    ensures var home := HomeOf(w, g, p);
            && StandsAt(w, st1, home) && FreshAsk(w.log.epochs[home.p.e], cur, n) && st1.lastMeta == st.lastMeta
            && Fill(w.dir, st, cur, n) == Fill(w.dir, st1, cur, n)
            && (st1.Exhausted() <==> w.log.epochs[home.p.e].Start(home.p.j) == EndOf(w, home.g))
            && (st1.Exhausted() ==> Cross(w.dir, st1, cur).fault.Some?)
    decreases |w.log.files| - g
  {
    hide *;
    st1 := st;
    StandsFits(w, st, g, p);
    HomeForm(w, g, p);
    if st.Exhausted() {
      FillUnfold(w.dir, st, cur, n);
      ReadsThere(w, st, g, p);
      FreshTotal(w.log.epochs[p.e], cur, n);
      JoinsIf(w, st, cur, g, p);
      if Adjoins(w, g) {
        var c := Cross(w.dir, st, cur);
        CrossHome(w, st, cur, g, p);
        NextFits(w, g, p);
        AskedAlike(w.log.epochs[NextPlace(w, g, p).e], w.log.epochs[p.e], cur, n);
        st1 := ComesHome(w, c.st, cur, n, g + 1, NextPlace(w, g, p));
      }
    }
  }

  /** One step of the way home. */
  lemma HomeForm(w: World, g: nat, p: Place)
    requires w.Valid() && Fits(w, At(g, p))
    ensures w.log.epochs[p.e].Start(p.j) == EndOf(w, g) && Adjoins(w, g) ==>
              && g < |w.log.files| && Fits(w, At(g + 1, NextPlace(w, g, p)))
              && HomeOf(w, g, p) == HomeOf(w, g + 1, NextPlace(w, g, p))
    ensures !(w.log.epochs[p.e].Start(p.j) == EndOf(w, g) && Adjoins(w, g)) ==> HomeOf(w, g, p) == At(g, p)
  {
    hide World.Valid;
    hide World.Survives;
    hide Adjoins;
    if w.log.epochs[p.e].Start(p.j) == EndOf(w, g) && Adjoins(w, g) { NextFits(w, g, p); }
  }

  lemma ReadsThere(w: World, st: State, g: nat, p: Place)
    requires StandsAt(w, st, At(g, p))
    ensures ReadingAt(w, st, g, p) && Lists(w, st.pending, g + 1)
  {
    hide ReadingAt;
    hide Lists;
  }

  lemma StandsFits(w: World, st: State, g: nat, p: Place)
    requires w.Valid() && StandsAt(w, st, At(g, p))
    ensures Fits(w, At(g, p))
    ensures p.e < |w.log.epochs| && w.Survives(g) && g < |w.log.files|
    ensures st.Exhausted() <==> w.log.epochs[p.e].Start(p.j) == EndOf(w, g)
  {
    hide World.Valid;
    hide World.Survives;
    hide PendingAfter;
    hide Lists;
    hide OpenValidated;
    ReadingFacts(w, st, g, p);
    FileFacts(w, st, g);
  }

  lemma CrossHome(w: World, st: State, cur: Cursor, g: nat, p: Place)
    requires w.Valid() && StandsAt(w, st, At(g, p)) && st.Exhausted() && cur.consumed == 0 && Adjoins(w, g)
    requires p.e < |w.log.epochs| && (cur.total.Some? ==> w.log.epochs[p.e].fmt.Fixed?)
    requires Cross(w.dir, st, cur).fault.None?
    ensures var c := Cross(w.dir, st, cur);
            c.cur == cur && c.st.lastMeta == st.lastMeta && StandsAt(w, c.st, At(g + 1, NextPlace(w, g, p)))
  {
    hide *;
    ReadsThere(w, st, g, p);
    ReadingFacts(w, st, g, p);
    CrossAt(w, st, cur, g, p);
    CrossStopsAs(w, st, cur, g);
    JoinsFacts(w, g);
    NextIsThere(w, g);
    CrossKeepsMeta(w.dir, st, cur);
    ReadsHere(w, Cross(w.dir, st, cur).st, g + 1, NextPlace(w, g, p));
  }

  lemma ReadsHere(w: World, st: State, g: nat, p: Place)
    requires ReadingAt(w, st, g, p) && Lists(w, st.pending, g + 1)
    ensures StandsAt(w, st, At(g, p))
  {
    hide ReadingAt;
    hide Lists;
  }

  lemma CrossKeepsMeta(dir: Dir, st: State, cur: Cursor)
    ensures Cross(dir, st, cur).st.lastMeta == st.lastMeta
  {
    hide OpenValidated;
    hide Continues;
  }

  // -------------------------------------------------------- reading a record

  /** A read found what it should, and left the reader where it should. */
  ghost predicate ReadIs(w: World, r: (Attempt, State), x: (Attempt, Spot)) {
    r.0 == x.0 && (x.0 != Nothing(Eof) ==> StandsAt(w, r.1, x.1))
  }

  /** A reader that stopped inside record j knows the next one of a lost header
      exactly where that is all that is gone. */
  lemma StoppedStands(w: World, h: nat, j: nat, known: bool, st: State)
    requires w.Valid() && w.Survives(h) && w.log.InRange(h) && StoppedIn(w, h, j, known, st)
    ensures StandsAt(w, Lose(st), Past(h, true, if known && HeaderGone(w, h, j) then Some(j + 1) else None))
  {
    hide World.Valid;
    hide World.Survives;
    hide NextSurvivor;
    hide PendingAfter;
    hide Lists;
    hide Settles;
    hide HeaderGone;
    hide HintAfter;
    LogOf(w);
    var x := NextSurvivor(w, h);
    if x < |w.log.files| && !Parts(w, h) {
      HintSettles(w, h, j, known);
      if known && HeaderGone(w, h, j) { GonePayload(w, h, j); }
    }
  }

  lemma GonePayload(w: World, g: nat, j: nat)
    requires w.Valid() && HeaderGone(w, g, j)
    ensures w.log.InRange(g) && NextSurvivor(w, g) == g + 2 && g + 2 < |w.log.files|
    ensures j + 1 < |w.log.epochs[w.log.files[g].epoch].recs|
    ensures InFile(w, g + 2, Place(w.log.files[g].epoch, j + 1)) && w.log.files[g + 2].epoch == w.log.files[g].epoch
    ensures PayloadLen(w, g + 2, j + 1) == Some(|w.log.epochs[w.log.files[g].epoch].recs[j + 1].payload|)
  {
    hide World.Valid;
    hide World.Survives;
    GoneIsGap(w, g, j);
  }

  /** The payload, from its first byte in file g1, which is reached from file g. */
  lemma PayloadIs(w: World, st: State, cur: Cursor, g: nat, g1: nat, p: Place, meta: Meta)
    requires w.Valid() && InFile(w, g, p) && meta == w.RecordAt(p).meta && cur.total.Some?
    requires var ep := w.log.epochs[p.e];
             var o, st0 := ep.Start(p.j) + ep.Head(), st.(lastMeta := meta);
             && FilledTo(w, g1, p.e, p.j, o, st0, cur) && Asked(w, p.e, p.j, o, |w.RecordAt(p).payload|, st0, cur)
             && w.Survives(g1) && Furthest(w, g1) == Furthest(w, g) && o <= ReachOf(w, g)
             && FileOf(w, g1, ep.Start(p.j + 1)) == FileOf(w, g, ep.Start(p.j + 1))
    requires Lists(w, st.pending, g1 + 1)
    ensures ReadIs(w, ReadPayload(w.dir, st, cur, |w.RecordAt(p).payload|, meta), ReadOf(w, g, p))
  {
    hide *;
    PlaceIn(w, g, p);
    var ep, r := w.log.epochs[p.e], w.RecordAt(p);
    var o, st0 := ep.Start(p.j) + ep.Head(), st.(lastMeta := meta);
    LogOf(w);
    EpochIs(w.log, p.e);
    HereFacts(w, st0, cur, g1, p.e, p.j, o);
    SameReach(w, g, g1);
    FillReaches(w, st0, cur, |r.payload|, g1, p.e, p.j, o);
    var f := Fill(w.dir, st0, cur, |r.payload|);
    var g2 := FillIn(w, st0, cur, |r.payload|, g1, p.e, p.j, o);
    FilledBytes(w, g2, p, o, |r.payload|, f);
    PayloadFront(ep, p.j, f.got);
    if ep.Start(p.j + 1) <= ReachOf(w, g) {
      FillsWhole(w, g1, p, o, f);
      RecordDone(w, f.st, f.cur, FileOf(w, g1, ep.Start(p.j + 1)), p);
      ReadsHere(w, f.st, FileOf(w, g1, ep.Start(p.j + 1)), Place(p.e, p.j + 1));
      WholeIs(w, g, p, st, cur, f);
    } else {
      var h := Furthest(w, g);
      FillsShort(w, g1, p, o, f);
      StoppedStands(w, h, p.j, true, f.st);
      ShortIs(w, g, p, st, cur, f);
    }
  }

  lemma PlaceIn(w: World, g: nat, p: Place)
    requires InFile(w, g, p)
    ensures w.IsPlace(p) && p.e < |w.log.epochs| && p.j < |w.log.epochs[p.e].recs| && w.Survives(g) && w.log.InRange(g)
    ensures var ep := w.log.epochs[p.e];
            && w.RecordAt(p) == ep.recs[p.j]
            && ep.Start(p.j + 1) == ep.Start(p.j) + ep.Head() + |w.RecordAt(p).payload|
  {
    hide World.Survives;
  }

  lemma SameReach(w: World, g: nat, g1: nat)
    requires w.Survives(g) && w.Survives(g1) && Furthest(w, g1) == Furthest(w, g)
    ensures ReachOf(w, g1) == ReachOf(w, g)
  {
    hide World.Survives;
    hide Furthest;
  }

  lemma FilledBytes(w: World, g: nat, p: Place, o: nat, n: nat, f: FillOut)
    requires FilledAs(w, g, p.e, p.j, o, n, f)
    ensures p.e < |w.log.epochs| && StreamBytes(w.log.epochs[p.e], o, f.got)
  {
    hide World.RecordSurvives;
    hide StreamBytes;
    hide Held;
    hide FilledTo;
    hide StoppedAt;
  }

  lemma FillsWhole(w: World, g1: nat, p: Place, o: nat, f: FillOut)
    requires w.Survives(g1) && w.log.InRange(g1) && w.IsPlace(p) && w.log.files[g1].epoch == p.e
    requires var end := w.log.epochs[p.e].Start(p.j + 1);
             o <= end <= ReachOf(w, g1) && FillsAs(w, g1, p.j, o, end - o, true, f)
    ensures var end := w.log.epochs[p.e].Start(p.j + 1);
            && f.fault.None? && FilledTo(w, FileOf(w, g1, end), p.e, p.j, end, f.st, f.cur)
            && Lists(w, f.st.pending, FileOf(w, g1, end) + 1)
  {
    hide World.Survives;
    hide FilledTo;
    hide Lists;
    hide StoppedIn;
  }

  lemma FillsShort(w: World, g1: nat, p: Place, o: nat, f: FillOut)
    requires w.Survives(g1) && w.log.InRange(g1) && w.IsPlace(p) && w.log.files[g1].epoch == p.e
    requires var end := w.log.epochs[p.e].Start(p.j + 1);
             o <= ReachOf(w, g1) < end && FillsAs(w, g1, p.j, o, end - o, true, f)
    ensures var h := Furthest(w, g1);
            && h < |w.log.files| && w.log.InRange(h)
            && f.fault == Some(Truncated(Gap(w, h))) && |f.got| == ReachOf(w, g1) - o
            && StoppedIn(w, h, p.j, true, f.st)
  {
    hide World.Survives;
    hide FilledTo;
    hide Lists;
    hide StoppedIn;
    hide Gap;
    GapKnown(w, Furthest(w, g1));
  }

  lemma WholeIs(w: World, g: nat, p: Place, st: State, cur: Cursor, f: FillOut)
    requires InFile(w, g, p) && w.log.epochs[p.e].Start(p.j + 1) <= ReachOf(w, g)
    requires var r := w.RecordAt(p);
             && f == Fill(w.dir, st.(lastMeta := r.meta), cur, |r.payload|)
             && f.fault.None? && f.got <= r.payload
             && StandsAt(w, f.st, At(FileOf(w, g, w.log.epochs[p.e].Start(p.j + 1)), Place(p.e, p.j + 1)))
    ensures var r := w.RecordAt(p);
            ReadIs(w, ReadPayload(w.dir, st, cur, |r.payload|, r.meta), ReadOf(w, g, p))
  {
    hide World.Survives;
    hide StandsAt;
    hide Fill;
  }

  lemma ShortIs(w: World, g: nat, p: Place, st: State, cur: Cursor, f: FillOut)
    requires InFile(w, g, p)
    requires var ep, r, m, h := w.log.epochs[p.e], w.RecordAt(p), ReachOf(w, g), Furthest(w, g);
             var o := ep.Start(p.j) + ep.Head();
             && o <= m < ep.Start(p.j + 1) && h < |w.log.files|
             && f == Fill(w.dir, st.(lastMeta := r.meta), cur, |r.payload|)
             && f.fault == Some(Truncated(Gap(w, h))) && |f.got| == m - o && f.got <= r.payload
             && StandsAt(w, Lose(f.st), Past(h, true, if HeaderGone(w, h, p.j) then Some(p.j + 1) else None))
    ensures var r := w.RecordAt(p);
            ReadIs(w, ReadPayload(w.dir, st, cur, |r.payload|, r.meta), ReadOf(w, g, p))
  {
    hide World.Survives;
    hide StandsAt;
    hide Fill;
    hide Gap;
    hide HeaderGone;
    var o := w.log.epochs[p.e].Start(p.j) + w.log.epochs[p.e].Head();
    assert f.got == w.RecordAt(p).payload[..ReachOf(w, g) - o];
  }

  // ------------------------------------------------------ from its first byte

  /** A read in a variable format, in its two steps. */
  lemma VariableReads(dir: Dir, st: State)
    requires st.current.Some? && st.current.value.header.Readable() && !st.current.value.header.format.Fixed?
    ensures var h := st.current.value.header;
            var len := h.format.DataHeaderLenIn(h.minor);
            var f := Fill(dir, st, FRESH_CURSOR, len);
            if f.fault.Some? then ReadFrom(dir, st, Fresh) == (Nothing(f.fault.value), Lose(f.st))
            else
              var n := DecodeLen(h.format, f.got);
              (f.cur.implied.Some? ==> f.cur.implied.value == n) ==>
                ReadFrom(dir, st, Fresh) ==
                  ReadPayload(dir, f.st, f.cur.(total := Some(len + n)), n, DecodeMeta(h.format, f.got))
  {
    hide Fill;
    hide DecodeLen;
    hide DecodeMeta;
    hide ReadPayload;
  }

  lemma VariableIs(w: World, st: State, g: nat, p: Place)
    requires w.Valid() && StandsAt(w, st, At(g, p)) && !st.Exhausted()
    requires p.e < |w.log.epochs| && !w.log.epochs[p.e].fmt.Fixed?
    requires st.current.Some? && st.current.value.header.Readable()
    ensures InFile(w, g, p) && ReadIs(w, ReadFrom(w.dir, st, Fresh), ReadOf(w, g, p))
  {
    hide *;
    ReadsThere(w, st, g, p);
    ReadingFacts(w, st, g, p);
    OpenHeader(w, st, g, p);
    var ep := w.log.epochs[p.e];
    var n, o := ep.Head(), ep.Start(p.j);
    HeadIs(ep);
    FreshAsks(ep, FRESH_CURSOR);
    StartsHere(w, st, FRESH_CURSOR, n, g, p);
    HereFacts(w, st, FRESH_CURSOR, g, p.e, p.j, o);
    InFileIs(w, g, p);
    PlaceIn(w, g, p);
    FillReaches(w, st, FRESH_CURSOR, n, g, p.e, p.j, o);
    var f := Fill(w.dir, st, FRESH_CURSOR, n);
    VariableReads(w.dir, st);
    if o + n <= ReachOf(w, g) {
      HeadFills(w, g, p, f);
      HeaderThenPayload(w, st, g, p, f);
    } else {
      HeadBreaks(w, g, p, f);
      StoppedStands(w, Furthest(w, g), p.j, false, f.st);
      HeaderCutIs(w, g, p, f);
    }
  }

  /** The length `DataHeaderLenIn` gives is the epoch's. */
  lemma HeadIs(ep: Epoch)
    ensures ep.Head() == ep.fmt.DataHeaderLenIn(ep.minor) && (!ep.fmt.Fixed? ==> ep.Head() >= 4)
    ensures ep.fmt.Fixed? ==> ep.Head() == 0
  {
  }

  lemma FreshAsks(ep: Epoch, cur: Cursor)
    ensures cur == FRESH_CURSOR && !ep.fmt.Fixed? ==> FreshAsk(ep, cur, ep.Head()) && cur.total.None?
    ensures ep.fmt.Fixed? && cur == FRESH_CURSOR.(total := Some(ep.fmt.n)) ==> FreshAsk(ep, cur, ep.fmt.n)
  {
  }

  lemma InFileIs(w: World, g: nat, p: Place)
    requires w.Survives(g) && w.log.InRange(g) && p.e == w.log.files[g].epoch && w.IsPlace(p)
    ensures InFile(w, g, p)
  {
    hide World.Survives;
  }

  /** Filling the data header, and not. */
  lemma HeadFills(w: World, g: nat, p: Place, f: FillOut)
    requires InFile(w, g, p)
    requires var ep := w.log.epochs[p.e];
             && FillsAs(w, g, p.j, ep.Start(p.j), ep.Head(), false, f)
             && ep.Start(p.j) + ep.Head() <= ReachOf(w, g)
    ensures var ep := w.log.epochs[p.e];
            var o := ep.Start(p.j) + ep.Head();
            && f.fault.None? && FilledTo(w, FileOf(w, g, o), p.e, p.j, o, f.st, f.cur)
            && Lists(w, f.st.pending, FileOf(w, g, o) + 1)
  {
    hide World.Survives;
    hide FilledTo;
    hide Lists;
    hide StoppedIn;
  }

  lemma HeadBreaks(w: World, g: nat, p: Place, f: FillOut)
    requires InFile(w, g, p)
    requires var ep := w.log.epochs[p.e];
             && FillsAs(w, g, p.j, ep.Start(p.j), ep.Head(), false, f)
             && ep.Start(p.j) + ep.Head() > ReachOf(w, g)
    ensures var h := Furthest(w, g);
            && w.Survives(h) && h < |w.log.files| && w.log.InRange(h)
            && f.fault == Some(Truncated(Gap(w, h))) && StoppedIn(w, h, p.j, false, f.st)
  {
    hide World.Survives;
    hide FilledTo;
    hide Lists;
    hide StoppedIn;
    hide Gap;
    GapKnown(w, Furthest(w, g));
  }

  lemma HeaderCutIs(w: World, g: nat, p: Place, f: FillOut)
    requires InFile(w, g, p) && Furthest(w, g) < |w.log.files|
    requires ReachOf(w, g) < w.log.epochs[p.e].Start(p.j) + w.log.epochs[p.e].Head()
    requires f.fault == Some(Truncated(Gap(w, Furthest(w, g))))
    requires StandsAt(w, Lose(f.st), Past(Furthest(w, g), true, None))
    ensures ReadIs(w, (Nothing(f.fault.value), Lose(f.st)), ReadOf(w, g, p))
  {
    hide World.Survives;
    hide StandsAt;
    hide Gap;
    hide HeaderGone;
    PlaceIn(w, g, p);
  }

  lemma HeaderThenPayload(w: World, st: State, g: nat, p: Place, f: FillOut)
    requires w.Valid() && InFile(w, g, p) && !w.log.epochs[p.e].fmt.Fixed?
    requires st.current.Some? && st.current.value.header.Readable()
    requires var h, ep := st.current.value.header, w.log.epochs[p.e]; h.format == ep.fmt && h.minor == ep.minor
    requires var ep := w.log.epochs[p.e];
             var o := ep.Start(p.j) + ep.Head();
             && f == Fill(w.dir, st, FRESH_CURSOR, ep.Head()) && f.fault.None? && o <= ReachOf(w, g)
             && FilledTo(w, g, p.e, p.j, ep.Start(p.j), st, FRESH_CURSOR)
             && Asked(w, p.e, p.j, ep.Start(p.j), ep.Head(), st, FRESH_CURSOR)
             && FilledTo(w, FileOf(w, g, o), p.e, p.j, o, f.st, f.cur)
             && Lists(w, f.st.pending, FileOf(w, g, o) + 1)
    ensures ReadIs(w, ReadFrom(w.dir, st, Fresh), ReadOf(w, g, p))
  {
    hide *;
    PlaceIn(w, g, p);
    var ep, r := w.log.epochs[p.e], w.RecordAt(p);
    var n, o := ep.Head(), ep.Start(p.j) + ep.Head();
    var g1 := FileOf(w, g, o);
    HeadIs(ep);
    var g2 := FillIn(w, st, FRESH_CURSOR, n, g, p.e, p.j, ep.Start(p.j));
    FilledBytes(w, g2, p, ep.Start(p.j), n, f);
    HeaderSettles(w, p, g1, f);
    VariableReads(w.dir, st);
    var cur := f.cur.(total := Some(n + |r.payload|));
    MetaApart(w, f.st, cur, g1, p, o, r.meta);
    OnTheWay(w, g, o);
    OnTheWayTwice(w, g, o, ep.Start(p.j + 1));
    PayloadIs(w, f.st, cur, g, g1, p, r.meta);
  }

  lemma {:induction false} OnTheWayTwice(w: World, g: nat, a: nat, b: nat)
    requires w.Survives(g) && a <= b
    ensures FileOf(w, FileOf(w, g, a), b) == FileOf(w, g, b)
    decreases |w.log.files| - g
  {
    hide World.Survives;
    if RunsOn(w, g) && a > EndOf(w, g) {
      InSight(w, g);
      OnTheWayTwice(w, g + 1, a, b);
    }
  }

  lemma InSight(w: World, g: nat)
    requires RunsOn(w, g)
    ensures g + 1 < |w.log.files|
  {
  }

  /** A fixed-length record is read in one step. */
  lemma FixedIs(w: World, st: State, g: nat, p: Place)
    requires w.Valid() && StandsAt(w, st, At(g, p)) && !st.Exhausted() && st.lastMeta == MetaFixed
    requires p.e < |w.log.epochs| && w.log.epochs[p.e].fmt.Fixed?
    requires st.current.Some? && st.current.value.header.Readable()
    ensures InFile(w, g, p) && ReadIs(w, ReadFrom(w.dir, st, Fresh), ReadOf(w, g, p))
  {
    hide *;
    ReadsThere(w, st, g, p);
    ReadingFacts(w, st, g, p);
    OpenHeader(w, st, g, p);
    var ep := w.log.epochs[p.e];
    var n, o := ep.fmt.n, ep.Start(p.j);
    var cur := FRESH_CURSOR.(total := Some(n));
    HeadIs(ep);
    FreshAsks(ep, cur);
    StartsHere(w, st, cur, n, g, p);
    HereFacts(w, st, cur, g, p.e, p.j, o);
    InFileIs(w, g, p);
    PlaceIn(w, g, p);
    FixedMeta(w, p);
    PayloadIs(w, st, cur, g, g, p, MetaFixed);
    FixedReads(w.dir, st);
  }

  lemma FixedMeta(w: World, p: Place)
    requires w.Valid() && w.IsPlace(p) && w.log.epochs[p.e].fmt.Fixed?
    ensures w.RecordAt(p).meta == MetaFixed && |w.RecordAt(p).payload| == w.log.epochs[p.e].fmt.n
  {
    LogOf(w);
    var ep := w.log.epochs[p.e];
    assert ValidRecord(ep.fmt, ep.recs[p.j], ep.minor);
  }

  lemma FixedReads(dir: Dir, st: State)
    requires st.current.Some? && st.current.value.header.Readable() && st.current.value.header.format.Fixed?
    ensures var n := st.current.value.header.format.n;
            ReadFrom(dir, st, Fresh) == ReadPayload(dir, st, FRESH_CURSOR.(total := Some(n)), n, MetaFixed)
    ensures ReadFrom(dir, st, Fresh) == ReadFrom(dir, st.(lastMeta := MetaFixed), Fresh)
  {
    hide Fill;
  }

  /** The record the reader stands before, in the open file. */
  lemma RecordIs(w: World, st: State, g: nat, p: Place)
    requires w.Valid() && StandsAt(w, st, At(g, p)) && !st.Exhausted()
    requires p.e < |w.log.epochs| && (w.log.epochs[p.e].fmt.Fixed? ==> st.lastMeta == MetaFixed)
    requires st.current.Some? && st.current.value.header.Readable()
    ensures InFile(w, g, p) && ReadIs(w, ReadFrom(w.dir, st, Fresh), ReadOf(w, g, p))
  {
    hide *;
    if w.log.epochs[p.e].fmt.Fixed? { FixedIs(w, st, g, p); } else { VariableIs(w, st, g, p); }
  }

  // --------------------------------------------------- from a record boundary

  /** What is asked of the next record first, and the cursor it is asked with. */
  function FirstAsk(fmt: Format, minor: nat): nat { if fmt.Fixed? then fmt.n else fmt.DataHeaderLenIn(minor) }

  function FirstCursor(fmt: Format): Cursor {
    if fmt.Fixed? then FRESH_CURSOR.(total := Some(fmt.n)) else FRESH_CURSOR
  }

  lemma FirstAsks(ep: Epoch)
    requires ep.Valid()
    ensures var n := FirstAsk(ep.fmt, ep.minor);
            n > 0 && FreshAsk(ep, FirstCursor(ep.fmt), n) && FirstCursor(ep.fmt).consumed == 0
    ensures FirstCursor(ep.fmt).total.Some? <==> ep.fmt.Fixed?
  {
  }

  /** A read depends on the state only through what is asked first. */
  lemma ReadsAlike(dir: Dir, st: State, st1: State)
    requires st.current.Some? && st.current.value.header.Readable()
    requires st1.current.Some? && st1.current.value.header.Readable()
    requires var h, h1 := st.current.value.header, st1.current.value.header;
             && h.format == h1.format && h.minor == h1.minor
             && (h.format.Fixed? ==> st.lastMeta == st1.lastMeta == MetaFixed)
             && var cur, n := FirstCursor(h.format), FirstAsk(h.format, h.minor);
                Fill(dir, st, cur, n) == Fill(dir, st1, cur, n)
    ensures ReadFrom(dir, st, Fresh) == ReadFrom(dir, st1, Fresh)
  {
    hide Fill;
    hide DecodeLen;
    hide DecodeMeta;
    var h := st.current.value.header;
    if h.format.Fixed? {
      assert st.(lastMeta := MetaFixed) == st && st1.(lastMeta := MetaFixed) == st1;
    }
  }

  /** No file to go on with where a record would start. */
  lemma EdgeReads(dir: Dir, st: State)
    requires st.current.Some? && st.current.value.header.Readable() && st.Exhausted()
    requires st.current.value.header.format.Fixed? ==> st.lastMeta == MetaFixed
    requires Cross(dir, st, FirstCursor(st.current.value.header.format)).fault.Some?
    ensures var fmt := st.current.value.header.format;
            var c := Cross(dir, st, FirstCursor(fmt));
            var fault := c.fault.value;
            ReadFrom(dir, st, Fresh) ==
              (if fmt.Fixed? then Payload(fmt.n, MetaFixed, [], Some(fault)) else Nothing(fault), Lose(c.st))
  {
    hide Cross;
    hide Fill;
    var h := st.current.value.header;
    FillUnfold(dir, st, FirstCursor(h.format), FirstAsk(h.format, h.minor));
    if h.format.Fixed? { assert st.(lastMeta := MetaFixed) == st; }
  }

  lemma EdgeIs(w: World, st: State, g: nat, p: Place)
    requires w.Valid() && StandsAt(w, st, At(g, p)) && st.Exhausted()
    requires p.e < |w.log.epochs| && (w.log.epochs[p.e].fmt.Fixed? ==> st.lastMeta == MetaFixed)
    requires st.current.Some? && st.current.value.header.Readable()
    requires Cross(w.dir, st, FirstCursor(w.log.epochs[p.e].fmt)).fault.Some?
    ensures g < |w.log.files| && ReadIs(w, ReadFrom(w.dir, st, Fresh), EdgeOf(w, g, w.log.epochs[p.e].fmt))
  {
    hide *;
    ReadsThere(w, st, g, p);
    ReadingFacts(w, st, g, p);
    InFiles(w, g);
    OpenHeader(w, st, g, p);
    var ep := w.log.epochs[p.e];
    var cur := FirstCursor(ep.fmt);
    FirstAsks(ep);
    CrossStopsAs(w, st, cur, g);
    EdgeReads(w.dir, st);
    EdgeStands(w, g, cur, Cross(w.dir, st, cur));
  }

  lemma EdgeStands(w: World, g: nat, cur: Cursor, c: CrossOut)
    requires w.Valid() && w.Survives(g) && w.log.InRange(g) && StopsAs(w, g, cur, c) && cur.consumed == 0
    requires var fmt := w.log.epochs[w.log.files[g].epoch].fmt; cur.total.Some? <==> fmt.Fixed?
    ensures g < |w.log.files|
    ensures var fmt := w.log.epochs[w.log.files[g].epoch].fmt;
            && c.fault.Some?
            && ReadIs(w, (if fmt.Fixed? then Payload(fmt.n, MetaFixed, [], c.fault) else Nothing(c.fault.value),
                          Lose(c.st)), EdgeOf(w, g, fmt))
  {
    hide World.Valid;
    hide World.Survives;
    hide NextSurvivor;
    hide PendingAfter;
    hide Lists;
    LogOf(w);
    var x := NextSurvivor(w, g);
    if x < |w.log.files| && !Parts(w, g) { NextAlike(w, g, x); }
  }

  lemma NextAtForm(w: World, g: nat, p: Place)
    requires w.Valid() && Fits(w, At(g, p))
    ensures p.e < |w.log.epochs| && w.Survives(g)
    ensures var home := HomeOf(w, g, p);
            var n := NextAt(w, g, p);
            && home.At? && home.p.e < |w.log.epochs| && home.g < |w.log.files|
            && if w.log.epochs[p.e].Start(p.j) == EndOf(w, g) && LastName(w, g)
               then n == (Nothing(Eof), Past(g, true, None))
               else if AtEdge(w, home) then n == EdgeOf(w, home.g, w.log.epochs[home.p.e].fmt)
               else InFile(w, home.g, home.p) && n == ReadOf(w, home.g, home.p)
  {
    hide World.Valid;
    hide World.Survives;
    hide HomeOf;
    hide AtEdge;
    hide LastName;
    hide EdgeOf;
    hide ReadOf;
    HomeInFile(w, g, p);
  }

  /** An empty list, and no name left, are the same to a reader in a file. */
  lemma ListEmpty(w: World, st: State, g: nat, p: Place)
    requires w.Valid() && StandsAt(w, st, At(g, p))
    ensures st.pending == [] <==> LastName(w, g)
  {
    hide World.Valid;
    hide Bounded;
    ReadingFacts(w, st, g, p);
    if st.pending != [] { assert st.pending[0] in st.pending; }
  }

  lemma ReadsOpen(dir: Dir, st: State)
    requires Sound(dir, st) && st.current.Some?
    ensures st.current.value.header.Readable()
    ensures if st.pending == [] && st.Exhausted() then Read(dir, st).0 == Nothing(Eof)
            else Read(dir, st) == ReadFrom(dir, st, Fresh)
  {
    hide ReadFrom;
    hide FindRecordStart;
  }

  /** The metadata kept for the caller does not bear on where the reader is. */
  lemma MetaStands(w: World, st: State, s: Spot, meta: Meta)
    requires StandsAt(w, st, s)
    ensures StandsAt(w, st.(lastMeta := meta), s)
  {
    hide PendingAfter;
    hide Lists;
    hide OpenValidated;
    hide NextSurvivor;
    hide Settles;
  }

  /** Reading here is reading where the record is. */
  lemma HomeReads(w: World, st: State, g: nat, p: Place) returns (st1: State)
    requires w.Valid() && StandsAt(w, st, At(g, p)) && st.current.Some? && st.current.value.header.Readable()
    ensures Fits(w, At(g, p)) && p.e < |w.log.epochs|
    ensures var home := HomeOf(w, g, p);
            && StandsAt(w, st1, home) && home.p.e < |w.log.epochs|
            && st1.current.Some? && st1.current.value.header.Readable()
            && ReadFrom(w.dir, st, Fresh) == ReadFrom(w.dir, st1, Fresh)
            && (w.log.epochs[home.p.e].fmt.Fixed? ==> st1.lastMeta == MetaFixed)
            && (st1.Exhausted() <==> AtEdge(w, home))
            && (st1.Exhausted() ==> Cross(w.dir, st1, FirstCursor(w.log.epochs[home.p.e].fmt)).fault.Some?)
  {
    hide *;
    StandsFits(w, st, g, p);
    ReadsThere(w, st, g, p);
    OpenHeader(w, st, g, p);
    var ep := w.log.epochs[p.e];
    var n, cur := FirstAsk(ep.fmt, ep.minor), FirstCursor(ep.fmt);
    LogOf(w);
    EpochIs(w.log, p.e);
    FirstAsks(ep);
    var st0 := if ep.fmt.Fixed? then st.(lastMeta := MetaFixed) else st;
    if ep.fmt.Fixed? {
      MetaStands(w, st, At(g, p), MetaFixed);
      FixedReads(w.dir, st);
    }
    st1 := ComesHome(w, st0, cur, n, g, p);
    var home := HomeOf(w, g, p);
    HomeInFile(w, g, p);
    EdgeWhen(w, home);
    ReadsThere(w, st1, home.g, home.p);
    OpenHeader(w, st1, home.g, home.p);
    CodedAs(w.log.epochs[home.p.e], ep);
    ReadsAlike(w.dir, st0, st1);
  }

  lemma EdgeWhen(w: World, s: Spot)
    requires s.At? && Fits(w, s)
    ensures s.p.e < |w.log.epochs| && w.Survives(s.g)
    ensures AtEdge(w, s) <==> w.log.epochs[s.p.e].Start(s.p.j) == EndOf(w, s.g)
  {
    hide World.Survives;
  }

  lemma CodedAs(a: Epoch, b: Epoch)
    requires CodedAlike(a, b)
    ensures a.fmt == b.fmt && a.minor == b.minor
  {
  }

  /** What the next read finds in an open file. */
  lemma NextAtIs(w: World, st: State, g: nat, p: Place)
    requires w.Valid() && Sound(w.dir, st) && StandsAt(w, st, At(g, p))
    ensures Fits(w, At(g, p)) && ReadIs(w, Read(w.dir, st), NextAt(w, g, p))
  {
    hide *;
    StandsFits(w, st, g, p);
    ListEmpty(w, st, g, p);
    ReadsThere(w, st, g, p);
    ReadingFacts(w, st, g, p);
    ReadsOpen(w.dir, st);
    NextAtForm(w, g, p);
    if st.pending == [] && st.Exhausted() {
      EofIs(w, Read(w.dir, st), NextAt(w, g, p));
    } else {
      var st1 := HomeReads(w, st, g, p);
      var home := HomeOf(w, g, p);
      SpotIs(home);
      if st1.Exhausted() {
        EdgeIs(w, st1, home.g, home.p);
      } else {
        RecordIs(w, st1, home.g, home.p);
      }
    }
  }

  lemma SpotIs(s: Spot)
    ensures s.At? ==> s == At(s.g, s.p)
  {
  }

  lemma EofIs(w: World, r: (Attempt, State), x: (Attempt, Spot))
    requires r.0 == x.0 == Nothing(Eof)
    ensures ReadIs(w, r, x)
  {
  }

  // ------------------------------------------------------ between the files

  /** The reader looks for a record after file g. */
  ghost predicate Searching(w: World, st: State, g: int, within: bool, late: nat, regained: Option<nat>) {
    && -1 <= g < |w.log.files| && w.log.Valid()
    && st.current.None? && PendingAfter(w, st.pending, g) && Lists(w, st.pending, NextSurvivor(w, g))
    && (if within then
          && g >= 0 && st.session == Some(w.log.files[g].session) && st.startLost == late
          && Hinted(w, st, g, regained)
        else st.session.None? && st.recovery.None? && regained.None?)
  }

  /** What the search for a record start comes to. */
  ghost predicate FindsAs(w: World, r: FindOut, hit: Hit, regained: bool) {
    match hit
    case Nowhere => r.Missing? && r.fault.Eof?
    case SessionOver(g) => r.Missing? && r.fault.SessionEnd? && Parted(w, r.st, g)
    case Begins(x, p, late) =>
      && r.Found? && InFile(w, x, p) && r.st.startLost == late && Lists(w, r.st.pending, x + 1)
      && if regained then
           && w.log.epochs[p.e].fmt == VariableSimple && r.start.Recovered?
           && r.start.n == |w.RecordAt(p).payload|
           && r.st.recovery.None? && AtOffset(w, r.st, x, w.log.files[x].start)
           && w.log.epochs[p.e].Start(p.j) + w.log.epochs[p.e].Head() == w.log.files[x].start
         else r.start.Fresh? && ReadingAt(w, r.st.(startLost := 0), x, p)
  }

  /** One step of the search, in terms of the file it opens. */
  lemma SoughtForm(w: World, g: int, within: bool, late: nat, regained: Option<nat>)
    requires w.Valid() && Fits(w, Past(g, within, regained))
    ensures var x := NextSurvivor(w, g);
            var hit := Sought(w, g, within, late, regained);
            if x >= |w.log.files| then hit == Nowhere
            else if within && Parts(w, g) then hit == SessionOver(g)
            else
              && w.Survives(x) && w.log.InRange(x)
              && var f := w.log.files[x];
                 var ep, late1 := w.log.epochs[f.epoch], if within then late else f.ordinal;
                 if regained.Some? then hit == Begins(x, Place(f.epoch, regained.value), late1)
                 else if ep.Remaining(f.start) >= |w.Left(x)| then
                   Fits(w, Past(x, true, None)) && hit == Sought(w, x, true, late1, None)
                 else hit == Begins(x, Place(f.epoch, ep.IndexAt(f.start)), late1)
  {
    hide World.Valid;
    hide World.Survives;
    hide NextSurvivor;
    NextWithin(w, g);
    if NextSurvivor(w, g) < |w.log.files| { LeftShort(w, NextSurvivor(w, g)); }
  }

  lemma {:induction false} FindIs(w: World, st: State, g: int, within: bool, late: nat, regained: Option<nat>)
    requires w.Valid() && Searching(w, st, g, within, late, regained) && Fits(w, Past(g, within, regained))
    ensures FindsAs(w, FindRecordStart(w.dir, st), Sought(w, g, within, late, regained), regained.Some?)
    decreases |st.pending|
  {
    hide *;
    SoughtForm(w, g, within, late, regained);
    SearchFacts(w, st, g, within, late, regained);
    var st0 := st.(recovery := None);
    var (opening, st1) := OpenNext(w.dir, st0);
    NextWithin(w, g);
    OpenNextLists(w, st0, g, NextSurvivor(w, g));
    var h := OpenNextTruth(w, st0, g);
    FindSteps(w.dir, st);
    match opening
    case NoMore => FindsNone(w, FindRecordStart(w.dir, st), regained.Some?);
    case NewSession => FindsEnd(w, st0, g, h, st1, FindRecordStart(w.dir, st), regained.Some?);
    case Opened =>
      OpenedIs(w, st0, g, h, opening, st1);
      OpenedFile(w, st0, g, h, st1);
      OpenedWithin(w, st, g, within, late, regained, h, st1);
      if regained.Some? {
        RegainedLen(w, g, within, regained);
        FindsRegained(w, FindRecordStart(w.dir, st), g, late, regained.value, h, st1);
      } else if st1.current.value.header.remaining >= |st1.current.value.data| {
        GoesOn(w, within, late, h, st1);
        FindIs(w, st1.(current := None), h, true, if within then late else w.log.files[h].ordinal, None);
      } else {
        FindsFresh(w, FindRecordStart(w.dir, st), within, late, h, st1);
      }
  }

  lemma SearchFacts(w: World, st: State, g: int, within: bool, late: nat, regained: Option<nat>)
    requires Searching(w, st, g, within, late, regained)
    ensures -1 <= g < |w.log.files| && w.log.Valid()
    ensures st.current.None? && PendingAfter(w, st.pending, g) && Lists(w, st.pending, NextSurvivor(w, g))
    ensures if within then g >= 0 && st.session == Some(w.log.files[g].session) && st.startLost == late
            else st.session.None? && st.recovery.None? && regained.None?
  {
    hide Hinted;
    hide PendingAfter;
    hide Lists;
  }

  /** One turn of the search loop. */
  lemma FindSteps(dir: Dir, st: State)
    ensures var (opening, st1) := OpenNext(dir, st.(recovery := None));
            var r := FindRecordStart(dir, st);
            match opening
            case NoMore => r == Missing(Eof, st1)
            case NewSession => r == Missing(SessionEnd, st1)
            case Opened =>
              st1.current.Some? &&
              var seg := st1.current.value;
              var h := seg.header;
              var n := if st.recovery.None? then None
                       else RecoveredPayloadLen(st.recovery.value, seg.id, h.format, h.remaining, h.DataLen());
              r == (if n.Some? then Found(Recovered(n.value), st1)
                    else if h.remaining >= |seg.data| then FindRecordStart(dir, st1.(current := None))
                    else Found(Fresh, Advance(st1, h.remaining)))
  {
    hide OpenNext;
    hide RecoveredPayloadLen;
  }

  lemma FindsNone(w: World, r: FindOut, regained: bool)
    requires r.Missing? && r.fault.Eof?
    ensures FindsAs(w, r, Nowhere, regained)
  {
  }

  lemma FindsEnd(w: World, st: State, g: int, h: nat, st1: State, r: FindOut, regained: bool)
    requires w.Valid() && -1 <= g < |w.log.files| && st.current.None?
    requires st.session.Some? ==> g >= 0 && st.session == Some(w.log.files[g].session)
    requires OpenedAs(w, st, g, h, NewSession, st1) && Lists(w, st1.pending, NextSurvivor(w, g))
    requires r == Missing(SessionEnd, st1)
    ensures st.session.Some? && NextSurvivor(w, g) < |w.log.files| && Parts(w, g)
    ensures FindsAs(w, r, SessionOver(g), regained)
  {
    hide World.Valid;
    hide World.Survives;
    hide PendingAfter;
    hide Lists;
    hide NextSurvivor;
    hide Gone;
    SurvivorIn(w, h);
    GoneTold(w, st, g, h, st1);
    NextIs(w, g, h);
  }

  lemma GoneTold(w: World, st: State, g: int, h: nat, st1: State)
    requires OpenedAs(w, st, g, h, NewSession, st1)
    ensures g < h && w.Survives(h) && Gone(w, g, h)
  {
    hide World.Survives;
    hide PendingAfter;
    hide Gone;
  }

  /** The file a search opens is what the log says it is. */
  lemma OpenedFile(w: World, st: State, g: int, x: nat, st1: State)
    requires w.Valid() && OpenedAs(w, st, g, x, Opened, st1)
    ensures AtFile(w, st1, x) && w.Survives(x) && w.log.InRange(x) && x < |w.log.files| && w.log.Valid()
    ensures st1.current.Some? && st1.current.value.header == w.log.HeaderOf(x)
    ensures st1.current.value.id == w.log.files[x].id && st1.current.value.data == w.Left(x)
    ensures w.log.files[x].epoch < |w.log.epochs| && w.log.files[x].start <= w.log.epochs[w.log.files[x].epoch].End()
    ensures var f := w.log.files[x];
            && st1.current.value.header.remaining == w.log.epochs[f.epoch].Remaining(f.start)
            && st1.current.value.header.sequence == f.ordinal && st1.session == Some(f.session)
    ensures st1.recovery == st.recovery && st1.current.value.pos == 0 && PendingAfter(w, st1.pending, x)
    ensures st.session.Some? ==> st1.session == st.session && st1.startLost == st.startLost
    ensures st.session.None? ==> st1.startLost == st1.current.value.header.sequence
  {
    hide World.Valid;
    hide World.Survives;
    hide PendingAfter;
    hide Gone;
    hide Epoch.Remaining;
    FileFacts(w, st1, x);
    PendingOf(w, st1, x);
    LogOf(w);
  }

  /** What the hint makes of it. */
  lemma OpenedWithin(w: World, st: State, g: int, within: bool, late: nat, regained: Option<nat>, x: nat, st1: State)
    requires Searching(w, st, g, within, late, regained) && x == NextSurvivor(w, g) < |w.log.files|
    requires st1.current.Some? && st1.current.value.header == w.log.HeaderOf(x)
    requires st1.current.value.id == w.log.files[x].id && st1.session == Some(w.log.files[x].session)
    requires st.session.Some? ==> st1.session == st.session
    ensures within ==> !Parts(w, g)
    ensures var h := st1.current.value.header;
            var id := st1.current.value.id;
            var n := if st.recovery.None? then None
                     else RecoveredPayloadLen(st.recovery.value, id, h.format, h.remaining, h.DataLen());
            n == if regained.Some? then PayloadLen(w, x, regained.value) else None
  {
    hide Log.HeaderOf;
    hide Log.Valid;
    hide PendingAfter;
    hide Lists;
    hide NextSurvivor;
    hide RecoveredPayloadLen;
    hide PayloadLen;
  }

  lemma FindsRegained(w: World, r: FindOut, g: int, late: nat, j: nat, x: nat, st1: State)
    requires w.Valid() && Fits(w, Past(g, true, Some(j))) && g >= 0 && x == NextSurvivor(w, g) < |w.log.files|
    requires AtFile(w, st1, x) && st1.current.value.pos == 0 && st1.recovery.None? && st1.startLost == late
    requires Lists(w, st1.pending, x + 1)
    requires r.Found? && r.start.Recovered? && PayloadLen(w, x, j) == Some(r.start.n) && r.st == st1
    ensures FindsAs(w, r, Begins(x, Place(w.log.files[x].epoch, j), late), true)
  {
    hide World.Valid;
    hide World.Survives;
    hide PendingAfter;
    hide Lists;
    hide NextSurvivor;
    hide Sound;
    FitsGone(w, g, j);
    GonePayload(w, g, j - 1);
    GoneIsGap(w, g, j - 1);
  }

  lemma RegainedLen(w: World, g: int, within: bool, regained: Option<nat>)
    requires w.Valid() && Fits(w, Past(g, within, regained)) && regained.Some?
    ensures within && g >= 0 && NextSurvivor(w, g) < |w.log.files|
    ensures PayloadLen(w, NextSurvivor(w, g), regained.value).Some? && Fits(w, Past(g, true, Some(regained.value)))
  {
    hide World.Valid;
    hide World.Survives;
    hide NextSurvivor;
    hide PayloadLen;
    GonePayload(w, g, regained.value - 1);
  }

  lemma FitsGone(w: World, g: int, j: nat)
    requires Fits(w, Past(g, true, Some(j)))
    ensures g >= 0 && j > 0 && HeaderGone(w, g, j - 1)
    ensures j < |w.log.epochs[w.log.files[g].epoch].recs|
    ensures var ep := w.log.epochs[w.log.files[g].epoch]; ep.Start(j) + ep.Head() == w.log.files[g + 2].start
  {
    hide World.Survives;
  }

  lemma GoesOn(w: World, within: bool, late: nat, x: nat, st1: State)
    requires w.Valid() && x < |w.log.files| && AtFile(w, st1, x) && st1.recovery.None?
    requires Lists(w, st1.pending, x + 1) && PendingAfter(w, st1.pending, x)
    requires st1.session == Some(w.log.files[x].session)
    requires st1.startLost == if within then late else w.log.files[x].ordinal
    ensures Searching(w, st1.(current := None), x, true, if within then late else w.log.files[x].ordinal, None)
  {
    hide World.Valid;
    hide World.Survives;
    hide PendingAfter;
    hide NextSurvivor;
    hide Sound;
    LogOf(w);
    NextWithin(w, x);
  }

  lemma FindsFresh(w: World, r: FindOut, within: bool, late: nat, x: nat, st1: State)
    requires w.Valid() && x < |w.log.files| && w.Survives(x) && w.log.InRange(x)
    requires AtFile(w, st1, x) && st1.current.value.pos == 0 && st1.recovery.None? && Lists(w, st1.pending, x + 1)
    requires st1.startLost == if within then late else w.log.files[x].ordinal
    requires var f := w.log.files[x];
             st1.current.value.header.remaining == w.log.epochs[f.epoch].Remaining(f.start) < |w.Left(x)|
    requires st1.current.value.data == w.Left(x)
    requires r == Found(Fresh, Advance(st1, st1.current.value.header.remaining))
    ensures var f := w.log.files[x];
            FindsAs(w, r, Begins(x, Place(f.epoch, w.log.epochs[f.epoch].IndexAt(f.start)),
                                 if within then late else f.ordinal), false)
  {
    hide World.Valid;
    hide World.Survives;
    hide PendingAfter;
    hide Lists;
    hide OpenValidated;
    LeftShort(w, x);
    StartsInside(w, x);
  }

  /** A record read from its first byte, whatever metadata was kept. */
  lemma FreshIs(w: World, st: State, g: nat, p: Place)
    requires w.Valid() && StandsAt(w, st, At(g, p)) && !st.Exhausted()
    requires p.e < |w.log.epochs| && st.current.Some? && st.current.value.header.Readable()
    ensures InFile(w, g, p) && ReadIs(w, ReadFrom(w.dir, st, Fresh), ReadOf(w, g, p))
  {
    hide *;
    if w.log.epochs[p.e].fmt.Fixed? {
      ReadsThere(w, st, g, p);
      OpenHeader(w, st, g, p);
      MetaStands(w, st, At(g, p), MetaFixed);
      MetaApartHere(st, MetaFixed);
      FixedReads(w.dir, st);
      RecordIs(w, st.(lastMeta := MetaFixed), g, p);
    } else {
      RecordIs(w, st, g, p);
    }
  }

  lemma MetaApartHere(st: State, meta: Meta)
    ensures st.(lastMeta := meta).Exhausted() == st.Exhausted()
  {
  }

  /** A record of which the header is lost. */
  lemma RegainedIs(w: World, st: State, x: nat, p: Place)
    requires w.Valid() && InFile(w, x, p) && w.log.epochs[p.e].fmt == VariableSimple
    requires st.recovery.None? && st.startLost == 0 && Lists(w, st.pending, x + 1)
    requires AtOffset(w, st, x, w.log.files[x].start) && st.current.value.header.Readable()
    requires w.log.epochs[p.e].Start(p.j) + w.log.epochs[p.e].Head() == w.log.files[x].start
    ensures |w.RecordAt(p).payload| < 0x1_0000_0000
    ensures ReadIs(w, ReadFrom(w.dir, st, Recovered(|w.RecordAt(p).payload|)), ReadOf(w, x, p))
  {
    hide *;
    PlaceIn(w, x, p);
    InEpoch(w, x, p);
    SimplePayload(w, p);
    var n: u32 := |w.RecordAt(p).payload|;
    RecoveredAt(w, st, x, p, n);
    var cur := Cursor(4, Some(4 + n), None);
    var o := w.log.files[x].start;
    SimpleHead(w.log.epochs[p.e]);
    MetaApart(w, st, cur, x, p, o, MetaSimple);
    HereFacts(w, st, cur, x, p.e, p.j, o);
    PayloadIs(w, st, cur, x, x, p, MetaSimple);
    RecoveredReads(w.dir, st, n);
  }

  lemma InEpoch(w: World, g: nat, p: Place)
    requires InFile(w, g, p)
    ensures w.log.InRange(g) && w.log.files[g].epoch == p.e && w.Survives(g) && g < |w.log.files|
  {
    hide World.Survives;
  }

  lemma SimpleHead(ep: Epoch)
    ensures ep.fmt == VariableSimple ==> ep.Head() == 4
  {
  }

  lemma SimplePayload(w: World, p: Place)
    requires w.Valid() && w.IsPlace(p)
    ensures |w.RecordAt(p).payload| < 0x1_0000_0000
  {
    LogOf(w);
    var ep := w.log.epochs[p.e];
    assert ValidRecord(ep.fmt, ep.recs[p.j], ep.minor);
  }

  lemma RecoveredReads(dir: Dir, st: State, n: u32)
    requires st.current.Some? && st.current.value.header.Readable()
    requires st.current.value.header.format == VariableSimple
    ensures ReadFrom(dir, st, Recovered(n)) == ReadPayload(dir, st, Cursor(4, Some(4 + n), None), n, MetaSimple)
  {
    hide ReadPayload;
  }

  /** What a read between files finds, in its steps. */
  lemma ReadsBetween(dir: Dir, st: State)
    requires Sound(dir, st) && st.current.None?
    ensures var r := FindRecordStart(dir, st.(resync := true));
            var x := Read(dir, st);
            if st.pending == [] then x.0 == Nothing(Eof)
            else if r.Missing? then x == (Nothing(r.fault), Lose(r.st))
            else if r.st.startLost > 0 then
              x == (Nothing(Truncated(r.st.startLost)), r.st.(resync := false, startLost := 0))
            else
              && r.st.current.Some? && r.st.current.value.header.Readable()
              && x == ReadFrom(dir, r.st.(resync := false), r.start)
  {
    hide ReadFrom;
    hide FindRecordStart;
    FindSound(dir, st.(resync := true));
  }

  lemma NoneAfter(w: World, st: State, g: int)
    requires w.Valid() && -1 <= g < |w.log.files| && PendingAfter(w, st.pending, g) && st.pending == []
    ensures NextSurvivor(w, g) >= |w.log.files|
  {
    hide World.Valid;
    hide World.Survives;
    NextWithin(w, g);
  }

  lemma BetweenSearches(w: World, st: State, g: int, within: bool, regained: Option<nat>)
    requires w.Valid() && StandsAt(w, st, Past(g, within, regained))
    ensures st.current.None? && -1 <= g < |w.log.files| && PendingAfter(w, st.pending, g)
    ensures Searching(w, st.(resync := true), g, within, 0, regained)
  {
    hide World.Valid;
    hide PendingAfter;
    hide Lists;
    hide NextSurvivor;
    hide Settles;
    LogOf(w);
  }

  /** What the next read finds between files. */
  lemma NextPastIs(w: World, st: State, g: int, within: bool, regained: Option<nat>)
    requires w.Valid() && Sound(w.dir, st) && StandsAt(w, st, Past(g, within, regained))
    requires Fits(w, Past(g, within, regained))
    ensures ReadIs(w, Read(w.dir, st), NextPast(w, g, within, regained))
  {
    hide *;
    BetweenSearches(w, st, g, within, regained);
    ReadsBetween(w.dir, st);
    var st0 := st.(resync := true);
    var r := FindRecordStart(w.dir, st0);
    var hit := Sought(w, g, within, 0, regained);
    SoughtForm(w, g, within, 0, regained);
    SoughtFits(w, g, within, 0, regained);
    FindIs(w, st0, g, within, 0, regained);
    NextPastForm(w, g, within, regained);
    if st.pending == [] {
      NoneAfter(w, st, g);
      EofIs(w, Read(w.dir, st), NextPast(w, g, within, regained));
    } else {
      match hit
      case Nowhere =>
        FoundNowhere(w, r, regained.Some?);
        EofIs(w, Read(w.dir, st), NextPast(w, g, within, regained));
      case SessionOver(g1) => FoundOver(w, r, g1, regained.Some?);
      case Begins(x, p, late) =>
        if late > 0 {
          FoundLate(w, r, x, p, late, regained.Some?);
        } else if regained.Some? {
          FoundInside(w, r, x, p, regained.Some?);
          RegainedIs(w, r.st.(resync := false), x, p);
        } else {
          FoundFirst(w, r, x, p);
          FreshIs(w, r.st.(resync := false), x, p);
        }
    }
  }

  lemma NextPastForm(w: World, g: int, within: bool, regained: Option<nat>)
    requires w.Valid() && Fits(w, Past(g, within, regained))
    ensures var n, hit := NextPast(w, g, within, regained), Sought(w, g, within, 0, regained);
            && (hit.Nowhere? ==> n == (Nothing(Eof), Past(g, within, regained)))
            && (hit.SessionOver? ==> n == (Nothing(SessionEnd), Past(hit.g, false, None)))
            && (hit.Begins? && hit.late > 0 ==> n == (Nothing(Truncated(hit.late)), At(hit.x, hit.p)))
            && (hit.Begins? ==> InFile(w, hit.x, hit.p))
            && (hit.Begins? && hit.late == 0 ==> n == ReadOf(w, hit.x, hit.p))
  {
    hide World.Valid;
    hide World.Survives;
    hide Sought;
    hide ReadOf;
    SoughtFits(w, g, within, 0, regained);
  }

  lemma FoundNowhere(w: World, r: FindOut, regained: bool)
    requires FindsAs(w, r, Nowhere, regained)
    ensures r == Missing(Eof, r.st)
  {
  }

  lemma FoundOver(w: World, r: FindOut, g: int, regained: bool)
    requires FindsAs(w, r, SessionOver(g), regained)
    ensures r == Missing(SessionEnd, r.st)
    ensures ReadIs(w, (Nothing(SessionEnd), Lose(r.st)), (Nothing(SessionEnd), Past(g, false, None)))
  {
    hide PendingAfter;
    hide Lists;
    hide NextSurvivor;
  }

  lemma FoundLate(w: World, r: FindOut, x: nat, p: Place, late: nat, regained: bool)
    requires FindsAs(w, r, Begins(x, p, late), regained) && late > 0 && !regained
    ensures r.Found? && r.st.startLost == late
    ensures ReadIs(w, (Nothing(Truncated(late)), r.st.(resync := false, startLost := 0)),
                   (Nothing(Truncated(late)), At(x, p)))
  {
    hide ReadingAt;
    hide Lists;
    hide InFile;
    ResyncApart(w, r.st, x, p);
  }

  lemma FoundInside(w: World, r: FindOut, x: nat, p: Place, regained: bool)
    requires FindsAs(w, r, Begins(x, p, 0), regained) && regained
    ensures r.Found? && r.st.startLost == 0
    ensures var st := r.st.(resync := false);
            && InFile(w, x, p) && w.log.epochs[p.e].fmt == VariableSimple
            && r.start == Recovered(|w.RecordAt(p).payload|) && st.recovery.None? && st.startLost == 0
            && x < |w.log.files| && AtOffset(w, st, x, w.log.files[x].start) && Lists(w, st.pending, x + 1)
            && w.log.epochs[p.e].Start(p.j) + w.log.epochs[p.e].Head() == w.log.files[x].start
  {
    hide AtOffset;
    hide Lists;
    hide InFile;
    InEpoch(w, x, p);
    OffsetApart(w, r.st, x, w.log.files[x].start);
  }

  lemma FoundFirst(w: World, r: FindOut, x: nat, p: Place)
    requires w.Valid() && FindsAs(w, r, Begins(x, p, 0), false)
    requires Fits(w, At(x, p)) && w.log.epochs[p.e].Start(p.j) < EndOf(w, x)
    ensures r.Found? && r.start.Fresh? && r.st.startLost == 0
    ensures var st := r.st.(resync := false); StandsAt(w, st, At(x, p)) && !st.Exhausted() && p.e < |w.log.epochs|
  {
    hide World.Valid;
    hide World.Survives;
    hide ReadingAt;
    hide Lists;
    hide InFile;
    ResyncApart(w, r.st, x, p);
    StandsFits(w, r.st.(resync := false), x, p);
  }

  // ------------------------------------------------------------ one read, any

  /** The next spot is one too. */
  lemma NextFitsOn(w: World, s: Spot)
    requires w.Valid() && Fits(w, s)
    ensures Fits(w, Next(w, s).1)
  {
    hide *;
    NextForm(w, s);
    match s
    case At(g, p) =>
      NextAtForm(w, g, p);
      var home := HomeOf(w, g, p);
      HomeFits(w, g, p);
      PastFits(w, home.g);
      PastFits(w, g);
      if InFile(w, home.g, home.p) { ReadFits(w, home.g, home.p); }
    case Past(g, within, regained) =>
      NextPastForm(w, g, within, regained);
      SoughtFits(w, g, within, 0, regained);
      var hit := Sought(w, g, within, 0, regained);
      if hit.SessionOver? { PastFits(w, hit.g); }
      if hit.Begins? {
        SoughtLate(w, g, within, regained);
        SoughtStarts(w, g, within, 0, regained);
        ReadFits(w, hit.x, hit.p);
      }
  }

  lemma PastFits(w: World, g: int)
    requires 0 <= g < |w.log.files|
    ensures forall b :: Fits(w, Past(g, b, None))
    ensures forall fmt :: Fits(w, EdgeOf(w, g, fmt).1)
  {
    hide World.Survives;
    hide Parts;
    hide Gap;
  }

  lemma HomeFits(w: World, g: nat, p: Place)
    requires w.Valid() && Fits(w, At(g, p))
    ensures w.Survives(g) && g < |w.log.files|
    ensures var home := HomeOf(w, g, p);
            && home.At? && Fits(w, home) && home.g < |w.log.files|
            && (InFile(w, home.g, home.p) ==>
                  w.log.files[home.g].start <= w.log.epochs[home.p.e].Start(home.p.j + 1))
  {
    hide World.Valid;
    hide World.Survives;
    hide HomeOf;
    HomeInFile(w, g, p);
  }

  lemma SoughtLate(w: World, g: int, within: bool, regained: Option<nat>)
    requires w.Valid() && Fits(w, Past(g, within, regained))
    ensures var hit := Sought(w, g, within, 0, regained);
            hit.Begins? && hit.late > 0 ==> regained.None? && Fits(w, At(hit.x, hit.p))
  {
    hide World.Valid;
    hide World.Survives;
    hide Sought;
    SoughtFits(w, g, within, 0, regained);
  }

  lemma {:induction false} SoughtStarts(w: World, g: int, within: bool, late: nat, regained: Option<nat>)
    requires w.Valid() && Fits(w, Past(g, within, regained))
    ensures var hit := Sought(w, g, within, late, regained);
            hit.Begins? && InFile(w, hit.x, hit.p) ==>
              w.log.files[hit.x].start <= w.log.epochs[hit.p.e].Start(hit.p.j + 1)
  {
    hide World.Valid;
    hide World.Survives;
    hide Sought;
    SoughtFits(w, g, within, late, regained);
    if regained.Some? {
      SoughtForm(w, g, within, late, regained);
      FitsGone(w, g, regained.value);
      GoneIsGap(w, g, regained.value - 1);
    }
  }

  lemma {:induction false} FileStarts(w: World, g: nat, o: nat)
    requires w.Valid() && w.Survives(g) && w.log.files[g].start <= o
    ensures w.log.files[FileOf(w, g, o)].start <= o
    decreases |w.log.files| - g
  {
    hide World.Valid;
    hide World.Survives;
    if RunsOn(w, g) && o > EndOf(w, g) {
      ReachGrows(w, g);
      FileStarts(w, g + 1, o);
    }
  }

  lemma ReadFits(w: World, g: nat, p: Place)
    requires w.Valid() && InFile(w, g, p) && w.log.files[g].start <= w.log.epochs[p.e].Start(p.j + 1)
    ensures Fits(w, ReadOf(w, g, p).1)
  {
    hide World.Valid;
    hide World.Survives;
    hide Furthest;
    hide FileOf;
    hide HeaderGone;
    hide Gap;
    var o := w.log.epochs[p.e].Start(p.j + 1);
    GapKnown(w, Furthest(w, g));
    if o <= ReachOf(w, g) {
      OnTheWay(w, g, o);
      FileStarts(w, g, o);
      LeftShort(w, FileOf(w, g, o));
    }
  }

  /** `read` finds what the log and the damage say, and leaves the reader where
      they say. */
  lemma ReadIsNext(w: World, st: State, s: Spot)
    requires w.Valid() && Sound(w.dir, st) && StandsAt(w, st, s) && Fits(w, s)
    ensures ReadIs(w, Read(w.dir, st), Next(w, s))
  {
    hide *;
    NextForm(w, s);
    match s
    case At(g, p) => NextAtIs(w, st, g, p);
    case Past(g, within, regained) => NextPastIs(w, st, g, within, regained);
  }

  lemma NextForm(w: World, s: Spot)
    requires w.Valid() && Fits(w, s)
    ensures Next(w, s) == match s
                          case At(g, p) => NextAt(w, g, p)
                          case Past(g, within, regained) => NextPast(w, g, within, regained)
  {
    hide NextAt;
    hide NextPast;
    hide World.Valid;
    hide Fits;
  }
}
