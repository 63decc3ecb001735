/** How far a record of a damaged log can be read: on from file to file while
    nothing is missing between them, and no further. Filling stops exactly
    there, and reports exactly the files missing after it (tcslog/src/read.rs). */
module Reach {
  import opened Bytes
  import opened Format
  import opened Names
  import opened ReadSpec
  import opened ReadEnds
  import opened Layout
  import opened Damage
  import opened Standing
  import opened Filling
  import opened ReadTruth
  import opened LossCounts

  /** File g is there whole, and so is the file its epoch goes on in. */
  ghost predicate RunsOn(w: World, g: nat) {
    w.Survives(g) && w.Survives(g + 1) && w.log.SameEpoch(g) && |w.Left(g)| == w.log.files[g].len
  }

  /** Where what is left of file g ends in its epoch's stream. */
  ghost function EndOf(w: World, g: nat): nat
    requires w.Survives(g)
  {
    w.log.files[g].start + |w.Left(g)|
  }

  /** The last file that what starts in file g can be read on into. */
  ghost function Furthest(w: World, g: nat): (h: nat)
    requires w.Survives(g)
    ensures g <= h && w.Survives(h) && !RunsOn(w, h)
    decreases |w.log.files| - g
  {
    if RunsOn(w, g) then Furthest(w, g + 1) else g
  }

  ghost function ReachOf(w: World, g: nat): nat
    requires w.Survives(g)
  {
    EndOf(w, Furthest(w, g))
  }

  /** The file, from file g on, in which a reader comes to offset o. */
  ghost function FileOf(w: World, g: nat, o: nat): (h: nat)
    requires w.Survives(g)
    ensures g <= h && w.Survives(h)
    decreases |w.log.files| - g
  {
    if RunsOn(w, g) && o > EndOf(w, g) then FileOf(w, g + 1, o) else g
  }

  lemma {:induction false} OnTheWay(w: World, g: nat, o: nat)
    requires w.Valid() && w.Survives(g) && o <= ReachOf(w, g)
    ensures var h := FileOf(w, g, o);
            && Furthest(w, h) == Furthest(w, g) && o <= EndOf(w, h)
            && w.log.InRange(g) && w.log.InRange(h) && w.log.files[h].epoch == w.log.files[g].epoch
    decreases |w.log.files| - g
  {
    hide World.Valid;
    hide World.Survives;
    LogOf(w);
    LeftShort(w, g);
    if RunsOn(w, g) { OnTheWay(w, g + 1, o); }
  }

  lemma {:induction false} ReachGrows(w: World, g: nat)
    requires w.Valid() && w.Survives(g)
    ensures EndOf(w, g) <= ReachOf(w, g)
    ensures RunsOn(w, g) ==> ReachOf(w, g + 1) == ReachOf(w, g) && EndOf(w, g) == w.log.files[g + 1].start
    decreases |w.log.files| - g
  {
    hide World.Valid;
    hide World.Survives;
    if RunsOn(w, g) { ReachGrows(w, g + 1); }
  }

  // -------------------------------------------------- what lies after a file

  /** The next file there is belongs to another session. */
  ghost predicate Parts(w: World, g: int) {
    && 0 <= g < |w.log.files|
    && var x := NextSurvivor(w, g); x < |w.log.files| && w.log.files[x].session != w.log.files[g].session
  }

  /** How many files are missing after file g before the next of its session
      that is there. */
  ghost function Gap(w: World, g: int): nat
    requires 0 <= g < |w.log.files|
  {
    var x := NextSurvivor(w, g);
    if x < |w.log.files| && !Parts(w, g) then x - g - 1 else 0
  }

  /** What a crossing out of file g leaves behind for a recovery. */
  ghost function HintOf(w: World, g: nat, cur: Cursor): Option<Recovery>
    requires w.Survives(g) && w.log.InRange(g)
  {
    if Gap(w, g) == 1 && |w.Left(g)| == w.log.epochs[w.log.files[g].epoch].dsize && cur.total.Some?
    then Some(Recovery(w.log.files[NextSurvivor(w, g)].id, cur.total.value - cur.consumed)) else None
  }

  // ------------------------------------------------------- the list of names

  /** The list has every name there is from file `from` on. */
  ghost predicate Lists(w: World, ids: seq<SegId>, from: int) {
    forall id :: id in w.at && w.at[id] >= from ==> id in ids
  }

  lemma ListsFrom(w: World, ids: seq<SegId>, from: int, t: nat)
    requires w.Removed() && Sorted(ids) && Lists(w, ids, from) && t < |ids| && ids[t] in w.at
    requires from <= w.at[ids[t]]
    ensures Lists(w, ids[t..], w.at[ids[t]])
    ensures Lists(w, ids[t + 1..], w.at[ids[t]] + 1)
  {
    hide Usable;
    hide World.Removed;
    forall id | id in w.at && w.at[id] >= w.at[ids[t]]
      ensures id in ids[t..] && (id != ids[t] ==> id in ids[t + 1..])
    {
      var i :| 0 <= i < |ids| && ids[i] == id;
      NamesOrdered(w, id, ids[t]);
      assert i >= t;
      assert ids[t..][i - t] == id;
      if i > t { assert ids[t + 1..][i - t - 1] == id; }
    }
  }

  /** So does what opening the next file leaves of it. */
  lemma OpenNextLists(w: World, st: State, g: int, from: int)
    requires w.Valid() && st.current.None? && g >= -1 && PendingAfter(w, st.pending, g) && Lists(w, st.pending, from)
    requires from <= NextSurvivor(w, g) <= |w.log.files|
    ensures var (opening, st1) := OpenNext(w.dir, st);
            var x := NextSurvivor(w, g);
            && (opening.Opened? ==> Lists(w, st1.pending, x + 1))
            && (opening.NewSession? ==> Lists(w, st1.pending, x))
            && (opening.NoMore? ==> x == |w.log.files|)
  {
    hide World.Removed;
    hide World.Survives;
    hide NextSurvivor;
    hide Unusable;
    hide OpenNext;
    hide Usable;
    hide OpenValidated;
    OpenNextForm(w.dir, st);
    var t := Unusable(w.dir, st.pending);
    SkippedGone(w, st.pending, g, t);
    if t < |st.pending| {
      ListedSurvives(w, st.pending[t]);
      NextIs(w, g, w.at[st.pending[t]]);
      ListsFrom(w, st.pending, from, t);
    } else {
      NextIs(w, g, |w.log.files|);
    }
  }

  lemma ListedSurvives(w: World, id: SegId)
    requires w.Removed() && id in w.at && Usable(w.dir, id)
    ensures w.at[id] < |w.log.files| && w.log.files[w.at[id]].id == id && w.Survives(w.at[id])
  {
    UsableIsTrue(w, id);
  }

  // ---------------------------------------------------------- giving up a file

  /** The reader is done with file g and what comes before, within its session. */
  ghost predicate Parked(w: World, st: State, g: int) {
    && 0 <= g < |w.log.files| && st.current.None? && PendingAfter(w, st.pending, g)
    && Lists(w, st.pending, NextSurvivor(w, g))
    && st.session == Some(w.log.files[g].session) && st.startLost == 0
  }

  /** The reader is done with file g, and with its session. */
  ghost predicate Parted(w: World, st: State, g: int) {
    && -1 <= g < |w.log.files| && st.current.None? && PendingAfter(w, st.pending, g)
    && Lists(w, st.pending, NextSurvivor(w, g))
    && st.session.None? && st.recovery.None?
  }

  /** What a crossing out of file g that fails reports, and leaves. */
  ghost predicate StopsAs(w: World, g: nat, cur: Cursor, c: CrossOut)
    requires w.Survives(g) && w.log.InRange(g)
  {
    if cur.consumed == 0 && Parts(w, g) then c.fault == Some(SessionEnd) && Parted(w, c.st, g)
    else c.fault == Some(Truncated(Gap(w, g))) && Parked(w, c.st, g) && c.st.recovery == HintOf(w, g, cur)
  }

  lemma CrossStopsAs(w: World, st: State, cur: Cursor, g: nat)
    requires w.Valid() && AtFile(w, st, g) && st.recovery.None? && st.startLost == 0 && Lists(w, st.pending, g + 1)
    ensures w.Survives(g) && w.log.InRange(g)
    ensures var c := Cross(w.dir, st, cur);
            if c.fault.None? then Lists(w, c.st.pending, NextSurvivor(w, g) + 1) else StopsAs(w, g, cur, c)
  {
    hide *;
    FileFacts(w, st, g);
    InFiles(w, g);
    PendingOf(w, st, g);
    CrossOpens(w, st, cur, g);
    NextWithin(w, g);
    var st0 := st.(current := None);
    OpenNextLists(w, st0, g, g + 1);
    var h := OpenNextTruth(w, st0, g);
    var (opening, st1) := OpenNext(w.dir, st0);
    GapTold(w, g);
    if opening.Opened? { OpenedIs(w, st0, g, h, opening, st1); }
    match opening
    case NoMore => NoMoreStops(w, st, cur, g, h);
    case NewSession => SessionStops(w, st, cur, g, h);
    case Opened => OpenedStops(w, st, cur, g, h);
  }

  lemma GapTold(w: World, g: nat)
    requires g < |w.log.files|
    ensures var x := NextSurvivor(w, g);
            x < |w.log.files| ==>
              && (Parts(w, g) <==> w.log.files[x].session != w.log.files[g].session)
              && (!Parts(w, g) ==> Gap(w, g) == x - g - 1)
  {
    hide NextSurvivor;
  }

  lemma OpenedIs(w: World, st: State, g: int, h: nat, opening: Opening, st1: State)
    requires w.Valid() && g >= -1 && OpenedAs(w, st, g, h, opening, st1) && opening.Opened?
    ensures h == NextSurvivor(w, g)
  {
    hide PendingAfter;
    hide World.Removed;
    hide NextSurvivor;
    hide Sound;
    FileFacts(w, st1, h);
    NextIs(w, g, h);
  }

  lemma InFiles(w: World, g: nat)
    requires w.log.InRange(g)
    ensures g < |w.log.files| && w.log.files[g].epoch < |w.log.epochs|
  {
  }

  lemma NoneListed(w: World)
    requires w.Valid()
    ensures Lists(w, [], |w.log.files|)
  {
  }

  lemma NoMoreStops(w: World, st: State, cur: Cursor, g: nat, h: nat)
    requires w.Valid() && w.Survives(g) && w.log.InRange(g) && st.recovery.None? && st.startLost == 0
    requires st.session == Some(w.log.files[g].session)
    requires OpenNext(w.dir, st.(current := None)).0.NoMore? && NextSurvivor(w, g) == |w.log.files|
    requires OpenedAs(w, st.(current := None), g, h, NoMore, OpenNext(w.dir, st.(current := None)).1)
    ensures StopsAs(w, g, cur, Cross(w.dir, st, cur)) && Cross(w.dir, st, cur).fault.Some?
  {
    hide OpenNext;
    hide World.Valid;
    hide World.Survives;
    hide PendingAfter;
    hide NextSurvivor;
    hide Gone;
    NoneListed(w);
  }

  lemma SessionStops(w: World, st: State, cur: Cursor, g: nat, h: nat)
    requires w.Survives(g) && w.log.InRange(g) && st.recovery.None? && st.startLost == 0
    requires st.session == Some(w.log.files[g].session) && Parts(w, g)
    requires OpenNext(w.dir, st.(current := None)).0.NewSession?
    requires OpenedAs(w, st.(current := None), g, h, NewSession, OpenNext(w.dir, st.(current := None)).1)
    requires Lists(w, OpenNext(w.dir, st.(current := None)).1.pending, NextSurvivor(w, g))
    ensures StopsAs(w, g, cur, Cross(w.dir, st, cur)) && Cross(w.dir, st, cur).fault.Some?
  {
    hide OpenNext;
    hide World.Survives;
    hide PendingAfter;
    hide NextSurvivor;
    hide Gone;
  }

  lemma OpenedStops(w: World, st: State, cur: Cursor, g: nat, x: nat)
    requires w.Valid() && AtFile(w, st, g) && w.Survives(g) && w.log.InRange(g)
    requires st.recovery.None? && st.startLost == 0 && st.session == Some(w.log.files[g].session)
    requires x == NextSurvivor(w, g) < |w.log.files| && !Parts(w, g)
    requires OpenNext(w.dir, st.(current := None)).0.Opened?
    requires var st1 := OpenNext(w.dir, st.(current := None)).1;
             && OpenedAs(w, st.(current := None), g, x, Opened, st1)
             && AtFile(w, st1, x) && st1.session == st.session && st1.startLost == 0
             && Skipped(st.prevSeq, st1.current.value.header.sequence) == Gap(w, g)
             && PendingAfter(w, [st1.current.value.id] + st1.pending, g)
             && Lists(w, st1.pending, x + 1)
    ensures var c := Cross(w.dir, st, cur);
            if c.fault.None? then Lists(w, c.st.pending, x + 1) else StopsAs(w, g, cur, c)
  {
    hide OpenNext;
    hide World.Valid;
    hide World.Survives;
    hide Sound;
    hide PendingAfter;
    hide NextSurvivor;
    hide NoteImplied;
    hide Continues;
    hide Skipped;
    hide InSequence;
    hide Gone;
    hide Short;
    hide Lists;
    hide Gap;
    RejectedLists(w, st, OpenNext(w.dir, st.(current := None)).1, g);
  }

  /** A refused file goes back to the front of the list. */
  lemma RejectedLists(w: World, st: State, st1: State, g: nat)
    requires w.Valid() && AtFile(w, st, g) && st1.current.Some? && NextSurvivor(w, g) < |w.log.files|
    requires AtFile(w, st1, NextSurvivor(w, g)) && Lists(w, st1.pending, NextSurvivor(w, g) + 1)
    ensures var id := st1.current.value.id;
            id == w.log.files[NextSurvivor(w, g)].id && Lists(w, [id] + st1.pending, NextSurvivor(w, g))
    ensures w.Survives(g) && w.log.InRange(g)
    ensures !Short(st) <==> |w.Left(g)| == w.log.epochs[w.log.files[g].epoch].dsize
  {
    hide World.Valid;
    hide World.Survives;
    hide PendingAfter;
    hide NextSurvivor;
    hide Sound;
    var x := NextSurvivor(w, g);
    FileFacts(w, st, g);
    FileFacts(w, st1, x);
    var id := st1.current.value.id;
    forall a | a in w.at && w.at[a] >= x ensures a in [id] + st1.pending {
      if w.at[a] == x { SameName(w, a, id); }
    }
  }

  lemma SameName(w: World, a: SegId, b: SegId)
    requires w.Valid() && a in w.at && b in w.at && w.at[a] == w.at[b]
    ensures a == b
  {
    hide Usable;
  }

  // ------------------------------------------------------- inside a record

  /** Inside a record a crossing succeeds exactly when the file it runs on into
      is there and the one it leaves is whole. */
  lemma CrossesIf(w: World, st: State, cur: Cursor, g: nat, j: nat, o: nat)
    requires w.Valid() && AtOffset(w, st, g, o) && st.Exhausted() && w.log.InRange(g)
    requires st.recovery.None? && st.startLost == 0
    requires var ep := w.log.epochs[w.log.files[g].epoch];
             && CursorIn(ep, j, o, cur) && ep.Start(j) < o < ep.Start(j + 1)
             && (cur.total.None? ==> o < ep.Start(j) + ep.Head())
    ensures w.Survives(g) && o == EndOf(w, g)
    ensures Cross(w.dir, st, cur).fault.None? <==> RunsOn(w, g)
  {
    hide *;
    Exhaust(w, st, g, o);
    OffsetFacts(w, st, g, o);
    if RunsOn(w, g) {
      RunsOnFacts(w, g);
      CrossSucceeds(w, st, cur, g, j, o);
    } else if Cross(w.dir, st, cur).fault.None? {
      CrossedRunsOn(w, st, cur, g, j, o);
    }
  }

  lemma OffsetFacts(w: World, st: State, g: nat, o: nat)
    requires w.Valid() && AtOffset(w, st, g, o) && st.Exhausted()
    ensures w.Survives(g) && w.log.InRange(g) && o == EndOf(w, g) && w.Left(g) == st.current.value.data
    ensures g < |w.log.files| && w.log.files[g].epoch < |w.log.epochs|
    ensures |w.Left(g)| <= w.log.files[g].len <= w.log.epochs[w.log.files[g].epoch].dsize
  {
    hide World.Valid;
    hide World.Survives;
    FileFacts(w, st, g);
    Exhaust(w, st, g, o);
  }

  lemma RunsOnFacts(w: World, g: nat)
    requires RunsOn(w, g)
    ensures w.Survives(g) && w.Survives(g + 1) && w.log.SameEpoch(g)
    ensures w.log.files[g].epoch < |w.log.epochs| && |w.Left(g)| == w.log.epochs[w.log.files[g].epoch].dsize
  {
    hide World.Survives;
  }

  lemma CrossedRunsOn(w: World, st: State, cur: Cursor, g: nat, j: nat, o: nat)
    requires w.Valid() && AtOffset(w, st, g, o) && st.Exhausted() && w.log.InRange(g)
    requires var ep := w.log.epochs[w.log.files[g].epoch];
             && CursorIn(ep, j, o, cur) && ep.Start(j) < o < ep.Start(j + 1)
             && (cur.total.None? ==> o < ep.Start(j) + ep.Head())
    requires Cross(w.dir, st, cur).fault.None?
    ensures RunsOn(w, g)
  {
    hide *;
    AtOffsetFacts(w, st, g, o);
    CrossJudges(w.dir, st, cur);
    var (opening, st1) := OpenNext(w.dir, st.(current := None));
    var h := OpenNextTruth(w, st.(current := None), g);
    OpenedJust(w, st, g, h);
    AcceptedIn(w, st, st1, cur, g, h, j, o);
    JudgeAccepts(st, st1, cur);
    JustOpenedFacts(w, st, st1, g, h);
    RunsOnIf(w, g);
  }

  lemma AtOffsetFacts(w: World, st: State, g: nat, o: nat)
    requires w.Valid() && AtOffset(w, st, g, o)
    ensures AtFile(w, st, g) && PendingAfter(w, st.pending, g) && st.session.Some?
    ensures g < |w.log.files| && w.log.files[g].epoch < |w.log.epochs|
  {
    hide World.Valid;
    hide World.Survives;
    FileFacts(w, st, g);
    PendingOf(w, st, g);
  }

  lemma RunsOnIf(w: World, g: nat)
    requires w.Survives(g) && w.Survives(g + 1) && w.log.SameEpoch(g)
    requires |w.Left(g)| == w.log.epochs[w.log.files[g].epoch].dsize
    ensures RunsOn(w, g)
  {
    hide World.Survives;
  }

  lemma CrossJudges(dir: Dir, st: State, cur: Cursor)
    requires Cross(dir, st, cur).fault.None?
    ensures var (opening, st1) := OpenNext(dir, st.(current := None));
            opening.Opened? && st1.current.Some? && Judge(st, st1, cur).fault.None?
  {
    hide OpenNext;
    hide Judge;
  }

  lemma OpenedJust(w: World, st: State, g: nat, h: nat)
    requires AtFile(w, st, g) && OpenNext(w.dir, st.(current := None)).0.Opened? && st.session.Some?
    requires OpenedAs(w, st.(current := None), g, h, Opened, OpenNext(w.dir, st.(current := None)).1)
    ensures JustOpened(w, st, OpenNext(w.dir, st.(current := None)).1, g, h)
  {
    hide OpenNext;
    hide PendingAfter;
    hide Gone;
    hide Sound;
  }

  /** The reader stopped inside record j, as file g does not run on. */
  ghost predicate StoppedIn(w: World, g: nat, j: nat, known: bool, st: State)
    requires w.Survives(g) && w.log.InRange(g)
  {
    && j < |w.log.epochs[w.log.files[g].epoch].recs|
    && Parked(w, st, g) && st.recovery == HintAfter(w, g, j, known)
  }

  /** The hint left when record j, its length known or not, breaks off where
      file g ends. */
  ghost function HintAfter(w: World, g: nat, j: nat, known: bool): Option<Recovery>
    requires w.Survives(g) && w.log.InRange(g) && j < |w.log.epochs[w.log.files[g].epoch].recs|
  {
    var ep := w.log.epochs[w.log.files[g].epoch];
    if Gap(w, g) == 1 && |w.Left(g)| == ep.dsize && known
    then Some(Recovery(w.log.files[NextSurvivor(w, g)].id, ep.Start(j + 1) - EndOf(w, g))) else None
  }

  /** Asked for n bytes of record j, from offset o in file g on: all of them, if
      they can be reached; else those that can, and the loss that ends them. */
  ghost predicate FillsAs(w: World, g: nat, j: nat, o: nat, n: nat, known: bool, f: FillOut)
    requires w.Survives(g) && w.log.InRange(g)
  {
    var m, e := ReachOf(w, g), w.log.files[g].epoch;
    if o + n <= m then
      && f.fault.None? && FilledTo(w, FileOf(w, g, o + n), e, j, o + n, f.st, f.cur)
      && Lists(w, f.st.pending, FileOf(w, g, o + n) + 1)
    else
      var h := Furthest(w, g);
      && f.fault == Some(Truncated(Gap(w, h))) && |f.got| == m - o
      && w.log.InRange(h) && StoppedIn(w, h, j, known, f.st)
  }

  lemma {:induction false} FillReaches(w: World, st: State, cur: Cursor, n: nat, g: nat, e: nat, j: nat, o: nat)
    requires w.Valid() && FilledTo(w, g, e, j, o, st, cur) && Asked(w, e, j, o, n, st, cur)
    requires Lists(w, st.pending, g + 1)
    ensures w.Survives(g) && w.log.InRange(g)
    ensures FillsAs(w, g, j, o, n, cur.total.Some?, Fill(w.dir, st, cur, n))
    decreases n, |st.pending|
  {
    hide *;
    HereFacts(w, st, cur, g, e, j, o);
    if n == 0 {
      FillZero(w.dir, st, cur);
      FillsNone(w, st, cur, g, e, j, o);
    } else {
      FillUnfold(w.dir, st, cur, n);
      if st.Exhausted() {
        var c := Cross(w.dir, st, cur);
        CrossInTo(w, st, cur, g, e, j, o, n);
        CrossReaches(w, st, cur, g, e, j, o, n);
        if c.fault.None? {
          FillReaches(w, c.st, c.cur, n, g + 1, e, j, o);
          FillsAcross(w, g, e, j, o, n, cur.total.Some?, Fill(w.dir, c.st, c.cur, n));
        }
      } else {
        var take := Portion(st, n);
        var st1, cur1 := Advance(st, take), cur.(consumed := cur.consumed + take);
        AdvanceIn(w, st, cur, g, e, j, o, n, take);
        AdvanceLists(st, take);
        FillReaches(w, st1, cur1, n - take, g, e, j, o + take);
        var seg := st.current.value;
        FillsMore(w, g, j, o, n, cur.total.Some?, seg.data[seg.pos..seg.pos + take], Fill(w.dir, st1, cur1, n - take));
      }
    }
  }

  lemma AdvanceLists(st: State, take: nat)
    requires st.current.Some?
    ensures Advance(st, take).pending == st.pending
  {
  }

  lemma HereFacts(w: World, st: State, cur: Cursor, g: nat, e: nat, j: nat, o: nat)
    requires w.Valid() && FilledTo(w, g, e, j, o, st, cur)
    ensures w.Survives(g) && w.log.InRange(g) && w.log.files[g].epoch == e && o <= EndOf(w, g) <= ReachOf(w, g)
  {
    hide World.Valid;
    hide World.Survives;
    hide PendingAfter;
    FileFacts(w, st, g);
    ReachGrows(w, g);
  }

  lemma FillsNone(w: World, st: State, cur: Cursor, g: nat, e: nat, j: nat, o: nat)
    requires w.Valid() && FilledTo(w, g, e, j, o, st, cur) && Lists(w, st.pending, g + 1)
    requires w.Survives(g) && w.log.InRange(g) && o <= EndOf(w, g) <= ReachOf(w, g)
    ensures FillsAs(w, g, j, o, 0, cur.total.Some?, FillOut([], None, st, cur))
  {
    hide World.Valid;
    hide World.Survives;
    hide Lists;
    hide AtOffset;
  }

  lemma CrossReaches(w: World, st: State, cur: Cursor, g: nat, e: nat, j: nat, o: nat, n: nat)
    requires w.Valid() && FilledTo(w, g, e, j, o, st, cur) && Asked(w, e, j, o, n, st, cur) && n > 0 && st.Exhausted()
    requires Lists(w, st.pending, g + 1)
    ensures w.Survives(g) && w.log.InRange(g) && o == EndOf(w, g)
    ensures var c := Cross(w.dir, st, cur);
            && c.cur.total == cur.total
            && (if c.fault.None? then RunsOn(w, g) && Lists(w, c.st.pending, g + 2)
                else FillsAs(w, g, j, o, n, cur.total.Some?, FillOut([], c.fault, c.st, c.cur)))
  {
    hide Cross;
    hide World.Valid;
    hide World.Survives;
    hide AtFile;
    hide Lists;
    hide PendingAfter;
    hide NextSurvivor;
    hide Gap;
    hide Parts;
    CrossesIf(w, st, cur, g, j, o);
    CrossStopsAs(w, st, cur, g);
    ReachGrows(w, g);
    if RunsOn(w, g) {
      NextIsThere(w, g);
    } else {
      OwedIn(w, g, j, o, cur);
    }
  }

  lemma NextIsThere(w: World, g: nat)
    requires w.Survives(g + 1)
    ensures NextSurvivor(w, g) == g + 1
  {
  }

  lemma FillsAcross(w: World, g: nat, e: nat, j: nat, o: nat, n: nat, known: bool, f: FillOut)
    requires w.Valid() && w.Survives(g) && w.log.InRange(g) && w.log.files[g].epoch == e && RunsOn(w, g)
    requires o == EndOf(w, g) && n > 0 && w.log.InRange(g + 1)
    requires FillsAs(w, g + 1, j, o, n, known, f)
    ensures FillsAs(w, g, j, o, n, known, f)
  {
    hide World.Valid;
    hide World.Survives;
    hide FilledTo;
    hide StoppedIn;
    hide Lists;
    hide Gap;
    ReachGrows(w, g);
  }

  lemma FillsMore(w: World, g: nat, j: nat, o: nat, n: nat, known: bool, bytes: seq<byte>, rest: FillOut)
    requires w.Survives(g) && w.log.InRange(g) && |bytes| <= n
    requires FillsAs(w, g, j, o + |bytes|, n - |bytes|, known, rest)
    ensures FillsAs(w, g, j, o, n, known, rest.Prefixed(bytes))
  {
    hide World.Survives;
    hide FilledTo;
    hide StoppedIn;
    hide Lists;
    hide Gap;
  }

  // ------------------------------------------------------- a header gone missing

  /** Record j breaks off where file g, whole, ends; the next file alone is
      missing, and its last bytes were the data header of the next record, whose
      payload is not empty. */
  ghost predicate HeaderGone(w: World, g: nat, j: nat) {
    && w.FullSimple(g) && !w.Survives(g + 1) && w.Survives(g + 2) && w.log.SameEpoch(g) && w.log.SameEpoch(g + 1)
    && var ep := w.log.epochs[w.log.files[g].epoch];
       && j + 1 < |ep.recs| && ep.recs[j + 1].payload != []
       && ep.Start(j + 1) + ep.Head() == w.log.files[g + 2].start
  }

  /** The payload length that is settled by a hint when file x is opened. */
  ghost function Settles(w: World, hint: Option<Recovery>, x: nat): Option<u32>
    requires w.log.Valid() && x < |w.log.files|
  {
    var h := w.log.HeaderOf(x);
    if hint.None? then None
    else RecoveredPayloadLen(hint.value, w.log.files[x].id, h.format, h.remaining, h.DataLen())
  }

  /** It is settled exactly where a header is gone so, and as it was. */
  lemma HintSettles(w: World, g: nat, j: nat, known: bool)
    requires w.Valid() && w.Survives(g) && w.log.InRange(g)
    requires j < |w.log.epochs[w.log.files[g].epoch].recs|
    requires NextSurvivor(w, g) < |w.log.files| && !Parts(w, g)
    ensures w.log.Valid()
    ensures known && HeaderGone(w, g, j) ==> j + 1 < |w.log.epochs[w.log.files[g].epoch].recs|
    ensures Settles(w, HintAfter(w, g, j, known), NextSurvivor(w, g)) ==
              if known && HeaderGone(w, g, j) then Some(|w.log.epochs[w.log.files[g].epoch].recs[j + 1].payload|)
              else None
  {
    hide *;
    LogOf(w);
    var x := NextSurvivor(w, g);
    var hint := HintAfter(w, g, j, known);
    GapTold(w, g);
    NextDistance(w, g);
    NextAlike(w, g, x);
    if HeaderGone(w, g, j) {
      GoneIsGap(w, g, j);
      if known { GoneSettles(w, g, j); }
    } else {
      NotGoneSettlesNot(w, g, j, known);
    }
    if !known { NoneSettled(w, g, j, x); }
  }

  lemma NoneSettled(w: World, g: nat, j: nat, x: nat)
    requires w.Survives(g) && w.log.InRange(g) && j < |w.log.epochs[w.log.files[g].epoch].recs|
    requires w.log.Valid() && x < |w.log.files|
    ensures Settles(w, HintAfter(w, g, j, false), x) == None
  {
  }

  /** Files of one session code records alike. */
  lemma NextAlike(w: World, g: nat, x: nat)
    requires w.Valid() && w.Survives(g) && w.log.InRange(g) && x == NextSurvivor(w, g) < |w.log.files| && !Parts(w, g)
    ensures w.log.InRange(x) && w.log.Base(x) == w.log.Base(g)
    ensures CodedAlike(w.log.epochs[w.log.files[x].epoch], w.log.epochs[w.log.files[g].epoch])
  {
    hide World.Removed;
    hide Usable;
    hide NextSurvivor;
    LogOf(w);
    SessionsApart(w, g, x);
    FilesOrdered(w.log, g, x);
  }

  lemma GoneIsGap(w: World, g: nat, j: nat)
    requires w.Valid() && HeaderGone(w, g, j)
    ensures w.Survives(g) && w.log.InRange(g) && w.log.InRange(g + 1) && w.log.InRange(g + 2)
    ensures NextSurvivor(w, g) == g + 2 && !Parts(w, g) && Gap(w, g) == 1
    ensures w.log.files[g + 2].epoch == w.log.files[g].epoch < |w.log.epochs|
    ensures var ep := w.log.epochs[w.log.files[g].epoch];
            && ep.fmt == VariableSimple && |w.Left(g)| == ep.dsize && j + 1 < |ep.recs|
            && w.log.files[g + 2].start == EndOf(w, g) + ep.dsize
  {
    hide World.Valid;
    hide World.Survives;
    LogOf(w);
    OneSession(w.log, g);
    OneSession(w.log, g + 1);
  }

  lemma GoneSettles(w: World, g: nat, j: nat)
    requires w.Valid() && HeaderGone(w, g, j) && w.log.Valid()
    requires w.Survives(g) && w.log.InRange(g) && j + 1 < |w.log.epochs[w.log.files[g].epoch].recs|
    requires NextSurvivor(w, g) == g + 2 && g + 2 < |w.log.files|
    ensures Settles(w, HintAfter(w, g, j, true), g + 2) ==
              Some(|w.log.epochs[w.log.files[g].epoch].recs[j + 1].payload|)
  {
    hide World.Valid;
    hide World.Survives;
    hide Log.Valid;
    hide NextSurvivor;
    hide Gap;
    GoneIsGap(w, g, j);
    var ep := w.log.epochs[w.log.files[g].epoch];
    EpochIs(w.log, w.log.files[g].epoch);
    StartGrows(ep, j + 2, |ep.recs|);
    IndexInside(ep, w.log.files[g + 2].start, j + 1);
    RemainingSmall(ep, w.log.files[g + 2].start);
  }

  lemma EpochIs(log: Log, e: nat)
    requires log.Valid() && e < |log.epochs|
    ensures log.epochs[e].Valid()
  {
  }

  lemma NotGoneSettlesNot(w: World, g: nat, j: nat, known: bool)
    requires w.Valid() && w.Survives(g) && w.log.InRange(g)
    requires j < |w.log.epochs[w.log.files[g].epoch].recs| && !HeaderGone(w, g, j)
    requires NextSurvivor(w, g) < |w.log.files| && !Parts(w, g) && w.log.Valid()
    requires w.log.files[NextSurvivor(w, g)].ordinal - w.log.files[g].ordinal == NextSurvivor(w, g) - g
    requires w.log.InRange(NextSurvivor(w, g))
    requires var x := NextSurvivor(w, g);
             CodedAlike(w.log.epochs[w.log.files[x].epoch], w.log.epochs[w.log.files[g].epoch])
    ensures Settles(w, HintAfter(w, g, j, known), NextSurvivor(w, g)) == None
  {
    hide *;
    var x := NextSurvivor(w, g);
    var hint := HintAfter(w, g, j, known);
    if Settles(w, hint, x) != None {
      var n := SettledBy(w, g, j, known);
      OneMissing(w, g, x);
      HintOwes(w, g, j, n);
      LostHeaderRecovered(w.log, g + 2, j, hint.value, n);
      GoneIf(w, g, j, n);
    }
  }

  /** Nothing is settled but for a simple format, over a gap of one file after
      a whole one. */
  lemma SettledBy(w: World, g: nat, j: nat, known: bool) returns (n: nat)
    requires w.Valid() && w.Survives(g) && w.log.InRange(g)
    requires j < |w.log.epochs[w.log.files[g].epoch].recs|
    requires NextSurvivor(w, g) < |w.log.files| && !Parts(w, g) && w.log.Valid()
    requires w.log.InRange(NextSurvivor(w, g))
    requires var x := NextSurvivor(w, g);
             CodedAlike(w.log.epochs[w.log.files[x].epoch], w.log.epochs[w.log.files[g].epoch])
    requires Settles(w, HintAfter(w, g, j, known), NextSurvivor(w, g)) != None
    ensures NextSurvivor(w, g) == g + 2 && Gone(w, g, g + 2) && w.Survives(g + 2) && w.FullSimple(g)
    ensures w.log.files[g + 2].session == w.log.files[g].session
    ensures var hint := HintAfter(w, g, j, known);
            && hint.Some? && hint.value.owed == w.log.epochs[w.log.files[g].epoch].Start(j + 1) - EndOf(w, g)
            && var h := w.log.HeaderOf(g + 2);
               RecoveredPayloadLen(hint.value, w.log.files[g + 2].id, h.format, h.remaining, h.DataLen()) == Some(n)
  {
    hide World.Valid;
    hide World.Survives;
    hide Log.Valid;
    hide NextSurvivor;
    n := Settles(w, HintAfter(w, g, j, known), NextSurvivor(w, g)).value;
  }

  /** What is owed is owed from the start of the missing file on. */
  lemma HintOwes(w: World, g: nat, j: nat, n: nat)
    requires w.Valid() && w.FullSimple(g) && w.log.SameEpoch(g) && w.log.InRange(g) && w.log.InRange(g + 2)
    ensures w.log.Valid() && w.log.InRange(g + 1) && w.log.files[g + 1].start == EndOf(w, g)
    ensures w.log.files[g + 1].epoch == w.log.files[g].epoch && g + 2 < |w.log.files|
  {
    hide World.Survives;
    LogOf(w);
  }

  lemma GoneIf(w: World, g: nat, j: nat, n: nat)
    requires w.FullSimple(g) && w.log.SameEpoch(g) && w.log.SameEpoch(g + 1) && w.Survives(g + 2) && Gone(w, g, g + 2)
    requires n > 0
    requires var ep := w.log.epochs[w.log.files[g + 2].epoch];
             && j + 1 < |ep.recs| && |ep.recs[j + 1].payload| == n
             && ep.Start(j + 1) + ep.Head() == w.log.files[g + 2].start
    ensures HeaderGone(w, g, j)
  {
    hide World.Survives;
  }
}
