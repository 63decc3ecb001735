/** What a whole run over a damaged log reads, exactly: which records, how much of
    each, and what is reported where one breaks off. Every record whose first
    byte is still there is read, once, as far as it can be reached; so is every
    record that lost nothing before its payload but a data header, with the one
    file that held it; and nothing else is (tcslog/src/read.rs). */
module Exactness {
  import opened Bytes
  import opened Format
  import opened Names
  import opened ReadSpec
  import opened ReadEnds
  import opened Layout
  import opened Damage
  import opened Standing
  import opened Filling
  import opened LossCounts
  import opened Reach
  import opened Course

  // ------------------------------------------------------ a run's course

  /** A reader that goes from spot to spot finds this, and then the end. */
  ghost predicate Follows(w: World, spots: seq<Spot>, trace: seq<Attempt>)
    requires w.Valid()
  {
    && |spots| == |trace| + 1
    && (forall i :: 0 <= i < |spots| ==> Fits(w, spots[i]))
    && (forall i :: 0 <= i < |trace| ==> Next(w, spots[i]) == (trace[i], spots[i + 1]) && trace[i] != Nothing(Eof))
    && Next(w, spots[|trace|]).0 == Nothing(Eof)
  }

  lemma {:induction false} RunsItsCourse(w: World, st: State, s: Spot) returns (spots: seq<Spot>)
    requires w.Valid() && Sound(w.dir, st) && StandsAt(w, st, s) && Fits(w, s)
    ensures spots != [] && spots[0] == s && Follows(w, spots, Trace(w.dir, st))
    decreases Potential(w.dir, st)
  {
    hide World.Valid;
    hide Read;
    hide Next;
    hide Fits;
    hide StandsAt;
    hide Potential;
    ReadPays(w.dir, st);
    ReadIsNext(w, st, s);
    NextFitsOn(w, s);
    var (att, st1) := Read(w.dir, st);
    if att == Nothing(Eof) {
      spots := [s];
    } else {
      var rest := RunsItsCourse(w, st1, Next(w, s).1);
      spots := [s] + rest;
    }
  }

  const START: Spot := Past(-1, false, None)

  /** A fresh reader is before the first file. */
  lemma StartStands(w: World, ids: seq<SegId>)
    requires w.Valid() && Sorted(ids) && forall id :: id in ids <==> id in w.dir
    ensures StandsAt(w, Initial(ids, false), START) && Fits(w, START) && Sound(w.dir, Initial(ids, false))
  {
    hide Usable;
    hide NextSurvivor;
  }

  // ---------------------------------------------------- what is read of a log

  /** The read that is made at a spot, if the next one comes to a record. */
  ghost function ReadMade(w: World, s: Spot): Option<Spot>
    requires w.Valid() && Fits(w, s)
  {
    match s
    case At(g, p) =>
      HomeInFile(w, g, p);
      if (w.log.epochs[p.e].Start(p.j) == EndOf(w, g) && LastName(w, g)) || AtEdge(w, HomeOf(w, g, p)) then None
      else Some(HomeOf(w, g, p))
    case Past(g, within, regained) =>
      var hit := Sought(w, g, within, 0, regained);
      if hit.Begins? && hit.late == 0 then Some(At(hit.x, hit.p)) else None
  }

  /** The record's first byte is in file h. */
  ghost predicate BeginsIn(w: World, h: nat, p: Place) {
    InFile(w, h, p) && w.log.files[h].start <= w.log.epochs[p.e].Start(p.j) < EndOf(w, h)
  }

  /** Record p is read from file h on: its first byte is there; or the record
      before it, read from file k on, breaks off past its data header where all
      that is gone is the file that ended with the data header of p. */
  ghost predicate IsRead(w: World, h: nat, p: Place)
    decreases h
  {
    BeginsIn(w, h, p) || exists k: nat :: k < h && IsRead(w, k, Before(p)) && Regains(w, k, h, p)
  }

  function Before(p: Place): Place { if p.j > 0 then Place(p.e, p.j - 1) else p }

  ghost predicate Regains(w: World, k: nat, h: nat, p: Place) {
    && p.j > 0 && h >= 2 && InFile(w, k, Before(p)) && Furthest(w, k) == h - 2 && HeaderGone(w, h - 2, p.j - 1)
    && InFile(w, h, p) && w.log.epochs[p.e].Start(p.j - 1) + w.log.epochs[p.e].Head() <= EndOf(w, h - 2)
  }

  /** It begins in the file that holds its first byte. */
  lemma HoldsBegins(w: World, h: nat, p: Place)
    requires w.Valid() && w.IsPlace(p)
    ensures w.Holds(h, p.e, w.log.epochs[p.e].Start(p.j)) <==> BeginsIn(w, h, p)
  {
    hide World.Valid;
    hide World.Survives;
    if w.Survives(h) { LeftShort(w, h); }
  }

  // ------------------------------------------------------------ still to come

  /** A record that begins in file h is still to come. */
  ghost predicate Coming(w: World, s: Spot, h: nat, p: Place) {
    && BeginsIn(w, h, p)
    && match s
       case At(g, q) => h > g || (h == g && Le(q, p))
       case Past(g, _, _) => h > g
  }

  /** Files up to the one where offset o is reached end before it. */
  lemma {:induction false} EndsBefore(w: World, g: nat, o: nat, h: nat)
    requires w.Valid() && w.Survives(g) && g <= h < FileOf(w, g, o)
    ensures w.Survives(h) && EndOf(w, h) < o
    decreases |w.log.files| - g
  {
    hide World.Valid;
    hide World.Survives;
    if g < h { EndsBefore(w, g + 1, o, h); }
  }

  /** What is read in one go lies in one epoch, and ends where the reach does. */
  lemma {:induction false} WithinReach(w: World, g: nat, h: nat)
    requires w.Valid() && w.Survives(g) && g <= h <= Furthest(w, g)
    ensures w.Survives(h) && EndOf(w, h) <= ReachOf(w, g)
    ensures h < |w.log.files| && w.log.files[h].epoch == w.log.files[g].epoch
    decreases |w.log.files| - g
  {
    hide World.Valid;
    hide World.Survives;
    ReachGrows(w, g);
    GapKnown(w, g);
    if g < h { WithinReach(w, g + 1, h); }
  }

  /** A record that begins after another one does starts where it ends, or later. */
  lemma StartsLater(w: World, g: nat, q: Place, h: nat, p: Place)
    requires w.Valid() && InFile(w, g, q) && BeginsIn(w, h, p) && (h > g || (h == g && Less(q, p)))
    requires w.log.epochs[q.e].Start(q.j) < EndOf(w, g)
    ensures w.log.files[h].epoch >= q.e
    ensures p.e == q.e ==> p.j > q.j && w.log.epochs[p.e].Start(p.j) >= w.log.epochs[p.e].Start(q.j + 1)
  {
    hide World.Valid;
    hide World.Survives;
    LogOf(w);
    LeftShort(w, g);
    if h > g { FilesOrdered(w.log, g, h); }
    if p.e == q.e {
      if p.j <= q.j { StartGrows(w.log.epochs[p.e], p.j, q.j); }
      StartGrows(w.log.epochs[p.e], q.j + 1, p.j);
    }
  }

  /** A read passes over nothing. */
  lemma AfterRead(w: World, g: nat, q: Place, h: nat, p: Place)
    requires w.Valid() && InFile(w, g, q) && BeginsIn(w, h, p) && (h > g || (h == g && Less(q, p)))
    requires w.log.epochs[q.e].Start(q.j) < EndOf(w, g)
    ensures Coming(w, ReadOf(w, g, q).1, h, p)
  {
    hide World.Valid;
    hide World.Survives;
    hide Furthest;
    hide FileOf;
    hide HeaderGone;
    hide Gap;
    LogOf(w);
    StartsLater(w, g, q, h, p);
    var end := w.log.epochs[q.e].Start(q.j + 1);
    if end <= ReachOf(w, g) {
      var f := FileOf(w, g, end);
      OnTheWay(w, g, end);
      if h < f {
        EndsBefore(w, g, end, h);
        InOrder(w, h, f);
      }
    } else {
      var f := Furthest(w, g);
      if h <= f { WithinReach(w, g, h); }
    }
  }

  lemma InOrder(w: World, g: nat, h: nat)
    requires w.Valid() && g < h < |w.log.files|
    ensures w.log.files[g].epoch <= w.log.files[h].epoch
  {
    LogOf(w);
    FilesOrdered(w.log, g, h);
  }

  lemma {:induction false} HomeComes(w: World, g: nat, q: Place, h: nat, p: Place)
    requires w.Valid() && Fits(w, At(g, q)) && Coming(w, At(g, q), h, p)
    ensures Coming(w, HomeOf(w, g, q), h, p)
    decreases |w.log.files| - g
  {
    hide World.Valid;
    hide World.Survives;
    hide HomeOf;
    hide Adjoins;
    HomeForm(w, g, q);
    if w.log.epochs[q.e].Start(q.j) == EndOf(w, g) && Adjoins(w, g) {
      JoinComes(w, g, q, h, p);
      HomeComes(w, g + 1, NextPlace(w, g, q), h, p);
    }
  }

  lemma JoinComes(w: World, g: nat, q: Place, h: nat, p: Place)
    requires w.Valid() && Fits(w, At(g, q)) && Coming(w, At(g, q), h, p)
    requires w.log.epochs[q.e].Start(q.j) == EndOf(w, g) && Adjoins(w, g)
    ensures Coming(w, At(g + 1, NextPlace(w, g, q)), h, p)
  {
    hide World.Valid;
    hide World.Survives;
    LogOf(w);
    if h == g {
      StartGrows(w.log.epochs[q.e], q.j, p.j);
    } else if h == g + 1 && w.log.SameEpoch(g) && p.j < q.j {
      StartGrows(w.log.epochs[q.e], p.j, q.j);
    }
  }

  /** At the edge of a file nothing more begins in it. */
  lemma EdgeComes(w: World, g: nat, q: Place, h: nat, p: Place)
    requires Fits(w, At(g, q)) && Coming(w, At(g, q), h, p) && w.log.epochs[q.e].Start(q.j) == EndOf(w, g)
    ensures h > g
  {
    hide World.Survives;
    if h == g { StartGrows(w.log.epochs[q.e], q.j, p.j); }
  }

  lemma {:induction false} SoughtComes(w: World, g: int, within: bool, late: nat, regained: Option<nat>,
                                       h: nat, p: Place)
    requires w.Valid() && Fits(w, Past(g, within, regained)) && BeginsIn(w, h, p) && h > g
    ensures var hit := Sought(w, g, within, late, regained);
            && !hit.Nowhere?
            && (hit.SessionOver? ==> h > hit.g)
            && (hit.Begins? ==>
                  && InFile(w, hit.x, hit.p) && (h > hit.x || (h == hit.x && Le(hit.p, p)))
                  && w.log.epochs[hit.p.e].Start(hit.p.j) < EndOf(w, hit.x)
                  && (regained.Some? ==> hit.p != p))
    decreases |w.log.files| - g
  {
    hide World.Valid;
    hide World.Survives;
    hide NextSurvivor;
    hide Sought;
    SoughtForm(w, g, within, late, regained);
    SoughtFits(w, g, within, late, regained);
    NextWithin(w, g);
    NotPassed(w, g, h, p);
    var x := NextSurvivor(w, g);
    if x < |w.log.files| && !(within && Parts(w, g)) {
      var f := w.log.files[x];
      if regained.Some? {
        RegainedFirst(w, g, regained.value, h, p);
      } else if w.log.epochs[f.epoch].Remaining(f.start) >= |w.Left(x)| {
        NoneBegins(w, x, p);
        SoughtComes(w, x, true, if within then late else f.ordinal, None, h, p);
      } else if h == x {
        FirstThere(w, x, p);
      }
    }
  }

  lemma NotPassed(w: World, g: int, h: nat, p: Place)
    requires -1 <= g < h && BeginsIn(w, h, p)
    ensures NextSurvivor(w, g) <= h < |w.log.files|
  {
    assert w.Survives(h);
  }

  /** A file that only holds the tail of a record has no record beginning in it. */
  lemma NoneBegins(w: World, x: nat, p: Place)
    requires w.Valid() && w.Survives(x) && w.log.InRange(x)
    requires var f := w.log.files[x]; w.log.epochs[f.epoch].Remaining(f.start) >= |w.Left(x)|
    ensures !BeginsIn(w, x, p)
  {
    hide World.Valid;
    hide World.Survives;
    if BeginsIn(w, x, p) { FirstThere(w, x, p); }
  }

  /** The first boundary in a file is the first place where a record begins. */
  lemma FirstThere(w: World, x: nat, p: Place)
    requires w.Valid() && BeginsIn(w, x, p)
    ensures w.log.InRange(x)
    ensures var f := w.log.files[x];
            var ep := w.log.epochs[f.epoch];
            ep.IndexAt(f.start) <= p.j && f.start + ep.Remaining(f.start) <= ep.Start(p.j)
  {
    hide World.Valid;
    hide World.Survives;
    LogOf(w);
    var f := w.log.files[x];
    var ep := w.log.epochs[f.epoch];
    var i := ep.IndexAt(f.start);
    if i <= p.j { StartGrows(ep, i, p.j); }
  }

  lemma RegainedFirst(w: World, g: int, j: nat, h: nat, p: Place)
    requires w.Valid() && Fits(w, Past(g, true, Some(j))) && BeginsIn(w, h, p) && h >= NextSurvivor(w, g) && g >= 0
    ensures var x := NextSurvivor(w, g);
            && x < |w.log.files|
            && var q := Place(w.log.files[x].epoch, j);
               && q != p && (h == x ==> Le(q, p))
               && w.Survives(x) && q.e < |w.log.epochs| && q.j < |w.log.epochs[q.e].recs|
               && w.log.epochs[q.e].Start(q.j) < EndOf(w, x)
  {
    hide World.Valid;
    hide World.Survives;
    hide NextSurvivor;
    FitsGone(w, g, j);
    GonePayload(w, g, j - 1);
    GoneIsGap(w, g, j - 1);
    InEpoch(w, g + 2, Place(w.log.files[g].epoch, j));
    LogOf(w);
    var ep := w.log.epochs[w.log.files[g].epoch];
    SimpleHead(ep);
    if p.e == w.log.files[g].epoch {
      if h > g + 2 { FilesOrdered(w.log, g + 2, h); }
      if p.j <= j { StartGrows(ep, p.j, j); }
    }
  }

  // -------------------------------------------------------- one read at a time

  /** The next read is the one that is made at the spot, if any; it is of a
      record that begins there, or is regained there. */
  lemma MadeIs(w: World, s: Spot)
    requires w.Valid() && Fits(w, s)
    ensures var made := ReadMade(w, s);
            made.Some? ==>
              && made.value.At? && InFile(w, made.value.g, made.value.p)
              && Next(w, s) == ReadOf(w, made.value.g, made.value.p)
    ensures var made := ReadMade(w, s);
            made.Some? && !(s.Past? && s.regained.Some?) ==> BeginsIn(w, made.value.g, made.value.p)
    ensures var att := Next(w, s).0;
            ReadMade(w, s).None? ==>
              att.Nothing? || (att.got == [] && att.meta.MetaFixed? && att.cause.Some? && att.want > 0)
  {
    hide *;
    NextForm(w, s);
    MadeForm(w, s);
    match s
    case At(g, p) =>
      NextAtForm(w, g, p);
      MadeAt(w, g, p);
    case Past(g, within, regained) =>
      NextPastForm(w, g, within, regained);
      SoughtFits(w, g, within, 0, regained);
      MadeBetween(w, g, within, regained);
  }

  lemma MadeForm(w: World, s: Spot)
    requires w.Valid() && Fits(w, s)
    ensures s.At? ==> s.p.e < |w.log.epochs| && w.Survives(s.g)
    ensures ReadMade(w, s) ==
      if s.At? then
        (if (w.log.epochs[s.p.e].Start(s.p.j) == EndOf(w, s.g) && LastName(w, s.g)) || AtEdge(w, HomeOf(w, s.g, s.p))
         then None else Some(HomeOf(w, s.g, s.p)))
      else
        var hit := Sought(w, s.upto, s.within, 0, s.regained);
        if hit.Begins? && hit.late == 0 then Some(At(hit.x, hit.p)) else None
  {
    hide World.Valid;
    hide World.Survives;
    hide HomeOf;
    hide Sought;
    hide AtEdge;
    hide LastName;
    if s.At? { HomeInFile(w, s.g, s.p); }
  }

  lemma MadeAt(w: World, g: nat, p: Place)
    requires w.Valid() && Fits(w, At(g, p))
    ensures var home := HomeOf(w, g, p);
            && home.At? && home.p.e < |w.log.epochs| && home.g < |w.log.files|
            && (!AtEdge(w, home) ==> BeginsIn(w, home.g, home.p))
            && forall fmt :: fmt == w.log.epochs[home.p.e].fmt ==>
                 var att := EdgeOf(w, home.g, fmt).0;
                 att.Nothing? || (att.got == [] && att.meta.MetaFixed? && att.cause.Some? && att.want > 0)
  {
    hide World.Valid;
    hide World.Survives;
    hide HomeOf;
    hide Parts;
    hide Gap;
    HomeInFile(w, g, p);
    LogOf(w);
    EpochIs(w.log, HomeOf(w, g, p).p.e);
  }

  lemma MadeBetween(w: World, g: int, within: bool, regained: Option<nat>)
    requires w.Valid() && Fits(w, Past(g, within, regained))
    ensures var hit := Sought(w, g, within, 0, regained);
            hit.Begins? && regained.None? ==> BeginsIn(w, hit.x, hit.p)
  {
    hide World.Valid;
    hide World.Survives;
    hide Sought;
    SoughtFits(w, g, within, 0, regained);
  }

  /** A record to come is the one read next, or still to come after that. */
  lemma ReadOrComing(w: World, s: Spot, h: nat, p: Place)
    requires w.Valid() && Fits(w, s) && Coming(w, s, h, p)
    ensures Next(w, s).0 != Nothing(Eof)
    ensures ReadMade(w, s) == Some(At(h, p)) || Coming(w, Next(w, s).1, h, p)
  {
    hide *;
    NextForm(w, s);
    MadeForm(w, s);
    ComesBegins(w, s, h, p);
    match s
    case At(g, q) => AtOrComing(w, g, q, h, p);
    case Past(g, within, regained) => PastOrComing(w, g, within, regained, h, p);
  }

  lemma ComesBegins(w: World, s: Spot, h: nat, p: Place)
    requires Coming(w, s, h, p)
    ensures BeginsIn(w, h, p)
  {
  }

  lemma ComesAfter(w: World, g: nat, b: bool, regained: Option<nat>, h: nat, p: Place)
    requires BeginsIn(w, h, p) && h > g
    ensures Coming(w, Past(g, b, regained), h, p)
  {
    hide BeginsIn;
  }

  lemma ComesWhen(w: World, g: nat, q: Place, h: nat, p: Place)
    requires BeginsIn(w, h, p)
    ensures Coming(w, At(g, q), h, p) <==> h > g || (h == g && Le(q, p))
  {
    hide BeginsIn;
  }

  lemma NotTheSame(g: nat, q: Place, h: nat, p: Place)
    requires h > g || (h == g && Le(q, p))
    ensures At(g, q) == At(h, p) || h > g || (h == g && Less(q, p))
  {
  }

  lemma AtOrComing(w: World, g: nat, q: Place, h: nat, p: Place)
    requires w.Valid() && Fits(w, At(g, q)) && Coming(w, At(g, q), h, p) && BeginsIn(w, h, p)
    ensures Next(w, At(g, q)).0 != Nothing(Eof)
    ensures ReadMade(w, At(g, q)) == Some(At(h, p)) || Coming(w, Next(w, At(g, q)).1, h, p)
  {
    hide *;
    NextForm(w, At(g, q));
    MadeForm(w, At(g, q));
    NextAtForm(w, g, q);
    HomeComes(w, g, q, h, p);
    var home := HomeOf(w, g, q);
    HomeFits(w, g, q);
    SpotIs(home);
    MadeAt(w, g, q);
    NamedAfter(w, g, q, h, p);
    EdgeWhen(w, home);
    ComesWhen(w, home.g, home.p, h, p);
    if AtEdge(w, home) {
      EdgeComes(w, home.g, home.p, h, p);
      EdgeNotEof(w, home.g, w.log.epochs[home.p.e].fmt);
      ComesAfter(w, home.g, !Parts(w, home.g), None, h, p);
    } else {
      BeginsEnds(w, home.g, home.p);
      NotTheSame(home.g, home.p, h, p);
      ReadNotEof(w, home.g, home.p);
      if home != At(h, p) { AfterRead(w, home.g, home.p, h, p); }
    }
  }

  lemma BeginsEnds(w: World, g: nat, q: Place)
    requires BeginsIn(w, g, q)
    ensures InFile(w, g, q) && w.log.epochs[q.e].Start(q.j) < EndOf(w, g)
  {
    hide World.Survives;
  }

  lemma NamedAfter(w: World, g: nat, q: Place, h: nat, p: Place)
    requires Fits(w, At(g, q)) && Coming(w, At(g, q), h, p)
    ensures w.log.epochs[q.e].Start(q.j) == EndOf(w, g) ==> !LastName(w, g)
  {
    hide Usable;
    if w.log.epochs[q.e].Start(q.j) == EndOf(w, g) { EdgeComes(w, g, q, h, p); }
  }

  lemma EdgeNotEof(w: World, g: nat, fmt: Format)
    requires g < |w.log.files|
    ensures EdgeOf(w, g, fmt).0 != Nothing(Eof) && EdgeOf(w, g, fmt).1 == Past(g, !Parts(w, g), None)
  {
    hide Parts;
    hide Gap;
  }

  lemma ReadNotEof(w: World, g: nat, p: Place)
    requires InFile(w, g, p)
    ensures ReadOf(w, g, p).0 != Nothing(Eof)
  {
    hide World.Survives;
    hide Gap;
    hide HeaderGone;
    hide Furthest;
    hide FileOf;
  }

  lemma PastOrComing(w: World, g: int, within: bool, regained: Option<nat>, h: nat, p: Place)
    requires w.Valid() && Fits(w, Past(g, within, regained)) && Coming(w, Past(g, within, regained), h, p)
    requires BeginsIn(w, h, p)
    ensures var s := Past(g, within, regained);
            Next(w, s).0 != Nothing(Eof) && (ReadMade(w, s) == Some(At(h, p)) || Coming(w, Next(w, s).1, h, p))
  {
    hide *;
    var s := Past(g, within, regained);
    NextForm(w, s);
    MadeForm(w, s);
    NextPastForm(w, g, within, regained);
    ComesPast(w, s, h, p);
    SoughtComes(w, g, within, 0, regained, h, p);
    var hit := Sought(w, g, within, 0, regained);
    SoughtFits(w, g, within, 0, regained);
    if hit.SessionOver? {
      ComesAfter(w, hit.g, false, None, h, p);
    } else {
      ComesWhen(w, hit.x, hit.p, h, p);
      NotTheSame(hit.x, hit.p, h, p);
      ReadNotEof(w, hit.x, hit.p);
      if hit.late == 0 && At(hit.x, hit.p) != At(h, p) { AfterRead(w, hit.x, hit.p, h, p); }
    }
  }

  lemma ComesPast(w: World, s: Spot, h: nat, p: Place)
    requires s.Past? && Coming(w, s, h, p)
    ensures h > s.upto
  {
    hide BeginsIn;
  }

  // ------------------------------------------------------------ the whole run

  /** Read i of the run is of the record at p, from file h on. */
  ghost predicate MadeOf(w: World, spots: seq<Spot>, i: nat, h: nat, p: Place)
    requires w.Valid()
  {
    i + 1 < |spots| && Fits(w, spots[i]) && ReadMade(w, spots[i]) == Some(At(h, p))
  }

  /** A record to come is read in the end. */
  lemma {:induction false} ReadInTheEnd(w: World, spots: seq<Spot>, trace: seq<Attempt>, i: nat, h: nat, p: Place)
    returns (k: nat)
    requires w.Valid() && Follows(w, spots, trace) && i < |spots| && Coming(w, spots[i], h, p)
    ensures i <= k && MadeOf(w, spots, k, h, p)
    decreases |spots| - i
  {
    hide World.Valid;
    hide Next;
    hide Fits;
    hide Coming;
    hide ReadMade;
    ReadOrComing(w, spots[i], h, p);
    k := i;
    if ReadMade(w, spots[i]) != Some(At(h, p)) { k := ReadInTheEnd(w, spots, trace, i + 1, h, p); }
  }

  /** A read that breaks off before a lost header leads on to the record after
      it. */
  lemma RegainedNext(w: World, spots: seq<Spot>, trace: seq<Attempt>, i: nat, k: nat, h: nat, p: Place)
    requires w.Valid() && Follows(w, spots, trace) && MadeOf(w, spots, i, k, Before(p)) && Regains(w, k, h, p)
    ensures MadeOf(w, spots, i + 1, h, p)
  {
    hide *;
    MadeNow(w, spots, i, k, Before(p));
    FollowedBy(w, spots, trace, i);
    MadeIs(w, spots[i]);
    BreaksOff(w, k, h, p);
    RegainFits(w, h, p);
    RegainedThere(w, h - 2, p);
    var s := Past(h - 2, true, Some(p.j));
    NextForm(w, s);
    MadeForm(w, s);
    NextPastForm(w, h - 2, true, Some(p.j));
    FollowedOn(w, spots, trace, i + 1);
    ReadNotEof(w, h, p);
    MadeWhen(w, spots, i + 1, h, p);
  }

  lemma FollowedBy(w: World, spots: seq<Spot>, trace: seq<Attempt>, i: nat)
    requires w.Valid() && Follows(w, spots, trace) && i + 1 < |spots|
    ensures |spots| == |trace| + 1 && Fits(w, spots[i]) && Next(w, spots[i]) == (trace[i], spots[i + 1])
    ensures Fits(w, spots[i + 1])
  {
    hide World.Valid;
    hide Next;
    hide Fits;
  }

  lemma FollowsMore(w: World, spots: seq<Spot>, trace: seq<Attempt>, i: nat)
    requires w.Valid() && Follows(w, spots, trace) && i + 1 < |spots|
    ensures |spots| == |trace| + 1 && trace[i] != Nothing(Eof)
  {
    hide World.Valid;
    hide Next;
    hide Fits;
  }

  lemma FollowedOn(w: World, spots: seq<Spot>, trace: seq<Attempt>, i: nat)
    requires w.Valid() && Follows(w, spots, trace) && i < |spots| && Fits(w, spots[i])
    ensures Next(w, spots[i]).0 != Nothing(Eof) ==> i + 1 < |spots|
  {
    hide World.Valid;
    hide Next;
    hide Fits;
  }

  lemma MadeNow(w: World, spots: seq<Spot>, i: nat, h: nat, p: Place)
    requires w.Valid() && MadeOf(w, spots, i, h, p)
    ensures i + 1 < |spots| && Fits(w, spots[i]) && ReadMade(w, spots[i]) == Some(At(h, p))
  {
    hide World.Valid;
    hide Fits;
    hide ReadMade;
  }

  lemma MadeWhen(w: World, spots: seq<Spot>, i: nat, h: nat, p: Place)
    requires w.Valid() && i + 1 < |spots| && Fits(w, spots[i]) && ReadMade(w, spots[i]) == Some(At(h, p))
    ensures MadeOf(w, spots, i, h, p)
  {
    hide World.Valid;
    hide Fits;
    hide ReadMade;
  }

  lemma BreaksOff(w: World, k: nat, h: nat, p: Place)
    requires w.Valid() && Regains(w, k, h, p)
    ensures InFile(w, k, Before(p)) && h >= 2 && p.j > 0 && HeaderGone(w, h - 2, p.j - 1) && InFile(w, h, p)
    ensures ReadOf(w, k, Before(p)).1 == Past(h - 2, true, Some(p.j))
  {
    hide World.Valid;
    hide World.Survives;
    hide Furthest;
    hide FileOf;
    hide Gap;
    GoneIsGap(w, h - 2, p.j - 1);
    LogOf(w);
    EpochIs(w.log, w.log.files[h - 2].epoch);
    WithinReach(w, k, h - 2);
    InEpoch(w, k, Before(p));
    InEpoch(w, h, p);
  }

  lemma RegainFits(w: World, h: nat, p: Place)
    requires w.Valid() && h >= 2 && p.j > 0 && HeaderGone(w, h - 2, p.j - 1)
    ensures Fits(w, Past(h - 2, true, Some(p.j)))
  {
    hide World.Valid;
    hide World.Survives;
    hide HeaderGone;
    GoneIsGap(w, h - 2, p.j - 1);
  }

  /** The search after it comes straight to the record. */
  lemma RegainedThere(w: World, g: nat, p: Place)
    requires w.Valid() && Fits(w, Past(g, true, Some(p.j)))
    ensures InFile(w, g + 2, p) ==> Sought(w, g, true, 0, Some(p.j)) == Begins(g + 2, p, 0)
  {
    hide *;
    FitsGone(w, g, p.j);
    GoneIsGap(w, g, p.j - 1);
    InEpochOf(w, g, p.j - 1);
    SoughtForm(w, g, true, 0, Some(p.j));
    if InFile(w, g + 2, p) { InEpoch(w, g + 2, p); }
  }

  lemma InEpochOf(w: World, g: nat, j: nat)
    requires HeaderGone(w, g, j)
    ensures w.Survives(g + 2) && g + 2 < |w.log.files|
  {
    hide Usable;
  }

  /** Every record that is to be read is read. */
  lemma {:induction false} AllRead(w: World, spots: seq<Spot>, trace: seq<Attempt>, h: nat, p: Place) returns (i: nat)
    requires w.Valid() && Follows(w, spots, trace) && spots[0] == START && IsRead(w, h, p)
    ensures MadeOf(w, spots, i, h, p)
    decreases h
  {
    hide *;
    if BeginsIn(w, h, p) {
      StartComes(w, h, p);
      FirstSpot(w, spots, trace);
      i := ReadInTheEnd(w, spots, trace, 0, h, p);
    } else {
      var k := RegainedFrom(w, h, p);
      var before := AllRead(w, spots, trace, k, Before(p));
      RegainedNext(w, spots, trace, before, k, h, p);
      i := before + 1;
    }
  }

  lemma FirstSpot(w: World, spots: seq<Spot>, trace: seq<Attempt>)
    requires w.Valid() && Follows(w, spots, trace)
    ensures |spots| > 0 && Fits(w, spots[0])
  {
    hide World.Valid;
    hide Next;
    hide Fits;
  }

  lemma StartComes(w: World, h: nat, p: Place)
    requires BeginsIn(w, h, p)
    ensures Coming(w, START, h, p)
  {
  }

  lemma RegainedFrom(w: World, h: nat, p: Place) returns (k: nat)
    requires IsRead(w, h, p) && !BeginsIn(w, h, p)
    ensures k < h && IsRead(w, k, Before(p)) && Regains(w, k, h, p)
  {
    hide BeginsIn;
    hide Regains;
    k :| k < h && IsRead(w, k, Before(p)) && Regains(w, k, h, p);
  }

  /** Nothing else is: a record is read because its first byte is there, or
      because only its data header is lost to a record that was read. */
  lemma {:induction false} OnlyRead(w: World, spots: seq<Spot>, trace: seq<Attempt>, i: nat, h: nat, p: Place)
    requires w.Valid() && Follows(w, spots, trace) && spots[0] == START && MadeOf(w, spots, i, h, p)
    ensures IsRead(w, h, p)
    decreases i
  {
    hide *;
    MadeNow(w, spots, i, h, p);
    MadeIs(w, spots[i]);
    FirstSpot(w, spots, trace);
    StartKnows();
    if spots[i].Past? && spots[i].regained.Some? {
      var k := RegainedOf(w, spots, trace, i, h, p);
      OnlyRead(w, spots, trace, i - 1, k, Before(p));
      ReadWhen(w, k, h, p);
    } else {
      BeginsRead(w, h, p);
    }
  }

  lemma StartKnows()
    ensures START.regained.None?
  {
  }

  lemma BeginsRead(w: World, h: nat, p: Place)
    requires BeginsIn(w, h, p)
    ensures IsRead(w, h, p)
  {
  }

  lemma ReadWhen(w: World, k: nat, h: nat, p: Place)
    requires k < h && IsRead(w, k, Before(p)) && Regains(w, k, h, p)
    ensures IsRead(w, h, p)
  {
    hide BeginsIn;
    hide Regains;
  }

  /** A reader that knows of a lost header has just broken off before it. */
  lemma RegainedOf(w: World, spots: seq<Spot>, trace: seq<Attempt>, i: nat, h: nat, p: Place) returns (k: nat)
    requires w.Valid() && Follows(w, spots, trace) && MadeOf(w, spots, i, h, p) && 0 < i < |spots|
    requires spots[i].Past? && spots[i].regained.Some?
    ensures k < h && MadeOf(w, spots, i - 1, k, Before(p)) && Regains(w, k, h, p)
  {
    hide *;
    MadeNow(w, spots, i, h, p);
    FollowedBy(w, spots, trace, i - 1);
    FollowsMore(w, spots, trace, i - 1);
    var made := RegainsOnly(w, spots[i - 1]);
    k := made.g;
    MadeWhen(w, spots, i - 1, k, made.p);
    MadeIs(w, spots[i - 1]);
    MadeForm(w, spots[i]);
    LeadsTo(w, k, made.p, spots[i]);
    RegainedPlace(w, spots[i], h, p);
    RegainsWhen(w, k, made.p, h, p);
  }

  /** Only a read that breaks off leaves a reader that knows of a lost header. */
  lemma RegainsOnly(w: World, s: Spot) returns (made: Spot)
    requires w.Valid() && Fits(w, s) && Next(w, s).1.Past? && Next(w, s).1.regained.Some?
    requires Next(w, s).0 != Nothing(Eof)
    ensures made.At? && made == At(made.g, made.p) && ReadMade(w, s) == Some(made)
  {
    hide *;
    NextForm(w, s);
    MadeForm(w, s);
    MadeIs(w, s);
    if s.At? {
      NextAtForm(w, s.g, s.p);
      EdgeNotEof(w, HomeOf(w, s.g, s.p).g, w.log.epochs[HomeOf(w, s.g, s.p).p.e].fmt);
      made := HomeOf(w, s.g, s.p);
    } else {
      NextPastForm(w, s.upto, s.within, s.regained);
      var hit := Sought(w, s.upto, s.within, 0, s.regained);
      made := if hit.Begins? then At(hit.x, hit.p) else s;
    }
  }

  lemma LeadsTo(w: World, k: nat, q: Place, s: Spot)
    requires w.Valid() && InFile(w, k, q) && ReadOf(w, k, q).1 == s && s.Past? && s.regained.Some?
    ensures var g := Furthest(w, k);
            && w.Survives(k) && s == Past(g, true, Some(q.j + 1)) && HeaderGone(w, g, q.j)
            && w.log.epochs[q.e].Start(q.j) + w.log.epochs[q.e].Head() <= EndOf(w, g)
            && w.log.files[g].epoch == q.e
  {
    hide World.Valid;
    hide World.Survives;
    hide Furthest;
    hide FileOf;
    hide Gap;
    hide HeaderGone;
    WithinReach(w, k, Furthest(w, k));
    InEpoch(w, k, q);
  }

  lemma RegainedPlace(w: World, s: Spot, h: nat, p: Place)
    requires w.Valid() && Fits(w, s) && s.Past? && s.regained.Some? && ReadMade(w, s) == Some(At(h, p))
    ensures s.upto >= 0 && h == s.upto + 2 && p == Place(w.log.files[s.upto].epoch, s.regained.value) && InFile(w, h, p)
  {
    hide *;
    MadeForm(w, s);
    MadeIs(w, s);
    SoughtForm(w, s.upto, s.within, 0, s.regained);
    RegainedLen(w, s.upto, s.within, s.regained);
    FitsGone(w, s.upto, s.regained.value);
    GoneIsGap(w, s.upto, s.regained.value - 1);
  }

  lemma RegainsWhen(w: World, k: nat, q: Place, h: nat, p: Place)
    requires InFile(w, k, q) && InFile(w, h, p)
    requires var g := Furthest(w, k);
             && h == g + 2 && p == Place(q.e, q.j + 1) && HeaderGone(w, g, q.j)
             && w.log.epochs[q.e].Start(q.j) + w.log.epochs[q.e].Head() <= EndOf(w, g)
    ensures k < h && q == Before(p) && Regains(w, k, h, p)
  {
    hide World.Survives;
    hide HeaderGone;
  }

  // -------------------------------------------------------- in written order

  /** All that is read from here on comes after the record at p. */
  ghost predicate AllLater(w: World, s: Spot, p: Place) {
    match s
    case At(_, q) => Less(p, q)
    case Past(g, _, regained) =>
      && (forall h: nat, q: Place :: h > g && BeginsIn(w, h, q) ==> Less(p, q))
      && (regained.Some? && 0 <= g < |w.log.files| ==> Less(p, Place(w.log.files[g].epoch, regained.value)))
  }

  lemma {:induction false} HomeLater(w: World, g: nat, q: Place)
    requires w.Valid() && Fits(w, At(g, q))
    ensures Le(q, HomeOf(w, g, q).p)
    decreases |w.log.files| - g
  {
    hide World.Valid;
    hide World.Survives;
    hide HomeOf;
    hide Adjoins;
    HomeForm(w, g, q);
    if w.log.epochs[q.e].Start(q.j) == EndOf(w, g) && Adjoins(w, g) { HomeLater(w, g + 1, NextPlace(w, g, q)); }
  }

  /** Records that begin after the edge of a file are not before that place. */
  lemma EdgeLater(w: World, g: nat, q: Place, h: nat, p: Place)
    requires w.Valid() && Fits(w, At(g, q)) && w.log.epochs[q.e].Start(q.j) == EndOf(w, g)
    requires BeginsIn(w, h, p) && h > g
    ensures Le(q, p)
  {
    hide World.Valid;
    hide World.Survives;
    LogOf(w);
    LeftShort(w, g);
    FilesOrdered(w.log, g, h);
    if p.e == q.e && p.j < q.j { StartGrows(w.log.epochs[p.e], p.j, q.j); }
  }

  /** Reading a record leaves only later ones. */
  lemma ReadLater(w: World, g: nat, q: Place)
    requires w.Valid() && InFile(w, g, q) && w.log.epochs[q.e].Start(q.j) < EndOf(w, g)
    ensures AllLater(w, ReadOf(w, g, q).1, q)
  {
    hide World.Valid;
    hide World.Survives;
    hide Furthest;
    hide FileOf;
    hide HeaderGone;
    hide Gap;
    hide BeginsIn;
    var s := ReadOf(w, g, q).1;
    var f := Furthest(w, g);
    WithinReach(w, g, f);
    InEpoch(w, g, q);
    if s.Past? {
      forall h: nat, p: Place | h > s.upto && BeginsIn(w, h, p) ensures Less(q, p) {
        StartsLater(w, g, q, h, p);
        BeginsEpoch(w, h, p);
      }
    }
  }

  lemma BeginsEpoch(w: World, h: nat, p: Place)
    requires BeginsIn(w, h, p)
    ensures h < |w.log.files| && w.log.files[h].epoch == p.e
  {
    hide World.Survives;
  }

  lemma LaterStill(w: World, s: Spot, p: Place, q: Place)
    requires AllLater(w, s, q) && Less(p, q)
    ensures AllLater(w, s, p)
  {
    hide BeginsIn;
  }

  /** What is read next is later, and so is all that is left then. */
  lemma NextLater(w: World, s: Spot, p: Place)
    requires w.Valid() && Fits(w, s) && AllLater(w, s, p) && Next(w, s).0 != Nothing(Eof)
    ensures AllLater(w, Next(w, s).1, p)
    ensures var made := ReadMade(w, s);
            made.Some? ==> made.value.At? && Less(p, made.value.p) && AllLater(w, Next(w, s).1, made.value.p)
  {
    hide *;
    NextForm(w, s);
    MadeForm(w, s);
    MadeIs(w, s);
    match s
    case At(g, q) => AtLater(w, g, q, p);
    case Past(g, within, regained) => PastLater(w, g, within, regained, p);
  }

  lemma AtLater(w: World, g: nat, q: Place, p: Place)
    requires w.Valid() && Fits(w, At(g, q)) && AllLater(w, At(g, q), p) && Next(w, At(g, q)).0 != Nothing(Eof)
    ensures var s := At(g, q);
            var made := ReadMade(w, s);
            && AllLater(w, Next(w, s).1, p)
            && (made.Some? ==> made.value.At? && Less(p, made.value.p) && AllLater(w, Next(w, s).1, made.value.p))
  {
    hide *;
    NextForm(w, At(g, q));
    MadeForm(w, At(g, q));
    NextAtForm(w, g, q);
    MadeAt(w, g, q);
    HomeFits(w, g, q);
    HomeLater(w, g, q);
    var home := HomeOf(w, g, q);
    SpotIs(home);
    EdgeWhen(w, home);
    LaterAt(w, g, q, p);
    LaterOf(p, q, home.p);
    if AtEdge(w, home) {
      EdgeNotEof(w, home.g, w.log.epochs[home.p.e].fmt);
      EdgeAllLater(w, home.g, home.p, p);
    } else {
      BeginsEnds(w, home.g, home.p);
      ReadLater(w, home.g, home.p);
      LaterStill(w, ReadOf(w, home.g, home.p).1, p, home.p);
    }
  }

  lemma LaterAt(w: World, g: nat, q: Place, p: Place)
    requires AllLater(w, At(g, q), p)
    ensures Less(p, q)
  {
  }

  lemma LaterOf(p: Place, q: Place, r: Place)
    requires Less(p, q) && Le(q, r)
    ensures Less(p, r)
  {
  }

  lemma EdgeAllLater(w: World, g: nat, q: Place, p: Place)
    requires w.Valid() && Fits(w, At(g, q)) && w.log.epochs[q.e].Start(q.j) == EndOf(w, g) && Less(p, q)
    ensures forall b :: AllLater(w, Past(g, b, None), p)
  {
    hide World.Valid;
    hide World.Survives;
    hide Fits;
    hide BeginsIn;
    forall h: nat, r: Place | h > g && BeginsIn(w, h, r) ensures Less(p, r) {
      EdgeLater(w, g, q, h, r);
    }
  }

  lemma PastLater(w: World, g: int, within: bool, regained: Option<nat>, p: Place)
    requires w.Valid() && Fits(w, Past(g, within, regained)) && AllLater(w, Past(g, within, regained), p)
    requires Next(w, Past(g, within, regained)).0 != Nothing(Eof)
    ensures var s := Past(g, within, regained);
            var made := ReadMade(w, s);
            && AllLater(w, Next(w, s).1, p)
            && (made.Some? ==> made.value.At? && Less(p, made.value.p) && AllLater(w, Next(w, s).1, made.value.p))
  {
    hide *;
    var s := Past(g, within, regained);
    NextForm(w, s);
    MadeForm(w, s);
    NextPastForm(w, g, within, regained);
    SoughtFits(w, g, within, 0, regained);
    var hit := Sought(w, g, within, 0, regained);
    if hit.SessionOver? {
      LaterPast(w, g, within, regained, hit.g, p);
    } else if hit.Begins? {
      SoughtLater(w, g, within, regained, p);
      LaterThere(w, hit.x, hit.p, p);
      if hit.late == 0 {
        ReadLater(w, hit.x, hit.p);
        LaterStill(w, ReadOf(w, hit.x, hit.p).1, p, hit.p);
      }
    }
  }

  lemma LaterPast(w: World, g: int, within: bool, regained: Option<nat>, g1: int, p: Place)
    requires AllLater(w, Past(g, within, regained), p) && g1 >= g
    ensures AllLater(w, Past(g1, false, None), p)
  {
    hide BeginsIn;
  }

  lemma LaterThere(w: World, x: nat, q: Place, p: Place)
    requires Less(p, q)
    ensures AllLater(w, At(x, q), p)
  {
  }

  lemma SoughtLater(w: World, g: int, within: bool, regained: Option<nat>, p: Place)
    requires w.Valid() && Fits(w, Past(g, within, regained)) && AllLater(w, Past(g, within, regained), p)
    ensures var hit := Sought(w, g, within, 0, regained);
            hit.Begins? ==>
              && InFile(w, hit.x, hit.p) && Less(p, hit.p)
              && w.log.epochs[hit.p.e].Start(hit.p.j) < EndOf(w, hit.x)
  {
    hide World.Valid;
    hide World.Survives;
    hide Sought;
    hide HeaderGone;
    SoughtFits(w, g, within, 0, regained);
    var hit := Sought(w, g, within, 0, regained);
    if hit.Begins? && regained.None? { assert BeginsIn(w, hit.x, hit.p); }
    if hit.Begins? && regained.Some? { RegainedPlaceOf(w, g, regained.value); }
  }

  lemma RegainedPlaceOf(w: World, g: int, j: nat)
    requires w.Valid() && Fits(w, Past(g, true, Some(j)))
    ensures g >= 0
    ensures var hit := Sought(w, g, true, 0, Some(j));
            hit.Begins? ==>
              && hit.p == Place(w.log.files[g].epoch, j) && InFile(w, hit.x, hit.p)
              && w.log.epochs[hit.p.e].Start(j) < EndOf(w, hit.x)
  {
    hide World.Valid;
    hide World.Survives;
    hide Sought;
    FitsGone(w, g, j);
    GonePayload(w, g, j - 1);
    GoneIsGap(w, g, j - 1);
    SimpleHead(w.log.epochs[w.log.files[g].epoch]);
    InEpoch(w, g + 2, Place(w.log.files[g].epoch, j));
    SoughtForm(w, g, true, 0, Some(j));
  }

  /** Of two reads of records the later one is of the later record. */
  lemma {:induction false} ReadsRise(w: World, spots: seq<Spot>, trace: seq<Attempt>, i: nat, k: nat,
                                     h: nat, p: Place, h1: nat, q: Place)
    requires w.Valid() && Follows(w, spots, trace) && i < k
    requires MadeOf(w, spots, i, h, p) && MadeOf(w, spots, k, h1, q)
    ensures Less(p, q)
  {
    hide *;
    MadeNow(w, spots, i, h, p);
    MadeNow(w, spots, k, h1, q);
    FollowedBy(w, spots, trace, i);
    MadeIs(w, spots[i]);
    LaterNow(w, spots[i], h, p);
    StaysLater(w, spots, trace, i + 1, k, p);
    FollowedBy(w, spots, trace, k);
    FollowsMore(w, spots, trace, k);
    NextLater(w, spots[k], p);
  }

  lemma LaterNow(w: World, s: Spot, h: nat, p: Place)
    requires w.Valid() && Fits(w, s) && ReadMade(w, s) == Some(At(h, p)) && InFile(w, h, p)
    requires Next(w, s) == ReadOf(w, h, p)
    ensures AllLater(w, Next(w, s).1, p)
  {
    hide *;
    MadeIs(w, s);
    if s.Past? && s.regained.Some? {
      RegainedPlace(w, s, h, p);
      MadeForm(w, s);
      RegainedLen(w, s.upto, s.within, s.regained);
      RegainedPlaceOf(w, s.upto, s.regained.value);
    } else {
      BeginsEnds(w, h, p);
    }
    ReadLater(w, h, p);
  }

  lemma {:induction false} StaysLater(w: World, spots: seq<Spot>, trace: seq<Attempt>, i: nat, k: nat, p: Place)
    requires w.Valid() && Follows(w, spots, trace) && i <= k < |spots| && AllLater(w, spots[i], p)
    ensures AllLater(w, spots[k], p)
    decreases k - i
  {
    hide World.Valid;
    hide Next;
    hide Fits;
    hide AllLater;
    hide ReadMade;
    if i < k {
      FollowedBy(w, spots, trace, i);
      FollowsMore(w, spots, trace, i);
      NextLater(w, spots[i], p);
      StaysLater(w, spots, trace, i + 1, k, p);
    }
  }
}
