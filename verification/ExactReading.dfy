/** How much of each record a caller gets from a damaged log, into any buffer:
    exactly what can be reached, told as it is (tcslog/src/read.rs). */
module ExactReading {
  import opened Bytes
  import opened Format
  import opened Names
  import opened ReadSpec
  import opened ReadEnds
  import opened Layout
  import opened Damage
  import opened Standing
  import opened Filling
  import opened RecordTruth
  import opened LossCounts
  import opened ReadTheorems
  import opened LogReadIter
  import opened Reach
  import opened Course
  import opened Exactness

  /** Record r, of whose payload k bytes can be read before the loss: if that is
      all of it, as it is read into such a buffer; a buffer that is too small for
      it and could be filled, filled, whatever became of the rest; or else what
      could be read, and the loss. */
  function AsMuch(r: Record, k: nat, loss: Fault, room: nat): Outcome {
    if |r.payload| <= k then AsRead(r, room)
    else if room <= k then Overflow(r.payload[..room])
    else Failed(loss, r.payload[..k])
  }

  /** The record at p read from file h on, as far as it can be reached. */
  ghost function AsFar(w: World, h: nat, p: Place, room: nat): Outcome
    requires InFile(w, h, p)
  {
    PlaceIn(w, h, p);
    GapKnown(w, Furthest(w, h));
    var ep, m, loss := w.log.epochs[p.e], ReachOf(w, h), Truncated(Gap(w, Furthest(w, h)));
    if m < ep.Start(p.j) + ep.Head() then Failed(loss, [])
    else AsMuch(w.RecordAt(p), m - ep.Start(p.j) - ep.Head(), loss, room)
  }

  lemma ClipIs(w: World, h: nat, p: Place, room: nat)
    requires InFile(w, h, p)
    ensures Clip(ReadOf(w, h, p).0, room) == AsFar(w, h, p, room)
  {
    hide World.Survives;
    hide Furthest;
    hide FileOf;
    hide Gap;
    hide HeaderGone;
    PlaceIn(w, h, p);
    GapKnown(w, Furthest(w, h));
    var ep, r, m := w.log.epochs[p.e], w.RecordAt(p), ReachOf(w, h);
    if ep.Start(p.j) + ep.Head() <= m < ep.Start(p.j + 1) {
      var k := m - ep.Start(p.j) - ep.Head();
      if room <= k { assert r.payload[..k][..room] == r.payload[..room]; }
    }
  }

  // ------------------------------------------------------------ what is in reach

  /** What can be reached from the start of a file is what is still there of its
      epoch from there on without a gap. */
  lemma ReachIsHeld(w: World, g: nat, o: nat)
    requires w.Valid() && w.Survives(g) && w.log.InRange(g) && w.log.files[g].start <= o
    ensures o <= ReachOf(w, g) <==> Held(w, w.log.files[g].epoch, w.log.files[g].start, o)
  {
    hide World.Valid;
    hide World.Survives;
    hide World.ByteSurvives;
    hide Furthest;
    if o <= ReachOf(w, g) {
      ReachedHeld(w, g, o);
    } else {
      ReachGrows(w, g);
      NotHeldPast(w, g);
    }
  }

  lemma {:induction false} ReachedHeld(w: World, g: nat, o: nat)
    requires w.Valid() && w.Survives(g) && w.log.InRange(g) && o <= ReachOf(w, g)
    ensures Held(w, w.log.files[g].epoch, w.log.files[g].start, o)
    decreases |w.log.files| - g
  {
    hide World.Valid;
    hide World.Survives;
    hide World.ByteSurvives;
    ReachGrows(w, g);
    HeldByFile(w, g);
    if RunsOn(w, g) {
      NextInRange(w, g);
      ReachedHeld(w, g + 1, o);
    }
  }

  lemma NextInRange(w: World, g: nat)
    requires RunsOn(w, g)
    ensures g + 1 < |w.log.files| && w.log.InRange(g + 1) && w.log.files[g + 1].epoch == w.log.files[g].epoch
  {
    hide World.Survives;
  }

  lemma HeldByFile(w: World, g: nat)
    requires w.Survives(g) && w.log.InRange(g)
    ensures Held(w, w.log.files[g].epoch, w.log.files[g].start, EndOf(w, g))
  {
    hide World.Survives;
    forall x | w.log.files[g].start <= x < EndOf(w, g) ensures w.ByteSurvives(w.log.files[g].epoch, x) {
      assert w.Holds(g, w.log.files[g].epoch, x);
    }
  }

  /** The byte where the reach ends is not there. */
  lemma NotHeldPast(w: World, g: nat)
    requires w.Valid() && w.Survives(g) && w.log.InRange(g)
    ensures !w.ByteSurvives(w.log.files[g].epoch, ReachOf(w, g))
  {
    hide World.Valid;
    hide World.Survives;
    hide Furthest;
    var e, f := w.log.files[g].epoch, Furthest(w, g);
    WithinReach(w, g, f);
    if w.ByteSurvives(e, EndOf(w, f)) {
      var h: nat :| w.Holds(h, e, EndOf(w, f));
      HeldNext(w, f, h, e, EndOf(w, f));
      HoldsSurvives(w, h, e, EndOf(w, f));
      LinkOf(w, f);
      RunsOnIf(w, f);
    }
  }

  lemma HoldsSurvives(w: World, h: nat, e: nat, x: nat)
    requires w.Holds(h, e, x)
    ensures w.Survives(h) && h < |w.log.files| && w.log.files[h].epoch == e
  {
    hide Usable;
  }

  lemma LinkOf(w: World, f: nat)
    requires w.Valid() && f + 1 < |w.log.files| && w.log.files[f + 1].epoch == w.log.files[f].epoch
    ensures w.log.SameEpoch(f)
  {
    LogOf(w);
    assert w.log.SameEpoch(f) || w.log.Resumed(f) || w.log.NewSession(f);
  }

  /** A record whose first byte is in file h survives exactly if it is in reach
      from there. */
  lemma InReachSurvives(w: World, h: nat, p: Place)
    requires w.Valid() && BeginsIn(w, h, p)
    ensures w.log.epochs[p.e].Start(p.j + 1) <= ReachOf(w, h) <==> w.RecordSurvives(p)
  {
    hide World.Valid;
    hide World.Survives;
    hide World.ByteSurvives;
    hide Furthest;
    PlaceIn(w, h, p);
    InEpoch(w, h, p);
    var ep := w.log.epochs[p.e];
    ReachIsHeld(w, h, ep.Start(p.j + 1));
    HeldByFile(w, h);
  }

  // --------------------------------------------------------------- a whole run

  /** A record and the file from which on it is read. */
  datatype Reading = Reading(file: nat, place: Place)

  ghost predicate ReadOnce(made: seq<Option<Reading>>) {
    forall i, k :: 0 <= i < k < |made| && made[i].Some? && made[k].Some? ==>
                     Less(made[i].value.place, made[k].value.place)
  }

  ghost predicate IsMade(made: seq<Option<Reading>>, h: nat, p: Place) {
    exists i :: 0 <= i < |made| && made[i] == Some(Reading(h, p))
  }

  /** What outcome i gives of the record it is of, if it is of one. */
  ghost predicate TellsAs(w: World, out: Outcome, room: nat, made: Option<Reading>) {
    if made.None? then !Delivers(out)
    else
      && IsRead(w, made.value.file, made.value.place) && InFile(w, made.value.file, made.value.place)
      && out == AsFar(w, made.value.file, made.value.place, room)
  }

  /** Over any log, with any damage and any buffers: each read gives of one
      record exactly as much as can be reached, and the loss where it breaks off,
      or delivers nothing; the records come in written order, none twice; and
      they are those whose first byte is there, with those that lost nothing
      before their payload but a data header to a record that was read. */
  lemma WhatIsRead(w: World, ids: seq<SegId>, rooms: seq<nat>) returns (made: seq<Option<Reading>>)
    requires w.Valid() && Sorted(ids) && forall id :: id in ids <==> id in w.dir
    requires |rooms| == |Trace(w.dir, Initial(ids, false))|
    ensures |made| == |rooms| && ReadOnce(made)
    ensures var outs := Outcomes(Trace(w.dir, Initial(ids, false)), rooms);
            forall i :: 0 <= i < |made| ==> TellsAs(w, outs[i], rooms[i], made[i])
    ensures forall h: nat, p: Place :: IsRead(w, h, p) ==> IsMade(made, h, p)
  {
    hide *;
    var st := Initial(ids, false);
    StartStands(w, ids);
    var spots := RunsItsCourse(w, st, START);
    var trace := Trace(w.dir, st);
    made := ReadingsOf(w, spots, trace);
    InWrittenOrder(w, spots, trace, made);
    var outs := Outcomes(trace, rooms);
    forall i | 0 <= i < |made| ensures TellsAs(w, outs[i], rooms[i], made[i]) {
      Told(w, spots, trace, made, i, rooms[i]);
    }
    forall h: nat, p: Place | IsRead(w, h, p) ensures IsMade(made, h, p) {
      var i := AllRead(w, spots, trace, h, p);
      MadeHere(w, spots, trace, made, i, h, p);
    }
  }

  lemma InWrittenOrder(w: World, spots: seq<Spot>, trace: seq<Attempt>, made: seq<Option<Reading>>)
    requires w.Valid() && Follows(w, spots, trace) && AreMade(w, spots, made)
    ensures ReadOnce(made)
  {
    hide *;
    forall i, k | 0 <= i < k < |made| && made[i].Some? && made[k].Some?
      ensures Less(made[i].value.place, made[k].value.place)
    {
      MadeThere(w, spots, trace, made, i);
      MadeThere(w, spots, trace, made, k);
      var a, b := made[i].value, made[k].value;
      ReadsRise(w, spots, trace, i, k, a.file, a.place, b.file, b.place);
    }
    OnceRead(made);
  }

  lemma OnceRead(made: seq<Option<Reading>>)
    requires forall i, k :: 0 <= i < k < |made| && made[i].Some? && made[k].Some? ==>
               Less(made[i].value.place, made[k].value.place)
    ensures ReadOnce(made)
  {
    hide Less;
  }

  ghost function ReadingFrom(w: World, s: Spot): Option<Reading>
    requires w.Valid() && Fits(w, s)
  {
    var made := ReadMade(w, s);
    if made.Some? && made.value.At? then Some(Reading(made.value.g, made.value.p)) else None
  }

  /** The reads made along the course. */
  ghost predicate AreMade(w: World, spots: seq<Spot>, made: seq<Option<Reading>>)
    requires w.Valid()
  {
    |made| + 1 == |spots| && forall i :: 0 <= i < |made| ==> Fits(w, spots[i]) && made[i] == ReadingFrom(w, spots[i])
  }

  lemma ReadingsOf(w: World, spots: seq<Spot>, trace: seq<Attempt>) returns (made: seq<Option<Reading>>)
    requires w.Valid() && Follows(w, spots, trace)
    ensures |made| == |trace| && AreMade(w, spots, made)
  {
    hide World.Valid;
    hide Next;
    hide Fits;
    hide ReadingFrom;
    made := seq(|trace|, i requires 0 <= i < |trace| => ReadingFrom(w, spots[i]));
  }

  lemma MadeThere(w: World, spots: seq<Spot>, trace: seq<Attempt>, made: seq<Option<Reading>>, i: nat)
    requires w.Valid() && AreMade(w, spots, made) && i < |made| && made[i].Some?
    ensures MadeOf(w, spots, i, made[i].value.file, made[i].value.place)
  {
    hide World.Valid;
    hide Fits;
    hide ReadMade;
  }

  lemma MadeHere(w: World, spots: seq<Spot>, trace: seq<Attempt>, made: seq<Option<Reading>>, i: nat, h: nat, p: Place)
    requires w.Valid() && AreMade(w, spots, made) && MadeOf(w, spots, i, h, p)
    ensures IsMade(made, h, p)
  {
    hide World.Valid;
    hide Fits;
    hide ReadMade;
    assert made[i] == Some(Reading(h, p));
  }

  lemma Told(w: World, spots: seq<Spot>, trace: seq<Attempt>, made: seq<Option<Reading>>, i: nat, room: nat)
    requires w.Valid() && Follows(w, spots, trace) && AreMade(w, spots, made) && i < |made| && spots[0] == START
    ensures |made| == |trace| && TellsAs(w, Clip(trace[i], room), room, made[i])
  {
    hide *;
    MadeSpots(w, spots, trace, made, i);
    FollowedBy(w, spots, trace, i);
    MadeIs(w, spots[i]);
    if made[i].Some? {
      var h, p := made[i].value.file, made[i].value.place;
      MadeThere(w, spots, trace, made, i);
      MadeNow(w, spots, i, h, p);
      OnlyRead(w, spots, trace, i, h, p);
      ClipIs(w, h, p, room);
      TellsOf(w, h, p, room, made[i]);
    } else {
      Silent(w, trace[i], room, made[i]);
    }
  }

  lemma MadeSpots(w: World, spots: seq<Spot>, trace: seq<Attempt>, made: seq<Option<Reading>>, i: nat)
    requires w.Valid() && Follows(w, spots, trace) && AreMade(w, spots, made) && i < |made|
    ensures |made| == |trace| && i + 1 < |spots| && Fits(w, spots[i])
    ensures made[i].None? ==> ReadMade(w, spots[i]).None? || !ReadMade(w, spots[i]).value.At?
  {
    hide World.Valid;
    hide Fits;
    hide ReadMade;
    hide Next;
  }

  lemma TellsOf(w: World, h: nat, p: Place, room: nat, made: Option<Reading>)
    requires IsRead(w, h, p) && InFile(w, h, p) && made == Some(Reading(h, p))
    ensures TellsAs(w, AsFar(w, h, p, room), room, made)
  {
    hide IsRead;
    hide InFile;
    hide AsFar;
  }

  lemma Silent(w: World, att: Attempt, room: nat, made: Option<Reading>)
    requires att.Nothing? || (att.got == [] && att.meta.MetaFixed? && att.cause.Some? && att.want > 0)
    requires made.None?
    ensures TellsAs(w, Clip(att, room), room, made)
  {
  }

  // ------------------------------------------------------------- what follows

  lemma MadeGives(w: World, ids: seq<SegId>, rooms: seq<nat>, h: nat, p: Place) returns (i: nat)
    requires w.Valid() && Sorted(ids) && forall id :: id in ids <==> id in w.dir
    requires |rooms| == |Trace(w.dir, Initial(ids, false))| && IsRead(w, h, p)
    ensures i < |rooms|
    ensures TellsAs(w, Outcomes(Trace(w.dir, Initial(ids, false)), rooms)[i], rooms[i], Some(Reading(h, p)))
  {
    hide *;
    StartStands(w, ids);
    var made := WhatIsRead(w, ids, rooms);
    i := MadeIndex(made, h, p);
  }

  lemma MadeIndex(made: seq<Option<Reading>>, h: nat, p: Place) returns (i: nat)
    requires IsMade(made, h, p)
    ensures i < |made| && made[i] == Some(Reading(h, p))
  {
    i :| 0 <= i < |made| && made[i] == Some(Reading(h, p));
  }

  lemma GivenOf(w: World, out: Outcome, room: nat, h: nat, p: Place)
    requires TellsAs(w, out, room, Some(Reading(h, p)))
    ensures InFile(w, h, p) && out == AsFar(w, h, p, room)
  {
    hide IsRead;
    hide InFile;
    hide AsFar;
  }

  /** A lost header is recovered where it can be: record p, of which the first
      byte is in file h, breaks off past its data header where file g ends, and
      file g is whole; only the next file is missing, and it ended with the data
      header of the next record, whose payload is not empty. Then that record is
      read, as far as it can be reached; and all of it if it is still there. */
  lemma LostHeaderRegained(w: World, ids: seq<SegId>, rooms: seq<nat>, h: nat, p: Place, g: nat) returns (i: nat)
    requires w.Valid() && Sorted(ids) && forall id :: id in ids <==> id in w.dir
    requires |rooms| == |Trace(w.dir, Initial(ids, false))|
    requires BeginsIn(w, h, p) && Furthest(w, h) == g
    requires var ep := w.log.epochs[p.e];
             && ep.fmt == VariableSimple && |w.Left(g)| == ep.dsize && ep.Start(p.j) + ep.Head() <= EndOf(w, g)
             && !w.Survives(g + 1) && w.Survives(g + 2) && w.log.SameEpoch(g) && w.log.SameEpoch(g + 1)
             && p.j + 1 < |ep.recs| && ep.recs[p.j + 1].payload != []
             && ep.Start(p.j + 1) + ep.Head() == w.log.files[g + 2].start
    ensures i < |rooms| && w.log.InRange(g + 2)
    ensures var next := Place(p.e, p.j + 1);
            var out := Outcomes(Trace(w.dir, Initial(ids, false)), rooms)[i];
            && InFile(w, g + 2, next) && out == AsFar(w, g + 2, next, rooms[i])
            && (Held(w, p.e, w.log.files[g + 2].start, w.log.epochs[p.e].Start(p.j + 2)) ==>
                  out == AsRead(w.RecordAt(next), rooms[i]))
  {
    hide *;
    var next := Place(p.e, p.j + 1);
    RegainsHere(w, h, p, g);
    ReadWhen(w, h, g + 2, next);
    i := MadeGives(w, ids, rooms, g + 2, next);
    StartStands(w, ids);
    GivenOf(w, Outcomes(Trace(w.dir, Initial(ids, false)), rooms)[i], rooms[i], g + 2, next);
    RegainedReach(w, g, p, rooms[i]);
  }

  lemma RegainsHere(w: World, h: nat, p: Place, g: nat)
    requires w.Valid() && BeginsIn(w, h, p) && Furthest(w, h) == g
    requires var ep := w.log.epochs[p.e];
             && ep.fmt == VariableSimple && |w.Left(g)| == ep.dsize && ep.Start(p.j) + ep.Head() <= EndOf(w, g)
             && !w.Survives(g + 1) && w.Survives(g + 2) && w.log.SameEpoch(g) && w.log.SameEpoch(g + 1)
             && p.j + 1 < |ep.recs| && ep.recs[p.j + 1].payload != []
             && ep.Start(p.j + 1) + ep.Head() == w.log.files[g + 2].start
    ensures var next := Place(p.e, p.j + 1);
            h < g + 2 && Before(next) == p && IsRead(w, h, p) && Regains(w, h, g + 2, next)
    ensures HeaderGone(w, g, p.j) && w.log.files[g].epoch == p.e && g < |w.log.files|
  {
    hide World.Valid;
    hide World.Survives;
    hide Furthest;
    WithinReach(w, h, g);
    InEpoch(w, h, p);
    BeginsRead(w, h, p);
  }

  lemma RegainedReach(w: World, g: nat, p: Place, room: nat)
    requires w.Valid() && g < |w.log.files| && HeaderGone(w, g, p.j) && w.log.files[g].epoch == p.e
    ensures w.log.InRange(g + 2)
    ensures var next := Place(p.e, p.j + 1);
            && InFile(w, g + 2, next)
            && (Held(w, p.e, w.log.files[g + 2].start, w.log.epochs[p.e].Start(p.j + 2)) ==>
                  AsFar(w, g + 2, next, room) == AsRead(w.RecordAt(next), room))
  {
    hide World.Valid;
    hide World.Survives;
    hide World.ByteSurvives;
    hide Furthest;
    hide Gap;
    GoneIsGap(w, g, p.j);
    GonePayload(w, g, p.j);
    var next := Place(p.e, p.j + 1);
    PlaceIn(w, g + 2, next);
    GapKnown(w, Furthest(w, g + 2));
    ReachIsHeld(w, g + 2, w.log.epochs[p.e].Start(p.j + 2));
  }

  /** A loss is reported as the files missing: a read that starts in file g, runs
      off the end of file f, and next meets survivor x of the same session, finds
      it, whether in the data header or in the payload; and that is what the
      caller is told, unless the buffer is too small and was full before. */
  lemma LossIsCounted(w: World, st: State, g: nat, p: Place, x: nat, room: nat)
    requires w.Valid() && Sound(w.dir, st) && StandsAt(w, st, At(g, p)) && BeginsIn(w, g, p)
    requires w.log.epochs[p.e].Start(p.j + 1) > ReachOf(w, g)
    requires var f := Furthest(w, g);
             f < x < |w.log.files| && w.Survives(x) && Gone(w, f, x) && w.log.files[x].session == w.log.files[f].session
    ensures var att, lost := Read(w.dir, st).0, x - Furthest(w, g) - 1;
            && (att == Nothing(Truncated(lost)) || (att.Payload? && att.cause == Some(Truncated(lost))))
            && var ep, r := w.log.epochs[p.e], w.RecordAt(p);
               var k := ReachOf(w, g) - ep.Start(p.j) - ep.Head();
               Clip(att, room) == (if k < 0 then Failed(Truncated(lost), [])
                                   else if room <= k then Overflow(r.payload[..room])
                                   else Failed(Truncated(lost), r.payload[..k]))
  {
    hide *;
    StandsFits(w, st, g, p);
    ReadIsNext(w, st, At(g, p));
    MadeThereIs(w, g, p);
    FoundIs(w, Read(w.dir, st), Next(w, At(g, p)));
    ClipIs(w, g, p, room);
    PlaceIn(w, g, p);
    CountedGap(w, g, p, x, room);
  }

  /** So it is between records: a read that starts where file g ends, the session
      not going on right there, and next meets survivor x of it. */
  lemma LossAtEdge(w: World, st: State, g: nat, p: Place, x: nat, room: nat)
    requires w.Valid() && Sound(w.dir, st) && StandsAt(w, st, At(g, p))
    requires p.e < |w.log.epochs| && w.log.epochs[p.e].Start(p.j) == EndOf(w, g) && !Adjoins(w, g)
    requires g < x < |w.log.files| && w.Survives(x) && Gone(w, g, x) && w.log.files[x].session == w.log.files[g].session
    ensures Clip(Read(w.dir, st).0, room) ==
              if w.log.epochs[p.e].fmt.Fixed? && room == 0 then Overflow([]) else Failed(Truncated(x - g - 1), [])
  {
    hide *;
    StandsFits(w, st, g, p);
    ReadIsNext(w, st, At(g, p));
    NextForm(w, At(g, p));
    NextAtForm(w, g, p);
    HomeForm(w, g, p);
    EdgeWhen(w, At(g, p));
    NameLater(w, g, x);
    FoundIs(w, Read(w.dir, st), Next(w, At(g, p)));
    EdgeCounted(w, g, p.e, x, room);
  }

  lemma NameLater(w: World, g: nat, x: nat)
    requires w.Survives(x) && g < x
    ensures !LastName(w, g)
  {
    hide Usable;
    assert w.log.files[x].id in w.at;
  }

  lemma EdgeCounted(w: World, g: nat, e: nat, x: nat, room: nat)
    requires w.Valid() && e < |w.log.epochs|
    requires g < x < |w.log.files| && w.Survives(x) && Gone(w, g, x) && w.log.files[x].session == w.log.files[g].session
    ensures Clip(EdgeOf(w, g, w.log.epochs[e].fmt).0, room) ==
              if w.log.epochs[e].fmt.Fixed? && room == 0 then Overflow([]) else Failed(Truncated(x - g - 1), [])
  {
    hide World.Survives;
    hide NextSurvivor;
    NextIs(w, g, x);
    LogOf(w);
    assert w.log.epochs[e].Valid();
  }

  /** A reader before a record in the open file reads that. */
  lemma MadeThereIs(w: World, g: nat, p: Place)
    requires w.Valid() && Fits(w, At(g, p)) && BeginsIn(w, g, p)
    ensures InFile(w, g, p) && Next(w, At(g, p)) == ReadOf(w, g, p)
  {
    hide *;
    BeginsEnds(w, g, p);
    HomeForm(w, g, p);
    NextForm(w, At(g, p));
    NextAtForm(w, g, p);
    EdgeWhen(w, At(g, p));
  }

  lemma FoundIs(w: World, r: (Attempt, State), x: (Attempt, Spot))
    requires ReadIs(w, r, x)
    ensures r.0 == x.0
  {
    hide StandsAt;
  }

  lemma CountedGap(w: World, g: nat, p: Place, x: nat, room: nat)
    requires InFile(w, g, p) && w.log.epochs[p.e].Start(p.j + 1) > ReachOf(w, g) && w.IsPlace(p)
    requires var f := Furthest(w, g);
             f < x < |w.log.files| && w.Survives(x) && Gone(w, f, x) && w.log.files[x].session == w.log.files[f].session
    requires var ep := w.log.epochs[p.e];
             ep.Start(p.j + 1) == ep.Start(p.j) + ep.Head() + |w.RecordAt(p).payload|
    ensures var lost := x - Furthest(w, g) - 1;
            var ep, r := w.log.epochs[p.e], w.RecordAt(p);
            var k := ReachOf(w, g) - ep.Start(p.j) - ep.Head();
            && k < |r.payload|
            && AsFar(w, g, p, room) == (if k < 0 then Failed(Truncated(lost), [])
                                        else if room <= k then Overflow(r.payload[..room])
                                        else Failed(Truncated(lost), r.payload[..k]))
            && var att := ReadOf(w, g, p).0;
               att == Nothing(Truncated(lost)) || (att.Payload? && att.cause == Some(Truncated(lost)))
  {
    hide World.Survives;
    hide Furthest;
    hide FileOf;
    hide HeaderGone;
    hide NextSurvivor;
    NextIs(w, Furthest(w, g), x);
  }

  /** A buffer too small for the record is told full whenever it could be filled,
      whatever became of the rest of the record. */
  lemma FullBufferTold(w: World, h: nat, p: Place, room: nat)
    requires w.Valid() && InFile(w, h, p)
    ensures var ep, r := w.log.epochs[p.e], w.RecordAt(p);
            AsFar(w, h, p, room).Overflow? <==>
              room < |r.payload| && ep.Start(p.j) + ep.Head() + room <= ReachOf(w, h)
    ensures AsFar(w, h, p, room).Overflow? ==>
              room <= |w.RecordAt(p).payload| && AsFar(w, h, p, room) == Overflow(w.RecordAt(p).payload[..room])
  {
    hide World.Valid;
    hide World.Survives;
    hide Furthest;
    hide Gap;
    PlaceIn(w, h, p);
    GapKnown(w, Furthest(w, h));
  }

  // --------------------------------------------------------------- the iterator

  /** What the iterator hands over of record r, of whose payload k bytes can be
      read: the record, if that is all of it and its buffer holds it; else as
      much of its front as both allow, marked; nothing, if that is not a byte. */
  function Piece(r: Record, k: int): seq<Item> {
    if |r.payload| <= k && |r.payload| <= ITER_BUF_LEN then [Item(r.meta, r.payload, false)]
    else if k <= 0 then []
    else [Item(r.meta, r.payload[..Min(|r.payload|, Min(k, ITER_BUF_LEN))], true)]
  }

  /** ... of the record at p read from file h on. */
  ghost function PieceOf(w: World, made: Option<Reading>): seq<Item> {
    if made.None? || !InFile(w, made.value.file, made.value.place) then []
    else
      var h, p := made.value.file, made.value.place;
      PlaceIn(w, h, p);
      var ep := w.log.epochs[p.e];
      Piece(w.RecordAt(p), ReachOf(w, h) - ep.Start(p.j) - ep.Head())
  }

  ghost function Pieces(w: World, made: seq<Option<Reading>>): seq<Item> {
    if made == [] then [] else PieceOf(w, made[0]) + Pieces(w, made[1..])
  }

  lemma YieldsPiece(w: World, h: nat, p: Place)
    requires InFile(w, h, p)
    ensures YieldSeq(ReadOf(w, h, p).0) == PieceOf(w, Some(Reading(h, p)))
  {
    hide World.Survives;
    hide Furthest;
    hide FileOf;
    hide Gap;
    hide HeaderGone;
    PlaceIn(w, h, p);
    GapKnown(w, Furthest(w, h));
    var ep, r, m := w.log.epochs[p.e], w.RecordAt(p), ReachOf(w, h);
    var k := m - ep.Start(p.j) - ep.Head();
    if 0 <= k < |r.payload| && k >= ITER_BUF_LEN {
      assert r.payload[..k][..ITER_BUF_LEN] == r.payload[..ITER_BUF_LEN];
    }
  }

  lemma SilentYields(att: Attempt)
    requires att.Nothing? || (att.got == [] && att.meta.MetaFixed? && att.cause.Some? && att.want > 0)
    ensures YieldSeq(att) == []
  {
  }

  lemma {:induction false} PiecesYielded(w: World, spots: seq<Spot>, trace: seq<Attempt>, made: seq<Option<Reading>>,
                                         i: nat)
    requires w.Valid() && Follows(w, spots, trace) && AreMade(w, spots, made) && i <= |made| == |trace|
    ensures Items(trace[i..]) == Pieces(w, made[i..])
    decreases |made| - i
  {
    hide *;
    if i < |made| {
      MadeSpots(w, spots, trace, made, i);
      FollowedBy(w, spots, trace, i);
      MadeIs(w, spots[i]);
      if made[i].Some? {
        var h, p := made[i].value.file, made[i].value.place;
        MadeThere(w, spots, trace, made, i);
        MadeNow(w, spots, i, h, p);
        YieldsPiece(w, h, p);
      } else {
        SilentYields(trace[i]);
        NoPiece(w);
      }
      PiecesYielded(w, spots, trace, made, i + 1);
      ItemsStep(trace[i..]);
      PiecesStep(w, made[i..]);
      assert trace[i..][1..] == trace[i + 1..] && made[i..][1..] == made[i + 1..];
    } else {
      assert trace[i..] == [] && made[i..] == [];
      ItemsStep([]);
      PiecesStep(w, []);
    }
  }

  lemma NoPiece(w: World)
    ensures PieceOf(w, None) == []
  {
  }

  lemma ItemsStep(trace: seq<Attempt>)
    ensures Items(trace) == if trace == [] then [] else YieldSeq(trace[0]) + Items(trace[1..])
  {
    hide YieldSeq;
  }

  lemma PiecesStep(w: World, made: seq<Option<Reading>>)
    ensures Pieces(w, made) == if made == [] then [] else PieceOf(w, made[0]) + Pieces(w, made[1..])
  {
    hide PieceOf;
  }

  /** Over any log, with any damage, the iterator hands over what is left of each
      record that is read, in written order: the record, or its front, marked. */
  lemma IteratorYieldsPieces(w: World, ids: seq<SegId>) returns (made: seq<Option<Reading>>)
    requires w.Valid() && Sorted(ids) && forall id :: id in ids <==> id in w.dir
    ensures Sound(w.dir, Initial(ids, false))
    ensures Items(Trace(w.dir, Initial(ids, false))) == Pieces(w, made) && ReadOnce(made)
    ensures forall h: nat, p: Place :: IsRead(w, h, p) <==> IsMade(made, h, p)
  {
    hide *;
    var st := Initial(ids, false);
    StartStands(w, ids);
    var spots := RunsItsCourse(w, st, START);
    var trace := Trace(w.dir, st);
    made := ReadingsOf(w, spots, trace);
    InWrittenOrder(w, spots, trace, made);
    forall h: nat, p: Place ensures IsRead(w, h, p) <==> IsMade(made, h, p) {
      if IsRead(w, h, p) {
        var i := AllRead(w, spots, trace, h, p);
        MadeHere(w, spots, trace, made, i, h, p);
      }
      if IsMade(made, h, p) {
        var i := MadeIndex(made, h, p);
        MadeThere(w, spots, trace, made, i);
        OnlyRead(w, spots, trace, i, h, p);
      }
    }
    PiecesYielded(w, spots, trace, made, 0);
    assert trace[0..] == trace && made[0..] == made;
  }

  // ------------------------------------------------------- files of version 1.0

  /** What version 1.0 makes of a record with a time and a count: a count of four
      bytes. */
  function OldEncoding(payload: seq<byte>, ts: u64, rc: u32): seq<byte>
    requires |payload| < U32_LIMIT
  {
    ToLe(|payload|, 4) + ToLe(ts, 8) + ToLe(rc, 4) + payload
  }

  /** A record written so, in files that say they are of version 1.0, split over
      as many as may be, comes back with its payload, time and count. */
  lemma OldRecordsRead(w: World, ids: seq<SegId>, rooms: seq<nat>, p: Place, payload: seq<byte>, ts: u64, rc: u32)
    returns (i: nat)
    requires w.Valid() && Sorted(ids) && forall id :: id in ids <==> id in w.dir
    requires |rooms| == |Trace(w.dir, Initial(ids, false))|
    requires w.RecordSurvives(p) && w.log.epochs[p.e].fmt == VariableTsRc && w.log.epochs[p.e].minor == 0
    requires w.RecordAt(p) == Record(payload, MetaTsRc(ts, rc))
    ensures forall g: nat :: w.Survives(g) && w.log.files[g].epoch == p.e ==>
      OpenValidated(w.dir, w.log.files[g].id).value.header.minor == 0
    ensures w.log.epochs[p.e].Valid()
    ensures var ep := w.log.epochs[p.e];
            && |payload| < U32_LIMIT && ep.Start(p.j) <= ep.Start(p.j + 1) <= |ep.Bytes()|
            && ep.Bytes()[ep.Start(p.j)..ep.Start(p.j + 1)] == OldEncoding(payload, ts, rc)
    ensures i < |rooms|
    ensures Outcomes(Trace(w.dir, Initial(ids, false)), rooms)[i] ==
              if |payload| <= rooms[i] then Got(payload, MetaTsRc(ts, rc)) else Overflow(payload[..rooms[i]])
  {
    hide *;
    i := EverySurvivorReturned(w, ids, rooms, p);
    SurvivorIsPlace(w, p);
    OldBytes(w, p);
    OldHeaders(w, p);
    ReadWhole(Record(payload, MetaTsRc(ts, rc)), rooms[i]);
  }

  lemma ReadWhole(r: Record, room: nat)
    ensures AsRead(r, room) == if |r.payload| <= room then Got(r.payload, r.meta) else Overflow(r.payload[..room])
  {
  }

  lemma OldHeader(w: World, g: nat)
    requires w.Valid() && w.Survives(g)
    ensures w.log.InRange(g) && Usable(w.dir, w.log.files[g].id)
    ensures OpenValidated(w.dir, w.log.files[g].id).value.header.minor == w.log.epochs[w.log.files[g].epoch].minor
  {
    UsableIsTrue(w, w.log.files[g].id);
  }

  lemma OldHeaders(w: World, p: Place)
    requires w.Valid() && w.IsPlace(p) && w.log.epochs[p.e].minor == 0
    ensures forall g: nat :: w.Survives(g) && w.log.files[g].epoch == p.e ==>
      OpenValidated(w.dir, w.log.files[g].id).value.header.minor == 0
  {
    hide World.Valid;
    hide OpenValidated;
    forall g: nat | w.Survives(g) && w.log.files[g].epoch == p.e
      ensures OpenValidated(w.dir, w.log.files[g].id).value.header.minor == 0
    {
      OldHeader(w, g);
    }
  }

  lemma OldBytes(w: World, p: Place)
    requires w.Valid() && w.RecordSurvives(p) && w.log.epochs[p.e].fmt == VariableTsRc && w.log.epochs[p.e].minor == 0
    ensures var ep, r := w.log.epochs[p.e], w.RecordAt(p);
            && ep.Valid() && ep.Start(p.j) <= ep.Start(p.j + 1) <= |ep.Bytes()|
            && |r.payload| < U32_LIMIT && r.meta.MetaTsRc? && r.meta.rc < U32_LIMIT
            && ep.Bytes()[ep.Start(p.j)..ep.Start(p.j + 1)] == OldEncoding(r.payload, r.meta.ts, r.meta.rc)
  {
    hide Stream;
    hide World.ByteSurvives;
    LogOf(w);
    var ep := w.log.epochs[p.e];
    assert ValidRecord(ep.fmt, ep.recs[p.j], ep.minor);
    RecordBytes(ep, p.j);
  }
}
