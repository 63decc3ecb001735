/** Writer, directory, damage and reader together: what a log read back owes to
    the runs that wrote it. */
module System {
  import opened Bytes
  import opened Format
  import opened Header
  import opened Names
  import opened ReadSpec
  import opened ReadEnds
  import opened Layout
  import opened Damage
  import opened DirSteps
  import opened LogSteps
  import opened History
  import opened Writing
  import opened RecordTruth
  import opened ReadTruth
  import opened ReadTheorems
  import opened LossCounts
  import opened RoundTrip
  import opened LogReadIter

  /** The directory's names, oldest first. */
  ghost predicate Lists(ids: seq<SegId>, w: World) { Sorted(ids) && forall id :: id in ids <==> id in w.dir }

  // ------------------------------------------- what writers leave, undamaged

  /** A stored file is there, and whole. */
  lemma StoredSurvives(w: World, g: nat)
    requires w.Removed() && g < |w.log.files| && Stored(w, g)
    ensures w.Survives(g) && |w.Left(g)| == w.log.files[g].len
  {
    hide FromBytes;
    hide ToBytes;
    CutFileOpens(w.log, g, w.dir, w.log.files[g].id);
  }

  /** The directory has all there is: no file is in other hands. */
  ghost predicate AllHere(w: World) { w.fair && w.passed == [] }

  /** A file that is there, and as long as it can be, is whole. */
  lemma FullStored(w: World, g: nat)
    requires w.Removed() && g < |w.log.files| && w.FullSimple(g)
    ensures Stored(w, g)
  {
    hide FromBytes;
    hide ToBytes;
    hide Log.Valid;
    ValidLog(w);
    UsableIsTrue(w, w.log.files[g].id);
    var id := w.log.files[g].id;
    assert w.dir[id] <= w.log.Image(g);
    assert |w.dir[id]| == HEADER_LEN + |w.Left(g)| == |w.log.Image(g)|;
  }

  /** What writers leave, whatever failed, is a log the reader's theorems are
      about. */
  lemma KeptIsWorld(w: World)
    requires Settled(w) && Kept(w) && AllHere(w) && |w.log.files| < U64_LIMIT
    ensures w.Valid()
    ensures DataIntact(w, w.since)
  {
    hide World.Survives;
    hide Stored;
    hide Numbered;
    hide AllFiles;
    forall g: nat | g < |w.log.files| && Stored(w, g)
      ensures w.Survives(g) && |w.Left(g)| == w.log.files[g].len
    {
      StoredSurvives(w, g);
    }
    forall g: nat | g < |w.log.files| && w.log.files[g].len > 0 && w.log.files[g].epoch >= w.since
      ensures Stored(w, g)
    {
      assert Safe(w, g) || Blank(w.log, g);
    }
    forall g | 0 <= g < |w.log.files| - 1 && w.log.Resumed(g) && w.FullSimple(g) ensures w.Survives(g + 1) {
      FullStored(w, g);
    }
  }

  /** With nothing taken away, a record survives exactly when it was written
      out to its last byte. */
  lemma KeptSurvives(w: World, p: Place)
    requires Settled(w) && Kept(w) && AllHere(w) && |w.log.files| < U64_LIMIT
    ensures w.OnDisk(p) && p.e >= w.since ==> w.RecordSurvives(p)
    ensures Supported(w, p) ==> w.OnDisk(p)
  {
    hide World.Survives;
    hide World.ByteSurvives;
    hide Kept;
    hide World.Valid;
    KeptIsWorld(w);
    ValidRemoved(w);
    ValidLog(w);
    if w.OnDisk(p) && p.e >= w.since { OnDiskSurvives(w, w.since, p); }
    if Supported(w, p) { SupportedOnDisk(w, p); }
  }

  lemma SupportedOnDisk(w: World, p: Place)
    requires w.Removed() && Supported(w, p)
    ensures w.OnDisk(p)
  {
    hide World.Survives;
    hide World.Removed;
    ValidLog(w);
    var ep := w.log.epochs[p.e];
    StartGrows(ep, p.j, p.j + 1);
    var x := ep.Start(p.j + 1) - 1;
    assert w.ByteSurvives(p.e, x);
    var h: nat :| w.Holds(h, p.e, x);
    LeftFits(w, h);
  }

  lemma ValidLog(w: World)
    requires w.Removed()
    ensures w.log.Valid()
  {
  }

  lemma LeftFits(w: World, g: nat)
    requires w.Removed() && w.Survives(g)
    ensures w.log.InRange(g) && |w.Left(g)| <= w.log.files[g].len
  {
    UsableIsTrue(w, w.log.files[g].id);
  }

  /** Writer faults lose no acknowledged record. After any run in which sends,
      file creations and writes may have failed, but nothing is in other hands,
      what reads back whole was written out to its last byte; every record that
      was, and that no clear has begun to remove, reads back, as every record
      `write` returned `Ok` for is; in the order they were written; and nothing
      that was not attempted. */
  lemma NothingAcknowledgedIsLost(w: World, ids: seq<SegId>, rooms: seq<nat>) returns (who: seq<Place>)
    requires Settled(w) && Kept(w) && AllHere(w) && |w.log.files| < U64_LIMIT && Lists(ids, w)
    requires |rooms| == |Trace(w.dir, Initial(ids, false))|
    ensures |who| == |rooms|
    ensures var outs := Outcomes(Trace(w.dir, Initial(ids, false)), rooms);
            && (forall i :: 0 <= i < |outs| && Delivers(outs[i]) ==>
                  w.IsPlace(who[i]) && Faithful(w.RecordAt(who[i]), outs[i]))
            && (forall i, k :: 0 <= i < k < |outs| && Delivers(outs[i]) && Delivers(outs[k]) ==> Less(who[i], who[k]))
            && (forall i :: 0 <= i < |outs| && outs[i].Got? ==> w.OnDisk(who[i]))
            && (forall p :: w.OnDisk(p) && p.e >= w.since ==> ReturnedAt(w, outs, rooms, who, p))
  {
    hide *;
    KeptIsWorld(w);
    forall p ensures (w.OnDisk(p) && p.e >= w.since ==> w.RecordSurvives(p)) && (Supported(w, p) ==> w.OnDisk(p)) {
      KeptSurvives(w, p);
    }
    ListsAll(ids, w);
    who := WhatComesBack(w, ids, rooms);
  }

  lemma ListsAll(ids: seq<SegId>, w: World)
    requires Lists(ids, w)
    ensures Sorted(ids) && forall id :: id in ids <==> id in w.dir
  {
  }

  /** Runs in which every call succeeded read back as exactly what they wrote. */
  lemma TidyReadsBack(w: World, ids: seq<SegId>, rooms: seq<nat>)
    requires Settled(w) && Tidy(w) && AllHere(w) && |w.log.files| < U64_LIMIT && Lists(ids, w)
    requires |rooms| == |WholeStory(w.log.epochs)|
    ensures Retells(Trace(w.dir, Initial(ids, false)), WholeStory(w.log.epochs), rooms)
  {
    hide *;
    TidyIsPristine(w);
    ListsAll(ids, w);
    ReadsBackWhatWasWritten(w, ids, rooms);
  }

  lemma TidyIsPristine(w: World)
    requires Settled(w) && Tidy(w) && AllHere(w) && |w.log.files| < U64_LIMIT
    ensures Pristine(w)
  {
    hide World.Survives;
    hide Stored;
    hide Finished;
    hide Kept;
    TidyKept(w);
    KeptIsWorld(w);
    forall g: nat | g < |w.log.files|
      ensures w.Survives(g) && |w.Left(g)| == w.log.files[g].len
    {
      assert Safe(w, g);
      SettledRemoved(w);
      StoredSurvives(w, g);
    }
  }

  lemma SettledRemoved(w: World)
    requires Settled(w)
    ensures w.Removed()
  {
    hide Numbered;
    hide AllFiles;
  }

  // ------------------------------------------------------------ the iterator

  /** How the iterator hands a record over. */
  function ItemOf(r: Record): Item {
    if |r.payload| > ITER_BUF_LEN then Item(r.meta, r.payload[..ITER_BUF_LEN], true)
    else Item(r.meta, r.payload, false)
  }

  function ItemsOf(recs: seq<Record>): seq<Item> {
    if recs == [] then [] else [ItemOf(recs[0])] + ItemsOf(recs[1..])
  }

  ghost function StoryRecords(story: seq<Event>): seq<Record> {
    if story == [] then []
    else (if story[0].RecordRead? then [story[0].record] else []) + StoryRecords(story[1..])
  }

  /** An attempt that tells of an event yields its record, if it is one. */
  lemma YieldsOne(att: Attempt, event: Event)
    requires Tells1(att, event)
    ensures YieldSeq(att) == if event.RecordRead? then [ItemOf(event.record)] else []
  {
  }

  lemma ItemsCons(r: Record, recs: seq<Record>)
    ensures ItemsOf([r] + recs) == [ItemOf(r)] + ItemsOf(recs)
  {
    assert ([r] + recs)[1..] == recs;
  }

  /** A run of reads that meets a story's events yields its records. */
  lemma {:induction false} ItemsFollow(trace: seq<Attempt>, story: seq<Event>)
    requires Follows(trace, story)
    ensures Items(trace) == ItemsOf(StoryRecords(story))
    decreases |trace|
  {
    hide Tells1;
    hide YieldSeq;
    hide ItemOf;
    if trace != [] {
      assert forall i :: 0 <= i < |trace| - 1 ==> trace[1..][i] == trace[i + 1] && story[1..][i] == story[i + 1];
      ItemsFollow(trace[1..], story[1..]);
      YieldsOne(trace[0], story[0]);
      var rest := StoryRecords(story[1..]);
      if story[0].RecordRead? { ItemsCons(story[0].record, rest); } else { assert [] + rest == rest; }
    }
  }

  lemma TellsRecord(event: Event, rest: seq<Event>)
    ensures StoryRecords([event] + rest) == (if event.RecordRead? then [event.record] else []) + StoryRecords(rest)
  {
    assert ([event] + rest)[1..] == rest;
  }

  lemma AttemptedUpTo(epochs: seq<Epoch>, e: nat)
    requires e < |epochs|
    ensures Attempted(epochs[..e + 1]) == Attempted(epochs[..e]) + epochs[e].recs
  {
    assert epochs[..e + 1][..e] == epochs[..e];
  }

  /** The records of a story, epoch by epoch. */
  lemma {:induction false} RecordsTold(epochs: seq<Epoch>, e: nat, j: nat)
    requires e < |epochs| && j <= |epochs[e].recs|
    ensures Attempted(epochs[..e]) + epochs[e].recs[..j] + StoryRecords(Story(epochs, e, j)) == Attempted(epochs)
    decreases |epochs| - e, |epochs[e].recs| - j
  {
    hide Story;
    hide StoryRecords;
    hide Attempted;
    var recs := epochs[e].recs;
    StoryMore(epochs, e, j);
    NoRecords();
    if j < |recs| {
      RecordsTold(epochs, e, j + 1);
      TellsRecord(RecordRead(recs[j]), Story(epochs, e, j + 1));
      assert recs[..j + 1] == recs[..j] + [recs[j]];
    } else {
      AttemptedUpTo(epochs, e);
      assert recs[..j] == recs;
      if e + 1 < |epochs| {
        RecordsTold(epochs, e + 1, 0);
        TellsRecord(SessionEnded(epochs[e].fmt.Fixed? && recs != []), Story(epochs, e + 1, 0));
      } else {
        assert epochs[..e + 1] == epochs;
      }
    }
  }

  lemma NoRecords()
    ensures StoryRecords([]) == []
  {
  }

  /** The iterator over a whole log yields every record attempted, in order,
      each with its metadata: those too long for its buffer cut and marked, the
      others whole. */
  lemma IteratorYieldsRecords(w: World, ids: seq<SegId>)
    requires Settled(w) && Tidy(w) && AllHere(w) && |w.log.files| < U64_LIMIT && Lists(ids, w)
    ensures Items(Trace(w.dir, Initial(ids, false))) == ItemsOf(Attempted(w.log.epochs))
  {
    hide Settled;
    hide Tidy;
    hide Lists;
    hide Pristine;
    hide Follows;
    hide Trace;
    hide Items;
    hide Story;
    TidyIsPristine(w);
    ListsAll(ids, w);
    FollowsStory(w, ids);
    ItemsFollow(Trace(w.dir, Initial(ids, false)), WholeStory(w.log.epochs));
    if w.log.epochs != [] {
      RecordsTold(w.log.epochs, 0, 0);
      assert Attempted(w.log.epochs[..0]) == [] && w.log.epochs[0].recs[..0] == [];
      var told := StoryRecords(WholeStory(w.log.epochs));
      assert [] + [] + told == told;
    }
  }

  // ------------------------------------------------------ and after damage

  /** Files deleted, replaced by what cannot be read, or cut anywhere. */
  ghost predicate Damaged(w: World, dir: Dir) {
    && dir.Keys <= w.dir.Keys
    && forall id :: id in dir ==> dir[id] <= w.dir[id] || !Usable(dir, id)
  }

  ghost function Remains(w: World, dir: Dir): World
    requires w.Removed() && dir.Keys <= w.dir.Keys
  {
    w.(dir := dir, at := map id | id in dir :: w.at[id])
  }

  /** Such damage, where a file that a failed write filled is not left without
      the one opened after it. */
  ghost predicate DamagedFairly(w: World, dir: Dir) {
    Damaged(w, dir) && w.Removed() && Remains(w, dir).ResumptionsHeld()
  }

  /** That is any damage at all, if no write was abandoned. */
  lemma FairlyAnyhow(w: World, dir: Dir)
    requires Settled(w) && Damaged(w, dir) && !w.log.WriteAbandoned()
    ensures DamagedFairly(w, dir)
  {
    hide World.Removed;
    SettledRemoved(w);
    assert forall g :: 0 <= g < |w.log.files| - 1 ==> !w.log.Resumed(g);
  }

  /** A log is, after such damage, one the reader's theorems are about. */
  lemma DamagedIsWorld(w: World, dir: Dir)
    requires Settled(w) && |w.log.files| < U64_LIMIT && DamagedFairly(w, dir)
    ensures Remains(w, dir).Valid()
  {
    hide World.Removed;
    hide World.ResumptionsHeld;
    hide Damaged;
    DamagedRemoved(w, dir);
    OrdinalsCount(w);
  }

  /** Any log a writer leaves, then damaged, reads back as what survives: what
      comes back whole is exactly the records all of whose bytes are left, and
      perhaps some that lost nothing but a data header; anything else delivered
      is the front of a written record; all in written order, none twice; and no
      more files are reported lost than are gone. */
  lemma DamageIsContained(w: World, dir: Dir, ids: seq<SegId>, rooms: seq<nat>) returns (who: seq<Place>)
    requires Settled(w) && |w.log.files| < U64_LIMIT && DamagedFairly(w, dir)
    requires Sorted(ids) && (forall id :: id in ids <==> id in dir) && |rooms| == |Trace(dir, Initial(ids, false))|
    ensures |who| == |rooms| && w.Removed() && dir.Keys <= w.dir.Keys
    ensures var outs := Outcomes(Trace(dir, Initial(ids, false)), rooms);
            var left := Remains(w, dir);
            && (forall i :: 0 <= i < |outs| && Delivers(outs[i]) ==>
                  left.IsPlace(who[i]) && Faithful(left.RecordAt(who[i]), outs[i]))
            && (forall i, k :: 0 <= i < k < |outs| && Delivers(outs[i]) && Delivers(outs[k]) ==> Less(who[i], who[k]))
            && (forall i :: 0 <= i < |outs| && outs[i].Got? ==> Supported(left, who[i]))
            && (forall p :: left.RecordSurvives(p) ==> ReturnedAt(left, outs, rooms, who, p))
    ensures TotalLost(Trace(dir, Initial(ids, false))) <= GoneAfter(Remains(w, dir), -1)
  {
    hide *;
    AfterIs(w, dir);
    DamagedIsWorld(w, dir);
    who := WhatComesBack(Remains(w, dir), ids, rooms);
    LossesNeverOverstated(Remains(w, dir), ids);
  }

  lemma AfterIs(w: World, dir: Dir)
    requires DamagedFairly(w, dir)
    ensures w.Removed() && dir.Keys <= w.dir.Keys && Remains(w, dir).dir == dir && Remains(w, dir).log == w.log
  {
  }

  lemma DamagedRemoved(w: World, dir: Dir)
    requires Settled(w) && Damaged(w, dir)
    ensures w.Removed() && Remains(w, dir).Removed()
  {
    hide Log.Image;
    hide Log.Valid;
    hide Usable;
    SettledRemoved(w);
    var w1 := Remains(w, dir);
    forall id | id in dir
      ensures !Usable(dir, id) || dir[id] <= w1.log.Image(w1.at[id])
    {
      ShortUnusable(dir, id);
    }
    assert w1.dir.Keys == w1.at.Keys;
  }

  lemma OrdinalsCount(w: World)
    requires Settled(w) && |w.log.files| < U64_LIMIT
    ensures forall g :: 0 <= g < |w.log.files| ==> w.log.files[g].ordinal < U64_LIMIT - 1
  {
    hide Numbered;
    hide AllFiles;
  }

  lemma ShortUnusable(dir: Dir, id: SegId)
    ensures id in dir && |dir[id]| < HEADER_LEN ==> !Usable(dir, id)
  {
  }
}
