/** Where `send` takes files away: what was handed over, together with what is
    left, is the log as it was, if names were given out in order. */
module Custody {
  import opened Bytes
  import opened Format
  import opened Header
  import opened ReadSpec
  import opened Layout
  import opened Damage
  import opened LogSteps
  import opened DirSteps

  /** Every file was named later than all before it. */
  ghost predicate NamesRise(log: Log) {
    forall g, h :: 0 <= g < h < |log.files| ==> log.files[g].id < log.files[h].id
  }

  ghost predicate Names(log: Log, g: nat, id: SegId) { g < |log.files| && log.files[g].id == id }

  /** Which file of the log a name is of. */
  ghost function OrdinalOf(log: Log, id: SegId): nat {
    if exists g: nat :: Names(log, g, id) then
      var g: nat :| Names(log, g, id); g
    else 0
  }

  /** The files of a log in one place again. */
  ghost function Reunited(w: World): World {
    var dir := Gathered(w.passed, w.dir);
    w.(dir := dir, at := map id | id in dir :: OrdinalOf(w.log, id), passed := [])
  }

  // ------------------------------------------------------ what was received

  ghost predicate Source(passed: seq<Handed>, id: SegId, bytes: seq<byte>, k: nat) {
    k < |passed| && passed[k].id == id && passed[k].content == Some(bytes)
  }

  /** What was received was handed over, and nothing handed over was longer. */
  lemma {:induction false} ReceivedIs(passed: seq<Handed>, id: SegId)
    ensures id in Received(passed) ==> exists k: nat :: Source(passed, id, Received(passed)[id], k)
    ensures forall k :: 0 <= k < |passed| && passed[k].id == id && passed[k].content.Some? ==>
      id in Received(passed) && |passed[k].content.value| <= |Received(passed)[id]|
    decreases |passed|
  {
    if passed != [] {
      var n := |passed| - 1;
      ReceivedIs(passed[..n], id);
      if id in Received(passed) {
        if id in Received(passed[..n]) && Received(passed)[id] == Received(passed[..n])[id] {
          var k: nat :| Source(passed[..n], id, Received(passed[..n])[id], k);
          assert Source(passed, id, Received(passed)[id], k);
        } else {
          assert Source(passed, id, Received(passed)[id], n);
        }
      }
      forall k | 0 <= k < |passed| && passed[k].id == id && passed[k].content.Some?
        ensures id in Received(passed) && |passed[k].content.value| <= |Received(passed)[id]|
      {
        if k < n { assert passed[..n][k] == passed[k]; }
      }
    }
  }

  /** What file g was, as far as it was written: the front of it, or too little
      to be told from any other. */
  ghost predicate FrontOf(log: Log, g: nat, bytes: seq<byte>) {
    log.Valid() && g < |log.files| && (|bytes| < HEADER_LEN || bytes <= log.Image(g))
  }

  lemma OnlyOne(log: Log, g: nat, id: SegId)
    requires NamesRise(log) && Names(log, g, id)
    ensures OrdinalOf(log, id) == g
  {
    assert exists x: nat :: Names(log, x, id);
    var x := OrdinalOf(log, id);
    assert Names(log, x, id);
  }

  /** Every name is of one file, and what is under it is the front of that. */
  lemma GatheredFront(w: World, id: SegId)
    requires Settled(w) && NamesRise(w.log) && id in Gathered(w.passed, w.dir)
    ensures var g := OrdinalOf(w.log, id);
            Names(w.log, g, id) && FrontOf(w.log, g, Gathered(w.passed, w.dir)[id])
  {
    hide NamesRise;
    hide Log.Valid;
    hide Log.Image;
    hide Numbered;
    hide Received;
    ReceivedIs(w.passed, id);
    RemovedOf(w);
    if id in w.dir && Gathered(w.passed, w.dir)[id] == w.dir[id] {
      OnlyOne(w.log, w.at[id], id);
    } else {
      var k: nat :| Source(w.passed, id, Received(w.passed)[id], k);
      assert SomeFile(w.log, w.passed[k]);
      var g: nat :| AsFile(w.log, w.passed[k], g);
      OnlyOne(w.log, g, id);
    }
  }

  // ------------------------------------------------------- in step, and kept

  lemma ReunitedPair(w: World, a: SegId, b: SegId)
    requires w.log.Valid() && NamesRise(w.log)
    requires Names(w.log, OrdinalOf(w.log, a), a) && Names(w.log, OrdinalOf(w.log, b), b)
    ensures var i, k := OrdinalOf(w.log, a), OrdinalOf(w.log, b);
            && (a < b ==> i < k)
            && (w.log.files[i].session == w.log.files[k].session <==> w.log.Base(i) == w.log.Base(k))
            && w.log.files[i].session <= a
  {
    hide Log.Valid;
    var i, k := OrdinalOf(w.log, a), OrdinalOf(w.log, b);
    SessionOf(w.log, i);
    SessionOf(w.log, k);
    assert k < i ==> w.log.files[k].id < w.log.files[i].id;
    assert w.log.Base(i) < w.log.Base(k) ==> w.log.files[w.log.Base(i)].id < w.log.files[w.log.Base(k)].id;
    assert w.log.Base(k) < w.log.Base(i) ==> w.log.files[w.log.Base(k)].id < w.log.files[w.log.Base(i)].id;
    assert w.log.Base(i) < i ==> w.log.files[w.log.Base(i)].id < w.log.files[i].id;
  }

  /** Whatever was taken away, the files in one place again are in step with
      the log, if names were given out in order. */
  lemma ReunitedSettled(w: World)
    requires Settled(w) && NamesRise(w.log)
    ensures Settled(Reunited(w))
  {
    hide Log.Image;
    hide Log.Valid;
    hide NamesRise;
    hide Numbered;
    hide Gathered;
    hide FromBytes;
    hide OrdinalOf;
    RemovedOf(w);
    var u := Reunited(w);
    forall a | a in u.dir ensures PresentAs(u, a) {
      GatheredFront(w, a);
      ReunitedPair(w, a, a);
    }
    forall a, b | a in u.dir && b in u.dir ensures PairTold(u, a, b) {
      GatheredFront(w, a);
      GatheredFront(w, b);
      ReunitedPair(w, a, b);
    }
    SettledFrom(u);
  }

  /** A file that is not lost is there again, whole. */
  lemma ReunitedWhole(w: World, g: nat)
    requires Settled(w) && NamesRise(w.log) && g < |w.log.files| && Safe(w, g)
    ensures Stored(Reunited(w), g)
  {
    hide NamesRise;
    hide Log.Valid;
    hide Log.Image;
    hide Numbered;
    hide Received;
    hide OrdinalOf;
    hide AllFiles;
    var id := w.log.files[g].id;
    RemovedOf(w);
    OnlyOne(w.log, g, id);
    ReceivedIs(w.passed, id);
    if Given(w, g) {
      var k :| 0 <= k < |w.passed| && WholeFile(w.log, w.passed[k], g);
    }
    LongEnough(w.log, g);
    GatheredFront(w, id);
    assert |Gathered(w.passed, w.dir)[id]| >= |w.log.Image(g)|;
  }

  lemma LongEnough(log: Log, g: nat)
    requires log.Valid() && g < |log.files|
    ensures |log.Image(g)| >= HEADER_LEN
  {
    hide ToBytes;
    hide Log.Valid;
  }

  /** So nothing is lost: all that was written can be read again by whoever has
      what was handed over and what is left. */
  lemma ReunitedKept(w: World)
    requires Settled(w) && NamesRise(w.log) && w.fair && w.since == 0
    ensures Kept(w) ==> Kept(Reunited(w))
    ensures Complete(w) ==> Complete(Reunited(w))
  {
    hide Settled;
    hide NamesRise;
    hide Log.Valid;
    hide Safe;
    hide Stored;
    hide Gathered;
    var u := Reunited(w);
    LogIs(w);
    forall g: nat | g < |w.log.files| && Safe(w, g) ensures Stored(u, g) && Safe(u, g) {
      ReunitedWhole(w, g);
      StoredSafe(u, g);
    }
    if Kept(w) {
      forall g: nat | u.log.Resumed(g) ensures Stored(u, g + 1) {
        assert Safe(w, g + 1) || Blank(w.log, g + 1);
      }
    }
  }

  lemma LogIs(w: World)
    requires Settled(w)
    ensures w.log.Valid()
  {
    hide Numbered;
    hide AllFiles;
  }

  lemma StoredSafe(w: World, g: nat)
    ensures Stored(w, g) ==> Safe(w, g)
  {
  }

  /** Nor can it be otherwise: a directory that has every file is in step with
      the log only if names were given out in order. */
  lemma NamesMustRise(w: World)
    requires Settled(w) && forall g :: 0 <= g < |w.log.files| ==> Stored(w, g)
    ensures NamesRise(w.log)
  {
    hide Log.Valid;
    hide Log.Image;
    hide Usable;
    hide Numbered;
    hide AllFiles;
    forall g, h | 0 <= g < h < |w.log.files| ensures w.log.files[g].id < w.log.files[h].id {
      assert Stored(w, g) && Stored(w, h);
      NamesOrdered(w, w.log.files[g].id, w.log.files[h].id);
    }
  }

  /** Names keep rising exactly as long as each file is named later than all
      before it. */
  lemma NamesRiseOn(log: Log, other: Log)
    requires |other.files| == |log.files| + 1 && other.files[..|log.files|] == log.files
    ensures NamesRise(other) <==>
      NamesRise(log) && forall g :: 0 <= g < |log.files| ==> log.files[g].id < other.files[|log.files|].id
  {
    assert forall g :: 0 <= g < |log.files| ==> other.files[g] == other.files[..|log.files|][g];
  }

  /** With nothing passed on it is the directory as it is. */
  lemma NothingPassed(w: World)
    requires w.passed == []
    ensures Gathered(w.passed, w.dir) == w.dir
  {
  }

  // --------------------------------------------------- one name for two files

  const TWO_RECORDS: Epoch := Epoch(Fixed(1), 1, [Record([7], MetaFixed), Record([8], MetaFixed)])

  /** Two files of one session under one name: the clock had not moved on when
      the first, full, was taken away and the second created. */
  const ONE_NAME: Log := Log([TWO_RECORDS], [LFile(100, 100, 0, 0, 0, 1), LFile(100, 100, 1, 0, 1, 1)])

  lemma OneNameValid()
    ensures ONE_NAME.Valid() && Current(ONE_NAME) && Numbered(ONE_NAME)
    ensures TWO_RECORDS.Valid() && TWO_RECORDS.Start(1) == 1 && TWO_RECORDS.Start(2) == 2 == TWO_RECORDS.End()
  {
    assert TWO_RECORDS.Start(1) == 1 && TWO_RECORDS.Start(2) == 2;
    assert TWO_RECORDS.Valid();
    assert ONE_NAME.InRange(0) && ONE_NAME.InRange(1);
    assert ONE_NAME.SameEpoch(0);
    assert forall g: nat :: !ONE_NAME.Resumed(g) && !ONE_NAME.NewSession(g);
  }

  /** What the second leaves behind. */
  ghost function OneNameWorld(): World {
    OneNameValid();
    World(ONE_NAME, map[100 := ONE_NAME.Image(1)], map[100 := 1],
          [Handed(100, Some(ONE_NAME.Image(0)), {100})], true, 0)
  }

  /** The writer keeps in step, and both records were written out; on its side
      nothing is lost. */
  lemma OneNameInStep()
    ensures var w := OneNameWorld();
            Settled(w) && w.OnDisk(Place(0, 0)) && w.OnDisk(Place(0, 1)) && !NamesRise(w.log)
  {
    hide FromBytes;
    hide ToBytes;
    hide Log.Valid;
    hide Numbered;
    hide Log.Image;
    OneNameValid();
    var w := OneNameWorld();
    assert AsFile(w.log, w.passed[0], 0);
    assert ONE_NAME.InRange(0) && ONE_NAME.InRange(1);
    assert !(w.log.files[0].id < w.log.files[1].id);
  }

  lemma OneNameKept()
    ensures Kept(OneNameWorld())
  {
    hide FromBytes;
    hide ToBytes;
    hide Log.Valid;
    hide Log.Image;
    OneNameValid();
    var w := OneNameWorld();
    assert WholeFile(w.log, w.passed[0], 0);
    assert Given(w, 0) && Stored(w, 1);
    assert forall g: nat :: !w.log.Resumed(g);
  }

  /** But of the two files only one is left to whoever keeps them by name. */
  lemma OneNameLosesOne()
    ensures var w := OneNameWorld();
            && Settled(w) && Kept(w) && !NamesRise(w.log)
            && w.OnDisk(Place(0, 0)) && w.OnDisk(Place(0, 1))
            && Gathered(w.passed, w.dir) == map[100 := w.log.Image(1)] && w.log.Image(0) != w.log.Image(1)
  {
    hide Settled;
    hide Kept;
    hide NamesRise;
    hide Log.Valid;
    hide Log.Image;
    hide World.OnDisk;
    OneNameValid();
    OneNameInStep();
    OneNameKept();
    OneNameApart();
    var w := OneNameWorld();
    assert Received(w.passed[..0]) == map[];
  }

  /** Their headers differ in the sequence number, their data in its byte. */
  lemma OneNameApart()
    requires ONE_NAME.Valid()
    ensures |ONE_NAME.Image(0)| == |ONE_NAME.Image(1)| && ONE_NAME.Image(0) != ONE_NAME.Image(1)
  {
    hide FromBytes;
    hide Log.Valid;
    OneNameValid();
    var a, b := ONE_NAME.HeaderOf(0), ONE_NAME.HeaderOf(1);
    HeaderRoundTrip(a, []);
    HeaderRoundTrip(b, []);
    assert ToBytes(a) + [] == ToBytes(a) && ToBytes(b) + [] == ToBytes(b);
    assert ONE_NAME.Image(0)[..HEADER_LEN] == ToBytes(a) && ONE_NAME.Image(1)[..HEADER_LEN] == ToBytes(b);
    assert a.sequence == 0 && b.sequence == 1;
  }
}
