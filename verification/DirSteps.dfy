/** What the steps of a writer make of the directory it writes into: how the
    files found there correspond to the log, step by step. */
module DirSteps {
  import opened Bytes
  import opened Format
  import opened Header
  import opened ReadSpec
  import opened Layout
  import opened Damage
  import opened LogSteps

  /** The directory holds nothing but files of the log, in the order they were
      written, as far as they were; no file is older than its session. What was
      passed on was no other, and records are numbered as they should be. */
  ghost predicate Settled(w: World) {
    && Current(w.log) && w.Removed() && Numbered(w.log) && AllFiles(w.log, w.passed)
    && w.since <= |w.log.epochs|
    && forall id :: id in w.dir ==>
         && w.log.files[w.at[id]].session <= id
         && (|w.dir[id]| < HEADER_LEN || w.dir[id] <= w.log.Image(w.at[id]))
  }

  /** What was handed over is file g, as far as it was written then. */
  ghost predicate AsFile(log: Log, x: Handed, g: nat) {
    && log.Valid() && g < |log.files| && log.files[g].id == x.id && x.content.Some?
    && (|x.content.value| < HEADER_LEN || x.content.value <= log.Image(g))
  }

  ghost predicate SomeFile(log: Log, x: Handed) {
    x.content.Some? ==> exists g: nat :: AsFile(log, x, g)
  }

  ghost predicate AllFiles(log: Log, passed: seq<Handed>) {
    forall k :: 0 <= k < |passed| ==> SomeFile(log, passed[k])
  }

  /** Every file that was, is still, with what it held and perhaps more. */
  ghost predicate ImagesGrew(log: Log, other: Log) {
    && log.Valid() && other.Valid() && |log.files| <= |other.files|
    && forall g :: 0 <= g < |log.files| ==> other.files[g].id == log.files[g].id && log.Image(g) <= other.Image(g)
  }

  lemma FilesStay(log: Log, other: Log, passed: seq<Handed>)
    requires ImagesGrew(log, other) && AllFiles(log, passed)
    ensures AllFiles(other, passed)
  {
    hide Log.Valid;
    hide Log.Image;
    forall k | 0 <= k < |passed| ensures SomeFile(other, passed[k]) {
      if passed[k].content.Some? {
        assert SomeFile(log, passed[k]);
        var g: nat :| AsFile(log, passed[k], g);
        assert AsFile(other, passed[k], g);
      }
    }
  }

  /** File g is there as written. */
  ghost predicate Stored(w: World, g: nat) {
    && w.log.Valid() && g < |w.log.files|
    && var id := w.log.files[g].id;
       id in w.at && w.at[id] == g && id in w.dir && w.dir[id] == w.log.Image(g)
  }

  /** A file whose header could not be written: it stands for a session of its
      own, without a record. */
  ghost predicate Blank(log: Log, g: nat)
    requires g < |log.files|
  {
    log.files[g].len == 0 && log.files[g].ordinal == 0
  }

  /** File g was handed over whole. */
  ghost predicate Given(w: World, g: nat) {
    && w.log.Valid() && g < |w.log.files|
    && exists k :: 0 <= k < |w.passed| && WholeFile(w.log, w.passed[k], g)
  }

  ghost predicate WholeFile(log: Log, x: Handed, g: nat)
    requires log.Valid() && g < |log.files|
  {
    x.id == log.files[g].id && x.content == Some(log.Image(g))
  }

  /** File g is not lost: it is there, or with whoever it was handed to. */
  ghost predicate Safe(w: World, g: nat) { Stored(w, g) || Given(w, g) }

  /** If whoever files are handed to takes no others: of what no clear has begun
      to remove, nothing is lost; and with none taken, a clear removes no file
      opened after an abandoned write before the one it follows. */
  ghost predicate Kept(w: World) {
    w.log.Valid() && (w.fair ==>
      && (forall g :: 0 <= g < |w.log.files| && w.log.files[g].epoch >= w.since ==> Safe(w, g) || Blank(w.log, g))
      && (w.passed == [] ==> forall g: nat :: w.log.Resumed(g) && Stored(w, g) ==> Stored(w, g + 1)))
  }

  /** ... and no header went unwritten. */
  ghost predicate Complete(w: World) {
    w.log.Valid() && (w.fair ==> forall g :: 0 <= g < |w.log.files| ==> Safe(w, g))
  }

  // ------------------------------------------------------------- the steps

  /** A file is added, named later than all there are. */
  ghost function WithFile(w: World, other: Log, id: SegId, bytes: seq<byte>): World {
    w.(log := other, dir := w.dir[id := bytes], at := w.at[id := |w.log.files|])
  }

  ghost predicate NamedLast(w: World, id: SegId) { forall a :: a in w.dir ==> a < id }

  /** The files present of the session that `other`'s last file belongs to are
      those written since it began. */
  ghost predicate SessionTold(w: World, other: Log)
    requires |other.files| == |w.log.files| + 1
  {
    forall a :: a in w.dir ==> ToldAt(w, other, a)
  }

  lemma FileJoins(w: World, other: Log, id: SegId, bytes: seq<byte>)
    requires Settled(w) && Current(other) && ImagesKept(w.log, other) && Numbered(other)
    requires |other.files| == |w.log.files| + 1 && other.files[..|w.log.files|] == w.log.files
    requires var f := other.files[|w.log.files|]; f.id == id && f.session <= id
    requires |bytes| < HEADER_LEN || bytes <= other.Image(|w.log.files|)
    requires NamedLast(w, id) && SessionTold(w, other) && |w.log.epochs| <= |other.epochs|
    ensures Settled(WithFile(w, other, id, bytes)) && ImagesGrew(w.log, other)
  {
    hide Usable;
    hide Log.Image;
    hide Log.Valid;
    hide ImagesKept;
    hide SessionTold;
    hide PresentAs;
    hide PairTold;
    hide World.Removed;
    hide NamedLast;
    hide Numbered;
    hide AllFiles;
    var w1 := WithFile(w, other, id, bytes);
    var n := |w.log.files|;
    assert forall g :: 0 <= g < n ==> other.files[g] == other.files[..n][g];
    SameImages(w.log, other);
    FilesStay(w.log, other, w.passed);
    SameKeys(w, other, id, bytes);
    forall a | a in w1.dir
      ensures PresentAs(w1, a)
    {
      JoinedAt(w, other, id, bytes, a);
    }
    FilesTold(w, other, id, bytes);
    SettledFrom(w1);
  }

  lemma SameKeys(w: World, other: Log, id: SegId, bytes: seq<byte>)
    requires w.Removed()
    ensures WithFile(w, other, id, bytes).dir.Keys == WithFile(w, other, id, bytes).at.Keys
  {
  }

  lemma SameImages(log: Log, other: Log)
    requires log.Valid() && other.Valid() && ImagesKept(log, other)
    requires forall g :: 0 <= g < |log.files| ==> other.files[g].id == log.files[g].id
    ensures ImagesGrew(log, other)
  {
    hide Log.Valid;
    hide Log.Image;
  }

  lemma SettledFrom(w: World)
    requires Current(w.log) && w.dir.Keys == w.at.Keys && Numbered(w.log) && AllFiles(w.log, w.passed)
    requires w.since <= |w.log.epochs|
    requires forall a :: a in w.dir ==> PresentAs(w, a)
    requires forall a, b :: a in w.dir && b in w.dir ==> PairTold(w, a, b)
    ensures Settled(w)
  {
    hide Usable;
    hide Log.Image;
    hide Log.Valid;
  }

  /** A file present is one of the log, and not older than its session. */
  ghost predicate PresentAs(w: World, a: SegId) {
    && w.log.Valid() && a in w.at && a in w.dir
    && w.at[a] < |w.log.files| && w.log.files[w.at[a]].id == a && w.log.files[w.at[a]].session <= a
    && (|w.dir[a]| < HEADER_LEN || w.dir[a] <= w.log.Image(w.at[a]))
    && (!Usable(w.dir, a) || w.dir[a] <= w.log.Image(w.at[a]))
  }

  lemma JoinedAt(w: World, other: Log, id: SegId, bytes: seq<byte>, a: SegId)
    requires Settled(w) && other.Valid() && ImagesKept(w.log, other)
    requires |other.files| == |w.log.files| + 1
    requires forall g :: 0 <= g < |w.log.files| ==> other.files[g] == w.log.files[g]
    requires var f := other.files[|w.log.files|]; f.id == id && f.session <= id
    requires |bytes| < HEADER_LEN || bytes <= other.Image(|w.log.files|)
    requires NamedLast(w, id) && a in WithFile(w, other, id, bytes).dir
    ensures PresentAs(WithFile(w, other, id, bytes), a)
  {
    hide FromBytes;
    hide Log.Image;
    hide Log.Valid;
    var w1 := WithFile(w, other, id, bytes);
    if a != id {
      assert a in w.dir;
      assert Usable(w1.dir, a) == Usable(w.dir, a);
    }
  }

  lemma FilesTold(w: World, other: Log, id: SegId, bytes: seq<byte>)
    requires w.Removed()
    requires |other.files| == |w.log.files| + 1
    requires NamedLast(w, id) && SessionTold(w, other)
    requires forall g :: 0 <= g < |w.log.files| ==> other.files[g] == w.log.files[g]
    ensures var w1 := WithFile(w, other, id, bytes);
            forall a, b :: a in w1.dir && b in w1.dir ==> PairTold(w1, a, b)
  {
    hide PairTold;
    var w1 := WithFile(w, other, id, bytes);
    forall a, b | a in w1.dir && b in w1.dir ensures PairTold(w1, a, b) {
      PairJoined(w, other, id, bytes, a, b);
    }
  }

  /** Two files present sort as they were written, and tell their sessions
      apart. */
  ghost predicate PairTold(w: World, a: SegId, b: SegId) {
    && a in w.at && b in w.at && w.at[a] < |w.log.files| && w.at[b] < |w.log.files|
    && (a < b ==> w.at[a] < w.at[b])
    && (w.log.files[w.at[a]].session == w.log.files[w.at[b]].session
        <==> w.log.Base(w.at[a]) == w.log.Base(w.at[b]))
  }

  lemma PairJoined(w: World, other: Log, id: SegId, bytes: seq<byte>, a: SegId, b: SegId)
    requires w.Removed()
    requires |other.files| == |w.log.files| + 1
    requires NamedLast(w, id) && SessionTold(w, other)
    requires forall g :: 0 <= g < |w.log.files| ==> other.files[g] == w.log.files[g]
    requires var w1 := WithFile(w, other, id, bytes); a in w1.dir && b in w1.dir
    ensures PairTold(WithFile(w, other, id, bytes), a, b)
  {
    hide Usable;
    hide Log.Image;
    hide Log.Valid;
    assert a != id ==> a in w.dir && a < id;
    assert b != id ==> b in w.dir && b < id;
  }

  /** The files two directories have in common are as safe in one as in the
      other. */
  ghost predicate SameSafety(w: World, w1: World, n: nat)
    requires n <= |w.log.files| && n <= |w1.log.files|
  {
    forall g :: 0 <= g < n ==>
      && w1.log.files[g] == w.log.files[g]
      && (Stored(w1, g) <==> Stored(w, g)) && (Given(w1, g) <==> Given(w, g))
  }

  /** Then a last file that is safe, or blank, leaves everything kept. */
  lemma KeptStep(w: World, w1: World, n: nat)
    requires w.log.Valid() && w1.log.Valid() && w1.fair == w.fair && w1.since == w.since && w1.passed == w.passed
    requires n <= |w.log.files| && |w.log.files| <= |w1.log.files| == n + 1 && SameSafety(w, w1, n)
    requires w.fair ==> Safe(w1, n) || Blank(w1.log, n)
    ensures Kept(w) ==> Kept(w1)
    ensures Complete(w) && (w.fair ==> Safe(w1, n)) ==> Complete(w1)
  {
    hide Log.Valid;
    hide Stored;
    hide WholeFile;
    forall g | 0 <= g < n ensures Safe(w1, g) <==> Safe(w, g) {
      assert w1.log.files[g] == w.log.files[g];
    }
    if Kept(w) && w.fair && w.passed == [] {
      forall g: nat | w1.log.Resumed(g) && Stored(w1, g) ensures Stored(w1, g + 1) {
        if g + 1 < n {
          SameLink(w.log, w1.log, g);
          assert w.log.Resumed(g);
        }
      }
    }
  }

  lemma SameGiven(w: World, w1: World, g: nat)
    requires w.log.Valid() && w1.log.Valid() && g < |w.log.files| && g < |w1.log.files|
    requires w1.passed == w.passed && w1.log.files[g].id == w.log.files[g].id && w1.log.Image(g) == w.log.Image(g)
    ensures Given(w1, g) <==> Given(w, g)
  {
    hide Log.Valid;
    hide Log.Image;
    assert forall k :: 0 <= k < |w.passed| ==>
      (WholeFile(w.log, w.passed[k], g) <==> WholeFile(w1.log, w1.passed[k], g));
  }

  lemma FileKept(w: World, other: Log, id: SegId, bytes: seq<byte>)
    requires w.Removed() && other.Valid() && ImagesKept(w.log, other)
    requires |other.files| == |w.log.files| + 1 && other.files[..|w.log.files|] == w.log.files
    requires other.files[|w.log.files|].id == id && NamedLast(w, id)
    ensures var w1 := WithFile(w, other, id, bytes); var n := |w.log.files|;
            && (Kept(w) && (bytes == other.Image(n) || Blank(other, n)) ==> Kept(w1))
            && (Complete(w) && bytes == other.Image(n) ==> Complete(w1))
            && (bytes == other.Image(n) ==> Stored(w1, n))
  {
    hide Log.Valid;
    hide Log.Image;
    hide Usable;
    var w1 := WithFile(w, other, id, bytes);
    var n := |w.log.files|;
    forall g | 0 <= g < n
      ensures other.files[g] == w.log.files[g] && (Stored(w1, g) <==> Stored(w, g)) && (Given(w1, g) <==> Given(w, g))
    {
      assert other.files[g] == other.files[..n][g];
      SameGiven(w, w1, g);
    }
    if bytes == other.Image(n) || Blank(other, n) { KeptStep(w, w1, n); }
  }

  /** The log changes in what it promises, not in what is on disk. */
  lemma LogAgrees(w: World, other: Log)
    requires Settled(w) && Current(other) && ImagesKept(w.log, other) && other.files == w.log.files && Numbered(other)
    requires |w.log.epochs| <= |other.epochs|
    ensures Settled(w.(log := other)) && ImagesGrew(w.log, other)
    ensures Kept(w) ==> Kept(w.(log := other))
    ensures Complete(w) ==> Complete(w.(log := other))
  {
    hide Log.Valid;
    hide Log.Image;
    hide OpenValidated;
    hide Numbered;
    hide AllFiles;
    var w1 := w.(log := other);
    SameImages(w.log, other);
    FilesStay(w.log, other, w.passed);
    forall g | 0 <= g < |w.log.files|
      ensures (Stored(w1, g) <==> Stored(w, g)) && (Given(w1, g) <==> Given(w, g))
      ensures other.Base(g) == w.log.Base(g)
    {
      SameGiven(w, w1, g);
    }
    KeptStill(w, w1);
  }

  /** So it is with no file added at all. */
  lemma KeptStill(w: World, w1: World)
    requires w.log.Valid() && w1.log.Valid() && w1.fair == w.fair && w1.since == w.since && w1.passed == w.passed
    requires |w1.log.files| == |w.log.files| && SameSafety(w, w1, |w.log.files|)
    ensures Kept(w) ==> Kept(w1)
    ensures Complete(w) ==> Complete(w1)
  {
    hide Log.Valid;
    hide Stored;
    hide WholeFile;
    forall g | 0 <= g < |w.log.files| ensures Safe(w1, g) <==> Safe(w, g) {
      assert w1.log.files[g] == w.log.files[g];
    }
    if Kept(w) && w.fair && w.passed == [] {
      forall g: nat | w1.log.Resumed(g) && Stored(w1, g) ensures Stored(w1, g + 1) {
        SameLink(w.log, w1.log, g);
        assert w.log.Resumed(g);
      }
    }
  }

  /** The last file grows by bytes of the stream. */
  ghost function Grown(w: World, chunk: seq<byte>): World
    requires w.log.files != []
  {
    var id := LastFileOf(w.log).id;
    if id !in w.dir then w else w.(log := WithBytes(w.log, |chunk|), dir := w.dir[id := w.dir[id] + chunk])
  }

  /** The chunk is what comes next in the stream, and fits the file. */
  ghost predicate ComesNext(log: Log, chunk: seq<byte>)
    requires Current(log) && log.files != []
  {
    CurrentValid(log);
    var o := LastFileOf(log).start + LastFileOf(log).len;
    var s := LastEpochOf(log).Bytes();
    && LastFileOf(log).len + |chunk| <= LastEpochOf(log).dsize
    && o + |chunk| <= |s| && chunk == s[o..o + |chunk|]
  }

  lemma FileGrows(w: World, chunk: seq<byte>)
    requires Settled(w) && w.log.files != [] && Stored(w, |w.log.files| - 1) && ComesNext(w.log, chunk)
    ensures var w1 := Grown(w, chunk);
            && Settled(w1) && Stored(w1, |w.log.files| - 1) && ImagesGrew(w.log, w1.log)
            && (Kept(w) ==> Kept(w1)) && (Complete(w) ==> Complete(w1))
  {
    hide Log.Image;
    hide Log.Valid;
    hide World.Removed;
    hide OpenValidated;
    hide Epoch.Bytes;
    hide Numbered;
    hide AllFiles;
    hide Kept;
    hide Complete;
    CurrentValid(w.log);
    BytesOf(LastEpochOf(w.log));
    Wrote(w.log, |chunk|);
    BytesNumbered(w.log, |chunk|);
    ImageGrows(w, chunk);
    ImagesExtend(w.log, WithBytes(w.log, |chunk|));
    FilesStay(w.log, WithBytes(w.log, |chunk|), w.passed);
    GrownSettled(w, chunk);
  }

  /** The file written holds the image of the log as it is then. */
  ghost predicate Extends(w: World, chunk: seq<byte>)
    requires w.log.files != [] && w.log.Valid()
  {
    var other, n := WithBytes(w.log, |chunk|), |w.log.files| - 1;
    && Current(other)
    && (forall g :: 0 <= g < n ==> other.Image(g) == w.log.Image(g))
    && other.Image(n) == w.log.Image(n) + chunk
  }

  lemma ImagesExtend(log: Log, other: Log)
    requires log.Valid() && other.Valid() && log.files != [] && |other.files| == |log.files|
    requires forall g :: 0 <= g < |log.files| ==> other.files[g].id == log.files[g].id
    requires forall g :: 0 <= g < |log.files| - 1 ==> other.Image(g) == log.Image(g)
    requires log.Image(|log.files| - 1) <= other.Image(|log.files| - 1)
    ensures ImagesGrew(log, other)
  {
    hide Log.Valid;
    hide Log.Image;
  }

  lemma ImageGrows(w: World, chunk: seq<byte>)
    requires w.Removed() && w.log.files != [] && Stored(w, |w.log.files| - 1) && Extends(w, chunk)
    ensures var w1 := Grown(w, chunk);
            && Stored(w1, |w.log.files| - 1)
            && (Kept(w) ==> Kept(w1)) && (Complete(w) ==> Complete(w1))
  {
    hide Log.Image;
    hide Log.Valid;
    hide OpenValidated;
    hide Kept;
    hide Complete;
    hide Given;
    var n := |w.log.files| - 1;
    var w1 := Grown(w, chunk);
    forall g | 0 <= g < n ensures (Stored(w1, g) <==> Stored(w, g)) && (Given(w1, g) <==> Given(w, g)) {
      SameGiven(w, w1, g);
    }
    KeptStep(w, w1, n);
  }

  lemma GrownSettled(w: World, chunk: seq<byte>)
    requires Settled(w) && w.log.files != [] && Stored(w, |w.log.files| - 1) && Extends(w, chunk)
    requires Numbered(WithBytes(w.log, |chunk|)) && AllFiles(WithBytes(w.log, |chunk|), w.passed)
    ensures Settled(Grown(w, chunk))
  {
    hide Numbered;
    hide AllFiles;
    hide Log.Image;
    hide Log.Valid;
    hide World.Removed;
    hide FromBytes;
    hide PresentAs;
    hide PairTold;
    RemovedOf(w);
    var w1 := Grown(w, chunk);
    forall a | a in w1.dir ensures PresentAs(w1, a) {
      GrownPresent(w, chunk, a);
    }
    forall a, b | a in w1.dir && b in w1.dir ensures PairTold(w1, a, b) {
      GrownPair(w, chunk, a, b);
    }
    GrownKeys(w, chunk);
    SettledFrom(w1);
  }

  lemma GrownKeys(w: World, chunk: seq<byte>)
    requires w.Removed() && w.log.files != []
    ensures Grown(w, chunk).dir.Keys == Grown(w, chunk).at.Keys
  {
    hide Log.Valid;
    hide Log.Image;
    hide Usable;
  }

  lemma GrownPresent(w: World, chunk: seq<byte>, a: SegId)
    requires Settled(w) && w.log.files != [] && Stored(w, |w.log.files| - 1) && Extends(w, chunk)
    requires a in w.dir
    ensures PresentAs(Grown(w, chunk), a)
  {
    hide Numbered;
    hide AllFiles;
    hide Log.Image;
    hide Log.Valid;
    hide FromBytes;
    var id, n, w1 := LastFileOf(w.log).id, |w.log.files| - 1, Grown(w, chunk);
    assert a != id ==> w.at[a] < n && Usable(w1.dir, a) == Usable(w.dir, a);
  }

  lemma GrownPair(w: World, chunk: seq<byte>, a: SegId, b: SegId)
    requires w.Removed() && w.log.files != [] && a in w.dir && b in w.dir
    ensures PairTold(Grown(w, chunk), a, b)
  {
    hide Log.Image;
    hide Log.Valid;
    hide Usable;
  }

  /** Files are taken away. */
  lemma FilesTaken(w: World, gone: set<SegId>)
    requires Settled(w)
    ensures Settled(w.(dir := w.dir - gone, at := w.at - gone))
  {
    hide Log.Image;
    hide Log.Valid;
    hide FromBytes;
    hide Numbered;
    hide AllFiles;
    var w1 := w.(dir := w.dir - gone, at := w.at - gone);
    assert w1.dir.Keys == w1.at.Keys;
    forall a | a in w1.dir ensures Usable(w1.dir, a) == Usable(w.dir, a) && w1.at[a] == w.at[a] {
    }
  }

  /** A file was handed over, to someone who takes files away or not. */
  ghost function AfterSend(w: World, x: Handed, takes: bool): World {
    w.(dir := w.dir - x.gone, at := w.at - x.gone, passed := if takes then w.passed + [x] else w.passed)
  }

  /** What may be handed over: what is there; and whoever is fair takes nothing
      else, whoever takes nothing nothing at all. */
  ghost predicate MaySend(w: World, x: Handed, takes: bool) {
    && x.content == (if x.id in w.dir then Some(w.dir[x.id]) else None)
    && (w.fair ==> x.gone <= {x.id}) && (!takes ==> x.gone == {})
  }

  lemma FileSent(w: World, x: Handed, takes: bool)
    requires Settled(w) && MaySend(w, x, takes)
    ensures var w1 := AfterSend(w, x, takes);
            && Settled(w1) && (!takes ==> w1 == w)
            && (Kept(w) ==> Kept(w1)) && (Complete(w) ==> Complete(w1))
  {
    hide Log.Image;
    hide Log.Valid;
    hide World.Removed;
    hide Numbered;
    hide AllFiles;
    hide Kept;
    hide Complete;
    FilesTaken(w, x.gone);
    var w1 := AfterSend(w, x, takes);
    SentTrue(w, x);
    if takes {
      SettledWith(w.(dir := w1.dir, at := w1.at), w1.passed);
      SentKept(w, x);
    } else {
      assert w.dir - {} == w.dir && w.at - {} == w.at;
    }
  }

  lemma SettledWith(w: World, passed: seq<Handed>)
    requires Settled(w) && AllFiles(w.log, passed)
    ensures Settled(w.(passed := passed))
  {
    hide Log.Image;
    hide Log.Valid;
    hide Usable;
    hide Numbered;
    hide AllFiles;
  }

  lemma SentTrue(w: World, x: Handed)
    requires Settled(w) && x.content == (if x.id in w.dir then Some(w.dir[x.id]) else None)
    ensures AllFiles(w.log, w.passed + [x])
  {
    hide Log.Image;
    hide Log.Valid;
    hide Usable;
    hide Numbered;
    assert x.id in w.dir ==> AsFile(w.log, x, w.at[x.id]);
  }

  lemma SentKept(w: World, x: Handed)
    requires Settled(w) && MaySend(w, x, true)
    ensures var w1 := AfterSend(w, x, true);
            (Kept(w) ==> Kept(w1)) && (Complete(w) ==> Complete(w1))
  {
    hide Log.Image;
    hide Log.Valid;
    hide World.Removed;
    hide Numbered;
    hide AllFiles;
    var w1 := AfterSend(w, x, true);
    if w.fair {
      forall g | 0 <= g < |w.log.files| && Safe(w, g) ensures Safe(w1, g) {
        if Stored(w, g) {
          assert w.log.files[g].id == x.id ==> WholeFile(w1.log, w1.passed[|w.passed|], g);
        } else {
          var k :| 0 <= k < |w.passed| && WholeFile(w.log, w.passed[k], g);
          assert WholeFile(w1.log, w1.passed[k], g);
        }
      }
    }
  }

  /** A clear that begins disowns what there is: nothing more is promised of it
      but that its oldest files go first. */
  lemma Disowned(w: World)
    requires Settled(w)
    ensures var w1 := w.(since := |w.log.epochs|);
            && Settled(w1) && (Kept(w) ==> Kept(w1))
  {
    hide Log.Image;
    hide FromBytes;
    hide Numbered;
    hide AllFiles;
    hide Log.Valid;
    hide Stored;
    var w1 := w.(since := |w.log.epochs|);
    RemovedOf(w);
    EpochsBegun(w.log);
    forall g: nat ensures Stored(w1, g) <==> Stored(w, g) {
      SameStored(w, w1, g);
    }
  }

  lemma SameStored(w: World, w1: World, g: nat)
    requires w1.log == w.log && w1.dir == w.dir && w1.at == w.at
    ensures Stored(w1, g) <==> Stored(w, g)
  {
    hide Log.Valid;
    hide Log.Image;
  }

  lemma EpochsBegun(log: Log)
    requires log.Valid()
    ensures forall g :: 0 <= g < |log.files| ==> log.files[g].epoch < |log.epochs|
  {
    forall g | 0 <= g < |log.files| ensures log.files[g].epoch < |log.epochs| {
      assert log.InRange(g);
    }
  }

  /** The oldest file of a log being cleared is removed. */
  lemma OldestGone(w: World, id: SegId)
    requires Settled(w) && w.since == |w.log.epochs| && forall a :: a in w.dir ==> id <= a
    ensures var w1 := w.(dir := w.dir - {id}, at := w.at - {id});
            && Settled(w1) && (Kept(w) ==> Kept(w1))
  {
    hide Log.Image;
    hide FromBytes;
    hide Numbered;
    hide AllFiles;
    hide Settled;
    FilesTaken(w, {id});
    var w1 := w.(dir := w.dir - {id}, at := w.at - {id});
    hide Log.Valid;
    hide World.Removed;
    RemovedOf(w);
    EpochsBegun(w.log);
    hide Stored;
    if Kept(w) && w.fair && w.passed == [] {
      forall g: nat | w1.log.Resumed(g) && Stored(w1, g) ensures Stored(w1, g + 1) {
        StoredStays(w, id, g);
        FollowerStays(w, id, g);
      }
    }
  }

  lemma FollowerStays(w: World, id: SegId, g: nat)
    requires w.Removed() && (forall a :: a in w.dir ==> id <= a)
    requires g + 1 < |w.log.files| && Stored(w, g) && Stored(w, g + 1) && w.log.files[g].id != id
    ensures Stored(w.(dir := w.dir - {id}, at := w.at - {id}), g + 1)
  {
    hide Stored;
    hide World.Removed;
    StoredNamed(w, g);
    StoredNamed(w, g + 1);
    StoredStays(w, id, g + 1);
    NamesOrdered(w, w.log.files[g].id, w.log.files[g + 1].id);
  }

  lemma StoredStays(w: World, id: SegId, g: nat)
    requires g < |w.log.files|
    ensures Stored(w.(dir := w.dir - {id}, at := w.at - {id}), g) <==> Stored(w, g) && w.log.files[g].id != id
  {
    hide Log.Valid;
    hide Log.Image;
  }

  lemma StoredNamed(w: World, g: nat)
    ensures Stored(w, g) ==>
      g < |w.log.files| && w.log.files[g].id in w.dir && w.log.files[g].id in w.at && w.at[w.log.files[g].id] == g
  {
    hide Log.Valid;
    hide Log.Image;
  }

  lemma RemovedOf(w: World)
    requires Settled(w)
    ensures w.Removed() && w.log.Valid()
  {
    hide Log.Valid;
    hide Numbered;
    hide AllFiles;
  }

  // ------------------------------------------------- files in other hands

  /** What was received under each name: the longest, if it came twice. */
  function Received(passed: seq<Handed>): Dir {
    if passed == [] then map[]
    else
      var before, x := Received(passed[..|passed| - 1]), passed[|passed| - 1];
      if x.content.None? || (x.id in before && |before[x.id]| >= |x.content.value|) then before
      else before[x.id := x.content.value]
  }

  /** That together with what is left in the directory. */
  function Gathered(passed: seq<Handed>, dir: Dir): Dir {
    var received := Received(passed);
    map id | id in received.Keys + dir.Keys ::
      if id !in dir || (id in received && |received[id]| > |dir[id]|) then received[id] else dir[id]
  }

  // -------------------------------------------------------------- sessions

  /** Between a session's first file and a later one of it lies that session. */
  lemma {:induction false} OneBase(log: Log, g: nat, h: nat)
    requires log.Valid() && g <= h < |log.files| && log.Base(h) <= g
    ensures log.Base(g) == log.Base(h)
    decreases h - g
  {
    if g < h {
      assert log.SameEpoch(h - 1) || log.Resumed(h - 1) || log.NewSession(h - 1);
      OneBase(log, g, h - 1);
    }
  }

  /** Files present from earlier sessions were named before this one began. */
  ghost predicate EarlierNamed(w: World, sessionId: SegId)
    requires w.log.files != []
  {
    forall a :: a in w.at && w.at[a] < w.log.Base(|w.log.files| - 1) ==> a < sessionId
  }

  lemma OpensApart(w: World, fmt: Format, dsize: nat, id: SegId, bytes: seq<byte>)
    requires Settled(w) && NamedLast(w, id)
    ensures SessionTold(w, WithSession(w.log, fmt, dsize, id))
    ensures EarlierNamed(WithFile(w, WithSession(w.log, fmt, dsize, id), id, bytes), id)
  {
    hide Log.Valid;
    hide Log.Image;
    hide OpenValidated;
  }

  /** A file added to the session of the last one. */
  ghost predicate SameSession(log: Log, other: Log)
    requires log.files != [] && |other.files| == |log.files| + 1
  {
    var f, l := other.files[|log.files|], LastFileOf(log);
    other.files[..|log.files|] == log.files && f.ordinal == l.ordinal + 1 && f.session == l.session
  }

  lemma StaysTold(w: World, other: Log)
    requires Settled(w) && w.log.files != [] && EarlierNamed(w, LastFileOf(w.log).session)
    requires |other.files| == |w.log.files| + 1 && SameSession(w.log, other)
    ensures SessionTold(w, other)
  {
    hide *;
    forall a | a in w.dir
      ensures ToldAt(w, other, a)
    {
      StaysToldAt(w, other, a);
    }
    ToldAll(w, other);
  }

  ghost predicate ToldAt(w: World, other: Log, a: SegId)
    requires |other.files| == |w.log.files| + 1
  {
    var n := |w.log.files|;
    && a in w.at && w.at[a] < n
    && (w.log.files[w.at[a]].session == other.files[n].session <==> w.log.Base(w.at[a]) == other.Base(n))
  }

  lemma ToldAll(w: World, other: Log)
    requires |other.files| == |w.log.files| + 1
    requires forall a :: a in w.dir ==> ToldAt(w, other, a)
    ensures SessionTold(w, other)
  {
  }

  lemma StaysToldAt(w: World, other: Log, a: SegId)
    requires Settled(w) && w.log.files != [] && EarlierNamed(w, LastFileOf(w.log).session)
    requires |other.files| == |w.log.files| + 1 && SameSession(w.log, other) && a in w.dir
    ensures ToldAt(w, other, a)
  {
    hide World.Removed;
    hide Log.Valid;
    var n := |w.log.files|;
    PresentAt(w, a);
    var g := w.at[a];
    SessionOf(w.log, g);
    SessionOf(w.log, n - 1);
    if g >= w.log.Base(n - 1) { OneBase(w.log, g, n - 1); }
  }

  lemma PresentAt(w: World, a: SegId)
    requires Settled(w) && a in w.dir
    ensures w.log.Valid() && a in w.at && w.at[a] < |w.log.files|
  {
  }

  lemma SessionOf(log: Log, g: nat)
    requires log.Valid() && g < |log.files|
    ensures log.files[g].ordinal <= g && log.files[g].session == log.files[log.Base(g)].id
  {
  }

  lemma StaysNamed(w: World, other: Log, id: SegId, bytes: seq<byte>)
    requires Settled(w) && w.log.files != [] && EarlierNamed(w, LastFileOf(w.log).session)
    requires |other.files| == |w.log.files| + 1 && SameSession(w.log, other) && NamedLast(w, id)
    ensures EarlierNamed(WithFile(w, other, id, bytes), LastFileOf(w.log).session)
  {
    hide World.Removed;
    hide Log.Valid;
  }
}
