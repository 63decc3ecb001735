/** How a log's past bears on its present: a log only grows, what was written
    out stays written out, and a run of steps that all succeed leaves a log
    with nothing missing. */
module History {
  import opened Format
  import opened ReadSpec
  import opened Layout
  import opened Damage
  import opened LogSteps

  // ------------------------------------------------------------ it only grows

  ghost predicate EpochGrew(a: Epoch, b: Epoch) {
    b == a.(recs := b.recs) && a.recs <= b.recs
  }

  ghost predicate FileGrew(a: LFile, b: LFile) { b == a.(len := b.len) && a.len <= b.len }

  /** Epochs and files are added, and only the last of either grows. */
  ghost predicate Grew(log: Log, other: Log) {
    && |log.epochs| <= |other.epochs| && |log.files| <= |other.files|
    && (forall e :: 0 <= e < |log.epochs| ==> EpochGrew(log.epochs[e], other.epochs[e]))
    && (forall g :: 0 <= g < |log.files| ==> FileGrew(log.files[g], other.files[g]))
    && (forall g :: 0 <= g < |log.files| - 1 ==> other.files[g] == log.files[g])
  }

  lemma GrewTwice(a: Log, b: Log, c: Log)
    requires Grew(a, b) && Grew(b, c)
    ensures Grew(a, c)
  {
    forall e | 0 <= e < |a.epochs| ensures EpochGrew(a.epochs[e], c.epochs[e]) {
      assert EpochGrew(a.epochs[e], b.epochs[e]) && EpochGrew(b.epochs[e], c.epochs[e]);
    }
    forall g | 0 <= g < |a.files| ensures FileGrew(a.files[g], c.files[g]) {
      assert FileGrew(a.files[g], b.files[g]) && FileGrew(b.files[g], c.files[g]);
    }
  }

  lemma GrewNot(log: Log)
    ensures Grew(log, log)
  {
  }

  lemma GrewBySession(log: Log, fmt: Format, dsize: nat, id: SegId)
    ensures Grew(log, WithSession(log, fmt, dsize, id))
  {
  }

  lemma GrewByFile(log: Log, id: SegId)
    requires log.files != [] && log.epochs != []
    ensures Grew(log, WithRoll(log, id)) && Grew(log, WithResumption(log, id))
  {
  }

  lemma GrewByRecord(log: Log, r: Record)
    requires log.epochs != []
    ensures Grew(log, WithRecord(log, r))
  {
  }

  lemma GrewByBytes(log: Log, k: nat)
    requires log.files != []
    ensures Grew(log, WithBytes(log, k))
  {
  }

  /** A record written out stays written out, and stays the same record. */
  lemma OnDiskForGood(w: World, w1: World, p: Place)
    requires w.log.Valid() && w1.log.Valid() && Grew(w.log, w1.log) && w.OnDisk(p)
    ensures w1.OnDisk(p) && w1.RecordAt(p) == w.RecordAt(p)
  {
    hide Log.Valid;
    var g: nat :| w.log.InRange(g) && w.log.files[g].epoch == p.e
      && w.log.epochs[p.e].Start(p.j + 1) <= w.log.files[g].start + w.log.files[g].len;
    var a, b := w.log.epochs[p.e], w1.log.epochs[p.e];
    assert EpochGrew(a, b) && FileGrew(w.log.files[g], w1.log.files[g]);
    StartPrefix(b, |a.recs|, p.j + 1);
    assert b.recs[..|a.recs|] == a.recs;
    assert a == b.(recs := b.recs[..|a.recs|]);
    StillInRange(w1.log, g);
  }

  lemma StillInRange(log: Log, g: nat)
    requires log.Valid() && g < |log.files|
    ensures log.InRange(g)
  {
  }

  /** The last record of a log that owes nothing is written out. */
  lemma LastOnDisk(w: World)
    requires Current(w.log) && w.log.files != [] && Owed(w.log) == 0 && LastEpochOf(w.log).recs != []
    ensures w.OnDisk(Place(|w.log.epochs| - 1, |LastEpochOf(w.log).recs| - 1))
  {
    CurrentValid(w.log);
  }

  // ------------------------------------------------------- what was attempted

  /** Every record a writer began, in order. */
  ghost function Attempted(epochs: seq<Epoch>): seq<Record> {
    if epochs == [] then [] else Attempted(epochs[..|epochs| - 1]) + epochs[|epochs| - 1].recs
  }

  lemma AttemptedMore(log: Log, r: Record)
    requires log.epochs != []
    ensures Attempted(WithRecord(log, r).epochs) == Attempted(log.epochs) + [r]
  {
    var other := WithRecord(log, r);
    var n := |log.epochs| - 1;
    assert other.epochs[..n] == log.epochs[..n];
  }

  lemma AttemptedSame(epochs: seq<Epoch>, ep: Epoch)
    requires ep.recs == []
    ensures Attempted(epochs + [ep]) == Attempted(epochs)
  {
    var more := epochs + [ep];
    assert more[..|more| - 1] == epochs;
    assert Attempted(epochs) + [] == Attempted(epochs);
  }

  // ------------------------------------------------------- runs without faults

  /** No write was abandoned, every epoch but the last was written out, and no
      file before the last is without data but a session's first. */
  ghost predicate Unbroken(log: Log) {
    && !log.WriteAbandoned()
    && (forall g: nat :: LastOfEpoch(log, g) && g + 1 < |log.files| ==> EndsHere(log, g))
    && (forall g: nat :: g + 1 < |log.files| && log.files[g].len == 0 ==> log.files[g].start == 0)
  }

  ghost predicate EndsHere(log: Log, g: nat) {
    log.InRange(g) && log.files[g].start + log.files[g].len == log.epochs[log.files[g].epoch].End()
  }

  ghost predicate Tailed(log: Log)
    requires log.files != []
  {
    LastFileOf(log).len == 0 ==> LastFileOf(log).start == 0
  }

  /** A finished log is an unbroken one that owes nothing. */
  lemma FinishedIs(log: Log)
    requires Current(log) && log.files != []
    ensures Finished(log) <==> Unbroken(log) && Owed(log) == 0 && Tailed(log)
  {
    hide Log.Valid;
    hide Finished;
    hide Unbroken;
    hide Owed;
    hide Tailed;
    if Finished(log) { FinishedThen(log); }
    if Unbroken(log) && Owed(log) == 0 && Tailed(log) { FinishedWhen(log); }
  }

  lemma FinishedThen(log: Log)
    requires Current(log) && log.files != [] && Finished(log)
    ensures Unbroken(log) && Owed(log) == 0 && Tailed(log)
  {
    hide Epoch.End;
    hide Log.Valid;
    CurrentValid(log);
    assert LastOfEpoch(log, |log.files| - 1);
  }

  lemma FinishedWhen(log: Log)
    requires Current(log) && log.files != [] && Unbroken(log) && Owed(log) == 0 && Tailed(log)
    ensures Finished(log)
  {
    hide Epoch.End;
    hide Log.Valid;
    CurrentValid(log);
    forall g: nat | LastOfEpoch(log, g)
      ensures log.InRange(g) && log.files[g].start + log.files[g].len == log.epochs[log.files[g].epoch].End()
    {
      if g + 1 < |log.files| { assert EndsHere(log, g); }
    }
  }

  lemma NothingFinished()
    ensures Finished(Log([], []))
  {
    assert forall g: nat :: !Log([], []).Resumed(g);
  }

  /** A file added where the log stood complete, or in the middle of a record. */
  lemma UnbrokenBySession(log: Log, fmt: Format, dsize: nat, id: SegId)
    requires Current(log) && Finished(log) && Epoch(fmt, dsize, []).Valid()
    ensures Finished(WithSession(log, fmt, dsize, id))
  {
    hide Epoch.End;
    hide Log.Valid;
    hide Epoch.Valid;
    var other := WithSession(log, fmt, dsize, id);
    SessionOpened(log, fmt, dsize, id);
    CurrentIs(other);
    CurrentIs(log);
    SessionLinks(log, fmt, dsize, id);
    FinishedIs(other);
    var n := |log.files|;
    forall g: nat | LastOfEpoch(other, g) && g + 1 < |other.files| ensures EndsHere(other, g) {
      assert LastOfEpoch(log, g);
      assert EndsHere(log, g);
    }
    forall g: nat | g + 1 < |other.files| && other.files[g].len == 0 ensures other.files[g].start == 0 {
      assert other.files[g] == log.files[g];
    }
  }

  lemma CurrentIs(log: Log)
    requires Current(log)
    ensures log.Valid() && forall g: nat :: g < |log.files| ==> log.InRange(g)
  {
  }

  lemma SessionLinks(log: Log, fmt: Format, dsize: nat, id: SegId)
    requires Current(log) && !log.WriteAbandoned()
    ensures !WithSession(log, fmt, dsize, id).WriteAbandoned()
  {
    var other := WithSession(log, fmt, dsize, id);
    forall g: nat ensures !other.Resumed(g) {
      assert !log.Resumed(g);
      if g + 1 < |log.files| { assert log.InRange(g) && log.InRange(g + 1); }
    }
  }

  lemma UnbrokenByRoll(log: Log, id: SegId)
    requires Current(log) && log.files != [] && Current(WithRoll(log, id)) && Unbroken(log)
    requires LastFileOf(log).len > 0
    ensures Unbroken(WithRoll(log, id))
  {
    hide Epoch.End;
    hide Epoch.Valid;
    var other := WithRoll(log, id);
    forall g: nat ensures !other.Resumed(g) {
      assert !log.Resumed(g);
      if g + 1 < |log.files| { assert log.InRange(g) && log.InRange(g + 1); }
    }
    forall g: nat | LastOfEpoch(other, g) && g + 1 < |other.files| ensures EndsHere(other, g) {
      assert LastOfEpoch(log, g);
      assert EndsHere(log, g);
    }
  }

  lemma UnbrokenByBytes(log: Log, k: nat)
    requires Current(log) && log.files != [] && Current(WithBytes(log, k)) && Unbroken(log)
    ensures Unbroken(WithBytes(log, k))
  {
    hide Epoch.End;
    hide Epoch.Valid;
    var other := WithBytes(log, k);
    forall g: nat ensures !other.Resumed(g) {
      assert !log.Resumed(g);
      if g + 1 < |log.files| { assert log.InRange(g) && log.InRange(g + 1); }
    }
    forall g: nat | LastOfEpoch(other, g) && g + 1 < |other.files| ensures EndsHere(other, g) {
      assert LastOfEpoch(log, g);
      assert EndsHere(log, g) && other.InRange(g);
    }
  }

  lemma UnbrokenByRecord(log: Log, r: Record)
    requires Current(log) && log.epochs != [] && Current(WithRecord(log, r)) && Unbroken(log)
    ensures Unbroken(WithRecord(log, r))
  {
    hide Epoch.End;
    hide Epoch.Valid;
    var other := WithRecord(log, r);
    forall g: nat ensures !other.Resumed(g) {
      assert !log.Resumed(g);
      if g + 1 < |log.files| { assert log.InRange(g) && log.InRange(g + 1); }
    }
    forall g: nat | LastOfEpoch(other, g) && g + 1 < |other.files| ensures EndsHere(other, g) {
      assert LastOfEpoch(log, g);
      assert EndsHere(log, g) && other.InRange(g);
      FilesOrdered(log, g, |log.files| - 1);
      FilesOrdered(log, g, g + 1);
      if g + 1 < |log.files| - 1 { FilesOrdered(log, g + 1, |log.files| - 1); }
    }
  }
}
