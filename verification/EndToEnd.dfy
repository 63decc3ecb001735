/** A program that writes a log and reads it back, with the classes of the
    writer, the directory, the reader and the iterator. */
module EndToEnd {
  import opened Bytes
  import opened Names
  import opened ReadSpec
  import opened ReadEnds
  import opened Damage
  import opened DirSteps
  import opened History
  import opened LogReadIter
  import opened Layout
  import opened LogSteps
  import opened SessionLayout
  import opened Custody
  import opened System
  import opened Ledger
  import opened Delivery
  import opened Handing
  import opened Runs
  import LogRead
  import Clock
  import Directory

  /** Whether what a run wrote can be read again: whoever files are handed to
      takes no others, and if files are taken, names were given out in order
      and no clear failed half way. */
  ghost predicate Recoverable(dir: Directory.Directory, h: seq<Call>)
    reads dir
  {
    && !dir.custody.Meddles? && |dir.log.files| < U64_LIMIT
    && (dir.custody.Keeps? || (NamesRise(dir.log) && Unspoiled(h)))
  }

  /** Performs a run on an empty directory, whatever fails, then reads the log
      through the iterator to its end: the files left in the directory and,
      where `send` takes files away, those it was handed.

      Every record acknowledged since the last attempt to clear the log comes
      back, with the metadata it was given, in the order of the calls, cut and
      marked only if it is longer than the iterator's buffer; and every item is
      of a message asked for, or marked as the front of one, in that order. If
      no call failed, what comes back is exactly what was acknowledged. */
  method WriteThenRead(dir: Directory.Directory, timer: Clock.Timer, prefix: string, suffix: string, ops: seq<Op>)
    returns (history: seq<Call>, items: seq<Item>)
    requires Empty(dir.World())
    modifies dir, timer
    ensures OpsOf(history) == ops && AllApt(history)
    ensures timer.time >= old(timer.time)
    ensures Excused(history, dir.faults - old(dir.faults), timer.time - old(timer.time))
    ensures AllStamped(history, Horizon(history, timer.time - old(timer.time))) && Numbered(dir.log)
    ensures Stranded(dir.log, dir.since, dir.received, 0, |dir.log.files|) <= dir.unflushed - old(dir.unflushed)
    ensures AllDone(history) ==> AllTold(history, dir.log)
    ensures Recoverable(dir, history) ==> Yielded(Acked(history), items) && From(items, Requested(history))
    ensures Recoverable(dir, history) && AllDone(history) ==> items == ItemsOf(Acked(history))
  {
    hide Settled;
    hide InStep;
    hide Yielded;
    hide From;
    hide AllTold;
    hide BuildName;
    hide Excused;
    hide AllStamped;
    hide AllApt;
    hide Acked;
    hide Requested;
    hide Unspoiled;
    hide InOrder;
    hide Numbered;
    hide NamesRise;
    hide Gathered;
    hide AllDone;
    hide Items;
    hide Trace;
    hide ItemsOf;
    hide Horizon;
    hide Stranded;
    items := [];
    ghost var receipts;
    history, receipts := Run(dir, timer, prefix, suffix, ops);
    ghost var w := dir.World();
    StepTold(history, w, receipts);
    var everything := dir.Everything();
    assert everything == Gathered(w.passed, w.dir) && w.log == dir.log;
    var entries := Directory.ListNames(everything, prefix, suffix);
    var found := LogRead.LogRead.Open(everything, entries, prefix, suffix);
    ghost var ids := if found.Ok? then found.value.pending else [];
    NothingListed(everything);
    if Recoverable(dir, history) {
      ReadBack(w, history, receipts, ids);
    }
    if found.Ok? {
      items := ReadAll(found.value);
    }
  }

  lemma StepTold(h: seq<Call>, w: World, receipts: seq<Receipt>)
    requires InStep(h, w, receipts)
    ensures AllDone(h) ==> AllTold(h, w.log)
  {
  }

  /** What there is to read of what a run left. */
  lemma ReadBack(w: World, h: seq<Call>, receipts: seq<Receipt>, ids: seq<SegId>)
    requires InStep(h, w, receipts) && w.fair && |w.log.files| < U64_LIMIT
    requires w.passed == [] || (NamesRise(w.log) && Unspoiled(h))
    requires Sorted(ids) && forall id :: id in ids <==> id in Gathered(w.passed, w.dir)
    ensures var items := Items(Trace(Gathered(w.passed, w.dir), Initial(ids, false)));
            && Yielded(Acked(h), items) && From(items, Requested(h))
            && (AllDone(h) ==> items == ItemsOf(Acked(h)))
  {
    hide Settled;
    hide Kept;
    hide Complete;
    hide Finished;
    hide AllHonoured;
    hide Drawn;
    hide Trace;
    hide Items;
    hide Yielded;
    hide From;
    hide NamesRise;
    hide Gathered;
    hide Unspoiled;
    hide Acked;
    hide Requested;
    hide Attempted;
    var u := w;
    if w.passed == [] {
      NothingPassed(w);
    } else {
      ReunitedSettled(w);
      ReunitedKept(w);
      u := Reunited(w);
    }
    HonouredStill(w, u, receipts);
    IteratorDelivers(u, ids, receipts, Requested(h));
    if AllDone(h) { IteratorYieldsRecords(u, ids); }
  }

  /** Reads everything a reader has still to offer. */
  method ReadAll(reader: LogRead.LogRead) returns (items: seq<Item>)
    requires reader.Valid()
    modifies reader
    ensures items == Items(Trace(reader.dir, old(reader.St())))
  {
    hide Items;
    hide Trace;
    hide Sound;
    var iter := new LogReadIter(reader);
    items := [];
    ghost var all := Items(Trace(reader.dir, reader.St()));
    while true
      invariant iter.Valid() && iter.log == reader && fresh(iter) && fresh(iter.buf)
      invariant items + Items(Trace(reader.dir, reader.St())) == all
      decreases |Items(Trace(reader.dir, reader.St()))|
    {
      var item := iter.Next();
      if item.None? {
        return;
      }
      items := items + [item.value];
    }
  }

  /** Without files there is nothing to read. */
  lemma NothingListed(dir: Dir)
    ensures Items(Trace(dir, Initial([], false))) == []
  {
  }
}
