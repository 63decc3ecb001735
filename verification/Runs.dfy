/** Whole runs: any program that opens writers one after another, writes
    records and clears the log, whatever fails under it, and what it leaves to
    read. */
module Runs {
  import opened Bytes
  import opened Format
  import opened Header
  import ReadSpec
  import opened Damage
  import opened LogSteps
  import opened DirSteps
  import opened History
  import opened Writing
  import opened Handing
  import opened SessionLayout
  import opened Ledger
  import opened LogWrite
  import Clock
  import Directory

  /** The writer is the one those calls left, and with none failed agrees with
      the account. */
  ghost predicate Serves(writer: LogWrite, h: seq<Call>)
    reads writer, writer.dir, writer.clock, writer.clock.timer
  {
    && writer.Valid() && WriterAfter(h) == Some(writer.format)
    && StampedBy(h) <= writer.clock.Reading()
    && (AllDone(h) ==> Agrees(AccountOf(h), writer.current.Some?, writer.format, writer.recordCount))
  }

  lemma ServesValid(writer: LogWrite, h: seq<Call>)
    requires Serves(writer, h)
    ensures writer.Valid() && WriterAfter(h) == Some(writer.format)
    ensures StampedBy(h) <= writer.clock.Reading()
    ensures AllDone(h) ==> Agrees(AccountOf(h), writer.current.Some?, writer.format, writer.recordCount)
    ensures NamedBy(writer.dir.files, writer.clock.Reading())
  {
  }

  /** How many files of the log that hold data and are not in use were not handed
      over, less the times that a file could not be flushed. */
  ghost function Debt(dir: Directory.Directory, writer: LogWrite?): int
    reads dir, writer, if writer == null then {} else {writer.dir}
  {
    StrandedBy(dir.World(), CountOf(dir, writer)) - dir.unflushed
  }

  ghost function CountOf(dir: Directory.Directory, writer: LogWrite?): Tally
    reads dir, writer, if writer == null then {} else {writer.dir}
  {
    if writer == null then Tally(dir.log.files, dir.received, dir.unflushed) else writer.Count()
  }

  lemma WriteDebt(writer: LogWrite, w: World, t: Tally)
    requires Onward(w, writer.W()) && HandedOn(writer.W().log, t, writer.Count()) && t.done <= w.log.files
    ensures Debt(writer.dir, writer) <= StrandedBy(w, t) - t.unflushed
  {
    hide Onward;
    hide HandedOn;
    hide StrandedBy;
    CallStrands(w, writer.W(), t, writer.Count());
  }

  lemma ClearDebt(writer: LogWrite)
    requires writer.Valid() && writer.current.None? && writer.dir.since == |writer.dir.log.epochs|
    ensures Debt(writer.dir, writer) == -(writer.dir.unflushed as int)
  {
    hide Settled;
    writer.CountReady(writer.W());
    SettledCurrent(writer.W());
    ClearStrands(writer.W(), writer.Count());
  }

  lemma OpenDebt(dir: Directory.Directory, writer: LogWrite?, w: World, t: Tally)
    requires Onward(w, dir.World()) && AddsBlank(w.log, dir.log) && t.done == w.log.files && t.received <= dir.received
    requires t.unflushed == dir.unflushed
    requires writer != null ==>
      writer.dir == dir && writer.Valid() && writer.current.Some? && |dir.log.files| == |w.log.files| + 1
    ensures Debt(dir, writer) <= StrandedBy(w, t) - t.unflushed
  {
    hide Onward;
    hide Settled;
    hide StrandedBy;
    hide AddsBlank;
    if writer != null { writer.CountReady(dir.World()); }
    OpenStrands(w, dir.World(), t, CountOf(dir, writer), writer != null);
  }

  /** Writes a record. */
  method PerformWrite(writer: LogWrite, msg: seq<byte>, ghost h: seq<Call>, ghost receipts: seq<Receipt>)
    returns (answer: Answer, ghost receipts1: seq<Receipt>)
    requires Serves(writer, h) && InStep(h, writer.W(), receipts)
    modifies writer, writer.dir, writer.clock.timer
    ensures var h1 := h + [Call(WriteRecord(msg), answer)];
            Serves(writer, h1) && InStep(h1, writer.W(), receipts1)
    ensures StampedIn(Call(WriteRecord(msg), answer), StampedBy(h), writer.clock.Reading())
    ensures writer.Time() >= old(writer.Time()) && old(writer.dir.faults) <= writer.dir.faults
    ensures Debt(writer.dir, writer) <= old(Debt(writer.dir, writer))
    ensures answer.Failed? ==> old(writer.dir.faults) < writer.dir.faults || writer.clock.TimeUp()
  {
    hide Settled;
    hide Tidy;
    hide Onward;
    hide StandsIn;
    hide AttemptedAtMost;
    hide Acknowledged;
    hide HandedOver;
    hide HandedOn;
    hide StrandedBy;
    hide LogWrite.Count;
    hide InStep;
    hide AccountOf;
    hide Step;
    ghost var w, open, count := writer.W(), writer.current.Some?, writer.recordCount;
    var fits := PayloadFits(writer.format, |msg|);
    ghost var t := writer.Count();
    writer.CountReady(w);
    var r := writer.Write(msg);
    WriteDebt(writer, w, t);
    answer := if r.Ok? then Written(writer.lastMeta) else if fits then Failed else Refused;
    receipts1 := receipts;
    ghost var c := Call(WriteRecord(msg), answer);
    OneMore(h, c);
    if fits {
      if r.Ok? { AcknowledgedValid(writer, w, SessionDue(open, writer.format, count), Record(msg, writer.lastMeta)); }
      receipts1 := WriteStep(h, w, writer.W(), receipts, c, open, writer.format, count, writer.DataSize(),
                             Record(msg, writer.lastMeta));
    } else {
      IdleStep(h, w, receipts, c);
    }
  }

  /** A record acknowledged is one its format allows, of a session not begun to
      be cleared. */
  lemma AcknowledgedValid(writer: LogWrite, w: World, newSession: bool, r: Record)
    requires writer.Valid() && writer.current.Some?
    requires Acknowledged(w, writer.W(), writer.format, writer.DataSize(), newSession, r)
    ensures ValidRecord(writer.format, r) && writer.W().since < |writer.W().log.epochs|
  {
    hide Settled;
    StandsFacts(writer.W(), writer.DeskAt(writer.current.value.id, writer.current.value.dataWritten));
  }

  /** Clears the log. */
  method PerformClear(writer: LogWrite, ghost h: seq<Call>, ghost receipts: seq<Receipt>)
    returns (answer: Answer, ghost receipts1: seq<Receipt>)
    requires Serves(writer, h) && InStep(h, writer.W(), receipts)
    modifies writer, writer.dir
    ensures var h1 := h + [Call(ClearLog, answer)];
            Serves(writer, h1) && InStep(h1, writer.W(), receipts1)
    ensures !answer.Written? && old(writer.dir.faults) <= writer.dir.faults
    ensures Debt(writer.dir, writer) <= old(Debt(writer.dir, writer))
    ensures answer.Failed? ==> old(writer.dir.faults) < writer.dir.faults
  {
    hide Settled;
    hide Tidy;
    hide StandsIn;
    hide InStep;
    hide Kept;
    hide Agrees;
    hide AccountOf;
    hide Step;
    hide StrandedBy;
    hide LogWrite.Count;
    ghost var w, open, count := writer.W(), writer.current.Some?, writer.recordCount;
    var err := writer.Clear();
    ClearDebt(writer);
    answer := if err.None? then Done else Failed;
    ghost var c := Call(ClearLog, answer);
    OneMore(h, c);
    receipts1 := ClearStep(h, w, writer.W(), receipts, c, writer.format, count);
  }

  /** Opens a writer, the one in use before having been closed. */
  method PerformOpen(dir: Directory.Directory, timer: Clock.Timer, prefix: string, suffix: string, op: Op,
                     ghost h: seq<Call>, ghost receipts: seq<Receipt>)
    returns (answer: Answer, writer: LogWrite?, ghost now: nat)
    requires op.OpenWriter? && InStep(h, dir.World(), receipts)
    modifies dir, timer
    ensures var h1 := h + [Call(op, answer)];
            && InStep(h1, dir.World(), receipts)
            && (writer == null ==> WriterAfter(h1).None?)
            && (writer != null ==> Serves(writer, h1))
            && StampedIn(Call(op, answer), StampedBy(h), 0)
    ensures writer != null ==>
      fresh(writer) && fresh(writer.clock) && writer.dir == dir && writer.clock.timer == timer
    ensures timer.time >= old(timer.time) && dir.faults >= old(dir.faults)
    ensures now == Latest(old(dir.files), op.sinceEpoch) + 1 + (timer.time - old(timer.time))
    ensures NamedBy(dir.files, now) && (writer != null ==> writer.clock.Reading() <= now)
    ensures Debt(dir, writer) <= old(Debt(dir, null))
    ensures answer.Failed? ==> old(dir.faults) < dir.faults || now >= U64_LIMIT - 1
  {
    hide Settled;
    hide Tidy;
    hide Onward;
    hide StandsIn;
    hide Attempted;
    hide InStep;
    hide Agrees;
    hide AccountOf;
    hide Step;
    hide HandedAll;
    hide HandedFirst;
    hide AddsBlank;
    hide StrandedBy;
    hide LogWrite.Count;
    ghost var w := dir.World();
    ghost var t := CountOf(dir, null);
    StepSettled(h, w, receipts);
    var refusal := OpenRefusal(op.segSizeMax, op.format, op.sinceEpoch, op.resolution);
    var opening := LogWrite.Open(dir, prefix, suffix, op.segSizeMax, op.format, op.sinceEpoch, timer, op.resolution);
    now := Latest(old(dir.files), op.sinceEpoch) + 1 + (timer.time - old(timer.time));
    answer := if opening.Ok? then Done else if refusal.Some? then Refused else Failed;
    writer := if opening.Ok? then opening.value else null;
    OpenDebt(dir, writer, w, t);
    ghost var c := Call(op, answer);
    OneMore(h, c);
    if answer.Refused? {
      IdleStep(h, w, receipts, c);
    } else {
      OpenStep(h, w, dir.World(), receipts, c, op.segSizeMax - HEADER_LEN);
    }
  }

  // --------------------------------------------------------- one call, or many

  /** Names, readings and stamps keep within the horizon, and failures are
      excused. */
  ghost predicate InTime(h: seq<Call>, files: ReadSpec.Dir, reading: nat, faults: int, elapsed: nat) {
    && NamedBy(files, Horizon(h, elapsed)) && reading <= Horizon(h, elapsed)
    && Excused(h, faults, elapsed) && AllStamped(h, Horizon(h, elapsed))
  }

  /** A call that opens no writer. */
  lemma CallInTime(h: seq<Call>, c: Call, files: ReadSpec.Dir, reading: nat, faults: int, elapsed: nat,
                   files1: ReadSpec.Dir, reading1: nat, faults1: int, elapsed1: nat)
    requires InTime(h, files, reading, faults, elapsed) && elapsed <= elapsed1 && faults <= faults1
    requires reading1 <= reading + (elapsed1 - elapsed)
    requires files1 == files || NamedBy(files1, reading1)
    requires c.answer.Failed? ==> faults < faults1 || reading1 >= U64_LIMIT - 1
    requires StampedIn(c, StampedBy(h), reading1)
    ensures InTime(h + [c], files1, reading1, faults1, elapsed1)
  {
    hide Horizon;
    hide Excused;
    HorizonMore(h, c, elapsed, elapsed1);
    StampedMore(h, c, Horizon(h, elapsed), Horizon(h + [c], elapsed1), reading1);
    ExcusedMore(h, c, faults, faults1, elapsed, elapsed1);
  }

  lemma StampedMore(h: seq<Call>, c: Call, limit: nat, limit1: nat, to: nat)
    requires AllStamped(h, limit) && limit <= limit1 && to <= limit1 && StampedIn(c, StampedBy(h), to)
    ensures AllStamped(h + [c], limit1)
  {
    StampedLater(h, limit, limit1);
    OneMore(h, c);
  }

  /** Fewer files keep within the horizon too, and more faults excuse as much. */
  lemma CloseInTime(h: seq<Call>, files: ReadSpec.Dir, files1: ReadSpec.Dir, reading: nat, faults: int, faults1: int,
                    elapsed: nat)
    requires InTime(h, files, reading, faults, elapsed) && files1.Keys <= files.Keys && faults <= faults1
    ensures InTime(h, files1, reading, faults1, elapsed)
  {
    hide Horizon;
    assert forall id :: id in files1 ==> id in files1.Keys && id in files.Keys;
  }

  /** A call that opens one. */
  lemma OpenInTime(h: seq<Call>, c: Call, files: ReadSpec.Dir, reading: nat, faults: int, elapsed: nat,
                   files1: ReadSpec.Dir, reading1: nat, faults1: int, elapsed1: nat, now: nat)
    requires InTime(h, files, reading, faults, elapsed) && elapsed <= elapsed1 && faults <= faults1
    requires c.op.OpenWriter? && now == Latest(files, c.op.sinceEpoch) + 1 + (elapsed1 - elapsed)
    requires NamedBy(files1, now) && reading1 <= now
    requires c.answer.Failed? ==> faults < faults1 || now >= U64_LIMIT - 1
    requires StampedIn(c, StampedBy(h), 0)
    ensures InTime(h + [c], files1, reading1, faults1, elapsed1)
  {
    hide Horizon;
    hide Excused;
    HorizonMore(h, c, elapsed, elapsed1);
    StampedMore(h, c, Horizon(h, elapsed), Horizon(h + [c], elapsed1), 0);
    assert Latest(files, c.op.sinceEpoch) == c.op.sinceEpoch || Latest(files, c.op.sinceEpoch) in files;
    ExcusedMore(h, c, faults, faults1, elapsed, elapsed1);
  }

  /** What the writer's clock reads. */
  ghost function ReadingOf(writer: LogWrite?): nat
    reads writer, if writer == null then {} else {writer.clock, writer.clock.timer}
  {
    if writer == null then 0 else writer.clock.Reading()
  }

  /** A run begun at time t0, after f0 faults, has come this far. */
  ghost predicate Running(dir: Directory.Directory, timer: Clock.Timer, writer: LogWrite?, h: seq<Call>,
                          receipts: seq<Receipt>, f0: nat, t0: nat)
    reads dir, timer, writer, if writer == null then {} else {writer.clock}
  {
    && f0 <= dir.faults && t0 <= timer.time
    && InStep(h, dir.World(), receipts)
    && (writer == null ==> WriterAfter(h).None?)
    && (writer != null ==> writer.dir == dir && writer.clock.timer == timer && Serves(writer, h))
    && InTime(h, dir.files, ReadingOf(writer), dir.faults - f0, timer.time - t0)
  }

  /** Closes the writer in use. */
  method Retire(timer: Clock.Timer, writer: LogWrite,
                ghost h: seq<Call>, ghost receipts: seq<Receipt>, ghost f0: nat, ghost t0: nat)
    requires Running(writer.dir, timer, writer, h, receipts, f0, t0)
    modifies writer, writer.dir
    ensures Debt(writer.dir, null) <= old(Debt(writer.dir, writer))
    ensures f0 <= writer.dir.faults && InStep(h, writer.W(), receipts)
    ensures InTime(h, writer.dir.files, old(ReadingOf(writer)), writer.dir.faults - f0, timer.time - t0)
  {
    hide InStep;
    hide Serves;
    hide InTime;
    hide WriterAfter;
    hide LogWrite.Valid;
    hide NamedBy;
    hide Settled;
    hide Apt;
    hide Onward;
    hide HandedOver;
    hide HandedOn;
    hide StrandedBy;
    hide LogWrite.Count;
    hide Complete;
    ghost var w, files, reading, f1 := writer.W(), writer.dir.files, ReadingOf(writer), writer.dir.faults;
    ServesValid(writer, h);
    ghost var t := writer.Count();
    writer.CountReady(w);
    writer.Close();
    writer.CountClosed();
    WriteDebt(writer, w, t);
    CloseStep(h, w, writer.W(), receipts);
    CloseInTime(h, files, writer.dir.files, reading, f1 - f0, writer.dir.faults - f0, timer.time - t0);
  }

  /** Opens a writer in place of the one in use, if there is one. */
  method NextWriter(dir: Directory.Directory, timer: Clock.Timer, prefix: string, suffix: string, writer: LogWrite?,
                    op: Op, ghost h: seq<Call>, ghost receipts: seq<Receipt>, ghost f0: nat, ghost t0: nat)
    returns (answer: Answer, writer1: LogWrite?)
    requires op.OpenWriter? && Running(dir, timer, writer, h, receipts, f0, t0)
    modifies dir, timer, writer
    ensures Running(dir, timer, writer1, h + [Call(op, answer)], receipts, f0, t0)
    ensures Debt(dir, writer1) <= old(Debt(dir, writer))
    ensures writer1 != null ==> fresh(writer1) && fresh(writer1.clock)
  {
    hide InStep;
    hide Serves;
    hide InTime;
    hide WriterAfter;
    hide Latest;
    hide NamedBy;
    hide Debt;
    ghost var reading, t1 := ReadingOf(writer), timer.time;
    if writer != null {
      Retire(timer, writer, h, receipts, f0, t0);
    }
    ghost var files, f1 := dir.files, dir.faults;
    ghost var now;
    answer, writer1, now := PerformOpen(dir, timer, prefix, suffix, op, h, receipts);
    OpenInTime(h, Call(op, answer), files, reading, f1 - f0, t1 - t0,
               dir.files, ReadingOf(writer1), dir.faults - f0, timer.time - t0, now);
  }

  /** Has the writer in use write a record, or clear the log. */
  method NextCall(timer: Clock.Timer, writer: LogWrite, op: Op,
                  ghost h: seq<Call>, ghost receipts: seq<Receipt>, ghost f0: nat, ghost t0: nat)
    returns (answer: Answer, ghost receipts1: seq<Receipt>)
    requires !op.OpenWriter? && Running(writer.dir, timer, writer, h, receipts, f0, t0)
    modifies writer, writer.dir, timer
    ensures Debt(writer.dir, writer) <= old(Debt(writer.dir, writer))
    ensures Running(writer.dir, timer, writer, h + [Call(op, answer)], receipts1, f0, t0)
  {
    hide InStep;
    hide Serves;
    hide InTime;
    hide WriterAfter;
    hide NamedBy;
    hide Debt;
    hide LogWrite.Valid;
    ghost var dir := writer.dir;
    ghost var files, reading, f1, t1 := dir.files, ReadingOf(writer), dir.faults, timer.time;
    ServesValid(writer, h);
    if op.WriteRecord? {
      answer, receipts1 := PerformWrite(writer, op.msg, h, receipts);
    } else {
      answer, receipts1 := PerformClear(writer, h, receipts);
    }
    ghost var c := Call(op, answer);
    ServesValid(writer, h + [c]);
    CallInTime(h, c, files, reading, f1 - f0, t1 - t0, dir.files, ReadingOf(writer), dir.faults - f0, timer.time - t0);
  }

  /** Performs the next operation, with the writer in use if there is one. */
  method NextStep(dir: Directory.Directory, timer: Clock.Timer, prefix: string, suffix: string, writer: LogWrite?,
              op: Op, ghost h: seq<Call>, ghost receipts: seq<Receipt>, ghost f0: nat, ghost t0: nat)
    returns (answer: Answer, writer1: LogWrite?, ghost receipts1: seq<Receipt>)
    requires Running(dir, timer, writer, h, receipts, f0, t0)
    modifies dir, timer, writer
    ensures Debt(dir, writer1) <= old(Debt(dir, writer))
    ensures Running(dir, timer, writer1, h + [Call(op, answer)], receipts1, f0, t0)
    ensures writer1 == null || writer1 == writer || (fresh(writer1) && fresh(writer1.clock))
  {
    hide Running;
    hide Debt;
    writer1, receipts1 := writer, receipts;
    if op.OpenWriter? {
      answer, writer1 := NextWriter(dir, timer, prefix, suffix, writer, op, h, receipts, f0, t0);
    } else if writer == null {
      answer := NoWriter;
      NextIdle(dir, timer, op, h, receipts, f0, t0);
    } else {
      RunningIn(dir, timer, writer, h, receipts, f0, t0);
      answer, receipts1 := NextCall(timer, writer, op, h, receipts, f0, t0);
    }
  }

  lemma RunningIn(dir: Directory.Directory, timer: Clock.Timer, writer: LogWrite, h: seq<Call>,
                  receipts: seq<Receipt>, f0: nat, t0: nat)
    requires Running(dir, timer, writer, h, receipts, f0, t0)
    ensures writer.dir == dir
  {
  }

  lemma NextIdle(dir: Directory.Directory, timer: Clock.Timer, op: Op, h: seq<Call>,
                 receipts: seq<Receipt>, f0: nat, t0: nat)
    requires !op.OpenWriter? && Running(dir, timer, null, h, receipts, f0, t0)
    ensures Running(dir, timer, null, h + [Call(op, NoWriter)], receipts, f0, t0)
  {
    hide InStep;
    hide InTime;
    var c, faults, time := Call(op, NoWriter), dir.faults - f0, timer.time - t0;
    NoWriterApt(h, op);
    IdleStep(h, dir.World(), receipts, c);
    CallInTime(h, c, dir.files, 0, faults, time, dir.files, 0, faults, time);
  }

  /** Drops the writer in use, if there is one. */
  method Finish(dir: Directory.Directory, timer: Clock.Timer, writer: LogWrite?,
                ghost h: seq<Call>, ghost receipts: seq<Receipt>, ghost f0: nat, ghost t0: nat)
    requires Running(dir, timer, writer, h, receipts, f0, t0)
    modifies dir, writer
    ensures f0 <= dir.faults && t0 <= timer.time && InStep(h, dir.World(), receipts)
    ensures InTime(h, dir.files, old(ReadingOf(writer)), dir.faults - f0, timer.time - t0)
    ensures Debt(dir, null) <= old(Debt(dir, writer))
  {
    hide InStep;
    hide Serves;
    hide InTime;
    hide Debt;
    if writer != null {
      Retire(timer, writer, h, receipts, f0, t0);
    }
  }

  /** Performs a run on an empty directory, whatever fails: any call may return
      an error, and the next is made all the same.

      A call with nothing wrong in what it asks fails only if an operation of
      the directory failed under it, or the timestamps ran out. Every record
      acknowledged since the last attempt to clear the log was written out to
      its last byte, as the caller gave it and with the metadata answered, in
      the order of the calls; the records of the log are ones that calls asked
      for, in that order, numbered 1, 2, 3, ... within each session; and while a
      writer is in use times do not go back. If no call failed, the log is whole
      and holds exactly what was acknowledged since the last clear, one session
      for each writer opened, and for each first record after a clear. Unless
      `send` takes files it was not handed, nothing that was ever complete is
      lost but to a clear. */
  method Run(dir: Directory.Directory, timer: Clock.Timer, prefix: string, suffix: string, ops: seq<Op>)
    returns (history: seq<Call>, ghost receipts: seq<Receipt>)
    requires Empty(dir.World())
    modifies dir, timer
    ensures OpsOf(history) == ops && AllApt(history)
    ensures timer.time >= old(timer.time) && dir.faults >= old(dir.faults)
    ensures Excused(history, dir.faults - old(dir.faults), timer.time - old(timer.time))
    ensures AllStamped(history, Horizon(history, timer.time - old(timer.time)))
    ensures InStep(history, dir.World(), receipts) && Numbered(dir.log)
    ensures InOrder(dir.World())
    ensures Stranded(dir.log, dir.since, dir.received, 0, |dir.log.files|) <= dir.unflushed - old(dir.unflushed)
  {
    hide Running;
    hide Debt;
    hide InTime;
    hide Stranded;
    hide InStep;
    hide AllApt;
    hide InOrder;
    hide Excused;
    history, receipts := [], [];
    ghost var f0, t0 := dir.faults, timer.time;
    var writer: LogWrite? := null;
    NoneYet(dir, timer);
    NoDebt(dir);
    var i := 0;
    while i < |ops|
      invariant 0 <= i <= |ops| && OpsOf(history) == ops[..i]
      invariant writer != null ==> fresh(writer) && fresh(writer.clock)
      invariant Debt(dir, writer) <= -(old(dir.unflushed) as int)
      invariant Running(dir, timer, writer, history, receipts, f0, t0)
    {
      var answer;
      ghost var h := history;
      answer, writer, receipts := NextStep(dir, timer, prefix, suffix, writer, ops[i], history, receipts, f0, t0);
      history := history + [Call(ops[i], answer)];
      OneMore(h, Call(ops[i], answer));
      i := i + 1;
    }
    assert ops[..i] == ops;
    ghost var reading := ReadingOf(writer);
    Finish(dir, timer, writer, history, receipts, f0, t0);
    RunStands(history, dir.World(), receipts, dir.files, reading, dir.faults - f0, timer.time - t0);
    DebtIs(dir);
  }

  lemma NoneYet(dir: Directory.Directory, timer: Clock.Timer)
    requires Empty(dir.World())
    ensures Running(dir, timer, null, [], [], dir.faults, timer.time) && OpsOf([]) == []
  {
    hide InStep;
    EmptyInStep(dir.World());
  }

  lemma NoWriterApt(h: seq<Call>, op: Op)
    requires WriterAfter(h).None? && !op.OpenWriter?
    ensures Apt(WriterAfter(h), Call(op, NoWriter)) && WriterAfter(h + [Call(op, NoWriter)]).None?
  {
    OneMore(h, Call(op, NoWriter));
  }

  lemma RunStands(h: seq<Call>, w: World, receipts: seq<Receipt>, files: ReadSpec.Dir, reading: nat, faults: int,
                  elapsed: nat)
    requires InStep(h, w, receipts) && InTime(h, files, reading, faults, elapsed)
    ensures AllApt(h) && InOrder(w) && Numbered(w.log)
    ensures Excused(h, faults, elapsed) && AllStamped(h, Horizon(h, elapsed))
  {
    hide Numbered;
    hide AllStamped;
    hide InStep;
    hide InTime;
    hide AllApt;
    hide InOrder;
    hide Excused;
    StepOrdered(h, w, receipts);
    TimeExcuses(h, files, reading, faults, elapsed);
  }

  lemma NoDebt(dir: Directory.Directory)
    requires Empty(dir.World())
    ensures Debt(dir, null) == -(dir.unflushed as int)
  {
  }

  lemma DebtIs(dir: Directory.Directory)
    ensures Debt(dir, null) ==
              Stranded(dir.log, dir.since, dir.received, 0, |dir.log.files|) - dir.unflushed
  {
  }

  lemma StepOrdered(h: seq<Call>, w: World, receipts: seq<Receipt>)
    requires InStep(h, w, receipts)
    ensures AllApt(h) && InOrder(w) && Numbered(w.log)
  {
    hide Settled;
    hide InOrder;
    hide Numbered;
    SettledOrdered(w);
  }

  lemma SettledOrdered(w: World)
    requires Settled(w)
    ensures InOrder(w) && Numbered(w.log)
  {
    hide Numbered;
    hide AllFiles;
    hide World.Removed;
    hide InOrder;
    OrderIsCreationOrder(w);
  }

  lemma TimeExcuses(h: seq<Call>, files: ReadSpec.Dir, reading: nat, faults: int, elapsed: nat)
    requires InTime(h, files, reading, faults, elapsed)
    ensures Excused(h, faults, elapsed) && AllStamped(h, Horizon(h, elapsed))
  {
    hide Excused;
    hide AllStamped;
  }
}
