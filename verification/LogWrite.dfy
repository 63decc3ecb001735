/** `LogWrite` in the source's own form: fields updated in place, a loop that
    appends chunk by chunk, a loop that retries a name (tcslog/src/write.rs).
    Every method keeps the directory in step with the log it leaves. */
module LogWrite {
  import opened Bytes
  import opened Format
  import opened Header
  import opened Names
  import opened ReadSpec
  import opened Layout
  import opened Damage
  import opened LogSteps
  import opened DirSteps
  import opened History
  import opened Writing
  import Clock
  import Directory

  datatype WriteError =
    | FixedLenMismatch
    | PayloadTooLarge
    | SegSizeTooSmall
    | TimerResolutionZero
    | ClockFailed(cause: Clock.ClockError)
    | IoError

  /** The segment file being written. */
  datatype CurrentFile = CurrentFile(id: SegId, dataWritten: nat)

  function SaturatingSub(a: nat, b: nat): nat { if b <= a then a - b else 0 }

  class LogWrite {
    const dir: Directory.Directory
    const prefix: string
    const suffix: string
    const segSizeMax: u32
    const format: Format
    const clock: Clock.Clock
    var timerResolution: u64
    /** What `timer_resolution_adjusted` has been told. */
    var adjusted: seq<u64>
    var current: Option<CurrentFile>
    var sessionId: SegId
    var sequence: u64
    var recordCount: nat
    var recordBytesLeft: nat
    var lastMeta: Meta

    constructor (dir: Directory.Directory, prefix: string, suffix: string, segSizeMax: u32, format: Format,
                 clock: Clock.Clock, resolution: u64)
      ensures this.dir == dir && this.prefix == prefix && this.suffix == suffix
      ensures this.segSizeMax == segSizeMax && this.format == format && this.clock == clock
      ensures timerResolution == resolution && adjusted == [] && current.None?
      ensures sessionId == 0 && sequence == 0 && recordCount == 0 && recordBytesLeft == 0
    {
      this.dir, this.prefix, this.suffix := dir, prefix, suffix;
      this.segSizeMax, this.format, this.clock := segSizeMax, format, clock;
      timerResolution, adjusted, current := resolution, [], None;
      sessionId, sequence, recordCount, recordBytesLeft := 0, 0, 0, 0;
      lastMeta := match format
        case Fixed(_) => MetaFixed
        case VariableSimple => MetaSimple
        case VariableTsRc => MetaTsRc(0, 0);
    }

    ghost function DataSize(): int { segSizeMax - HEADER_LEN }

    ghost predicate Configured() {
      DataSize() > 0 && Epoch(format, DataSize(), []).Valid()
    }

    ghost function W(): World
      reads dir`log, dir`files, dir`at, dir`received, dir`since
    {
      dir.World()
    }

    /** The writer's fields, with the file `id` of `written` bytes current. */
    ghost function DeskAt(id: SegId, written: nat): Desk
      requires Configured()
      reads this`sessionId, this`sequence, this`recordBytesLeft, this`recordCount
    {
      Desk(format, DataSize(), id, written, sessionId, sequence, recordBytesLeft, recordCount)
    }

    /** The log's files that the writer is done with, what was handed over, and
        how often that could not be flushed. */
    ghost function Count(): Tally
      reads this`current, dir`log, dir`received, dir`unflushed
    {
      Tally(DoneFiles(dir.log, current.Some?), dir.received, dir.unflushed)
    }

    lemma DeskReady(w: World, d: Desk)
      requires w == W() && Valid() && current.Some? && d == DeskAt(current.value.id, current.value.dataWritten)
      ensures StandsIn(w, d) && d.fmt == format && d.count == recordCount && d.owed == 0
    {
      hide StandsIn;
      hide Settled;
    }

    lemma CountReady(w: World)
      requires w == W() && Ready()
      ensures Count() == Tally(DoneFiles(w.log, current.Some?), dir.received, dir.unflushed)
      ensures Settled(w) && Count().done <= w.log.files && (current.Some? ==> w.log.files != [])
    {
      hide Settled;
      if current.Some? { StandsFacts(w, DeskAt(current.value.id, current.value.dataWritten)); }
    }

    lemma CountClosed()
      requires current.None?
      ensures Count() == Tally(dir.log.files, dir.received, dir.unflushed)
    {
    }

    lemma CountIs(w: World)
      requires w == W() && Steady() && (current.Some? ==> dir.log.files != [])
      ensures Count() == Tally(DoneFiles(w.log, current.Some?), dir.received, dir.unflushed)
      ensures Settled(w) && Count().done <= w.log.files
    {
      hide Settled;
    }

    ghost function Time(): nat
      reads clock.timer
    {
      clock.timer.time
    }

    /** Every file present is named before the clock's next reading. */
    ghost predicate Named()
      reads this`sessionId, dir`files, clock, clock.timer
    {
      && clock.mono <= Time()
      && sessionId <= clock.Reading()
      && forall id :: id in dir.files ==> id <= clock.Reading()
    }

    /** Holds throughout, whatever has failed. */
    ghost predicate Steady()
      reads this`timerResolution, this`recordCount, this`recordBytesLeft, this`sessionId
      reads dir`log, dir`files, dir`at, dir`received, dir`since, clock, clock.timer
    {
      && Configured() && timerResolution > 0 && recordCount <= RECORD_COUNT_MAX && recordBytesLeft < U64_LIMIT
      && Settled(W()) && Named()
    }

    /** With a file current, the writer stands in it. */
    ghost predicate Ready()
      reads this`timerResolution, this`recordCount, this`recordBytesLeft, this`sessionId, this`sequence, this`current
      reads dir`log, dir`files, dir`at, dir`received, dir`since, clock, clock.timer
    {
      && Steady()
      && (current.Some? ==> StandsIn(W(), DeskAt(current.value.id, current.value.dataWritten)))
    }

    /** Holds between calls: no record is in progress. */
    ghost predicate Valid()
      reads this`timerResolution, this`recordCount, this`recordBytesLeft, this`sessionId, this`sequence, this`current
      reads dir`log, dir`files, dir`at, dir`received, dir`since, clock, clock.timer
    {
      Ready() && (current.Some? ==> recordBytesLeft == 0)
    }

    lemma ReadySettled()
      requires Ready()
      ensures Settled(W()) && Configured()
      ensures current.Some? ==> current.value.dataWritten <= DataSize()
    {
      hide Settled;
    }

    /** Bytes still available in the current file's data section. */
    function Room(): nat
      requires Ready()
      reads this`timerResolution, this`recordCount, this`recordBytesLeft, this`sessionId, this`sequence, this`current
      reads dir`log, dir`files, dir`at, dir`received, dir`since, clock, clock.timer
    {
      if current.None? then 0 else segSizeMax - HEADER_LEN - current.value.dataWritten
    }

    // ------------------------------------------------------- naming a file

    /** A name was taken: widens the resolution if it was so before, reports a
        change, and returns the sleep that is due. */
    method NoteCollision(collidedBefore: bool) returns (nap: u64)
      modifies this`timerResolution, this`adjusted
      ensures timerResolution == Clock.Widened(old(timerResolution), collidedBefore)
      ensures adjusted == old(adjusted) + if timerResolution != old(timerResolution) then [timerResolution] else []
      ensures nap == Clock.NapFor(timerResolution)
    {
      var wider := Clock.Widened(timerResolution, collidedBefore);
      if wider != timerResolution {
        timerResolution := wider;
        adjusted := adjusted + [wider];
      }
      nap := Clock.NapFor(timerResolution);
    }

    /** Creates a file under a name no file has, later than all there are. */
    method CreateUniqueFile() returns (r: Result<SegId, WriteError>, ghost collisions: nat)
      requires Named() && timerResolution > 0
      modifies this`timerResolution, this`adjusted, dir`files, dir`faults, clock.timer
      ensures Time() >= old(Time())
      ensures r.Ok? ==>
        && r.value == clock.Reading() && (forall id :: id in old(dir.files) ==> id < r.value)
        && dir.files == old(dir.files)[r.value := []]
      ensures r.Err? ==> dir.files == old(dir.files)
      ensures Blamed(FailureOf(r), old(dir.faults), dir.faults, clock.TimeUp())
      ensures collisions <= Clock.CollisionBound(old(timerResolution), clock.timer.tick)
      ensures timerResolution == Clock.ResolutionAfter(old(timerResolution), collisions)
      ensures 0 < timerResolution && (timerResolution == old(timerResolution) || timerResolution < clock.timer.tick)
      ensures adjusted == old(adjusted) + Clock.ResolutionChanges(old(timerResolution), collisions)
    {
      ghost var r0, T, start := timerResolution, clock.timer.tick, Time();
      collisions := 0;
      var collidedBefore := false;
      while true
        invariant Time() >= start && dir.files == old(dir.files) && dir.faults == old(dir.faults)
        invariant collidedBefore == (collisions > 0)
        invariant timerResolution == Clock.ResolutionAfter(r0, collisions)
        invariant 0 < timerResolution && (timerResolution == r0 || timerResolution < T)
        invariant adjusted == old(adjusted) + Clock.ResolutionChanges(r0, collisions)
        invariant collisions <= Clock.CollisionBound(r0, T)
        invariant Time() == start && collisions > 0 ==> Clock.NapFor(timerResolution) < T
        decreases Clock.CollisionBound(r0, T) - collisions
      {
        var id := clock.Now();
        if id.Err? {
          return Err(ClockFailed(id.error)), collisions;
        }
        var attempt := dir.CreateNew(id.value);
        match attempt {
          case Created => return Ok(id.value), collisions;
          case Refused => return Err(IoError), collisions;
          case AlreadyExists =>
            Clock.BoundNotReached(r0, collisions, T);
            var nap := NoteCollision(collidedBefore);
            collidedBefore := true;
            collisions := collisions + 1;
            Clock.ResolutionDoubles(r0, collisions - 1);
            clock.timer.Sleep(nap);
        }
      }
    }

    // ------------------------------------------------- files and sessions

    /** Creates the file that comes next in the log and stamps it with its
        header. A failure leaves things as they were, or a file with as much of
        the header as was written. */
    method CreateSegment(opensSession: bool, ghost why: Reason) returns (err: Option<WriteError>)
      requires current.None? && Ready() && opensSession == why.Opens?
      requires MayAdd(W(), DeskAt(0, 0), why)
      modifies this`timerResolution, this`adjusted, this`current, this`sessionId
      modifies dir`files, dir`log, dir`at, dir`faults, dir`clean, clock.timer
      ensures Ready() && Time() >= old(Time())
      ensures Onward(old(W()), W()) && Attempted(dir.log.epochs) == Attempted(old(dir.log.epochs))
      ensures AddsBlank(old(dir.log), dir.log) && (!opensSession ==> sessionId == old(sessionId))
      ensures err.None? ==>
        && current.Some? && current.value.dataWritten == 0 && |dir.log.files| == |old(dir.log).files| + 1
        && dir.log == Added(old(dir.log), format, DataSize(), why, current.value.id)
        && (Complete(old(W())) ==> Complete(W()))
        && (recordBytesLeft == 0 || Begun(dir.log))
      ensures err.Some? ==>
        current.None? && (W() == old(W()) || Stamped(old(W()), old(DeskAt(0, 0)), why, W()))
      ensures Blamed(err, old(dir.faults), dir.faults, clock.TimeUp())
    {
      hide StandsIn;
      hide MayAdd;
      hide Settled;
      hide Added;
      hide Complete;
      hide Onward;
      hide Attempted;
      hide Begun;
      ghost var w := W();
      var id, collisions := CreateUniqueFile();
      if id.Err? {
        OnwardNot(w);
        AddsNone(w.log);
        return Some(id.error);
      }
      ghost var written;
      err, written := StampHeader(id.value, opensSession, why, w, DeskAt(0, 0));
      StampedIs(w, old(DeskAt(0, 0)), why, id.value, written);
      AddsOne(w, old(DeskAt(0, 0)), why, id.value, HeaderBytes(old(DeskAt(0, 0)), id.value, why)[..written]);
      AddsJustOne(w.log, format, DataSize(), why, id.value);
    }

    /** Writes the header of a file just created, and makes it current. */
    method StampHeader(id: SegId, opensSession: bool, ghost why: Reason, ghost w: World, ghost d: Desk)
      returns (err: Option<WriteError>, ghost written: nat)
      requires current.None? && Configured() && timerResolution > 0 && recordCount <= RECORD_COUNT_MAX
      requires recordBytesLeft < U64_LIMIT && sessionId <= id == clock.Reading() && clock.mono <= Time()
      requires opensSession == why.Opens? && d == DeskAt(0, 0)
      requires Settled(w) && MayAdd(w, d, why) && NamedLast(w, id)
      requires W() == w.(dir := w.dir[id := []])
      modifies this`current, this`sessionId, dir`files, dir`log, dir`at, dir`faults, dir`clean
      ensures Ready() && (!opensSession ==> sessionId == old(sessionId))
      ensures Onward(w, W()) && Attempted(dir.log.epochs) == Attempted(w.log.epochs)
      ensures err.None? ==>
        && current.Some? && current.value.dataWritten == 0
        && dir.log == Added(w.log, format, DataSize(), why, current.value.id)
        && (Complete(w) ==> Complete(W()))
        && (recordBytesLeft == 0 || Begun(dir.log))
      ensures err.Some? ==> current.None?
      ensures written <= HEADER_LEN && (err.None? ==> written == HEADER_LEN)
      ensures W() == WithHeader(w, d, why, id, HeaderBytes(d, id, why)[..written])
      ensures Blamed(err, old(dir.faults), dir.faults, clock.TimeUp())
    {
      hide ImagesGrew;
      hide EarlierNamed;
      hide Numbered;
      hide StandsIn;
      hide MayAdd;
      hide Settled;
      hide Added;
      hide Kept;
      hide Complete;
      hide Grew;
      hide Attempted;
      hide ToBytes;
      hide Begun;
      hide Onward;
      hide WithHeader;
      hide WithFile;
      if opensSession {
        sessionId := id;
      }
      var header := Header(id, sessionId, segSizeMax, recordBytesLeft, format, sequence, VERSION_MINOR);
      assert header == HeaderFor(d, id, opensSession);
      var ok;
      ok, written := dir.WriteAll(id, ToBytes(header));
      HeaderOnDisk(w, d, why, id, ToBytes(header), written);
      ghost var w1 := WithHeader(w, d, why, id, ToBytes(header)[..written]);
      dir.log, dir.at := w1.log, w1.at;
      EmptyFirst(w.dir, id, ToBytes(header)[..written]);
      assert W() == w1;
      OnwardIs(w, w1);
      if !ok {
        return Some(IoError), written;
      }
      current := Some(CurrentFile(id, 0));
      return None, written;
    }

    /** Resets the record count and sequence, and creates a session's first
        file. */
    method StartSession() returns (err: Option<WriteError>)
      requires Ready() && current.None?
      modifies this, dir`files, dir`log, dir`at, dir`faults, dir`clean, clock.timer
      ensures Valid() && Time() >= old(Time()) && lastMeta == old(lastMeta) && recordCount == 0
      ensures Onward(old(W()), W()) && Attempted(dir.log.epochs) == Attempted(old(dir.log.epochs))
      ensures AddsBlank(old(dir.log), dir.log)
      ensures err.None? ==>
        && current.Some? && current.value.dataWritten == 0 && |dir.log.files| == |old(dir.log).files| + 1
        && dir.log == WithSession(old(dir.log), format, DataSize(), current.value.id)
        && (Tidy(old(W())) ==> Tidy(W()))
      ensures err.Some? ==> current.None?
      ensures Blamed(err, old(dir.faults), dir.faults, clock.TimeUp())
    {
      hide StandsIn;
      hide Settled;
      hide Tidy;
      hide Onward;
      hide Attempted;
      hide Complete;
      recordCount, sequence, recordBytesLeft := 0, 0, 0;
      err := CreateSegment(true, Opens);
      if err.None? {
        SettledCurrent(old(W()));
        TidyOpened(old(W()), W(), format, DataSize(), current.value.id);
      }
    }

    /** Flushes and closes the current file, and hands it to `send` as it is; a
        file that cannot be flushed is not handed over. */
    method CloseAndSend(ghost d: Desk) returns (err: Option<WriteError>)
      requires Steady() && (current.Some? ==> StandsIn(W(), d) && d.id == current.value.id)
      modifies this`current, dir`files, dir`handed, dir`received, dir`at, dir`faults, dir`unflushed, dir`clean
      ensures Steady() && current.None? && dir.log == old(dir.log) && dir.since == old(dir.since)
      ensures Onward(old(W()), W()) && (Complete(old(W())) ==> Complete(W()))
      ensures old(current).None? ==> dir.handed == old(dir.handed) && Count() == old(Count())
      ensures old(current).Some? ==>
        if dir.unflushed == old(dir.unflushed) then
          && dir.clean
          && HandedOver(old(dir.handed), dir.handed, dir.log, |dir.log.files| - 1, |dir.log.files|)
        else err.Some? && dir.unflushed == old(dir.unflushed) + 1 && dir.handed == old(dir.handed)
      ensures HandedOn(dir.log, old(Count()), Count())
      ensures forall s :: dir.log.files != [] && EarlierNamed(old(W()), s) ==> EarlierNamed(W(), s)
      ensures Blamed(err, old(dir.faults), dir.faults, false)
    {
      hide StandsIn;
      hide Settled;
      hide EarlierNamed;
      hide Complete;
      hide Onward;
      hide HandedOn;
      hide HandedOver;
      hide WholeFile;
      ghost var w, t := W(), Count();
      OnwardNot(w);
      if current.None? {
        SettledCurrent(w);
        NoneHanded(w, t);
        return None;
      }
      StandsPresent(w, d);
      var id := current.value.id;
      current := None;
      var ok := dir.Flush();
      if !ok {
        NotHanded(w, d, t, Count());
        return Some(IoError);
      }
      ghost var x;
      ok, x := dir.Send(id);
      SentOff(w, x, !dir.custody.Keeps?);
      StandsWhole(w, d, x);
      LastHanded(w.log, x, t, Count());
      HandedOne(old(dir.handed), x, w.log, |w.log.files| - 1);
      return if ok then None else Some(IoError);
    }

    /** Creates the file that follows the one just closed in its session. */
    method NextSegment(ghost why: Reason, ghost t: Tally) returns (err: Option<WriteError>)
      requires Ready() && current.None? && !why.Opens? && HandedOn(dir.log, t, Count())
      requires MayAdd(W(), DeskAt(0, 0).(sequence := NextSequence(sequence)), why)
      modifies this`timerResolution, this`adjusted, this`current, this`sessionId, this`sequence
      modifies dir`files, dir`log, dir`at, dir`faults, dir`clean, clock.timer
      ensures Ready() && Time() >= old(Time()) && sessionId == old(sessionId)
      ensures Onward(old(W()), W()) && Attempted(dir.log.epochs) == Attempted(old(dir.log.epochs))
      ensures AddsBlank(old(dir.log), dir.log) && HandedOn(dir.log, t, Count())
      ensures err.None? ==>
        && current.Some? && current.value.dataWritten == 0
        && dir.log == Added(old(dir.log), format, DataSize(), why, current.value.id)
        && (Complete(old(W())) ==> Complete(W()))
        && (recordBytesLeft == 0 || Begun(dir.log))
      ensures err.Some? ==> current.None?
      ensures Blamed(err, old(dir.faults), dir.faults, clock.TimeUp())
    {
      hide LogWrite.Count;
      hide DoneFiles;
      hide HandedOn;
      hide StandsIn;
      hide MayAdd;
      hide Settled;
      hide Added;
      hide AddsBlank;
      hide Complete;
      hide Onward;
      hide Attempted;
      hide Begun;
      ghost var w, t1 := W(), Count();
      CountReady(w);
      sequence := NextSequence(sequence);
      err := CreateSegment(false, why);
      CountReady(W());
      HandedFurther(w, W(), t, t1, Count(), err.None?);
    }

    /** Closes the current file and creates its successor. */
    method Roll() returns (err: Option<WriteError>)
      requires Ready() && current.Some? && Room() == 0 && Begun(dir.log)
      modifies this`timerResolution, this`adjusted, this`current, this`sessionId, this`sequence, clock.timer
      modifies dir`files, dir`handed, dir`received, dir`log, dir`at, dir`faults, dir`unflushed, dir`clean
      ensures Ready() && Time() >= old(Time())
      ensures Onward(old(W()), W()) && Attempted(dir.log.epochs) == Attempted(old(dir.log.epochs))
      ensures err.None? ==>
        && current.Some? && current.value.dataWritten == 0 && dir.log.files != [] && dir.log.epochs != []
        && Begun(dir.log) && (NearlyTidy(old(W())) ==> NearlyTidy(W()))
        && dir.log == WithRoll(old(dir.log), current.value.id)
        && HandedOver(old(dir.handed), dir.handed, dir.log, |old(dir.log).files| - 1, |dir.log.files| - 1)
      ensures err.Some? ==> current.None?
      ensures HandedOn(dir.log, old(Count()), Count()) && sessionId == old(sessionId)
      ensures Blamed(err, old(dir.faults), dir.faults, clock.TimeUp())
    {
      hide LogWrite.Named;
      hide DoneFiles;
      hide LogWrite.Count;
      hide ImagesGrew;
      hide Kept;
      hide WholeFile;
      hide HandedOver;
      hide HandedOn;
      hide AddsBlank;
      hide Numbered;
      hide StandsIn;
      hide Settled;
      hide EarlierNamed;
      hide MayAdd;
      hide Onward;
      hide Attempted;
      hide NearlyTidy;
      hide Complete;
      hide Begun;
      ghost var w, d := W(), DeskAt(current.value.id, current.value.dataWritten);
      StandsFacts(w, d);
      StandsPresent(w, d);
      err := CloseAndSend(d);
      ghost var w1 := W();
      if err.Some? {
        return;
      }
      MayFollow(w, w1, d, recordBytesLeft, Rolls);
      err := NextSegment(Rolls, old(Count()));
      OnwardTwice(w, w1, W());
      if err.None? {
        RolledOn(w, w1, W(), d, current.value.id);
        HandedOnward(w, W(), old(dir.handed), dir.handed, |w.log.files| - 1, |w.log.files|);
      }
    }

    /** Recovers from a failed write by giving up the current file. */
    method AbandonAfterError(ghost d: Desk) returns (err: Option<WriteError>)
      requires Steady() && current.Some? && StandsIn(W(), d)
      requires d == DeskAt(current.value.id, d.written).(owed := d.owed)
      modifies this, clock.timer
      modifies dir`files, dir`handed, dir`received, dir`log, dir`at, dir`faults, dir`unflushed, dir`clean
      ensures Valid() && Time() >= old(Time())
      ensures lastMeta == old(lastMeta) && recordCount == old(recordCount)
      ensures Onward(old(W()), W()) && Attempted(dir.log.epochs) == Attempted(old(dir.log.epochs))
      ensures err.Some? <==> current.None?
      ensures err.None? ==>
        && old(dir.log).files != [] && old(dir.log).epochs != [] && current.value.dataWritten == 0
        && dir.log == WithResumption(old(dir.log), current.value.id) && ResumedFrom(old(dir.log), dir.log)
      ensures err.Some? ==> Blamed(err, old(dir.faults), dir.faults, clock.TimeUp())
      ensures if dir.unflushed == old(dir.unflushed) then
                HandedOver(old(dir.handed), dir.handed, dir.log, |old(dir.log).files| - 1, |old(dir.log).files|)
              else dir.unflushed == old(dir.unflushed) + 1 && dir.handed == old(dir.handed)
      ensures HandedOn(dir.log, old(Count()), Count()) && sessionId == old(sessionId)
      ensures old(dir.faults) <= dir.faults
    {
      hide LogWrite.Named;
      hide DoneFiles;
      hide ResumedFrom;
      hide LogWrite.Count;
      hide HandedOver;
      hide HandedOn;
      hide AddsBlank;
      hide WholeFile;
      hide Kept;
      hide Complete;
      hide ImagesGrew;
      hide StandsIn;
      hide Settled;
      hide EarlierNamed;
      hide MayAdd;
      hide Onward;
      hide Attempted;
      ghost var w := W();
      StandsFacts(w, d);
      StandsPresent(w, d);
      recordBytesLeft := 0;
      var ignored := CloseAndSend(d);
      ghost var w1, unflushed := W(), dir.unflushed;
      MayFollow(w, w1, d, 0, Resumes);
      err := NextSegment(Resumes, old(Count()));
      OnwardTwice(w, w1, W());
      if err.None? { ResumedIs(w, W(), current.value.id); }
      if unflushed == old(dir.unflushed) {
        HandedAlong(w, W(), old(dir.handed), dir.handed, |w.log.files| - 1, |w.log.files|);
      }
    }

    // ------------------------------------------------------- writing bytes

    /** Appends a chunk that fits to the current file, or the front of it. */
    method Append(chunk: seq<byte>, ghost rest: seq<byte>) returns (ok: bool, ghost written: nat, ghost d: Desk)
      requires Ready() && current.Some? && |chunk| <= Room()
      requires Due(dir.log, chunk + rest) && Inside(dir.log)
      modifies dir`files, dir`log, dir`faults, dir`clean
      ensures written <= |chunk| && (ok ==> written == |chunk|) && written <= recordBytesLeft
      ensures Steady() && dir.faults == old(dir.faults) + (if ok then 0 else 1)
      ensures d == DeskAt(current.value.id, current.value.dataWritten + written).(owed := recordBytesLeft - written)
      ensures StandsIn(W(), d)
      ensures Onward(old(W()), W()) && old(dir.log).files != [] && dir.log == WithBytes(old(dir.log), written)
      ensures Count() == old(Count())
      ensures ok ==> Due(dir.log, rest) && Inside(dir.log)
      ensures ok && chunk != [] ==> Begun(dir.log) && HoldsData(dir.log)
      ensures NearlyTidy(old(W())) ==> NearlyTidy(W())
    {
      hide ImagesGrew;
      hide Kept;
      hide Complete;
      hide EarlierNamed;
      hide HoldsData;
      hide StandsIn;
      hide Settled;
      hide Due;
      hide Inside;
      hide Onward;
      hide NearlyTidy;
      hide Begun;
      ghost var w, d0 := W(), DeskAt(current.value.id, current.value.dataWritten);
      StandsPresent(w, d0);
      ok, written := dir.WriteAll(current.value.id, chunk);
      assert (chunk + rest)[..written] == chunk[..written];
      ChunkIs(w, d0, chunk + rest, written);
      d := d0.(written := d0.written + written, owed := d0.owed - written);
      dir.log := WithBytes(w.log, written);
      DoneStill(w.log, written);
      assert W() == Grown(w, (chunk + rest)[..written]);
      assert (chunk + rest)[|chunk|..] == rest;
    }

    /** Appends a chunk that fits to the current file, or gives the file up. */
    method PutChunk(chunk: seq<byte>, ghost rest: seq<byte>) returns (err: Option<WriteError>)
      requires Ready() && current.Some? && |chunk| <= Room()
      requires Due(dir.log, chunk + rest) && Inside(dir.log)
      modifies this, clock.timer
      modifies dir`files, dir`handed, dir`received, dir`log, dir`at, dir`faults, dir`unflushed, dir`clean
      ensures Time() >= old(Time()) && lastMeta == old(lastMeta) && recordCount == old(recordCount)
      ensures Onward(old(W()), W()) && Attempted(dir.log.epochs) == Attempted(old(dir.log.epochs))
      ensures err.None? ==>
        && Ready() && current.Some? && dir.log.epochs == old(dir.log.epochs)
        && dir.handed == old(dir.handed) && |dir.log.files| == |old(dir.log).files|
        && Due(dir.log, rest) && Inside(dir.log)
        && recordBytesLeft == old(recordBytesLeft) - |chunk|
        && (chunk != [] ==> Begun(dir.log) && HoldsData(dir.log))
        && (NearlyTidy(old(W())) ==> NearlyTidy(W()))
      ensures err.Some? ==> Valid() && (current.Some? ==> ResumedFrom(old(dir.log), dir.log))
      ensures err == Some(IoError) && current.None? ==> dir.faults >= old(dir.faults) + 2
      ensures HandedOn(dir.log, old(Count()), Count()) && sessionId == old(sessionId)
      ensures Blamed(err, old(dir.faults), dir.faults, clock.TimeUp())
    {
      hide HandedOn;
      hide HandedOver;
      hide LogWrite.Count;
      hide ResumedFrom;
      hide HoldsData;
      hide StandsIn;
      hide Settled;
      hide Due;
      hide Inside;
      hide Onward;
      hide Attempted;
      hide NearlyTidy;
      hide Begun;
      ghost var w := W();
      CountReady(w);
      var ok;
      ghost var written, d;
      ok, written, d := Append(chunk, rest);
      ghost var w1 := W();
      CountIs(w1);
      if !ok {
        err := AbandonAfterError(d);
        OnwardTwice(w, w1, W());
        if err.None? { ResumedAfter(w.log, written, dir.log); }
        return Some(if err.Some? then err.value else IoError);
      }
      NoneHanded(w1, Count());
      current := Some(CurrentFile(current.value.id, current.value.dataWritten + |chunk|));
      recordBytesLeft := SaturatingSub(recordBytesLeft, |chunk|);
      CountReady(W());
      return None;
    }

    /** One turn of the loop of `WriteBytes`: rolls if the current file is exactly
        full, then appends what fits of the data from `off` on. */
    method WriteOnce(data: seq<byte>, off: nat, ghost rest: seq<byte>) returns (err: Option<WriteError>, take: nat)
      requires Ready() && current.Some? && off < |data|
      requires Due(dir.log, data[off..] + rest) && Inside(dir.log) && (Begun(dir.log) || Room() > 0)
      modifies this, clock.timer
      modifies dir`files, dir`handed, dir`received, dir`log, dir`at, dir`faults, dir`unflushed, dir`clean
      ensures Time() >= old(Time()) && lastMeta == old(lastMeta) && recordCount == old(recordCount)
      ensures Onward(old(W()), W()) && Attempted(dir.log.epochs) == Attempted(old(dir.log.epochs))
      ensures err.None? ==>
        && Ready() && current.Some? && dir.log.epochs == old(dir.log.epochs) && 0 < take <= |data| - off
        && HandedOver(old(dir.handed), dir.handed, dir.log, |old(dir.log).files| - 1, |dir.log.files| - 1)
        && Due(dir.log, data[off + take..] + rest) && Inside(dir.log) && Begun(dir.log) && HoldsData(dir.log)
        && recordBytesLeft == old(recordBytesLeft) - take
        && (NearlyTidy(old(W())) ==> NearlyTidy(W()))
      ensures err.Some? ==> Valid() && (current.Some? ==> ResumedFrom(old(dir.log), dir.log))
      ensures HandedOn(dir.log, old(Count()), Count()) && sessionId == old(sessionId)
      ensures Blamed(err, old(dir.faults), dir.faults, clock.TimeUp())
    {
      hide HandedOn;
      hide HandedOver;
      hide ResumedFrom;
      hide LogWrite.Count;
      hide DoneFiles;
      hide LogWrite.Ready;
      hide LogWrite.Named;
      hide HoldsData;
      hide StandsIn;
      hide Settled;
      hide Due;
      hide Inside;
      hide Onward;
      hide Attempted;
      hide NearlyTidy;
      hide Begun;
      ReadySettled();
      ghost var w, h, t := W(), dir.handed, Count();
      CountReady(w);
      OnwardNot(w);
      InsideFacts(dir.log);
      HandedNothing(h, w, |w.log.files| - 1);
      NoneHanded(w, t);
      take := 0;
      if Room() == 0 {
        err := Roll();
        if err.Some? {
          return;
        }
        ReadySettled();
        SettledCurrent(W());
        RollDue(w.log, current.value.id, data[off..] + rest);
      }
      ghost var w1, h1, t1 := W(), dir.handed, Count();
      take := Min(Room(), |data| - off);
      var chunk := data[off..off + take];
      assert data[off..] + rest == chunk + (data[off + take..] + rest);
      err := PutChunk(chunk, data[off + take..] + rest);
      OnwardTwice(w, w1, W());
      HandedThen(w1, W(), t, t1, Count());
      if err.Some? {
        if current.Some? { ResumedSince(w, w1, dir.log); }
        return;
      }
      InsideFacts(dir.log);
      HandedStill(w1, W(), h, dir.handed, |w.log.files| - 1);
    }

    /** Appends bytes to the data section, rolling to a new file each time the
        current one is exactly full. */
    method WriteBytes(data: seq<byte>, ghost rest: seq<byte>) returns (err: Option<WriteError>)
      requires Ready() && current.Some?
      requires Due(dir.log, data + rest) && Inside(dir.log) && (Begun(dir.log) || Room() > 0)
      modifies this, clock.timer
      modifies dir`files, dir`handed, dir`received, dir`log, dir`at, dir`faults, dir`unflushed, dir`clean
      ensures Time() >= old(Time()) && lastMeta == old(lastMeta) && recordCount == old(recordCount)
      ensures Onward(old(W()), W()) && Attempted(dir.log.epochs) == Attempted(old(dir.log.epochs))
      ensures err.None? ==>
        && Ready() && current.Some? && dir.log.epochs == old(dir.log.epochs)
        && HandedOver(old(dir.handed), dir.handed, dir.log, |old(dir.log).files| - 1, |dir.log.files| - 1)
        && Due(dir.log, rest) && Inside(dir.log) && (Begun(dir.log) || Room() > 0)
        && recordBytesLeft == old(recordBytesLeft) - |data|
        && (data != [] ==> HoldsData(dir.log)) && (data == [] ==> W() == old(W()))
        && (NearlyTidy(old(W())) ==> NearlyTidy(W()))
      ensures err.Some? ==> Valid() && (current.Some? ==> ResumedFrom(old(dir.log), dir.log))
      ensures HandedOn(dir.log, old(Count()), Count()) && sessionId == old(sessionId)
      ensures Blamed(err, old(dir.faults), dir.faults, clock.TimeUp())
    {
      hide HandedOn;
      hide HandedOver;
      hide ResumedFrom;
      hide LogWrite.Count;
      hide DoneFiles;
      hide LogWrite.Ready;
      hide LogWrite.Valid;
      hide HoldsData;
      hide StandsIn;
      hide Settled;
      hide Due;
      hide Inside;
      hide Onward;
      hide Attempted;
      hide NearlyTidy;
      hide Begun;
      ReadySettled();
      ghost var w, h, t := W(), dir.handed, Count();
      CountReady(w);
      OnwardNot(w);
      InsideFacts(dir.log);
      HandedNothing(h, w, |w.log.files| - 1);
      NoneHanded(w, t);
      assert data[0..] + rest == data + rest;
      var off := 0;
      while off < |data|
        invariant 0 <= off <= |data| && Ready() && current.Some? && Time() >= old(Time())
        invariant lastMeta == old(lastMeta) && recordCount == old(recordCount) && dir.faults == old(dir.faults)
        invariant dir.log.epochs == w.log.epochs && Onward(w, W())
        invariant Due(dir.log, data[off..] + rest) && Inside(dir.log)
        invariant (Begun(dir.log) || Room() > 0)
        invariant recordBytesLeft == old(recordBytesLeft) - off
        invariant off > 0 ==> HoldsData(dir.log)
        invariant off == 0 ==> W() == w
        invariant HandedOver(h, dir.handed, dir.log, |w.log.files| - 1, |dir.log.files| - 1)
        invariant HandedOn(dir.log, t, Count()) && sessionId == old(sessionId)
        invariant NearlyTidy(w) ==> NearlyTidy(W())
        decreases |data| - off
      {
        ghost var w1, h1, t1 := W(), dir.handed, Count();
        InsideFacts(dir.log);
        var take;
        err, take := WriteOnce(data, off, rest);
        OnwardTwice(w, w1, W());
        HandedThen(w1, W(), t, t1, Count());
        if err.Some? {
          if current.Some? { ResumedSince(w, w1, dir.log); }
          return;
        }
        InsideFacts(dir.log);
        HandedSince(w1, W(), h, h1, dir.handed, |w.log.files| - 1);
        off := off + take;
      }
      assert data[off..] + rest == rest;
      return None;
    }

    // ---------------------------------------------------------- one record

    /** Builds the data header of a record, minting its metadata. */
    method BuildDataHeader(payloadLen: nat, ghost payload: seq<byte>) returns (r: Result<(seq<byte>, Meta), WriteError>)
      requires Valid() && PayloadFits(format, payloadLen) && |payload| == payloadLen
      requires format.VariableTsRc? ==> recordCount < RECORD_COUNT_MAX
      modifies this`recordCount, clock.timer
      ensures Time() >= old(Time()) && clock.Reading() >= old(clock.Reading())
      ensures Steady() && (r.Err? ==> Valid())
      ensures current.Some? ==>
        DeskAt(current.value.id, current.value.dataWritten).(count := old(recordCount)) ==
          old(DeskAt(current.value.id, current.value.dataWritten))
      ensures r.Ok? ==>
        var rec := Record(payload, r.value.1);
        ValidRecord(format, rec) && Encode(format, rec) == r.value.0 + payload && |r.value.0| == format.DataHeaderLen()
      ensures r.Ok? ==> Minted(format, r.value.1, old(recordCount) + 1, old(clock.Reading()), clock.Reading())
      ensures r.Ok? && format.VariableTsRc? ==> recordCount == old(recordCount) + 1
      ensures r.Err? || !format.VariableTsRc? ==> recordCount == old(recordCount)
      ensures r.Err? ==> r.error == ClockFailed(Clock.TimestampOverflow) && clock.TimeUp()
    {
      hide StandsIn;
      hide Settled;
      match format {
        case Fixed(_) => return Ok(([], MetaFixed));
        case VariableSimple => return Ok((ToLe(payloadLen, 4), MetaSimple));
        case VariableTsRc =>
          var ts := clock.Now();
          if ts.Err? {
            return Err(ClockFailed(ts.error));
          }
          recordCount := recordCount + 1;
          LeFront(recordCount, 8, 6);
          var header := ToLe(payloadLen, 4) + ToLe(ts.value, 8) + ToLe(recordCount, 8)[..6];
          return Ok((header, MetaTsRc(ts.value, recordCount)));
      }
    }

    /** Whether the next record begins a new session: there is none, or the
        session's record count is exhausted. */
    predicate NewSessionDue()
      reads this
    {
      current.None? || (format.VariableTsRc? && recordCount >= RECORD_COUNT_MAX)
    }

    /** Sees to it that there is a session to write to: starts one if there is
        none, and another once the record count is exhausted. */
    method EnsureSession() returns (err: Option<WriteError>)
      requires Valid()
      modifies this, clock.timer
      modifies dir`files, dir`handed, dir`received, dir`log, dir`at, dir`faults, dir`unflushed, dir`clean
      ensures Valid() && Time() >= old(Time()) && lastMeta == old(lastMeta)
      ensures Onward(old(W()), W()) && Attempted(dir.log.epochs) == Attempted(old(dir.log.epochs))
      ensures err.None? ==>
        && current.Some?
        && recordCount == (if old(NewSessionDue()) then 0 else old(recordCount))
        && dir.log.epochs == BaseEpochs(old(dir.log.epochs), format, DataSize(), old(NewSessionDue()))
        && (Tidy(old(W())) ==> Tidy(W()))
        && HandedOver(old(dir.handed), dir.handed, dir.log,
                      |old(dir.log).files| - (if old(current.Some?) then 1 else 0), |dir.log.files| - 1)
      ensures HandedOn(dir.log, old(Count()), Count())
      ensures Blamed(err, old(dir.faults), dir.faults, clock.TimeUp())
    {
      hide DoneFiles;
      hide HandedOn;
      hide LogWrite.Count;
      hide StandsIn;
      hide Settled;
      hide Onward;
      hide Attempted;
      hide Tidy;
      hide Complete;
      hide EarlierNamed;
      hide WholeFile;
      hide HandedOver;
      ghost var w, h, t := W(), dir.handed, Count();
      if current.None? {
        CountIs(w);
        NoneHanded(w, t);
        err := StartSession();
        CountIs(W());
        HandedFurther(w, W(), t, t, Count(), err.None?);
        if err.None? { HandedNothing(h, W(), |w.log.files|); }
      } else if format == VariableTsRc && recordCount >= RECORD_COUNT_MAX {
        ghost var d := DeskAt(current.value.id, current.value.dataWritten);
        StandsFacts(w, d);
        StandsPresent(w, d);
        err := CloseAndSend(d);
        if err.Some? {
          return;
        }
        ghost var w1, t1 := W(), Count();
        TidyStays(w, w1);
        CountIs(w1);
        err := StartSession();
        OnwardTwice(w, w1, W());
        CountIs(W());
        HandedFurther(w1, W(), t, t1, Count(), err.None?);
        if err.None? { HandedOnward(w1, W(), h, dir.handed, |w1.log.files| - 1, |w1.log.files|); }
      } else {
        OnwardNot(w);
        StandsFacts(w, DeskAt(current.value.id, current.value.dataWritten));
        HandedNothing(h, w, |w.log.files| - 1);
        CountIs(w);
        NoneHanded(w, t);
        err := None;
      }
    }

    /** Goes on in a new file if the current one is exactly full. */
    method RollIfFull() returns (err: Option<WriteError>)
      requires Valid() && current.Some?
      modifies this`timerResolution, this`adjusted, this`current, this`sessionId, this`sequence, clock.timer
      modifies dir`files, dir`handed, dir`received, dir`log, dir`at, dir`faults, dir`unflushed, dir`clean
      ensures Valid() && Time() >= old(Time())
      ensures Onward(old(W()), W()) && Attempted(dir.log.epochs) == Attempted(old(dir.log.epochs))
      ensures err.None? ==>
        && current.Some? && Room() > 0 && dir.log.epochs == old(dir.log).epochs
        && (NearlyTidy(old(W())) ==> NearlyTidy(W()))
        && HandedOver(old(dir.handed), dir.handed, dir.log, |old(dir.log).files| - 1, |dir.log.files| - 1)
      ensures HandedOn(dir.log, old(Count()), Count())
      ensures Blamed(err, old(dir.faults), dir.faults, clock.TimeUp())
    {
      hide HandedOn;
      hide LogWrite.Count;
      hide LogWrite.Named;
      hide StandsIn;
      hide Settled;
      hide Onward;
      hide Attempted;
      hide NearlyTidy;
      hide Begun;
      hide HandedOver;
      ghost var w := W();
      CountReady(w);
      StandsFacts(w, DeskAt(current.value.id, current.value.dataWritten));
      if Room() == 0 {
        OwedBegun(w.log);
        err := Roll();
      } else {
        OnwardNot(w);
        HandedNothing(dir.handed, w, |w.log.files| - 1);
        NoneHanded(w, Count());
        err := None;
      }
    }

    /** Sees to it that there is a session, and room for a byte, before a
        record begins. */
    method MakeRoom() returns (err: Option<WriteError>)
      requires Valid()
      modifies this, clock.timer
      modifies dir`files, dir`handed, dir`received, dir`log, dir`at, dir`faults, dir`unflushed, dir`clean
      ensures Valid() && Time() >= old(Time()) && lastMeta == old(lastMeta)
      ensures Onward(old(W()), W()) && Attempted(dir.log.epochs) == Attempted(old(dir.log.epochs))
      ensures err.None? ==>
        && current.Some? && Room() > 0
        && recordCount == (if old(NewSessionDue()) then 0 else old(recordCount))
        && dir.log.epochs == BaseEpochs(old(dir.log.epochs), format, DataSize(), old(NewSessionDue()))
        && (Tidy(old(W())) ==> NearlyTidy(W()))
        && HandedOver(old(dir.handed), dir.handed, dir.log,
                      |old(dir.log).files| - (if old(current.Some?) then 1 else 0), |dir.log.files| - 1)
      ensures HandedOn(dir.log, old(Count()), Count())
      ensures Blamed(err, old(dir.faults), dir.faults, clock.TimeUp())
    {
      hide HandedOn;
      hide LogWrite.Count;
      hide StandsIn;
      hide Settled;
      hide Onward;
      hide Attempted;
      hide Tidy;
      hide NearlyTidy;
      hide HandedOver;
      hide BaseEpochs;
      ghost var w, h, t, a := W(), dir.handed, Count(), |dir.log.files| - (if current.Some? then 1 else 0);
      err := EnsureSession();
      if err.Some? {
        return;
      }
      ghost var w1, h1, t1 := W(), dir.handed, Count();
      TidyIs(w1, DeskAt(current.value.id, current.value.dataWritten));
      err := RollIfFull();
      OnwardTwice(w, w1, W());
      HandedThen(w1, W(), t, t1, Count());
      if err.None? {
        HandedSince(w1, W(), h, h1, dir.handed, a);
      }
    }

    /** Writes a record into the room made for it, and reports it complete. */
    method PutRecord(msg: seq<byte>, total: u32) returns (err: Option<WriteError>)
      requires Valid() && current.Some? && Room() > 0 && PayloadFits(format, |msg|)
      requires total == format.DataHeaderLen() + |msg| > 0
      requires format.VariableTsRc? ==> recordCount < RECORD_COUNT_MAX
      modifies this, clock.timer
      modifies dir`files, dir`handed, dir`received, dir`log, dir`at, dir`faults, dir`unflushed, dir`clean, dir`reported
      ensures Valid() && Time() >= old(Time())
      ensures Onward(old(W()), W())
      ensures AttemptedAtMost(old(dir.log), dir.log, msg)
      ensures err.None? ==>
        && current.Some? && PutIn(old(dir.log), dir.log, format, Record(msg, lastMeta))
        && (NearlyTidy(old(W())) ==> Tidy(W()))
        && Minted(format, lastMeta, old(recordCount) + 1, old(clock.Reading()), clock.Reading())
        && (format.VariableTsRc? ==> recordCount == old(recordCount) + 1)
        && HandedOver(old(dir.handed), dir.handed, dir.log, |old(dir.log).files| - 1, |dir.log.files| - 1)
      ensures HandedOn(dir.log, old(Count()), Count())
      ensures old(dir.reported) <= dir.reported <= old(dir.reported) + 1
      ensures err.None? ==> dir.reported == old(dir.reported) + 1
      ensures Blamed(err, old(dir.faults), dir.faults, clock.TimeUp())
    {
      hide HandedOn;
      hide LogWrite.Named;
      hide LogWrite.Steady;
      hide LogWrite.DeskAt;
      hide LogWrite.Count;
      hide StandsIn;
      hide Settled;
      hide Onward;
      hide Attempted;
      hide Tidy;
      hide NearlyTidy;
      hide ValidRecord;
      hide Encode;
      hide PutIn;
      hide AttemptedAtMost;
      hide HandedOver;
      hide Minted;
      hide CountedNext;
      ReadySettled();
      OnwardNot(W());
      CountReady(W());
      NoneHanded(W(), Count());
      AttemptedIs(dir.log, dir.log, msg);
      ghost var d := DeskAt(current.value.id, current.value.dataWritten);
      DeskReady(W(), d);
      StandsFacts(W(), d);
      var built := BuildDataHeader(|msg|, msg);
      if built.Err? {
        return Some(built.error);
      }
      var (header, meta) := built.value;
      ghost var from, to := old(clock.Reading()), clock.Reading();
      MintedNext(d, Record(msg, meta), from, to);
      err := PutBuilt(header, meta, msg, total, d);
      if err.Some? {
        return;
      }
      lastMeta := meta;
      MintedBy(format, meta, d.count + 1, from, to, clock.Reading());
      var ok := dir.RecordComplete();
      return if ok then None else Some(IoError);
    }

    /** Writes a record out behind the data header built for it. */
    method PutBuilt(header: seq<byte>, meta: Meta, msg: seq<byte>, total: u32, ghost d: Desk)
      returns (err: Option<WriteError>)
      requires Steady() && current.Some? && current.value.dataWritten < DataSize()
      requires d == DeskAt(current.value.id, current.value.dataWritten).(count := d.count)
      requires StandsIn(W(), d) && d.owed == 0 && CountedNext(d, Record(msg, meta), recordCount)
      requires total == format.DataHeaderLen() + |msg| > 0 && |header| == format.DataHeaderLen()
      requires ValidRecord(format, Record(msg, meta)) && Encode(format, Record(msg, meta)) == header + msg
      modifies this, clock.timer
      modifies dir`files, dir`handed, dir`received, dir`log, dir`at, dir`faults, dir`unflushed, dir`clean
      ensures Valid() && Time() >= old(Time()) && recordCount == old(recordCount) && lastMeta == old(lastMeta)
      ensures Onward(old(W()), W())
      ensures AttemptedAtMost(old(dir.log), dir.log, msg)
      ensures err.None? ==>
        && current.Some? && PutIn(old(dir.log), dir.log, format, Record(msg, meta))
        && (NearlyTidy(old(W())) ==> Tidy(W()))
        && HandedOver(old(dir.handed), dir.handed, dir.log, |old(dir.log).files| - 1, |dir.log.files| - 1)
      ensures HandedOn(dir.log, old(Count()), Count())
      ensures Blamed(err, old(dir.faults), dir.faults, clock.TimeUp())
    {
      hide HandedOn;
      hide LogWrite.Count;
      hide StandsIn;
      hide Settled;
      hide Onward;
      hide Attempted;
      hide Tidy;
      hide NearlyTidy;
      hide Due;
      hide Inside;
      hide ValidRecord;
      hide Encode;
      hide PutIn;
      hide AttemptedAtMost;
      hide HandedOver;
      hide CountedNext;
      ghost var w := W();
      StandsFacts(w, d);
      CountIs(w);
      ghost var rec := Record(msg, meta);
      RecordIs(w, d, rec, recordCount);
      recordBytesLeft := total;
      dir.log := WithRecord(dir.log, rec);
      ghost var w1 := W();
      CountIs(w1);
      err := PutBytes(header, msg);
      OnwardTwice(w, w1, W());
      AttemptedIs(w.log, dir.log, msg);
      if err.Some? {
        return;
      }
      PutInIs(w.log, dir.log, format, rec);
    }

    /** Writes out a record's data header and payload. */
    method PutBytes(header: seq<byte>, msg: seq<byte>) returns (err: Option<WriteError>)
      requires Ready() && current.Some? && Room() > 0 && recordBytesLeft == |header| + |msg| > 0
      requires Due(dir.log, header + msg) && Inside(dir.log)
      modifies this, clock.timer
      modifies dir`files, dir`handed, dir`received, dir`log, dir`at, dir`faults, dir`unflushed, dir`clean
      ensures Time() >= old(Time()) && lastMeta == old(lastMeta) && recordCount == old(recordCount)
      ensures Valid()
      ensures Onward(old(W()), W()) && Attempted(dir.log.epochs) == Attempted(old(dir.log.epochs))
      ensures err.None? ==>
        && current.Some? && dir.log.epochs == old(dir.log.epochs)
        && HandedOver(old(dir.handed), dir.handed, dir.log, |old(dir.log).files| - 1, |dir.log.files| - 1)
        && (NearlyTidy(old(W())) ==> Tidy(W()))
      ensures HandedOn(dir.log, old(Count()), Count())
      ensures Blamed(err, old(dir.faults), dir.faults, clock.TimeUp())
    {
      hide HandedOn;
      hide LogWrite.Count;
      hide StandsIn;
      hide Settled;
      hide Onward;
      hide Attempted;
      hide Tidy;
      hide NearlyTidy;
      hide Due;
      hide Inside;
      hide Begun;
      hide HoldsData;
      hide HandedOver;
      ghost var w, h, t := W(), dir.handed, Count();
      err := WriteBytes(header, msg);
      if err.Some? {
        return;
      }
      ghost var w1, h1, t1 := W(), dir.handed, Count();
      assert msg + [] == msg;
      CountReady(w1);
      err := WriteBytes(msg, []);
      OnwardTwice(w, w1, W());
      HandedThen(w1, W(), t, t1, Count());
      if err.Some? {
        return;
      }
      HandedSince(w1, W(), h, h1, dir.handed, |w.log.files| - 1);
      TidyIs(W(), DeskAt(current.value.id, current.value.dataWritten));
    }

    /** Writes one record. Once it returns a size, the record is on disk to its
        last byte; when it does not, the record is there at most in part. A
        payload that fits is turned down only if something failed. */
    method Write(msg: seq<byte>) returns (r: Result<u32, WriteError>)
      requires Valid()
      modifies this, clock.timer
      modifies dir`files, dir`handed, dir`received, dir`log, dir`at, dir`faults, dir`unflushed, dir`clean, dir`reported
      ensures Valid() && Time() >= old(Time())
      ensures Onward(old(W()), W())
      ensures !PayloadFits(format, |msg|) ==>
        r == Err(RefusalOf(format, |msg|)) && W() == old(W()) && dir.faults == old(dir.faults)
      ensures PayloadFits(format, |msg|) ==> Blamed(FailureOf(r), old(dir.faults), dir.faults, clock.TimeUp())
      ensures AttemptedAtMost(old(dir.log), dir.log, msg)
      ensures HandedOn(dir.log, old(Count()), Count())
      ensures old(dir.reported) <= dir.reported <= old(dir.reported) + 1
      ensures r.Ok? ==> dir.reported == old(dir.reported) + 1
      ensures r.Ok? ==>
        && r.value == format.DataHeaderLen() + |msg|
        && Acknowledged(old(W()), W(), format, DataSize(), old(NewSessionDue()), Record(msg, lastMeta))
        && (Tidy(old(W())) ==> Tidy(W()))
        && Minted(format, lastMeta, if old(NewSessionDue()) then 1 else old(recordCount) + 1,
                  old(clock.Reading()), clock.Reading())
        && current.Some? && (format.VariableTsRc? ==> lastMeta.rc == recordCount)
        && HandedOver(old(dir.handed), dir.handed, dir.log,
                      |old(dir.log).files| - (if old(current.Some?) then 1 else 0), |dir.log.files| - 1)
    {
      hide HandedOn;
      hide LogWrite.Count;
      hide StandsIn;
      hide Settled;
      hide Onward;
      hide Attempted;
      hide Tidy;
      hide NearlyTidy;
      hide PutIn;
      hide AttemptedAtMost;
      hide Acknowledged;
      hide HandedOver;
      ghost var w, t := W(), Count();
      OnwardNot(w);
      CountReady(w);
      NoneHanded(w, t);
      AttemptedIs(w.log, w.log, msg);
      if format.Fixed? && |msg| != format.n {
        return Err(FixedLenMismatch);
      }
      if |msg| >= U32_LIMIT {
        return Err(PayloadTooLarge);
      }
      var total := format.DataHeaderLen() + |msg|;
      if total >= U32_LIMIT {
        return Err(PayloadTooLarge);
      }
      var err := MakeRoom();
      AttemptedIs(w.log, dir.log, msg);
      if err.Some? {
        return Err(err.value);
      }
      ghost var w1, h1, t1 := W(), dir.handed, Count();
      CountReady(w1);
      err := PutRecord(msg, total);
      OnwardTwice(w, w1, W());
      HandedThen(w1, W(), t, t1, Count());
      AttemptedSince(w.log, w1.log, dir.log, msg);
      if err.Some? {
        return Err(err.value);
      }
      HandedSince(w1, W(), old(dir.handed), h1, dir.handed,
                  |w.log.files| - (if old(current.Some?) then 1 else 0));
      AcknowledgedIs(w, w1, W(), DeskAt(current.value.id, current.value.dataWritten), old(NewSessionDue()),
                     Record(msg, lastMeta));
      return Ok(total);
    }

    /** Flushes the current file. */
    method Flush() returns (err: Option<WriteError>)
      requires Valid()
      modifies dir`faults, dir`unflushed, dir`clean
      ensures Valid() && (current.None? ==> err.None?) && (current.Some? && err.None? ==> dir.clean)
      ensures Blamed(err, old(dir.faults), dir.faults, false)
    {
      hide StandsIn;
      hide Settled;
      if current.None? {
        return None;
      }
      var ok := dir.Flush();
      return if ok then None else Some(IoError);
    }

    // ------------------------------------------------- all the log's files

    /** The log's files, oldest first. */
    method Scan() returns (r: Result<seq<SegId>, WriteError>)
      modifies dir`faults
      ensures r.Ok? ==> Listing(r.value, dir.files)
      ensures Blamed(FailureOf(r), old(dir.faults), dir.faults, false)
    {
      hide BuildName;
      var entries := dir.Enumerate(prefix, suffix);
      if entries.None? {
        return Err(IoError);
      }
      var ids := ScanSegmentIds(entries.value, prefix, suffix);
      return Ok(ids);
    }

    /** Removes the files listed, oldest first, as long as they can be. */
    method RemoveAll(ids: seq<SegId>) returns (ok: bool)
      requires Settled(W()) && dir.since == |dir.log.epochs| && Listing(ids, dir.files)
      modifies dir`files, dir`at, dir`faults
      ensures Settled(W()) && dir.files.Keys <= old(dir.files.Keys) && (Kept(old(W())) ==> Kept(W()))
      ensures NewestLeft(old(dir.files), dir.files) && (ok ==> dir.files == map[])
      ensures Blamed(if ok then None else Some(IoError), old(dir.faults), dir.faults, false)
    {
      hide Settled;
      hide Kept;
      var i := 0;
      while i < |ids|
        invariant 0 <= i <= |ids| && Settled(W()) && (Kept(old(W())) ==> Kept(W()))
        invariant dir.files.Keys <= old(dir.files.Keys) && dir.faults == old(dir.faults)
        invariant dir.files == old(dir.files) - NameSet(ids[..i])
      {
        ghost var w := W();
        ok := dir.Remove(ids[i]);
        if !ok {
          FrontGone(old(dir.files), dir.files, ids, i);
          return;
        }
        OldestGone(w, ids[i]);
        i := i + 1;
        FrontOneMore(ids, i);
      }
      FrontGone(old(dir.files), dir.files, ids, i);
      ok := true;
    }

    /** Removes every one of the log's files, oldest first; the next record
        begins a new session of a new log. */
    method Clear() returns (err: Option<WriteError>)
      requires Valid()
      modifies this`current, this`recordBytesLeft
      modifies dir`files, dir`received, dir`log, dir`at, dir`since, dir`faults
      ensures Valid() && current.None?
      ensures err.None? ==> W() == Directory.EmptyWorld(dir.custody) && Tidy(W())
      ensures err.Some? ==>
        && dir.log == old(dir.log) && dir.files.Keys <= old(dir.files.Keys) && dir.since == |dir.log.epochs|
        && (Kept(old(W())) ==> Kept(W())) && NewestLeft(old(dir.files), dir.files)
      ensures Blamed(err, old(dir.faults), dir.faults, false)
    {
      hide EarlierNamed;
      hide StandsIn;
      hide Settled;
      hide Tidy;
      hide Kept;
      current := None;
      recordBytesLeft := 0;
      dir.since := |dir.log.epochs|;
      Disowned(old(W()));
      var ids := Scan();
      if ids.Err? {
        return Some(ids.error);
      }
      var ok := RemoveAll(ids.value);
      if !ok {
        return Some(IoError);
      }
      dir.Forget();
      NothingThere(W());
      return None;
    }

    /** Hands every file already there to `send`; returns the latest name there
        was, whether `send` left the file or not. */
    method SendExisting() returns (r: Result<Option<SegId>, WriteError>)
      requires Settled(W())
      modifies dir`files, dir`handed, dir`received, dir`at, dir`faults
      ensures Settled(W()) && Onward(old(W()), W()) && (Complete(old(W())) ==> Complete(W()))
      ensures dir.files.Keys <= old(dir.files.Keys)
      ensures HandedFirst(old(dir.files), old(dir.handed), dir.handed) && old(dir.received) <= dir.received
      ensures LeftBy(old(dir.files), dir.files, old(dir.handed), dir.handed)
      ensures r.Ok? ==> HandedAll(old(dir.files), old(dir.handed), dir.handed)
      ensures r.Ok? ==> forall id :: id in old(dir.files) ==> r.value.Some? && id <= r.value.value
      ensures r.Ok? && r.value.Some? ==> r.value.value in old(dir.files)
      ensures Blamed(FailureOf(r), old(dir.faults), dir.faults, false)
    {
      hide LeftBy;
      hide Settled;
      hide Complete;
      hide Onward;
      hide MaySend;
      hide SentEach;
      hide HandedAll;
      hide HandedFirst;
      hide LeftOf;
      hide EarlierNamed;
      ghost var w := W();
      OnwardNot(w);
      SentNone(w.dir);
      SentFirst(w.dir, dir.files, dir.handed, dir.handed, [], []);
      var ids := Scan();
      if ids.Err? {
        return Err(ids.error);
      }
      var highest := if ids.value == [] then None else Some(ids.value[|ids.value| - 1]);
      var i := 0;
      ghost var sent: seq<Handed> := [];
      while i < |ids.value|
        invariant 0 <= i <= |ids.value| && Settled(W()) && dir.faults == old(dir.faults)
        invariant Onward(w, W()) && (Complete(w) ==> Complete(W())) && dir.files.Keys <= w.dir.Keys
        invariant dir.handed == old(dir.handed) + sent && SentEach(w.dir, dir.files, sent, ids.value[..i])
        invariant old(dir.received) <= dir.received
      {
        ghost var w1 := W();
        var ok;
        ghost var x;
        ok, x := dir.Send(ids.value[i]);
        SentOff(w1, x, !dir.custody.Keeps?);
        OnwardTwice(w, w1, W());
        SentMore(w.dir, w1, sent, ids.value[..i], x, !dir.custody.Keeps?);
        sent := sent + [x];
        i := i + 1;
        assert ids.value[..i] == ids.value[..i - 1] + [x.id];
        if !ok {
          SentFront(w.dir, dir.files, old(dir.handed), dir.handed, sent, ids.value, i);
          return Err(IoError);
        }
      }
      assert ids.value[..i] == ids.value;
      SentAll(w.dir, dir.files, old(dir.handed), sent, ids.value);
      SentFront(w.dir, dir.files, old(dir.handed), dir.handed, sent, ids.value, i);
      return Ok(highest);
    }

    /** Hands over what is already there, sets the clock past it, and starts a
        session. */
    method Begin() returns (err: Option<WriteError>)
      requires Configured() && timerResolution > 0 && current.None? && sessionId == 0
      requires recordCount == 0 && recordBytesLeft == 0
      requires Settled(W()) && clock.mono <= Time()
      modifies this, clock, clock.timer
      modifies dir`files, dir`handed, dir`received, dir`log, dir`at, dir`faults, dir`unflushed, dir`clean
      ensures Time() >= old(Time())
      ensures Settled(W()) && Onward(old(W()), W())
      ensures Attempted(dir.log.epochs) == Attempted(old(dir.log.epochs))
      ensures HandedFirst(old(dir.files), old(dir.handed), dir.handed)
      ensures AddsBlank(old(dir.log), dir.log) && old(dir.received) <= dir.received
      ensures dir.unflushed == old(dir.unflushed)
      ensures err.None? ==>
        && Valid() && current.Some? && recordCount == 0
        && dir.log == WithSession(old(dir.log), format, DataSize(), current.value.id)
        && (Tidy(old(W())) ==> Tidy(W()))
        && HandedAll(old(dir.files), old(dir.handed), dir.handed)
      ensures var now := Latest(old(dir.files), old(clock.Reading())) + 1 + (Time() - old(Time()));
              && NamedBy(dir.files, now) && old(clock.Reading()) <= clock.Reading() <= now
              && Blamed(err, old(dir.faults), dir.faults, now >= U64_LIMIT - 1)
    {
      hide LeftBy;
      hide AddsBlank;
      hide HandedFirst;
      hide StandsIn;
      hide Settled;
      hide Tidy;
      hide Onward;
      hide Attempted;
      hide HandedAll;
      hide Complete;
      ghost var w := W();
      AddsNone(dir.log);
      var highest := SendExisting();
      ghost var w1 := W();
      TidyStays(w, w1);
      if highest.Err? {
        return Some(highest.error);
      }
      if highest.value.Some? {
        var advanced := clock.AdvancePast(highest.value.value);
        if advanced.Err? {
          return Some(ClockFailed(advanced.error));
        }
      }
      err := StartSession();
      OnwardTwice(w, w1, W());
    }

    /** Opens a writer: hands over what is already there, sets the clock past
        it, and starts a session. `sinceEpoch` is what the real-time clock
        reads, whatever it read for the writers before. */
    static method Open(dir: Directory.Directory, prefix: string, suffix: string, segSizeMax: u32, format: Format,
                       sinceEpoch: nat, timer: Clock.Timer, resolution: u64)
      returns (r: Result<LogWrite, WriteError>)
      requires Settled(dir.World())
      modifies dir, timer
      ensures timer.time >= old(timer.time) && dir.faults >= old(dir.faults)
      ensures Settled(dir.World()) && Onward(old(dir.World()), dir.World())
      ensures Attempted(dir.log.epochs) == Attempted(old(dir.log.epochs))
      ensures OpenRefusal(segSizeMax, format, sinceEpoch, resolution).None? ==>
        HandedFirst(old(dir.files), old(dir.handed), dir.handed)
      ensures AddsBlank(old(dir.log), dir.log) && old(dir.received) <= dir.received
      ensures dir.unflushed == old(dir.unflushed)
      ensures r.Ok? ==>
        && resolution > 0 && segSizeMax > HEADER_LEN + format.DataHeaderLen() && format != Fixed(0) && sinceEpoch > 0
        && fresh(r.value) && fresh(r.value.clock) && r.value.dir == dir && r.value.format == format
        && r.value.segSizeMax == segSizeMax && r.value.prefix == prefix && r.value.suffix == suffix
        && r.value.Valid() && r.value.current.Some? && r.value.recordCount == 0 && r.value.clock.timer == timer
        && dir.log == WithSession(old(dir.log), format, segSizeMax - HEADER_LEN, r.value.current.value.id)
        && (Tidy(old(dir.World())) ==> Tidy(dir.World()))
        && HandedAll(old(dir.files), old(dir.handed), dir.handed)
      ensures var refusal := OpenRefusal(segSizeMax, format, sinceEpoch, resolution);
              refusal.Some? ==>
                && r == Err(refusal.value) && dir.World() == old(dir.World()) && dir.handed == old(dir.handed)
                && dir.faults == old(dir.faults)
      ensures var now := Latest(old(dir.files), sinceEpoch) + 1 + (timer.time - old(timer.time));
              && NamedBy(dir.files, now) && (r.Ok? ==> sinceEpoch <= r.value.clock.Reading() <= now)
              && (OpenRefusal(segSizeMax, format, sinceEpoch, resolution).None? ==>
                    Blamed(FailureOf(r), old(dir.faults), dir.faults, now >= U64_LIMIT - 1))
    {
      hide HandedFirst;
      hide AddsBlank;
      hide StandsIn;
      hide Settled;
      hide Tidy;
      hide Onward;
      hide Attempted;
      hide HandedAll;
      ghost var w := dir.World();
      OnwardNot(w);
      AddsNone(dir.log);
      if resolution == 0 {
        return Err(TimerResolutionZero);
      }
      if segSizeMax <= HEADER_LEN + format.DataHeaderLen() {
        return Err(SegSizeTooSmall);
      }
      if format == Fixed(0) {
        return Err(FixedLenMismatch);
      }
      var clock := Clock.Clock.Anchor(sinceEpoch, timer);
      if clock.Err? {
        return Err(ClockFailed(clock.error));
      }
      var log := new LogWrite(dir, prefix, suffix, segSizeMax, format, clock.value, resolution);
      var err := log.Begin();
      return if err.Some? then Err(err.value) else Ok(log);
    }

    /** What dropping the writer does: hands the current file over, whole, if it
        holds any data, even if it could not be flushed. */
    method Close()
      requires Valid()
      modifies this`current, dir`files, dir`handed, dir`received, dir`at, dir`faults, dir`unflushed, dir`clean
      ensures current.None? && dir.faults >= old(dir.faults)
      ensures HandedOn(dir.log, old(Count()), Count())
      ensures old(HoldsAny()) ==> dir.clean || dir.unflushed > old(dir.unflushed)
      ensures Settled(W()) && Onward(old(W()), W()) && dir.files.Keys <= old(dir.files.Keys)
      ensures HandedOver(old(dir.handed), dir.handed, dir.log,
                         |dir.log.files| - (if old(HoldsAny()) then 1 else 0), |dir.log.files|)
      ensures Complete(old(W())) ==> Complete(W())
    {
      hide StandsIn;
      hide Settled;
      hide Onward;
      hide HandedOver;
      hide HandedOn;
      hide WholeFile;
      hide Complete;
      ghost var w, h, t := W(), dir.handed, Count();
      OnwardNot(w);
      SettledCurrent(w);
      HandedNothing(h, w, |w.log.files|);
      if current.None? {
        NoneHanded(w, t);
        return;
      }
      var closing := current.value;
      ghost var d := DeskAt(closing.id, closing.dataWritten);
      StandsPresent(w, d);
      current := None;
      if closing.dataWritten == 0 {
        NotHanded(w, d, t, Count());
        return;
      }
      var flushed := dir.Flush();
      var sent;
      ghost var x;
      sent, x := dir.Send(closing.id);
      StandsWhole(w, d, x);
      HandedOne(h, x, w.log, |w.log.files| - 1);
      LastHanded(w.log, x, t, Count());
      SentOff(w, x, !dir.custody.Keeps?);
    }

    /** The current file has data. */
    ghost predicate HoldsAny()
      reads this
    {
      current.Some? && current.value.dataWritten > 0
    }
  }

  /** A call that fails says why: an operation of the directory failed, or there
      is no timestamp left; under one that does not, nothing failed. */
  ghost predicate Blamed(err: Option<WriteError>, before: nat, after: nat, timeUp: bool) {
    match err
    case None => before == after
    case Some(IoError) => before < after
    case Some(ClockFailed(cause)) => before <= after && cause.TimestampOverflow? && timeUp
    case Some(_) => false
  }

  ghost function FailureOf<T>(r: Result<T, WriteError>): Option<WriteError> {
    if r.Ok? then None else Some(r.error)
  }

  /** No file is named later. */
  ghost predicate NamedBy(files: Dir, latest: int) {
    forall id :: id in files ==> id <= latest
  }

  /** The latest of a reading and the names of files. */
  ghost function Latest(files: Dir, reading: nat): (latest: nat)
    ensures reading <= latest && NamedBy(files, latest)
    ensures latest == reading || latest in files
    decreases |files|
  {
    if files == map[] then reading
    else
      var id :| id in files;
      var rest := Latest(files - {id}, reading);
      assert forall a :: a in files && a != id ==> a in files - {id};
      if id <= rest then rest else id
  }

  /** Why a writer is not opened, before the directory is touched. */
  function OpenRefusal(segSizeMax: u32, format: Format, sinceEpoch: nat, resolution: u64): Option<WriteError> {
    if resolution == 0 then Some(TimerResolutionZero)
    else if segSizeMax <= HEADER_LEN + format.DataHeaderLen() then Some(SegSizeTooSmall)
    else if format == Fixed(0) then Some(FixedLenMismatch)
    else if sinceEpoch == 0 then Some(ClockFailed(Clock.ClockUnset))
    else if sinceEpoch >= U64_LIMIT - 1 then Some(ClockFailed(Clock.TimestampOverflow))
    else None
  }

  /** Files went, but none before an older one. */
  ghost predicate NewestLeft(files: Dir, left: Dir) {
    && left.Keys <= files.Keys && (forall id :: id in left ==> left[id] == files[id])
    && forall a, b :: a in files && b in files && a < b && b !in left ==> a !in left
  }

  ghost function NameSet(ids: seq<SegId>): set<SegId> { set id | id in ids }

  lemma FrontGone(files: Dir, left: Dir, ids: seq<SegId>, i: nat)
    requires Listing(ids, files) && i <= |ids| && left == files - NameSet(ids[..i])
    ensures NewestLeft(files, left) && (i == |ids| ==> left == map[])
  {
    assert forall j :: 0 <= j < i ==> ids[..i][j] == ids[j];
    assert i == |ids| ==> ids[..i] == ids;
  }

  lemma FrontOneMore(ids: seq<SegId>, i: nat)
    requires 0 < i <= |ids|
    ensures NameSet(ids[..i]) == NameSet(ids[..i - 1]) + {ids[i - 1]}
  {
    assert ids[..i] == ids[..i - 1] + [ids[i - 1]];
  }

  /** All of the directory's files, oldest first. */
  ghost predicate Listing(ids: seq<SegId>, files: Dir) {
    Sorted(ids) && forall id :: id in ids <==> id in files
  }

  function IdsOf(sent: seq<Handed>): (ids: seq<SegId>)
    ensures |ids| == |sent| && forall i :: 0 <= i < |sent| ==> ids[i] == sent[i].id
  {
    seq(|sent|, i requires 0 <= i < |sent| => sent[i].id)
  }

  /** What `send` has left of the files there were. */
  ghost function LeftOf(files: Dir, sent: seq<Handed>): Dir {
    if sent == [] then files else LeftOf(files, sent[..|sent| - 1]) - sent[|sent| - 1].gone
  }

  /** Each was handed over as it was, unless an earlier `send` took it away. */
  ghost predicate AsTheyWere(files: Dir, sent: seq<Handed>) {
    forall i :: 0 <= i < |sent| ==> AsItWas(files, sent[..i], sent[i])
  }

  ghost predicate AsItWas(files: Dir, earlier: seq<Handed>, h: Handed) {
    var left := LeftOf(files, earlier);
    h.content == if h.id in left then Some(left[h.id]) else None
  }

  /** All of them were handed to `send`, each once, oldest first. */
  ghost predicate HandedAll(files: Dir, before: seq<Handed>, after: seq<Handed>) {
    && before <= after
    && Listing(IdsOf(after[|before|..]), files) && AsTheyWere(files, after[|before|..])
  }

  /** Those that were, were the oldest, each once, as they were. */
  ghost predicate HandedFirst(files: Dir, before: seq<Handed>, after: seq<Handed>) {
    && before <= after
    && var ids := IdsOf(after[|before|..]);
       && Sorted(ids) && AsTheyWere(files, after[|before|..])
       && (forall id :: id in ids ==> id in files)
       && (forall a, b :: a in files && a !in ids && b in ids ==> b < a)
  }

  /** What is left is what none of them took. */
  ghost predicate LeftBy(files: Dir, left: Dir, before: seq<Handed>, after: seq<Handed>) {
    before <= after && left == LeftOf(files, after[|before|..])
  }

  lemma SentFirst(files: Dir, left: Dir, before: seq<Handed>, after: seq<Handed>, sent: seq<Handed>, ids: seq<SegId>)
    requires after == before + sent && SentEach(files, left, sent, ids)
    requires Sorted(ids) && (forall id :: id in ids ==> id in files)
    requires forall a, b :: a in files && a !in ids && b in ids ==> b < a
    ensures HandedFirst(files, before, after) && LeftBy(files, left, before, after)
  {
    assert after[|before|..] == sent;
  }

  lemma SentFront(files: Dir, left: Dir, before: seq<Handed>, after: seq<Handed>, sent: seq<Handed>,
                  ids: seq<SegId>, i: nat)
    requires after == before + sent
    requires i <= |ids| && SentEach(files, left, sent, ids[..i]) && Listing(ids, files)
    ensures HandedFirst(files, before, after) && LeftBy(files, left, before, after)
  {
    hide SentEach;
    assert forall j :: 0 <= j < i ==> ids[..i][j] == ids[j];
    assert forall j :: i <= j < |ids| ==> forall k :: 0 <= k < i ==> ids[k] < ids[j];
    SentFirst(files, left, before, after, sent, ids[..i]);
  }

  ghost predicate SentEach(files: Dir, left: Dir, sent: seq<Handed>, ids: seq<SegId>) {
    IdsOf(sent) == ids && left == LeftOf(files, sent) && AsTheyWere(files, sent)
  }

  lemma SentNone(files: Dir)
    ensures SentEach(files, files, [], [])
  {
  }

  lemma SentMore(files: Dir, w: World, sent: seq<Handed>, ids: seq<SegId>, x: Handed, takes: bool)
    requires SentEach(files, w.dir, sent, ids) && MaySend(w, x, takes)
    ensures SentEach(files, AfterSend(w, x, takes).dir, sent + [x], ids + [x.id])
  {
    hide LeftOf;
    hide AsTheyWere;
    LeftMore(files, sent, x);
    AsTheyWereMore(files, sent, x);
  }

  lemma LeftMore(files: Dir, sent: seq<Handed>, x: Handed)
    ensures LeftOf(files, sent + [x]) == LeftOf(files, sent) - x.gone
  {
    assert (sent + [x])[..|sent|] == sent;
  }

  lemma AsTheyWereMore(files: Dir, sent: seq<Handed>, x: Handed)
    requires AsTheyWere(files, sent) && AsItWas(files, sent, x)
    ensures AsTheyWere(files, sent + [x])
  {
    hide AsItWas;
    var more := sent + [x];
    assert more[..|sent|] == sent;
    assert forall i :: 0 <= i < |sent| ==> more[..i] == sent[..i] && more[i] == sent[i];
  }

  lemma SentAll(files: Dir, left: Dir, before: seq<Handed>, sent: seq<Handed>, ids: seq<SegId>)
    requires SentEach(files, left, sent, ids) && Listing(ids, files)
    ensures HandedAll(files, before, before + sent) && left == LeftOf(files, (before + sent)[|before|..])
  {
    assert (before + sent)[|before|..] == sent;
  }

  /** Unless `send` takes files it was not handed, each is there when its turn
      comes. */
  lemma AllThere(files: Dir, before: seq<Handed>, after: seq<Handed>, i: nat)
    requires HandedAll(files, before, after) && |before| <= i < |after|
    requires forall k :: |before| <= k < |after| ==> after[k].gone <= {after[k].id}
    ensures after[i].id in files && after[i].content == Some(files[after[i].id])
  {
    var sent, n := after[|before|..], i - |before|;
    var ids := IdsOf(sent);
    assert ids[n] in ids;
    LeftThere(files, sent, n, n);
  }

  lemma {:induction false} LeftThere(files: Dir, sent: seq<Handed>, n: nat, i: nat)
    requires i <= n < |sent| && Sorted(IdsOf(sent)) && sent[n].id in files
    requires forall k :: 0 <= k < |sent| ==> sent[k].gone <= {sent[k].id}
    ensures var left := LeftOf(files, sent[..i]); sent[n].id in left && left[sent[n].id] == files[sent[n].id]
    decreases i
  {
    if i > 0 {
      LeftThere(files, sent, n, i - 1);
      assert sent[..i][..i - 1] == sent[..i - 1];
      assert IdsOf(sent)[i - 1] < IdsOf(sent)[n];
    }
  }

  /** Why a payload of this length is refused. */
  function RefusalOf(format: Format, len: nat): WriteError {
    if format.Fixed? && len != format.n then FixedLenMismatch else PayloadTooLarge
  }

  lemma EmptyFirst(dir: Dir, id: SegId, bytes: seq<byte>)
    ensures dir[id := []][id := [] + bytes] == dir[id := bytes]
  {
    assert [] + bytes == bytes;
  }
}
