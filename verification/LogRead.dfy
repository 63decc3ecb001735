/** `LogRead` and its iterator in the source's own form: fields updated in
    place, loops that cross from file to file, bytes written into the caller's
    buffer. Every method is proved to compute the functions of ReadSpec. */
module LogRead {
  import opened Bytes
  import opened Format
  import opened Header
  import opened ReadSpec
  import opened ReadEnds
  import opened Names

  datatype LogError =
    | ErrEof
    | ErrSessionEnd
    | ErrReadTruncated(lost: nat, n: nat)
    | ErrReadOverflow(n: nat)
    | ErrNoSegmentFiles

  datatype ReadResult = ReadResult(n: nat, meta: Meta)

  function ErrorOf(fault: Fault, n: nat): LogError {
    match fault
    case Eof => ErrEof
    case SessionEnd => ErrSessionEnd
    case Truncated(lost) => ErrReadTruncated(lost, n)
  }

  function ErrorOfOption(fault: Option<Fault>, n: nat): Option<LogError> {
    if fault.None? then None else Some(ErrorOf(fault.value, n))
  }

  /** How an outcome is returned, and the bytes it leaves in the buffer. */
  function Report(out: Outcome): Result<ReadResult, LogError> {
    match out
    case Got(payload, meta) => Ok(ReadResult(|payload|, meta))
    case Overflow(front) => Err(ErrReadOverflow(|front|))
    case Failed(fault, front) => Err(ErrorOf(fault, |front|))
  }

  /** What a caller makes of what is returned and of the bytes in the buffer. */
  function OutcomeOf(r: Result<ReadResult, LogError>, bytes: seq<byte>): Outcome {
    match r
    case Ok(read) => Got(bytes, read.meta)
    case Err(ErrReadOverflow(_)) => Overflow(bytes)
    case Err(ErrReadTruncated(lost, _)) => Failed(Truncated(lost), bytes)
    case Err(ErrSessionEnd) => Failed(SessionEnd, bytes)
    case Err(_) => Failed(Eof, bytes)
  }

  /** The number of bytes returned, or reported with an error that may leave any. */
  function CountIn(r: Result<ReadResult, LogError>): Option<nat> {
    match r
    case Ok(read) => Some(read.n)
    case Err(ErrReadOverflow(n)) => Some(n)
    case Err(ErrReadTruncated(_, n)) => Some(n)
    case Err(_) => None
  }

  /** The caller is told all of the outcome, and how many bytes there are. */
  lemma ReportTold(out: Outcome)
    ensures OutcomeOf(Report(out), Delivered(out)) == out
    ensures var n := CountIn(Report(out));
            if n.Some? then n.value == |Delivered(out)| else out.Failed? && !out.fault.Truncated?
  {
  }

  /** The identifiers of the directory's files, oldest first. */
  ghost predicate Listed(dir: Dir, ids: seq<SegId>) {
    Sorted(ids) && forall id :: id in ids <==> id in dir
  }

  class CursorState {
    var consumed: nat
    var total: Option<nat>
    var implied: Option<nat>
    var payloadInBuf: nat
    var inPayload: bool

    constructor ()
      ensures Abs() == FRESH_CURSOR && payloadInBuf == 0 && !inPayload
    {
      consumed, total, implied, payloadInBuf, inPayload := 0, None, None, 0, false;
    }

    ghost function Abs(): Cursor
      reads this
    {
      Cursor(consumed, total, implied)
    }
  }

  lemma PrefixedFirst(f: FillOut)
    ensures f.Prefixed([]) == f
  {
    assert [] + f.got == f.got;
  }

  lemma PrefixedIs(front: seq<byte>, f: FillOut)
    ensures f.Prefixed(front) == f.(got := front + f.got)
  {
  }

  lemma PrefixedNone(front: seq<byte>)
    ensures forall fault, st, cur :: FillOut([], fault, st, cur).Prefixed(front) == FillOut(front, fault, st, cur)
  {
    assert front + [] == front;
  }

  lemma AdmitRest(st: State, rest: seq<SegId>, seg: Segment)
    ensures ReadSpec.Admit(st.(pending := rest), rest, seg) == ReadSpec.Admit(st, rest, seg)
  {
  }

  lemma JoinedBytes(done: seq<byte>, bytes: seq<byte>, rest: FillOut, dst0: seq<byte>, off: nat)
    requires |done| == off && off + |bytes| <= |dst0|
    ensures rest.Prefixed(bytes).Prefixed(done) == rest.Prefixed(done + bytes)
    ensures (done + dst0[off..])[..off] == done
    ensures (done + dst0[off..])[off + |bytes|..] == dst0[off + |bytes|..]
  {
    PrefixedTwice(done, bytes, rest);
  }

  /** `read_exact`: copies n bytes of a file into part of a buffer. */
  method CopyInto(dst: array<byte>, off: nat, src: seq<byte>, pos: nat, n: nat)
    requires off + n <= dst.Length && pos + n <= |src|
    modifies dst
    ensures dst[..] == old(dst[..off]) + src[pos..pos + n] + old(dst[off + n..])
  {
    for i := 0 to n
      invariant dst[..off] == old(dst[..off]) && dst[off + n..] == old(dst[off + n..])
      invariant dst[off..off + i] == src[pos..pos + i]
    {
      dst[off + i] := src[pos + i];
    }
    assert dst[..] == dst[..off] + dst[off..off + n] + dst[off + n..];
  }

  lemma NoneUnusable(dir: Dir)
    ensures Unusable(dir, []) == 0
  {
  }

  lemma UnusableStep(dir: Dir, ids: seq<SegId>)
    requires ids != []
    ensures Unusable(dir, ids) == if Usable(dir, ids[0]) then 0 else 1 + Unusable(dir, ids[1..])
  {
  }

  class LogRead {
    const dir: Dir
    var pending: seq<SegId>
    var current: Option<Segment>
    var resync: bool
    var session: Option<SegId>
    var prevSeq: Option<u64>
    var startLost: nat
    var segmentsOpened: nat
    var collectHeaders: bool
    var openedHeaders: seq<Header>
    var reopened: Option<SegId>
    var recovery: Option<Recovery>
    var lastMeta: Meta

    ghost function St(): State
      reads this
    {
      State(pending, current, resync, session, prevSeq, startLost, segmentsOpened,
            collectHeaders, openedHeaders, reopened, recovery, lastMeta)
    }

    ghost predicate Valid()
      reads this
    {
      Sound(dir, St())
    }

    constructor (dir: Dir, ids: seq<SegId>)
      ensures this.dir == dir && St() == Initial(ids, false) && Valid()
    {
      this.dir := dir;
      pending, current, resync, session, prevSeq := ids, None, true, None, None;
      startLost, segmentsOpened, collectHeaders, openedHeaders := 0, 0, false, [];
      reopened, recovery, lastMeta := None, None, MetaSimple;
    }

    /** Opens a log for reading: lists its files, oldest first, and opens none.
        `dir` is the directory as its file names show it. */
    static method Open(dir: Dir, entries: seq<string>, prefix: string, suffix: string)
      returns (r: Result<LogRead, LogError>)
      requires forall i, j :: 0 <= i < j < |entries| ==> entries[i] != entries[j]
      requires forall id: u64 :: id in dir <==> BuildName(prefix, id, suffix) in entries
      ensures r.Err? <==> forall id: u64 :: BuildName(prefix, id, suffix) !in entries
      ensures r.Err? ==> r.error == ErrNoSegmentFiles
      ensures r.Ok? ==> fresh(r.value) && r.value.dir == dir && r.value.Valid()
      ensures r.Ok? ==> Listed(dir, r.value.pending) && r.value.St() == Initial(r.value.pending, false)
    {
      var ids := ScanSegmentIds(entries, prefix, suffix);
      if ids == [] {
        return Err(ErrNoSegmentFiles);
      }
      assert ids[0] in ids;
      var log := new LogRead(dir, ids);
      return Ok(log);
    }

    method CollectOpenedHeaders(enable: bool)
      modifies this`collectHeaders
      ensures St() == old(St()).(collect := enable)
    {
      collectHeaders := enable;
    }

    method TakeOpenedHeaders() returns (taken: seq<Header>)
      modifies this`openedHeaders
      ensures taken == old(openedHeaders) && St() == old(St()).(headers := [])
    {
      taken := openedHeaders;
      openedHeaders := [];
    }

    method LosePosition()
      modifies this`resync, this`current
      ensures St() == Lose(old(St()))
    {
      resync := true;
      current := None;
    }

    method RejectCurrent()
      modifies this`pending, this`current, this`reopened
      ensures St() == Reject(old(St()))
    {
      if current.Some? {
        pending := [current.value.id] + pending;
        reopened := Some(current.value.id);
        current := None;
      }
    }

    /** Opens a file that passed its checks. One that was handed back and is
        opened again has been counted already. */
    method Admit(id: SegId, segment: Segment)
      requires segment.id == id
      modifies this
      ensures St() == ReadSpec.Admit(old(St()), old(pending), segment)
    {
      if reopened == Some(id) {
        reopened := None;
      } else {
        segmentsOpened := segmentsOpened + 1;
        if collectHeaders {
          openedHeaders := openedHeaders + [segment.header];
        }
      }
      if session.None? {
        session := Some(segment.header.sessionId);
        startLost := segment.header.sequence;
      }
      prevSeq := Some(segment.header.sequence);
      current := Some(segment);
    }

    method OpenNext() returns (opening: Opening)
      modifies this
      ensures (opening, St()) == ReadSpec.OpenNext(dir, old(St()))
    {
      hide OpenValidated;
      hide Unusable;
      hide ReadSpec.Admit;
      ghost var st0 := St();
      NoneUnusable(dir);
      ghost var t := 0;
      while pending != []
        invariant St() == st0.(pending := pending)
        invariant t <= |st0.pending| && pending == st0.pending[t..]
        invariant Unusable(dir, st0.pending) == Unusable(dir, pending) + t
        decreases |pending|
      {
        var id := pending[0];
        UnusableStep(dir, pending);
        pending := pending[1..];
        assert pending == st0.pending[t + 1..];
        var segment := OpenValidated(dir, id);
        if segment.None? {
          t := t + 1;
          continue;
        }
        if session.Some? && segment.value.header.sessionId != session.value {
          pending := [id] + pending;
          assert pending == st0.pending[t..];
          session, prevSeq, recovery := None, None, None;
          return NewSession;
        }
        AdmitRest(st0, pending, segment.value);
        Admit(id, segment.value);
        return Opened;
      }
      return NoMore;
    }

    /** Whether the file just opened continues the record in progress, as far
        as its `remaining` field tells. */
    method CheckRemaining(cursor: CursorState, header: Header) returns (reject: bool)
      modifies cursor`implied
      ensures reject == !Continues(header, old(cursor.Abs()))
      ensures cursor.Abs() == NoteImplied(header, old(cursor.Abs()))
    {
      var headerLen := header.format.DataHeaderLenIn(header.minor);
      reject := false;
      if cursor.consumed == 0 {
        reject := header.remaining != 0;
      } else if cursor.total.Some? {
        reject := header.remaining != cursor.total.value - cursor.consumed;
      } else {
        var rest := if cursor.consumed < headerLen then headerLen - cursor.consumed else 0;
        if header.remaining < rest {
          reject := true;
        } else {
          var implied := header.remaining - rest;
          if cursor.implied.Some? && cursor.implied.value != implied {
            reject := true;
          } else {
            cursor.implied := Some(implied);
          }
        }
      }
    }

    /** How many files the sequence shows lost, and whether it shows a gap. */
    static method CheckSequence(prevSeq: Option<u64>, sequence: u64) returns (lost: nat, gap: bool)
      ensures lost == Skipped(prevSeq, sequence) && gap == !InSequence(prevSeq, sequence)
    {
      lost, gap := 0, false;
      if prevSeq.Some? {
        var prev: int := prevSeq.value;
        var expected := prev + 1;
        if sequence > expected {
          return sequence - expected, true;
        } else if sequence < expected {
          gap := true;
        }
      }
    }

    /** Crosses from an exhausted file into the next one, and checks that it
        really continues the record in progress. */
    method Cross(cursor: CursorState) returns (err: Option<LogError>)
      modifies this, cursor`implied
      ensures var c := ReadSpec.Cross(dir, old(St()), old(cursor.Abs()));
              && St() == c.st && cursor.Abs() == c.cur
              && err == ErrorOfOption(c.fault, cursor.payloadInBuf)
    {
      hide ReadSpec.OpenNext;
      hide ReadSpec.Judge;
      ghost var st0 := St();
      var prevSeq0, prevSession := prevSeq, session;
      var prevShort := current.Some? && |current.value.data| < current.value.header.DataLen();
      current := None;

      var opening := OpenNext();
      if opening.NewSession? {
        if cursor.consumed > 0 {
          session, prevSeq := prevSession, prevSeq0;
          return Some(ErrReadTruncated(0, cursor.payloadInBuf));
        }
        return Some(ErrSessionEnd);
      }
      if opening.NoMore? {
        return Some(ErrReadTruncated(0, cursor.payloadInBuf));
      }
      err := Judge(cursor, st0, prevSeq0, prevShort);
    }

    /** Accepts or refuses the file a crossing has just opened. */
    method Judge(cursor: CursorState, ghost st0: State, prevSeq0: Option<u64>, prevShort: bool)
      returns (err: Option<LogError>)
      requires current.Some? && prevSeq0 == st0.prevSeq && prevShort == Short(st0)
      modifies this, cursor`implied
      ensures var c := ReadSpec.Judge(st0, old(St()), old(cursor.Abs()));
              && St() == c.st && cursor.Abs() == c.cur
              && err == ErrorOfOption(c.fault, cursor.payloadInBuf)
    {
      hide Continues;
      hide NoteImplied;
      hide Skipped;
      hide InSequence;
      hide Short;
      var id, header := current.value.id, current.value.header;
      var reject := CheckRemaining(cursor, header);
      reject := reject || prevShort;

      var lost, gap := CheckSequence(prevSeq0, header.sequence);
      reject := reject || gap;

      if reject {
        LeaveHint(cursor, id, lost, prevShort);
        RejectCurrent();
        return Some(ErrReadTruncated(lost, cursor.payloadInBuf));
      }
      return None;
    }

    /** Leaves what a recovery attempt needs: a single missing file held
        exactly one data section, unless the file before it was cut short. */
    method LeaveHint(cursor: CursorState, id: SegId, lost: nat, prevShort: bool)
      modifies this`recovery
      ensures St() == old(St()).(recovery :=
        if lost == 1 && !prevShort && cursor.total.Some?
        then Some(Recovery(id, cursor.total.value - cursor.consumed))
        else old(recovery))
    {
      if lost == 1 && !prevShort && cursor.total.Some? {
        recovery := Some(Recovery(id, cursor.total.value - cursor.consumed));
      }
    }

    /** Reads n bytes of the current file into `dst` at `off`. */
    method Take(cursor: CursorState, dst: array<byte>, off: nat, n: nat)
      requires current.Some? && current.value.pos + n <= |current.value.data| && off + n <= dst.Length
      modifies this`current, cursor`consumed, cursor`payloadInBuf, dst
      ensures St() == Advance(old(St()), n)
      ensures cursor.Abs() == old(cursor.Abs()).(consumed := old(cursor.consumed) + n)
      ensures cursor.payloadInBuf == old(cursor.payloadInBuf) + (if cursor.inPayload then n else 0)
      ensures var seg := old(current.value);
              dst[..] == old(dst[..off]) + seg.data[seg.pos..seg.pos + n] + old(dst[off + n..])
    {
      var segment := current.value;
      CopyInto(dst, off, segment.data, segment.pos, n);
      current := Some(segment.(pos := segment.pos + n));
      cursor.consumed := cursor.consumed + n;
      if cursor.inPayload {
        cursor.payloadInBuf := cursor.payloadInBuf + n;
      }
    }

    /** One turn of the loop of `Fill`: crosses if the file is exhausted, then
        reads what it offers of the n bytes still wanted. */
    method FillOnce(cursor: CursorState, dst: array<byte>, off: nat, n: nat)
      returns (err: Option<LogError>, take: nat, ghost bytes: seq<byte>)
      requires 0 < n && off + n <= dst.Length && current.Some?
      modifies this, cursor, dst
      ensures cursor.inPayload == old(cursor.inPayload)
      ensures cursor.payloadInBuf == old(cursor.payloadInBuf) + (if cursor.inPayload then |bytes| else 0)
      ensures |bytes| == take <= n && (err.Some? ==> bytes == [])
      ensures dst[..] == old(dst[..off]) + bytes + old(dst[off + |bytes|..])
      ensures var f := ReadSpec.Fill(dir, old(St()), old(cursor.Abs()), n);
              if err.Some? then
                f.got == [] && f.st == St() && f.cur == cursor.Abs()
                && err == ErrorOfOption(f.fault, cursor.payloadInBuf)
              else
                && current.Some? && (bytes != [] || |pending| < old(|pending|))
                && f == ReadSpec.Fill(dir, St(), cursor.Abs(), n - |bytes|).Prefixed(bytes)
    {
      hide ReadSpec.Cross;
      hide ReadSpec.Fill;
      hide FillOut.Prefixed;
      PrefixedNone([]);
      FillUnfold(dir, St(), cursor.Abs(), n);
      take, bytes := 0, [];
      if current.value.pos >= |current.value.data| {
        err := Cross(cursor);
        if err.Some? {
          assert dst[..] == dst[..off] + [] + dst[off..];
          return;
        }
        PrefixedFirst(ReadSpec.Fill(dir, St(), cursor.Abs(), n));
      }
      if current.value.pos < |current.value.data| {
        FillUnfold(dir, St(), cursor.Abs(), n);
        take := Min(|current.value.data| - current.value.pos, n);
        bytes := current.value.data[current.value.pos..current.value.pos + take];
        Take(cursor, dst, off, take);
      } else {
        assert dst[..] == dst[..off] + [] + dst[off..];
      }
      err := None;
    }

    /** Reads exactly `len` bytes of the record in progress into `dst`. */
    method Fill(cursor: CursorState, dst: array<byte>, len: nat) returns (err: Option<LogError>)
      requires len <= dst.Length && current.Some?
      modifies this, cursor, dst
      ensures var f := ReadSpec.Fill(dir, old(St()), old(cursor.Abs()), len);
              && St() == f.st && cursor.Abs() == f.cur
              && dst[..] == f.got + old(dst[..])[|f.got|..]
              && cursor.inPayload == old(cursor.inPayload)
              && cursor.payloadInBuf == old(cursor.payloadInBuf) + (if cursor.inPayload then |f.got| else 0)
              && err == ErrorOfOption(f.fault, cursor.payloadInBuf)
    {
      hide ReadSpec.Fill;
      hide FillOut.Prefixed;
      ghost var f := ReadSpec.Fill(dir, St(), cursor.Abs(), len);
      PrefixedFirst(f);
      ghost var dst0, done := dst[..], [];
      var off := 0;
      while off < len
        invariant 0 <= off <= len && current.Some? && |done| == off
        invariant f == ReadSpec.Fill(dir, St(), cursor.Abs(), len - off).Prefixed(done)
        invariant dst[..] == done + dst0[off..]
        invariant cursor.inPayload == old(cursor.inPayload)
        invariant cursor.payloadInBuf == old(cursor.payloadInBuf) + (if cursor.inPayload then off else 0)
        decreases len - off, |pending|
      {
        ghost var rest := ReadSpec.Fill(dir, St(), cursor.Abs(), len - off);
        var take;
        ghost var bytes;
        PrefixedIs(done, rest);
        err, take, bytes := FillOnce(cursor, dst, off, len - off);
        JoinedBytes(done, bytes, ReadSpec.Fill(dir, St(), cursor.Abs(), len - off - |bytes|), dst0, off);
        if err.Some? {
          assert done + [] == done;
          return;
        }
        done := done + bytes;
        off := off + take;
      }
      FillZero(dir, St(), cursor.Abs());
      PrefixedNone(done);
      return None;
    }

    /** Reads on over bytes of the record that the caller has no room for. */
    method Skip(cursor: CursorState, count: nat) returns (err: Option<LogError>)
      requires current.Some?
      modifies this, cursor
      ensures var f := ReadSpec.Fill(dir, old(St()), old(cursor.Abs()), count);
              && St() == f.st && cursor.Abs() == f.cur
              && cursor.payloadInBuf == old(cursor.payloadInBuf)
              && err == ErrorOfOption(f.fault, cursor.payloadInBuf)
    {
      hide ReadSpec.Cross;
      hide ReadSpec.Fill;
      ghost var f := ReadSpec.Fill(dir, St(), cursor.Abs(), count);
      var left: nat := count;
      while left > 0
        invariant current.Some?
        invariant f == ReadSpec.Fill(dir, St(), cursor.Abs(), left).(got := f.got)
        invariant cursor.payloadInBuf == old(cursor.payloadInBuf)
        decreases left, |pending|
      {
        FillUnfold(dir, St(), cursor.Abs(), left);
        if current.value.pos >= |current.value.data| {
          var e := Cross(cursor);
          if e.Some? {
            return e;
          }
          continue;
        }
        var segment := current.value;
        var step := Min(|segment.data| - segment.pos, left);
        current := Some(segment.(pos := segment.pos + step));
        cursor.consumed := cursor.consumed + step;
        left := left - step;
      }
      FillZero(dir, St(), cursor.Abs());
      return None;
    }

    method ReadDataHeader(cursor: CursorState, format: Format, minor: nat)
      returns (err: Option<LogError>, n: u32, meta: Meta)
      requires format.Valid() && current.Some?
      requires cursor.Abs() == FRESH_CURSOR && cursor.payloadInBuf == 0 && !cursor.inPayload
      modifies this, cursor
      ensures var d := ReadSpec.ReadDataHeader(dir, old(St()), format, minor);
              && St() == d.st && cursor.Abs() == d.cur && n == d.len && meta == d.meta
              && cursor.payloadInBuf == 0 && !cursor.inPayload
              && err == ErrorOfOption(d.fault, 0)
    {
      hide ReadSpec.Fill;
      hide ReadSpec.Cross;
      hide DecodeMeta;
      hide Reject;
      if format.Fixed? {
        cursor.total := Some(format.n);
        return None, format.n, MetaFixed;
      }
      var len := format.DataHeaderLenIn(minor);
      var head := new byte[len](_ => 0);
      err := Fill(cursor, head, len);
      if err.Some? {
        return err, 0, MetaSimple;
      }
      ghost var f := ReadSpec.Fill(dir, old(St()), FRESH_CURSOR, len);
      assert head[..] == f.got;
      n := DecodeLen(format, head[..]);
      var settled := SettlePayloadLen(cursor, n);
      if settled.Some? {
        return settled, 0, MetaSimple;
      }
      meta := DecodeMeta(format, head[..]);
      cursor.total := Some(len + n);
      return None, n, meta;
    }

    method SettlePayloadLen(cursor: CursorState, decoded: u32) returns (err: Option<LogError>)
      modifies this
      ensures var agrees := cursor.implied.Some? ==> cursor.implied.value == decoded;
              && St() == (if agrees then old(St()) else Reject(old(St())))
              && err == (if agrees then None else Some(ErrReadTruncated(0, 0)))
    {
      if cursor.implied.Some? && cursor.implied.value != decoded {
        RejectCurrent();
        return Some(ErrReadTruncated(0, 0));
      }
      return None;
    }

    method FindRecordStart() returns (r: Result<Start, LogError>)
      requires current.None?
      modifies this
      ensures var f := ReadSpec.FindRecordStart(dir, old(St()));
              && St() == f.st
              && r == (if f.Found? then Ok(f.start) else Err(ErrorOf(f.fault, 0)))
    {
      hide ReadSpec.OpenNext;
      hide RecoveredPayloadLen;
      ghost var f := ReadSpec.FindRecordStart(dir, St());
      while true
        invariant current.None? && ReadSpec.FindRecordStart(dir, St()) == f
        decreases |pending|
      {
        var hint := recovery;
        recovery := None;
        var opening := OpenNext();
        if opening.NoMore? {
          return Err(ErrEof);
        }
        if opening.NewSession? {
          return Err(ErrSessionEnd);
        }
        var segment := current.value;
        var header := segment.header;
        if hint.Some? {
          var n := RecoveredPayloadLen(hint.value, segment.id, header.format, header.remaining, header.DataLen());
          if n.Some? {
            return Ok(Recovered(n.value));
          }
        }
        if header.remaining >= |segment.data| {
          current := None;
          continue;
        }
        current := Some(segment.(pos := header.remaining));
        return Ok(Fresh);
      }
    }

    /** Reads the next record's payload into `buf`. */
    method Read(buf: array<byte>) returns (r: Result<ReadResult, LogError>)
      requires Valid()
      modifies this, buf
      ensures Valid()
      ensures var (att, st) := ReadSpec.Read(dir, old(St()));
              var out := Clip(att, buf.Length);
              && St() == st && r == Report(out) && OutcomeOf(r, Delivered(out)) == out
              && |Delivered(out)| <= buf.Length
              && buf[..] == Delivered(out) + old(buf[..])[|Delivered(out)|..]
    {
      hide OutcomeOf;
      hide ReadSpec.FindRecordStart;
      hide ReadFrom;
      hide OpenValidated;
      hide Clip;
      ClipNothing();
      ReportTold(Clip(ReadSpec.Read(dir, St()).0, buf.Length));
      ReadKeepsSound(dir, St());
      if pending == [] && (current.None? || current.value.pos >= |current.value.data|) {
        current := None;
        return Err(ErrEof);
      }
      if current.None? {
        resync := true;
      }
      var cursor := new CursorState();
      var start := Fresh;
      if resync {
        FindSound(dir, St());
        var found := FindRecordStart();
        if found.Err? {
          LosePosition();
          return Err(found.error);
        }
        start := found.value;
        resync := false;
        if startLost > 0 {
          var lost := startLost;
          startLost := 0;
          return Err(ErrReadTruncated(lost, 0));
        }
      }
      r := ReadOn(buf, cursor, start);
    }

    /** The rest of `read`, once a record's start is known. */
    method ReadOn(buf: array<byte>, cursor: CursorState, start: Start) returns (r: Result<ReadResult, LogError>)
      requires current.Some? && current.value.header.Readable()
      requires cursor.Abs() == FRESH_CURSOR && cursor.payloadInBuf == 0 && !cursor.inPayload
      modifies this, cursor, buf
      ensures var (att, st) := ReadFrom(dir, old(St()), start);
              var out := Clip(att, buf.Length);
              && St() == st && r == Report(out)
              && |Delivered(out)| <= buf.Length
              && buf[..] == Delivered(out) + old(buf[..])[|Delivered(out)|..]
    {
      hide ReadSpec.ReadPayload;
      hide ReadSpec.ReadDataHeader;
      hide Clip;
      ClipNothing();
      var format, minor := current.value.header.format, current.value.header.minor;
      match start {
        case Recovered(n) =>
          // The lost data header's bytes count as consumed.
          cursor.consumed := format.DataHeaderLen();
          cursor.total := Some(cursor.consumed + n);
          r := ReadPayload(buf, cursor, n, MetaSimple);
        case Fresh =>
          var err, len, meta := ReadDataHeader(cursor, format, minor);
          if err.Some? {
            LosePosition();
            return Err(err.value);
          }
          r := ReadPayload(buf, cursor, len, meta);
      }
    }

    /** Reads `want` payload bytes, as many as fit into `buf`, and skips the
        rest so that the next read begins at the following record. */
    method ReadPayload(buf: array<byte>, cursor: CursorState, want: nat, meta: Meta)
      returns (r: Result<ReadResult, LogError>)
      requires current.Some? && cursor.payloadInBuf == 0 && !cursor.inPayload
      modifies this, cursor, buf
      ensures var (att, st) := ReadSpec.ReadPayload(dir, old(St()), old(cursor.Abs()), want, meta);
              var out := Clip(att, buf.Length);
              && St() == st && r == Report(out)
              && |Delivered(out)| <= buf.Length
              && buf[..] == Delivered(out) + old(buf[..])[|Delivered(out)|..]
    {
      hide ReadSpec.Fill;
      lastMeta := meta;
      cursor.inPayload := true;
      ghost var st1, cur1 := St(), cursor.Abs();
      var take := Min(want, buf.Length);
      FillSplit(dir, st1, cur1, take, want - take);
      var err := Fill(cursor, buf, take);
      if err.Some? {
        LosePosition();
        return Err(err.value);
      }
      if want > buf.Length {
        var failed := Skip(cursor, want - buf.Length);
        if failed.Some? {
          resync := true;
          current := None;
        }
        return Err(ErrReadOverflow(take));
      }
      FillZero(dir, St(), cursor.Abs());
      return Ok(ReadResult(take, meta));
    }
  }

  lemma ClipNothing()
    ensures forall fault, room :: Clip(Nothing(fault), room) == Failed(fault, [])
  {
  }
}
