/** The reader as a function of its state: what each step of
    tcslog/src/read.rs does to the fields of `LogRead`. The class in
    LogRead.dfy computes these functions; the theorems are about them. */
module ReadSpec {
  import opened Bytes
  import opened Format
  import opened Header

  type SegId = u64

  /** The log's directory: the bytes of each file that can be opened. */
  type Dir = map<SegId, seq<byte>>

  /** An open segment file: its header, its data section, the read position. */
  datatype Segment = Segment(id: SegId, header: Header, data: seq<byte>, pos: nat)

  datatype Recovery = Recovery(segment: SegId, owed: int)

  datatype State = State(
    pending: seq<SegId>,
    current: Option<Segment>,
    resync: bool,
    session: Option<SegId>,
    prevSeq: Option<u64>,
    startLost: nat,
    segmentsOpened: nat,
    collect: bool,
    headers: seq<Header>,
    reopened: Option<SegId>,
    recovery: Option<Recovery>,
    lastMeta: Meta)
  {
    predicate Exhausted() {
      current.None? || current.value.pos >= |current.value.data|
    }
  }

  /** Progress within one record: bytes consumed, data header included; its
      total size once known; the payload length a crossing inside the data
      header implied. */
  datatype Cursor = Cursor(consumed: nat, total: Option<nat>, implied: Option<nat>)

  const FRESH_CURSOR: Cursor := Cursor(0, None, None)

  datatype Fault = Eof | SessionEnd | Truncated(lost: nat)

  function Initial(ids: seq<SegId>, collect: bool): State {
    State(ids, None, true, None, None, 0, 0, collect, [], None, None, MetaSimple)
  }

  // ---------------------------------------------------------------- opening

  function OpenValidated(dir: Dir, id: SegId): (r: Option<Segment>)
    ensures r.Some? ==> id in dir && r.value.id == id && r.value.header.segmentId == id
    ensures r.Some? ==> r.value.pos == 0 && |r.value.data| <= r.value.header.DataLen()
    ensures r.Some? ==> r.value.header.Readable()
  {
    if id !in dir || |dir[id]| < HEADER_LEN then None
    else
      var header := FromBytes(dir[id][..HEADER_LEN]);
      if header.Err? || header.value.segmentId != id || |dir[id]| > header.value.maxSize then None
      else Some(Segment(id, header.value, dir[id][HEADER_LEN..], 0))
  }

  predicate Usable(dir: Dir, id: SegId) { OpenValidated(dir, id).Some? }

  /** How many files at the front of the list cannot be used. */
  function Unusable(dir: Dir, ids: seq<SegId>): (t: nat)
    ensures t <= |ids|
    ensures forall i :: 0 <= i < t ==> !Usable(dir, ids[i])
    ensures t < |ids| ==> Usable(dir, ids[t])
  {
    if ids == [] || Usable(dir, ids[0]) then 0 else 1 + Unusable(dir, ids[1..])
  }

  datatype Opening = Opened | NoMore | NewSession

  /** The fields of a reader that has just made `seg` current. */
  function Admit(st: State, rest: seq<SegId>, seg: Segment): State {
    var again := st.reopened == Some(seg.id);
    st.(pending := rest,
        current := Some(seg),
        reopened := if again then None else st.reopened,
        segmentsOpened := if again then st.segmentsOpened else st.segmentsOpened + 1,
        headers := if again || !st.collect then st.headers else st.headers + [seg.header],
        startLost := if st.session.None? then seg.header.sequence else st.startLost,
        session := if st.session.None? then Some(seg.header.sessionId) else st.session,
        prevSeq := Some(seg.header.sequence))
  }

  function OpenNext(dir: Dir, st: State): (r: (Opening, State))
    ensures |r.1.pending| <= |st.pending|
    ensures !r.0.Opened? ==> r.1.current == st.current
    ensures r.0.Opened? ==> |r.1.pending| < |st.pending| && r.1.current.Some? && r.1.current.value.pos == 0
  {
    var t := Unusable(dir, st.pending);
    if t == |st.pending| then (NoMore, st.(pending := []))
    else
      var seg := OpenValidated(dir, st.pending[t]).value;
      if st.session.Some? && seg.header.sessionId != st.session.value then
        (NewSession, st.(pending := st.pending[t..], session := None, prevSeq := None, recovery := None))
      else
        (Opened, Admit(st, st.pending[t + 1..], seg))
  }

  // --------------------------------------------------------------- crossing

  /** Gives the current file back for the resynchronization to re-examine. */
  function Reject(st: State): State {
    if st.current.None? then st
    else
      var id := st.current.value.id;
      st.(pending := [id] + st.pending, current := None, reopened := Some(id))
  }

  function Lose(st: State): State {
    st.(resync := true, current := None)
  }

  /** Whether the current file holds less than a full data section. */
  predicate Short(st: State) {
    st.current.Some? && |st.current.value.data| < st.current.value.header.DataLen()
  }

  /** The payload length implied by crossing into `h` inside a data header,
      or nothing when `remaining` does not even cover the rest of the header. */
  function Implied(h: Header, consumed: nat): Option<nat> {
    var len := h.format.DataHeaderLenIn(h.minor);
    var rest := if consumed < len then len - consumed else 0;
    if h.remaining < rest then None else Some(h.remaining - rest)
  }

  /** Whether a file with this header continues the record in progress. */
  predicate Continues(h: Header, cur: Cursor) {
    if cur.consumed == 0 then h.remaining == 0
    else if cur.total.Some? then h.remaining == cur.total.value - cur.consumed
    else
      && Implied(h, cur.consumed).Some?
      && (cur.implied.Some? ==> cur.implied == Implied(h, cur.consumed))
  }

  /** The cursor after an accepted or refused crossing into `h`. */
  function NoteImplied(h: Header, cur: Cursor): Cursor {
    if cur.consumed > 0 && cur.total.None? && cur.implied.None? && Implied(h, cur.consumed).Some?
    then cur.(implied := Implied(h, cur.consumed))
    else cur
  }

  /** How many files the step from sequence `prev` to `next` skips. */
  function Skipped(prev: Option<u64>, next: u64): nat {
    if prev.Some? && next > prev.value + 1 then next - prev.value - 1 else 0
  }

  predicate InSequence(prev: Option<u64>, next: u64) {
    prev.Some? ==> next == prev.value + 1
  }

  datatype CrossOut = CrossOut(fault: Option<Fault>, st: State, cur: Cursor)

  /** What is made of the file `st1` has just opened, after the one `st` had. */
  function Judge(st: State, st1: State, cur: Cursor): (r: CrossOut)
    requires st1.current.Some?
    ensures r.fault.None? ==> r.st == st1
    ensures r.fault.Some? ==> r.fault.value.Truncated? && r.st.current.None?
    ensures r.cur.consumed == cur.consumed && r.cur.total == cur.total
  {
    var h := st1.current.value.header;
    var cur1 := NoteImplied(h, cur);
    if Continues(h, cur) && !Short(st) && InSequence(st.prevSeq, h.sequence) then CrossOut(None, st1, cur1)
    else
      var lost := Skipped(st.prevSeq, h.sequence);
      var hint := if lost == 1 && !Short(st) && cur.total.Some?
                  then Some(Recovery(st1.current.value.id, cur.total.value - cur.consumed))
                  else st1.recovery;
      CrossOut(Some(Truncated(lost)), Reject(st1.(recovery := hint)), cur1)
  }

  function Cross(dir: Dir, st: State, cur: Cursor): (r: CrossOut)
    ensures |r.st.pending| <= |st.pending|
    ensures r.fault.None? ==> |r.st.pending| < |st.pending| && r.st.current.Some?
    ensures r.fault.Some? ==> r.st.current.None?
    ensures r.cur.consumed == cur.consumed && r.cur.total == cur.total
  {
    var (opening, st1) := OpenNext(dir, st.(current := None));
    match opening
    case NewSession =>
      if cur.consumed > 0 then
        CrossOut(Some(Truncated(0)), st1.(session := st.session, prevSeq := st.prevSeq), cur)
      else CrossOut(Some(SessionEnd), st1, cur)
    case NoMore => CrossOut(Some(Truncated(0)), st1, cur)
    case Opened => Judge(st, st1, cur)
  }

  // ------------------------------------------------------- reading the bytes

  datatype FillOut = FillOut(got: seq<byte>, fault: Option<Fault>, st: State, cur: Cursor) {
    function Prefixed(front: seq<byte>): FillOut { this.(got := front + got) }
  }

  function Advance(st: State, count: nat): State
    requires st.current.Some?
  {
    st.(current := Some(st.current.value.(pos := st.current.value.pos + count)))
  }

  /** Reads `n` bytes of the record in progress, crossing as needed. */
  function Fill(dir: Dir, st: State, cur: Cursor, n: nat): (r: FillOut)
    ensures |r.got| <= n && (r.fault.Some? ==> |r.got| < n)
    ensures r.fault.None? ==> |r.got| == n && r.cur.consumed == cur.consumed + n
    ensures r.fault.None? && st.current.Some? ==> r.st.current.Some?
    ensures r.cur.total == cur.total
    decreases n, |st.pending|
  {
    if n == 0 then FillOut([], None, st, cur)
    else if st.Exhausted() then
      var c := Cross(dir, st, cur);
      if c.fault.Some? then FillOut([], c.fault, c.st, c.cur) else Fill(dir, c.st, c.cur, n)
    else
      var seg := st.current.value;
      var take := Min(|seg.data| - seg.pos, n);
      var rest := Fill(dir, Advance(st, take), cur.(consumed := cur.consumed + take), n - take);
      rest.Prefixed(seg.data[seg.pos..seg.pos + take])
  }

  datatype HeadOut = HeadOut(len: u32, meta: Meta, fault: Option<Fault>, st: State, cur: Cursor)

  /** Reads and decodes one data header. */
  function ReadDataHeader(dir: Dir, st: State, format: Format, minor: nat): (r: HeadOut)
    requires format.Valid() && st.current.Some?
    ensures r.fault.None? ==> r.st.current.Some?
  {
    var len := format.DataHeaderLenIn(minor);
    if format.Fixed? then HeadOut(format.n, MetaFixed, None, st, FRESH_CURSOR.(total := Some(format.n)))
    else
      var f := Fill(dir, st, FRESH_CURSOR, len);
      if f.fault.Some? then HeadOut(0, MetaSimple, f.fault, f.st, f.cur)
      else
        var n := DecodeLen(format, f.got);
        if f.cur.implied.Some? && f.cur.implied.value != n then
          HeadOut(0, MetaSimple, Some(Truncated(0)), Reject(f.st), f.cur)
        else
          HeadOut(n, DecodeMeta(format, f.got), None, f.st, f.cur.(total := Some(len + n)))
  }

  // -------------------------------------------------------- resynchronizing

  /** The payload length of a record whose data header was lost with a single
      missing file, when the arithmetic settles it. */
  function RecoveredPayloadLen(rec: Recovery, id: SegId, format: Format, remaining: u64, section: nat): Option<u32> {
    if rec.segment != id || remaining == 0 || format != VariableSimple then None
    else if section - rec.owed != format.DataHeaderLen() || remaining >= U32_LIMIT then None
    else Some(remaining)
  }

  datatype Start = Fresh | Recovered(n: u32)

  datatype FindOut = Found(start: Start, st: State) | Missing(fault: Fault, st: State)

  function FindRecordStart(dir: Dir, st: State): (r: FindOut)
    ensures r.Found? ==> r.st.current.Some?
    decreases |st.pending|
  {
    var (opening, st1) := OpenNext(dir, st.(recovery := None));
    match opening
    case NoMore => Missing(Eof, st1)
    case NewSession => Missing(SessionEnd, st1)
    case Opened =>
      var seg := st1.current.value;
      var h := seg.header;
      var n := if st.recovery.None? then None
               else RecoveredPayloadLen(st.recovery.value, seg.id, h.format, h.remaining, h.DataLen());
      if n.Some? then Found(Recovered(n.value), st1)
      else if h.remaining >= |seg.data| then FindRecordStart(dir, st1.(current := None))
      else Found(Fresh, Advance(st1, h.remaining))
  }

  // ------------------------------------------------------------ one read

  /** What one call of `read` finds, whatever the caller's buffer: an outcome
      that delivers no byte, or the bytes of one record's payload that could
      be read, and why they stop short of `want` if they do. */
  datatype Attempt =
    | Nothing(fault: Fault)
    | Payload(want: nat, meta: Meta, got: seq<byte>, cause: Option<Fault>)
  {
    predicate Whole() { Payload? && cause.None? }
  }

  function ReadPayload(dir: Dir, st: State, cur: Cursor, want: nat, meta: Meta): (r: (Attempt, State)) {
    var f := Fill(dir, st.(lastMeta := meta), cur, want);
    (Payload(want, meta, f.got, f.fault), if f.fault.None? then f.st else Lose(f.st))
  }

  function ReadFrom(dir: Dir, st: State, start: Start): (r: (Attempt, State))
    requires st.current.Some? && st.current.value.header.Readable()
  {
    var h := st.current.value.header;
    match start
    case Recovered(n) =>
      var len := h.format.DataHeaderLen();
      ReadPayload(dir, st, Cursor(len, Some(len + n), None), n, MetaSimple)
    case Fresh =>
      var d := ReadDataHeader(dir, st, h.format, h.minor);
      if d.fault.Some? then (Nothing(d.fault.value), Lose(d.st))
      else ReadPayload(dir, d.st, d.cur, d.len, d.meta)
  }

  /** The open file, if any, passed its checks, is still as it is in the
      directory, and set the session and sequence later files are held to. */
  ghost predicate Sound(dir: Dir, st: State) {
    && (st.current.Some? ==>
          && OpenValidated(dir, st.current.value.id) == Some(st.current.value.(pos := 0))
          && st.current.value.pos <= |st.current.value.data|
          && st.session == Some(st.current.value.header.sessionId)
          && st.prevSeq == Some(st.current.value.header.sequence))
    && (st.resync ==> st.current.None?)
  }

  lemma {:induction false} FindSound(dir: Dir, st: State)
    requires st.current.None?
    ensures var r := FindRecordStart(dir, st);
            r.Found? ==> Sound(dir, r.st.(resync := false)) && r.st.current.value.header.Readable()
    decreases |st.pending|
  {
    hide RecoveredPayloadLen;
    hide FromBytes;
    var (opening, st1) := OpenNext(dir, st.(recovery := None));
    if opening.Opened? { FindSound(dir, st1.(current := None)); }
  }

  function Read(dir: Dir, st: State): (r: (Attempt, State))
    requires Sound(dir, st)
  {
    if st.pending == [] && st.Exhausted() then (Nothing(Eof), st.(current := None))
    else if st.current.Some? then ReadFrom(dir, st, Fresh)
    else
      FindSound(dir, st.(resync := true));
      match FindRecordStart(dir, st.(resync := true))
      case Missing(fault, st1) => (Nothing(fault), Lose(st1))
      case Found(start, st1) =>
        if st1.startLost > 0 then
          (Nothing(Truncated(st1.startLost)), st1.(resync := false, startLost := 0))
        else ReadFrom(dir, st1.(resync := false), start)
  }

  // ------------------------------------------------- the caller's buffer

  /** What `read` reports into a buffer of `room` bytes. The bytes are those
      left at the front of the buffer, and their number the count reported. */
  datatype Outcome =
    | Got(payload: seq<byte>, meta: Meta)
    | Overflow(front: seq<byte>)
    | Failed(fault: Fault, front: seq<byte>)

  /** The bytes an outcome leaves at the front of the caller's buffer. */
  function Delivered(out: Outcome): seq<byte> {
    match out
    case Got(payload, _) => payload
    case Overflow(front) => front
    case Failed(_, front) => front
  }

  function Clip(att: Attempt, room: nat): Outcome {
    match att
    case Nothing(fault) => Failed(fault, [])
    case Payload(want, meta, got, cause) =>
      if want > room && |got| >= room then Overflow(got[..room])
      else if cause.None? then Got(got, meta)
      else Failed(cause.value, got)
  }

  /** A record of which nothing is lost, as it is read into such a buffer. */
  function AsRead(r: Record, room: nat): Outcome {
    if |r.payload| <= room then Got(r.payload, r.meta) else Overflow(r.payload[..room])
  }
}
