/** The account of a run: what was asked of writers, what they answered, and
    what the log owes to both. */
module Ledger {
  import opened Bytes
  import opened Format
  import opened Layout
  import opened Damage
  import opened LogSteps
  import opened DirSteps
  import opened History
  import opened Writing
  import LogWrite

  datatype Op =
    | OpenWriter(segSizeMax: u32, format: Format, sinceEpoch: nat, resolution: u64)
    | WriteRecord(msg: seq<byte>)
    | ClearLog

  /** How a call came out: a writer opened or a log cleared, or a record written
      and the metadata it was given; `Refused` is an error in what was asked,
      `Failed` one in carrying it out. */
  datatype Answer = Done | Written(meta: Meta) | Failed | Refused | NoWriter {
    predicate Ok() { Done? || Written? }
  }

  datatype Call = Call(op: Op, answer: Answer)

  // ---------------------------------------------------------- what was asked

  function OpsOf(h: seq<Call>): (ops: seq<Op>)
    ensures |ops| == |h| && forall i :: 0 <= i < |h| ==> ops[i] == h[i].op
  {
    seq(|h|, i requires 0 <= i < |h| => h[i].op)
  }

  ghost predicate AllDone(h: seq<Call>) { forall i :: 0 <= i < |h| ==> h[i].answer.Ok() }

  /** The calls that failed. */
  function Failures(h: seq<Call>): nat {
    if h == [] then 0 else Failures(h[..|h| - 1]) + if h[|h| - 1].answer.Failed? then 1 else 0
  }

  /** The format of the writer in use after those calls, if there is one. */
  function WriterAfter(h: seq<Call>): Option<Format> {
    if h == [] then None
    else
      var (op, answer) := (h[|h| - 1].op, h[|h| - 1].answer);
      if !op.OpenWriter? then WriterAfter(h[..|h| - 1]) else if answer.Done? then Some(op.format) else None
  }

  /** Whether a call is refused, and whether there is a writer for it, depends on
      nothing but what is asked. */
  ghost predicate Apt(writer: Option<Format>, c: Call) {
    match c.op
    case OpenWriter(segSizeMax, format, sinceEpoch, resolution) =>
      && !c.answer.NoWriter? && !c.answer.Written?
      && (c.answer.Refused? <==> LogWrite.OpenRefusal(segSizeMax, format, sinceEpoch, resolution).Some?)
    case WriteRecord(msg) =>
      && !c.answer.Done? && (c.answer.NoWriter? <==> writer.None?)
      && (c.answer.Refused? <==> writer.Some? && !PayloadFits(writer.value, |msg|))
      && (c.answer.Written? && writer.Some? ==> ValidRecord(writer.value, Record(msg, c.answer.meta)))
    case ClearLog => !c.answer.Refused? && !c.answer.Written? && (c.answer.NoWriter? <==> writer.None?)
  }

  ghost predicate AllApt(h: seq<Call>) {
    h == [] || (AllApt(h[..|h| - 1]) && Apt(WriterAfter(h[..|h| - 1]), h[|h| - 1]))
  }

  /** The records acknowledged since the log was last to be cleared, with the
      metadata they were given. */
  function Acked(h: seq<Call>): seq<Record> {
    if h == [] then []
    else
      var before, c := Acked(h[..|h| - 1]), h[|h| - 1];
      match c.op
      case OpenWriter(_, _, _, _) => before
      case WriteRecord(msg) => if c.answer.Written? then before + [Record(msg, c.answer.meta)] else before
      case ClearLog => if c.answer.NoWriter? then before else []
  }

  /** A message a writer took on, and what metadata it answered, if it did. */
  datatype Request = Request(msg: seq<byte>, meta: Option<Meta>)

  /** The requests since the log was last cleared. */
  function Requested(h: seq<Call>): seq<Request> {
    if h == [] then []
    else
      var before, c := Requested(h[..|h| - 1]), h[|h| - 1];
      if c.op.ClearLog? && c.answer.Done? then []
      else if c.op.WriteRecord? && c.answer.Written? then before + [Request(c.op.msg, Some(c.answer.meta))]
      else if c.op.WriteRecord? && c.answer.Failed? then before + [Request(c.op.msg, None)]
      else before
  }

  /** No clear failed since one last succeeded. */
  predicate Unspoiled(h: seq<Call>) {
    h == [] || (if h[|h| - 1].op.ClearLog? && !h[|h| - 1].answer.NoWriter? then h[|h| - 1].answer.Done?
                else Unspoiled(h[..|h| - 1]))
  }

  /** The latest the real-time clock read for any writer. */
  function LatestReading(ops: seq<Op>): nat {
    if ops == [] then 0
    else
      var before, op := LatestReading(ops[..|ops| - 1]), ops[|ops| - 1];
      if op.OpenWriter? && op.sinceEpoch > before then op.sinceEpoch else before
  }

  /** No record of the writer in use is stamped earlier than this: than the
      reading it was opened at, and the last time it gave out. */
  function StampedBy(h: seq<Call>): nat {
    if h == [] then 0
    else
      var before, c := StampedBy(h[..|h| - 1]), h[|h| - 1];
      if c.op.OpenWriter? && c.answer.Done? then c.op.sinceEpoch
      else if c.answer.Written? && c.answer.meta.MetaTsRc? then c.answer.meta.ts
      else before
  }

  /** Times never go back while a writer is in use, and none is past the limit. */
  ghost predicate AllStamped(h: seq<Call>, limit: nat) {
    h == [] || (AllStamped(h[..|h| - 1], limit) && StampedIn(h[|h| - 1], StampedBy(h[..|h| - 1]), limit))
  }

  ghost predicate StampedIn(c: Call, from: nat, to: nat) {
    c.answer.Written? && c.answer.meta.MetaTsRc? ==> from <= c.answer.meta.ts <= to
  }

  lemma {:induction false} StampedLater(h: seq<Call>, limit: nat, later: nat)
    requires AllStamped(h, limit) && limit <= later
    ensures AllStamped(h, later)
  {
    if h != [] { StampedLater(h[..|h| - 1], limit, later); }
  }

  /** No reading of a clock and no name is past this, so long after the run
      began. */
  function Horizon(h: seq<Call>, elapsed: nat): nat { LatestReading(OpsOf(h)) + |h| + elapsed }

  /** Each call that failed was failed by an operation of the directory, or
      there was no timestamp left. */
  ghost predicate Excused(h: seq<Call>, faults: int, elapsed: nat) {
    Failures(h) <= faults || Horizon(h, elapsed) >= U64_LIMIT - 1
  }

  /** With every call the horizon is put off by the time that passes, and one
      more. */
  lemma HorizonMore(h: seq<Call>, c: Call, elapsed: nat, more: nat)
    requires elapsed <= more
    ensures Horizon(h, elapsed) + 1 + (more - elapsed) <= Horizon(h + [c], more)
    ensures c.op.OpenWriter? ==> c.op.sinceEpoch + 1 + (more - elapsed) <= Horizon(h + [c], more)
  {
    OneMore(h, c);
    assert (OpsOf(h) + [c.op])[..|h|] == OpsOf(h);
  }

  lemma ExcusedMore(h: seq<Call>, c: Call, faults: int, faults1: int, elapsed: nat, more: nat)
    requires Excused(h, faults, elapsed) && faults <= faults1 && elapsed <= more
    requires c.answer.Failed? ==> faults < faults1 || Horizon(h + [c], more) >= U64_LIMIT - 1
    ensures Excused(h + [c], faults1, more)
  {
    hide Horizon;
    OneMore(h, c);
    HorizonMore(h, c, elapsed, more);
  }

  lemma OneMore(h: seq<Call>, c: Call)
    ensures (h + [c])[..|h| + 1 - 1] == h && OpsOf(h + [c]) == OpsOf(h) + [c.op]
    ensures AllDone(h + [c]) <==> AllDone(h) && c.answer.Ok()
  {
    assert (h + [c])[|h|] == c;
    assert forall i :: 0 <= i < |h| ==> (h + [c])[i] == h[i];
  }

  // ----------------------------------------------- runs in which none failed

  /** The records written since the last clear, session by session; whether
      the last session still takes records, and how many it has counted. */
  datatype Account = Account(sessions: seq<seq<Record>>, live: bool, counted: bool, count: nat)

  const NOTHING: Account := Account([], false, false, 0)

  function Fresh(acc: Account): bool { !acc.live || (acc.counted && acc.count >= RECORD_COUNT_MAX) }

  function Step(acc: Account, c: Call): Account {
    match c.op
    case OpenWriter(_, format, _, _) => Account(acc.sessions + [[]], true, format.VariableTsRc?, 0)
    case WriteRecord(msg) =>
      var base := if Fresh(acc) then acc.sessions + [[]] else acc.sessions;
      var count := (if Fresh(acc) then 0 else acc.count) + if acc.counted then 1 else 0;
      if base == [] || !c.answer.Written? then acc
      else
        var last := base[|base| - 1] + [Record(msg, c.answer.meta)];
        Account(base[|base| - 1 := last], true, acc.counted, count)
    case ClearLog => acc.(sessions := [], live := false)
  }

  /** What comes of calls all of which succeed. */
  function AccountOf(h: seq<Call>): Account {
    if h == [] then NOTHING else Step(AccountOf(h[..|h| - 1]), h[|h| - 1])
  }

  function RecordsOf(epochs: seq<Epoch>): (s: seq<seq<Record>>)
    ensures |s| == |epochs| && forall e :: 0 <= e < |epochs| ==> s[e] == epochs[e].recs
  {
    seq(|epochs|, e requires 0 <= e < |epochs| => epochs[e].recs)
  }

  lemma SessionAdded(epochs: seq<Epoch>, fmt: Format, dsize: nat)
    ensures RecordsOf(epochs + [Epoch(fmt, dsize, [])]) == RecordsOf(epochs) + [[]]
  {
  }

  lemma RecordAdded(epochs: seq<Epoch>, fmt: Format, dsize: nat, newSession: bool, r: Record)
    requires newSession || epochs != []
    ensures var base := RecordsOf(BaseEpochs(epochs, fmt, dsize, newSession));
            && base != []
            && RecordsOf(EpochsWith(epochs, fmt, dsize, newSession, r)) ==
                 base[|base| - 1 := base[|base| - 1] + [r]]
    ensures Attempted(EpochsWith(epochs, fmt, dsize, newSession, r)) == Attempted(epochs) + [r]
  {
    var base := BaseEpochs(epochs, fmt, dsize, newSession);
    var more := EpochsWith(epochs, fmt, dsize, newSession, r);
    assert more[..|more| - 1] == base[..|base| - 1];
    AttemptedSame(epochs, Epoch(fmt, dsize, []));
  }

  /** A writer with a file open or not, of that format, that has counted so many
      records agrees with the account. */
  ghost predicate Agrees(acc: Account, open: bool, fmt: Format, count: nat) {
    && (open <==> acc.live) && (acc.live ==> acc.sessions != [])
    && (acc.counted <==> fmt.VariableTsRc?) && (acc.counted ==> acc.count == count)
  }

  /** The next record begins a session, as the writer decides it. */
  predicate SessionDue(open: bool, fmt: Format, count: nat) {
    !open || (fmt.VariableTsRc? && count >= RECORD_COUNT_MAX)
  }

  // -------------------------------------------------------------- embeddings

  ghost predicate Increasing(f: seq<nat>) { forall i, k :: 0 <= i < k < |f| ==> f[i] < f[k] }

  /** The record is what was asked for, with the metadata answered, if any was. */
  ghost predicate Meets(r: Record, q: Request) {
    r.payload == q.msg && (q.meta.Some? ==> r.meta == q.meta.value)
  }

  ghost predicate DrawnAs(recs: seq<Record>, asked: seq<Request>, f: seq<nat>) {
    && |f| == |recs| && Increasing(f)
    && forall i :: 0 <= i < |recs| ==> f[i] < |asked| && Meets(recs[i], asked[f[i]])
  }

  /** Every record was asked for, no two by the same request, in order. */
  ghost predicate Drawn(recs: seq<Record>, asked: seq<Request>) { exists f: seq<nat> :: DrawnAs(recs, asked, f) }

  lemma DrawnMore(recs: seq<Record>, asked: seq<Request>, r: Record, q: Request)
    requires Drawn(recs, asked)
    ensures Drawn(recs, asked + [q]) && (Meets(r, q) ==> Drawn(recs + [r], asked + [q]))
  {
    var f: seq<nat> :| DrawnAs(recs, asked, f);
    assert DrawnAs(recs, asked + [q], f);
    if Meets(r, q) { assert DrawnAs(recs + [r], asked + [q], f + [|asked|]); }
  }

  lemma DrawnNone(asked: seq<Request>)
    ensures Drawn([], asked)
  {
    assert DrawnAs([], asked, []);
  }

  // ----------------------------------------------------- records acknowledged

  /** A record `write` returned `Ok` for: where it is in the log, and what the
      caller gave and was told. */
  datatype Receipt = Receipt(place: Place, record: Record)

  ghost predicate Honoured(w: World, r: Receipt) {
    w.OnDisk(r.place) && w.RecordAt(r.place) == r.record && r.place.e >= w.since
  }

  ghost predicate AllHonoured(w: World, receipts: seq<Receipt>) {
    && (forall i :: 0 <= i < |receipts| ==> Honoured(w, receipts[i]))
    && (forall i, k :: 0 <= i < k < |receipts| ==> Less(receipts[i].place, receipts[k].place))
  }

  function Acknowledgements(receipts: seq<Receipt>): (recs: seq<Record>)
    ensures |recs| == |receipts| && forall i :: 0 <= i < |recs| ==> recs[i] == receipts[i].record
  {
    seq(|receipts|, i requires 0 <= i < |receipts| => receipts[i].record)
  }

  /** What a log that only grew honours, it goes on honouring. */
  lemma HonouredForGood(w: World, w1: World, receipts: seq<Receipt>)
    requires AllHonoured(w, receipts) && w.log.Valid() && w1.log.Valid() && Grew(w.log, w1.log) && w1.since == w.since
    ensures AllHonoured(w1, receipts)
  {
    hide World.OnDisk;
    hide Log.Valid;
    hide Grew;
    forall i | 0 <= i < |receipts| ensures Honoured(w1, receipts[i]) {
      OnDiskForGood(w, w1, receipts[i].place);
    }
  }

  /** The place of the record written last. */
  function LastPlace(log: Log): Place
    requires log.epochs != [] && LastEpochOf(log).recs != []
  {
    Place(|log.epochs| - 1, |LastEpochOf(log).recs| - 1)
  }

  /** A record acknowledged comes after those acknowledged before. */
  lemma ReceiptAdded(w: World, w1: World, fmt: Format, dsize: nat, newSession: bool, r: Record, receipts: seq<Receipt>)
    requires AllHonoured(w, receipts) && w.log.Valid() && w1.log.Valid() && Grew(w.log, w1.log) && w1.since == w.since
    requires Acknowledged(w, w1, fmt, dsize, newSession, r) && w1.since < |w1.log.epochs|
    ensures AllHonoured(w1, receipts + [Receipt(LastPlace(w1.log), r)])
  {
    hide World.OnDisk;
    hide Log.Valid;
    hide Grew;
    HonouredForGood(w, w1, receipts);
    var last := LastPlace(w1.log);
    forall i | 0 <= i < |receipts| ensures Less(receipts[i].place, last) {
      assert Honoured(w, receipts[i]);
      PlaceOnDisk(w, receipts[i].place);
    }
    assert Honoured(w1, Receipt(last, r));
  }

  lemma PlaceOnDisk(w: World, p: Place)
    requires w.OnDisk(p)
    ensures w.IsPlace(p)
  {
  }

  // ---------------------------------------------- the log and the account

  /** The directory is what those calls left: what was acknowledged was written
      out as it was given, with the metadata answered, in the order of the calls;
      no record is in the log that no call asked for; nothing that was ever
      complete is lost but to a clear, unless whoever files are handed to takes
      others; and if no call failed, the log is whole and holds exactly what was
      acknowledged. */
  ghost predicate InStep(h: seq<Call>, w: World, receipts: seq<Receipt>) {
    && Settled(w) && AllApt(h)
    && AllHonoured(w, receipts) && Acknowledgements(receipts) == Acked(h)
    && Drawn(Attempted(w.log.epochs), Requested(h))
    && Kept(w) && (Unspoiled(h) ==> w.since == 0)
    && (AllDone(h) ==> Tidy(w) && AllTold(h, w.log))
  }

  /** The log holds exactly the records acknowledged, session by session. */
  ghost predicate AllTold(h: seq<Call>, log: Log) {
    RecordsOf(log.epochs) == AccountOf(h).sessions && Attempted(log.epochs) == Acked(h)
  }

  ghost predicate Empty(w: World) {
    w.log == Log([], []) && w.dir == map[] && w.at == map[] && w.passed == [] && w.since == 0
  }

  lemma EmptyInStep(w: World)
    requires Empty(w)
    ensures InStep([], w, [])
  {
    hide Settled;
    hide Kept;
    hide Tidy;
    hide AllHonoured;
    hide Drawn;
    NothingThere(w);
    TidyKept(w);
    NoneHonoured(w);
    DrawnNone([]);
    assert RecordsOf([]) == [];
  }

  lemma NoneHonoured(w: World)
    ensures AllHonoured(w, [])
  {
  }

  lemma StepSettled(h: seq<Call>, w: World, receipts: seq<Receipt>)
    requires InStep(h, w, receipts)
    ensures Settled(w)
  {
    hide Settled;
  }

  /** A call that was refused, or had no writer, changed nothing. */
  lemma IdleStep(h: seq<Call>, w: World, receipts: seq<Receipt>, c: Call)
    requires InStep(h, w, receipts) && Apt(WriterAfter(h), c) && (c.answer.Refused? || c.answer.NoWriter?)
    ensures InStep(h + [c], w, receipts)
  {
    hide Settled;
    hide Kept;
    hide Tidy;
    hide AllHonoured;
    hide Drawn;
    hide Apt;
    OneMore(h, c);
    if c.op.ClearLog? { ClearNotRefused(WriterAfter(h), c); }
  }

  lemma ClearNotRefused(writer: Option<Format>, c: Call)
    requires Apt(writer, c) && c.op.ClearLog?
    ensures !c.answer.Refused?
  {
  }

  /** Closing a writer, which may have `send` take files away. */
  lemma CloseStep(h: seq<Call>, w: World, w1: World, receipts: seq<Receipt>)
    requires InStep(h, w, receipts) && Settled(w1) && w1.log == w.log && Onward(w, w1)
    requires Complete(w) ==> Complete(w1)
    ensures InStep(h, w1, receipts)
  {
    hide Settled;
    hide Kept;
    hide Complete;
    hide AllHonoured;
    hide Drawn;
    hide ImagesGrew;
    HonouredStill(w, w1, receipts);
  }

  /** What opening a writer may come to. */
  ghost predicate OpenDid(w: World, w1: World, fmt: Format, dsize: nat, done: bool) {
    && Settled(w1) && Onward(w, w1) && Attempted(w1.log.epochs) == Attempted(w.log.epochs)
    && (done ==> w1.log.epochs == w.log.epochs + [Epoch(fmt, dsize, [])] && (Tidy(w) ==> Tidy(w1)))
  }

  lemma OpenStep(h: seq<Call>, w: World, w1: World, receipts: seq<Receipt>, c: Call, dsize: nat)
    requires InStep(h, w, receipts) && Apt(WriterAfter(h), c) && c.op.OpenWriter?
    requires (c.answer.Done? || c.answer.Failed?) && OpenDid(w, w1, c.op.format, dsize, c.answer.Done?)
    ensures InStep(h + [c], w1, receipts)
    ensures AllDone(h + [c]) ==> Agrees(AccountOf(h + [c]), true, c.op.format, 0)
  {
    hide Settled;
    hide Kept;
    hide Tidy;
    hide AllHonoured;
    hide Drawn;
    hide Apt;
    hide Grew;
    hide ImagesGrew;
    hide Attempted;
    hide RecordsOf;
    OneMore(h, c);
    LogsValid(w, w1);
    HonouredForGood(w, w1, receipts);
    SessionAdded(w.log.epochs, c.op.format, dsize);
  }

  lemma LogsValid(w: World, w1: World)
    requires Settled(w) && Settled(w1)
    ensures w.log.Valid() && w1.log.Valid()
  {
    hide Numbered;
    hide AllFiles;
  }

  /** What writing a payload that fits may come to. */
  ghost predicate WriteDid(w: World, w1: World, fmt: Format, dsize: nat, newSession: bool, r: Record, done: bool) {
    && Settled(w1) && Onward(w, w1) && AttemptedAtMost(w.log, w1.log, r.payload)
    && (done ==>
          && Acknowledged(w, w1, fmt, dsize, newSession, r) && w1.since < |w1.log.epochs|
          && (Tidy(w) ==> Tidy(w1)))
  }

  lemma WriteStep(h: seq<Call>, w: World, w1: World, receipts: seq<Receipt>, c: Call, open: bool, fmt: Format,
                  count: nat, dsize: nat, r: Record)
    returns (receipts1: seq<Receipt>)
    requires InStep(h, w, receipts) && Apt(WriterAfter(h), c) && c.op == WriteRecord(r.payload)
    requires c.answer == Written(r.meta) || c.answer.Failed?
    requires WriteDid(w, w1, fmt, dsize, SessionDue(open, fmt, count), r, c.answer.Written?)
    requires AllDone(h) ==> Agrees(AccountOf(h), open, fmt, count)
    ensures InStep(h + [c], w1, receipts1)
    ensures AllDone(h + [c]) ==>
      Agrees(AccountOf(h + [c]), true, fmt, (if SessionDue(open, fmt, count) then 0 else count) + 1)
  {
    hide Settled;
    hide Kept;
    hide Tidy;
    hide Grew;
    hide ImagesGrew;
    hide Attempted;
    hide AllHonoured;
    hide Drawn;
    hide Apt;
    hide Acknowledged;
    hide AttemptedAtMost;
    hide RecordsOf;
    hide Step;
    hide Agrees;
    hide EpochsWith;
    OneMore(h, c);
    LogsValid(w, w1);
    var due := SessionDue(open, fmt, count);
    if c.answer.Written? {
      AcknowledgedLast(w, w1, fmt, dsize, due, r);
      ReceiptAdded(w, w1, fmt, dsize, due, r, receipts);
      receipts1 := receipts + [Receipt(LastPlace(w1.log), r)];
      assert Acknowledgements(receipts1) == Acknowledgements(receipts) + [r];
      RecordAdded(w.log.epochs, fmt, dsize, due, r);
      DrawnMore(Attempted(w.log.epochs), Requested(h), r, Request(r.payload, Some(r.meta)));
      if AllDone(h) { WriteTold(AccountOf(h), w.log.epochs, w1.log.epochs, open, fmt, count, dsize, r); }
    } else {
      HonouredForGood(w, w1, receipts);
      AttemptedAsked(w.log, w1.log, Requested(h), r.payload);
      receipts1 := receipts;
    }
  }

  lemma WriteTold(acc: Account, epochs: seq<Epoch>, epochs1: seq<Epoch>, open: bool, fmt: Format, count: nat,
                  dsize: nat, r: Record)
    requires Agrees(acc, open, fmt, count) && RecordsOf(epochs) == acc.sessions
    requires epochs1 == EpochsWith(epochs, fmt, dsize, SessionDue(open, fmt, count), r)
    ensures var acc1 := Step(acc, Call(WriteRecord(r.payload), Written(r.meta)));
            && RecordsOf(epochs1) == acc1.sessions
            && Agrees(acc1, true, fmt, (if SessionDue(open, fmt, count) then 0 else count) + 1)
  {
    SessionAdded(epochs, fmt, dsize);
    RecordAdded(epochs, fmt, dsize, SessionDue(open, fmt, count), r);
  }

  lemma AcknowledgedLast(w: World, w1: World, fmt: Format, dsize: nat, newSession: bool, r: Record)
    requires Acknowledged(w, w1, fmt, dsize, newSession, r)
    ensures w1.log.epochs != [] && LastEpochOf(w1.log).recs != []
    ensures w1.log.epochs == EpochsWith(w.log.epochs, fmt, dsize, newSession, r)
    ensures newSession || w.log.epochs != []
  {
  }

  /** A write that failed adds at most the record it was asked for. */
  lemma AttemptedAsked(log: Log, log1: Log, asked: seq<Request>, msg: seq<byte>)
    requires Drawn(Attempted(log.epochs), asked) && AttemptedAtMost(log, log1, msg)
    ensures Drawn(Attempted(log1.epochs), asked + [Request(msg, None)])
  {
    hide Drawn;
    hide Attempted;
    var before, after := Attempted(log.epochs), Attempted(log1.epochs);
    if after == before {
      DrawnMore(before, asked, Record(msg, MetaFixed), Request(msg, None));
    } else {
      var meta :| after == before + [Record(msg, meta)];
      DrawnMore(before, asked, Record(msg, meta), Request(msg, None));
    }
  }

  /** What clearing may come to. */
  ghost predicate ClearDid(w: World, w1: World, done: bool) {
    if done then Empty(w1)
    else Settled(w1) && w1.log == w.log && (Kept(w) ==> Kept(w1))
  }

  lemma ClearStep(h: seq<Call>, w: World, w1: World, receipts: seq<Receipt>, c: Call, fmt: Format, count: nat)
    returns (receipts1: seq<Receipt>)
    requires InStep(h, w, receipts) && Apt(WriterAfter(h), c) && c.op.ClearLog?
    requires (c.answer.Done? || c.answer.Failed?) && ClearDid(w, w1, c.answer.Done?)
    requires AllDone(h) ==> exists open :: Agrees(AccountOf(h), open, fmt, count)
    ensures InStep(h + [c], w1, receipts1)
    ensures AllDone(h + [c]) ==> Agrees(AccountOf(h + [c]), false, fmt, count)
  {
    hide Settled;
    hide Kept;
    hide Tidy;
    hide AllHonoured;
    hide Drawn;
    hide Apt;
    hide Attempted;
    OneMore(h, c);
    receipts1 := [];
    NoneHonoured(w1);
    if c.answer.Done? { EmptyInStep(w1); }
  }

  lemma HonouredStill(w: World, w1: World, receipts: seq<Receipt>)
    requires AllHonoured(w, receipts) && w1.log == w.log && w1.since == w.since
    ensures AllHonoured(w1, receipts)
  {
    assert forall i :: 0 <= i < |receipts| ==> Honoured(w, receipts[i]) && Honoured(w1, receipts[i]);
  }
}
