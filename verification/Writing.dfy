/** Where a writer stands in its log, and how each of its steps moves it there:
    the proofs behind the methods of LogWrite. */
module Writing {
  import opened Bytes
  import opened Format
  import opened Header
  import opened ReadSpec
  import opened Layout
  import opened Damage
  import opened LogSteps
  import opened DirSteps
  import opened History

  /** What a writer is set to, and what it remembers of the file it writes. */
  datatype Desk =
    Desk(fmt: Format, dsize: nat, id: SegId, written: nat, sessionId: SegId, sequence: u64, owed: nat, count: nat)

  /** The file being written is the log's last, stored as far as it goes, and
      the writer's fields say of it what the log does. */
  ghost predicate StandsIn(w: World, d: Desk) {
    && Settled(w) && w.log.files != [] && w.since < |w.log.epochs|
    && Stored(w, |w.log.files| - 1)
    && Describes(w.log, d)
    && EarlierNamed(w, d.sessionId)
  }

  ghost predicate Describes(log: Log, d: Desk)
    requires log.files != []
  {
    && log.epochs != []
    && var f, ep := LastFileOf(log), LastEpochOf(log);
       && f.id == d.id && f.len == d.written <= d.dsize && f.session == d.sessionId
       && ep.fmt == d.fmt && ep.dsize == d.dsize && ep.minor == VERSION_MINOR
       && log.SeqField(|log.files| - 1) == d.sequence
       && Owed(log) == d.owed && CountsOn(log, d)
  }

  /** The writer's count is the number of the record before the next. */
  ghost predicate CountsOn(log: Log, d: Desk)
    requires log.epochs != []
  {
    d.fmt.VariableTsRc? ==> NextNumber(log) == d.count + 1
  }

  function NextSequence(sequence: u64): u64 {
    if sequence + 1 < U64_LIMIT then sequence + 1 else sequence
  }

  /** Why a segment file is created. */
  datatype Reason = Opens | Rolls | Resumes

  /** The log with the file the reason asks for. */
  ghost function Added(log: Log, fmt: Format, dsize: nat, why: Reason, id: SegId): Log {
    if why.Opens? || log.files == [] || log.epochs == [] then WithSession(log, fmt, dsize, id)
    else if why.Rolls? then WithRoll(log, id)
    else WithResumption(log, id)
  }

  /** What has to hold before it is created. */
  ghost predicate MayAdd(w: World, d: Desk, why: Reason) {
    && Settled(w) && Epoch(d.fmt, d.dsize, []).Valid()
    && if why.Opens? then d.owed == 0 && d.sequence == 0 && d.count == 0
       else
         && w.log.files != [] && w.log.epochs != [] && w.since < |w.log.epochs|
         && var f, ep := LastFileOf(w.log), LastEpochOf(w.log);
            && f.session == d.sessionId && ep.fmt == d.fmt && ep.dsize == d.dsize && ep.minor == VERSION_MINOR
            && d.sequence == NextSequence(w.log.SeqField(|w.log.files| - 1))
            && EarlierNamed(w, d.sessionId) && CountsOn(w.log, d)
            && if why.Rolls? then f.len == ep.dsize && Owed(w.log) == d.owed && Begun(w.log)
               else d.owed == 0
  }

  /** The header the new file is stamped with. */
  function HeaderFor(d: Desk, id: SegId, opens: bool): Header
    requires HEADER_LEN + d.dsize < U32_LIMIT && d.owed < U64_LIMIT
  {
    Header(id, if opens then id else d.sessionId, HEADER_LEN + d.dsize, d.owed, d.fmt, d.sequence, VERSION_MINOR)
  }

  /** The desk with the new file on it. */
  function NextDesk(d: Desk, id: SegId, opens: bool): Desk {
    d.(id := id, written := 0, sessionId := if opens then id else d.sessionId)
  }

  /** A new file follows in the log, and its header is the one the writer
      stamps it with. */
  ghost predicate FollowsAs(w: World, d: Desk, why: Reason, id: SegId, other: Log)
    requires HEADER_LEN + d.dsize < U32_LIMIT && d.owed < U64_LIMIT
  {
    && w.log.Valid() && Current(other) && ImagesKept(w.log, other) && |other.files| == |w.log.files| + 1
    && other.files[..|w.log.files|] == w.log.files && |w.log.epochs| <= |other.epochs| && w.since < |other.epochs|
    && other.Image(|w.log.files|) == ToBytes(HeaderFor(d, id, why.Opens?))
    && Describes(other, NextDesk(d, id, why.Opens?))
    && (d.owed == 0 || Begun(other))
    && Grew(w.log, other) && Attempted(other.epochs) == Attempted(w.log.epochs) && Numbered(other)
  }

  lemma AddedIs(w: World, d: Desk, why: Reason, id: SegId)
    requires MayAdd(w, d, why) && HEADER_LEN + d.dsize < U32_LIMIT && d.owed < U64_LIMIT
    ensures FollowsAs(w, d, why, id, Added(w.log, d.fmt, d.dsize, why, id))
  {
    hide FollowsAs;
    hide MayAdd;
    match why
    case Opens => OpensFollows(w, d, id);
    case Rolls => RollFollows(w, d, id);
    case Resumes => ResumptionFollows(w, d, id);
  }

  lemma OpensFollows(w: World, d: Desk, id: SegId)
    requires MayAdd(w, d, Opens) && HEADER_LEN + d.dsize < U32_LIMIT && d.owed < U64_LIMIT
    ensures FollowsAs(w, d, Opens, id, Added(w.log, d.fmt, d.dsize, Opens, id))
  {
    hide ToBytes;
    hide Log.Image;
    hide Log.Valid;
    hide World.Removed;
    hide Grew;
    hide ImagesKept;
    hide Attempted;
    hide Numbered;
    SessionOpened(w.log, d.fmt, d.dsize, id);
    SessionNumbered(w.log, d.fmt, d.dsize, id);
    GrewBySession(w.log, d.fmt, d.dsize, id);
    AttemptedSame(w.log.epochs, Epoch(d.fmt, d.dsize, []));
  }

  lemma RollFollows(w: World, d: Desk, id: SegId)
    requires MayAdd(w, d, Rolls) && HEADER_LEN + d.dsize < U32_LIMIT && d.owed < U64_LIMIT
    ensures FollowsAs(w, d, Rolls, id, Added(w.log, d.fmt, d.dsize, Rolls, id))
  {
    hide ToBytes;
    hide Log.Image;
    hide Log.Valid;
    hide World.Removed;
    hide Grew;
    hide ImagesKept;
    hide Attempted;
    hide Numbered;
    Rolled(w.log, id);
    RollNumbered(w.log, id);
    GrewByFile(w.log, id);
  }

  lemma ResumptionFollows(w: World, d: Desk, id: SegId)
    requires MayAdd(w, d, Resumes) && HEADER_LEN + d.dsize < U32_LIMIT && d.owed < U64_LIMIT
    ensures FollowsAs(w, d, Resumes, id, Added(w.log, d.fmt, d.dsize, Resumes, id))
  {
    hide ToBytes;
    hide Log.Image;
    hide Log.Valid;
    hide World.Removed;
    hide Grew;
    hide ImagesKept;
    hide Attempted;
    hide Numbered;
    Abandoned(w.log, id);
    ResumptionNumbered(w.log, id);
    GrewByFile(w.log, id);
    AttemptedSame(w.log.epochs, LastEpochOf(WithResumption(w.log, id)));
  }

  /** The new file with its whole header, and the writer standing in it. */
  lemma Placed(w: World, d: Desk, why: Reason, id: SegId)
    requires MayAdd(w, d, why) && HEADER_LEN + d.dsize < U32_LIMIT && d.owed < U64_LIMIT && NamedLast(w, id)
    requires d.sessionId <= id || why.Opens?
    ensures var other := Added(w.log, d.fmt, d.dsize, why, id);
            var w1 := WithFile(w, other, id, ToBytes(HeaderFor(d, id, why.Opens?)));
            && StandsIn(w1, NextDesk(d, id, why.Opens?)) && (d.owed == 0 || Begun(other))
            && Grew(w.log, other) && ImagesGrew(w.log, other)
            && Attempted(other.epochs) == Attempted(w.log.epochs)
            && (Kept(w) ==> Kept(w1)) && (Complete(w) ==> Complete(w1))
  {
    hide ToBytes;
    hide Log.Image;
    hide Log.Valid;
    hide World.Removed;
    hide Grew;
    hide Attempted;
    hide EarlierNamed;
    hide ImagesKept;
    hide Added;
    hide SessionTold;
    hide Numbered;
    hide AllFiles;
    hide Kept;
    hide Complete;
    hide ImagesGrew;
    var other := Added(w.log, d.fmt, d.dsize, why, id);
    var bytes := ToBytes(HeaderFor(d, id, why.Opens?));
    AddedIs(w, d, why, id);
    AddedTold(w, d, why, id, bytes);
    DescribesLast(other, NextDesk(d, id, why.Opens?));
    FileJoins(w, other, id, bytes);
    FileKept(w, other, id, bytes);
  }

  lemma DescribesLast(log: Log, d: Desk)
    requires log.files != [] && Describes(log, d)
    ensures log.files[|log.files| - 1].id == d.id && log.files[|log.files| - 1].session == d.sessionId
  {
  }

  lemma AddedTold(w: World, d: Desk, why: Reason, id: SegId, bytes: seq<byte>)
    requires MayAdd(w, d, why) && NamedLast(w, id)
    ensures var other := Added(w.log, d.fmt, d.dsize, why, id);
            && |other.files| == |w.log.files| + 1 && SessionTold(w, other)
            && EarlierNamed(WithFile(w, other, id, bytes), NextDesk(d, id, why.Opens?).sessionId)
  {
    hide Log.Valid;
    hide World.Removed;
    hide SessionTold;
    hide EarlierNamed;
    var other := Added(w.log, d.fmt, d.dsize, why, id);
    if why.Opens? {
      OpensApart(w, d.fmt, d.dsize, id, bytes);
    } else {
      assert other.files[..|w.log.files|] == w.log.files;
      StaysTold(w, other);
      StaysNamed(w, other, id, bytes);
    }
  }

  /** The new file with its header cut short: no reader opens it. */
  lemma Spoiled(w: World, fmt: Format, dsize: nat, id: SegId, bytes: seq<byte>)
    requires Settled(w) && Epoch(fmt, dsize, []).Valid() && NamedLast(w, id) && |bytes| < HEADER_LEN
    ensures var other := WithSession(w.log, fmt, dsize, id);
            var w1 := WithFile(w, other, id, bytes);
            && Settled(w1) && Grew(w.log, other) && ImagesGrew(w.log, other)
            && Attempted(other.epochs) == Attempted(w.log.epochs)
            && (Kept(w) ==> Kept(w1))
  {
    hide ToBytes;
    hide Log.Image;
    hide Log.Valid;
    hide World.Removed;
    hide Grew;
    hide Attempted;
    hide ImagesKept;
    hide SessionTold;
    hide Numbered;
    hide AllFiles;
    hide Kept;
    hide ImagesGrew;
    SessionNumbered(w.log, fmt, dsize, id);
    var other := WithSession(w.log, fmt, dsize, id);
    SessionOpened(w.log, fmt, dsize, id);
    GrewBySession(w.log, fmt, dsize, id);
    AttemptedSame(w.log.epochs, Epoch(fmt, dsize, []));
    OpensApart(w, fmt, dsize, id, bytes);
    assert other.files[..|w.log.files|] == w.log.files;
    FileJoins(w, other, id, bytes);
    FileKept(w, other, id, bytes);
  }

  /** The directory after so much of the header was written. */
  ghost function WithHeader(w: World, d: Desk, why: Reason, id: SegId, bytes: seq<byte>): World {
    if |bytes| == HEADER_LEN then WithFile(w, Added(w.log, d.fmt, d.dsize, why, id), id, bytes)
    else WithFile(w, WithSession(w.log, d.fmt, d.dsize, id), id, bytes)
  }

  /** The header a new file is to carry. */
  function HeaderBytes(d: Desk, id: SegId, why: Reason): (s: seq<byte>)
    requires HEADER_LEN + d.dsize < U32_LIMIT && d.owed < U64_LIMIT
    ensures |s| == HEADER_LEN
  {
    ToBytes(HeaderFor(d, id, why.Opens?))
  }

  /** A file was added under the latest name, with some or all of its header;
      only with all of it does it go on with the session. */
  ghost predicate Stamped(w: World, d: Desk, why: Reason, w1: World)
    requires HEADER_LEN + d.dsize < U32_LIMIT && d.owed < U64_LIMIT
  {
    exists id: SegId, n: nat ::
      n <= HEADER_LEN && NamedLast(w, id) && w1 == WithHeader(w, d, why, id, HeaderBytes(d, id, why)[..n])
  }

  lemma StampedIs(w: World, d: Desk, why: Reason, id: SegId, n: nat)
    requires HEADER_LEN + d.dsize < U32_LIMIT && d.owed < U64_LIMIT && n <= HEADER_LEN && NamedLast(w, id)
    ensures Stamped(w, d, why, WithHeader(w, d, why, id, HeaderBytes(d, id, why)[..n]))
  {
    hide WithHeader;
    hide HeaderBytes;
  }

  lemma HeaderOnDisk(w: World, d: Desk, why: Reason, id: SegId, header: seq<byte>, written: nat)
    requires MayAdd(w, d, why) && HEADER_LEN + d.dsize < U32_LIMIT && d.owed < U64_LIMIT && NamedLast(w, id)
    requires d.sessionId <= id || why.Opens?
    requires header == ToBytes(HeaderFor(d, id, why.Opens?)) && written <= |header|
    ensures var w1 := WithHeader(w, d, why, id, header[..written]);
            && w1 == w.(log := w1.log, dir := w.dir[id := header[..written]], at := w1.at)
            && Settled(w1) && Grew(w.log, w1.log) && ImagesGrew(w.log, w1.log)
            && Attempted(w1.log.epochs) == Attempted(w.log.epochs)
            && (Kept(w) ==> Kept(w1))
            && (written == HEADER_LEN ==>
                  && StandsIn(w1, NextDesk(d, id, why.Opens?)) && (Complete(w) ==> Complete(w1))
                  && w1.log == Added(w.log, d.fmt, d.dsize, why, id)
                  && (d.owed == 0 || Begun(w1.log)))
  {
    hide ToBytes;
    hide Log.Valid;
    hide World.Removed;
    hide Grew;
    hide Attempted;
    hide EarlierNamed;
    hide Added;
    hide Begun;
    hide Numbered;
    hide AllFiles;
    hide Kept;
    hide Complete;
    hide ImagesGrew;
    if written == HEADER_LEN {
      assert header[..written] == header;
      Placed(w, d, why, id);
    } else {
      Spoiled(w, d.fmt, d.dsize, id, header[..written]);
    }
  }

  lemma StandsFacts(w: World, d: Desk)
    requires StandsIn(w, d)
    ensures w.log.files != [] && w.log.epochs != [] && Settled(w) && Current(w.log)
    ensures EarlierNamed(w, d.sessionId) && d.written <= d.dsize && LastFileOf(w.log).len == d.written
    ensures w.since < |w.log.epochs|
    ensures Owed(w.log) == d.owed && LastFileOf(w.log).id == d.id
  {
    hide Log.Valid;
    hide World.Removed;
    hide EarlierNamed;
  }

  lemma SettledCurrent(w: World)
    requires Settled(w)
    ensures Current(w.log)
  {
    hide Log.Valid;
    hide World.Removed;
  }

  // --------------------------------------------------------------- writing

  /** Data comes next in the stream, in this file or the ones to follow. */
  ghost predicate Due(log: Log, data: seq<byte>) {
    && Current(log) && log.files != []
    && var o := LastFileOf(log).start + LastFileOf(log).len;
       DueAt(log, o, data)
  }

  ghost predicate DueAt(log: Log, o: nat, data: seq<byte>)
    requires Current(log) && log.files != []
  {
    CurrentValid(log);
    var s := LastEpochOf(log).Bytes();
    o + |data| <= |s| && data == s[o..o + |data|]
  }

  lemma ChunkDue(w: World, d: Desk, data: seq<byte>, take: nat)
    requires StandsIn(w, d) && Due(w.log, data) && take <= |data| && d.written + take <= d.dsize
    ensures ComesNext(w.log, data[..take]) && |data| <= d.owed
  {
    hide World.Removed;
    hide Log.Image;
    hide Epoch.Bytes;
    CurrentValid(w.log);
    BytesOf(LastEpochOf(w.log));
    var o := LastFileOf(w.log).start + LastFileOf(w.log).len;
    var s := LastEpochOf(w.log).Bytes();
    assert s[o..o + |data|][..take] == s[o..o + take];
  }

  /** Writing a chunk out. */
  lemma ChunkOut(w: World, d: Desk, data: seq<byte>, take: nat)
    requires w.log.files != [] && d.id in w.dir
    requires StandsIn(w, d) && Due(w.log, data) && take <= |data| && d.written + take <= d.dsize
    ensures take <= d.owed
    ensures var w1 := Grown(w, data[..take]);
            && w1 == w.(log := WithBytes(w.log, take), dir := w.dir[d.id := w.dir[d.id] + data[..take]])
            && StandsIn(w1, d.(written := d.written + take, owed := d.owed - take)) && Due(w1.log, data[take..])
            && Grew(w.log, w1.log) && ImagesGrew(w.log, w1.log) && w1.log.epochs == w.log.epochs
            && (Kept(w) ==> Kept(w1)) && (Complete(w) ==> Complete(w1))
            && (Unbroken(w.log) ==> Unbroken(w1.log))
  {
    hide Log.Image;
    hide Log.Valid;
    hide World.Removed;
    hide ComesNext;
    hide Numbered;
    hide AllFiles;
    hide ImagesGrew;
    hide Kept;
    hide Complete;
    hide Unbroken;
    hide Grew;
    hide Due;
    ChunkDue(w, d, data, take);
    var chunk := data[..take];
    FileGrows(w, chunk);
    GrewByBytes(w.log, take);
    DueAfter(w.log, data, take);
    if Unbroken(w.log) { UnbrokenByBytes(w.log, take); }
  }

  lemma DueAfter(log: Log, data: seq<byte>, take: nat)
    requires Due(log, data) && take <= |data| && Current(WithBytes(log, take))
    ensures Due(WithBytes(log, take), data[take..])
  {
    hide Log.Valid;
    hide Epoch.Bytes;
    CurrentValid(log);
    var o := LastFileOf(log).start + LastFileOf(log).len;
    var s := LastEpochOf(log).Bytes();
    assert s[o..o + |data|][take..] == s[o + take..o + |data|];
  }

  /** A new file of the same epoch leaves what is due as it was. */
  lemma DueRolled(log: Log, id: SegId, data: seq<byte>)
    requires Due(log, data) && Current(WithRoll(log, id))
    ensures Due(WithRoll(log, id), data)
  {
    hide Log.Valid;
    hide Epoch.Bytes;
    CurrentValid(log);
  }

  /** The record is numbered next, and counted. */
  ghost predicate CountedNext(d: Desk, r: Record, count: nat) {
    d.fmt.VariableTsRc? ==> count == d.count + 1 && r.meta == MetaTsRc(TimeOf(r), count)
  }

  /** Beginning a record: its encoding is due, and owed. */
  lemma RecordDue(w: World, d: Desk, r: Record, count: nat)
    requires StandsIn(w, d) && d.owed == 0 && ValidRecord(d.fmt, r) && CountedNext(d, r, count)
    ensures var w1 := w.(log := WithRecord(w.log, r));
            && StandsIn(w1, d.(owed := d.fmt.DataHeaderLen() + |r.payload|, count := count))
            && Due(w1.log, Encode(d.fmt, r))
            && Grew(w.log, w1.log) && ImagesGrew(w.log, w1.log)
            && Attempted(w1.log.epochs) == Attempted(w.log.epochs) + [r]
            && (Kept(w) ==> Kept(w1)) && (Complete(w) ==> Complete(w1))
            && (Unbroken(w.log) ==> Unbroken(w1.log))
            && Inside(w1.log)
  {
    hide Log.Image;
    hide Log.Valid;
    hide World.Removed;
    hide Encode;
    hide Kept;
    hide Complete;
    hide Unbroken;
    hide Grew;
    hide Epoch.End;
    hide Epoch.Bytes;
    hide Numbered;
    hide AllFiles;
    hide ImagesGrew;
    CurrentValid(w.log);
    RecordNumbered(w.log, r);
    RecordBegun(w.log, r);
    var other := WithRecord(w.log, r);
    LogAgrees(w, other);
    GrewByRecord(w.log, r);
    AttemptedMore(w.log, r);
    StoredStill(w, other);
    if Unbroken(w.log) { UnbrokenByRecord(w.log, r); }
    EncodingDue(w.log, r);
  }

  lemma StoredStill(w: World, other: Log)
    requires w.log.Valid() && other.Valid() && ImagesKept(w.log, other)
    requires other.files == w.log.files && w.log.files != []
    requires Stored(w, |w.log.files| - 1)
    ensures Stored(w.(log := other), |w.log.files| - 1)
    ensures forall s :: EarlierNamed(w, s) ==> EarlierNamed(w.(log := other), s)
  {
    hide Log.Image;
    hide Log.Valid;
  }

  lemma EncodingDue(log: Log, r: Record)
    requires Current(log) && log.files != [] && Owed(log) == 0
    requires ValidRecord(LastEpochOf(log).fmt, r) && LastEpochOf(log).minor == VERSION_MINOR
    requires Current(WithRecord(log, r))
    requires var ep := LastEpochOf(log);
             && |ep.Bytes()| == ep.End() && LastEpochOf(WithRecord(log, r)).Bytes() == ep.Bytes() + Encode(ep.fmt, r)
    ensures Due(WithRecord(log, r), Encode(LastEpochOf(log).fmt, r))
  {
    hide Log.Valid;
    hide Encode;
    hide Epoch.Bytes;
    hide Epoch.End;
  }

  // --------------------------------------------------------- closing a file

  /** A file handed over, whatever becomes of it, and files removed. */
  lemma SentOff(w: World, x: Handed, takes: bool)
    requires Settled(w) && MaySend(w, x, takes)
    ensures var w1 := AfterSend(w, x, takes);
            && Settled(w1) && Onward(w, w1) && (!takes ==> w1 == w) && (Complete(w) ==> Complete(w1))
            && forall s :: w.log.files != [] && EarlierNamed(w, s) ==> EarlierNamed(w1, s)
  {
    hide Log.Valid;
    hide Log.Image;
    hide World.Removed;
    hide Numbered;
    hide AllFiles;
    hide Kept;
    hide Complete;
    FileSent(w, x, takes);
    GrewNot(w.log);
  }

  /** A full file may be followed by the next of its epoch, in the middle of a
      record or not; any file by one of a new epoch. */
  lemma MayFollow(w: World, w1: World, d: Desk, owed: nat, why: Reason)
    requires StandsIn(w, d) && w1.log == w.log && w1.since == w.since && Settled(w1)
    requires EarlierNamed(w1, d.sessionId) && !why.Opens?
    requires Epoch(d.fmt, d.dsize, []).Valid()
    requires if why.Rolls? then d.written == d.dsize && owed == d.owed && Begun(w.log) else owed == 0
    ensures MayAdd(w1, d.(id := 0, written := 0, sequence := NextSequence(d.sequence), owed := owed), why)
  {
    hide Log.Valid;
    hide World.Removed;
    hide EarlierNamed;
  }

  // ------------------------------------------------------ inside a record

  /** The last record starts no later than what is written. */
  ghost predicate Inside(log: Log) {
    && log.files != [] && log.epochs != [] && LastEpochOf(log).recs != []
    && LastEpochOf(log).Start(|LastEpochOf(log).recs| - 1) <= LastFileOf(log).start + LastFileOf(log).len
  }

  /** The file being written has data. */
  ghost predicate HoldsData(log: Log) { log.files != [] && LastFileOf(log).len > 0 }

  lemma InsideAfter(log: Log, take: nat)
    requires Inside(log)
    ensures Inside(WithBytes(log, take))
    ensures take > 0 ==> Begun(WithBytes(log, take)) && HoldsData(WithBytes(log, take))
  {
    hide Epoch.Start;
    hide Epoch.End;
  }

  lemma InsideRolled(log: Log, id: SegId)
    requires Inside(log)
    ensures Inside(WithRoll(log, id)) && (Begun(log) ==> Begun(WithRoll(log, id)))
  {
    hide Epoch.Start;
    hide Epoch.End;
  }

  lemma OwedBegun(log: Log)
    requires log.files != [] && log.epochs != [] && Owed(log) == 0
    ensures Begun(log)
  {
  }

  // ------------------------------------------------------ what is handed over

  /** Between two states the log's files a to b, and no others, were handed to
      `send`, each once, whole, in order. */
  ghost predicate HandedOver(before: seq<Handed>, after: seq<Handed>, log: Log, a: int, b: int) {
    && log.Valid() && 0 <= a <= b <= |log.files|
    && |after| == |before| + (b - a) && before <= after
    && forall k :: |before| <= k < |after| ==> WholeFile(log, after[k], a + (k - |before|))
  }

  lemma HandedNothing(handed: seq<Handed>, w: World, a: nat)
    requires Settled(w) && a <= |w.log.files|
    ensures HandedOver(handed, handed, w.log, a, a)
  {
    hide Log.Valid;
    hide Numbered;
    hide AllFiles;
    RemovedOf(w);
  }

  lemma HandedOne(handed: seq<Handed>, x: Handed, log: Log, a: nat)
    requires log.Valid() && a < |log.files| && WholeFile(log, x, a)
    ensures HandedOver(handed, handed + [x], log, a, a + 1)
  {
  }

  /** A file that did not grow holds what it held. */
  lemma ImageStays(log: Log, other: Log, g: nat)
    requires ImagesGrew(log, other) && g < |log.files| && other.files[g] == log.files[g]
    ensures other.Image(g) == log.Image(g)
  {
    hide Log.Valid;
    hide ToBytes;
    assert |other.Image(g)| == |log.Image(g)|;
  }

  lemma HandedGrew(before: seq<Handed>, after: seq<Handed>, log: Log, other: Log, a: int, b: int)
    requires HandedOver(before, after, log, a, b) && ImagesGrew(log, other)
    requires forall g :: a <= g < b ==> other.files[g] == log.files[g]
    ensures HandedOver(before, after, other, a, b)
  {
    hide Log.Valid;
    hide Log.Image;
    forall k | |before| <= k < |after| ensures WholeFile(other, after[k], a + (k - |before|)) {
      ImageStays(log, other, a + (k - |before|));
    }
  }

  lemma HandedTwice(h0: seq<Handed>, h1: seq<Handed>, h2: seq<Handed>, log: Log, other: Log, a: int, b: int, c: int)
    requires HandedOver(h0, h1, log, a, b) && ImagesGrew(log, other) && HandedOver(h1, h2, other, b, c)
    requires forall g :: a <= g < b ==> other.files[g] == log.files[g]
    ensures HandedOver(h0, h2, other, a, c)
  {
    hide Log.Valid;
    hide Log.Image;
    hide WholeFile;
    HandedGrew(h0, h1, log, other, a, b);
    forall k | |h0| <= k < |h2| ensures WholeFile(other, h2[k], a + (k - |h0|)) {
      if k < |h1| { assert h2[k] == h1[k]; }
    }
  }

  // -------------------------------------------- what is handed over, come what may

  /** Of the log's files a to b, those handed over, each once, whole, in order;
      the others have no data, or are among so many that could not be. */
  ghost predicate Passes(sent: seq<Handed>, log: Log, a: int, b: int, excused: int)
    requires log.Valid() && 0 <= a <= b <= |log.files|
    decreases b - a
  {
    if a == b then sent == [] && excused >= 0
    else
      || (sent != [] && WholeFile(log, sent[0], a) && Passes(sent[1..], log, a + 1, b, excused))
      || (log.files[a].len == 0 && Passes(sent, log, a + 1, b, excused))
      || (excused > 0 && Passes(sent, log, a + 1, b, excused - 1))
  }

  /** The files a writer is done with, those handed over, and how many times a
      file could not be flushed. */
  datatype Tally = Tally(done: seq<LFile>, received: seq<Handed>, unflushed: int)

  /** All but the last, if that is being written. */
  function DoneFiles(log: Log, writing: bool): seq<LFile> {
    if writing && log.files != [] then log.files[..|log.files| - 1] else log.files
  }

  lemma DoneStill(log: Log, k: nat)
    requires log.files != []
    ensures DoneFiles(WithBytes(log, k), true) == DoneFiles(log, true)
  {
  }

  /** Between two states, of the files the writer got done with, those with data
      were handed to `send`, each once, whole, in order, but for one for each
      time that a file could not be flushed; and nothing else was. */
  ghost predicate HandedOn(log: Log, t: Tally, t1: Tally) {
    && log.Valid() && t.done <= t1.done <= log.files && t.received <= t1.received
    && Passes(t1.received[|t.received|..], log, |t.done|, |t1.done|, t1.unflushed - t.unflushed)
  }

  lemma {:induction false} PassesGrew(sent: seq<Handed>, log: Log, other: Log, a: int, b: int, excused: int)
    requires log.Valid() && 0 <= a <= b <= |log.files| && Passes(sent, log, a, b, excused) && ImagesGrew(log, other)
    requires forall g :: a <= g < b ==> other.files[g] == log.files[g]
    ensures Passes(sent, other, a, b, excused)
    decreases b - a
  {
    hide Log.Valid;
    hide Log.Image;
    if a < b {
      ImageStays(log, other, a);
      if sent != [] && WholeFile(log, sent[0], a) && Passes(sent[1..], log, a + 1, b, excused) {
        PassesGrew(sent[1..], log, other, a + 1, b, excused);
      } else if log.files[a].len == 0 && Passes(sent, log, a + 1, b, excused) {
        PassesGrew(sent, log, other, a + 1, b, excused);
      } else {
        PassesGrew(sent, log, other, a + 1, b, excused - 1);
      }
    }
  }

  lemma {:induction false} PassesBoth(s: seq<Handed>, t: seq<Handed>, log: Log, a: int, b: int, c: int, k: int, m: int)
    requires log.Valid() && 0 <= a <= b <= c <= |log.files|
    requires Passes(s, log, a, b, k) && Passes(t, log, b, c, m)
    ensures Passes(s + t, log, a, c, k + m)
    decreases b - a
  {
    hide Log.Valid;
    hide WholeFile;
    PassesCount(s, log, a, b, k);
    PassesCount(t, log, b, c, m);
    if a == b {
      assert s + t == t;
      PassesMore(t, log, b, c, m, k + m);
    } else if s != [] && WholeFile(log, s[0], a) && Passes(s[1..], log, a + 1, b, k) {
      PassesBoth(s[1..], t, log, a + 1, b, c, k, m);
      assert (s + t)[0] == s[0] && (s + t)[1..] == s[1..] + t;
    } else if log.files[a].len == 0 && Passes(s, log, a + 1, b, k) {
      PassesBoth(s, t, log, a + 1, b, c, k, m);
    } else {
      PassesBoth(s, t, log, a + 1, b, c, k - 1, m);
    }
  }

  lemma {:induction false} PassesCount(sent: seq<Handed>, log: Log, a: int, b: int, excused: int)
    requires log.Valid() && 0 <= a <= b <= |log.files| && Passes(sent, log, a, b, excused)
    ensures excused >= 0
    decreases b - a
  {
    hide Log.Valid;
    hide WholeFile;
    if a < b {
      if sent != [] && WholeFile(log, sent[0], a) && Passes(sent[1..], log, a + 1, b, excused) {
        PassesCount(sent[1..], log, a + 1, b, excused);
      } else if log.files[a].len == 0 && Passes(sent, log, a + 1, b, excused) {
        PassesCount(sent, log, a + 1, b, excused);
      }
    }
  }

  lemma {:induction false} PassesMore(sent: seq<Handed>, log: Log, a: int, b: int, excused: int, more: int)
    requires log.Valid() && 0 <= a <= b <= |log.files| && Passes(sent, log, a, b, excused) && excused <= more
    ensures Passes(sent, log, a, b, more)
    decreases b - a
  {
    hide Log.Valid;
    hide WholeFile;
    if a < b {
      if sent != [] && WholeFile(log, sent[0], a) && Passes(sent[1..], log, a + 1, b, excused) {
        PassesMore(sent[1..], log, a + 1, b, excused, more);
      } else if log.files[a].len == 0 && Passes(sent, log, a + 1, b, excused) {
        PassesMore(sent, log, a + 1, b, excused, more);
      } else {
        PassesMore(sent, log, a + 1, b, excused - 1, more - 1);
      }
    }
  }

  /** Nothing was handed over, as the writer got done with no file. */
  lemma NoneHanded(w: World, t: Tally)
    requires Settled(w) && t.done <= w.log.files
    ensures HandedOn(w.log, t, t)
  {
    RemovedOf(w);
    assert t.received[|t.received|..] == [];
  }

  /** The last file was closed: handed over, or it could not be flushed. */
  lemma LastHanded(log: Log, x: Handed, t: Tally, t1: Tally)
    requires log.Valid() && log.files != [] && t.done == log.files[..|log.files| - 1] && t1.done == log.files
    requires || (WholeFile(log, x, |log.files| - 1) && t1.received == t.received + [x] && t1.unflushed >= t.unflushed)
             || (t1.received == t.received && t1.unflushed == t.unflushed + 1)
             || (t1.received == t.received && t1.unflushed == t.unflushed && LastFileOf(log).len == 0)
    ensures HandedOn(log, t, t1)
  {
    hide Log.Valid;
    hide WholeFile;
    var n := |log.files|;
    assert (t.received + [x])[|t.received|..] == [x] && [x][1..] == [] && t.received[|t.received|..] == [];
    assert Passes([], log, n, n, t1.unflushed - t.unflushed) && Passes([], log, n, n, 0);
    assert t.done <= t1.done;
  }

  lemma NotHanded(w: World, d: Desk, t: Tally, t1: Tally)
    requires StandsIn(w, d) && w.log.files != [] && t.done == w.log.files[..|w.log.files| - 1] && t1.done == w.log.files
    requires t1 == t.(done := t1.done, unflushed := t1.unflushed)
    requires t1.unflushed == t.unflushed + 1 || (t1.unflushed == t.unflushed && d.written == 0)
    ensures HandedOn(w.log, t, t1)
  {
    hide Settled;
    hide WholeFile;
    hide HandedOn;
    StandsFacts(w, d);
    RemovedOf(w);
    LastHanded(w.log, Handed(d.id, None, {}), t, t1);
  }

  /** What is handed over in one step after another. */
  lemma HandedThen(w: World, w1: World, t: Tally, t1: Tally, t2: Tally)
    requires Onward(w, w1) && HandedOn(w.log, t, t1) && HandedOn(w1.log, t1, t2)
    ensures HandedOn(w1.log, t, t2)
  {
    hide Kept;
    hide Grew;
    hide Log.Valid;
    hide Log.Image;
    hide WholeFile;
    hide Passes;
    hide ImagesGrew;
    GrewImages(w, w1);
    var s, s1 := t1.received[|t.received|..], t2.received[|t1.received|..];
    assert forall g :: 0 <= g < |t1.done| ==> w1.log.files[g] == t1.done[g] == w.log.files[g];
    PassesGrew(s, w.log, w1.log, |t.done|, |t1.done|, t1.unflushed - t.unflushed);
    PassesBoth(s, s1, w1.log, |t.done|, |t1.done|, |t2.done|, t1.unflushed - t.unflushed, t2.unflushed - t1.unflushed);
    assert t2.received[|t.received|..] == s + s1;
  }

  /** A file was created, or was to be, after others were handed over. */
  lemma HandedFurther(w: World, w1: World, t: Tally, t1: Tally, t2: Tally, writing: bool)
    requires Onward(w, w1) && AddsBlank(w.log, w1.log) && HandedOn(w.log, t, t1) && t1.done == DoneFiles(w.log, false)
    requires t2 == t1.(done := DoneFiles(w1.log, writing)) && (writing ==> |w1.log.files| == |w.log.files| + 1)
    ensures HandedOn(w1.log, t, t2)
  {
    hide Onward;
    hide Passes;
    GrewImages(w, w1);
    BlankHanded(w1.log, t1, t2);
    HandedThen(w, w1, t, t1, t2);
  }

  lemma BlankHanded(log: Log, t: Tally, t1: Tally)
    requires log.Valid() && t.done <= t1.done <= log.files && |t1.done| <= |t.done| + 1 && t1 == t.(done := t1.done)
    requires |t.done| < |t1.done| ==> log.files[|t.done|].len == 0
    ensures HandedOn(log, t, t1)
  {
    hide Log.Valid;
    hide WholeFile;
    assert t.received[|t.received|..] == [];
    assert Passes([], log, |t1.done|, |t1.done|, 0);
  }

  /** At most a file without data was added. */
  ghost predicate AddsBlank(log: Log, other: Log) {
    && |log.files| <= |other.files| <= |log.files| + 1 && other.files[..|log.files|] == log.files
    && (|other.files| > |log.files| ==> other.files[|log.files|].len == 0)
  }

  lemma AddsNone(log: Log)
    ensures AddsBlank(log, log)
  {
  }

  lemma AddsJustOne(log: Log, fmt: Format, dsize: nat, why: Reason, id: SegId)
    ensures |Added(log, fmt, dsize, why, id).files| == |log.files| + 1
  {
  }

  lemma AddsOne(w: World, d: Desk, why: Reason, id: SegId, bytes: seq<byte>)
    ensures AddsBlank(w.log, Added(w.log, d.fmt, d.dsize, why, id))
    ensures AddsBlank(w.log, WithHeader(w, d, why, id, bytes).log)
  {
  }

  lemma GrewImages(w: World, w1: World)
    requires Onward(w, w1)
    ensures ImagesGrew(w.log, w1.log) && w.log.Valid() && w1.log.Valid() && |w.log.files| <= |w1.log.files|
  {
    hide Kept;
    hide Grew;
    hide Log.Valid;
    hide Log.Image;
  }

  /** The log goes on in a new file that starts with a fresh record: what was
      written of the one in progress is given up. */
  ghost predicate ResumedFrom(log: Log, other: Log) {
    && 2 <= |other.files| && |log.files| < |other.files| && |other.epochs| == |log.epochs| + 1
    && other.Resumed(|other.files| - 2) && LastEpochOf(other).recs == [] && LastFileOf(other).len == 0
  }

  lemma ResumedIs(w: World, w1: World, id: SegId)
    requires Settled(w) && w.log.files != [] && w.log.epochs != [] && Settled(w1)
    requires w1.log == WithResumption(w.log, id)
    ensures ResumedFrom(w.log, w1.log)
  {
    hide World.Removed;
    hide Numbered;
    hide AllFiles;
    hide Epoch.Valid;
    hide Epoch.End;
    CurrentValid(w1.log);
    assert w1.log.InRange(|w1.log.files| - 2);
  }

  lemma ResumedAfter(log: Log, k: nat, other: Log)
    requires log.files != [] && ResumedFrom(WithBytes(log, k), other)
    ensures ResumedFrom(log, other)
  {
    hide Log.Resumed;
  }

  lemma ResumedSince(w: World, w1: World, other: Log)
    requires Onward(w, w1) && w1.log.epochs == w.log.epochs && ResumedFrom(w1.log, other)
    ensures ResumedFrom(w.log, other)
  {
    hide Kept;
    hide ImagesGrew;
  }

  // -------------------------------------------------------- what one call does

  /** Whatever comes of a step, the log only grows, and what is kept stays. */
  ghost predicate Onward(w: World, w1: World) {
    && Grew(w.log, w1.log) && ImagesGrew(w.log, w1.log)
    && w1.since == w.since && (Kept(w) ==> Kept(w1))
  }

  lemma OnwardIs(w: World, w1: World)
    requires Grew(w.log, w1.log) && ImagesGrew(w.log, w1.log) && w1.since == w.since && (Kept(w) ==> Kept(w1))
    ensures Onward(w, w1)
  {
  }

  lemma OnwardTwice(a: World, b: World, c: World)
    requires Onward(a, b) && Onward(b, c)
    ensures Onward(a, c)
  {
    hide Kept;
    hide Log.Valid;
    hide Log.Image;
    GrewTwice(a.log, b.log, c.log);
    forall g | 0 <= g < |a.log.files| ensures a.log.Image(g) <= c.log.Image(g) {
      assert a.log.Image(g) <= b.log.Image(g) && b.log.Image(g) <= c.log.Image(g);
    }
  }

  lemma OnwardNot(w: World)
    requires Settled(w)
    ensures Onward(w, w)
  {
    hide Kept;
    hide Log.Valid;
    hide Log.Image;
    hide World.Removed;
    GrewNot(w.log);
  }

  /** A log whole and finished stays so. */
  ghost predicate Tidy(w: World) { Complete(w) && Finished(w.log) }

  /** ... or is so but for the record in progress. */
  ghost predicate NearlyTidy(w: World) { Complete(w) && Unbroken(w.log) }

  /** A whole log is kept: no file was opened there after an abandoned write. */
  lemma TidyKept(w: World)
    requires Tidy(w)
    ensures Kept(w)
  {
    hide Safe;
    hide Stored;
    assert !w.log.WriteAbandoned();
  }

  lemma TidyIs(w: World, d: Desk)
    requires StandsIn(w, d)
    ensures Tidy(w) ==> NearlyTidy(w)
    ensures NearlyTidy(w) && d.owed == 0 && HoldsData(w.log) ==> Tidy(w)
  {
    hide Log.Valid;
    hide World.Removed;
    hide Complete;
    hide Unbroken;
    hide Finished;
    FinishedIs(w.log);
  }

  lemma TidyStays(w: World, w1: World)
    requires w1.log == w.log && (Complete(w) ==> Complete(w1))
    ensures Tidy(w) ==> Tidy(w1)
  {
    hide Complete;
    hide Finished;
  }

  lemma TidyOpened(w: World, w1: World, fmt: Format, dsize: nat, id: SegId)
    requires Current(w.log) && Epoch(fmt, dsize, []).Valid()
    requires w1.log == WithSession(w.log, fmt, dsize, id) && (Complete(w) ==> Complete(w1))
    ensures Tidy(w) ==> Tidy(w1)
  {
    hide Log.Valid;
    hide Complete;
    hide Finished;
    if Finished(w.log) { UnbrokenBySession(w.log, fmt, dsize, id); }
  }

  lemma TidyRolled(w: World, w1: World, id: SegId)
    requires Current(w.log) && w.log.files != [] && Current(w1.log) && LastFileOf(w.log).len > 0
    requires w1.log == WithRoll(w.log, id)
    ensures (Complete(w) ==> Complete(w1)) && NearlyTidy(w) ==> NearlyTidy(w1)
  {
    hide Log.Valid;
    hide Complete;
    hide Unbroken;
    if Unbroken(w.log) { UnbrokenByRoll(w.log, id); }
  }

  /** What a successful roll comes to. */
  lemma RolledOn(w: World, w1: World, w2: World, d: Desk, id: SegId)
    requires StandsIn(w, d) && d.written == d.dsize && Epoch(d.fmt, d.dsize, []).Valid()
    requires w1.log == w.log && (Complete(w) ==> Complete(w1))
    requires w2.log == Added(w1.log, d.fmt, d.dsize, Rolls, id) && Settled(w2) && (Complete(w1) ==> Complete(w2))
    ensures w.log.files != [] && w.log.epochs != [] && w2.log == WithRoll(w.log, id)
    ensures Begun(w.log) ==> Begun(w2.log)
    ensures w2.log.files[..|w.log.files|] == w.log.files
    ensures NearlyTidy(w) ==> NearlyTidy(w2)
  {
    hide Log.Valid;
    hide World.Removed;
    hide EarlierNamed;
    hide Complete;
    hide NearlyTidy;
    hide Stored;
    TidyRolled(w, w2, id);
  }

  // ------------------------------------------------------ one chunk written

  lemma StandsPresent(w: World, d: Desk)
    requires StandsIn(w, d)
    ensures w.log.files != [] && d.id in w.dir && d.written <= d.dsize
  {
    hide Log.Valid;
    hide World.Removed;
    hide Log.Image;
  }

  lemma InsideFacts(log: Log)
    requires Inside(log)
    ensures log.files != [] && log.epochs != []
  {
  }

  /** Everything a chunk, or the front of one, leaves behind. */
  lemma ChunkIs(w: World, d: Desk, data: seq<byte>, take: nat)
    requires w.log.files != [] && d.id in w.dir
    requires StandsIn(w, d) && Due(w.log, data) && Inside(w.log) && take <= |data| && d.written + take <= d.dsize
    ensures take <= d.owed
    ensures var w1 := Grown(w, data[..take]);
            && w1 == w.(log := WithBytes(w.log, take), dir := w.dir[d.id := w.dir[d.id] + data[..take]])
            && StandsIn(w1, d.(written := d.written + take, owed := d.owed - take)) && Settled(w1)
            && Due(w1.log, data[take..]) && w1.log.epochs == w.log.epochs && w1.dir.Keys == w.dir.Keys
            && Onward(w, w1) && Inside(w1.log)
            && (take > 0 ==> Begun(w1.log) && HoldsData(w1.log))
            && (NearlyTidy(w) ==> NearlyTidy(w1))
  {
    hide StandsIn;
    hide Due;
    hide Inside;
    hide Settled;
    hide Kept;
    hide Complete;
    hide Unbroken;
    hide Grew;
    hide Begun;
    hide ImagesGrew;
    ChunkOut(w, d, data, take);
    var w1 := Grown(w, data[..take]);
    StandsFacts(w1, d.(written := d.written + take, owed := d.owed - take));
    InsideAfter(w.log, take);
  }

  /** A roll in the middle of a record. */
  lemma RollDue(log: Log, id: SegId, data: seq<byte>)
    requires Due(log, data) && Inside(log) && Current(WithRoll(log, id))
    ensures Due(WithRoll(log, id), data) && Inside(WithRoll(log, id)) && WithRoll(log, id).epochs == log.epochs
  {
    hide Log.Valid;
    DueRolled(log, id, data);
    InsideRolled(log, id);
  }

  /** What stands in a file and is handed over is the whole of it. */
  lemma StandsWhole(w: World, d: Desk, x: Handed)
    requires StandsIn(w, d) && x.id == d.id && d.id in w.dir && x.content == Some(w.dir[d.id])
    ensures w.log.Valid() && w.log.files != [] && WholeFile(w.log, x, |w.log.files| - 1)
  {
    hide Log.Valid;
    hide Log.Image;
    hide World.Removed;
    hide Numbered;
    hide AllFiles;
  }

  /** The files finished in one step after those finished in another. */
  lemma HandedSince(w: World, w1: World, h0: seq<Handed>, h1: seq<Handed>, h2: seq<Handed>, a: int)
    requires Onward(w, w1) && HandedOver(h0, h1, w.log, a, |w.log.files| - 1)
    requires HandedOver(h1, h2, w1.log, |w.log.files| - 1, |w1.log.files| - 1)
    ensures HandedOver(h0, h2, w1.log, a, |w1.log.files| - 1)
  {
    hide Kept;
    hide Log.Valid;
    hide ImagesGrew;
    hide WholeFile;
    HandedTwice(h0, h1, h2, w.log, w1.log, a, |w.log.files| - 1, |w1.log.files| - 1);
  }

  lemma HandedOnward(w: World, w1: World, h0: seq<Handed>, h1: seq<Handed>, a: int, b: int)
    requires Onward(w, w1) && HandedOver(h0, h1, w.log, a, b)
    requires |w.log.files| <= |w1.log.files| && w1.log.files[..|w.log.files|] == w.log.files
    ensures HandedOver(h0, h1, w1.log, a, b)
  {
    hide Kept;
    hide Grew;
    hide Log.Valid;
    hide WholeFile;
    assert forall g :: a <= g < b ==> w1.log.files[g] == w1.log.files[..|w.log.files|][g];
    HandedGrew(h0, h1, w.log, w1.log, a, b);
  }

  /** So are those handed over before a file was added, or was to be. */
  lemma HandedAlong(w: World, w1: World, h0: seq<Handed>, h1: seq<Handed>, a: int, b: int)
    requires Onward(w, w1) && AddsBlank(w.log, w1.log) && HandedOver(h0, h1, w.log, a, b)
    ensures HandedOver(h0, h1, w1.log, a, b)
  {
    hide Kept;
    hide Grew;
    hide Log.Valid;
    hide WholeFile;
    GrewImages(w, w1);
    assert forall g :: a <= g < b ==> w1.log.files[g] == w1.log.files[..|w.log.files|][g];
    HandedGrew(h0, h1, w.log, w1.log, a, b);
  }

  lemma HandedStill(w: World, w1: World, h0: seq<Handed>, h1: seq<Handed>, a: int)
    requires Onward(w, w1) && HandedOver(h0, h1, w.log, a, |w.log.files| - 1)
    requires |w1.log.files| == |w.log.files|
    ensures HandedOver(h0, h1, w1.log, a, |w1.log.files| - 1)
  {
    hide Kept;
    hide Log.Valid;
    hide ImagesGrew;
    hide WholeFile;
    HandedGrew(h0, h1, w.log, w1.log, a, |w.log.files| - 1);
  }

  // ---------------------------------------------------------- one record

  /** The epochs a record is added to: a new one first, when one is due. */
  function BaseEpochs(epochs: seq<Epoch>, fmt: Format, dsize: nat, newSession: bool): seq<Epoch> {
    if newSession then epochs + [Epoch(fmt, dsize, [])] else epochs
  }

  /** The epochs after a record was written. */
  function EpochsWith(epochs: seq<Epoch>, fmt: Format, dsize: nat, newSession: bool, r: Record): seq<Epoch> {
    var base := BaseEpochs(epochs, fmt, dsize, newSession);
    if base == [] then [] else base[|base| - 1 := base[|base| - 1].(recs := base[|base| - 1].recs + [r])]
  }

  /** Beginning a record between two others. */
  lemma RecordIs(w: World, d: Desk, r: Record, count: nat)
    requires StandsIn(w, d) && d.owed == 0 && ValidRecord(d.fmt, r) && CountedNext(d, r, count)
    ensures w.log.epochs != []
    ensures var w1 := w.(log := WithRecord(w.log, r));
            && StandsIn(w1, d.(owed := d.fmt.DataHeaderLen() + |r.payload|, count := count)) && Settled(w1)
            && Due(w1.log, Encode(d.fmt, r)) && Inside(w1.log)
            && Onward(w, w1) && Attempted(w1.log.epochs) == Attempted(w.log.epochs) + [r]
            && (NearlyTidy(w) ==> NearlyTidy(w1))
  {
    hide StandsIn;
    hide Settled;
    hide Due;
    hide Kept;
    hide Complete;
    hide Unbroken;
    hide Grew;
    hide ImagesGrew;
    hide Attempted;
    hide Encode;
    StandsFacts(w, d);
    RecordDue(w, d, r, count);
    StandsFacts(w.(log := WithRecord(w.log, r)), d.(owed := d.fmt.DataHeaderLen() + |r.payload|, count := count));
  }

  /** The metadata a record is given: its number within the session, and a
      time between two readings of the clock. */
  ghost predicate Minted(fmt: Format, meta: Meta, count: nat, from: nat, to: nat) {
    fmt.VariableTsRc? ==> meta.MetaTsRc? && meta.rc == count && from <= meta.ts <= to
  }

  lemma MintedNext(d: Desk, r: Record, from: nat, to: nat)
    requires Minted(d.fmt, r.meta, d.count + 1, from, to)
    ensures CountedNext(d, r, if d.fmt.VariableTsRc? then d.count + 1 else d.count)
  {
  }

  lemma MintedBy(fmt: Format, meta: Meta, count: nat, from: nat, to: nat, later: nat)
    requires Minted(fmt, meta, count, from, to) && to <= later
    ensures Minted(fmt, meta, count, from, later)
  {
  }

  /** The record is the last of its epoch, and no other epoch changed. */
  ghost predicate PutIn(log: Log, other: Log, fmt: Format, r: Record) {
    log.epochs != [] && ValidRecord(fmt, r) && other.epochs == WithRecord(log, r).epochs
  }

  lemma PutInIs(log: Log, other: Log, fmt: Format, r: Record)
    requires log.epochs != [] && ValidRecord(fmt, r) && other.epochs == WithRecord(log, r).epochs
    ensures PutIn(log, other, fmt, r)
  {
  }

  /** A call adds at most one record to those attempted. */
  ghost predicate AttemptedAtMost(log: Log, other: Log, msg: seq<byte>) {
    || Attempted(other.epochs) == Attempted(log.epochs)
    || exists meta :: Attempted(other.epochs) == Attempted(log.epochs) + [Record(msg, meta)]
  }

  lemma AttemptedIs(log: Log, other: Log, msg: seq<byte>)
    ensures Attempted(other.epochs) == Attempted(log.epochs) ==> AttemptedAtMost(log, other, msg)
    ensures forall meta :: Attempted(other.epochs) == Attempted(log.epochs) + [Record(msg, meta)] ==>
      AttemptedAtMost(log, other, msg)
  {
  }

  lemma AttemptedSince(log: Log, log1: Log, other: Log, msg: seq<byte>)
    requires Attempted(log1.epochs) == Attempted(log.epochs) && AttemptedAtMost(log1, other, msg)
    ensures AttemptedAtMost(log, other, msg)
  {
  }

  /** The record is written out to its last byte, at the end of its session,
      and the log has no other record it did not have. */
  ghost predicate Acknowledged(w: World, w1: World, fmt: Format, dsize: nat, newSession: bool, r: Record) {
    && ValidRecord(fmt, r)
    && w1.log.epochs == EpochsWith(w.log.epochs, fmt, dsize, newSession, r)
    && w1.log.epochs != [] && LastEpochOf(w1.log).recs != []
    && w1.OnDisk(Place(|w1.log.epochs| - 1, |LastEpochOf(w1.log).recs| - 1))
  }

  lemma AcknowledgedIs(w: World, w1: World, w2: World, d: Desk, newSession: bool, r: Record)
    requires w1.log.epochs == BaseEpochs(w.log.epochs, d.fmt, d.dsize, newSession)
    requires PutIn(w1.log, w2.log, d.fmt, r) && StandsIn(w2, d) && d.owed == 0
    ensures Acknowledged(w, w2, d.fmt, d.dsize, newSession, r)
  {
    hide StandsIn;
    hide ValidRecord;
    hide World.OnDisk;
    WrittenOut(w2, d);
  }

  /** The last record, once nothing is owed. */
  lemma WrittenOut(w: World, d: Desk)
    requires StandsIn(w, d) && d.owed == 0
    ensures w.log.epochs != []
    ensures LastEpochOf(w.log).recs != [] ==>
      w.OnDisk(Place(|w.log.epochs| - 1, |LastEpochOf(w.log).recs| - 1))
  {
    hide Log.Valid;
    hide World.Removed;
    if LastEpochOf(w.log).recs != [] { LastOnDisk(w); }
  }

  /** An empty directory, and the log that left nothing in it. */
  lemma NothingNumbered()
    ensures Numbered(Log([], []))
  {
    assert forall g: nat :: !Log([], []).Resumed(g) && !Log([], []).NewSession(g);
  }

  lemma NothingCurrent()
    ensures Current(Log([], [])) && Log([], []).Valid()
  {
  }

  lemma NothingSettled(w: World)
    requires w.log == Log([], []) && w.dir == map[] && w.at == map[] && w.passed == [] && w.since == 0
    ensures Settled(w)
  {
    hide Log.Image;
    hide Log.Valid;
    hide Usable;
    hide Numbered;
    hide Current;
    hide SomeFile;
    NothingCurrent();
    NothingNumbered();
  }

  lemma NothingTidy(w: World)
    requires w.log == Log([], [])
    ensures Tidy(w)
  {
    hide Finished;
    hide Safe;
    NothingFinished();
  }

  lemma NothingThere(w: World)
    requires w.log == Log([], []) && w.dir == map[] && w.at == map[] && w.passed == [] && w.since == 0
    ensures Settled(w) && Tidy(w)
  {
    hide Settled;
    hide Tidy;
    NothingSettled(w);
    NothingTidy(w);
  }
}
