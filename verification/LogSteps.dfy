/** What each step of the writer adds to the log, and that the log stays as
    the format promises (tcslog/src/write.rs): data sections of one size that
    join into the encoded records, headers that give each file's place and
    what it owes the record in progress. */
module LogSteps {
  import opened Bytes
  import opened Format
  import opened Header
  import opened ReadSpec
  import opened Layout

  /** The file written last belongs to the epoch begun last. */
  ghost predicate Current(log: Log) {
    && log.Valid()
    && (log.files == [] <==> log.epochs == [])
    && (log.files != [] ==> log.files[|log.files| - 1].epoch == |log.epochs| - 1)
  }

  function LastFileOf(log: Log): LFile
    requires log.files != []
  {
    log.files[|log.files| - 1]
  }

  function LastEpochOf(log: Log): Epoch
    requires log.epochs != []
  {
    log.epochs[|log.epochs| - 1]
  }

  /** Bytes of the attempted records not written out yet. */
  function Owed(log: Log): int
    requires log.files != [] && log.epochs != []
  {
    LastEpochOf(log).End() - LastFileOf(log).start - LastFileOf(log).len
  }

  /** The last record attempted, if not written out, has been begun. */
  ghost predicate Begun(log: Log) {
    && log.files != [] && log.epochs != []
    && var f, ep := LastFileOf(log), LastEpochOf(log);
       Owed(log) == 0 || (ep.recs != [] && ep.Start(|ep.recs| - 1) < f.start + f.len)
  }

  // ------------------------------------------------------------- the steps

  function WithSession(log: Log, fmt: Format, dsize: nat, id: SegId): Log {
    Log(log.epochs + [Epoch(fmt, dsize, [])], log.files + [LFile(id, id, 0, |log.epochs|, 0, 0)])
  }

  function WithRoll(log: Log, id: SegId): Log
    requires log.files != []
  {
    var f := LastFileOf(log);
    log.(files := log.files + [LFile(id, f.session, f.ordinal + 1, f.epoch, f.start + f.len, 0)])
  }

  function WithResumption(log: Log, id: SegId): Log
    requires log.files != [] && log.epochs != []
  {
    var f, ep := LastFileOf(log), LastEpochOf(log);
    var next := ep.(recs := [], before := ep.before + |ep.recs|);
    Log(log.epochs + [next], log.files + [LFile(id, f.session, f.ordinal + 1, |log.epochs|, 0, 0)])
  }

  function WithRecord(log: Log, r: Record): Log
    requires log.epochs != []
  {
    var e := |log.epochs| - 1;
    log.(epochs := log.epochs[e := log.epochs[e].(recs := log.epochs[e].recs + [r])])
  }

  function WithBytes(log: Log, k: nat): Log
    requires log.files != []
  {
    var g := |log.files| - 1;
    log.(files := log.files[g := log.files[g].(len := log.files[g].len + k)])
  }

  // ------------------------------------------------------ what they preserve

  /** Files whose entries and epochs are as before read as before. */
  lemma ImageApart(log: Log, other: Log, g: nat)
    requires log.Valid() && other.Valid() && g < |log.files| && g < |other.files|
    requires log.files[g] == other.files[g]
    requires log.files[g].epoch < |log.epochs| && log.files[g].epoch < |other.epochs|
    requires log.epochs[log.files[g].epoch] == other.epochs[log.files[g].epoch]
    ensures log.Image(g) == other.Image(g)
  {
    hide ToBytes;
    hide Stream;
    hide Epoch.Remaining;
    assert log.InRange(g) && other.InRange(g);
    assert log.HeaderOf(g) == other.HeaderOf(g);
    assert log.DataOf(g) == other.DataOf(g);
  }

  ghost predicate ImagesKept(log: Log, other: Log)
    requires log.Valid() && other.Valid()
  {
    |log.files| <= |other.files| && forall g :: 0 <= g < |log.files| ==> other.Image(g) == log.Image(g)
  }

  /** Steps that leave every earlier file's entry alone keep the earlier links. */
  lemma LinksKept(log: Log, other: Log)
    requires log.Valid() && |log.files| <= |other.files| && |log.epochs| <= |other.epochs|
    requires other.files[..|log.files|] == log.files && other.epochs[..|log.epochs|] == log.epochs
    ensures forall g :: 0 <= g < |log.files| ==> other.files[g] == log.files[g] && log.InRange(g) && other.InRange(g)
    ensures forall e :: 0 <= e < |log.epochs| ==> other.epochs[e] == log.epochs[e]
    ensures forall g :: 0 <= g < |log.files| - 1 ==> other.SameEpoch(g) || other.Resumed(g) || other.NewSession(g)
  {
    hide Epoch.Valid;
    hide Epoch.End;
    forall e | 0 <= e < |log.epochs| ensures other.epochs[e] == log.epochs[e] {
      assert other.epochs[e] == other.epochs[..|log.epochs|][e];
    }
    forall g | 0 <= g < |log.files| ensures other.files[g] == log.files[g] && log.InRange(g) && other.InRange(g) {
      assert other.files[g] == other.files[..|log.files|][g];
      assert log.InRange(g);
    }
    forall g | 0 <= g < |log.files| - 1
      ensures other.SameEpoch(g) || other.Resumed(g) || other.NewSession(g)
    {
      assert log.SameEpoch(g) || log.Resumed(g) || log.NewSession(g);
    }
  }

  /** Adding a file that properly follows keeps the log valid. */
  lemma FileAdded(log: Log, other: Log)
    requires Current(log)
    requires |other.files| == |log.files| + 1 && |log.epochs| <= |other.epochs|
    requires other.files[..|log.files|] == log.files && other.epochs[..|log.epochs|] == log.epochs
    requires forall e :: |log.epochs| <= e < |other.epochs| ==> other.epochs[e].Valid()
    requires var n := |log.files|; var f := other.files[n];
             && other.InRange(n) && f.epoch == |other.epochs| - 1 && f.len <= other.epochs[f.epoch].dsize
             && f.ordinal <= n && f.session == other.files[n - f.ordinal].id
             && (if n == 0 then f.epoch == 0 && f.start == 0
                 else other.SameEpoch(n - 1) || other.Resumed(n - 1) || other.NewSession(n - 1))
    ensures Current(other) && ImagesKept(log, other)
  {
    LinksKept(log, other);
    forall g | 0 <= g < |other.files|
      ensures other.InRange(g) && other.files[g].len <= other.epochs[other.files[g].epoch].dsize
      ensures other.files[g].ordinal <= g && other.files[g].session == other.files[g - other.files[g].ordinal].id
    {
    }
    forall g | 0 <= g < |other.files| - 1
      ensures other.SameEpoch(g) || other.Resumed(g) || other.NewSession(g)
    {
    }
    forall g | 0 <= g < |log.files| ensures other.Image(g) == log.Image(g) {
      ImageApart(log, other, g);
    }
  }

  /** Opening a session. */
  lemma SessionOpened(log: Log, fmt: Format, dsize: nat, id: SegId)
    requires Current(log) && Epoch(fmt, dsize, []).Valid()
    ensures var other := WithSession(log, fmt, dsize, id);
            && Current(other) && ImagesKept(log, other) && Owed(other) == 0
            && other.Image(|log.files|) == ToBytes(Header(id, id, HEADER_LEN + dsize, 0, fmt, 0, VERSION_MINOR))
            && (log.files != [] ==> other.NewSession(|log.files| - 1))
  {
    hide ToBytes;
    var other := WithSession(log, fmt, dsize, id);
    SessionValid(log, fmt, dsize, id);
    EmptyImage(other);
  }

  lemma SessionValid(log: Log, fmt: Format, dsize: nat, id: SegId)
    requires Current(log) && Epoch(fmt, dsize, []).Valid()
    ensures var other := WithSession(log, fmt, dsize, id);
            && Current(other) && ImagesKept(log, other)
            && (log.files != [] ==> other.NewSession(|log.files| - 1))
  {
    hide Log.Image;
    hide Log.Valid;
    hide Epoch.Valid;
    hide ImagesKept;
    var other := WithSession(log, fmt, dsize, id);
    EndIsZero(fmt, dsize);
    if log.files != [] { CurrentValid(log); }
    FileAdded(log, other);
  }

  lemma EndIsZero(fmt: Format, dsize: nat)
    ensures Epoch(fmt, dsize, []).End() == 0
  {
  }

  /** A file nothing has been written to yet holds its header alone. */
  lemma EmptyImage(log: Log)
    requires Current(log) && log.files != [] && LastFileOf(log).len == 0
    ensures log.Image(|log.files| - 1) == ToBytes(log.HeaderOf(|log.files| - 1))
    ensures LastFileOf(log).start <= LastEpochOf(log).End()
    ensures log.HeaderOf(|log.files| - 1) ==
      Header(LastFileOf(log).id, LastFileOf(log).session, HEADER_LEN + LastEpochOf(log).dsize,
             LastEpochOf(log).Remaining(LastFileOf(log).start), LastEpochOf(log).fmt,
             log.SeqField(|log.files| - 1), LastEpochOf(log).minor)
    ensures LastFileOf(log).start == 0 ==> LastEpochOf(log).Remaining(0) == 0
  {
    hide ToBytes;
    assert log.InRange(|log.files| - 1);
    assert LastEpochOf(log).Valid();
    IndexOfStart(LastEpochOf(log), 0);
    assert log.DataOf(|log.files| - 1) == [];
  }

  /** Continuing a full file: the new one owes what is left of the record. */
  lemma Rolled(log: Log, id: SegId)
    requires Current(log) && Begun(log) && Owed(log) >= 0
    requires LastFileOf(log).len == LastEpochOf(log).dsize
    ensures var other := WithRoll(log, id);
            var f, ep := LastFileOf(log), LastEpochOf(log);
            && Current(other) && ImagesKept(log, other) && Owed(other) == Owed(log) && Begun(other)
            && other.SameEpoch(|log.files| - 1) && Owed(log) < U64_LIMIT
            && other.Image(|log.files|) ==
                 ToBytes(Header(id, f.session, HEADER_LEN + ep.dsize, Owed(log), ep.fmt,
                                other.SeqField(|log.files|), ep.minor))
  {
    hide ToBytes;
    hide Log.Valid;
    hide Log.Image;
    hide ImagesKept;
    hide Epoch.Remaining;
    var other := WithRoll(log, id);
    RollValid(log, id);
    EmptyImage(other);
    CurrentValid(log);
    var ep, o := LastEpochOf(log), LastFileOf(other).start;
    RemainingOwed(ep, o);
    RemainingSmall(ep, o);
  }

  lemma RollValid(log: Log, id: SegId)
    requires Current(log) && Begun(log) && Owed(log) >= 0
    requires LastFileOf(log).len == LastEpochOf(log).dsize
    ensures var other := WithRoll(log, id);
            Current(other) && ImagesKept(log, other) && other.SameEpoch(|log.files| - 1)
  {
    hide Log.Image;
    var other := WithRoll(log, id);
    assert log.InRange(|log.files| - 1);
    assert other.InRange(|log.files|);
    assert other.SameEpoch(|log.files| - 1);
    FileAdded(log, other);
  }

  /** Inside the last record, or at the end, what is owed is all there is. */
  lemma RemainingOwed(ep: Epoch, o: nat)
    requires ep.Valid() && o <= ep.End()
    requires o == ep.End() || (ep.recs != [] && ep.Start(|ep.recs| - 1) < o)
    ensures ep.Remaining(o) == ep.End() - o
  {
    if o == ep.End() {
      IndexOfStart(ep, |ep.recs|);
    } else {
      IndexInside(ep, o, |ep.recs| - 1);
    }
  }

  /** Giving a file up for a fresh one. */
  lemma Abandoned(log: Log, id: SegId)
    requires Current(log) && log.files != []
    ensures var other := WithResumption(log, id);
            var f, ep := LastFileOf(log), LastEpochOf(log);
            && Current(other) && ImagesKept(log, other) && Owed(other) == 0
            && other.Resumed(|log.files| - 1)
            && other.Image(|log.files|) ==
                 ToBytes(Header(id, f.session, HEADER_LEN + ep.dsize, 0, ep.fmt,
                                other.SeqField(|log.files|), ep.minor))
  {
    hide ToBytes;
    var other := WithResumption(log, id);
    assert log.InRange(|log.files| - 1);
    assert LastEpochOf(log).Valid();
    assert other.InRange(|log.files|);
    assert other.Resumed(|log.files| - 1);
    FileAdded(log, other);
    EmptyImage(other);
  }

  /** Writing bytes out changes no other file, and extends the last one by the
      next bytes of the stream. */
  lemma Wrote(log: Log, k: nat)
    requires Current(log) && log.files != []
    requires k <= Owed(log) && LastFileOf(log).len + k <= LastEpochOf(log).dsize
    ensures var other := WithBytes(log, k);
            && Current(other) && Owed(other) == Owed(log) - k
            && (forall g :: 0 <= g < |log.files| - 1 ==> other.Image(g) == log.Image(g))
    ensures var o := LastFileOf(log).start + LastFileOf(log).len;
            var s := LastEpochOf(log).Bytes();
            && o + k <= |s|
            && WithBytes(log, k).Image(|log.files| - 1) == log.Image(|log.files| - 1) + s[o..o + k]
    ensures k > 0 && LastEpochOf(log).recs != []
      && LastEpochOf(log).Start(|LastEpochOf(log).recs| - 1) <= LastFileOf(log).start + LastFileOf(log).len
      ==> Begun(WithBytes(log, k))
  {
    hide Log.Image;
    hide Log.Valid;
    hide Epoch.Valid;
    hide Epoch.End;
    hide Stream;
    CurrentValid(log);
    BytesValid(log, k);
    OthersApart(log, k);
    BytesOf(LastEpochOf(log));
    ImageExtended(log, k);
  }

  lemma BytesOf(ep: Epoch)
    requires ep.Valid()
    ensures |ep.Bytes()| == ep.End()
  {
    StreamLength(ep);
  }

  lemma OthersApart(log: Log, k: nat)
    requires Current(log) && log.files != [] && Current(WithBytes(log, k))
    ensures forall g :: 0 <= g < |log.files| - 1 ==> WithBytes(log, k).Image(g) == log.Image(g)
  {
    hide Log.Image;
    forall g | 0 <= g < |log.files| - 1 ensures WithBytes(log, k).Image(g) == log.Image(g) {
      assert log.InRange(g);
      ImageApart(log, WithBytes(log, k), g);
    }
  }

  lemma ImageExtended(log: Log, k: nat)
    requires Current(log) && log.files != [] && Current(WithBytes(log, k))
    requires LastFileOf(log).start + LastFileOf(log).len + k <= |LastEpochOf(log).Bytes()|
    ensures var o := LastFileOf(log).start + LastFileOf(log).len;
            WithBytes(log, k).Image(|log.files| - 1) ==
              log.Image(|log.files| - 1) + LastEpochOf(log).Bytes()[o..o + k]
  {
    hide ToBytes;
    hide Log.Valid;
    hide Log.HeaderOf;
    hide Log.DataOf;
    hide Epoch.Bytes;
    CurrentValid(log);
    CurrentValid(WithBytes(log, k));
    HeaderStays(log, k);
    DataExtended(log, k);
  }

  lemma HeaderStays(log: Log, k: nat)
    requires Current(log) && log.files != [] && Current(WithBytes(log, k))
    ensures WithBytes(log, k).HeaderOf(|log.files| - 1) == log.HeaderOf(|log.files| - 1)
  {
    hide Log.Valid;
    hide Epoch.Valid;
    hide Epoch.Remaining;
    CurrentValid(log);
    CurrentValid(WithBytes(log, k));
  }

  lemma DataExtended(log: Log, k: nat)
    requires Current(log) && log.files != [] && Current(WithBytes(log, k))
    requires LastFileOf(log).start + LastFileOf(log).len + k <= |LastEpochOf(log).Bytes()|
    ensures var o := LastFileOf(log).start + LastFileOf(log).len;
            WithBytes(log, k).DataOf(|log.files| - 1) ==
              log.DataOf(|log.files| - 1) + LastEpochOf(log).Bytes()[o..o + k]
  {
    hide Log.Valid;
    hide Epoch.Valid;
    hide Epoch.Bytes;
    CurrentValid(log);
    CurrentValid(WithBytes(log, k));
    var f := LastFileOf(log);
    SliceGrows(LastEpochOf(log).Bytes(), f.start, f.start + f.len, k);
  }

  lemma SliceGrows(s: seq<byte>, a: nat, b: nat, k: nat)
    requires a <= b && b + k <= |s|
    ensures s[a..b + k] == s[a..b] + s[b..b + k]
  {
  }

  lemma CurrentValid(log: Log)
    requires Current(log) && log.files != []
    ensures log.Valid() && log.InRange(|log.files| - 1) && LastEpochOf(log).Valid()
  {
    assert log.InRange(|log.files| - 1);
  }

  lemma BytesValid(log: Log, k: nat)
    requires Current(log) && log.files != []
    requires k <= Owed(log) && LastFileOf(log).len + k <= LastEpochOf(log).dsize
    ensures Current(WithBytes(log, k))
  {
    var n := |log.files| - 1;
    var other := WithBytes(log, k);
    forall g | 0 <= g < |other.files|
      ensures other.InRange(g) && other.files[g].len <= other.epochs[other.files[g].epoch].dsize
      ensures other.files[g].ordinal <= g && other.files[g].session == other.files[g - other.files[g].ordinal].id
    {
      assert log.InRange(g);
    }
    forall g | 0 <= g < |other.files| - 1
      ensures other.SameEpoch(g) || other.Resumed(g) || other.NewSession(g)
    {
      assert log.SameEpoch(g) || log.Resumed(g) || log.NewSession(g);
    }
  }

  /** Beginning a record changes nothing that is on disk. */
  lemma RecordBegun(log: Log, r: Record)
    requires Current(log) && log.epochs != [] && ValidRecord(LastEpochOf(log).fmt, r, LastEpochOf(log).minor)
    ensures var other := WithRecord(log, r);
            var ep, f := LastEpochOf(log), LastFileOf(log);
            && Current(other) && ImagesKept(log, other)
            && Owed(other) == Owed(log) + ep.Head() + |r.payload|
            && LastEpochOf(other).Start(|ep.recs|) == ep.End()
            && LastEpochOf(other).Bytes() == ep.Bytes() + Encode(ep.fmt, r, ep.minor) && |ep.Bytes()| == ep.End()
  {
    hide Encode;
    var other := WithRecord(log, r);
    var ep := LastEpochOf(log);
    assert ep.Valid();
    StreamAppend(ep, r);
    StartAppend(ep, r, |ep.recs|);
    assert LastEpochOf(other) == ep.(recs := ep.recs + [r]);
    RemainingAppend(ep, r, 0);
    RecordValid(log, r);
    forall g | 0 <= g < |log.files| ensures other.Image(g) == log.Image(g) {
      ImageBefore(log, r, g);
    }
  }

  lemma RecordValid(log: Log, r: Record)
    requires Current(log) && log.epochs != [] && ValidRecord(LastEpochOf(log).fmt, r, LastEpochOf(log).minor)
    ensures Current(WithRecord(log, r))
  {
    hide DataHeader;
    var other := WithRecord(log, r);
    var ep := LastEpochOf(log);
    assert ep.Valid();
    RemainingAppend(ep, r, 0);
    assert other.files == log.files;
    forall e | 0 <= e < |other.epochs|
      ensures other.epochs[e].Valid() && other.epochs[e].End() >= log.epochs[e].End()
      ensures CodedAlike(other.epochs[e], log.epochs[e]) && other.epochs[e].dsize == log.epochs[e].dsize
    {
      assert log.epochs[e].Valid();
    }
    LinksHold(log, other);
  }

  /** Epochs that only grew keep every file in its place. */
  lemma LinksHold(log: Log, other: Log)
    requires log.Valid() && other.files == log.files && |other.epochs| == |log.epochs|
    requires forall e :: 0 <= e < |log.epochs| ==>
      && other.epochs[e].Valid() && other.epochs[e].End() >= log.epochs[e].End()
      && CodedAlike(other.epochs[e], log.epochs[e]) && other.epochs[e].dsize == log.epochs[e].dsize
    ensures other.Valid()
  {
    hide Epoch.Valid;
    hide Epoch.End;
    forall g | 0 <= g < |other.files|
      ensures other.InRange(g) && other.files[g].len <= other.epochs[other.files[g].epoch].dsize
    {
      assert log.InRange(g);
    }
    forall g | 0 <= g < |other.files| - 1
      ensures other.SameEpoch(g) || other.Resumed(g) || other.NewSession(g)
    {
      assert other.InRange(g) && other.InRange(g + 1);
      assert log.SameEpoch(g) || log.Resumed(g) || log.NewSession(g);
    }
  }

  lemma ImageBefore(log: Log, r: Record, g: nat)
    requires Current(log) && log.epochs != [] && Current(WithRecord(log, r)) && g < |log.files|
    requires ValidRecord(LastEpochOf(log).fmt, r, LastEpochOf(log).minor)
    ensures WithRecord(log, r).Image(g) == log.Image(g)
  {
    hide ToBytes;
    hide Encode;
    hide Stream;
    var other := WithRecord(log, r);
    assert log.InRange(g) && other.InRange(g);
    var f, e := log.files[g], |log.epochs| - 1;
    if f.epoch < e {
      ImageApart(log, other, g);
    } else {
      var ep := log.epochs[e];
      assert ep.Valid();
      StreamAppend(ep, r);
      RemainingAppend(ep, r, f.start);
      assert other.epochs[e] == ep.(recs := ep.recs + [r]);
      assert other.HeaderOf(g) == log.HeaderOf(g);
      assert other.DataOf(g) == log.DataOf(g);
    }
  }

  // -------------------------------------------------------- record numbers

  /** The records of an epoch that count are numbered on from those before. */
  ghost predicate NumberedOn(ep: Epoch) {
    ep.fmt.VariableTsRc? ==>
      forall j :: 0 <= j < |ep.recs| ==> ep.recs[j].meta == MetaTsRc(TimeOf(ep.recs[j]), ep.before + j + 1)
  }

  function TimeOf(r: Record): u64 {
    if r.meta.MetaTsRc? then r.meta.ts else 0
  }

  /** Within every session records are numbered 1, 2, 3, ... in the order they
      were begun, over abandoned writes too. */
  ghost predicate Numbered(log: Log) {
    && (forall e :: 0 <= e < |log.epochs| ==> NumberedOn(log.epochs[e]))
    && (log.epochs != [] ==> log.epochs[0].before == 0)
    && (forall g: nat :: CountedOver(log, g))
  }

  /** Numbers start again in a new session, and go on in a resumed one. */
  ghost predicate CountedOver(log: Log, g: nat) {
    && (log.NewSession(g) ==> log.epochs[log.files[g + 1].epoch].before == 0)
    && (log.Resumed(g) ==>
          var a, b := log.epochs[log.files[g].epoch], log.epochs[log.files[g + 1].epoch];
          b.before == a.before + |a.recs|)
  }

  /** The number the session's next record gets. */
  function NextNumber(log: Log): nat
    requires log.epochs != []
  {
    LastEpochOf(log).before + |LastEpochOf(log).recs| + 1
  }

  /** A link between two files is the same in any log that has them both. */
  lemma SameLink(log: Log, other: Log, g: nat)
    requires log.Valid() && g + 1 < |log.files| <= |other.files|
    requires other.files[g].epoch == log.files[g].epoch && other.files[g + 1].epoch == log.files[g + 1].epoch
    requires other.files[g].ordinal == log.files[g].ordinal && other.files[g + 1].ordinal == log.files[g + 1].ordinal
    ensures other.Resumed(g) ==> log.Resumed(g)
    ensures other.NewSession(g) ==> log.NewSession(g)
  {
    hide Epoch.Valid;
    hide Epoch.End;
    assert log.SameEpoch(g) || log.Resumed(g) || log.NewSession(g);
  }

  /** So it is where the step left the epochs' counts alone. */
  lemma StillCounted(log: Log, other: Log, g: nat)
    requires log.Valid() && g + 1 < |log.files| <= |other.files| && CountedOver(log, g)
    requires other.files[g].epoch == log.files[g].epoch && other.files[g + 1].epoch == log.files[g + 1].epoch
    requires other.files[g].ordinal == log.files[g].ordinal && other.files[g + 1].ordinal == log.files[g + 1].ordinal
    requires log.files[g].epoch < |log.epochs| && log.files[g + 1].epoch < |log.epochs| <= |other.epochs|
    requires var e := log.files[g + 1].epoch; other.epochs[e].before == log.epochs[e].before
    requires log.Resumed(g) ==>
      var e := log.files[g].epoch;
      other.epochs[e].before == log.epochs[e].before && |other.epochs[e].recs| == |log.epochs[e].recs|
    ensures CountedOver(other, g)
  {
    hide Epoch.Valid;
    hide Epoch.End;
    hide Log.Valid;
    SameLink(log, other, g);
  }

  lemma NoLinkPast(log: Log, g: nat)
    requires g + 1 >= |log.files|
    ensures CountedOver(log, g)
  {
  }

  lemma SessionNumbered(log: Log, fmt: Format, dsize: nat, id: SegId)
    requires Current(log) && Numbered(log)
    ensures Numbered(WithSession(log, fmt, dsize, id)) && NextNumber(WithSession(log, fmt, dsize, id)) == 1
  {
    hide Epoch.Valid;
    hide Epoch.End;
    hide NumberedOn;
    hide Log.Valid;
    hide CountedOver;
    var other := WithSession(log, fmt, dsize, id);
    NumberedNone(fmt, dsize, 0, VERSION_MINOR);
    EpochsOf(log);
    forall g: nat ensures CountedOver(other, g) {
      if g + 1 < |log.files| {
        assert CountedOver(log, g);
        StillCounted(log, other, g);
      } else if g + 1 == |log.files| {
        SessionCounted(log, fmt, dsize, id);
      } else {
        NoLinkPast(other, g);
      }
    }
  }

  lemma SessionCounted(log: Log, fmt: Format, dsize: nat, id: SegId)
    requires Current(log) && log.files != []
    ensures CountedOver(WithSession(log, fmt, dsize, id), |log.files| - 1)
  {
    hide Epoch.Valid;
    hide Epoch.End;
    hide Log.Valid;
  }

  lemma NumberedNone(fmt: Format, dsize: nat, before: nat, minor: nat)
    ensures NumberedOn(Epoch(fmt, dsize, [], before, minor))
  {
  }

  lemma EpochsOf(log: Log)
    requires Current(log)
    ensures log.Valid() && forall g :: 0 <= g < |log.files| ==> log.files[g].epoch < |log.epochs|
  {
    hide Epoch.Valid;
    hide Epoch.End;
    forall g | 0 <= g < |log.files| ensures log.files[g].epoch < |log.epochs| {
      assert log.InRange(g);
    }
  }

  lemma RollNumbered(log: Log, id: SegId)
    requires Current(log) && log.files != [] && Numbered(log)
    ensures Numbered(WithRoll(log, id)) && NextNumber(WithRoll(log, id)) == NextNumber(log)
  {
    hide Epoch.Valid;
    hide Epoch.End;
    hide NumberedOn;
    hide Log.Valid;
    hide CountedOver;
    var other := WithRoll(log, id);
    EpochsOf(log);
    forall g: nat ensures CountedOver(other, g) {
      if g + 1 < |log.files| {
        assert CountedOver(log, g);
        StillCounted(log, other, g);
      } else if g + 1 == |log.files| {
        RollCounted(log, id);
      } else {
        NoLinkPast(other, g);
      }
    }
  }

  lemma RollCounted(log: Log, id: SegId)
    requires Current(log) && log.files != []
    ensures CountedOver(WithRoll(log, id), |log.files| - 1)
  {
    hide Epoch.Valid;
    hide Epoch.End;
    hide Log.Valid;
  }

  lemma ResumptionNumbered(log: Log, id: SegId)
    requires Current(log) && log.files != [] && Numbered(log)
    ensures Numbered(WithResumption(log, id)) && NextNumber(WithResumption(log, id)) == NextNumber(log)
  {
    hide Epoch.Valid;
    hide Epoch.End;
    hide NumberedOn;
    hide Log.Valid;
    hide CountedOver;
    var other := WithResumption(log, id);
    var ep := LastEpochOf(log);
    NumberedNone(ep.fmt, ep.dsize, ep.before + |ep.recs|, ep.minor);
    EpochsOf(log);
    forall g: nat ensures CountedOver(other, g) {
      if g + 1 < |log.files| {
        assert CountedOver(log, g);
        StillCounted(log, other, g);
      } else if g + 1 == |log.files| {
        ResumptionCounted(log, id);
      } else {
        NoLinkPast(other, g);
      }
    }
  }

  lemma ResumptionCounted(log: Log, id: SegId)
    requires Current(log) && log.files != []
    ensures CountedOver(WithResumption(log, id), |log.files| - 1)
  {
    hide Epoch.Valid;
    hide Epoch.End;
    hide Log.Valid;
  }

  lemma BytesNumbered(log: Log, k: nat)
    requires Current(log) && log.files != [] && Numbered(log)
    ensures Numbered(WithBytes(log, k)) && NextNumber(WithBytes(log, k)) == NextNumber(log)
  {
    hide Epoch.Valid;
    hide Epoch.End;
    hide NumberedOn;
    hide Log.Valid;
    hide CountedOver;
    var other := WithBytes(log, k);
    EpochsOf(log);
    forall g: nat ensures CountedOver(other, g) {
      if g + 1 < |log.files| {
        assert CountedOver(log, g);
        StillCounted(log, other, g);
      } else {
        NoLinkPast(other, g);
      }
    }
  }

  lemma RecordNumbered(log: Log, r: Record)
    requires Current(log) && log.epochs != [] && Numbered(log)
    requires LastEpochOf(log).fmt.VariableTsRc? ==> r.meta == MetaTsRc(TimeOf(r), NextNumber(log))
    ensures Numbered(WithRecord(log, r)) && NextNumber(WithRecord(log, r)) == NextNumber(log) + 1
  {
    hide Epoch.Valid;
    hide Epoch.End;
    hide Log.Valid;
    hide CountedOver;
    var other := WithRecord(log, r);
    EpochsOf(log);
    forall g: nat ensures CountedOver(other, g) {
      if g + 1 < |log.files| {
        assert CountedOver(log, g);
        ResumedLater(log, g);
        StillCounted(log, other, g);
      } else {
        NoLinkPast(other, g);
      }
    }
  }

  /** A resumption is out of an epoch that is not the last. */
  lemma ResumedLater(log: Log, g: nat)
    ensures log.Resumed(g) ==> log.files[g].epoch + 1 < |log.epochs|
  {
  }
}
