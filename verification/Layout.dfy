/** The log a writer leaves: records encoded into a byte stream, the stream cut
    into data sections of one size, and the header each file is stamped with
    (tcslog/src/write.rs).

    An epoch is a stretch of a session written without a fault: its files hold
    one stream. A write error abandons the file it struck and opens a new epoch
    of the same session, whose first file starts on a fresh record; a session
    written without faults is one epoch. */
module Layout {
  import opened Bytes
  import opened Format
  import opened Header
  import opened ReadSpec

  // ------------------------------------------------------------ the stream

  function Encode(f: Format, r: Record, minor: nat := VERSION_MINOR): (s: seq<byte>)
    requires ValidRecord(f, r, minor)
    ensures |s| == f.DataHeaderLenIn(minor) + |r.payload|
  {
    DataHeader(f, r, minor) + r.payload
  }

  ghost predicate AllValid(f: Format, minor: nat, recs: seq<Record>) {
    forall i :: 0 <= i < |recs| ==> ValidRecord(f, recs[i], minor)
  }

  ghost function Stream(f: Format, minor: nat, recs: seq<Record>): seq<byte>
    requires AllValid(f, minor, recs)
  {
    if recs == [] then [] else Stream(f, minor, recs[..|recs| - 1]) + Encode(f, recs[|recs| - 1], minor)
  }

  /** One epoch: every record it attempted, the last perhaps only in part, how
      many records its session counts before them, and the minor version of the
      format it is written in. */
  datatype Epoch =
    Epoch(fmt: Format, dsize: nat, recs: seq<Record>, before: nat := 0, minor: nat := VERSION_MINOR)
  {
    ghost predicate Valid() {
      && fmt.Valid() && minor <= VERSION_MINOR && AllValid(fmt, minor, recs)
      && Head() < dsize && HEADER_LEN + dsize < U32_LIMIT
    }

    function Head(): nat { fmt.DataHeaderLenIn(minor) }

    /** The stream offset at which record j starts. */
    function Start(j: nat): nat
      requires j <= |recs|
    {
      if j == 0 then 0 else Start(j - 1) + Head() + |recs[j - 1].payload|
    }

    function End(): nat { Start(|recs|) }

    /** The first record starting at or after offset o. */
    function IndexFrom(j: nat, o: nat): (i: nat)
      requires j <= |recs| && o <= End()
      ensures j <= i <= |recs| && Start(i) >= o && forall k :: j <= k < i ==> Start(k) < o
      decreases |recs| - j
    {
      if Start(j) >= o then j else IndexFrom(j + 1, o)
    }

    function IndexAt(o: nat): (i: nat)
      requires o <= End()
      ensures i <= |recs| && Start(i) >= o && forall k :: 0 <= k < i ==> Start(k) < o
    {
      IndexFrom(0, o)
    }

    /** What a file starting at offset o declares as `remaining`: the bytes up
        to the next record boundary. */
    function Remaining(o: nat): nat
      requires o <= End()
    {
      Start(IndexAt(o)) - o
    }

    ghost function Bytes(): seq<byte>
      requires Valid()
    {
      Stream(fmt, minor, recs)
    }
  }

  /** The two encode records the same way. */
  predicate CodedAlike(a: Epoch, b: Epoch) { a.fmt == b.fmt && a.minor == b.minor }

  lemma {:induction false} StartGrows(ep: Epoch, i: nat, j: nat)
    requires i <= j <= |ep.recs|
    ensures ep.Start(i) <= ep.Start(j)
    ensures ep.Valid() && i < j ==> ep.Start(i) < ep.Start(j)
    decreases j
  {
    if i < j { StartGrows(ep, i, j - 1); }
  }

  lemma {:induction false} StreamLength(ep: Epoch)
    requires AllValid(ep.fmt, ep.minor, ep.recs)
    ensures |Stream(ep.fmt, ep.minor, ep.recs)| == ep.End()
    decreases |ep.recs|
  {
    if ep.recs != [] {
      var front := ep.recs[..|ep.recs| - 1];
      StreamLength(ep.(recs := front));
      StartPrefix(ep, |front|, |front|);
    }
  }

  /** Record starts depend only on the records before. */
  lemma {:induction false} StartPrefix(ep: Epoch, n: nat, j: nat)
    requires j <= n <= |ep.recs|
    ensures ep.(recs := ep.recs[..n]).Start(j) == ep.Start(j)
    decreases j
  {
    if j > 0 { StartPrefix(ep, n, j - 1); }
  }

  lemma {:induction false} StreamPrefix(f: Format, minor: nat, recs: seq<Record>, n: nat)
    requires AllValid(f, minor, recs) && n <= |recs|
    ensures Stream(f, minor, recs[..n]) <= Stream(f, minor, recs)
    decreases |recs|
  {
    if n < |recs| {
      var front := recs[..|recs| - 1];
      StreamPrefix(f, minor, front, n);
      assert front[..n] == recs[..n];
    } else {
      assert recs[..n] == recs;
    }
  }

  lemma Middle(whole: seq<byte>, s: seq<byte>, t: seq<byte>)
    requires s + t <= whole
    ensures whole[|s|..|s| + |t|] == t
  {
    assert whole[..|s| + |t|] == s + t;
  }

  /** The first j records' encodings end where record j starts. */
  lemma PrefixLength(ep: Epoch, j: nat)
    requires ep.Valid() && j <= |ep.recs|
    ensures |Stream(ep.fmt, ep.minor, ep.recs[..j])| == ep.Start(j)
  {
    StreamLength(ep.(recs := ep.recs[..j]));
    StartPrefix(ep, j, j);
  }

  lemma StreamOneMore(ep: Epoch, j: nat)
    requires ep.Valid() && j < |ep.recs|
    ensures Stream(ep.fmt, ep.minor, ep.recs[..j + 1])
            == Stream(ep.fmt, ep.minor, ep.recs[..j]) + Encode(ep.fmt, ep.recs[j], ep.minor)
  {
    var upto := ep.recs[..j + 1];
    assert upto[..|upto| - 1] == ep.recs[..j] && upto[|upto| - 1] == ep.recs[j];
  }

  /** The bytes of record j are its encoding. */
  lemma RecordBytes(ep: Epoch, j: nat)
    requires ep.Valid() && j < |ep.recs|
    ensures ep.Start(j) <= ep.Start(j + 1) <= ep.End() == |ep.Bytes()|
    ensures ep.Bytes()[ep.Start(j)..ep.Start(j + 1)] == Encode(ep.fmt, ep.recs[j], ep.minor)
  {
    hide Encode;
    hide Stream;
    hide Epoch.Start;
    PrefixLength(ep, j);
    PrefixLength(ep, j + 1);
    PrefixLength(ep, |ep.recs|);
    assert ep.recs[..|ep.recs|] == ep.recs;
    StreamPrefix(ep.fmt, ep.minor, ep.recs, j + 1);
    StreamOneMore(ep, j);
    Middle(ep.Bytes(), Stream(ep.fmt, ep.minor, ep.recs[..j]), Encode(ep.fmt, ep.recs[j], ep.minor));
  }

  /** Between two records' starts nothing else starts. */
  lemma IndexInside(ep: Epoch, o: nat, j: nat)
    requires j < |ep.recs| && ep.Start(j) < o <= ep.Start(j + 1)
    requires o <= ep.End()
    ensures ep.IndexAt(o) == j + 1
  {
    var i := ep.IndexAt(o);
    if i <= j { StartGrows(ep, i, j); }
  }

  lemma IndexOfStart(ep: Epoch, j: nat)
    requires ep.Valid() && j <= |ep.recs|
    ensures ep.Start(j) <= ep.End() && ep.IndexAt(ep.Start(j)) == j
  {
    StartGrows(ep, j, |ep.recs|);
    var i := ep.IndexAt(ep.Start(j));
    if i < j { StartGrows(ep, i, j); }
  }

  lemma RemainingSmall(ep: Epoch, o: nat)
    requires ep.Valid() && o <= ep.End()
    ensures ep.Remaining(o) < U32_LIMIT
  {
    var i := ep.IndexAt(o);
    if i > 0 {
      assert ep.Start(i - 1) < o;
      assert ValidRecord(ep.fmt, ep.recs[i - 1], ep.minor);
    }
  }

  /** Writing more records changes neither the starts nor the `remaining` of
      what is already there. */
  lemma {:induction false} StartAppend(ep: Epoch, r: Record, j: nat)
    requires j <= |ep.recs|
    ensures ep.(recs := ep.recs + [r]).Start(j) == ep.Start(j)
  {
    var more := ep.(recs := ep.recs + [r]);
    StartPrefix(more, |ep.recs|, j);
    assert more.recs[..|ep.recs|] == ep.recs;
  }

  lemma RemainingAppend(ep: Epoch, r: Record, o: nat)
    requires o <= ep.End()
    ensures var more := ep.(recs := ep.recs + [r]);
            && more.End() == ep.End() + ep.Head() + |r.payload|
            && more.Remaining(o) == ep.Remaining(o)
  {
    var more := ep.(recs := ep.recs + [r]);
    StartAppend(ep, r, |ep.recs|);
    var i, k := ep.IndexAt(o), more.IndexAt(o);
    StartAppend(ep, r, i);
    if k <= |ep.recs| { StartAppend(ep, r, k); }
  }

  lemma StreamAppend(ep: Epoch, r: Record)
    requires ep.Valid() && ValidRecord(ep.fmt, r, ep.minor)
    ensures var more := ep.(recs := ep.recs + [r]);
            more.Valid() && more.Bytes() == ep.Bytes() + Encode(ep.fmt, r, ep.minor) && |ep.Bytes()| == ep.End()
  {
    var more := ep.recs + [r];
    assert more[..|more| - 1] == ep.recs;
    StreamLength(ep);
  }

  // --------------------------------------------------------------- the log

  /** One file of the log: which session and epoch it belongs to, its place in
      the session, the stream offset its data starts at, and its data length. */
  datatype LFile = LFile(id: SegId, session: SegId, ordinal: nat, epoch: nat, start: nat, len: nat)

  datatype Log = Log(epochs: seq<Epoch>, files: seq<LFile>) {

    ghost predicate InRange(g: nat) {
      && g < |files|
      && files[g].epoch < |epochs|
      && files[g].start + files[g].len <= epochs[files[g].epoch].End()
    }

    /** A continues B's epoch, or opens the next epoch of its session, or opens
        the next session. */
    ghost predicate SameEpoch(g: nat) {
      && InRange(g) && InRange(g + 1)
      && var a, b := files[g], files[g + 1];
         && b.epoch == a.epoch && b.ordinal == a.ordinal + 1
         && a.len == epochs[a.epoch].dsize && b.start == a.start + a.len
    }

    ghost predicate Resumed(g: nat) {
      && InRange(g) && InRange(g + 1)
      && var a, b := files[g], files[g + 1];
         && b.epoch == a.epoch + 1 && b.ordinal == a.ordinal + 1 && b.start == 0
         && CodedAlike(epochs[b.epoch], epochs[a.epoch]) && epochs[b.epoch].dsize == epochs[a.epoch].dsize
    }

    /** Some write was abandoned part way and the session carried on. */
    ghost predicate WriteAbandoned() { exists g: nat :: Resumed(g) }

    ghost predicate NewSession(g: nat) {
      && InRange(g) && InRange(g + 1)
      && var a, b := files[g], files[g + 1];
         b.epoch == a.epoch + 1 && b.ordinal == 0 && b.start == 0
    }

    ghost predicate Valid() {
      && (forall e :: 0 <= e < |epochs| ==> epochs[e].Valid())
      && (forall g :: 0 <= g < |files| ==>
            && InRange(g)
            && files[g].len <= epochs[files[g].epoch].dsize
            && files[g].ordinal <= g && files[g].session == files[g - files[g].ordinal].id)
      && (forall g :: 0 <= g < |files| - 1 ==> SameEpoch(g) || Resumed(g) || NewSession(g))
      && (files != [] ==> files[0].epoch == 0 && files[0].start == 0)
    }

    /** The sequence field a file carries: its place in the session, in 64 bits
        that saturate. */
    function SeqField(g: nat): u64
      requires g < |files|
    {
      if files[g].ordinal < U64_LIMIT then files[g].ordinal else U64_LIMIT - 1
    }

    ghost function HeaderOf(g: nat): Header
      requires Valid() && g < |files|
    {
      assert InRange(g);
      var f := files[g];
      var ep := epochs[f.epoch];
      RemainingSmall(ep, f.start);
      Header(f.id, f.session, HEADER_LEN + ep.dsize, ep.Remaining(f.start), ep.fmt, SeqField(g), ep.minor)
    }

    ghost function DataOf(g: nat): (s: seq<byte>)
      requires Valid() && g < |files|
      ensures |s| == files[g].len
    {
      assert InRange(g);
      var f := files[g];
      StreamLength(epochs[f.epoch]);
      epochs[f.epoch].Bytes()[f.start..f.start + f.len]
    }

    /** The whole file as written. */
    ghost function Image(g: nat): seq<byte>
      requires Valid() && g < |files|
    {
      ToBytes(HeaderOf(g)) + DataOf(g)
    }

    /** Where the session of file g begins. */
    function Base(g: nat): int
      requires g < |files|
    {
      g - files[g].ordinal
    }
  }

  /** Files of one epoch lie one after another, all but the last full; later
      files belong to the same or a later epoch, and to the same or a later
      session. */
  lemma {:induction false} FilesOrdered(log: Log, g: nat, h: nat)
    requires log.Valid() && g < h < |log.files|
    ensures log.InRange(g) && log.InRange(h)
    ensures log.files[g].epoch <= log.files[h].epoch
    ensures log.Base(g) <= log.Base(h)
    ensures log.files[h].epoch == log.files[g].epoch ==>
              && log.files[g].len == log.epochs[log.files[g].epoch].dsize
              && log.files[g].start + log.files[g].len <= log.files[h].start
              && log.Base(g) == log.Base(h)
    ensures log.Base(h) == log.Base(g) ==> CodedAlike(log.epochs[log.files[h].epoch], log.epochs[log.files[g].epoch])
    decreases h - g
  {
    assert log.InRange(g) && log.InRange(g + 1);
    assert log.SameEpoch(g) || log.Resumed(g) || log.NewSession(g);
    if g + 1 < h { FilesOrdered(log, g + 1, h); }
  }

  /** File g is the last of its epoch. */
  ghost predicate LastOfEpoch(log: Log, g: nat) {
    g < |log.files| && (g + 1 == |log.files| || log.files[g + 1].epoch != log.files[g].epoch)
  }

  /** Every record was written out, no write was abandoned, and only a session
      without records has a file without data. */
  ghost predicate Finished(log: Log) {
    && log.Valid() && !log.WriteAbandoned()
    && (forall g: nat :: LastOfEpoch(log, g) ==>
          log.InRange(g) && log.files[g].start + log.files[g].len == log.epochs[log.files[g].epoch].End())
    && (forall g: nat :: g < |log.files| && log.files[g].len == 0 ==> log.files[g].start == 0)
    && (if log.epochs == [] then log.files == []
        else log.files != [] && log.files[|log.files| - 1].epoch == |log.epochs| - 1)
  }
}
