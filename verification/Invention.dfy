/** The one damage that can make the reader hand over a record no one wrote: a
    write failed and yet filled its file, and the file opened after it is gone.
    The theorems on damaged logs ask that it is not (`World.ResumptionsHeld`);
    this is why. */
module Invention {
  import opened Bytes
  import opened Format
  import opened Header
  import opened ReadSpec
  import opened ReadEnds
  import opened Layout
  import opened Damage
  import opened Discrepancies

  const GIVEN_UP: Record := Record([7, 0], MetaSimple)
  const LAST: Record := Record([6, 8, 9], MetaSimple)
  const BROKEN: Epoch := Epoch(VariableSimple, 5, [GIVEN_UP])
  const RESUMED: Epoch := Epoch(VariableSimple, 5, [LAST], 1)

  /** The write of the first record failed one byte short, at the end of a file
      of five; the second, seven bytes long, fills the next file and ends in a
      third. */
  const ABANDONED: Log :=
    Log([BROKEN, RESUMED], [LFile(1, 1, 0, 0, 0, 5), LFile(2, 1, 1, 1, 0, 5), LFile(3, 1, 2, 1, 5, 2)])

  lemma Starts()
    ensures BROKEN.Valid() && BROKEN.Start(1) == 6 == BROKEN.End()
    ensures RESUMED.Valid() && RESUMED.Start(1) == 7 == RESUMED.End()
  {
    assert BROKEN.Start(0) == 0 && RESUMED.Start(0) == 0;
  }

  lemma LogValid()
    ensures ABANDONED.Valid() && ABANDONED.Resumed(0) && ABANDONED.SameEpoch(1)
  {
    Starts();
    assert ABANDONED.InRange(0) && ABANDONED.InRange(1) && ABANDONED.InRange(2);
    assert ABANDONED.Resumed(0) && ABANDONED.SameEpoch(1);
  }

  function HeaderA(): Header { Header(1, 1, 58, 0, VariableSimple, 0, VERSION_MINOR) }

  function HeaderC(): Header { Header(3, 1, 58, 2, VariableSimple, 2, VERSION_MINOR) }

  function DataA(): seq<byte> { DataHeader(VariableSimple, GIVEN_UP) + [7] }

  lemma Images()
    requires ABANDONED.Valid()
    ensures ABANDONED.Image(0) == ToBytes(HeaderA()) + DataA()
    ensures ABANDONED.Image(2) == ToBytes(HeaderC()) + [8, 9]
  {
    hide ToBytes;
    hide DataHeader;
    hide Log.Valid;
    Starts();
    RemainingsOf();
    RecordBytes(BROKEN, 0);
    RecordBytes(RESUMED, 0);
    var a, c := Encode(VariableSimple, GIVEN_UP), Encode(VariableSimple, LAST);
    assert BROKEN.Bytes()[0..6] == a && RESUMED.Bytes()[0..7] == c;
    assert BROKEN.Bytes()[0..5] == a[..5] == DataA();
    assert RESUMED.Bytes()[5..7] == c[5..7] == [8, 9];
  }

  lemma RemainingsOf()
    requires BROKEN.Start(1) == 6 == BROKEN.End() && RESUMED.Start(1) == 7 == RESUMED.End()
    requires BROKEN.Valid() && RESUMED.Valid()
    ensures BROKEN.Remaining(0) == 0 && RESUMED.Remaining(5) == 2
  {
    IndexOfStart(BROKEN, 0);
    IndexInside(RESUMED, 5, 0);
  }

  // ------------------------------------------------------------- what is left

  function Left(): Dir { map[1 := ToBytes(HeaderA()) + DataA(), 3 := ToBytes(HeaderC()) + [8, 9]] }

  lemma Opens(dir: Dir, h: Header, data: seq<byte>)
    requires h.segmentId in dir && dir[h.segmentId] == ToBytes(h) + data
    requires h.Readable() && HEADER_LEN + |data| <= h.maxSize
    ensures OpenValidated(dir, h.segmentId) == Some(Segment(h.segmentId, h, data, 0))
  {
    hide ToBytes;
    hide FromBytes;
    HeaderRoundTrip(h, []);
    assert ToBytes(h) + [] == ToBytes(h);
    var s := dir[h.segmentId];
    assert s[..HEADER_LEN] == ToBytes(h) && s[HEADER_LEN..] == data;
  }

  function SegmentA(pos: nat): Segment { Segment(1, HeaderA(), DataA(), pos) }

  function SegmentC(): Segment { Segment(3, HeaderC(), [8, 9], 0) }

  /** The reader in the first file, so many bytes on. */
  function InA(pos: nat): State {
    Admit(Initial([1, 3], false), [3], SegmentA(0)).(current := Some(SegmentA(pos)), resync := false)
  }

  /** The reader after the first record was given up: the third file handed back,
      and a hint that the one before it ended in a data header. */
  function GaveUp(): State {
    var st := InA(5).(current := None, lastMeta := MetaSimple);
    Lose(Reject(Admit(st, [], SegmentC()).(recovery := Some(Recovery(3, 1)))))
  }

  lemma HeadRead()
    ensures Opens1(Left())
    ensures ReadDataHeader(Left(), InA(0), VariableSimple, VERSION_MINOR) ==
      HeadOut(2, MetaSimple, None, InA(4), Cursor(4, Some(6), None))
  {
    hide ToBytes;
    hide FromBytes;
    hide DataHeader;
    hide DecodeLen;
    hide DecodeMeta;
    Opened();
    DataHeaderRoundTrip(VariableSimple, GIVEN_UP);
    FillUnfold(Left(), InA(0), FRESH_CURSOR, 4);
    FillZero(Left(), InA(4), FRESH_CURSOR.(consumed := 4));
    assert Advance(InA(0), 4) == InA(4);
    assert DataA()[0..4] + [] == DataHeader(VariableSimple, GIVEN_UP);
  }

  ghost predicate Opens1(dir: Dir) {
    OpenValidated(dir, 1) == Some(SegmentA(0)) && OpenValidated(dir, 3) == Some(SegmentC())
  }

  lemma Opened()
    ensures Opens1(Left())
  {
    hide ToBytes;
    hide FromBytes;
    hide DataHeader;
    Opens(Left(), HeaderA(), DataA());
    Opens(Left(), HeaderC(), [8, 9]);
  }

  /** What a read finds, and where it leaves the reader. */
  ghost predicate Finds(dir: Dir, st: State, att: Attempt, st1: State) {
    Sound(dir, st) && Read(dir, st) == (att, st1)
  }

  lemma FirstRead()
    ensures Finds(Left(), Initial([1, 3], false), Payload(2, MetaSimple, [7], Some(Truncated(1))), GaveUp())
  {
    hide OpenValidated;
    hide ToBytes;
    hide DataHeader;
    hide ReadDataHeader;
    hide OpenNext;
    hide FindRecordStart;
    hide Fill;
    hide Left;
    var dir, st := Left(), Initial([1, 3], false);
    HeadRead();
    FindFirst(dir, st.(resync := true), SegmentA(0));
    assert st.pending[1..] == [3];
    var cur := Cursor(4, Some(6), None);
    var st4 := InA(4).(lastMeta := MetaSimple);
    FillUnfold(dir, st4, cur, 2);
    assert Advance(st4, 1) == InA(5).(lastMeta := MetaSimple);
    FillUnfold(dir, InA(5).(lastMeta := MetaSimple), cur.(consumed := 5), 1);
    CrossedInto(dir);
    assert DataA()[4..5] + [] == [7];
  }

  lemma CrossedInto(dir: Dir)
    requires Opens1(dir)
    ensures var c := Cross(dir, InA(5).(lastMeta := MetaSimple), Cursor(5, Some(6), None));
            c.fault == Some(Truncated(1)) && Lose(c.st) == GaveUp()
  {
    hide OpenValidated;
    hide ToBytes;
    hide DataHeader;
  }

  lemma SecondRead() returns (st1: State)
    ensures Finds(Left(), GaveUp(), Payload(2, MetaSimple, [8, 9], None), st1)
  {
    hide OpenValidated;
    hide ToBytes;
    hide DataHeader;
    hide Fill;
    hide Left;
    var dir, st := Left(), GaveUp();
    Opened();
    var found := Admit(st.(recovery := None), [], SegmentC());
    assert FindRecordStart(dir, st) == Found(Recovered(2), found);
    var st2 := found.(resync := false, lastMeta := MetaSimple);
    FillUnfold(dir, st2, Cursor(4, Some(6), None), 2);
    FillZero(dir, Advance(st2, 2), Cursor(6, Some(6), None));
    assert [8, 9][0..2] + [] == [8, 9];
    st1 := Read(dir, st).1;
  }

  /** The second read returns, whole, a record that is not in the log: with the
      file in between gone, the arithmetic takes the end of one record for all of
      another. */
  ghost function Damaged(): World { World(ABANDONED, Left(), map[1 := 0, 3 := 2], [], true, 0) }

  /** It is the log with a file missing, and nothing else amiss. */
  lemma DamagedOnly()
    ensures Damaged().Removed()
  {
    hide Usable;
    hide Left;
    hide Log.Image;
    hide Log.Valid;
    LogValid();
    LeftOfLog();
    var w := Damaged();
    assert w.dir.Keys == {1, 3} == w.at.Keys;
    forall id | id in w.dir
      ensures w.at[id] < 3 && w.log.files[w.at[id]].id == id && w.dir[id] <= w.log.Image(w.at[id])
      ensures w.log.files[w.at[id]].session == 1 && w.log.Base(w.at[id]) == 0
    {
      assert id == 1 || id == 3;
    }
  }

  lemma LeftOfLog()
    requires ABANDONED.Valid()
    ensures Left().Keys == {1, 3} && Left()[1] == ABANDONED.Image(0) && Left()[3] == ABANDONED.Image(2)
  {
    hide ToBytes;
    hide DataHeader;
    hide Log.Image;
    hide Log.Valid;
    Images();
  }

  lemma DamagedUnfairly()
    ensures Damaged().Countable() && !Damaged().ResumptionsHeld()
  {
    hide OpenValidated;
    hide ToBytes;
    hide DataHeader;
    hide Log.Image;
    hide Log.Valid;
    LogValid();
    Opened();
    assert Damaged().FullSimple(0) && !Damaged().Survives(1);
  }

  lemma NoSuchRecord()
    ensures forall p :: Damaged().IsPlace(p) ==> Damaged().RecordAt(p).payload != [8, 9]
  {
    assert GIVEN_UP.payload != [8, 9] && LAST.payload != [8, 9];
  }

  /** The second read returns, whole, a record that is not in the log: with the
      file in between gone, the arithmetic takes the end of one record for all of
      another. */
  lemma RecordInvented() returns (st1: State)
    ensures var w := Damaged();
            && w.Removed() && w.Countable() && !w.ResumptionsHeld()
            && (forall p :: w.IsPlace(p) ==> w.RecordAt(p).payload != [8, 9])
            && Finds(w.dir, Initial([1, 3], false), Payload(2, MetaSimple, [7], Some(Truncated(1))), GaveUp())
            && Finds(w.dir, GaveUp(), Payload(2, MetaSimple, [8, 9], None), st1)
  {
    hide Finds;
    hide World.Removed;
    hide World.ResumptionsHeld;
    DamagedOnly();
    DamagedUnfairly();
    NoSuchRecord();
    FirstRead();
    st1 := SecondRead();
  }
}
