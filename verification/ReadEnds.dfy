/** What holds of the reader whatever the segment files contain: how much of a
    record it reads does not depend on the buffer, every run ends within a
    bound fixed by the directory, and its accounts balance. */
module ReadEnds {
  import opened Bytes
  import opened Format
  import opened ReadSpec

  /** One unfolding of `Fill`. */
  lemma FillUnfold(dir: Dir, st: State, cur: Cursor, n: nat)
    requires n > 0
    ensures Fill(dir, st, cur, n) ==
      if st.Exhausted() then
        var c := Cross(dir, st, cur);
        if c.fault.Some? then FillOut([], c.fault, c.st, c.cur) else Fill(dir, c.st, c.cur, n)
      else
        var seg := st.current.value;
        var take := Min(|seg.data| - seg.pos, n);
        var rest := Fill(dir, Advance(st, take), cur.(consumed := cur.consumed + take), n - take);
        rest.Prefixed(seg.data[seg.pos..seg.pos + take])
  {
    hide Cross;
  }

  ghost predicate Splits(dir: Dir, whole: FillOut, f: FillOut, b: nat) {
    if f.fault.Some? then whole == f
    else var rest := Fill(dir, f.st, f.cur, b); whole == rest.Prefixed(f.got)
  }

  lemma SplitsPrefixed(dir: Dir, whole: FillOut, f: FillOut, b: nat, front: seq<byte>)
    requires Splits(dir, whole, f, b)
    ensures Splits(dir, whole.Prefixed(front), f.Prefixed(front), b)
  {
    hide Fill;
    if f.fault.None? {
      var rest := Fill(dir, f.st, f.cur, b);
      assert front + (f.got + rest.got) == (front + f.got) + rest.got;
    }
  }

  /** Filling a then b bytes is filling a + b: a skip of what did not fit
      leaves the reader where a larger buffer would have. */
  lemma {:induction false} FillSplit(dir: Dir, st: State, cur: Cursor, a: nat, b: nat)
    ensures Splits(dir, Fill(dir, st, cur, a + b), Fill(dir, st, cur, a), b)
    decreases a, |st.pending|
  {
    hide Cross;
    hide Fill;
    FillZero(dir, st, cur);
    if a == 0 {
      var rest := Fill(dir, st, cur, b);
      assert [] + rest.got == rest.got;
    } else if st.Exhausted() {
      FillUnfold(dir, st, cur, a);
      FillUnfold(dir, st, cur, a + b);
      var c := Cross(dir, st, cur);
      if c.fault.None? { FillSplit(dir, c.st, c.cur, a, b); }
    } else {
      FillSplitWithin(dir, st, cur, a, b);
    }
  }

  lemma {:induction false} FillSplitWithin(dir: Dir, st: State, cur: Cursor, a: nat, b: nat)
    requires a > 0 && !st.Exhausted()
    ensures Splits(dir, Fill(dir, st, cur, a + b), Fill(dir, st, cur, a), b)
    decreases a, |st.pending|, 0
  {
    hide Cross;
    hide Fill;
    var seg := st.current.value;
    var take := Min(|seg.data| - seg.pos, a);
    var st1, cur1 := Advance(st, take), cur.(consumed := cur.consumed + take);
    FillTake(dir, st, cur, a, take);
    FillTake(dir, st, cur, a + b, take);
    FillSplit(dir, st1, cur1, a - take, b);
    SplitsPrefixed(dir, Fill(dir, st1, cur1, a + b - take), Fill(dir, st1, cur1, a - take), b,
                   seg.data[seg.pos..seg.pos + take]);
  }

  /** Filling may take the bytes at hand in as many steps as one likes. */
  lemma FillTake(dir: Dir, st: State, cur: Cursor, n: nat, take: nat)
    requires !st.Exhausted() && 0 < take <= Min(|st.current.value.data| - st.current.value.pos, n)
    ensures var seg := st.current.value;
            var rest := Fill(dir, Advance(st, take), cur.(consumed := cur.consumed + take), n - take);
            Fill(dir, st, cur, n) == rest.Prefixed(seg.data[seg.pos..seg.pos + take])
  {
    hide Cross;
    hide Fill;
    hide FillOut.Prefixed;
    var seg := st.current.value;
    var most := Min(|seg.data| - seg.pos, n);
    var more := most - take;
    var st1, cur1 := Advance(st, take), cur.(consumed := cur.consumed + take);
    FillUnfold(dir, st, cur, n);
    if more > 0 {
      FillUnfold(dir, st1, cur1, n - take);
      assert Advance(st1, more) == Advance(st, most);
      var rest := Fill(dir, Advance(st, most), cur.(consumed := cur.consumed + most), n - most);
      PrefixedTwice(seg.data[seg.pos..seg.pos + take], seg.data[seg.pos + take..seg.pos + most], rest);
      assert seg.data[seg.pos..seg.pos + most] ==
             seg.data[seg.pos..seg.pos + take] + seg.data[seg.pos + take..seg.pos + most];
    }
  }

  lemma PrefixedTwice(a: seq<byte>, b: seq<byte>, f: FillOut)
    ensures f.Prefixed(b).Prefixed(a) == f.Prefixed(a + b)
  {
    assert a + (b + f.got) == a + b + f.got;
  }

  lemma FillZero(dir: Dir, st: State, cur: Cursor)
    ensures Fill(dir, st, cur, 0) == FillOut([], None, st, cur)
  {
  }

  // ------------------------------------------------------------- soundness

  lemma OpenNextSound(dir: Dir, st: State)
    requires st.current.None?
    ensures var r := OpenNext(dir, st);
            && (r.0.Opened? <==> r.1.current.Some?) && r.1.resync == st.resync
            && (r.0.Opened? ==> Sound(dir, r.1.(resync := false)))
  {
  }

  /** The fields opening the next file sets, as later proofs need them. */
  lemma OpenNextForm(dir: Dir, st: State)
    ensures var t := Unusable(dir, st.pending);
            var r := OpenNext(dir, st);
            if t == |st.pending| then r == (NoMore, st.(pending := []))
            else
              var seg := OpenValidated(dir, st.pending[t]).value;
              if st.session.Some? && seg.header.sessionId != st.session.value then
                r == (NewSession, st.(pending := st.pending[t..], session := None, prevSeq := None, recovery := None))
              else
                && r.0 == Opened && r.1.pending == st.pending[t + 1..] && r.1.current == Some(seg)
                && r.1.recovery == st.recovery && r.1.resync == st.resync
                && r.1.session == Some(seg.header.sessionId)
                && r.1.startLost == (if st.session.None? then seg.header.sequence else st.startLost)
  {
  }

  lemma CrossSound(dir: Dir, st: State, cur: Cursor)
    ensures var c := Cross(dir, st, cur);
            c.st.resync == st.resync && Sound(dir, c.st.(resync := false))
  {
    hide OpenNext;
    OpenNextSound(dir, st.(current := None));
  }

  lemma {:induction false} FillSound(dir: Dir, st: State, cur: Cursor, n: nat)
    requires Sound(dir, st.(resync := false))
    ensures var f := Fill(dir, st, cur, n);
            f.st.resync == st.resync && Sound(dir, f.st.(resync := false))
    decreases n, |st.pending|
  {
    hide Cross;
    hide Fill;
    if n == 0 {
      FillZero(dir, st, cur);
    } else {
      FillUnfold(dir, st, cur, n);
      if st.Exhausted() {
        var c := Cross(dir, st, cur);
        CrossSound(dir, st, cur);
        if c.fault.None? { FillSound(dir, c.st, c.cur, n); }
      } else {
        var take := Min(|st.current.value.data| - st.current.value.pos, n);
        FillSound(dir, Advance(st, take), cur.(consumed := cur.consumed + take), n - take);
      }
    }
  }

  lemma ReadFromSound(dir: Dir, st: State, start: Start)
    requires Sound(dir, st) && st.current.Some?
    ensures Sound(dir, ReadFrom(dir, st, start).1)
  {
    hide Fill;
    hide Cross;
    hide OpenValidated;
    hide DecodeLen;
    hide DecodeMeta;
    var h := st.current.value.header;
    match start
    case Recovered(n) =>
      var len := h.format.DataHeaderLen();
      FillSound(dir, st.(lastMeta := MetaSimple), Cursor(len, Some(len + n), None), n);
    case Fresh =>
      var d := ReadDataHeader(dir, st, h.format, h.minor);
      FillSound(dir, st, FRESH_CURSOR, h.format.DataHeaderLenIn(h.minor));
      if d.fault.None? { FillSound(dir, d.st.(lastMeta := d.meta), d.cur, d.len); }
  }

  lemma ReadKeepsSound(dir: Dir, st: State)
    requires Sound(dir, st)
    ensures Sound(dir, Read(dir, st).1)
  {
    hide ReadFrom;
    hide FindRecordStart;
    if st.pending == [] && st.Exhausted() {
    } else if st.current.Some? {
      ReadFromSound(dir, st, Fresh);
    } else {
      var st0 := st.(resync := true);
      FindSound(dir, st0);
      match FindRecordStart(dir, st0)
      case Missing(_, _) =>
      case Found(start, st1) =>
        if st1.startLost == 0 { ReadFromSound(dir, st1.(resync := false), start); }
    }
  }

  // ---------------------------------------------------------- reading ends

  ghost function DataLenOf(dir: Dir, id: SegId): nat {
    if Usable(dir, id) then |OpenValidated(dir, id).value.data| else 0
  }

  /** The data bytes the listed files hold. */
  ghost function DataBytes(dir: Dir, ids: seq<SegId>): nat {
    if ids == [] then 0 else DataLenOf(dir, ids[0]) + DataBytes(dir, ids[1..])
  }

  /** What the reader can still spend: each read that is not the end of the
      log costs at least one. A listed file is worth its bytes and three more,
      for at worst the end of the record cut off before it, the session
      boundary, and the loss ahead of it. */
  ghost function Potential(dir: Dir, st: State): nat {
    DataBytes(dir, st.pending) + 3 * |st.pending|
    + (if st.current.Some? && st.current.value.pos <= |st.current.value.data|
       then 1 + |st.current.value.data| - st.current.value.pos else 0)
    + (if st.session.Some? then 1 else 0)
  }

  lemma {:induction false} DataBytesDrop(dir: Dir, ids: seq<SegId>, t: nat)
    requires t <= |ids|
    ensures DataBytes(dir, ids[t..]) <= DataBytes(dir, ids)
    ensures t < |ids| ==> DataBytes(dir, ids[t..]) == DataLenOf(dir, ids[t]) + DataBytes(dir, ids[t + 1..])
  {
    if t > 0 {
      DataBytesDrop(dir, ids[1..], t - 1);
      assert ids[1..][t - 1..] == ids[t..];
    } else {
      assert ids[0..] == ids;
    }
    if t < |ids| { assert ids[t..][1..] == ids[t + 1..]; }
  }

  lemma OpenNextPays(dir: Dir, st: State)
    requires st.current.None?
    ensures var r := OpenNext(dir, st);
            && Potential(dir, r.1) <= Potential(dir, st)
            && (!r.0.NoMore? ==> Potential(dir, r.1) < Potential(dir, st))
            && (r.0.NewSession? && st.session.Some? ==>
                  Potential(dir, r.1.(session := st.session)) <= Potential(dir, st))
            && (r.0.Opened? && st.session.Some? ==> Potential(dir, Reject(r.1)) <= Potential(dir, st))
  {
    hide OpenNext;
    hide OpenValidated;
    hide Unusable;
    OpenNextForm(dir, st);
    var t := Unusable(dir, st.pending);
    DataBytesDrop(dir, st.pending, t);
    if t == |st.pending| {
      NoBytesDropped(dir, st.pending);
    } else {
      var seg := OpenValidated(dir, st.pending[t]).value;
      SegmentLen(dir, st.pending[t]);
      BytesBack(dir, st.pending, t);
    }
  }

  lemma NoBytesDropped(dir: Dir, ids: seq<SegId>)
    ensures ids[|ids|..] == [] && DataBytes(dir, []) == 0
  {
  }

  lemma SegmentLen(dir: Dir, id: SegId)
    requires Usable(dir, id)
    ensures var seg := OpenValidated(dir, id).value; seg.id == id && seg.pos == 0 && DataLenOf(dir, id) == |seg.data|
  {
  }

  lemma BytesBack(dir: Dir, ids: seq<SegId>, t: nat)
    requires t < |ids|
    ensures DataBytes(dir, [ids[t]] + ids[t + 1..]) == DataBytes(dir, ids[t..])
  {
    assert [ids[t]] + ids[t + 1..] == ids[t..];
  }

  lemma CrossPays(dir: Dir, st: State, cur: Cursor)
    requires Sound(dir, st.(resync := false)) && st.current.Some?
    ensures var c := Cross(dir, st, cur);
            && Potential(dir, c.st) < Potential(dir, st)
            && Potential(dir, Reject(c.st)) < Potential(dir, st)
  {
    hide OpenNext;
    OpenNextPays(dir, st.(current := None));
  }

  lemma {:induction false} FillPays(dir: Dir, st: State, cur: Cursor, n: nat)
    requires Sound(dir, st.(resync := false)) && st.current.Some?
    ensures var f := Fill(dir, st, cur, n);
            && Potential(dir, f.st) + |f.got| <= Potential(dir, st)
            && (f.fault.Some? ==> Potential(dir, f.st) < Potential(dir, st))
            && ((f.cur.implied == cur.implied && Reject(f.st) == Reject(st))
                || Potential(dir, Reject(f.st)) < Potential(dir, st))
    decreases n, |st.pending|
  {
    hide Cross;
    hide Fill;
    hide OpenValidated;
    hide DataBytes;
    hide DataLenOf;
    if n == 0 {
      FillZero(dir, st, cur);
    } else {
      FillUnfold(dir, st, cur, n);
      if st.Exhausted() {
        var c := Cross(dir, st, cur);
        CrossSound(dir, st, cur);
        CrossPays(dir, st, cur);
        if c.fault.None? { FillPays(dir, c.st, c.cur, n); }
      } else {
        var take := Min(|st.current.value.data| - st.current.value.pos, n);
        FillPays(dir, Advance(st, take), cur.(consumed := cur.consumed + take), n - take);
      }
    }
  }

  lemma HeaderPays(dir: Dir, st: State, format: Format, minor: nat)
    requires Sound(dir, st) && st.current.Some? && format.Valid()
    ensures var d := ReadDataHeader(dir, st, format, minor);
            && (d.fault.Some? ==> Potential(dir, Lose(d.st)) < Potential(dir, st))
            && (d.fault.None? ==> Sound(dir, d.st.(resync := false)))
            && (d.fault.None? ==> Potential(dir, d.st) + (if format.Fixed? then 0 else 1) <= Potential(dir, st))
            && (format.Fixed? ==> d.fault.None? && d.len == format.n)
  {
    hide Fill;
    hide DataBytes;
    if !format.Fixed? {
      var len := format.DataHeaderLenIn(minor);
      var f := Fill(dir, st, FRESH_CURSOR, len);
      FillPays(dir, st, FRESH_CURSOR, len);
      FillSound(dir, st, FRESH_CURSOR, len);
      FillStops(dir, st, FRESH_CURSOR, len);
    }
  }

  lemma ReadFromPays(dir: Dir, st: State, start: Start)
    requires Sound(dir, st) && st.current.Some?
    ensures var r := ReadFrom(dir, st, start);
            && Potential(dir, r.1) <= Potential(dir, st)
            && (start.Fresh? ==> Potential(dir, r.1) < Potential(dir, st))
  {
    hide Fill;
    hide ReadDataHeader;
    hide DataBytes;
    var h := st.current.value.header;
    match start
    case Recovered(n) =>
      var len := h.format.DataHeaderLen();
      PayloadPays(dir, st, Cursor(len, Some(len + n), None), n, MetaSimple);
    case Fresh =>
      var d := ReadDataHeader(dir, st, h.format, h.minor);
      HeaderPays(dir, st, h.format, h.minor);
      if d.fault.None? { PayloadPays(dir, d.st, d.cur, d.len, d.meta); }
  }

  lemma PayloadPays(dir: Dir, st: State, cur: Cursor, want: nat, meta: Meta)
    requires Sound(dir, st.(resync := false)) && st.current.Some?
    ensures var r := ReadPayload(dir, st, cur, want, meta);
            && Potential(dir, r.1) <= Potential(dir, st)
            && (want > 0 ==> Potential(dir, r.1) < Potential(dir, st))
  {
    hide Fill;
    hide DataBytes;
    FillPays(dir, st.(lastMeta := meta), cur, want);
    FillStops(dir, st.(lastMeta := meta), cur, want);
  }

  lemma {:induction false} FindPays(dir: Dir, st: State)
    requires st.current.None?
    ensures var r := FindRecordStart(dir, st);
            && Potential(dir, r.st) <= Potential(dir, st)
            && (r.Found? || r.fault.SessionEnd? ==> Potential(dir, r.st) < Potential(dir, st))
            && (r.Missing? ==> r.st.current.None? && !r.fault.Truncated?)
            && (r.Missing? && r.fault.Eof? ==> r.st.pending == [])
    decreases |st.pending|
  {
    hide OpenNext;
    var (opening, st1) := OpenNext(dir, st.(recovery := None));
    OpenNextPays(dir, st.(recovery := None));
    OpenNextSound(dir, st.(recovery := None));
    OpenNextEmpties(dir, st.(recovery := None));
    if opening.Opened? { FindPays(dir, st1.(current := None)); }
  }

  lemma OpenNextEmpties(dir: Dir, st: State)
    ensures OpenNext(dir, st).0.NoMore? ==> OpenNext(dir, st).1.pending == []
  {
  }

  /** How many of n bytes the open file can supply. */
  ghost function Portion(st: State, n: nat): (take: nat)
    requires !st.Exhausted()
    ensures st.current.Some? && take == Min(|st.current.value.data| - st.current.value.pos, n)
    ensures n > 0 ==> 0 < take <= n && st.current.value.pos + take <= |st.current.value.data|
  {
    Min(|st.current.value.data| - st.current.value.pos, n)
  }

  /** Filling stops at a loss, or between sessions. */
  lemma {:induction false} FillStops(dir: Dir, st: State, cur: Cursor, n: nat)
    ensures var f := Fill(dir, st, cur, n);
            f.fault.Some? ==>
              f.st.current.None? && (f.fault.value.Truncated? || (f.fault.value.SessionEnd? && f.st.session.None?))
    decreases n, |st.pending|
  {
    hide *;
    if n == 0 {
      FillZero(dir, st, cur);
    } else {
      FillUnfold(dir, st, cur, n);
      if st.Exhausted() {
        var c := Cross(dir, st, cur);
        CrossStops(dir, st, cur);
        if c.fault.None? { FillStops(dir, c.st, c.cur, n); }
      } else {
        var take := Portion(st, n);
        var st1, cur1 := Advance(st, take), cur.(consumed := cur.consumed + take);
        FillStops(dir, st1, cur1, n - take);
        PrefixedStops(Fill(dir, st1, cur1, n - take),
                      st.current.value.data[st.current.value.pos..st.current.value.pos + take]);
      }
    }
  }

  lemma PrefixedStops(f: FillOut, bytes: seq<byte>)
    ensures f.Prefixed(bytes).fault == f.fault && f.Prefixed(bytes).st == f.st
  {
  }

  lemma CrossStops(dir: Dir, st: State, cur: Cursor)
    ensures var c := Cross(dir, st, cur);
            c.fault.Some? ==>
              c.st.current.None? && (c.fault.value.Truncated? || (c.fault.value.SessionEnd? && c.st.session.None?))
  {
    hide OpenValidated;
    hide Unusable;
  }

  lemma ReadFromNeverEof(dir: Dir, st: State, start: Start)
    requires st.current.Some? && st.current.value.header.Readable()
    ensures var att := ReadFrom(dir, st, start).0; att != Nothing(Eof) && (att.Payload? ==> att.cause != Some(Eof))
  {
    hide Fill;
    var h := st.current.value.header;
    match start
    case Recovered(n) =>
      var len := h.format.DataHeaderLen();
      FillStops(dir, st.(lastMeta := MetaSimple), Cursor(len, Some(len + n), None), n);
    case Fresh =>
      var d := ReadDataHeader(dir, st, h.format, h.minor);
      FillStops(dir, st, FRESH_CURSOR, h.format.DataHeaderLenIn(h.minor));
      if d.fault.None? { FillStops(dir, d.st.(lastMeta := d.meta), d.cur, d.len); }
  }

  /** Every read that does not report the end of the log spends potential, and
      one that does leaves a reader that will report it again. */
  lemma ReadPays(dir: Dir, st: State)
    requires Sound(dir, st)
    ensures var (att, st1) := Read(dir, st);
            && Sound(dir, st1)
            && (att != Nothing(Eof) ==> Potential(dir, st1) < Potential(dir, st))
            && (att == Nothing(Eof) ==> st1.pending == [] && st1.current.None?)
            && (att.Payload? ==> att.cause != Some(Eof))
  {
    hide ReadFrom;
    hide FindRecordStart;
    ReadKeepsSound(dir, st);
    if st.pending == [] && st.Exhausted() {
    } else if st.current.Some? {
      ReadFromPays(dir, st, Fresh);
      ReadFromNeverEof(dir, st, Fresh);
    } else {
      var st0 := st.(resync := true);
      FindSound(dir, st0);
      FindPays(dir, st0);
      match FindRecordStart(dir, st0)
      case Missing(_, _) =>
      case Found(start, st1) =>
        if st1.startLost == 0 {
          ReadFromPays(dir, st1.(resync := false), start);
          ReadFromNeverEof(dir, st1.(resync := false), start);
        }
    }
  }

  /** Everything a reader finds, read after read, until the end of the log. */
  ghost function Trace(dir: Dir, st: State): seq<Attempt>
    requires Sound(dir, st)
    decreases Potential(dir, st)
  {
    ReadPays(dir, st);
    var (att, st1) := Read(dir, st);
    if att == Nothing(Eof) then [] else [att] + Trace(dir, st1)
  }

  /** The reader after n reads. */
  ghost function After(dir: Dir, st: State, n: nat): (r: State)
    requires Sound(dir, st)
    ensures Sound(dir, r)
    decreases n
  {
    if n == 0 then st else ReadPays(dir, st); After(dir, Read(dir, st).1, n - 1)
  }

  lemma {:induction false} TraceBound(dir: Dir, st: State)
    requires Sound(dir, st)
    ensures |Trace(dir, st)| <= Potential(dir, st)
    decreases Potential(dir, st)
  {
    hide Read;
    hide Potential;
    ReadPays(dir, st);
    var (att, st1) := Read(dir, st);
    if att != Nothing(Eof) { TraceBound(dir, st1); }
  }

  lemma {:induction false} EofForGood(dir: Dir, st: State, n: nat)
    requires Sound(dir, st) && st.pending == [] && st.Exhausted()
    ensures Read(dir, After(dir, st, n)).0 == Nothing(Eof)
    decreases n
  {
    hide ReadFrom;
    hide FindRecordStart;
    if n > 0 { EofForGood(dir, Read(dir, st).1, n - 1); }
  }

  lemma {:induction false} TraceIsRun(dir: Dir, st: State, n: nat)
    requires Sound(dir, st)
    ensures var att := Read(dir, After(dir, st, n)).0;
            if n < |Trace(dir, st)| then att == Trace(dir, st)[n] && att != Nothing(Eof) else att == Nothing(Eof)
    decreases n
  {
    hide Read;
    hide Potential;
    ReadPays(dir, st);
    var (att, st1) := Read(dir, st);
    if n > 0 {
      if att == Nothing(Eof) { EofForGood(dir, st1, n - 1); } else { TraceIsRun(dir, st1, n - 1); }
    }
  }

  /** Reading ends: whatever the files contain and whatever buffers the caller
      brings, a fresh reader reports the end of the log after at most one read
      per data byte and three per file, not before it is done, and ever after. */
  lemma ReadingEnds(dir: Dir, ids: seq<SegId>, rooms: nat -> nat)
    ensures var st := Initial(ids, false);
            && |Trace(dir, st)| <= DataBytes(dir, ids) + 3 * |ids|
            && forall i: nat ::
                 Clip(Read(dir, After(dir, st, i)).0, rooms(i)) == Failed(Eof, []) <==> i >= |Trace(dir, st)|
  {
    hide Read;
    var st := Initial(ids, false);
    TraceBound(dir, st);
    forall i: nat
      ensures Clip(Read(dir, After(dir, st, i)).0, rooms(i)) == Failed(Eof, []) <==> i >= |Trace(dir, st)|
    {
      TraceIsRun(dir, st, i);
      ReadPays(dir, After(dir, st, i));
    }
  }
}
