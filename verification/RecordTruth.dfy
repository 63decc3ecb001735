/** Reading one record of a damaged log: what is delivered is the record, or
    the front of it (tcslog/src/read.rs). */
module RecordTruth {
  import opened Bytes
  import opened Format
  import opened Header
  import opened ReadSpec
  import opened Layout
  import opened Damage
  import opened Standing
  import opened Filling

  // ------------------------------------------------------ one whole record

  /** What was delivered is the record's payload, or the front of it, with the
      record's own length and metadata. */
  ghost predicate Matches(r: Record, att: Attempt) {
    && att.Payload? && att.want == |r.payload| && att.meta == r.meta
    && att.got <= r.payload && (att.Whole() ==> att.got == r.payload)
  }

  /** An attempt that tells of a record: only a fixed-length one of which no
      byte could be read leaves open whether there was a record at all. */
  predicate Tells(att: Attempt) {
    att.Payload? && (att.cause.None? || att.got != [] || !att.meta.MetaFixed?)
  }

  /** The reader stands, in file g, with lb the least place it can yield next. */
  ghost predicate Stands(w: World, st: State, g: int, lb: Place) {
    ReadingAt(w, st, g, lb) || Resting(w, st, g, lb)
  }

  /** What one read comes to. */
  ghost predicate Told(w: World, st: State, g: int, lb: Place, att: Attempt, st1: State, g1: int, rec: Place,
                       lb1: Place) {
    && Stands(w, st1, g1, lb1) && Le(lb, lb1)
    && (Tells(att) ==>
          && w.IsPlace(rec) && Le(lb, rec) && lb1 == Place(rec.e, rec.j + 1)
          && Matches(w.RecordAt(rec), att)
          && (st.current.Some? && rec != lb ==> w.log.WriteAbandoned()))
    && (forall p :: Ahead(w, st, g, p) && w.RecordSurvives(p) ==>
          (att.Whole() && p == rec) || Ahead(w, st1, g1, p))
    && (att.Whole() <==> ReadingAt(w, st1, g1, lb1) && att.Payload?)
    && (att.Whole() ==> Supported(w, rec))
    && (Calm(w) && st.current.None? && st.session.None? && att.Whole() ==> rec.j == 0)
  }

  /** No write was abandoned, and every file that is there is whole. */
  ghost predicate Calm(w: World) {
    && !w.log.WriteAbandoned()
    && forall g: nat :: g < |w.log.files| && w.Survives(g) ==> |w.Left(g)| == w.log.files[g].len
  }

  /** All of the record is still there, or all but a data header that was lost
      with a file, whose successor starts with the payload. */
  ghost predicate Supported(w: World, p: Place) { w.RecordSurvives(p) || HeaderLost(w, p) }

  ghost predicate HeaderLost(w: World, p: Place) {
    && w.IsPlace(p)
    && var ep := w.log.epochs[p.e];
       var o := ep.Start(p.j) + ep.Head();
       && ep.fmt == VariableSimple && o < ep.Start(p.j + 1) && Held(w, p.e, o, ep.Start(p.j + 1))
       && exists g: nat :: w.Survives(g) && w.log.files[g].epoch == p.e && w.log.files[g].start == o
  }

  lemma HeldInParts(w: World, p: Place, m: nat)
    requires w.IsPlace(p) && Held(w, p.e, w.log.epochs[p.e].Start(p.j), m)
    requires Held(w, p.e, m, w.log.epochs[p.e].Start(p.j + 1))
    ensures w.RecordSurvives(p)
  {
    hide World.ByteSurvives;
  }

  /** Neither flag bears on where the reader stands. */
  lemma FlagsApart(w: World, st: State, g: int, lb: Place, meta: Meta)
    ensures ReadingAt(w, st.(lastMeta := meta), g, lb) <==> ReadingAt(w, st, g, lb)
    ensures Resting(w, st.(lastMeta := meta), g, lb) <==> Resting(w, st, g, lb)
    ensures st.current.None? ==> (Resting(w, Lose(st), g, lb) <==> Resting(w, st, g, lb))
    ensures forall p :: Ahead(w, st.(lastMeta := meta), g, p) <==> Ahead(w, st, g, p)
    ensures st.current.None? ==> forall p :: Ahead(w, Lose(st), g, p) <==> Ahead(w, st, g, p)
  {
    hide PendingAfter;
    hide Bounded;
    hide OpenValidated;
  }

  /** After a whole record the reader stands at the next one. */
  lemma RecordDone(w: World, st: State, cur: Cursor, g: nat, rec: Place)
    requires w.Valid() && w.IsPlace(rec)
    requires FilledTo(w, g, rec.e, rec.j, w.log.epochs[rec.e].Start(rec.j + 1), st, cur)
    ensures ReadingAt(w, st, g, Place(rec.e, rec.j + 1))
    ensures forall p :: Le(rec, p) && w.IsPlace(p) && p != rec ==> Ahead(w, st, g, p)
  {
    hide World.Removed;
    hide World.ResumptionsHeld;
    hide PendingAfter;
    hide Sound;
    LogOf(w);
    forall p | Le(rec, p) && w.IsPlace(p) && p != rec
      ensures Ahead(w, st, g, p)
    {
      if p.e == rec.e { StartGrows(w.log.epochs[p.e], rec.j + 1, p.j); }
    }
  }

  /** The front of a record's bytes, header and payload. */
  lemma FrontOfRecord(ep: Epoch, j: nat, n: nat, got: seq<byte>)
    requires ep.Valid() && j < |ep.recs| && n <= ep.Start(j + 1) - ep.Start(j)
    requires StreamBytes(ep, ep.Start(j) + n, got) && |got| <= ep.Start(j + 1) - ep.Start(j) - n
    ensures got == Encode(ep.fmt, ep.recs[j], ep.minor)[n..n + |got|]
  {
    hide Stream;
    hide DataHeader;
    RecordBytes(ep, j);
    var s, a, b := ep.Bytes(), ep.Start(j), ep.Start(j + 1);
    var code := s[a..b];
    forall i | 0 <= i < |got| ensures got[i] == code[n + i] {
      assert got[i] == s[a + n + i];
    }
    assert got == code[n..n + |got|];
  }

  lemma PayloadFront(ep: Epoch, j: nat, got: seq<byte>)
    requires ep.Valid() && j < |ep.recs|
    requires StreamBytes(ep, ep.Start(j) + ep.Head(), got) && |got| <= |ep.recs[j].payload|
    ensures got <= ep.recs[j].payload
  {
    hide StreamBytes;
    hide DataHeader;
    assert ValidRecord(ep.fmt, ep.recs[j], ep.minor);
    FrontOfRecord(ep, j, ep.Head(), got);
    var r := Encode(ep.fmt, ep.recs[j], ep.minor);
    assert r[ep.Head()..] == ep.recs[j].payload;
    assert got == r[ep.Head()..][..|got|];
  }

  lemma HeaderFront(ep: Epoch, j: nat, got: seq<byte>)
    requires ep.Valid() && j < |ep.recs|
    requires StreamBytes(ep, ep.Start(j), got) && |got| == ep.Head()
    ensures got == DataHeader(ep.fmt, ep.recs[j], ep.minor)
  {
    hide DataHeader;
    hide StreamBytes;
    assert ValidRecord(ep.fmt, ep.recs[j], ep.minor);
    assert ep.Start(j) + 0 == ep.Start(j);
    FrontOfRecord(ep, j, 0, got);
  }

  /** Reading the payload of record rec, from its first byte. */
  lemma PayloadTruth(w: World, st: State, cur: Cursor, g: nat, rec: Place, meta: Meta) returns (g1: nat)
    requires w.Valid() && w.IsPlace(rec) && meta == w.RecordAt(rec).meta
    requires var ep := w.log.epochs[rec.e];
             FilledTo(w, g, rec.e, rec.j, ep.Start(rec.j) + ep.Head(), st, cur) && cur.total.Some? && ep.Head() > 0
    ensures var (att, st1) := ReadPayload(w.dir, st, cur, |w.RecordAt(rec).payload|, meta);
            && Matches(w.RecordAt(rec), att)
            && (if att.Whole() then ReadingAt(w, st1, g1, Place(rec.e, rec.j + 1))
                else Resting(w, st1, g1, Place(rec.e, rec.j + 1)))
            && (w.RecordSurvives(rec) ==> att.Whole())
            && (att.Whole() ==> Held(w, rec.e, w.log.epochs[rec.e].Start(rec.j) + w.log.epochs[rec.e].Head(),
                                     w.log.epochs[rec.e].Start(rec.j + 1)))
            && forall p :: Le(rec, p) && w.RecordSurvives(p) ==> (att.Whole() && p == rec) || Ahead(w, st1, g1, p)
  {
    hide Fill;
    hide World.Valid;
    hide World.RecordSurvives;
    hide ReadingAt;
    hide Resting;
    hide Ahead;
    hide FilledTo;
    hide StoppedAt;
    hide StreamBytes;
    hide Held;
    var ep := w.log.epochs[rec.e];
    var want := |w.RecordAt(rec).payload|;
    var o := ep.Start(rec.j) + ep.Head();
    var st0 := st.(lastMeta := meta);
    LogOf(w);
    MetaApart(w, st, cur, g, rec, o, meta);
    g1 := FillIn(w, st0, cur, want, g, rec.e, rec.j, o);
    var f := Fill(w.dir, st0, cur, want);
    PayloadFront(ep, rec.j, f.got);
    forall p | Le(rec, p) && w.RecordSurvives(p)
      ensures (f.fault.None? && p == rec) || Ahead(w, if f.fault.None? then f.st else Lose(f.st), g1, p)
    {
      PlaceOf(w, p);
      if f.fault.None? {
        RecordDone(w, f.st, f.cur, g1, rec);
      } else {
        AheadOfStop(w, g1, rec, o, want, f, p);
        FlagsApart(w, f.st, g1, p, meta);
        StopRests(w, g1, rec.e, rec.j, o + |f.got|, f.st);
      }
    }
    if f.fault.None? {
      RecordDone(w, f.st, f.cur, g1, rec);
    } else {
      StopRests(w, g1, rec.e, rec.j, o + |f.got|, f.st);
      FlagsApart(w, f.st, g1, Place(rec.e, rec.j + 1), meta);
    }
  }

  lemma PlaceOf(w: World, p: Place)
    requires w.RecordSurvives(p)
    ensures w.IsPlace(p)
  {
  }

  lemma StopRests(w: World, g: nat, e: nat, j: nat, o: nat, st: State)
    requires StoppedAt(w, g, e, j, o, st)
    ensures Resting(w, st, g, Place(e, j + 1)) && st.current.None?
  {
  }

  lemma MetaApart(w: World, st: State, cur: Cursor, g: nat, rec: Place, o: nat, meta: Meta)
    requires w.Valid() && w.IsPlace(rec) && FilledTo(w, g, rec.e, rec.j, o, st, cur) && cur.total.Some?
    requires o == w.log.epochs[rec.e].Start(rec.j) + w.log.epochs[rec.e].Head() && w.log.epochs[rec.e].Head() > 0
    ensures FilledTo(w, g, rec.e, rec.j, o, st.(lastMeta := meta), cur)
    ensures Asked(w, rec.e, rec.j, o, |w.RecordAt(rec).payload|, st.(lastMeta := meta), cur)
  {
    hide World.Valid;
    hide PendingAfter;
    hide OpenValidated;
  }

  // ---------------------------------------------------------- one read

  lemma OpenHeader(w: World, st: State, g: nat, lb: Place)
    requires w.Valid() && ReadingAt(w, st, g, lb)
    ensures st.current.Some? && lb.e < |w.log.epochs| && w.log.epochs[lb.e].Valid()
    ensures var h := st.current.value.header;
            h.Readable() && h.format == w.log.epochs[lb.e].fmt && h.minor == w.log.epochs[lb.e].minor
  {
    hide World.Removed;
    hide PendingAfter;
    FileFacts(w, st, g);
    LogOf(w);
  }

  /** A data header read whole says what the writer put in it. */
  lemma HeaderSettles(w: World, rec: Place, g: nat, f: FillOut)
    requires w.Valid() && w.IsPlace(rec) && f.fault.None?
    requires var ep := w.log.epochs[rec.e];
             && !ep.fmt.Fixed? && |f.got| == ep.Head()
             && StreamBytes(ep, ep.Start(rec.j), f.got)
             && FilledTo(w, g, rec.e, rec.j, ep.Start(rec.j) + ep.Head(), f.st, f.cur)
    ensures var ep := w.log.epochs[rec.e];
            var r := w.RecordAt(rec);
            && DecodeLen(ep.fmt, f.got) == |r.payload| && DecodeMeta(ep.fmt, f.got) == r.meta
            && (f.cur.implied.Some? ==> f.cur.implied.value == |r.payload|)
            && FilledTo(w, g, rec.e, rec.j, ep.Start(rec.j) + ep.Head(), f.st,
                        f.cur.(total := Some(ep.Head() + |r.payload|)))
  {
    hide AtOffset;
    hide DecodeLen;
    hide DecodeMeta;
    hide DataHeader;
    hide StreamBytes;
    hide World.Removed;
    var ep := w.log.epochs[rec.e];
    LogOf(w);
    assert ValidRecord(ep.fmt, w.RecordAt(rec), ep.minor);
    HeaderFront(ep, rec.j, f.got);
    DataHeaderRoundTrip(ep.fmt, w.RecordAt(rec), ep.minor);
  }

  /** Reading the record, whatever it is, that comes next in a variable format. */
  lemma VariableTruth(w: World, st: State, g: nat, lb: Place) returns (g1: nat, rec: Place, lb1: Place)
    requires w.Valid() && ReadingAt(w, st, g, lb) && st.current.Some? && st.current.value.header.Readable()
    requires lb.e < |w.log.epochs| && !w.log.epochs[lb.e].fmt.Fixed?
    ensures Told(w, st, g, lb, ReadFrom(w.dir, st, Fresh).0, ReadFrom(w.dir, st, Fresh).1, g1, rec, lb1)
  {
    hide Fill;
    hide World.Valid;
    hide World.RecordSurvives;
    hide ReadingAt;
    hide Resting;
    hide Ahead;
    hide FilledTo;
    hide StreamBytes;
    hide DecodeLen;
    hide DecodeMeta;
    hide Matches;
    hide Held;
    hide HeaderLost;
    hide ReadPayload;
    OpenHeader(w, st, g, lb);
    var fmt := w.log.epochs[lb.e].fmt;
    var n := w.log.epochs[lb.e].Head();
    g1, rec, lb1 := FillFresh(w, st, FRESH_CURSOR, n, g, lb);
    var f := Fill(w.dir, st, FRESH_CURSOR, n);
    if f.fault.Some? {
      RestingClosed(w, f.st, g1, lb1);
      FlagsApart(w, f.st, g1, lb1, MetaSimple);
    } else {
      HeaderSettles(w, rec, g1, f);
      var r := w.RecordAt(rec);
      var cur := f.cur.(total := Some(n + |r.payload|));
      g1 := PayloadTruth(w, f.st, cur, g1, rec, r.meta);
      if ReadPayload(w.dir, f.st, cur, |r.payload|, r.meta).0.Whole() {
        HeldInParts(w, rec, w.log.epochs[rec.e].Start(rec.j) + n);
      }
      lb1 := Place(rec.e, rec.j + 1);
      WholeReads(w, ReadPayload(w.dir, f.st, cur, |r.payload|, r.meta).1, g1, lb1);
    }
  }

  lemma RestingClosed(w: World, st: State, g: int, lb: Place)
    requires Resting(w, st, g, lb)
    ensures st.current.None? && !ReadingAt(w, st, g, lb)
  {
  }

  lemma WholeReads(w: World, st: State, g: int, lb: Place)
    ensures !(ReadingAt(w, st, g, lb) && Resting(w, st, g, lb))
  {
  }

  /** Reading the next fixed-length record: its bytes are its payload. */
  lemma FixedTruth(w: World, st: State, g: nat, lb: Place) returns (g1: nat, rec: Place, lb1: Place)
    requires w.Valid() && ReadingAt(w, st, g, lb) && st.current.Some? && st.current.value.header.Readable()
    requires lb.e < |w.log.epochs| && w.log.epochs[lb.e].fmt.Fixed?
    ensures Told(w, st, g, lb, ReadFrom(w.dir, st, Fresh).0, ReadFrom(w.dir, st, Fresh).1, g1, rec, lb1)
  {
    hide Fill;
    hide World.Valid;
    hide World.RecordSurvives;
    hide ReadingAt;
    hide Resting;
    hide Ahead;
    hide FilledTo;
    hide StreamBytes;
    hide Held;
    hide HeaderLost;
    OpenHeader(w, st, g, lb);
    var n := w.log.epochs[lb.e].fmt.n;
    var st0 := st.(lastMeta := MetaFixed);
    var cur := FRESH_CURSOR.(total := Some(n));
    FlagsApart(w, st, g, lb, MetaFixed);
    g1, rec, lb1 := FillFresh(w, st0, cur, n, g, lb);
    var f := Fill(w.dir, st0, cur, n);
    if f.fault.None? || f.got != [] { FixedRecord(w, rec, f.got, n); }
    if f.fault.Some? {
      RestingClosed(w, f.st, g1, lb1);
      FlagsApart(w, f.st, g1, lb1, MetaSimple);
      RestingClosed(w, Lose(f.st), g1, lb1);
    } else {
      lb1 := Place(rec.e, rec.j + 1);
      RecordDone(w, f.st, f.cur, g1, rec);
      HeldToEnd(w, rec);
      HeldInParts(w, rec, w.log.epochs[rec.e].Start(rec.j + 1));
      forall p | Ahead(w, st, g, p) && w.RecordSurvives(p) && p != rec
        ensures Ahead(w, f.st, g1, p)
      {
        PlaceOf(w, p);
      }
    }
  }

  lemma HeldToEnd(w: World, rec: Place)
    requires w.IsPlace(rec)
    ensures var o := w.log.epochs[rec.e].Start(rec.j + 1); Held(w, rec.e, o, o)
  {
  }

  lemma FixedRecord(w: World, rec: Place, got: seq<byte>, n: nat)
    requires w.Valid() && w.IsPlace(rec)
    requires var ep := w.log.epochs[rec.e]; ep.fmt.Fixed? && ep.fmt.n == n && StreamBytes(ep, ep.Start(rec.j), got)
    requires |got| <= n
    ensures var r := w.RecordAt(rec); |r.payload| == n && r.meta == MetaFixed && got <= r.payload
    ensures w.log.epochs[rec.e].Start(rec.j + 1) == w.log.epochs[rec.e].Start(rec.j) + n
  {
    hide StreamBytes;
    hide World.Removed;
    LogOf(w);
    var ep := w.log.epochs[rec.e];
    assert ValidRecord(ep.fmt, ep.recs[rec.j], ep.minor);
    PayloadFront(ep, rec.j, got);
  }

  lemma FreshTruth(w: World, st: State, g: nat, lb: Place) returns (g1: nat, rec: Place, lb1: Place)
    requires w.Valid() && ReadingAt(w, st, g, lb) && st.current.Some? && st.current.value.header.Readable()
    ensures Told(w, st, g, lb, ReadFrom(w.dir, st, Fresh).0, ReadFrom(w.dir, st, Fresh).1, g1, rec, lb1)
  {
    hide Told;
    hide ReadFrom;
    OpenHeader(w, st, g, lb);
    if w.log.epochs[lb.e].fmt.Fixed? {
      g1, rec, lb1 := FixedTruth(w, st, g, lb);
    } else {
      g1, rec, lb1 := VariableTruth(w, st, g, lb);
    }
  }
}
