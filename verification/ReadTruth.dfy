/** Resynchronizing in a damaged log, and what one call of `read` comes to from
    wherever the reader stands (tcslog/src/read.rs). */
module ReadTruth {
  import opened Bytes
  import opened Format
  import opened ReadSpec
  import opened ReadEnds
  import opened Layout
  import opened Damage
  import opened Standing
  import opened Filling
  import opened RecordTruth

  // ---------------------------------------------------- resynchronizing

  /** A lost header is recovered soundly. Record j ran `owed` bytes into file
      g - 1, which is missing; when the arithmetic yields n, that file ended
      with exactly the next record's data header, and file g starts with that
      record's payload, which is n bytes long however far it runs. */
  lemma LostHeaderRecovered(log: Log, g: nat, j: nat, rec: Recovery, n: nat)
    requires log.Valid() && 2 <= g < |log.files| && log.SameEpoch(g - 2) && log.Base(g - 1) == log.Base(g)
    requires log.InRange(g) && log.InRange(g - 1)
    requires var ep := log.epochs[log.files[g - 1].epoch];
             j < |ep.recs| && rec.owed == ep.Start(j + 1) - log.files[g - 1].start
    requires var h := log.HeaderOf(g);
             RecoveredPayloadLen(rec, log.files[g].id, h.format, h.remaining, h.DataLen()) == Some(n)
    ensures log.SameEpoch(g - 1)
    ensures var e := log.files[g].epoch;
            var ep := log.epochs[e];
            && ep.fmt == VariableSimple && j + 1 < |ep.recs|
            && ep.Start(j + 1) + ep.Head() == log.files[g].start && |ep.recs[j + 1].payload| == n > 0
            && log.DataOf(g - 1)[log.files[g - 1].len - ep.Head()..] == DataHeader(ep.fmt, ep.recs[j + 1], ep.minor)
            && log.files[g].start + n <= |ep.Bytes()|
            && ep.Bytes()[log.files[g].start..log.files[g].start + n] == ep.recs[j + 1].payload
  {
    hide DataHeader;
    hide Stream;
    hide Encode;
    assert log.SameEpoch(g - 1) || log.Resumed(g - 1) || log.NewSession(g - 1);
    var ep := log.epochs[log.files[g].epoch];
    var o := log.files[g].start;
    FreshFile(log, g);
    assert log.SameEpoch(g - 1);
    LostHeaderPlace(ep, j, o, n);
    LostHeaderBytes(ep, j + 1, o, n, log.files[g - 1].start, log.files[g - 1].len);
  }

  lemma FreshFile(log: Log, g: nat)
    requires log.Valid() && log.InRange(g)
    ensures log.files[g].start == 0 ==> log.HeaderOf(g).remaining == 0
  {
    IndexOfStart(log.epochs[log.files[g].epoch], 0);
  }

  /** A record boundary four bytes before offset o, which is not a boundary. */
  lemma LostHeaderPlace(ep: Epoch, j: nat, o: nat, n: nat)
    requires ep.Valid() && ep.fmt == VariableSimple && j < |ep.recs| && o <= ep.End()
    requires ep.Start(j + 1) + ep.Head() == o && ep.Remaining(o) == n > 0
    ensures j + 1 < |ep.recs| && |ep.recs[j + 1].payload| == n
  {
    StartGrows(ep, j + 1, |ep.recs|);
    assert j + 1 < |ep.recs|;
    IndexInside(ep, o, j + 1);
  }

  lemma LostHeaderBytes(ep: Epoch, i: nat, o: nat, n: nat, start: nat, len: nat)
    requires ep.Valid() && i < |ep.recs| && ep.Start(i) + ep.Head() == o && |ep.recs[i].payload| == n
    requires start + len == o && ep.Head() <= len
    ensures o + n <= |ep.Bytes()| && start + len <= |ep.Bytes()|
    ensures ep.Bytes()[start..start + len][len - ep.Head()..] == DataHeader(ep.fmt, ep.recs[i], ep.minor)
    ensures ep.Bytes()[o..o + n] == ep.recs[i].payload
  {
    hide DataHeader;
    hide Stream;
    assert ValidRecord(ep.fmt, ep.recs[i], ep.minor);
    RecordBytes(ep, i);
    InnerSlices(ep.Bytes(), ep.Start(i), ep.Head(), n, start, len);
  }

  lemma InnerSlices(s: seq<byte>, a: nat, m: nat, n: nat, start: nat, len: nat)
    requires a + m + n <= |s| && start + len == a + m && m <= len
    ensures s[start..start + len][len - m..] == s[a..a + m + n][..m]
    ensures s[a + m..a + m + n] == s[a..a + m + n][m..]
  {
  }

  /** A surviving record not in the files up to g0 starts at or after the next
      file that is there; and no record starts in the tail such a file opens
      with. */
  lemma AheadFromFile(w: World, g0: int, g: nat, p: Place)
    requires w.Valid() && w.Survives(g) && g0 < g && Gone(w, g0, g) && w.RecordSurvives(p)
    requires forall h: nat :: w.Holds(h, p.e, w.log.epochs[p.e].Start(p.j)) ==> h > g0
    ensures w.log.InRange(g)
    ensures var f := w.log.files[g];
            && p.e >= f.epoch
            && (p.e == f.epoch ==>
                  && w.log.epochs[p.e].Start(p.j) >= f.start
                  && w.log.epochs[p.e].Start(p.j) >= f.start + w.log.epochs[p.e].Remaining(f.start))
  {
    hide Usable;
    hide OpenValidated;
    hide World.Removed;
    LogOf(w);
    var ep := w.log.epochs[p.e];
    var x := ep.Start(p.j);
    StartGrows(ep, p.j, p.j + 1);
    assert w.ByteSurvives(p.e, x);
    var h: nat :| w.Holds(h, p.e, x);
    LeftShort(w, g);
    assert h >= g;
    if g < h { FilesOrdered(w.log, g, h); }
    if p.e == w.log.files[g].epoch {
      var i := ep.IndexAt(w.log.files[g].start);
      if i <= p.j { StartGrows(ep, i, p.j); }
    }
  }

  /** A file that only holds the tail of a record offers nothing. */
  lemma NothingStarts(w: World, st: State, g0: int, g: nat, p: Place, st1: State)
    requires w.Valid() && AtFile(w, st1, g) && g0 < g && Gone(w, g0, g) && w.RecordSurvives(p)
    requires st.current.None? && Ahead(w, st, g0, p)
    requires st1.current.value.header.remaining >= |st1.current.value.data|
    ensures Ahead(w, st1.(current := None), g, p)
  {
    hide World.Removed;
    hide PendingAfter;
    hide World.Holds;
    FileFacts(w, st1, g);
    AheadFromFile(w, g0, g, p);
    HomeAfter(w, g, p);
  }

  /** Where a search for a record start leaves the reader: at the start of the
      record at lb1, or inside it, just past a data header that is lost. */
  ghost predicate FoundAs(w: World, lb: Place, r: FindOut, g1: int, lb1: Place) {
    if r.Missing? then Resting(w, r.st, g1, lb) && lb1 == lb && !r.fault.Truncated?
    else
      && 0 <= g1 && w.log.InRange(g1) && Le(lb, lb1) && lb1.e == w.log.files[g1].epoch && r.st.recovery.None?
      && (if r.start.Fresh? then ReadingAt(w, r.st.(startLost := 0), g1, lb1)
          else
            && w.IsPlace(lb1) && w.log.epochs[lb1.e].fmt == VariableSimple && r.st.startLost == 0
            && r.start.n == |w.RecordAt(lb1).payload| > 0
            && w.log.epochs[lb1.e].Start(lb1.j) + w.log.epochs[lb1.e].Head() == w.log.files[g1].start
            && AtOffset(w, r.st, g1, w.log.files[g1].start))
  }

  /** Nothing that survives is passed over by the search. */
  ghost predicate FoundAll(w: World, st: State, g0: int, r: FindOut, g1: int, lb1: Place) {
    forall p :: Ahead(w, st, g0, p) && w.RecordSurvives(p) ==>
      if r.Missing? || r.start.Fresh? then Ahead(w, r.st, g1, p) else Le(lb1, p)
  }

  lemma {:induction false} FindTruth(w: World, st: State, g0: int, lb: Place) returns (g1: int, lb1: Place)
    requires w.Valid() && Resting(w, st, g0, lb)
    ensures FoundAs(w, lb, FindRecordStart(w.dir, st), g1, lb1)
    ensures FoundAll(w, st, g0, FindRecordStart(w.dir, st), g1, lb1)
    decreases |st.pending|
  {
    hide World.Valid;
    hide World.RecordSurvives;
    hide FoundAs;
    hide FoundAll;
    hide OpenNext;
    hide Resting;
    hide AtFile;
    hide PendingAfter;
    hide Gone;
    hide RecoveredPayloadLen;
    hide Advance;
    var st0 := st.(recovery := None);
    var (opening, st1) := OpenNext(w.dir, st0);
    RestingFacts(w, st, g0, lb);
    var g := OpenNextTruth(w, st0, g0);
    var r := FindRecordStart(w.dir, st);
    match opening
    case NoMore =>
      g1, lb1 := g0, lb;
      SearchEnds(w, st, st1, g0, lb, r);
    case NewSession =>
      g1, lb1 := g0, lb;
      SearchEnds(w, st, st1, g0, lb, r);
    case Opened =>
      var seg := st1.current.value;
      var h := seg.header;
      var n := if st.recovery.None? then None
               else RecoveredPayloadLen(st.recovery.value, seg.id, h.format, h.remaining, h.DataLen());
      if n.Some? {
        g1 := g;
        lb1 := FoundRecovered(w, st, st1, g0, g, lb, n.value);
      } else if h.remaining >= |seg.data| {
        var st2 := st1.(current := None);
        Discarded(w, st, st1, g0, g, lb);
        g1, lb1 := FindTruth(w, st2, g, lb);
        SearchGoesOn(w, st, st2, g0, g, lb, r, g1, lb1);
      } else {
        g1 := g;
        lb1 := FoundFresh(w, st, st1, g0, g, lb);
      }
  }

  lemma RestingFacts(w: World, st: State, g0: int, lb: Place)
    requires Resting(w, st, g0, lb)
    ensures g0 >= -1 && st.current.None? && PendingAfter(w, st.pending, g0) && Bounded(w, g0, lb)
    ensures st.recovery.Some? ==> st.session.Some? && st.startLost == 0
  {
  }

  lemma SearchEnds(w: World, st: State, st1: State, g0: int, lb: Place, r: FindOut)
    requires Resting(w, st, g0, lb) && st1.current.None? && st1.recovery.None? && PendingAfter(w, st1.pending, g0)
    requires r.Missing? && r.st == st1 && !r.fault.Truncated?
    ensures FoundAs(w, lb, r, g0, lb) && FoundAll(w, st, g0, r, g0, lb)
  {
    hide PendingAfter;
    hide Bounded;
  }

  lemma SearchGoesOn(w: World, st: State, st2: State, g0: int, g: int, lb: Place, r: FindOut, g1: int, lb1: Place)
    requires FoundAs(w, lb, r, g1, lb1) && FoundAll(w, st2, g, r, g1, lb1)
    requires forall p :: Ahead(w, st, g0, p) && w.RecordSurvives(p) ==> Ahead(w, st2, g, p)
    ensures FoundAs(w, lb, r, g1, lb1) && FoundAll(w, st, g0, r, g1, lb1)
  {
    hide Ahead;
    hide World.RecordSurvives;
  }

  /** Discarding a file that offers nothing. */
  lemma Discarded(w: World, st: State, st1: State, g0: int, g: int, lb: Place)
    requires w.Valid() && Resting(w, st, g0, lb) && g0 < g && AtFile(w, st1, g) && Gone(w, g0, g)
    requires st1.recovery.None?
    requires st1.current.value.header.remaining >= |st1.current.value.data|
    ensures Resting(w, st1.(current := None), g, lb)
    ensures forall p :: Ahead(w, st, g0, p) && w.RecordSurvives(p) ==> Ahead(w, st1.(current := None), g, p)
  {
    hide World.Valid;
    hide PendingAfter;
    hide Gone;
    hide World.RecordSurvives;
    hide Sound;
    forall p | Ahead(w, st, g0, p) && w.RecordSurvives(p)
      ensures Ahead(w, st1.(current := None), g, p)
    {
      NothingStarts(w, st, g0, g, p, st1);
    }
  }

  /** A file in which a record starts. */
  lemma FoundFresh(w: World, st: State, st1: State, g0: int, g: int, lb: Place) returns (lb1: Place)
    requires w.Valid() && Resting(w, st, g0, lb) && g0 < g && AtFile(w, st1, g) && Gone(w, g0, g)
    requires st1.recovery.None? && st1.current.value.pos == 0
    requires var seg := st1.current.value; seg.header.remaining < |seg.data|
    ensures var r := Found(Fresh, Advance(st1, st1.current.value.header.remaining));
            FoundAs(w, lb, r, g, lb1) && FoundAll(w, st, g0, r, g, lb1)
  {
    hide World.Removed;
    hide World.ResumptionsHeld;
    hide World.RecordSurvives;
    hide World.Holds;
    hide PendingAfter;
    hide Gone;
    hide OpenValidated;
    hide HintTrue;
    FileFacts(w, st1, g);
    LogOf(w);
    var f := w.log.files[g];
    var ep := w.log.epochs[f.epoch];
    lb1 := Place(f.epoch, ep.IndexAt(f.start));
    assert StartsFrom(w, g, lb1.j);
    forall p | Ahead(w, st, g0, p) && w.RecordSurvives(p)
      ensures Ahead(w, Advance(st1, ep.Remaining(f.start)), g, p)
    {
      AheadFromFile(w, g0, g, p);
    }
  }

  /** The file a hint names, when the arithmetic settles it. */
  lemma FoundRecovered(w: World, st: State, st1: State, g0: int, g: int, lb: Place, n: u32) returns (lb1: Place)
    requires w.Valid() && Resting(w, st, g0, lb) && g0 < g && AtFile(w, st1, g) && Gone(w, g0, g)
    requires st1.recovery.None? && st1.current.value.pos == 0 && st.recovery.Some?
    requires st.session.Some? ==> st1.startLost == st.startLost
    requires var seg := st1.current.value;
             RecoveredPayloadLen(st.recovery.value, seg.id, seg.header.format, seg.header.remaining,
                                 seg.header.DataLen()) == Some(n)
    ensures var r := Found(Recovered(n), st1);
            FoundAs(w, lb, r, g, lb1) && FoundAll(w, st, g0, r, g, lb1)
  {
    hide World.Removed;
    hide World.ResumptionsHeld;
    hide World.RecordSurvives;
    hide World.Holds;
    hide PendingAfter;
    hide Gone;
    hide OpenValidated;
    hide Bounded;
    hide HintTrue;
    FileFacts(w, st1, g);
    LogOf(w);
    HintedFormat(st.recovery.value, st1.current.value, n);
    var j := HintAt(w, st, g0, lb, g);
    LostHeaderRecovered(w.log, g, j, st.recovery.value, n);
    lb1 := Place(w.log.files[g].epoch, j + 1);
    forall p | Ahead(w, st, g0, p) && w.RecordSurvives(p)
      ensures Le(lb1, p)
    {
      AheadFromFile(w, g0, g, p);
      if p.e == lb1.e && p.j < lb1.j { StartGrows(w.log.epochs[p.e], p.j, lb1.j); }
    }
  }

  lemma HintedFormat(rec: Recovery, seg: Segment, n: u32)
    requires RecoveredPayloadLen(rec, seg.id, seg.header.format, seg.header.remaining, seg.header.DataLen()) == Some(n)
    ensures rec.segment == seg.id && seg.header.format == VariableSimple
  {
  }

  lemma HintAt(w: World, st: State, g0: int, lb: Place, g: int) returns (j: nat)
    requires HintTrue(w, st, g0, lb) && st.recovery.Some? && w.log.Valid() && g >= 0 && w.log.InRange(g)
    requires var id := st.recovery.value.segment; id in w.at && w.at[id] == g
    requires w.log.epochs[w.log.files[g].epoch].fmt == VariableSimple
    ensures st.session.Some? && st.startLost == 0 && 2 <= g && w.log.InRange(g - 1)
    ensures w.log.SameEpoch(g - 2) && w.log.Base(g - 1) == w.log.Base(g)
    ensures var e := w.log.files[g - 1].epoch;
            var ep := w.log.epochs[e];
            j < |ep.recs| && st.recovery.value.owed == ep.Start(j + 1) - w.log.files[g - 1].start
            && Le(lb, Place(e, j + 1))
  {
    var x: nat, i: nat :| x > g0 && HintFor(w, st.recovery.value, x, i)
      && (w.log.epochs[w.log.files[x].epoch].fmt == VariableSimple ==> Le(lb, Place(w.log.files[x - 1].epoch, i + 1)));
    j := i;
  }

  /** A read that begins just past a lost header. */
  lemma RecoveredTruth(w: World, st: State, g: nat, rec: Place, n: u32) returns (g1: nat)
    requires w.Valid() && w.IsPlace(rec) && w.log.InRange(g) && w.log.files[g].epoch == rec.e
    requires st.recovery.None? && st.startLost == 0
    requires var ep := w.log.epochs[rec.e];
             && ep.fmt == VariableSimple && n == |w.RecordAt(rec).payload|
             && ep.Start(rec.j) + ep.Head() == w.log.files[g].start && AtOffset(w, st, g, w.log.files[g].start)
    requires st.current.value.header.Readable()
    ensures var (att, st1) := ReadFrom(w.dir, st, Recovered(n));
            && Matches(w.RecordAt(rec), att)
            && (att.Whole() && n > 0 ==> HeaderLost(w, rec))
            && (if att.Whole() then ReadingAt(w, st1, g1, Place(rec.e, rec.j + 1))
                else Resting(w, st1, g1, Place(rec.e, rec.j + 1)))
            && forall p :: Le(rec, p) && w.RecordSurvives(p) ==> (att.Whole() && p == rec) || Ahead(w, st1, g1, p)
  {
    hide World.Valid;
    hide World.RecordSurvives;
    hide ReadPayload;
    hide AtOffset;
    hide FilledTo;
    hide ReadingAt;
    hide Resting;
    hide Ahead;
    hide Matches;
    hide Held;
    RecoveredAt(w, st, g, rec, n);
    g1 := PayloadTruth(w, st, Cursor(4, Some(4 + n), None), g, rec, MetaSimple);
  }

  /** Past the lost header, the reader stands inside the record. */
  lemma RecoveredAt(w: World, st: State, g: nat, rec: Place, n: u32)
    requires w.Valid() && w.IsPlace(rec) && w.log.InRange(g) && w.log.files[g].epoch == rec.e
    requires st.recovery.None? && st.startLost == 0
    requires var ep := w.log.epochs[rec.e];
             && ep.fmt == VariableSimple && n == |w.RecordAt(rec).payload|
             && ep.Start(rec.j) + ep.Head() == w.log.files[g].start && AtOffset(w, st, g, w.log.files[g].start)
    ensures var ep := w.log.epochs[rec.e];
            && FilledTo(w, g, rec.e, rec.j, ep.Start(rec.j) + ep.Head(), st, Cursor(4, Some(4 + n), None))
            && w.Survives(g) && ep.Start(rec.j + 1) == ep.Start(rec.j) + ep.Head() + n
            && st.current.Some? && st.current.value.header.format == VariableSimple
            && w.RecordAt(rec).meta == MetaSimple
  {
    hide World.Removed;
    hide World.ResumptionsHeld;
    hide PendingAfter;
    hide Sound;
    FileFacts(w, st, g);
    LogOf(w);
    var ep := w.log.epochs[rec.e];
    assert ValidRecord(ep.fmt, ep.recs[rec.j], ep.minor);
  }

  lemma TellsVariable(att: Attempt, r: Record)
    requires Matches(r, att) && r.meta == MetaSimple
    ensures Tells(att)
  {
  }

  /** From where a search left the reader. */
  lemma FoundTruth(w: World, st: State, g0: int, lb: Place, r: FindOut, g: int, lb1: Place)
    returns (g1: nat, rec: Place, lb2: Place)
    requires w.Valid() && st.current.None? && r.Found? && r.st.startLost == 0 && Sound(w.dir, r.st.(resync := false))
    requires FoundAs(w, lb, r, g, lb1) && FoundAll(w, st, g0, r, g, lb1)
    requires r.st.current.Some? && r.st.current.value.header.Readable()
    requires Calm(w) && st.session.None? ==> r.start.Fresh? && lb1.j == 0
    ensures var (att, st2) := ReadFrom(w.dir, r.st.(resync := false), r.start);
            Told(w, st, g0, lb, att, st2, g1, rec, lb2)
  {
    hide World.Valid;
    hide World.RecordSurvives;
    hide ReadingAt;
    hide Resting;
    hide Ahead;
    hide ReadFrom;
    hide Sound;
    hide Matches;
    hide HeaderLost;
    hide Calm;
    var st1 := r.st.(resync := false);
    ResyncApart(w, r.st, g, lb1);
    if r.start.Fresh? {
      g1, rec, lb2 := FreshTruth(w, st1, g, lb1);
      CalmFaultless(w);
    } else {
      OffsetApart(w, r.st, g, w.log.files[g].start);
      g1 := RecoveredTruth(w, st1, g, lb1, r.start.n);
      rec, lb2 := lb1, Place(lb1.e, lb1.j + 1);
      RecordMeta(w, rec);
      TellsVariable(ReadFrom(w.dir, st1, r.start).0, w.RecordAt(rec));
      WholeReads(w, ReadFrom(w.dir, st1, r.start).1, g1, lb2);
    }
  }

  lemma RecordMeta(w: World, rec: Place)
    requires w.Valid() && w.IsPlace(rec) && w.log.epochs[rec.e].fmt == VariableSimple
    ensures w.RecordAt(rec).meta == MetaSimple
  {
    LogOf(w);
    var ep := w.log.epochs[rec.e];
    assert ValidRecord(ep.fmt, ep.recs[rec.j], ep.minor);
  }

  /** The resync flag does not bear on where the reader stands either. */
  lemma ResyncApart(w: World, st: State, g: int, lb: Place)
    ensures forall b :: ReadingAt(w, st.(resync := b), g, lb) <==> ReadingAt(w, st, g, lb)
    ensures forall b :: Resting(w, st.(resync := b), g, lb) <==> Resting(w, st, g, lb)
    ensures forall b, p :: Ahead(w, st.(resync := b), g, p) <==> Ahead(w, st, g, p)
    ensures st.startLost == 0 ==> st.(startLost := 0) == st
    ensures forall b ::
      ReadingAt(w, st.(resync := b, startLost := 0), g, lb) <==> ReadingAt(w, st.(startLost := 0), g, lb)
    ensures forall b, p :: Ahead(w, st.(resync := b, startLost := 0), g, p) <==> Ahead(w, st, g, p)
  {
    hide PendingAfter;
    hide Bounded;
    hide OpenValidated;
  }

  lemma OffsetApart(w: World, st: State, g: nat, o: nat)
    ensures AtOffset(w, st.(resync := false), g, o) <==> AtOffset(w, st, g, o)
  {
    hide PendingAfter;
    hide OpenValidated;
  }

  lemma CalmFaultless(w: World)
    ensures Calm(w) ==> !w.log.WriteAbandoned()
  {
  }

  /** A search within a session leaves its pending start-of-session loss. */
  lemma {:induction false} FindKeepsLoss(dir: Dir, st: State)
    requires st.session.Some?
    ensures var r := FindRecordStart(dir, st); r.Found? ==> r.st.startLost == st.startLost
    decreases |st.pending|
  {
    hide RecoveredPayloadLen;
    hide Unusable;
    hide OpenValidated;
    var (opening, st1) := OpenNext(dir, st.(recovery := None));
    if opening.Opened? { FindKeepsLoss(dir, st1.(current := None)); }
  }

  /** One step of a search that starts between sessions. */
  lemma FindOpens(dir: Dir, st: State)
    requires st.recovery.None? && OpenNext(dir, st).0.Opened?
    ensures var st1 := OpenNext(dir, st).1;
            var seg := st1.current.value;
            FindRecordStart(dir, st) ==
              if seg.header.remaining >= |seg.data| then FindRecordStart(dir, st1.(current := None))
              else Found(Fresh, Advance(st1, seg.header.remaining))
  {
    hide OpenNext;
    assert st.(recovery := None) == st;
  }

  lemma FindEnds(dir: Dir, st: State)
    requires st.recovery.None? && !OpenNext(dir, st).0.Opened?
    ensures FindRecordStart(dir, st).Missing?
  {
    hide OpenNext;
    assert st.(recovery := None) == st;
  }

  /** Where no write was abandoned and no file was cut, a search that starts
      between sessions and finds no loss to report finds a session's first
      record. */
  lemma SessionFirst(w: World, st: State, g0: int, lb: Place, g1: int, lb1: Place)
    requires w.Valid() && Resting(w, st, g0, lb)
    requires FoundAs(w, lb, FindRecordStart(w.dir, st), g1, lb1)
    ensures var r := FindRecordStart(w.dir, st);
            Calm(w) && st.session.None? && r.Found? && r.st.startLost == 0 ==> r.start.Fresh? && lb1.j == 0
  {
    hide World.Valid;
    hide OpenNext;
    hide FindRecordStart;
    hide PendingAfter;
    hide Bounded;
    hide Gone;
    hide AtFile;
    hide ReadingAt;
    hide Calm;
    hide FoundAs;
    if Calm(w) && st.session.None? {
      var g := OpenNextTruth(w, st, g0);
      var (opening, st1) := OpenNext(w.dir, st);
      if opening.Opened? {
        FindOpens(w.dir, st);
        FileFacts(w, st1, g);
        FindKeepsLoss(w.dir, st1.(current := None));
        if st1.startLost == 0 {
          FirstOfSession(w, st, st1, g0, g, lb, g1, lb1);
        }
      } else {
        FindEnds(w.dir, st);
      }
    }
  }

  /** A session's first file either starts with its first record, or is all
      there is of the session. */
  lemma FirstOfSession(w: World, st: State, st1: State, g0: int, g: nat, lb: Place, g1: int, lb1: Place)
    requires w.Valid() && Calm(w) && AtFile(w, st1, g) && st1.current.value.pos == 0 && st1.recovery.None?
    requires st1.current.value.header.sequence == 0 && st1.startLost == 0
    requires var seg := st1.current.value;
             FindRecordStart(w.dir, st) ==
               if seg.header.remaining >= |seg.data| then FindRecordStart(w.dir, st1.(current := None))
               else Found(Fresh, Advance(st1, seg.header.remaining))
    requires FoundAs(w, lb, FindRecordStart(w.dir, st), g1, lb1)
    ensures var r := FindRecordStart(w.dir, st); r.Found? ==> r.start.Fresh? && lb1.j == 0
  {
    hide World.Removed;
    hide World.ResumptionsHeld;
    hide World.Survives;
    hide OpenNext;
    hide FindRecordStart;
    hide PendingAfter;
    hide OpenValidated;
    FileFacts(w, st1, g);
    LogOf(w);
    var f := w.log.files[g];
    BeginsAtZero(w.log, g);
    FreshFile(w.log, g);
    if |st1.current.value.data| == 0 {
      AloneInSession(w.log, g);
      NoneFollows(w, st1.(current := None), g);
    } else {
      AdvanceNone(st1);
      FoundThere(w, lb, st1, g, g1, lb1);
    }
  }

  lemma AdvanceNone(st: State)
    requires st.current.Some?
    ensures Advance(st, 0) == st
  {
  }

  lemma FoundThere(w: World, lb: Place, st1: State, g: nat, g1: int, lb1: Place)
    requires w.Valid() && AtFile(w, st1, g) && st1.current.value.pos == 0
    requires w.log.InRange(g) && w.log.files[g].start == 0
    requires FoundAs(w, lb, Found(Fresh, st1), g1, lb1)
    ensures lb1.j == 0
  {
    hide World.Removed;
    hide World.ResumptionsHeld;
    hide PendingAfter;
    hide Sound;
    LogOf(w);
    if lb1.j > 0 { StartGrows(w.log.epochs[lb1.e], 0, lb1.j); }
  }

  lemma BeginsAtZero(log: Log, g: nat)
    requires log.Valid() && g < |log.files| && log.files[g].ordinal == 0
    ensures log.files[g].start == 0
  {
    if g > 0 { assert log.SameEpoch(g - 1) || log.Resumed(g - 1) || log.NewSession(g - 1); }
  }

  /** A first file without data is followed by another session, if by any. */
  lemma AloneInSession(log: Log, g: nat)
    requires log.Valid() && !log.WriteAbandoned() && log.InRange(g) && log.files[g].len == 0
    ensures forall h: nat :: g < h < |log.files| ==> log.Base(h) > log.Base(g)
  {
    forall h: nat | g < h < |log.files| ensures log.Base(h) > log.Base(g) {
      assert log.SameEpoch(g) || log.Resumed(g) || log.NewSession(g);
      assert log.NewSession(g);
      if g + 1 < h { FilesOrdered(log, g + 1, h); }
    }
  }

  lemma NoneFollows(w: World, st: State, g: nat)
    requires w.Valid() && w.log.InRange(g) && w.Survives(g) && st.current.None? && PendingAfter(w, st.pending, g)
    requires st.session == Some(w.log.files[g].session) && st.recovery.None?
    requires forall h: nat :: g < h < |w.log.files| ==> w.log.Base(h) > w.log.Base(g)
    ensures FindRecordStart(w.dir, st).Missing?
  {
    hide World.Valid;
    hide World.Survives;
    hide OpenNext;
    hide FindRecordStart;
    hide PendingAfter;
    hide Gone;
    hide AtFile;
    var h := OpenNextTruth(w, st, g);
    var (opening, st1) := OpenNext(w.dir, st);
    if opening.Opened? {
      FileFacts(w, st1, h);
      ValidRemoved(w);
      SessionsApart(w, g, h);
    } else {
      FindEnds(w.dir, st);
    }
  }

  lemma ValidRemoved(w: World)
    requires w.Valid()
    ensures w.Removed()
  {
  }

  /** What one read comes to, from wherever the reader stands. */
  lemma ReadTold(w: World, st: State, g: int, lb: Place) returns (g1: int, rec: Place, lb1: Place)
    requires w.Valid() && Sound(w.dir, st) && Stands(w, st, g, lb)
    ensures Told(w, st, g, lb, Read(w.dir, st).0, Read(w.dir, st).1, g1, rec, lb1)
  {
    hide World.Valid;
    hide World.RecordSurvives;
    hide ReadingAt;
    hide Resting;
    hide Ahead;
    hide ReadFrom;
    hide FindRecordStart;
    hide FoundAs;
    hide FoundAll;
    hide Matches;
    hide Calm;
    rec := lb;
    if st.pending == [] && st.Exhausted() {
      g1, lb1 := g, lb;
      EndTold(w, st, g, lb);
    } else if st.current.Some? {
      RestingNone(w, st, g, lb);
      FileReadable(w, st);
      g1, rec, lb1 := FreshTruth(w, st, g, lb);
    } else {
      RestingNone(w, st, g, lb);
      var st0 := st.(resync := true);
      ResyncApart(w, st, g, lb);
      FindSound(w.dir, st0);
      FindPays(w.dir, st0);
      var r := FindRecordStart(w.dir, st0);
      g1, lb1 := FindTruth(w, st0, g, lb);
      SessionFirst(w, st0, g, lb, g1, lb1);
      if r.Missing? || r.st.startLost > 0 {
        SearchTold(w, st0, g, lb, r, g1, lb1);
      } else {
        g1, rec, lb1 := FoundTruth(w, st0, g, lb, r, g1, lb1);
      }
      ToldApart(w, st, g, lb, Read(w.dir, st).0, Read(w.dir, st).1, g1, rec, lb1);
    }
  }

  lemma RestingNone(w: World, st: State, g: int, lb: Place)
    requires Stands(w, st, g, lb)
    ensures st.current.Some? ==> g >= 0 && ReadingAt(w, st, g, lb)
    ensures st.current.None? ==> Resting(w, st, g, lb)
  {
  }

  lemma FileReadable(w: World, st: State)
    requires Sound(w.dir, st) && st.current.Some?
    ensures st.current.value.header.Readable()
  {
  }

  /** The end of the log, with a file still open or not. */
  lemma EndTold(w: World, st: State, g: int, lb: Place)
    requires w.Valid() && Stands(w, st, g, lb) && st.pending == [] && st.Exhausted()
    ensures Told(w, st, g, lb, Nothing(Eof), st.(current := None), g, lb, lb)
  {
    hide World.Valid;
    hide World.RecordSurvives;
    hide ReadingAt;
    hide Ahead;
    hide PendingAfter;
    hide Bounded;
    RestingNone(w, st, g, lb);
    if st.current.Some? {
      ReadingFacts(w, st, g, lb);
      forall p | Ahead(w, st, g, p) ensures Ahead(w, st.(current := None), g, p) {
        AheadRests(w, st, g, lb, p, st.(current := None));
      }
    } else {
      assert st.(current := None) == st;
    }
  }

  /** A search that found nothing, or found a loss to report first. */
  lemma SearchTold(w: World, st: State, g0: int, lb: Place, r: FindOut, g: int, lb1: Place)
    requires st.current.None? && FoundAs(w, lb, r, g, lb1) && FoundAll(w, st, g0, r, g, lb1)
    requires r.Missing? ==> r.st.current.None?
    requires r.Found? ==> r.st.startLost > 0
    ensures r.Missing? ==> Told(w, st, g0, lb, Nothing(r.fault), Lose(r.st), g, lb, lb1)
    ensures r.Found? ==>
      Told(w, st, g0, lb, Nothing(Truncated(r.st.startLost)), r.st.(resync := false, startLost := 0), g, lb, lb1)
  {
    hide World.RecordSurvives;
    hide ReadingAt;
    hide Resting;
    hide Ahead;
    ResyncApart(w, r.st, g, lb1);
    FlagsApart(w, r.st, g, lb1, MetaSimple);
  }

  lemma ToldApart(w: World, st: State, g: int, lb: Place, att: Attempt, st1: State, g1: int, rec: Place, lb1: Place)
    requires Told(w, st.(resync := true), g, lb, att, st1, g1, rec, lb1)
    ensures Told(w, st, g, lb, att, st1, g1, rec, lb1)
  {
    hide World.RecordSurvives;
    hide ReadingAt;
    hide Resting;
    hide Ahead;
    hide Matches;
    ResyncApart(w, st, g, lb);
  }
}
