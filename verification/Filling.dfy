/** Reading bytes of a damaged log: inside a record, across files, and at the
    start of the next one. The bytes got are the stream's, and all of a record
    that survives is got (tcslog/src/read.rs). */
module Filling {
  import opened Bytes
  import opened Format
  import opened ReadSpec
  import opened ReadEnds
  import opened Layout
  import opened Damage
  import opened Standing

  // --------------------------------------------------- filling inside a record

  /** The bytes got are the stream's from offset o on. */
  ghost predicate StreamBytes(ep: Epoch, o: nat, got: seq<byte>) {
    ep.Valid() && o + |got| <= |ep.Bytes()| && got == ep.Bytes()[o..o + |got|]
  }

  /** The reader has read up to offset o, inside record j of epoch e. */
  ghost predicate FilledTo(w: World, g: nat, e: nat, j: nat, o: nat, st: State, cur: Cursor) {
    && w.log.InRange(g) && w.log.files[g].epoch == e
    && AtOffset(w, st, g, o) && CursorIn(w.log.epochs[e], j, o, cur)
    && st.recovery.None? && st.startLost == 0
  }

  /** The reader has given record j up at offset o, where what is left of file
      g ends. */
  ghost predicate StoppedAt(w: World, g: nat, e: nat, j: nat, o: nat, st: State) {
    && w.log.InRange(g) && w.log.files[g].epoch == e
    && j < |w.log.epochs[e].recs| && o < w.log.epochs[e].Start(j + 1)
    && w.Survives(g) && w.log.files[g].start + |w.Left(g)| == o
    && Resting(w, st, g, Place(e, j + 1))
  }

  /** A reader at offset o of record j may be asked for n more of its bytes. */
  ghost predicate Asked(w: World, e: nat, j: nat, o: nat, n: nat, st: State, cur: Cursor) {
    && e < |w.log.epochs| && j < |w.log.epochs[e].recs|
    && var ep := w.log.epochs[e];
       && o + n <= ep.Start(j + 1)
       && (cur.total.None? ==> o + n <= ep.Start(j) + ep.Head())
       && (ep.Start(j) < o || !st.Exhausted() || n == 0)
  }

  /** Bytes a to b of an epoch's stream are all still there. */
  ghost predicate Held(w: World, e: nat, a: nat, b: nat) { forall x :: a <= x < b ==> w.ByteSurvives(e, x) }

  /** What filling comes to: the record's bytes, all of them or up to where the
      reader stopped; all of them if the record survives. */
  ghost predicate FilledAs(w: World, g: nat, e: nat, j: nat, o: nat, n: nat, f: FillOut) {
    && e < |w.log.epochs| && StreamBytes(w.log.epochs[e], o, f.got) && Held(w, e, o, o + |f.got|)
    && (f.fault.None? ==> FilledTo(w, g, e, j, o + n, f.st, f.cur))
    && (f.fault.Some? ==> f.fault.value.Truncated? && StoppedAt(w, g, e, j, o + |f.got|, f.st))
    && (w.RecordSurvives(Place(e, j)) ==> f.fault.None?)
  }

  lemma {:induction false} FillIn(w: World, st: State, cur: Cursor, n: nat, g: nat, e: nat, j: nat, o: nat)
    returns (g1: nat)
    requires w.Valid() && FilledTo(w, g, e, j, o, st, cur) && Asked(w, e, j, o, n, st, cur)
    ensures FilledAs(w, g1, e, j, o, n, Fill(w.dir, st, cur, n))
    decreases n, |st.pending|
  {
    hide *;
    NoBytes(w, st, cur, g, e, j, o);
    g1 := g;
    if n == 0 {
      FillZero(w.dir, st, cur);
      FilledNone(w, st, cur, g, e, j, o);
    } else {
      FillUnfold(w.dir, st, cur, n);
      if st.Exhausted() {
        var c := Cross(w.dir, st, cur);
        CrossInTo(w, st, cur, g, e, j, o, n);
        if c.fault.None? {
          g1 := FillIn(w, c.st, c.cur, n, g + 1, e, j, o);
        } else {
          FilledStop(w, c, g, e, j, o, n);
        }
      } else {
        var take := Portion(st, n);
        var st1, cur1 := Advance(st, take), cur.(consumed := cur.consumed + take);
        AdvanceIn(w, st, cur, g, e, j, o, n, take);
        g1 := FillIn(w, st1, cur1, n - take, g, e, j, o + take);
        var seg := st.current.value;
        HeldHere(w, st, g, e, o, take);
        FilledAsMore(w, g1, e, j, o, n, seg.data[seg.pos..seg.pos + take], Fill(w.dir, st1, cur1, n - take));
      }
    }
  }

  lemma HeldHere(w: World, st: State, g: nat, e: nat, o: nat, take: nat)
    requires w.Valid() && AtOffset(w, st, g, o) && w.log.files[g].epoch == e
    requires st.current.value.pos + take <= |st.current.value.data|
    ensures Held(w, e, o, o + take)
  {
    hide World.Valid;
    hide World.Survives;
    hide PendingAfter;
    hide Sound;
    FileFacts(w, st, g);
    forall x | o <= x < o + take ensures w.ByteSurvives(e, x) {
      assert w.Holds(g, e, x);
    }
  }

  lemma FilledNone(w: World, st: State, cur: Cursor, g: nat, e: nat, j: nat, o: nat)
    requires w.Valid() && FilledTo(w, g, e, j, o, st, cur)
    ensures FilledAs(w, g, e, j, o, 0, FillOut([], None, st, cur))
  {
    hide World.Valid;
    hide StreamBytes;
    hide AtOffset;
    NoBytes(w, st, cur, g, e, j, o);
  }

  lemma FilledStop(w: World, c: CrossOut, g: nat, e: nat, j: nat, o: nat, n: nat)
    requires e < |w.log.epochs| && StreamBytes(w.log.epochs[e], o, [])
    requires c.fault.Some? && c.fault.value.Truncated? && StoppedAt(w, g, e, j, o, c.st)
    requires !w.RecordSurvives(Place(e, j))
    ensures FilledAs(w, g, e, j, o, n, FillOut([], c.fault, c.st, c.cur))
  {
    hide StreamBytes;
    hide StoppedAt;
    hide World.RecordSurvives;
  }

  lemma CrossInTo(w: World, st: State, cur: Cursor, g: nat, e: nat, j: nat, o: nat, n: nat)
    requires w.Valid() && FilledTo(w, g, e, j, o, st, cur) && Asked(w, e, j, o, n, st, cur)
    requires n > 0 && st.Exhausted()
    ensures e < |w.log.epochs|
    ensures var c := Cross(w.dir, st, cur);
            if c.fault.None? then
              FilledTo(w, g + 1, e, j, o, c.st, c.cur) && Asked(w, e, j, o, n, c.st, c.cur)
            else
              c.fault.value.Truncated? && StoppedAt(w, g, e, j, o, c.st) && !w.RecordSurvives(Place(e, j))
  {
    hide Cross;
    hide World.Valid;
    hide Sound;
    hide Resting;
    hide World.RecordSurvives;
    CrossIn(w, st, cur, g, j, o);
    Exhaust(w, st, g, o);
    if w.RecordSurvives(Place(e, j)) { MustCross(w, st, cur, g, j, o); }
  }

  lemma NoBytes(w: World, st: State, cur: Cursor, g: nat, e: nat, j: nat, o: nat)
    requires w.Valid() && FilledTo(w, g, e, j, o, st, cur)
    ensures e < |w.log.epochs| && StreamBytes(w.log.epochs[e], o, [])
  {
    LogOf(w);
    RecordBytes(w.log.epochs[e], j);
  }

  lemma AdvanceIn(w: World, st: State, cur: Cursor, g: nat, e: nat, j: nat, o: nat, n: nat, take: nat)
    requires w.Valid() && FilledTo(w, g, e, j, o, st, cur) && Asked(w, e, j, o, n, st, cur)
    requires !st.Exhausted() && n > 0 && take == Min(|st.current.value.data| - st.current.value.pos, n)
    ensures var st1, cur1 := Advance(st, take), cur.(consumed := cur.consumed + take);
            FilledTo(w, g, e, j, o + take, st1, cur1) && Asked(w, e, j, o + take, n - take, st1, cur1)
    ensures var seg := st.current.value;
            && StreamBytes(w.log.epochs[e], o, seg.data[seg.pos..seg.pos + take])
            && AtOffset(w, st, g, o) && w.log.files[g].epoch == e
  {
    hide World.Removed;
    hide World.ResumptionsHeld;
    hide PendingAfter;
    hide Sound;
    hide Stream;
    AdvanceAt(w, st, take, g, o);
    FileFacts(w, st, g);
    LogOf(w);
    LeftBytes(w, g, st.current.value.pos, st.current.value.pos + take);
  }

  lemma FilledAsMore(w: World, g: nat, e: nat, j: nat, o: nat, n: nat, bytes: seq<byte>, rest: FillOut)
    requires |bytes| <= n && e < |w.log.epochs| && StreamBytes(w.log.epochs[e], o, bytes)
    requires Held(w, e, o, o + |bytes|)
    requires FilledAs(w, g, e, j, o + |bytes|, n - |bytes|, rest)
    ensures FilledAs(w, g, e, j, o, n, rest.Prefixed(bytes))
  {
    hide Stream;
    hide FilledTo;
    hide StoppedAt;
    hide World.RecordSurvives;
    hide World.ByteSurvives;
    Joins(w.log.epochs[e].Bytes(), o, |bytes|, rest.got);
  }

  lemma LeftBytes(w: World, g: nat, a: nat, b: nat)
    requires w.Valid() && w.Survives(g) && a <= b <= |w.Left(g)|
    ensures w.log.InRange(g)
    ensures var f := w.log.files[g];
            var s := w.log.epochs[f.epoch].Bytes();
            f.start + b <= |s| && w.Left(g)[a..b] == s[f.start + a..f.start + b]
  {
    LeftIsStream(w, g, a, b);
  }

  lemma Joins(s: seq<byte>, o: nat, take: nat, got: seq<byte>)
    requires o + take + |got| <= |s| && got == s[o + take..o + take + |got|]
    ensures s[o..o + take] + got == s[o..o + take + |got|]
  {
  }

  lemma AdvanceAt(w: World, st: State, take: nat, g: nat, o: nat)
    requires AtOffset(w, st, g, o) && st.current.value.pos + take <= |st.current.value.data|
    ensures AtOffset(w, Advance(st, take), g, o + take)
  {
  }

  /** If the record survives, so does its continuation in the next file. */
  lemma NextHeld(w: World, g: nat, e: nat, j: nat, o: nat)
    requires w.Valid() && w.Survives(g) && w.log.InRange(g) && w.log.files[g].epoch == e
    requires o == w.log.files[g].start + |w.Left(g)|
    requires w.RecordSurvives(Place(e, j)) && w.log.epochs[e].Start(j) < o < w.log.epochs[e].Start(j + 1)
    ensures w.Survives(g + 1) && w.log.SameEpoch(g) && |w.Left(g)| == w.log.epochs[e].dsize
  {
    hide Usable;
    hide OpenValidated;
    hide World.Removed;
    LogOf(w);
    assert w.ByteSurvives(e, o);
    var h: nat :| w.Holds(h, e, o);
    HeldNext(w, g, h, e, o);
    assert w.log.SameEpoch(g) || w.log.Resumed(g) || w.log.NewSession(g);
  }

  lemma HeldNext(w: World, g: nat, h: nat, e: nat, x: nat)
    requires w.Valid() && w.Survives(g) && w.Holds(h, e, x)
    requires e == w.log.files[g].epoch && x == w.log.files[g].start + |w.Left(g)|
    ensures w.log.InRange(g) && h == g + 1 && |w.Left(g)| == w.log.epochs[e].dsize
  {
    HeldLater(w, g, h, e, x);
  }

  lemma MustCross(w: World, st: State, cur: Cursor, g: nat, j: nat, o: nat)
    requires w.Valid() && AtOffset(w, st, g, o) && st.Exhausted() && w.log.InRange(g)
    requires var ep := w.log.epochs[w.log.files[g].epoch];
             && CursorIn(ep, j, o, cur) && ep.Start(j) < o < ep.Start(j + 1)
             && (cur.total.None? ==> o < ep.Start(j) + ep.Head())
    requires w.RecordSurvives(Place(w.log.files[g].epoch, j))
    ensures Cross(w.dir, st, cur).fault.None?
  {
    hide Cross;
    hide PendingAfter;
    hide World.Removed;
    hide World.ResumptionsHeld;
    hide World.RecordSurvives;
    hide Sound;
    hide CursorIn;
    FileFacts(w, st, g);
    Exhaust(w, st, g, o);
    NextHeld(w, g, w.log.files[g].epoch, j, o);
    CrossSucceeds(w, st, cur, g, j, o);
  }

  lemma Exhaust(w: World, st: State, g: nat, o: nat)
    requires w.Valid() && AtOffset(w, st, g, o) && st.Exhausted()
    ensures w.Survives(g) && o == w.log.files[g].start + |w.Left(g)|
  {
    FileFacts(w, st, g);
  }

  // --------------------------------------------------- between two records

  /** The record at p is still to come for a reader in this state. */
  ghost predicate Ahead(w: World, st: State, g0: int, p: Place) {
    && w.IsPlace(p)
    && var x := w.log.epochs[p.e].Start(p.j);
       if st.current.Some? then
         && 0 <= g0 && w.log.InRange(g0)
         && (p.e > w.log.files[g0].epoch
             || (p.e == w.log.files[g0].epoch && x >= w.log.files[g0].start + st.current.value.pos))
       else forall h: nat :: w.Holds(h, p.e, x) ==> h > g0
  }

  /** A record that starts at or after the end of what is left of file g can
      only start in a later file. */
  lemma HomeAfter(w: World, g: nat, p: Place)
    requires w.Valid() && w.Survives(g) && w.log.InRange(g) && w.IsPlace(p)
    requires var f := w.log.files[g];
             p.e > f.epoch || (p.e == f.epoch && w.log.epochs[p.e].Start(p.j) >= f.start + |w.Left(g)|)
    ensures forall h: nat :: w.Holds(h, p.e, w.log.epochs[p.e].Start(p.j)) ==> h > g
  {
    hide World.Removed;
    hide Usable;
    hide OpenValidated;
    LogOf(w);
    var x := w.log.epochs[p.e].Start(p.j);
    forall h: nat | w.Holds(h, p.e, x)
      ensures h > g
    {
      if p.e == w.log.files[g].epoch {
        HeldAfter(w, g, h, p.e, x);
      } else if h < g {
        FilesOrdered(w.log, h, g);
      }
    }
  }

  lemma HeldAfter(w: World, g: nat, h: nat, e: nat, x: nat)
    requires w.Valid() && w.Survives(g) && w.Holds(h, e, x)
    requires e == w.log.files[g].epoch && x >= w.log.files[g].start + |w.Left(g)|
    ensures h > g
  {
    HeldLater(w, g, h, e, x);
  }

  /** An accepted crossing between records: into the rest of the epoch, or the
      next epoch of the session. */
  ghost function NextPlace(w: World, g: nat, lb: Place): Place {
    if w.log.SameEpoch(g) then lb else Place(lb.e + 1, 0)
  }

  lemma AcceptedAt(w: World, st: State, st1: State, cur: Cursor, g: nat, h: nat, lb: Place)
    requires w.Valid() && JustOpened(w, st, st1, g, h)
    requires ReadingAt(w, st, g, lb) && st.Exhausted() && cur.consumed == 0
    requires Judge(st, st1, cur).fault.None?
    ensures h == g + 1 && ReadingAt(w, st1, h, NextPlace(w, g, lb)) && Judge(st, st1, cur).cur == cur
    ensures Le(lb, NextPlace(w, g, lb)) && w.log.InRange(g) && w.log.InRange(h)
    ensures NextPlace(w, g, lb).e < |w.log.epochs|
    ensures CodedAlike(w.log.epochs[NextPlace(w, g, lb).e], w.log.epochs[lb.e])
    ensures w.log.SameEpoch(g) || w.log.Resumed(g)
    ensures forall p :: Ahead(w, st, g, p) && w.RecordSurvives(p) ==> Ahead(w, st1, h, p)
  {
    hide PendingAfter;
    hide World.Survives;
    hide World.Removed;
    hide Gone;
    hide Sound;
    hide World.RecordSurvives;
    JustOpenedFacts(w, st, st1, g, h);
    LogOf(w);
    NextInSession(w, g, h);
    Exhaust(w, st, g, w.log.epochs[lb.e].Start(lb.j));
    assert w.log.epochs[w.log.files[h].epoch].Start(0) == 0;
    assert AtOffset(w, st1, h, w.log.files[h].start);
    forall p | Ahead(w, st, g, p) && w.RecordSurvives(p)
      ensures Ahead(w, st1, h, p)
    {
      if w.log.Resumed(g) { EpochOver(w, g, p); }
    }
  }

  /** Nothing of an epoch survives past its last file. */
  lemma EpochOver(w: World, g: nat, p: Place)
    requires w.Valid() && w.log.Resumed(g) && w.Survives(g) && w.RecordSurvives(p)
    ensures p.e == w.log.files[g].epoch ==>
      w.log.epochs[p.e].Start(p.j) < w.log.files[g].start + |w.Left(g)|
  {
    hide Usable;
    hide OpenValidated;
    hide World.Removed;
    var x := w.log.epochs[p.e].Start(p.j);
    LogOf(w);
    StartGrows(w.log.epochs[p.e], p.j, p.j + 1);
    assert w.ByteSurvives(p.e, x);
    var h: nat :| w.Holds(h, p.e, x);
    LeftShort(w, h);
    if h > g + 1 {
      FilesOrdered(w.log, g + 1, h);
    } else if h < g {
      FilesOrdered(w.log, h, g);
    }
  }

  lemma LeftShort(w: World, g: nat)
    requires w.Valid() && w.Survives(g)
    ensures w.log.InRange(g) && |w.Left(g)| <= w.log.files[g].len <= w.log.epochs[w.log.files[g].epoch].dsize
  {
    UsableIsTrue(w, w.log.files[g].id);
  }

  lemma CrossAt(w: World, st: State, cur: Cursor, g: nat, lb: Place)
    requires w.Valid() && ReadingAt(w, st, g, lb) && st.Exhausted() && cur.consumed == 0
    requires cur.total.Some? ==> w.log.epochs[lb.e].fmt.Fixed?
    ensures var c := Cross(w.dir, st, cur);
            if c.fault.None? then
              && ReadingAt(w, c.st, g + 1, NextPlace(w, g, lb)) && c.cur == cur
              && Le(lb, NextPlace(w, g, lb)) && w.log.InRange(g) && w.log.InRange(g + 1)
              && NextPlace(w, g, lb).e < |w.log.epochs|
              && CodedAlike(w.log.epochs[NextPlace(w, g, lb).e], w.log.epochs[lb.e])
              && (w.log.SameEpoch(g) || w.log.Resumed(g))
              && forall p :: Ahead(w, st, g, p) && w.RecordSurvives(p) ==> Ahead(w, c.st, g + 1, p)
            else
              && Resting(w, c.st, g, lb) && !c.fault.value.Eof?
              && forall p :: Ahead(w, st, g, p) && w.RecordSurvives(p) ==> Ahead(w, c.st, g, p)
  {
    hide OpenNext;
    hide Judge;
    hide World.Valid;
    hide World.RecordSurvives;
    hide PendingAfter;
    hide AtFile;
    hide AtOffset;
    hide ReadingAt;
    hide Resting;
    hide Ahead;
    hide Gone;
    hide NextPlace;
    var st0 := st.(current := None);
    var (opening, st1) := OpenNext(w.dir, st0);
    ReadingFacts(w, st, g, lb);
    var h := OpenNextTruth(w, st0, g);
    forall p, st2: State | Ahead(w, st, g, p) && w.RecordSurvives(p) && st2.current.None?
      ensures Ahead(w, st2, g, p)
    {
      AheadRests(w, st, g, lb, p, st2);
    }
    match opening
    case NoMore => RestingAt(w, st1, g, lb);
    case NewSession => RestingAt(w, Cross(w.dir, st, cur).st, g, lb);
    case Opened =>
      if Judge(st, st1, cur).fault.None? {
        AcceptedAt(w, st, st1, cur, g, h, lb);
      } else {
        Refused(w, st, st1, cur, g, h, lb.j, w.log.epochs[lb.e].Start(lb.j), lb);
      }
  }

  lemma ReadingFacts(w: World, st: State, g: nat, lb: Place)
    requires w.Valid() && ReadingAt(w, st, g, lb)
    ensures w.log.InRange(g) && lb.e == w.log.files[g].epoch && lb.j <= |w.log.epochs[lb.e].recs|
    ensures AtFile(w, st, g) && AtOffset(w, st, g, w.log.epochs[lb.e].Start(lb.j))
    ensures w.Survives(g) && st.current.Some? && st.session.Some? && st.recovery.None? && st.startLost == 0
    ensures PendingAfter(w, st.pending, g) && Bounded(w, g, lb)
  {
    hide World.Removed;
    hide Bounded;
    FileFacts(w, st, g);
    BoundedFrom(w, st, g, lb);
  }

  lemma RestingAt(w: World, st: State, g: nat, lb: Place)
    requires st.current.None? && st.recovery.None? && PendingAfter(w, st.pending, g) && Bounded(w, g, lb)
    ensures Resting(w, st, g, lb)
  {
  }

  lemma AheadRests(w: World, st: State, g: nat, lb: Place, p: Place, st2: State)
    requires w.Valid() && ReadingAt(w, st, g, lb) && st.Exhausted()
    requires Ahead(w, st, g, p) && st2.current.None?
    ensures Ahead(w, st2, g, p)
  {
    hide World.Valid;
    hide PendingAfter;
    hide World.Survives;
    hide World.Holds;
    FileFacts(w, st, g);
    Exhaust(w, st, g, w.log.epochs[lb.e].Start(lb.j));
    HomeAfter(w, g, p);
  }

  lemma BoundedFrom(w: World, st: State, g: nat, lb: Place)
    requires w.Valid() && ReadingAt(w, st, g, lb)
    ensures Bounded(w, g, lb)
  {
    hide World.Removed;
    hide PendingAfter;
    FileFacts(w, st, g);
    LogOf(w);
    if lb.j > 0 { StartGrows(w.log.epochs[lb.e], lb.j - 1, lb.j); }
    BoundedAfter(w, g, lb.j);
  }

  // ------------------------------------------------- reading a fresh record

  /** The reader asks for the first n bytes of whatever record comes next: its
      data header, or all of a fixed-length record. */
  ghost predicate FreshAsk(ep: Epoch, cur: Cursor, n: nat) {
    && cur.consumed == 0 && cur.implied.None?
    && (if ep.fmt.Fixed? then n == ep.fmt.n && cur.total == Some(n) else n == ep.Head() && cur.total.None?)
  }

  /** Reading began at place rec, at or after lb: at lb itself unless a write
      fault had ended the epoch there. */
  ghost predicate Began(w: World, lb: Place, rec: Place) {
    && w.IsPlace(rec) && Le(lb, rec)
    && lb.e < |w.log.epochs| && CodedAlike(w.log.epochs[rec.e], w.log.epochs[lb.e])
    && (rec != lb ==> w.log.WriteAbandoned())
  }

  /** What asking for the start of the next record comes to. */
  ghost predicate FreshAs(w: World, st: State, g: nat, lb: Place, n: nat, f: FillOut, g1: nat, rec: Place, lb1: Place) {
    && (f.fault.None? || f.got != [] ==>
          && Began(w, lb, rec)
          && StreamBytes(w.log.epochs[rec.e], w.log.epochs[rec.e].Start(rec.j), f.got))
    && (f.fault.None? ==>
          && FilledTo(w, g1, rec.e, rec.j, w.log.epochs[rec.e].Start(rec.j) + n, f.st, f.cur)
          && Held(w, rec.e, w.log.epochs[rec.e].Start(rec.j), w.log.epochs[rec.e].Start(rec.j) + n)
          && |f.got| == n
          && forall p :: Ahead(w, st, g, p) && w.RecordSurvives(p) ==> Le(rec, p))
    && (f.fault.Some? ==>
          && Resting(w, f.st, g1, lb1) && Le(lb, lb1) && !f.fault.value.Eof?
          && (f.got != [] ==> lb1 == Place(rec.e, rec.j + 1))
          && forall p :: Ahead(w, st, g, p) && w.RecordSurvives(p) ==> Ahead(w, f.st, g1, p))
  }

  lemma {:induction false} FillFresh(w: World, st: State, cur: Cursor, n: nat, g: nat, lb: Place)
    returns (g1: nat, rec: Place, lb1: Place)
    requires w.Valid() && ReadingAt(w, st, g, lb)
    requires FreshAsk(w.log.epochs[lb.e], cur, n) && n > 0
    ensures FreshAs(w, st, g, lb, n, Fill(w.dir, st, cur, n), g1, rec, lb1)
    decreases |st.pending|
  {
    hide *;
    g1, rec, lb1 := g, lb, lb;
    if st.Exhausted() {
      FillUnfold(w.dir, st, cur, n);
      ReadingFacts(w, st, g, lb);
      InEpochs(w, g);
      FreshTotal(w.log.epochs[lb.e], cur, n);
      var c := Cross(w.dir, st, cur);
      CrossAt(w, st, cur, g, lb);
      if c.fault.None? {
        var next := NextPlace(w, g, lb);
        AskedAlike(w.log.epochs[next.e], w.log.epochs[lb.e], cur, n);
        g1, rec, lb1 := FillFresh(w, c.st, cur, n, g + 1, next);
        FreshAcross(w, st, c.st, g, lb, next, n, Fill(w.dir, c.st, cur, n), g1, rec, lb1);
      } else {
        FreshNothing(w, st, g, lb, n, c);
      }
    } else {
      g1 := FillHere(w, st, cur, n, g, lb);
      lb1 := Place(lb.e, lb.j + 1);
    }
  }

  lemma InEpochs(w: World, g: nat)
    requires w.log.InRange(g)
    ensures w.log.files[g].epoch < |w.log.epochs|
  {
  }

  lemma AskedAlike(ep: Epoch, other: Epoch, cur: Cursor, n: nat)
    requires CodedAlike(ep, other) && FreshAsk(other, cur, n)
    ensures FreshAsk(ep, cur, n)
  {
  }

  lemma FreshTotal(ep: Epoch, cur: Cursor, n: nat)
    requires FreshAsk(ep, cur, n)
    ensures cur.consumed == 0 && (cur.total.Some? ==> ep.fmt.Fixed?)
  {
  }

  lemma FreshNothing(w: World, st: State, g: nat, lb: Place, n: nat, c: CrossOut)
    requires c.fault.Some? && Resting(w, c.st, g, lb) && !c.fault.value.Eof?
    requires forall p :: Ahead(w, st, g, p) && w.RecordSurvives(p) ==> Ahead(w, c.st, g, p)
    ensures FreshAs(w, st, g, lb, n, FillOut([], c.fault, c.st, c.cur), g, lb, lb)
  {
    hide Resting;
    hide Ahead;
    hide World.RecordSurvives;
  }

  lemma FreshAcross(w: World, st: State, st1: State, g: nat, lb: Place, next: Place, n: nat, f: FillOut,
                    g1: nat, rec: Place, lb1: Place)
    requires FreshAs(w, st1, g + 1, next, n, f, g1, rec, lb1)
    requires lb.e < |w.log.epochs| && next.e < |w.log.epochs| && Le(lb, next)
    requires CodedAlike(w.log.epochs[next.e], w.log.epochs[lb.e])
    requires next == NextPlace(w, g, lb) && (w.log.SameEpoch(g) || w.log.Resumed(g))
    requires forall p :: Ahead(w, st, g, p) && w.RecordSurvives(p) ==> Ahead(w, st1, g + 1, p)
    ensures FreshAs(w, st, g, lb, n, f, g1, rec, lb1)
  {
    hide Resting;
    hide Ahead;
    hide World.RecordSurvives;
    hide FilledTo;
    hide StreamBytes;
  }

  /** The next record starts in the open file. */
  lemma FillHere(w: World, st: State, cur: Cursor, n: nat, g: nat, lb: Place) returns (g1: nat)
    requires w.Valid() && ReadingAt(w, st, g, lb) && !st.Exhausted()
    requires FreshAsk(w.log.epochs[lb.e], cur, n) && n > 0
    ensures FreshAs(w, st, g, lb, n, Fill(w.dir, st, cur, n), g1, lb, Place(lb.e, lb.j + 1))
  {
    hide *;
    ReadingFacts(w, st, g, lb);
    StartsHere(w, st, cur, n, g, lb);
    var o := w.log.epochs[lb.e].Start(lb.j);
    g1 := FillIn(w, st, cur, n, g, lb.e, lb.j, o);
    var f := Fill(w.dir, st, cur, n);
    forall p | Ahead(w, st, g, p) && w.RecordSurvives(p)
      ensures Le(lb, p) && (f.fault.Some? ==> Ahead(w, f.st, g1, p))
    {
      AheadOfHere(w, st, g, lb, p);
      if f.fault.Some? { AheadOfStop(w, g1, lb, o, n, f, p); }
    }
    HereAs(w, st, g, lb, o, n, f, g1);
  }

  lemma StartsHere(w: World, st: State, cur: Cursor, n: nat, g: nat, lb: Place)
    requires w.Valid() && ReadingAt(w, st, g, lb) && !st.Exhausted()
    requires FreshAsk(w.log.epochs[lb.e], cur, n)
    ensures w.IsPlace(lb) && lb.e < |w.log.epochs| && lb.j < |w.log.epochs[lb.e].recs|
    ensures var o := w.log.epochs[lb.e].Start(lb.j);
            FilledTo(w, g, lb.e, lb.j, o, st, cur) && Asked(w, lb.e, lb.j, o, n, st, cur)
  {
    hide World.Removed;
    hide World.ResumptionsHeld;
    hide PendingAfter;
    hide Sound;
    FileFacts(w, st, g);
    LogOf(w);
    var ep := w.log.epochs[lb.e];
    assert lb.j < |ep.recs|;
    assert ValidRecord(ep.fmt, ep.recs[lb.j], ep.minor);
    StartGrows(ep, lb.j, lb.j + 1);
  }

  lemma AheadOfHere(w: World, st: State, g: nat, lb: Place, p: Place)
    requires w.Valid() && ReadingAt(w, st, g, lb) && Ahead(w, st, g, p)
    ensures Le(lb, p)
  {
    hide World.Removed;
    hide World.ResumptionsHeld;
    hide PendingAfter;
    hide Sound;
    LogOf(w);
    if p.e == lb.e && p.j < lb.j { StartGrows(w.log.epochs[p.e], p.j, lb.j); }
  }

  /** Once record rec is given up, later survivors start in later files. */
  lemma AheadOfStop(w: World, g: nat, rec: Place, o: nat, n: nat, f: FillOut, p: Place)
    requires w.Valid() && FilledAs(w, g, rec.e, rec.j, o, n, f) && f.fault.Some?
    requires Le(rec, p) && w.RecordSurvives(p)
    ensures Ahead(w, f.st, g, p)
  {
    hide World.Removed;
    hide World.ResumptionsHeld;
    hide PendingAfter;
    hide World.Holds;
    hide World.ByteSurvives;
    hide Usable;
    hide Bounded;
    hide HintTrue;
    LogOf(w);
    if p.e == rec.e {
      assert p.j > rec.j;
      StartGrows(w.log.epochs[p.e], rec.j + 1, p.j);
    }
    HomeAfter(w, g, p);
  }

  lemma HereAs(w: World, st: State, g: nat, lb: Place, o: nat, n: nat, f: FillOut, g1: nat)
    requires w.IsPlace(lb) && o == w.log.epochs[lb.e].Start(lb.j)
    requires FilledAs(w, g1, lb.e, lb.j, o, n, f) && (f.fault.None? ==> |f.got| == n)
    requires forall p :: Ahead(w, st, g, p) && w.RecordSurvives(p) ==> Le(lb, p)
    requires f.fault.Some? ==> forall p :: Ahead(w, st, g, p) && w.RecordSurvives(p) ==> Ahead(w, f.st, g1, p)
    ensures FreshAs(w, st, g, lb, n, f, g1, lb, Place(lb.e, lb.j + 1))
  {
    hide Resting;
    hide Ahead;
    hide World.RecordSurvives;
    hide Held;
    hide FilledTo;
    hide StreamBytes;
  }
}
