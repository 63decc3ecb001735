/** How many files the reader reports lost: a gap found by a crossing is
    counted exactly, and no run reports more files lost than are gone
    (tcslog/src/read.rs). */
module LossCounts {
  import opened Bytes
  import opened Format
  import opened Names
  import opened ReadSpec
  import opened ReadEnds
  import opened Layout
  import opened Damage
  import opened Standing
  import opened ReadTruth

  /** The first survivor after file g, or the end of the log. */
  ghost function NextSurvivor(w: World, g: int): (x: int)
    requires -1 <= g
    ensures g < x && Gone(w, g, x) && (g < |w.log.files| ==> x <= |w.log.files|)
    ensures x < |w.log.files| ==> w.Survives(x)
    decreases |w.log.files| - g
  {
    if g + 1 >= |w.log.files| || w.Survives(g + 1) then g + 1 else NextSurvivor(w, g + 1)
  }

  lemma NextWithin(w: World, g: int)
    requires -1 <= g < |w.log.files|
    ensures g < NextSurvivor(w, g) <= |w.log.files|
  {
  }

  /** How many files after g are missing or cannot be used. */
  ghost function GoneAfter(w: World, g: int): nat
    requires -1 <= g
    decreases |w.log.files| - g
  {
    if g + 1 >= |w.log.files| then 0
    else (if w.Survives(g + 1) then 0 else 1) + GoneAfter(w, g + 1)
  }

  lemma {:induction false} GoneToNext(w: World, g: int, x: int)
    requires -1 <= g < x <= |w.log.files| && Gone(w, g, x)
    ensures x < |w.log.files| && w.Survives(x) ==> GoneAfter(w, g) == x - g - 1 + GoneAfter(w, x)
    ensures x == |w.log.files| ==> GoneAfter(w, g) == x - g - 1
    decreases x - g
  {
    if g + 1 < x {
      assert !w.Survives(g + 1);
      GoneToNext(w, g + 1, x);
    }
  }

  // ----------------------------------------------------------- the books

  /** With no file open, files up to g0 done with: the next survivor belongs to
      the session being read, or all its session's earlier files are gone. */
  ghost predicate Between(w: World, st: State, g0: int) {
    && -1 <= g0 < |w.log.files| && st.current.None? && PendingAfter(w, st.pending, g0)
    && var x := NextSurvivor(w, g0);
       x < |w.log.files| ==> st.session == Some(w.log.files[x].session) || g0 < w.log.Base(x)
  }

  ghost predicate Booked(w: World, st: State, g0: int) {
    if st.current.Some? then g0 >= 0 && AtFile(w, st, g0) else Between(w, st, g0)
  }

  /** The losses the reader may still report. */
  ghost function Budget(w: World, st: State, g0: int): nat
    requires -1 <= g0
  {
    if st.current.Some? then st.startLost + GoneAfter(w, g0)
    else
      var x := NextSurvivor(w, g0);
      (if st.session.Some? then st.startLost else 0)
      + (if x >= |w.log.files| then 0
         else (if st.session == Some(w.log.files[x].session) then 0 else w.log.files[x].ordinal) + GoneAfter(w, x))
  }

  lemma NextIs(w: World, g: int, x: int)
    requires -1 <= g < x && Gone(w, g, x) && (x < |w.log.files| ==> w.Survives(x)) && x <= |w.log.files|
    ensures NextSurvivor(w, g) == x
  {
    var y := NextSurvivor(w, g);
    assert !(g < y < x && w.Survives(y));
    assert !(g < x < y && w.Survives(x));
  }

  /** Opening the next file reports nothing and costs nothing. */
  lemma OpenNextBooked(w: World, st: State, g0: int) returns (g: int)
    requires w.Valid() && Between(w, st, g0)
    ensures var (opening, st1) := OpenNext(w.dir, st);
            && Booked(w, st1, g) && Budget(w, st1, g) <= Budget(w, st, g0)
            && (!opening.Opened? ==> g == g0 && st1.current.None?)
            && (opening.Opened? ==> g == NextSurvivor(w, g0) && st1.current.Some? && w.Survives(g))
            && (opening.NewSession? && st.session.Some? ==>
                  && Booked(w, st1.(session := st.session), g0)
                  && Budget(w, st1.(session := st.session), g0) <= Budget(w, st, g0))
  {
    hide OpenNext;
    hide PendingAfter;
    hide World.Removed;
    hide World.Survives;
    hide NextSurvivor;
    hide GoneAfter;
    hide Sound;
    var (opening, st1) := OpenNext(w.dir, st);
    var h := OpenNextTruth(w, st, g0);
    g := g0;
    match opening
    case NoMore =>
      NextIs(w, g0, |w.log.files|);
    case NewSession =>
      SurvivorIn(w, h);
      NextIs(w, g0, h);
    case Opened =>
      g := h;
      FileFacts(w, st1, h);
      NextIs(w, g0, h);
  }

  lemma SurvivorIn(w: World, g: int)
    requires w.Survives(g)
    ensures g < |w.log.files|
  {
  }

  // ------------------------------------------------------------- crossings

  /** The session of the next survivor tells how far it is. */
  lemma NextDistance(w: World, g: nat)
    requires w.Valid() && w.Survives(g) && NextSurvivor(w, g) < |w.log.files|
    ensures var x := NextSurvivor(w, g);
            if w.log.files[x].session == w.log.files[g].session
            then w.log.files[x].ordinal - w.log.files[g].ordinal == x - g
            else g < w.log.Base(x)
    ensures w.log.InRange(g)
  {
    hide World.Removed;
    hide Usable;
    hide NextSurvivor;
    var x := NextSurvivor(w, g);
    LogOf(w);
    SessionsApart(w, g, x);
    FilesOrdered(w.log, g, x);
    BaseOfBase(w.log, g, x);
  }

  /** Files from a session's first on are of that session. */
  lemma {:induction false} BaseOfBase(log: Log, g: nat, x: nat)
    requires log.Valid() && g <= x < |log.files|
    ensures log.Base(x) <= g ==> log.Base(g) == log.Base(x)
    decreases x - g
  {
    if g < x {
      assert log.InRange(x) && log.InRange(x - 1);
      assert log.SameEpoch(x - 1) || log.Resumed(x - 1) || log.NewSession(x - 1);
      BaseOfBase(log, g, x - 1);
    }
  }

  /** The file a crossing opens, and what it makes of it. */
  lemma CrossOpens(w: World, st: State, cur: Cursor, g: nat)
    requires w.Valid() && AtFile(w, st, g)
    ensures var (opening, st1) := OpenNext(w.dir, st.(current := None));
            var x := NextSurvivor(w, g);
            opening.Opened? ==>
              && x < |w.log.files| && w.log.files[x].session == w.log.files[g].session
              && AtFile(w, st1, x) && st1.session == st.session && st1.startLost == st.startLost
              && Skipped(st.prevSeq, st1.current.value.header.sequence) == x - g - 1
              && (x > g + 1 ==> !InSequence(st.prevSeq, st1.current.value.header.sequence))
              && PendingAfter(w, [st1.current.value.id] + st1.pending, g)
    ensures OpenNext(w.dir, st.(current := None)).0.NewSession? ==>
              NextSurvivor(w, g) < |w.log.files| && w.log.files[NextSurvivor(w, g)].session != w.log.files[g].session
    ensures OpenNext(w.dir, st.(current := None)).0.NoMore? ==> NextSurvivor(w, g) == |w.log.files|
  {
    hide OpenNext;
    hide PendingAfter;
    hide World.Removed;
    hide World.Survives;
    hide NextSurvivor;
    hide Sound;
    hide Gone;
    var st0 := st.(current := None);
    var (opening, st1) := OpenNext(w.dir, st0);
    FileFacts(w, st, g);
    PendingOf(w, st, g);
    var h := OpenNextTruth(w, st0, g);
    match opening
    case NoMore =>
      NextIs(w, g, |w.log.files|);
    case NewSession =>
      SurvivorIn(w, h);
      NextIs(w, g, h);
    case Opened =>
      FileFacts(w, st1, h);
      PendingOf(w, st1, h);
      NextIs(w, g, h);
      NextDistance(w, g);
      PendingBack(w, st1.pending, h, g);
  }

  /** A crossing finds as many files lost as are gone between the file it
      leaves and the next one of the session, and none otherwise. */
  lemma CrossingCountsGap(w: World, st: State, cur: Cursor, g: nat)
    requires w.Valid() && AtFile(w, st, g)
    ensures var c := Cross(w.dir, st, cur);
            var x := NextSurvivor(w, g);
            c.fault.Some? && c.fault.value.Truncated? && c.fault.value.lost > 0 ==>
              && x < |w.log.files| && w.log.files[x].session == w.log.files[g].session
              && c.fault.value.lost == x - g - 1 && GoneAfter(w, g) == c.fault.value.lost + GoneAfter(w, x)
    ensures var x := NextSurvivor(w, g);
            x < |w.log.files| && w.log.files[x].session == w.log.files[g].session && x > g + 1 ==>
              Cross(w.dir, st, cur).fault == Some(Truncated(x - g - 1))
  {
    hide OpenNext;
    hide PendingAfter;
    hide World.Survives;
    hide World.Valid;
    hide Sound;
    hide NoteImplied;
    hide Continues;
    hide Skipped;
    hide InSequence;
    CrossOpens(w, st, cur, g);
    GoneToNext(w, g, NextSurvivor(w, g));
  }

  ghost function LostBy(fault: Option<Fault>): nat {
    if fault.Some? && fault.value.Truncated? then fault.value.lost else 0
  }

  /** Accepting or refusing the next survivor, of the same session. */
  lemma JudgeBooked(w: World, st: State, st1: State, cur: Cursor, g: nat, x: nat)
    requires w.Valid() && AtFile(w, st, g) && AtFile(w, st1, x) && x == NextSurvivor(w, g) < |w.log.files|
    requires w.log.files[x].session == w.log.files[g].session
    requires st1.session == st.session && st1.startLost == st.startLost
    requires Skipped(st.prevSeq, st1.current.value.header.sequence) == x - g - 1
    requires PendingAfter(w, [st1.current.value.id] + st1.pending, g)
    ensures var c := Judge(st, st1, cur);
            var g1 := if c.fault.None? then x else g;
            && Booked(w, c.st, g1) && (c.fault.None? ==> c.st.current.Some?)
            && Budget(w, c.st, g1) + LostBy(c.fault) <= Budget(w, st, g)
  {
    hide World.Survives;
    hide World.Valid;
    hide Sound;
    hide NoteImplied;
    hide Continues;
    hide Short;
    hide Skipped;
    hide InSequence;
    hide PendingAfter;
    hide NextSurvivor;
    hide Gone;
    hide GoneAfter;
    FileFacts(w, st, g);
    GoneToNext(w, g, x);
  }

  /** No crossing reports more than the budget it uses up. */
  lemma CrossBooked(w: World, st: State, cur: Cursor, g: nat) returns (g1: int)
    requires w.Valid() && AtFile(w, st, g)
    ensures var c := Cross(w.dir, st, cur);
            && Booked(w, c.st, g1) && g1 >= -1
            && (c.fault.None? ==> c.st.current.Some?)
            && Budget(w, c.st, g1) + LostBy(c.fault) <= Budget(w, st, g)
  {
    hide OpenNext;
    hide World.Survives;
    hide World.Valid;
    hide Sound;
    hide Judge;
    hide Skipped;
    hide InSequence;
    hide PendingAfter;
    hide Booked;
    hide Budget;
    hide NextSurvivor;
    hide Gone;
    var st0 := st.(current := None);
    FileFacts(w, st, g);
    CrossOpens(w, st, cur, g);
    var (opening, st1) := OpenNext(w.dir, st0);
    ClosedBooked(w, st, g);
    g1 := OpenNextBooked(w, st0, g);
    if opening.Opened? {
      var x := NextSurvivor(w, g);
      JudgeBooked(w, st, st1, cur, g, x);
      g1 := if Judge(st, st1, cur).fault.None? then x else g;
    } else {
      RestoreSession(w, st, st1, g);
    }
  }

  /** Closing the file at its end costs nothing. */
  lemma ClosedBooked(w: World, st: State, g: nat)
    requires w.Valid() && AtFile(w, st, g)
    ensures Between(w, st.(current := None), g) && Budget(w, st.(current := None), g) <= Budget(w, st, g)
  {
    hide World.Survives;
    hide World.Valid;
    hide Sound;
    hide PendingAfter;
    hide NextSurvivor;
    hide GoneAfter;
    hide Gone;
    FileFacts(w, st, g);
    PendingOf(w, st, g);
    NextWithin(w, g);
    GoneToNext(w, g, NextSurvivor(w, g));
    if NextSurvivor(w, g) < |w.log.files| { NextDistance(w, g); }
  }

  /** The sequence last seen has no part in the books. */
  lemma RestoreSession(w: World, st: State, st1: State, g: nat)
    requires st1.current.None?
    ensures forall s, q :: Booked(w, st1.(session := s, prevSeq := q), g) <==> Booked(w, st1.(session := s), g)
    ensures forall s, q :: Budget(w, st1.(session := s, prevSeq := q), g) == Budget(w, st1.(session := s), g)
  {
    hide World.Survives;
    hide PendingAfter;
  }

  // --------------------------------------------------------- whole reads

  lemma {:induction false} FillBooked(w: World, st: State, cur: Cursor, n: nat, g: nat) returns (g1: int)
    requires w.Valid() && AtFile(w, st, g)
    ensures var f := Fill(w.dir, st, cur, n);
            && g1 >= -1 && Booked(w, f.st, g1) && (f.fault.None? ==> f.st.current.Some?)
            && Budget(w, f.st, g1) + LostBy(f.fault) <= Budget(w, st, g)
    decreases n, |st.pending|
  {
    hide *;
    g1 := g;
    IsBooked(w, st, g);
    if n == 0 {
      FillZero(w.dir, st, cur);
      NoneLost();
    } else {
      FillUnfold(w.dir, st, cur, n);
      if st.Exhausted() {
        var c := Cross(w.dir, st, cur);
        g1 := CrossBooked(w, st, cur, g);
        if c.fault.None? {
          IsOpen(w, c.st, g1);
          NoneLost();
          g1 := FillBooked(w, c.st, c.cur, n, g1);
        }
      } else {
        var take := Portion(st, n);
        var st1 := Advance(st, take);
        AdvanceBooked(w, st, take, g);
        g1 := FillBooked(w, st1, cur.(consumed := cur.consumed + take), n - take, g);
        var f := Fill(w.dir, st1, cur.(consumed := cur.consumed + take), n - take);
        PrefixKeeps(f, st.current.value.data[st.current.value.pos..st.current.value.pos + take]);
      }
    }
  }

  lemma IsBooked(w: World, st: State, g: nat)
    requires AtFile(w, st, g)
    ensures Booked(w, st, g) && st.current.Some?
  {
  }

  lemma IsOpen(w: World, st: State, g: int)
    requires Booked(w, st, g) && st.current.Some?
    ensures g >= 0 && AtFile(w, st, g)
  {
  }

  lemma NoneLost()
    ensures LostBy(None) == 0
  {
  }

  lemma PrefixKeeps(f: FillOut, front: seq<byte>)
    ensures f.Prefixed(front).st == f.st && f.Prefixed(front).fault == f.fault
  {
  }

  lemma AdvanceBooked(w: World, st: State, take: nat, g: nat)
    requires AtFile(w, st, g) && st.current.value.pos + take <= |st.current.value.data|
    ensures AtFile(w, Advance(st, take), g) && Budget(w, Advance(st, take), g) == Budget(w, st, g)
  {
  }

  /** Handing back the open file keeps the books. */
  lemma RejectBooked(w: World, st: State, g: nat)
    requires w.Valid() && AtFile(w, st, g)
    ensures Booked(w, Lose(Reject(st)), g - 1) && Budget(w, Lose(Reject(st)), g - 1) == Budget(w, st, g)
  {
    hide World.Removed;
    hide Sound;
    FileFacts(w, st, g);
    PendingOf(w, st, g);
    PendingBack(w, st.pending, g, g - 1);
  }

  /** The flags and the metadata kept for the caller are not in the books. */
  lemma BooksApart(w: World, st: State, g: int, meta: Meta)
    requires g >= -1
    ensures Booked(w, st.(lastMeta := meta), g) == Booked(w, st, g)
    ensures Budget(w, st.(lastMeta := meta), g) == Budget(w, st, g)
    ensures forall b :: Booked(w, st.(resync := b), g) == Booked(w, st, g)
    ensures forall b :: Budget(w, st.(resync := b), g) == Budget(w, st, g)
    ensures st.current.None? ==>
      Booked(w, Lose(st), g) == Booked(w, st, g) && Budget(w, Lose(st), g) == Budget(w, st, g)
  {
    hide PendingAfter;
    hide OpenValidated;
    hide NextSurvivor;
  }

  ghost function LostIn(att: Attempt): nat {
    LostBy(if att.Nothing? then Some(att.fault) else att.cause)
  }

  lemma PayloadBooked(w: World, st: State, cur: Cursor, want: nat, meta: Meta, g: nat) returns (g1: int)
    requires w.Valid() && AtFile(w, st, g)
    ensures var (att, st1) := ReadPayload(w.dir, st, cur, want, meta);
            g1 >= -1 && Booked(w, st1, g1) && Budget(w, st1, g1) + LostIn(att) <= Budget(w, st, g)
  {
    hide Fill;
    hide Booked;
    hide Budget;
    hide AtFile;
    BooksApart(w, st, g, meta);
    IsBooked(w, st, g);
    IsOpen(w, st.(lastMeta := meta), g);
    g1 := FillBooked(w, st.(lastMeta := meta), cur, want, g);
    var f := Fill(w.dir, st.(lastMeta := meta), cur, want);
    FillStops(w.dir, st.(lastMeta := meta), cur, want);
    BooksApart(w, f.st, g1, meta);
  }

  lemma HeaderBooked(w: World, st: State, format: Format, minor: nat, g: nat) returns (g1: int)
    requires w.Valid() && AtFile(w, st, g) && format.Valid()
    ensures var d := ReadDataHeader(w.dir, st, format, minor);
            && g1 >= -1
            && (d.fault.None? ==> g1 >= 0 && AtFile(w, d.st, g1) && Budget(w, d.st, g1) <= Budget(w, st, g))
            && (d.fault.Some? ==>
                  Booked(w, Lose(d.st), g1) && Budget(w, Lose(d.st), g1) + LostBy(d.fault) <= Budget(w, st, g))
  {
    hide Fill;
    hide Booked;
    hide Budget;
    hide AtFile;
    hide DecodeLen;
    hide DecodeMeta;
    hide Reject;
    g1 := g;
    if !format.Fixed? {
      var len := format.DataHeaderLenIn(minor);
      g1 := FillBooked(w, st, FRESH_CURSOR, len, g);
      var f := Fill(w.dir, st, FRESH_CURSOR, len);
      FillStops(w.dir, st, FRESH_CURSOR, len);
      BooksApart(w, f.st, g1, MetaSimple);
      if f.fault.None? {
        IsOpen(w, f.st, g1);
        RejectBooked(w, f.st, g1);
        if f.cur.implied.Some? && f.cur.implied.value != DecodeLen(format, f.got) { g1 := g1 - 1; }
      }
    }
  }

  lemma ReadFromBooked(w: World, st: State, start: Start, g: nat) returns (g1: int)
    requires w.Valid() && AtFile(w, st, g) && st.current.Some? && st.current.value.header.Readable()
    ensures var (att, st1) := ReadFrom(w.dir, st, start);
            g1 >= -1 && Booked(w, st1, g1) && Budget(w, st1, g1) + LostIn(att) <= Budget(w, st, g)
  {
    hide Fill;
    hide ReadPayload;
    hide ReadDataHeader;
    hide Booked;
    hide Budget;
    hide AtFile;
    var h := st.current.value.header;
    match start
    case Recovered(n) =>
      var len := h.format.DataHeaderLen();
      g1 := PayloadBooked(w, st, Cursor(len, Some(len + n), None), n, MetaSimple, g);
    case Fresh =>
      g1 := HeaderBooked(w, st, h.format, h.minor, g);
      var d := ReadDataHeader(w.dir, st, h.format, h.minor);
      if d.fault.None? { g1 := PayloadBooked(w, d.st, d.cur, d.len, d.meta, g1); }
  }

  lemma {:induction false} FindBooked(w: World, st: State, g0: int) returns (g1: int)
    requires w.Valid() && Between(w, st, g0)
    ensures var r := FindRecordStart(w.dir, st);
            && g1 >= -1 && Booked(w, r.st, g1) && Budget(w, r.st, g1) <= Budget(w, st, g0)
            && (r.Found? ==> r.st.current.Some?) && (r.Missing? ==> !r.fault.Truncated? && r.st.current.None?)
    decreases |st.pending|
  {
    hide OpenNext;
    hide PendingAfter;
    hide World.Valid;
    hide NextSurvivor;
    hide GoneAfter;
    hide OpenValidated;
    hide RecoveredPayloadLen;
    var st0 := st.(recovery := None);
    var (opening, st1) := OpenNext(w.dir, st0);
    g1 := OpenNextBooked(w, st0, g0);
    if opening.Opened? {
      var h := st1.current.value.header;
      DiscardBooked(w, st1, g1);
      if h.remaining < |st1.current.value.data| { AdvanceBooked(w, st1, h.remaining, g1); }
      var g2 := FindBooked(w, st1.(current := None), g1);
      var n := if st.recovery.None? then None
               else RecoveredPayloadLen(st.recovery.value, st1.current.value.id, h.format, h.remaining, h.DataLen());
      if n.None? && h.remaining >= |st1.current.value.data| { g1 := g2; }
    }
  }

  lemma DiscardBooked(w: World, st: State, g: nat)
    requires w.Valid() && AtFile(w, st, g)
    ensures Between(w, st.(current := None), g) && Budget(w, st.(current := None), g) <= Budget(w, st, g)
    ensures g < |w.log.files|
  {
    hide World.Removed;
    hide PendingAfter;
    hide NextSurvivor;
    hide Sound;
    FileFacts(w, st, g);
    PendingOf(w, st, g);
    var x := NextSurvivor(w, g);
    GoneToNext(w, g, x);
    if x < |w.log.files| { NextDistance(w, g); }
  }

  lemma ReadBooked(w: World, st: State, g: int) returns (g1: int)
    requires w.Valid() && Sound(w.dir, st) && Booked(w, st, g) && g >= -1
    ensures var (att, st1) := Read(w.dir, st);
            && g1 >= -1 && Booked(w, st1, g1) && Budget(w, st1, g1) + LostIn(att) <= Budget(w, st, g)
  {
    hide ReadFrom;
    hide FindRecordStart;
    hide AtFile;
    hide Between;
    hide Budget;
    g1 := g;
    if st.current.Some? { DiscardBooked(w, st, g); }
    if st.pending == [] && st.Exhausted() {
      NoChange(st);
    } else if st.current.Some? {
      FileReadable(w, st);
      g1 := ReadFromBooked(w, st, Fresh, g);
    } else {
      var st0 := st.(resync := true);
      BooksApart(w, st, g, MetaSimple);
      FindSound(w.dir, st0);
      g1 := FindBooked(w, st0, g);
      var r := FindRecordStart(w.dir, st0);
      BooksApart(w, r.st, g1, MetaSimple);
      if r.Found? {
        var st1 := r.st.(resync := false);
        StartReported(w, st1, g1);
        if r.st.startLost == 0 { g1 := ReadFromBooked(w, st1, r.start, g1); }
      }
    }
  }

  lemma NoChange(st: State)
    ensures st.current.None? ==> st.(current := None) == st
  {
  }

  lemma StartReported(w: World, st: State, g: int)
    requires g >= -1 && Booked(w, st, g) && st.current.Some?
    ensures g >= 0 && AtFile(w, st, g)
    ensures Booked(w, st.(startLost := 0), g)
    ensures Budget(w, st.(startLost := 0), g) + st.startLost == Budget(w, st, g)
  {
    hide PendingAfter;
    hide OpenValidated;
  }

  /** The sum of all losses reported. */
  ghost function TotalLost(trace: seq<Attempt>): nat {
    if trace == [] then 0 else LostIn(trace[0]) + TotalLost(trace[1..])
  }

  lemma {:induction false} RunBooked(w: World, st: State, g: int)
    requires w.Valid() && Sound(w.dir, st) && g >= -1 && Booked(w, st, g)
    ensures TotalLost(Trace(w.dir, st)) <= Budget(w, st, g)
    decreases Potential(w.dir, st)
  {
    hide Read;
    hide Potential;
    hide Booked;
    hide Budget;
    ReadPays(w.dir, st);
    var g1 := ReadBooked(w, st, g);
    var (att, st1) := Read(w.dir, st);
    if att != Nothing(Eof) {
      RunBooked(w, st1, g1);
      assert Trace(w.dir, st)[1..] == Trace(w.dir, st1);
    }
  }

  /** No run reports more files lost than are missing or cannot be used. */
  lemma LossesNeverOverstated(w: World, ids: seq<SegId>)
    requires w.Valid() && Sorted(ids) && forall id :: id in ids <==> id in w.dir
    ensures TotalLost(Trace(w.dir, Initial(ids, false))) <= GoneAfter(w, -1)
  {
    hide World.Removed;
    hide NextSurvivor;
    hide GoneAfter;
    var st := Initial(ids, false);
    StartsListed(w, ids);
    LogOf(w);
    var x := NextSurvivor(w, -1);
    assert x < |w.log.files| ==> w.log.InRange(x);
    GoneToNext(w, -1, x);
    RunBooked(w, st, -1);
  }

  lemma StartsListed(w: World, ids: seq<SegId>)
    requires w.Valid() && Sorted(ids) && forall id :: id in ids <==> id in w.dir
    ensures PendingAfter(w, ids, -1)
  {
    hide Usable;
  }
}
