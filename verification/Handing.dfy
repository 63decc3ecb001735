/** What a run owes to `send`: the log's files that hold data, that are not being
    written any more, and that were not handed over. There are never more of them
    than times that a file could not be flushed (tcslog/src/write.rs). */
module Handing {
  import opened Format
  import opened Layout
  import opened Damage
  import opened DirSteps
  import opened History
  import opened Writing

  /** File g was handed over, whole. */
  ghost predicate IsHanded(log: Log, received: seq<Handed>, g: int) {
    log.Valid() && 0 <= g < |log.files| && exists x :: x in received && WholeFile(log, x, g)
  }

  /** It should have been: it holds data, and no clear has begun to remove it. */
  ghost predicate IsStranded(log: Log, since: nat, received: seq<Handed>, g: int) {
    0 <= g < |log.files| && log.files[g].epoch >= since && log.files[g].len > 0 && !IsHanded(log, received, g)
  }

  /** How many of the files a to b that holds for. */
  ghost function Stranded(log: Log, since: nat, received: seq<Handed>, a: int, b: int): nat
    decreases b - a
  {
    if a >= b then 0
    else (if IsStranded(log, since, received, a) then 1 else 0) + Stranded(log, since, received, a + 1, b)
  }

  /** So it is of the files a writer is done with. */
  ghost function StrandedBy(w: World, t: Tally): nat {
    Stranded(w.log, w.since, t.received, 0, |t.done|)
  }

  lemma {:induction false} StrandedBoth(log: Log, since: nat, received: seq<Handed>, a: int, b: int, c: int)
    requires a <= b <= c
    ensures Stranded(log, since, received, a, c) ==
              Stranded(log, since, received, a, b) + Stranded(log, since, received, b, c)
    decreases b - a
  {
    hide IsStranded;
    if a < b { StrandedBoth(log, since, received, a + 1, b, c); }
  }

  /** None are only where all were handed over. */
  lemma {:induction false} NoneStranded(log: Log, since: nat, received: seq<Handed>, a: int, b: int)
    ensures Stranded(log, since, received, a, b) == 0 <==>
              forall g :: a <= g < b ==> !IsStranded(log, since, received, g)
    decreases b - a
  {
    hide IsStranded;
    if a < b { NoneStranded(log, since, received, a + 1, b); }
  }

  /** Files that stay as they are, and handing more over, strand none. */
  lemma {:induction false} StrandedStill(log: Log, other: Log, since: nat, received: seq<Handed>, more: seq<Handed>,
                                         a: int, b: int)
    requires ImagesGrew(log, other) && 0 <= a && b <= |log.files| <= |other.files| && received <= more
    requires forall g :: a <= g < b ==> other.files[g] == log.files[g]
    ensures Stranded(other, since, more, a, b) <= Stranded(log, since, received, a, b)
    decreases b - a
  {
    hide IsStranded;
    hide ImagesGrew;
    if a < b {
      HandedStays(log, other, since, received, more, a);
      StrandedStill(log, other, since, received, more, a + 1, b);
    }
  }

  lemma HandedStays(log: Log, other: Log, since: nat, received: seq<Handed>, more: seq<Handed>, g: nat)
    requires ImagesGrew(log, other) && g < |log.files| && received <= more
    requires g < |other.files| && other.files[g] == log.files[g]
    ensures IsStranded(other, since, more, g) ==> IsStranded(log, since, received, g)
  {
    hide Log.Valid;
    hide Log.Image;
    ImageStays(log, other, g);
    if IsHanded(log, received, g) {
      var x :| x in received && WholeFile(log, x, g);
      assert x in more && WholeFile(other, x, g);
    }
  }

  /** Of the files passed on, as many are stranded as were excused. */
  lemma {:induction false} PassedStrand(log: Log, since: nat, received: seq<Handed>, sent: seq<Handed>,
                                        a: int, b: int, excused: int)
    requires log.Valid() && 0 <= a <= b <= |log.files| && Passes(sent, log, a, b, excused)
    requires forall x :: x in sent ==> x in received
    ensures Stranded(log, since, received, a, b) <= excused
    decreases b - a
  {
    hide Log.Valid;
    hide WholeFile;
    PassesCount(sent, log, a, b, excused);
    if a < b {
      if sent != [] && WholeFile(log, sent[0], a) && Passes(sent[1..], log, a + 1, b, excused) {
        assert sent[0] in received;
        PassedStrand(log, since, received, sent[1..], a + 1, b, excused);
      } else if log.files[a].len == 0 && Passes(sent, log, a + 1, b, excused) {
        PassedStrand(log, since, received, sent, a + 1, b, excused);
      } else {
        PassedStrand(log, since, received, sent, a + 1, b, excused - 1);
      }
    }
  }

  // ------------------------------------------------------------------ calls

  /** A call of the writer strands no more files than could not be flushed. */
  lemma CallStrands(w: World, w1: World, t: Tally, t1: Tally)
    requires Onward(w, w1) && HandedOn(w1.log, t, t1) && t.done <= w.log.files
    ensures StrandedBy(w1, t1) - t1.unflushed <= StrandedBy(w, t) - t.unflushed
  {
    hide Kept;
    hide Grew;
    hide Log.Valid;
    hide ImagesGrew;
    hide WholeFile;
    hide Passes;
    hide Stranded;
    GrewImages(w, w1);
    var a, b := |t.done|, |t1.done|;
    assert forall g :: 0 <= g < a ==> w1.log.files[g] == t1.done[g] == t.done[g] == w.log.files[g];
    StrandedStill(w.log, w1.log, w.since, t.received, t1.received, 0, a);
    PassedStrand(w1.log, w.since, t1.received, t1.received[|t.received|..], a, b, t1.unflushed - t.unflushed);
    StrandedBoth(w1.log, w.since, t1.received, 0, a, b);
  }

  /** Opening a writer strands none. */
  lemma OpenStrands(w: World, w1: World, t: Tally, t1: Tally, writing: bool)
    requires Onward(w, w1) && AddsBlank(w.log, w1.log) && t.done == w.log.files && t.received <= t1.received
    requires t1.done == DoneFiles(w1.log, writing) && (writing ==> |w1.log.files| == |w.log.files| + 1)
    ensures StrandedBy(w1, t1) <= StrandedBy(w, t)
  {
    hide Kept;
    hide Grew;
    hide Log.Valid;
    hide ImagesGrew;
    GrewImages(w, w1);
    var a, b := |w.log.files|, |t1.done|;
    assert forall g :: 0 <= g < a ==> w1.log.files[g] == w1.log.files[..a][g];
    StrandedStill(w.log, w1.log, w.since, t.received, t1.received, 0, a);
    StrandedBoth(w1.log, w.since, t1.received, 0, a, b);
    NoneStranded(w1.log, w.since, t1.received, a, b);
  }

  /** Nor does an attempt to clear the log: what it begins to remove is not to be
      handed over. */
  lemma ClearStrands(w: World, t: Tally)
    requires w.log.Valid() && w.since == |w.log.epochs| && t.done == w.log.files
    ensures StrandedBy(w, t) == 0
  {
    forall g | 0 <= g < |w.log.files| ensures !IsStranded(w.log, w.since, t.received, g) {
      assert w.log.InRange(g);
    }
    NoneStranded(w.log, w.since, t.received, 0, |w.log.files|);
  }
}
