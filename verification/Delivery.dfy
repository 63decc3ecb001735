/** From the calls of a run to what the iterator yields: what was acknowledged
    comes back, with its metadata, and nothing comes back that was not asked
    for. */
module Delivery {
  import opened Bytes
  import opened Format
  import opened ReadSpec
  import opened ReadEnds
  import opened Layout
  import opened Damage
  import opened DirSteps
  import opened History
  import opened RecordTruth
  import opened ReadTheorems
  import opened LogReadIter
  import opened System
  import opened Ledger

  // ------------------------------------------------------- items and records

  ghost predicate AllYielded(recs: seq<Record>, items: seq<Item>, f: seq<nat>) {
    && |f| == |recs| && Increasing(f)
    && forall i :: 0 <= i < |recs| ==> f[i] < |items| && items[f[i]] == ItemOf(recs[i])
  }

  /** Every record is among the items, in order, with its metadata; cut and
      marked only if it is longer than the iterator's buffer. */
  ghost predicate Yielded(recs: seq<Record>, items: seq<Item>) { exists f: seq<nat> :: AllYielded(recs, items, f) }

  /** The item is of what was asked for or, marked so, the front of it, with the
      metadata answered, if any was. */
  predicate Fronts(item: Item, q: Request) {
    && item.payload <= q.msg && (!item.truncated ==> item.payload == q.msg)
    && (q.meta.Some? ==> item.meta == q.meta.value)
  }

  ghost predicate AllFrom(items: seq<Item>, asked: seq<Request>, f: seq<nat>) {
    && |f| == |items| && Increasing(f)
    && forall k :: 0 <= k < |items| ==> f[k] < |asked| && Fronts(items[k], asked[f[k]])
  }

  /** Every item was asked for, no two by the same request, in order. */
  ghost predicate From(items: seq<Item>, asked: seq<Request>) { exists f: seq<nat> :: AllFrom(items, asked, f) }

  // ---------------------------------------------------- the reads behind items

  /** Item k is what read s[k] yields, and no other read yields any. */
  ghost predicate Behind(trace: seq<Attempt>, items: seq<Item>, s: seq<nat>) {
    && |s| == |items| && Increasing(s)
    && (forall k :: 0 <= k < |s| ==> s[k] < |trace| && Yield(trace[s[k]]) == Some(items[k]))
    && Covers(trace, s)
  }

  ghost predicate Covers(trace: seq<Attempt>, s: seq<nat>) {
    forall t :: 0 <= t < |trace| && Yield(trace[t]).Some? ==> t in s
  }

  ghost function Later(s: seq<nat>): (r: seq<nat>)
    ensures |r| == |s| && forall k :: 0 <= k < |s| ==> r[k] == s[k] + 1
  {
    seq(|s|, k requires 0 <= k < |s| => s[k] + 1)
  }

  lemma {:induction false} ReadsBehind(trace: seq<Attempt>) returns (s: seq<nat>)
    ensures Behind(trace, Items(trace), s)
    decreases |trace|
  {
    hide Behind;
    if trace == [] {
      s := [];
      NothingBehind();
    } else {
      s := ReadsBehind(trace[1..]);
      BehindLater(trace, Items(trace[1..]), s);
      s := (if Yield(trace[0]).Some? then [0] else []) + Later(s);
    }
  }

  lemma NothingBehind()
    ensures Behind([], [], [])
  {
  }

  lemma BehindLater(trace: seq<Attempt>, items: seq<Item>, s: seq<nat>)
    requires trace != [] && Behind(trace[1..], items, s)
    ensures Behind(trace, YieldSeq(trace[0]) + items, (if Yield(trace[0]).Some? then [0] else []) + Later(s))
  {
    hide Yield;
    hide Covers;
    var n := if Yield(trace[0]).Some? then 1 else 0;
    var s1 := (if Yield(trace[0]).Some? then [0] else []) + Later(s);
    CoversLater(trace, s);
    forall k | 0 <= k < |s1|
      ensures s1[k] < |trace| && Yield(trace[s1[k]]) == Some((YieldSeq(trace[0]) + items)[k])
    {
      assert n <= k ==> s1[k] == s[k - n] + 1 && trace[1..][s[k - n]] == trace[s1[k]];
    }
  }

  lemma CoversLater(trace: seq<Attempt>, s: seq<nat>)
    requires trace != [] && Covers(trace[1..], s)
    ensures Covers(trace, (if Yield(trace[0]).Some? then [0] else []) + Later(s))
  {
    hide Yield;
    var n := if Yield(trace[0]).Some? then 1 else 0;
    var s1 := (if Yield(trace[0]).Some? then [0] else []) + Later(s);
    forall t | 0 < t < |trace| && Yield(trace[t]).Some? ensures t in s1 {
      assert trace[1..][t - 1] == trace[t];
      var k :| 0 <= k < |s| && s[k] == t - 1;
      assert s1[n + k] == t;
    }
  }

  /** What the iterator makes of a read that tells of a record. */
  lemma YieldIs(r: Record, att: Attempt)
    requires Tells(att) ==> Matches(r, att)
    ensures Yield(att).Some? ==>
      var item := Yield(att).value;
      && Tells(att) && item.meta == r.meta
      && item.payload <= r.payload && (!item.truncated ==> item.payload == r.payload)
    ensures att.Whole() ==> Yield(att) == Some(ItemOf(r))
  {
  }

  // ---------------------------------------------------- records in log order

  /** Where a record comes among all that were attempted. */
  ghost function Rank(epochs: seq<Epoch>, p: Place): nat
    requires p.e < |epochs|
  {
    |Attempted(epochs[..p.e])| + p.j
  }

  lemma {:induction false} AttemptedFront(epochs: seq<Epoch>, e: nat)
    requires e <= |epochs|
    ensures Attempted(epochs[..e]) <= Attempted(epochs)
    decreases |epochs| - e
  {
    hide Attempted;
    if e < |epochs| {
      AttemptedUpTo(epochs, e);
      AttemptedFront(epochs, e + 1);
    } else {
      assert epochs[..e] == epochs;
    }
  }

  lemma RankIs(w: World, p: Place)
    requires w.IsPlace(p)
    ensures var all := Attempted(w.log.epochs);
            Rank(w.log.epochs, p) < |all| && all[Rank(w.log.epochs, p)] == w.RecordAt(p)
  {
    hide Attempted;
    AttemptedUpTo(w.log.epochs, p.e);
    AttemptedFront(w.log.epochs, p.e + 1);
  }

  lemma RankGrows(w: World, p: Place, q: Place)
    requires w.IsPlace(p) && w.IsPlace(q) && Less(p, q)
    ensures Rank(w.log.epochs, p) < Rank(w.log.epochs, q)
  {
    hide Attempted;
    if p.e < q.e {
      AttemptedUpTo(w.log.epochs, p.e);
      var upTo := w.log.epochs[..q.e];
      AttemptedFront(upTo, p.e + 1);
      assert upTo[..p.e + 1] == w.log.epochs[..p.e + 1];
    }
  }

  // ------------------------------------------------------------ both together

  /** What the reads tell of a log nothing has been taken from. */
  ghost predicate Accounted(w: World, trace: seq<Attempt>, who: seq<Place>) {
    && |who| == |trace| && Explains(w, Place(0, 0), trace, who)
    && forall p :: w.OnDisk(p) && p.e >= w.since ==> Returned(trace, who, p)
  }

  lemma ItemRead(w: World, trace: seq<Attempt>, who: seq<Place>, s: seq<nat>, k: nat)
    requires Accounted(w, trace, who) && Behind(trace, Items(trace), s) && k < |s|
    ensures var p, item := who[s[k]], Items(trace)[k];
            && Tells(trace[s[k]]) && w.IsPlace(p) && item.meta == w.RecordAt(p).meta
            && item.payload <= w.RecordAt(p).payload && (!item.truncated ==> item.payload == w.RecordAt(p).payload)
  {
    hide Items;
    hide Yield;
    hide Covers;
    hide Matches;
    hide Supported;
    hide Returned;
    hide Tells;
    var t := s[k];
    if Tells(trace[t]) {
      YieldIs(w.RecordAt(who[t]), trace[t]);
    } else {
      YieldIs(Record([], MetaFixed), trace[t]);
    }
  }

  lemma ItemsFrom(w: World, trace: seq<Attempt>, who: seq<Place>, s: seq<nat>, asked: seq<Request>)
    requires Accounted(w, trace, who) && Behind(trace, Items(trace), s)
    requires Drawn(Attempted(w.log.epochs), asked)
    ensures From(Items(trace), asked)
  {
    hide Items;
    hide Attempted;
    hide Yield;
    hide Rank;
    hide Matches;
    hide Tells;
    hide Supported;
    hide Returned;
    hide Covers;
    var items, all := Items(trace), Attempted(w.log.epochs);
    var g: seq<nat> :| DrawnAs(all, asked, g);
    forall k | 0 <= k < |items|
      ensures Tells(trace[s[k]]) && w.IsPlace(who[s[k]])
      ensures Rank(w.log.epochs, who[s[k]]) < |all|
      ensures Fronts(items[k], asked[g[Rank(w.log.epochs, who[s[k]])]])
    {
      ItemRead(w, trace, who, s, k);
      RankIs(w, who[s[k]]);
    }
    var f := seq(|items|, k requires 0 <= k < |items| => g[Rank(w.log.epochs, who[s[k]])]);
    forall i, k | 0 <= i < k < |f| ensures f[i] < f[k] {
      RankGrows(w, who[s[i]], who[s[k]]);
    }
    assert AllFrom(items, asked, f);
  }

  /** Item k is that of the receipt. */
  ghost predicate Answers(items: seq<Item>, who: seq<Place>, s: seq<nat>, r: Receipt, k: nat) {
    k < |items| && k < |s| && s[k] < |who| && who[s[k]] == r.place && items[k] == ItemOf(r.record)
  }

  lemma ReceiptAnswered(w: World, trace: seq<Attempt>, who: seq<Place>, s: seq<nat>, r: Receipt) returns (k: nat)
    requires Accounted(w, trace, who) && Behind(trace, Items(trace), s) && Honoured(w, r)
    ensures Answers(Items(trace), who, s, r, k)
  {
    hide Items;
    hide Yield;
    hide Matches;
    hide Supported;
    hide World.OnDisk;
    hide ItemOf;
    assert Returned(trace, who, r.place);
    var t :| 0 <= t < |trace| && trace[t].Whole() && who[t] == r.place;
    WholeTells(trace[t]);
    YieldIs(w.RecordAt(r.place), trace[t]);
    k :| 0 <= k < |s| && s[k] == t;
  }

  lemma AnswersInOrder(w: World, trace: seq<Attempt>, who: seq<Place>, s: seq<nat>, a: Receipt, b: Receipt,
                       i: nat, k: nat)
    requires Accounted(w, trace, who) && Behind(trace, Items(trace), s)
    requires Answers(Items(trace), who, s, a, i) && Answers(Items(trace), who, s, b, k) && Less(a.place, b.place)
    ensures i < k
  {
    hide Items;
    hide Yield;
    hide Matches;
    hide Supported;
    hide Tells;
    hide Covers;
    ItemRead(w, trace, who, s, i);
    ItemRead(w, trace, who, s, k);
  }

  lemma ReceiptsYielded(w: World, trace: seq<Attempt>, who: seq<Place>, s: seq<nat>, receipts: seq<Receipt>)
    requires Accounted(w, trace, who) && Behind(trace, Items(trace), s) && AllHonoured(w, receipts)
    ensures Yielded(Acknowledgements(receipts), Items(trace))
  {
    hide Items;
    hide Accounted;
    hide Behind;
    hide ItemOf;
    var f: seq<nat> := [];
    while |f| < |receipts|
      invariant |f| <= |receipts|
      invariant forall i :: 0 <= i < |f| ==> Answers(Items(trace), who, s, receipts[i], f[i])
    {
      assert Honoured(w, receipts[|f|]);
      var k := ReceiptAnswered(w, trace, who, s, receipts[|f|]);
      f := f + [k];
    }
    forall i, k | 0 <= i < k < |f| ensures f[i] < f[k] {
      AnswersInOrder(w, trace, who, s, receipts[i], receipts[k], f[i], f[k]);
    }
    assert AllYielded(Acknowledgements(receipts), Items(trace), f);
  }

  lemma ReadsAccounted(w: World, ids: seq<SegId>) returns (who: seq<Place>)
    requires Settled(w) && Kept(w) && AllHere(w) && |w.log.files| < U64_LIMIT && Lists(ids, w)
    ensures Accounted(w, Trace(w.dir, Initial(ids, false)), who)
  {
    var trace := Trace(w.dir, Initial(ids, false));
    hide *;
    KeptIsWorld(w);
    ListsAll(ids, w);
    who := ReadsTold(w, ids);
    forall p | w.OnDisk(p) && p.e >= w.since ensures Returned(trace, who, p) {
      KeptSurvives(w, p);
    }
    AccountedIs(w, trace, who);
  }

  lemma AccountedIs(w: World, trace: seq<Attempt>, who: seq<Place>)
    requires |who| == |trace| && Explains(w, Place(0, 0), trace, who)
    requires forall p :: w.OnDisk(p) && p.e >= w.since ==> Returned(trace, who, p)
    ensures Accounted(w, trace, who)
  {
  }

  /** Whatever failed while a log was written, if nothing is in other hands: the
      iterator yields every record acknowledged, with its metadata, in the order
      of the calls, and nothing but what was asked for, in that order. */
  lemma IteratorDelivers(w: World, ids: seq<SegId>, receipts: seq<Receipt>, asked: seq<Request>)
    requires Settled(w) && Kept(w) && AllHere(w) && |w.log.files| < U64_LIMIT && Lists(ids, w)
    requires AllHonoured(w, receipts) && Drawn(Attempted(w.log.epochs), asked)
    ensures var items := Items(Trace(w.dir, Initial(ids, false)));
            Yielded(Acknowledgements(receipts), items) && From(items, asked)
  {
    hide Settled;
    hide Kept;
    hide Lists;
    hide AllHonoured;
    hide Drawn;
    hide Trace;
    hide Items;
    hide Behind;
    hide Yielded;
    hide From;
    hide Accounted;
    var trace := Trace(w.dir, Initial(ids, false));
    var who := ReadsAccounted(w, ids);
    var s := ReadsBehind(trace);
    ItemsFrom(w, trace, who, s, asked);
    ReceiptsYielded(w, trace, who, s, receipts);
  }
}
