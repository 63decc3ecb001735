/** Whole runs of the reader over a damaged log: nothing is invented, and
    everything that survived comes back, in order. */
module ReadTheorems {
  import opened Bytes
  import opened Format
  import opened Names
  import opened ReadSpec
  import opened ReadEnds
  import opened Layout
  import opened Damage
  import opened Standing
  import opened Filling
  import opened RecordTruth
  import opened ReadTruth

  /** Place who[i] is the record that outcome i of the run tells of: they come
      in written order, none twice, none before lb. */
  ghost predicate Explains(w: World, lb: Place, trace: seq<Attempt>, who: seq<Place>) {
    && |who| == |trace|
    && (forall i :: 0 <= i < |trace| && Tells(trace[i]) ==>
          w.IsPlace(who[i]) && Le(lb, who[i]) && Matches(w.RecordAt(who[i]), trace[i]))
    && (forall i :: 0 <= i < |trace| && trace[i].Whole() ==> Supported(w, who[i]))
    && (forall i, k :: 0 <= i < k < |trace| && Tells(trace[i]) && Tells(trace[k]) ==> Less(who[i], who[k]))
  }

  /** Where no write was ever abandoned, a record read whole is followed by the
      next record written, unless a loss is reported first. */
  ghost predicate Adjacent(w: World, trace: seq<Attempt>, who: seq<Place>)
    requires |who| == |trace|
  {
    forall i :: 0 <= i < |trace| - 1 && trace[i].Whole() && Tells(trace[i + 1]) ==>
      who[i + 1] == Place(who[i].e, who[i].j + 1) || w.log.WriteAbandoned()
  }

  /** The read reports a loss, or would if its buffer were not too small. */
  predicate ReportsLoss(att: Attempt) {
    match att
    case Nothing(fault) => fault.Truncated?
    case Payload(_, _, _, cause) => cause.Some? && cause.value.Truncated?
  }

  /** A record read whole that is not its session's first comes right after the
      record before it, or after a reported loss. */
  ghost predicate Preceded(trace: seq<Attempt>, who: seq<Place>, i: nat)
    requires |who| == |trace| && 0 < i < |trace|
  {
    trace[i].Whole() && who[i].j > 0 ==>
      ReportsLoss(trace[i - 1]) || (trace[i - 1].Whole() && who[i - 1] == Place(who[i].e, who[i].j - 1))
  }

  ghost predicate FollowsOn(trace: seq<Attempt>, who: seq<Place>)
    requires |who| == |trace|
  {
    forall i :: 0 < i < |trace| ==> Preceded(trace, who, i)
  }

  /** Nor is a record that is not its session's first the first thing read. */
  ghost predicate BeginsWell(st: State, trace: seq<Attempt>, who: seq<Place>)
    requires |who| == |trace|
  {
    trace != [] && trace[0].Whole() && who[0].j > 0 ==> st.current.Some? || st.session.Some?
  }

  ghost predicate Returned(trace: seq<Attempt>, who: seq<Place>, p: Place)
    requires |who| == |trace|
  {
    exists i :: 0 <= i < |trace| && trace[i].Whole() && who[i] == p
  }

  /** From wherever the reader stands to the end of the log. */
  lemma {:induction false} RunTold(w: World, st: State, g: int, lb: Place) returns (who: seq<Place>)
    requires w.Valid() && Sound(w.dir, st) && Stands(w, st, g, lb)
    ensures |who| == |Trace(w.dir, st)|
    ensures Explains(w, lb, Trace(w.dir, st), who) && Adjacent(w, Trace(w.dir, st), who)
    ensures st.current.Some? && |who| > 0 && Tells(Trace(w.dir, st)[0]) ==>
      who[0] == lb || w.log.WriteAbandoned()
    ensures Calm(w) ==> FollowsOn(Trace(w.dir, st), who) && BeginsWell(st, Trace(w.dir, st), who)
    ensures forall p :: Ahead(w, st, g, p) && w.RecordSurvives(p) ==> Returned(Trace(w.dir, st), who, p)
    decreases Potential(w.dir, st)
  {
    hide World.Valid;
    hide World.RecordSurvives;
    hide Ahead;
    hide Matches;
    hide Supported;
    hide Calm;
    hide FollowsOn;
    hide BeginsWell;
    hide ReportsLoss;
    hide Read;
    hide Potential;
    hide ReadingAt;
    hide Resting;
    hide Explains;
    hide Adjacent;
    hide Returned;
    var (att, st1) := Read(w.dir, st);
    ReadPays(w.dir, st);
    var g1, rec, lb1 := ReadTold(w, st, g, lb);
    if att == Nothing(Eof) {
      who := [];
      RestingNone(w, st1, g1, lb1);
      forall p | w.RecordSurvives(p) ensures !Ahead(w, st, g, p) {
        NothingLeft(w, st1, g1, lb1, p);
      }
      ExplainsNothing(w, lb);
      PrecededNothing(st);
    } else {
      var rest := RunTold(w, st1, g1, lb1);
      who := [rec] + rest;
      WholeOpen(w, st1, g1, lb1);
      ExplainsMore(w, lb, att, Trace(w.dir, st1), rec, rest, lb1);
      ReadStops(w.dir, st);
      WholeTells(att);
      CalmFaultless(w);
      if Calm(w) { PrecededMore(w, st, st1, lb, att, Trace(w.dir, st1), rec, rest, lb1); }
      forall p | Ahead(w, st, g, p) && w.RecordSurvives(p)
        ensures Returned(Trace(w.dir, st), who, p)
      {
        ReturnedMore(att, Trace(w.dir, st1), rec, rest, p);
      }
    }
  }

  lemma PrecededNothing(st: State)
    ensures FollowsOn([], []) && BeginsWell(st, [], [])
  {
  }

  lemma PrecededMore(w: World, st: State, st1: State, lb: Place, att: Attempt, trace: seq<Attempt>, rec: Place,
                    who: seq<Place>, lb1: Place)
    requires |who| == |trace| && FollowsOn(trace, who) && BeginsWell(st1, trace, who)
    requires st1.current.Some? ==> att.Whole() || ReportsLoss(att)
    requires st1.current.None? ==> ReportsLoss(att) || st1.session.None?
    requires att.Whole() ==> lb1 == Place(rec.e, rec.j + 1)
    requires st1.current.Some? && trace != [] && trace[0].Whole() ==> who[0] == lb1
    requires st.current.None? && st.session.None? && att.Whole() ==> rec.j == 0
    ensures FollowsOn([att] + trace, [rec] + who) && BeginsWell(st, [att] + trace, [rec] + who)
  {
    hide ReportsLoss;
    var trace1, who1 := [att] + trace, [rec] + who;
    forall i | 0 < i < |trace1| ensures Preceded(trace1, who1, i) {
      assert trace1[i] == trace[i - 1] && who1[i] == who[i - 1];
      if i > 1 {
        assert Preceded(trace, who, i - 1);
        assert trace1[i - 1] == trace[i - 2] && who1[i - 1] == who[i - 2];
      }
    }
  }

  // --------------------------------------- how a read that delivers less ends

  lemma {:induction false} FindStops(dir: Dir, st: State)
    requires st.current.None?
    ensures var r := FindRecordStart(dir, st);
            r.Missing? ==> r.fault.Eof? || (r.fault.SessionEnd? && r.st.session.None?)
    decreases |st.pending|
  {
    hide RecoveredPayloadLen;
    hide Unusable;
    hide OpenValidated;
    var (opening, st1) := OpenNext(dir, st.(recovery := None));
    if opening.Opened? { FindStops(dir, st1.(current := None)); }
  }

  lemma ReadFromStops(dir: Dir, st: State, start: Start)
    requires st.current.Some? && st.current.value.header.Readable()
    ensures var (att, st1) := ReadFrom(dir, st, start);
            && (st1.current.Some? ==> att.Whole())
            && (!att.Whole() ==> ReportsLoss(att) || st1.session.None?)
  {
    hide Fill;
    var h := st.current.value.header;
    match start
    case Recovered(n) =>
      var len := h.format.DataHeaderLen();
      FillStops(dir, st.(lastMeta := MetaSimple), Cursor(len, Some(len + n), None), n);
    case Fresh =>
      var d := ReadDataHeader(dir, st, h.format, h.minor);
      FillStops(dir, st, FRESH_CURSOR, h.format.DataHeaderLenIn(h.minor));
      if d.fault.None? { FillStops(dir, d.st.(lastMeta := d.meta), d.cur, d.len); }
  }

  /** A read leaves a file open after a whole record or a reported loss; with
      none open, it reported a loss or stands between sessions. */
  lemma ReadStops(dir: Dir, st: State)
    requires Sound(dir, st)
    ensures var (att, st1) := Read(dir, st);
            att != Nothing(Eof) ==>
              && (st1.current.Some? ==> att.Whole() || ReportsLoss(att))
              && (st1.current.None? ==> ReportsLoss(att) || st1.session.None?)
  {
    hide ReadFrom;
    hide FindRecordStart;
    if st.pending == [] && st.Exhausted() {
    } else if st.current.Some? {
      ReadFromStops(dir, st, Fresh);
      WholeOpens(dir, st, Fresh);
    } else {
      var st0 := st.(resync := true);
      FindSound(dir, st0);
      FindStops(dir, st0);
      var r := FindRecordStart(dir, st0);
      if r.Found? {
        ReadFromStops(dir, r.st.(resync := false), r.start);
        WholeOpens(dir, r.st.(resync := false), r.start);
      }
    }
  }

  lemma WholeOpens(dir: Dir, st: State, start: Start)
    requires st.current.Some? && st.current.value.header.Readable()
    ensures var (att, st1) := ReadFrom(dir, st, start); att.Whole() ==> st1.current.Some?
  {
    hide Fill;
  }

  lemma WholeOpen(w: World, st: State, g: int, lb: Place)
    ensures ReadingAt(w, st, g, lb) ==> st.current.Some?
  {
  }

  /** When no file is left to open, no survivor is still to come. */
  lemma NothingLeft(w: World, st: State, g: int, lb: Place, p: Place)
    requires w.Valid() && Resting(w, st, g, lb) && st.pending == [] && w.RecordSurvives(p)
    ensures !Ahead(w, st, g, p)
  {
    hide World.Removed;
    hide World.ResumptionsHeld;
    hide Usable;
    hide OpenValidated;
    hide Bounded;
    hide HintTrue;
    LogOf(w);
    var ep := w.log.epochs[p.e];
    StartGrows(ep, p.j, p.j + 1);
    assert w.ByteSurvives(p.e, ep.Start(p.j));
    var h: nat :| w.Holds(h, p.e, ep.Start(p.j));
    assert w.log.files[h].id !in st.pending;
  }

  lemma ExplainsNothing(w: World, lb: Place)
    ensures Explains(w, lb, [], []) && Adjacent(w, [], [])
  {
  }

  lemma ExplainsMore(w: World, lb: Place, att: Attempt, trace: seq<Attempt>, rec: Place, who: seq<Place>, lb1: Place)
    requires Explains(w, lb1, trace, who) && Adjacent(w, trace, who) && Le(lb, lb1)
    requires att.Whole() ==> Supported(w, rec)
    requires Tells(att) ==>
      w.IsPlace(rec) && Le(lb, rec) && lb1 == Place(rec.e, rec.j + 1) && Matches(w.RecordAt(rec), att)
    requires att.Whole() && |trace| > 0 && Tells(trace[0]) ==> who[0] == lb1 || w.log.WriteAbandoned()
    ensures Explains(w, lb, [att] + trace, [rec] + who)
    ensures Adjacent(w, [att] + trace, [rec] + who)
  {
    hide Matches;
    hide Supported;
    hide World.IsPlace;
    var trace1, who1 := [att] + trace, [rec] + who;
    forall i, k | 0 <= i < k < |trace1| && Tells(trace1[i]) && Tells(trace1[k])
      ensures Less(who1[i], who1[k])
    {
      assert who1[k] == who[k - 1] && trace1[k] == trace[k - 1];
      if i > 0 { assert who1[i] == who[i - 1] && trace1[i] == trace[i - 1]; }
    }
    forall i | 0 <= i < |trace1| - 1 && trace1[i].Whole() && Tells(trace1[i + 1])
      ensures who1[i + 1] == Place(who1[i].e, who1[i].j + 1) || w.log.WriteAbandoned()
    {
      assert who1[i + 1] == who[i] && trace1[i + 1] == trace[i];
      if i > 0 { assert who1[i] == who[i - 1] && trace1[i] == trace[i - 1]; }
    }
  }

  lemma ReturnedMore(att: Attempt, trace: seq<Attempt>, rec: Place, who: seq<Place>, p: Place)
    requires |who| == |trace|
    requires (att.Whole() && p == rec) || Returned(trace, who, p)
    ensures Returned([att] + trace, [rec] + who, p)
  {
    if att.Whole() && p == rec {
      assert ([att] + trace)[0].Whole() && ([rec] + who)[0] == p;
    } else {
      var i :| 0 <= i < |trace| && trace[i].Whole() && who[i] == p;
      assert ([att] + trace)[i + 1].Whole() && ([rec] + who)[i + 1] == p;
    }
  }

  // ------------------------------------------------------------ the theorems

  /** A fresh reader on a directory stands before every record of the log. */
  lemma StartsBefore(w: World, ids: seq<SegId>)
    requires w.Valid() && Sorted(ids) && forall id :: id in ids <==> id in w.dir
    ensures Stands(w, Initial(ids, false), -1, Place(0, 0)) && Sound(w.dir, Initial(ids, false))
    ensures forall p :: w.IsPlace(p) ==> Ahead(w, Initial(ids, false), -1, p)
  {
    hide Usable;
  }

  /** What is reported, read after read, into buffers of the given sizes. */
  ghost function Outcomes(trace: seq<Attempt>, rooms: seq<nat>): (outs: seq<Outcome>)
    requires |rooms| == |trace|
    ensures |outs| == |trace|
    ensures forall i :: 0 <= i < |outs| ==> outs[i] == Clip(trace[i], rooms[i])
  {
    if trace == [] then [] else [Clip(trace[0], rooms[0])] + Outcomes(trace[1..], rooms[1..])
  }

  predicate Delivers(out: Outcome) { out.Got? || Delivered(out) != [] }

  /** What was delivered is record r's payload with its metadata, or a front of
      it reported as such. */
  ghost predicate Faithful(r: Record, out: Outcome) {
    match out
    case Got(payload, meta) => payload == r.payload && meta == r.meta
    case Overflow(front) => front <= r.payload && |front| < |r.payload|
    case Failed(_, front) => front <= r.payload
  }

  lemma ClipFaithful(r: Record, att: Attempt, room: nat)
    requires Matches(r, att)
    ensures Faithful(r, Clip(att, room))
    ensures att.Whole() ==> Clip(att, room) == AsRead(r, room)
  {
    if att.want > room && |att.got| >= room {
      assert att.got[..room] <= att.got;
    }
  }

  lemma ClipTells(att: Attempt, room: nat)
    ensures Delivers(Clip(att, room)) ==> Tells(att)
  {
  }

  /** Some read returns the record at p: whole if the buffer can hold it, and
      else as much as the buffer holds. */
  ghost predicate ReturnedAt(w: World, outs: seq<Outcome>, rooms: seq<nat>, who: seq<Place>, p: Place) {
    && |outs| == |rooms| == |who| && w.IsPlace(p)
    && exists i :: 0 <= i < |who| && who[i] == p && outs[i] == AsRead(w.RecordAt(p), rooms[i])
  }

  /** Over any log, with any damage: each read that tells of a record tells of a
      written one, with its metadata, in written order; one that delivers a
      record whole delivers a survivor, or one that lacks only its header; and
      every survivor is delivered whole. */
  lemma ReadsTold(w: World, ids: seq<SegId>) returns (who: seq<Place>)
    requires w.Valid() && Sorted(ids) && forall id :: id in ids <==> id in w.dir
    ensures var trace := Trace(w.dir, Initial(ids, false));
            && |who| == |trace| && Explains(w, Place(0, 0), trace, who)
            && forall p :: w.RecordSurvives(p) ==> Returned(trace, who, p)
  {
    hide Read;
    hide World.Valid;
    hide World.RecordSurvives;
    hide Explains;
    hide Returned;
    var st := Initial(ids, false);
    StartsBefore(w, ids);
    who := RunTold(w, st, -1, Place(0, 0));
    forall p | w.RecordSurvives(p) ensures Returned(Trace(w.dir, st), who, p) {
      SurvivorIsPlace(w, p);
    }
  }

  /** Both at once: what comes back whole is exactly the records that survived,
      and perhaps some that lost nothing but a data header; what else is
      delivered is the front of a record; and all of it comes in written
      order. */
  lemma WhatComesBack(w: World, ids: seq<SegId>, rooms: seq<nat>) returns (who: seq<Place>)
    requires w.Valid() && Sorted(ids) && forall id :: id in ids <==> id in w.dir
    requires |rooms| == |Trace(w.dir, Initial(ids, false))|
    ensures |who| == |rooms|
    ensures var outs := Outcomes(Trace(w.dir, Initial(ids, false)), rooms);
            && (forall i :: 0 <= i < |outs| && Delivers(outs[i]) ==>
                  w.IsPlace(who[i]) && Faithful(w.RecordAt(who[i]), outs[i]))
            && (forall i, k :: 0 <= i < k < |outs| && Delivers(outs[i]) && Delivers(outs[k]) ==> Less(who[i], who[k]))
            && (forall i :: 0 <= i < |outs| && outs[i].Got? ==> Supported(w, who[i]))
            && (forall p :: w.RecordSurvives(p) ==> ReturnedAt(w, outs, rooms, who, p))
  {
    hide Read;
    hide World.Valid;
    hide World.RecordSurvives;
    hide Matches;
    hide Supported;
    hide Faithful;
    hide Clip;
    hide Tells;
    var st := Initial(ids, false);
    StartsBefore(w, ids);
    who := RunTold(w, st, -1, Place(0, 0));
    var trace := Trace(w.dir, st);
    var outs := Outcomes(trace, rooms);
    forall i | 0 <= i < |outs| && Delivers(outs[i])
      ensures Tells(trace[i]) && w.IsPlace(who[i]) && Faithful(w.RecordAt(who[i]), outs[i])
    {
      ClipTells(trace[i], rooms[i]);
      ClipFaithful(w.RecordAt(who[i]), trace[i], rooms[i]);
    }
    forall i | 0 <= i < |outs| && outs[i].Got? ensures Supported(w, who[i]) {
      GotWhole(trace[i], rooms[i]);
    }
    forall p | w.RecordSurvives(p) ensures ReturnedAt(w, outs, rooms, who, p) {
      SurvivorIsPlace(w, p);
      SurvivorReturned(w, trace, outs, rooms, who, p);
    }
  }

  lemma GotWhole(att: Attempt, room: nat)
    ensures Clip(att, room).Got? ==> att.Whole()
  {
  }

  lemma SurvivorIsPlace(w: World, p: Place)
    ensures w.RecordSurvives(p) ==> w.IsPlace(p)
  {
  }

  lemma SurvivorReturned(w: World, trace: seq<Attempt>, outs: seq<Outcome>, rooms: seq<nat>, who: seq<Place>, p: Place)
    requires |trace| == |outs| == |rooms| == |who| && w.IsPlace(p) && Explains(w, Place(0, 0), trace, who)
    requires forall i :: 0 <= i < |outs| ==> outs[i] == Clip(trace[i], rooms[i])
    requires Returned(trace, who, p)
    ensures ReturnedAt(w, outs, rooms, who, p)
  {
    hide Matches;
    hide Supported;
    hide Clip;
    var i :| 0 <= i < |trace| && trace[i].Whole() && who[i] == p;
    WholeTells(trace[i]);
    ClipFaithful(w.RecordAt(p), trace[i], rooms[i]);
  }

  lemma WholeTells(att: Attempt)
    ensures att.Whole() ==> Tells(att)
  {
  }

  /** Nothing is invented: over any log, written with or without faults, with
      any files missing, unreadable or cut short, and with any buffers, every
      record returned whole is one that was written, with its metadata; what a
      cut or clipped read leaves in the buffer is the front of one; and they
      come in the order they were written, none of them twice. */
  lemma NothingInvented(w: World, ids: seq<SegId>, rooms: seq<nat>) returns (who: seq<Place>)
    requires w.Valid() && Sorted(ids) && forall id :: id in ids <==> id in w.dir
    requires |rooms| == |Trace(w.dir, Initial(ids, false))|
    ensures |who| == |rooms|
    ensures var outs := Outcomes(Trace(w.dir, Initial(ids, false)), rooms);
            && (forall i :: 0 <= i < |outs| && Delivers(outs[i]) ==>
                  w.IsPlace(who[i]) && Faithful(w.RecordAt(who[i]), outs[i]))
            && (forall i, k :: 0 <= i < k < |outs| && Delivers(outs[i]) && Delivers(outs[k]) ==> Less(who[i], who[k]))
  {
    hide *;
    who := WhatComesBack(w, ids, rooms);
  }

  /** Damage is contained: every record all of whose header and payload bytes
      survive is returned, whole into a buffer that can hold it and else as far
      as the buffer goes. */
  lemma EverySurvivorReturned(w: World, ids: seq<SegId>, rooms: seq<nat>, p: Place) returns (i: nat)
    requires w.Valid() && Sorted(ids) && forall id :: id in ids <==> id in w.dir
    requires |rooms| == |Trace(w.dir, Initial(ids, false))|
    requires w.RecordSurvives(p)
    ensures i < |rooms|
    ensures Outcomes(Trace(w.dir, Initial(ids, false)), rooms)[i] == AsRead(w.RecordAt(p), rooms[i])
  {
    hide World.RecordSurvives;
    hide World.Valid;
    hide Read;
    hide Trace;
    hide Faithful;
    hide Clip;
    var who := WhatComesBack(w, ids, rooms);
    var outs := Outcomes(Trace(w.dir, Initial(ids, false)), rooms);
    assert ReturnedAt(w, outs, rooms, who, p);
    i :| 0 <= i < |who| && who[i] == p && outs[i] == AsRead(w.RecordAt(p), rooms[i]);
  }

  // ---------------------------------------------------------- silent losses

  /** The caller is told of a loss: by `ReadTruncated`, or by `ReadOverflow`,
      which may hide one. */
  predicate TellsOfLoss(out: Outcome) { out.Overflow? || (out.Failed? && out.fault.Truncated?) }

  /** Outcomes i - j to i return records 0 to j of one session, one after
      another. */
  ghost predicate FromTheFirst(outs: seq<Outcome>, who: seq<Place>, i: nat)
    requires |outs| == |who| && i < |who|
  {
    && who[i].j <= i
    && forall m :: i - who[i].j <= m <= i ==> outs[m].Got? && who[m] == Place(who[i].e, who[i].j - (i - m))
  }

  /** Outcomes after k, up to i, return consecutive records of one session. */
  ghost predicate RunsInto(outs: seq<Outcome>, who: seq<Place>, k: int, i: nat)
    requires |outs| == |who| && i < |who| && -1 <= k < i
  {
    i - k <= who[i].j + 1
    && forall m :: k < m <= i ==> outs[m].Got? && who[m] == Place(who[i].e, who[i].j - (i - m))
  }

  /** A loss is told of, and what follows it up to outcome i is a run of
      consecutive records of outcome i's session. */
  ghost predicate LossTold(outs: seq<Outcome>, who: seq<Place>, i: nat)
    requires |outs| == |who| && i < |who|
  {
    exists k :: 0 <= k && i - who[i].j <= k < i && TellsOfLoss(outs[k]) && RunsInto(outs, who, k, i)
  }

  lemma {:induction false} BackToFirst(st: State, trace: seq<Attempt>, outs: seq<Outcome>, rooms: seq<nat>,
                                       who: seq<Place>, i: nat)
    requires |trace| == |outs| == |rooms| == |who| && i < |who| && outs[i].Got?
    requires forall k :: 0 <= k < |outs| ==> outs[k] == Clip(trace[k], rooms[k])
    requires FollowsOn(trace, who) && BeginsWell(st, trace, who) && st.current.None? && st.session.None?
    ensures FromTheFirst(outs, who, i) || LossTold(outs, who, i)
    decreases i
  {
    GotWhole(trace[i], rooms[i]);
    if who[i].j > 0 {
      assert i > 0;
      assert Preceded(trace, who, i);
      if trace[i - 1].Whole() && outs[i - 1].Got? && who[i - 1] == Place(who[i].e, who[i].j - 1) {
        BackToFirst(st, trace, outs, rooms, who, i - 1);
        if FromTheFirst(outs, who, i - 1) {
          assert forall m :: i - who[i].j <= m < i ==> outs[m].Got?;
        } else {
          LossStillTold(outs, who, i);
        }
      } else {
        assert TellsOfLoss(outs[i - 1]) && RunsInto(outs, who, i - 1, i);
      }
    }
  }

  lemma LossStillTold(outs: seq<Outcome>, who: seq<Place>, i: nat)
    requires |outs| == |who| && 0 < i < |who| && outs[i].Got? && LossTold(outs, who, i - 1)
    requires who[i].j > 0 && who[i - 1] == Place(who[i].e, who[i].j - 1)
    ensures LossTold(outs, who, i)
  {
    var k :| 0 <= k && i - 1 - who[i - 1].j <= k < i - 1 && TellsOfLoss(outs[k]) && RunsInto(outs, who, k, i - 1);
    assert RunsInto(outs, who, k, i);
  }

  // ------------------------------------------------------- one session's share

  /** No loss is told of right before a record of session e. */
  ghost predicate NoLossInto(outs: seq<Outcome>, who: seq<Place>, e: nat)
    requires |outs| == |who|
  {
    forall k :: 0 <= k < |outs| - 1 && TellsOfLoss(outs[k]) && outs[k + 1].Got? ==> who[k + 1].e != e
  }

  ghost predicate Returns(outs: seq<Outcome>, who: seq<Place>, i: int, p: Place)
    requires |outs| == |who|
  {
    0 <= i < |outs| && outs[i].Got? && who[i] == p
  }

  ghost predicate IsReturned(outs: seq<Outcome>, who: seq<Place>, p: Place)
    requires |outs| == |who|
  {
    exists i :: Returns(outs, who, i, p)
  }

  /** The records returned of session e are its first n, and no others. */
  ghost predicate PrefixReturned(outs: seq<Outcome>, who: seq<Place>, e: nat, n: nat)
    requires |outs| == |who|
  {
    forall j: nat :: IsReturned(outs, who, Place(e, j)) <==> j < n
  }

  /** The last outcome, of those before outcome `upto`, that returns a record of
      session e. */
  lemma {:induction false} LastOf(outs: seq<Outcome>, who: seq<Place>, e: nat, upto: nat) returns (i: int)
    requires |outs| == |who| && upto <= |outs|
    ensures -1 <= i < upto && (i >= 0 ==> outs[i].Got? && who[i].e == e)
    ensures forall k :: i < k < upto && outs[k].Got? ==> who[k].e != e
    decreases upto
  {
    if upto == 0 {
      i := -1;
    } else if outs[upto - 1].Got? && who[upto - 1].e == e {
      i := upto - 1;
    } else {
      i := LastOf(outs, who, e, upto - 1);
    }
  }

  lemma SessionIsPrefix(outs: seq<Outcome>, who: seq<Place>, e: nat) returns (n: nat)
    requires |outs| == |who| && NoLossInto(outs, who, e)
    requires forall i :: 0 <= i < |outs| && outs[i].Got? ==> FromTheFirst(outs, who, i) || LossTold(outs, who, i)
    requires forall i, k :: 0 <= i < k < |outs| && outs[i].Got? && outs[k].Got? ==> Less(who[i], who[k])
    ensures PrefixReturned(outs, who, e, n)
  {
    hide FromTheFirst;
    hide LossTold;
    hide NoLossInto;
    var i := LastOf(outs, who, e, |outs|);
    n := if i < 0 then 0 else who[i].j + 1;
    forall k, j: nat | Returns(outs, who, k, Place(e, j)) ensures j < n {
      assert outs[k].Got? && who[k].e == e;
    }
    if i >= 0 {
      NotAfterLoss(outs, who, i);
      forall j: nat | j < n ensures IsReturned(outs, who, Place(e, j)) {
        ReturnsEarlier(outs, who, i, j);
      }
    }
  }

  lemma ReturnsEarlier(outs: seq<Outcome>, who: seq<Place>, i: nat, j: nat)
    requires |outs| == |who| && i < |outs| && FromTheFirst(outs, who, i) && j <= who[i].j
    ensures Returns(outs, who, i - (who[i].j - j), Place(who[i].e, j))
  {
  }

  lemma NotAfterLoss(outs: seq<Outcome>, who: seq<Place>, i: nat)
    requires |outs| == |who| && i < |outs| && NoLossInto(outs, who, who[i].e)
    ensures !LossTold(outs, who, i)
  {
    forall k | 0 <= k && i - who[i].j <= k < i ensures !(TellsOfLoss(outs[k]) && RunsInto(outs, who, k, i)) {
      var m := k + 1;
      assert RunsInto(outs, who, k, i) ==> outs[m].Got? && who[m].e == who[i].e;
    }
  }

  /** Nothing is lost silently but at a session's tail. Where no write was ever
      abandoned, two records returned one after the other were written one
      after the other. If files were only deleted or made unreadable, the
      records returned up to any point go back without a gap to the first of
      their session or to a reported loss; so a session no loss is reported
      into gives back a prefix of what was written. */
  lemma SilentLossAtTailOnly(w: World, ids: seq<SegId>, rooms: seq<nat>) returns (who: seq<Place>)
    requires w.Valid() && !w.log.WriteAbandoned() && Sorted(ids) && forall id :: id in ids <==> id in w.dir
    requires |rooms| == |Trace(w.dir, Initial(ids, false))|
    ensures |who| == |rooms|
    ensures var outs := Outcomes(Trace(w.dir, Initial(ids, false)), rooms);
            && (forall i :: 0 <= i < |outs| && outs[i].Got? ==>
                  w.IsPlace(who[i]) && Faithful(w.RecordAt(who[i]), outs[i]))
            && (forall i :: 0 <= i < |outs| - 1 && outs[i].Got? && outs[i + 1].Got? ==>
                  who[i + 1] == Place(who[i].e, who[i].j + 1))
            && (Calm(w) ==> forall i :: 0 <= i < |outs| && outs[i].Got? ==>
                  FromTheFirst(outs, who, i) || LossTold(outs, who, i))
            && (Calm(w) ==>
                  forall e: nat :: NoLossInto(outs, who, e) ==> exists n: nat :: PrefixReturned(outs, who, e, n))
  {
    hide Read;
    hide World.Valid;
    hide World.RecordSurvives;
    hide Matches;
    hide Faithful;
    hide Clip;
    hide Supported;
    hide Calm;
    hide Ahead;
    hide Stands;
    hide Returned;
    hide FollowsOn;
    hide BeginsWell;
    hide FromTheFirst;
    hide LossTold;
    hide NoLossInto;
    hide PrefixReturned;
    hide Log.WriteAbandoned;
    var st := Initial(ids, false);
    StartsBefore(w, ids);
    who := RunTold(w, st, -1, Place(0, 0));
    var trace := Trace(w.dir, st);
    var outs := Outcomes(trace, rooms);
    forall i | 0 <= i < |outs| && outs[i].Got?
      ensures trace[i].Whole() && Tells(trace[i]) && w.IsPlace(who[i]) && Faithful(w.RecordAt(who[i]), outs[i])
      ensures Calm(w) ==> FromTheFirst(outs, who, i) || LossTold(outs, who, i)
    {
      GotWhole(trace[i], rooms[i]);
      WholeTells(trace[i]);
      ClipFaithful(w.RecordAt(who[i]), trace[i], rooms[i]);
      if Calm(w) { BackToFirst(st, trace, outs, rooms, who, i); }
    }
    if Calm(w) {
      forall e: nat | NoLossInto(outs, who, e) ensures exists n: nat :: PrefixReturned(outs, who, e, n) {
        var n := SessionIsPrefix(outs, who, e);
      }
    }
  }
}
