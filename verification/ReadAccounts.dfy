/** The reader's books, whatever the segment files contain: by the end of a run
    every usable file has been counted and its header kept exactly once, in
    order, however often files were handed back, and every change of session
    has been reported exactly once. */
module ReadAccounts {
  import opened Bytes
  import opened Format
  import opened Header
  import opened ReadSpec
  import opened ReadEnds

  /** The headers of the usable files among those listed. */
  ghost function UsableHeaders(dir: Dir, ids: seq<SegId>): seq<Header> {
    if ids == [] then []
    else if Usable(dir, ids[0]) then [OpenValidated(dir, ids[0]).value.header] + UsableHeaders(dir, ids[1..])
    else UsableHeaders(dir, ids[1..])
  }

  /** How often the session changes from one header to the next, starting from
      the session being read, if any. */
  ghost function Changes(session: Option<SegId>, headers: seq<Header>): nat
    decreases |headers|
  {
    if headers == [] then 0
    else (if session.Some? && headers[0].sessionId != session.value then 1 else 0)
         + Changes(Some(headers[0].sessionId), headers[1..])
  }

  /** Headers not yet counted: a file handed back has been counted already. */
  ghost function Uncounted(dir: Dir, st: State): seq<Header> {
    var rest := UsableHeaders(dir, st.pending);
    if st.reopened.Some? && rest != [] then rest[1..] else rest
  }

  ghost function EndsAhead(dir: Dir, st: State): nat {
    Changes(st.session, UsableHeaders(dir, st.pending))
  }

  /** A file handed back stands first in the list, in the session being read. */
  ghost predicate Aligned(dir: Dir, st: State) {
    st.reopened.Some? ==>
      && st.current.None?
      && st.pending != [] && st.pending[0] == st.reopened.value
      && Usable(dir, st.pending[0])
      && st.session == Some(OpenValidated(dir, st.pending[0]).value.header.sessionId)
  }

  /** From `a` to `b` no header was lost or counted twice, and `ends` session
      boundaries were passed. */
  ghost predicate Balanced(dir: Dir, a: State, b: State, ends: nat) {
    && b.collect == a.collect
    && (a.collect ==> a.headers + Uncounted(dir, a) == b.headers + Uncounted(dir, b))
    && a.segmentsOpened + |Uncounted(dir, a)| == b.segmentsOpened + |Uncounted(dir, b)|
    && EndsAhead(dir, a) == ends + EndsAhead(dir, b)
  }

  lemma BalancedTwice(dir: Dir, a: State, b: State, c: State, m: nat, n: nat)
    requires Balanced(dir, a, b, m) && Balanced(dir, b, c, n)
    ensures Balanced(dir, a, c, m + n)
  {
  }

  lemma {:induction false} UsableDrop(dir: Dir, ids: seq<SegId>)
    ensures var t := Unusable(dir, ids);
            && UsableHeaders(dir, ids) == UsableHeaders(dir, ids[t..])
            && (t < |ids| ==>
                  UsableHeaders(dir, ids) ==
                    [OpenValidated(dir, ids[t]).value.header] + UsableHeaders(dir, ids[t + 1..]))
            && (t == |ids| ==> UsableHeaders(dir, ids) == [])
  {
    var t := Unusable(dir, ids);
    if ids == [] || Usable(dir, ids[0]) {
      assert ids[0..] == ids;
    } else {
      UsableDrop(dir, ids[1..]);
      assert ids[1..][t - 1..] == ids[t..];
      assert t < |ids| ==> ids[1..][t..] == ids[t + 1..];
    }
  }

  /** Making the first usable file current, in the session being read or in
      the first one. */
  lemma AdmitBalanced(dir: Dir, st: State, t: nat, seg: Segment)
    requires st.current.None? && Aligned(dir, st)
    requires t < |st.pending| && OpenValidated(dir, st.pending[t]) == Some(seg)
    requires UsableHeaders(dir, st.pending) == [seg.header] + UsableHeaders(dir, st.pending[t + 1..])
    requires st.reopened.Some? ==> t == 0
    requires st.session.Some? ==> st.session.value == seg.header.sessionId
    ensures var r := Admit(st, st.pending[t + 1..], seg);
            Aligned(dir, r) && Balanced(dir, st, r, 0) && r.reopened.None?
  {
    hide UsableHeaders;
    hide OpenValidated;
    var rest := UsableHeaders(dir, st.pending[t + 1..]);
    assert ([seg.header] + rest)[1..] == rest;
    assert st.headers + ([seg.header] + rest) == (st.headers + [seg.header]) + rest;
  }

  /** Giving the first usable file back because it opens another session. */
  lemma BoundaryBalanced(dir: Dir, st: State, t: nat, seg: Segment)
    requires st.current.None? && Aligned(dir, st) && st.session.Some?
    requires t < |st.pending| && OpenValidated(dir, st.pending[t]) == Some(seg)
    requires UsableHeaders(dir, st.pending) == [seg.header] + UsableHeaders(dir, st.pending[t + 1..])
    requires UsableHeaders(dir, st.pending) == UsableHeaders(dir, st.pending[t..])
    requires st.reopened.Some? ==> t == 0
    requires st.session.value != seg.header.sessionId
    ensures st.reopened.None?
    ensures var r := st.(pending := st.pending[t..], prevSeq := None, recovery := None);
            && Aligned(dir, r.(session := None)) && Balanced(dir, st, r.(session := None), 1)
            && Aligned(dir, r) && Balanced(dir, st, r, 0)
  {
    hide UsableHeaders;
    hide OpenValidated;
  }

  lemma OpenNextBalanced(dir: Dir, st: State)
    requires st.current.None? && Aligned(dir, st)
    ensures var r := OpenNext(dir, st);
            && Aligned(dir, r.1)
            && Balanced(dir, st, r.1, if r.0.NewSession? then 1 else 0)
            && (r.0.Opened? ==> r.1.reopened.None?)
            && (r.0.NewSession? ==>
                  && st.reopened.None?
                  && Aligned(dir, r.1.(session := st.session, prevSeq := st.prevSeq))
                  && Balanced(dir, st, r.1.(session := st.session, prevSeq := st.prevSeq), 0))
  {
    hide UsableHeaders;
    hide OpenValidated;
    UsableDrop(dir, st.pending);
    var t := Unusable(dir, st.pending);
    assert st.reopened.Some? ==> t == 0;
    if t == |st.pending| {
      UsableNone(dir);
    } else {
      var seg := OpenValidated(dir, st.pending[t]).value;
      if st.session.Some? && seg.header.sessionId != st.session.value {
        BoundaryBalanced(dir, st, t, seg);
      } else {
        AdmitBalanced(dir, st, t, seg);
      }
    }
  }

  lemma UsableNone(dir: Dir)
    ensures UsableHeaders(dir, []) == []
  {
  }

  lemma RejectBalanced(dir: Dir, st: State)
    requires Sound(dir, st.(resync := false)) && st.current.Some? && st.reopened.None?
    ensures Aligned(dir, Reject(st)) && Balanced(dir, st, Reject(st), 0)
  {
    var id := st.current.value.id;
    var back := [id] + st.pending;
    assert back[1..] == st.pending;
  }

  ghost function EndOf(fault: Option<Fault>): nat {
    if fault == Some(SessionEnd) then 1 else 0
  }

  lemma CrossBalanced(dir: Dir, st: State, cur: Cursor)
    requires Sound(dir, st.(resync := false)) && st.current.Some? && st.reopened.None?
    ensures var c := Cross(dir, st, cur);
            && Aligned(dir, c.st) && Balanced(dir, st, c.st, EndOf(c.fault))
            && (c.fault.None? ==> c.st.reopened.None?)
            && (c.fault == Some(SessionEnd) ==> cur.consumed == 0)
  {
    hide OpenNext;
    hide UsableHeaders;
    hide OpenValidated;
    hide Changes;
    hide Continues;
    hide NoteImplied;
    hide Skipped;
    var st0 := st.(current := None);
    var (opening, st1) := OpenNext(dir, st0);
    OpenNextBalanced(dir, st0);
    OpenNextSound(dir, st0);
    if opening.Opened? {
      RejectBalanced(dir, st1);
      RecoveryIrrelevant(dir, st0, Reject(st1), 0);
    }
  }

  lemma RecoveryIrrelevant(dir: Dir, a: State, b: State, ends: nat)
    ensures forall r :: Balanced(dir, a, b.(recovery := r), ends) == Balanced(dir, a, b, ends)
    ensures forall r :: Aligned(dir, b.(recovery := r)) == Aligned(dir, b)
  {
  }

  lemma {:induction false} FillBalanced(dir: Dir, st: State, cur: Cursor, n: nat)
    requires Sound(dir, st.(resync := false)) && st.current.Some? && st.reopened.None?
    ensures var f := Fill(dir, st, cur, n);
            && Aligned(dir, f.st) && Balanced(dir, st, f.st, EndOf(f.fault))
            && (f.fault.None? ==> f.st.reopened.None?)
            && (f.fault == Some(SessionEnd) ==> cur.consumed == 0 && f.got == [])
    decreases n, |st.pending|
  {
    hide Cross;
    hide Fill;
    hide UsableHeaders;
    hide OpenValidated;
    hide Changes;
    if n == 0 {
      FillZero(dir, st, cur);
    } else {
      FillUnfold(dir, st, cur, n);
      if st.Exhausted() {
        var c := Cross(dir, st, cur);
        CrossSound(dir, st, cur);
        CrossBalanced(dir, st, cur);
        if c.fault.None? {
          FillBalanced(dir, c.st, c.cur, n);
          CursorKept(dir, st, cur);
          BalancedTwice(dir, st, c.st, Fill(dir, c.st, c.cur, n).st, 0, EndOf(Fill(dir, c.st, c.cur, n).fault));
        }
      } else {
        var take := Min(|st.current.value.data| - st.current.value.pos, n);
        FillBalanced(dir, Advance(st, take), cur.(consumed := cur.consumed + take), n - take);
      }
    }
  }

  lemma CursorKept(dir: Dir, st: State, cur: Cursor)
    ensures var c := Cross(dir, st, cur); c.cur.consumed == cur.consumed && c.cur.total == cur.total
  {
    hide OpenNext;
  }

  ghost function EndIn(att: Attempt): nat {
    match att
    case Nothing(fault) => EndOf(Some(fault))
    case Payload(_, _, _, cause) => EndOf(cause)
  }

  lemma PayloadBalanced(dir: Dir, st: State, cur: Cursor, want: nat, meta: Meta)
    requires Sound(dir, st.(resync := false)) && st.current.Some? && st.reopened.None?
    ensures var r := ReadPayload(dir, st, cur, want, meta);
            Aligned(dir, r.1) && Balanced(dir, st, r.1, EndIn(r.0))
            && (r.0.cause == Some(SessionEnd) ==> r.0.got == [] && r.0.want > 0)
  {
    hide Fill;
    hide UsableHeaders;
    hide OpenValidated;
    hide Changes;
    FillBalanced(dir, st.(lastMeta := meta), cur, want);
    FillStops(dir, st.(lastMeta := meta), cur, want);
  }

  lemma HeaderBalanced(dir: Dir, st: State, format: Format, minor: nat)
    requires Sound(dir, st) && st.current.Some? && st.reopened.None? && format.Valid()
    ensures var d := ReadDataHeader(dir, st, format, minor);
            && Aligned(dir, Lose(d.st)) && Balanced(dir, st, d.st, EndOf(d.fault))
            && Balanced(dir, st, Lose(d.st), EndOf(d.fault))
            && (d.fault.None? ==> d.st.reopened.None? && Sound(dir, d.st.(resync := false)))
  {
    hide Fill;
    hide Balanced;
    hide Aligned;
    hide OpenValidated;
    hide DecodeLen;
    hide DecodeMeta;
    if format.Fixed? {
      BalancedNot(dir, st);
      LoseBalanced(dir, st, st, 0);
    } else {
      var len := format.DataHeaderLenIn(minor);
      var f := Fill(dir, st, FRESH_CURSOR, len);
      FillBalanced(dir, st, FRESH_CURSOR, len);
      FillSound(dir, st, FRESH_CURSOR, len);
      FillStops(dir, st, FRESH_CURSOR, len);
      LoseBalanced(dir, st, f.st, EndOf(f.fault));
      if f.fault.None? {
        RejectBalanced(dir, f.st);
        BalancedTwice(dir, st, f.st, Reject(f.st), 0, 0);
        LoseBalanced(dir, st, Reject(f.st), 0);
      }
    }
  }

  lemma BalancedNot(dir: Dir, st: State)
    ensures Balanced(dir, st, st, 0)
  {
  }

  /** Losing the position leaves the books alone. */
  lemma LoseBalanced(dir: Dir, a: State, b: State, ends: nat)
    ensures Balanced(dir, a, Lose(b), ends) == Balanced(dir, a, b, ends)
    ensures Aligned(dir, b) || b.reopened.None? ==> Aligned(dir, Lose(b))
  {
    hide UsableHeaders;
    hide Changes;
    hide OpenValidated;
  }

  lemma ReadFromBalanced(dir: Dir, st: State, start: Start)
    requires Sound(dir, st) && st.current.Some? && st.reopened.None?
    ensures var r := ReadFrom(dir, st, start);
            Aligned(dir, r.1) && Balanced(dir, st, r.1, EndIn(r.0))
            && (r.0.Payload? && r.0.cause == Some(SessionEnd) ==> r.0.got == [] && r.0.want > 0)
  {
    hide ReadDataHeader;
    hide ReadPayload;
    hide Uncounted;
    hide EndsAhead;
    hide OpenValidated;
    hide Balanced;
    hide Aligned;
    var h := st.current.value.header;
    match start
    case Recovered(n) =>
      var len := h.format.DataHeaderLen();
      PayloadBalanced(dir, st, Cursor(len, Some(len + n), None), n, MetaSimple);
    case Fresh =>
      var d := ReadDataHeader(dir, st, h.format, h.minor);
      HeaderBalanced(dir, st, h.format, h.minor);
      if d.fault.None? {
        var r := ReadPayload(dir, d.st, d.cur, d.len, d.meta);
        PayloadBalanced(dir, d.st, d.cur, d.len, d.meta);
        BalancedTwice(dir, st, d.st, r.1, 0, EndIn(r.0));
      }
  }

  lemma {:induction false} FindBalanced(dir: Dir, st: State)
    requires st.current.None? && Aligned(dir, st)
    ensures var r := FindRecordStart(dir, st);
            && Aligned(dir, r.st)
            && Balanced(dir, st, r.st, if r.Missing? then EndOf(Some(r.fault)) else 0)
            && (r.Found? ==> r.st.reopened.None?)
    decreases |st.pending|
  {
    hide OpenNext;
    hide UsableHeaders;
    hide OpenValidated;
    hide RecoveredPayloadLen;
    hide Changes;
    var st0 := st.(recovery := None);
    var (opening, st1) := OpenNext(dir, st0);
    OpenNextBalanced(dir, st0);
    OpenNextSound(dir, st0);
    if opening.Opened? {
      FindBalanced(dir, st1.(current := None));
      var r := FindRecordStart(dir, st1.(current := None));
      BalancedTwice(dir, st, st1.(current := None), r.st, 0, if r.Missing? then EndOf(Some(r.fault)) else 0);
    }
  }

  lemma ReadBalanced(dir: Dir, st: State)
    requires Sound(dir, st) && Aligned(dir, st)
    ensures var (att, st1) := Read(dir, st);
            && Aligned(dir, st1) && Balanced(dir, st, st1, EndIn(att))
            && (att.Payload? && att.cause == Some(SessionEnd) ==> att.got == [] && att.want > 0)
  {
    hide ReadFrom;
    hide FindRecordStart;
    hide UsableHeaders;
    if st.pending == [] && st.Exhausted() {
    } else if st.current.Some? {
      ReadFromBalanced(dir, st, Fresh);
    } else {
      var st0 := st.(resync := true);
      FindSound(dir, st0);
      FindPays(dir, st0);
      FindBalanced(dir, st0);
      match FindRecordStart(dir, st0)
      case Missing(_, _) =>
      case Found(start, st1) =>
        var st2 := st1.(resync := false);
        if st1.startLost == 0 {
          ReadFromBalanced(dir, st2, start);
          var r := ReadFrom(dir, st2, start);
          BalancedTwice(dir, st, st2, r.1, 0, EndIn(r.0));
        }
    }
  }

  /** The session boundaries a run reports into buffers of the given sizes. */
  ghost function SessionEnds(trace: seq<Attempt>, rooms: seq<nat>): nat
    requires |rooms| == |trace|
  {
    if trace == [] then 0
    else (if Clip(trace[0], rooms[0]) == Failed(SessionEnd, []) then 1 else 0) + SessionEnds(trace[1..], rooms[1..])
  }

  /** A session end met inside a record is hidden by an empty buffer: the read
      reports that the record did not fit. */
  predicate Hidden(att: Attempt, room: nat) { room == 0 && MeetsEnd(att) }

  predicate MeetsEnd(att: Attempt) { att.Payload? && att.cause == Some(SessionEnd) }

  ghost function HiddenEnds(trace: seq<Attempt>, rooms: seq<nat>): (n: nat)
    requires |rooms| == |trace|
    ensures n == 0 <==> forall i :: 0 <= i < |rooms| ==> !Hidden(trace[i], rooms[i])
  {
    if trace == [] then 0
    else
      assert forall i :: 0 < i < |rooms| ==> trace[1..][i - 1] == trace[i] && rooms[1..][i - 1] == rooms[i];
      assert forall i :: 0 <= i < |rooms| - 1 ==> trace[1..][i] == trace[i + 1] && rooms[1..][i] == rooms[i + 1];
      (if Hidden(trace[0], rooms[0]) then 1 else 0) + HiddenEnds(trace[1..], rooms[1..])
  }

  lemma EndSeen(att: Attempt, room: nat)
    requires att.Payload? && att.cause == Some(SessionEnd) ==> att.got == [] && att.want > 0
    ensures EndIn(att) ==
      (if Clip(att, room) == Failed(SessionEnd, []) then 1 else 0) + (if Hidden(att, room) then 1 else 0)
  {
  }

  /** The reader once it has reported the end of the log. */
  ghost function Final(dir: Dir, st: State): State
    requires Sound(dir, st)
    decreases Potential(dir, st)
  {
    ReadPays(dir, st);
    var (att, st1) := Read(dir, st);
    if att == Nothing(Eof) then st1 else Final(dir, st1)
  }

  /** One read more. */
  lemma EndsMore(att: Attempt, rest: seq<Attempt>, rooms: seq<nat>)
    requires |rooms| == |rest| + 1
    requires att.Payload? && att.cause == Some(SessionEnd) ==> att.got == [] && att.want > 0
    ensures var trace := [att] + rest;
            SessionEnds(trace, rooms) + HiddenEnds(trace, rooms) ==
              EndIn(att) + (SessionEnds(rest, rooms[1..]) + HiddenEnds(rest, rooms[1..]))
  {
    hide Clip;
    hide Hidden;
    hide EndIn;
    assert ([att] + rest)[1..] == rest;
    EndSeen(att, rooms[0]);
  }

  lemma RunMore(dir: Dir, st: State)
    requires Sound(dir, st)
    ensures Sound(dir, Read(dir, st).1)
    ensures var (att, st1) := Read(dir, st);
            if att == Nothing(Eof) then
              && Trace(dir, st) == [] && Final(dir, st) == st1 && st1.pending == [] && EndIn(att) == 0
            else
              && Trace(dir, st) == [att] + Trace(dir, st1) && Final(dir, st) == Final(dir, st1)
              && Potential(dir, st1) < Potential(dir, st)
  {
    hide Read;
    hide Potential;
    ReadPays(dir, st);
  }

  lemma NoEnds()
    ensures SessionEnds([], []) == 0 && HiddenEnds([], []) == 0
  {
  }

  lemma {:induction false} RunBalanced(dir: Dir, st: State, rooms: seq<nat>)
    requires Sound(dir, st) && Aligned(dir, st) && |rooms| == |Trace(dir, st)|
    ensures var trace := Trace(dir, st);
            Balanced(dir, st, Final(dir, st), SessionEnds(trace, rooms) + HiddenEnds(trace, rooms))
    ensures Final(dir, st).pending == []
    decreases Potential(dir, st)
  {
    hide *;
    RunMore(dir, st);
    ReadBalanced(dir, st);
    var (att, st1) := Read(dir, st);
    if att == Nothing(Eof) {
      NoEnds();
      assert rooms == [];
    } else {
      RunBalanced(dir, st1, rooms[1..]);
      var rest := Trace(dir, st1);
      EndsMore(att, rest, rooms);
      BalancedTwice(dir, st, st1, Final(dir, st1), EndIn(att),
                    SessionEnds(rest, rooms[1..]) + HiddenEnds(rest, rooms[1..]));
    }
  }

  // ------------------------------------------- when an end is met in a record

  /** The next usable file opens another session, or is an empty one that
      continues this session on a record boundary, with the same true after it. */
  ghost predicate EndNext(dir: Dir, ids: seq<SegId>, session: Option<SegId>, prevSeq: Option<u64>, short: bool)
    decreases |ids|
  {
    if ids == [] then false
    else if !Usable(dir, ids[0]) then EndNext(dir, ids[1..], session, prevSeq, short)
    else
      var seg := OpenValidated(dir, ids[0]).value;
      var h := seg.header;
      if session.Some? && h.sessionId != session.value then true
      else
        && h.remaining == 0 && !short && InSequence(prevSeq, h.sequence) && seg.data == []
        && EndNext(dir, ids[1..], Some(h.sessionId), Some(h.sequence), 0 < h.DataLen())
  }

  /** A file of fixed-length records is open and read to its end, the session
      ends with it, and the buffer is empty. */
  ghost predicate HidesEnd(dir: Dir, st: State, room: nat) {
    && room == 0 && st.current.Some? && st.Exhausted() && st.current.value.header.format.Fixed?
    && EndNext(dir, st.pending, st.session, st.prevSeq, Short(st))
  }

  lemma {:induction false} EndNextDrop(dir: Dir, ids: seq<SegId>, session: Option<SegId>, prevSeq: Option<u64>,
                                       short: bool)
    ensures var t := Unusable(dir, ids);
            EndNext(dir, ids, session, prevSeq, short) == EndNext(dir, ids[t..], session, prevSeq, short)
    decreases |ids|
  {
    hide OpenValidated;
    if ids != [] && !Usable(dir, ids[0]) {
      EndNextDrop(dir, ids[1..], session, prevSeq, short);
      assert ids[1..][Unusable(dir, ids[1..])..] == ids[Unusable(dir, ids)..];
    } else {
      assert ids[0..] == ids;
    }
  }

  /** What the first usable file makes of it. */
  lemma EndNextOpens(dir: Dir, st: State)
    ensures var (opening, st1) := OpenNext(dir, st);
            && (opening.NoMore? ==> forall s, q, b :: !EndNext(dir, st.pending, s, q, b))
            && (opening.NewSession? ==> forall q, b :: EndNext(dir, st.pending, st.session, q, b))
            && (opening.Opened? ==>
                  var h := st1.current.value.header;
                  && st1.session == Some(h.sessionId) && st1.prevSeq == Some(h.sequence)
                  && forall q, b :: EndNext(dir, st.pending, st.session, q, b) ==
                       (h.remaining == 0 && !b && InSequence(q, h.sequence) && st1.current.value.data == []
                        && EndNext(dir, st1.pending, st1.session, st1.prevSeq, Short(st1))))
  {
    hide OpenValidated;
    hide InSequence;
    var ids := st.pending;
    var t := Unusable(dir, ids);
    forall s, q, b ensures EndNext(dir, ids, s, q, b) == EndNext(dir, ids[t..], s, q, b) {
      EndNextDrop(dir, ids, s, q, b);
    }
    if t < |ids| { assert ids[t..][1..] == ids[t + 1..]; }
  }

  /** Bytes read, a session that ends is a record cut short. */
  lemma {:induction false} NoEndInside(dir: Dir, st: State, cur: Cursor, n: nat)
    requires cur.consumed > 0
    ensures Fill(dir, st, cur, n).fault != Some(SessionEnd)
    decreases n, |st.pending|
  {
    hide Fill;
    hide OpenNext;
    hide Judge;
    if n == 0 {
      FillZero(dir, st, cur);
    } else {
      FillUnfold(dir, st, cur, n);
      if st.Exhausted() {
        var c := Cross(dir, st, cur);
        if c.fault.None? { NoEndInside(dir, c.st, c.cur, n); }
      } else {
        var take := Min(|st.current.value.data| - st.current.value.pos, n);
        NoEndInside(dir, Advance(st, take), cur.(consumed := cur.consumed + take), n - take);
      }
    }
  }

  /** Reading on from a record boundary meets the end of the session exactly
      when it comes next. */
  lemma {:induction false} FillMeetsEnd(dir: Dir, st: State, cur: Cursor, n: nat)
    requires n > 0 && cur.consumed == 0 && st.current.Some?
    ensures Fill(dir, st, cur, n).fault == Some(SessionEnd) <==>
      st.Exhausted() && EndNext(dir, st.pending, st.session, st.prevSeq, Short(st))
    decreases |st.pending|
  {
    hide Fill;
    hide OpenNext;
    hide EndNext;
    hide NoteImplied;
    hide InSequence;
    FillUnfold(dir, st, cur, n);
    if st.Exhausted() {
      var (opening, st1) := OpenNext(dir, st.(current := None));
      EndNextOpens(dir, st.(current := None));
      var c := Cross(dir, st, cur);
      if c.fault.None? { FillMeetsEnd(dir, st1, c.cur, n); }
    } else {
      var take := Min(|st.current.value.data| - st.current.value.pos, n);
      NoEndInside(dir, Advance(st, take), cur.(consumed := cur.consumed + take), n - take);
    }
  }

  /** A read meets the end of a session inside a record exactly when fixed-length
      records are being read and the end comes next. */
  lemma ReadMeetsEnd(dir: Dir, st: State)
    requires Sound(dir, st)
    ensures MeetsEnd(Read(dir, st).0) <==> HidesEnd(dir, st, 0)
  {
    hide ReadFrom;
    hide FindRecordStart;
    hide EndNext;
    if st.pending == [] && st.Exhausted() {
      NothingEnds(dir, st.session, st.prevSeq, Short(st));
    } else if st.current.Some? {
      FreshMeetsEnd(dir, st);
    } else {
      var st0 := st.(resync := true);
      FindSound(dir, st0);
      var r := FindRecordStart(dir, st0);
      FindLeavesBytes(dir, st0);
      if r.Found? { FoundMeetsNoEnd(dir, r.st.(resync := false), r.start); }
    }
  }

  lemma NothingEnds(dir: Dir, session: Option<SegId>, prevSeq: Option<u64>, short: bool)
    ensures !EndNext(dir, [], session, prevSeq, short)
  {
  }

  lemma FreshMeetsEnd(dir: Dir, st: State)
    requires st.current.Some? && st.current.value.header.Readable()
    ensures MeetsEnd(ReadFrom(dir, st, Fresh).0) <==> HidesEnd(dir, st, 0)
  {
    hide Fill;
    hide EndNext;
    var h := st.current.value.header;
    if h.format.Fixed? {
      FillMeetsEnd(dir, st.(lastMeta := MetaFixed), FRESH_CURSOR.(total := Some(h.format.n)), h.format.n);
    } else {
      var d := ReadDataHeader(dir, st, h.format, h.minor);
      if d.fault.None? { NoEndInside(dir, d.st.(lastMeta := d.meta), d.cur, d.len); }
    }
  }

  /** A search that finds a record's start finds a byte of it, unless its header
      was lost. */
  lemma {:induction false} FindLeavesBytes(dir: Dir, st: State)
    requires st.current.None?
    ensures var r := FindRecordStart(dir, st);
            r.Found? ==>
              && r.st.current.Some?
              && (if r.start.Fresh? then !r.st.Exhausted() else r.st.current.value.header.format == VariableSimple)
    decreases |st.pending|
  {
    hide OpenValidated;
    hide Unusable;
    var (opening, st1) := OpenNext(dir, st.(recovery := None));
    if opening.Opened? { FindLeavesBytes(dir, st1.(current := None)); }
  }

  lemma FoundMeetsNoEnd(dir: Dir, st: State, start: Start)
    requires st.current.Some? && st.current.value.header.Readable()
    requires if start.Fresh? then !st.Exhausted() else st.current.value.header.format == VariableSimple
    ensures !MeetsEnd(ReadFrom(dir, st, start).0)
  {
    hide Fill;
    hide EndNext;
    match start
    case Fresh => FreshMeetsEnd(dir, st);
    case Recovered(n) =>
      var len := st.current.value.header.format.DataHeaderLen();
      NoEndInside(dir, st.(lastMeta := MetaSimple), Cursor(len, Some(len + n), None), n);
  }

  /** Read i of a run hides an end exactly when the reader stands so before it. */
  lemma HiddenWhen(dir: Dir, st: State, i: nat, room: nat)
    requires Sound(dir, st) && i < |Trace(dir, st)|
    ensures Hidden(Trace(dir, st)[i], room) <==> HidesEnd(dir, After(dir, st, i), room)
  {
    hide Read;
    hide EndNext;
    TraceIsRun(dir, st, i);
    ReadMeetsEnd(dir, After(dir, st, i));
  }

  /** Whatever the files contain and whatever the buffers, a whole run counts
      and retains every usable file once, in order. It reports a session end
      once per change of session between consecutive usable files if and only
      if no read is made with an empty buffer where one hides an end; with
      buffers that are never empty none is. */
  lemma FilesAndSessionsAccounted(dir: Dir, ids: seq<SegId>, rooms: seq<nat>)
    requires |rooms| == |Trace(dir, Initial(ids, true))|
    ensures var st := Initial(ids, true);
            var trace := Trace(dir, st);
            var end := Final(dir, st);
            var changes := Changes(None, UsableHeaders(dir, ids));
            && end.headers == UsableHeaders(dir, ids)
            && end.segmentsOpened == |UsableHeaders(dir, ids)|
            && SessionEnds(trace, rooms) <= changes
            && (SessionEnds(trace, rooms) == changes <==>
                  forall i :: 0 <= i < |rooms| ==> !HidesEnd(dir, After(dir, st, i), rooms[i]))
            && ((forall i :: 0 <= i < |rooms| ==> rooms[i] > 0) ==> SessionEnds(trace, rooms) == changes)
  {
    hide Read;
    hide Trace;
    hide Final;
    hide After;
    hide EndNext;
    hide Hidden;
    hide SessionEnds;
    hide HiddenEnds;
    var st := Initial(ids, true);
    RunBalanced(dir, st, rooms);
    forall i | 0 <= i < |rooms|
      ensures Hidden(Trace(dir, st)[i], rooms[i]) <==> HidesEnd(dir, After(dir, st, i), rooms[i])
    {
      HiddenWhen(dir, st, i, rooms[i]);
    }
    var end := Final(dir, st);
    assert UsableHeaders(dir, []) == [] && Uncounted(dir, end) == [];
    assert end.headers + [] == end.headers;
    assert [] + UsableHeaders(dir, ids) == UsableHeaders(dir, ids);
  }
}
