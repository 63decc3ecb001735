/** What a log may suffer before it is read, and what survives: files missing,
    unreadable, or cut short, at bytes that are otherwise as written. */
module Damage {
  import opened Bytes
  import opened Format
  import opened Header
  import opened ReadSpec
  import opened Layout

  /** A record's place: its epoch, and its number within it. */
  datatype Place = Place(e: nat, j: nat)

  predicate Le(a: Place, b: Place) { a.e < b.e || (a.e == b.e && a.j <= b.j) }

  predicate Less(a: Place, b: Place) { a.e < b.e || (a.e == b.e && a.j < b.j) }

  /** A file handed over: its name, what was there under it, and which names
      whoever it was handed to then took away. */
  datatype Handed = Handed(id: SegId, content: Option<seq<byte>>, gone: set<SegId>)

  /** A log as written, the directory as found, and which file of the log each
      name in the directory was; the files handed to whoever takes them away,
      if anyone, and whether such a one takes no others; and the first epoch no
      clear has begun to remove. */
  datatype World =
    World(log: Log, dir: Dir, at: map<SegId, nat>, passed: seq<Handed>, fair: bool, since: nat)
  {

    ghost predicate Survives(g: int) {
      && 0 <= g < |log.files|
      && log.files[g].id in at && at[log.files[g].id] == g
      && Usable(dir, log.files[g].id)
    }

    /** The data section left of a surviving file. */
    ghost function Left(g: int): seq<byte>
      requires Survives(g)
    {
      OpenValidated(dir, log.files[g].id).value.data
    }

    /** Damage only takes away: what is present is a file of the log, cut
        short or not, or something that cannot be used. Names present sort in
        the order their files were written, and carry the same session exactly
        when they were written in the same session. */
    ghost predicate Removed() {
      && log.Valid()
      && dir.Keys == at.Keys
      && (forall id :: id in dir ==>
            && at[id] < |log.files| && log.files[at[id]].id == id
            && (!Usable(dir, id) || dir[id] <= log.Image(at[id])))
      && (forall a, b :: a in dir && b in dir && a < b ==> at[a] < at[b])
      && (forall a, b :: a in dir && b in dir ==>
            (log.files[at[a]].session == log.files[at[b]].session <==> log.Base(at[a]) == log.Base(at[b])))
    }

    /** No session is so long that its sequence numbers run out. */
    ghost predicate Countable() {
      forall g :: 0 <= g < |log.files| ==> log.files[g].ordinal < U64_LIMIT - 1
    }

    /** Where a write failed and yet filled its file, and that file is still
        there whole, so is the file opened after it. A log written without an
        abandoned write meets this whatever is missing. */
    ghost predicate ResumptionsHeld() {
      forall g :: 0 <= g < |log.files| - 1 && log.Resumed(g) && FullSimple(g) ==> Survives(g + 1)
    }

    /** File g, of records that carry their length alone, is there and holds all
        it can. */
    ghost predicate FullSimple(g: nat) {
      && Survives(g) && log.InRange(g)
      && log.epochs[log.files[g].epoch].fmt == VariableSimple
      && |Left(g)| == log.epochs[log.files[g].epoch].dsize
    }

    ghost predicate Valid() { Removed() && Countable() && ResumptionsHeld() }

    ghost predicate IsPlace(p: Place) { p.e < |log.epochs| && p.j < |log.epochs[p.e].recs| }

    ghost function RecordAt(p: Place): Record
      requires IsPlace(p)
    {
      log.epochs[p.e].recs[p.j]
    }

    /** File g still holds byte x of epoch e's stream. */
    ghost predicate Holds(g: nat, e: nat, x: nat) {
      Survives(g) && log.files[g].epoch == e && log.files[g].start <= x < log.files[g].start + |Left(g)|
    }

    ghost predicate ByteSurvives(e: nat, x: nat) { exists g :: Holds(g, e, x) }

    /** Every file is there, whole. */
    ghost predicate Intact() {
      forall g: nat :: g < |log.files| ==> Survives(g) && |Left(g)| == log.files[g].len
    }

    /** Every byte of the record was written out. */
    ghost predicate OnDisk(p: Place) {
      && IsPlace(p)
      && exists g: nat :: log.InRange(g) && log.files[g].epoch == p.e
           && log.epochs[p.e].Start(p.j + 1) <= log.files[g].start + log.files[g].len
    }

    /** Every header and payload byte of the record is still there. */
    ghost predicate RecordSurvives(p: Place) {
      && IsPlace(p)
      && var ep := log.epochs[p.e];
         forall x :: ep.Start(p.j) <= x < ep.Start(p.j + 1) ==> ByteSurvives(p.e, x)
    }
  }

  /** Names sort as their files were written. */
  lemma NamesOrdered(w: World, a: SegId, b: SegId)
    requires w.Removed() && a in w.at && b in w.at
    ensures a < b <==> w.at[a] < w.at[b]
    ensures w.at[a] < |w.log.files| && w.log.files[w.at[a]].id == a
  {
  }

  /** Survivors carry one session exactly when they were written in one. */
  lemma SessionsApart(w: World, g: nat, h: nat)
    requires w.Removed() && w.Survives(g) && w.Survives(h)
    ensures w.log.files[g].session == w.log.files[h].session <==> w.log.Base(g) == w.log.Base(h)
  {
    var a, b := w.log.files[g].id, w.log.files[h].id;
    assert a in w.dir && b in w.dir;
  }

  /** A file cut anywhere past its header still opens, as what it was. */
  lemma CutFileOpens(log: Log, g: nat, dir: Dir, id: SegId)
    requires log.Valid() && g < |log.files| && log.files[g].id == id
    requires id in dir && dir[id] <= log.Image(g)
    ensures Usable(dir, id) <==> |dir[id]| >= HEADER_LEN
    ensures Usable(dir, id) ==>
      var seg := OpenValidated(dir, id).value;
      seg.header == log.HeaderOf(g) && seg.data <= log.DataOf(g)
  {
    assert log.InRange(g);
    var h, s := log.HeaderOf(g), dir[id];
    if |s| >= HEADER_LEN {
      HeaderRoundTrip(h, []);
      assert ToBytes(h) + [] == ToBytes(h);
      assert s[..HEADER_LEN] == log.Image(g)[..HEADER_LEN] == ToBytes(h);
      assert s[HEADER_LEN..] <= log.Image(g)[HEADER_LEN..] == log.DataOf(g);
    }
  }

  /** A usable file is the file of the log it was, perhaps cut short. */
  lemma UsableIsTrue(w: World, id: SegId)
    requires w.Removed() && id in w.dir && Usable(w.dir, id)
    ensures var g := w.at[id];
            var seg := OpenValidated(w.dir, id).value;
            && g < |w.log.files| && w.log.InRange(g) && w.Survives(g)
            && seg.header == w.log.HeaderOf(g) && seg.data <= w.log.DataOf(g)
            && |seg.data| <= w.log.files[g].len <= w.log.epochs[w.log.files[g].epoch].dsize
  {
    CutFileOpens(w.log, w.at[id], w.dir, id);
    assert w.log.InRange(w.at[id]);
  }

  /** The byte a surviving file holds at offset x is the stream's. */
  lemma LeftIsStream(w: World, g: nat, a: nat, b: nat)
    requires w.Removed() && w.Survives(g) && a <= b <= |w.Left(g)|
    ensures w.log.InRange(g)
    ensures var f := w.log.files[g];
            var s := w.log.epochs[f.epoch].Bytes();
            f.start + b <= |s| && w.Left(g)[a..b] == s[f.start + a..f.start + b]
  {
    hide OpenValidated;
    hide Stream;
    var f := w.log.files[g];
    UsableIsTrue(w, f.id);
    var ep := w.log.epochs[f.epoch];
    StreamLength(ep);
    SliceOfSlice(ep.Bytes(), f.start, w.log.DataOf(g), w.Left(g), a, b);
  }

  lemma SliceOfSlice(s: seq<byte>, start: nat, t: seq<byte>, u: seq<byte>, a: nat, b: nat)
    requires start + |t| <= |s| && t == s[start..start + |t|] && u <= t && a <= b <= |u|
    ensures u[a..b] == s[start + a..start + b]
  {
    forall i | 0 <= i < b - a ensures u[a..b][i] == s[start + a..start + b][i] {
      assert u[a + i] == t[a + i];
    }
    assert u[a..b] == s[start + a..start + b];
  }

  lemma RemovedValid(w: World)
    requires w.Removed()
    ensures w.log.Valid() && w.dir.Keys == w.at.Keys
  {
  }

  /** A byte beyond what is left of file g, at or after it, can only be held by
      a later file; if it is the very next byte, by the next file, and then
      file g was full. */
  lemma HeldLater(w: World, g: nat, h: nat, e: nat, x: nat)
    requires w.Removed() && w.Survives(g) && w.Holds(h, e, x)
    requires e == w.log.files[g].epoch && x >= w.log.files[g].start + |w.Left(g)|
    ensures h > g && w.log.InRange(g)
    ensures x == w.log.files[g].start + |w.Left(g)| ==>
      h == g + 1 && |w.Left(g)| == w.log.epochs[e].dsize && w.log.files[h].start == x
  {
    hide World.Removed;
    hide OpenValidated;
    hide Epoch.Valid;
    hide Epoch.End;
    RemovedValid(w);
    UsableIsTrue(w, w.log.files[g].id);
    UsableIsTrue(w, w.log.files[h].id);
    if h < g {
      FilesOrdered(w.log, h, g);
    } else if g < h {
      FilesOrdered(w.log, g, h);
      if g + 1 < h {
        FilesOrdered(w.log, g, g + 1);
        FilesOrdered(w.log, g + 1, h);
      }
    }
  }
}
