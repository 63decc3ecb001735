/** What the files of a session look like on disk, at every step of a run
    (tcslog/src/write.rs): the methods of LogWrite keep `Log.Valid`, and these
    are its consequences. */
module SessionLayout {
  import opened Bytes
  import opened Header
  import opened ReadSpec
  import opened Layout
  import opened Damage

  /** The data sections of files g to h, one after another. */
  ghost function Sections(log: Log, g: nat, h: nat): seq<byte>
    requires log.Valid() && g <= h < |log.files|
  {
    if g == h then log.DataOf(g) else Sections(log, g, h - 1) + log.DataOf(h)
  }

  /** The file before one of an epoch, unless it is the epoch's first, is full. */
  lemma StaysInEpoch(log: Log, g: nat, h: nat)
    requires log.Valid() && g < h < |log.files| && log.files[g].epoch == log.files[h].epoch
    ensures log.files[h - 1].epoch == log.files[h].epoch
    ensures log.files[h].start == log.files[h - 1].start + log.files[h - 1].len
  {
    FilesOrdered(log, h - 1, h);
    if g < h - 1 { FilesOrdered(log, g, h - 1); }
    assert log.SameEpoch(h - 1) || log.Resumed(h - 1) || log.NewSession(h - 1);
  }

  /** The data sections of an epoch join into its stream, as far as it is
      written: the encodings of its records, in order, cut at its end. */
  lemma {:induction false} SectionsJoin(log: Log, g: nat, h: nat)
    requires log.Valid() && g <= h < |log.files|
    requires log.files[g].epoch == log.files[h].epoch && log.files[g].start == 0
    ensures log.InRange(h)
    ensures var ep := log.epochs[log.files[h].epoch];
            var end := log.files[h].start + log.files[h].len;
            end <= |ep.Bytes()| && Sections(log, g, h) == ep.Bytes()[..end]
    decreases h - g
  {
    hide Stream;
    assert log.InRange(g) && log.InRange(h);
    var ep := log.epochs[log.files[h].epoch];
    StreamLength(ep);
    if g < h {
      StaysInEpoch(log, g, h);
      SectionsJoin(log, g, h - 1);
      var s, o, end := ep.Bytes(), log.files[h].start, log.files[h].start + log.files[h].len;
      assert s[..o] + s[o..end] == s[..end];
    } else {
      assert log.DataOf(g) == ep.Bytes()[..log.files[g].len];
    }
  }

  /** A session's first file is numbered zero and named as the session. */
  lemma {:induction false} FirstNumbered(log: Log, g: nat)
    requires log.Valid() && g < |log.files|
    ensures 0 <= log.Base(g) <= g && log.files[log.Base(g)].ordinal == 0 && log.files[log.Base(g)].start == 0
    decreases g
  {
    if g > 0 && log.files[g].ordinal > 0 {
      FirstNumbered(log, g - 1);
      assert log.SameEpoch(g - 1) || log.Resumed(g - 1) || log.NewSession(g - 1);
    } else if g > 0 {
      assert log.SameEpoch(g - 1) || log.Resumed(g - 1) || log.NewSession(g - 1);
    }
  }

  /** Every file's header tells its place: the session by its first file's
      name, the number of files before it in the session, and what the file
      owes the record in progress where it begins: nothing on a record
      boundary, else all of that record from there on, however many data
      sections that takes. */
  lemma HeaderTells(log: Log, g: nat, j: nat)
    requires log.Valid() && g < |log.files|
    ensures log.InRange(g)
    ensures var h := log.HeaderOf(g);
            var f := log.files[g];
            var ep := log.epochs[f.epoch];
            && h.segmentId == f.id && h.sessionId == log.files[log.Base(g)].id && log.files[log.Base(g)].ordinal == 0
            && (g - log.Base(g) < U64_LIMIT ==> h.sequence == g - log.Base(g))
            && h.format == ep.fmt && h.maxSize == HEADER_LEN + ep.dsize
            && (j <= |ep.recs| && f.start == ep.Start(j) ==> h.remaining == 0)
            && (j < |ep.recs| && ep.Start(j) < f.start <= ep.Start(j + 1) ==> h.remaining == ep.Start(j + 1) - f.start)
  {
    assert log.InRange(g);
    FirstNumbered(log, g);
    var ep := log.epochs[log.files[g].epoch];
    if j <= |ep.recs| && log.files[g].start == ep.Start(j) { IndexOfStart(ep, j); }
    if j < |ep.recs| && ep.Start(j) < log.files[g].start <= ep.Start(j + 1) { IndexInside(ep, log.files[g].start, j); }
  }

  /** Where no write was abandoned, every file but a session's last holds
      exactly the maximum, and the next one continues where it ends. */
  lemma FullButTheLast(log: Log, g: nat)
    requires log.Valid() && !log.WriteAbandoned() && g + 1 < |log.files| && log.Base(g + 1) == log.Base(g)
    ensures |log.Image(g)| == log.HeaderOf(g).maxSize
    ensures log.files[g + 1].epoch == log.files[g].epoch
    ensures log.files[g + 1].start == log.files[g].start + log.files[g].len
  {
    assert log.InRange(g) && log.InRange(g + 1);
    assert log.SameEpoch(g) || log.Resumed(g) || log.NewSession(g);
    assert !log.Resumed(g);
  }

  /** The file named a was created before the one named b: in an earlier
      session, or earlier in the same one. */
  ghost predicate CreatedBefore(w: World, a: SegId, b: SegId) {
    && a in w.at && b in w.at
    && var i, k := w.at[a], w.at[b];
       && i < k < |w.log.files| && w.log.files[i].id == a && w.log.files[k].id == b
       && w.log.Base(i) <= w.log.Base(k)
       && (if w.log.Base(i) == w.log.Base(k)
           then w.log.files[i].session == w.log.files[k].session && w.log.files[i].ordinal < w.log.files[k].ordinal
           else w.log.files[i].session != w.log.files[k].session)
  }

  ghost predicate InOrder(w: World) {
    forall a, b :: a in w.dir && b in w.dir && a < b ==> CreatedBefore(w, a, b)
  }

  /** Names sort in the order files were created, and so by session and, within
      a session, by sequence number. */
  lemma OrderIsCreationOrder(w: World)
    requires w.Removed()
    ensures InOrder(w)
  {
    hide Usable;
    forall a, b | a in w.dir && b in w.dir && a < b ensures CreatedBefore(w, a, b) {
      FilesOrdered(w.log, w.at[a], w.at[b]);
    }
  }
}
