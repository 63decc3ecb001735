/** The directory a log lives in, as the writer sees it: files that appear
    under a name, grow, and go away, any of which may fail. The log the files
    came from is kept beside them as ghost state. */
module Directory {
  import opened Bytes
  import opened Names
  import opened ReadSpec
  import opened Layout
  import opened Damage
  import opened DirSteps

  datatype Creation = Created | AlreadyExists | Refused

  /** What whoever files are handed to does with them: leaves them where they
      are, takes away none but the one handed over, or takes any. */
  datatype Custody = Keeps | Takes | Meddles

  class Directory {
    var files: Dir
    const custody: Custody
    /** The files handed to `send`, one after another. */
    var handed: seq<Handed>
    /** Those handed over since the log was last cleared. */
    var received: seq<Handed>
    ghost var log: Log
    ghost var at: map<SegId, nat>
    /** The first epoch that no clear has begun to remove. */
    ghost var since: nat
    /** How many operations have failed. */
    ghost var faults: nat
    /** How many of those were a failure to flush. */
    ghost var unflushed: nat
    /** How many times a record was reported complete. */
    ghost var reported: nat
    /** Nothing was written since the last flush. */
    ghost var clean: bool

    constructor (custody: Custody)
      ensures this.custody == custody && World() == EmptyWorld(custody) && handed == []
    {
      this.custody, this.files, this.handed, this.received := custody, map[], [], [];
      this.log, this.at, this.since, this.faults := Log([], []), map[], 0, 0;
      this.unflushed, this.reported, this.clean := 0, 0, true;
    }

    /** What has been handed to someone who takes files away. */
    function Passed(): seq<Handed>
      reads this`received
    {
      if custody.Keeps? then [] else received
    }

    ghost function World(): World
      reads this`log, this`files, this`at, this`received, this`since
    {
      Damage.World(log, files, at, Passed(), !custody.Meddles?, since)
    }

    /** The log's files, wherever they are. */
    function Everything(): Dir
      reads this`files, this`received
    {
      Gathered(Passed(), files)
    }

    /** Creates an empty file, failing if the name is taken. */
    method CreateNew(id: SegId) returns (r: Creation)
      modifies this`files, this`faults
      ensures r.AlreadyExists? <==> id in old(files)
      ensures files == if r.Created? then old(files)[id := []] else old(files)
      ensures faults == old(faults) + if r.Refused? then 1 else 0
    {
      var fails: bool := *;
      if id in files {
        return AlreadyExists;
      }
      if fails {
        faults := faults + 1;
        return Refused;
      }
      files := files[id := []];
      return Created;
    }

    /** Appends bytes to a file; a failure may leave a part of them. */
    method WriteAll(id: SegId, chunk: seq<byte>) returns (ok: bool, ghost written: nat)
      requires id in files
      modifies this`files, this`faults, this`clean
      ensures faults == old(faults) + (if ok then 0 else 1) && !clean
      ensures written <= |chunk| && (ok ==> written == |chunk|)
      ensures files == old(files)[id := old(files)[id] + chunk[..written]]
    {
      var k: int := *;
      ok := *;
      var part := if ok || k < 0 || k > |chunk| then chunk else chunk[..k];
      written := |part|;
      assert part == chunk[..written];
      files := files[id := files[id] + part];
      clean := false;
      faults := faults + if ok then 0 else 1;
    }

    /** `flush`: no file is the other for it, but it may fail. */
    method Flush() returns (ok: bool)
      modifies this`faults, this`unflushed, this`clean
      ensures faults == old(faults) + if ok then 0 else 1
      ensures unflushed == old(unflushed) + if ok then 0 else 1
      ensures ok ==> clean
    {
      ok := *;
      faults := faults + if ok then 0 else 1;
      unflushed := unflushed + if ok then 0 else 1;
      clean := clean || ok;
    }

    /** The `record_complete` callback, which may fail. */
    method RecordComplete() returns (ok: bool)
      modifies this`faults, this`reported
      ensures faults == old(faults) + (if ok then 0 else 1) && reported == old(reported) + 1
    {
      reported := reported + 1;
      ok := *;
      faults := faults + if ok then 0 else 1;
    }

    /** The `send` callback, handed a closed file. It may take files away, as
        its custody has it, and it may fail. */
    method Send(id: SegId) returns (ok: bool, ghost x: Handed)
      modifies this`files, this`handed, this`received, this`at, this`faults
      ensures faults == old(faults) + if ok then 0 else 1
      ensures handed == old(handed) + [x] && received == old(received) + [x] && x.id == id
      ensures MaySend(old(World()), x, !custody.Keeps?)
      ensures World() == AfterSend(old(World()), x, !custody.Keeps?)
    {
      var taken: set<SegId> := *;
      var gone := match custody
        case Keeps => {}
        case Takes => taken * {id}
        case Meddles => taken;
      var content := if id in files then Some(files[id]) else None;
      handed, received := handed + [Handed(id, content, gone)], received + [Handed(id, content, gone)];
      x := Handed(id, content, gone);
      files := files - gone;
      at := at - gone;
      ok := *;
      faults := faults + if ok then 0 else 1;
    }

    /** The log is cleared of all its files. */
    method Forget()
      modifies this`received, this`log, this`at, this`since
      ensures files == map[] ==> World() == EmptyWorld(custody)
    {
      received := [];
      log, at, since := Log([], []), map[], 0;
    }

    /** Removes a file. */
    method Remove(id: SegId) returns (ok: bool)
      modifies this`files, this`at, this`faults
      ensures faults == old(faults) + if ok then 0 else 1
      ensures files == (if ok then old(files) - {id} else old(files))
      ensures at == (if ok then old(at) - {id} else old(at))
    {
      ok := *;
      faults := faults + if ok then 0 else 1;
      if ok {
        files := files - {id};
        at := at - {id};
      }
    }

    /** Enumerates the directory, which may fail. */
    method Enumerate(prefix: string, suffix: string) returns (r: Option<seq<string>>)
      modifies this`faults
      ensures faults == old(faults) + if r.Some? then 0 else 1
      ensures r.Some? ==> forall i, j :: 0 <= i < j < |r.value| ==> r.value[i] != r.value[j]
      ensures r.Some? ==> forall id: u64 :: id in files <==> BuildName(prefix, id, suffix) in r.value
    {
      var ok: bool := *;
      if !ok {
        faults := faults + 1;
        return None;
      }
      var entries := List(prefix, suffix);
      return Some(entries);
    }

    /** The names in the directory, in no particular order. */
    method List(prefix: string, suffix: string) returns (entries: seq<string>)
      ensures forall i, j :: 0 <= i < j < |entries| ==> entries[i] != entries[j]
      ensures forall id: u64 :: id in files <==> BuildName(prefix, id, suffix) in entries
    {
      entries := ListNames(files, prefix, suffix);
    }
  }

  /** A log's files by name, in no particular order. */
  method ListNames(files: Dir, prefix: string, suffix: string) returns (entries: seq<string>)
    ensures forall i, j :: 0 <= i < j < |entries| ==> entries[i] != entries[j]
    ensures forall id: u64 :: id in files <==> BuildName(prefix, id, suffix) in entries
  {
    hide BuildName;
    entries := [];
    var left := files.Keys;
    ghost var listed: seq<SegId> := [];
    while left != {}
      invariant left <= files.Keys && |listed| == |entries|
      invariant forall id :: id in files <==> id in left || id in listed
      invariant forall id :: id in left ==> id !in listed
      invariant forall i :: 0 <= i < |entries| ==> entries[i] == BuildName(prefix, listed[i], suffix)
      invariant forall i, j :: 0 <= i < j < |listed| ==> listed[i] != listed[j]
      decreases |left|
    {
      var id: SegId :| id in left;
      entries := entries + [BuildName(prefix, id, suffix)];
      listed := listed + [id];
      left := left - {id};
    }
    NamesListed(prefix, suffix, listed, entries);
  }

  /** A directory without files, of a log without records. */
  ghost function EmptyWorld(custody: Custody): World {
    Damage.World(Log([], []), map[], map[], [], !custody.Meddles?, 0)
  }

  /** Names tell files apart. */
  lemma NamesListed(prefix: string, suffix: string, listed: seq<SegId>, entries: seq<string>)
    requires |entries| == |listed|
    requires forall i :: 0 <= i < |entries| ==> entries[i] == BuildName(prefix, listed[i], suffix)
    requires forall i, j :: 0 <= i < j < |listed| ==> listed[i] != listed[j]
    ensures forall i, j :: 0 <= i < j < |entries| ==> entries[i] != entries[j]
    ensures forall id: u64 :: id in listed <==> BuildName(prefix, id, suffix) in entries
  {
    hide BuildName;
    forall i, j | 0 <= i < j < |entries| ensures entries[i] != entries[j] {
      if entries[i] == entries[j] { NameInjective(prefix, suffix, listed[i], listed[j]); }
    }
    forall id: u64 ensures id in listed <==> BuildName(prefix, id, suffix) in entries {
      if id in listed {
        var i :| 0 <= i < |listed| && listed[i] == id;
        assert entries[i] == BuildName(prefix, id, suffix);
      }
      if BuildName(prefix, id, suffix) in entries {
        var i :| 0 <= i < |entries| && entries[i] == BuildName(prefix, id, suffix);
        NameInjective(prefix, suffix, id, listed[i]);
      }
    }
  }
}
