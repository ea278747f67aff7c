/** The served database snapshot (src/mmdb.rs) and the triggers that reload it (src/mmdb_watcher.rs). */
module Mmdb {
  import opened Bits
  import opened Wrappers
  import opened Builder
  import opened Spoa

  /** A published database: the bytes, the reader over them, and the modification time read before them. */
  datatype Snapshot = Snapshot(bytes: seq<byte>, tree: Tree, modified: Option<int>)

  datatype LoadError = NoMetadata | Unreadable | Corrupt

  /** The database reader of the library: the search tree of well-formed bytes. */
  type Reader = seq<byte> -> Option<Tree>

  // ----- one load, as a function of what the file system answers -----

  /** `load_locked` */
  function Loaded(snapshot: Option<Snapshot>, modified: Option<int>, read: Option<seq<byte>>, reader: Reader)
    : (Option<Snapshot>, Result<(), LoadError>)
  {
    match read
    case None => (snapshot, Err(Unreadable))
    case Some(bytes) =>
      match reader(bytes)
      case None => (snapshot, Err(Corrupt))
      case Some(tree) => (Some(Snapshot(bytes, tree, modified)), Ok(()))
  }

  /** The snapshot was loaded from a file with this modification time. */
  predicate Matches(snapshot: Option<Snapshot>, modified: int) {
    snapshot.Some? && snapshot.value.modified == Some(modified)
  }

  /** `reload_if_changed` */
  function Reloaded(snapshot: Option<Snapshot>, stat: Option<int>, read: Option<seq<byte>>, reader: Reader)
    : (Option<Snapshot>, Result<bool, LoadError>)
  {
    match stat
    case None => (snapshot, Err(NoMetadata))
    case Some(modified) =>
      if Matches(snapshot, modified) then (snapshot, Ok(false))
      else
        match Loaded(snapshot, stat, read, reader)
        case (after, Ok(_)) => (after, Ok(true))
        case (after, Err(e)) => (after, Err(e))
  }

  class Mmdb {
    const reader: Reader
    var snapshot: Option<Snapshot>
    /** `firehol_mmdb_file_loaded` */
    var loads: nat

    constructor (reader: Reader)
      ensures this.reader == reader && snapshot == None && loads == 0
    {
      this.reader, snapshot, loads := reader, None, 0;
    }

    method Load(stat: Option<int>, read: Option<seq<byte>>) returns (r: Result<(), LoadError>)
      modifies this
      ensures (snapshot, r) == Loaded(old(snapshot), stat, read, reader)
      ensures r.Ok? <==> read.Some? && reader(read.value).Some?
      ensures snapshot == if r.Ok? then Some(Snapshot(read.value, reader(read.value).value, stat)) else old(snapshot)
      ensures loads == old(loads) + (if r.Ok? then 1 else 0)
    {
      r := LoadLocked(stat, read);
    }

    method ReloadIfChanged(stat: Option<int>, read: Option<seq<byte>>) returns (r: Result<bool, LoadError>)
      modifies this
      ensures (snapshot, r) == Reloaded(old(snapshot), stat, read, reader)
      ensures
        r == Ok(false) <==> stat.Some? && old(snapshot).Some? && old(snapshot).value.modified == stat
      ensures
        r == Ok(true) <==>
        && stat.Some? && !(old(snapshot).Some? && old(snapshot).value.modified == stat)
        && read.Some? && reader(read.value).Some?
      ensures
        snapshot ==
        if r == Ok(true) then Some(Snapshot(read.value, reader(read.value).value, stat)) else old(snapshot)
      ensures loads == old(loads) + (if r == Ok(true) then 1 else 0)
    {
      if stat.None? {
        return Err(NoMetadata);
      }
      if snapshot.Some? && snapshot.value.modified == stat {
        return Ok(false);
      }
      var loaded := LoadLocked(stat, read);
      match loaded {
        case Ok(_) => return Ok(true);
        case Err(e) => return Err(e);
      }
    }

    method LoadLocked(modified: Option<int>, read: Option<seq<byte>>) returns (r: Result<(), LoadError>)
      modifies this
      ensures (snapshot, r) == Loaded(old(snapshot), modified, read, reader)
      ensures loads == old(loads) + (if r.Ok? then 1 else 0)
    {
      if read.None? {
        return Err(Unreadable);
      }
      var tree := reader(read.value);
      if tree.None? {
        return Err(Corrupt);
      }
      snapshot := Some(Snapshot(read.value, tree.value, modified));
      loads := loads + 1;
      return Ok(());
    }
  }

  // ----- the watcher -----

  /** A debounced batch: the file names of its events, or watcher errors. */
  datatype Batch = Events(names: seq<string>) | WatchErrors

  predicate Triggers(batch: Batch, fileName: string) {
    batch.Events? && fileName in batch.names
  }

  /** What the file system answers to the reload a batch may trigger. */
  datatype Answers = Answers(stat: Option<int>, read: Option<seq<byte>>)

  /** The snapshot after reacting to the batches in turn. */
  function Watched(
    snapshot: Option<Snapshot>, batches: seq<Batch>, answers: seq<Answers>, fileName: string, reader: Reader)
    : Option<Snapshot>
    requires |answers| == |batches|
  {
    if batches == [] then snapshot
    else
      var n := |batches| - 1;
      var before := Watched(snapshot, batches[..n], answers[..n], fileName, reader);
      if Triggers(batches[n], fileName) then
        Reloaded(before, answers[n].stat, answers[n].read, reader).0
      else before
  }

  /** `watch_loop`: an error neither stops the loop nor touches the snapshot. */
  method WatchLoop(mmdb: Mmdb, batches: seq<Batch>, answers: seq<Answers>, fileName: string)
    requires |answers| == |batches|
    modifies mmdb
    ensures mmdb.snapshot == Watched(old(mmdb.snapshot), batches, answers, fileName, mmdb.reader)
  {
    for i := 0 to |batches|
      invariant mmdb.snapshot == Watched(old(mmdb.snapshot), batches[..i], answers[..i], fileName, mmdb.reader)
    {
      assert batches[..i + 1][..i] == batches[..i] && answers[..i + 1][..i] == answers[..i];
      if batches[i].WatchErrors? {
        continue;
      }
      if fileName !in batches[i].names {
        continue;
      }
      var _ := mmdb.ReloadIfChanged(answers[i].stat, answers[i].read);
    }
    assert batches[..|batches|] == batches && answers[..|answers|] == answers;
  }

  // ----- what the watcher amounts to -----

  /** The batches that name the file, and what the file system answered to their reloads. */
  function Relevant(batches: seq<Batch>, answers: seq<Answers>, fileName: string): (r: (seq<Batch>, seq<Answers>))
    requires |answers| == |batches|
    ensures |r.0| == |r.1| && forall b <- r.0 :: Triggers(b, fileName)
  {
    if batches == [] then ([], [])
    else
      var n := |batches| - 1;
      var (bs, as_) := Relevant(batches[..n], answers[..n], fileName);
      if Triggers(batches[n], fileName) then (bs + [batches[n]], as_ + [answers[n]]) else (bs, as_)
  }

  /** Watcher errors and events of other files have no effect: dropping their batches changes nothing. */
  lemma {:induction false} OtherBatchesDoNothing(
    snapshot: Option<Snapshot>, batches: seq<Batch>, answers: seq<Answers>, fileName: string, reader: Reader)
    requires |answers| == |batches|
    ensures
      var (bs, as_) := Relevant(batches, answers, fileName);
      Watched(snapshot, batches, answers, fileName, reader) == Watched(snapshot, bs, as_, fileName, reader)
  {
    if batches != [] {
      var n := |batches| - 1;
      OtherBatchesDoNothing(snapshot, batches[..n], answers[..n], fileName, reader);
      var (bs, as_) := Relevant(batches[..n], answers[..n], fileName);
      assert (bs + [batches[n]])[..|bs|] == bs && (as_ + [answers[n]])[..|as_|] == as_;
    }
  }

  /** Without a batch that names the file nothing changes. */
  lemma NothingNamed(
    snapshot: Option<Snapshot>, batches: seq<Batch>, answers: seq<Answers>, fileName: string, reader: Reader)
    requires |answers| == |batches|
    requires forall j :: 0 <= j < |batches| ==> batches[j].WatchErrors? || fileName !in batches[j].names
    ensures Watched(snapshot, batches, answers, fileName, reader) == snapshot
  {
    QuietTail(snapshot, batches, answers, fileName, reader, 0);
  }

  /** After the last trigger nothing changes any more. */
  lemma {:induction false} QuietTail(
    snapshot: Option<Snapshot>, batches: seq<Batch>, answers: seq<Answers>, fileName: string, reader: Reader, k: nat)
    requires |answers| == |batches| && k <= |batches|
    requires forall j :: k <= j < |batches| ==> !Triggers(batches[j], fileName)
    ensures
      Watched(snapshot, batches, answers, fileName, reader) ==
      Watched(snapshot, batches[..k], answers[..k], fileName, reader)
    decreases |batches|
  {
    var n := |batches| - 1;
    if k <= n {
      QuietTail(snapshot, batches[..n], answers[..n], fileName, reader, k);
      assert batches[..n][..k] == batches[..k] && answers[..n][..k] == answers[..k];
    } else {
      assert batches[..k] == batches && answers[..k] == answers;
    }
  }

  /**
   * If the last reload that is triggered gets the modification time and parsing bytes of the file, that
   * content is in service in the end with that time, unless the time was served already; and then what
   * was served stays. In both cases the time of the file is the one served.
   */
  lemma LastTriggerDecides(
    snapshot: Option<Snapshot>, batches: seq<Batch>, answers: seq<Answers>, fileName: string, reader: Reader,
    k: nat, modified: int, bytes: seq<byte>, tree: Tree)
    requires |answers| == |batches| && k < |batches| && batches[k].Events? && fileName in batches[k].names
    requires forall j :: k < j < |batches| ==> batches[j].WatchErrors? || fileName !in batches[j].names
    requires answers[k] == Answers(Some(modified), Some(bytes)) && reader(bytes) == Some(tree)
    ensures
      var before := Watched(snapshot, batches[..k], answers[..k], fileName, reader);
      var after := Watched(snapshot, batches, answers, fileName, reader);
      && (Matches(before, modified) ==> after == before)
      && (!Matches(before, modified) ==> after == Some(Snapshot(bytes, tree, Some(modified))))
      && Matches(after, modified)
  {
    QuietTail(snapshot, batches, answers, fileName, reader, k + 1);
    assert batches[..k + 1][..k] == batches[..k] && answers[..k + 1][..k] == answers[..k];
  }
}
