/** One run of the updater (src/firehol/mod.rs, `update_and_build_mmdb`; src/main.rs, `run_update`). */
module Updater {
  import opened Bits
  import opened Wrappers
  import opened Builder
  import opened TempFile
  import Ipv4
  import I = Ipset
  import V = Verdict
  import M = Mmdb
  import S = Spoa

  const I64_MAX := 0x7FFF_FFFF_FFFF_FFFF
  const NANOS := 1_000_000_000

  type i64 = x: int | -I64_MAX - 1 <= x <= I64_MAX

  /** `system_time_to_epoch`: whole seconds since 1970, never negative, saturating. */
  function Epoch(time: int): (e: i64)
    ensures 0 <= e
    ensures forall c: i64 :: 0 < c ==> (c <= e <==> c * NANOS <= time)
  {
    if time < 0 then 0
    else
      assert NANOS * (time / NANOS) <= time < NANOS * (time / NANOS) + NANOS;
      if time / NANOS <= I64_MAX then time / NANOS else I64_MAX
  }

  /** `modified_epoch`: zero for a missing file. */
  function ModifiedEpoch(files: Files, path: Path, readable: bool): (e: Option<i64>)
    ensures e.Some? ==> 0 <= e.value
  {
    if !readable then None
    else if path in files then Some(Epoch(files[path].mtime))
    else Some(0)
  }

  datatype UpdateError =
    | GitFailed
    | MetadataFailed
    | CheckoutFailed
    | NoEntries
    | NegativeTimestamp
    | InsertFailed(listing: Listing)
    | SerialiseFailed
    | WriteFailed(error: WriteError)

  /**
   * What the outside world answers during a run: the commit time of the tip, whether the metadata of
   * the database can be read, the list files of the checked-out tree, and the library's decisions.
   */
  datatype World = World(
    tip: Option<i64>,
    readable: bool,
    files: Option<seq<V.File>>,
    lib: I.Library,
    refuses: Ipv4.Network -> bool,
    encode: Tree -> Option<seq<byte>>,
    faults: Faults)

  function TotalCount(ipsets: seq<I.Ipset>): nat {
    if ipsets == [] then 0
    else TotalCount(ipsets[..|ipsets| - 1]) + I.NetworkCount(ipsets[|ipsets| - 1].sections)
  }

  /** The database bytes hold an index of exactly these list files. */
  ghost predicate Database(world: World, ipsets: seq<I.Ipset>, bytes: seq<byte>) {
    exists tree :: Indexes(tree, Listings(ipsets)) && world.encode(tree) == Some(bytes)
  }

  /** The tip is newer than the database, so the run goes on to build. */
  predicate Newer(world: World, files: Files, output: Path) {
    && world.tip.Some?
    && ModifiedEpoch(files, output, world.readable).Some?
    && world.tip.value > ModifiedEpoch(files, output, world.readable).value
  }

  /**
   * A readable database needs no build: only a commit dated after 1970 and after the last write of the
   * database file, if there is one, leads to a build.
   */
  ghost predicate UpToDate(commit: i64, database: Option<File>) {
    match database
    case None => commit <= 0
    case Some(file) => commit <= 0 || commit * NANOS <= file.mtime
  }

  /** What a run that holds the lock did to the disk, by its result. */
  ghost predicate Ran(
    world: World, output: Path, now: int, before: Files, after: Files, r: Result<bool, UpdateError>)
  {
    // It skips exactly when the tip is not newer than the database.
    && (r == Ok(false) <==>
          && world.tip.Some?
          && ModifiedEpoch(before, output, world.readable).Some?
          && world.tip.value <= ModifiedEpoch(before, output, world.readable).value)
    // Unless the tip is newer the disk is left alone.
    && (!Newer(world, before, output) ==> after == before)
    && Failures(world, output, before, r)
    // A new database indexes the lists of the tip.
    && (r == Ok(true) ==>
          && Newer(world, before, output)
          && output in after && after[output].mtime == now
          && Database(world, Parsed(world), after[output].bytes))
    // Otherwise the old one stays, and no temporary file is left if it can be removed.
    && Replaced(world.faults, output, before, after, r == Ok(true))
  }

  /** Unless `done`, the database is the old one; a temporary file is not left behind if it can be removed. */
  ghost predicate Replaced(faults: Faults, output: Path, before: Files, after: Files, done: bool) {
    output.extension != "tmp" ==>
      && (!done ==> At(after, output) == At(before, output))
      && ((done || !faults.remove) && At(before, TempPath(output)).None? ==> At(after, TempPath(output)).None?)
  }

  /** At every moment the database path held the file from before or the one that is there in the end. */
  ghost predicate Unbroken(output: Path, before: Files, old_: seq<Files>, after: Files, trace: seq<Files>) {
    && old_ <= trace
    && (output.extension != "tmp" ==> OnlyHolds(trace, |old_|, output, At(before, output), At(after, output)))
  }

  /** When writing the database fails, and why. */
  ghost predicate Wrote(world: World, output: Path, ipsets: seq<I.Ipset>, r: Result<(), UpdateError>) {
    var listings := Listings(ipsets);
    && (r.Err? && r.error.InsertFailed? <==> !NoneRefused(world.refuses, listings))
    && (r == Err(SerialiseFailed) ==> exists tree :: Indexes(tree, listings) && world.encode(tree) == None)
    && (r.Err? && r.error.WriteFailed? ==> OutcomeOf(world.faults) == Err(r.error.error))
    && (r.Err? ==> r.error.InsertFailed? || r.error == SerialiseFailed || r.error.WriteFailed?)
    && (r.Ok? ==> OutcomeOf(world.faults) == Ok(()))
  }

  /** When each error occurs. The timestamp error never does. */
  ghost predicate Failures(world: World, output: Path, before: Files, r: Result<bool, UpdateError>) {
    var building := Newer(world, before, output) && world.files.Some?;
    var listings := Listings(Parsed(world));
    && (r == Err(GitFailed) <==> world.tip.None?)
    && (r == Err(MetadataFailed) <==> world.tip.Some? && ModifiedEpoch(before, output, world.readable).None?)
    && (r == Err(CheckoutFailed) <==> Newer(world, before, output) && world.files.None?)
    && (r == Err(NoEntries) <==> building && listings == [])
    && r != Err(NegativeTimestamp)
    && (r.Err? && r.error.InsertFailed? <==> building && listings != [] && !NoneRefused(world.refuses, listings))
    && (r == Err(SerialiseFailed) ==> exists tree :: Indexes(tree, listings) && world.encode(tree) == None)
    && (r.Err? && r.error.WriteFailed? ==> OutcomeOf(world.faults) == Err(r.error.error))
    && (r == Ok(true) ==> building && OutcomeOf(world.faults) == Ok(()))
  }

  /** The list files of the tip, parsed. */
  function Parsed(world: World): seq<I.Ipset> {
    match world.files
    case Some(files) => V.ParsedFiles(V.ReadFiles(world.lib, files))
    case None => []
  }

  /** `write_mmdb`: index the lists, serialise the index, replace the database. */
  method WriteMmdb(fs: FileSystem, output: Path, world: World, ipsets: seq<I.Ipset>)
    returns (r: Result<(), UpdateError>)
    modifies fs`files, fs`trace
    ensures Wrote(world, output, ipsets, r)
    ensures Replaced(world.faults, output, old(fs.files), fs.files, r.Ok?)
    ensures r.Ok? ==> output in fs.files && fs.files[output].mtime == fs.now
    ensures r.Ok? ==> Database(world, ipsets, fs.files[output].bytes)
    ensures Unbroken(output, old(fs.files), old(fs.trace), fs.files, fs.trace)
  {
    hide Indexes, Listings, NoneRefused;
    var tree := BuildTree(world.refuses, ipsets);
    if tree.Err? {
      RefusedOne(world.refuses, Listings(ipsets), tree.error);
      return Err(InsertFailed(tree.error));
    }
    var bytes := world.encode(tree.value);
    if bytes.None? {
      return Err(SerialiseFailed);
    }
    var written := WriteFile(fs, output, bytes.value, world.faults);
    if written.Err? {
      return Err(WriteFailed(written.error));
    }
    return Ok(());
  }

  class FireholUpdater {
    var locked: bool

    constructor ()
      ensures !locked
    {
      locked := false;
    }

    /** A second run while one is in progress does nothing. */
    method UpdateAndBuildMmdb(fs: FileSystem, output: Path, world: World) returns (r: Result<bool, UpdateError>)
      modifies this, fs`files, fs`trace
      ensures locked == old(locked)
      ensures
        if old(locked) then r == Ok(false) && fs.files == old(fs.files) && fs.trace == old(fs.trace)
        else Ran(world, output, fs.now, old(fs.files), fs.files, r)
      ensures
        !old(locked) && world.readable && world.tip.Some? ==>
          (r == Ok(false) <==> UpToDate(world.tip.value, At(old(fs.files), output)))
      ensures Unbroken(output, old(fs.files), old(fs.trace), fs.files, fs.trace)
    {
      if locked {
        return Ok(false);
      }
      locked := true;
      r := Build(fs, output, world);
      locked := false;
    }

    /** The part of the run under the lock. */
    method Build(fs: FileSystem, output: Path, world: World) returns (r: Result<bool, UpdateError>)
      modifies fs`files, fs`trace
      ensures Ran(world, output, fs.now, old(fs.files), fs.files, r)
      ensures
        world.readable && world.tip.Some? ==>
          (r == Ok(false) <==> UpToDate(world.tip.value, At(old(fs.files), output)))
      ensures Unbroken(output, old(fs.files), old(fs.trace), fs.files, fs.trace)
    {
      hide Indexes, Listings, NoneRefused, Database, TotalCount;
      hide V.ParsedFiles, V.ReadFiles;
      if world.tip.None? {
        return Err(GitFailed);
      }
      var commitEpoch := world.tip.value;
      var mmdbEpoch := ModifiedEpoch(fs.files, output, world.readable);
      if mmdbEpoch.None? {
        return Err(MetadataFailed);
      }
      if commitEpoch <= mmdbEpoch.value {
        return Ok(false);
      }
      if world.files.None? {
        return Err(CheckoutFailed);
      }
      var ipsets := V.ParseFiles(world.lib, world.files.value);
      CountListings(ipsets);
      if TotalCount(ipsets) == 0 {
        return Err(NoEntries);
      }
      if commitEpoch < 0 {
        return Err(NegativeTimestamp);
      }
      var written := WriteMmdb(fs, output, world, ipsets);
      if written.Err? {
        return Err(written.error);
      }
      return Ok(true);
    }
  }

  lemma RefusedOne(refuses: Ipv4.Network -> bool, listings: seq<Listing>, l: Listing)
    requires exists k: nat :: FirstRefused(refuses, listings, k) && listings[k] == l
    ensures !NoneRefused(refuses, listings)
  {
    var k: nat :| FirstRefused(refuses, listings, k) && listings[k] == l;
    assert listings[k] in listings;
  }

  /** The two counts agree: no network counted means no listing, and the other way round. */
  lemma {:induction false} CountListings(ipsets: seq<I.Ipset>)
    ensures |Listings(ipsets)| == TotalCount(ipsets)
  {
    if ipsets != [] {
      var n := |ipsets| - 1;
      CountListings(ipsets[..n]);
      CountFile(ipsets[n].fileName, ipsets[n].sections);
    }
  }

  lemma {:induction false} CountFile(fileName: string, sections: seq<I.Section>)
    ensures |FileListings(fileName, sections)| == I.NetworkCount(sections)
  {
    if sections != [] { CountFile(fileName, sections[..|sections| - 1]); }
  }

  // ----- build, then serve -----

  /** The modification time served, if any, is at most that of the database file. */
  ghost predicate ServesNothingNewer(snapshot: Option<M.Snapshot>, database: Option<File>) {
    snapshot.Some? && snapshot.value.modified.Some? ==>
      database.Some? && snapshot.value.modified.value <= database.value.mtime
  }

  /** A build of a tip that is not from the future gets a modification time not served before. */
  lemma BuildIsNews(world: World, files: Files, output: Path, now: int, snapshot: Option<M.Snapshot>)
    requires Newer(world, files, output) && world.tip.value * NANOS <= now
    requires ServesNothingNewer(snapshot, At(files, output))
    ensures !M.Matches(snapshot, now)
  {}

  /** The lists of the tip are in service, under the modification time of the build. */
  ghost predicate InService(snapshot: Option<M.Snapshot>, now: int, world: World) {
    && snapshot.Some? && snapshot.value.modified == Some(now)
    && Indexes(snapshot.value.tree, Listings(Parsed(world)))
  }

  /**
   * `run_update`. If the database reader understands what the writer wrote, then right after a build the
   * lists of the tip are in service, provided the new modification time is not the one served already.
   * That is so for a tip not dated after the clock when nothing newer than the database was served.
   */
  method RunUpdate(updater: FireholUpdater, mmdb: M.Mmdb, fs: FileSystem, output: Path, world: World)
    returns (r: Result<bool, UpdateError>, served: Result<bool, M.LoadError>)
    requires !updater.locked
    requires forall tree :: world.encode(tree).Some? ==> mmdb.reader(world.encode(tree).value) == Some(tree)
    modifies updater, mmdb, fs`files, fs`trace
    ensures Ran(world, output, fs.now, old(fs.files), fs.files, r)
    ensures r != Ok(true) ==> mmdb.snapshot == old(mmdb.snapshot)
    ensures
      r == Ok(true) && !M.Matches(old(mmdb.snapshot), fs.now) ==>
        served == Ok(true) && InService(mmdb.snapshot, fs.now, world)
    ensures
      && r == Ok(true)
      && world.tip.Some? && world.tip.value * NANOS <= fs.now
      && ServesNothingNewer(old(mmdb.snapshot), At(old(fs.files), output)) ==>
        served == Ok(true) && InService(mmdb.snapshot, fs.now, world)
  {
    hide Parsed, ServesNothingNewer;
    ghost var before := fs.files;
    served := Ok(false);
    r := updater.UpdateAndBuildMmdb(fs, output, world);
    if r == Ok(true) {
      if world.tip.value * NANOS <= fs.now && ServesNothingNewer(mmdb.snapshot, At(before, output)) {
        BuildIsNews(world, before, output, fs.now, mmdb.snapshot);
      }
      served := mmdb.ReloadIfChanged(Some(fs.files[output].mtime), Some(fs.files[output].bytes));
    }
  }

  /**
   * What being in service means: a tree that indexes the lists of the tip drops exactly the addresses
   * that some well-formed list file of the tip condemns.
   */
  lemma ServedVerdict(world: World, tree: Tree, a: u32, categories: set<string>, fileNames: set<string>)
    requires world.files.Some? && Indexes(tree, Listings(Parsed(world)))
    ensures
      S.Decide(Some(tree), S.V4(a), categories, fileNames).Some? <==>
      V.Listed(V.ReadFiles(world.lib, world.files.value), a, categories, fileNames)
  {
    V.VerdictIsListing(V.ReadFiles(world.lib, world.files.value), tree, a, categories, fileNames);
  }
}
