/** Replacing a file through a temporary one (src/firehol/builder.rs, `TempFile` and the end of `write_mmdb`). */
module TempFile {
  import opened Bits
  import opened Wrappers

  /** A path without its extension, and the extension. */
  datatype Path = Path(stem: string, extension: string)

  datatype File = File(bytes: seq<byte>, mtime: int)

  type Files = map<Path, File>

  datatype WriteError = CannotCreate | CannotWrite | CannotSync | CannotRename

  /**
   * The file system calls that fail during one write. `written` is the number of bytes that reach the
   * file when the write fails.
   */
  datatype Faults = Faults(create: bool, write: bool, written: nat, sync: bool, rename: bool, remove: bool)

  /** `output.with_extension("tmp")` */
  function TempPath(output: Path): Path {
    Path(output.stem, "tmp")
  }

  /** The disk. `trace` records every state it went through, oldest first. */
  class FileSystem {
    var files: Files
    var now: int
    ghost var trace: seq<Files>

    constructor (files: Files, now: int)
      ensures this.files == files && this.now == now && trace == [files]
    {
      this.files, this.now, trace := files, now, [files];
    }

    method Put(path: Path, bytes: seq<byte>)
      modifies this`files, this`trace
      ensures files == old(files)[path := File(bytes, now)] && trace == old(trace) + [files]
    {
      files := files[path := File(bytes, now)];
      trace := trace + [files];
    }

    method Remove(path: Path)
      modifies this`files, this`trace
      ensures files == old(files) - {path} && trace == old(trace) + [files]
    {
      files := files - {path};
      trace := trace + [files];
    }

    method Rename(from: Path, to: Path)
      requires from in files
      modifies this`files, this`trace
      ensures files == (old(files) - {from})[to := old(files)[from]] && trace == old(trace) + [files]
    {
      files := (files - {from})[to := files[from]];
      trace := trace + [files];
    }
  }

  /** What a path holds. */
  function At(files: Files, path: Path): Option<File> {
    if path in files then Some(files[path]) else None
  }

  /** Only `path` may differ. */
  ghost predicate SameExcept(a: Files, b: Files, path: Path) {
    forall p :: p != path ==> At(a, p) == At(b, p)
  }

  /** Every state recorded from position `from` on differs from `base` at `path` only. */
  ghost predicate Touches(trace: seq<Files>, from: nat, base: Files, path: Path) {
    forall i :: from <= i < |trace| ==> SameExcept(trace[i], base, path)
  }

  class TempFile {
    var path: Option<Path>

    constructor (path: Path)
      ensures this.path == Some(path)
    {
      this.path := Some(path);
    }

    /** Removes the file unless it was handed over; failing to do so only logs. */
    method Drop(fs: FileSystem, fails: bool)
      modifies this, fs`files, fs`trace
      ensures path == None
      ensures
        if old(path).Some? && !fails then
          fs.files == old(fs.files) - {old(path).value} && fs.trace == old(fs.trace) + [fs.files]
        else fs.files == old(fs.files) && fs.trace == old(fs.trace)
    {
      if path.Some? && !fails {
        fs.Remove(path.value);
      }
      path := None;
    }

    /** Renames the file to `target`, or removes it. */
    method Persist(fs: FileSystem, target: Path, faults: Faults) returns (r: Result<(), WriteError>)
      requires path.Some? && path.value in fs.files
      modifies this, fs`files, fs`trace
      ensures r == if faults.rename then Err(CannotRename) else Ok(())
      ensures
        var from := old(path).value;
        if !faults.rename then
          && fs.files == (old(fs.files) - {from})[target := old(fs.files)[from]]
          && fs.trace == old(fs.trace) + [fs.files]
        else if faults.remove then fs.files == old(fs.files) && fs.trace == old(fs.trace)
        else fs.files == old(fs.files) - {from} && fs.trace == old(fs.trace) + [fs.files]
    {
      var from := path.value;
      path := None;
      if faults.rename {
        if !faults.remove {
          fs.Remove(from);
        }
        return Err(CannotRename);
      }
      fs.Rename(from, target);
      return Ok(());
    }
  }

  /** `TempFile::write`: on failure after the creation the file is dropped. */
  method Write(fs: FileSystem, path: Path, bytes: seq<byte>, faults: Faults) returns (r: Result<TempFile, WriteError>)
    modifies fs`files, fs`trace
    ensures
      match r
      case Err(CannotCreate) => faults.create
      case Err(CannotWrite) => !faults.create && faults.write
      case Err(CannotSync) => !faults.create && !faults.write && faults.sync
      case Err(CannotRename) => false
      case Ok(temp) =>
        && !faults.create && !faults.write && !faults.sync
        && fresh(temp) && temp.path == Some(path)
        && At(fs.files, path) == Some(File(bytes, fs.now))
    ensures r == Err(CannotCreate) ==> fs.files == old(fs.files) && fs.trace == old(fs.trace)
    ensures r == Err(CannotWrite) || r == Err(CannotSync) ==> (At(fs.files, path).None? <==> !faults.remove)
    ensures SameExcept(fs.files, old(fs.files), path)
    ensures old(fs.trace) <= fs.trace && Touches(fs.trace, |old(fs.trace)|, old(fs.files), path)
    ensures
      !faults.create ==>
        |fs.trace| > |old(fs.trace)| && At(fs.trace[|old(fs.trace)|], path) == Some(File([], fs.now))
  {
    if faults.create {
      return Err(CannotCreate);
    }
    fs.Put(path, []);
    var temp := new TempFile(path);
    if faults.write {
      fs.Put(path, bytes[..if faults.written < |bytes| then faults.written else |bytes|]);
      temp.Drop(fs, faults.remove);
      return Err(CannotWrite);
    }
    fs.Put(path, bytes);
    if faults.sync {
      temp.Drop(fs, faults.remove);
      return Err(CannotSync);
    }
    return Ok(temp);
  }

  /** The first call that fails decides the outcome. */
  function OutcomeOf(faults: Faults): Result<(), WriteError> {
    if faults.create then Err(CannotCreate)
    else if faults.write then Err(CannotWrite)
    else if faults.sync then Err(CannotSync)
    else if faults.rename then Err(CannotRename)
    else Ok(())
  }

  /** In every state recorded from position `from` on, `path` holds `old_` or `new_`. */
  ghost predicate OnlyHolds(trace: seq<Files>, from: nat, path: Path, old_: Option<File>, new_: Option<File>) {
    forall i :: from <= i < |trace| ==> At(trace[i], path) == old_ || At(trace[i], path) == new_
  }

  /** `TempFile::write(temp_path, &bytes)?.persist(output)?` */
  method WriteFile(fs: FileSystem, output: Path, bytes: seq<byte>, faults: Faults) returns (r: Result<(), WriteError>)
    modifies fs`files, fs`trace
    ensures r == OutcomeOf(faults)
    ensures r.Ok? ==> At(fs.files, output) == Some(File(bytes, fs.now))
    // Nobody ever sees a partial file at the output path, unless it is the temporary path itself.
    ensures
      output.extension != "tmp" ==>
        && (r.Err? ==> At(fs.files, output) == At(old(fs.files), output))
        && OnlyHolds(fs.trace, |old(fs.trace)|, output, At(old(fs.files), output), At(fs.files, output))
    // The temporary file is gone, except after a failure to remove it; a failure to create it leaves
    // there whatever was there.
    ensures
      output.extension != "tmp" ==>
        (At(fs.files, TempPath(output)).None? <==>
           r.Ok? || (if faults.create then At(old(fs.files), TempPath(output)).None? else !faults.remove))
    // No other path changes.
    ensures
      forall path :: path != output && path != TempPath(output) ==> At(fs.files, path) == At(old(fs.files), path)
    ensures old(fs.trace) <= fs.trace
    // Writing to a path that already ends in .tmp truncates it in full view.
    ensures
      output.extension == "tmp" && !faults.create ==>
        |fs.trace| > |old(fs.trace)| && At(fs.trace[|old(fs.trace)|], output) == Some(File([], fs.now))
  {
    var path := TempPath(output);
    assert path == output <==> output.extension == "tmp";
    var written := Write(fs, path, bytes, faults);
    if written.Err? {
      return Err(written.error);
    }
    r := written.value.Persist(fs, output, faults);
  }
}
