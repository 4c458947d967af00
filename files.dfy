/**
 * The local file system as the downloader uses it: a map from path to
 * content, plus the paths on which the operating system refuses to open a
 * file for writing or to remove it.
 */
module Files {
  import opened Types

  type FileMap = map<string, seq<byte>>

  /** The file system after an operation, and the error the operation returned. */
  datatype Outcome = Outcome(files: FileMap, err: Option<Error>)

  /** What a file holds; a missing file reads as empty when it is created by an append. */
  function Content(files: FileMap, path: string): seq<byte>
  {
    if path in files then files[path] else []
  }

  /** The effect of `os.OpenFile(path, O_APPEND|O_CREATE|O_RDWR, 0666)`: the file exists afterwards. */
  function Created(files: FileMap, path: string): (r: FileMap)
    ensures path in r && r[path] == Content(files, path)
    ensures forall p :: p != path ==> (p in r <==> p in files)
    ensures forall p :: p != path && p in files ==> r[p] == files[p]
  {
    if path in files then files else files[path := []]
  }

  /** Writing `data` through a handle opened with O_APPEND: it goes after what the file holds. */
  function Appended(files: FileMap, path: string, data: seq<byte>): (r: FileMap)
    ensures path in r && r[path] == Content(files, path) + data
    ensures forall p :: p != path ==> (p in r <==> p in files)
    ensures forall p :: p != path && p in files ==> r[p] == files[p]
  {
    files[path := Content(files, path) + data]
  }

  /**
   * The bytes `io.Copy` moves out of the file at `path` when the copy
   * breaks after `copyBreaks[path]` bytes: that many (at most the whole
   * file), or all of it when the path never breaks.
   */
  function Copied(files: FileMap, copyBreaks: map<string, nat>, path: string): (r: seq<byte>)
    ensures |r| <= |Content(files, path)| && r == Content(files, path)[..|r|]
    ensures path !in copyBreaks ==> r == Content(files, path)
    ensures path in copyBreaks ==> |r| == if copyBreaks[path] < |Content(files, path)| then copyBreaks[path] else |Content(files, path)|
  {
    var data := Content(files, path);
    if path in copyBreaks && copyBreaks[path] < |data| then data[..copyBreaks[path]] else data
  }

  class FileSystem {
    var files: FileMap
    /** Paths on which `os.OpenFile` with O_CREATE fails (permissions, missing directory). */
    const unwritable: set<string>
    /** Paths on which `os.Remove` fails. */
    const unremovable: set<string>
    /** Paths whose content `io.Copy` fails to read in full: the copy breaks after the given number of bytes. */
    const copyBreaks: map<string, nat>

    constructor (files0: FileMap, unwritable0: set<string>, unremovable0: set<string>, copyBreaks0: map<string, nat>)
      ensures files == files0 && unwritable == unwritable0 && unremovable == unremovable0 && copyBreaks == copyBreaks0
    {
      files, unwritable, unremovable, copyBreaks := files0, unwritable0, unremovable0, copyBreaks0;
    }

    /** `os.OpenFile(path, O_APPEND|O_CREATE|O_RDWR, 0666)`. */
    method OpenAppend(path: string) returns (ok: bool)
      modifies this
      ensures ok == (path !in unwritable)
      ensures files == if ok then Created(old(files), path) else old(files)
    {
      ok := path !in unwritable;
      if ok {
        files := Created(files, path);
      }
    }

    /** A complete write of `data` to a file opened for appending. */
    method Write(path: string, data: seq<byte>)
      requires path in files
      modifies this
      ensures files == Appended(old(files), path, data)
    {
      files := Appended(files, path, data);
    }

    /** `os.Open(path)` for reading: fails when the file does not exist. */
    method Open(path: string) returns (ok: bool)
      ensures ok == (path in files)
    {
      ok := path in files;
    }

    /**
     * `io.Copy(out, file)` from the open file `src` into `dst`, opened for
     * appending: the bytes read before any break go after what `dst` holds,
     * and the copy reports failure exactly when `src` breaks.
     */
    method CopyInto(dst: string, src: string) returns (ok: bool)
      requires dst in files && src in files
      modifies this
      ensures ok == (src !in copyBreaks)
      ensures files == Appended(old(files), dst, Copied(old(files), copyBreaks, src))
    {
      files := Appended(files, dst, Copied(files, copyBreaks, src));
      ok := src !in copyBreaks;
    }

    /** `os.Remove(path)`. */
    method Remove(path: string) returns (ok: bool)
      modifies this
      ensures ok == (path in old(files) && path !in unremovable)
      ensures files == if ok then old(files) - {path} else old(files)
    {
      ok := path in files && path !in unremovable;
      if ok {
        files := files - {path};
      }
    }
  }
}
