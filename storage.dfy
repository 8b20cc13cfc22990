/** The server's file system as the web API uses it through `System.IO`:
    `Directory.CreateDirectory`, `File.Create` followed by a stream copy,
    `ZipArchiveEntry.ExtractToFile` with overwrite, `ZipFile.OpenRead` and
    `Directory.GetFiles`. Paths are strings with `/` as the separator. The
    ZIP format itself is not modelled: reading an archive is a function of
    the archive file's bytes that the file store is given. */
module Storage {
  import opened Wrappers
  import opened Failures
  import opened Sequences

  newtype byte = x: int | 0 <= x < 256

  type Bytes = seq<byte>

  // ---------------------------------------------------------------------
  // Paths
  // ---------------------------------------------------------------------

  /** The directory a path lies in: the text before its last `/`. */
  function Parent(path: string): string
    decreases |path|
  {
    if |path| == 0 then ""
    else if path[|path| - 1] == '/' then path[..|path| - 1]
    else Parent(path[..|path| - 1])
  }

  /** A name without a separator, appended after a separator, lies directly
      in the directory before it. */
  lemma {:induction false} ParentOfChild(dir: string, name: string)
    requires '/' !in name
    ensures Parent(dir + "/" + name) == dir
    decreases |name|
  {
    var p := dir + "/" + name;
    if name == [] {
      assert p == dir + "/";
      assert p[..|p| - 1] == dir;
    } else {
      assert p[|p| - 1] == name[|name| - 1];
      assert p[..|p| - 1] == dir + "/" + name[..|name| - 1];
      ParentOfChild(dir, name[..|name| - 1]);
    }
  }

  /** A non-empty parent is followed in the path by a separator and the
      name that lies in it, which holds no separator. */
  lemma {:induction false} ParentSplits(path: string)
    ensures |Parent(path)| <= |path| && path[..|Parent(path)|] == Parent(path)
    ensures Parent(path) != "" ==>
              && |Parent(path)| < |path|
              && path == Parent(path) + "/" + path[|Parent(path)| + 1..]
              && '/' !in path[|Parent(path)| + 1..]
    decreases |path|
  {
    if |path| > 0 && path[|path| - 1] != '/' {
      var shorter := path[..|path| - 1];
      ParentSplits(shorter);
      var q := Parent(shorter);
      assert path[..|q|] == shorter[..|q|];
      if q != "" {
        assert path[|q| + 1..] == shorter[|q| + 1..] + [path[|path| - 1]];
        assert path == q + "/" + path[|q| + 1..];
      }
    } else if |path| > 0 {
      assert path == path[..|path| - 1] + "/" + path[|path|..];
    }
  }

  /** A path that lies directly in a non-empty directory is that directory,
      a separator and a name without one. */
  lemma ChildName(dir: string, path: string)
    requires dir != ""
    requires Parent(path) == dir
    ensures |dir| < |path|
    ensures var name := path[|dir| + 1..];
            && path == dir + "/" + name
            && '/' !in name
  {
    ParentSplits(path);
  }

  /** `Path.Combine(a, b)` on a system whose separator is `/`: a rooted `b`
      replaces `a`, and a separator is inserted only when `a` lacks one. */
  function Combine(a: string, b: string): (r: string)
    ensures |b| > 0 && b[0] == '/' ==> r == b
    ensures |a| > 0 && a[|a| - 1] != '/' && |b| > 0 && b[0] != '/' ==> r == a + "/" + b
  {
    if b == "" then a
    else if b[0] == '/' then b
    else if a == "" then b
    else if a[|a| - 1] == '/' then a + b
    else a + "/" + b
  }

  // ---------------------------------------------------------------------
  // The disk
  // ---------------------------------------------------------------------

  /** The directories and files on the server. `order` is the order in which
      a directory enumeration meets the files: here the order in which they
      were first created. */
  datatype Disk = Disk(dirs: set<string>, files: map<string, Bytes>, order: seq<string>)
  {
    /** No path is both a file and a directory, and `order` names every file
        exactly once. */
    predicate Valid()
    {
      && (forall p :: p in files ==> p !in dirs)
      && (forall p :: p in files ==> p in order)
      && (forall k :: 0 <= k < |order| ==> order[k] in files)
      && Distinct(order)
    }
  }

  /** The disk after some steps, and what the last step returned or threw. */
  datatype Run<T> = Run(disk: Disk, result: Result<T, Error>)

  /** `Directory.CreateDirectory(path)`: nothing changes when the directory
      exists, and a file at that path throws `IOException`. */
  function WithDirectory(d: Disk, path: string): (r: Result<Disk, Error>)
    ensures r.Ok? <==> path !in d.files
    ensures r.Err? ==> r.error == FileExists(path)
    ensures r.Ok? ==> && r.value.dirs == d.dirs + {path}
                      && r.value.files == d.files
                      && r.value.order == d.order
                      && (d.Valid() ==> r.value.Valid())
  {
    if path in d.files then Err(FileExists(path))
    else Ok(d.(dirs := d.dirs + {path}))
  }

  /** Creating a file (or extracting an entry with overwrite) and copying the
      bytes into it: the file holds exactly those bytes afterwards, whether
      or not it existed. A directory at that path throws
      `UnauthorizedAccessException`, and a missing directory to hold it
      throws `DirectoryNotFoundException`. */
  function WithFile(d: Disk, path: string, content: Bytes): (r: Result<Disk, Error>)
    ensures r.Ok? <==> path !in d.dirs && Parent(path) in d.dirs
    ensures path in d.dirs ==> r == Err(AccessDenied(path))
    ensures path !in d.dirs && Parent(path) !in d.dirs ==> r == Err(DirectoryNotFound(path))
    ensures r.Ok? ==> && r.value.dirs == d.dirs
                      && r.value.files == d.files[path := content]
                      && (d.Valid() ==> r.value.Valid())
  {
    if path in d.dirs then Err(AccessDenied(path))
    else if Parent(path) !in d.dirs then Err(DirectoryNotFound(path))
    else
      var order := if path in d.files then d.order else d.order + [path];
      AddedFileValid(d, path, content);
      Ok(Disk(d.dirs, d.files[path := content], order))
  }

  lemma AddedFileValid(d: Disk, path: string, content: Bytes)
    requires path !in d.dirs
    ensures d.Valid() ==>
              Disk(d.dirs, d.files[path := content], if path in d.files then d.order else d.order + [path]).Valid()
  {
    if d.Valid() && path !in d.files {
      var order := d.order + [path];
      forall i, j | 0 <= i < j < |order|
        ensures order[i] != order[j]
      {
        if j == |d.order| {
          assert order[i] == d.order[i] && d.order[i] in d.files;
        }
      }
    }
  }

  /** `Directory.GetFiles(dir)`: the full paths of the files directly in the
      directory, in enumeration order; a missing directory throws. */
  function GetFiles(d: Disk, dir: string): (r: Result<seq<string>, Error>)
    ensures r.Ok? <==> dir in d.dirs
    ensures r.Err? ==> r.error == DirectoryNotFound(dir)
    ensures r.Ok? ==> forall k :: 0 <= k < |r.value| ==> Parent(r.value[k]) == dir
    ensures r.Ok? && d.Valid() ==> forall k :: 0 <= k < |r.value| ==> r.value[k] in d.files
    ensures r.Ok? && d.Valid() ==> forall p :: p in d.files && Parent(p) == dir ==> p in r.value
    ensures r.Ok? && d.Valid() ==> Distinct(r.value)
  {
    if dir !in d.dirs then Err(DirectoryNotFound(dir))
    else
      var listed := Filter(d.order, (p: string) => Parent(p) == dir);
      ListingComplete(d, dir);
      Ok(listed)
  }

  lemma ListingComplete(d: Disk, dir: string)
    ensures d.Valid() ==> Distinct(Filter(d.order, (p: string) => Parent(p) == dir))
    ensures d.Valid() ==> forall p :: p in d.files && Parent(p) == dir ==> p in Filter(d.order, (p: string) => Parent(p) == dir)
  {
    if d.Valid() {
      FilterDistinct(d.order, (p: string) => Parent(p) == dir);
      forall p | p in d.files && Parent(p) == dir
        ensures p in Filter(d.order, (p: string) => Parent(p) == dir)
      {
        var k :| 0 <= k < |d.order| && d.order[k] == p;
      }
    }
  }

  // ---------------------------------------------------------------------
  // ZIP extraction
  // ---------------------------------------------------------------------

  /** One entry of an archive: its `FullName` and its bytes. */
  datatype ZipEntry = ZipEntry(fullName: string, content: Bytes)

  /** Where `entry.ExtractToFile(Path.Combine(dir, entry.FullName), true)`
      writes. */
  function EntryPath(dir: string, e: ZipEntry): string
  {
    Combine(dir, e.fullName)
  }

  /** The `foreach` over `archive.Entries`, extracting each entry with
      overwrite and stopping at the first exception. Files and directories
      only accumulate, and the disk stays well formed. */
  function ExtractAll(d: Disk, entries: seq<ZipEntry>, dir: string): (r: Run<()>)
    ensures r.disk.dirs == d.dirs
    ensures d.files.Keys <= r.disk.files.Keys
    ensures d.Valid() ==> r.disk.Valid()
    decreases |entries|
  {
    if entries == [] then Run(d, Ok(()))
    else
      match WithFile(d, EntryPath(dir, entries[0]), entries[0].content)
      case Err(e) => Run(d, Err(e))
      case Ok(d1) => ExtractAll(d1, entries[1..], dir)
  }

  /** After a complete extraction the files are those there before and one
      per entry path. */
  lemma {:induction false} ExtractAllKeys(d: Disk, entries: seq<ZipEntry>, dir: string)
    requires ExtractAll(d, entries, dir).result.Ok?
    ensures forall k :: 0 <= k < |entries| ==> EntryPath(dir, entries[k]) in ExtractAll(d, entries, dir).disk.files
    ensures forall p :: p in ExtractAll(d, entries, dir).disk.files
              <==> p in d.files || exists k :: 0 <= k < |entries| && EntryPath(dir, entries[k]) == p
    decreases |entries|
  {
    if entries != [] {
      var rest := entries[1..];
      var d1 := WithFile(d, EntryPath(dir, entries[0]), entries[0].content).value;
      ExtractAllKeys(d1, rest, dir);
      var r := ExtractAll(d, entries, dir);
      assert r == ExtractAll(d1, rest, dir);
      forall k | 0 < k < |entries|
        ensures EntryPath(dir, entries[k]) in r.disk.files
      {
        assert entries[k] == rest[k - 1];
      }
      forall p
        ensures p in r.disk.files <==> p in d.files || exists k :: 0 <= k < |entries| && EntryPath(dir, entries[k]) == p
      {
        if exists k :: 0 <= k < |rest| && EntryPath(dir, rest[k]) == p {
          var k :| 0 <= k < |rest| && EntryPath(dir, rest[k]) == p;
          assert entries[k + 1] == rest[k];
        }
        if exists k :: 0 <= k < |entries| && EntryPath(dir, entries[k]) == p {
          var k :| 0 <= k < |entries| && EntryPath(dir, entries[k]) == p;
          if k > 0 {
            assert entries[k] == rest[k - 1];
          }
        }
      }
    }
  }

  /** Overwrite is on: after a complete extraction each entry's path holds
      the bytes of the last entry written there. */
  lemma {:induction false} ExtractAllLastWins(d: Disk, entries: seq<ZipEntry>, dir: string)
    requires ExtractAll(d, entries, dir).result.Ok?
    ensures forall k :: 0 <= k < |entries|
              && (forall j :: k < j < |entries| ==> EntryPath(dir, entries[j]) != EntryPath(dir, entries[k]))
              ==> EntryPath(dir, entries[k]) in ExtractAll(d, entries, dir).disk.files
                  && ExtractAll(d, entries, dir).disk.files[EntryPath(dir, entries[k])] == entries[k].content
    decreases |entries|
  {
    if entries != [] {
      var rest := entries[1..];
      var d1 := WithFile(d, EntryPath(dir, entries[0]), entries[0].content).value;
      ExtractAllLastWins(d1, rest, dir);
      var r := ExtractAll(d, entries, dir);
      assert r == ExtractAll(d1, rest, dir);
      forall k | 0 <= k < |entries|
              && (forall j :: k < j < |entries| ==> EntryPath(dir, entries[j]) != EntryPath(dir, entries[k]))
        ensures EntryPath(dir, entries[k]) in r.disk.files && r.disk.files[EntryPath(dir, entries[k])] == entries[k].content
      {
        if k == 0 {
          LastWinsHead(d, entries, dir);
        } else {
          assert entries[k] == rest[k - 1];
          forall j | k - 1 < j < |rest|
            ensures EntryPath(dir, rest[j]) != EntryPath(dir, rest[k - 1])
          {
            assert rest[j] == entries[j + 1];
          }
        }
      }
    }
  }

  /** The first entry's bytes survive when no later entry has its path. */
  lemma LastWinsHead(d: Disk, entries: seq<ZipEntry>, dir: string)
    requires entries != []
    requires ExtractAll(d, entries, dir).result.Ok?
    requires forall j :: 0 < j < |entries| ==> EntryPath(dir, entries[j]) != EntryPath(dir, entries[0])
    ensures EntryPath(dir, entries[0]) in ExtractAll(d, entries, dir).disk.files
    ensures ExtractAll(d, entries, dir).disk.files[EntryPath(dir, entries[0])] == entries[0].content
  {
    var e := entries[0];
    var rest := entries[1..];
    var d1 := WithFile(d, EntryPath(dir, e), e.content).value;
    assert ExtractAll(d, entries, dir) == ExtractAll(d1, rest, dir);
    forall j | 0 <= j < |rest|
      ensures EntryPath(dir, rest[j]) != EntryPath(dir, e)
    {
      assert rest[j] == entries[j + 1];
    }
    ExtractAllUntouched(d1, rest, dir);
  }

  /** A file no entry is written to keeps its bytes. */
  lemma {:induction false} ExtractAllUntouched(d: Disk, entries: seq<ZipEntry>, dir: string)
    requires ExtractAll(d, entries, dir).result.Ok?
    ensures forall p :: p in d.files && (forall k :: 0 <= k < |entries| ==> EntryPath(dir, entries[k]) != p)
              ==> p in ExtractAll(d, entries, dir).disk.files && ExtractAll(d, entries, dir).disk.files[p] == d.files[p]
    decreases |entries|
  {
    if entries != [] {
      var rest := entries[1..];
      var d1 := WithFile(d, EntryPath(dir, entries[0]), entries[0].content).value;
      ExtractAllUntouched(d1, rest, dir);
      var r := ExtractAll(d, entries, dir);
      assert r == ExtractAll(d1, rest, dir);
      forall p | p in d.files && (forall k :: 0 <= k < |entries| ==> EntryPath(dir, entries[k]) != p)
        ensures p in r.disk.files && r.disk.files[p] == d.files[p]
      {
        assert EntryPath(dir, entries[0]) != p;
        forall k | 0 <= k < |rest|
          ensures EntryPath(dir, rest[k]) != p
        {
          assert rest[k] == entries[k + 1];
        }
      }
    }
  }

  /** `Path.Combine` does not confine an entry to the extraction directory: an
      entry with a rooted name is written at that name, wherever the archive
      is extracted. */
  lemma RootedEntryEscapes(d: Disk, dir: string, name: string, content: Bytes)
    requires |name| > 0 && name[0] == '/'
    requires name !in d.dirs && Parent(name) in d.dirs
    ensures ExtractAll(d, [ZipEntry(name, content)], dir).result.Ok?
    ensures ExtractAll(d, [ZipEntry(name, content)], dir).disk.files[name] == content
  {
    var entries := [ZipEntry(name, content)];
    assert entries[1..] == [];
  }

  /** An entry with an empty name would be written onto the extraction
      directory itself, which throws before anything is written. */
  lemma EmptyEntryRefused(d: Disk, dir: string, content: Bytes, rest: seq<ZipEntry>)
    requires dir in d.dirs
    ensures ExtractAll(d, [ZipEntry("", content)] + rest, dir) == Run(d, Err(AccessDenied(dir)))
  {
    assert ([ZipEntry("", content)] + rest)[0] == ZipEntry("", content);
  }

  // ---------------------------------------------------------------------
  // The file system as a mutable object
  // ---------------------------------------------------------------------

  /** The server's file system: the disk the static `System.IO` members read
      and change, and the archive reader `ZipFile.OpenRead` applies to a
      file's bytes (its `Entries`, or the reader's exception message). */
  class FileStore {
    var disk: Disk
    const openArchive: Bytes -> Result<seq<ZipEntry>, string>

    constructor (initial: Disk, openArchive: Bytes -> Result<seq<ZipEntry>, string>)
      ensures disk == initial && this.openArchive == openArchive
    {
      disk := initial;
      this.openArchive := openArchive;
    }

    /** `Directory.CreateDirectory(path)`. */
    method CreateDirectory(path: string) returns (r: Result<(), Error>)
      modifies this
      ensures var w := WithDirectory(old(disk), path);
              if w.Ok? then r == Ok(()) && disk == w.value else r == Err(w.error) && disk == old(disk)
    {
      var w := WithDirectory(disk, path);
      if w.Err? {
        return Err(w.error);
      }
      disk := w.value;
      return Ok(());
    }

    /** `File.Create(path)` and the copy of `content` into it, or
        `ExtractToFile(path, true)`. */
    method WriteFile(path: string, content: Bytes) returns (r: Result<(), Error>)
      modifies this
      ensures var w := WithFile(old(disk), path, content);
              if w.Ok? then r == Ok(()) && disk == w.value else r == Err(w.error) && disk == old(disk)
    {
      var w := WithFile(disk, path, content);
      if w.Err? {
        return Err(w.error);
      }
      disk := w.value;
      return Ok(());
    }
  }
}
