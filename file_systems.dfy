/**
 * The part of the local file system the adapter touches. A location is the
 * list of names from the root; relative paths are looked up from the working
 * directory `cwd`. Regular files carry their text; directories are listed
 * explicitly.
 */
module FileSystems {
  import opened Wrappers
  import opened JvmPaths

  datatype Disk = Disk(cwd: seq<string>, files: map<seq<string>, string>, dirs: set<seq<string>>)

  /** Where a path points when relative paths start at `cwd`. */
  function LocateFrom(cwd: seq<string>, p: Path): (loc: seq<string>)
    ensures p.absolute ==> loc == p.names
    ensures !p.absolute ==> loc == cwd + p.names
  {
    if p.absolute then p.names else cwd + p.names
  }

  /** Where a path points on this disk. */
  function Locate(d: Disk, p: Path): seq<string> {
    LocateFrom(d.cwd, p)
  }

  predicate Exists(d: Disk, p: Path) {
    Locate(d, p) in d.files || Locate(d, p) in d.dirs
  }

  /** `Files.isDirectory(p)`. */
  predicate IsDirectory(d: Disk, p: Path) {
    Locate(d, p) in d.dirs
  }

  predicate Below(prefix: seq<string>, loc: seq<string>) {
    |prefix| <= |loc| && loc[..|prefix|] == prefix
  }

  /** `p.toFile().readText()`: the text of a regular file; anything else throws. */
  function ReadFile(d: Disk, p: Path): (r: Option<string>)
    ensures r.Some? <==> Locate(d, p) in d.files
    ensures r.Some? ==> r.value == d.files[Locate(d, p)]
  {
    if Locate(d, p) in d.files then Some(d.files[Locate(d, p)]) else None
  }

  /**
   * `File.mkdirs()`: a missing directory is created after its missing
   * ancestors, from the root down; nothing is created at or below a regular file.
   */
  function MakeDirs(d: Disk, p: Path): (r: Disk)
    ensures r.cwd == d.cwd && r.files == d.files && d.dirs <= r.dirs
    ensures r.dirs <= d.dirs + Prefixes(Locate(d, p))
    ensures (forall i :: 0 <= i <= |Locate(d, p)| ==> Locate(d, p)[..i] !in d.files) ==> IsDirectory(r, p)
  {
    MakeDirsAt(d, Locate(d, p))
  }

  /** A location and all its ancestors, the root included. */
  function Prefixes(loc: seq<string>): set<seq<string>>
  {
    set i | 0 <= i <= |loc| :: loc[..i]
  }

  function MakeDirsAt(d: Disk, loc: seq<string>): (r: Disk)
    ensures r.cwd == d.cwd && r.files == d.files && d.dirs <= r.dirs
    ensures r.dirs <= d.dirs + Prefixes(loc)
    ensures (forall i :: 0 <= i <= |loc| ==> loc[..i] !in d.files) ==> loc in r.dirs
    decreases |loc|
  {
    if loc in d.dirs then d
    else if loc in d.files then assert loc[..|loc|] == loc; d
    else if |loc| == 0 then d.(dirs := d.dirs + {loc})
    else
      var parent := loc[..|loc| - 1];
      assert forall i :: 0 <= i <= |parent| ==> parent[..i] == loc[..i];
      var above := MakeDirsAt(d, parent);
      assert loc[..|loc|] == loc;
      assert Prefixes(parent) <= Prefixes(loc) && loc in Prefixes(loc);
      if parent in above.dirs then above.(dirs := above.dirs + {loc}) else above
  }

  /**
   * Opening `p` for writing (`bufferedWriter()`) and writing `text`: fails when
   * `p` is a directory or its parent is not one; otherwise the file holds `text`.
   */
  function WriteFile(d: Disk, p: Path, text: string): (r: Option<Disk>)
    ensures r.Some? <==> |Locate(d, p)| > 0 && Locate(d, p) !in d.dirs && Locate(d, p)[..|Locate(d, p)| - 1] in d.dirs
    ensures r.Some? ==> r.value == d.(files := d.files[Locate(d, p) := text])
  {
    var loc := Locate(d, p);
    if |loc| > 0 && loc !in d.dirs && loc[..|loc| - 1] in d.dirs
    then Some(d.(files := d.files[loc := text]))
    else None
  }

  /** What saving a file changes: the files, the directories, and whether the text was written. */
  datatype Saved = Saved(files: map<seq<string>, string>, dirs: set<seq<string>>, written: bool)

  /**
   * `p.parent.toFile().mkdirs()` followed by `p.writeText(text)`. A path
   * without a parent (`parent` is null) is not written; neither is one the
   * write refuses, though the directories made before stay.
   */
  function SaveFile(d: Disk, p: Path, text: string): (r: Saved)
    ensures r.written ==> r.files == d.files[Locate(d, p) := text]
    ensures !r.written ==> r.files == d.files
    ensures d.dirs <= r.dirs
    ensures Parent(p).None? ==> r.dirs == d.dirs
    ensures Parent(p).Some? ==> r.dirs <= d.dirs + Prefixes(Locate(d, Parent(p).value))
  {
    match Parent(p)
    case None => Saved(d.files, d.dirs, false)
    case Some(parent) =>
      var withDirs := MakeDirs(d, parent);
      match WriteFile(withDirs, p, text)
      case None => Saved(withDirs.files, withDirs.dirs, false)
      case Some(written) => Saved(written.files, written.dirs, true)
  }

  /** `File.delete()`: removes a regular file or an empty directory; otherwise nothing happens. */
  function DeleteFile(d: Disk, p: Path): (r: Disk)
    ensures r.cwd == d.cwd
    ensures Locate(d, p) in d.files ==> r == d.(files := d.files - {Locate(d, p)})
    ensures Locate(d, p) !in r.files
    ensures r.files == d.files - {Locate(d, p)}
  {
    var loc := Locate(d, p);
    if loc in d.files then d.(files := d.files - {loc})
    else if loc in d.dirs && (forall q :: q in d.files ==> !(|q| > |loc| && Below(loc, q)))
                          && (forall q :: q in d.dirs ==> !(|q| > |loc| && Below(loc, q)))
    then d.(dirs := d.dirs - {loc})
    else d
  }

  /** The names directly inside directory `p` (`listDirectoryEntries()`, before ordering). */
  function Children(d: Disk, p: Path): set<string> {
    var loc := Locate(d, p);
    set q | q in d.files.Keys + d.dirs && ChildOf(loc, q) :: q[|loc|]
  }

  /** `q` is directly inside `loc`. */
  predicate ChildOf(loc: seq<string>, q: seq<string>) {
    |q| == |loc| + 1 && Below(loc, q)
  }

  /** Everything under `p`, `p` itself included, relative to `p` (`Files.walk(p)`, before ordering). */
  function Entries(d: Disk, p: Path): set<seq<string>> {
    var loc := Locate(d, p);
    set q | q in d.files.Keys + d.dirs && Below(loc, q) :: q[|loc|..]
  }

  class FileSystem {
    const cwd: seq<string>
    var files: map<seq<string>, string>
    var dirs: set<seq<string>>

    function Snapshot(): Disk
      reads this
    {
      Disk(cwd, files, dirs)
    }

    constructor (cwd: seq<string>, files: map<seq<string>, string>, dirs: set<seq<string>>)
      ensures Snapshot() == Disk(cwd, files, dirs)
    {
      this.cwd := cwd;
      this.files := files;
      this.dirs := dirs;
    }

    /** `directory.listDirectoryEntries()`: each child once, in an order the platform chooses. */
    method ListDirectoryEntries(directory: Path) returns (names: seq<string>)
      ensures forall n :: n in names <==> n in Children(Snapshot(), directory)
      ensures forall i, j :: 0 <= i < j < |names| ==> names[i] != names[j]
    {
      var rest := Children(Snapshot(), directory);
      names := [];
      while rest != {}
        invariant forall n :: n in names || n in rest <==> n in Children(Snapshot(), directory)
        invariant forall n :: n in names ==> n !in rest
        invariant forall i, j :: 0 <= i < j < |names| ==> names[i] != names[j]
        decreases rest
      {
        var n :| n in rest;
        names := names + [n];
        rest := rest - {n};
      }
    }

    /** `Files.walk(start)`: each entry once, relative to `start`, in an order the platform chooses. */
    method Walk(start: Path) returns (entries: seq<seq<string>>)
      ensures forall e :: e in entries <==> e in Entries(Snapshot(), start)
      ensures forall i, j :: 0 <= i < j < |entries| ==> entries[i] != entries[j]
    {
      var rest := Entries(Snapshot(), start);
      entries := [];
      while rest != {}
        invariant forall e :: e in entries || e in rest <==> e in Entries(Snapshot(), start)
        invariant forall e :: e in entries ==> e !in rest
        invariant forall i, j :: 0 <= i < j < |entries| ==> entries[i] != entries[j]
        decreases rest
      {
        var e :| e in rest;
        entries := entries + [e];
        rest := rest - {e};
      }
    }

    method ReadText(p: Path) returns (r: Option<string>)
      ensures r == ReadFile(Snapshot(), p)
    {
      var loc := Locate(Snapshot(), p);
      if loc in files {
        r := Some(files[loc]);
      } else {
        r := None;
      }
    }

    method Mkdirs(p: Path)
      modifies this
      ensures Snapshot() == MakeDirs(old(Snapshot()), p)
    {
      dirs := MakeDirs(Snapshot(), p).dirs;
    }

    method Write(p: Path, text: string) returns (ok: bool)
      modifies this
      ensures ok == WriteFile(old(Snapshot()), p, text).Some?
      ensures Snapshot() == if ok then WriteFile(old(Snapshot()), p, text).value else old(Snapshot())
    {
      var loc := Locate(Snapshot(), p);
      ok := |loc| > 0 && loc !in dirs && loc[..|loc| - 1] in dirs;
      if ok {
        files := files[loc := text];
      }
    }

    /** `p.parent.toFile().mkdirs()` and then writing `text` to `p`; nothing is made or written when `p` has no parent. */
    method Save(p: Path, text: string) returns (written: bool)
      modifies this
      ensures var s := SaveFile(old(Snapshot()), p, text);
        written == s.written && Snapshot() == Disk(cwd, s.files, s.dirs)
    {
      written := false;
      match Parent(p) {
        case None =>
        case Some(parent) =>
          Mkdirs(parent);
          written := Write(p, text);
      }
    }

    method Delete(p: Path)
      modifies this
      ensures Snapshot() == DeleteFile(old(Snapshot()), p)
    {
      var after := DeleteFile(Snapshot(), p);
      files, dirs := after.files, after.dirs;
    }
  }
}
