/** Removal of a workspace with everything below it (storage_dirtree_rmdir and the driver_destroy functions). */
module Cleanup {
  import opened Naming
  import opened FileTree

  /** p lies somewhere below d. */
  predicate Below(d: Path, p: Path) { |d| < |p| && p[..|d|] == d }

  /** p is below d through one of these entries of d. */
  predicate Through(d: Path, names: set<string>, p: Path) { Below(d, p) && p[|d|] in names }

  /** Every path has its parent directory, and no directory has the path of a file. */
  ghost predicate WellFormed(fs: Fs) {
    && (forall d :: d in fs.dirs && d != [] ==> Parent(d) in fs.dirs)
    && (forall f :: f in fs.files ==> f != [] && Parent(f) in fs.dirs && f !in fs.dirs)
  }

  /** fs without what lies below d through these entries. */
  ghost predicate Removed(before: Fs, after: Fs, d: Path, names: set<string>) {
    && (forall p :: p in after.dirs <==> p in before.dirs && !Through(d, names, p))
    && (forall f :: f in after.files <==> f in before.files && !Through(d, names, f))
    && (forall f :: f in after.files ==> after.files[f] == before.files[f])
  }

  /** No file below d through these entries has a name that the scan rejects. */
  ghost predicate AllNamed(fs: Fs, d: Path, names: set<string>) {
    forall f :: f in fs.files && Through(d, names, f) ==> Named(f)
  }

  /** The entries readdir finds in d. */
  function Entries(fs: Fs, d: Path): set<string> {
    (set p | p in fs.dirs && |p| == |d| + 1 && Below(d, p) :: p[|d|])
    + (set f | f in fs.files && |f| == |d| + 1 && Below(d, f) :: f[|d|])
  }

  /** Whatever lies below d lies below it through one of its entries. */
  lemma {:induction false} EntriesCover(fs: Fs, d: Path, p: Path)
    requires WellFormed(fs) && Below(d, p) && (p in fs.dirs || p in fs.files)
    ensures p[|d|] in Entries(fs, d)
    decreases |p|
  {
    if |p| > |d| + 1 {
      assert Parent(p)[..|d|] == p[..|d|];
      EntriesCover(fs, d, Parent(p));
    }
  }

  ghost function DirsBelow(fs: Fs, d: Path): set<Path> { set p | p in fs.dirs && Below(d, p) }

  /** rmdir removes only an empty directory. */
  function RemoveDir(fs: Fs, d: Path): Fs {
    if d in fs.dirs && Entries(fs, d) == {} then fs.(dirs := fs.dirs - {d}) else fs
  }

  /** So it removes a directory exactly when nothing lies below it. */
  lemma RemovesOnlyEmpty(fs: Fs, d: Path)
    requires WellFormed(fs)
    ensures RemoveDir(fs, d).files == fs.files
    ensures RemoveDir(fs, d).dirs ==
            if exists p :: (p in fs.dirs || p in fs.files) && Below(d, p) then fs.dirs else fs.dirs - {d}
  {
    if p: Path :| (p in fs.dirs || p in fs.files) && Below(d, p) {
      EntriesCover(fs, d, p);
    } else {
      forall e | e in Entries(fs, d) ensures false {
        EntryExists(fs, d, e);
        assert Below(d, d + [e]);
      }
    }
  }

  lemma EntryExists(fs: Fs, d: Path, name: string)
    ensures name in Entries(fs, d) <==> d + [name] in fs.dirs || d + [name] in fs.files
  {
    assert Below(d, d + [name]);
    assert forall p: Path :: |p| == |d| + 1 && Below(d, p) && p[|d|] == name ==> p == d + [name];
  }

  /** What lies below d through one entry is the entry itself and what lies below that. */
  lemma ThroughOne(d: Path, name: string, p: Path)
    ensures Through(d, {name}, p) <==> p == d + [name] || Below(d + [name], p)
  {
    if Through(d, {name}, p) {
      assert p[..|d| + 1] == d + [name];
    }
    if Below(d + [name], p) {
      assert p[..|d|] == p[..|d| + 1][..|d|];
      assert p[|d|] == p[..|d| + 1][|d|];
    }
  }

  /** Below a directory means below one of its entries, so emptying it entry by entry empties it. */
  lemma BelowIsThrough(fs: Fs, d: Path)
    requires WellFormed(fs)
    ensures forall p :: p in fs.dirs || p in fs.files ==> (Below(d, p) <==> Through(d, Entries(fs, d), p))
  {
    forall p | (p in fs.dirs || p in fs.files) && Below(d, p) ensures Through(d, Entries(fs, d), p) {
      EntriesCover(fs, d, p);
    }
  }

  /** The file names that matter below a directory are those below its entries. */
  lemma NamedBelow(fs: Fs, d: Path, name: string)
    requires WellFormed(fs) && d + [name] in fs.dirs
    ensures AllNamed(fs, d, {name}) <==> AllNamed(fs, d + [name], Entries(fs, d + [name]))
  {
    BelowIsThrough(fs, d + [name]);
    forall f | f in fs.files ensures Through(d, {name}, f) <==> Through(d + [name], Entries(fs, d + [name]), f) {
      ThroughOne(d, name, f);
    }
  }

  lemma FileNamed(fs: Fs, d: Path, name: string)
    requires WellFormed(fs) && d + [name] in fs.files
    ensures AllNamed(fs, d, {name}) <==> ScanName(name).Some?
  {
    hide ScanName;
    var path := d + [name];
    assert Through(d, {name}, path);
    forall f | f in fs.files && Through(d, {name}, f) ensures f == path {
      ThroughOne(d, name, f);
      if Below(path, f) {
        EntriesCover(fs, path, f);
        NoEntriesInFile(fs, path, f);
      }
    }
  }

  /** Nothing lies below a file. */
  lemma {:induction false} NoEntriesInFile(fs: Fs, file: Path, p: Path)
    requires WellFormed(fs) && file in fs.files && Below(file, p)
    ensures p !in fs.dirs && p !in fs.files
    decreases |p|
  {
    if p in fs.dirs || p in fs.files {
      var q := Parent(p);
      assert q[..|file|] == file;
      if |q| > |file| {
        NoEntriesInFile(fs, file, q);
      }
    }
  }

  lemma UnlinkRemoves(fs: Fs, d: Path, name: string)
    requires WellFormed(fs) && d + [name] in fs.files
    ensures Removed(fs, fs.(files := fs.files - {d + [name]}), d, {name})
  {
    var path := d + [name];
    forall p | p in fs.dirs || p in fs.files ensures Through(d, {name}, p) <==> p == path {
      ThroughOne(d, name, p);
      if Below(path, p) {
        NoEntriesInFile(fs, path, p);
      }
    }
  }

  /** An emptied directory can be removed, and with it everything through its entry is gone. */
  lemma RemoveDirRemoves(before: Fs, emptied: Fs, d: Path, name: string)
    requires WellFormed(before) && WellFormed(emptied) && d + [name] in before.dirs
    requires Removed(before, emptied, d + [name], Entries(before, d + [name]))
    ensures d + [name] in emptied.dirs && Entries(emptied, d + [name]) == {}
    ensures Removed(before, RemoveDir(emptied, d + [name]), d, {name})
  {
    var path := d + [name];
    BelowIsThrough(before, path);
    forall e | e in Entries(emptied, path) ensures false {
      EntryExists(emptied, path, e);
      assert Below(path, path + [e]);
    }
    forall p | p in before.dirs || p in before.files
      ensures Through(d, {name}, p) <==> p == path || Through(path, Entries(before, path), p)
    {
      ThroughOne(d, name, p);
    }
  }

  lemma RemovedStaysWellFormed(before: Fs, after: Fs, d: Path, names: set<string>)
    requires WellFormed(before) && Removed(before, after, d, names)
    ensures WellFormed(after)
  {
    forall p: Path | p != [] && (p in after.dirs || p in after.files) ensures Parent(p) in after.dirs {
      if |p| > |d| + 1 {
        assert Parent(p)[..|d|] == p[..|d|];
      }
    }
  }

  /** Removing one entry after others. */
  lemma RemovedOneMore(start: Fs, mid: Fs, end: Fs, d: Path, done: set<string>, name: string)
    requires Removed(start, mid, d, done) && Removed(mid, end, d, {name})
    ensures Removed(start, end, d, done + {name})
  {
  }

  /** Entries not dealt with are untouched. */
  lemma RemovedLeaves(start: Fs, mid: Fs, d: Path, done: set<string>, name: string)
    requires Removed(start, mid, d, done) && name !in done
    ensures name in Entries(mid, d) <==> name in Entries(start, d)
    ensures AllNamed(mid, d, {name}) <==> AllNamed(start, d, {name})
  {
    EntryExists(start, d, name);
    EntryExists(mid, d, name);
    assert (d + [name])[|d|] == name;
  }

  lemma DirsBelowShrink(start: Fs, mid: Fs, d: Path, done: set<string>)
    requires Removed(start, mid, d, done)
    ensures DirsBelow(mid, d) <= DirsBelow(start, d)
  {
  }

  class FileSystem {
    var fs: Fs
    var cwd: Path

    /** storage_dirtree_rmdir: going through the entries of the current directory, in whatever order readdir has them.
        It aborts exactly when some file below has a name that does not scan, and otherwise leaves the directory empty,
        the rest as it was, and the caller where it was. */
    method Rmdir() returns (aborted: bool)
      requires WellFormed(fs) && cwd in fs.dirs
      modifies this
      ensures aborted <==> !AllNamed(old(fs), old(cwd), Entries(old(fs), old(cwd)))
      ensures !aborted ==> cwd == old(cwd) && WellFormed(fs) && Removed(old(fs), fs, cwd, Entries(old(fs), cwd))
      decreases DirsBelow(fs, cwd)
    {
      ghost var start := fs;
      var entries := Entries(fs, cwd);
      var todo := entries;
      while todo != {}
        invariant todo <= entries && cwd == old(cwd) && cwd in fs.dirs && WellFormed(fs)
        invariant Removed(start, fs, cwd, entries - todo)
        invariant AllNamed(start, cwd, entries - todo)
        decreases todo
      {
        var name :| name in todo;
        ghost var mid, done := fs, entries - todo;
        DirsBelowShrink(start, mid, cwd, done);
        RemovedLeaves(start, mid, cwd, done, name);
        aborted := RemoveEntry(name);
        if aborted {
          return;
        }
        RemovedOneMore(start, mid, fs, cwd, done, name);
        todo := todo - {name};
        assert entries - todo == done + {name};
      }
      assert entries - todo == entries;
      aborted := false;
    }

    /** One entry: unlink a file whose name scans, or go into a directory, empty it, come back and remove it. */
    method RemoveEntry(name: string) returns (aborted: bool)
      requires WellFormed(fs) && cwd in fs.dirs && name in Entries(fs, cwd)
      modifies this
      ensures aborted <==> !AllNamed(old(fs), old(cwd), {name})
      ensures !aborted ==> cwd == old(cwd) && cwd in fs.dirs && WellFormed(fs) && Removed(old(fs), fs, cwd, {name})
      decreases DirsBelow(fs, cwd), 0
    {
      hide ScanName, Entries;
      var path := cwd + [name];
      ghost var start := fs;
      EntryExists(fs, cwd, name);
      if path in fs.files {
        FileNamed(fs, cwd, name);
        if ScanName(name).None? {
          return true;
        }
        UnlinkRemoves(fs, cwd, name);
        fs := fs.(files := fs.files - {path});
      } else {
        var saved := cwd;
        NamedBelow(fs, cwd, name);
        InnerDirsBelow(fs, cwd, name);
        cwd := path;
        aborted := Rmdir();
        if aborted {
          return;
        }
        RemoveDirRemoves(start, fs, saved, name);
        cwd := saved;
        fs := RemoveDir(fs, path);
      }
      RemovedStaysWellFormed(start, fs, cwd, {name});
      aborted := false;
    }

    /** storage_dirtree_driver_destroy: into the workspace, empty it, back, and remove it. */
    method Destroy(workspace: Path) returns (aborted: bool)
      requires WellFormed(fs) && cwd in fs.dirs && workspace in fs.dirs && workspace != []
      modifies this
      ensures aborted <==> exists f :: f in old(fs.files) && Below(workspace, f) && !Named(f)
      ensures !aborted ==> cwd == old(cwd)
      ensures !aborted ==> forall p :: p in fs.dirs <==> p in old(fs.dirs) && p != workspace && !Below(workspace, p)
      ensures !aborted ==> forall f :: f in fs.files <==> f in old(fs.files) && !Below(workspace, f)
      ensures !aborted ==> forall f :: f in fs.files ==> fs.files[f] == old(fs.files)[f]
    {
      ghost var start := fs;
      var saved := cwd;
      BelowIsThrough(fs, workspace);
      cwd := workspace;
      aborted := Rmdir();
      if aborted {
        return;
      }
      cwd := saved;
      assert workspace == Parent(workspace) + [workspace[|workspace| - 1]];
      RemoveDirRemoves(start, fs, Parent(workspace), workspace[|workspace| - 1]);
      fs := RemoveDir(fs, workspace);
    }
  }

  /** Whatever the drivers have left in a workspace can be cleaned up: the recursion from its top never aborts. */
  lemma DriverTreeIsClean(fs: Fs)
    requires TreeOk(fs)
    ensures WellFormed(fs) && AllNamed(fs, [], Entries(fs, []))
  {
    hide ScanName;
  }

  lemma InnerDirsBelow(fs: Fs, d: Path, name: string)
    requires d + [name] in fs.dirs
    ensures DirsBelow(fs, d + [name]) < DirsBelow(fs, d)
  {
    assert Below(d, d + [name]);
    forall p | Below(d + [name], p) ensures Below(d, p) {
      ThroughOne(d, name, p);
    }
    assert d + [name] in DirsBelow(fs, d) && d + [name] !in DirsBelow(fs, d + [name]);
  }
}
