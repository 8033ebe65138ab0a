/** The end of a run over the directory tree: the workspace the workers have filled is removed without a trace. */
module Workspace {
  import opened Common
  import opened Naming
  import opened FileTree
  import opened Cleanup
  import opened Motif
  import opened MotifTree

  predicate Within(d: Path, p: Path) { p == d || Below(d, p) }

  /** whole is outer with the tree inner hung in at workspace, where outer has nothing. */
  ghost predicate Mounted(outer: Fs, workspace: Path, inner: Fs, whole: Fs) {
    && WellFormed(outer)
    && workspace != [] && Parent(workspace) in outer.dirs
    && (forall p :: p in outer.dirs || p in outer.files ==> !Within(workspace, p))
    && (forall p :: p in whole.dirs <==>
          p in outer.dirs || (Within(workspace, p) && p[|workspace|..] in inner.dirs))
    && (forall p :: p in whole.files <==>
          p in outer.files || (Within(workspace, p) && p[|workspace|..] in inner.files))
    && (forall p :: p in outer.files ==> whole.files[p] == outer.files[p])
  }

  /** Wherever the workspace can be made in a file system whose paths all have their parents, a tree can be hung in. */
  lemma Mount(outer: Fs, workspace: Path, inner: Fs) returns (whole: Fs)
    requires forall d :: d in outer.dirs && d != [] ==> d[..|d| - 1] in outer.dirs
    requires forall f :: f in outer.files ==> f != [] && f[..|f| - 1] in outer.dirs && f !in outer.dirs
    requires CanCreate(outer, workspace)
    ensures Mounted(outer, workspace, inner, whole)
  {
    assert WellFormed(outer);
    var dirs := set d | d in inner.dirs :: workspace + d;
    var files := set f | f in inner.files :: workspace + f;
    whole := Fs(outer.dirs + dirs, outer.files + map f | f in files :: inner.files[f[|workspace|..]]);
    forall p | p in outer.dirs || p in outer.files ensures !Within(workspace, p) {
      NothingWithin(outer, workspace, p);
    }
    forall p | Within(workspace, p) ensures p == workspace + p[|workspace|..] {
    }
  }

  lemma {:induction false} NothingWithin(outer: Fs, workspace: Path, p: Path)
    requires WellFormed(outer) && CanCreate(outer, workspace) && (p in outer.dirs || p in outer.files)
    ensures !Within(workspace, p)
    decreases |p|
  {
    if Below(workspace, p) {
      var q := Parent(p);
      assert q[..|workspace|] == p[..|workspace|];
      if q != workspace {
        NothingWithin(outer, workspace, q);
      }
    }
  }

  /** The parent of a path of the mounted tree. */
  lemma ParentWithin(workspace: Path, p: Path)
    requires Within(workspace, p) && p != workspace
    ensures p != [] && Within(workspace, Parent(p))
    ensures p[|workspace|..] != [] && Parent(p)[|workspace|..] == Parent(p[|workspace|..])
  {
    assert Parent(p)[..|workspace|] == p[..|workspace|];
  }

  lemma MountedIsWellFormed(outer: Fs, workspace: Path, inner: Fs, whole: Fs)
    requires Mounted(outer, workspace, inner, whole) && TreeOk(inner)
    ensures WellFormed(whole) && workspace in whole.dirs
  {
    DriverTreeIsClean(inner);
    hide Named;
    assert Within(workspace, workspace) && workspace[|workspace|..] == [];
    forall p | p in whole.dirs && p != [] ensures Parent(p) in whole.dirs {
      if p !in outer.dirs && p != workspace {
        ParentWithin(workspace, p);
      }
    }
    forall f | f in whole.files ensures f != [] && Parent(f) in whole.dirs && f !in whole.dirs {
      if f !in outer.files {
        ParentWithin(workspace, f);
      }
    }
  }

  /** All files below the workspace are the drivers' own, so that their names scan. */
  lemma MountedIsNamed(outer: Fs, workspace: Path, inner: Fs, whole: Fs, f: Path)
    requires Mounted(outer, workspace, inner, whole) && TreeOk(inner) && f in whole.files && Within(workspace, f)
    ensures Named(f)
  {
    hide ScanName;
    assert Named(f[|workspace|..]);
  }

  /** The file system without the workspace and what is below it. */
  ghost predicate Unmounted(workspace: Path, before: Fs, after: Fs) {
    && (forall p :: p in after.dirs <==> p in before.dirs && !Within(workspace, p))
    && (forall f :: f in after.files <==> f in before.files && !Below(workspace, f))
    && (forall f :: f in after.files ==> after.files[f] == before.files[f])
  }

  lemma UnmountedIsOuter(outer: Fs, workspace: Path, inner: Fs, whole: Fs, after: Fs)
    requires Mounted(outer, workspace, inner, whole) && TreeOk(inner) && Unmounted(workspace, whole, after)
    ensures after == outer
  {
    hide Named;
    forall f | f in whole.files && Within(workspace, f) ensures Below(workspace, f) {
      assert f[|workspace|..] in inner.files;
    }
    assert after.dirs == outer.dirs;
    assert after.files == outer.files;
  }

  /**
   * storage_dirtree_driver_destroy after any run of any number of workers: it does not abort, and leaves the file
   * system as it was before there was a workspace.
   */
  method DestroyAfterRun<S(!new)>(ghost p: Plan<S>, ghost run: seq<nat>, ghost t: TreeSystem<S>,
                                  ghost outer: Fs, workspace: Path, system: FileSystem)
    returns (aborted: bool)
    requires Sane(p) && TreeExec(p, run) == Some(t)
    requires Mounted(outer, workspace, t.fs, system.fs) && system.cwd in outer.dirs
    modifies system
    ensures !aborted && system.cwd == old(system.cwd) && system.fs == outer
  {
    TreeReadsValidate(p, run, t);
    assert system.cwd in system.fs.dirs;
    hide TreeOk, Named, Mounted, WellFormed;
    MountedIsWellFormed(outer, workspace, t.fs, system.fs);
    ghost var whole := system.fs;
    forall f | f in whole.files && Below(workspace, f) ensures Named(f) {
      MountedIsNamed(outer, workspace, t.fs, whole, f);
    }
    aborted := system.Destroy(workspace);
    UnmountedIsOuter(outer, workspace, t.fs, whole, system.fs);
  }
}
