/**
 * A file system as a set of directories and a map of files, and the object tree inside a workspace
 * (storage/storage_dirtree.c).
 */
module FileTree {
  import opened Common
  import opened Naming

  datatype Fs = Fs(dirs: set<Path>, files: map<Path, Bytes>)

  function Parent(p: Path): Path
    requires p != []
  {
    p[..|p| - 1]
  }

  /** mkdir and open with O_CREAT and O_EXCL need the parent directory and a name that is not taken. */
  predicate CanCreate(fs: Fs, p: Path) {
    p != [] && Parent(p) in fs.dirs && p !in fs.dirs && p !in fs.files
  }

  function Mkdir(fs: Fs, p: Path): Fs { if CanCreate(fs, p) then fs.(dirs := fs.dirs + {p}) else fs }

  function WriteFile(fs: Fs, p: Path, bytes: Bytes): Fs { fs.(files := fs.files[p := bytes]) }

  /** The scan before a file is removed accepts its name. */
  predicate Named(f: Path) { f != [] && ScanName(f[|f| - 1]).Some? }

  /** The shape of a workspace: three levels of directories with named files below them, and no parent missing. */
  ghost predicate TreeOk(fs: Fs) {
    && [] in fs.dirs
    && (forall d :: d in fs.dirs ==> |d| <= 3 && (d != [] ==> Parent(d) in fs.dirs))
    && (forall f :: f in fs.files ==> |f| == 4 && Parent(f) in fs.dirs && Named(f))
  }

  /** The tree holds what the flat map holds. */
  ghost predicate Agrees(fs: Fs, store: map<Key, Bytes>) {
    forall k: Key :: (TreePath(k) in fs.files <==> k in store) && (k in store ==> fs.files[TreePath(k)] == store[k])
  }

  /** Directories of an object's path down to a level. */
  ghost predicate MadeTo(fs: Fs, k: Key, level: nat)
    requires level <= 3
  {
    forall i :: 0 <= i <= level ==> Parents(k)[..i] in fs.dirs
  }

  lemma PathFacts(k: Key)
    ensures |TreePath(k)| == 4 && Parent(TreePath(k)) == Parents(k)
    ensures forall i :: 0 <= i <= 3 ==> TreePath(k)[..i] == Parents(k)[..i]
    ensures Named(TreePath(k))
  {
    hide ScanName, ObjectName;
    ScanObjectName(k, true);
  }

  /** The next mkdir of storage_dirtree_pathgen leaves its directory in place, made by it or by another worker. */
  lemma MkdirMakes(fs: Fs, k: Key, level: nat)
    requires TreeOk(fs) && level < 3 && MadeTo(fs, k, level)
    ensures TreeOk(Mkdir(fs, Parents(k)[..level + 1])) && MadeTo(Mkdir(fs, Parents(k)[..level + 1]), k, level + 1)
    ensures fs.dirs <= Mkdir(fs, Parents(k)[..level + 1]).dirs && fs.files == Mkdir(fs, Parents(k)[..level + 1]).files
  {
    var d := Parents(k)[..level + 1];
    assert Parent(d) == Parents(k)[..level];
  }

  /** Made or found, the directory is the only one added. */
  lemma MakesOrFinds(fs: Fs, k: Key, level: nat)
    requires TreeOk(fs) && level < 3 && MadeTo(fs, k, level)
    ensures var d := Parents(k)[..level + 1];
      && Mkdir(fs, d).dirs == fs.dirs + {d} && Mkdir(fs, d).files == fs.files
      && TreeOk(Mkdir(fs, d)) && MadeTo(Mkdir(fs, d), k, level + 1)
  {
    hide ScanName;
    MkdirMakes(fs, k, level);
    assert MadeTo(Mkdir(fs, Parents(k)[..level + 1]), k, level + 1);
  }

  /** Where the directories exist, an exclusive create is possible exactly when the object is not stored. */
  lemma CreateIffAbsent(fs: Fs, store: map<Key, Bytes>, k: Key)
    requires TreeOk(fs) && Agrees(fs, store)
    ensures CanCreate(fs, TreePath(k)) <==> Parents(k) in fs.dirs && k !in store
    ensures k in store ==> Parents(k) in fs.dirs
  {
    hide ScanName;
    PathFacts(k);
  }

  /** Writing the file of one object changes that object alone. */
  lemma WriteAgrees(fs: Fs, store: map<Key, Bytes>, k: Key, bytes: Bytes)
    requires TreeOk(fs) && Agrees(fs, store) && Parents(k) in fs.dirs
    ensures TreeOk(WriteFile(fs, TreePath(k), bytes)) && Agrees(WriteFile(fs, TreePath(k), bytes), store[k := bytes])
  {
    hide TreePath, Named;
    PathFacts(k);
    forall j: Key ensures TreePath(j) == TreePath(k) ==> j == k {
      NamesDiffer(j, k);
    }
  }
}
