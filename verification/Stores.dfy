/**
 * The two file drivers, updated in place (storage/storage_debug.c, storage/storage_dirtree.c). Both keep the same
 * promise.
 */
module Stores {
  import opened Common
  import opened Sample
  import opened Naming
  import opened FileTree

  lemma WorkspaceMade(fs: Fs, k: Key)
    requires TreeOk(fs)
    ensures MadeTo(fs, k, 0) && Parents(k)[..3] == Parents(k)
  {
    assert Parents(k)[..0] == [];
  }

  /** What an exclusive write of one object does to a flat map. */
  ghost predicate WroteOne(before: Key -> Option<Bytes>, after: Key -> Option<Bytes>, k: Key, bytes: Bytes, ok: bool) {
    && (ok <==> before(k).None?)
    && forall j :: after(j) == if ok && j == k then Some(bytes) else before(j)
  }

  /** storage_debug: every object in one directory. */
  class FlatStore {
    var files: map<string, Bytes>

    constructor ()
      ensures files == map[]
    {
      files := map[];
    }

    function Contents(): Key -> Option<Bytes>
      reads this
    {
      var now := files;
      k => if FlatName(k) in now then Some(now[FlatName(k)]) else None
    }

    /** storage_debug_write: open with O_EXCL, then write. */
    method Write(k: Key, s: SampleCell) returns (ok: bool)
      requires s.Valid()
      modifies this
      ensures WroteOne(old(Contents()), Contents(), k, s.Held(), ok)
    {
      var name := FlatName(k);
      ghost var before := Contents();
      if name in files {
        return false;
      }
      files := files[name := []];
      files := files[name := s.data[..s.len]];
      forall j ensures Contents()(j) == if j == k then Some(s.Held()) else before(j) {
        NamesDiffer(j, k);
      }
      return true;
    }

    /** storage_debug_read: the sample keeps what it held when there is no such object. */
    method Read(k: Key, s: SampleCell) returns (ok: bool)
      requires s.Valid() && (Contents()(k).Some? ==> |Contents()(k).value| <= LEN_MAX)
      modifies s`len, s.data
      ensures s.Valid() && (ok <==> Contents()(k).Some?)
      ensures s.Held() == if ok then Contents()(k).value else old(s.Held())
    {
      var name := FlatName(k);
      ok := name in files;
      if ok {
        s.Read(files[name]);
      }
    }

    /**
     * storage_debug_driver_destroy: it aborts exactly when some file has a name that does not scan, whatever the order
     * of the entries, and otherwise removes them all.
     */
    method Destroy() returns (aborted: bool)
      modifies this
      ensures aborted <==> exists name :: name in old(files) && ScanName(name).None?
      ensures !aborted ==> files == map[]
    {
      hide ScanName;
      while files != map[]
        invariant files.Keys <= old(files).Keys
        invariant forall name :: name in old(files) && name !in files ==> ScanName(name).Some?
        decreases files.Keys
      {
        var name :| name in files;
        if ScanName(name).None? {
          return true;
        }
        files := files - {name};
      }
      return false;
    }
  }

  /** storage_dirtree: directories made when they are first missed. */
  class TreeStore {
    var fs: Fs

    /** An empty workspace. */
    constructor ()
      ensures TreeOk(fs) && forall k :: Contents()(k).None?
    {
      fs := Fs({[]}, map[]);
    }

    function Contents(): Key -> Option<Bytes>
      reads this
    {
      var files := fs.files;
      k => if TreePath(k) in files then Some(files[TreePath(k)]) else None
    }

    /** open with O_CREAT, O_EXCL */
    method Open(k: Key) returns (ok: bool)
      requires TreeOk(fs)
      modifies this
      ensures ok == CanCreate(old(fs), TreePath(k))
      ensures fs == if ok then WriteFile(old(fs), TreePath(k), []) else old(fs)
    {
      ok := CanCreate(fs, TreePath(k));
      if ok {
        fs := WriteFile(fs, TreePath(k), []);
      }
    }

    /** storage_dirtree_pathgen: each mkdir may find its directory there already. */
    method MakePath(k: Key)
      requires TreeOk(fs)
      modifies this
      ensures TreeOk(fs) && fs.files == old(fs.files)
      ensures fs.dirs == old(fs.dirs) + {Parents(k)[..1], Parents(k)[..2], Parents(k)}
    {
      hide Mkdir, TreeOk;
      WorkspaceMade(fs, k);
      hide Parents;
      MakesOrFinds(fs, k, 0);
      fs := Mkdir(fs, Parents(k)[..1]);
      MakesOrFinds(fs, k, 1);
      fs := Mkdir(fs, Parents(k)[..2]);
      MakesOrFinds(fs, k, 2);
      fs := Mkdir(fs, Parents(k)[..3]);
    }

    /** storage_dirtree.c:221-233: open, and when that fails make the path and open again. */
    method OpenWithPath(k: Key) returns (ok: bool)
      requires TreeOk(fs)
      modifies this
      ensures TreeOk(fs) && Parents(k) in fs.dirs
      ensures fs.dirs == old(fs.dirs) + if ok && Parents(k) in old(fs.dirs) then {}
                                        else {Parents(k)[..1], Parents(k)[..2], Parents(k)}
      ensures ok <==> TreePath(k) !in old(fs.files)
      ensures fs.files == if ok then old(fs.files)[TreePath(k) := []] else old(fs.files)
    {
      hide TreePath, Named;
      PathFacts(k);
      ok := Open(k);
      if !ok {
        MakePath(k);
        ok := Open(k);
      }
    }

    /** storage_dirtree_write: open, make the path and open again, then write. */
    method Write(k: Key, s: SampleCell) returns (ok: bool)
      requires TreeOk(fs) && s.Valid()
      modifies this
      ensures TreeOk(fs)
      ensures fs.dirs == old(fs.dirs) + if ok && Parents(k) in old(fs.dirs) then {}
                                        else {Parents(k)[..1], Parents(k)[..2], Parents(k)}
      ensures WroteOne(old(Contents()), Contents(), k, s.Held(), ok)
    {
      hide TreePath, Named;
      ghost var before := Contents();
      PathFacts(k);
      ok := OpenWithPath(k);
      if !ok {
        return;
      }
      fs := WriteFile(fs, TreePath(k), s.data[..s.len]);
      forall j ensures Contents()(j) == if j == k then Some(s.Held()) else before(j) {
        NamesDiffer(j, k);
      }
    }

    /** storage_dirtree_read */
    method Read(k: Key, s: SampleCell) returns (ok: bool)
      requires s.Valid() && (Contents()(k).Some? ==> |Contents()(k).value| <= LEN_MAX)
      modifies s`len, s.data
      ensures s.Valid() && (ok <==> Contents()(k).Some?)
      ensures s.Held() == if ok then Contents()(k).value else old(s.Held())
    {
      var path := TreePath(k);
      ok := path in fs.files;
      if ok {
        s.Read(fs.files[path]);
      }
    }
  }
}
