/** keel/workspace.py: snapshot, restore, restore_paths, diff over a flat map. */
module Workspaces {
  import opened Prelude

  // A canonical path under the workspace root, part by part.
  datatype Path = Path(parts: seq<string>)

  type Files = map<Path, string>

  const IGNORED_DIRS: set<string> := {"__pycache__", ".pytest_cache", ".venv", ".git"}

  /** list_files skips any path with an ignored part. */
  predicate Visible(p: Path) {
    forall i :: 0 <= i < |p.parts| ==> p.parts[i] !in IGNORED_DIRS
  }

  datatype Change = Added | Deleted | Modified

  // ---- What the operations compute -----------------------------------------

  function Snap(files: Files): (r: Files)
    ensures forall p :: p in r <==> p in files && Visible(p)
    ensures forall p :: p in r ==> r[p] == files[p]
  {
    map p | p in files && Visible(p) :: files[p]
  }

  ghost predicate VisibleOnly(snap: Files) {
    forall p :: p in snap ==> Visible(p)
  }

  /** The tree after restore: the snapshot, plus whatever list_files never lists. */
  function Restored(files: Files, snap: Files): Files {
    map p | p in files.Keys + snap.Keys && (p in snap || !Visible(p)) :: if p in snap then snap[p] else files[p]
  }

  function RestoreTouches(files: Files, snap: Files): set<Path> {
    (set p | p in snap && (p !in files || files[p] != snap[p])) +
    (set p | p in files && Visible(p) && p !in snap)
  }

  /** The tree after restore_paths: the listed paths put back or deleted, the rest alone. */
  function RestoredPaths(files: Files, snap: Files, paths: set<Path>): Files {
    map p | p in files.Keys + snap.Keys && (if p in paths then p in snap else p in files) ::
      if p in paths then snap[p] else files[p]
  }

  function RestorePathsTouches(files: Files, snap: Files, paths: set<Path>): set<Path> {
    set p | p in paths && (if p in snap then p !in files || files[p] != snap[p] else p in files)
  }

  function Drift(files: Files, snap: Files): map<Path, Change> {
    var current, before := Snap(files).Keys, snap.Keys;
    map p | p in current + before && (p in current && p in before ==> files[p] != snap[p]) ::
      if p !in before then Added else if p !in current then Deleted else Modified
  }

  /** A path is hidden as soon as one of its parts is an ignored directory, wherever it stands. */
  lemma VisibleThroughout(a: seq<string>, part: string, b: seq<string>)
    ensures Visible(Path(a + [part] + b)) <==> Visible(Path(a)) && part !in IGNORED_DIRS && Visible(Path(b))
  {
    var all := a + [part] + b;
    assert all[|a|] == part;
    assert forall i :: 0 <= i < |a| ==> all[i] == a[i];
    assert forall i :: 0 <= i < |b| ==> all[|a| + 1 + i] == b[i];
  }

  /** The drift says how each visible file would differ after a full restore, and leaves no difference out. */
  lemma DriftExplains(files: Files, snap: Files, p: Path)
    requires VisibleOnly(snap)
    ensures var d, back := Drift(files, snap), Restored(files, snap);
      && (p in d && d[p] == Added <==> p in files && p !in back)
      && (p in d && d[p] == Deleted <==> p !in files && p in back)
      && (p in d && d[p] == Modified <==> p in files && p in back && files[p] != back[p])
  {
  }

  lemma NothingRestored(files: Files, snap: Files)
    ensures RestoredPaths(files, snap, {}) == files && RestorePathsTouches(files, snap, {}) == {}
  {
  }

  /** Putting one more path back; a path listed twice is a no-op the second time. */
  lemma RestoreOneMore(files: Files, snap: Files, done: set<Path>, rel: Path)
    ensures var now := RestoredPaths(files, snap, done);
      && RestoredPaths(files, snap, done + {rel}) == (if rel in snap then now[rel := snap[rel]] else now - {rel})
      && RestorePathsTouches(files, snap, done + {rel}) ==
           RestorePathsTouches(files, snap, done) +
           (if (if rel in snap then rel !in now || now[rel] != snap[rel] else rel in now) then {rel} else {})
  {
    var now, next := RestoredPaths(files, snap, done), RestoredPaths(files, snap, done + {rel});
    assert forall p :: p != rel ==> (p in now <==> p in next);
  }

  // ---- The operations -----------------------------------------------------------

  class Workspace {
    var files: Files

    constructor (initial: Files)
      ensures files == initial
    {
      files := initial;
    }

    method Write(p: Path, content: string)
      modifies this
      ensures files == old(files)[p := content]
    {
      files := files[p := content];
    }

    method ListFiles() returns (found: set<Path>)
      ensures found == Snap(files).Keys
    {
      found := set p | p in files && Visible(p);
    }

    method Snapshot() returns (snap: Files)
      ensures snap == Snap(files) && VisibleOnly(snap)
    {
      var listed := ListFiles();
      snap := map p | p in listed :: files[p];
    }

    /** First half of restore: rewrite what drifted, recreate what was deleted. */
    method RewriteDrifted(snap: Files) returns (changed: set<Path>)
      modifies this
      ensures files == RestoredPaths(old(files), snap, snap.Keys)
      ensures changed == RestorePathsTouches(old(files), snap, snap.Keys)
    {
      changed := {};
      var todo := snap.Keys;
      ghost var done: set<Path> := {};
      NothingRestored(files, snap);
      while todo != {}
        invariant done + todo == snap.Keys
        invariant files == RestoredPaths(old(files), snap, done)
        invariant changed == RestorePathsTouches(old(files), snap, done)
        decreases todo
      {
        var rel :| rel in todo;
        RestoreOneMore(old(files), snap, done, rel);
        if !(rel in files && files[rel] == snap[rel]) {
          Write(rel, snap[rel]);
          changed := changed + {rel};
        }
        todo := todo - {rel};
        done := done + {rel};
      }
    }

    /** Second half: delete the listed files the snapshot does not have. */
    method DeleteAdded(snap: Files) returns (changed: set<Path>)
      modifies this
      ensures var extra := Snap(old(files)).Keys - snap.Keys;
        files == RestoredPaths(old(files), snap, extra) && changed == extra
    {
      changed := {};
      var listed := ListFiles();
      ghost var extra := listed - snap.Keys;
      NothingRestored(files, snap);
      while listed != {}
        invariant changed + (listed - snap.Keys) == extra
        invariant files == RestoredPaths(old(files), snap, changed)
        invariant changed !! snap.Keys
        decreases listed
      {
        var rel :| rel in listed;
        if rel !in snap {
          RestoreOneMore(old(files), snap, changed, rel);
          files := files - {rel};
          changed := changed + {rel};
        }
        listed := listed - {rel};
      }
      assert changed == extra;
    }

    method Restore(snap: Files) returns (changed: set<Path>)
      modifies this
      ensures files == Restored(old(files), snap)
      ensures changed == RestoreTouches(old(files), snap)
    {
      var rewritten := RewriteDrifted(snap);
      var deleted := DeleteAdded(snap);
      changed := rewritten + deleted;
    }

    method RestorePaths(snap: Files, paths: seq<Path>) returns (changed: set<Path>)
      modifies this
      ensures files == RestoredPaths(old(files), snap, ToSet(paths))
      ensures changed == RestorePathsTouches(old(files), snap, ToSet(paths))
    {
      changed := {};
      NothingRestored(files, snap);
      ghost var done: set<Path> := {};
      for i := 0 to |paths|
        invariant done == ToSet(paths[..i])
        invariant files == RestoredPaths(old(files), snap, done)
        invariant changed == RestorePathsTouches(old(files), snap, done)
      {
        var rel := paths[i];
        assert paths[..i + 1] == paths[..i] + [rel];
        RestoreOneMore(old(files), snap, done, rel);
        done := done + {rel};
        if rel !in snap {
          if rel in files {
            files := files - {rel};
            changed := changed + {rel};
          }
        } else if rel !in files || files[rel] != snap[rel] {
          Write(rel, snap[rel]);
          changed := changed + {rel};
        }
      }
      assert paths[..|paths|] == paths;
    }

    method Diff(snap: Files) returns (result: map<Path, Change>)
      ensures result == Drift(files, snap)
    {
      var current := ListFiles();
      var before := snap.Keys;
      result := map p | p in current - before :: Added;
      result := result + map p | p in before - current :: Deleted;
      result := result + map p | p in current * before && files[p] != snap[p] :: Modified;
    }
  }

  // ---- What they promise together ----------------------------------------------

  /** Restoring makes the visible tree equal the snapshot, reports exactly the diff, and settles at once. */
  lemma RestoreInvertsDrift(files: Files, snap: Files)
    requires VisibleOnly(snap)
    ensures Snap(Restored(files, snap)) == snap
    ensures forall p :: !Visible(p) ==> (p in Restored(files, snap) <==> p in files)
    ensures forall p :: !Visible(p) && p in files ==> Restored(files, snap)[p] == files[p]
    ensures RestoreTouches(files, snap) == Drift(files, snap).Keys
    ensures RestoreTouches(Restored(files, snap), snap) == {} && Drift(Restored(files, snap), snap) == map[]
    ensures Restored(Restored(files, snap), snap) == Restored(files, snap)
  {
    var r := Restored(files, snap);
    assert forall p :: p in Snap(r) <==> p in snap;
  }

  /** Only the listed paths move. */
  lemma RestorePathsFrame(files: Files, snap: Files, paths: set<Path>, p: Path)
    ensures p !in paths ==> (p in RestoredPaths(files, snap, paths) <==> p in files)
    ensures p !in paths && p in files ==> RestoredPaths(files, snap, paths)[p] == files[p]
    ensures p in paths ==> (p in RestoredPaths(files, snap, paths) <==> p in snap)
    ensures p in paths && p in snap ==> RestoredPaths(files, snap, paths)[p] == snap[p]
  {
  }

  /** A scoped restore reports exactly the paths it changes. */
  lemma RestorePathsReports(files: Files, snap: Files, paths: set<Path>, p: Path)
    ensures var after := RestoredPaths(files, snap, paths);
      p in RestorePathsTouches(files, snap, paths) <==>
        (p in files && p !in after) || (p !in files && p in after) || (p in files && p in after && files[p] != after[p])
  {
    RestorePathsFrame(files, snap, paths, p);
  }

  /** Rollbacks of disjoint path sets commute, whatever snapshots they use. */
  lemma RestorePathsCommute(files: Files, snap1: Files, paths1: set<Path>, snap2: Files, paths2: set<Path>)
    requires paths1 !! paths2
    ensures RestoredPaths(RestoredPaths(files, snap1, paths1), snap2, paths2)
         == RestoredPaths(RestoredPaths(files, snap2, paths2), snap1, paths1)
  {
    var a := RestoredPaths(RestoredPaths(files, snap1, paths1), snap2, paths2);
    var b := RestoredPaths(RestoredPaths(files, snap2, paths2), snap1, paths1);
    forall p
      ensures p in a <==> p in b
      ensures p in a ==> a[p] == b[p]
    {
      RestorePathsFrame(files, snap1, paths1, p);
      RestorePathsFrame(files, snap2, paths2, p);
    }
  }

  /**
   Exactly when a scoped rollback is as good as a full one: it covers the diff
   and names no existing file that snapshots cannot see.
   */
  lemma ScopedEqualsFull(files: Files, snap: Files, paths: set<Path>)
    requires VisibleOnly(snap)
    ensures RestoredPaths(files, snap, paths) == Restored(files, snap) <==>
      Drift(files, snap).Keys <= paths && forall p :: p in paths && p in files ==> Visible(p)
  {
    var a, b := RestoredPaths(files, snap, paths), Restored(files, snap);
    if Drift(files, snap).Keys <= paths && forall p :: p in paths && p in files ==> Visible(p) {
      forall p
        ensures p in a <==> p in b
        ensures p in a ==> a[p] == b[p]
      {
        RestorePathsFrame(files, snap, paths, p);
      }
    } else if p :| p in Drift(files, snap).Keys && p !in paths {
      RestorePathsFrame(files, snap, paths, p);
      assert p in b <==> p in snap;
    } else {
      var p :| p in paths && p in files && !Visible(p);
      RestorePathsFrame(files, snap, paths, p);
      assert p in b;
    }
  }
}
