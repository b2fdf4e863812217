/** Copying a list of files under a destination: which directories to make first, and in which order. */
module FileTree {

  // A relative path, by components; the empty path is the destination itself.
  type Path = seq<string>

  function Parent(path: Path): Path
    requires path != []
  {
    path[..|path| - 1]
  }

  /** All the directories above a path, the destination included. */
  function Parents(path: Path): set<Path> {
    set n | 0 <= n < |path| :: path[..n]
  }

  // ----- The directories to make -----

  ghost predicate ByDepth(dirs: seq<Path>) {
    forall i, j | 0 <= i < j < |dirs| :: |dirs[i]| <= |dirs[j]|
  }

  ghost predicate Distinct(dirs: seq<Path>) {
    forall i, j | 0 <= i < j < |dirs| :: dirs[i] != dirs[j]
  }

  /** The directories of these files, but for the destination. */
  ghost predicate IsDirOf(files: seq<Path>, dir: Path) {
    dir != [] && exists file | file in files :: |dir| < |file| && file[..|dir|] == dir
  }

  /** Every directory comes after its parent, which is among them unless it is the destination. */
  ghost predicate ParentsFirst(dirs: seq<Path>) {
    forall i | 0 <= i < |dirs| ::
      dirs[i] != [] && (|dirs[i]| > 1 ==> exists j | 0 <= j < i :: dirs[j] == dirs[i][..|dirs[i]| - 1])
  }

  /** The directories in some order by depth: which one among those of the same depth does not matter. */
  method SortByDepth(dirs: set<Path>) returns (sorted: seq<Path>)
    ensures ByDepth(sorted) && Distinct(sorted)
    ensures forall dir :: dir in sorted <==> dir in dirs
  {
    sorted := [];
    var todo := dirs;
    while todo != {}
      invariant todo <= dirs
      invariant ByDepth(sorted) && Distinct(sorted)
      invariant forall dir :: dir in dirs <==> dir in todo || dir in sorted
      invariant forall dir, done | dir in todo && done in sorted :: |done| <= |dir| && done != dir
      decreases |todo|
    {
      ShallowestExists(todo);
      var dir :| dir in todo && forall other | other in todo :: |dir| <= |other|;
      todo := todo - {dir};
      sorted := sorted + [dir];
    }
  }

  lemma {:induction false} ShallowestExists(dirs: set<Path>)
    requires dirs != {}
    ensures exists dir | dir in dirs :: forall other | other in dirs :: |dir| <= |other|
  {
    var some :| some in dirs;
    var rest := dirs - {some};
    if rest == {} {
      assert dirs == {some};
    } else {
      ShallowestExists(rest);
      var least :| least in rest && forall other | other in rest :: |least| <= |other|;
      var dir := if |some| <= |least| then some else least;
      assert forall other | other in dirs :: other == some || other in rest;
      assert dir in dirs && forall other | other in dirs :: |dir| <= |other|;
    }
  }

  method ComputeDirTree(files: seq<Path>) returns (dirs: seq<Path>)
    ensures forall dir :: dir in dirs <==> IsDirOf(files, dir)
    ensures ByDepth(dirs) && Distinct(dirs) && ParentsFirst(dirs)
  {
    var found: set<Path> := {};
    for i := 0 to |files|
      invariant forall dir :: dir in found <==> exists j | 0 <= j < i :: dir in Parents(files[j])
    {
      found := found + Parents(files[i]);
    }
    found := found - {[]};
    dirs := SortByDepth(found);
    assert forall dir :: dir in dirs <==> IsDirOf(files, dir);
    DepthMeansParentsFirst(files, dirs);
  }

  /** The directories above a path are those that it starts with. */
  lemma ParentsMean(path: Path, dir: Path)
    ensures dir in Parents(path) <==> |dir| < |path| && path[..|dir|] == dir
  {
  }

  /** Sorting by depth is enough to put every parent before its children. */
  lemma DepthMeansParentsFirst(files: seq<Path>, dirs: seq<Path>)
    requires forall dir :: dir in dirs <==> IsDirOf(files, dir)
    requires ByDepth(dirs)
    ensures ParentsFirst(dirs)
  {
    forall i | 0 <= i < |dirs|
      ensures dirs[i] != [] && (|dirs[i]| > 1 ==> exists j | 0 <= j < i :: dirs[j] == dirs[i][..|dirs[i]| - 1])
    {
      assert dirs[i] in dirs;
      if |dirs[i]| > 1 {
        var dir, n := dirs[i], |dirs[i]| - 1;
        var file :| file in files && |dir| < |file| && file[..|dir|] == dir;
        assert file[..n] == dir[..n];
        assert IsDirOf(files, dir[..n]);
        var j :| 0 <= j < |dirs| && dirs[j] == dir[..n];
        assert j < i;
      }
    }
  }

  // ----- Making them -----

  // What is under the destination, the destination itself being the empty path.
  class FileSystem {
    var dirs: set<Path>
    var files: set<Path>

    constructor (dirs: set<Path>, files: set<Path>)
      ensures this.dirs == dirs && this.files == files
    {
      this.dirs, this.files := dirs, files;
    }

    /** Make a directory in an existing one; a directory that exists already is fine, a file is not. */
    method Mkdir(path: Path) returns (ok: bool)
      modifies this`dirs
      ensures ok <==> old(CanMake(path))
      ensures dirs == if ok then old(dirs) + {path} else old(dirs)
    {
      ok := path !in files && (path in dirs || (path != [] && Parent(path) in dirs));
      if ok {
        dirs := dirs + {path};
      }
    }

    predicate CanMake(path: Path)
      reads this
    {
      path !in files && (path in dirs || (path != [] && path[..|path| - 1] in dirs))
    }

    /** Make the directories in order, and stop at the first one that cannot be made. */
    method Mkdirs(targets: seq<Path>) returns (ok: bool)
      requires ParentsFirst(targets)
      requires [] in dirs
      modifies this`dirs
      ensures ok <==> forall target | target in targets :: target !in files
      ensures ok ==> dirs == old(dirs) + (set target | target in targets)
      ensures old(dirs) <= dirs <= old(dirs) + (set target | target in targets)
    {
      for i := 0 to |targets|
        invariant dirs == old(dirs) + (set target | target in targets[..i])
        invariant forall target | target in targets[..i] :: target !in files
      {
        ghost var before := targets[..i];
        if |targets[i]| == 1 {
          assert Parent(targets[i]) == [];
        } else {
          var j :| 0 <= j < i && targets[j] == Parent(targets[i]);
          assert targets[j] in before;
        }
        assert targets[..i + 1] == before + [targets[i]];
        var made := Mkdir(targets[i]);
        if !made {
          assert targets[i] in targets && targets[i] in files;
          return false;
        }
      }
      assert targets[..|targets|] == targets;
      ok := true;
    }
  }

  /**
   Making the directories of some files under an existing destination: it works unless
   a file is in the way, leaves a directory for every file to be copied into, and
   making them again changes nothing.
   */
  method MakeTree(fs: FileSystem, files: seq<Path>) returns (ok: bool)
    requires [] in fs.dirs
    modifies fs`dirs
    ensures ok <==> forall dir | IsDirOf(files, dir) :: dir !in fs.files
    ensures ok ==> forall file | file in files && file != [] :: file[..|file| - 1] in fs.dirs
    ensures ok ==> forall dir :: dir in fs.dirs <==> dir in old(fs.dirs) || IsDirOf(files, dir)
    ensures (forall dir | IsDirOf(files, dir) :: dir in old(fs.dirs)) ==> fs.dirs == old(fs.dirs)
  {
    var dirs := ComputeDirTree(files);
    ok := fs.Mkdirs(dirs);
    if ok {
      forall file | file in files && file != [] ensures file[..|file| - 1] in fs.dirs {
        var dir := file[..|file| - 1];
        assert file[..|dir|] == dir;
        assert dir == [] || IsDirOf(files, dir);
      }
    }
  }
}
