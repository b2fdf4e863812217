/**
 Selecting, for every package given on the command line, the package versions to
 download: those of the package itself and of everything it depends on.
 */
module PackageClosure {
  import opened Results

  // `rank` is the version's place in the order of Debian versions; `dependencies`
  // lists groups of alternatives, by package name.
  datatype Version = Version(version: string, sha256: string, rank: int, dependencies: seq<seq<string>>)

  // `packages` gives the versions of each package in the order they are listed.
  datatype Cache = Cache(packages: map<string, seq<Version>>, virtuals: set<string>)

  datatype Error = NoSuchPackage | NoVersion | VersionNotFound

  // What the user asked for: `name=version`, or just `name`.
  datatype Root = Root(name: string, version: string)

  // ----- Choosing one version -----

  predicate OccursAt(text: string, part: string, i: nat) {
    i + |part| <= |text| && text[i..i + |part|] == part
  }

  predicate Contains(text: string, part: string) {
    exists i | 0 <= i <= |text| :: OccursAt(text, part, i)
  }

  function Newest(versions: seq<Version>): Version
    requires versions != []
  {
    var n := |versions| - 1;
    if n == 0 then versions[0]
    else
      var best := Newest(versions[..n]);
      if versions[n].rank >= best.rank then versions[n] else best
  }

  /** Where the newest version is listed: of equally new ones, the last counts. */
  lemma {:induction false} NewestAt(versions: seq<Version>) returns (i: nat)
    requires versions != []
    ensures i < |versions| && versions[i] == Newest(versions)
    ensures forall j | 0 <= j <= i :: versions[j].rank <= versions[i].rank
    ensures forall j | i < j < |versions| :: versions[j].rank < versions[i].rank
  {
    var n := |versions| - 1;
    i := n;
    if n > 0 {
      var best := NewestAt(versions[..n]);
      assert forall j | 0 <= j < n :: versions[j] == versions[..n][j] && versions[j].rank <= versions[best].rank;
      if versions[n].rank < versions[best].rank {
        i := best;
      }
    }
  }

  lemma NewestIsNewest(versions: seq<Version>)
    requires versions != []
    ensures Newest(versions) in versions
    ensures forall v | v in versions :: v.rank <= Newest(versions).rank
  {
    var i := NewestAt(versions);
  }

  function FirstContaining(versions: seq<Version>, part: string): Result<Version, Error> {
    if versions == [] then Err(VersionNotFound)
    else if Contains(versions[0].version, part) then Ok(versions[0])
    else FirstContaining(versions[1..], part)
  }

  /** The version found contains the wanted text and none listed before it does; none is found only if there is none. */
  lemma {:induction false} FirstContainingIsFirst(versions: seq<Version>, part: string)
    ensures FirstContaining(versions, part).Ok? ==>
              exists i | 0 <= i < |versions| ::
                && versions[i] == FirstContaining(versions, part).value
                && Contains(versions[i].version, part)
                && forall j | 0 <= j < i :: !Contains(versions[j].version, part)
    ensures FirstContaining(versions, part).Err? <==> forall v | v in versions :: !Contains(v.version, part)
  {
    hide Contains;
    if versions != [] && !Contains(versions[0].version, part) {
      var rest := versions[1..];
      FirstContainingIsFirst(rest, part);
      assert versions == [versions[0]] + rest;
      if FirstContaining(rest, part).Ok? {
        var i :| 0 <= i < |rest| && rest[i] == FirstContaining(rest, part).value
                 && Contains(rest[i].version, part) && forall j | 0 <= j < i :: !Contains(rest[j].version, part);
        assert versions[i + 1] == rest[i];
        forall j | 0 <= j < i + 1 ensures !Contains(versions[j].version, part) {
          assert j > 0 ==> versions[j] == rest[j - 1];
        }
      }
    }
  }

  lemma SelectedIsListed(versions: seq<Version>, wanted: Option<string>)
    ensures SelectVersion(versions, wanted).Ok? ==> SelectVersion(versions, wanted).value in versions
  {
    match wanted
    case None => if versions != [] { NewestIsNewest(versions); }
    case Some(part) => FirstContainingIsFirst(versions, part);
  }

  function SelectVersion(versions: seq<Version>, wanted: Option<string>): Result<Version, Error> {
    match wanted
    case None => if versions == [] then Err(NoVersion) else Ok(Newest(versions))
    case Some(part) => FirstContaining(versions, part)
  }

  /** The text before the first `=`, and the text after it. */
  function Partition(text: string): Root {
    if text == "" then Root("", "")
    else if text[0] == '=' then Root("", text[1..])
    else
      var rest := Partition(text[1..]);
      Root([text[0]] + rest.name, rest.version)
  }

  lemma {:induction false} PartitionIsFirst(text: string)
    ensures '=' !in Partition(text).name
    ensures '=' in text ==> text == Partition(text).name + ['='] + Partition(text).version
    ensures '=' !in text ==> Partition(text) == Root(text, "")
  {
    if text != "" {
      assert text == [text[0]] + text[1..];
      if text[0] != '=' {
        PartitionIsFirst(text[1..]);
      }
    }
  }

  // ----- Closure -----

  /** The version a download started from `root` takes for a package. */
  function Chosen(cache: Cache, root: Root, name: string): Result<Version, Error> {
    if name !in cache.packages then Err(NoSuchPackage)
    else SelectVersion(cache.packages[name], if name == root.name then Some(root.version) else None)
  }

  function Flatten(groups: seq<seq<string>>): seq<string> {
    if groups == [] then [] else groups[0] + Flatten(groups[1..])
  }

  lemma {:induction false} FlattenHoldsAll(groups: seq<seq<string>>, name: string)
    ensures name in Flatten(groups) <==> exists group | group in groups :: name in group
  {
    if groups != [] {
      FlattenHoldsAll(groups[1..], name);
      assert groups == [groups[0]] + groups[1..];
    }
  }

  /** A version depends on a package that has a file of its own. */
  predicate Needs(cache: Cache, v: Version, name: string) {
    name !in cache.virtuals && exists group | group in v.dependencies :: name in group
  }

  ghost predicate Follows(cache: Cache, root: Root, path: seq<string>, i: nat)
    requires 0 < i < |path|
  {
    Chosen(cache, root, path[i - 1]).Ok? && Needs(cache, Chosen(cache, root, path[i - 1]).value, path[i])
  }

  ghost predicate IsPath(cache: Cache, root: Root, path: seq<string>) {
    && path != [] && path[0] == root.name
    && forall i | 0 < i < |path| :: Follows(cache, root, path, i)
  }

  ghost predicate Reachable(cache: Cache, root: Root, name: string) {
    exists path: seq<string> | IsPath(cache, root, path) :: path[|path| - 1] == name
  }

  /** The versions of the closure of `root`. */
  ghost predicate InClosure(cache: Cache, root: Root, v: Version) {
    exists name :: Reachable(cache, root, name) && Chosen(cache, root, name) == Ok(v)
  }

  /** Everything that is needed can be found. */
  ghost predicate Complete(cache: Cache, root: Root) {
    forall name :: Reachable(cache, root, name) ==> Chosen(cache, root, name).Ok?
  }

  predicate Listed(cache: Cache, v: Version) {
    exists name | name in cache.packages :: v in cache.packages[name]
  }

  /** No two different versions have the same checksum. */
  ghost predicate HashesIdentify(cache: Cache) {
    forall v, w | Listed(cache, v) && Listed(cache, w) && v.sha256 == w.sha256 :: v == w
  }

  lemma RootReachable(cache: Cache, root: Root)
    ensures Reachable(cache, root, root.name)
  {
    assert IsPath(cache, root, [root.name]);
  }

  lemma NeededReachable(cache: Cache, root: Root, from: string, name: string)
    requires Reachable(cache, root, from)
    requires Chosen(cache, root, from).Ok? && Needs(cache, Chosen(cache, root, from).value, name)
    ensures Reachable(cache, root, name)
  {
    hide Chosen, Needs;
    var path :| IsPath(cache, root, path) && path[|path| - 1] == from;
    var longer := path + [name];
    assert forall i | 0 <= i < |path| :: longer[i] == path[i];
    forall i | 0 < i < |longer| ensures Follows(cache, root, longer, i) {
      assert i < |path| ==> Follows(cache, root, path, i);
    }
    assert IsPath(cache, root, longer);
  }

  lemma PathPrefix(cache: Cache, root: Root, path: seq<string>)
    requires IsPath(cache, root, path) && |path| > 1
    ensures IsPath(cache, root, path[..|path| - 1])
    ensures Follows(cache, root, path, |path| - 1)
  {
    hide Chosen, Needs;
    var prefix := path[..|path| - 1];
    forall i | 0 < i < |prefix| ensures Follows(cache, root, prefix, i) {
      assert Follows(cache, root, path, i);
    }
  }

  /** Something needed cannot be chosen, for this reason; the closure is then incomplete. */
  ghost predicate Fails(cache: Cache, root: Root, error: Error) {
    exists name :: Reachable(cache, root, name) && Chosen(cache, root, name) == Err(error)
  }

  lemma BrokenFails(cache: Cache, root: Root, name: string)
    requires Reachable(cache, root, name) && Chosen(cache, root, name).Err?
    ensures Fails(cache, root, Chosen(cache, root, name).error)
  {
  }

  lemma MissingFails(cache: Cache, root: Root, name: string)
    requires Reachable(cache, root, name) && name !in cache.packages
    ensures Fails(cache, root, NoSuchPackage)
  {
    BrokenFails(cache, root, name);
  }

  lemma FailingIsIncomplete(cache: Cache, root: Root)
    ensures Complete(cache, root) <==> forall error: Error :: !Fails(cache, root, error)
  {
    if !Complete(cache, root) {
      var name :| Reachable(cache, root, name) && Chosen(cache, root, name).Err?;
      BrokenFails(cache, root, name);
    }
  }

  /** A property of the root's name that passes from a package to those it needs holds of all reachable names. */
  lemma {:induction false} ReachableInduction(cache: Cache, root: Root, names: iset<string>, path: seq<string>)
    requires IsPath(cache, root, path)
    requires root.name in names
    requires forall m, n | m in names && Chosen(cache, root, m).Ok? && Needs(cache, Chosen(cache, root, m).value, n)
               :: n in names
    ensures path[|path| - 1] in names
  {
    if |path| > 1 {
      PathPrefix(cache, root, path);
      ReachableInduction(cache, root, names, path[..|path| - 1]);
    }
  }

  /** The closure holds the root's version and, if nothing is missing, the versions its members need. */
  lemma ClosureIsClosed(cache: Cache, root: Root)
    requires Complete(cache, root)
    ensures Chosen(cache, root, root.name).Ok?
    ensures InClosure(cache, root, Chosen(cache, root, root.name).value)
    ensures forall v, name | InClosure(cache, root, v) && Needs(cache, v, name) ::
              Chosen(cache, root, name).Ok? && InClosure(cache, root, Chosen(cache, root, name).value)
  {
    RootReachable(cache, root);
    forall v, name | InClosure(cache, root, v) && Needs(cache, v, name)
      ensures Chosen(cache, root, name).Ok? && InClosure(cache, root, Chosen(cache, root, name).value)
    {
      var from :| Reachable(cache, root, from) && Chosen(cache, root, from) == Ok(v);
      NeededReachable(cache, root, from, name);
    }
  }

  /** Nothing smaller than the closure holds the root's version and is closed. */
  lemma ClosureIsLeast(cache: Cache, root: Root, versions: iset<Version>, v: Version)
    requires Chosen(cache, root, root.name).Ok? ==> Chosen(cache, root, root.name).value in versions
    requires forall u, name | u in versions && Needs(cache, u, name) && Chosen(cache, root, name).Ok? ::
               Chosen(cache, root, name).value in versions
    requires InClosure(cache, root, v)
    ensures v in versions
  {
    var names := iset name: string | Chosen(cache, root, name).Ok? ==> Chosen(cache, root, name).value in versions;
    var name :| Reachable(cache, root, name) && Chosen(cache, root, name) == Ok(v);
    var path :| IsPath(cache, root, path) && path[|path| - 1] == name;
    ReachableInduction(cache, root, names, path);
  }

  /** The text holds the part somewhere. */
  ghost predicate Holds(text: string, part: string) {
    exists before: string, after: string :: text == before + part + after
  }

  lemma ContainsMeansHolds(text: string, part: string)
    ensures Contains(text, part) <==> Holds(text, part)
  {
    if Contains(text, part) {
      var i :| 0 <= i <= |text| && OccursAt(text, part, i);
      assert text == text[..i] + part + text[i + |part|..];
    }
    if before: string, after: string :| text == before + part + after {
      assert OccursAt(text, part, |before|);
    }
  }

  /** `v` is the version listed first among those that hold the text. */
  ghost predicate IsFirstHolding(versions: seq<Version>, part: string, v: Version) {
    exists i | 0 <= i < |versions| ::
      && versions[i] == v && Holds(v.version, part)
      && forall j | 0 <= j < i :: !Holds(versions[j].version, part)
  }

  /** `v` is a version listed than which none is newer. */
  ghost predicate IsNewest(versions: seq<Version>, v: Version) {
    exists i | 0 <= i < |versions| ::
      && versions[i] == v
      && (forall j | 0 <= j <= i :: versions[j].rank <= v.rank)
      && (forall j | i < j < |versions| :: versions[j].rank < v.rank)
  }

  /** What is chosen for the root: the first version listed that holds the text asked for, or an error if none does. */
  lemma RootChosen(cache: Cache, root: Root)
    requires root.name in cache.packages
    ensures Chosen(cache, root, root.name).Err? <==>
            forall v | v in cache.packages[root.name] :: !Holds(v.version, root.version)
    ensures match Chosen(cache, root, root.name)
            case Err(error) => error == VersionNotFound
            case Ok(v) => IsFirstHolding(cache.packages[root.name], root.version, v)
  {
    var versions := cache.packages[root.name];
    FirstContainingIsFirst(versions, root.version);
    forall v | v in versions ensures Contains(v.version, root.version) <==> Holds(v.version, root.version) {
      ContainsMeansHolds(v.version, root.version);
    }
    FirstContainingFails(versions, root.version);
  }

  lemma {:induction false} FirstContainingFails(versions: seq<Version>, part: string)
    ensures FirstContaining(versions, part).Err? ==> FirstContaining(versions, part).error == VersionNotFound
  {
    if versions != [] {
      FirstContainingFails(versions[1..], part);
    }
  }

  /** What is chosen for any other package: its newest version, or an error if it has none. */
  lemma DependencyChosen(cache: Cache, root: Root, name: string)
    requires name in cache.packages && name != root.name
    ensures Chosen(cache, root, name).Err? <==> cache.packages[name] == []
    ensures match Chosen(cache, root, name)
            case Err(error) => error == NoVersion
            case Ok(v) => IsNewest(cache.packages[name], v)
  {
    if cache.packages[name] != [] {
      var i := NewestAt(cache.packages[name]);
    }
  }

  /** A text that asks for a version is read as the name before the first `=` and the version after it. */
  lemma {:induction false} NamedVersion(name: string, version: string)
    requires '=' !in name
    ensures Partition(name + ['='] + version) == Root(name, version)
  {
    var text := name + ['='] + version;
    if name == "" {
      assert text[1..] == version;
    } else {
      NamedVersion(name[1..], version);
      assert text[1..] == name[1..] + ['='] + version && name == [name[0]] + name[1..];
    }
  }

  /** A root named without a version takes the first version listed, whether or not it is the newest. */
  lemma RootWithoutVersion(cache: Cache, text: string)
    requires '=' !in text && text in cache.packages && cache.packages[text] != []
    ensures Chosen(cache, Partition(text), text) == Ok(cache.packages[text][0])
    ensures Chosen(cache, Partition(text), text) == SelectVersion(cache.packages[text], None) <==>
            cache.packages[text][0] == Newest(cache.packages[text])
  {
    PartitionIsFirst(text);
    EmptyPartContained(cache.packages[text][0].version);
  }

  // A package with two versions, the older of which is listed first.
  const OLD_VERSION := Version("1", "a", 1, [])
  const NEW_VERSION := Version("2", "b", 2, [])
  const TWO_VERSIONS := Cache(map["p" := [OLD_VERSION, NEW_VERSION]], {})

  /** So a root can take an older version than the same package does when something else depends on it. */
  lemma OldestTaken(root: Root)
    requires root.name != "p"
    ensures Chosen(TWO_VERSIONS, Partition("p"), "p") == Ok(OLD_VERSION)
    ensures Chosen(TWO_VERSIONS, root, "p") == Ok(NEW_VERSION)
  {
    var versions := TWO_VERSIONS.packages["p"];
    assert versions[..1] == [OLD_VERSION] && Newest(versions[..1]) == OLD_VERSION;
    RootWithoutVersion(TWO_VERSIONS, "p");
  }

  lemma EmptyPartContained(text: string)
    ensures Contains(text, "")
  {
    assert OccursAt(text, "", 0);
  }

  // ----- Traversal -----

  ghost function Hashes(cache: Cache): set<string> {
    set name, v | name in cache.packages && v in cache.packages[name] :: v.sha256
  }

  type Found = map<string, Version>

  /** The map holds the versions of the closure, and nothing else. */
  ghost predicate IsClosure(cache: Cache, root: Root, found: Found) {
    forall v :: v in found.Values <==> InClosure(cache, root, v)
  }

  /** All that was found belongs to the closure, and is filed under its own checksum. */
  ghost predicate Sound(cache: Cache, root: Root, found: Found) {
    forall h | h in found :: found[h].sha256 == h && InClosure(cache, root, found[h])
  }

  ghost predicate Visited(cache: Cache, root: Root, found: Found, name: string) {
    Chosen(cache, root, name).Ok? && Chosen(cache, root, name).value.sha256 in found
  }

  /** Every need of what was found is either waiting on the stack or visited. */
  ghost predicate Frontier(cache: Cache, root: Root, found: Found, stack: seq<string>) {
    forall h, name | h in found && Needs(cache, found[h], name) :: name in stack || Visited(cache, root, found, name)
  }

  ghost predicate OnStack(cache: Cache, root: Root, stack: seq<string>) {
    forall name | name in stack :: name in cache.packages && Reachable(cache, root, name)
  }

  lemma {:induction false} AllVisited(cache: Cache, root: Root, found: Found, path: seq<string>)
    requires HashesIdentify(cache) && Sound(cache, root, found)
    requires Frontier(cache, root, found, []) && Visited(cache, root, found, root.name)
    requires IsPath(cache, root, path)
    ensures Visited(cache, root, found, path[|path| - 1])
  {
    hide Chosen, Needs;
    var n := |path| - 1;
    if n > 0 {
      var from := path[n - 1];
      PathPrefix(cache, root, path);
      AllVisited(cache, root, found, path[..n]);
      FiledUnderItsHash(cache, root, found, from);
    }
  }

  lemma FiledUnderItsHash(cache: Cache, root: Root, found: Found, name: string)
    requires HashesIdentify(cache) && Sound(cache, root, found)
    requires Visited(cache, root, found, name)
    ensures found[Chosen(cache, root, name).value.sha256] == Chosen(cache, root, name).value
  {
    var h := Chosen(cache, root, name).value.sha256;
    var other :| Reachable(cache, root, other) && Chosen(cache, root, other) == Ok(found[h]);
    ChosenListed(cache, root, name);
    ChosenListed(cache, root, other);
  }

  lemma ChosenListed(cache: Cache, root: Root, name: string)
    ensures Chosen(cache, root, name).Ok? ==>
              && Listed(cache, Chosen(cache, root, name).value)
              && Chosen(cache, root, name).value.sha256 in Hashes(cache)
  {
    if name in cache.packages {
      SelectedIsListed(cache.packages[name], if name == root.name then Some(root.version) else None);
    }
  }

  /** Push the needs of a version on the stack, unless one of them is not in the cache. */
  method PushNeeds(cache: Cache, ghost root: Root, ghost package: string, v: Version, stack: seq<string>)
    returns (ok: bool, stack': seq<string>)
    requires OnStack(cache, root, stack)
    requires Reachable(cache, root, package) && Chosen(cache, root, package) == Ok(v)
    ensures OnStack(cache, root, stack')
    ensures forall name | name in stack :: name in stack'
    ensures ok ==> forall name | Needs(cache, v, name) :: name in stack'
    ensures !ok ==> Fails(cache, root, NoSuchPackage)
  {
    hide Chosen;
    stack' := stack;
    var names := Flatten(v.dependencies);
    for i := 0 to |names|
      invariant OnStack(cache, root, stack')
      invariant forall name | name in stack :: name in stack'
      invariant forall j | 0 <= j < i && names[j] !in cache.virtuals :: names[j] in stack'
    {
      if names[i] in cache.virtuals {
        continue;
      }
      FlattenHoldsAll(v.dependencies, names[i]);
      NeededReachable(cache, root, package, names[i]);
      if names[i] !in cache.packages {
        MissingFails(cache, root, names[i]);
        ok := false;
        return;
      }
      stack' := stack' + [names[i]];
    }
    forall name | Needs(cache, v, name) ensures name in stack' {
      FlattenHoldsAll(v.dependencies, name);
    }
    ok := true;
  }

  /** Among what was found is the version of the root: the first one listed that holds the text asked for. */
  ghost predicate HoldsRoot(cache: Cache, root: Root, found: Found) {
    && root.name in cache.packages
    && exists v :: IsFirstHolding(cache.packages[root.name], root.version, v)
                   && v.sha256 in found && (HashesIdentify(cache) ==> found[v.sha256] == v)
  }

  lemma RootFound(cache: Cache, root: Root, found: Found)
    requires Traversing(cache, root, found, []) && root.name in cache.packages
    ensures HoldsRoot(cache, root, found)
  {
    hide Chosen, Reachable, IsFirstHolding, Frontier, Needs;
    RootChosen(cache, root);
    if HashesIdentify(cache) {
      RootReachable(cache, root);
      FiledUnderItsHash(cache, root, found, root.name);
    }
  }

  /** No version listed for the root holds the text asked for. */
  ghost predicate NoneHolds(cache: Cache, root: Root) {
    root.name in cache.packages && forall v | v in cache.packages[root.name] :: !Holds(v.version, root.version)
  }

  /** Only the root can be asked for in a version that does not exist. */
  lemma OnlyRootNotFound(cache: Cache, root: Root)
    requires Fails(cache, root, VersionNotFound)
    ensures NoneHolds(cache, root)
  {
    var name :| Reachable(cache, root, name) && Chosen(cache, root, name) == Err(VersionNotFound);
    if name != root.name {
      DependencyChosen(cache, root, name);
    } else {
      RootChosen(cache, root);
    }
  }

  /**
   The closure of the root named by `text`, or an error. An error means that
   something needed is missing; a result holds nothing outside the closure, and
   all of it provided checksums identify versions.
   */
  method GetPackageDeps(text: string, cache: Cache) returns (r: Result<Found, Error>)
    ensures r.Err? ==> Fails(cache, Partition(text), r.error)
    ensures r.Ok? ==> Sound(cache, Partition(text), r.value)
    ensures r.Ok? ==> HoldsRoot(cache, Partition(text), r.value)
    ensures r == Err(VersionNotFound) <==> NoneHolds(cache, Partition(text))
    ensures r.Ok? && HashesIdentify(cache) ==>
              Complete(cache, Partition(text)) && IsClosure(cache, Partition(text), r.value)
  {
    hide Needs, SelectVersion, Partition, Reachable, Complete, Fails, HashesIdentify, IsClosure, Traversing, OnStack,
         Sound, HoldsRoot, IsFirstHolding, Holds;
    var found: Found := map[];
    var root := Partition(text);
    RootReachable(cache, root);
    if root.name !in cache.packages {
      MissingFails(cache, root, root.name);
      r := Err(NoSuchPackage);
      return;
    }
    var stack := [root.name];
    TraversalStarts(cache, root);
    RootChosen(cache, root);
    while stack != []
      invariant Traversing(cache, root, found, stack)
      invariant Chosen(cache, root, root.name).Ok? || stack == [root.name]
      decreases |Hashes(cache) - found.Keys|, |stack|
    {
      TopOfStack(cache, root, found, stack);
      var package := stack[|stack| - 1];
      ghost var before := stack;
      stack := stack[..|stack| - 1];
      var candidate :=
        SelectVersion(cache.packages[package], if package == root.name then Some(root.version) else None);
      if candidate.Err? {
        BrokenFails(cache, root, package);
        r := Err(candidate.error);
        if r.error == VersionNotFound {
          OnlyRootNotFound(cache, root);
        }
        return;
      }
      var v := candidate.value;
      if v.sha256 in found {
        TraversalPops(cache, root, found, before);
        continue;
      }
      ghost var visited := found;
      found := found[v.sha256 := v];
      var ok;
      ok, stack := PushNeeds(cache, root, package, v, stack);
      if !ok {
        r := Err(NoSuchPackage);
        return;
      }
      TraversalVisits(cache, root, visited, before, v, stack);
    }
    TraversalEnds(cache, root, found);
    RootFound(cache, root, found);
    r := Ok(found);
  }

  /** What the traversal keeps, whatever the shape of the graph. */
  ghost predicate Traversing(cache: Cache, root: Root, found: Found, stack: seq<string>) {
    && OnStack(cache, root, stack)
    && Sound(cache, root, found)
    && Frontier(cache, root, found, stack)
    && (root.name in stack || Visited(cache, root, found, root.name))
  }

  lemma TraversalStarts(cache: Cache, root: Root)
    requires root.name in cache.packages
    ensures Traversing(cache, root, map[], [root.name])
  {
    RootReachable(cache, root);
  }

  lemma TopOfStack(cache: Cache, root: Root, found: Found, stack: seq<string>)
    requires Traversing(cache, root, found, stack) && stack != []
    ensures stack[|stack| - 1] in cache.packages && Reachable(cache, root, stack[|stack| - 1])
    ensures OnStack(cache, root, stack[..|stack| - 1])
  {
    hide Reachable;
  }

  lemma TraversalPops(cache: Cache, root: Root, found: Found, stack: seq<string>)
    requires Traversing(cache, root, found, stack) && stack != []
    requires Visited(cache, root, found, stack[|stack| - 1])
    ensures Traversing(cache, root, found, stack[..|stack| - 1])
  {
    hide Reachable, Sound, Needs, Visited;
    Popped(stack);
  }

  lemma Popped(stack: seq<string>)
    requires stack != []
    ensures forall name | name in stack :: name == stack[|stack| - 1] || name in stack[..|stack| - 1]
    ensures forall name | name in stack[..|stack| - 1] :: name in stack
  {
  }

  lemma TraversalVisits(cache: Cache, root: Root, found: Found, before: seq<string>, v: Version, after: seq<string>)
    requires Traversing(cache, root, found, before) && before != []
    requires Chosen(cache, root, before[|before| - 1]) == Ok(v) && v.sha256 !in found
    requires OnStack(cache, root, after)
    requires forall name | name in before[..|before| - 1] :: name in after
    requires forall name | Needs(cache, v, name) :: name in after
    ensures Traversing(cache, root, found[v.sha256 := v], after)
    ensures |Hashes(cache) - found[v.sha256 := v].Keys| < |Hashes(cache) - found.Keys|
  {
    hide Chosen, Needs, Reachable, Frontier, Sound, Hashes;
    var package := before[|before| - 1];
    Popped(before);
    TopOfStack(cache, root, found, before);
    ChosenListed(cache, root, package);
    SoundGrows(cache, root, found, package, v);
    FrontierMoves(cache, root, found, before, package, v, after);
    OneHashFewer(Hashes(cache), found, v);
  }

  lemma OneHashFewer(hashes: set<string>, found: Found, v: Version)
    requires v.sha256 in hashes && v.sha256 !in found
    ensures |hashes - found[v.sha256 := v].Keys| < |hashes - found.Keys|
  {
    assert hashes - found[v.sha256 := v].Keys == (hashes - found.Keys) - {v.sha256};
  }

  lemma SoundGrows(cache: Cache, root: Root, found: Found, package: string, v: Version)
    requires Sound(cache, root, found)
    requires Reachable(cache, root, package) && Chosen(cache, root, package) == Ok(v)
    ensures Sound(cache, root, found[v.sha256 := v])
  {
    hide Chosen, Reachable;
  }

  lemma TraversalEnds(cache: Cache, root: Root, found: Found)
    requires Traversing(cache, root, found, [])
    ensures Sound(cache, root, found)
    ensures HashesIdentify(cache) ==> Complete(cache, root) && IsClosure(cache, root, found)
  {
    if HashesIdentify(cache) {
      FoundIsClosure(cache, root, found);
    }
  }

  lemma FrontierMoves(cache: Cache, root: Root, found: Found, before: seq<string>, package: string, v: Version,
                      after: seq<string>)
    requires Frontier(cache, root, found, before)
    requires Chosen(cache, root, package) == Ok(v)
    requires v.sha256 !in found
    requires forall name | name in before :: name == package || name in after
    requires forall name | Needs(cache, v, name) :: name in after
    ensures Frontier(cache, root, found[v.sha256 := v], after)
  {
    var more := found[v.sha256 := v];
    forall h, name | h in more && Needs(cache, more[h], name)
      ensures name in after || Visited(cache, root, more, name)
    {
      if h != v.sha256 {
        assert more[h] == found[h];
        assert name in before || Visited(cache, root, found, name);
      }
    }
  }

  lemma FoundIsClosure(cache: Cache, root: Root, found: Found)
    requires HashesIdentify(cache) && Sound(cache, root, found)
    requires Frontier(cache, root, found, []) && Visited(cache, root, found, root.name)
    ensures Complete(cache, root)
    ensures IsClosure(cache, root, found)
  {
    forall name | Reachable(cache, root, name)
      ensures Chosen(cache, root, name).Ok? && Chosen(cache, root, name).value in found.Values
    {
      var path :| IsPath(cache, root, path) && path[|path| - 1] == name;
      AllVisited(cache, root, found, path);
      FiledUnderItsHash(cache, root, found, name);
      assert Chosen(cache, root, name).value.sha256 in found;
    }
  }

  ghost predicate InSomeClosure(cache: Cache, texts: seq<string>, v: Version) {
    exists i | 0 <= i < |texts| :: InClosure(cache, Partition(texts[i]), v)
  }

  ghost predicate AllComplete(cache: Cache, texts: seq<string>) {
    forall i | 0 <= i < |texts| :: Complete(cache, Partition(texts[i]))
  }

  /** All packages to download for these roots; the first root that fails stops everything. */
  method DownloadAll(packages: seq<string>, cache: Cache) returns (r: Result<Found, Error>)
    ensures r.Err? ==> exists i | 0 <= i < |packages| :: Fails(cache, Partition(packages[i]), r.error)
    ensures r.Ok? ==> forall v | v in r.value.Values :: InSomeClosure(cache, packages, v)
    ensures r.Ok? && HashesIdentify(cache) ==>
              && AllComplete(cache, packages)
              && forall v :: v in r.value.Values <==> InSomeClosure(cache, packages, v)
  {
    hide Complete, Fails, InClosure, Partition, HashesIdentify, Sound, IsClosure;
    var toDownload: Found := map[];
    for i := 0 to |packages|
      invariant Filed(cache, packages[..i], toDownload)
      invariant HashesIdentify(cache) ==> AllComplete(cache, packages[..i]) && Covers(cache, packages[..i], toDownload)
    {
      var deps := GetPackageDeps(packages[i], cache);
      if deps.Err? {
        r := Err(deps.error);
        return;
      }
      assert packages[..i + 1] == packages[..i] + [packages[i]];
      FiledGrows(cache, packages[..i], packages[i], toDownload, deps.value);
      if HashesIdentify(cache) {
        CoversGrows(cache, packages[..i], packages[i], toDownload, deps.value);
      }
      toDownload := toDownload + deps.value;
    }
    assert packages[..|packages|] == packages;
    r := Ok(toDownload);
  }

  ghost predicate Filed(cache: Cache, texts: seq<string>, found: Found) {
    forall h | h in found :: found[h].sha256 == h && InSomeClosure(cache, texts, found[h])
  }

  ghost predicate Covers(cache: Cache, texts: seq<string>, found: Found) {
    forall v :: InSomeClosure(cache, texts, v) ==> v in found.Values
  }

  lemma SomeClosureGrows(cache: Cache, texts: seq<string>, text: string, v: Version)
    ensures InSomeClosure(cache, texts + [text], v) <==>
            InSomeClosure(cache, texts, v) || InClosure(cache, Partition(text), v)
  {
    hide InClosure, Partition;
    var all := texts + [text];
    assert all[|texts|] == text;
    assert forall i | 0 <= i < |texts| :: all[i] == texts[i];
  }

  lemma FiledGrows(cache: Cache, texts: seq<string>, text: string, found: Found, more: Found)
    requires Filed(cache, texts, found) && Sound(cache, Partition(text), more)
    ensures Filed(cache, texts + [text], found + more)
  {
    hide InClosure, Partition, InSomeClosure;
    forall h | h in found + more
      ensures (found + more)[h].sha256 == h && InSomeClosure(cache, texts + [text], (found + more)[h])
    {
      SomeClosureGrows(cache, texts, text, (found + more)[h]);
    }
  }

  lemma CoversGrows(cache: Cache, texts: seq<string>, text: string, found: Found, more: Found)
    requires HashesIdentify(cache)
    requires Filed(cache, texts, found) && Sound(cache, Partition(text), more)
    requires Covers(cache, texts, found) && IsClosure(cache, Partition(text), more)
    ensures Covers(cache, texts + [text], found + more)
  {
    hide InClosure, Partition, InSomeClosure, HashesIdentify;
    forall v | InSomeClosure(cache, texts + [text], v)
      ensures v in (found + more).Values
    {
      SomeClosureGrows(cache, texts, text, v);
      var h := v.sha256;
      if InSomeClosure(cache, texts, v) {
        assert h in found && found[h] == v;
        if h in more {
          SameHashSameVersion(cache, texts, Partition(text), v, more[h]);
        }
      } else {
        assert h in more && more[h] == v;
      }
      assert h in found + more && (found + more)[h] == v;
    }
  }

  lemma SameHashSameVersion(cache: Cache, texts: seq<string>, root: Root, v: Version, w: Version)
    requires HashesIdentify(cache)
    requires InSomeClosure(cache, texts, v) && InClosure(cache, root, w)
    requires v.sha256 == w.sha256
    ensures v == w
  {
    hide Partition, IsPath;
    var i :| 0 <= i < |texts| && InClosure(cache, Partition(texts[i]), v);
    var m :| Reachable(cache, Partition(texts[i]), m) && Chosen(cache, Partition(texts[i]), m) == Ok(v);
    var n :| Reachable(cache, root, n) && Chosen(cache, root, n) == Ok(w);
    ChosenListed(cache, Partition(texts[i]), m);
    ChosenListed(cache, root, n);
  }
}
