/**
 Whether a sysctl parameter written in one configuration file takes effect, given
 all the other configuration files of the system and their precedence.
 */
module Sysctl {
  import opened Results

  // ----- Files -----

  datatype Dir =
    | RunSysctlD | EtcSysctlD | UsrLocalLibSysctlD | UsrLibSysctlD | LibSysctlD
    | OtherDir(path: string)

  datatype Path = Path(dir: Dir, name: string)

  // By decreasing precedence.
  const DIRECTORIES: seq<Dir> := [RunSysctlD, EtcSysctlD, UsrLocalLibSysctlD, UsrLibSysctlD, LibSysctlD]

  // This file is applied last whatever the others.
  const DEFAULT: Path := Path(OtherDir("/etc"), "sysctl.conf")

  // The parameters that each file sets, or `None` for a file that cannot be read.
  type Files = map<Path, Option<map<string, string>>>

  predicate IsConf(name: string) {
    |name| >= 5 && name[|name| - 5..] == ".conf"
  }

  /** A directory has a file of this name that counts, or is about to have it. */
  predicate Offers(fs: Files, config: Path, dir: Dir, name: string) {
    Path(dir, name) == config || (Path(dir, name) in fs && IsConf(name))
  }

  /** `dir` is the directory of highest precedence that offers the name. */
  ghost predicate Provides(fs: Files, config: Path, dir: Dir, name: string) {
    exists i | 0 <= i < |DIRECTORIES| ::
      && DIRECTORIES[i] == dir && Offers(fs, config, dir, name)
      && forall j | 0 <= j < i :: !Offers(fs, config, DIRECTORIES[j], name)
  }

  /** The order of characters, extended to texts. */
  predicate Less(a: string, b: string) {
    b != "" && (a == "" || a[0] < b[0] || (a[0] == b[0] && Less(a[1..], b[1..])))
  }

  /** The texts differ first at `k`, where `a` ends or has the smaller character. */
  predicate DifferAt(a: string, b: string, k: nat) {
    && k <= |a| && k < |b| && a[..k] == b[..k]
    && (k == |a| || a[k] < b[k])
  }

  lemma {:induction false} LessExactlyWhen(a: string, b: string)
    ensures Less(a, b) <==> exists k: nat :: DifferAt(a, b, k)
  {
    if b != "" && (a == "" || a[0] < b[0]) {
      assert DifferAt(a, b, 0);
    } else if a != "" && b != "" && a[0] == b[0] {
      LessExactlyWhen(a[1..], b[1..]);
      if Less(a, b) {
        var k: nat :| DifferAt(a[1..], b[1..], k);
        assert a[..k + 1] == [a[0]] + a[1..][..k] && b[..k + 1] == [b[0]] + b[1..][..k];
        assert DifferAt(a, b, k + 1);
      }
      if k: nat :| DifferAt(a, b, k) {
        assert k > 0;
        assert a[1..][..k - 1] == a[..k][1..] && b[1..][..k - 1] == b[..k][1..];
        assert DifferAt(a[1..], b[1..], k - 1);
      }
    } else if a != "" && b != "" {
      assert forall k: nat | DifferAt(a, b, k) && k > 0 :: a[..k][0] == b[..k][0];
    }
  }

  ghost predicate Sorted(names: seq<string>) {
    forall i, j | 0 <= i < j < |names| :: Less(names[i], names[j])
  }

  ghost function NamesOf(files: seq<Path>): (names: seq<string>)
    ensures |names| == |files| && forall i | 0 <= i < |files| :: names[i] == files[i].name
  {
    seq(|files|, i requires 0 <= i < |files| => files[i].name)
  }

  /**
   The files that the system reads, in the order in which it reads them: sorted by
   name, each from the directory of highest precedence that offers it.
   */
  ghost predicate IsListing(fs: Files, config: Path, files: seq<Path>) {
    && Sorted(NamesOf(files))
    && (forall file | file in files :: Provides(fs, config, file.dir, file.name))
    && (forall dir, name | dir in DIRECTORIES && Offers(fs, config, dir, name) ::
          exists file | file in files :: file.name == name)
  }

  lemma {:induction false} LessTransitive(a: string, b: string, c: string)
    requires Less(a, b) && Less(b, c)
    ensures Less(a, c)
  {
    if a != "" && a[0] == b[0] == c[0] {
      LessTransitive(a[1..], b[1..], c[1..]);
    }
  }

  lemma {:induction false} LessTotal(a: string, b: string)
    ensures a == b || Less(a, b) || Less(b, a)
  {
    if a != "" && b != "" && a[0] == b[0] {
      LessTotal(a[1..], b[1..]);
      assert a == [a[0]] + a[1..] && b == [b[0]] + b[1..];
    }
  }

  lemma {:induction false} LessIrreflexive(a: string)
    ensures !Less(a, a)
  {
    if a != "" {
      LessIrreflexive(a[1..]);
    }
  }

  lemma {:induction false} LeastExists(names: set<string>)
    requires names != {}
    ensures exists least | least in names :: forall name | name in names :: name == least || Less(least, name)
  {
    hide Less;
    var some :| some in names;
    var rest := names - {some};
    if rest == {} {
      assert names == {some};
    } else {
      LeastExists(rest);
      var least :| least in rest && forall name | name in rest :: name == least || Less(least, name);
      LessTotal(some, least);
      var winner := if Less(some, least) then some else least;
      forall name | name in names ensures name == winner || Less(winner, name) {
        if name in rest && name != least && winner == some {
          LessTransitive(some, least, name);
        }
      }
    }
  }

  /** The names in order. */
  method SortNames(names: set<string>) returns (sorted: seq<string>)
    ensures Sorted(sorted)
    ensures forall name :: name in sorted <==> name in names
  {
    sorted := [];
    var todo := names;
    while todo != {}
      invariant todo <= names
      invariant Sorted(sorted)
      invariant forall name :: name in names <==> name in todo || name in sorted
      invariant forall done, name | done in sorted && name in todo :: Less(done, name)
      decreases |todo|
    {
      LeastExists(todo);
      var least :| least in todo && forall name | name in todo :: name == least || Less(least, name);
      todo := todo - {least};
      sorted := sorted + [least];
    }
  }

  // The files retained so far, by name.
  type Retained = map<string, Path>

  /** What the first directories contribute, whatever the order in which their files are met. */
  ghost predicate RetainedFrom(fs: Files, config: Path, dirs: nat, retained: Retained)
    requires dirs <= |DIRECTORIES|
  {
    && (forall name | name in retained ::
          retained[name].name == name
          && exists i | 0 <= i < dirs ::
               && retained[name].dir == DIRECTORIES[i] && Offers(fs, config, DIRECTORIES[i], name)
               && forall j | 0 <= j < i :: !Offers(fs, config, DIRECTORIES[j], name))
    && (forall i, name | 0 <= i < dirs && Offers(fs, config, DIRECTORIES[i], name) :: name in retained)
  }

  /** The configuration files of a directory, by name. */
  function ConfFiles(fs: Files, dir: Dir): (names: set<string>)
    ensures forall name :: name in names <==> Path(dir, name) in fs && IsConf(name)
  {
    set path | path in fs && path.dir == dir && IsConf(path.name) :: path.name
  }

  lemma OffersInDirectory(fs: Files, config: Path, dir: Dir)
    ensures dir == config.dir ==> Offers(fs, config, dir, config.name)
    ensures forall name | name in ConfFiles(fs, dir) :: Offers(fs, config, dir, name)
    ensures forall name | Offers(fs, config, dir, name) ::
              name in ConfFiles(fs, dir) || (dir == config.dir && name == config.name)
  {
    hide IsConf;
  }

  /** `retained'` is `retained` with the names that only `dir` offers, and perhaps not all of them yet. */
  ghost predicate Gaining(fs: Files, config: Path, dir: Dir, retained: Retained, retained': Retained) {
    && (forall name | name in retained :: name in retained' && retained'[name] == retained[name])
    && (forall name | name in retained' && name !in retained ::
          retained'[name] == Path(dir, name) && Offers(fs, config, dir, name))
  }

  /** Keep the files of one more directory, except those that an earlier one provides. */
  method RetainDirectory(fs: Files, config: Path, dir: Dir, retained: Retained) returns (retained': Retained)
    ensures Gaining(fs, config, dir, retained, retained')
    ensures forall name | Offers(fs, config, dir, name) :: name in retained'
  {
    hide Offers, Gaining, IsConf;
    OffersInDirectory(fs, config, dir);
    GainsNothing(fs, config, dir, retained);
    retained' := retained;
    if dir == config.dir && config.name !in retained' {
      GainsOne(fs, config, dir, retained, retained', config.name);
      retained' := retained'[config.name := config];
    }
    var todo := ConfFiles(fs, dir);
    while todo != {}
      invariant Gaining(fs, config, dir, retained, retained')
      invariant forall name | Offers(fs, config, dir, name) :: name in retained' || name in todo
      invariant forall name | name in todo :: Offers(fs, config, dir, name)
      decreases |todo|
    {
      var name :| name in todo;
      todo := todo - {name};
      if name !in retained' {
        GainsOne(fs, config, dir, retained, retained', name);
        retained' := retained'[name := Path(dir, name)];
      }
    }
  }

  lemma GainsNothing(fs: Files, config: Path, dir: Dir, retained: Retained)
    ensures Gaining(fs, config, dir, retained, retained)
  {
  }

  lemma GainsOne(fs: Files, config: Path, dir: Dir, retained: Retained, retained': Retained, name: string)
    requires Gaining(fs, config, dir, retained, retained')
    requires Offers(fs, config, dir, name) && name !in retained'
    ensures Gaining(fs, config, dir, retained, retained'[name := Path(dir, name)])
  {
    hide Offers;
  }

  lemma RetainedGrows(fs: Files, config: Path, rank: nat, retained: Retained, retained': Retained)
    requires rank < |DIRECTORIES| && RetainedFrom(fs, config, rank, retained)
    requires Gaining(fs, config, DIRECTORIES[rank], retained, retained')
    requires forall name | Offers(fs, config, DIRECTORIES[rank], name) :: name in retained'
    ensures RetainedFrom(fs, config, rank + 1, retained')
  {
    hide IsConf;
    forall name | name in retained'
      ensures retained'[name].name == name
      ensures exists i | 0 <= i < rank + 1 ::
               && retained'[name].dir == DIRECTORIES[i] && Offers(fs, config, DIRECTORIES[i], name)
               && forall j | 0 <= j < i :: !Offers(fs, config, DIRECTORIES[j], name)
    {
      if name in retained {
        var i :| 0 <= i < rank && retained[name].dir == DIRECTORIES[i] && Offers(fs, config, DIRECTORIES[i], name)
                 && forall j | 0 <= j < i :: !Offers(fs, config, DIRECTORIES[j], name);
      } else {
        assert retained'[name].dir == DIRECTORIES[rank];
      }
    }
  }

  /** All the configuration files as the system reads them, with `config` among them if it would be read. */
  method GetSysctlFiles(fs: Files, config: Path) returns (files: seq<Path>)
    ensures files != [] && files[|files| - 1] == Path(OtherDir("/etc"), "sysctl.conf")
    ensures IsListing(fs, config, files[..|files| - 1])
  {
    var retained: Retained := map[];
    for rank := 0 to |DIRECTORIES|
      invariant RetainedFrom(fs, config, rank, retained)
    {
      var more := RetainDirectory(fs, config, DIRECTORIES[rank], retained);
      RetainedGrows(fs, config, rank, retained, more);
      retained := more;
    }
    var names := SortNames(retained.Keys);
    files := [];
    for i := 0 to |names|
      invariant |files| == i
      invariant forall j | 0 <= j < i :: names[j] in retained && files[j] == retained[names[j]]
    {
      files := files + [retained[names[i]]];
    }
    assert forall j | 0 <= j < |files| :: files[j].name == names[j];
    assert NamesOf(files) == names;
    RetainedIsListing(fs, config, retained, files);
    files := files + [DEFAULT];
    assert files[..|files| - 1] == files[..|names|];
  }

  lemma RetainedIsListing(fs: Files, config: Path, retained: Retained, files: seq<Path>)
    requires RetainedFrom(fs, config, |DIRECTORIES|, retained)
    requires Sorted(NamesOf(files))
    requires forall file | file in files :: file.name in retained && retained[file.name] == file
    requires forall name | name in retained :: retained[name] in files
    ensures IsListing(fs, config, files)
  {
    forall file | file in files ensures Provides(fs, config, file.dir, file.name) {
      assert retained[file.name] == file;
    }
    forall dir, name | dir in DIRECTORIES && Offers(fs, config, dir, name)
      ensures exists file | file in files :: file.name == name
    {
      var i :| 0 <= i < |DIRECTORIES| && DIRECTORIES[i] == dir;
      assert retained[name] in files && retained[name].name == name;
    }
  }

  // ----- What a listing means -----

  /** Names in order are determined by which names they are. */
  lemma {:induction false} SortedUnique(a: seq<string>, b: seq<string>)
    requires Sorted(a) && Sorted(b)
    requires forall name :: name in a <==> name in b
    ensures a == b
  {
    if a == [] {
      assert forall i | 0 <= i < |b| :: b[i] in a;
    } else {
      assert a[|a| - 1] in b;
      assert b[|b| - 1] in a;
      var x, y := a[|a| - 1], b[|b| - 1];
      if x != y {
        LastIsGreatest(a, y);
        LastIsGreatest(b, x);
        LessTransitive(x, y, x);
        LessIrreflexive(x);
        assert false;
      }
      var a', b' := a[..|a| - 1], b[..|b| - 1];
      forall name ensures name in a' <==> name in b' {
        LastApart(a, name);
        LastApart(b, name);
      }
      SortedUnique(a', b');
      assert a == a' + [x] && b == b' + [y];
    }
  }

  lemma LastIsGreatest(names: seq<string>, name: string)
    requires Sorted(names) && name in names && name != names[|names| - 1]
    ensures Less(name, names[|names| - 1])
  {
  }

  lemma LastApart(names: seq<string>, name: string)
    requires Sorted(names) && names != []
    ensures name in names[..|names| - 1] <==> name in names && name != names[|names| - 1]
  {
    var n := |names| - 1;
    assert names == names[..n] + [names[n]];
    if names[n] in names[..n] {
      var i :| 0 <= i < n && names[..n][i] == names[n];
      assert Less(names[i], names[n]);
      LessIrreflexive(names[n]);
    }
  }

  lemma ProviderUnique(fs: Files, config: Path, dir: Dir, dir': Dir, name: string)
    requires Provides(fs, config, dir, name) && Provides(fs, config, dir', name)
    ensures dir == dir'
  {
    hide Offers;
  }

  /** There is one listing: the order in which files are met does not matter. */
  lemma ListingUnique(fs: Files, config: Path, a: seq<Path>, b: seq<Path>)
    requires IsListing(fs, config, a) && IsListing(fs, config, b)
    ensures a == b
  {
    SameNames(fs, config, a, b);
    SameNames(fs, config, b, a);
    SortedUnique(NamesOf(a), NamesOf(b));
    forall i | 0 <= i < |a| ensures a[i] == b[i] {
      assert NamesOf(a)[i] == NamesOf(b)[i];
      assert a[i] in a && b[i] in b;
      ProviderUnique(fs, config, a[i].dir, b[i].dir, a[i].name);
    }
  }

  lemma SameNames(fs: Files, config: Path, a: seq<Path>, b: seq<Path>)
    requires IsListing(fs, config, a) && IsListing(fs, config, b)
    ensures forall name | name in NamesOf(a) :: name in NamesOf(b)
  {
    hide Offers;
    forall name | name in NamesOf(a) ensures name in NamesOf(b) {
      var i :| 0 <= i < |a| && NamesOf(a)[i] == name;
      assert a[i] in a && Provides(fs, config, a[i].dir, a[i].name);
      var file :| file in b && file.name == name;
      var j :| 0 <= j < |b| && b[j] == file;
      assert NamesOf(b)[j] == name;
    }
  }

  /** A file of a listing is there once. */
  lemma ListedOnce(fs: Files, config: Path, files: seq<Path>, i: nat, j: nat)
    requires IsListing(fs, config, files) && i < j < |files|
    ensures files[i].name != files[j].name
  {
    assert Less(NamesOf(files)[i], NamesOf(files)[j]);
    LessIrreflexive(files[i].name);
  }

  /**
   The configuration is read if it is the default one, or sits in a known directory
   while no directory of higher precedence has a file of the same name that counts.
   */
  ghost predicate Readable(fs: Files, config: Path) {
    || config == DEFAULT
    || exists i | 0 <= i < |DIRECTORIES| ::
         && DIRECTORIES[i] == config.dir
         && forall j | 0 <= j < i :: Path(DIRECTORIES[j], config.name) !in fs || !IsConf(config.name)
  }

  lemma ConfigListed(fs: Files, config: Path, files: seq<Path>)
    requires IsListing(fs, config, files)
    ensures config in files + [DEFAULT] <==> Readable(fs, config)
  {
    hide IsConf;
    if config in files {
      assert Provides(fs, config, config.dir, config.name);
    }
    if Readable(fs, config) && config != DEFAULT {
      var i :| 0 <= i < |DIRECTORIES| && DIRECTORIES[i] == config.dir
               && forall j | 0 <= j < i :: Path(DIRECTORIES[j], config.name) !in fs || !IsConf(config.name);
      assert forall j | 0 <= j < i :: DIRECTORIES[j] != DIRECTORIES[i];
      assert Offers(fs, config, config.dir, config.name);
      assert Provides(fs, config, config.dir, config.name);
      var file :| file in files && file.name == config.name;
      ProviderUnique(fs, config, file.dir, config.dir, config.name);
    }
  }

  /** The rank of a directory that the system reads: the lowest one takes precedence. */
  function Rank(dir: Dir): Option<nat> {
    match dir
    case RunSysctlD => Some(0)
    case EtcSysctlD => Some(1)
    case UsrLocalLibSysctlD => Some(2)
    case UsrLibSysctlD => Some(3)
    case LibSysctlD => Some(4)
    case OtherDir(_) => None
  }

  /** The file is the configuration, or exists and has a name that ends in `.conf`. */
  ghost predicate Counts(fs: Files, config: Path, file: Path) {
    file == config || (file in fs && exists base: string :: file.name == base + ".conf")
  }

  lemma CountsMeansOffers(fs: Files, config: Path, file: Path)
    ensures Counts(fs, config, file) <==> Offers(fs, config, file.dir, file.name)
  {
    var n := |file.name| - 5;
    if IsConf(file.name) {
      assert file.name == file.name[..n] + ".conf";
    }
    if base: string :| file.name == base + ".conf" {
      assert n == |base| && file.name[n..] == ".conf";
    }
  }

  lemma RankIsIndex(dir: Dir)
    ensures Rank(dir).Some? <==> dir in DIRECTORIES
    ensures Rank(dir).Some? ==> Rank(dir).value < |DIRECTORIES| && DIRECTORIES[Rank(dir).value] == dir
    ensures forall i | 0 <= i < |DIRECTORIES| :: Rank(DIRECTORIES[i]) == Some(i)
  {
  }

  /** A file is listed exactly when it counts, is in a known directory, and no file that counts takes precedence. */
  lemma ListedExactlyWhen(fs: Files, config: Path, files: seq<Path>, file: Path)
    requires IsListing(fs, config, files)
    ensures file in files <==>
            && Rank(file.dir).Some? && Counts(fs, config, file)
            && forall dir | Rank(dir).Some? && Rank(dir).value < Rank(file.dir).value ::
                 !Counts(fs, config, Path(dir, file.name))
  {
    hide Offers, Counts, Rank;
    RankIsIndex(file.dir);
    forall dir ensures Counts(fs, config, Path(dir, file.name)) <==> Offers(fs, config, dir, file.name) {
      CountsMeansOffers(fs, config, Path(dir, file.name));
    }
    forall dir ensures Rank(dir).Some? ==> Rank(dir).value < |DIRECTORIES| && DIRECTORIES[Rank(dir).value] == dir {
      RankIsIndex(dir);
    }
    assert file == Path(file.dir, file.name);
    if file in files {
      assert Provides(fs, config, file.dir, file.name);
    } else if Rank(file.dir).Some? && Counts(fs, config, file)
              && forall dir | Rank(dir).Some? && Rank(dir).value < Rank(file.dir).value ::
                   !Counts(fs, config, Path(dir, file.name)) {
      var i := Rank(file.dir).value;
      forall j | 0 <= j < i ensures !Offers(fs, config, DIRECTORIES[j], file.name) {
        RankIsIndex(DIRECTORIES[j]);
      }
      assert Provides(fs, config, file.dir, file.name);
      var other :| other in files && other.name == file.name;
      ProviderUnique(fs, config, other.dir, file.dir, file.name);
    }
  }

  // ----- What applying the files means -----

  /** The characters that separate words: those of ASCII, and the other spaces of Unicode. */
  predicate IsSpace(c: char) {
    var n := c as int;
    || 0x09 <= n <= 0x0D || 0x1C <= n <= 0x20 || n == 0x85 || n == 0xA0 || n == 0x1680 || 0x2000 <= n <= 0x200A
    || n == 0x2028 || n == 0x2029 || n == 0x202F || n == 0x205F || n == 0x3000
  }

  /** The words of a text; `word` is the one being read. */
  function Words(text: string, word: string): seq<string> {
    if text == "" then (if word == "" then [] else [word])
    else if IsSpace(text[0]) then (if word == "" then [] else [word]) + Words(text[1..], "")
    else Words(text[1..], word + [text[0]])
  }

  /** The words one after the other, with one space between them. */
  function Joined(words: seq<string>): string {
    if words == [] then "" else if |words| == 1 then words[0] else words[0] + " " + Joined(words[1..])
  }

  /** The text with its whitespace normalized. */
  function Epured(text: string): string {
    Joined(Words(text, ""))
  }

  /** Two values are the same up to whitespace. */
  predicate SameValue(a: string, b: string) {
    Words(a, "") == Words(b, "")
  }

  predicate Solid(text: string) {
    forall c | c in text :: !IsSpace(c)
  }

  ghost predicate AllWords(words: seq<string>) {
    forall word | word in words :: word != "" && Solid(word)
  }

  function WithoutSpaces(text: string): string {
    if text == "" then "" else (if IsSpace(text[0]) then "" else [text[0]]) + WithoutSpaces(text[1..])
  }

  function Concatenated(words: seq<string>): string {
    if words == [] then "" else words[0] + Concatenated(words[1..])
  }

  /** Words are not empty and have no space; all other characters are in them, in order. */
  lemma {:induction false} WordsHoldTheRest(text: string, word: string)
    requires Solid(word)
    ensures AllWords(Words(text, word))
    ensures Concatenated(Words(text, word)) == word + WithoutSpaces(text)
  {
    if text == "" {
      assert word != "" ==> Words(text, word) == [word] && Concatenated([word]) == word + Concatenated([]);
    } else if IsSpace(text[0]) {
      WordsHoldTheRest(text[1..], "");
      var rest := Words(text[1..], "");
      if word != "" {
        assert Words(text, word) == [word] + rest && ([word] + rest)[1..] == rest;
      } else {
        assert Words(text, word) == [] + rest == rest;
      }
    } else {
      WordsHoldTheRest(text[1..], word + [text[0]]);
      assert word + [text[0]] + WithoutSpaces(text[1..]) == word + ([text[0]] + WithoutSpaces(text[1..]));
    }
  }

  /** A space ends a word: what is around it is read on its own. */
  lemma {:induction false} SpaceSeparates(a: string, c: char, b: string, word: string)
    requires IsSpace(c)
    ensures Words(a + [c] + b, word) == Words(a, word) + Words(b, "")
  {
    var text := a + [c] + b;
    if a == "" {
      assert text[0] == c && text[1..] == b;
    } else {
      assert text[0] == a[0] && text[1..] == a[1..] + [c] + b;
      SpaceSeparates(a[1..], c, b, if IsSpace(a[0]) then "" else word + [a[0]]);
      if IsSpace(a[0]) {
        var first: seq<string> := if word == "" then [] else [word];
        assert first + (Words(a[1..], "") + Words(b, "")) == first + Words(a[1..], "") + Words(b, "");
      }
    }
  }

  /** A text without spaces is one word, or none if it is empty. */
  lemma {:induction false} SolidIsOneWord(text: string, word: string)
    requires Solid(text)
    ensures Words(text, word) == if word + text == "" then [] else [word + text]
  {
    if text == "" {
      assert word + text == word;
    } else {
      assert text[0] in text && forall c | c in text[1..] :: c in text;
      SolidIsOneWord(text[1..], word + [text[0]]);
      assert word + [text[0]] + text[1..] == word + text;
    }
  }

  /** Reading back words that were joined gives the same words. */
  lemma {:induction false} JoinedReadsBack(words: seq<string>)
    requires AllWords(words)
    ensures Words(Joined(words), "") == words
  {
    if words != [] {
      var first, rest := words[0], words[1..];
      assert words == [first] + rest && first in words;
      SolidIsOneWord(first, "");
      assert "" + first == first;
      if rest == [] {
        assert Joined(words) == first;
      } else {
        assert forall word | word in rest :: word in words;
        JoinedReadsBack(rest);
        assert Joined(words) == first + [' '] + Joined(rest);
        SpaceSeparates(first, ' ', Joined(rest), "");
      }
    }
  }

  /** Comparing normalized texts is comparing words; and normalizing changes nothing but whitespace. */
  lemma EpuredExactlyWhen(a: string, b: string)
    ensures Epured(a) == Epured(b) <==> SameValue(a, b)
    ensures SameValue(Epured(a), a)
  {
    WordsHoldTheRest(a, "");
    WordsHoldTheRest(b, "");
    JoinedReadsBack(Words(a, ""));
    JoinedReadsBack(Words(b, ""));
  }

  predicate Reads(fs: Files, file: Path) {
    file in fs && fs[file].Some?
  }

  /** The file sets the parameter. */
  predicate Defines(fs: Files, file: Path, name: string) {
    Reads(fs, file) && name in fs[file].value
  }

  /** The value that stays once all files are applied in order: the last one wins. */
  function Effective(fs: Files, files: seq<Path>, name: string): Option<string> {
    if files == [] then None
    else
      var last := files[|files| - 1];
      if Defines(fs, last, name) then Some(fs[last].value[name])
      else Effective(fs, files[..|files| - 1], name)
  }

  /** The last file to set the parameter. */
  function LastDefiner(fs: Files, files: seq<Path>, name: string): Option<Path> {
    if files == [] then None
    else
      var last := files[|files| - 1];
      if Defines(fs, last, name) then Some(last) else LastDefiner(fs, files[..|files| - 1], name)
  }

  /** The parameter written in a file, among those that the file already sets. */
  function Written(fs: Files, config: Path, name: string, value: string): Files {
    fs[config := Some((if Reads(fs, config) then fs[config].value else map[])[name := value])]
  }

  /** Writing in the configuration file does not change what is listed. */
  lemma ListingAfterWrite(fs: Files, config: Path, name: string, value: string, files: seq<Path>)
    requires IsListing(fs, config, files)
    ensures IsListing(Written(fs, config, name, value), config, files)
  {
    var fs' := Written(fs, config, name, value);
    forall dir, text ensures Offers(fs', config, dir, text) <==> Offers(fs, config, dir, text) {}
    forall file | file in files ensures Provides(fs', config, file.dir, file.name) {
      assert Provides(fs, config, file.dir, file.name);
    }
  }

  lemma {:induction false} DefinedLater(fs: Files, before: seq<Path>, config: Path, after: seq<Path>, name: string)
    requires Defines(fs, config, name)
    ensures Effective(fs, before + [config] + after, name) ==
            (if Effective(fs, after, name).Some? then Effective(fs, after, name) else Some(fs[config].value[name]))
    ensures LastDefiner(fs, before + [config] + after, name) ==
            (if LastDefiner(fs, after, name).Some? then LastDefiner(fs, after, name) else Some(config))
    ensures LastDefiner(fs, after, name).Some? <==> Effective(fs, after, name).Some?
  {
    var all := before + [config] + after;
    if after == [] {
      assert all == before + [config];
    } else {
      var n := |after| - 1;
      assert all[..|all| - 1] == before + [config] + after[..n];
      DefinedLater(fs, before, config, after[..n], name);
    }
  }

  /** If none of these files sets the parameter to another value, their own outcome is no other value either. */
  lemma {:induction false} AgreeingFiles(fs: Files, files: seq<Path>, name: string, value: string)
    requires forall file | file in files && Defines(fs, file, name) :: SameValue(fs[file].value[name], value)
    ensures Effective(fs, files, name).Some? ==> SameValue(Effective(fs, files, name).value, value)
  {
    if files != [] {
      AgreeingFiles(fs, files[..|files| - 1], name, value);
    }
  }

  lemma {:induction false} NoDefiner(fs: Files, files: seq<Path>, name: string)
    ensures LastDefiner(fs, files, name).None? <==> forall file | file in files :: !Defines(fs, file, name)
    ensures LastDefiner(fs, files, name).Some? ==> LastDefiner(fs, files, name).value in files
  {
    if files != [] {
      var n := |files| - 1;
      NoDefiner(fs, files[..n], name);
      assert files == files[..n] + [files[n]];
    }
  }

  // ----- The check -----

  datatype Error = OverriddenBy(file: Path) | NotAPath | RedefinedBy(file: Path, value: string) | CannotRead(file: Path)

  /** The file does not disturb the value: it can be read, and sets nothing else. */
  predicate Agrees(fs: Files, file: Path, name: string, value: string, strict: bool) {
    && Reads(fs, file)
    && (Defines(fs, file, name) ==> !strict && SameValue(fs[file].value[name], value))
  }

  /** Passing the check: the configuration is read, and every file after it agrees. */
  ghost predicate Passes(fs: Files, files: seq<Path>, config: Path, name: string, value: string, strict: bool) {
    exists i | 0 <= i < |files| ::
      && files[i] == config && config !in files[..i]
      && forall file | file in files[i + 1..] :: Agrees(fs, file, name, value, strict)
  }

  method HasPrecedence(fs: Files, name: string, value: string, config: Path, strict: bool)
    returns (r: Result<(), Error>, ghost files: seq<Path>)
    ensures files != [] && files[|files| - 1] == DEFAULT && IsListing(fs, config, files[..|files| - 1])
    ensures r.Ok? <==> Passes(fs, files, config, name, value, strict)
    ensures r.Err? && (r.error.OverriddenBy? || r.error.NotAPath?) <==> !Readable(fs, config)
    ensures r.Err? && r.error.OverriddenBy? ==> r.error.file in files && r.error.file.name == config.name
    ensures r.Err? && r.error.NotAPath? ==> forall file | file in files :: file.name != config.name
    ensures r.Err? && r.error.CannotRead? ==> r.error.file in files && !Reads(fs, r.error.file)
    ensures r.Err? && r.error.RedefinedBy? ==>
              && r.error.file in files && Defines(fs, r.error.file, name)
              && r.error.value == fs[r.error.file].value[name]
              && (strict || !SameValue(r.error.value, value))
  {
    hide IsListing, Readable, SameValue, IsConf, Epured;
    var all := GetSysctlFiles(fs, config);
    files := all;
    ConfigListed(fs, config, all[..|all| - 1]);
    assert all == all[..|all| - 1] + [DEFAULT];
    var index := IndexOf(all, config);
    if index.None? {
      for i := 0 to |all|
        invariant forall j | 0 <= j < i :: all[j].name != config.name
      {
        if all[i].name == config.name {
          return Err(OverriddenBy(all[i])), files;
        }
      }
      return Err(NotAPath), files;
    }
    var later := all[index.value + 1..];
    var epured := Epured(value);
    for i := 0 to |later|
      invariant forall j | 0 <= j < i :: Agrees(fs, later[j], name, value, strict)
    {
      var file := later[i];
      assert file in all;
      if file !in fs || fs[file].None? {
        NotPassing(fs, all, config, name, value, strict, index.value, i);
        return Err(CannotRead(file)), files;
      }
      if name in fs[file].value {
        EpuredExactlyWhen(fs[file].value[name], value);
      }
      if name in fs[file].value && (strict || Epured(fs[file].value[name]) != epured) {
        NotPassing(fs, all, config, name, value, strict, index.value, i);
        return Err(RedefinedBy(file, fs[file].value[name])), files;
      }
    }
    r := Ok(());
  }

  /** Where the file is first listed. */
  method IndexOf(files: seq<Path>, file: Path) returns (index: Option<nat>)
    ensures index.None? <==> file !in files
    ensures index.Some? ==> index.value < |files| && files[index.value] == file && file !in files[..index.value]
  {
    for i := 0 to |files|
      invariant file !in files[..i]
    {
      if files[i] == file {
        return Some(i);
      }
    }
    index := None;
  }

  lemma NotPassing(fs: Files, files: seq<Path>, config: Path, name: string, value: string, strict: bool,
                   index: nat, i: nat)
    requires index < |files| && files[index] == config && config !in files[..index]
    requires i < |files[index + 1..]| && !Agrees(fs, files[index + 1..][i], name, value, strict)
    ensures !Passes(fs, files, config, name, value, strict)
  {
    hide SameValue;
    assert forall k | 0 <= k < |files| && files[k] == config && config !in files[..k] :: k == index;
  }

  /**
   Soundness: if the check passes, then once the parameter is written in the
   configuration file, applying all files in order gives it the wanted value.
   */
  lemma PassingIsEffective(fs: Files, files: seq<Path>, config: Path, name: string, value: string, strict: bool)
    requires files != [] && IsListing(fs, config, files[..|files| - 1]) && files[|files| - 1] == DEFAULT
    requires Passes(fs, files, config, name, value, strict)
    ensures var fs' := Written(fs, config, name, value);
            && IsListing(fs', config, files[..|files| - 1])
            && Effective(fs', files, name).Some? && SameValue(Effective(fs', files, name).value, value)
  {
    hide IsListing, Agrees, SameValue, Written, Effective;
    ListingAfterWrite(fs, config, name, value, files[..|files| - 1]);
    var i :| 0 <= i < |files| && files[i] == config && config !in files[..i]
             && forall file | file in files[i + 1..] :: Agrees(fs, file, name, value, strict);
    ConfigOnce(fs, config, files, i);
    AgreeingIsEffective(fs, files, config, name, value, strict, i);
  }

  lemma AgreeingIsEffective(fs: Files, files: seq<Path>, config: Path, name: string, value: string, strict: bool,
                            i: nat)
    requires i < |files| && files[i] == config && config !in files[i + 1..]
    requires forall file | file in files[i + 1..] :: Agrees(fs, file, name, value, strict)
    ensures var e := Effective(Written(fs, config, name, value), files, name);
            e.Some? && SameValue(e.value, value)
  {
    hide Agrees, SameValue, Defines;
    var fs' := Written(fs, config, name, value);
    var later := files[i + 1..];
    AfterWrite(fs, config, name, value, files, i, strict);
    DefinedLater(fs', files[..i], config, later, name);
    assert files == files[..i] + [config] + later;
    AgreeingFiles(fs', later, name, value);
    SameAsItself(value);
  }

  lemma SameAsItself(value: string)
    ensures SameValue(value, value)
  {
  }

  lemma DefaultNotListed(fs: Files, config: Path, files: seq<Path>)
    requires IsListing(fs, config, files)
    ensures DEFAULT !in files
  {
    hide Offers;
    forall file | file in files ensures file.dir in DIRECTORIES {
      assert Provides(fs, config, file.dir, file.name);
    }
  }

  /** The configuration is not among the files after it. */
  lemma ConfigOnce(fs: Files, config: Path, files: seq<Path>, i: nat)
    requires files != [] && IsListing(fs, config, files[..|files| - 1]) && files[|files| - 1] == DEFAULT
    requires i < |files| && files[i] == config
    ensures config !in files[i + 1..]
  {
    hide IsListing;
    var n := |files| - 1;
    if config in files[i + 1..] {
      var j :| 0 <= j < |files[i + 1..]| && files[i + 1..][j] == config;
      var k := i + 1 + j;
      assert files[..n][i] == config;
      if k < n {
        ListedOnce(fs, config, files[..n], i, k);
      } else {
        DefaultNotListed(fs, config, files[..n]);
      }
    }
  }

  /** The files after the configuration are left as they were. */
  lemma AfterWrite(fs: Files, config: Path, name: string, value: string, files: seq<Path>, i: nat, strict: bool)
    requires i < |files| && config !in files[i + 1..]
    requires forall file | file in files[i + 1..] :: Agrees(fs, file, name, value, strict)
    ensures var fs' := Written(fs, config, name, value);
            && Defines(fs', config, name) && fs'[config].value[name] == value
            && (forall file | file in files[i + 1..] && Defines(fs', file, name) ::
                  SameValue(fs'[file].value[name], value))
            && (strict ==> forall file | file in files[i + 1..] :: !Defines(fs', file, name))
  {
    hide SameValue;
    var fs' := Written(fs, config, name, value);
    forall file | file in files[i + 1..]
      ensures Defines(fs', file, name) ==> !strict && SameValue(fs'[file].value[name], value)
    {
      assert Agrees(fs, file, name, value, strict) && file != config;
    }
  }

  /**
   In strict mode the check passes exactly when every file after the configuration
   can be read, and it is the last one to set the parameter once it is written.
   */
  lemma StrictMeansLast(fs: Files, files: seq<Path>, config: Path, name: string, value: string, i: nat)
    requires files != [] && IsListing(fs, config, files[..|files| - 1]) && files[|files| - 1] == DEFAULT
    requires i < |files| && files[i] == config
    ensures Passes(fs, files, config, name, value, true) <==>
            AllRead(fs, files[i + 1..]) && LastDefiner(Written(fs, config, name, value), files, name) == Some(config)
  {
    hide IsListing, SameValue;
    var fs' := Written(fs, config, name, value);
    ConfigOnce(fs, config, files, i);
    NotBefore(fs, config, files, i);
    var later := files[i + 1..];
    DefinedLater(fs', files[..i], config, later, name);
    assert files == files[..i] + [config] + later;
    NoDefiner(fs', later, name);
    assert forall file | file in later :: Defines(fs', file, name) <==> Defines(fs, file, name);
    if !(forall file | file in later :: Reads(fs, file) && !Defines(fs, file, name)) {
      var file :| file in later && !(Reads(fs, file) && !Defines(fs, file, name));
      var j :| 0 <= j < |later| && later[j] == file;
      NotPassing(fs, files, config, name, value, true, i, j);
    }
  }

  lemma NotBefore(fs: Files, config: Path, files: seq<Path>, i: nat)
    requires files != [] && IsListing(fs, config, files[..|files| - 1]) && files[|files| - 1] == DEFAULT
    requires i < |files| && files[i] == config
    ensures config !in files[..i]
  {
    hide IsListing;
    if config in files[..i] {
      var j :| 0 <= j < i && files[..i][j] == config;
      assert files[j + 1..][i - j - 1] == config;
      ConfigOnce(fs, config, files, j);
    }
  }

  predicate AllRead(fs: Files, later: seq<Path>) {
    forall file | file in later :: Reads(fs, file)
  }

  /** Some file after the configuration sets the parameter to another value. */
  ghost predicate Disturbed(fs: Files, later: seq<Path>, name: string, value: string) {
    exists file | file in later :: Defines(fs, file, name) && !SameValue(fs[file].value[name], value)
  }

  /** The last file after the configuration to set the parameter, if any, sets it to the value. */
  predicate Restored(fs: Files, later: seq<Path>, name: string, value: string) {
    var last := LastDefiner(fs, later, name);
    last.Some? && Defines(fs, last.value, name) ==> SameValue(fs[last.value].value[name], value)
  }

  /**
   Without strict mode, the check passes when every later file can be read and sets
   no other value, and the value stays when the last later file to set it restores
   it. So the check refuses a value that would stay exactly when a file cannot be
   read, or when it is disturbed and then restored.
   */
  lemma PassesExactlyWhen(fs: Files, files: seq<Path>, config: Path, name: string, value: string, i: nat)
    requires files != [] && IsListing(fs, config, files[..|files| - 1]) && files[|files| - 1] == DEFAULT
    requires i < |files| && files[i] == config
    ensures var e := Effective(Written(fs, config, name, value), files, name);
            var passes := Passes(fs, files, config, name, value, false);
            var stays := e.Some? && SameValue(e.value, value);
            && (passes <==> AllRead(fs, files[i + 1..]) && !Disturbed(fs, files[i + 1..], name, value))
            && (stays <==> Restored(fs, files[i + 1..], name, value))
  {
    hide IsListing, SameValue, Passes, Effective, Disturbed, Restored, AllRead;
    ConfigOnce(fs, config, files, i);
    NotBefore(fs, config, files, i);
    PassesMeans(fs, files, config, name, value, i);
    StaysMeans(fs, files, config, name, value, i);
  }

  lemma StaysMeans(fs: Files, files: seq<Path>, config: Path, name: string, value: string, i: nat)
    requires i < |files| && files[i] == config && config !in files[i + 1..]
    ensures var e := Effective(Written(fs, config, name, value), files, name);
            e.Some? && SameValue(e.value, value) <==> Restored(fs, files[i + 1..], name, value)
  {
    hide SameValue, Effective, LastDefiner;
    var fs' := Written(fs, config, name, value);
    var later := files[i + 1..];
    DefinedLater(fs', files[..i], config, later, name);
    assert files == files[..i] + [config] + later;
    forall file | file in later ensures SameFile(fs, fs', file) {
      assert file != config;
    }
    SameLast(fs, fs', later, name);
    NoDefiner(fs', later, name);
    EffectiveIsLast(fs', later, name);
    SameAsItself(value);
  }

  lemma PassesMeans(fs: Files, files: seq<Path>, config: Path, name: string, value: string, i: nat)
    requires i < |files| && files[i] == config && config !in files[..i]
    ensures Passes(fs, files, config, name, value, false) <==>
            AllRead(fs, files[i + 1..]) && !Disturbed(fs, files[i + 1..], name, value)
  {
    hide SameValue;
    var later := files[i + 1..];
    if !AllRead(fs, later) || Disturbed(fs, later, name, value) {
      var file :| file in later
                  && (!Reads(fs, file) || (Defines(fs, file, name) && !SameValue(fs[file].value[name], value)));
      var j :| 0 <= j < |later| && later[j] == file;
      NotPassing(fs, files, config, name, value, false, i, j);
    } else {
      assert forall file | file in later :: Agrees(fs, file, name, value, false);
    }
  }

  predicate SameFile(fs: Files, fs': Files, file: Path) {
    (file in fs <==> file in fs') && (file in fs ==> fs'[file] == fs[file])
  }

  lemma {:induction false} SameLast(fs: Files, fs': Files, files: seq<Path>, name: string)
    requires forall file | file in files :: SameFile(fs, fs', file)
    ensures LastDefiner(fs', files, name) == LastDefiner(fs, files, name)
  {
    if files != [] {
      assert SameFile(fs, fs', files[|files| - 1]);
      SameLast(fs, fs', files[..|files| - 1], name);
    }
  }

  const EXAMPLE_CONFIG := Path(EtcSysctlD, "a.conf")
  const EXAMPLE_OTHER := Path(EtcSysctlD, "b.conf")

  function ExampleFiles(): Files {
    map[EXAMPLE_OTHER := Some(map["k" := "0"]), DEFAULT := Some(map["k" := "1"])]
  }

  /** It does happen: a file sets another value and a later one restores it. */
  lemma RestoredValueRefused()
    ensures var files := [EXAMPLE_CONFIG, EXAMPLE_OTHER, DEFAULT];
            && IsListing(ExampleFiles(), EXAMPLE_CONFIG, files[..2])
            && Effective(Written(ExampleFiles(), EXAMPLE_CONFIG, "k", "1"), files, "k") == Some("1")
            && !Passes(ExampleFiles(), files, EXAMPLE_CONFIG, "k", "1", false)
  {
    hide IsListing, IsConf, Passes;
    var fs, files := ExampleFiles(), [EXAMPLE_CONFIG, EXAMPLE_OTHER, DEFAULT];
    assert Defines(Written(fs, EXAMPLE_CONFIG, "k", "1"), DEFAULT, "k");
    RestoredListing(fs, EXAMPLE_CONFIG, EXAMPLE_OTHER);
    assert files[..2] == [EXAMPLE_CONFIG, EXAMPLE_OTHER];
    ZeroIsNotOne();
    assert files[0 + 1..][0] == EXAMPLE_OTHER && !Agrees(fs, EXAMPLE_OTHER, "k", "1", false);
    NotPassing(fs, files, EXAMPLE_CONFIG, "k", "1", false, 0, 0);
  }

  lemma ZeroIsNotOne()
    ensures !SameValue("0", "1")
  {
    SolidIsOneWord("0", "");
    SolidIsOneWord("1", "");
    assert ("" + "0")[0] != ("" + "1")[0];
  }

  /** Values of several words, as those of a range of ports, are the same only if all words are. */
  lemma TwoWords(a: char, b: char)
    requires !IsSpace(a) && !IsSpace(b)
    ensures Words([a, ' ', b], "") == Words([' ', a, '\t', b, '\n'], "") == [[a], [b]]
  {
    SolidIsOneWord([a], "");
    SolidIsOneWord([b], "");
    assert "" + [a] == [a] && "" + [b] == [b];
    assert [a, ' ', b] == [a] + [' '] + [b] && [a, '\t', b] == [a] + ['\t'] + [b];
    SpaceSeparates([a], ' ', [b], "");
    SpaceSeparates([a], '\t', [b], "");
    assert [' ', a, '\t', b] == [] + [' '] + [a, '\t', b] && [' ', a, '\t', b, '\n'] == [' ', a, '\t', b] + ['\n'] + [];
    SpaceSeparates([], ' ', [a, '\t', b], "");
    SpaceSeparates([' ', a, '\t', b], '\n', [], "");
    assert [[a]] + [[b]] == [[a], [b]];
  }

  /** A later file that changes the upper bound of a range is refused; one that only spaces it otherwise is not. */
  lemma OtherBoundRefused(fs: Files, files: seq<Path>, config: Path, later: Path, name: string)
    requires files == [config, later] && config != later && Defines(fs, later, name)
    ensures fs[later].value[name] == "1 3" ==> !Passes(fs, files, config, name, "1 2", false)
    ensures fs[later].value[name] == " 1\t2\n" ==> Passes(fs, files, config, name, "1 2", false)
  {
    hide SameValue;
    TwoWords('1', '2');
    TwoWords('1', '3');
    DifferentBounds();
    assert files[0 + 1..] == [later] && files[..0] == [];
    if fs[later].value[name] == "1 3" {
      NotPassing(fs, files, config, name, "1 2", false, 0, 0);
    }
  }

  lemma DifferentBounds()
    ensures !SameValue("1 3", "1 2") && SameValue(" 1\t2\n", "1 2")
  {
    TwoWords('1', '2');
    TwoWords('1', '3');
    assert "1 3" == ['1', ' ', '3'] && "1 2" == ['1', ' ', '2'] && " 1\t2\n" == [' ', '1', '\t', '2', '\n'];
    assert [['1'], ['3']][1][0] != [['1'], ['2']][1][0];
  }

  lemma RestoredListing(fs: Files, config: Path, other: Path)
    requires config == Path(EtcSysctlD, "a.conf") && other == Path(EtcSysctlD, "b.conf")
    requires fs.Keys == {other, DEFAULT}
    ensures IsListing(fs, config, [config, other])
  {
    var files := [config, other];
    assert "a.conf"[0] < "b.conf"[0];
    assert Less("a.conf", "b.conf");
    assert NamesOf(files) == ["a.conf", "b.conf"];
    assert IsConf("b.conf");
    assert DIRECTORIES[1] == EtcSysctlD && DIRECTORIES[0] == RunSysctlD;
    assert !Offers(fs, config, RunSysctlD, "a.conf") && !Offers(fs, config, RunSysctlD, "b.conf");
    assert Provides(fs, config, EtcSysctlD, "a.conf");
    assert Provides(fs, config, EtcSysctlD, "b.conf");
    forall dir, name | dir in DIRECTORIES && Offers(fs, config, dir, name)
      ensures exists file | file in files :: file.name == name
    {
      assert config in files && other in files;
    }
  }

  lemma {:induction false} EffectiveIsLast(fs: Files, files: seq<Path>, name: string)
    ensures LastDefiner(fs, files, name).Some? ==>
              var last := LastDefiner(fs, files, name).value;
              Defines(fs, last, name) && Effective(fs, files, name) == Some(fs[last].value[name])
  {
    if files != [] {
      EffectiveIsLast(fs, files[..|files| - 1], name);
    }
  }
}
