/** Translating the attribute names of Kubernetes manifests into Python attribute names. */
module Names {

  predicate IsLower(c: char) {
    'a' <= c <= 'z'
  }

  predicate IsUpper(c: char) {
    'A' <= c <= 'Z'
  }

  predicate IsDigit(c: char) {
    '0' <= c <= '9'
  }

  /** Digits count as capitals. */
  predicate IsCap(c: char) {
    IsUpper(c) || IsDigit(c)
  }

  function LowerChar(c: char): char {
    if IsUpper(c) then (c as int + 32) as char else c
  }

  function Lower(s: string): string {
    seq(|s|, i requires 0 <= i < |s| => LowerChar(s[i]))
  }

  // The keywords of Python 3.
  const KEYWORDS: set<string> := {
    "False", "None", "True", "and", "as", "assert", "async", "await", "break", "class", "continue", "def", "del",
    "elif", "else", "except", "finally", "for", "from", "global", "if", "import", "in", "is", "lambda", "nonlocal",
    "not", "or", "pass", "raise", "return", "try", "while", "with", "yield"}

  // ----- The two substitutions -----

  /** At the start of `s`: a lower-case letter, then a capital or a digit. */
  predicate WordEnds(s: string) {
    |s| >= 2 && IsLower(s[0]) && IsCap(s[1])
  }

  /** At the start of `s`: two capitals or digits, then a lower-case letter. */
  predicate AcronymEnds(s: string) {
    |s| >= 3 && IsCap(s[0]) && IsCap(s[1]) && IsLower(s[2])
  }

  /** `re.sub("([a-z])([A-Z0-9])", "\1_\2", s)`: matches are taken from the left and do not overlap. */
  function SplitWords(s: string): string {
    if s == "" then ""
    else if WordEnds(s) then [s[0], '_', s[1]] + SplitWords(s[2..])
    else [s[0]] + SplitWords(s[1..])
  }

  /** `re.sub("([A-Z0-9])([A-Z0-9][a-z])", "\1_\2", s)`. */
  function SplitAcronyms(s: string): string {
    if s == "" then ""
    else if AcronymEnds(s) then [s[0], '_', s[1], s[2]] + SplitAcronyms(s[3..])
    else [s[0]] + SplitAcronyms(s[1..])
  }

  /** A key that takes neither of the special cases. */
  predicate Plain(key: string) {
    key !in KEYWORDS && !(key != "" && key[0] == '$')
  }

  // ----- The local rule -----

  /** An underscore belongs between the first two characters of `s`. */
  predicate Boundary(s: string) {
    WordEnds(s) || AcronymEnds(s)
  }

  function Gap(s: string): string {
    if Boundary(s) then "_" else ""
  }

  /** One pass: every character, followed by an underscore where there is a boundary. */
  function Spaced(s: string): string {
    if s == "" then "" else [s[0]] + Gap(s) + Spaced(s[1..])
  }

  /** The first substitution alone, in one pass. */
  function SpacedWords(s: string): string {
    if s == "" then "" else [s[0]] + (if WordEnds(s) then "_" else "") + SpacedWords(s[1..])
  }

  /** The second substitution alone, in one pass. */
  function SpacedAcronyms(s: string): string {
    if s == "" then "" else [s[0]] + (if AcronymEnds(s) then "_" else "") + SpacedAcronyms(s[1..])
  }

  lemma {:induction false} SplitWordsIsLocal(s: string)
    ensures SplitWords(s) == SpacedWords(s)
  {
    if s != "" {
      if WordEnds(s) {
        SplitWordsIsLocal(s[2..]);
        assert s[1..][1..] == s[2..] && !WordEnds(s[1..]);
        assert SpacedWords(s[1..]) == [s[1]] + "" + SpacedWords(s[2..]);
        assert [s[0], '_', s[1]] + SplitWords(s[2..]) == [s[0]] + "_" + ([s[1]] + "" + SpacedWords(s[2..]));
      } else {
        SplitWordsIsLocal(s[1..]);
        assert [s[0]] + "" + SpacedWords(s[1..]) == [s[0]] + SpacedWords(s[1..]);
      }
    }
  }

  lemma NoAcronymNext(s: string)
    requires s != "" && !AcronymEnds(s)
    ensures SpacedAcronyms(s) == [s[0]] + SpacedAcronyms(s[1..])
  {
    assert [s[0]] + "" == [s[0]];
  }

  lemma {:induction false} SplitAcronymsIsLocal(s: string)
    ensures SplitAcronyms(s) == SpacedAcronyms(s)
  {
    if s != "" {
      if AcronymEnds(s) {
        var s1, s2, s3 := s[1..], s[2..], s[3..];
        assert s1[1..] == s2 && s2[1..] == s3;
        SplitAcronymsIsLocal(s3);
        NoAcronymNext(s1);
        NoAcronymNext(s2);
        assert [s[0], '_', s[1], s[2]] + SpacedAcronyms(s3) == [s[0]] + "_" + ([s[1]] + ([s[2]] + SpacedAcronyms(s3)));
      } else {
        SplitAcronymsIsLocal(s[1..]);
        NoAcronymNext(s);
      }
    }
  }

  /** What a name split into words starts with. */
  lemma SpacedWordsHead(s: string)
    requires s != ""
    ensures SpacedWords(s) != "" && SpacedWords(s)[0] == s[0]
    ensures SpacedWords(s)[1..] == (if WordEnds(s) then "_" else "") + SpacedWords(s[1..])
  {
    var rest := (if WordEnds(s) then "_" else "") + SpacedWords(s[1..]);
    assert SpacedWords(s) == [s[0]] + rest;
  }

  /** Splitting into words first hides no end of an acronym, and makes none. */
  lemma AcronymsUnmoved(s: string)
    requires s != ""
    ensures AcronymEnds(SpacedWords(s)) <==> AcronymEnds(s)
  {
    SpacedWordsHead(s);
    if |s| >= 2 {
      SpacedWordsHead(s[1..]);
      if |s| >= 3 {
        SpacedWordsHead(s[2..]);
        assert s[2..][1..] == s[3..] && s[1..][1..] == s[2..];
      }
    }
  }

  /** The two substitutions insert at different places, so one after the other is both at once. */
  lemma {:induction false} BothAtOnce(s: string)
    ensures SpacedAcronyms(SpacedWords(s)) == Spaced(s)
  {
    if s != "" {
      var t, rest := SpacedWords(s), SpacedWords(s[1..]);
      AcronymsUnmoved(s);
      SpacedWordsHead(s);
      BothAtOnce(s[1..]);
      if WordEnds(s) {
        assert t[1..] == "_" + rest && t[1..][1..] == rest;
        NoAcronymNext(t);
        NoAcronymNext(t[1..]);
        assert [s[0]] + ("_" + Spaced(s[1..])) == [s[0]] + "_" + Spaced(s[1..]);
      } else {
        assert t[1..] == rest;
      }
    }
  }

  /** Keywords get an underscore, `$` is dropped, and other keys follow the local rule in lower case. */
  function Translated(key: string): string {
    if key in KEYWORDS then "_" + key
    else if key != "" && key[0] == '$' then key[1..]
    else Lower(Spaced(key))
  }

  /** The two successive substitutions are the local rule. */
  method ConvertAttributeName(key: string) returns (name: string)
    ensures name == Translated(key)
  {
    if key in KEYWORDS {
      return "_" + key;
    }
    if key != "" && key[0] == '$' {
      return key[1..];
    }
    name := key;
    for pattern := 0 to 2
      invariant pattern == 0 ==> name == key
      invariant pattern == 1 ==> name == SpacedWords(key)
      invariant pattern == 2 ==> name == Spaced(key)
    {
      if pattern == 0 {
        SplitWordsIsLocal(name);
        name := SplitWords(name);
      } else {
        SplitAcronymsIsLocal(name);
        BothAtOnce(key);
        name := SplitAcronyms(name);
      }
    }
    name := Lower(name);
  }

  // ----- What translation keeps -----

  function WithoutUnderscores(s: string): string {
    if s == "" then ""
    else (if s[0] == '_' then "" else [s[0]]) + WithoutUnderscores(s[1..])
  }

  lemma {:induction false} WithoutUnderscoresConcat(s: string, t: string)
    ensures WithoutUnderscores(s + t) == WithoutUnderscores(s) + WithoutUnderscores(t)
  {
    if s == "" {
      assert s + t == t;
    } else {
      assert (s + t)[1..] == s[1..] + t;
      WithoutUnderscoresConcat(s[1..], t);
    }
  }

  lemma LowerConcat(s: string, t: string)
    ensures Lower(s + t) == Lower(s) + Lower(t)
  {
  }

  lemma {:induction false} SpacingAddsUnderscoresOnly(s: string)
    ensures WithoutUnderscores(Lower(Spaced(s))) == WithoutUnderscores(Lower(s))
  {
    if s != "" {
      SpacingAddsUnderscoresOnly(s[1..]);
      var head: string := [s[0]];
      assert s == head + s[1..];
      LowerConcat(head, s[1..]);
      LowerConcat(head + Gap(s), Spaced(s[1..]));
      LowerConcat(head, Gap(s));
      WithoutUnderscoresConcat(Lower(head), Lower(s[1..]));
      WithoutUnderscoresConcat(Lower(head + Gap(s)), Lower(Spaced(s[1..])));
      WithoutUnderscoresConcat(Lower(head), Lower(Gap(s)));
      assert Lower(Gap(s)) == Gap(s);
      assert WithoutUnderscores(Gap(s)) == "";
    }
  }

  /** Up to underscores, translation only changes the case. */
  lemma TranslationKeepsLetters(key: string)
    requires Plain(key)
    ensures WithoutUnderscores(Translated(key)) == WithoutUnderscores(Lower(key))
  {
    SpacingAddsUnderscoresOnly(key);
  }

  // ----- Translating twice -----

  function LowerSpaced(s: string): string {
    Lower(Spaced(s))
  }

  predicate NoBoundary(s: string) {
    s == "" || (!Boundary(s) && NoBoundary(s[1..]))
  }

  /**
   The start of `s` becomes a boundary only once it is in lower case: a capital
   letter stuck to a digit, or two digits stuck to a capital letter.
   */
  predicate Unstable(s: string) {
    || (|s| >= 2 && IsUpper(s[0]) && IsDigit(s[1]) && !(|s| >= 3 && IsLower(s[2])))
    || (|s| >= 3 && IsDigit(s[0]) && IsDigit(s[1]) && IsUpper(s[2]) && !(|s| >= 4 && IsLower(s[3])))
  }

  predicate Stable(s: string) {
    s == "" || (!Unstable(s) && Stable(s[1..]))
  }

  lemma LowerSpacedHead(s: string)
    requires s != ""
    ensures LowerSpaced(s) != "" && LowerSpaced(s)[0] == LowerChar(s[0])
    ensures LowerSpaced(s)[1..] == Gap(s) + LowerSpaced(s[1..])
  {
    var head: string := [s[0]];
    LowerConcat(head + Gap(s), Spaced(s[1..]));
    LowerConcat(head, Gap(s));
    assert Lower(Gap(s)) == Gap(s);
    assert LowerSpaced(s) == [LowerChar(s[0])] + (Gap(s) + LowerSpaced(s[1..]));
  }

  /** The first characters of a translated name have a boundary exactly when those of the key are unstable. */
  lemma BoundaryMeansUnstable(s: string)
    requires s != ""
    ensures Boundary(LowerSpaced(s)) <==> Unstable(s)
  {
    LowerSpacedHead(s);
    if |s| >= 2 {
      LowerSpacedHead(s[1..]);
      if |s| >= 3 {
        LowerSpacedHead(s[2..]);
        assert s[1..][1..] == s[2..];
      }
    }
  }

  lemma {:induction false} NoBoundaryMeansStable(s: string)
    ensures NoBoundary(LowerSpaced(s)) <==> Stable(s)
  {
    if s != "" {
      var r, rest := LowerSpaced(s), LowerSpaced(s[1..]);
      BoundaryMeansUnstable(s);
      LowerSpacedHead(s);
      NoBoundaryMeansStable(s[1..]);
      if Boundary(s) {
        assert ("_" + rest)[1..] == rest;
      } else {
        assert "" + rest == rest;
      }
    }
  }

  lemma {:induction false} SpacedIsLonger(s: string)
    ensures |Spaced(s)| >= |s|
    ensures |Spaced(s)| == |s| <==> NoBoundary(s)
    ensures NoBoundary(s) ==> Spaced(s) == s
  {
    if s != "" {
      SpacedIsLonger(s[1..]);
      assert s == [s[0]] + s[1..];
    }
  }

  lemma {:induction false} LowerTwice(s: string)
    ensures Lower(Lower(s)) == Lower(s)
  {
  }

  /** Boundaries and lower case, by the characters of ASCII. */
  lemma CharactersMean(s: string, c: char)
    ensures WordEnds(s) <==> |s| >= 2 && 'a' <= s[0] <= 'z' && ('A' <= s[1] <= 'Z' || '0' <= s[1] <= '9')
    ensures AcronymEnds(s) <==>
            && |s| >= 3 && ('A' <= s[0] <= 'Z' || '0' <= s[0] <= '9')
            && ('A' <= s[1] <= 'Z' || '0' <= s[1] <= '9') && 'a' <= s[2] <= 'z'
    ensures LowerChar(c) as int - c as int == if 'A' <= c <= 'Z' then 'a' as int - 'A' as int else 0
  {
  }

  lemma SpacedAt(s: string, i: nat)
    requires i < |s|
    ensures LowerSpaced(s[i..]) == [LowerChar(s[i])] + Gap(s[i..]) + LowerSpaced(s[i + 1..])
  {
    LowerSpacedHead(s[i..]);
    assert s[i..][1..] == s[i + 1..];
    var r := LowerSpaced(s[i..]);
    assert r == [r[0]] + r[1..];
  }

  /** The examples of the documentation that show how words and acronyms are split. */
  lemma DocumentedNames()
    ensures Translated("volumeID") == "volume_id"
    ensures Translated("JSONPath") == "json_path"
    ensures Translated("continue") == "_continue" && Translated("$ref") == "ref"
  {
    hide Lower, Spaced;
    VolumeId();
    JsonPath();
    assert Lower(Spaced("volumeID")) == LowerSpaced("volumeID");
    assert Lower(Spaced("JSONPath")) == LowerSpaced("JSONPath");
    assert "$ref"[1..] == "ref";
  }

  lemma EmptyName()
    ensures LowerSpaced("") == ""
  {
  }

  lemma Path()
    ensures LowerSpaced("Path") == "path"
  {
    hide LowerSpaced, Lower, Spaced;
    var s := "Path";
    assert s[0..] == s && s[4..] == "";
    EmptyName();
    SpacedAt(s, 0);
    SpacedAt(s, 1);
    SpacedAt(s, 2);
    SpacedAt(s, 3);
  }

  lemma JsonPath()
    ensures LowerSpaced("JSONPath") == "json_path"
  {
    hide LowerSpaced, Lower, Spaced;
    var s := "JSONPath";
    assert s[0..] == s && s[4..] == "Path";
    Path();
    SpacedAt(s, 0);
    SpacedAt(s, 1);
    SpacedAt(s, 2);
    SpacedAt(s, 3);
  }

  lemma MeId()
    ensures LowerSpaced("meID") == "me_id"
  {
    hide LowerSpaced, Lower, Spaced;
    var s := "meID";
    assert s[0..] == s && s[4..] == "";
    EmptyName();
    SpacedAt(s, 0);
    SpacedAt(s, 1);
    SpacedAt(s, 2);
    SpacedAt(s, 3);
  }

  lemma VolumeId()
    ensures LowerSpaced("volumeID") == "volume_id"
  {
    hide LowerSpaced, Lower, Spaced;
    var s := "volumeID";
    assert s[0..] == s && s[4..] == "meID";
    MeId();
    SpacedAt(s, 0);
    SpacedAt(s, 1);
    SpacedAt(s, 2);
    SpacedAt(s, 3);
  }

  /** Translation is not idempotent: "A1" becomes "a1", which becomes "a_1". */
  lemma NotIdempotent()
    ensures Translated("A1") == "a1" && Translated("a1") == "a_1"
  {
    assert "a1" !in KEYWORDS && "A1" !in KEYWORDS;
    assert "A1"[1..] == "1" && "a1"[1..] == "1" && "1"[1..] == "";
    assert Spaced("") == "" && Spaced("1") == "1" + "" + "";
    assert Spaced("A1") == "A" + "" + "1" && Spaced("a1") == "a" + "_" + "1";
  }

  /** A name that translation leaves alone: no special case, no capital and no boundary. */
  lemma FixedExactlyWhen(name: string)
    ensures Translated(name) == name <==> Plain(name) && Lower(name) == name && NoBoundary(name)
  {
    if Plain(name) {
      assert Translated(name) == LowerSpaced(name) && |LowerSpaced(name)| == |Spaced(name)|;
      SpacedIsLonger(name);
    } else {
      assert |Translated(name)| != |name|;
    }
  }

  // The keywords with a capital.
  const CAPITAL_KEYWORDS: set<string> := {"False", "None", "True"}

  lemma KeywordLetters(key: string)
    requires key in KEYWORDS
    ensures key != "" && IsUpper(key[0]) <==> key in CAPITAL_KEYWORDS
    ensures key !in CAPITAL_KEYWORDS ==> forall i | 0 <= i < |key| :: IsLower(key[i])
    ensures key == "" || key[0] != '_'
  {
  }

  lemma {:induction false} LettersHaveNoBoundary(s: string)
    requires forall i | 0 <= i < |s| :: IsLower(s[i]) || s[i] == '_'
    ensures NoBoundary(s) && Lower(s) == s
  {
    if s != "" {
      LettersHaveNoBoundary(s[1..]);
    }
  }

  /**
   When translating twice is translating once. A keyword has no capital; what is
   left of a key after `$` is left alone; and otherwise the name is no keyword and
   nothing in the key is unstable.
   */
  lemma IdempotentExactlyWhen(key: string)
    ensures Translated(Translated(key)) == Translated(key) <==>
            if key in KEYWORDS then key !in CAPITAL_KEYWORDS
            else if key != "" && key[0] == '$' then
              Plain(key[1..]) && Lower(key[1..]) == key[1..] && NoBoundary(key[1..])
            else Translated(key) !in KEYWORDS && Stable(key)
  {
    FixedExactlyWhen(Translated(key));
    if key in KEYWORDS {
      KeywordTwice(key);
    } else if Plain(key) {
      PlainTwice(key);
    }
  }

  lemma KeywordTwice(key: string)
    requires key in KEYWORDS
    ensures var name := "_" + key;
            Plain(name) && (Lower(name) == name && NoBoundary(name) <==> key !in CAPITAL_KEYWORDS)
  {
    var name := "_" + key;
    KeywordLetters(key);
    if name in KEYWORDS {
      KeywordLetters(name);
    }
    if key in CAPITAL_KEYWORDS {
      assert Lower(name)[1] != name[1];
    } else {
      LettersHaveNoBoundary(name);
    }
  }

  lemma PlainTwice(key: string)
    requires Plain(key)
    ensures var name := LowerSpaced(key);
            Plain(name) && Lower(name) == name && NoBoundary(name) <==> name !in KEYWORDS && Stable(key)
  {
    if key != "" {
      LowerSpacedHead(key);
    }
    NoBoundaryMeansStable(key);
    LowerTwice(Spaced(key));
  }
}
