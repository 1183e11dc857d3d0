/** The exclude patterns of a scan. */
module Exclude {
  import opened Texts

  /** Glob matching of a pattern and a text, left to the glob library. */
  type Glob = (string, string) -> bool

  /** Writing the unreadable bytes of a name as escapes. */
  type Escape = string -> string

  /** Escaping works on each element by itself and keeps "/". */
  ghost predicate EscapesElements(escape: Escape) {
    && escape("") == ""
    && forall a, b {:trigger escape(a + "/" + b)} :: escape(a + "/" + b) == escape(a) + "/" + escape(b)
  }

  predicate ParentStepAt(pattern: string, i: int) {
    0 <= i && i + 3 <= |pattern| && pattern[i..i + 3] == "../"
  }

  predicate HasParentStep(pattern: string) {
    exists i :: 0 <= i < |pattern| && ParentStepAt(pattern, i)
  }

  function StripStars(pattern: string): Option<string> {
    if |pattern| >= 3 && pattern[|pattern| - 3..] == "/**" then Some(pattern[..|pattern| - 3]) else None
  }

  predicate SomeElementMatches(glob: Glob, pattern: string, elements: seq<string>) {
    exists e :: e in elements && e != "" && glob(pattern, e)
  }

  predicate Matches(glob: Glob, path: string, pattern: string) {
    if HasParentStep(pattern) then false
    else if SLASH in pattern then
      glob(pattern, path)
      || (StripStars(pattern).Some? && (path == StripStars(pattern).value || glob(StripStars(pattern).value, path)))
    else SomeElementMatches(glob, pattern, Split(path))
  }

  predicate IsPathExcluded(glob: Glob, path: string, patterns: seq<string>) {
    exists p :: p in patterns && Matches(glob, path, p)
  }

  /** The patterns by how they are applied. */
  datatype Patterns = Patterns(segments: seq<string>, paths: seq<string>)

  function Only(patterns: seq<string>, slashed: bool): (only: seq<string>)
    ensures forall p :: p in only <==> p in patterns && !HasParentStep(p) && (SLASH in p) == slashed
  {
    if patterns == [] then []
    else
      (if !HasParentStep(patterns[0]) && (SLASH in patterns[0]) == slashed then [patterns[0]] else [])
      + Only(patterns[1..], slashed)
  }

  function MakePatterns(patterns: seq<string>): Patterns {
    Patterns(Only(patterns, false), Only(patterns, true))
  }

  /** The simple rule: the path itself or an ancestor of it matches one of the patterns. */
  ghost predicate ExcludedAt(glob: Glob, patterns: seq<string>, elements: seq<string>, k: nat) {
    1 <= k <= |elements| && elements[k - 1] != "" && IsPathExcluded(glob, Join(elements[..k]), patterns)
  }

  ghost predicate SomePrefixExcluded(glob: Glob, patterns: seq<string>, elements: seq<string>) {
    exists k: nat :: ExcludedAt(glob, patterns, elements, k)
  }

  ghost predicate IsExcluded(glob: Glob, escape: Escape, patterns: seq<string>, path: string) {
    SomePrefixExcluded(glob, patterns, Split(escape(path)))
  }

  lemma {:induction false} JoinGrows(elements: seq<string>, k: nat)
    requires k < |elements|
    ensures Join(elements[..k + 1]) == (if k == 0 then elements[0] else Join(elements[..k]) + "/" + elements[k])
    decreases |elements|
  {
    if k > 0 {
      JoinGrows(elements[1..], k - 1);
      assert elements[..k + 1][1..] == elements[1..][..k];
      assert elements[..k][1..] == elements[1..][..k - 1];
      if k == 1 {
        assert elements[..1] == [elements[0]];
        assert elements[1..][..1] == [elements[1]];
      }
    } else {
      assert elements[..1] == [elements[0]];
    }
  }

  /** The text up to the end of element k is the join of the elements up to it. */
  lemma {:induction false} PrefixOfText(elements: seq<string>, k: nat)
    requires k < |elements|
    ensures Join(elements[..k + 1]) <= Join(elements)
    decreases |elements| - k
  {
    if k + 1 < |elements| {
      PrefixOfText(elements, k + 1);
      JoinGrows(elements, k + 1);
    } else {
      assert elements[..k + 1] == elements;
    }
  }

  /** The elements of a front part are the front elements. */
  lemma SplitOfFront(text: string, k: nat)
    requires 1 <= k <= |Split(text)|
    ensures Split(Join(Split(text)[..k])) == Split(text)[..k]
  {
    var front := Split(text)[..k];
    ElementsHaveNoSlash(text);
    SplitJoin(front);
  }

  /** Some element matches an element pattern. */
  ghost predicate ElementMatches(glob: Glob, segments: seq<string>, elements: seq<string>) {
    exists e :: e in elements && e != "" && IsPathExcluded(glob, e, segments)
  }

  /** A pattern without "/" looks at the elements of the path by themselves. */
  lemma ElementPattern(glob: Glob, text: string, k: nat, p: string)
    requires 1 <= k <= |Split(text)| && SLASH !in p && !HasParentStep(p)
    ensures Matches(glob, Join(Split(text)[..k]), p) == SomeElementMatches(glob, p, Split(text)[..k])
  {
    SplitOfFront(text, k);
    hide Split, Join, StripStars;
  }

  lemma LoneElementPattern(glob: Glob, text: string, e: string, p: string)
    requires e in Split(text) && SLASH !in p && !HasParentStep(p)
    ensures Matches(glob, e, p) == (e != "" && glob(p, e))
  {
    ElementsHaveNoSlash(text);
    SplitElement(e);
    hide Split, StripStars;
    assert Split(e)[0] == e;
  }

  /** A prefix that matches a pattern: an element of it matches, or it matches a path pattern. */
  lemma PrefixMatch(glob: Glob, patterns: seq<string>, text: string, k: nat)
    requires ExcludedAt(glob, patterns, Split(text), k)
    ensures ElementMatches(glob, MakePatterns(patterns).segments, Split(text))
         || ExcludedAt(glob, MakePatterns(patterns).paths, Split(text), k)
  {
    var elements, parts := Split(text), MakePatterns(patterns);
    var path := Join(elements[..k]);
    var p :| p in patterns && Matches(glob, path, p);
    assert !HasParentStep(p);
    hide Matches, Split, Join, HasParentStep;
    if SLASH in p {
      assert p in parts.paths;
      assert IsPathExcluded(glob, path, parts.paths);
    } else {
      assert p in parts.segments;
      ElementPattern(glob, text, k, p);
      var e :| e in elements[..k] && e != "" && glob(p, e);
      assert e in elements;
      LoneElementPattern(glob, text, e, p);
      assert IsPathExcluded(glob, e, parts.segments);
    }
  }

  /** An element that matches an element pattern: the prefix that ends with it matches. */
  lemma ElementMatch(glob: Glob, patterns: seq<string>, text: string, i: nat)
    requires i < |Split(text)| && Split(text)[i] != ""
    requires IsPathExcluded(glob, Split(text)[i], MakePatterns(patterns).segments)
    ensures ExcludedAt(glob, patterns, Split(text), i + 1)
  {
    var elements := Split(text);
    var e := elements[i];
    var p :| p in MakePatterns(patterns).segments && Matches(glob, e, p);
    assert p in patterns && SLASH !in p && !HasParentStep(p);
    hide Matches, Split, Join, HasParentStep, MakePatterns;
    LoneElementPattern(glob, text, e, p);
    ElementPattern(glob, text, i + 1, p);
    assert elements[..i + 1][i] == e;
    assert SomeElementMatches(glob, p, elements[..i + 1]);
    assert Matches(glob, Join(elements[..i + 1]), p);
  }

  /** Element patterns once for each element and path patterns on each prefix decide the simple rule. */
  lemma TwoWaysAgree(glob: Glob, patterns: seq<string>, text: string)
    ensures SomePrefixExcluded(glob, patterns, Split(text))
       <==> (|| ElementMatches(glob, MakePatterns(patterns).segments, Split(text))
             || SomePrefixExcluded(glob, MakePatterns(patterns).paths, Split(text)))
  {
    hide Split, Matches, MakePatterns, IsPathExcluded;
    var elements, parts := Split(text), MakePatterns(patterns);
    if SomePrefixExcluded(glob, patterns, elements) {
      var k: nat :| ExcludedAt(glob, patterns, elements, k);
      PrefixMatch(glob, patterns, text, k);
    }
    if ElementMatches(glob, parts.segments, elements) {
      var e :| e in elements && e != "" && IsPathExcluded(glob, e, parts.segments);
      var i :| 0 <= i < |elements| && elements[i] == e;
      ElementMatch(glob, patterns, text, i);
    }
    if SomePrefixExcluded(glob, parts.paths, elements) {
      var k: nat :| ExcludedAt(glob, parts.paths, elements, k);
      MorePatterns(glob, patterns, Join(elements[..k]));
      assert ExcludedAt(glob, patterns, elements, k);
    }
  }

  lemma MorePatterns(glob: Glob, patterns: seq<string>, path: string)
    requires IsPathExcluded(glob, path, MakePatterns(patterns).paths)
    ensures IsPathExcluded(glob, path, patterns)
  {
    hide Matches;
  }

  /** Element patterns, once for each element. */
  method ElementExcluded(glob: Glob, segments: seq<string>, elements: seq<string>) returns (excluded: bool)
    ensures excluded <==> ElementMatches(glob, segments, elements)
  {
    hide IsPathExcluded;
    for i := 0 to |elements|
      invariant forall k :: 0 <= k < i ==> elements[k] == "" || !IsPathExcluded(glob, elements[k], segments)
    {
      if elements[i] != "" && IsPathExcluded(glob, elements[i], segments) {
        assert elements[i] in elements;
        return true;
      }
    }
    return false;
  }

  /** The text up to the end of element `i`, from the text up to the end of the one before it. */
  lemma PrefixGrows(text: string, i: nat, prefixEnd: nat)
    requires i < |Split(text)|
    requires prefixEnd == if i == 0 then 0 else |Join(Split(text)[..i])| + 1
    ensures prefixEnd + |Split(text)[i]| == |Join(Split(text)[..i + 1])| <= |text|
    ensures text[..prefixEnd + |Split(text)[i]|] == Join(Split(text)[..i + 1])
  {
    hide Split, Join;
    JoinSplit(text);
    JoinGrows(Split(text), i);
    PrefixOfText(Split(text), i);
  }

  /** Path patterns, on a prefix that grows by one element at a time. */
  method PrefixExcluded(glob: Glob, paths: seq<string>, text: string) returns (excluded: bool)
    ensures excluded <==> SomePrefixExcluded(glob, paths, Split(text))
  {
    hide IsPathExcluded, Split, Join;
    var elements := Split(text);
    var prefixEnd := 0;
    for i := 0 to |elements|
      invariant prefixEnd == (if i == 0 then 0 else |Join(elements[..i])| + 1)
      invariant forall k: nat :: k <= i ==> !ExcludedAt(glob, paths, elements, k)
    {
      PrefixGrows(text, i, prefixEnd);
      prefixEnd := prefixEnd + |elements[i]|;
      if elements[i] != "" && IsPathExcluded(glob, text[..prefixEnd], paths) {
        assert ExcludedAt(glob, paths, elements, i + 1);
        return true;
      }
      prefixEnd := prefixEnd + 1;
    }
    return false;
  }

  /** The check as it runs: element patterns first, then path patterns on a growing prefix. */
  method Excludes(glob: Glob, escape: Escape, ghost patterns: seq<string>, parts: Patterns,
                  path: string) returns (excluded: bool)
    requires parts == MakePatterns(patterns)
    requires EscapesElements(escape)
    ensures excluded <==> IsExcluded(glob, escape, patterns, path)
  {
    if (parts.segments == [] && parts.paths == []) || path == "" {
      TwoWaysAgree(glob, patterns, escape(path));
      assert path == "" ==> Split(escape(path)) == [""];
      return false;
    }
    hide IsPathExcluded, Split, SomePrefixExcluded, EscapesElements, ElementMatches;
    var text := escape(path);
    TwoWaysAgree(glob, patterns, text);
    excluded := ElementExcluded(glob, parts.segments, Split(text));
    if !excluded {
      excluded := PrefixExcluded(glob, parts.paths, text);
    }
  }

  /** What is excluded is excluded with everything below it. */
  lemma ExclusionIsInherited(glob: Glob, escape: Escape, patterns: seq<string>, path: string, below: string)
    requires EscapesElements(escape)
    requires IsExcluded(glob, escape, patterns, path)
    ensures IsExcluded(glob, escape, patterns, path + "/" + below)
  {
    var elements, k: nat :| elements == Split(escape(path)) && ExcludedAt(glob, patterns, elements, k);
    SplitAround(escape(path), escape(below));
    var longer := Split(escape(path + "/" + below));
    assert longer == elements + Split(escape(below));
    assert longer[..k] == elements[..k];
    assert ExcludedAt(glob, patterns, longer, k);
  }
}
