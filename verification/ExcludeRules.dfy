/** What the exclude patterns mean, told from the text of a path. */
module ExcludeRules {
  import opened Texts
  import opened Exclude

  /** The text up to the end of one of its elements, an element that is not empty. */
  ghost predicate FrontOf(q: string, text: string) {
    q != "" && q[|q| - 1] != SLASH && (q == text || q + "/" <= text)
  }

  /** A pattern with a "/" hits a front part it matches as a glob; one that ends in a slash and two stars also
      hits the directory itself, by its text or as a glob. */
  ghost predicate HitsFront(glob: Glob, pattern: string, q: string) {
    glob(pattern, q) || exists d :: pattern == d + "/**" && (q == d || glob(d, q))
  }

  ghost predicate ParentInside(pattern: string) {
    exists i :: 0 <= i < |pattern| - 2 && pattern[i] == '.' && pattern[i + 1] == '.' && pattern[i + 2] == '/'
  }

  /** A pattern with "../" hits nothing; with a "/" it is matched with the front parts of the path, and
      without one with single elements. */
  ghost predicate Hits(glob: Glob, pattern: string, text: string) {
    && !ParentInside(pattern)
    && if SLASH in pattern then exists q :: FrontOf(q, text) && HitsFront(glob, pattern, q)
       else exists e :: e in Split(text) && e != "" && glob(pattern, e)
  }

  lemma LastCharacter(elements: seq<string>, k: nat)
    requires 1 <= k <= |elements| && elements[k - 1] != "" && SLASH !in elements[k - 1]
    ensures Join(elements[..k]) != "" && Join(elements[..k])[|Join(elements[..k])| - 1] != SLASH
  {
    JoinGrows(elements, k - 1);
    var q, e := Join(elements[..k]), elements[k - 1];
    assert q[|q| - 1] == e[|e| - 1];
    assert e[|e| - 1] in e;
  }

  lemma LastElement(q: string)
    requires q != "" && q[|q| - 1] != SLASH
    ensures Split(q)[|Split(q)| - 1] != ""
  {
    var elements := Split(q);
    var n := |elements|;
    JoinSplit(q);
    assert elements[..n] == elements;
    JoinGrows(elements, n - 1);
    assert q == (if n == 1 then "" else Join(elements[..n - 1]) + "/") + elements[n - 1];
  }

  /** The front parts are the joins of the first elements. */
  lemma FrontIsPrefix(text: string, k: nat)
    requires 1 <= k <= |Split(text)| && Split(text)[k - 1] != ""
    ensures FrontOf(Join(Split(text)[..k]), text)
  {
    var elements := Split(text);
    JoinSplit(text);
    ElementsHaveNoSlash(text);
    LastCharacter(elements, k);
    if k < |elements| {
      JoinGrows(elements, k);
      PrefixOfText(elements, k);
    } else {
      assert elements[..k] == elements;
    }
  }

  lemma PrefixOfFront(text: string, q: string) returns (k: nat)
    requires FrontOf(q, text)
    ensures 1 <= k <= |Split(text)| && Split(text)[k - 1] != "" && Join(Split(text)[..k]) == q
  {
    k := |Split(q)|;
    LastElement(q);
    JoinSplit(q);
    if q == text {
      assert Split(text)[..k] == Split(text);
    } else {
      var rest := text[|q| + 1..];
      assert text == q + "/" + rest by { assert text == text[..|q| + 1] + rest; }
      SplitAround(q, rest);
      assert text == q + [SLASH] + rest;
      assert Split(text)[..k] == Split(q);
    }
  }

  lemma ParentStepIsInside(pattern: string)
    ensures HasParentStep(pattern) <==> ParentInside(pattern)
  {
    if HasParentStep(pattern) {
      var i :| 0 <= i < |pattern| && ParentStepAt(pattern, i);
      assert pattern[i..i + 3][0] == '.' && pattern[i..i + 3][1] == '.' && pattern[i..i + 3][2] == '/';
      assert pattern[i] == '.' && pattern[i + 1] == '.' && pattern[i + 2] == '/';
    }
    if ParentInside(pattern) {
      var i :| 0 <= i < |pattern| - 2 && pattern[i] == '.' && pattern[i + 1] == '.' && pattern[i + 2] == '/';
      assert pattern[i..i + 3] == "../";
      assert ParentStepAt(pattern, i);
    }
  }

  lemma PathPatternMatches(glob: Glob, pattern: string, q: string)
    requires SLASH in pattern
    ensures Matches(glob, q, pattern) <==> !ParentInside(pattern) && HitsFront(glob, pattern, q)
  {
    ParentStepIsInside(pattern);
    hide HasParentStep, ParentInside;
    var strip := StripStars(pattern);
    if strip.Some? {
      assert pattern == strip.value + "/**";
    }
    forall d | pattern == d + "/**" ensures strip == Some(d) {
      assert pattern[..|pattern| - 3] == d;
      assert pattern[|pattern| - 3..] == "/**";
    }
  }

  /** A path is excluded exactly if some pattern hits it or a directory above it. */
  lemma ExcludedExactly(glob: Glob, escape: Escape, patterns: seq<string>, path: string)
    ensures IsExcluded(glob, escape, patterns, path) <==> exists p :: p in patterns && Hits(glob, p, escape(path))
  {
    var text := escape(path);
    hide Matches, Split, Join, Hits;
    if IsExcluded(glob, escape, patterns, path) {
      var k: nat :| ExcludedAt(glob, patterns, Split(text), k);
      var p :| p in patterns && Matches(glob, Join(Split(text)[..k]), p);
      MatchHits(glob, text, k, p);
    }
    if p :| p in patterns && Hits(glob, p, text) {
      var k := HitMatches(glob, text, p);
      assert IsPathExcluded(glob, Join(Split(text)[..k]), patterns);
      assert ExcludedAt(glob, patterns, Split(text), k);
    }
  }

  lemma MatchHits(glob: Glob, text: string, k: nat, p: string)
    requires 1 <= k <= |Split(text)| && Split(text)[k - 1] != ""
    requires Matches(glob, Join(Split(text)[..k]), p)
    ensures Hits(glob, p, text)
  {
    ParentStepIsInside(p);
    var q := Join(Split(text)[..k]);
    FrontIsPrefix(text, k);
    if SLASH in p {
      PathPatternMatches(glob, p, q);
    } else {
      ElementPattern(glob, text, k, p);
      var e :| e in Split(text)[..k] && e != "" && glob(p, e);
      assert e in Split(text);
    }
  }

  lemma HitMatches(glob: Glob, text: string, p: string) returns (k: nat)
    requires Hits(glob, p, text)
    ensures 1 <= k <= |Split(text)| && Split(text)[k - 1] != "" && Matches(glob, Join(Split(text)[..k]), p)
  {
    ParentStepIsInside(p);
    if SLASH in p {
      var q :| FrontOf(q, text) && HitsFront(glob, p, q);
      k := PrefixOfFront(text, q);
      PathPatternMatches(glob, p, q);
    } else {
      var e :| e in Split(text) && e != "" && glob(p, e);
      var i :| 0 <= i < |Split(text)| && Split(text)[i] == e;
      k := i + 1;
      ElementPattern(glob, text, k, p);
      assert Split(text)[..k][i] == e;
      assert SomeElementMatches(glob, p, Split(text)[..k]);
    }
  }

  /** A pattern of a directory, a slash and two stars excludes the directory itself and everything below. */
  lemma StarsExcludeTheDirectory(glob: Glob, escape: Escape, patterns: seq<string>, dir: string, path: string)
    requires dir + "/**" in patterns && !ParentInside(dir + "/**")
    requires FrontOf(dir, escape(path))
    ensures IsExcluded(glob, escape, patterns, path)
  {
    var pattern := dir + "/**";
    assert pattern[|dir|] == SLASH;
    assert HitsFront(glob, pattern, dir);
    assert Hits(glob, pattern, escape(path));
    hide Hits;
    ExcludedExactly(glob, escape, patterns, path);
  }
}
