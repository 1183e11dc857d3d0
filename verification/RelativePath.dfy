/** Paths below root_dir, their order, and which lie at or below which. */
module RelativePath {
  import opened Texts

  /** Below `base`, in whole elements; `base` itself is not. */
  predicate IsBelow(path: string, base: string) {
    |base| < |path| && path[..|base|] == base && path[|base|] == SLASH
  }

  predicate IsWithin(path: string, base: string) {
    path == base || IsBelow(path, base)
  }

  /** At or below `base`, where the empty path is root_dir itself. */
  predicate CoveredBy(path: string, base: string) {
    base == "" || IsWithin(path, base)
  }

  /** At or below root_dir is everything; at or below another path is the path itself and what continues it
      behind a "/". */
  lemma CoveredExactly(path: string, base: string)
    ensures CoveredBy(path, base) <==> base == "" || path == base || base + "/" <= path
  {
    if base + "/" <= path {
      assert (base + "/")[|base|] == path[|base|];
    }
    if IsBelow(path, base) {
      assert base + "/" == path[..|base| + 1];
    }
  }

  /** The paths above `path`, nearest first. */
  function Ancestors(path: string): seq<string> {
    AncestorsUpTo(path, |path|)
  }

  function AncestorsUpTo(path: string, end: nat): seq<string>
    requires end <= |path|
  {
    if end == 0 then []
    else (if path[end - 1] == SLASH then [path[..end - 1]] else []) + AncestorsUpTo(path, end - 1)
  }

  lemma {:induction false} AncestorsAreBelow(path: string, base: string, end: nat)
    requires end <= |path|
    ensures base in AncestorsUpTo(path, end) <==> IsBelow(path, base) && |base| < end
  {
    if end > 0 {
      AncestorsAreBelow(path, base, end - 1);
      if |base| == end - 1 {
        assert base == path[..end - 1] <==> path[..|base|] == base;
      }
    }
  }

  /** Being below a path is having it among the ancestors. */
  lemma BelowIsHavingAncestor(path: string, base: string)
    ensures IsBelow(path, base) <==> base in Ancestors(path)
  {
    AncestorsAreBelow(path, base, |path|);
  }

  predicate Kept(element: string) {
    element != "" && element != "."
  }

  function KeptElements(elements: seq<string>): (kept: seq<string>)
    ensures forall e :: e in kept ==> e in elements && Kept(e)
  {
    if elements == [] then []
    else (if Kept(elements[0]) then [elements[0]] else []) + KeptElements(elements[1..])
  }

  /** Without "." and empty elements. */
  function Normalized(path: string): string {
    Join(KeptElements(Split(path)))
  }

  lemma {:induction false} KeptStay(elements: seq<string>)
    requires forall e :: e in elements ==> Kept(e)
    ensures KeptElements(elements) == elements
  {
    if elements != [] {
      KeptStay(elements[1..]);
    }
  }

  /** Normalizing once is enough. */
  lemma NormalizedIsStable(path: string)
    ensures Normalized(Normalized(path)) == Normalized(path)
  {
    var kept := KeptElements(Split(path));
    ElementsHaveNoSlash(path);
    forall i | 0 <= i < |kept| ensures SLASH !in kept[i] {
      assert kept[i] in kept;
    }
    if kept == [] {
      assert Split("") == [""];
      assert KeptElements([""]) == KeptElements([""][1..]);
    } else {
      SplitJoin(kept);
      KeptStay(kept);
    }
  }

  lemma {:induction false} KeptInBoth(a: seq<string>, b: seq<string>)
    ensures KeptElements(a + b) == KeptElements(a) + KeptElements(b)
  {
    if a == [] {
      assert a + b == b;
    } else {
      hide Kept;
      KeptInBoth(a[1..], b);
      assert (a + b)[0] == a[0] && (a + b)[1..] == a[1..] + b;
      var first := if Kept(a[0]) then [a[0]] else [];
      assert first + (KeptElements(a[1..]) + KeptElements(b)) == first + KeptElements(a[1..]) + KeptElements(b);
    }
  }

  lemma {:induction false} JoinBoth(a: seq<string>, b: seq<string>)
    requires a != [] && b != []
    ensures Join(a + b) == Join(a) + "/" + Join(b)
  {
    assert (a + b)[1..] == a[1..] + b;
    if |a| > 1 {
      JoinBoth(a[1..], b);
    }
  }

  /** Text without "/" stays as it is, apart from "."; and around a "/" both sides are normalized, with the
      "/" kept only between two that are not empty. This says what every path is normalized to. */
  lemma NormalizedExactly(a: string, b: string)
    ensures SLASH !in a ==> Normalized(a) == if a == "." then "" else a
    ensures Normalized(a + "/" + b)
         == if Normalized(a) == "" then Normalized(b)
            else if Normalized(b) == "" then Normalized(a)
            else Normalized(a) + "/" + Normalized(b)
  {
    if SLASH !in a {
      SplitElement(a);
      assert [a][1..] == [];
      assert KeptElements([a]) == if Kept(a) then [a] else [];
    }
    SplitAround(a, b);
    assert a + "/" + b == a + [SLASH] + b;
    var x, y := KeptElements(Split(a)), KeptElements(Split(b));
    KeptInBoth(Split(a), Split(b));
    KeptIsEmpty(x);
    KeptIsEmpty(y);
    if x != [] && y != [] {
      JoinBoth(x, y);
    } else {
      assert x + y == if x == [] then y else x;
    }
  }

  lemma KeptIsEmpty(kept: seq<string>)
    requires forall e :: e in kept ==> Kept(e)
    ensures Join(kept) == "" <==> kept == []
  {
    if kept != [] {
      assert kept[0] in kept;
    }
  }

  /** Of two paths above the same one, one is above the other. */
  lemma Comparable(path: string, a: string, b: string)
    requires IsWithin(path, a) && IsWithin(path, b)
    ensures IsWithin(a, b) || IsWithin(b, a)
  {
    if |a| < |b| {
      assert b == path[..|b|] && b[..|a|] == path[..|a|];
    } else {
      assert a == path[..|a|] && a[..|b|] == path[..|b|];
    }
  }

  lemma WithinIsTransitive(path: string, a: string, b: string)
    requires IsWithin(path, a) && IsWithin(a, b)
    ensures IsWithin(path, b)
  {
    if path != a && a != b {
      assert path[..|b|] == path[..|a|][..|b|];
    }
  }

  // ----- The order of paths, byte by byte -----

  predicate LexLe(a: string, b: string) {
    a == "" || (b != "" && (a[0] < b[0] || (a[0] == b[0] && LexLe(a[1..], b[1..]))))
  }

  lemma {:induction false} PrefixComesFirst(a: string, b: string)
    requires a <= b
    ensures LexLe(a, b)
  {
    if a != "" {
      assert a[0] == b[..|a|][0];
      assert a[1..] <= b[1..];
      PrefixComesFirst(a[1..], b[1..]);
    }
  }

  lemma {:induction false} LexAntisymmetric(a: string, b: string)
    requires LexLe(a, b) && LexLe(b, a)
    ensures a == b
  {
    if a != "" && b != "" {
      LexAntisymmetric(a[1..], b[1..]);
      assert a == [a[0]] + a[1..] && b == [b[0]] + b[1..];
    }
  }

  lemma {:induction false} LexTransitive(a: string, b: string, c: string)
    requires LexLe(a, b) && LexLe(b, c)
    ensures LexLe(a, c)
  {
    if a != "" && b != "" && c != "" && a[0] == b[0] == c[0] {
      LexTransitive(a[1..], b[1..], c[1..]);
    }
  }

  lemma {:induction false} LexTotal(a: string, b: string)
    ensures LexLe(a, b) || LexLe(b, a)
  {
    if a != "" && b != "" && a[0] == b[0] {
      LexTotal(a[1..], b[1..]);
    }
  }

  /** The order is byte by byte: what is equal so far decides nothing, and a text that ends comes first. */
  lemma {:induction false} LexLeExactly(a: string, b: string)
    ensures LexLe(a, b) <==> a <= b || exists k :: 0 <= k < |a| && k < |b| && a[..k] == b[..k] && a[k] < b[k]
  {
    if a != "" && b != "" {
      var x, y := a[1..], b[1..];
      LexLeExactly(x, y);
      assert a == [a[0]] + x && b == [b[0]] + y;
      forall k | 0 <= k < |a| && k < |b| && a[..k] == b[..k] ensures k == 0 || a[0] == b[0] {
        assert k > 0 ==> a[..k][0] == a[0] && b[..k][0] == b[0];
      }
      if a[0] == b[0] {
        assert a <= b <==> x <= y;
        if k :| 0 <= k < |x| && k < |y| && x[..k] == y[..k] && x[k] < y[k] {
          assert a[..k + 1] == [a[0]] + x[..k] && b[..k + 1] == [b[0]] + y[..k];
          assert a[k + 1] < b[k + 1];
        }
        if k :| 0 <= k < |a| && k < |b| && a[..k] == b[..k] && a[k] < b[k] {
          assert k > 0;
          assert x[..k - 1] == a[..k][1..] && y[..k - 1] == b[..k][1..];
          assert x[k - 1] < y[k - 1];
        }
      } else if a[0] < b[0] {
        assert a[..0] == b[..0];
      }
    }
  }

  /** A path comes before everything below it. */
  lemma AboveComesFirst(path: string, base: string)
    requires IsWithin(path, base)
    ensures LexLe(base, path)
  {
    assert path[..|base|] == base;
    PrefixComesFirst(base, path);
  }
}
