/** Tidying the starts of a scan: without the excluded ones and those another start already reaches. */
module StartPaths {
  import opened Texts
  import opened RelativePath
  import opened Sorting
  import opened Exclude
  import opened Starts

  datatype StartPath = StartPath(path: string, withSelf: bool, descend: bool, group: nat, excluded: bool)

  function TidyStart(s: Start): StartPath {
    StartPath(Normalized(s.path), s.withSelf, s.descend, s.group, false)
  }

  function TidyStarts(starts: seq<Start>): (tidy: seq<StartPath>)
    ensures |tidy| == |starts| && forall i :: 0 <= i < |starts| ==> tidy[i] == TidyStart(starts[i])
  {
    seq(|starts|, i requires 0 <= i < |starts| => TidyStart(starts[i]))
  }

  /** By path; on one path descending starts first, then those that collect themselves. */
  predicate Before(a: StartPath, b: StartPath) {
    if a.path != b.path then LexLe(a.path, b.path)
    else if a.descend != b.descend then a.descend
    else a.withSelf || !b.withSelf
  }

  lemma BeforeIsTransitive(a: StartPath, b: StartPath, c: StartPath)
    requires Before(a, b) && Before(b, c)
    ensures Before(a, c)
  {
    if a.path != b.path && b.path != c.path {
      LexTransitive(a.path, b.path, c.path);
      if a.path == c.path {
        LexAntisymmetric(a.path, b.path);
      }
    }
  }

  lemma BeforeIsTotal(a: StartPath, b: StartPath)
    ensures Before(a, b) || Before(b, a)
  {
    LexTotal(a.path, b.path);
  }

  lemma BeforeIsOrder()
    ensures IsOrder(Before)
  {
    forall a, b ensures Before(a, b) || Before(b, a) {
      BeforeIsTotal(a, b);
    }
    forall a, b, c | Before(a, b) && Before(b, c) ensures Before(a, c) {
      BeforeIsTransitive(a, b, c);
    }
  }

  // ----- Covered starts -----

  /** The check as it runs: the path or a part of it before a "/" is in the set. */
  predicate CoveredByPrefix(path: string, descending: set<string>) {
    path in descending || exists end :: 0 <= end < |path| && path[end] == SLASH && path[..end] in descending
  }

  /** Looking prefixes up in the set is comparing with each path of the set. */
  lemma PrefixesDecideCover(path: string, descending: set<string>)
    ensures CoveredByPrefix(path, descending) <==> exists d :: d in descending && IsWithin(path, d)
  {
    if end :| 0 <= end < |path| && path[end] == SLASH && path[..end] in descending {
      assert IsBelow(path, path[..end]);
    }
    if d :| d in descending && IsBelow(path, d) {
      assert path[|d|] == SLASH && path[..|d|] in descending;
    }
  }

  // ----- The loop -----

  /** Everything `kept` reaches. */
  ghost predicate Collected(kept: seq<StartPath>, path: string) {
    exists s :: s in kept && s.descend && IsWithin(path, s.path)
  }

  /** No start lies at or below another one that descends. */
  ghost predicate Independent(kept: seq<StartPath>) {
    forall i, j :: 0 <= i < |kept| && 0 <= j < |kept| && i != j && kept[i].descend ==>
      !IsWithin(kept[j].path, kept[i].path)
  }

  /** What becomes of a start: another start reaches it, it is kept, or it is excluded, and then only a
      named directory is kept, for itself and not descending. */
  ghost predicate Settled(ctx: Exclusion, kept: seq<StartPath>, s: StartPath) {
    || Collected(kept, s.path)
    || s in kept
    || (ctx.Excluded(s.path) && s.withSelf && s.descend)
    || (ctx.Excluded(s.path) && !s.withSelf && s.(descend := false, excluded := true) in kept)
  }

  /** The patterns of a scan and how they are matched. */
  datatype Exclusion = Exclusion(glob: Glob, escape: Escape, patterns: seq<string>) {
    ghost predicate Excluded(path: string) {
      IsExcluded(glob, escape, patterns, path)
    }
  }

  /** After the starts `done`, in order. */
  ghost predicate Tidying(ctx: Exclusion, done: seq<StartPath>, kept: seq<StartPath>, descending: set<string>) {
    && (forall d :: d in descending <==> exists s :: s in kept && s.descend && s.path == d)
    && (forall k :: k in kept ==> exists s :: s in done && KeptFrom(ctx, s, k))
    && (forall s :: s in done ==> Settled(ctx, kept, s))
    && Independent(kept)
  }

  /** k is the start s, or its excluded form. */
  ghost predicate KeptFrom(ctx: Exclusion, s: StartPath, k: StartPath) {
    && k.path == s.path
    && (k == s || k == s.(descend := false, excluded := true))
    && (k == s && s.descend ==> !ctx.Excluded(s.path))
    && (k != s ==> ctx.Excluded(s.path) && !s.withSelf)
  }

  lemma KeepsIndependent(ctx: Exclusion, done: seq<StartPath>, kept: seq<StartPath>, descending: set<string>,
                         s: StartPath, k: StartPath)
    requires Tidying(ctx, done, kept, descending)
    requires forall d :: d in done ==> Before(d, s)
    requires forall d :: d in descending ==> !IsWithin(s.path, d)
    requires KeptFrom(ctx, s, k)
    ensures Independent(kept + [k])
  {
    hide Settled;
    var longer := kept + [k];
    forall i, j | 0 <= i < |longer| && 0 <= j < |longer| && i != j && longer[i].descend
      ensures !IsWithin(longer[j].path, longer[i].path)
    {
      if j == |kept| {
        assert longer[i] in kept;
        assert longer[i].path in descending;
      } else if i == |kept| {
        assert kept[j] in kept;
        var d :| d in done && KeptFrom(ctx, d, kept[j]);
        if IsWithin(d.path, s.path) {
          AboveComesFirst(d.path, s.path);
          assert Before(d, s);
          if d.path != s.path {
            LexAntisymmetric(d.path, s.path);
          }
          assert false;
        }
      }
    }
  }

  lemma SettledStays(ctx: Exclusion, kept: seq<StartPath>, k: StartPath, s: StartPath)
    requires Settled(ctx, kept, s)
    ensures Settled(ctx, kept + [k], s)
  {
    if Collected(kept, s.path) {
      var c :| c in kept && c.descend && IsWithin(s.path, c.path);
      assert c in kept + [k];
    }
  }

  lemma OneMoreKept(ctx: Exclusion, done: seq<StartPath>, kept: seq<StartPath>, descending: set<string>,
                    s: StartPath, k: StartPath)
    requires Tidying(ctx, done, kept, descending)
    requires forall d :: d in done ==> Before(d, s)
    requires forall d :: d in descending ==> !IsWithin(s.path, d)
    requires KeptFrom(ctx, s, k) && (k == s || s.(descend := false, excluded := true) == k)
    ensures Tidying(ctx, done + [s], kept + [k], if k.descend then descending + {k.path} else descending)
  {
    KeepsIndependent(ctx, done, kept, descending, s, k);
    hide Independent, Collected;
    var longer := kept + [k];
    forall d | d in done + [s] ensures Settled(ctx, longer, d) {
      if d in done { SettledStays(ctx, kept, k, d); } else { assert k in longer; }
    }
    forall x | x in longer ensures exists d :: d in done + [s] && KeptFrom(ctx, d, x) {
      if x in kept {
        var d :| d in done && KeptFrom(ctx, d, x);
        assert d in done + [s];
      } else {
        assert s in done + [s];
      }
    }
    var all := if k.descend then descending + {k.path} else descending;
    forall d ensures d in all <==> exists x :: x in longer && x.descend && x.path == d {
      if x :| x in longer && x.descend && x.path == d {
        assert x in kept || x == k;
      }
      if d in descending {
        var x :| x in kept && x.descend && x.path == d;
        assert x in longer;
      } else if d in all {
        assert k in longer;
      }
    }
  }

  lemma OneMoreDropped(ctx: Exclusion, done: seq<StartPath>, kept: seq<StartPath>, descending: set<string>,
                       s: StartPath)
    requires Tidying(ctx, done, kept, descending)
    requires Settled(ctx, kept, s)
    ensures Tidying(ctx, done + [s], kept, descending)
  {
    hide Independent, Settled;
    forall x | x in kept ensures exists d :: d in done + [s] && KeptFrom(ctx, d, x) {
      var d :| d in done && KeptFrom(ctx, d, x);
      assert d in done + [s];
    }
  }

  /** What tidying promises: a start at root_dir makes it a scan of everything, and otherwise every kept
      start comes from a start, none lies below another descending one, and every start is settled. */
  ghost predicate Tidied(ctx: Exclusion, starts: seq<Start>, whole: bool, kept: seq<StartPath>) {
    && (whole <==> exists s :: s in starts && Normalized(s.path) == "")
    && (whole ==> kept == [])
    && (!whole ==>
          && Independent(kept)
          && (forall k :: k in kept ==> exists s :: s in starts && KeptFrom(ctx, TidyStart(s), k))
          && (forall s :: s in starts ==> Settled(ctx, kept, TidyStart(s))))
  }

  /** k is the start s as it was given, or a named directory that is excluded and only looked at. */
  ghost predicate StandsFor(ctx: Exclusion, s: Start, k: StartPath) {
    && k.path == Normalized(s.path) && k.withSelf == s.withSelf && k.group == s.group
    && ((k.descend == s.descend && !k.excluded && (s.descend ==> !ctx.Excluded(k.path)))
        || (!s.withSelf && !k.descend && k.excluded && ctx.Excluded(k.path)))
  }

  /** A start is reached by another one, or is kept; an excluded one that would descend is only looked at if
      it is a named directory, and dropped if it is an include value. */
  ghost predicate AccountedFor(ctx: Exclusion, kept: seq<StartPath>, s: Start) {
    var path := Normalized(s.path);
    || (exists k :: k in kept && k.descend && (path == k.path || k.path + "/" <= path))
    || (exists k :: k in kept && StandsFor(ctx, s, k))
    || (ctx.Excluded(path) && s.withSelf && s.descend)
  }

  /** What tidying keeps are starts as they were given, and no start is lost. */
  lemma TidiedExactly(starts: seq<Start>, ctx: Exclusion, kept: seq<StartPath>)
    requires Tidied(ctx, starts, false, kept)
    ensures forall k :: k in kept ==> exists s :: s in starts && StandsFor(ctx, s, k)
    ensures forall s :: s in starts ==> AccountedFor(ctx, kept, s)
  {
    hide IsExcluded, Normalized, Independent;
    forall k | k in kept ensures exists s :: s in starts && StandsFor(ctx, s, k) {
      var s :| s in starts && KeptFrom(ctx, TidyStart(s), k);
      assert StandsFor(ctx, s, k);
    }
    forall s | s in starts ensures AccountedFor(ctx, kept, s) {
      StartIsSettled(ctx, kept, s);
    }
  }

  lemma StartIsSettled(ctx: Exclusion, kept: seq<StartPath>, s: Start)
    requires Settled(ctx, kept, TidyStart(s))
    requires forall k :: k in kept && k.descend ==> k.excluded || !ctx.Excluded(k.path)
    ensures AccountedFor(ctx, kept, s)
  {
    hide IsExcluded, Normalized;
    var t := TidyStart(s);
    if Collected(kept, t.path) {
      var k :| k in kept && k.descend && IsWithin(t.path, k.path);
      CoveredExactly(t.path, k.path);
      assert t.path == k.path || k.path + "/" <= t.path;
    } else if t in kept {
      assert StandsFor(ctx, s, t);
    } else if ctx.Excluded(t.path) && !t.withSelf {
      assert StandsFor(ctx, s, t.(descend := false, excluded := true));
    }
  }

  /** The starts of the scan, or that it is a scan of everything. */
  method TidyStartPaths(starts: seq<Start>, ctx: Exclusion, parts: Patterns) returns (whole: bool, kept: seq<StartPath>)
    requires EscapesElements(ctx.escape) && parts == MakePatterns(ctx.patterns)
    ensures Tidied(ctx, starts, whole, kept)
  {
    hide Tidying, Before, IsExcluded, Normalized;
    var normal := TidyStarts(starts);
    for i := 0 to |normal|
      invariant forall k :: 0 <= k < i ==> normal[k].path != ""
    {
      if normal[i].path == "" {
        assert starts[i] in starts;
        return true, [];
      }
    }
    var sorted := Sorted(normal, Before);
    BeforeIsOrder();
    SortedInOrder(normal, Before);
    kept := [];
    var descending: set<string> := {};
    NothingYet(ctx);
    for i := 0 to |sorted|
      invariant Tidying(ctx, sorted[..i], kept, descending)
    {
      var start := sorted[i];
      EarlierAreBefore(sorted, i);
      assert sorted[..i + 1] == sorted[..i] + [start];
      PrefixesDecideCover(start.path, descending);
      if CoveredByPrefix(start.path, descending) {
        CoveredIsCollected(ctx, sorted[..i], kept, descending, start.path);
        OneMoreDropped(ctx, sorted[..i], kept, descending, start);
        continue;
      }
      var itself := start.withSelf && !start.descend;
      var excluded := Excludes(ctx.glob, ctx.escape, ctx.patterns, parts, start.path);
      if itself || !excluded {
        OneMoreKept(ctx, sorted[..i], kept, descending, start, start);
        if start.descend {
          descending := descending + {start.path};
        }
        kept := kept + [start];
      } else if !start.withSelf {
        var k := start.(descend := false, excluded := true);
        OneMoreKept(ctx, sorted[..i], kept, descending, start, k);
        kept := kept + [k];
      } else {
        OneMoreDropped(ctx, sorted[..i], kept, descending, start);
      }
    }
    whole := false;
    assert sorted[..|sorted|] == sorted;
    AllSettled(starts, ctx, sorted, kept, descending);
  }

  lemma NothingYet(ctx: Exclusion)
    ensures Tidying(ctx, [], [], {})
  {
  }

  lemma EarlierAreBefore(sorted: seq<StartPath>, i: nat)
    requires InOrder(sorted, Before) && i < |sorted|
    ensures forall d :: d in sorted[..i] ==> Before(d, sorted[i])
  {
  }

  lemma CoveredIsCollected(ctx: Exclusion, done: seq<StartPath>, kept: seq<StartPath>, descending: set<string>,
                           path: string)
    requires Tidying(ctx, done, kept, descending)
    requires exists d :: d in descending && IsWithin(path, d)
    ensures Collected(kept, path)
  {
    var d :| d in descending && IsWithin(path, d);
    var s :| s in kept && s.descend && s.path == d;
  }

  lemma AllSettled(starts: seq<Start>, ctx: Exclusion, sorted: seq<StartPath>, kept: seq<StartPath>,
                   descending: set<string>)
    requires sorted == Sorted(TidyStarts(starts), Before)
    requires Tidying(ctx, sorted, kept, descending)
    ensures Independent(kept)
    ensures forall k :: k in kept ==> exists s :: s in starts && KeptFrom(ctx, TidyStart(s), k)
    ensures forall s :: s in starts ==> Settled(ctx, kept, TidyStart(s))
  {
    var tidy := TidyStarts(starts);
    hide Settled, KeptFrom, Independent;
    forall k | k in kept ensures exists s :: s in starts && KeptFrom(ctx, TidyStart(s), k) {
      var d :| d in sorted && KeptFrom(ctx, d, k);
      SameMembers(tidy, Before, d);
      var i :| 0 <= i < |tidy| && tidy[i] == d;
      assert starts[i] in starts;
    }
    forall s | s in starts ensures Settled(ctx, kept, TidyStart(s)) {
      var i :| 0 <= i < |starts| && starts[i] == s;
      SameMembers(tidy, Before, tidy[i]);
    }
  }

  /** For every path that is not excluded, tidying changes nothing about whether it is reached. */
  lemma TidyingKeepsTheScope(starts: seq<Start>, ctx: Exclusion, kept: seq<StartPath>, path: string)
    requires EscapesElements(ctx.escape)
    requires Tidied(ctx, starts, false, kept)
    requires !ctx.Excluded(path)
    ensures Collected(kept, path) <==> exists s :: s in starts && Reaches(s, path)
  {
    hide IsExcluded, Normalized;
    if Collected(kept, path) {
      var k :| k in kept && k.descend && IsWithin(path, k.path);
      var s :| s in starts && KeptFrom(ctx, TidyStart(s), k);
      assert Reaches(s, path);
    }
    if s :| s in starts && Reaches(s, path) {
      var t := TidyStart(s);
      if ctx.Excluded(t.path) {
        ExcludedBelow(ctx, path, t.path);
        assert false;
      }
      assert Settled(ctx, kept, t);
      if Collected(kept, t.path) {
        var c :| c in kept && c.descend && IsWithin(t.path, c.path);
        WithinIsTransitive(path, t.path, c.path);
      }
    }
  }

  lemma ExcludedBelow(ctx: Exclusion, path: string, base: string)
    requires EscapesElements(ctx.escape)
    requires IsWithin(path, base) && ctx.Excluded(base)
    ensures ctx.Excluded(path)
  {
    if path != base {
      var below := path[|base| + 1..];
      assert path == base + "/" + below;
      ExclusionIsInherited(ctx.glob, ctx.escape, ctx.patterns, base, below);
    }
  }
}
