/** Where a path leads, element by element: plain paths, "..", and both kinds of link texts. */
module PathFollowing {
  import opened Texts
  import opened PathResolution
  import opened PathResolutionLaws

  // ----- The elements of a text -----

  ghost predicate NoSlash(segments: seq<string>) {
    forall i :: 0 <= i < |segments| ==> SLASH !in segments[i]
  }

  lemma FirstSegment(segments: seq<string>, fromRel: bool)
    requires segments != [] && NoSlash(segments)
    ensures ComponentsOf(segments, fromRel)
         == (if segments[0] == "" || segments[0] == "." then []
             else [Component(segments[0], |segments| > 1, fromRel)]) + ComponentsOf(segments[1..], fromRel)
  {
  }

  lemma SlashBehind(c: Component, tail: seq<Component>)
    ensures SlashAfterLast([], true) == []
    ensures SlashAfterLast([c] + tail, true)
         == [if tail == [] then c.(slashAfter := true) else c] + SlashAfterLast(tail, true)
  {
    if tail != [] {
      var all := [c] + tail;
      assert all[..|all| - 1] == [c] + tail[..|tail| - 1];
    }
  }

  lemma {:induction false} ElementsOfBoth(x: seq<string>, y: seq<string>, fromRel: bool)
    requires y != [] && NoSlash(x) && NoSlash(y) && NoSlash(x + y)
    ensures ComponentsOf(x + y, fromRel) == SlashAfterLast(ComponentsOf(x, fromRel), true) + ComponentsOf(y, fromRel)
  {
    hide ComponentsOf, SlashAfterLast;
    if x == [] {
      assert x + y == y;
      assert ComponentsOf([], fromRel) == [] by { NoSegments(fromRel); }
      SlashBehind(Component("", false, fromRel), []);
    } else {
      assert (x + y)[1..] == x[1..] + y;
      ElementsOfBoth(x[1..], y, fromRel);
      FirstSegment(x, fromRel);
      FirstSegment(x + y, fromRel);
      var tail, c := ComponentsOf(x[1..], fromRel), Component(x[0], |x| > 1, fromRel);
      SlashBehind(c, tail);
      if |x| == 1 {
        NoSegments(fromRel);
      }
      hide NoSlash;
      if x[0] == "" || x[0] == "." {
        assert ComponentsOf(x, fromRel) == tail;
      } else {
        assert (x + y)[0] == x[0] && |x + y| > 1;
        assert ComponentsOf(x + y, fromRel)
            == [Component(x[0], true, fromRel)] + (SlashAfterLast(tail, true) + ComponentsOf(y, fromRel));
      }
    }
  }

  lemma NoSegments(fromRel: bool)
    ensures ComponentsOf([], fromRel) == []
  {
  }

  /** A "/" ends one element and begins the next; the element before it is asked to be a directory. */
  lemma ElementsAroundSlash(a: string, b: string, fromRel: bool)
    ensures Components(a + "/" + b, fromRel) == SlashAfterLast(Components(a, fromRel), true) + Components(b, fromRel)
  {
    SplitAround(a, b);
    assert a + "/" + b == a + [SLASH] + b;
    ElementsHaveNoSlash(a);
    ElementsHaveNoSlash(b);
    hide ComponentsOf, SlashAfterLast, Split;
    ElementsOfBoth(Split(a), Split(b), fromRel);
  }

  /** A text without "/" is one element, or none if it is empty or ".". */
  lemma ElementAlone(name: string, fromRel: bool)
    requires SLASH !in name
    ensures Components(name, fromRel) == if name == "" || name == "." then [] else [Component(name, false, fromRel)]
  {
    SplitElement(name);
    NoSegments(fromRel);
    FirstSegment([name], fromRel);
  }

  /** Elements with these names, each with a "/" behind it except maybe the last. */
  ghost predicate NamedAs(components: seq<Component>, names: seq<string>, fromRel: bool, slash: bool) {
    && |components| == |names|
    && forall i :: 0 <= i < |names| ==>
         components[i] == Component(names[i], i + 1 < |names| || slash, fromRel)
  }

  lemma {:induction false} ElementsOfJoin(names: seq<string>, fromRel: bool)
    requires forall i :: 0 <= i < |names| ==> Named(names[i])
    ensures NamedAs(Components(Join(names), fromRel), names, fromRel, false)
  {
    hide Components, SlashAfterLast;
    if |names| <= 1 {
      ElementAlone(if names == [] then "" else names[0], fromRel);
    } else {
      ElementAlone(names[0], fromRel);
      ElementsOfJoin(names[1..], fromRel);
      JoinFirst(names);
      ElementsAroundSlash(names[0], Join(names[1..]), fromRel);
      SlashBehind(Component(names[0], false, fromRel), []);
      hide Join, Named;
      assert [Component(names[0], false, fromRel)] + [] == [Component(names[0], false, fromRel)];
      assert Components(Join(names), fromRel)
          == [Component(names[0], true, fromRel)] + Components(Join(names[1..]), fromRel);
    }
  }

  lemma JoinFirst(names: seq<string>)
    requires |names| > 1
    ensures Join(names) == names[0] + "/" + Join(names[1..])
  {
  }

  lemma ElementsOfRender(names: seq<string>, fromRel: bool)
    requires forall i :: 0 <= i < |names| ==> Named(names[i])
    ensures NamedAs(Components(Render(names), fromRel), names, fromRel, false)
  {
    ElementsAroundSlash("", Join(names), fromRel);
    ElementAlone("", fromRel);
    ElementsOfJoin(names, fromRel);
    assert "" + "/" + Join(names) == Render(names);
    hide Components;
    assert SlashAfterLast([], true) == [];
  }

  /** A "/" behind the text asks the last element to be a directory. */
  lemma ElementsOfSlashed(names: seq<string>, fromRel: bool)
    requires forall i :: 0 <= i < |names| ==> Named(names[i])
    ensures NamedAs(Components(Join(names) + "/", fromRel), names, fromRel, true)
  {
    ElementsOfJoin(names, fromRel);
    ElementsAroundSlash(Join(names), "", fromRel);
    ElementAlone("", fromRel);
    assert Join(names) + "/" + "" == Join(names) + "/";
    hide Components, Join, Named, SlashAfterLast;
    var components := Components(Join(names), fromRel);
    SlashedNames(components, names, fromRel);
    assert SlashAfterLast(components, true) + [] == SlashAfterLast(components, true);
  }

  lemma SlashedNames(components: seq<Component>, names: seq<string>, fromRel: bool)
    requires NamedAs(components, names, fromRel, false)
    ensures NamedAs(SlashAfterLast(components, true), names, fromRel, true)
  {
  }

  /** A "/" behind a link asks of its target what a "/" behind its text would ask. */
  lemma SlashBehindLink(text: string)
    ensures TargetComponents(text, false) == Components(text, false)
    ensures TargetComponents(text, true) == Components(text + "/", false)
  {
    ElementsAroundSlash(text, "", false);
    ElementAlone("", false);
    assert text + "/" + "" == text + "/";
    hide Components;
    var all := Components(text, false);
    if all != [] {
      assert all[..|all| - 1] + [all[|all| - 1]] == all;
    }
  }

  /** root_dir is followed first, as a directory if the relative path has elements. */
  lemma RootThenPath(root: string, rel: string)
    ensures WholePath(root, rel)
         == (if Components(rel, true) == [] then Components(root, false) else Components(root + "/", false))
           + Components(rel, true)
  {
    SlashBehindLink(root);
    hide Components;
  }

  // ----- Plain paths -----

  /** The first m elements are directories that may be searched, and so are all above them. */
  ghost predicate OpenTo(ops: PathOps, names: seq<string>, m: nat) {
    && m <= |names|
    && (forall k :: 0 <= k <= m ==> ops.canSearch(Render(names[..k])) == Ok(true))
    && (forall k :: 1 <= k <= m ==> ops.entryKind(Render(names[..k])) == Ok(Directory))
  }

  /** Every proper ancestor of the path is a directory that may be searched. */
  ghost predicate Passable(ops: PathOps, names: seq<string>) {
    names != [] && OpenTo(ops, names, |names| - 1)
  }

  lemma PlainFront(names: seq<string>, k: nat)
    requires Plain(names) && k <= |names|
    ensures Plain(names[..k])
    decreases |names|
  {
    if k < |names| {
      ParentOfRender(names);
      assert names[..|names| - 1][..k] == names[..k];
      PlainFront(names[..|names| - 1], k);
    } else {
      assert names[..k] == names;
    }
  }

  /** One element of a plain path is within the limits. */
  lemma StepsDown(names: seq<string>, k: nat)
    requires Plain(names) && k < |names|
    ensures JoinedWithinLimits(Render(names[..k]), names[k]) == Ok(Render(names[..k + 1]))
    ensures Named(names[k]) && names[k] != ".."
  {
    PlainFront(names, k);
    PlainFront(names, k + 1);
    RenderSnoc(names[..k], names[k]);
    assert names[..k] + [names[k]] == names[..k + 1];
    assert names[k] in names;
  }

  lemma {:induction false} WalksDown(ops: PathOps, names: seq<string>, k: nat, m: nat, components: seq<Component>,
                                     links: nat)
    requires links <= SYMLINK_LIMIT && Plain(names) && OpenTo(ops, names, m)
    requires k <= m < |names| && |components| == |names|
    requires forall i :: 0 <= i < |names| ==> components[i].name == names[i]
    ensures FollowPath(ops, Render(names[..k]), components[k..], links)
         == FollowPath(ops, Render(names[..m]), components[m..], links)
    decreases m - k
  {
    if k < m {
      StepsDown(names, k);
      var next := Render(names[..k + 1]);
      assert Look(ops, Render(names[..k]), names[k], links) == Seen(next, Directory);
      assert components[k..][0] == components[k] && components[k..][1..] == components[k + 1..];
      PathStep(ops, Render(names[..k]), components[k..], links);
      WalksDown(ops, names, k + 1, m, components, links);
    }
  }

  /** The rest of a plain path behind a missing element. */
  lemma {:induction false} MissingDown(names: seq<string>, k: nat, components: seq<Component>, links: nat)
    requires links <= SYMLINK_LIMIT && Plain(names)
    requires k <= |names| == |components|
    requires forall i :: 0 <= i < |names| ==> components[i].name == names[i]
    ensures FollowMissing(Render(names[..k]), components[k..], false, links) == AtMissing(Render(names), false, links)
    decreases |names| - k
  {
    if k < |names| {
      StepsDown(names, k);
      assert components[k..][0] == components[k] && components[k..][1..] == components[k + 1..];
      MissingDown(names, k + 1, components, links);
    } else {
      assert names[..k] == names;
    }
  }

  /** The relative path of these names, with a "/" at its end or not. */
  ghost function Ended(names: seq<string>, slash: bool): string {
    if slash then Join(names) + "/" else Join(names)
  }

  /** root_dir and the relative path by their names. */
  lemma WholeIsNamed(a: seq<string>, b: seq<string>, slash: bool)
    requires (forall i :: 0 <= i < |a| ==> Named(a[i])) && (forall i :: 0 <= i < |b| ==> Named(b[i])) && b != []
    ensures var whole := WholePath(Render(a), Ended(b, slash));
            && |whole| == |a| + |b|
            && (forall i :: 0 <= i < |a| ==> whole[i].name == a[i])
            && (forall i :: 0 <= i < |b| ==> whole[|a| + i].name == b[i])
            && whole[|a| + |b| - 1] == Component(b[|b| - 1], slash, true)
  {
    ElementsOfRender(a, false);
    ElementsOfJoin(b, true);
    ElementsOfSlashed(b, true);
    SlashedNames(Components(Render(a), false), a, false);
    hide Components, Render, Named, Join, SlashAfterLast;
    BothNamed(SlashAfterLast(Components(Render(a), false), true), Components(Ended(b, slash), true), a, b, slash);
  }

  lemma BothNamed(x: seq<Component>, y: seq<Component>, a: seq<string>, b: seq<string>, slash: bool)
    requires NamedAs(x, a, false, true) && NamedAs(y, b, true, slash) && b != []
    ensures |x + y| == |a| + |b|
    ensures forall i :: 0 <= i < |a| ==> (x + y)[i].name == a[i]
    ensures forall i :: 0 <= i < |b| ==> (x + y)[|a| + i].name == b[i]
    ensures (x + y)[|a| + |b| - 1] == Component(b[|b| - 1], slash, true)
  {
  }

  /** Everything up to element m is passed. */
  lemma ReachesElement(a: seq<string>, b: seq<string>, slash: bool, ops: PathOps, m: nat, whole: seq<Component>)
    requires b != [] && Plain(a + b) && m < |a + b| && OpenTo(ops, a + b, m)
    requires whole == WholePath(Render(a), Ended(b, slash))
    ensures |whole| == |a + b| && forall i :: 0 <= i < |whole| ==> whole[i].name == (a + b)[i]
    ensures Resolve(Render(a), Ended(b, slash), ops) == FollowPath(ops, Render((a + b)[..m]), whole[m..], 0).result
    ensures whole[|whole| - 1] == Component(b[|b| - 1], slash, true)
  {
    hide Plain, OpenTo, FollowPath, WholePath, Named, Render, Ended;
    var names := a + b;
    NamesOfBoth(a, b);
    WholeIsNamed(a, b, slash);
    forall i | 0 <= i < |names| ensures whole[i].name == names[i] {
      if i >= |a| { assert names[i] == b[i - |a|] && whole[|a| + (i - |a|)].name == b[i - |a|]; }
    }
    assert names[..0] == [] && whole[0..] == whole;
    WalksDown(ops, names, 0, m, whole, 0);
  }

  /** What the last element of a plain path is decides the result. */
  lemma LastElementDecides(a: seq<string>, b: seq<string>, slash: bool, ops: PathOps)
    requires b != [] && Plain(a + b) && Passable(ops, a + b)
    ensures var up := (a + b)[..|a| + |b| - 1];
            Resolve(Render(a), Ended(b, slash), ops)
              == FollowPath(ops, Render(up), [Component(b[|b| - 1], slash, true)], 0).result
  {
    hide Plain, OpenTo, FollowPath, WholePath, Render, Ended, Resolve;
    var whole := WholePath(Render(a), Ended(b, slash));
    ReachesElement(a, b, slash, ops, |a| + |b| - 1, whole);
    assert whole[|a| + |b| - 1..] == [whole[|whole| - 1]];
  }

  /** A plain path with a missing element before its last one names a missing path without a parent. */
  lemma MissingInside(a: seq<string>, b: seq<string>, slash: bool, ops: PathOps, m: nat)
    requires b != [] && Plain(a + b) && m + 1 < |a + b| && OpenTo(ops, a + b, m)
    requires ops.entryKind(Render((a + b)[..m + 1])) == Ok(Missing)
    ensures Resolve(Render(a), Ended(b, slash), ops) == Ok(MissingPath(Render((a + b)[..|a| + |b| - 1]), false))
  {
    hide OpenTo, WholePath, Ended, Resolve, Plain, Render, Named, FollowPath, FollowMissing, JoinedWithinLimits, Parent;
    var names, whole := a + b, WholePath(Render(a), Ended(b, slash));
    ReachesElement(a, b, slash, ops, m, whole);
    StepsDown(names, m);
    MissingDown(names, m + 1, whole, 0);
    ParentOfRender(names);
    assert whole[m..][1..] == whole[m + 1..];
    assert ops.canSearch(Render(names[..m])) == Ok(true) by { LastIsOpen(ops, names, m); }
    MissingThere(ops, Render(names[..m]), whole[m..], Render(names[..m + 1]));
  }

  lemma LastIsOpen(ops: PathOps, names: seq<string>, m: nat)
    requires OpenTo(ops, names, m)
    ensures ops.canSearch(Render(names[..m])) == Ok(true)
  {
  }

  lemma MissingThere(ops: PathOps, at: string, components: seq<Component>, next: string)
    requires components != [] && components[0].name != ".." && ops.canSearch(at) == Ok(true)
    requires JoinedWithinLimits(at, components[0].name) == Ok(next) && ops.entryKind(next) == Ok(Missing)
    ensures FollowPath(ops, at, components, 0)
         == Finish(None, FollowMissing(next, components[1..], components[1..] == [], 0))
  {
    hide JoinedWithinLimits, FollowMissing;
    PathStep(ops, at, components, 0);
  }

  lemma NamesOfBoth(a: seq<string>, b: seq<string>)
    requires Plain(a + b)
    ensures (forall i :: 0 <= i < |a| ==> Named(a[i])) && (forall i :: 0 <= i < |b| ==> Named(b[i]))
    ensures Render([]) == "/"
  {
    hide Named;
    var names := a + b;
    forall i | 0 <= i < |a| ensures Named(a[i]) { assert a[i] == names[i]; }
    forall i | 0 <= i < |b| ensures Named(b[i]) { assert b[i] == names[|a| + i]; }
  }

  lemma LastStep(ops: PathOps, names: seq<string>)
    requires Plain(names) && Passable(ops, names)
    ensures var n := |names| - 1;
            && JoinedWithinLimits(Render(names[..n]), names[n]) == Ok(Render(names))
            && names[n] != ".." && ops.canSearch(Render(names[..n])) == Ok(true)
            && Parent(Render(names)) == Render(names[..n])
  {
    hide Plain, Render, Parent, JoinedWithinLimits, OpenTo, Named;
    StepsDown(names, |names| - 1);
    ParentOfRender(names);
    LastIsOpen(ops, names, |names| - 1);
    assert names[..|names| - 1 + 1] == names;
  }

  /** A path without links, "." or ".." whose ancestors may all be searched resolves to the entry it
      names, whatever that is; only a "/" at its end asks for a directory. */
  lemma PlainPathResolves(a: seq<string>, b: seq<string>, slash: bool, ops: PathOps)
    requires b != [] && Plain(a + b) && Passable(ops, a + b)
    ensures var names, kind, result := a + b, ops.entryKind(Render(a + b)), Resolve(Render(a), Ended(b, slash), ops);
            && (kind == Ok(Directory) ==> result == Ok(Exists(Render(names), ExistingDirectory)))
            && (kind == Ok(RegularFile) ==>
                  result == if slash then Err(NotADirectory) else Ok(Exists(Render(names), ExistingFile)))
            && (kind == Ok(Other) ==>
                  result == if slash then Err(NotADirectory) else Ok(Exists(Render(names), ExistingOther)))
            && (kind == Ok(Missing) ==> result == Ok(MissingPath(Render(names[..|names| - 1]), true)))
  {
    hide Plain, Passable, Render, Resolve, FollowPath, JoinedWithinLimits, Parent, Ended;
    var names := a + b;
    LastElementDecides(a, b, slash, ops);
    LastStep(ops, names);
    var c, at := Component(b[|b| - 1], slash, true), Render(names[..|names| - 1]);
    assert names[|names| - 1] == c.name;
    LastOfPath(ops, at, c, Render(names));
  }

  lemma LastOfPath(ops: PathOps, at: string, c: Component, next: string)
    requires c.name != ".." && ops.canSearch(at) == Ok(true)
    requires JoinedWithinLimits(at, c.name) == Ok(next)
    ensures var kind, result := ops.entryKind(next), FollowPath(ops, at, [c], 0).result;
            && (kind == Ok(Directory) ==> result == Ok(Exists(next, ExistingDirectory)))
            && (kind == Ok(RegularFile) ==>
                  result == if c.slashAfter then Err(NotADirectory) else Ok(Exists(next, ExistingFile)))
            && (kind == Ok(Other) ==>
                  result == if c.slashAfter then Err(NotADirectory) else Ok(Exists(next, ExistingOther)))
            && (kind == Ok(Missing) ==> result == Ok(MissingPath(Parent(next), true)))
  {
    hide JoinedWithinLimits, Parent;
    PathStep(ops, at, [c], 0);
  }

  // ----- Links -----

  /** Elements that lead to a directory, followed by more elements, lead where these lead from there. */
  lemma {:induction false} TargetGoesOn(ops: PathOps, at: string, a: seq<Component>, b: seq<Component>, links: nat,
                                        waiting: bool, dir: string, used: nat)
    requires links <= SYMLINK_LIMIT && links <= used <= SYMLINK_LIMIT
    requires FollowTarget(ops, at, a, links, true) == AtDirectory(dir, used)
    ensures FollowTarget(ops, at, a + b, links, waiting) == FollowTarget(ops, dir, b, used, waiting)
    decreases SYMLINK_LIMIT - links, |a|
  {
    hide FollowTarget, Look, Parent;
    if a == [] {
      EmptyTarget(ops, at, links);
      assert a + b == b;
    } else {
      var c, rest := a[0], a[1..];
      assert (a + b)[0] == c && (a + b)[1..] == rest + b;
      if c.name == ".." {
        UpInTarget(ops, at, a, links, true);
        UpInTarget(ops, at, a + b, links, waiting);
        TargetGoesOn(ops, Parent(at), rest, b, links, waiting, dir, used);
      } else {
        var sight := Look(ops, at, c.name, links);
        TargetStep(ops, at, a, links, true);
        TargetStep(ops, at, a + b, links, waiting);
        if sight.Seen? && sight.kind == Missing {
          assert false;
        } else if sight.Seen? && sight.kind == Directory {
          TargetGoesOn(ops, sight.next, rest, b, links, waiting, dir, used);
        } else if sight.SeenLink? {
          var base, target := TargetBase(at, sight.target), TargetComponents(sight.target, c.slashAfter);
          WaitingTurnsMissingIntoDangling(ops, base, target, links + 1);
          var inner := FollowTarget(ops, base, target, links + 1, true);
          assert inner.AtDirectory?;
          TargetGoesOn(ops, inner.at, rest, b, inner.links, waiting, dir, used);
        }
      }
    }
  }

  /** The same along the path itself, while elements are left. */
  lemma {:induction false} PathGoesOn(ops: PathOps, at: string, a: seq<Component>, b: seq<Component>, links: nat,
                                      dir: string, used: nat)
    requires links <= SYMLINK_LIMIT && links <= used <= SYMLINK_LIMIT && b != []
    requires FollowTarget(ops, at, a, links, true) == AtDirectory(dir, used)
    ensures FollowPath(ops, at, a + b, links) == FollowPath(ops, dir, b, used)
    decreases SYMLINK_LIMIT - links, |a|
  {
    hide FollowTarget, FollowPath, Look, Parent;
    if a == [] {
      EmptyTarget(ops, at, links);
      assert a + b == b;
    } else {
      var c, rest := a[0], a[1..];
      assert (a + b)[0] == c && (a + b)[1..] == rest + b;
      if c.name == ".." {
        UpInTarget(ops, at, a, links, true);
        UpLeadsOn(ops, at, a + b, links);
        PathGoesOn(ops, Parent(at), rest, b, links, dir, used);
      } else {
        var sight := Look(ops, at, c.name, links);
        TargetStep(ops, at, a, links, true);
        PathStep(ops, at, a + b, links);
        if sight.Seen? && sight.kind == Directory {
          PathGoesOn(ops, sight.next, rest, b, links, dir, used);
        } else if sight.SeenLink? {
          var inner := LinkLanding(ops, at, a, links, true, sight.target);
          assert inner.AtDirectory?;
          PathGoesOn(ops, inner.at, rest, b, inner.links, dir, used);
        }
      }
    }
  }

  /** A link whose text begins with "/" ends where the elements of the text lead from "/", from whatever
      directory it is followed. */
  lemma AbsoluteLinkStartsAtRoot(ops: PathOps, at: string, c: Component, links: nat, waiting: bool, text: string)
    requires links < SYMLINK_LIMIT && c.name != ".."
    requires LinkAt(ops, at, c.name, links, text) && "/" <= text
    ensures FollowTarget(ops, at, [c], links, waiting)
         == FollowTarget(ops, "/", TargetComponents(text, c.slashAfter), links + 1, waiting)
  {
    LookFinds(ops, at, c.name, links);
    hide Look, FollowTarget;
    TargetStep(ops, at, [c], links, waiting);
    NothingBehind(ops, FollowTarget(ops, "/", TargetComponents(text, c.slashAfter), links + 1, waiting), waiting);
  }

  lemma NothingBehind(ops: PathOps, landing: Landing, waiting: bool)
    requires landing.links <= SYMLINK_LIMIT
    ensures AfterTarget(ops, [], landing, waiting) == landing
  {
  }

  /** A link whose text does not begin with "/" ends where the elements of the text lead from the
      directory the link stands in. */
  lemma RelativeLinkStartsThere(ops: PathOps, at: string, c: Component, links: nat, waiting: bool, text: string)
    requires links < SYMLINK_LIMIT && c.name != ".."
    requires LinkAt(ops, at, c.name, links, text) && !("/" <= text)
    ensures FollowTarget(ops, at, [c], links, waiting)
         == FollowTarget(ops, at, TargetComponents(text, c.slashAfter), links + 1, waiting)
  {
    LookFinds(ops, at, c.name, links);
    hide Look, FollowTarget;
    TargetStep(ops, at, [c], links, waiting);
    NothingBehind(ops, FollowTarget(ops, at, TargetComponents(text, c.slashAfter), links + 1, waiting), waiting);
  }

  /** A link that leads to a directory may be replaced by the elements of its text in the path: they are
      followed from "/" or from where the link stands, and then the elements behind the link. */
  lemma LinkIsItsText(ops: PathOps, at: string, c: Component, rest: seq<Component>, links: nat, text: string)
    requires links < SYMLINK_LIMIT && c.name != ".." && rest != []
    requires LinkAt(ops, at, c.name, links, text)
    requires FollowTarget(ops, at, [c], links, true).AtDirectory?
    ensures var from := if "/" <= text then "/" else at;
            FollowPath(ops, at, [c] + rest, links)
              == FollowPath(ops, from, TargetComponents(text, c.slashAfter) + rest, links + 1)
  {
    var landing := FollowTarget(ops, at, [c], links, true);
    if "/" <= text {
      AbsoluteLinkStartsAtRoot(ops, at, c, links, true, text);
    } else {
      RelativeLinkStartsThere(ops, at, c, links, true, text);
    }
    hide FollowTarget, FollowPath, LinkAt;
    PathGoesOn(ops, at, [c], rest, links, landing.at, landing.links);
    PathGoesOn(ops, if "/" <= text then "/" else at, TargetComponents(text, c.slashAfter), rest, links + 1,
               landing.at, landing.links);
  }

  /** ".." leads to the directory above, and from "/" to "/". */
  lemma UpLeadsToParent(ops: PathOps, names: seq<string>, c: Component, rest: seq<Component>, links: nat)
    requires links <= SYMLINK_LIMIT && Plain(names) && c.name == ".."
    ensures var up := if names == [] then [] else names[..|names| - 1];
            FollowPath(ops, Render(names), [c] + rest, links) == FollowPath(ops, Render(up), rest, links)
  {
    UpLeadsOn(ops, Render(names), [c] + rest, links);
    assert ([c] + rest)[1..] == rest;
    hide FollowPath, Plain;
    if names == [] {
      ParentAfterSlash("", "");
      assert Render(names) == "" + "/" + "";
    } else {
      ParentOfRender(names);
    }
  }

  /** What is told of a last link that ends so: its text, and what stands where it leads. */
  ghost function Told(text: string, landing: Landing): Result<ResolvedPath> {
    if landing.Refused? then Err(landing.error)
    else if landing.AtDirectory? then Ok(LastLink(text, landing.at, Some(ExistingDirectory)))
    else if landing.AtMissing? then Ok(LastLink(text, landing.at, None))
    else if landing.slash then Err(NotADirectory)
    else Ok(LastLink(text, landing.at, Some(KindOf(landing.kind))))
  }

  /** A plain path whose last element is a symlink gives the link's text, and what stands where the text
      leads from "/" or from the link's directory. */
  lemma LastLinkIsTold(a: seq<string>, b: seq<string>, slash: bool, ops: PathOps, text: string)
    requires b != [] && Plain(a + b) && Passable(ops, a + b)
    requires ops.entryKind(Render(a + b)) == Ok(Symlink) && ops.readLink(Render(a + b)) == Ok(Some(text))
    ensures var from := if "/" <= text then "/" else Render((a + b)[..|a| + |b| - 1]);
            Resolve(Render(a), Ended(b, slash), ops)
              == Told(text, FollowTarget(ops, from, TargetComponents(text, slash), 1, false))
  {
    hide Plain, Passable, Render, Resolve, FollowPath, FollowTarget, JoinedWithinLimits, Parent, Ended, Told;
    var names := a + b;
    LastElementDecides(a, b, slash, ops);
    LastStep(ops, names);
    var c, at := Component(b[|b| - 1], slash, true), Render(names[..|names| - 1]);
    assert names[|names| - 1] == c.name;
    LastLinkOfPath(ops, at, c, Render(names), text);
  }

  lemma LastLinkOfPath(ops: PathOps, at: string, c: Component, next: string, text: string)
    requires c.name != ".." && c.fromRel && ops.canSearch(at) == Ok(true)
    requires JoinedWithinLimits(at, c.name) == Ok(next)
    requires ops.entryKind(next) == Ok(Symlink) && ops.readLink(next) == Ok(Some(text))
    ensures FollowPath(ops, at, [c], 0).result
         == Told(text, FollowTarget(ops, if "/" <= text then "/"
           else at, TargetComponents(text, c.slashAfter), 1, false))
  {
    hide JoinedWithinLimits, FollowTarget, FollowPath;
    PathStep(ops, at, [c], 0);
    assert Look(ops, at, c.name, 0) == SeenLink(text);
    assert TargetBase(at, text) == if "/" <= text then "/" else at;
  }
}
