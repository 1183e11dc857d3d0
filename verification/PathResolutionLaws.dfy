/** What the result of following a path promises about the file system. */
module PathResolutionLaws {
  import opened Texts
  import opened PathResolution

  /** The path from "/" with these elements. */
  ghost function Render(names: seq<string>): string {
    "/" + Join(names)
  }

  /** No empty, "." or ".." element, and within both length limits. */
  ghost predicate Plain(names: seq<string>) {
    && (forall n :: n in names ==> Named(n) && n != ".." && |n| <= NAME_LENGTH_LIMIT)
    && |Render(names)| < PATH_LENGTH_LIMIT
  }

  ghost predicate AllDirectories(ops: PathOps, names: seq<string>) {
    forall k :: 1 <= k <= |names| ==> ops.entryKind(Render(names[..k])) == Ok(Directory)
  }

  ghost predicate DirectoryNamed(ops: PathOps, names: seq<string>, at: string) {
    at == Render(names) && Plain(names) && AllDirectories(ops, names)
  }

  /** `at` is "/" or a directory every ancestor of which is a directory. */
  ghost predicate RealDirectory(ops: PathOps, at: string) {
    exists names :: DirectoryNamed(ops, names, at)
  }

  ghost predicate EntryNamed(ops: PathOps, names: seq<string>, at: string) {
    names != [] && at == Render(names) && Plain(names) && AllDirectories(ops, names[..|names| - 1])
  }

  /** `at` is an entry of kind `kind` every proper ancestor of which is a directory. */
  ghost predicate RealEntry(ops: PathOps, at: string, kind: EntryKind) {
    && ops.entryKind(at) == Ok(kind)
    && exists names :: EntryNamed(ops, names, at)
  }

  ghost predicate PlainPath(at: string) {
    exists names :: names != [] && Plain(names) && at == Render(names)
  }

  /** `at` exists, is reached through directories only, and is of the kind that is reported. */
  ghost predicate ReallyIs(ops: PathOps, at: string, kind: ExistingKind) {
    match kind
    case ExistingDirectory => RealDirectory(ops, at)
    case ExistingFile => RealEntry(ops, at, RegularFile)
    case ExistingOther => RealEntry(ops, at, Other)
  }

  lemma {:induction false} JoinSnoc(names: seq<string>, name: string)
    requires names != []
    ensures Join(names + [name]) == Join(names) + "/" + name
  {
    if |names| == 1 {
      assert (names + [name])[1..] == [name];
    } else {
      JoinSnoc(names[1..], name);
      assert (names + [name])[1..] == names[1..] + [name];
    }
  }

  lemma RenderSnoc(names: seq<string>, name: string)
    requires Plain(names)
    ensures Joined(Render(names), name) == Render(names + [name])
  {
    if names != [] {
      JoinSnoc(names, name);
      assert names[0] in names;
      assert Join(names) != "";
    }
  }

  lemma {:induction false} ParentAfterSlash(p: string, name: string)
    requires SLASH !in name
    ensures Parent(p + "/" + name) == if p == "" then "/" else p
    decreases |name|
  {
    var whole := p + "/" + name;
    if name == "" {
      assert whole[..|whole| - 1] == p;
    } else {
      ParentAfterSlash(p, name[..|name| - 1]);
      assert whole[..|whole| - 1] == p + "/" + name[..|name| - 1];
    }
  }

  lemma RenderOfLonger(names: seq<string>)
    requires names != []
    ensures Render(names) == (if |names| == 1 then "" else Render(names[..|names| - 1])) + "/" + names[|names| - 1]
  {
    var up, last := names[..|names| - 1], names[|names| - 1];
    assert up + [last] == names;
    if |names| > 1 {
      hide Join;
      JoinSnoc(up, last);
      AppendToFront("/", Join(up), "/" + last);
    } else {
      assert names == [last];
    }
  }

  lemma AppendToFront(a: string, b: string, c: string)
    ensures a + (b + c) == a + b + c
  {
  }

  lemma ParentOfRender(names: seq<string>)
    requires Plain(names) && names != []
    ensures Plain(names[..|names| - 1])
    ensures Parent(Render(names)) == Render(names[..|names| - 1])
  {
    var up, last := names[..|names| - 1], names[|names| - 1];
    assert last in names && forall n :: n in up ==> n in names;
    assert SLASH !in last;
    RenderOfLonger(names);
    ParentAfterSlash(if |names| == 1 then "" else Render(up), last);
    assert |names| > 1 ==> Render(up) != "";
    assert |names| == 1 ==> Render(up) == "/";
    hide Parent, Render, Named;
  }

  lemma ParentOfDirectory(ops: PathOps, at: string)
    requires RealDirectory(ops, at)
    ensures RealDirectory(ops, Parent(at))
  {
    var names :| DirectoryNamed(ops, names, at);
    if names == [] {
      RootIsReal(ops);
      ParentAfterSlash("", "");
      assert at == "" + "/" + "";
    } else {
      ParentOfRender(names);
      var up := names[..|names| - 1];
      forall k | 1 <= k <= |up| ensures ops.entryKind(Render(up[..k])) == Ok(Directory) {
        assert up[..k] == names[..k];
      }
      assert DirectoryNamed(ops, up, Parent(at));
    }
  }

  /** One element inside a real directory. */
  lemma NextInDirectory(ops: PathOps, at: string, name: string, next: string)
    requires RealDirectory(ops, at)
    requires Named(name) && name != ".."
    requires JoinedWithinLimits(at, name) == Ok(next)
    ensures exists names :: EntryNamed(ops, names, next)
    ensures PlainPath(next) && Parent(next) == at
    ensures ops.entryKind(next) == Ok(Directory) ==> RealDirectory(ops, next)
  {
    var names :| DirectoryNamed(ops, names, at);
    var longer := names + [name];
    RenderSnoc(names, name);
    assert longer[..|longer| - 1] == names;
    assert EntryNamed(ops, longer, next);
    ParentOfRender(longer);
    if ops.entryKind(next) == Ok(Directory) {
      forall k | 1 <= k <= |longer| ensures ops.entryKind(Render(longer[..k])) == Ok(Directory) {
        if k < |longer| { assert longer[..k] == names[..k]; } else { assert longer[..k] == longer; }
      }
      assert DirectoryNamed(ops, longer, next);
    }
  }

  /** One step of following a target, for proofs that keep the rest of the walk folded. */
  lemma TargetStep(ops: PathOps, at: string, components: seq<Component>, links: nat, waiting: bool)
    requires links <= SYMLINK_LIMIT
    requires components != [] && components[0].name != ".."
    ensures var c, rest := components[0], components[1..];
            var sight, whole := Look(ops, at, c.name, links), FollowTarget(ops, at, components, links, waiting);
            && (sight.Unseen? ==> whole == Refused(sight.error, links))
            && (sight.Seen? && sight.kind == Missing ==>
                  whole == if waiting then Refused(DanglingSymlink, links)
                           else FollowMissing(sight.next, rest, rest == [], links))
            && (sight.Seen? && sight.kind == Directory ==> whole == FollowTarget(ops, sight.next, rest, links, waiting))
            && (sight.Seen? && sight.kind != Missing && sight.kind != Directory ==>
                  whole == if rest == [] then AtNonDirectory(sight.next, sight.kind, c.slashAfter, links)
                           else Refused(NotADirectory, links))
            && (sight.SeenLink? ==>
                  whole == AfterTarget(ops, rest,
                             FollowTarget(ops, TargetBase(at, sight.target),
                                          TargetComponents(sight.target, c.slashAfter),
                                          links + 1, waiting || rest != []), waiting))
  {
  }

  ghost predicate LandsWell(ops: PathOps, landing: Landing) {
    match landing
    case AtDirectory(at, _) => RealDirectory(ops, at)
    case AtNonDirectory(at, kind, _, _) => (kind == RegularFile || kind == Other) && RealEntry(ops, at, kind)
    case AtMissing(at, parentExists, _) => PlainPath(at) && (parentExists ==> RealDirectory(ops, Parent(at)))
    case Refused(_, _) => true
  }

  lemma RootIsReal(ops: PathOps)
    ensures RealDirectory(ops, "/")
  {
    assert Render([]) == "/";
    assert DirectoryNamed(ops, [], "/");
  }

  lemma TargetBaseIsReal(ops: PathOps, at: string, target: string)
    requires RealDirectory(ops, at)
    ensures RealDirectory(ops, TargetBase(at, target))
  {
    RootIsReal(ops);
  }

  lemma {:induction false} FollowMissingLands(ops: PathOps, at: string, components: seq<Component>,
                                              parentExists: bool, links: nat)
    requires links <= SYMLINK_LIMIT
    requires AllNamed(components)
    requires PlainPath(at)
    requires parentExists ==> components == [] && RealDirectory(ops, Parent(at))
    ensures LandsWell(ops, FollowMissing(at, components, parentExists, links))
    decreases components
  {
    if components != [] {
      var name := components[0].name;
      assert components[0] in components;
      var step := StepInMissingPart(at, name);
      if step.Ok? {
        var names :| names != [] && Plain(names) && at == Render(names);
        RenderSnoc(names, name);
        assert Plain(names + [name]);
        FollowMissingLands(ops, step.value, components[1..], parentExists, links);
      }
    }
  }

  lemma {:induction false} FollowTargetLands(ops: PathOps, at: string, components: seq<Component>, links: nat,
                                             waiting: bool)
    requires links <= SYMLINK_LIMIT
    requires RealDirectory(ops, at) && AllNamed(components)
    ensures LandsWell(ops, FollowTarget(ops, at, components, links, waiting))
    decreases SYMLINK_LIMIT - links, |components|, 1
  {
    hide RealDirectory, RealEntry, PlainPath, JoinedWithinLimits, Parent, Look;
    if components == [] {
    } else if components[0].name == ".." {
      ParentOfDirectory(ops, at);
      FollowTargetLands(ops, Parent(at), components[1..], links, waiting);
    } else {
      hide FollowTarget;
      TargetStep(ops, at, components, links, waiting);
      var rest := components[1..];
      var sight := Look(ops, at, components[0].name, links);
      if sight.Seen? {
        SeenIsReal(ops, at, components[0].name, links);
        if sight.kind == Missing {
          FollowMissingLands(ops, sight.next, rest, rest == [], links);
        } else if sight.kind == Directory {
          FollowTargetLands(ops, sight.next, rest, links, waiting);
        }
      } else if sight.SeenLink? {
        LinkLands(ops, at, components, links, waiting || rest != [], sight.target);
        AfterTargetLands(ops, components, links, waiting,
                         LinkLanding(ops, at, components, links, waiting || rest != [], sight.target));
      }
    }
  }

  /** Where the target of the link `components[0]` ends. */
  ghost function LinkLanding(ops: PathOps, at: string, components: seq<Component>, links: nat, waiting: bool,
                             target: string): Landing
    requires links < SYMLINK_LIMIT && components != []
  {
    FollowTarget(ops, TargetBase(at, target), TargetComponents(target, components[0].slashAfter), links + 1, waiting)
  }

  lemma {:induction false} LinkLands(ops: PathOps, at: string, components: seq<Component>, links: nat, waiting: bool,
                                     target: string)
    requires links < SYMLINK_LIMIT && components != []
    requires RealDirectory(ops, at)
    ensures LandsWell(ops, LinkLanding(ops, at, components, links, waiting, target))
    decreases SYMLINK_LIMIT - links, |components|, 0
  {
    TargetBaseIsReal(ops, at, target);
    FollowTargetLands(ops, TargetBase(at, target), TargetComponents(target, components[0].slashAfter), links + 1,
                      waiting);
  }

  lemma {:induction false} AfterTargetLands(ops: PathOps, components: seq<Component>, links: nat, waiting: bool,
                                            inner: Landing)
    requires links < SYMLINK_LIMIT && components != [] && AllNamed(components)
    requires links < inner.links <= SYMLINK_LIMIT
    requires LandsWell(ops, inner)
    ensures LandsWell(ops, AfterTarget(ops, components[1..], inner, waiting))
    decreases SYMLINK_LIMIT - links, |components|, 0
  {
    if inner.AtDirectory? {
      FollowTargetLands(ops, inner.at, components[1..], inner.links, waiting);
    }
  }

  lemma SeenIsReal(ops: PathOps, at: string, name: string, links: nat)
    requires RealDirectory(ops, at) && Named(name) && name != ".."
    requires Look(ops, at, name, links).Seen?
    ensures var sight := Look(ops, at, name, links);
            && PlainPath(sight.next) && Parent(sight.next) == at
            && (sight.kind == Directory ==> RealDirectory(ops, sight.next))
            && RealEntry(ops, sight.next, sight.kind)
  {
    NextInDirectory(ops, at, name, Look(ops, at, name, links).next);
  }

  /** What a successful result promises. */
  ghost predicate Truthful(ops: PathOps, result: Result<ResolvedPath>) {
    match result
    case Err(_) => true
    case Ok(Exists(at, kind)) => ReallyIs(ops, at, kind)
    case Ok(LastLink(_, at, Some(kind))) => ReallyIs(ops, at, kind)
    case Ok(LastLink(_, at, None)) => PlainPath(at)
    case Ok(MissingPath(parent, parentExists)) => parentExists ==> RealDirectory(ops, parent)
    case Ok(AncestorNotDirectory(at, regularFile)) => RealEntry(ops, at, if regularFile then RegularFile else Other)
  }

  lemma FinishIsTruthful(ops: PathOps, link: Option<string>, landing: Landing)
    requires LandsWell(ops, landing)
    ensures Truthful(ops, FinishedAs(link, landing))
  {
  }

  /** One step along the path itself. */
  lemma PathStep(ops: PathOps, at: string, components: seq<Component>, links: nat)
    requires links <= SYMLINK_LIMIT
    requires components != [] && components[0].name != ".."
    ensures var c, rest := components[0], components[1..];
            var sight, whole := Look(ops, at, c.name, links), FollowPath(ops, at, components, links);
            && (sight.Unseen? ==> whole == Walked(Err(sight.error), links))
            && (sight.Seen? && sight.kind == Missing ==>
                  whole == Finish(None, FollowMissing(sight.next, rest, rest == [], links)))
            && (sight.Seen? && sight.kind == Directory ==> whole == FollowPath(ops, sight.next, rest, links))
            && (sight.Seen? && sight.kind != Missing && sight.kind != Directory ==>
                  whole == if rest == [] then Finish(None, AtNonDirectory(sight.next, sight.kind, c.slashAfter, links))
                           else Walked(Blocked(c, sight.next, sight.kind), links))
            && (sight.SeenLink? ==>
                  whole == AfterLink(ops, c, sight.target, rest,
                                     LinkLanding(ops, at, components, links, rest != [], sight.target)))
  {
  }

  lemma {:induction false} FollowPathIsTruthful(ops: PathOps, at: string, components: seq<Component>, links: nat)
    requires links <= SYMLINK_LIMIT
    requires RealDirectory(ops, at) && AllNamed(components)
    ensures Truthful(ops, FollowPath(ops, at, components, links).result)
    decreases SYMLINK_LIMIT - links, |components|, 1
  {
    hide RealDirectory, RealEntry, PlainPath, JoinedWithinLimits, Parent, Look;
    if components == [] {
      FinishIsTruthful(ops, None, AtDirectory(at, links));
    } else if components[0].name == ".." {
      ParentOfDirectory(ops, at);
      FollowPathIsTruthful(ops, Parent(at), components[1..], links);
    } else {
      hide FollowPath, LinkLanding, AfterLink;
      PathStep(ops, at, components, links);
      var c, rest := components[0], components[1..];
      var sight := Look(ops, at, c.name, links);
      if sight.Seen? {
        SeenIsReal(ops, at, c.name, links);
        if sight.kind == Missing {
          FollowMissingLands(ops, sight.next, rest, rest == [], links);
          FinishIsTruthful(ops, None, FollowMissing(sight.next, rest, rest == [], links));
        } else if sight.kind == Directory {
          FollowPathIsTruthful(ops, sight.next, rest, links);
        }
      } else if sight.SeenLink? {
        LinkLands(ops, at, components, links, rest != [], sight.target);
        AfterLinkIsTruthful(ops, components, links, sight.target,
                            LinkLanding(ops, at, components, links, rest != [], sight.target));
      }
    }
  }

  lemma {:induction false} AfterLinkIsTruthful(ops: PathOps, components: seq<Component>, links: nat, target: string,
                                               inner: Landing)
    requires links < SYMLINK_LIMIT && components != [] && AllNamed(components)
    requires links < inner.links <= SYMLINK_LIMIT
    requires LandsWell(ops, inner)
    ensures Truthful(ops, AfterLink(ops, components[0], target, components[1..], inner).result)
    decreases SYMLINK_LIMIT - links, |components|, 0
  {
    hide RealDirectory, RealEntry, PlainPath;
    var c, rest := components[0], components[1..];
    FinishIsTruthful(ops, if c.fromRel && rest == [] then Some(target) else None, inner);
    if inner.AtDirectory? && rest != [] {
      FollowPathIsTruthful(ops, inner.at, rest, inner.links);
    }
  }

  /** For every file system, root and relative path, the result names what is really there. */
  lemma ResolutionIsTruthful(root: string, rel: string, ops: PathOps)
    ensures Truthful(ops, Resolve(root, rel, ops))
  {
    RootIsReal(ops);
    FollowPathIsTruthful(ops, "/", WholePath(root, rel), 0);
  }

  // ----- Elements waiting behind a link -----

  ghost predicate RefusedWith(landing: Landing, error: ResolveError) {
    landing.Refused? && landing.error == error
  }

  /** Elements waiting behind a link leave where its target ends as it is, or make the link dangling:
      always if the target ends in a missing part, and also where it is refused inside one. */
  lemma {:induction false} WaitingTurnsMissingIntoDangling(ops: PathOps, at: string, components: seq<Component>,
        links: nat)
    requires links <= SYMLINK_LIMIT
    ensures var alone := FollowTarget(ops, at, components, links, false);
            var followed := FollowTarget(ops, at, components, links, true);
            && !followed.AtMissing?
            && (alone.AtDirectory? || alone.AtNonDirectory? ==> followed == alone)
            && (alone.AtMissing? ==> RefusedWith(followed, DanglingSymlink))
            && (alone.Refused? ==> followed == alone || RefusedWith(followed, DanglingSymlink))
            && (followed.AtDirectory? || followed.AtNonDirectory? ==> followed == alone)
    decreases SYMLINK_LIMIT - links, |components|
  {
    hide JoinedWithinLimits, Parent, TargetBase, TargetComponents, FollowMissing;
    if components != [] {
      var c, rest := components[0], components[1..];
      if c.name == ".." {
        WaitingTurnsMissingIntoDangling(ops, Parent(at), rest, links);
      } else {
        var sight := Look(ops, at, c.name, links);
        if sight.Seen? {
          if sight.kind == Directory {
            WaitingTurnsMissingIntoDangling(ops, sight.next, rest, links);
          } else if sight.kind == Missing {
            FollowMissingNeverExists(sight.next, rest, rest == [], links);
          }
        } else if sight.SeenLink? {
          var inner := TargetComponents(sight.target, c.slashAfter);
          WaitingTurnsMissingIntoDangling(ops, TargetBase(at, sight.target), inner, links + 1);
          var landing := FollowTarget(ops, TargetBase(at, sight.target), inner, links + 1, true);
          if landing.AtDirectory? {
            WaitingTurnsMissingIntoDangling(ops, landing.at, rest, landing.links);
          }
        }
      }
    }
  }

  lemma {:induction false} FollowMissingNeverExists(at: string, components: seq<Component>, parentExists: bool,
        links: nat)
    requires links <= SYMLINK_LIMIT
    ensures var landing := FollowMissing(at, components, parentExists, links);
            && (landing.AtMissing? || landing.Refused?)
            && (landing.Refused? ==> landing.error == PathTooLong || landing.error == ParentReferenceInMissingPart)
    decreases components
  {
    if components != [] {
      var step := StepInMissingPart(at, components[0].name);
      if step.Ok? {
        FollowMissingNeverExists(step.value, components[1..], parentExists, links);
      }
    }
  }

  // ----- Refusals -----

  /** The errors one element by itself decides: the others also depend on what is behind a missing
      element or a non-directory. */
  ghost predicate OfOneElement(error: ResolveError) {
    error != PathTooLong && error != NotADirectory && error != ParentReferenceInMissingPart
  }

  /** Looking `name` up in the directory `at` fails with `error`: an operation answers it, the directory
      may not be searched, or the entry is a symlink that is one too many or whose text is not UTF-8. */
  ghost predicate FailsAt(ops: PathOps, at: string, name: string, links: nat, error: ResolveError) {
    var next := Joined(at, name);
    && |name| <= 255 && |next| < 4096
    && (|| ops.canSearch(at) == Err(error)
        || (ops.canSearch(at) == Ok(false) && error == PermissionDenied)
        || (&& ops.canSearch(at) == Ok(true)
            && (|| ops.entryKind(next) == Err(error)
                || (&& ops.entryKind(next) == Ok(Symlink)
                    && if links == 40 then error == TooManyLinks
                       else ops.readLink(next) == Err(error)
                            || (ops.readLink(next) == Ok(None) && error == NonUtf8Path)))))
  }

  /** Looking `name` up in the directory `at` finds what stands there. */
  ghost predicate FoundAt(ops: PathOps, at: string, name: string, kind: EntryKind) {
    var next := Joined(at, name);
    |name| <= 255 && |next| < 4096 && ops.canSearch(at) == Ok(true) && ops.entryKind(next) == Ok(kind)
  }

  /** Looking `name` up in the directory `at` finds a symlink that may be followed, with this text. */
  ghost predicate LinkAt(ops: PathOps, at: string, name: string, links: nat, text: string) {
    FoundAt(ops, at, name, Symlink) && links != 40 && ops.readLink(Joined(at, name)) == Ok(Some(text))
  }

  /** What looking an element up gives, told from the operations. */
  lemma LookFinds(ops: PathOps, at: string, name: string, links: nat)
    ensures forall error | OfOneElement(error) ::
      Look(ops, at, name, links) == Unseen(error) <==> FailsAt(ops, at, name, links, error)
    ensures forall kind | kind != Symlink ::
      Look(ops, at, name, links) == Seen(Joined(at, name), kind) <==> FoundAt(ops, at, name, kind)
    ensures forall text :: Look(ops, at, name, links) == SeenLink(text) <==> LinkAt(ops, at, name, links, text)
  {
  }

  /** Where a link text is followed from: an absolute one from "/", a relative one from where the link stands. */
  ghost function TextBegins(at: string, text: string): string {
    if text == "" then at else if text[0] == '/' then "/" else at
  }

  /** Element `c` of a list, followed from the directory `at`, is refused with `error`: looking it up
      fails, it dangles because it is missing while some link waits for it, or it is a link whose target
      is refused so. `more` says that `c` has elements behind it. */
  ghost predicate Refuses(ops: PathOps, at: string, c: Component, links: nat, waiting: bool, more: bool,
                          error: ResolveError)
    requires links <= SYMLINK_LIMIT
  {
    && c.name != ".."
    && (|| FailsAt(ops, at, c.name, links, error)
        || (FoundAt(ops, at, c.name, Missing) && waiting && error == DanglingSymlink)
        || exists text :: TargetRefuses(ops, at, c, links, waiting, more, text, error))
  }

  ghost predicate TargetRefuses(ops: PathOps, at: string, c: Component, links: nat, waiting: bool, more: bool,
                                text: string, error: ResolveError)
    requires links <= SYMLINK_LIMIT
  {
    && LinkAt(ops, at, c.name, links, text)
    && RefusedWith(FollowTarget(ops, TextBegins(at, text), TargetComponents(text, c.slashAfter), links + 1, waiting
          || more),
                   error)
  }

  /** The same in one look. */
  lemma RefusesByLook(ops: PathOps, at: string, c: Component, links: nat, waiting: bool, more: bool,
                      error: ResolveError)
    requires links <= SYMLINK_LIMIT && OfOneElement(error) && c.name != ".."
    ensures var sight := Look(ops, at, c.name, links);
            && (sight.Unseen? ==> (Refuses(ops, at, c, links, waiting, more, error) <==> sight.error == error))
            && (sight.Seen? ==>
                  (Refuses(ops, at, c, links, waiting, more, error) <==>
                    sight.kind == Missing && waiting && error == DanglingSymlink))
            && (sight.SeenLink? ==>
                  (Refuses(ops, at, c, links, waiting, more, error) <==>
                    RefusedWith(FollowTarget(ops, TargetBase(at, sight.target),
                                             TargetComponents(sight.target, c.slashAfter),
                                             links + 1, waiting || more), error)))
  {
    hide FollowTarget, TargetComponents;
    LookFinds(ops, at, c.name, links);
    var sight := Look(ops, at, c.name, links);
    if sight.Seen? {
      assert sight.next == Joined(at, c.name);
      assert FoundAt(ops, at, c.name, Missing) <==> sight.kind == Missing;
    }
    hide Look, FoundAt, LinkAt, FailsAt, Joined, JoinedWithinLimits;
    if sight.SeenLink? {
      assert TargetBase(at, sight.target) == TextBegins(at, sight.target);
      assert LinkAt(ops, at, c.name, links, sight.target);
      assert forall text :: LinkAt(ops, at, c.name, links, text) ==> text == sight.target;
      assert !FailsAt(ops, at, c.name, links, error) && !FoundAt(ops, at, c.name, Missing);
      if RefusedWith(FollowTarget(ops, TargetBase(at, sight.target), TargetComponents(sight.target, c.slashAfter),
                                  links + 1, waiting || more), error) {
        assert TargetRefuses(ops, at, c, links, waiting, more, sight.target, error);
      }
    }
  }

  /** The first k elements lead to a directory, and the next one is refused there. */
  ghost predicate RefusesAt(ops: PathOps, at: string, components: seq<Component>, links: nat, waiting: bool,
                            error: ResolveError, k: nat)
    requires links <= SYMLINK_LIMIT
  {
    && k < |components|
    && var front := FollowTarget(ops, at, components[..k], links, true);
       front.AtDirectory? && Refuses(ops, front.at, components[k], front.links, waiting, k + 1 < |components|, error)
  }

  ghost predicate RefusesSomewhere(ops: PathOps, at: string, components: seq<Component>, links: nat, waiting: bool,
                                   error: ResolveError)
    requires links <= SYMLINK_LIMIT
  {
    exists k: nat :: RefusesAt(ops, at, components, links, waiting, error, k)
  }

  lemma RefusesFirst(ops: PathOps, at: string, components: seq<Component>, links: nat, waiting: bool,
                     error: ResolveError)
    requires links <= SYMLINK_LIMIT && components != []
    ensures RefusesAt(ops, at, components, links, waiting, error, 0)
       <==> Refuses(ops, at, components[0], links, waiting, components[1..] != [], error)
  {
    hide Refuses;
    assert components[..0] == [];
    EmptyTarget(ops, at, links);
  }

  /** The first element leads to the directory `dir`: what is refused comes later. */
  lemma RefusesLater(ops: PathOps, at: string, components: seq<Component>, links: nat, waiting: bool,
                     error: ResolveError, dir: string,
                     used: nat)
    requires links <= used <= SYMLINK_LIMIT && components != []
    requires !Refuses(ops, at, components[0], links, waiting, components[1..] != [], error)
    requires forall k: nat | k < |components| ::
      FollowTarget(ops, at, components[..k + 1], links, true)
        == FollowTarget(ops, dir, components[1..][..k], used, true)
    ensures RefusesSomewhere(ops, at, components, links, waiting, error)
            <==> RefusesSomewhere(ops, dir, components[1..], used, waiting, error)
  {
    hide Refuses, FollowTarget;
    var rest := components[1..];
    RefusesFirst(ops, at, components, links, waiting, error);
    if RefusesSomewhere(ops, at, components, links, waiting, error) {
      var k: nat :| RefusesAt(ops, at, components, links, waiting, error, k);
      assert k > 0;
      assert components[..k - 1 + 1] == components[..k];
      assert RefusesAt(ops, dir, rest, used, waiting, error, k - 1);
    }
    if RefusesSomewhere(ops, dir, rest, used, waiting, error) {
      var k: nat :| RefusesAt(ops, dir, rest, used, waiting, error, k);
      assert RefusesAt(ops, at, components, links, waiting, error, k + 1);
    }
  }

  /** The first element leads to no directory: it is refused or nothing is. */
  lemma RefusesHere(ops: PathOps, at: string, components: seq<Component>, links: nat, waiting: bool,
                    error: ResolveError)
    requires links <= SYMLINK_LIMIT && components != []
    requires forall k: nat | 0 < k < |components| :: !FollowTarget(ops, at, components[..k], links, true).AtDirectory?
    ensures RefusesSomewhere(ops, at, components, links, waiting, error)
       <==> Refuses(ops, at, components[0], links, waiting, components[1..] != [], error)
  {
    hide Refuses, FollowTarget;
    RefusesFirst(ops, at, components, links, waiting, error);
    if RefusesSomewhere(ops, at, components, links, waiting, error) {
      var k: nat :| RefusesAt(ops, at, components, links, waiting, error, k);
      assert k == 0;
    }
  }

  lemma NothingRefuses(ops: PathOps, at: string, links: nat, waiting: bool, error: ResolveError)
    requires links <= SYMLINK_LIMIT
    ensures FollowTarget(ops, at, [], links, waiting) == AtDirectory(at, links)
    ensures !RefusesSomewhere(ops, at, [], links, waiting, error)
  {
  }

  /** The first k + 1 elements, by what the first of them turns out to be. */
  lemma FrontStep(ops: PathOps, at: string, components: seq<Component>, links: nat, k: nat)
    requires links <= SYMLINK_LIMIT && k < |components|
    ensures var c, behind := components[0], components[1..][..k];
            var front := FollowTarget(ops, at, components[..k + 1], links, true);
            && (c.name == ".." ==> front == FollowTarget(ops, Parent(at), behind, links, true))
            && (c.name != ".." ==>
                  var sight := Look(ops, at, c.name, links);
                  && (sight.Seen? && sight.kind == Directory ==>
                        front == FollowTarget(ops, sight.next, behind, links, true))
                  && (sight.SeenLink? ==>
                        front == AfterTarget(ops, behind,
                                             LinkLanding(ops, at, components, links, true, sight.target), true))
                  && (sight.Unseen? || (sight.Seen? && sight.kind != Directory) ==> !front.AtDirectory?))
  {
    hide Look;
    assert components[..k + 1][1..] == components[1..][..k];
    if components[0].name != ".." {
      TargetStep(ops, at, components[..k + 1], links, true);
    }
  }

  /** A target is refused with one of these errors exactly when one of its elements is. */
  lemma {:induction false} TargetRefusesExactly(ops: PathOps, at: string, components: seq<Component>, links: nat,
                                                waiting: bool, error: ResolveError)
    requires links <= SYMLINK_LIMIT
    requires OfOneElement(error)
    ensures RefusedWith(FollowTarget(ops, at, components, links, waiting), error)
       <==> RefusesSomewhere(ops, at, components, links, waiting, error)
    decreases SYMLINK_LIMIT - links, |components|, 1
  {
    hide FollowTarget, Look, Parent, RefusesSomewhere, Refuses;
    if components == [] {
      NothingRefuses(ops, at, links, waiting, error);
    } else {
      var c, rest := components[0], components[1..];
      if c.name == ".." {
        UpInTarget(ops, at, components, links, waiting);
        UpIsNotRefused(ops, at, components, links, waiting, error);
        forall k: nat | k < |components|
          ensures FollowTarget(ops, at, components[..k + 1], links, true)
                  == FollowTarget(ops, Parent(at), rest[..k], links, true)
        {
          FrontStep(ops, at, components, links, k);
        }
        RefusesLater(ops, at, components, links, waiting, error, Parent(at), links);
        TargetRefusesExactly(ops, Parent(at), rest, links, waiting, error);
      } else {
        var sight := Look(ops, at, c.name, links);
        TargetStep(ops, at, components, links, waiting);
        RefusesByLook(ops, at, c, links, waiting, rest != [], error);
        if sight.SeenLink? {
          LinkRefusesExactly(ops, at, components, links, waiting, sight.target, error);
        } else if sight.Seen? && sight.kind == Directory {
          forall k: nat | k < |components|
            ensures FollowTarget(ops, at, components[..k + 1], links, true)
                    == FollowTarget(ops, sight.next, rest[..k], links, true)
          {
            FrontStep(ops, at, components, links, k);
          }
          RefusesLater(ops, at, components, links, waiting, error, sight.next, links);
          TargetRefusesExactly(ops, sight.next, rest, links, waiting, error);
        } else {
          NoDirectoryAhead(ops, at, components, links);
          RefusesHere(ops, at, components, links, waiting, error);
          if sight.Seen? && sight.kind == Missing {
            FollowMissingNeverExists(sight.next, rest, rest == [], links);
          }
        }
      }
    }
  }

  lemma UpInTarget(ops: PathOps, at: string, components: seq<Component>, links: nat, waiting: bool)
    requires links <= SYMLINK_LIMIT
    requires components != [] && components[0].name == ".."
    ensures FollowTarget(ops, at, components, links, waiting)
            == FollowTarget(ops, Parent(at), components[1..], links, waiting)
  {
  }

  lemma UpIsNotRefused(ops: PathOps, at: string, components: seq<Component>, links: nat, waiting: bool,
                       error: ResolveError)
    requires links <= SYMLINK_LIMIT
    requires components != [] && components[0].name == ".."
    ensures !Refuses(ops, at, components[0], links, waiting, components[1..] != [], error)
  {
  }

  /** Nothing behind an element that is neither a directory nor a link is reached. */
  lemma NoDirectoryAhead(ops: PathOps, at: string, components: seq<Component>, links: nat)
    requires links <= SYMLINK_LIMIT && components != [] && components[0].name != ".."
    requires var sight := Look(ops, at, components[0].name, links);
             sight.Unseen? || (sight.Seen? && sight.kind != Directory)
    ensures forall k: nat | 0 < k < |components| :: !FollowTarget(ops, at, components[..k], links, true).AtDirectory?
  {
    hide FollowTarget, Look;
    forall k: nat | 0 < k < |components| ensures !FollowTarget(ops, at, components[..k], links, true).AtDirectory? {
      FrontStep(ops, at, components, links, k - 1);
      assert components[..k - 1 + 1] == components[..k];
    }
  }

  lemma {:induction false} LinkRefusesExactly(ops: PathOps, at: string, components: seq<Component>, links: nat,
                                              waiting: bool, target: string, error: ResolveError)
    requires links < SYMLINK_LIMIT
    requires OfOneElement(error)
    requires components != [] && components[0].name != ".."
    requires Look(ops, at, components[0].name, links) == SeenLink(target)
    ensures RefusedWith(FollowTarget(ops, at, components, links, waiting), error)
       <==> RefusesSomewhere(ops, at, components, links, waiting, error)
    decreases SYMLINK_LIMIT - links, |components|, 0
  {
    hide FollowTarget, Look, RefusesSomewhere, Refuses;
    var rest := components[1..];
    var inner := LinkLanding(ops, at, components, links, waiting || rest != [], target);
    TargetStep(ops, at, components, links, waiting);
    RefusesByLook(ops, at, components[0], links, waiting, rest != [], error);
    if inner.AtDirectory? {
      WaitingTurnsMissingIntoDangling(ops, TargetBase(at, target),
                                      TargetComponents(target, components[0].slashAfter), links + 1);
      forall k: nat | k < |components|
        ensures FollowTarget(ops, at, components[..k + 1], links, true)
                == FollowTarget(ops, inner.at, rest[..k], inner.links, true)
      {
        FrontStep(ops, at, components, links, k);
      }
      RefusesLater(ops, at, components, links, waiting, error, inner.at, inner.links);
      TargetRefusesExactly(ops, inner.at, rest, inner.links, waiting, error);
    } else {
      forall k: nat | 0 < k < |components| ensures !FollowTarget(ops, at, components[..k], links, true).AtDirectory? {
        FrontStep(ops, at, components, links, k - 1);
        assert components[..k - 1 + 1] == components[..k];
      }
      RefusesHere(ops, at, components, links, waiting, error);
    }
  }

  /** The elements of a path are refused as they would be in a target nothing waits for. */
  lemma {:induction false} PathRefusesAsTarget(ops: PathOps, at: string, components: seq<Component>, links: nat,
                                               error: ResolveError)
    requires links <= SYMLINK_LIMIT
    requires OfOneElement(error)
    ensures FollowPath(ops, at, components, links).result == Err(error)
       <==> RefusedWith(FollowTarget(ops, at, components, links, false), error)
    decreases SYMLINK_LIMIT - links, |components|
  {
    hide FollowPath, FollowTarget, Look, Parent;
    if components == [] {
      EmptyPath(ops, at, links);
      NothingRefuses(ops, at, links, false, error);
    } else if components[0].name == ".." {
      UpLeadsOn(ops, at, components, links);
      UpInTarget(ops, at, components, links, false);
      PathRefusesAsTarget(ops, Parent(at), components[1..], links, error);
    } else {
      var rest, sight := components[1..], Look(ops, at, components[0].name, links);
      PathStep(ops, at, components, links);
      TargetStep(ops, at, components, links, false);
      if sight.Seen? && sight.kind == Directory {
        PathRefusesAsTarget(ops, sight.next, rest, links, error);
      } else if sight.SeenLink? {
        var inner := LinkLanding(ops, at, components, links, rest != [], sight.target);
        if inner.AtDirectory? && rest != [] {
          PathRefusesAsTarget(ops, inner.at, rest, inner.links, error);
        } else if inner.AtDirectory? {
          NothingRefuses(ops, inner.at, inner.links, false, error);
        }
      }
    }
  }

  /** Each of these errors is the result exactly when an element of the path, reached through the ones
      before it, is refused with it. Nothing waits for an element of the path itself, so DanglingSymlink
      is the result exactly when one of them is a link whose target dangles, or by an operation's own
      answer. */
  lemma RefusedExactlyWhenSomeElementIs(root: string, rel: string, ops: PathOps, error: ResolveError)
    requires OfOneElement(error)
    ensures Resolve(root, rel, ops) == Err(error) <==> RefusesSomewhere(ops, "/", WholePath(root, rel), 0, false, error)
  {
    PathRefusesAsTarget(ops, "/", WholePath(root, rel), 0, error);
    TargetRefusesExactly(ops, "/", WholePath(root, rel), 0, false, error);
  }

  // ----- Ancestors that are not directories -----

  /** The first k + 1 elements of the list, followed alone, end at the non-directory `found`, and the
      last of them is an element of the relative path with more elements behind it. */
  ghost predicate StopsAt(ops: PathOps, at: string, components: seq<Component>, links: nat, k: nat, found: string,
                          regularFile: bool)
    requires links <= SYMLINK_LIMIT
  {
    && k + 1 < |components| && components[k].fromRel
    && var alone := FollowTarget(ops, at, components[..k + 1], links, false);
       alone.AtNonDirectory? && alone.at == found && (alone.kind == RegularFile) == regularFile
  }

  ghost predicate Stops(ops: PathOps, at: string, components: seq<Component>, links: nat, found: string,
                        regularFile: bool)
    requires links <= SYMLINK_LIMIT
  {
    exists k: nat :: StopsAt(ops, at, components, links, k, found, regularFile)
  }

  /** The first element leads to the directory `dir`: the walk stops later or not at all. */
  lemma StopsLater(ops: PathOps, at: string, components: seq<Component>, links: nat,
                   dir: string, used: nat, found: string, regularFile: bool)
    requires links <= used <= SYMLINK_LIMIT && components != []
    requires forall k: nat | k < |components| ::
      FollowTarget(ops, at, components[..k + 1], links, false)
        == FollowTarget(ops, dir, components[1..][..k], used, false)
    ensures Stops(ops, at, components, links, found, regularFile)
            == Stops(ops, dir, components[1..], used, found, regularFile)
  {
    var rest := components[1..];
    if Stops(ops, at, components, links, found, regularFile) {
      var k: nat :| StopsAt(ops, at, components, links, k, found, regularFile);
      assert rest[..0] == [];
      assert k > 0;
      assert rest[..k - 1 + 1] == rest[..k];
      assert StopsAt(ops, dir, rest, used, k - 1, found, regularFile);
    }
    if Stops(ops, dir, rest, used, found, regularFile) {
      var k: nat :| StopsAt(ops, dir, rest, used, k, found, regularFile);
      assert StopsAt(ops, at, components, links, k + 1, found, regularFile);
    }
  }

  lemma {:induction false} BlockedExactlyWhenStopped(ops: PathOps, at: string, components: seq<Component>,
        links: nat, found: string, regularFile: bool)
    requires links <= SYMLINK_LIMIT
    ensures FollowPath(ops, at, components, links).result == Ok(AncestorNotDirectory(found, regularFile))
       <==> Stops(ops, at, components, links, found, regularFile)
    decreases SYMLINK_LIMIT - links, |components|
  {
    hide FollowTarget, FollowPath, Look, Parent, StopsAt;
    if components == [] {
      EmptyPath(ops, at, links);
      NoStopAtEnd(ops, at, links, found, regularFile);
    } else if components[0].name == ".." {
      UpLeadsOn(ops, at, components, links);
      StopsLater(ops, at, components, links, Parent(at), links, found, regularFile);
      BlockedExactlyWhenStopped(ops, Parent(at), components[1..], links, found, regularFile);
    } else {
      var sight := Look(ops, at, components[0].name, links);
      if sight.SeenLink? {
        BlockedAtLink(ops, at, components, links, sight.target, found, regularFile);
      } else if sight.Seen? && sight.kind == Directory {
        DirectoryLeadsOn(ops, at, components, links, sight.next);
        StopsLater(ops, at, components, links, sight.next, links, found, regularFile);
        BlockedExactlyWhenStopped(ops, sight.next, components[1..], links, found, regularFile);
      } else {
        BlockedAtEnd(ops, at, components, links, found, regularFile);
      }
    }
  }

  lemma NoStopAtEnd(ops: PathOps, at: string, links: nat, found: string, regularFile: bool)
    requires links <= SYMLINK_LIMIT
    ensures !Stops(ops, at, [], links, found, regularFile)
  {
  }

  /** The first element is missing, unreadable or not a directory. */
  lemma BlockedAtEnd(ops: PathOps, at: string, components: seq<Component>, links: nat, found: string, regularFile: bool)
    requires links <= SYMLINK_LIMIT
    requires components != [] && components[0].name != ".."
    requires var sight := Look(ops, at, components[0].name, links);
             sight.Unseen? || (sight.Seen? && sight.kind != Directory)
    ensures FollowPath(ops, at, components, links).result == Ok(AncestorNotDirectory(found, regularFile))
       <==> Stops(ops, at, components, links, found, regularFile)
  {
    hide FollowTarget, FollowPath, Look;
    var c, rest := components[0], components[1..];
    var sight := Look(ops, at, c.name, links);
    PathStep(ops, at, components, links);
    if Stops(ops, at, components, links, found, regularFile) {
      var k: nat :| StopsAt(ops, at, components, links, k, found, regularFile);
      var front := components[..k + 1];
      assert |front[1..]| == k;
      TargetStep(ops, at, front, links, false);
      if sight.Seen? && sight.kind == Missing {
        FollowMissingNeverExists(sight.next, front[1..], front[1..] == [], links);
      }
    }
    if sight.Seen? && sight.kind == Missing {
      FollowMissingNeverExists(sight.next, rest, rest == [], links);
    } else if sight.Seen? && rest != [] {
      TargetStep(ops, at, components[..1], links, false);
      if c.fromRel && sight.next == found && (sight.kind == RegularFile) == regularFile {
        assert StopsAt(ops, at, components, links, 0, found, regularFile);
      }
    }
  }

  lemma DirectoryLeadsOn(ops: PathOps, at: string, components: seq<Component>, links: nat, next: string)
    requires links <= SYMLINK_LIMIT
    requires components != [] && components[0].name != ".."
    requires Look(ops, at, components[0].name, links) == Seen(next, Directory)
    ensures FollowPath(ops, at, components, links) == FollowPath(ops, next, components[1..], links)
    ensures forall k: nat | k < |components| ::
      FollowTarget(ops, at, components[..k + 1], links, false)
        == FollowTarget(ops, next, components[1..][..k], links, false)
  {
    hide Look;
    forall k: nat | k < |components|
      ensures FollowTarget(ops, at, components[..k + 1], links, false)
              == FollowTarget(ops, next, components[1..][..k], links, false)
    {
      assert components[..k + 1][1..] == components[1..][..k];
    }
  }

  lemma EmptyPath(ops: PathOps, at: string, links: nat)
    requires links <= SYMLINK_LIMIT
    ensures FollowPath(ops, at, [], links) == Finish(None, AtDirectory(at, links))
  {
  }

  lemma UpLeadsOn(ops: PathOps, at: string, components: seq<Component>, links: nat)
    requires links <= SYMLINK_LIMIT
    requires components != [] && components[0].name == ".."
    ensures FollowPath(ops, at, components, links) == FollowPath(ops, Parent(at), components[1..], links)
    ensures forall k: nat | k < |components| ::
      FollowTarget(ops, at, components[..k + 1], links, false)
        == FollowTarget(ops, Parent(at), components[1..][..k], links, false)
  {
    forall k: nat | k < |components|
      ensures FollowTarget(ops, at, components[..k + 1], links, false)
              == FollowTarget(ops, Parent(at), components[1..][..k], links, false)
    {
      assert components[..k + 1][1..] == components[1..][..k];
    }
  }

  lemma {:induction false} BlockedAtLink(ops: PathOps, at: string, components: seq<Component>, links: nat,
                                         target: string, found: string, regularFile: bool)
    requires links < SYMLINK_LIMIT
    requires components != [] && components[0].name != ".."
    requires Look(ops, at, components[0].name, links) == SeenLink(target)
    ensures FollowPath(ops, at, components, links).result == Ok(AncestorNotDirectory(found, regularFile))
       <==> Stops(ops, at, components, links, found, regularFile)
    decreases SYMLINK_LIMIT - links, |components|, 0
  {
    hide FollowTarget, FollowPath, Look;
    var c, rest := components[0], components[1..];
    var base, inner := TargetBase(at, target), TargetComponents(target, c.slashAfter);
    PathStep(ops, at, components, links);
    if rest != [] {
      WaitingTurnsMissingIntoDangling(ops, base, inner, links + 1);
      var alone, followed :=
          FollowTarget(ops, base, inner, links + 1, false), FollowTarget(ops, base, inner, links + 1, true);
      forall k: nat | k < |components|
        ensures FollowTarget(ops, at, components[..k + 1], links, false)
             == AfterTarget(ops, rest[..k], if k == 0 then alone else followed, false)
      {
        TargetStep(ops, at, components[..k + 1], links, false);
        assert components[..k + 1][1..] == rest[..k];
      }
      assert rest[..0] == [];
      if followed.AtDirectory? {
        StopsLater(ops, at, components, links, followed.at, followed.links, found, regularFile);
        BlockedExactlyWhenStopped(ops, followed.at, rest, followed.links, found, regularFile);
        return;
      }
      if Stops(ops, at, components, links, found, regularFile) {
        var k: nat :| StopsAt(ops, at, components, links, k, found, regularFile);
        assert |rest[..k]| == k;
        assert k == 0;
        assert AfterTarget(ops, [], alone, false) == alone by {
          if alone.AtDirectory? { assert false; }
        }
      }
      if followed.AtNonDirectory? && c.fromRel && followed.at == found
        && (followed.kind == RegularFile) == regularFile {
        assert StopsAt(ops, at, components, links, 0, found, regularFile);
      }
    }
  }

  /** AncestorNotDirectory is the result exactly when what a non-last element of the relative path
      itself resolves to is that non-directory. */
  lemma AncestorExactlyWhenStopped(root: string, rel: string, ops: PathOps, found: string, regularFile: bool)
    ensures Resolve(root, rel, ops) == Ok(AncestorNotDirectory(found, regularFile))
       <==> Stops(ops, "/", WholePath(root, rel), 0, found, regularFile)
  {
    BlockedExactlyWhenStopped(ops, "/", WholePath(root, rel), 0, found, regularFile);
  }
}
