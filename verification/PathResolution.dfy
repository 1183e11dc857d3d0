/** Following root_dir and a relative path from "/" element by element. */
module PathResolution {
  import opened Texts

  const PATH_LENGTH_LIMIT := 4096
  const NAME_LENGTH_LIMIT := 255
  const SYMLINK_LIMIT := 40

  datatype ResolveError =
    | PathTooLong
    | TooManyLinks
    | NotADirectory
    | PermissionDenied
    | DanglingSymlink
    | ParentReferenceInMissingPart
    | NonUtf8Path
    | CannotRead

  datatype Result<+T> = Ok(value: T) | Err(error: ResolveError)

  /** What lstat says of one path. */
  datatype EntryKind = Missing | Directory | RegularFile | Symlink | Other

  datatype ExistingKind = ExistingFile | ExistingDirectory | ExistingOther

  datatype ResolvedPath =
    | MissingPath(realParent: string, parentExists: bool)
    | Exists(realPath: string, kind: ExistingKind)
    | LastLink(linkTarget: string, realPath: string, targetKind: Option<ExistingKind>)
    | AncestorNotDirectory(realPath: string, regularFile: bool)

  /** The primitive operations, asked of one unchanging file system. A link text that is not UTF-8
      reads as `None`. */
  datatype PathOps = PathOps(
    entryKind: string -> Result<EntryKind>,
    canSearch: string -> Result<bool>,
    readLink: string -> Result<Option<string>>)

  /** One element that is still to be followed. */
  datatype Component = Component(name: string, slashAfter: bool, fromRel: bool)

  /** A link target being followed; `rest` is how many elements were behind the link when its target
      was put in front of them. */
  datatype Expansion = Expansion(rest: nat, fromRel: bool)

  predicate Named(name: string) {
    name != "" && name != "." && SLASH !in name
  }

  predicate AllNamed(components: seq<Component>) {
    forall c :: c in components ==> Named(c.name)
  }

  /** The elements that are neither empty nor ".". */
  function ComponentsOf(segments: seq<string>, fromRel: bool): (components: seq<Component>)
    requires forall i :: 0 <= i < |segments| ==> SLASH !in segments[i]
    ensures AllNamed(components)
    ensures forall c :: c in components ==> c.fromRel == fromRel
  {
    if segments == [] then []
    else
      var tail := ComponentsOf(segments[1..], fromRel);
      if segments[0] == "" || segments[0] == "." then tail
      else [Component(segments[0], |segments| > 1, fromRel)] + tail
  }

  function Components(path: string, fromRel: bool): (components: seq<Component>)
    ensures AllNamed(components)
    ensures forall c :: c in components ==> c.fromRel == fromRel
  {
    ElementsHaveNoSlash(path);
    ComponentsOf(Split(path), fromRel)
  }

  /** `components` with a "/" asked for after the last one if `slash` holds. */
  function SlashAfterLast(components: seq<Component>, slash: bool): (asked: seq<Component>)
    ensures |asked| == |components|
    ensures AllNamed(components) ==> AllNamed(asked)
    ensures (forall c :: c in components ==> !c.fromRel) ==> (forall c :: c in asked ==> !c.fromRel)
  {
    if components == [] then []
    else
      var last := components[|components| - 1];
      components[..|components| - 1] + [last.(slashAfter := last.slashAfter || slash)]
  }

  function Joined(at: string, name: string): string {
    if at == "/" then "/" + name else at + "/" + name
  }

  /** `at` up to its last "/", or "/". */
  function Parent(at: string): string {
    if at == "" then "/"
    else if at[|at| - 1] == SLASH then (if |at| == 1 then "/" else at[..|at| - 1])
    else Parent(at[..|at| - 1])
  }

  function JoinedWithinLimits(at: string, name: string): Result<string> {
    var next := Joined(at, name);
    if |name| > NAME_LENGTH_LIMIT || |next| >= PATH_LENGTH_LIMIT then Err(PathTooLong) else Ok(next)
  }

  function StepInMissingPart(at: string, name: string): Result<string> {
    if name == ".." then Err(ParentReferenceInMissingPart) else JoinedWithinLimits(at, name)
  }

  function KindOf(found: EntryKind): ExistingKind {
    if found == RegularFile then ExistingFile
    else if found == Directory then ExistingDirectory
    else ExistingOther
  }

  /** The elements at the front of the path being resolved: root_dir, then the relative path. */
  function WholePath(root: string, rel: string): (components: seq<Component>)
    ensures AllNamed(components)
  {
    var relComponents := Components(rel, true);
    SlashAfterLast(Components(root, false), relComponents != []) + relComponents
  }

  // ----- The simple resolver: a link target is resolved by a call of its own -----

  /** Where following a list of elements ends. `links` counts the link targets put in so far. */
  datatype Landing =
    | AtDirectory(at: string, links: nat)
    | AtNonDirectory(at: string, kind: EntryKind, slash: bool, links: nat)
    | AtMissing(at: string, parentExists: bool, links: nat)
    | Refused(error: ResolveError, links: nat)

  /** What one element other than ".." turns out to be. */
  datatype Sight =
    | Unseen(error: ResolveError)
    | Seen(next: string, kind: EntryKind)
    | SeenLink(target: string)

  function Look(ops: PathOps, at: string, name: string, links: nat): (sight: Sight)
    ensures sight.Seen? ==> sight.kind != Symlink
    ensures sight.Seen? ==> ops.entryKind(sight.next) == Ok(sight.kind)
    ensures sight.Seen? ==> JoinedWithinLimits(at, name) == Ok(sight.next)
    ensures sight.SeenLink? ==> links != SYMLINK_LIMIT
  {
    var next := JoinedWithinLimits(at, name);
    if next.Err? then Unseen(next.error) else
    var search := ops.canSearch(at);
    if search.Err? then Unseen(search.error) else
    if !search.value then Unseen(PermissionDenied) else
    var kind := ops.entryKind(next.value);
    if kind.Err? then Unseen(kind.error) else
    if kind.value != Symlink then Seen(next.value, kind.value) else
    if links == SYMLINK_LIMIT then Unseen(TooManyLinks) else
    var text := ops.readLink(next.value);
    if text.Err? then Unseen(text.error) else
    if text.value.None? then Unseen(NonUtf8Path) else
    SeenLink(text.value.value)
  }

  function TargetBase(at: string, target: string): string {
    if target != "" && target[0] == SLASH then "/" else at
  }

  function TargetComponents(target: string, slash: bool): (components: seq<Component>)
    ensures AllNamed(components)
    ensures forall c :: c in components ==> !c.fromRel
  {
    SlashAfterLast(Components(target, false), slash)
  }

  /** The part of a path behind a missing element. */
  function FollowMissing(at: string, components: seq<Component>, parentExists: bool, links: nat): (landing: Landing)
    requires links <= SYMLINK_LIMIT
    ensures links <= landing.links <= SYMLINK_LIMIT
    decreases components
  {
    if components == [] then AtMissing(at, parentExists, links)
    else
      var next := StepInMissingPart(at, components[0].name);
      if next.Err? then Refused(next.error, links)
      else FollowMissing(next.value, components[1..], parentExists, links)
  }

  /** Follows the elements of a link target from the directory `at`. `waiting` says that some link
      this target is part of still has elements behind it. */
  function FollowTarget(ops: PathOps, at: string, components: seq<Component>, links: nat,
                        waiting: bool): (landing: Landing)
    requires links <= SYMLINK_LIMIT
    ensures links <= landing.links <= SYMLINK_LIMIT
    decreases SYMLINK_LIMIT - links, |components|, 0
  {
    if components == [] then AtDirectory(at, links) else
    var c, rest := components[0], components[1..];
    if c.name == ".." then FollowTarget(ops, Parent(at), rest, links, waiting) else
    match Look(ops, at, c.name, links)
    case Unseen(error) => Refused(error, links)
    case Seen(next, Missing) =>
      if waiting then Refused(DanglingSymlink, links) else FollowMissing(next, rest, rest == [], links)
    case Seen(next, Directory) => FollowTarget(ops, next, rest, links, waiting)
    case Seen(next, kind) =>
      if rest == [] then AtNonDirectory(next, kind, c.slashAfter, links) else Refused(NotADirectory, links)
    case SeenLink(target) =>
      var inner := FollowTarget(ops, TargetBase(at, target), TargetComponents(target, c.slashAfter),
                                links + 1, waiting || rest != []);
      AfterTarget(ops, rest, inner, waiting)
  }

  /** Goes on with the elements behind a link once its target has been followed. */
  function AfterTarget(ops: PathOps, rest: seq<Component>, inner: Landing, waiting: bool): (landing: Landing)
    requires inner.links <= SYMLINK_LIMIT
    ensures inner.links <= landing.links <= SYMLINK_LIMIT
    decreases SYMLINK_LIMIT - inner.links, |rest|, 1
  {
    match inner
    case AtDirectory(dir, used) => FollowTarget(ops, dir, rest, used, waiting)
    case AtNonDirectory(_, _, _, _) => if rest == [] then inner else Refused(NotADirectory, inner.links)
    case AtMissing(_, _, _) => inner
    case Refused(_, _) => inner
  }

  /** The result of the path and how many link targets were put in on the way. */
  datatype Walked = Walked(result: Result<ResolvedPath>, links: nat)

  /** The result once the last element of the path has been followed. `link` is the text of that
      element when it is a symlink named by the relative path. */
  function Finish(link: Option<string>, landing: Landing): Walked {
    Walked(FinishedAs(link, landing), landing.links)
  }

  function FinishedAs(link: Option<string>, landing: Landing): Result<ResolvedPath> {
    match landing
    case Refused(error, _) => Err(error)
    case AtDirectory(at, _) => Ok(Found(link, at, ExistingDirectory))
    case AtNonDirectory(at, kind, slash, _) =>
      if slash then Err(NotADirectory) else Ok(Found(link, at, KindOf(kind)))
    case AtMissing(at, parentExists, _) =>
      Ok(match link
         case Some(target) => LastLink(target, at, None)
         case None => MissingPath(Parent(at), parentExists))
  }

  function Found(link: Option<string>, at: string, kind: ExistingKind): ResolvedPath {
    match link
    case Some(target) => LastLink(target, at, Some(kind))
    case None => Exists(at, kind)
  }

  /** A non-directory with elements behind it, met as what the path's own element `c` stands for. */
  function Blocked(c: Component, at: string, kind: EntryKind): Result<ResolvedPath> {
    if c.fromRel then Ok(AncestorNotDirectory(at, kind == RegularFile)) else Err(NotADirectory)
  }

  /** Follows the elements of the path itself from the directory `at`. */
  function FollowPath(ops: PathOps, at: string, components: seq<Component>, links: nat): (walked: Walked)
    requires links <= SYMLINK_LIMIT
    ensures links <= walked.links <= SYMLINK_LIMIT
    decreases SYMLINK_LIMIT - links, |components|, 0
  {
    if components == [] then Finish(None, AtDirectory(at, links)) else
    var c, rest := components[0], components[1..];
    if c.name == ".." then FollowPath(ops, Parent(at), rest, links) else
    match Look(ops, at, c.name, links)
    case Unseen(error) => Walked(Err(error), links)
    case Seen(next, Missing) => Finish(None, FollowMissing(next, rest, rest == [], links))
    case Seen(next, Directory) => FollowPath(ops, next, rest, links)
    case Seen(next, kind) =>
      if rest == [] then Finish(None, AtNonDirectory(next, kind, c.slashAfter, links))
      else Walked(Blocked(c, next, kind), links)
    case SeenLink(target) =>
      var inner := FollowTarget(ops, TargetBase(at, target), TargetComponents(target, c.slashAfter), links + 1,
                                rest != []);
      AfterLink(ops, c, target, rest, inner)
  }

  function AfterLink(ops: PathOps, c: Component, target: string, rest: seq<Component>, inner: Landing): (walked: Walked)
    requires inner.links <= SYMLINK_LIMIT
    ensures inner.links <= walked.links <= SYMLINK_LIMIT
    decreases SYMLINK_LIMIT - inner.links, |rest|, 1
  {
    if rest == [] then Finish(if c.fromRel then Some(target) else None, inner) else
    match inner
    case AtDirectory(dir, used) => FollowPath(ops, dir, rest, used)
    case AtNonDirectory(at, kind, _, _) => Walked(Blocked(c, at, kind), inner.links)
    case AtMissing(_, _, _) => Finish(None, inner)
    case Refused(_, _) => Finish(None, inner)
  }

  /** The simple resolver on root_dir and a relative path. */
  function Resolve(root: string, rel: string, ops: PathOps): Result<ResolvedPath> {
    FollowPath(ops, "/", WholePath(root, rel), 0).result
  }

  /** How many link targets the simple resolver puts in until it has its result. */
  function LinksFollowed(root: string, rel: string, ops: PathOps): (links: nat)
    ensures links <= SYMLINK_LIMIT
  {
    FollowPath(ops, "/", WholePath(root, rel), 0).links
  }

  // ----- The stack of links being followed, and what the counters say of it -----

  /** A link being followed: the element that named it, its text, and the elements behind it in the
      list it stands in. */
  datatype Frame = Frame(link: Component, target: string, rest: seq<Component>)

  /** Everything behind the innermost link, nearest first. */
  ghost function Behind(frames: seq<Frame>): seq<Component> {
    if frames == [] then [] else frames[|frames| - 1].rest + Behind(frames[..|frames| - 1])
  }

  /** The counters that record `frames`: for each link how many elements stood behind it. */
  ghost function Counters(frames: seq<Frame>): seq<Expansion> {
    if frames == [] then []
    else Counters(frames[..|frames| - 1]) + [Expansion(|Behind(frames)|, frames[|frames| - 1].link.fromRel)]
  }

  /** Resolves what is left: `landing` is where the innermost target ends. */
  ghost function Unwind(ops: PathOps, frames: seq<Frame>, landing: Landing): Walked
    requires frames != []
    requires landing.links <= SYMLINK_LIMIT
    decreases |frames|
  {
    var f := frames[|frames| - 1];
    if |frames| == 1 then AfterLink(ops, f.link, f.target, f.rest, landing)
    else
      var outer := frames[..|frames| - 1];
      Unwind(ops, outer, AfterTarget(ops, f.rest, landing, Behind(outer) != []))
  }

  /** The result from the elements `current` of the innermost list on. */
  ghost function Remaining(ops: PathOps, frames: seq<Frame>, at: string, current: seq<Component>, links: nat): Walked
    requires links <= SYMLINK_LIMIT
  {
    if frames == [] then FollowPath(ops, at, current, links)
    else Unwind(ops, frames, FollowTarget(ops, at, current, links, Behind(frames) != []))
  }

  /** The result when the innermost list ends in `landing`. */
  ghost function Conclude(ops: PathOps, frames: seq<Frame>, landing: Landing): Walked
    requires landing.links <= SYMLINK_LIMIT
  {
    if frames == [] then Finish(None, landing) else Unwind(ops, frames, landing)
  }

  /** The symlink text the result carries: the path's own last element is a link of the relative path. */
  ghost function LinkNamedLast(frames: seq<Frame>): Option<string> {
    if frames != [] && frames[0].link.fromRel && frames[0].rest == [] then Some(frames[0].target) else None
  }

  ghost predicate NoneFromRel(components: seq<Component>) {
    forall c :: c in components ==> !c.fromRel
  }

  /** Only the path's own list holds elements of the relative path. */
  ghost predicate TargetsAreNotRel(frames: seq<Frame>, current: seq<Component>) {
    && (forall i :: 1 <= i < |frames| ==> !frames[i].link.fromRel && NoneFromRel(frames[i].rest))
    && (frames != [] ==> NoneFromRel(current))
  }

  lemma {:induction false} RefusalEndsAll(ops: PathOps, frames: seq<Frame>, error: ResolveError, links: nat)
    requires links <= SYMLINK_LIMIT
    ensures Conclude(ops, frames, Refused(error, links)) == Walked(Err(error), links)
  {
    if |frames| > 1 {
      RefusalEndsAll(ops, frames[..|frames| - 1], error, links);
    }
  }

  lemma {:induction false} EndOfAllTargets(ops: PathOps, frames: seq<Frame>, landing: Landing)
    requires Behind(frames) == []
    requires landing.links <= SYMLINK_LIMIT
    ensures Conclude(ops, frames, landing) == Finish(LinkNamedLast(frames), landing)
  {
    if frames != [] {
      var outer := frames[..|frames| - 1];
      assert frames[|frames| - 1].rest == [] && Behind(outer) == [];
      if outer != [] {
        EndOfAllTargets(ops, outer, landing);
        assert AfterTarget(ops, [], landing, false) == landing;
        assert LinkNamedLast(outer) == LinkNamedLast(frames) by { assert outer[0] == frames[0]; }
      }
    }
  }

  /** Elements left inside some target the non-directory is part of. */
  ghost predicate InsideATarget(frames: seq<Frame>) {
    exists i :: 1 <= i < |frames| && frames[i].rest != []
  }

  lemma InsideWithOneMore(frames: seq<Frame>)
    requires |frames| > 1
    ensures InsideATarget(frames) <==> InsideATarget(frames[..|frames| - 1]) || frames[|frames| - 1].rest != []
  {
    var outer := frames[..|frames| - 1];
    if InsideATarget(frames) && frames[|frames| - 1].rest == [] {
      var i :| 1 <= i < |frames| && frames[i].rest != [];
      assert outer[i].rest != [];
    }
    if InsideATarget(outer) {
      var i :| 1 <= i < |outer| && outer[i].rest != [];
      assert frames[i].rest != [];
    }
  }

  lemma {:induction false} NonDirectoryWithRest(ops: PathOps, frames: seq<Frame>, landing: Landing)
    requires frames != [] && Behind(frames) != []
    requires landing.AtNonDirectory? && landing.links <= SYMLINK_LIMIT
    ensures Unwind(ops, frames, landing)
         == Walked(if InsideATarget(frames) then Err(NotADirectory)
                   else Blocked(frames[0].link, landing.at, landing.kind),
                   landing.links)
  {
    hide FollowTarget, FollowPath;
    var f, outer := frames[|frames| - 1], frames[..|frames| - 1];
    if |frames| == 1 {
      assert Behind(outer) == [];
    } else if f.rest != [] {
      RefusalEndsAll(ops, outer, NotADirectory, landing.links);
      assert InsideATarget(frames);
    } else {
      NonDirectoryWithRest(ops, outer, landing);
      InsideWithOneMore(frames);
      assert Behind(frames) == Behind(outer);
      assert AfterTarget(ops, [], landing, true) == landing;
      assert outer[0] == frames[0];
    }
  }

  /** The counters never decrease from the outermost link inwards. */
  lemma {:induction false} CountersNeverDecrease(frames: seq<Frame>)
    ensures |Counters(frames)| == |frames|
    ensures forall i :: 0 <= i < |frames| ==> Counters(frames)[i].rest <= |Behind(frames)|
    ensures forall i :: 0 <= i < |frames| ==> Counters(frames)[i].fromRel == frames[i].link.fromRel
    ensures forall i, j :: 0 <= i <= j < |frames| ==> Counters(frames)[i].rest <= Counters(frames)[j].rest
  {
    if frames != [] {
      CountersNeverDecrease(frames[..|frames| - 1]);
    }
  }

  /** The outermost counter is smaller than what is left exactly when elements are left inside a target. */
  lemma {:induction false} OutermostCounter(frames: seq<Frame>)
    requires frames != []
    ensures |Counters(frames)| == |frames|
    ensures Counters(frames)[0].rest <= |Behind(frames)|
    ensures Counters(frames)[0].rest < |Behind(frames)| <==> InsideATarget(frames)
  {
    var outer := frames[..|frames| - 1];
    CountersNeverDecrease(frames);
    if outer == [] {
      assert Behind(outer) == [];
    } else {
      CountersNeverDecrease(outer);
      OutermostCounter(outer);
      InsideWithOneMore(frames);
      hide InsideATarget;
    }
  }

  /** The counters that are at most `rest`. */
  function Retain(expansions: seq<Expansion>, rest: nat): seq<Expansion> {
    if expansions == [] then []
    else
      var last := expansions[|expansions| - 1];
      Retain(expansions[..|expansions| - 1], rest) + (if last.rest <= rest then [last] else [])
  }

  lemma {:induction false} RetainAll(expansions: seq<Expansion>, rest: nat)
    requires forall i :: 0 <= i < |expansions| ==> expansions[i].rest <= rest
    ensures Retain(expansions, rest) == expansions
  {
    if expansions != [] {
      RetainAll(expansions[..|expansions| - 1], rest);
    }
  }

  lemma EmptyTarget(ops: PathOps, at: string, links: nat)
    requires links <= SYMLINK_LIMIT
    ensures FollowTarget(ops, at, [], links, true) == AtDirectory(at, links)
  {
  }

  /** A target with no elements left is left for the list its link stands in. */
  lemma LeaveFrame(ops: PathOps, frames: seq<Frame>, at: string, links: nat)
    requires links <= SYMLINK_LIMIT
    requires frames != [] && Behind(frames) != []
    ensures var f, below := frames[|frames| - 1], frames[..|frames| - 1];
            && Remaining(ops, below, at, f.rest, links) == Remaining(ops, frames, at, [], links)
            && Retain(Counters(frames), |Behind(frames)| - 1) == Retain(Counters(below), |Behind(frames)| - 1)
            && LinkNamedLast(below) == LinkNamedLast(frames)
  {
    hide FollowPath, FollowTarget, Counters, Retain;
    var f, below := frames[|frames| - 1], frames[..|frames| - 1];
    DropLastCounter(frames);
    EmptyTarget(ops, at, links);
    if below != [] {
      assert below[0] == frames[0];
    } else {
      assert Behind(below) == [];
    }
  }

  lemma DropLastCounter(frames: seq<Frame>)
    requires frames != [] && Behind(frames) != []
    ensures Retain(Counters(frames), |Behind(frames)| - 1)
            == Retain(Counters(frames[..|frames| - 1]), |Behind(frames)| - 1)
  {
    hide Behind;
    var below := frames[..|frames| - 1];
    assert Counters(frames)[..|Counters(below)|] == Counters(below);
  }

  /** Taking the next element leaves the targets that have no elements left, and the counters that
      are kept are the counters of the targets the element belongs to. */
  lemma {:induction false} NextElement(ops: PathOps, frames: seq<Frame>, at: string, current: seq<Component>,
                                       links: nat)
      returns (outer: seq<Frame>, now: seq<Component>)
    requires links <= SYMLINK_LIMIT
    requires current + Behind(frames) != []
    requires TargetsAreNotRel(frames, current)
    ensures now != [] && now + Behind(outer) == current + Behind(frames)
    ensures Remaining(ops, outer, at, now, links) == Remaining(ops, frames, at, current, links)
    ensures Retain(Counters(frames), |current + Behind(frames)| - 1) == Counters(outer)
    ensures TargetsAreNotRel(outer, now)
    ensures LinkNamedLast(outer) == LinkNamedLast(frames)
    decreases |frames|
  {
    hide Remaining, Counters;
    var rest := |current + Behind(frames)| - 1;
    if current != [] {
      outer, now := frames, current;
      CountersNeverDecrease(frames);
      RetainAll(Counters(frames), rest);
    } else {
      var f, below := frames[|frames| - 1], frames[..|frames| - 1];
      LeaveFrame(ops, frames, at, links);
      assert current + Behind(frames) == f.rest + Behind(below);
      outer, now := NextElement(ops, below, at, f.rest, links);
    }
  }

  /** The conclusion about a non-directory `found` with `rest` elements behind it. */
  function NotADirectoryBefore(expansions: seq<Expansion>, rest: nat, fromRel: bool, found: string,
                               kind: EntryKind): Result<ResolvedPath>
  {
    if exists i :: 0 <= i < |expansions| && expansions[i].rest < rest then Err(NotADirectory)
    else
      var originFromRel := if expansions == [] then fromRel else expansions[0].fromRel;
      if !originFromRel then Err(NotADirectory) else Ok(AncestorNotDirectory(found, kind == RegularFile))
  }

  // ----- One element at a time -----

  lemma StepUp(ops: PathOps, frames: seq<Frame>, at: string, now: seq<Component>, links: nat)
    requires links <= SYMLINK_LIMIT
    requires now != [] && now[0].name == ".."
    ensures Remaining(ops, frames, at, now, links) == Remaining(ops, frames, Parent(at), now[1..], links)
  {
    assert FollowTarget(ops, at, now, links, Behind(frames) != [])
           == FollowTarget(ops, Parent(at), now[1..], links, Behind(frames) != []);
  }

  lemma StepRefused(ops: PathOps, frames: seq<Frame>, at: string, now: seq<Component>, links: nat)
    requires links <= SYMLINK_LIMIT
    requires now != [] && now[0].name != ".."
    requires Look(ops, at, now[0].name, links).Unseen?
    ensures Remaining(ops, frames, at, now, links) == Walked(Err(Look(ops, at, now[0].name, links).error), links)
  {
    if frames != [] {
      RefusalEndsAll(ops, frames, Look(ops, at, now[0].name, links).error, links);
    }
  }

  lemma StepDirectory(ops: PathOps, frames: seq<Frame>, at: string, now: seq<Component>, links: nat, next: string)
    requires links <= SYMLINK_LIMIT
    requires now != [] && now[0].name != ".."
    requires Look(ops, at, now[0].name, links) == Seen(next, Directory)
    ensures Remaining(ops, frames, at, now, links) == Remaining(ops, frames, next, now[1..], links)
  {
    if frames != [] {
      assert FollowTarget(ops, at, now, links, Behind(frames) != [])
             == FollowTarget(ops, next, now[1..], links, Behind(frames) != []);
    }
  }

  lemma StepMissing(ops: PathOps, frames: seq<Frame>, at: string, now: seq<Component>, links: nat, next: string)
    requires links <= SYMLINK_LIMIT
    requires now != [] && now[0].name != ".."
    requires Look(ops, at, now[0].name, links) == Seen(next, Missing)
    ensures Remaining(ops, frames, at, now, links)
         == if Behind(frames) != [] then Walked(Err(DanglingSymlink), links)
            else Conclude(ops, frames, FollowMissing(next, now[1..], now[1..] == [], links))
  {
    if frames != [] {
      RefusalEndsAll(ops, frames, DanglingSymlink, links);
    } else {
      assert Behind(frames) == [];
    }
  }

  lemma StepMissingPart(ops: PathOps, frames: seq<Frame>, at: string, now: seq<Component>, parentExists: bool,
                        links: nat)
    requires links <= SYMLINK_LIMIT
    requires now != []
    ensures Conclude(ops, frames, FollowMissing(at, now, parentExists, links))
         == var step := StepInMissingPart(at, now[0].name);
            if step.Err? then Walked(Err(step.error), links)
            else Conclude(ops, frames, FollowMissing(step.value, now[1..], parentExists, links))
  {
    var step := StepInMissingPart(at, now[0].name);
    if step.Err? {
      RefusalEndsAll(ops, frames, step.error, links);
    }
  }

  lemma StepLast(ops: PathOps, frames: seq<Frame>, at: string, now: seq<Component>, links: nat, next: string,
                 kind: EntryKind)
    requires links <= SYMLINK_LIMIT
    requires |now| == 1 && now[0].name != ".."
    requires Look(ops, at, now[0].name, links) == Seen(next, kind)
    requires kind == RegularFile || kind == Other
    ensures Remaining(ops, frames, at, now, links)
         == Conclude(ops, frames, AtNonDirectory(next, kind, now[0].slashAfter, links))
  {
  }

  /** The counters tell the same conclusion as the stack of links. */
  lemma StepBlocked(ops: PathOps, frames: seq<Frame>, at: string, now: seq<Component>, links: nat, next: string,
                    kind: EntryKind)
    requires links <= SYMLINK_LIMIT
    requires now != [] && now[0].name != ".."
    requires |now[1..] + Behind(frames)| > 0
    requires Look(ops, at, now[0].name, links) == Seen(next, kind)
    requires kind == RegularFile || kind == Other
    ensures Remaining(ops, frames, at, now, links)
         == Walked(NotADirectoryBefore(Counters(frames), |now[1..] + Behind(frames)|, now[0].fromRel, next, kind),
                   links)
  {
    CountersNeverDecrease(frames);
    var counters, rest := Counters(frames), |now[1..] + Behind(frames)|;
    if frames != [] {
      OutermostCounter(frames);
      if now[1..] != [] {
        RefusalEndsAll(ops, frames, NotADirectory, links);
        assert counters[0].rest < rest;
      } else {
        NonDirectoryWithRest(ops, frames, AtNonDirectory(next, kind, now[0].slashAfter, links));
        StepLast(ops, frames, at, now, links, next, kind);
        if InsideATarget(frames) {
          assert counters[0].rest < rest;
        }
      }
    }
  }

  /** Putting a link target in front of the queue leaves the result as it was. */
  lemma PushLink(ops: PathOps, frames: seq<Frame>, at: string, now: seq<Component>, links: nat, target: string)
    requires links < SYMLINK_LIMIT
    requires now != [] && now[0].name != ".."
    requires Look(ops, at, now[0].name, links) == SeenLink(target)
    ensures var pushed := frames + [Frame(now[0], target, now[1..])];
            var inner := TargetComponents(target, now[0].slashAfter);
            Remaining(ops, pushed, TargetBase(at, target), inner, links + 1) == Remaining(ops, frames, at, now, links)
  {
    var pushed := frames + [Frame(now[0], target, now[1..])];
    var inner := TargetComponents(target, now[0].slashAfter);
    var waiting := Behind(frames) != [] || now[1..] != [];
    assert pushed[..|frames|] == frames;
    assert Behind(pushed) != [] <==> waiting;
    var landing := FollowTarget(ops, TargetBase(at, target), inner, links + 1, waiting);
    if frames != [] {
      assert FollowTarget(ops, at, now, links, Behind(frames) != [])
             == AfterTarget(ops, now[1..], landing, Behind(frames) != []);
    } else {
      assert Behind(frames) == [];
    }
  }

  /** The bookkeeping after a link target is put in front of the queue. */
  lemma PushedFrame(frames: seq<Frame>, now: seq<Component>, target: string)
    requires now != []
    requires TargetsAreNotRel(frames, now)
    ensures var pushed := frames + [Frame(now[0], target, now[1..])];
            && Behind(pushed) == now[1..] + Behind(frames)
            && Counters(pushed) == Counters(frames) + [Expansion(|Behind(pushed)|, now[0].fromRel)]
            && TargetsAreNotRel(pushed, TargetComponents(target, now[0].slashAfter))
            && LinkNamedLast(pushed)
                 == (if now[0].fromRel && Behind(pushed) == [] then Some(target) else LinkNamedLast(frames))
  {
    var pushed := frames + [Frame(now[0], target, now[1..])];
    assert pushed[..|frames|] == frames;
    if frames != [] {
      assert pushed[0] == frames[0];
      assert !now[0].fromRel;
    } else {
      assert Behind(frames) == [];
    }
  }

  /** The resolver as a work list: link targets are put in front of the queue, and which link an
      element came from is known only through the `rest` counters. */
  method ResolvePath(root: string, rel: string, ops: PathOps)
      returns (result: Result<ResolvedPath>, ghost insertedLinks: nat)
    ensures result == Resolve(root, rel, ops)
    ensures insertedLinks == LinksFollowed(root, rel, ops)
  {
    hide Remaining, Conclude, FollowMissing, FollowPath, Look, StepInMissingPart, JoinedWithinLimits, Parent;
    hide WholePath, TargetComponents, TargetBase, NotADirectoryBefore;
    hide Counters, Retain, LinkNamedLast, Behind, TargetsAreNotRel;
    var queue := WholePath(root, rel);
    var at := "/";
    var expansions: seq<Expansion> := [];
    var terminalLink: Option<string> := None;
    var inserted := 0;
    var missingParentExists: Option<bool> := None;
    var kind := ExistingDirectory;
    ghost var frames: seq<Frame>, current, endKind := [], queue, RegularFile;
    ghost var whole := FollowPath(ops, "/", queue, 0);
    StartOfPath(ops, queue);
    while queue != []
      invariant inserted <= SYMLINK_LIMIT
      invariant queue == current + Behind(frames)
      invariant expansions == Counters(frames)
      invariant TargetsAreNotRel(frames, current)
      invariant terminalLink == LinkNamedLast(frames)
      invariant missingParentExists.Some? ==>
        && Behind(frames) == []
        && whole == Conclude(ops, frames, FollowMissing(at, current, missingParentExists.value, inserted))
      invariant missingParentExists.None? && kind == ExistingDirectory ==>
        whole == Remaining(ops, frames, at, current, inserted)
      invariant missingParentExists.None? && kind != ExistingDirectory ==>
        && queue == []
        && kind == KindOf(endKind)
        && whole == Conclude(ops, frames, AtNonDirectory(at, endKind, false, inserted))
      decreases SYMLINK_LIMIT - inserted, |queue|
    {
      var component := queue[0];
      queue := queue[1..];
      var rest := |queue|;
      if missingParentExists.Some? {
        StepMissingPart(ops, frames, at, current, missingParentExists.value, inserted);
        KeepsAllFrames(frames, current);
        expansions := Retain(expansions, rest);
        var step := StepInMissingPart(at, component.name);
        if step.Err? {
          return Err(step.error), inserted;
        }
        at := step.value;
        current := current[1..];
        continue;
      }
      frames, current := NextElement(ops, frames, at, current, inserted);
      expansions := Retain(expansions, rest);
      assert current[0] == component && queue == current[1..] + Behind(frames);
      ShorterList(frames, current);
      if component.name == ".." {
        StepUp(ops, frames, at, current, inserted);
        at := Parent(at);
        current := current[1..];
        continue;
      }
      var sight := Look(ops, at, component.name, inserted);
      if sight.Unseen? {
        StepRefused(ops, frames, at, current, inserted);
        return Err(sight.error), inserted;
      } else if sight.SeenLink? {
        PushLink(ops, frames, at, current, inserted, sight.target);
        PushedFrame(frames, current, sight.target);
        inserted := inserted + 1;
        if component.fromRel && rest == 0 {
          terminalLink := Some(sight.target);
        }
        at := TargetBase(at, sight.target);
        expansions := expansions + [Expansion(rest, component.fromRel)];
        queue := TargetComponents(sight.target, component.slashAfter) + queue;
        frames := frames + [Frame(component, sight.target, current[1..])];
        current := TargetComponents(sight.target, component.slashAfter);
      } else if sight.kind == Missing {
        StepMissing(ops, frames, at, current, inserted, sight.next);
        LastCounter(frames);
        if expansions != [] && expansions[|expansions| - 1].rest > 0 {
          return Err(DanglingSymlink), inserted;
        }
        missingParentExists := Some(rest == 0);
        at := sight.next;
        current := current[1..];
      } else if sight.kind == Directory {
        StepDirectory(ops, frames, at, current, inserted, sight.next);
        at := sight.next;
        current := current[1..];
      } else if rest > 0 {
        StepBlocked(ops, frames, at, current, inserted, sight.next, sight.kind);
        return NotADirectoryBefore(expansions, rest, component.fromRel, sight.next, sight.kind), inserted;
      } else {
        StepLast(ops, frames, at, current, inserted, sight.next, sight.kind);
        if component.slashAfter {
          EndOfAllTargets(ops, frames, AtNonDirectory(sight.next, sight.kind, true, inserted));
          return Err(NotADirectory), inserted;
        }
        kind := if sight.kind == RegularFile then ExistingFile else ExistingOther;
        endKind := sight.kind;
        at := sight.next;
        current := current[1..];
      }
    }
    insertedLinks := inserted;
    if missingParentExists.Some? {
      EndOfMissing(ops, frames, at, missingParentExists.value, inserted);
    } else if kind == ExistingDirectory {
      EndInDirectory(ops, frames, at, inserted);
    } else {
      EndOfAllTargets(ops, frames, AtNonDirectory(at, endKind, false, inserted));
    }
    match (terminalLink, missingParentExists) {
      case (Some(target), parentExists) =>
        result := Ok(LastLink(target, at, if parentExists.None? then Some(kind) else None));
      case (None, Some(parentExists)) =>
        result := Ok(MissingPath(Parent(at), parentExists));
      case (None, None) =>
        result := Ok(Exists(at, kind));
    }
  }

  lemma StartOfPath(ops: PathOps, components: seq<Component>)
    ensures Remaining(ops, [], "/", components, 0) == FollowPath(ops, "/", components, 0)
    ensures Behind([]) == [] && components + Behind([]) == components
    ensures Counters([]) == []
    ensures TargetsAreNotRel([], components)
    ensures LinkNamedLast([]) == None
  {
  }

  lemma EndOfMissing(ops: PathOps, frames: seq<Frame>, at: string, parentExists: bool, links: nat)
    requires links <= SYMLINK_LIMIT && Behind(frames) == []
    ensures Conclude(ops, frames, FollowMissing(at, [], parentExists, links))
         == Finish(LinkNamedLast(frames), AtMissing(at, parentExists, links))
  {
    EndOfAllTargets(ops, frames, AtMissing(at, parentExists, links));
  }

  lemma EndInDirectory(ops: PathOps, frames: seq<Frame>, at: string, links: nat)
    requires links <= SYMLINK_LIMIT && Behind(frames) == []
    ensures Remaining(ops, frames, at, [], links) == Finish(LinkNamedLast(frames), AtDirectory(at, links))
  {
    EndOfAllTargets(ops, frames, AtDirectory(at, links));
  }

  lemma KeepsAllFrames(frames: seq<Frame>, current: seq<Component>)
    requires current != [] && Behind(frames) == []
    requires TargetsAreNotRel(frames, current)
    ensures Retain(Counters(frames), |current| - 1) == Counters(frames)
    ensures TargetsAreNotRel(frames, current[1..])
  {
    CountersNeverDecrease(frames);
    RetainAll(Counters(frames), |current| - 1);
  }

  lemma ShorterList(frames: seq<Frame>, current: seq<Component>)
    requires current != [] && TargetsAreNotRel(frames, current)
    ensures TargetsAreNotRel(frames, current[1..])
  {
  }

  lemma LastCounter(frames: seq<Frame>)
    ensures (Counters(frames) != [] && Counters(frames)[|Counters(frames)| - 1].rest > 0) <==> Behind(frames) != []
  {
    if frames == [] {
      assert Behind(frames) == [];
    }
  }
}
