/** The walk as it runs: its fields are updated entry by entry. */
module Walk {
  import opened Texts
  import opened RelativePath
  import opened Exclude
  import opened StartPaths
  import opened ScanData
  import opened WalkCounts
  import opened ScanRun
  import Sorting
  import Steps = WalkSteps

  datatype Leaf = LeafTaken(link: Option<PendingLink>) | LeafFailed(failure: ScanFailure)

  /** A take went as the step says: it failed, or the walk is now in the step's state. */
  ghost predicate Took(step: Steps.Step, failure: Option<ScanFailure>, now: Steps.WalkState) {
    match step
    case Goes(w) => failure == None && now == w
    case Fails(f) => failure == Some(f)
  }

  ghost predicate TookLeaf(step: Steps.LeafStep, leaf: Leaf, now: Steps.WalkState) {
    match step
    case LeafGoes(w, link) => leaf == LeafTaken(link) && now == w
    case LeafFails(f) => leaf == LeafFailed(f)
  }

  class Walk {
    const rules: Rules
    const patterns: Patterns
    var counts: seq<nat>
    var entries: seq<ListedEntry>
    var unreadableNames: seq<string>
    var unresolvableNames: seq<string>
    var truncated: bool
    var cycle: Option<string>
    var pending: seq<PendingLink>

    ghost function State(): Steps.WalkState
      reads this
    {
      Steps.WalkState(counts, entries, unreadableNames, unresolvableNames, truncated, cycle, pending)
    }

    /** The patterns are those of the rules, and escaping keeps the elements of a path apart. */
    ghost predicate Valid() {
      patterns == MakePatterns(rules.ctx.patterns) && EscapesElements(rules.ctx.escape)
    }

    constructor (rules: Rules, patterns: Patterns, counters: nat)
      ensures this.rules == rules && this.patterns == patterns
      ensures State() == Empty(if counters == 0 then 1 else counters)
    {
      this.rules := rules;
      this.patterns := patterns;
      counts := seq(if counters == 0 then 1 else counters, _ => 0);
      entries, unreadableNames, unresolvableNames, pending := [], [], [], [];
      truncated := false;
      cycle := None;
    }

    function Stopped(): (stopped: bool)
      reads this
      ensures stopped == Steps.Stopped(State())
    {
      truncated || cycle.Some?
    }

    method Count(counter: nat) returns (within: bool)
      requires counter < |counts|
      modifies this
      ensures State() == Steps.Count(rules, old(State()), counter)
      ensures within == !truncated
    {
      counts := counts[counter := counts[counter] + 1];
      if counts[counter] > rules.maxEntries {
        truncated := true;
      }
      within := !truncated;
    }

    method TakeLeafCounted(path: string, entry: RawEntry, ancestors: seq<DirId>,
                           counter: Option<nat>) returns (leaf: Leaf)
      requires counter.Some? ==> counter.value < |counts|
      modifies this
      ensures TookLeaf(Steps.TakeLeafCounted(rules, old(State()), path, entry, ancestors, counter), leaf, State())
    {
      if counter.Some? {
        if Stopped() {
          return LeafTaken(None);
        }
        var within := Count(counter.value);
        if !within {
          return LeafTaken(None);
        }
      }
      if entry.kind == RawSymlink(None) {
        return LeafFailed(UnreadableLinkTarget(rules.ctx.escape(path)));
      }
      var kind := match entry.kind
        case RawSymlink(target) => ListedSymlink(target.value, PointsToFile)
        case RawOther => ListedOther
        case RawFile => ListedFile
        case RawDirectory => ListedFile;
      var listed := NameUnreadable;
      if rules.isUtf8(path) {
        var shown := ListedOf(path, entry, kind);
        if shown == None {
          return LeafFailed(UnreadableTime(path));
        }
        entries := entries + [shown.value];
        listed := At(|entries| - 1);
      } else {
        unreadableNames := unreadableNames + [rules.ctx.escape(path)];
      }
      if entry.kind.RawSymlink? {
        var group := if counter.Some? then counter.value else 0;
        return LeafTaken(Some(PendingLink(path, ancestors, group, listed)));
      }
      return LeafTaken(None);
    }

    method ListDirectory(path: string, entry: RawEntry) returns (failure: Option<ScanFailure>)
      modifies this
      ensures Took(Steps.ListDirectory(rules, old(State()), path, entry), failure, State())
    {
      if rules.isUtf8(path) {
        var shown := ListedOf(path, entry, ListedDirectory);
        if shown == None {
          return Some(UnreadableTime(path));
        }
        entries := entries + [shown.value];
      } else {
        unreadableNames := unreadableNames + [rules.ctx.escape(path)];
      }
      return None;
    }

    method Point(link: PendingLink, point: LinkPoint)
      requires Steps.Indexed(State(), link)
      modifies this
      ensures State() == Steps.Point(old(State()), link, point)
    {
      if link.listed.At? && entries[link.listed.index].kind.ListedSymlink? {
        var i := link.listed.index;
        entries := entries[i := entries[i].(kind := entries[i].kind.(pointsTo := point))];
      }
    }

    method PointUnresolvable(link: PendingLink) returns (failure: Option<ScanFailure>)
      requires Steps.Indexed(State(), link)
      modifies this
      ensures Took(Steps.PointUnresolvable(rules, old(State()), link), failure, State())
    {
      match link.listed {
        case NotListed =>
          return Some(UnresolvableLink(rules.ctx.escape(link.path)));
        case NameUnreadable =>
          unresolvableNames := unresolvableNames + [rules.ctx.escape(link.path)];
        case At(_) =>
          Point(link, PointsNowhere);
      }
      return None;
    }

    method PointLink(link: PendingLink, answer: Answer) returns (failure: Option<ScanFailure>)
      requires Steps.Indexed(State(), link)
      modifies this
      ensures Took(Steps.PointLink(rules, old(State()), link, answer), failure, State())
    {
      if answer.link == None {
        return Some(Changed(rules, link.path));
      }
      match answer.link.value {
        case ToDirectory => Point(link, PointsToDirectory);
        case ToMissing => Point(link, PointsToNothing);
        case ToOther => Point(link, PointsToOther);
        case ToFile =>
        case ToUnresolvable =>
          failure := PointUnresolvable(link);
          return failure;
      }
      return None;
    }

    method Excludes(path: string) returns (excluded: bool)
      requires Valid()
      ensures excluded <==> rules.ctx.Excluded(path)
    {
      excluded := Exclude.Excludes(rules.ctx.glob, rules.ctx.escape, rules.ctx.patterns, patterns, path);
    }

    /** One item of the loop of `TakeSubtree`. */
    method TakeItem(visit: Steps.Visit, causes: map<string, ReadCause>, ids: map<string, DirId>, item: Item)
        returns (failure: Option<ScanFailure>)
      requires Valid() && visit.counter < |counts|
      requires causes == Causes(visit.tree.unreadable) && ids == DirIds(visit.tree)
      modifies this
      ensures Took(Steps.TakeItem(rules, old(State()), visit, item), failure, State())
    {
      hide Bounded, Placed, Causes, DirIds, EscapesElements;
      var path := JoinPath(visit.base, item.Rel());
      if item.EntryItem? && item.entry.path == "" {
        return None;
      }
      var excluded := Excludes(path);
      if excluded {
        return None;
      }
      if item.ChangedItem? {
        return Some(Changed(rules, path));
      }
      if item.UnreadItem? {
        return Some(UnreadDirectory(rules, JoinPath(visit.base, ParentOf(item.path)), item.cause));
      }
      var entry := item.entry;
      if entry.kind == RawDirectory {
        if entry.id in visit.ancestors {
          cycle := Some(rules.ctx.escape(path));
          return None;
        }
        if entry.path in causes {
          return Some(UnreadDirectory(rules, path, causes[entry.path]));
        }
        failure := ListDirectory(path, entry);
        return failure;
      }
      var chain := [];
      if entry.kind.RawSymlink? {
        var parents := ParentIds(entry.path, ids);
        chain := visit.ancestors + parents;
      }
      var leaf := TakeLeafCounted(path, entry, chain, Some(visit.counter));
      if leaf.LeafFailed? {
        return Some(leaf.failure);
      }
      if leaf.link.Some? {
        pending := pending + [leaf.link.value];
      }
      return None;
    }

    method TakeSubtree(base: string, tree: Subtree, ancestors: seq<DirId>,
                       counter: nat) returns (failure: Option<ScanFailure>)
      requires Valid() && counter < |counts|
      modifies this
      ensures Took(Steps.TakeSubtree(rules, old(State()), Steps.Visit(base, tree, ancestors, counter)), failure,
                State())
    {
      hide Steps.TakeItem, Causes, DirIds, InPathOrder, EscapesElements;
      if tree.start.id in ancestors {
        cycle := Some(rules.ctx.escape(base));
        return None;
      }
      var causes := Causes(tree.unreadable);
      if "" in tree.changed {
        return Some(if base == "" then RootChanged else Changed(rules, base));
      }
      if "" in causes {
        return Some(UnreadDirectory(rules, base, causes[""]));
      }
      var ids := CollectDirIds(tree);
      var items := InPathOrder(tree);
      var visit := Steps.Visit(base, tree, ancestors, counter);
      for i := 0 to |items|
        invariant counter < |counts|
        invariant Steps.TakeItems(rules, old(State()), visit, items)
                  == Steps.TakeItems(rules, State(), visit, items[i..])
      {
        assert items[i..][0] == items[i] && items[i..][1..] == items[i + 1..];
        if Stopped() {
          return None;
        }
        failure := TakeItem(visit, causes, ids, items[i]);
        if failure.Some? {
          return failure;
        }
      }
      return None;
    }

    method TakeLink(link: PendingLink, answer: Answer) returns (failure: Option<ScanFailure>)
      requires Valid() && Steps.Indexed(State(), link) && link.counter < |counts|
      modifies this
      ensures Took(Steps.TakeLink(rules, old(State()), link, answer), failure, State())
    {
      hide Steps.PointLink, Steps.TakeSubtree, EscapesElements;
      failure := PointLink(link, answer);
      if failure.Some? || answer.link != Some(ToDirectory) {
        return failure;
      }
      if answer.subtree == None {
        return Some(Changed(rules, link.path));
      }
      assert |counts| == |old(counts)| by { PointKeepsCounts(rules, old(State()), link, answer); }
      failure := TakeSubtree(link.path, answer.subtree.value, link.ancestors, link.counter);
    }

    method Finish() returns (listing: Listing)
      modifies this
      ensures listing == ScanRun.Finish(old(State()))
    {
      entries := Sorting.Sorted(entries, PathBefore);
      unreadableNames := Sorting.Sorted(unreadableNames, LexLe);
      unresolvableNames := Sorting.Sorted(unresolvableNames, LexLe);
      listing := Listing(entries, unreadableNames, truncated, cycle, unresolvableNames, Sum(counts));
    }
  }

  lemma PointKeepsCounts(rules: Rules, w: Steps.WalkState, link: PendingLink, answer: Answer)
    requires Steps.Indexed(w, link)
    ensures var step := Steps.PointLink(rules, w, link, answer); step.Goes? ==> |step.w.counts| == |w.counts|
  {
  }

  method CollectDirIds(tree: Subtree) returns (ids: map<string, DirId>)
    ensures ids == DirIds(tree)
  {
    ids := map["" := tree.start.id];
    for i := 0 to |tree.entries|
      invariant ids == DirIdsOf(tree.start.id, tree.entries[..i])
    {
      assert tree.entries[..i + 1][..i] == tree.entries[..i];
      if tree.entries[i].kind == RawDirectory {
        ids := ids[tree.entries[i].path := tree.entries[i].id];
      }
    }
    assert tree.entries[..|tree.entries|] == tree.entries;
  }

  // ----- Starts -----

  method UnreachedStart(path: string, why: Unreached) returns (failure: Option<ScanFailure>)
    ensures forall rules, w :: Took(Steps.UnreachedStart(rules, w, path, why), failure, w)
  {
    match why {
      case PathMissing => return None;
      case PathBlocked => return Some(StartBlocked(path));
      case PathUnreadable(cause) => return Some(StartUnreadable(path, cause));
    }
  }

  method TakeValue(walk: Walk, path: string, answer: Answer, root: DirId,
                   counter: nat) returns (failure: Option<ScanFailure>)
    requires walk.Valid() && counter < |walk.counts|
    modifies walk
    ensures Took(Steps.TakeValue(walk.rules, old(walk.State()), path, answer, root, counter), failure, walk.State())
  {
    hide Steps.TakeSubtree, Steps.TakeLeafCounted, Steps.TakeLink, EscapesElements, Grows;
    if answer.reached.Unreachable? {
      failure := UnreachedStart(path, answer.reached.why);
      return;
    }
    var entry := answer.reached.entry;
    if entry.kind == RawDirectory {
      if answer.subtree == None {
        return Some(InconsistentAnswer);
      }
      failure := walk.TakeSubtree(path, answer.subtree.value, [root], counter);
      return;
    }
    LeafGrows(walk.rules, walk.State(), path, entry, [root], Some(counter));
    var leaf := walk.TakeLeafCounted(path, entry, [root], Some(counter));
    if leaf.LeafFailed? {
      return Some(leaf.failure);
    }
    if leaf.link.Some? {
      GrowsKeepsCounters(walk.rules, old(walk.State()), walk.State());
      failure := walk.TakeLink(leaf.link.value, answer);
      return;
    }
    return None;
  }

  lemma GrowsKeepsCounters(rules: Rules, w: Steps.WalkState, t: Steps.WalkState)
    requires Grows(rules, w, t)
    ensures |t.counts| == |w.counts|
  {
  }

  method TakeItself(walk: Walk, path: string, answer: Answer, root: DirId,
                    counter: nat) returns (failure: Option<ScanFailure>)
    requires counter < |walk.counts|
    modifies walk
    ensures Took(Steps.TakeItself(walk.rules, old(walk.State()), path, answer, root, counter), failure, walk.State())
  {
    hide Steps.TakeLeafCounted, Steps.ListDirectory, Steps.PointLink, Grows;
    if answer.reached.Unreachable? {
      failure := UnreachedStart(path, answer.reached.why);
      return;
    }
    var entry := answer.reached.entry;
    if entry.kind == RawDirectory {
      failure := walk.ListDirectory(path, entry);
      return;
    }
    var container := answer.link == Some(ToDirectory);
    var group := if container then None else Some(counter);
    LeafGrows(walk.rules, walk.State(), path, entry, [root], group);
    var leaf := walk.TakeLeafCounted(path, entry, [root], group);
    if leaf.LeafFailed? {
      return Some(leaf.failure);
    }
    if leaf.link.Some? {
      failure := walk.PointLink(leaf.link.value, answer);
      return;
    }
    return None;
  }

  method TakeBelow(walk: Walk, start: StartPath, answer: Answer, root: DirId) returns (failure: Option<ScanFailure>)
    requires walk.Valid() && start.group < |walk.counts|
    modifies walk
    ensures Took(Steps.TakeBelow(walk.rules, old(walk.State()), start, answer, root), failure, walk.State())
  {
    hide Steps.TakeSubtree, Steps.ListDirectory, Steps.TakeLink, EscapesElements, Grows;
    if answer.reached.Unreachable? {
      if start.excluded {
        return None;
      }
      failure := UnreachedStart(start.path, answer.reached.why);
      return;
    }
    var entry := answer.reached.entry;
    if entry.kind.RawSymlink? && answer.link != Some(ToDirectory) {
      if start.excluded {
        return None;
      }
      var link := PendingLink(start.path, [root], start.group, NotListed);
      failure := walk.TakeLink(link, answer);
      return;
    }
    if entry.kind == RawFile || entry.kind == RawOther {
      return None;
    }
    var shown := if answer.subtree.Some? then answer.subtree.value.start else entry;
    PlaceGrows(walk.rules, walk.State(), start.path, shown, ListedDirectory);
    failure := walk.ListDirectory(start.path, shown);
    if failure.Some? || !start.descend {
      return;
    }
    if answer.subtree == None {
      return Some(InconsistentAnswer);
    }
    ListKeepsCounters(walk.rules, old(walk.State()), start.path, shown);
    failure := walk.TakeSubtree(start.path, answer.subtree.value, [root], start.group);
  }

  lemma ListKeepsCounters(rules: Rules, w: Steps.WalkState, path: string, entry: RawEntry)
    ensures var step := Steps.ListDirectory(rules, w, path, entry); step.Goes? ==> |step.w.counts| == |w.counts|
  {
  }
}
