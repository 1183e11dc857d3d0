/** What taking one item, subtree, link or start does to a walk. */
module WalkSteps {
  import opened Texts
  import opened StartPaths
  import opened ScanData

  datatype WalkState = WalkState(counts: seq<nat>, entries: seq<ListedEntry>, unreadableNames: seq<string>,
                                 unresolvableNames: seq<string>, truncated: bool, cycle: Option<string>,
                                 pending: seq<PendingLink>)

  datatype Step = Goes(w: WalkState) | Fails(failure: ScanFailure)

  datatype LeafStep = LeafGoes(w: WalkState, link: Option<PendingLink>) | LeafFails(failure: ScanFailure)

  predicate Stopped(w: WalkState) {
    w.truncated || w.cycle.Some?
  }

  function Count(rules: Rules, w: WalkState, counter: nat): WalkState
    requires counter < |w.counts|
  {
    var more := w.counts[counter] + 1;
    w.(counts := w.counts[counter := more], truncated := w.truncated || more > rules.maxEntries)
  }

  // ----- Entries that are not descended into -----

  function LeafKind(kind: RawKind): ListedKind {
    match kind
    case RawSymlink(Some(target)) => ListedSymlink(target, PointsToFile)
    case RawOther => ListedOther
    case _ => ListedFile
  }

  /** Lists an entry, or reports its name. */
  function Place(rules: Rules, w: WalkState, path: string, entry: RawEntry, kind: ListedKind): Step {
    if !rules.isUtf8(path) then Goes(w.(unreadableNames := w.unreadableNames + [rules.ctx.escape(path)])) else
    match ListedOf(path, entry, kind)
    case Some(listed) => Goes(w.(entries := w.entries + [listed]))
    case None => Fails(UnreadableTime(path))
  }

  function TakeLeafCounted(rules: Rules, w: WalkState, path: string, entry: RawEntry, ancestors: seq<DirId>,
                           counter: Option<nat>): LeafStep
    requires counter.Some? ==> counter.value < |w.counts|
  {
    if counter.Some? && Stopped(w) then LeafGoes(w, None) else
    var counted := if counter.Some? then Count(rules, w, counter.value) else w;
    if counter.Some? && counted.truncated then LeafGoes(counted, None) else
    if entry.kind == RawSymlink(None) then LeafFails(UnreadableLinkTarget(rules.ctx.escape(path))) else
    match Place(rules, counted, path, entry, LeafKind(entry.kind))
    case Fails(failure) => LeafFails(failure)
    case Goes(t) =>
      var listed := if rules.isUtf8(path) then At(|counted.entries|) else NameUnreadable;
      var link := PendingLink(path, ancestors, if counter.Some? then counter.value else 0, listed);
      LeafGoes(t, if entry.kind.RawSymlink? then Some(link) else None)
  }

  function ListDirectory(rules: Rules, w: WalkState, path: string, entry: RawEntry): Step {
    Place(rules, w, path, entry, ListedDirectory)
  }

  // ----- Where links lead -----

  function Point(w: WalkState, link: PendingLink, point: LinkPoint): WalkState
    requires link.listed.At? ==> link.listed.index < |w.entries|
  {
    if link.listed.At? && w.entries[link.listed.index].kind.ListedSymlink? then
      var i := link.listed.index;
      w.(entries := w.entries[i := w.entries[i].(kind := w.entries[i].kind.(pointsTo := point))])
    else w
  }

  function PointUnresolvable(rules: Rules, w: WalkState, link: PendingLink): Step
    requires link.listed.At? ==> link.listed.index < |w.entries|
  {
    match link.listed
    case NotListed => Fails(UnresolvableLink(rules.ctx.escape(link.path)))
    case NameUnreadable => Goes(w.(unresolvableNames := w.unresolvableNames + [rules.ctx.escape(link.path)]))
    case At(_) => Goes(Point(w, link, PointsNowhere))
  }

  function PointLink(rules: Rules, w: WalkState, link: PendingLink, answer: Answer): Step
    requires link.listed.At? ==> link.listed.index < |w.entries|
  {
    match answer.link
    case Some(ToDirectory) => Goes(Point(w, link, PointsToDirectory))
    case Some(ToMissing) => Goes(Point(w, link, PointsToNothing))
    case Some(ToOther) => Goes(Point(w, link, PointsToOther))
    case Some(ToFile) => Goes(w)
    case Some(ToUnresolvable) => PointUnresolvable(rules, w, link)
    case None => Fails(Changed(rules, link.path))
  }

  // ----- Subtrees -----

  /** What stays the same while the items of one subtree are taken. */
  datatype Visit = Visit(base: string, tree: Subtree, ancestors: seq<DirId>, counter: nat)

  /** The item is passed over: it is the start itself, or it is excluded. */
  ghost predicate Passed(rules: Rules, base: string, item: Item) {
    (item.EntryItem? && item.Rel() == "") || rules.ctx.Excluded(JoinPath(base, item.Rel()))
  }

  ghost function TakeDirectory(rules: Rules, w: WalkState, visit: Visit, path: string, entry: RawEntry): Step {
    if entry.id in visit.ancestors then Goes(w.(cycle := Some(rules.ctx.escape(path))))
    else if entry.path in Causes(visit.tree.unreadable) then
      Fails(UnreadDirectory(rules, path, Causes(visit.tree.unreadable)[entry.path]))
    else ListDirectory(rules, w, path, entry)
  }

  /** The ids of all directories above an entry of the subtree, those above the subtree first. */
  function Chain(visit: Visit, entry: RawEntry): seq<DirId> {
    visit.ancestors + ParentIdsUpTo(entry.path, DirIds(visit.tree), |entry.path|)
  }

  function TakeLeaf(rules: Rules, w: WalkState, visit: Visit, path: string, entry: RawEntry): Step
    requires visit.counter < |w.counts|
  {
    match TakeLeafCounted(rules, w, path, entry, if entry.kind.RawSymlink? then Chain(visit, entry)
      else [], Some(visit.counter))
    case LeafFails(failure) => Fails(failure)
    case LeafGoes(t, None) => Goes(t)
    case LeafGoes(t, Some(link)) => Goes(t.(pending := t.pending + [link]))
  }

  ghost function TakeItem(rules: Rules, w: WalkState, visit: Visit, item: Item): (step: Step)
    requires visit.counter < |w.counts|
    ensures step.Goes? ==> |step.w.counts| == |w.counts| && |w.entries| <= |step.w.entries|
  {
    var path := JoinPath(visit.base, item.Rel());
    if Passed(rules, visit.base, item) then Goes(w) else
    match item
    case ChangedItem(_) => Fails(Changed(rules, path))
    case UnreadItem(rel, cause) => Fails(UnreadDirectory(rules, JoinPath(visit.base, ParentOf(rel)), cause))
    case EntryItem(entry) =>
      if entry.kind == RawDirectory then TakeDirectory(rules, w, visit, path, entry)
      else TakeLeaf(rules, w, visit, path, entry)
  }

  /** Takes the items in order until the walk stops. */
  ghost function TakeItems(rules: Rules, w: WalkState, visit: Visit, items: seq<Item>): (step: Step)
    requires visit.counter < |w.counts|
    ensures step.Goes? ==> |step.w.counts| == |w.counts| && |w.entries| <= |step.w.entries|
    decreases |items|
  {
    if items == [] || Stopped(w) then Goes(w) else
    match TakeItem(rules, w, visit, items[0])
    case Fails(failure) => Fails(failure)
    case Goes(t) => TakeItems(rules, t, visit, items[1..])
  }

  ghost function TakeSubtree(rules: Rules, w: WalkState, visit: Visit): (step: Step)
    requires visit.counter < |w.counts|
    ensures step.Goes? ==> |step.w.counts| == |w.counts| && |w.entries| <= |step.w.entries|
  {
    var tree, causes := visit.tree, Causes(visit.tree.unreadable);
    if tree.start.id in visit.ancestors then Goes(w.(cycle := Some(rules.ctx.escape(visit.base))))
    else if "" in tree.changed then Fails(if visit.base == "" then RootChanged else Changed(rules, visit.base))
    else if "" in causes then Fails(UnreadDirectory(rules, visit.base, causes[""]))
    else TakeItems(rules, w, visit, InPathOrder(tree))
  }

  /** The index of a link that waits is an index of the listing. */
  ghost predicate Indexed(w: WalkState, link: PendingLink) {
    link.listed.At? ==> link.listed.index < |w.entries|
  }

  ghost function TakeLink(rules: Rules, w: WalkState, link: PendingLink, answer: Answer): (step: Step)
    requires Indexed(w, link) && link.counter < |w.counts|
    ensures step.Goes? ==> |step.w.counts| == |w.counts| && |w.entries| <= |step.w.entries|
  {
    match PointLink(rules, w, link, answer)
    case Fails(failure) => Fails(failure)
    case Goes(t) =>
      if answer.link != Some(ToDirectory) then Goes(t)
      else if answer.subtree == None then Fails(Changed(rules, link.path))
      else TakeSubtree(rules, t, Visit(link.path, answer.subtree.value, link.ancestors, link.counter))
  }

  // ----- Starts -----

  function UnreachedStart(rules: Rules, w: WalkState, path: string, why: Unreached): Step {
    match why
    case PathMissing => Goes(w)
    case PathBlocked => Fails(StartBlocked(path))
    case PathUnreadable(cause) => Fails(StartUnreadable(path, cause))
  }

  ghost function TakeValue(rules: Rules, w: WalkState, path: string, answer: Answer, root: DirId,
                           counter: nat): (step: Step)
    requires counter < |w.counts|
    ensures step.Goes? ==> |step.w.counts| == |w.counts| && |w.entries| <= |step.w.entries|
  {
    match answer.reached
    case Unreachable(why) => UnreachedStart(rules, w, path, why)
    case Entry(entry) =>
      if entry.kind == RawDirectory then
        if answer.subtree == None then Fails(InconsistentAnswer)
        else TakeSubtree(rules, w, Visit(path, answer.subtree.value, [root], counter))
      else
        match TakeLeafCounted(rules, w, path, entry, [root], Some(counter))
        case LeafFails(failure) => Fails(failure)
        case LeafGoes(t, None) => Goes(t)
        case LeafGoes(t, Some(link)) => TakeLink(rules, t, link, answer)
  }

  function TakeItself(rules: Rules, w: WalkState, path: string, answer: Answer, root: DirId, counter: nat): (step: Step)
    requires counter < |w.counts|
    ensures step.Goes? ==> |step.w.counts| == |w.counts| && |w.entries| <= |step.w.entries|
  {
    match answer.reached
    case Unreachable(why) => UnreachedStart(rules, w, path, why)
    case Entry(entry) =>
      if entry.kind == RawDirectory then ListDirectory(rules, w, path, entry) else
      var group := if answer.link == Some(ToDirectory) then None else Some(counter);
      match TakeLeafCounted(rules, w, path, entry, [root], group)
      case LeafFails(failure) => Fails(failure)
      case LeafGoes(t, None) => Goes(t)
      case LeafGoes(t, Some(link)) => PointLink(rules, t, link, answer)
  }

  ghost function TakeBelow(rules: Rules, w: WalkState, start: StartPath, answer: Answer, root: DirId): (step: Step)
    requires start.group < |w.counts|
    ensures step.Goes? ==> |step.w.counts| == |w.counts| && |w.entries| <= |step.w.entries|
  {
    match answer.reached
    case Unreachable(why) => if start.excluded then Goes(w) else UnreachedStart(rules, w, start.path, why)
    case Entry(entry) =>
      if entry.kind.RawSymlink? && answer.link != Some(ToDirectory) then
        if start.excluded then Goes(w)
        else TakeLink(rules, w, PendingLink(start.path, [root], start.group, NotListed), answer)
      else if entry.kind == RawFile || entry.kind == RawOther then Goes(w)
      else
        var shown := if answer.subtree.Some? then answer.subtree.value.start else entry;
        match ListDirectory(rules, w, start.path, shown)
        case Fails(failure) => Fails(failure)
        case Goes(t) =>
          if !start.descend then Goes(t)
          else if answer.subtree == None then Fails(InconsistentAnswer)
          else TakeSubtree(rules, t, Visit(start.path, answer.subtree.value, [root], start.group))
  }

  ghost function TakeStart(rules: Rules, w: WalkState, start: StartPath, answer: Answer, root: DirId): (step: Step)
    requires start.group < |w.counts|
    ensures step.Goes? ==> |step.w.counts| == |w.counts| && |w.entries| <= |step.w.entries|
  {
    if start.withSelf && !start.descend then TakeItself(rules, w, start.path, answer, root, start.group)
    else if start.withSelf then TakeValue(rules, w, start.path, answer, root, start.group)
    else TakeBelow(rules, w, start, answer, root)
  }
}
