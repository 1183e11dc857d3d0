/** What a walk lists of an entry of its own and of a subtree, and that nothing is left out of it. */
module ScanParts {
  import opened Texts
  import opened Exclude
  import opened ScanData
  import opened WalkSteps
  import opened WalkCounts

  // ----- What one entry is listed as -----

  /** Each kind as itself; where a symlink leads is not known yet. */
  function KindOf(kind: RawKind): ListedKind {
    match kind
    case RawDirectory => ListedDirectory
    case RawFile => ListedFile
    case RawOther => ListedOther
    case RawSymlink(Some(target)) => ListedSymlink(target, PointsToFile)
    case RawSymlink(None) => ListedFile
  }

  /** An entry that can be listed: its time was read, unless only its name is reported. */
  ghost predicate Listable(rules: Rules, path: string, entry: RawEntry) {
    rules.isUtf8(path) ==> entry.mtime.ReadTime?
  }

  /** The entry with its size, its time and the last twelve bits of its mode. */
  ghost function OneEntry(rules: Rules, path: string, entry: RawEntry, kind: ListedKind): seq<ListedEntry> {
    if rules.isUtf8(path) && entry.mtime.ReadTime? then
      var time := entry.mtime;
      [ListedEntry(path, kind, entry.size, time.secs, time.nanos, time.digits, entry.mode % 4096)]
    else []
  }

  /** The name an entry is reported with when it is not UTF-8. */
  ghost function OneName(rules: Rules, path: string): seq<string> {
    if rules.isUtf8(path) then [] else [rules.ctx.escape(path)]
  }

  // ----- What the items of a subtree are listed as -----

  /** The item does not count: it is excluded, or is the start of the subtree itself. */
  ghost predicate LeftOut(rules: Rules, base: string, item: Item) {
    match item
    case EntryItem(e) => e.path == ""
      || IsExcluded(rules.ctx.glob, rules.ctx.escape, rules.ctx.patterns, JoinPath(base, e.path))
    case UnreadItem(path, _) => IsExcluded(rules.ctx.glob, rules.ctx.escape, rules.ctx.patterns, JoinPath(base, path))
    case ChangedItem(path) => IsExcluded(rules.ctx.glob, rules.ctx.escape, rules.ctx.patterns, JoinPath(base, path))
  }

  lemma PassedIsLeftOut(rules: Rules, base: string, item: Item)
    ensures Passed(rules, base, item) <==> LeftOut(rules, base, item)
  {
    hide IsExcluded;
  }

  /** Base and rest with a "/" between them, if there is something on both sides of it. */
  lemma JoinPathJoins(base: string, rel: string)
    ensures base == "" ==> JoinPath(base, rel) == rel
    ensures rel == "" ==> JoinPath(base, rel) == base
    ensures base != "" && rel != "" ==> base + "/" + rel == JoinPath(base, rel)
  {
  }

  ghost predicate Shows(rules: Rules, base: string, item: Item) {
    item.EntryItem? && !LeftOut(rules, base, item)
  }

  ghost function EntryOf(rules: Rules, base: string, item: Item): seq<ListedEntry> {
    if Shows(rules, base, item)
    then OneEntry(rules, JoinPath(base, item.Rel()), item.entry, KindOf(item.entry.kind)) else []
  }

  ghost function NameOf(rules: Rules, base: string, item: Item): seq<string> {
    if Shows(rules, base, item) then OneName(rules, JoinPath(base, item.Rel())) else []
  }

  ghost function EntriesOf(rules: Rules, base: string, items: seq<Item>): seq<ListedEntry> {
    if items == [] then [] else EntryOf(rules, base, items[0]) + EntriesOf(rules, base, items[1..])
  }

  ghost function NamesOf(rules: Rules, base: string, items: seq<Item>): seq<string> {
    if items == [] then [] else NameOf(rules, base, items[0]) + NamesOf(rules, base, items[1..])
  }

  /** A symlink that has to be asked about: its path and the ids of the directories above it. */
  type AskedLink = (string, seq<DirId>)

  /** The item if it is a symlink that is shown, with the directories above the subtree and in it. */
  ghost function LinkOf(rules: Rules, base: string, tree: Subtree, above: seq<DirId>, item: Item): seq<AskedLink> {
    if Shows(rules, base, item) && item.entry.kind.RawSymlink?
    then [(JoinPath(base, item.Rel()), above + ParentIdsUpTo(item.entry.path, DirIds(tree), |item.entry.path|))]
    else []
  }

  ghost function LinksIn(rules: Rules, base: string, tree: Subtree, above: seq<DirId>,
                         items: seq<Item>): seq<AskedLink> {
    if items == [] then []
    else LinkOf(rules, base, tree, above, items[0]) + LinksIn(rules, base, tree, above, items[1..])
  }

  /** Nothing of the item was lost: it does not count, or it is an entry that can be listed, a symlink
      with a target that was read, or a directory that was read and is not among those above. */
  ghost predicate ItemRead(rules: Rules, base: string, causes: map<string, ReadCause>, above: seq<DirId>, item: Item) {
    LeftOut(rules, base, item)
    || (&& item.EntryItem?
        && Listable(rules, JoinPath(base, item.Rel()), item.entry)
        && item.entry.kind != RawSymlink(None)
        && (item.entry.kind == RawDirectory ==> item.entry.path !in causes && item.entry.id !in above))
  }

  ghost predicate ItemsRead(rules: Rules, base: string, causes: map<string, ReadCause>, above: seq<DirId>,
                            items: seq<Item>) {
    forall i :: 0 <= i < |items| ==> ItemRead(rules, base, causes, above, items[i])
  }

  /** The subtree itself was read, did not change and is not among the directories above it, and nothing
      of its items was lost. */
  ghost predicate TreeRead(rules: Rules, base: string, tree: Subtree, above: seq<DirId>) {
    && tree.start.id !in above
    && "" !in tree.changed
    && "" !in Causes(tree.unreadable)
    && ItemsRead(rules, base, Causes(tree.unreadable), above, InPathOrder(tree))
  }

  // ----- Parts -----

  /** What a walk takes: one entry of its own, counted in a group or not; a subtree below the directories
      `above`, counted in a group; only the name of a link that leads nowhere; or an answer that is a
      failure. */
  datatype Part =
    | OwnPart(path: string, entry: RawEntry, kind: ListedKind, counted: Option<nat>)
    | TreePart(base: string, tree: Subtree, above: seq<DirId>, group: nat)
    | NowherePart(path: string)
    | BrokenPart(failure: ScanFailure)

  ghost function PartEntries(rules: Rules): Part -> seq<ListedEntry> {
    (part: Part) =>
      match part
      case OwnPart(path, entry, kind, _) => OneEntry(rules, path, entry, kind)
      case TreePart(base, tree, _, _) => EntriesOf(rules, base, InPathOrder(tree))
      case _ => []
  }

  /** The names reported because they are not UTF-8. */
  ghost function PartNames(rules: Rules): Part -> seq<string> {
    (part: Part) =>
      match part
      case OwnPart(path, _, _, _) => OneName(rules, path)
      case TreePart(base, tree, _, _) => NamesOf(rules, base, InPathOrder(tree))
      case _ => []
  }

  /** The names reported because they lead nowhere and are not UTF-8. */
  ghost function PartNowhere(rules: Rules): Part -> seq<string> {
    (part: Part) => if part.NowherePart? then [rules.ctx.escape(part.path)] else []
  }

  /** The symlinks that have to be asked about. */
  ghost function PartLinks(rules: Rules): Part -> seq<AskedLink> {
    (part: Part) =>
      if part.TreePart? then LinksIn(rules, part.base, part.tree, part.above, InPathOrder(part.tree)) else []
  }

  /** Nothing of the part was lost. */
  ghost predicate PartRead(rules: Rules, part: Part) {
    match part
    case OwnPart(path, entry, kind, _) =>
      Listable(rules, path, entry) && (entry.kind == RawSymlink(None) ==> kind == ListedDirectory)
    case TreePart(base, tree, above, _) => TreeRead(rules, base, tree, above)
    case NowherePart(_) => true
    case BrokenPart(_) => false
  }

  ghost predicate AllRead(rules: Rules, parts: seq<Part>) {
    forall i :: 0 <= i < |parts| ==> PartRead(rules, parts[i])
  }

  /** What all the parts hold, one after another. */
  ghost function OfAll<T>(of: Part -> seq<T>, parts: seq<Part>): seq<T> {
    if parts == [] then [] else of(parts[0]) + OfAll(of, parts[1..])
  }

  lemma OneIsOfAll<T>(of: Part -> seq<T>, part: Part)
    ensures OfAll(of, [part]) == of(part)
  {
    assert OfAll(of, [part][1..]) == [];
  }

  lemma {:induction false} OfAllAppend<T>(of: Part -> seq<T>, a: seq<Part>, b: seq<Part>)
    ensures OfAll(of, a + b) == OfAll(of, a) + OfAll(of, b)
  {
    if a == [] {
      assert a + b == b;
    } else {
      OfAllAppend(of, a[1..], b);
      assert (a + b)[1..] == a[1..] + b;
      AppendIsAssociative(of(a[0]), OfAll(of, a[1..]), OfAll(of, b));
    }
  }

  lemma AppendIsAssociative<T>(a: seq<T>, b: seq<T>, c: seq<T>)
    ensures a + b + c == a + (b + c)
  {
  }

  function UnpointedAll(entries: seq<ListedEntry>): (all: seq<ListedEntry>)
    ensures |all| == |entries| && forall i :: 0 <= i < |all| ==> all[i] == Unpointed(entries[i])
  {
    seq(|entries|, i requires 0 <= i < |entries| => Unpointed(entries[i]))
  }

  // ----- Listing parts -----

  /** Unless it stopped, the walk has come to list the parts, and nothing of them was lost. */
  ghost predicate Lists(rules: Rules, w: WalkState, t: WalkState, parts: seq<Part>) {
    !Stopped(t) ==>
      && !Stopped(w)
      && UnpointedAll(t.entries) == UnpointedAll(w.entries) + OfAll(PartEntries(rules), parts)
      && t.unreadableNames == w.unreadableNames + OfAll(PartNames(rules), parts)
      && t.unresolvableNames == w.unresolvableNames + OfAll(PartNowhere(rules), parts)
      && AllRead(rules, parts)
  }

  function AskedLinks(links: seq<PendingLink>): (asked: seq<AskedLink>)
    ensures |asked| == |links| && forall i :: 0 <= i < |asked| ==> asked[i] == (links[i].path, links[i].ancestors)
  {
    seq(|links|, i requires 0 <= i < |links| => (links[i].path, links[i].ancestors))
  }

  lemma AskedAppend(a: seq<PendingLink>, b: seq<PendingLink>)
    ensures AskedLinks(a + b) == AskedLinks(a) + AskedLinks(b)
  {
  }

  /** Unless it stopped, the walk has come to wait for the links of the parts. */
  ghost predicate Queues(rules: Rules, w: WalkState, t: WalkState, parts: seq<Part>) {
    !Stopped(t) ==> AskedLinks(t.pending) == AskedLinks(w.pending) + OfAll(PartLinks(rules), parts)
  }

  /** Unless it stopped, the walk has come to list the parts and to wait for their links. */
  ghost predicate Takes(rules: Rules, w: WalkState, t: WalkState, parts: seq<Part>) {
    Lists(rules, w, t, parts) && Queues(rules, w, t, parts)
  }

  lemma NothingTaken(rules: Rules, w: WalkState, t: WalkState)
    requires UnpointedAll(t.entries) == UnpointedAll(w.entries) && t.pending == w.pending
    requires t.unreadableNames == w.unreadableNames && t.unresolvableNames == w.unresolvableNames
    requires Stopped(w) ==> Stopped(t)
    ensures Takes(rules, w, t, [])
  {
  }

  lemma ListsIsTransitive(rules: Rules, a: WalkState, b: WalkState, c: WalkState, p: seq<Part>, q: seq<Part>)
    requires Lists(rules, a, b, p) && Lists(rules, b, c, q)
    ensures Lists(rules, a, c, p + q)
  {
    hide UnpointedAll, OfAll, PartEntries, PartNames, PartNowhere, PartRead;
    if !Stopped(c) {
      OfAllAppend(PartEntries(rules), p, q);
      OfAllAppend(PartNames(rules), p, q);
      OfAllAppend(PartNowhere(rules), p, q);
      AppendIsAssociative(UnpointedAll(a.entries), OfAll(PartEntries(rules), p), OfAll(PartEntries(rules), q));
      AppendIsAssociative(a.unreadableNames, OfAll(PartNames(rules), p), OfAll(PartNames(rules), q));
      AppendIsAssociative(a.unresolvableNames, OfAll(PartNowhere(rules), p), OfAll(PartNowhere(rules), q));
    }
  }

  lemma TakesIsTransitive(rules: Rules, a: WalkState, b: WalkState, c: WalkState, p: seq<Part>, q: seq<Part>)
    requires Takes(rules, a, b, p) && Takes(rules, b, c, q)
    ensures Takes(rules, a, c, p + q)
  {
    ListsIsTransitive(rules, a, b, c, p, q);
    hide AskedLinks, OfAll, PartLinks, AllRead, UnpointedAll;
    if !Stopped(c) {
      OfAllAppend(PartLinks(rules), p, q);
      AppendIsAssociative(AskedLinks(a.pending), OfAll(PartLinks(rules), p), OfAll(PartLinks(rules), q));
    }
  }

  lemma UnpointedAppend(a: seq<ListedEntry>, b: seq<ListedEntry>)
    ensures UnpointedAll(a + b) == UnpointedAll(a) + UnpointedAll(b)
  {
  }

  lemma {:induction false} EntriesAreUnpointed(rules: Rules, base: string, items: seq<Item>)
    ensures UnpointedAll(EntriesOf(rules, base, items)) == EntriesOf(rules, base, items)
  {
    hide LeftOut;
    if items != [] {
      EntriesAreUnpointed(rules, base, items[1..]);
      UnpointedAppend(EntryOf(rules, base, items[0]), EntriesOf(rules, base, items[1..]));
    }
  }

  /** A take that appends a part to what was listed. */
  lemma OnePartTakes(rules: Rules, w: WalkState, t: WalkState, part: Part)
    requires UnpointedAll(PartEntries(rules)(part)) == PartEntries(rules)(part)
    requires !Stopped(t) ==>
               && !Stopped(w)
               && t.entries == w.entries + PartEntries(rules)(part)
               && t.unreadableNames == w.unreadableNames + PartNames(rules)(part)
               && t.unresolvableNames == w.unresolvableNames + PartNowhere(rules)(part)
               && AskedLinks(t.pending) == AskedLinks(w.pending) + PartLinks(rules)(part)
               && PartRead(rules, part)
    ensures Takes(rules, w, t, [part])
  {
    hide UnpointedAll, PartEntries, PartNames, PartNowhere, PartLinks, PartRead, AskedLinks;
    OneIsOfAll(PartEntries(rules), part);
    OneIsOfAll(PartNames(rules), part);
    OneIsOfAll(PartNowhere(rules), part);
    OneIsOfAll(PartLinks(rules), part);
    UnpointedAppend(w.entries, PartEntries(rules)(part));
  }

  /** An entry of the walk's own. */
  lemma OwnPartTakes(rules: Rules, w: WalkState, t: WalkState, path: string, entry: RawEntry, kind: ListedKind,
                     counted: Option<nat>)
    requires kind.ListedSymlink? ==> kind.pointsTo == PointsToFile
    requires !Stopped(t) ==>
               && !Stopped(w)
               && t.entries == w.entries + OneEntry(rules, path, entry, kind)
               && t.unreadableNames == w.unreadableNames + OneName(rules, path)
               && t.unresolvableNames == w.unresolvableNames
               && t.pending == w.pending
               && PartRead(rules, OwnPart(path, entry, kind, counted))
    ensures Takes(rules, w, t, [OwnPart(path, entry, kind, counted)])
  {
    hide Takes, PartRead;
    OnePartTakes(rules, w, t, OwnPart(path, entry, kind, counted));
  }

  // ----- What a take adds -----

  /** A symlink entry that has not been pointed yet. */
  ghost predicate Unanswered(entries: seq<ListedEntry>, i: nat) {
    i < |entries| && entries[i].kind.ListedSymlink? && entries[i].kind.pointsTo == PointsToFile
  }

  ghost predicate Waits(links: seq<PendingLink>, i: nat) {
    exists k :: 0 <= k < |links| && links[k].listed == At(i)
  }

  /** Entries and links are only added; every added link is that of an added symlink, and every added
      symlink waits. */
  ghost predicate Adds(w: WalkState, t: WalkState) {
    && w.entries <= t.entries && w.pending <= t.pending
    && (forall k :: |w.pending| <= k < |t.pending| && t.pending[k].listed.At? ==>
          |w.entries| <= t.pending[k].listed.index && Unanswered(t.entries, t.pending[k].listed.index))
    && (forall i :: |w.entries| <= i < |t.entries| && t.entries[i].kind.ListedSymlink? ==> Waits(t.pending, i))
  }

  lemma WaitsStays(links: seq<PendingLink>, more: seq<PendingLink>, i: nat)
    requires links <= more && Waits(links, i)
    ensures Waits(more, i)
  {
    var k :| 0 <= k < |links| && links[k].listed == At(i);
    assert more[k].listed == At(i);
  }

  lemma AddsIsTransitive(a: WalkState, b: WalkState, c: WalkState)
    requires Adds(a, b) && Adds(b, c)
    ensures Adds(a, c)
  {
    forall k | |a.pending| <= k < |c.pending| && c.pending[k].listed.At?
      ensures |a.entries| <= c.pending[k].listed.index && Unanswered(c.entries, c.pending[k].listed.index)
    {
      if k < |b.pending| {
        assert c.pending[k] == b.pending[k];
        assert c.entries[b.pending[k].listed.index] == b.entries[b.pending[k].listed.index];
      }
    }
    forall i | |a.entries| <= i < |c.entries| && c.entries[i].kind.ListedSymlink? ensures Waits(c.pending, i) {
      if i < |b.entries| {
        assert c.entries[i] == b.entries[i];
        WaitsStays(b.pending, c.pending, i);
      }
    }
  }

  lemma NothingAdds(w: WalkState, t: WalkState)
    requires t.entries == w.entries && t.pending == w.pending
    ensures Adds(w, t)
  {
  }

  lemma OneEntryAdds(w: WalkState, t: WalkState, more: seq<PendingLink>)
    requires |t.entries| == |w.entries| + 1 && t.entries[..|w.entries|] == w.entries && t.pending == w.pending + more
    requires if t.entries[|w.entries|].kind.ListedSymlink?
             then |more| == 1 && more[0].listed == At(|w.entries|) && Unanswered(t.entries, |w.entries|) else more == []
    ensures Adds(w, t)
  {
    if more != [] {
      assert t.pending[|w.pending|].listed == At(|w.entries|);
    }
  }

  /** The step listed one item as it should, unless the walk stopped at it. */
  ghost predicate ListsItem(rules: Rules, visit: Visit, w: WalkState, t: WalkState, item: Item) {
    && Adds(w, t)
    && (!Stopped(t) ==>
          && t.entries == w.entries + EntryOf(rules, visit.base, item)
          && t.unreadableNames == w.unreadableNames + NameOf(rules, visit.base, item)
          && t.unresolvableNames == w.unresolvableNames
          && AskedLinks(t.pending)
               == AskedLinks(w.pending) + LinkOf(rules, visit.base, visit.tree, visit.ancestors, item)
          && ItemRead(rules, visit.base, Causes(visit.tree.unreadable), visit.ancestors, item))
  }

  lemma LeafLists(rules: Rules, w: WalkState, visit: Visit, entry: RawEntry)
    requires visit.counter < |w.counts| && !Stopped(w)
    requires entry.kind != RawDirectory && !Passed(rules, visit.base, EntryItem(entry))
    ensures var step := TakeLeaf(rules, w, visit, JoinPath(visit.base, entry.path), entry);
            step.Goes? ==> ListsItem(rules, visit, w, step.w, EntryItem(entry))
  {
    PassedIsLeftOut(rules, visit.base, EntryItem(entry));
    hide Passed, LeftOut, Adds, ParentIdsUpTo, DirIds;
    AskedAppend(w.pending, []);
    var path := JoinPath(visit.base, entry.path);
    var step := TakeLeaf(rules, w, visit, path, entry);
    if step.Goes? {
      AskedAppend(w.pending, step.w.pending[|w.pending|..]);
      if Stopped(step.w) {
        NothingAdds(w, step.w);
      } else if rules.isUtf8(path) {
        OneEntryAdds(w, step.w, step.w.pending[|w.pending|..]);
      } else {
        NamedAdds(w, step.w);
      }
    }
  }

  lemma NamedAdds(w: WalkState, t: WalkState)
    requires t.entries == w.entries && w.pending <= t.pending
    requires forall k :: |w.pending| <= k < |t.pending| ==> t.pending[k].listed == NameUnreadable
    ensures Adds(w, t)
  {
  }

  lemma DirectoryLists(rules: Rules, w: WalkState, visit: Visit, entry: RawEntry)
    requires !Stopped(w)
    requires entry.kind == RawDirectory && !Passed(rules, visit.base, EntryItem(entry))
    ensures var step := TakeDirectory(rules, w, visit, JoinPath(visit.base, entry.path), entry);
            step.Goes? ==> ListsItem(rules, visit, w, step.w, EntryItem(entry))
  {
    PassedIsLeftOut(rules, visit.base, EntryItem(entry));
    hide Passed, LeftOut, Adds, Causes;
    var path := JoinPath(visit.base, entry.path);
    var step := TakeDirectory(rules, w, visit, path, entry);
    if step.Goes? {
      if Stopped(step.w) || !rules.isUtf8(path) {
        NothingAdds(w, step.w);
      } else {
        OneEntryAdds(w, step.w, []);
      }
    }
  }

  lemma ItemLists(rules: Rules, w: WalkState, visit: Visit, item: Item)
    requires visit.counter < |w.counts| && !Stopped(w)
    ensures var step := TakeItem(rules, w, visit, item); step.Goes? ==> ListsItem(rules, visit, w, step.w, item)
  {
    hide Adds, TakeDirectory, TakeLeaf;
    NothingAdds(w, w);
    PassedIsLeftOut(rules, visit.base, item);
    hide LeftOut;
    if !Passed(rules, visit.base, item) && item.EntryItem? {
      hide Passed, EntryOf, NameOf, LinkOf;
      if item.entry.kind == RawDirectory {
        DirectoryLists(rules, w, visit, item.entry);
      } else {
        LeafLists(rules, w, visit, item.entry);
      }
    }
  }

  /** The step listed all the items as it should, unless the walk stopped on the way. */
  ghost predicate ListsItems(rules: Rules, visit: Visit, w: WalkState, t: WalkState, items: seq<Item>) {
    && Adds(w, t)
    && (!Stopped(t) ==>
          && !Stopped(w)
          && t.entries == w.entries + EntriesOf(rules, visit.base, items)
          && t.unreadableNames == w.unreadableNames + NamesOf(rules, visit.base, items)
          && t.unresolvableNames == w.unresolvableNames
          && AskedLinks(t.pending)
               == AskedLinks(w.pending) + LinksIn(rules, visit.base, visit.tree, visit.ancestors, items)
          && ItemsRead(rules, visit.base, Causes(visit.tree.unreadable), visit.ancestors, items))
  }

  lemma OneItemMore(rules: Rules, visit: Visit, w: WalkState, s: WalkState, t: WalkState, items: seq<Item>)
    requires items != [] && !Stopped(w)
    requires ListsItem(rules, visit, w, s, items[0]) && ListsItems(rules, visit, s, t, items[1..])
    ensures ListsItems(rules, visit, w, t, items)
  {
    hide Adds, EntryOf, NameOf, LinkOf, ItemRead, Causes, AskedLinks;
    AddsIsTransitive(w, s, t);
    if !Stopped(t) {
      AppendIsAssociative(w.entries, EntryOf(rules, visit.base, items[0]), EntriesOf(rules, visit.base, items[1..]));
      AppendIsAssociative(w.unreadableNames, NameOf(rules, visit.base, items[0]),
                          NamesOf(rules, visit.base, items[1..]));
      AppendIsAssociative(AskedLinks(w.pending), LinkOf(rules, visit.base, visit.tree, visit.ancestors, items[0]),
                          LinksIn(rules, visit.base, visit.tree, visit.ancestors, items[1..]));
      assert items == [items[0]] + items[1..];
    }
  }

  lemma {:induction false} ItemsList(rules: Rules, w: WalkState, visit: Visit, items: seq<Item>)
    requires visit.counter < |w.counts|
    ensures var step := TakeItems(rules, w, visit, items); step.Goes? ==> ListsItems(rules, visit, w, step.w, items)
    decreases |items|
  {
    hide Adds, TakeItem, EntryOf, NameOf, LinkOf, ItemRead, Causes;
    NothingAdds(w, w);
    if items != [] && !Stopped(w) {
      hide ListsItems, ListsItem;
      ItemLists(rules, w, visit, items[0]);
      var step := TakeItem(rules, w, visit, items[0]);
      if step.Goes? {
        ItemsList(rules, step.w, visit, items[1..]);
        var after := TakeItems(rules, step.w, visit, items[1..]);
        if after.Goes? {
          OneItemMore(rules, visit, w, step.w, after.w, items);
        }
      }
    }
  }

  lemma SubtreeLists(rules: Rules, w: WalkState, visit: Visit)
    requires visit.counter < |w.counts|
    ensures var step := TakeSubtree(rules, w, visit);
            step.Goes? ==>
              && Adds(w, step.w)
              && Takes(rules, w, step.w, [TreePart(visit.base, visit.tree, visit.ancestors, visit.counter)])
  {
    hide Adds, TakeItems, Causes, InPathOrder, EntriesOf, NamesOf, LinksIn, ItemsRead, Takes, UnpointedAll, AskedLinks;
    NothingAdds(w, w.(cycle := Some(rules.ctx.escape(visit.base))));
    ItemsList(rules, w, visit, InPathOrder(visit.tree));
    EntriesAreUnpointed(rules, visit.base, InPathOrder(visit.tree));
    var step := TakeSubtree(rules, w, visit);
    if step.Goes? {
      OnePartTakes(rules, w, step.w, TreePart(visit.base, visit.tree, visit.ancestors, visit.counter));
    }
  }
}
