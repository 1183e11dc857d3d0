/** When a scan stops early or fails, and what it counts, told from the answers of the collector. */
module ScanStops {
  import opened Texts
  import opened Exclude
  import opened StartPaths
  import opened ScanData
  import opened WalkSteps
  import opened WalkCounts
  import opened ScanParts
  import opened ScanRun
  import opened ScanComplete
  import Sorting

  // ----- The directories above a link -----

  /** The collected directory at `p` inside the subtree has this id: the last entry for the path counts,
      and without one the empty path is the start. */
  ghost predicate DirectoryAt(start: DirId, entries: seq<RawEntry>, p: string, id: DirId) {
    || (exists k :: IsLastAt(entries, k, p) && entries[k].id == id)
    || (p == "" && id == start && forall k :: 0 <= k < |entries| ==> !IsDirectoryAt(entries[k], p))
  }

  ghost predicate IsDirectoryAt(entry: RawEntry, p: string) {
    entry.kind == RawDirectory && entry.path == p
  }

  ghost predicate IsLastAt(entries: seq<RawEntry>, k: int, p: string) {
    && 0 <= k < |entries| && IsDirectoryAt(entries[k], p)
    && forall j :: k < j < |entries| ==> !IsDirectoryAt(entries[j], p)
  }

  lemma {:induction false} DirIdsHold(start: DirId, entries: seq<RawEntry>, p: string, id: DirId)
    ensures p in DirIdsOf(start, entries) && DirIdsOf(start, entries)[p] == id <==> DirectoryAt(start, entries, p, id)
  {
    if entries != [] {
      var n := |entries| - 1;
      var front, last := entries[..n], entries[n];
      DirIdsHold(start, front, p, id);
      if IsDirectoryAt(last, p) {
        assert IsLastAt(entries, n, p);
        assert forall k :: IsLastAt(entries, k, p) ==> k == n;
      } else {
        assert forall k :: IsLastAt(entries, k, p) <==> IsLastAt(front, k, p);
        assert (forall k :: 0 <= k < |entries| ==> !IsDirectoryAt(entries[k], p))
           <==> (forall k :: 0 <= k < |front| ==> !IsDirectoryAt(front[k], p));
      }
    }
  }

  /** `p` is the start, or ends at a "/" among the first n characters of the path. */
  ghost predicate EndsAbove(path: string, n: nat, p: string) {
    p == "" || (|p| < n && p + "/" <= path)
  }

  /** A directory of the subtree, or its start, that `rel` lies below. */
  ghost predicate IsAbove(tree: Subtree, rel: string, id: DirId) {
    exists p :: EndsAbove(rel, |rel|, p) && DirectoryAt(tree.start.id, tree.entries, p, id)
  }

  lemma OneCharacterMore(path: string, n: nat, p: string)
    requires 0 < n <= |path|
    ensures EndsAbove(path, n, p) <==> EndsAbove(path, n - 1, p) || (p == path[..n - 1] && path[n - 1] == SLASH)
  {
    if |p| == n - 1 && p + "/" <= path {
      assert path[..n] == p + "/";
    }
    if p == path[..n - 1] && path[n - 1] == SLASH {
      assert p + "/" == path[..n];
    }
  }

  ghost predicate HasAbove(path: string, ids: map<string, DirId>, n: nat, id: DirId) {
    exists p :: EndsAbove(path, n, p) && p in ids && ids[p] == id
  }

  lemma {:induction false} ParentIdsAre(path: string, ids: map<string, DirId>, n: nat, id: DirId)
    requires "" in ids && n <= |path|
    ensures id in ParentIdsUpTo(path, ids, n) <==> HasAbove(path, ids, n, id)
  {
    if n > 0 {
      ParentIdsAre(path, ids, n - 1, id);
      forall p ensures EndsAbove(path, n, p)
        <==> EndsAbove(path, n - 1, p) || (p == path[..n - 1] && path[n - 1] == SLASH) {
        OneCharacterMore(path, n, p);
      }
      hide EndsAbove;
    } else {
      assert EndsAbove(path, 0, "");
    }
  }

  /** What is above a link found in a subtree: what is above the subtree, and its directories the link
      lies below. */
  lemma ChainHolds(visit: Visit, entry: RawEntry, id: DirId)
    ensures id in Chain(visit, entry) <==> id in visit.ancestors || IsAbove(visit.tree, entry.path, id)
  {
    var tree, path := visit.tree, entry.path;
    ParentIdsAre(path, DirIds(tree), |path|, id);
    forall p ensures p in DirIds(tree) && DirIds(tree)[p] == id <==> DirectoryAt(tree.start.id, tree.entries, p, id) {
      DirIdsHold(tree.start.id, tree.entries, p, id);
    }
    hide DirectoryAt;
  }

  // ----- Meeting what is above -----

  /** The subtree begins at a directory that is above it, or holds one in a place that is not excluded:
      `path` is where. */
  ghost predicate MeetsAbove(rules: Rules, part: Part, path: string) {
    && part.TreePart?
    && (|| (path == part.base && part.tree.start.id in part.above)
        || exists e :: e in part.tree.entries && HoldsAbove(rules, part, e, path))
  }

  ghost predicate HoldsAbove(rules: Rules, part: Part, e: RawEntry, path: string)
    requires part.TreePart?
  {
    && path == JoinPath(part.base, e.path) && e.path != "" && !rules.ctx.Excluded(path)
    && e.kind == RawDirectory && e.id in part.above
  }

  ghost predicate SomeMeets(rules: Rules, parts: seq<Part>, path: string) {
    exists i :: 0 <= i < |parts| && MeetsAbove(rules, parts[i], path)
  }

  // ----- Failing -----

  /** Why the directory `p` could not be read: the last report about it. */
  ghost predicate ReportedAt(unreadable: seq<UnreadableDir>, p: string, cause: ReadCause) {
    exists k :: IsLastReport(unreadable, k, p) && unreadable[k].cause == cause
  }

  ghost predicate IsLastReport(unreadable: seq<UnreadableDir>, k: int, p: string) {
    && 0 <= k < |unreadable| && unreadable[k].path == p
    && forall j :: k < j < |unreadable| ==> unreadable[j].path != p
  }

  lemma {:induction false} CausesHold(unreadable: seq<UnreadableDir>, p: string, cause: ReadCause)
    ensures p in Causes(unreadable) && Causes(unreadable)[p] == cause <==> ReportedAt(unreadable, p, cause)
  {
    if unreadable != [] {
      var n := |unreadable| - 1;
      var front := unreadable[..n];
      CausesHold(front, p, cause);
      if unreadable[n].path == p {
        assert IsLastReport(unreadable, n, p);
        assert forall k :: IsLastReport(unreadable, k, p) ==> k == n;
      } else {
        assert forall k :: IsLastReport(unreadable, k, p) <==> IsLastReport(front, k, p);
      }
    }
  }

  function UnreadAt(rules: Rules, path: string, cause: ReadCause): ScanFailure {
    if path == "" then RootUnreadable(cause) else UnreadableDirectory(rules.ctx.escape(path), cause)
  }

  /** An item that counts makes the scan fail: it changed, its information or its directory could not be
      read, or its link target or its time could not. */
  ghost predicate ItemFails(rules: Rules, base: string, tree: Subtree, item: Item, failure: ScanFailure) {
    && !LeftOut(rules, base, item)
    && match item
       case ChangedItem(p) => failure == ChangedDuringScan(rules.ctx.escape(JoinPath(base, p)))
       case UnreadItem(p, cause) => failure == UnreadAt(rules, JoinPath(base, ParentOf(p)), cause)
       case EntryItem(e) => EntryFails(rules, JoinPath(base, e.path), tree, e, failure)
  }

  ghost predicate EntryFails(rules: Rules, path: string, tree: Subtree, e: RawEntry, failure: ScanFailure) {
    || (e.kind == RawSymlink(None) && failure == UnreadableLinkTarget(rules.ctx.escape(path)))
    || (rules.isUtf8(path) && e.mtime.TimeUnreadable? && failure == UnreadableTime(path))
    || (e.kind == RawDirectory
        && exists cause :: ReportedAt(tree.unreadable, e.path, cause) && failure == UnreadAt(rules, path, cause))
  }

  /** A subtree makes the scan fail: its start changed or could not be read, or one of its items does. */
  ghost predicate TreeFails(rules: Rules, base: string, tree: Subtree, failure: ScanFailure) {
    || ("" in tree.changed && failure == if base == "" then RootChanged else ChangedDuringScan(rules.ctx.escape(base)))
    || (exists cause :: ReportedAt(tree.unreadable, "", cause) && failure == UnreadAt(rules, base, cause))
    || (exists item :: item in AllItems(tree) && ItemFails(rules, base, tree, item, failure))
  }

  ghost predicate PartFails(rules: Rules, part: Part, failure: ScanFailure) {
    match part
    case OwnPart(path, e, kind, _) =>
      || (e.kind == RawSymlink(None) && kind != ListedDirectory
        && failure == UnreadableLinkTarget(rules.ctx.escape(path)))
      || (rules.isUtf8(path) && e.mtime.TimeUnreadable? && failure == UnreadableTime(path))
    case TreePart(base, tree, _, _) => TreeFails(rules, base, tree, failure)
    case NowherePart(_) => false
    case BrokenPart(broken) => failure == broken
  }

  ghost predicate SomeFails(rules: Rules, parts: seq<Part>, failure: ScanFailure) {
    exists i :: 0 <= i < |parts| && PartFails(rules, parts[i], failure)
  }

  // ----- Counting -----

  /** The items that count and are no directories. */
  ghost function Counted(rules: Rules, base: string, items: seq<Item>): nat {
    if items == [] then 0
    else
      (if Shows(rules, base, items[0]) && items[0].entry.kind != RawDirectory then 1 else 0)
      + Counted(rules, base, items[1..])
  }

  /** How many entries of the part count in group g. */
  ghost function PartCount(rules: Rules, part: Part, g: nat): nat {
    match part
    case OwnPart(_, _, _, counted) => if counted == Some(g) then 1 else 0
    case TreePart(base, tree, _, group) => if group == g then Counted(rules, base, InPathOrder(tree)) else 0
    case NowherePart(_) => 0
    case BrokenPart(_) => 0
  }

  ghost function CountIn(rules: Rules, parts: seq<Part>, g: nat): nat {
    if parts == [] then 0 else PartCount(rules, parts[0], g) + CountIn(rules, parts[1..], g)
  }

  lemma {:induction false} CountInBoth(rules: Rules, a: seq<Part>, b: seq<Part>, g: nat)
    ensures CountIn(rules, a + b, g) == CountIn(rules, a, g) + CountIn(rules, b, g)
  {
    if a == [] {
      assert a + b == b;
    } else {
      CountInBoth(rules, a[1..], b, g);
      assert (a + b)[0] == a[0] && (a + b)[1..] == a[1..] + b;
      hide PartCount;
    }
  }

  lemma CountInOne(rules: Rules, part: Part, g: nat)
    ensures CountIn(rules, [part], g) == PartCount(rules, part, g)
  {
    assert [part][1..] == [];
    assert CountIn(rules, [], g) == 0;
  }

  /** The walk counted what the parts hold, all of it unless it stopped. */
  ghost predicate CountsFrom(rules: Rules, w: WalkState, t: WalkState, parts: seq<Part>) {
    && |t.counts| == |w.counts|
    && forall g: nat | g < |w.counts| :: CountsIn(rules, w, t, parts, g)
  }

  ghost predicate CountsIn(rules: Rules, w: WalkState, t: WalkState, parts: seq<Part>, g: nat)
    requires g < |w.counts| == |t.counts|
  {
    && w.counts[g] <= t.counts[g] <= w.counts[g] + CountIn(rules, parts, g)
    && (!Stopped(t) ==> !Stopped(w) && t.counts[g] == w.counts[g] + CountIn(rules, parts, g))
  }

  // ----- Explaining a step -----

  /** If the cycle of the walk changed, it is where one of the parts meets what is above it. */
  ghost predicate CycleFrom(rules: Rules, w: WalkState, t: WalkState, parts: seq<Part>) {
    t.cycle == w.cycle || exists path :: SomeMeets(rules, parts, path) && t.cycle == Some(rules.ctx.escape(path))
  }

  /** What the parts say of a step: a new cycle is where one of them meets what is above it, what they hold
      is counted, and a failure is that of one of them. */
  ghost predicate Explained(rules: Rules, w: WalkState, step: Step, parts: seq<Part>) {
    match step
    case Goes(t) => CycleFrom(rules, w, t, parts) && CountsFrom(rules, w, t, parts)
    case Fails(failure) => SomeFails(rules, parts, failure)
  }

  lemma NothingHappens(rules: Rules, w: WalkState, t: WalkState)
    requires t.counts == w.counts && t.cycle == w.cycle && (Stopped(w) ==> Stopped(t))
    ensures Explained(rules, w, Goes(t), [])
  {
  }

  lemma CountsFromBoth(rules: Rules, r: WalkState, s: WalkState, t: WalkState, a: seq<Part>, b: seq<Part>)
    requires CountsFrom(rules, r, s, a) && CountsFrom(rules, s, t, b)
    ensures CountsFrom(rules, r, t, a + b)
  {
    forall g: nat | g < |r.counts| ensures CountsIn(rules, r, t, a + b, g) {
      CountInBoth(rules, a, b, g);
      assert CountsIn(rules, r, s, a, g) && CountsIn(rules, s, t, b, g);
    }
  }

  lemma SomeFailsIn(rules: Rules, a: seq<Part>, b: seq<Part>, failure: ScanFailure)
    requires SomeFails(rules, a, failure) || SomeFails(rules, b, failure)
    ensures SomeFails(rules, a + b, failure)
  {
    if SomeFails(rules, a, failure) {
      var i :| 0 <= i < |a| && PartFails(rules, a[i], failure);
      assert (a + b)[i] == a[i];
    } else {
      var i :| 0 <= i < |b| && PartFails(rules, b[i], failure);
      assert (a + b)[|a| + i] == b[i];
    }
  }

  lemma SomeMeetsIn(rules: Rules, a: seq<Part>, b: seq<Part>, path: string)
    requires SomeMeets(rules, a, path) || SomeMeets(rules, b, path)
    ensures SomeMeets(rules, a + b, path)
  {
    if SomeMeets(rules, a, path) {
      var i :| 0 <= i < |a| && MeetsAbove(rules, a[i], path);
      assert (a + b)[i] == a[i];
    } else {
      var i :| 0 <= i < |b| && MeetsAbove(rules, b[i], path);
      assert (a + b)[|a| + i] == b[i];
    }
  }

  lemma ExplainedThen(rules: Rules, w: WalkState, s: WalkState, step: Step, a: seq<Part>, b: seq<Part>)
    requires Explained(rules, w, Goes(s), a) && Explained(rules, s, step, b)
    ensures Explained(rules, w, step, a + b)
  {
    hide SomeMeets, SomeFails, CountsFrom;
    if step.Goes? {
      CountsFromBoth(rules, w, s, step.w, a, b);
      forall path | SomeMeets(rules, a, path) || SomeMeets(rules, b, path) ensures SomeMeets(rules, a + b, path) {
        SomeMeetsIn(rules, a, b, path);
      }
    } else {
      SomeFailsIn(rules, a, b, step.failure);
    }
  }

  lemma FailsAtOnce(rules: Rules, w: WalkState, failure: ScanFailure, a: seq<Part>, b: seq<Part>)
    requires Explained(rules, w, Fails(failure), a)
    ensures Explained(rules, w, Fails(failure), a + b)
  {
    SomeFailsIn(rules, a, b, failure);
  }

  lemma OnePartFails(rules: Rules, w: WalkState, part: Part, failure: ScanFailure)
    requires PartFails(rules, part, failure)
    ensures Explained(rules, w, Fails(failure), [part])
  {
    assert [part][0] == part;
  }

  // ----- One subtree -----

  /** Only this counter moved, by at most n, and by n unless the walk stopped. */
  ghost predicate CountsBy(w: WalkState, t: WalkState, counter: nat, n: nat)
    requires counter < |w.counts|
  {
    && |t.counts| == |w.counts|
    && (forall g :: 0 <= g < |w.counts| && g != counter ==> t.counts[g] == w.counts[g])
    && w.counts[counter] <= t.counts[counter] <= w.counts[counter] + n
    && (!Stopped(t) ==> !Stopped(w) && t.counts[counter] == w.counts[counter] + n)
  }

  /** What the items say of a step. */
  ghost predicate ItemsExplain(rules: Rules, w: WalkState, step: Step, visit: Visit, items: seq<Item>)
    requires visit.counter < |w.counts|
  {
    match step
    case Goes(t) =>
      && CycleFrom(rules, w, t, [TreePart(visit.base, visit.tree, visit.ancestors, visit.counter)])
      && CountsBy(w, t, visit.counter, Counted(rules, visit.base, items))
    case Fails(failure) => exists item :: item in items && ItemFails(rules, visit.base, visit.tree, item, failure)
  }

  lemma OneMeets(rules: Rules, part: Part, path: string)
    requires MeetsAbove(rules, part, path)
    ensures SomeMeets(rules, [part], path)
  {
    assert [part][0] == part;
  }

  lemma OneCounted(rules: Rules, base: string, item: Item)
    ensures Counted(rules, base, [item])
         == if Shows(rules, base, item) && item.entry.kind != RawDirectory then 1 else 0
  {
    assert Counted(rules, base, [item][1..]) == 0;
  }

  lemma DirectoryExplained(rules: Rules, w: WalkState, visit: Visit, e: RawEntry)
    requires visit.counter < |w.counts| && !Stopped(w) && e in visit.tree.entries
    requires e.kind == RawDirectory && !LeftOut(rules, visit.base, EntryItem(e))
    ensures var step := TakeDirectory(rules, w, visit, JoinPath(visit.base, e.path), e);
            ItemsExplain(rules, w, step, visit, [EntryItem(e)])
  {
    var part := TreePart(visit.base, visit.tree, visit.ancestors, visit.counter);
    var path := JoinPath(visit.base, e.path);
    OneCounted(rules, visit.base, EntryItem(e));
    hide SomeMeets, LeftOut, Counted, JoinPath, Causes, ReportedAt;
    if e.id in visit.ancestors {
      NotExcluded(rules, visit.base, e);
      assert HoldsAbove(rules, part, e, path);
      OneMeets(rules, part, path);
    } else if e.path in Causes(visit.tree.unreadable) {
      CausesHold(visit.tree.unreadable, e.path, Causes(visit.tree.unreadable)[e.path]);
      var failure := UnreadDirectory(rules, path, Causes(visit.tree.unreadable)[e.path]);
      assert EntryFails(rules, path, visit.tree, e, failure);
      assert EntryItem(e) in [EntryItem(e)];
    } else {
      assert EntryItem(e) in [EntryItem(e)];
    }
  }

  lemma NotExcluded(rules: Rules, base: string, e: RawEntry)
    requires !LeftOut(rules, base, EntryItem(e))
    ensures e.path != "" && !rules.ctx.Excluded(JoinPath(base, e.path))
  {
    hide IsExcluded;
  }

  lemma LeafExplained(rules: Rules, w: WalkState, visit: Visit, e: RawEntry)
    requires visit.counter < |w.counts| && !Stopped(w)
    requires e.kind != RawDirectory && !LeftOut(rules, visit.base, EntryItem(e))
    ensures var step := TakeLeaf(rules, w, visit, JoinPath(visit.base, e.path), e);
            ItemsExplain(rules, w, step, visit, [EntryItem(e)])
  {
    OneCounted(rules, visit.base, EntryItem(e));
    hide SomeMeets, LeftOut, Counted, JoinPath, ReportedAt, ParentIdsUpTo, DirIds;
    assert EntryItem(e) in [EntryItem(e)];
  }

  lemma ItemExplained(rules: Rules, w: WalkState, visit: Visit, item: Item)
    requires visit.counter < |w.counts| && !Stopped(w)
    requires item.EntryItem? ==> item.entry in visit.tree.entries
    ensures ItemsExplain(rules, w, TakeItem(rules, w, visit, item), visit, [item])
  {
    PassedIsLeftOut(rules, visit.base, item);
    OneCounted(rules, visit.base, item);
    hide SomeMeets, Counted, LeftOut, Passed, TakeDirectory, TakeLeaf;
    assert item in [item];
    if !LeftOut(rules, visit.base, item) && item.EntryItem? {
      if item.entry.kind == RawDirectory {
        DirectoryExplained(rules, w, visit, item.entry);
      } else {
        LeafExplained(rules, w, visit, item.entry);
      }
    }
  }

  lemma CountsByBoth(rules: Rules, base: string, r: WalkState, s: WalkState, t: WalkState, counter: nat,
                     items: seq<Item>)
    requires items != [] && counter < |r.counts| && counter < |s.counts|
    requires CountsBy(r, s, counter, Counted(rules, base, [items[0]]))
             && CountsBy(s, t, counter, Counted(rules, base, items[1..]))
    ensures CountsBy(r, t, counter, Counted(rules, base, items))
  {
    OneCounted(rules, base, items[0]);
  }

  lemma CycleFromSame(rules: Rules, r: WalkState, s: WalkState, t: WalkState, parts: seq<Part>)
    requires CycleFrom(rules, r, s, parts) && CycleFrom(rules, s, t, parts)
    ensures CycleFrom(rules, r, t, parts)
  {
  }

  lemma {:induction false} ItemsExplained(rules: Rules, w: WalkState, visit: Visit, items: seq<Item>)
    requires visit.counter < |w.counts|
    requires forall i :: 0 <= i < |items| && items[i].EntryItem? ==> items[i].entry in visit.tree.entries
    ensures ItemsExplain(rules, w, TakeItems(rules, w, visit, items), visit, items)
    decreases |items|
  {
    hide CycleFrom, CountsBy, TakeItem, ItemFails, Counted;
    if items == [] || Stopped(w) {
      StaysPut(rules, w, visit, items);
    } else {
      ItemExplained(rules, w, visit, items[0]);
      var step := TakeItem(rules, w, visit, items[0]);
      if step.Goes? {
        ItemsExplained(rules, step.w, visit, items[1..]);
        var after := TakeItems(rules, step.w, visit, items[1..]);
        if after.Goes? {
          CycleFromSame(rules, w, step.w, after.w, [TreePart(visit.base, visit.tree, visit.ancestors, visit.counter)]);
          CountsByBoth(rules, visit.base, w, step.w, after.w, visit.counter, items);
        }
      }
    }
  }

  lemma StaysPut(rules: Rules, w: WalkState, visit: Visit, items: seq<Item>)
    requires visit.counter < |w.counts| && (items == [] || Stopped(w))
    ensures ItemsExplain(rules, w, Goes(w), visit, items)
  {
  }

  lemma ItemIsOfTree(tree: Subtree, item: Item)
    ensures item in InPathOrder(tree) <==> item in AllItems(tree)
    ensures item in AllItems(tree) && item.EntryItem? ==> item.entry in tree.entries
    ensures item.EntryItem? && item.entry in tree.entries ==> item in AllItems(tree)
  {
    var all := AllItems(tree);
    Sorting.SameMembers(all, ItemBefore, item);
    hide ItemBefore;
    if item.EntryItem? && item in all {
      var j :| 0 <= j < |all| && all[j] == item;
    }
    if item.EntryItem? && item.entry in tree.entries {
      var k :| 0 <= k < |tree.entries| && tree.entries[k] == item.entry;
      assert all[k] == item;
    }
  }

  lemma SubtreeExplained(rules: Rules, w: WalkState, visit: Visit)
    requires visit.counter < |w.counts|
    ensures Explained(rules, w, TakeSubtree(rules, w, visit),
                      [TreePart(visit.base, visit.tree, visit.ancestors, visit.counter)])
  {
    hide TakeItems, InPathOrder, AllItems, Causes, SomeMeets, CountsBy, ItemFails, Counted, ReportedAt;
    var part, items := TreePart(visit.base, visit.tree, visit.ancestors, visit.counter), InPathOrder(visit.tree);
    forall i | 0 <= i < |items| ensures items[i] in AllItems(visit.tree) {
      ItemIsOfTree(visit.tree, items[i]);
    }
    forall i | 0 <= i < |items| && items[i].EntryItem? ensures items[i].entry in visit.tree.entries {
      ItemIsOfTree(visit.tree, items[i]);
    }
    var step := TakeSubtree(rules, w, visit);
    if visit.tree.start.id in visit.ancestors {
      OneMeets(rules, part, visit.base);
      CycleCounts(rules, w, step.w, part);
    } else if "" in visit.tree.changed {
      assert TreeFails(rules, visit.base, visit.tree, step.failure);
      OnePartFails(rules, w, part, step.failure);
    } else if "" in Causes(visit.tree.unreadable) {
      CausesHold(visit.tree.unreadable, "", Causes(visit.tree.unreadable)[""]);
      assert TreeFails(rules, visit.base, visit.tree, step.failure);
      OnePartFails(rules, w, part, step.failure);
    } else {
      ItemsExplained(rules, w, visit, items);
      if step.Goes? {
        CountsByPart(rules, w, step.w, visit);
      } else {
        var item :| item in items && ItemFails(rules, visit.base, visit.tree, item, step.failure);
        assert TreeFails(rules, visit.base, visit.tree, step.failure);
        OnePartFails(rules, w, part, step.failure);
      }
    }
  }

  lemma CycleCounts(rules: Rules, w: WalkState, t: WalkState, part: Part)
    requires t.counts == w.counts && Stopped(t)
    ensures CountsFrom(rules, w, t, [part])
  {
    hide PartCount;
  }

  lemma CountsByPart(rules: Rules, w: WalkState, t: WalkState, visit: Visit)
    requires visit.counter < |w.counts|
    requires CountsBy(w, t, visit.counter, Counted(rules, visit.base, InPathOrder(visit.tree)))
    ensures CountsFrom(rules, w, t, [TreePart(visit.base, visit.tree, visit.ancestors, visit.counter)])
  {
    hide InPathOrder, Counted;
    forall g: nat | g < |w.counts|
      ensures CountsIn(rules, w, t, [TreePart(visit.base, visit.tree, visit.ancestors, visit.counter)], g)
    {
      CountInOne(rules, TreePart(visit.base, visit.tree, visit.ancestors, visit.counter), g);
    }
  }

  // ----- Links, starts and rounds -----

  lemma ZeroCounts(rules: Rules, parts: seq<Part>, g: nat)
    requires forall i :: 0 <= i < |parts| ==> PartCount(rules, parts[i], g) == 0
    ensures CountIn(rules, parts, g) == 0
    decreases |parts|
  {
    if parts != [] {
      assert forall i :: 0 <= i < |parts[1..]| ==> parts[1..][i] == parts[i + 1];
      ZeroCounts(rules, parts[1..], g);
    }
  }

  /** Parts that count nothing explain a step that counts nothing and meets nothing. */
  lemma Uncounted(rules: Rules, w: WalkState, t: WalkState, parts: seq<Part>)
    requires t.counts == w.counts && t.cycle == w.cycle && Stopped(t) == Stopped(w)
    requires forall i, g: nat :: 0 <= i < |parts| ==> PartCount(rules, parts[i], g) == 0
    ensures Explained(rules, w, Goes(t), parts)
  {
    forall g: nat | g < |w.counts| ensures CountsIn(rules, w, t, parts, g) {
      ZeroCounts(rules, parts, g);
    }
  }

  lemma PointExplained(rules: Rules, w: WalkState, link: PendingLink, answer: Answer)
    requires Indexed(w, link)
    ensures var step := PointLink(rules, w, link, answer);
            && (step.Goes? ==> Explained(rules, w, step,
                                         NowhereParts(link.listed == NameUnreadable, link.path, answer)))
            && (step.Fails? ==>
                  || (answer.link == None && step.failure == ChangedDuringScan(rules.ctx.escape(link.path)))
                  || (answer.link == Some(ToUnresolvable) && link.listed == NotListed
                      && step.failure == UnresolvableLink(rules.ctx.escape(link.path))))
  {
    var step := PointLink(rules, w, link, answer);
    if step.Goes? {
      Uncounted(rules, w, step.w, NowhereParts(link.listed == NameUnreadable, link.path, answer));
    }
  }

  lemma BrokenExplains(rules: Rules, w: WalkState, failure: ScanFailure)
    ensures Explained(rules, w, Fails(failure), [BrokenPart(failure)])
  {
    OnePartFails(rules, w, BrokenPart(failure), failure);
  }

  lemma LastPartFails(rules: Rules, w: WalkState, front: seq<Part>, failure: ScanFailure)
    ensures Explained(rules, w, Fails(failure), front + [BrokenPart(failure)])
  {
    BrokenExplains(rules, w, failure);
    SomeFailsIn(rules, front, [BrokenPart(failure)], failure);
  }

  /** A link: what it says of itself, then what follows from the answer. */
  lemma LinkExplained(rules: Rules, w: WalkState, link: PendingLink, answer: Answer)
    requires Indexed(w, link) && link.counter < |w.counts|
    ensures Explained(rules, w, TakeLink(rules, w, link, answer), LinkParts(rules, link, answer))
  {
    hide TakeSubtree, PointLink, Explained;
    PointExplained(rules, w, link, answer);
    var nowhere := NowhereParts(link.listed == NameUnreadable, link.path, answer);
    var pointed, step := PointLink(rules, w, link, answer), TakeLink(rules, w, link, answer);
    if pointed.Fails? {
      LastPartFails(rules, w, nowhere, pointed.failure);
    } else if answer.link != Some(ToDirectory) {
      PointGoes(rules, w, link, answer);
      assert LinkParts(rules, link, answer) == nowhere + [] == nowhere;
    } else if answer.subtree == None {
      LastPartFails(rules, w, nowhere, step.failure);
    } else {
      PointGoes(rules, w, link, answer);
      SubtreeExplained(rules, pointed.w, Visit(link.path, answer.subtree.value, link.ancestors, link.counter));
      ExplainedThen(rules, w, pointed.w, step, nowhere,
                    [TreePart(link.path, answer.subtree.value, link.ancestors, link.counter)]);
    }
  }

  lemma PointGoes(rules: Rules, w: WalkState, link: PendingLink, answer: Answer)
    requires Indexed(w, link) && PointLink(rules, w, link, answer).Goes?
    ensures answer.link.Some? && !(link.listed == NotListed && answer.link == Some(ToUnresolvable))
    ensures |PointLink(rules, w, link, answer).w.counts| == |w.counts|
  {
  }

  lemma {:induction false} LinksExplained(rules: Rules, w: WalkState, links: seq<PendingLink>, answers: seq<Answer>,
                                          k: nat)
    requires k <= |links| == |answers| && Placed(w.entries, |w.counts|, links)
    ensures Explained(rules, w, TakeLinks(rules, w, links, answers, k), FollowedFrom(rules, links, answers, k))
    decreases |links| - k
  {
    hide TakeLink, Explained, Bounded, LinkParts;
    if k == |links| {
      NothingHappens(rules, w, w);
    } else {
      var link, answer := links[k], answers[k];
      assert OwnEntry(w.entries, link);
      LinkExplained(rules, w, link, answer);
      var step := TakeLink(rules, w, link, answer);
      if step.Goes? {
        TakeLinkGrows(rules, w, link, answer);
        StaysPlaced(w.entries, step.w.entries, |w.counts|, links);
        hide Placed, Extends;
        LinksExplained(rules, step.w, links, answers, k + 1);
        ExplainedThen(rules, w, step.w, TakeLinks(rules, step.w, links, answers, k + 1), LinkParts(rules, link, answer),
                      FollowedFrom(rules, links, answers, k + 1));
      } else {
        FailsAtOnce(rules, w, step.failure, LinkParts(rules, link, answer), FollowedFrom(rules, links, answers, k + 1));
      }
    }
  }

  /** An entry of the walk's own that is no directory. */
  lemma OwnLeafExplained(rules: Rules, w: WalkState, path: string, e: RawEntry, ancestors: seq<DirId>,
                         counter: Option<nat>)
    requires (counter.Some? ==> counter.value < |w.counts|) && e.kind != RawDirectory
    ensures var step := TakeLeafCounted(rules, w, path, e, ancestors, counter);
            var part := OwnPart(path, e, KindOf(e.kind), counter);
            && (step.LeafFails? ==> Explained(rules, w, Fails(step.failure), [part]))
            && (step.LeafGoes? ==>
                  && Explained(rules, w, Goes(step.w), [part]) && |step.w.counts| == |w.counts|
                  && (step.link.None? ==> Stopped(step.w) || !e.kind.RawSymlink?)
                  && (step.link.Some? ==>
                        && e.kind.RawSymlink? && Indexed(step.w, step.link.value) && step.link.value.path == path
                        && step.link.value.ancestors == ancestors && step.link.value.listed != NotListed
                        && (step.link.value.listed == NameUnreadable <==> !rules.isUtf8(path))
                        && step.link.value.counter == (if counter.Some? then counter.value else 0)))
  {
    var step := TakeLeafCounted(rules, w, path, e, ancestors, counter);
    var part := OwnPart(path, e, KindOf(e.kind), counter);
    if step.LeafFails? {
      OnePartFails(rules, w, part, step.failure);
    } else {
      forall g: nat | g < |w.counts| ensures CountsIn(rules, w, step.w, [part], g) {
        CountInOne(rules, part, g);
      }
    }
  }

  /** A directory of the walk's own. */
  lemma OwnDirectoryExplained(rules: Rules, w: WalkState, path: string, e: RawEntry)
    ensures Explained(rules, w, ListDirectory(rules, w, path, e), [OwnPart(path, e, ListedDirectory, None)])
    ensures var step := ListDirectory(rules, w, path, e); step.Goes? ==> |step.w.counts| == |w.counts|
  {
    var step, part := ListDirectory(rules, w, path, e), OwnPart(path, e, ListedDirectory, None);
    if step.Fails? {
      OnePartFails(rules, w, part, step.failure);
    } else {
      Uncounted(rules, w, step.w, [part]);
    }
  }

  lemma StoppedExplains(rules: Rules, w: WalkState, t: WalkState, a: seq<Part>, b: seq<Part>)
    requires Explained(rules, w, Goes(t), a) && Stopped(t)
    ensures Explained(rules, w, Goes(t), a + b)
  {
    hide SomeMeets;
    forall path | SomeMeets(rules, a, path) ensures SomeMeets(rules, a + b, path) {
      SomeMeetsIn(rules, a, b, path);
    }
    forall g: nat | g < |w.counts| ensures CountsIn(rules, w, t, a + b, g) {
      assert CountsIn(rules, w, t, a, g);
      CountInBoth(rules, a, b, g);
    }
  }

  lemma UnreachedExplained(rules: Rules, w: WalkState, path: string, why: Unreached)
    ensures Explained(rules, w, UnreachedStart(rules, w, path, why), UnreachedParts(path, why))
  {
    NothingHappens(rules, w, w);
    var step := UnreachedStart(rules, w, path, why);
    if step.Fails? {
      BrokenExplains(rules, w, step.failure);
    }
  }

  lemma ItselfExplained(rules: Rules, w: WalkState, start: StartPath, answer: Answer, root: DirId)
    requires start.group < |w.counts| && start.withSelf && !start.descend
    ensures Explained(rules, w, TakeItself(rules, w, start.path, answer, root, start.group),
                      StartParts(rules, start, answer, root))
  {
    hide Explained, TakeLeafCounted, PointLink, ListDirectory;
    var step := TakeItself(rules, w, start.path, answer, root, start.group);
    if answer.reached.Unreachable? {
      UnreachedExplained(rules, w, start.path, answer.reached.why);
    } else if answer.reached.entry.kind == RawDirectory {
      OwnDirectoryExplained(rules, w, start.path, answer.reached.entry);
    } else {
      var e := answer.reached.entry;
      var group := if answer.link == Some(ToDirectory) then None else Some(start.group);
      var own := [OwnPart(start.path, e, KindOf(e.kind), group)];
      var nowhere := NowhereParts(!rules.isUtf8(start.path), start.path, answer);
      OwnLeafExplained(rules, w, start.path, e, [root], group);
      var parts, leaf := StartParts(rules, start, answer, root),
          TakeLeafCounted(rules, w, start.path, e, [root], group);
      var tail := if !e.kind.RawSymlink? then []
                  else nowhere + (if answer.link == None then Unanswerable(rules, start.path) else []);
      assert parts == own + tail;
      if leaf.LeafFails? {
        FailsAtOnce(rules, w, leaf.failure, own, tail);
      } else if leaf.link.None? {
        if Stopped(leaf.w) {
          StoppedExplains(rules, w, leaf.w, own, tail);
        } else {
          assert parts == own;
        }
      } else {
        PointExplained(rules, leaf.w, leaf.link.value, answer);
        if step.Goes? {
          PointGoes(rules, leaf.w, leaf.link.value, answer);
          ExplainedThen(rules, w, leaf.w, step, own, nowhere);
          assert parts == own + nowhere;
        } else {
          LastPartFails(rules, w, own + nowhere, step.failure);
          assert parts == own + nowhere + [BrokenPart(step.failure)];
        }
      }
    }
  }

  lemma ValueExplained(rules: Rules, w: WalkState, start: StartPath, answer: Answer, root: DirId)
    requires start.group < |w.counts| && start.withSelf && start.descend
    ensures Explained(rules, w, TakeValue(rules, w, start.path, answer, root, start.group),
                      StartParts(rules, start, answer, root))
  {
    hide Explained, TakeLeafCounted, TakeLink, TakeSubtree;
    var step := TakeValue(rules, w, start.path, answer, root, start.group);
    if answer.reached.Unreachable? {
      UnreachedExplained(rules, w, start.path, answer.reached.why);
    } else if answer.reached.entry.kind == RawDirectory {
      if answer.subtree == None {
        BrokenExplains(rules, w, InconsistentAnswer);
      } else {
        SubtreeExplained(rules, w, Visit(start.path, answer.subtree.value, [root], start.group));
      }
    } else {
      var e, group := answer.reached.entry, Some(start.group);
      var own := [OwnPart(start.path, e, KindOf(e.kind), group)];
      OwnLeafExplained(rules, w, start.path, e, [root], group);
      var parts, leaf := StartParts(rules, start, answer, root),
          TakeLeafCounted(rules, w, start.path, e, [root], group);
      var tail := if !e.kind.RawSymlink? then []
                  else NowhereParts(!rules.isUtf8(start.path), start.path, answer)
                       + LeadsParts(rules, start.path, [root], start.group, answer);
      assert parts == own + tail;
      if leaf.LeafFails? {
        FailsAtOnce(rules, w, leaf.failure, own, tail);
      } else if leaf.link.None? {
        if Stopped(leaf.w) {
          StoppedExplains(rules, w, leaf.w, own, tail);
        } else {
          assert parts == own;
        }
      } else {
        LinkExplained(rules, leaf.w, leaf.link.value, answer);
        assert LinkParts(rules, leaf.link.value, answer) == tail;
        ExplainedThen(rules, w, leaf.w, step, own, tail);
      }
    }
  }

  lemma BelowExplained(rules: Rules, w: WalkState, start: StartPath, answer: Answer, root: DirId)
    requires start.group < |w.counts| && !start.withSelf
    ensures Explained(rules, w, TakeBelow(rules, w, start, answer, root), StartParts(rules, start, answer, root))
  {
    hide Explained, TakeLink, TakeSubtree, ListDirectory;
    NothingHappens(rules, w, w);
    var step := TakeBelow(rules, w, start, answer, root);
    if answer.reached.Unreachable? {
      if !start.excluded { UnreachedExplained(rules, w, start.path, answer.reached.why); }
      return;
    }
    var entry := answer.reached.entry;
    if entry.kind == RawDirectory || (entry.kind.RawSymlink? && answer.link == Some(ToDirectory)) {
      var shown := if answer.subtree.Some? then answer.subtree.value.start else entry;
      var own := [OwnPart(start.path, shown, ListedDirectory, None)];
      var tail := if start.descend then TreeParts(start.path, [root], start.group, answer) else [];
      OwnDirectoryExplained(rules, w, start.path, shown);
      var listed := ListDirectory(rules, w, start.path, shown);
      assert own + [] == own;
      if listed.Fails? {
        FailsAtOnce(rules, w, listed.failure, own, tail);
      } else if start.descend {
        if answer.subtree == None {
          LastPartFails(rules, w, own, InconsistentAnswer);
        } else {
          SubtreeExplained(rules, listed.w, Visit(start.path, answer.subtree.value, [root], start.group));
          ExplainedThen(rules, w, listed.w, step, own, tail);
        }
      }
    } else if entry.kind.RawSymlink? && !start.excluded {
      var link := PendingLink(start.path, [root], start.group, NotListed);
      LinkExplained(rules, w, link, answer);
      assert LinkParts(rules, link, answer) == ThroughParts(rules, start.path, answer);
    }
  }

  lemma StartExplained(rules: Rules, w: WalkState, start: StartPath, answer: Answer, root: DirId)
    requires start.group < |w.counts|
    ensures Explained(rules, w, TakeStart(rules, w, start, answer, root), StartParts(rules, start, answer, root))
  {
    hide Explained, StartParts, TakeItself, TakeValue, TakeBelow;
    if start.withSelf && !start.descend {
      ItselfExplained(rules, w, start, answer, root);
    } else if start.withSelf {
      ValueExplained(rules, w, start, answer, root);
    } else {
      BelowExplained(rules, w, start, answer, root);
    }
  }

  lemma {:induction false} StartsExplained(rules: Rules, w: WalkState, starts: seq<StartPath>, answers: seq<Answer>,
                                           root: DirId, k: nat)
    requires k <= |starts| == |answers| && StartsCounted(starts, |w.counts|)
    ensures Explained(rules, w, TakeStarts(rules, w, starts, answers, root, k),
                      StartsParts(rules, starts, answers, root, k))
    decreases |starts| - k
  {
    hide Explained, TakeStart, StartParts;
    if k == |starts| {
      NothingHappens(rules, w, w);
    } else {
      StartExplained(rules, w, starts[k], answers[k], root);
      var step := TakeStart(rules, w, starts[k], answers[k], root);
      var first, others :=
          StartParts(rules, starts[k], answers[k], root), StartsParts(rules, starts, answers, root, k + 1);
      if step.Goes? {
        StartsExplained(rules, step.w, starts, answers, root, k + 1);
        ExplainedThen(rules, w, step.w, TakeStarts(rules, step.w, starts, answers, root, k + 1), first, others);
      } else {
        FailsAtOnce(rules, w, step.failure, first, others);
      }
    }
  }

  lemma FirstExplained(rules: Rules, whole: bool, starts: seq<StartPath>, answers: seq<Answer>, root: DirId)
    requires |answers| == 1 + |starts|
    ensures Explained(rules, Empty(Counters(starts)), TakeFirst(rules, whole, starts, answers, root),
                      FirstParts(rules, whole, starts, answers, root))
  {
    hide TakeSubtree, TakeStarts, Explained, StartsParts;
    var w, parts := Empty(Counters(starts)), if whole then TreeParts("", [], 0, answers[0]) else [];
    NothingHappens(rules, w, w);
    if whole && answers[0].subtree.Some? {
      SubtreeExplained(rules, w, Visit("", answers[0].subtree.value, [], 0));
    } else if whole {
      BrokenExplains(rules, w, InconsistentAnswer);
    }
    var first := if whole then TakeWhole(rules, w, answers[0]) else Goes(w);
    var others := StartsParts(rules, starts, answers[1..], root, 0);
    if first.Goes? {
      StartsExplained(rules, first.w, starts, answers[1..], root, 0);
      ExplainedThen(rules, w, first.w, TakeStarts(rules, first.w, starts, answers[1..], root, 0), parts, others);
    } else {
      FailsAtOnce(rules, w, first.failure, parts, others);
    }
  }

  // ----- The whole scan -----

  /** Answered rounds that asked about what was found before them. */
  ghost predicate Asked(rules: Rules, collector: Collector, parts: seq<Part>, rounds: seq<Round>) {
    && AskedInOrder(rules, parts, rounds)
    && forall r :: 0 <= r < |rounds| ==> Ask(collector, 1 + r, LinkQuestions(rounds[r].links)) == Got(rounds[r].answers)
  }

  /** The collector refused the n-th batch, about the links found before it. */
  ghost predicate RefusedAt(rules: Rules, collector: Collector, parts: seq<Part>, rounds: seq<Round>,
                            failure: ScanFailure) {
    exists links :: AskedLinks(links) == OfAll(PartLinks(rules), LastParts(rules, parts, rounds))
                    && Ask(collector, 1 + |rounds|, LinkQuestions(links)) == Refused(failure)
  }

  /** Why a scan failed after its first batch: the collector refused the last batch it was asked, or a part
      that was to be taken is a failure. */
  ghost predicate FailedIn(rules: Rules, collector: Collector, parts: seq<Part>, rounds: seq<Round>,
                           failure: ScanFailure) {
    && Asked(rules, collector, parts, rounds)
    && (SomeFails(rules, parts + Followed(rules, rounds), failure)
          || RefusedAt(rules, collector, parts, rounds, failure))
  }

  /** The state the rounds begin each time. */
  ghost predicate Going(rules: Rules, collector: Collector, begin: WalkState, w: WalkState, parts: seq<Part>,
                        rounds: seq<Round>) {
    && Explained(rules, begin, Goes(w), parts + Followed(rules, rounds))
    && Asked(rules, collector, parts, rounds)
    && (!Stopped(w) ==> AskedLinks(w.pending) == OfAll(PartLinks(rules), LastParts(rules, parts, rounds)))
  }

  lemma FollowedMore(rules: Rules, parts: seq<Part>, rounds: seq<Round>, round: Round)
    requires |round.links| == |round.answers|
    ensures parts + Followed(rules, rounds + [round])
         == parts + Followed(rules, rounds) + FollowedFrom(rules, round.links, round.answers, 0)
  {
    hide FollowedFrom;
    var longer := rounds + [round];
    assert longer[..|rounds|] == rounds;
  }

  lemma SameStart(rules: Rules, a: WalkState, b: WalkState, step: Step, parts: seq<Part>)
    requires a.cycle == b.cycle && a.counts == b.counts && Stopped(a) == Stopped(b) && Explained(rules, b, step, parts)
    ensures Explained(rules, a, step, parts)
  {
    hide SomeMeets;
    if step.Goes? {
      forall g: nat | g < |a.counts| ensures CountsIn(rules, a, step.w, parts, g) {
        assert CountsIn(rules, b, step.w, parts, g);
      }
    }
  }

  lemma AnotherAsked(rules: Rules, collector: Collector, parts: seq<Part>, rounds: seq<Round>, links: seq<PendingLink>,
                     answers: seq<Answer>)
    requires Asked(rules, collector, parts, rounds)
    requires AskedLinks(links) == OfAll(PartLinks(rules), LastParts(rules, parts, rounds))
    requires Ask(collector, 1 + |rounds|, LinkQuestions(links)) == Got(answers)
    ensures Asked(rules, collector, parts, rounds + [Round(links, answers)])
  {
    hide AskedInOrder, AskedLinks, OfAll, LastParts, LinkQuestions, Ask;
    OneMoreAsked(rules, parts, rounds, Round(links, answers));
  }

  /** What a round leaves waiting are the links of what it took. */
  lemma WaitsAfterRound(rules: Rules, w: WalkState, answers: seq<Answer>, parts: seq<Part>, own: Round,
                        rounds: seq<Round>)
    requires Fair(rules, w) && !Stopped(w) && |answers| == |w.pending| && Kept(w, [own] + rounds)
    ensures var step, longer := TakeRound(rules, w, answers), rounds + [Round(w.pending, answers)];
            step.Goes? ==>
              && (!Stopped(step.w) ==>
                    AskedLinks(step.w.pending) == OfAll(PartLinks(rules), LastParts(rules, parts, longer)))
              && Kept(step.w, [own] + longer)
  {
    hide Bounded, TakeLinks, Sum, Lists, InRound, Placed, Kept, Queues, OfAll, PartLinks, LastParts, AskedLinks;
    StartOfRound(w, answers, [own] + rounds);
    LinksList(rules, w, w.(pending := []), w.pending, answers, 0);
    var step := TakeRound(rules, w, answers);
    if step.Goes? {
      TakeLinksGrows(rules, w.(pending := []), w.pending, answers, 0);
      EndOfRound(w, step.w, answers, [own] + rounds);
      assert [own] + rounds + [Round(w.pending, answers)] == [own] + (rounds + [Round(w.pending, answers)]);
      if !Stopped(step.w) {
        WaitsForRound(rules, w.(pending := []), step.w, parts, rounds, w.pending, answers);
      }
    }
  }

  /** Why the rounds end as they do. */
  ghost predicate RunExplained(rules: Rules, collector: Collector, begin: WalkState, run: Run, parts: seq<Part>) {
    match run
    case Finished(t, all) =>
      Explained(rules, begin, Goes(t), parts + Followed(rules, all)) && Asked(rules, collector, parts, all)
    case Broken(failure, _) => exists all :: FailedIn(rules, collector, parts, all, failure)
  }

  lemma {:induction false} RoundsExplained(rules: Rules, collector: Collector, begin: WalkState, w: WalkState,
                                           parts: seq<Part>, own: Round, rounds: seq<Round>)
    requires Fair(rules, w) && Going(rules, collector, begin, w, parts, rounds)
    requires !Stopped(w) ==> Kept(w, [own] + rounds)
    ensures RunExplained(rules, collector, begin, Rounds(rules, collector, w, rounds), parts)
    decreases Room(rules, w)
  {
    hide Bounded, TakeLinks, Sum, Placed, Explained, Asked, Followed, FollowedFrom, AskedLinks, OfAll, PartLinks,
      LastParts,
         SomeFails, Kept, FailedIn;
    if !Resting(w) {
      var asked := Ask(collector, 1 + |rounds|, LinkQuestions(w.pending));
      if asked.Got? {
        var round, more := Round(w.pending, asked.answers), FollowedFrom(rules, w.pending, asked.answers, 0);
        LinksExplained(rules, w.(pending := []), w.pending, asked.answers, 0);
        var step := TakeRound(rules, w, asked.answers);
        SameStart(rules, w, w.(pending := []), step, more);
        ExplainedThen(rules, begin, w, step, parts + Followed(rules, rounds), more);
        FollowedMore(rules, parts, rounds, round);
        AnotherAsked(rules, collector, parts, rounds, w.pending, asked.answers);
        if step.Goes? {
          RoundCounts(rules, w, asked.answers);
          RoomShrinks(rules, w, step.w);
          WaitsAfterRound(rules, w, asked.answers, parts, own, rounds);
          hide TakeRound, Fair, Ask, RunExplained;
          RoundsExplained(rules, collector, begin, step.w, parts, own, rounds + [round]);
        } else {
          PartFailed(rules, collector, begin, parts, rounds + [round], step.failure);
        }
      } else {
        BatchRefused(rules, collector, parts, rounds, w.pending, asked.failure);
      }
    }
  }

  lemma PartFailed(rules: Rules, collector: Collector, w: WalkState, parts: seq<Part>, rounds: seq<Round>,
                   failure: ScanFailure)
    requires Explained(rules, w, Fails(failure), parts + Followed(rules, rounds))
             && Asked(rules, collector, parts, rounds)
    ensures FailedIn(rules, collector, parts, rounds, failure)
  {
  }

  lemma BatchRefused(rules: Rules, collector: Collector, parts: seq<Part>, rounds: seq<Round>, links: seq<PendingLink>,
                     failure: ScanFailure)
    requires Asked(rules, collector, parts, rounds)
    requires AskedLinks(links) == OfAll(PartLinks(rules), LastParts(rules, parts, rounds))
    requires Ask(collector, 1 + |rounds|, LinkQuestions(links)) == Refused(failure)
    ensures FailedIn(rules, collector, parts, rounds, failure)
  {
    hide Ask, LinkQuestions;
  }

  /** Why root_dir cannot be scanned. */
  ghost predicate RootFails(answer: Answer, failure: ScanFailure) {
    match answer.reached
    case Unreachable(PathMissing) => failure == RootMissing
    case Unreachable(PathBlocked) => failure == RootNotDirectory
    case Unreachable(PathUnreadable(cause)) => failure == RootUnreadable(cause)
    case Entry(entry) => entry.kind != RawDirectory && failure == RootNotDirectory
  }

  /** The root_dir that was found. */
  ghost predicate RootIs(answer: Answer, root: DirId) {
    answer.reached.Entry? && answer.reached.entry.kind == RawDirectory && answer.reached.entry.id == root
  }

  lemma RootIdentityIs(answer: Answer)
    ensures RootIdentity(answer).RootFound? ==> RootIs(answer, RootIdentity(answer).id)
    ensures RootIdentity(answer).RootRefused? ==> RootFails(answer, RootIdentity(answer).failure)
  {
  }

  /** Everything that was taken in a scan that ended, with the root_dir it began in. */
  ghost function Taken(rules: Rules, whole: bool, starts: seq<StartPath>, answers: seq<Answer>, root: DirId,
                       run: Run): seq<Part>
    requires |answers| == 1 + |starts| && run.Finished?
  {
    FirstParts(rules, whole, starts, answers, root) + Followed(rules, run.rounds)
  }

  /** A scan that fails has a reason: the collector refused a batch, root_dir cannot be scanned, or
      something it was to take is a failure, and it is that one's failure. */
  ghost predicate FailureExplained(rules: Rules, collector: Collector, whole: bool, starts: seq<StartPath>,
                                   failure: ScanFailure) {
    var first := Ask(collector, 0, FirstQuestions(whole, starts));
    if first.Refused? then failure == first.failure
    else if RootFails(first.answers[0], failure) then true
    else exists root, rounds ::
      && RootIs(first.answers[0], root)
      && FailedIn(rules, collector, FirstParts(rules, whole, starts, first.answers, root), rounds, failure)
  }

  lemma StartExplains(rules: Rules, collector: Collector, whole: bool, starts: seq<StartPath>, answers: seq<Answer>,
                      root: DirId)
      returns (own: Round)
    requires |answers| == 1 + |starts| && TakeFirst(rules, whole, starts, answers, root).Goes?
    ensures var w, parts :=
            TakeFirst(rules, whole, starts, answers, root).w, FirstParts(rules, whole, starts, answers, root);
            && Going(rules, collector, Empty(Counters(starts)), w, parts, [])
            && (!Stopped(w) ==> Kept(w, [own] + []))
  {
    hide TakeFirst, Explained, Kept, Lists, Queues, AskedLinks, OfAll, FirstParts, OwnLinks, StartsSettled;
    var w, parts := TakeFirst(rules, whole, starts, answers, root).w, FirstParts(rules, whole, starts, answers, root);
    own := FirstLists(rules, whole, starts, answers, root);
    FirstExplained(rules, whole, starts, answers, root);
    NothingFollowed(rules, parts, own);
    FirstLinks(rules, w, Counters(starts), parts);
  }

  ghost predicate ScanIsExplained(rules: Rules, collector: Collector, whole: bool, starts: seq<StartPath>, run: Run) {
    match run
    case Broken(failure, _) => FailureExplained(rules, collector, whole, starts, failure)
    case Finished(_, _) =>
      var first := Ask(collector, 0, FirstQuestions(whole, starts));
      && first.Got? && first.answers[0].reached.Entry?
      && RunExplained(rules, collector, Empty(Counters(starts)), run,
                      FirstParts(rules, whole, starts, first.answers, first.answers[0].reached.entry.id))
  }

  lemma ScanExplained(rules: Rules, collector: Collector, whole: bool, starts: seq<StartPath>)
    ensures ScanIsExplained(rules, collector, whole, starts, Scan(rules, collector, whole, starts))
  {
    hide TakeFirst, Rounds, Fair, FirstParts, Kept, RunExplained, FailedIn, Going, Ask;
    var first := Ask(collector, 0, FirstQuestions(whole, starts));
    if first.Got? {
      RootIdentityIs(first.answers[0]);
      if RootIdentity(first.answers[0]).RootFound? {
        var root := RootIdentity(first.answers[0]).id;
        var parts, step := FirstParts(rules, whole, starts, first.answers, root),
            TakeFirst(rules, whole, starts, first.answers, root);
        FirstIsFair(rules, whole, starts, first.answers, root);
        if step.Goes? {
          var own := StartExplains(rules, collector, whole, starts, first.answers, root);
          RoundsExplained(rules, collector, Empty(Counters(starts)), step.w, parts, own, []);
          var run := Rounds(rules, collector, step.w, []);
          if run.Broken? {
            WhyBroken(rules, collector, Empty(Counters(starts)), run, parts);
          }
        } else {
          FirstExplained(rules, whole, starts, first.answers, root);
          NothingAsked(rules, collector, Empty(Counters(starts)), parts, step.failure);
        }
      }
    }
  }

  lemma WhyBroken(rules: Rules, collector: Collector, begin: WalkState, run: Run, parts: seq<Part>)
    requires RunExplained(rules, collector, begin, run, parts) && run.Broken?
    ensures exists all :: FailedIn(rules, collector, parts, all, run.failure)
  {
    hide FailedIn;
  }

  lemma NothingAsked(rules: Rules, collector: Collector, w: WalkState, parts: seq<Part>, failure: ScanFailure)
    requires Explained(rules, w, Fails(failure), parts)
    ensures FailedIn(rules, collector, parts, [], failure)
  {
    assert parts + Followed(rules, []) == parts;
  }

  /** For every collector and all starts, a scan that fails has a reason in what the collector answered,
      and fails with it. */
  lemma FailsOnlyForAReason(rules: Rules, collector: Collector, whole: bool, starts: seq<StartPath>)
    ensures var run := Scan(rules, collector, whole, starts);
            run.Broken? ==> FailureExplained(rules, collector, whole, starts, run.failure)
  {
    hide Scan, FailureExplained, RunExplained;
    ScanExplained(rules, collector, whole, starts);
  }

  /** Where everything was read, nothing meets what is above it. */
  lemma ReadMeetsNothing(rules: Rules, parts: seq<Part>, path: string)
    requires AllRead(rules, parts)
    ensures !SomeMeets(rules, parts, path)
  {
    forall i | 0 <= i < |parts| ensures !MeetsAbove(rules, parts[i], path) {
      assert PartRead(rules, parts[i]);
      if parts[i].TreePart? {
        TreeMeetsNothing(rules, parts[i], path);
      }
    }
  }

  lemma TreeMeetsNothing(rules: Rules, part: Part, path: string)
    requires part.TreePart? && TreeRead(rules, part.base, part.tree, part.above)
    ensures !MeetsAbove(rules, part, path)
  {
    hide InPathOrder, AllItems, Causes, IsExcluded;
    forall e | e in part.tree.entries ensures !HoldsAbove(rules, part, e, path) {
      ItemIsOfTree(part.tree, EntryItem(e));
      var i :| 0 <= i < |InPathOrder(part.tree)| && InPathOrder(part.tree)[i] == EntryItem(e);
      assert ItemRead(rules, part.base, Causes(part.tree.unreadable), part.above, InPathOrder(part.tree)[i]);
    }
  }

  /** The first batch and the root_dir of a scan that ended. */
  ghost predicate Began(collector: Collector, whole: bool, starts: seq<StartPath>, answers: seq<Answer>, root: DirId) {
    |answers| == 1 + |starts| && Ask(collector, 0, FirstQuestions(whole, starts)) == Got(answers)
      && RootIs(answers[0], root)
  }

  /** For every collector and all starts: a scan that ends reports a cycle only where a subtree it took
      begins at, or holds in a place that is not excluded, a directory that is above that subtree; and
      unless it is truncated it does report one if there is such a place. */
  lemma CycleExactlyWhenMet(rules: Rules, collector: Collector, whole: bool, starts: seq<StartPath>,
                            answers: seq<Answer>, root: DirId)
    requires Scan(rules, collector, whole, starts).Finished? && Began(collector, whole, starts, answers, root)
    ensures var run := Scan(rules, collector, whole, starts);
            var taken := Taken(rules, whole, starts, answers, root, run);
            && Asked(rules, collector, FirstParts(rules, whole, starts, answers, root), run.rounds)
            && (run.w.cycle.Some? ==>
                  exists path :: SomeMeets(rules, taken, path) && run.w.cycle == Some(rules.ctx.escape(path)))
            && (!run.w.truncated ==> (run.w.cycle.Some? <==> exists path :: SomeMeets(rules, taken, path)))
  {
    hide Scan, FirstParts, Followed, SomeMeets, Asked, Ask, AllRead, CountsFrom;
    var run := Scan(rules, collector, whole, starts);
    ScanExplained(rules, collector, whole, starts);
    if !Stopped(run.w) {
      CompleteScan(rules, collector, whole, starts);
      forall path ensures !SomeMeets(rules, Taken(rules, whole, starts, answers, root, run), path) {
        ReadMeetsNothing(rules, Taken(rules, whole, starts, answers, root, run), path);
      }
    }
  }

  /** Some group has more entries to count than the limit. */
  ghost predicate TooMany(rules: Rules, taken: seq<Part>, groups: nat) {
    exists g: nat :: g < groups && CountIn(rules, taken, g) > rules.maxEntries
  }

  /** For every collector and all starts: what a group counts is what is not a directory and not excluded
      in what was taken for it. Without a cycle a scan that ends is truncated exactly if that is more than
      the limit for some group. */
  lemma TruncatedExactlyWhenTooMany(rules: Rules, collector: Collector, whole: bool, starts: seq<StartPath>,
                                    answers: seq<Answer>, root: DirId)
    requires Scan(rules, collector, whole, starts).Finished? && Began(collector, whole, starts, answers, root)
    ensures var run := Scan(rules, collector, whole, starts);
            var taken := Taken(rules, whole, starts, answers, root, run);
            && |run.w.counts| == Counters(starts)
            && (forall g: nat | g < Counters(starts) :: run.w.counts[g] <= CountIn(rules, taken, g))
            && (!Stopped(run.w) ==> forall g: nat | g < Counters(starts) :: run.w.counts[g] == CountIn(rules, taken, g))
            && (run.w.truncated ==> TooMany(rules, taken, Counters(starts)))
            && (run.w.cycle == None ==> (run.w.truncated <==> TooMany(rules, taken, Counters(starts))))
  {
    hide Scan, FirstParts, Followed, CycleFrom, Asked, Ask, CountIn;
    var run := Scan(rules, collector, whole, starts);
    ScanExplained(rules, collector, whole, starts);
    ScanEnds(rules, collector, whole, starts);
    var taken := Taken(rules, whole, starts, answers, root, run);
    var begin := Empty(Counters(starts));
    forall g: nat | g < Counters(starts)
      ensures run.w.counts[g] <= CountIn(rules, taken, g)
      ensures !Stopped(run.w) ==> run.w.counts[g] == CountIn(rules, taken, g)
    {
      assert CountsIn(rules, begin, run.w, taken, g) && begin.counts[g] == 0;
    }
    if run.w.truncated {
      var g: nat :| g < Counters(starts) && run.w.counts[g] > rules.maxEntries;
      assert CountIn(rules, taken, g) > rules.maxEntries;
    }
  }
}
