/** What every step of a walk keeps: the limit of each group, and the place of each link that waits. */
module WalkCounts {
  import opened Texts
  import opened StartPaths
  import opened ScanData
  import opened WalkSteps

  function Sum(counts: seq<nat>): nat {
    if counts == [] then 0 else Sum(counts[..|counts| - 1]) + counts[|counts| - 1]
  }

  lemma {:induction false} SumOfUpdate(counts: seq<nat>, i: nat, n: nat)
    requires i < |counts|
    ensures Sum(counts[i := n]) == Sum(counts) - counts[i] + n
  {
    var front := counts[..|counts| - 1];
    if i == |counts| - 1 {
      assert counts[i := n][..i] == front;
    } else {
      SumOfUpdate(front, i, n);
      assert counts[i := n][..|counts| - 1] == front[i := n];
    }
  }

  lemma {:induction false} SumAtMost(counts: seq<nat>, most: nat)
    requires forall i :: 0 <= i < |counts| ==> counts[i] <= most
    ensures Sum(counts) <= |counts| * most
  {
    if counts != [] {
      SumAtMost(counts[..|counts| - 1], most);
      assert |counts| * most == (|counts| - 1) * most + most;
    }
  }

  ghost predicate WithinLimit(counts: seq<nat>, most: nat) {
    forall i :: 0 <= i < |counts| ==> counts[i] <= most
  }

  /** One group has counted one entry more than the limit, and no other group has. */
  ghost predicate OneOver(counts: seq<nat>, most: nat) {
    exists g :: 0 <= g < |counts| && counts[g] == most + 1 && forall i :: 0 <= i < |counts| && i != g ==>
      counts[i] <= most
  }

  /** The walk is truncated exactly when one single group went over the limit, by one entry. */
  ghost predicate Bounded(rules: Rules, w: WalkState) {
    if w.truncated then OneOver(w.counts, rules.maxEntries) else WithinLimit(w.counts, rules.maxEntries)
  }

  lemma TruncatedExactlyWhenOver(rules: Rules, w: WalkState)
    requires Bounded(rules, w)
    ensures w.truncated <==> OneOver(w.counts, rules.maxEntries)
    ensures !w.truncated <==> WithinLimit(w.counts, rules.maxEntries)
  {
  }

  // ----- Links stay where they were put -----

  /** The entry before its link target is known. */
  function Unpointed(e: ListedEntry): ListedEntry {
    if e.kind.ListedSymlink? then e.(kind := e.kind.(pointsTo := PointsToFile)) else e
  }

  /** The link's index is that of the symlink with its own path. */
  ghost predicate OwnEntry(entries: seq<ListedEntry>, link: PendingLink) {
    link.listed.At? ==>
      var i := link.listed.index;
      i < |entries| && entries[i].kind.ListedSymlink? && entries[i].path == link.path
  }

  ghost predicate Rising(links: seq<PendingLink>) {
    forall i, j :: 0 <= i < j < |links| && links[i].listed.At? && links[j].listed.At? ==>
      links[i].listed.index < links[j].listed.index
  }

  /** Each link stands at an entry and a counter of its own walk, no two at the same entry. */
  ghost predicate Placed(entries: seq<ListedEntry>, counters: nat, links: seq<PendingLink>) {
    && (forall i :: 0 <= i < |links| ==> OwnEntry(entries, links[i]) && links[i].counter < counters)
    && Rising(links)
  }

  /** The entries only grow, apart from what links point to. */
  ghost predicate Extends(before: seq<ListedEntry>, after: seq<ListedEntry>) {
    |before| <= |after| && forall i :: 0 <= i < |before| ==> Unpointed(after[i]) == Unpointed(before[i])
  }

  lemma StaysPlaced(before: seq<ListedEntry>, after: seq<ListedEntry>, counters: nat, links: seq<PendingLink>)
    requires Extends(before, after) && Placed(before, counters, links)
    ensures Placed(after, counters, links)
  {
    forall i | 0 <= i < |links| ensures OwnEntry(after, links[i]) {
      assert OwnEntry(before, links[i]);
      if links[i].listed.At? {
        assert Unpointed(after[links[i].listed.index]) == Unpointed(before[links[i].listed.index]);
      }
    }
  }

  /** What a take may do to a walk. */
  ghost predicate Grows(rules: Rules, w: WalkState, t: WalkState) {
    && |t.counts| == |w.counts|
    && (Bounded(rules, w) ==> Bounded(rules, t))
    && Extends(w.entries, t.entries)
    && w.pending <= t.pending
    && Sum(w.counts) + (|t.pending| - |w.pending|) <= Sum(t.counts)
    && (Placed(w.entries, |w.counts|, w.pending) ==> Placed(t.entries, |t.counts|, t.pending))
  }

  lemma GrowsIsTransitive(rules: Rules, a: WalkState, b: WalkState, c: WalkState)
    requires Grows(rules, a, b) && Grows(rules, b, c)
    ensures Grows(rules, a, c)
  {
    hide Bounded, Placed, Sum, Unpointed;
    forall i | 0 <= i < |a.entries| ensures Unpointed(c.entries[i]) == Unpointed(a.entries[i]) {
      assert Unpointed(b.entries[i]) == Unpointed(a.entries[i]);
    }
  }

  lemma SameCountsGrow(rules: Rules, w: WalkState, t: WalkState)
    requires t.counts == w.counts && t.truncated == w.truncated && t.pending == w.pending
    requires Extends(w.entries, t.entries)
    ensures Grows(rules, w, t)
  {
    if Placed(w.entries, |w.counts|, w.pending) {
      StaysPlaced(w.entries, t.entries, |w.counts|, w.pending);
    }
    hide Placed, Sum, Extends;
  }

  lemma CountGrows(rules: Rules, w: WalkState, counter: nat)
    requires counter < |w.counts| && !w.truncated
    ensures Grows(rules, w, Count(rules, w, counter))
    ensures Sum(Count(rules, w, counter).counts) == Sum(w.counts) + 1
  {
    SumOfUpdate(w.counts, counter, w.counts[counter] + 1);
    var t := Count(rules, w, counter);
    if Bounded(rules, w) {
      if t.truncated {
        assert t.counts[counter] == rules.maxEntries + 1;
      }
    }
    hide Sum, Placed;
  }

  ghost predicate ListedLast(w: WalkState, t: WalkState, path: string, kind: ListedKind) {
    && |t.entries| == |w.entries| + 1 && t.entries[..|w.entries|] == w.entries
    && t.entries[|w.entries|].path == path && t.entries[|w.entries|].kind == kind
  }

  lemma PlaceGrows(rules: Rules, w: WalkState, path: string, entry: RawEntry, kind: ListedKind)
    ensures var step := Place(rules, w, path, entry, kind);
            step.Goes? ==>
              && Grows(rules, w, step.w)
              && step.w.pending == w.pending && step.w.counts == w.counts
              && (rules.isUtf8(path) ==> ListedLast(w, step.w, path, kind))
  {
    var step := Place(rules, w, path, entry, kind);
    if step.Goes? {
      SameCountsGrow(rules, w, step.w);
    }
    hide Grows;
  }

  /** A leaf that waits was counted, and stands at the entry that was just listed. */
  lemma LeafGrows(rules: Rules, w: WalkState, path: string, entry: RawEntry, ancestors: seq<DirId>,
                  counter: Option<nat>)
    requires counter.Some? ==> counter.value < |w.counts|
    ensures var step := TakeLeafCounted(rules, w, path, entry, ancestors, counter);
            step.LeafGoes? ==>
              && Grows(rules, w, step.w) && step.w.pending == w.pending
              && (step.link.Some? ==>
                    && step.link.value.path == path && step.link.value.ancestors == ancestors
                    && (counter.Some? ==>
                          step.link.value.counter == counter.value && Sum(step.w.counts) == Sum(w.counts) + 1)
                    && OwnEntry(step.w.entries, step.link.value)
                    && (step.link.value.listed.At? ==> step.link.value.listed.index == |w.entries|))
  {
    var step := TakeLeafCounted(rules, w, path, entry, ancestors, counter);
    if step.LeafGoes? && !(counter.Some? && Stopped(w)) {
      var counted := if counter.Some? then Count(rules, w, counter.value) else w;
      if counter.Some? {
        CountGrows(rules, w, counter.value);
      } else {
        SameCountsGrow(rules, w, w);
      }
      PlaceGrows(rules, counted, path, entry, LeafKind(entry.kind));
      if !(counter.Some? && counted.truncated) {
        GrowsIsTransitive(rules, w, counted, step.w);
      }
    } else if step.LeafGoes? {
      SameCountsGrow(rules, w, w);
    }
    hide Grows, Sum, Place;
  }

  lemma TakeLeafGrows(rules: Rules, w: WalkState, visit: Visit, path: string, entry: RawEntry)
    requires visit.counter < |w.counts|
    ensures var step := TakeLeaf(rules, w, visit, path, entry); step.Goes? ==> Grows(rules, w, step.w)
  {
    var ancestors := if entry.kind.RawSymlink? then Chain(visit, entry) else [];
    var leaf := TakeLeafCounted(rules, w, path, entry, ancestors, Some(visit.counter));
    LeafGrows(rules, w, path, entry, ancestors, Some(visit.counter));
    hide TakeLeafCounted, Chain;
    if leaf.LeafGoes? && leaf.link.Some? {
      WaitingIsPlaced(w, leaf.w, leaf.link.value);
      hide Placed, Sum, Bounded, Extends;
    }
  }

  lemma WaitingIsPlaced(w: WalkState, t: WalkState, link: PendingLink)
    requires Extends(w.entries, t.entries) && |t.counts| == |w.counts| && t.pending == w.pending
    requires OwnEntry(t.entries, link) && link.counter < |t.counts|
    requires link.listed.At? ==> link.listed.index == |w.entries|
    ensures Placed(w.entries, |w.counts|, w.pending) ==> Placed(t.entries, |t.counts|, t.pending + [link])
  {
    if Placed(w.entries, |w.counts|, w.pending) {
      StaysPlaced(w.entries, t.entries, |w.counts|, w.pending);
      forall i | 0 <= i < |w.pending| && w.pending[i].listed.At? ensures w.pending[i].listed.index < |w.entries| {
        assert OwnEntry(w.entries, w.pending[i]);
      }
    }
    hide OwnEntry;
  }

  lemma TakeItemGrows(rules: Rules, w: WalkState, visit: Visit, item: Item)
    requires visit.counter < |w.counts|
    ensures var step := TakeItem(rules, w, visit, item); step.Goes? ==> Grows(rules, w, step.w)
  {
    var path := JoinPath(visit.base, item.Rel());
    SameCountsGrow(rules, w, w);
    SameCountsGrow(rules, w, w.(cycle := Some(rules.ctx.escape(path))));
    if item.EntryItem? {
      PlaceGrows(rules, w, path, item.entry, ListedDirectory);
      TakeLeafGrows(rules, w, visit, path, item.entry);
    }
    hide Grows, Place, TakeLeaf, Passed;
  }

  lemma {:induction false} TakeItemsGrows(rules: Rules, w: WalkState, visit: Visit, items: seq<Item>)
    requires visit.counter < |w.counts|
    ensures var step := TakeItems(rules, w, visit, items); step.Goes? ==> Grows(rules, w, step.w)
    decreases |items|
  {
    hide Grows, TakeItem;
    SameCountsGrow(rules, w, w);
    if items != [] && !Stopped(w) {
      var step := TakeItem(rules, w, visit, items[0]);
      if step.Goes? {
        TakeItemGrows(rules, w, visit, items[0]);
        TakeItemsGrows(rules, step.w, visit, items[1..]);
        var after := TakeItems(rules, step.w, visit, items[1..]);
        if after.Goes? {
          GrowsIsTransitive(rules, w, step.w, after.w);
        }
      }
    }
  }

  lemma TakeSubtreeGrows(rules: Rules, w: WalkState, visit: Visit)
    requires visit.counter < |w.counts|
    ensures var step := TakeSubtree(rules, w, visit); step.Goes? ==> Grows(rules, w, step.w)
  {
    SameCountsGrow(rules, w, w.(cycle := Some(rules.ctx.escape(visit.base))));
    TakeItemsGrows(rules, w, visit, InPathOrder(visit.tree));
    hide Grows, TakeItems, Causes;
  }

  lemma PointGrows(rules: Rules, w: WalkState, link: PendingLink, point: LinkPoint)
    requires Indexed(w, link)
    ensures Grows(rules, w, Point(w, link, point))
  {
    SameCountsGrow(rules, w, Point(w, link, point));
  }

  lemma PointLinkGrows(rules: Rules, w: WalkState, link: PendingLink, answer: Answer)
    requires Indexed(w, link)
    ensures var step := PointLink(rules, w, link, answer); step.Goes? ==> Grows(rules, w, step.w)
  {
    PointGrows(rules, w, link, PointsToDirectory);
    PointGrows(rules, w, link, PointsToNothing);
    PointGrows(rules, w, link, PointsToOther);
    PointGrows(rules, w, link, PointsNowhere);
    SameCountsGrow(rules, w, w);
    SameCountsGrow(rules, w, w.(unresolvableNames := w.unresolvableNames + [rules.ctx.escape(link.path)]));
    hide Grows, Point;
  }

  lemma TakeLinkGrows(rules: Rules, w: WalkState, link: PendingLink, answer: Answer)
    requires Indexed(w, link) && link.counter < |w.counts|
    ensures var step := TakeLink(rules, w, link, answer); step.Goes? ==> Grows(rules, w, step.w)
  {
    PointLinkGrows(rules, w, link, answer);
    var step := PointLink(rules, w, link, answer);
    if step.Goes? && answer.link == Some(ToDirectory) && answer.subtree.Some? {
      assert |step.w.counts| == |w.counts|;
      var visit := Visit(link.path, answer.subtree.value, link.ancestors, link.counter);
      TakeSubtreeGrows(rules, step.w, visit);
      var after := TakeSubtree(rules, step.w, visit);
      if after.Goes? {
        GrowsIsTransitive(rules, w, step.w, after.w);
      }
    }
    hide Grows, PointLink, TakeSubtree;
  }

  lemma TakeStartGrows(rules: Rules, w: WalkState, start: StartPath, answer: Answer, root: DirId)
    requires start.group < |w.counts|
    ensures var step := TakeStart(rules, w, start, answer, root); step.Goes? ==> Grows(rules, w, step.w)
  {
    hide Grows, TakeItself, TakeValue, TakeBelow;
    if start.withSelf && !start.descend {
      TakeItselfGrows(rules, w, start.path, answer, root, start.group);
    } else if start.withSelf {
      TakeValueGrows(rules, w, start.path, answer, root, start.group);
    } else {
      TakeBelowGrows(rules, w, start, answer, root);
    }
  }

  lemma TakeItselfGrows(rules: Rules, w: WalkState, path: string, answer: Answer, root: DirId, counter: nat)
    requires counter < |w.counts|
    ensures var step := TakeItself(rules, w, path, answer, root, counter); step.Goes? ==> Grows(rules, w, step.w)
  {
    SameCountsGrow(rules, w, w);
    if answer.reached.Entry? {
      var entry := answer.reached.entry;
      PlaceGrows(rules, w, path, entry, ListedDirectory);
      var group := if answer.link == Some(ToDirectory) then None else Some(counter);
      LeafGrows(rules, w, path, entry, [root], group);
      var leaf := TakeLeafCounted(rules, w, path, entry, [root], group);
      hide Grows, TakeLeafCounted, Place, Sum;
      if leaf.LeafGoes? && leaf.link.Some? {
        PointLinkGrows(rules, leaf.w, leaf.link.value, answer);
        var after := PointLink(rules, leaf.w, leaf.link.value, answer);
        if after.Goes? {
          GrowsIsTransitive(rules, w, leaf.w, after.w);
        }
      }
      hide PointLink;
    }
  }

  lemma TakeValueGrows(rules: Rules, w: WalkState, path: string, answer: Answer, root: DirId, counter: nat)
    requires counter < |w.counts|
    ensures var step := TakeValue(rules, w, path, answer, root, counter); step.Goes? ==> Grows(rules, w, step.w)
  {
    SameCountsGrow(rules, w, w);
    if answer.reached.Entry? {
      var entry := answer.reached.entry;
      if answer.subtree.Some? {
        TakeSubtreeGrows(rules, w, Visit(path, answer.subtree.value, [root], counter));
      }
      LeafGrows(rules, w, path, entry, [root], Some(counter));
      var leaf := TakeLeafCounted(rules, w, path, entry, [root], Some(counter));
      if leaf.LeafGoes? && leaf.link.Some? {
        assert |leaf.w.counts| == |w.counts|;
        TakeLinkGrows(rules, leaf.w, leaf.link.value, answer);
        var after := TakeLink(rules, leaf.w, leaf.link.value, answer);
        if after.Goes? {
          GrowsIsTransitive(rules, w, leaf.w, after.w);
        }
      }
    }
    hide Grows, TakeLeafCounted, TakeLink, TakeSubtree, Sum;
  }

  lemma TakeBelowGrows(rules: Rules, w: WalkState, start: StartPath, answer: Answer, root: DirId)
    requires start.group < |w.counts|
    ensures var step := TakeBelow(rules, w, start, answer, root); step.Goes? ==> Grows(rules, w, step.w)
  {
    SameCountsGrow(rules, w, w);
    if answer.reached.Entry? {
      var entry := answer.reached.entry;
      TakeLinkGrows(rules, w, PendingLink(start.path, [root], start.group, NotListed), answer);
      var shown := if answer.subtree.Some? then answer.subtree.value.start else entry;
      PlaceGrows(rules, w, start.path, shown, ListedDirectory);
      var listed := ListDirectory(rules, w, start.path, shown);
      if listed.Goes? && answer.subtree.Some? {
        var visit := Visit(start.path, answer.subtree.value, [root], start.group);
        TakeSubtreeGrows(rules, listed.w, visit);
        var after := TakeSubtree(rules, listed.w, visit);
        if after.Goes? {
          GrowsIsTransitive(rules, w, listed.w, after.w);
        }
      }
    }
    hide Grows, ListDirectory, TakeLink, TakeSubtree;
  }
}
