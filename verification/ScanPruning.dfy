/** What is excluded does not matter to a scan: leaving it out of the collector's answers changes
    neither the listing nor the failure. */
module ScanPruning {
  import opened Texts
  import opened RelativePath
  import opened Exclude
  import opened StartPaths
  import opened ScanData
  import opened WalkSteps
  import opened WalkCounts
  import opened ScanRun
  import opened Sorting

  /** What a collector that leaves out excluded items still reports: the start itself and the rest. */
  ghost predicate Reported(rules: Rules, base: string, rel: string) {
    rel == "" || !rules.ctx.Excluded(JoinPath(base, rel))
  }

  ghost function ReportedEntry(rules: Rules, base: string): RawEntry -> bool {
    (e: RawEntry) => Reported(rules, base, e.path)
  }

  ghost function ReportedDir(rules: Rules, base: string): UnreadableDir -> bool {
    (d: UnreadableDir) => Reported(rules, base, d.path)
  }

  ghost function ReportedPath(rules: Rules, base: string): string -> bool {
    (p: string) => Reported(rules, base, p)
  }

  ghost function ReportedItem(rules: Rules, base: string): Item -> bool {
    (i: Item) => Reported(rules, base, i.Rel())
  }

  ghost function Pruned(rules: Rules, base: string, tree: Subtree): Subtree {
    Subtree(tree.start,
            Filtered(tree.entries, ReportedEntry(rules, base)),
            Filtered(tree.unreadable, ReportedDir(rules, base)),
            Filtered(tree.unreadableEntries, ReportedDir(rules, base)),
            Filtered(tree.changed, ReportedPath(rules, base)))
  }

  // ----- The items that are left -----

  lemma {:induction false} PrunedEntryItems(rules: Rules, base: string, entries: seq<RawEntry>)
    ensures EntryItems(Filtered(entries, ReportedEntry(rules, base)))
            == Filtered(EntryItems(entries), ReportedItem(rules, base))
  {
    hide Reported;
    if entries != [] {
      PrunedEntryItems(rules, base, entries[1..]);
      assert EntryItems(entries)[1..] == EntryItems(entries[1..]);
    }
  }

  lemma {:induction false} PrunedUnreadItems(rules: Rules, base: string, dirs: seq<UnreadableDir>)
    ensures UnreadItems(Filtered(dirs, ReportedDir(rules, base)))
            == Filtered(UnreadItems(dirs), ReportedItem(rules, base))
  {
    hide Reported;
    if dirs != [] {
      PrunedUnreadItems(rules, base, dirs[1..]);
      assert UnreadItems(dirs)[1..] == UnreadItems(dirs[1..]);
    }
  }

  lemma {:induction false} PrunedChangedItems(rules: Rules, base: string, paths: seq<string>)
    ensures ChangedItems(Filtered(paths, ReportedPath(rules, base)))
            == Filtered(ChangedItems(paths), ReportedItem(rules, base))
  {
    hide Reported;
    if paths != [] {
      PrunedChangedItems(rules, base, paths[1..]);
      assert ChangedItems(paths)[1..] == ChangedItems(paths[1..]);
    }
  }

  lemma PrunedOrder(rules: Rules, base: string, tree: Subtree)
    ensures InPathOrder(Pruned(rules, base, tree)) == Filtered(InPathOrder(tree), ReportedItem(rules, base))
  {
    var keep := ReportedItem(rules, base);
    PrunedEntryItems(rules, base, tree.entries);
    PrunedUnreadItems(rules, base, tree.unreadableEntries);
    PrunedChangedItems(rules, base, tree.changed);
    FilteredAppend(EntryItems(tree.entries), UnreadItems(tree.unreadableEntries), keep);
    FilteredAppend(EntryItems(tree.entries) + UnreadItems(tree.unreadableEntries), ChangedItems(tree.changed), keep);
    assert AllItems(Pruned(rules, base, tree)) == Filtered(AllItems(tree), keep);
    ItemsAreOrdered();
    FilteredSorted(AllItems(tree), ItemBefore, keep);
  }

  // ----- What is looked up about them -----

  lemma {:induction false} SameCause(rules: Rules, base: string, dirs: seq<UnreadableDir>, rel: string)
    requires Reported(rules, base, rel)
    ensures var few, all := Causes(Filtered(dirs, ReportedDir(rules, base))), Causes(dirs);
            (rel in few <==> rel in all) && (rel in all ==> few[rel] == all[rel])
  {
    hide Reported;
    if dirs != [] {
      var front, last := dirs[..|dirs| - 1], dirs[|dirs| - 1];
      SameCause(rules, base, front, rel);
      FilteredSnoc(dirs, ReportedDir(rules, base));
      var kept := Filtered(front, ReportedDir(rules, base));
      hide Filtered;
      assert (kept + [last])[..|kept|] == kept;
    }
  }

  lemma {:induction false} SameDirId(rules: Rules, base: string, start: DirId, entries: seq<RawEntry>, rel: string)
    requires Reported(rules, base, rel)
    ensures var few, all := DirIdsOf(start, Filtered(entries, ReportedEntry(rules, base))), DirIdsOf(start, entries);
            (rel in few <==> rel in all) && (rel in all ==> few[rel] == all[rel])
  {
    hide Reported;
    if entries != [] {
      var front, last := entries[..|entries| - 1], entries[|entries| - 1];
      SameDirId(rules, base, start, front, rel);
      FilteredSnoc(entries, ReportedEntry(rules, base));
      var kept := Filtered(front, ReportedEntry(rules, base));
      hide Filtered;
      assert (kept + [last])[..|kept|] == kept;
    }
  }

  /** The directories above what is not excluded are not excluded. */
  lemma AboveIsReported(rules: Rules, base: string, path: string, k: nat)
    requires EscapesElements(rules.ctx.escape)
    requires k < |path| && path[k] == SLASH && !rules.ctx.Excluded(JoinPath(base, path))
    ensures Reported(rules, base, path[..k])
  {
    if k > 0 && rules.ctx.Excluded(JoinPath(base, path[..k])) {
      assert path == path[..k] + "/" + path[k + 1..];
      assert IsWithin(JoinPath(base, path), JoinPath(base, path[..k]));
      ExcludedBelow(rules.ctx, JoinPath(base, path), JoinPath(base, path[..k]));
      assert false;
    }
  }

  lemma {:induction false} SameParents(rules: Rules, base: string, tree: Subtree, path: string, n: nat)
    requires EscapesElements(rules.ctx.escape)
    requires n <= |path| && !rules.ctx.Excluded(JoinPath(base, path))
    ensures ParentIdsUpTo(path, DirIds(Pruned(rules, base, tree)), n) == ParentIdsUpTo(path, DirIds(tree), n)
  {
    hide EscapesElements, DirIdsOf, Filtered;
    if n == 0 {
      SameDirId(rules, base, tree.start.id, tree.entries, "");
    } else {
      SameParents(rules, base, tree, path, n - 1);
      if path[n - 1] == SLASH {
        AboveIsReported(rules, base, path, n - 1);
        SameDirId(rules, base, tree.start.id, tree.entries, path[..n - 1]);
      }
    }
  }

  // ----- Taking the items -----

  /** The same visit without what is excluded. */
  ghost function PrunedVisit(rules: Rules, visit: Visit): Visit {
    visit.(tree := Pruned(rules, visit.base, visit.tree))
  }

  lemma SameItem(rules: Rules, w: WalkState, visit: Visit, item: Item)
    requires EscapesElements(rules.ctx.escape)
    requires visit.counter < |w.counts|
    ensures TakeItem(rules, w, PrunedVisit(rules, visit), item) == TakeItem(rules, w, visit, item)
  {
    hide EscapesElements, Filtered, ListDirectory, TakeLeafCounted, DirIds;
    if !Passed(rules, visit.base, item) && item.EntryItem? {
      SameCause(rules, visit.base, visit.tree.unreadable, item.entry.path);
      SameParents(rules, visit.base, visit.tree, item.entry.path, |item.entry.path|);
      hide Causes, Passed, ParentIdsUpTo;
      assert Chain(PrunedVisit(rules, visit), item.entry) == Chain(visit, item.entry);
    }
  }

  lemma {:induction false} SameItems(rules: Rules, w: WalkState, visit: Visit, items: seq<Item>)
    requires EscapesElements(rules.ctx.escape)
    requires visit.counter < |w.counts|
    ensures TakeItems(rules, w, PrunedVisit(rules, visit), Filtered(items, ReportedItem(rules, visit.base)))
         == TakeItems(rules, w, visit, items)
    decreases |items|
  {
    hide EscapesElements, PrunedVisit, TakeDirectory, TakeLeaf;
    if items != [] && !Stopped(w) {
      var keep := ReportedItem(rules, visit.base);
      var kept := Filtered(items[1..], keep);
      assert items == [items[0]] + items[1..];
      FilteredCons(items[0], items[1..], keep);
      var step := TakeItem(rules, w, visit, items[0]);
      if keep(items[0]) {
        assert Filtered(items, keep) == [items[0]] + kept;
        assert ([items[0]] + kept)[1..] == kept;
        SameItem(rules, w, visit, items[0]);
        hide TakeItem;
        if step.Goes? {
          SameItems(rules, step.w, visit, items[1..]);
        }
      } else {
        assert Filtered(items, keep) == kept;
        assert Passed(rules, visit.base, items[0]);
        SameItems(rules, w, visit, items[1..]);
      }
    }
  }

  lemma PruningKeepsSubtree(rules: Rules, w: WalkState, visit: Visit)
    requires EscapesElements(rules.ctx.escape)
    requires visit.counter < |w.counts|
    ensures TakeSubtree(rules, w, PrunedVisit(rules, visit)) == TakeSubtree(rules, w, visit)
  {
    PrunedOrder(rules, visit.base, visit.tree);
    SameItems(rules, w, visit, InPathOrder(visit.tree));
    SameCause(rules, visit.base, visit.tree.unreadable, "");
    FilteredMembers(visit.tree.changed, ReportedPath(rules, visit.base), "");
    hide EscapesElements, TakeItems, InPathOrder, Causes, Filtered;
  }

  // ----- Collectors that differ only in what is excluded -----

  ghost predicate AlikeTrees(rules: Rules, base: string, a: Subtree, b: Subtree) {
    Pruned(rules, base, a) == Pruned(rules, base, b)
  }

  ghost predicate AlikeAnswers(rules: Rules, base: string, a: Answer, b: Answer) {
    && a.reached == b.reached && a.link == b.link
    && a.subtree.Some? == b.subtree.Some?
    && (a.subtree.Some? ==> AlikeTrees(rules, base, a.subtree.value, b.subtree.value))
  }

  ghost predicate AlikeLists(rules: Rules, questions: seq<Question>, a: seq<Answer>, b: seq<Answer>) {
    |a| == |b| && forall i :: 0 <= i < |questions| && i < |a| ==> AlikeAnswers(rules, questions[i].path, a[i], b[i])
  }

  /** The collectors always answer the same, apart from excluded items. */
  ghost predicate AlikeCollectors(rules: Rules, a: Collector, b: Collector) {
    forall n, questions ::
      if a(n, questions).Answers? then
        b(n, questions).Answers? && AlikeLists(rules, questions, a(n, questions).answers, b(n, questions).answers)
      else b(n, questions) == a(n, questions)
  }

  lemma AlikeSubtrees(rules: Rules, w: WalkState, base: string, a: Subtree, b: Subtree, ancestors: seq<DirId>,
                      counter: nat)
    requires EscapesElements(rules.ctx.escape)
    requires counter < |w.counts| && AlikeTrees(rules, base, a, b)
    ensures TakeSubtree(rules, w, Visit(base, a, ancestors, counter))
            == TakeSubtree(rules, w, Visit(base, b, ancestors, counter))
    ensures a.start == b.start
  {
    PruningKeepsSubtree(rules, w, Visit(base, a, ancestors, counter));
    PruningKeepsSubtree(rules, w, Visit(base, b, ancestors, counter));
    hide EscapesElements, TakeSubtree, Filtered;
  }

  lemma AlikeLinks(rules: Rules, w: WalkState, link: PendingLink, a: Answer, b: Answer)
    requires EscapesElements(rules.ctx.escape)
    requires Indexed(w, link) && link.counter < |w.counts| && AlikeAnswers(rules, link.path, a, b)
    ensures TakeLink(rules, w, link, a) == TakeLink(rules, w, link, b)
  {
    hide EscapesElements, TakeSubtree, AlikeTrees, Point;
    var step := PointLink(rules, w, link, a);
    if step.Goes? && a.subtree.Some? {
      PointLinkGrows(rules, w, link, a);
      AlikeSubtrees(rules, step.w, link.path, a.subtree.value, b.subtree.value, link.ancestors, link.counter);
    }
  }

  lemma AlikeStarts(rules: Rules, w: WalkState, start: StartPath, a: Answer, b: Answer, root: DirId)
    requires EscapesElements(rules.ctx.escape)
    requires start.group < |w.counts| && AlikeAnswers(rules, start.path, a, b)
    ensures TakeStart(rules, w, start, a, root) == TakeStart(rules, w, start, b, root)
  {
    hide EscapesElements, TakeItself, TakeValue, TakeBelow, AlikeTrees;
    if start.withSelf && !start.descend {
      hide *;
      AlikeItself(rules, w, start.path, a, b, root, start.group);
    } else if start.withSelf {
      AlikeValues(rules, w, start.path, a, b, root, start.group);
    } else {
      AlikeBelow(rules, w, start, a, b, root);
    }
  }

  lemma AlikeItself(rules: Rules, w: WalkState, path: string, a: Answer, b: Answer, root: DirId, counter: nat)
    requires counter < |w.counts| && a.reached == b.reached && a.link == b.link
    ensures TakeItself(rules, w, path, a, root, counter) == TakeItself(rules, w, path, b, root, counter)
  {
    hide TakeLeafCounted, Point, ListDirectory;
  }

  lemma AlikeValues(rules: Rules, w: WalkState, path: string, a: Answer, b: Answer, root: DirId, counter: nat)
    requires EscapesElements(rules.ctx.escape)
    requires counter < |w.counts| && AlikeAnswers(rules, path, a, b)
    ensures TakeValue(rules, w, path, a, root, counter) == TakeValue(rules, w, path, b, root, counter)
  {
    if a.subtree.Some? {
      AlikeSubtrees(rules, w, path, a.subtree.value, b.subtree.value, [root], counter);
    }
    if a.reached.Entry? {
      var entry := a.reached.entry;
      LeafGrows(rules, w, path, entry, [root], Some(counter));
      var leaf := TakeLeafCounted(rules, w, path, entry, [root], Some(counter));
      if leaf.LeafGoes? && leaf.link.Some? {
        assert Indexed(leaf.w, leaf.link.value);
        assert |leaf.w.counts| == |w.counts|;
        AlikeLinks(rules, leaf.w, leaf.link.value, a, b);
      }
    }
    hide EscapesElements, TakeLeafCounted, TakeSubtree, TakeLink, AlikeTrees, Grows;
  }

  lemma AlikeBelow(rules: Rules, w: WalkState, start: StartPath, a: Answer, b: Answer, root: DirId)
    requires EscapesElements(rules.ctx.escape)
    requires start.group < |w.counts| && AlikeAnswers(rules, start.path, a, b)
    ensures TakeBelow(rules, w, start, a, root) == TakeBelow(rules, w, start, b, root)
  {
    hide EscapesElements, Place, TakeSubtree, TakeLink, AlikeTrees;
    if a.reached.Entry? {
      AlikeLinks(rules, w, PendingLink(start.path, [root], start.group, NotListed), a, b);
      if a.subtree.Some? {
        AlikeSubtrees(rules, w, start.path, a.subtree.value, b.subtree.value, [root], start.group);
        var listed := ListDirectory(rules, w, start.path, a.subtree.value.start);
        PlaceGrows(rules, w, start.path, a.subtree.value.start, ListedDirectory);
        if listed.Goes? {
          AlikeSubtrees(rules, listed.w, start.path, a.subtree.value, b.subtree.value, [root], start.group);
        }
      }
    }
  }

  lemma {:induction false} AlikeStartLists(rules: Rules, w: WalkState, starts: seq<StartPath>, a: seq<Answer>,
                                           b: seq<Answer>, root: DirId, k: nat)
    requires EscapesElements(rules.ctx.escape)
    requires k <= |starts| == |a| == |b| && StartsCounted(starts, |w.counts|)
    requires forall i :: 0 <= i < |starts| ==> AlikeAnswers(rules, starts[i].path, a[i], b[i])
    ensures TakeStarts(rules, w, starts, a, root, k) == TakeStarts(rules, w, starts, b, root, k)
    decreases |starts| - k
  {
    hide EscapesElements, TakeStart, AlikeAnswers;
    if k < |starts| {
      AlikeStarts(rules, w, starts[k], a[k], b[k], root);
      var step := TakeStart(rules, w, starts[k], a[k], root);
      if step.Goes? {
        AlikeStartLists(rules, step.w, starts, a, b, root, k + 1);
      }
    }
  }

  lemma AlikeByStart(rules: Rules, whole: bool, starts: seq<StartPath>, a: seq<Answer>, b: seq<Answer>)
    requires |a| == |b| == 1 + |starts| && AlikeLists(rules, FirstQuestions(whole, starts), a, b)
    ensures AlikeAnswers(rules, "", a[0], b[0])
    ensures forall i :: 0 <= i < |starts| ==> AlikeAnswers(rules, starts[i].path, a[1..][i], b[1..][i])
  {
    hide AlikeAnswers;
    var questions := FirstQuestions(whole, starts);
    assert questions[0].path == "";
    forall i | 0 <= i < |starts| ensures AlikeAnswers(rules, starts[i].path, a[1..][i], b[1..][i]) {
      assert questions[i + 1].path == starts[i].path;
    }
  }

  lemma AlikeFirst(rules: Rules, whole: bool, starts: seq<StartPath>, a: seq<Answer>, b: seq<Answer>, root: DirId)
    requires EscapesElements(rules.ctx.escape)
    requires |a| == 1 + |starts| && AlikeLists(rules, FirstQuestions(whole, starts), a, b)
    ensures TakeFirst(rules, whole, starts, a, root) == TakeFirst(rules, whole, starts, b, root)
  {
    AlikeByStart(rules, whole, starts, a, b);
    hide EscapesElements, TakeStarts, TakeSubtree, AlikeTrees, AlikeLists, FirstQuestions;
    var w := Empty(Counters(starts));
    if a[0].subtree.Some? {
      AlikeSubtrees(rules, w, "", a[0].subtree.value, b[0].subtree.value, [], 0);
    }
    var first := if whole then TakeWhole(rules, w, a[0]) else Goes(w);
    if first.Goes? {
      AlikeStartLists(rules, first.w, starts, a[1..], b[1..], root, 0);
    }
  }

  lemma {:induction false} AlikeLinkLists(rules: Rules, w: WalkState, links: seq<PendingLink>, a: seq<Answer>,
                                          b: seq<Answer>, k: nat)
    requires EscapesElements(rules.ctx.escape)
    requires k <= |links| == |a| == |b| && Placed(w.entries, |w.counts|, links)
    requires forall i :: 0 <= i < |links| ==> AlikeAnswers(rules, links[i].path, a[i], b[i])
    ensures TakeLinks(rules, w, links, a, k) == TakeLinks(rules, w, links, b, k)
    decreases |links| - k
  {
    hide EscapesElements, TakeLink, AlikeAnswers, Bounded;
    if k < |links| {
      assert OwnEntry(w.entries, links[k]);
      AlikeLinks(rules, w, links[k], a[k], b[k]);
      var step := TakeLink(rules, w, links[k], a[k]);
      if step.Goes? {
        TakeLinkGrows(rules, w, links[k], a[k]);
        StaysPlaced(w.entries, step.w.entries, |w.counts|, links);
        AlikeLinkLists(rules, step.w, links, a, b, k + 1);
      }
    }
  }

  /** How the run ended, without its rounds. */
  ghost predicate SameEnd(a: Run, b: Run) {
    if a.Finished? then b.Finished? && a.w == b.w && |a.rounds| == |b.rounds| else b == a
  }

  lemma AlikeAsked(rules: Rules, a: Collector, b: Collector, n: nat, questions: seq<Question>)
    requires AlikeCollectors(rules, a, b)
    ensures var x, y := Ask(a, n, questions), Ask(b, n, questions);
            if x.Got? then y.Got? && AlikeLists(rules, questions, x.answers, y.answers) else y == x
  {
    hide AlikeAnswers;
    assert a(n, questions).Answers? ==> b(n, questions).Answers?;
  }

  lemma {:induction false} AlikeRounds(rules: Rules, a: Collector, b: Collector, w: WalkState, aRounds: seq<Round>,
                                       bRounds: seq<Round>)
    requires EscapesElements(rules.ctx.escape)
    requires Fair(rules, w) && |aRounds| == |bRounds| && AlikeCollectors(rules, a, b)
    ensures SameEnd(Rounds(rules, a, w, aRounds), Rounds(rules, b, w, bRounds))
    decreases Room(rules, w)
  {
    hide EscapesElements, Bounded, AlikeAnswers, Ask, Sum, TakeLinks, AlikeCollectors;
    if !Resting(w) {
      var questions := LinkQuestions(w.pending);
      AlikeAsked(rules, a, b, 1 + |aRounds|, questions);
      var x, y := Ask(a, 1 + |aRounds|, questions), Ask(b, 1 + |aRounds|, questions);
      if x.Got? {
        forall i | 0 <= i < |w.pending| ensures AlikeAnswers(rules, w.pending[i].path, x.answers[i], y.answers[i]) {
          assert AlikeAnswers(rules, questions[i].path, x.answers[i], y.answers[i]);
        }
        AlikeLinkLists(rules, w.(pending := []), w.pending, x.answers, y.answers, 0);
        var step := TakeRound(rules, w, x.answers);
        if step.Goes? {
          RoundCounts(rules, w, x.answers);
          RoomShrinks(rules, w, step.w);
          hide TakeRound, Placed, Fair;
          AlikeRounds(rules, a, b, step.w, aRounds + [Round(w.pending, x.answers)],
                      bRounds + [Round(w.pending, y.answers)]);
        }
      }
    }
  }

  /** Two collectors that differ only in excluded items give the same scan: the same walk, or the same
      failure, after as many batches. */
  lemma ExcludedDoesNotMatter(rules: Rules, a: Collector, b: Collector, whole: bool, starts: seq<StartPath>)
    requires EscapesElements(rules.ctx.escape) && AlikeCollectors(rules, a, b)
    ensures SameEnd(Scan(rules, a, whole, starts), Scan(rules, b, whole, starts))
  {
    hide EscapesElements, AlikeCollectors, Rounds, TakeFirst, Ask, FirstQuestions;
    var questions := FirstQuestions(whole, starts);
    AlikeAsked(rules, a, b, 0, questions);
    var x, y := Ask(a, 0, questions), Ask(b, 0, questions);
    if x.Got? {
      assert RootIdentity(y.answers[0]) == RootIdentity(x.answers[0]) by {
        assert AlikeAnswers(rules, questions[0].path, x.answers[0], y.answers[0]);
      }
      hide RootIdentity;
      var id := RootIdentity(x.answers[0]);
      if id.RootFound? {
        AlikeFirst(rules, whole, starts, x.answers, y.answers, id.id);
        FirstIsFair(rules, whole, starts, x.answers, id.id);
        var first := TakeFirst(rules, whole, starts, x.answers, id.id);
        if first.Goes? {
          AlikeRounds(rules, a, b, first.w, [], []);
        }
      }
    }
  }

  // ----- A collector and its pruned form -----

  ghost function PrunedAnswer(rules: Rules, base: string, answer: Answer): Answer {
    if answer.subtree.Some? then answer.(subtree := Some(Pruned(rules, base, answer.subtree.value))) else answer
  }

  ghost function PrunedCollected(rules: Rules, questions: seq<Question>, collected: Collected): Collected {
    if collected.Answers? && |collected.answers| == |questions| then
      Answers(seq(|questions|,
                  i requires 0 <= i < |questions| => PrunedAnswer(rules, questions[i].path, collected.answers[i])))
    else collected
  }

  /** The collector that leaves out of its answers what is excluded. */
  ghost function PrunedCollector(rules: Rules, collector: Collector): Collector {
    (n: nat, questions: seq<Question>) => PrunedCollected(rules, questions, collector(n, questions))
  }

  lemma {:induction false} FilteredTwice<T>(values: seq<T>, keep: T -> bool)
    ensures Filtered(Filtered(values, keep), keep) == Filtered(values, keep)
  {
    if values != [] {
      var first, rest := values[0], values[1..];
      FilteredTwice(rest, keep);
      FilteredCons(first, rest, keep);
      FilteredCons(first, Filtered(rest, keep), keep);
      assert values == [first] + rest;
      if keep(first) {
        assert Filtered(values, keep) == [first] + Filtered(rest, keep);
      } else {
        assert Filtered(values, keep) == Filtered(rest, keep);
      }
    }
  }

  lemma PrunedTwice(rules: Rules, base: string, tree: Subtree)
    ensures AlikeTrees(rules, base, tree, Pruned(rules, base, tree))
  {
    FilteredTwice(tree.entries, ReportedEntry(rules, base));
    FilteredTwice(tree.unreadable, ReportedDir(rules, base));
    FilteredTwice(tree.unreadableEntries, ReportedDir(rules, base));
    FilteredTwice(tree.changed, ReportedPath(rules, base));
  }

  lemma PrunedIsAlike(rules: Rules, collector: Collector)
    ensures AlikeCollectors(rules, collector, PrunedCollector(rules, collector))
  {
    hide Pruned, AlikeTrees;
    forall n: nat, questions: seq<Question> | collector(n, questions).Answers?
      ensures PrunedCollector(rules, collector)(n, questions).Answers?
      ensures AlikeLists(rules, questions, collector(n, questions).answers,
                         PrunedCollector(rules, collector)(n, questions).answers)
    {
      var answers := collector(n, questions).answers;
      if |answers| == |questions| {
        forall i | 0 <= i < |questions| && answers[i].subtree.Some?
          ensures AlikeTrees(rules, questions[i].path, answers[i].subtree.value,
                    Pruned(rules, questions[i].path, answers[i].subtree.value))
        {
          PrunedTwice(rules, questions[i].path, answers[i].subtree.value);
        }
      } else {
        AlikeToItself(rules, questions, answers);
      }
    }
  }

  lemma AlikeToItself(rules: Rules, questions: seq<Question>, answers: seq<Answer>)
    ensures AlikeLists(rules, questions, answers, answers)
  {
  }

  /** A collector may descend into excluded directories or leave them out. */
  lemma PruningChangesNothing(rules: Rules, collector: Collector, whole: bool, starts: seq<StartPath>)
    requires EscapesElements(rules.ctx.escape)
    ensures SameEnd(Scan(rules, collector, whole, starts),
              Scan(rules, PrunedCollector(rules, collector), whole, starts))
  {
    PrunedIsAlike(rules, collector);
    ExcludedDoesNotMatter(rules, collector, PrunedCollector(rules, collector), whole, starts);
  }
}
