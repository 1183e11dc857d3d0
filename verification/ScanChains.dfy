/** The directories a followed link lies in: no directory twice, so nesting is bounded by how many
    directories there are. */
module ScanChains {
  import opened Texts
  import opened RelativePath
  import opened Exclude
  import opened StartPaths
  import opened ScanData
  import opened WalkSteps
  import opened WalkCounts
  import opened ScanRun
  import opened ScanPruning
  import Sorting

  ghost predicate Distinct(ids: seq<DirId>) {
    forall i, j :: 0 <= i < j < |ids| ==> ids[i] != ids[j]
  }

  /** A chain of directories, each once, of at least `depth`. */
  ghost predicate GoodChain(chain: seq<DirId>, known: set<DirId>, depth: nat) {
    Distinct(chain) && (forall id :: id in chain ==> id in known) && |chain| >= depth
  }

  ghost predicate GoodLinks(links: seq<PendingLink>, known: set<DirId>, depth: nat) {
    forall i :: 0 <= i < |links| ==> GoodChain(links[i].ancestors, known, depth)
  }

  /** A subtree as a file system has it: relative paths, and no directory twice along a path. */
  ghost predicate TreeLike(tree: Subtree, known: set<DirId>) {
    var ids := DirIds(tree);
    && (forall e :: e in tree.entries && e.path != "" ==> e.path[0] != SLASH)
    && ids[""] == tree.start.id
    && (forall p :: p in ids ==> ids[p] in known)
    && (forall p, q :: p in ids && q in ids && q != "" && (p == "" || IsBelow(q, p)) ==> ids[p] != ids[q])
  }

  ghost predicate TreeLikeAnswer(answer: Answer, known: set<DirId>) {
    && (answer.reached.Entry? ==> answer.reached.entry.id in known)
    && (answer.subtree.Some? ==> TreeLike(answer.subtree.value, known))
  }

  ghost predicate TreeLikeAnswers(answers: seq<Answer>, known: set<DirId>) {
    forall i :: 0 <= i < |answers| ==> TreeLikeAnswer(answers[i], known)
  }

  /** Every answer of the collector is like a file system whose directories are `known`. */
  ghost predicate TreeLikeCollector(collector: Collector, known: set<DirId>) {
    forall n, questions :: collector(n, questions).Answers? ==> TreeLikeAnswers(collector(n, questions).answers, known)
  }

  // ----- The directories above an entry -----

  /** `p` is the start or a part of `path` before a "/" that ends before character n. */
  predicate AboveAt(path: string, p: string, n: nat) {
    p == "" || (|p| < n && IsBelow(path, p))
  }

  lemma {:induction false} ParentsComeFromAbove(path: string, ids: map<string, DirId>, n: nat, id: DirId)
    requires "" in ids && n <= |path| && id in ParentIdsUpTo(path, ids, n)
    ensures exists p :: p in ids && ids[p] == id && AboveAt(path, p, n)
  {
    if n == 0 {
      assert ids[""] == id && AboveAt(path, "", 0);
    } else if id in ParentIdsUpTo(path, ids, n - 1) {
      ParentsComeFromAbove(path, ids, n - 1, id);
      var p :| p in ids && ids[p] == id && AboveAt(path, p, n - 1);
      assert AboveAt(path, p, n);
    } else {
      assert ids[path[..n - 1]] == id && AboveAt(path, path[..n - 1], n);
    }
  }

  lemma SnocIsGood(chain: seq<DirId>, id: DirId, known: set<DirId>)
    requires GoodChain(chain, known, 1) && id in known && id !in chain
    ensures GoodChain(chain + [id], known, 1)
  {
  }

  lemma {:induction false} ParentsAreDistinct(tree: Subtree, known: set<DirId>, path: string, n: nat)
    requires TreeLike(tree, known) && n <= |path| && path != "" && path[0] != SLASH
    ensures GoodChain(ParentIdsUpTo(path, DirIds(tree), n), known, 1)
  {
    var ids := DirIds(tree);
    hide DirIds;
    assert ids[""] in known;
    if n > 0 {
      ParentsAreDistinct(tree, known, path, n - 1);
      var q := path[..n - 1];
      var before := ParentIdsUpTo(path, ids, n - 1);
      if path[n - 1] == SLASH && q in ids {
        forall id | id in before ensures id != ids[q] {
          ParentsComeFromAbove(path, ids, n - 1, id);
          var p :| p in ids && ids[p] == id && AboveAt(path, p, n - 1);
          assert p == "" || IsBelow(q, p);
        }
        assert ids[q] in known;
        SnocIsGood(before, ids[q], known);
      }
    }
  }

  lemma {:induction false} IdHasEntry(start: DirId, entries: seq<RawEntry>, p: string)
    requires p != "" && p in DirIdsOf(start, entries)
    ensures exists e :: e in entries && e.kind == RawDirectory && e.path == p && e.id == DirIdsOf(start, entries)[p]
  {
    var front, last := entries[..|entries| - 1], entries[|entries| - 1];
    if last.kind == RawDirectory && last.path == p {
      assert last in entries;
    } else {
      IdHasEntry(start, front, p);
    }
  }

  // ----- Taking the items -----

  /** A directory that was taken is none of those above the subtree. */
  ghost predicate Cleared(rules: Rules, visit: Visit, item: Item) {
    item.EntryItem? && item.entry.kind == RawDirectory && !Passed(rules, visit.base, item) ==>
      item.entry.id !in visit.ancestors
  }

  ghost predicate AllCleared(rules: Rules, visit: Visit, items: seq<Item>) {
    forall i :: 0 <= i < |items| ==> Cleared(rules, visit, items[i])
  }

  /** The items taken so far, the next one, and those behind it. */
  ghost predicate At(visit: Visit, done: seq<Item>, item: Item, rest: seq<Item>) {
    InPathOrder(visit.tree) == done + [item] + rest
  }

  lemma EntryIsItem(tree: Subtree, e: RawEntry)
    requires e in tree.entries
    ensures EntryItem(e) in InPathOrder(tree)
  {
    var i :| 0 <= i < |tree.entries| && tree.entries[i] == e;
    assert AllItems(tree)[i] == EntryItem(e);
    Sorting.SameMembers(AllItems(tree), ItemBefore, EntryItem(e));
  }

  /** A directory above an item was taken before it. */
  lemma AboveIsDone(visit: Visit, done: seq<Item>, item: Item, rest: seq<Item>, e: RawEntry)
    requires At(visit, done, item, rest)
    requires e in visit.tree.entries && IsBelow(item.Rel(), e.path)
    ensures EntryItem(e) in done
  {
    EntryIsItem(visit.tree, e);
    ItemsAreOrdered();
    Sorting.SortedInOrder(AllItems(visit.tree), ItemBefore);
    var all := InPathOrder(visit.tree);
    var k :| 0 <= k < |all| && all[k] == EntryItem(e);
    if k >= |done| {
      assert all[|done|] == item;
      AboveComesFirst(item.Rel(), e.path);
      if k > |done| {
        assert ItemBefore(item, EntryItem(e));
        LexAntisymmetric(item.Rel(), e.path);
      }
      assert false;
    }
    assert done[k] == EntryItem(e);
  }

  /** The chain of a link that is about to wait. */
  lemma ChainIsGood(rules: Rules, visit: Visit, done: seq<Item>, item: Item, rest: seq<Item>, known: set<DirId>,
                    depth: nat)
    requires EscapesElements(rules.ctx.escape)
    requires At(visit, done, item, rest) && AllCleared(rules, visit, done)
    requires item.EntryItem? && item.entry.path != "" && item.entry in visit.tree.entries
             && !Passed(rules, visit.base, item)
    requires TreeLike(visit.tree, known) && visit.tree.start.id !in visit.ancestors
    requires GoodChain(visit.ancestors, known, depth)
    ensures GoodChain(Chain(visit, item.entry), known, depth + 1)
  {
    var path, ids := item.entry.path, DirIds(visit.tree);
    var parents := ParentIdsUpTo(path, ids, |path|);
    ParentsAreDistinct(visit.tree, known, path, |path|);
    hide EscapesElements, At, DirIdsOf;
    forall id | id in parents ensures id !in visit.ancestors {
      ParentsComeFromAbove(path, ids, |path|, id);
      var p :| p in ids && ids[p] == id && AboveAt(path, p, |path|);
      if p != "" {
        IdHasEntry(visit.tree.start.id, visit.tree.entries, p);
        var e :| e in visit.tree.entries && e.kind == RawDirectory && e.path == p && e.id == id;
        AboveIsDone(visit, done, item, rest, e);
        AboveIsReported(rules, visit.base, path, |p|);
        var k :| 0 <= k < |done| && done[k] == EntryItem(e);
        assert Cleared(rules, visit, done[k]);
      }
    }
    ConcatIsGood(visit.ancestors, parents, known, depth);
  }

  lemma ConcatIsGood(a: seq<DirId>, b: seq<DirId>, known: set<DirId>, depth: nat)
    requires GoodChain(a, known, depth) && GoodChain(b, known, 1)
    requires forall id :: id in b ==> id !in a
    ensures GoodChain(a + b, known, depth + 1)
  {
    forall i, j | 0 <= i < j < |a + b| ensures (a + b)[i] != (a + b)[j] {
      if i < |a| <= j {
        assert (a + b)[j] == b[j - |a|] && b[j - |a|] in b;
      }
    }
  }

  lemma ItemKeepsChains(rules: Rules, w: WalkState, visit: Visit, done: seq<Item>, item: Item, rest: seq<Item>,
                        known: set<DirId>, depth: nat)
    requires EscapesElements(rules.ctx.escape) && visit.counter < |w.counts|
    requires At(visit, done, item, rest) && AllCleared(rules, visit, done)
    requires TreeLike(visit.tree, known) && visit.tree.start.id !in visit.ancestors
    requires GoodChain(visit.ancestors, known, depth) && GoodLinks(w.pending, known, depth + 1)
    ensures var step := TakeItem(rules, w, visit, item);
            step.Goes? ==>
              && GoodLinks(step.w.pending, known, depth + 1)
              && (Stopped(step.w) || Cleared(rules, visit, item))
  {
    hide EscapesElements, At, TreeLike, AllCleared, GoodChain;
    var path := JoinPath(visit.base, item.Rel());
    if item.EntryItem? && !Passed(rules, visit.base, item) {
      if item.entry.kind == RawDirectory {
        PlaceGrows(rules, w, path, item.entry, ListedDirectory);
        hide Place, Causes, Passed, Grows;
      } else {
        var ancestors := if item.entry.kind.RawSymlink? then Chain(visit, item.entry) else [];
        LeafGrows(rules, w, path, item.entry, ancestors, Some(visit.counter));
        if item.entry.kind.RawSymlink? {
          ItemIsEntry(visit, done, item, rest);
          ChainIsGood(rules, visit, done, item, rest, known, depth);
        }
        NoLinkWithoutSymlink(rules, w, path, item.entry, ancestors, visit.counter);
        hide TakeLeafCounted, Chain, Passed, Grows, OwnEntry, Sum;
      }
    }
  }

  lemma NoLinkWithoutSymlink(rules: Rules, w: WalkState, path: string, entry: RawEntry, ancestors: seq<DirId>,
                             counter: nat)
    requires counter < |w.counts|
    ensures var leaf := TakeLeafCounted(rules, w, path, entry, ancestors, Some(counter));
            leaf.LeafGoes? && leaf.link.Some? ==> entry.kind.RawSymlink?
  {
  }

  lemma ItemIsEntry(visit: Visit, done: seq<Item>, item: Item, rest: seq<Item>)
    requires At(visit, done, item, rest) && item.EntryItem?
    ensures item.entry in visit.tree.entries
  {
    assert InPathOrder(visit.tree)[|done|] == item;
    Sorting.SameMembers(AllItems(visit.tree), ItemBefore, item);
    var i :| 0 <= i < |AllItems(visit.tree)| && AllItems(visit.tree)[i] == item;
    assert i < |visit.tree.entries|;
  }

  lemma {:induction false} ItemsKeepChains(rules: Rules, w: WalkState, visit: Visit, done: seq<Item>,
                                           items: seq<Item>, known: set<DirId>, depth: nat)
    requires EscapesElements(rules.ctx.escape) && visit.counter < |w.counts|
    requires InPathOrder(visit.tree) == done + items && AllCleared(rules, visit, done)
    requires TreeLike(visit.tree, known) && visit.tree.start.id !in visit.ancestors
    requires GoodChain(visit.ancestors, known, depth) && GoodLinks(w.pending, known, depth + 1)
    ensures var step := TakeItems(rules, w, visit, items); step.Goes? ==> GoodLinks(step.w.pending, known, depth + 1)
    decreases |items|
  {
    hide EscapesElements, TreeLike, GoodChain, GoodLinks, TakeItem, Cleared, InPathOrder;
    if items != [] && !Stopped(w) {
      assert done + items == done + [items[0]] + items[1..];
      ItemKeepsChains(rules, w, visit, done, items[0], items[1..], known, depth);
      var step := TakeItem(rules, w, visit, items[0]);
      if step.Goes? {
        if Stopped(step.w) {
          assert TakeItems(rules, step.w, visit, items[1..]) == Goes(step.w);
        } else {
          ItemsKeepChains(rules, step.w, visit, done + [items[0]], items[1..], known, depth);
        }
      }
    }
  }

  lemma SubtreeKeepsChains(rules: Rules, w: WalkState, visit: Visit, known: set<DirId>, depth: nat)
    requires EscapesElements(rules.ctx.escape) && visit.counter < |w.counts|
    requires TreeLike(visit.tree, known)
    requires GoodChain(visit.ancestors, known, depth) && GoodLinks(w.pending, known, depth + 1)
    ensures var step := TakeSubtree(rules, w, visit); step.Goes? ==> GoodLinks(step.w.pending, known, depth + 1)
  {
    hide EscapesElements, TreeLike, GoodChain, TakeItems, Causes;
    if visit.tree.start.id !in visit.ancestors {
      ItemsKeepChains(rules, w, visit, [], InPathOrder(visit.tree), known, depth);
    }
  }

  // ----- Links and starts -----

  lemma PointKeepsPending(rules: Rules, w: WalkState, link: PendingLink, answer: Answer)
    requires Indexed(w, link)
    ensures var step := PointLink(rules, w, link, answer);
            step.Goes? ==> step.w.pending == w.pending && |step.w.counts| == |w.counts|
  {
  }

  lemma LinkKeepsChains(rules: Rules, w: WalkState, link: PendingLink, answer: Answer, known: set<DirId>, depth: nat)
    requires EscapesElements(rules.ctx.escape) && Indexed(w, link) && link.counter < |w.counts|
    requires TreeLikeAnswer(answer, known)
    requires GoodChain(link.ancestors, known, depth) && GoodLinks(w.pending, known, depth + 1)
    ensures var step := TakeLink(rules, w, link, answer); step.Goes? ==> GoodLinks(step.w.pending, known, depth + 1)
  {
    hide EscapesElements, TreeLike, GoodChain, GoodLinks, TakeSubtree, PointLink;
    PointKeepsPending(rules, w, link, answer);
    var step := PointLink(rules, w, link, answer);
    if step.Goes? && answer.subtree.Some? {
      SubtreeKeepsChains(rules, step.w, Visit(link.path, answer.subtree.value, link.ancestors, link.counter), known,
                         depth);
    }
  }

  lemma LoneRootIsGood(root: DirId, known: set<DirId>)
    requires root in known
    ensures GoodChain([root], known, 0)
  {
  }

  lemma StartKeepsChains(rules: Rules, w: WalkState, start: StartPath, answer: Answer, root: DirId, known: set<DirId>)
    requires EscapesElements(rules.ctx.escape) && start.group < |w.counts|
    requires TreeLikeAnswer(answer, known) && root in known
    requires GoodLinks(w.pending, known, 1)
    ensures var step := TakeStart(rules, w, start, answer, root); step.Goes? ==> GoodLinks(step.w.pending, known, 1)
  {
    LoneRootIsGood(root, known);
    hide EscapesElements, TreeLikeAnswer, TakeItself, TakeValue, TakeBelow, GoodLinks;
    if start.withSelf && !start.descend {
      ItselfKeepsPending(rules, w, start.path, answer, root, start.group);
    } else if start.withSelf {
      ValueKeepsChains(rules, w, start.path, answer, root, start.group, known);
    } else {
      BelowKeepsChains(rules, w, start, answer, root, known);
    }
  }

  lemma ItselfKeepsPending(rules: Rules, w: WalkState, path: string, answer: Answer, root: DirId, counter: nat)
    requires counter < |w.counts|
    ensures var step := TakeItself(rules, w, path, answer, root, counter); step.Goes? ==> step.w.pending == w.pending
  {
    if answer.reached.Entry? {
      var entry := answer.reached.entry;
      PlaceGrows(rules, w, path, entry, ListedDirectory);
      var group := if answer.link == Some(ToDirectory) then None else Some(counter);
      LeafGrows(rules, w, path, entry, [root], group);
      var leaf := TakeLeafCounted(rules, w, path, entry, [root], group);
      hide TakeLeafCounted, Place, Grows, Sum;
      if leaf.LeafGoes? && leaf.link.Some? {
        PointKeepsPending(rules, leaf.w, leaf.link.value, answer);
      }
      hide PointLink;
    }
  }

  lemma ValueKeepsChains(rules: Rules, w: WalkState, path: string, answer: Answer, root: DirId, counter: nat,
                         known: set<DirId>)
    requires EscapesElements(rules.ctx.escape) && counter < |w.counts|
    requires TreeLikeAnswer(answer, known) && GoodChain([root], known, 0)
    requires GoodLinks(w.pending, known, 1)
    ensures var step := TakeValue(rules, w, path, answer, root, counter); step.Goes? ==>
            GoodLinks(step.w.pending, known, 1)
  {
    hide EscapesElements, TreeLike, GoodChain, TakeLeafCounted, TakeSubtree, TakeLink, Grows, Sum, GoodLinks;
    if answer.reached.Entry? {
      var entry := answer.reached.entry;
      if answer.subtree.Some? {
        SubtreeKeepsChains(rules, w, Visit(path, answer.subtree.value, [root], counter), known, 0);
      }
      LeafGrows(rules, w, path, entry, [root], Some(counter));
      var leaf := TakeLeafCounted(rules, w, path, entry, [root], Some(counter));
      if leaf.LeafGoes? && leaf.link.Some? {
        GrowsKeepsCount(rules, w, leaf.w);
        LinkKeepsChains(rules, leaf.w, leaf.link.value, answer, known, 0);
      }
    }
  }

  lemma GrowsKeepsCount(rules: Rules, w: WalkState, t: WalkState)
    requires Grows(rules, w, t)
    ensures |t.counts| == |w.counts|
  {
  }

  lemma BelowKeepsChains(rules: Rules, w: WalkState, start: StartPath, answer: Answer, root: DirId, known: set<DirId>)
    requires EscapesElements(rules.ctx.escape) && start.group < |w.counts|
    requires TreeLikeAnswer(answer, known) && GoodChain([root], known, 0)
    requires GoodLinks(w.pending, known, 1)
    ensures var step := TakeBelow(rules, w, start, answer, root); step.Goes? ==> GoodLinks(step.w.pending, known, 1)
  {
    hide EscapesElements, TreeLike, GoodChain, Place, TakeSubtree, TakeLink, Grows, Sum, GoodLinks;
    if answer.reached.Entry? {
      LinkKeepsChains(rules, w, PendingLink(start.path, [root], start.group, NotListed), answer, known, 0);
      var shown := if answer.subtree.Some? then answer.subtree.value.start else answer.reached.entry;
      PlaceGrows(rules, w, start.path, shown, ListedDirectory);
      var listed := ListDirectory(rules, w, start.path, shown);
      if listed.Goes? && answer.subtree.Some? {
        SubtreeKeepsChains(rules, listed.w, Visit(start.path, answer.subtree.value, [root], start.group), known, 0);
      }
    }
  }

  lemma {:induction false} StartsKeepChains(rules: Rules, w: WalkState, starts: seq<StartPath>, answers: seq<Answer>,
                                            root: DirId, k: nat, known: set<DirId>)
    requires EscapesElements(rules.ctx.escape) && k <= |starts| == |answers| && StartsCounted(starts, |w.counts|)
    requires TreeLikeAnswers(answers, known) && root in known && GoodLinks(w.pending, known, 1)
    ensures var step := TakeStarts(rules, w, starts, answers, root, k); step.Goes? ==>
            GoodLinks(step.w.pending, known, 1)
    decreases |starts| - k
  {
    hide EscapesElements, TreeLikeAnswer, TakeStart, GoodLinks;
    if k < |starts| {
      StartKeepsChains(rules, w, starts[k], answers[k], root, known);
      var step := TakeStart(rules, w, starts[k], answers[k], root);
      if step.Goes? {
        StartsKeepChains(rules, step.w, starts, answers, root, k + 1, known);
      }
    }
  }

  lemma FirstHasGoodChains(rules: Rules, whole: bool, starts: seq<StartPath>, answers: seq<Answer>, root: DirId,
                           known: set<DirId>)
    requires EscapesElements(rules.ctx.escape) && |answers| == 1 + |starts|
    requires TreeLikeAnswers(answers, known) && root in known
    ensures var step := TakeFirst(rules, whole, starts, answers, root); step.Goes? ==>
            GoodLinks(step.w.pending, known, 1)
  {
    hide EscapesElements, TreeLike, TakeStarts, TakeSubtree;
    var w := Empty(Counters(starts));
    assert TreeLikeAnswer(answers[0], known);
    if answers[0].subtree.Some? {
      SubtreeKeepsChains(rules, w, Visit("", answers[0].subtree.value, [], 0), known, 0);
    }
    var first := if whole then TakeWhole(rules, w, answers[0]) else Goes(w);
    if first.Goes? {
      assert TreeLikeAnswers(answers[1..], known);
      StartsKeepChains(rules, first.w, starts, answers[1..], root, 0, known);
    }
  }

  lemma {:induction false} LinksKeepChains(rules: Rules, w: WalkState, links: seq<PendingLink>, answers: seq<Answer>,
                                           k: nat, known: set<DirId>, depth: nat)
    requires EscapesElements(rules.ctx.escape) && k <= |links| == |answers| && Placed(w.entries, |w.counts|, links)
    requires TreeLikeAnswers(answers, known) && GoodLinks(links, known, depth) && GoodLinks(w.pending, known, depth + 1)
    ensures var step := TakeLinks(rules, w, links, answers, k); step.Goes? ==>
            GoodLinks(step.w.pending, known, depth + 1)
    decreases |links| - k
  {
    hide EscapesElements, TreeLikeAnswer, TakeLink, GoodChain, Bounded;
    if k < |links| {
      assert OwnEntry(w.entries, links[k]);
      LinkKeepsChains(rules, w, links[k], answers[k], known, depth);
      var step := TakeLink(rules, w, links[k], answers[k]);
      if step.Goes? {
        TakeLinkGrows(rules, w, links[k], answers[k]);
        StaysPlaced(w.entries, step.w.entries, |w.counts|, links);
        LinksKeepChains(rules, step.w, links, answers, k + 1, known, depth);
      }
    }
  }

  // ----- Whole scans -----

  /** A chain without repetition is no longer than the set it is taken from. */
  lemma {:induction false} DistinctFits(ids: seq<DirId>, known: set<DirId>)
    requires Distinct(ids) && forall id :: id in ids ==> id in known
    ensures |ids| <= |known|
  {
    if ids != [] {
      var last := ids[|ids| - 1];
      var front := ids[..|ids| - 1];
      forall id | id in front ensures id in known - {last} {
        assert id in ids;
      }
      DistinctFits(front, known - {last});
    }
  }

  /** The links of every round have chains without repetition, and lie one directory deeper with every
      round. */
  ghost predicate GoodRounds(rounds: seq<Round>, known: set<DirId>) {
    forall r :: 0 <= r < |rounds| ==> GoodLinks(rounds[r].links, known, r + 1)
  }

  lemma {:induction false} RoundsAreShallow(rules: Rules, collector: Collector, w: WalkState, rounds: seq<Round>,
                                            known: set<DirId>)
    requires EscapesElements(rules.ctx.escape) && Fair(rules, w) && TreeLikeCollector(collector, known)
    requires GoodLinks(w.pending, known, |rounds| + 1) && GoodRounds(rounds, known) && |rounds| <= |known|
    ensures var run := Rounds(rules, collector, w, rounds);
            && Batches(run) <= 1 + |known|
            && (run.Finished? ==> GoodRounds(run.rounds, known) && GoodLinks(run.w.pending, known, |run.rounds| + 1))
    decreases Room(rules, w)
  {
    hide EscapesElements, Bounded, GoodLinks, TakeLinks, Sum, TreeLikeAnswers, Placed;
    if !Resting(w) {
      DepthFits(w.pending, known, |rounds| + 1);
      var asked := Ask(collector, 1 + |rounds|, LinkQuestions(w.pending));
      if asked.Got? {
        AnswersAreTreeLike(collector, 1 + |rounds|, LinkQuestions(w.pending), known);
        NoLinks(known, |rounds| + 2);
        LinksKeepChains(rules, w.(pending := []), w.pending, asked.answers, 0, known, |rounds| + 1);
        var step := TakeRound(rules, w, asked.answers);
        if step.Goes? {
          RoundCounts(rules, w, asked.answers);
          RoomShrinks(rules, w, step.w);
          hide Ask, TakeRound, TreeLikeCollector, Fair;
          RoundsAreShallow(rules, collector, step.w, rounds + [Round(w.pending, asked.answers)], known);
        }
      }
    }
  }

  lemma NoLinks(known: set<DirId>, depth: nat)
    ensures GoodLinks([], known, depth)
  {
  }

  lemma DepthFits(links: seq<PendingLink>, known: set<DirId>, depth: nat)
    requires links != [] && GoodLinks(links, known, depth)
    ensures depth <= |known|
  {
    assert GoodChain(links[0].ancestors, known, depth);
    DistinctFits(links[0].ancestors, known);
  }

  lemma AnswersAreTreeLike(collector: Collector, n: nat, questions: seq<Question>, known: set<DirId>)
    requires TreeLikeCollector(collector, known) && Ask(collector, n, questions).Got?
    ensures TreeLikeAnswers(Ask(collector, n, questions).answers, known)
  {
    hide TreeLikeAnswers;
  }

  /** If no directory occurs twice along a collected path, no link ever waits with a directory twice
      above it, each round goes one directory deeper, and the scan asks at most one batch more than
      there are directories. */
  lemma NestingIsBounded(rules: Rules, collector: Collector, whole: bool, starts: seq<StartPath>, known: set<DirId>)
    requires EscapesElements(rules.ctx.escape) && TreeLikeCollector(collector, known)
    ensures var run := Scan(rules, collector, whole, starts);
            && Batches(run) <= 1 + |known|
            && (run.Finished? ==> GoodRounds(run.rounds, known) && GoodLinks(run.w.pending, known, |run.rounds| + 1))
  {
    hide EscapesElements, GoodLinks, TreeLikeCollector, TakeFirst, Rounds, Ask;
    var asked := Ask(collector, 0, FirstQuestions(whole, starts));
    if asked.Got? {
      AnswersAreTreeLike(collector, 0, FirstQuestions(whole, starts), known);
      assert TreeLikeAnswer(asked.answers[0], known);
      hide TreeLikeAnswers, TreeLikeAnswer, FirstQuestions;
      var root := RootIdentity(asked.answers[0]);
      if root.RootFound? {
        FirstHasGoodChains(rules, whole, starts, asked.answers, root.id, known);
        FirstIsFair(rules, whole, starts, asked.answers, root.id);
        var first := TakeFirst(rules, whole, starts, asked.answers, root.id);
        if first.Goes? {
          RoundsAreShallow(rules, collector, first.w, [], known);
        }
      }
    }
  }
}
