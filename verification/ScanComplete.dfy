/** A scan that is neither truncated nor cut at a cycle lists everything that is not excluded, once,
    and each symlink with the answer about its own path. */
module ScanComplete {
  import opened Texts
  import opened RelativePath
  import opened StartPaths
  import opened ScanData
  import opened WalkSteps
  import opened WalkCounts
  import opened ScanParts
  import opened ScanRun
  import Sorting

  // ----- Pointing links -----

  function PointOf(target: LinkTarget): LinkPoint {
    match target
    case ToDirectory => PointsToDirectory
    case ToMissing => PointsToNothing
    case ToOther => PointsToOther
    case ToFile => PointsToFile
    case ToUnresolvable => PointsNowhere
  }

  /** The entry of the link says what the answer says. */
  ghost predicate PointedAs(entries: seq<ListedEntry>, link: PendingLink, answer: Answer) {
    link.listed.At? ==>
      && OwnEntry(entries, link)
      && answer.link.Some?
      && entries[link.listed.index].kind.pointsTo == PointOf(answer.link.value)
  }

  lemma PointLinkPoints(rules: Rules, w: WalkState, link: PendingLink, answer: Answer)
    requires Indexed(w, link) && OwnEntry(w.entries, link)
    requires link.listed.At? ==> Unanswered(w.entries, link.listed.index)
    ensures var step := PointLink(rules, w, link, answer);
            step.Goes? ==>
              && !(link.listed == NotListed && answer.link == Some(ToUnresolvable))
              && answer.link.Some? && PointedAs(step.w.entries, link, answer)
              && |step.w.entries| == |w.entries| && step.w.pending == w.pending && |step.w.counts| == |w.counts|
              && (forall i: nat :: i < |w.entries| && At(i) != link.listed ==> step.w.entries[i] == w.entries[i])
              && UnpointedAll(step.w.entries) == UnpointedAll(w.entries)
              && step.w.unreadableNames == w.unreadableNames && Stopped(step.w) == Stopped(w)
  {
    var step := PointLink(rules, w, link, answer);
    if step.Goes? {
      PointLinkUnpoints(rules, w, link, answer);
    }
  }

  lemma PointLinkUnpoints(rules: Rules, w: WalkState, link: PendingLink, answer: Answer)
    requires Indexed(w, link)
    ensures var step := PointLink(rules, w, link, answer);
            step.Goes? ==> UnpointedAll(step.w.entries) == UnpointedAll(w.entries)
  {
    PointLinkGrows(rules, w, link, answer);
    hide UnpointedAll, Unpointed, Bounded, Sum, Placed;
    var step := PointLink(rules, w, link, answer);
    if step.Goes? {
      assert |step.w.entries| == |w.entries|;
      assert forall i :: 0 <= i < |w.entries| ==> UnpointedAll(step.w.entries)[i] == UnpointedAll(w.entries)[i];
    }
  }

  lemma PointedTakes(rules: Rules, w: WalkState, link: PendingLink, answer: Answer)
    requires Indexed(w, link) && OwnEntry(w.entries, link)
    requires link.listed.At? ==> Unanswered(w.entries, link.listed.index)
    ensures var step := PointLink(rules, w, link, answer);
            step.Goes? ==> Takes(rules, w, step.w, NowhereParts(link.listed == NameUnreadable, link.path, answer))
  {
    var step := PointLink(rules, w, link, answer);
    if step.Goes? {
      PointLinkPoints(rules, w, link, answer);
      hide UnpointedAll;
      var part := NowherePart(link.path);
      if link.listed == NameUnreadable && answer.link == Some(ToUnresolvable) {
        assert UnpointedAll([]) == [];
        OnePartTakes(rules, w, step.w, part);
      } else {
        NothingTaken(rules, w, step.w);
      }
    }
  }

  // ----- One round of links -----

  /** The name of a link that leads nowhere is reported if it could not be listed. */
  ghost function NowhereParts(unnamed: bool, path: string, answer: Answer): seq<Part> {
    if unnamed && answer.link == Some(ToUnresolvable) then [NowherePart(path)] else []
  }

  /** What follows from an answer about a link: the subtree of a directory, or a failure where the answer
      does not say where the link leads or does not bring its subtree. */
  ghost function LeadsParts(rules: Rules, path: string, above: seq<DirId>, group: nat, answer: Answer): seq<Part> {
    if answer.link == Some(ToDirectory)
      && answer.subtree.Some? then [TreePart(path, answer.subtree.value, above, group)]
    else if answer.link == Some(ToDirectory) || answer.link == None then Unanswerable(rules, path)
    else []
  }

  /** The link is not what it was when it was found. */
  ghost function Unanswerable(rules: Rules, path: string): seq<Part> {
    [BrokenPart(ChangedDuringScan(rules.ctx.escape(path)))]
  }

  /** What is reported and followed from the k-th answer of a round on. */
  ghost function FollowedFrom(rules: Rules, links: seq<PendingLink>, answers: seq<Answer>, k: nat): seq<Part>
    requires k <= |links| == |answers|
    decreases |links| - k
  {
    if k == |links| then [] else LinkParts(rules, links[k], answers[k]) + FollowedFrom(rules, links, answers, k + 1)
  }

  ghost function LinkParts(rules: Rules, link: PendingLink, answer: Answer): seq<Part> {
    NowhereParts(link.listed == NameUnreadable, link.path, answer)
    + (if link.listed == NotListed && answer.link == Some(ToUnresolvable)
       then [BrokenPart(UnresolvableLink(rules.ctx.escape(link.path)))]
       else LeadsParts(rules, link.path, link.ancestors, link.counter, answer))
  }

  /** While a round is taken: the links before the k-th are pointed, the others and the new ones are not
      answered yet, and what was there before is as it was. */
  ghost predicate InRound(before: WalkState, w: WalkState, links: seq<PendingLink>, answers: seq<Answer>, k: nat)
    requires k <= |links| == |answers|
  {
    && |before.entries| <= |w.entries|
    && (forall j :: 0 <= j < |links| && links[j].listed.At? ==> links[j].listed.index < |before.entries|)
    && (forall j :: 0 <= j < k ==> PointedAs(w.entries, links[j], answers[j]))
    && (forall j :: k <= j < |links| && links[j].listed.At? ==> Unanswered(w.entries, links[j].listed.index))
    && (forall i: nat :: i < |before.entries| && !Waits(links, i) ==> w.entries[i] == before.entries[i])
    && (forall j :: 0 <= j < |w.pending| && w.pending[j].listed.At? ==>
          |before.entries| <= w.pending[j].listed.index && Unanswered(w.entries, w.pending[j].listed.index))
    && (forall i :: |before.entries| <= i < |w.entries| && w.entries[i].kind.ListedSymlink? ==> Waits(w.pending, i))
  }

  /** Pointing the k-th link. */
  lemma PointInRound(before: WalkState, w: WalkState, t: WalkState, links: seq<PendingLink>, answers: seq<Answer>,
                     k: nat)
    requires k < |links| == |answers| && Rising(links)
    requires InRound(before, w, links, answers, k)
    requires |t.entries| == |w.entries| && t.pending == w.pending
    requires forall i: nat :: i < |w.entries| && At(i) != links[k].listed ==> t.entries[i] == w.entries[i]
    requires PointedAs(t.entries, links[k], answers[k])
    ensures InRound(before, t, links, answers, k + 1)
  {
    forall j | 0 <= j < |links| && j != k && links[j].listed.At? ensures links[j].listed != links[k].listed {
    }
    forall i: nat | i < |before.entries| && !Waits(links, i) ensures t.entries[i] == before.entries[i] {
      assert links[k].listed != At(i);
    }
    forall i | |before.entries| <= i < |w.entries| ensures t.entries[i] == w.entries[i] {
      assert links[k].listed != At(i);
    }
  }

  /** Taking a subtree in a round. */
  lemma AddInRound(before: WalkState, w: WalkState, t: WalkState, links: seq<PendingLink>, answers: seq<Answer>, k: nat)
    requires k <= |links| == |answers| && InRound(before, w, links, answers, k) && Adds(w, t)
    ensures InRound(before, t, links, answers, k)
  {
    forall j | 0 <= j < |t.pending| && t.pending[j].listed.At?
      ensures |before.entries| <= t.pending[j].listed.index && Unanswered(t.entries, t.pending[j].listed.index)
    {
      if j < |w.pending| { assert t.pending[j] == w.pending[j]; }
    }
    forall i | |before.entries| <= i < |t.entries| && t.entries[i].kind.ListedSymlink? ensures Waits(t.pending, i) {
      if i < |w.entries| {
        assert t.entries[i] == w.entries[i];
        WaitsStays(w.pending, t.pending, i);
      }
    }
  }

  /** Pointing a link and following it. */
  lemma TakenLinkLists(rules: Rules, before: WalkState, w: WalkState, links: seq<PendingLink>, answers: seq<Answer>,
                       k: nat)
    requires k < |links| == |answers| && Placed(w.entries, |w.counts|, links)
    requires InRound(before, w, links, answers, k)
    ensures var step := TakeLink(rules, w, links[k], answers[k]);
            step.Goes? ==>
              && InRound(before, step.w, links, answers, k + 1)
              && Takes(rules, w, step.w, LinkParts(rules, links[k], answers[k]))
  {
    hide InRound, TakeSubtree, PointLink, UnpointedAll, Takes, Adds;
    var link, answer := links[k], answers[k];
    assert OwnEntry(w.entries, link);
    KthIsUnanswered(before, w, links, answers, k);
    PointLinkPoints(rules, w, link, answer);
    PointedTakes(rules, w, link, answer);
    var step := TakeLink(rules, w, link, answer);
    if step.Goes? {
      var pointed := PointLink(rules, w, link, answer).w;
      PointInRound(before, w, pointed, links, answers, k);
      var nowhere := NowhereParts(link.listed == NameUnreadable, link.path, answer);
      if answer.link == Some(ToDirectory) {
        var tree := answer.subtree.value;
        SubtreeLists(rules, pointed, Visit(link.path, tree, link.ancestors, link.counter));
        AddInRound(before, pointed, step.w, links, answers, k + 1);
        TakesIsTransitive(rules, w, pointed, step.w, nowhere,
                          [TreePart(link.path, tree, link.ancestors, link.counter)]);
      } else {
        assert LinkParts(rules, link, answer) == nowhere + [] && nowhere + [] == nowhere;
      }
    }
  }

  lemma KthIsUnanswered(before: WalkState, w: WalkState, links: seq<PendingLink>, answers: seq<Answer>, k: nat)
    requires k < |links| == |answers| && InRound(before, w, links, answers, k)
    ensures links[k].listed.At? ==> Unanswered(w.entries, links[k].listed.index)
  {
  }

  lemma {:induction false} LinksList(rules: Rules, before: WalkState, w: WalkState, links: seq<PendingLink>,
                                     answers: seq<Answer>, k: nat)
    requires k <= |links| == |answers| && Placed(w.entries, |w.counts|, links)
    requires InRound(before, w, links, answers, k)
    ensures var step := TakeLinks(rules, w, links, answers, k);
            step.Goes? ==>
              && InRound(before, step.w, links, answers, |links|)
              && Takes(rules, w, step.w, FollowedFrom(rules, links, answers, k))
    decreases |links| - k
  {
    hide InRound, TakeLink, UnpointedAll, Takes, Bounded, LinkParts;
    NothingTaken(rules, w, w);
    if k < |links| {
      assert OwnEntry(w.entries, links[k]);
      TakenLinkLists(rules, before, w, links, answers, k);
      var step := TakeLink(rules, w, links[k], answers[k]);
      if step.Goes? {
        TakeLinkGrows(rules, w, links[k], answers[k]);
        StaysPlaced(w.entries, step.w.entries, |w.counts|, links);
        hide Placed, Extends;
        LinksList(rules, before, step.w, links, answers, k + 1);
        var after := TakeLinks(rules, step.w, links, answers, k + 1);
        if after.Goes? {
          TakesIsTransitive(rules, w, step.w, after.w, LinkParts(rules, links[k], answers[k]),
                            FollowedFrom(rules, links, answers, k + 1));
        }
      }
    }
  }

  // ----- All rounds -----

  ghost predicate AllPointed(entries: seq<ListedEntry>, round: Round) {
    |round.links| == |round.answers| && forall j :: 0 <= j < |round.links| ==>
      PointedAs(entries, round.links[j], round.answers[j])
  }

  ghost predicate InSomeRound(rounds: seq<Round>, i: nat) {
    exists r :: 0 <= r < |rounds| && Waits(rounds[r].links, i)
  }

  ghost predicate Apart(answered: seq<PendingLink>, waiting: seq<PendingLink>) {
    forall j :: 0 <= j < |answered| && answered[j].listed.At? ==> !Waits(waiting, answered[j].listed.index)
  }

  /** Between rounds: answered links say what was answered, waiting links are others and not answered,
      and every symlink is one of them. */
  ghost predicate Kept(w: WalkState, rounds: seq<Round>) {
    && (forall r :: 0 <= r < |rounds| ==> AllPointed(w.entries, rounds[r]) && Apart(rounds[r].links, w.pending))
    && (forall j :: 0 <= j < |w.pending| && w.pending[j].listed.At? ==>
          Unanswered(w.entries, w.pending[j].listed.index))
    && (forall i: nat :: i < |w.entries| && w.entries[i].kind.ListedSymlink? ==>
          Waits(w.pending, i) || InSomeRound(rounds, i))
  }

  ghost function Followed(rules: Rules, rounds: seq<Round>): seq<Part> {
    if rounds == [] then []
    else
      var last := rounds[|rounds| - 1];
      Followed(rules, rounds[..|rounds| - 1])
        + (if |last.links| == |last.answers| then FollowedFrom(rules, last.links, last.answers, 0) else [])
  }

  lemma StartOfRound(w: WalkState, answers: seq<Answer>, rounds: seq<Round>)
    requires |answers| == |w.pending| && Placed(w.entries, |w.counts|, w.pending) && Kept(w, rounds)
    ensures InRound(w, w.(pending := []), w.pending, answers, 0)
  {
    forall j | 0 <= j < |w.pending| && w.pending[j].listed.At? ensures w.pending[j].listed.index < |w.entries| {
      assert OwnEntry(w.entries, w.pending[j]);
    }
  }

  /** What was pointed in an earlier round stays as it is, and no new link is it. */
  lemma EarlierStays(w: WalkState, t: WalkState, answers: seq<Answer>, round: Round)
    requires |answers| == |w.pending| && InRound(w, t, w.pending, answers, |w.pending|)
    requires AllPointed(w.entries, round) && Apart(round.links, w.pending)
    ensures AllPointed(t.entries, round) && Apart(round.links, t.pending)
  {
    forall j | 0 <= j < |round.links|
      ensures PointedAs(t.entries, round.links[j], round.answers[j])
      ensures round.links[j].listed.At? ==> !Waits(t.pending, round.links[j].listed.index)
    {
      var link := round.links[j];
      assert PointedAs(w.entries, link, round.answers[j]);
      if link.listed.At? {
        assert !Waits(w.pending, link.listed.index);
        assert t.entries[link.listed.index] == w.entries[link.listed.index];
      }
    }
  }

  lemma EndOfRound(w: WalkState, t: WalkState, answers: seq<Answer>, rounds: seq<Round>)
    requires |answers| == |w.pending| && Kept(w, rounds) && InRound(w, t, w.pending, answers, |w.pending|)
    requires Extends(w.entries, t.entries)
    ensures Kept(t, rounds + [Round(w.pending, answers)])
  {
    var longer := rounds + [Round(w.pending, answers)];
    forall r | 0 <= r < |longer| ensures AllPointed(t.entries, longer[r]) && Apart(longer[r].links, t.pending) {
      if r < |rounds| {
        EarlierStays(w, t, answers, rounds[r]);
      }
    }
    forall i: nat | i < |t.entries| && t.entries[i].kind.ListedSymlink?
      ensures Waits(t.pending, i) || InSomeRound(longer, i) {
      if i < |w.entries| {
        assert Unpointed(t.entries[i]) == Unpointed(w.entries[i]);
        if Waits(w.pending, i) {
          assert longer[|rounds|].links == w.pending;
        } else {
          var r :| 0 <= r < |rounds| && Waits(rounds[r].links, i);
          assert longer[r] == rounds[r];
        }
      }
    }
  }

  /** What was taken last: the first batch or the last round. */
  ghost function LastParts(rules: Rules, parts: seq<Part>, rounds: seq<Round>): seq<Part> {
    if rounds == [] then parts
    else
      var last := rounds[|rounds| - 1];
      if |last.links| == |last.answers| then FollowedFrom(rules, last.links, last.answers, 0) else []
  }

  /** Each round asks about the symlinks of what was taken before it, each of them once and in order. */
  ghost predicate AskedInOrder(rules: Rules, parts: seq<Part>, rounds: seq<Round>) {
    forall r :: 0 <= r < |rounds| ==>
      AskedLinks(rounds[r].links) == OfAll(PartLinks(rules), LastParts(rules, parts, rounds[..r]))
  }

  lemma OneMoreAsked(rules: Rules, parts: seq<Part>, rounds: seq<Round>, round: Round)
    requires AskedInOrder(rules, parts, rounds)
    requires AskedLinks(round.links) == OfAll(PartLinks(rules), LastParts(rules, parts, rounds))
    ensures AskedInOrder(rules, parts, rounds + [round])
  {
    hide AskedLinks, OfAll, PartLinks, LastParts;
    var longer := rounds + [round];
    forall r | 0 <= r < |longer|
      ensures AskedLinks(longer[r].links) == OfAll(PartLinks(rules), LastParts(rules, parts, longer[..r]))
    {
      assert longer[..r] == rounds[..r];
      assert rounds[..|rounds|] == rounds;
    }
  }

  /** The links that wait after a round are those of what it took. */
  lemma WaitsForRound(rules: Rules, w: WalkState, t: WalkState, parts: seq<Part>, rounds: seq<Round>,
                      links: seq<PendingLink>, answers: seq<Answer>)
    requires |links| == |answers| && w.pending == []
    requires Queues(rules, w, t, FollowedFrom(rules, links, answers, 0)) && !Stopped(t)
    ensures AskedLinks(t.pending) == OfAll(PartLinks(rules), LastParts(rules, parts, rounds + [Round(links, answers)]))
  {
    hide OfAll, PartLinks, FollowedFrom;
    assert AskedLinks(w.pending) == [];
  }

  /** After the first batch and the rounds: `own` holds the links that were answered in the first. */
  lemma {:induction false} RoundsAreComplete(rules: Rules, collector: Collector, w: WalkState, parts: seq<Part>,
                                             own: Round, rounds: seq<Round>)
    requires Fair(rules, w) && (!Stopped(w) ==> Kept(w, [own] + rounds))
    requires Lists(rules, Empty(|w.counts|), w, parts + Followed(rules, rounds))
    requires AskedInOrder(rules, parts, rounds)
    requires !Stopped(w) ==> AskedLinks(w.pending) == OfAll(PartLinks(rules), LastParts(rules, parts, rounds))
    ensures var run := Rounds(rules, collector, w, rounds);
            run.Finished? && !Stopped(run.w) ==>
              && !Stopped(w) && run.w.pending == []
              && Kept(run.w, [own] + run.rounds)
              && Lists(rules, Empty(|w.counts|), run.w, parts + Followed(rules, run.rounds))
              && OfAll(PartLinks(rules), LastParts(rules, parts, run.rounds)) == []
    ensures var run := Rounds(rules, collector, w, rounds);
            run.Finished? ==> AskedInOrder(rules, parts, run.rounds)
    decreases Room(rules, w)
  {
    hide Bounded, TakeLinks, Sum, Lists, InRound, Placed, Followed, Kept, Queues, AskedInOrder, OfAll, PartLinks,
      LastParts;
    if !Resting(w) {
      var asked := Ask(collector, 1 + |rounds|, LinkQuestions(w.pending));
      if asked.Got? {
        StartOfRound(w, asked.answers, [own] + rounds);
        LinksList(rules, w, w.(pending := []), w.pending, asked.answers, 0);
        var step := TakeRound(rules, w, asked.answers);
        if step.Goes? {
          RoundCounts(rules, w, asked.answers);
          RoomShrinks(rules, w, step.w);
          TakeLinksGrows(rules, w.(pending := []), w.pending, asked.answers, 0);
          EndOfRound(w, step.w, asked.answers, [own] + rounds);
          var longer := rounds + [Round(w.pending, asked.answers)];
          assert [own] + rounds + [Round(w.pending, asked.answers)] == [own] + longer;
          ListsMore(rules, w, step.w, parts, rounds, w.pending, asked.answers);
          OneMoreAsked(rules, parts, rounds, Round(w.pending, asked.answers));
          if !Stopped(step.w) {
            WaitsForRound(rules, w.(pending := []), step.w, parts, rounds, w.pending, asked.answers);
          }
          hide TakeRound, Fair, Ask;
          RoundsAreComplete(rules, collector, step.w, parts, own, longer);
        }
      }
    }
  }

  lemma ListsMore(rules: Rules, w: WalkState, t: WalkState, parts: seq<Part>, rounds: seq<Round>,
                  links: seq<PendingLink>, answers: seq<Answer>)
    requires |links| == |answers|
    requires Lists(rules, Empty(|w.counts|), w, parts + Followed(rules, rounds))
    requires Lists(rules, w.(pending := []), t, FollowedFrom(rules, links, answers, 0))
    ensures Lists(rules, Empty(|w.counts|), t, parts + Followed(rules, rounds + [Round(links, answers)]))
  {
    var longer, more := rounds + [Round(links, answers)], FollowedFrom(rules, links, answers, 0);
    assert longer[..|rounds|] == rounds;
    assert parts + Followed(rules, longer) == parts + Followed(rules, rounds) + more;
    assert Lists(rules, w, t, more);
    hide Lists;
    ListsIsTransitive(rules, Empty(|w.counts|), w, t, parts + Followed(rules, rounds), more);
  }

  // ----- The answers of the rounds -----

  /** The r-th round holds what was answered to the questions about its links, and each answer says
      where the link leads and brings the subtree of a directory. */
  ghost predicate AnsweredBy(collector: Collector, r: nat, round: Round) {
    && Ask(collector, 1 + r, LinkQuestions(round.links)) == Got(round.answers)
    && forall j :: 0 <= j < |round.answers| ==> Conclusive(round.answers[j])
  }

  ghost predicate Conclusive(answer: Answer) {
    answer.link.Some? && (answer.link == Some(ToDirectory) ==> answer.subtree.Some?)
  }

  lemma {:induction false} TakenAnswersAreConclusive(rules: Rules, w: WalkState, links: seq<PendingLink>,
        answers: seq<Answer>, k: nat)
    requires k <= |links| == |answers| && Placed(w.entries, |w.counts|, links)
    requires TakeLinks(rules, w, links, answers, k).Goes?
    ensures forall j :: k <= j < |links| ==> Conclusive(answers[j])
    decreases |links| - k
  {
    hide TakeSubtree, Bounded, Sum;
    if k < |links| {
      assert OwnEntry(w.entries, links[k]);
      var step := TakeLink(rules, w, links[k], answers[k]);
      TakeLinkGrows(rules, w, links[k], answers[k]);
      StaysPlaced(w.entries, step.w.entries, |w.counts|, links);
      assert Conclusive(answers[k]);
      hide Placed, Extends, TakeLink;
      TakenAnswersAreConclusive(rules, step.w, links, answers, k + 1);
    }
  }

  lemma {:induction false} RoundsAreAnswered(rules: Rules, collector: Collector, w: WalkState, rounds: seq<Round>)
    requires Fair(rules, w)
    requires forall r :: 0 <= r < |rounds| ==> AnsweredBy(collector, r, rounds[r])
    ensures var run := Rounds(rules, collector, w, rounds);
            run.Finished? ==> forall r :: 0 <= r < |run.rounds| ==> AnsweredBy(collector, r, run.rounds[r])
    decreases Room(rules, w)
  {
    hide Bounded, TakeLinks, Sum, Placed, Conclusive, Ask;
    if !Resting(w) {
      var asked := Ask(collector, 1 + |rounds|, LinkQuestions(w.pending));
      if asked.Got? {
        var step := TakeRound(rules, w, asked.answers);
        if step.Goes? {
          RoundCounts(rules, w, asked.answers);
          RoomShrinks(rules, w, step.w);
          TakenAnswersAreConclusive(rules, w.(pending := []), w.pending, asked.answers, 0);
          assert AnsweredBy(collector, |rounds|, Round(w.pending, asked.answers));
          hide TakeRound, Fair, AnsweredBy;
          RoundsAreAnswered(rules, collector, step.w, rounds + [Round(w.pending, asked.answers)]);
        }
      }
    }
  }

  // ----- The first batch: starts -----

  /** What a start gives: what it lists, or why it is a failure. Of an excluded start only what is below
      it matters. */
  ghost function StartParts(rules: Rules, start: StartPath, answer: Answer, root: DirId): seq<Part> {
    match answer.reached
    case Unreachable(why) => if !start.withSelf && start.excluded then [] else UnreachedParts(start.path, why)
    case Entry(entry) =>
      if start.withSelf && entry.kind != RawDirectory then OwnParts(rules, start, entry, answer, root)
      else if start.withSelf then
        if start.descend then TreeParts(start.path, [root], start.group, answer)
        else [OwnPart(start.path, entry, ListedDirectory, None)]
      else if entry.kind == RawDirectory || (entry.kind.RawSymlink? && answer.link == Some(ToDirectory)) then
        [OwnPart(start.path, if answer.subtree.Some? then answer.subtree.value.start else entry, ListedDirectory, None)]
        + (if start.descend then TreeParts(start.path, [root], start.group, answer) else [])
      else if entry.kind.RawSymlink? && !start.excluded then ThroughParts(rules, start.path, answer)
      else []
  }

  /** A start that is missing gives nothing; one that cannot be reached otherwise is a failure. */
  ghost function UnreachedParts(path: string, why: Unreached): seq<Part> {
    match why
    case PathMissing => []
    case PathBlocked => [BrokenPart(StartBlocked(path))]
    case PathUnreadable(cause) => [BrokenPart(StartUnreadable(path, cause))]
  }

  /** A named directory that is a symlink and leads to no directory. */
  ghost function ThroughParts(rules: Rules, path: string, answer: Answer): seq<Part> {
    if answer.link == None then Unanswerable(rules, path)
    else if answer.link == Some(ToUnresolvable) then [BrokenPart(UnresolvableLink(rules.ctx.escape(path)))]
    else []
  }

  /** A start's own entry that is no directory, and what its symlink leads to. A link to a directory that
      is not read is not counted. */
  ghost function OwnParts(rules: Rules, start: StartPath, entry: RawEntry, answer: Answer, root: DirId): seq<Part> {
    LeafParts(rules, start.path, entry, answer,
              if !start.descend && answer.link == Some(ToDirectory) then None else Some(start.group))
    + (if !entry.kind.RawSymlink? then []
       else if start.descend then LeadsParts(rules, start.path, [root], start.group, answer)
       else if answer.link == None then Unanswerable(rules, start.path) else [])
  }

  ghost function LeafParts(rules: Rules, path: string, entry: RawEntry, answer: Answer,
                           counted: Option<nat>): seq<Part> {
    [OwnPart(path, entry, KindOf(entry.kind), counted)]
    + (if entry.kind.RawSymlink? then NowhereParts(!rules.isUtf8(path), path, answer) else [])
  }

  ghost function TreeParts(path: string, above: seq<DirId>, group: nat, answer: Answer): seq<Part> {
    if answer.subtree.Some? then [TreePart(path, answer.subtree.value, above, group)]
      else [BrokenPart(InconsistentAnswer)]
  }

  /** The answer settles the start: it was reached or is missing, a symlink has an answer, one that is
      only passed through leads somewhere, and a directory to descend into has its subtree. Of an
      excluded start only what is below it matters. */
  ghost predicate StartSettled(start: StartPath, answer: Answer) {
    match answer.reached
    case Unreachable(why) => why == PathMissing || (!start.withSelf && start.excluded)
    case Entry(entry) =>
      && (entry.kind.RawSymlink? && (start.withSelf || !start.excluded) ==> answer.link.Some?)
      && (entry.kind.RawSymlink? && !start.withSelf && !start.excluded ==> answer.link != Some(ToUnresolvable))
      && (entry.kind.RawSymlink? && answer.link == Some(ToDirectory) && start.descend ==> answer.subtree.Some?)
      && (entry.kind == RawDirectory && start.descend ==> answer.subtree.Some?)
  }

  ghost function StartsParts(rules: Rules, starts: seq<StartPath>, answers: seq<Answer>, root: DirId, k: nat): seq<Part>
    requires k <= |starts| == |answers|
    decreases |starts| - k
  {
    if k == |starts| then []
      else StartParts(rules, starts[k], answers[k], root) + StartsParts(rules, starts, answers, root, k + 1)
  }

  /** The link is a start's own symlink, with the answer about that start. */
  ghost predicate OwnLink(starts: seq<StartPath>, answers: seq<Answer>, link: PendingLink, answer: Answer) {
    exists k :: 0 <= k < |starts| && k < |answers| && starts[k].withSelf && starts[k].path == link.path
      && answers[k] == answer
  }

  ghost predicate OwnLinks(starts: seq<StartPath>, answers: seq<Answer>, own: Round) {
    |own.links| == |own.answers| && forall j :: 0 <= j < |own.links| ==>
      OwnLink(starts, answers, own.links[j], own.answers[j])
  }

  lemma AddsKeeps(w: WalkState, t: WalkState, rounds: seq<Round>)
    requires Kept(w, rounds) && Adds(w, t)
    ensures Kept(t, rounds)
  {
    forall r | 0 <= r < |rounds| ensures AllPointed(t.entries, rounds[r]) && Apart(rounds[r].links, t.pending) {
      forall j | 0 <= j < |rounds[r].links| ensures PointedAs(t.entries, rounds[r].links[j], rounds[r].answers[j]) {
        assert PointedAs(w.entries, rounds[r].links[j], rounds[r].answers[j]);
      }
      forall j | 0 <= j < |rounds[r].links| && rounds[r].links[j].listed.At?
        ensures !Waits(t.pending, rounds[r].links[j].listed.index) {
        assert PointedAs(w.entries, rounds[r].links[j], rounds[r].answers[j]);
        assert !Waits(w.pending, rounds[r].links[j].listed.index);
      }
    }
    forall j | 0 <= j < |t.pending| && t.pending[j].listed.At?
      ensures Unanswered(t.entries, t.pending[j].listed.index) {
      if j < |w.pending| { assert t.pending[j] == w.pending[j]; }
    }
    forall i: nat | i < |t.entries| && t.entries[i].kind.ListedSymlink?
      ensures Waits(t.pending, i) || InSomeRound(rounds, i) {
      if i < |w.entries| && Waits(w.pending, i) {
        WaitsStays(w.pending, t.pending, i);
      }
    }
  }

  /** A symlink of the walk's own that is answered at once. */
  lemma AnsweredKeeps(w: WalkState, t: WalkState, own: Round, link: PendingLink, answer: Answer)
    requires Kept(w, [own]) && link.listed == At(|w.entries|)
    requires |t.entries| == |w.entries| + 1 && t.entries[..|w.entries|] == w.entries && t.pending == w.pending
    requires PointedAs(t.entries, link, answer)
    ensures Kept(t, [Round(own.links + [link], own.answers + [answer])])
  {
    var more := Round(own.links + [link], own.answers + [answer]);
    assert AllPointed(w.entries, [own][0]) && Apart([own][0].links, w.pending);
    forall j | 0 <= j < |more.links| ensures PointedAs(t.entries, more.links[j], more.answers[j]) {
      if j < |own.links| { assert PointedAs(w.entries, own.links[j], own.answers[j]); }
    }
    forall j | 0 <= j < |more.links| && more.links[j].listed.At? ensures !Waits(t.pending, more.links[j].listed.index) {
      if j < |own.links| { assert !Waits(w.pending, own.links[j].listed.index); }
    }
    forall i: nat | i < |t.entries| && t.entries[i].kind.ListedSymlink?
      ensures Waits(t.pending, i) || InSomeRound([more], i) {
      if i < |w.entries| {
        assert t.entries[i] == w.entries[i];
        if !Waits(w.pending, i) {
          assert InSomeRound([own], i);
          WaitsStays(own.links, more.links, i);
          assert Waits([more][0].links, i);
        }
      } else {
        assert more.links[|own.links|].listed == At(i);
        assert Waits([more][0].links, i);
      }
    }
  }

  /** The walk `t` has listed one entry of its own after `w`; `link` waits if it is a symlink. */
  ghost predicate OwnListed(rules: Rules, w: WalkState, t: WalkState, path: string, entry: RawEntry,
                            link: Option<PendingLink>) {
    && t.pending == w.pending
    && t.entries == w.entries + OneEntry(rules, path, entry, KindOf(entry.kind))
    && (link.Some? <==> entry.kind.RawSymlink?)
    && (link.Some? ==>
          && link.value.path == path && OwnEntry(t.entries, link.value)
          && (link.value.listed.At? <==> rules.isUtf8(path))
          && (link.value.listed == NameUnreadable <==> !rules.isUtf8(path))
          && (link.value.listed.At? ==>
                && link.value.listed.index == |w.entries| < |t.entries|
                && Unanswered(t.entries, |w.entries|)))
  }

  lemma LeafCountedLists(rules: Rules, w: WalkState, path: string, entry: RawEntry, ancestors: seq<DirId>,
                         counter: Option<nat>)
    requires counter.Some? ==> counter.value < |w.counts|
    requires entry.kind != RawDirectory
    ensures var step := TakeLeafCounted(rules, w, path, entry, ancestors, counter);
            step.LeafGoes? ==>
              && Takes(rules, w, step.w, [OwnPart(path, entry, KindOf(entry.kind), counter)])
              && |step.w.counts| == |w.counts|
              && (step.link.Some? ==>
                    && Indexed(step.w, step.link.value) && step.link.value.path == path
                    && step.link.value.ancestors == ancestors
                    && step.link.value.counter == (if counter.Some? then counter.value else 0))
              && (!Stopped(step.w) ==> OwnListed(rules, w, step.w, path, entry, step.link))
  {
    hide Takes;
    var step := TakeLeafCounted(rules, w, path, entry, ancestors, counter);
    if step.LeafGoes? {
      OwnPartTakes(rules, w, step.w, path, entry, KindOf(entry.kind), counter);
    }
  }

  lemma OwnEntryAdds(rules: Rules, w: WalkState, t: WalkState, path: string, entry: RawEntry, kind: ListedKind)
    requires t.pending == w.pending && !kind.ListedSymlink?
    requires t.entries == w.entries + OneEntry(rules, path, entry, kind)
    ensures Adds(w, t)
  {
    if t.entries == w.entries {
      NothingAdds(w, t);
    } else {
      OneEntryAdds(w, t, []);
    }
  }

  /** An own symlink that was listed is pointed at once. */
  lemma OwnLinkIsAnswered(rules: Rules, w: WalkState, t: WalkState, path: string, entry: RawEntry, link: PendingLink,
                          answer: Answer, own: Round)
      returns (more: Round)
    requires OwnListed(rules, w, t, path, entry, Some(link)) && Kept(w, [own])
    ensures more == own || more == Round(own.links + [link], own.answers + [answer])
    ensures var step := PointLink(rules, t, link, answer);
            step.Goes? ==>
              && answer.link.Some? && Kept(step.w, [more])
              && Takes(rules, t, step.w, NowhereParts(!rules.isUtf8(path), path, answer))
  {
    hide Kept, Takes, UnpointedAll;
    PointLinkPoints(rules, t, link, answer);
    PointedTakes(rules, t, link, answer);
    var step := PointLink(rules, t, link, answer);
    more := own;
    if step.Goes? {
      if link.listed.At? {
        more := Round(own.links + [link], own.answers + [answer]);
        AnsweredKeeps(w, step.w, own, link, answer);
      } else {
        NothingAdds(w, step.w);
        AddsKeeps(w, step.w, [own]);
      }
    }
  }

  /** What one start adds: its parts, and the answer to its own symlink. */
  ghost predicate StartTaken(rules: Rules, w: WalkState, t: WalkState, start: StartPath, answer: Answer, root: DirId,
                             more: Round) {
    && Takes(rules, w, t, StartParts(rules, start, answer, root))
    && (!Stopped(t) ==> Kept(t, [more]) && StartSettled(start, answer))
  }

  ghost predicate OneMore(own: Round, more: Round, path: string, answer: Answer) {
    more == own
    || exists link: PendingLink :: link.path == path && more == Round(own.links + [link], own.answers + [answer])
  }

  lemma MissingLists(rules: Rules, w: WalkState, start: StartPath, answer: Answer, root: DirId, own: Round)
    requires answer.reached.Unreachable?
    requires !Stopped(w) ==> Kept(w, [own])
    requires answer.reached.why == PathMissing || (!start.withSelf && start.excluded)
    ensures StartTaken(rules, w, w, start, answer, root, own)
  {
    hide Kept;
    NothingTaken(rules, w, w);
  }

  lemma ItselfLists(rules: Rules, w: WalkState, start: StartPath, answer: Answer, root: DirId, own: Round)
      returns (more: Round)
    requires start.group < |w.counts| && start.withSelf && !start.descend
    requires !Stopped(w) ==> Kept(w, [own])
    ensures OneMore(own, more, start.path, answer)
    ensures var step := TakeItself(rules, w, start.path, answer, root, start.group);
            step.Goes? ==> StartTaken(rules, w, step.w, start, answer, root, more)
  {
    hide Kept, Takes, TakeLeafCounted, PointLink, OwnListed;
    more := own;
    var step := TakeItself(rules, w, start.path, answer, root, start.group);
    if step.Fails? { return; }
    if answer.reached.Unreachable? {
      MissingLists(rules, w, start, answer, root, own);
      return;
    }
    var entry := answer.reached.entry;
    if entry.kind == RawDirectory {
      OwnDirectoryLists(rules, w, start.path, entry, own);
    } else {
      var group := if answer.link == Some(ToDirectory) then None else Some(start.group);
      LeafCountedLists(rules, w, start.path, entry, [root], group);
      var leaf := TakeLeafCounted(rules, w, start.path, entry, [root], group);
      more := LeafThenPointed(rules, w, leaf.w, leaf.link, start.path, entry, group, answer, own);
      var leafParts := LeafParts(rules, start.path, entry, answer, group);
      assert leafParts + [] == leafParts;
      StoppedTakesAnything(rules, w, step.w, StartParts(rules, start, answer, root));
    }
  }

  lemma OwnDirectoryLists(rules: Rules, w: WalkState, path: string, entry: RawEntry, own: Round)
    requires !Stopped(w) ==> Kept(w, [own])
    ensures var step := ListDirectory(rules, w, path, entry);
            step.Goes? ==>
              && |step.w.counts| == |w.counts|
              && Takes(rules, w, step.w, [OwnPart(path, entry, ListedDirectory, None)])
              && (!Stopped(step.w) ==> Kept(step.w, [own]))
  {
    hide Kept, Takes;
    var step := ListDirectory(rules, w, path, entry);
    if step.Goes? {
      OwnPartTakes(rules, w, step.w, path, entry, ListedDirectory, None);
      if !Stopped(step.w) {
        OwnEntryAdds(rules, w, step.w, path, entry, ListedDirectory);
        AddsKeeps(w, step.w, [own]);
      }
    }
  }

  lemma PointLinkKeepsStop(rules: Rules, w: WalkState, link: PendingLink, answer: Answer)
    requires Indexed(w, link)
    ensures var step := PointLink(rules, w, link, answer);
            step.Goes? ==> Stopped(step.w) == Stopped(w) && |step.w.counts| == |w.counts|
  {
  }

  /** An own entry that was listed, and pointed at once if it is a symlink. */
  lemma LeafThenPointed(rules: Rules, w: WalkState, t: WalkState, link: Option<PendingLink>, path: string,
                        entry: RawEntry, counter: Option<nat>, answer: Answer, own: Round)
      returns (more: Round)
    requires Takes(rules, w, t, [OwnPart(path, entry, KindOf(entry.kind), counter)])
    requires !Stopped(t) ==> OwnListed(rules, w, t, path, entry, link)
    requires !Stopped(w) ==> Kept(w, [own])
    requires link.Some? ==> Indexed(t, link.value)
    ensures OneMore(own, more, path, answer)
    ensures var step := if link.None? then Goes(t) else PointLink(rules, t, link.value, answer);
            step.Goes? ==>
              && |step.w.counts| == |t.counts|
              && Takes(rules, w, step.w, LeafParts(rules, path, entry, answer, counter))
              && (!Stopped(step.w) ==> Kept(step.w, [more]) && (entry.kind.RawSymlink? ==> answer.link.Some?))
  {
    hide Kept, PointLink, OneEntry, Takes, NowhereParts;
    more := own;
    var part := [OwnPart(path, entry, KindOf(entry.kind), counter)];
    StoppedStays(rules, w, t, part);
    if link.Some? {
      PointLinkKeepsStop(rules, t, link.value, answer);
    }
    if Stopped(t) {
      var step := if link.None? then Goes(t) else PointLink(rules, t, link.value, answer);
      if step.Goes? {
        StoppedTakesAnything(rules, w, step.w, LeafParts(rules, path, entry, answer, counter));
      }
    } else if link.Some? {
      more := OwnLinkIsAnswered(rules, w, t, path, entry, link.value, answer, own);
      var step := PointLink(rules, t, link.value, answer);
      if step.Goes? {
        TakesIsTransitive(rules, w, t, step.w, part, NowhereParts(!rules.isUtf8(path), path, answer));
      }
    } else {
      OwnEntryAdds(rules, w, t, path, entry, KindOf(entry.kind));
      AddsKeeps(w, t, [own]);
      assert LeafParts(rules, path, entry, answer, counter) == part;
    }
  }

  lemma SubtreeKeeps(rules: Rules, w: WalkState, visit: Visit, own: Round)
    requires visit.counter < |w.counts|
    requires !Stopped(w) ==> Kept(w, [own])
    ensures var step := TakeSubtree(rules, w, visit);
            step.Goes? ==>
              && Takes(rules, w, step.w, [TreePart(visit.base, visit.tree, visit.ancestors, visit.counter)])
              && (!Stopped(step.w) ==> Kept(step.w, [own]))
  {
    SubtreeLists(rules, w, visit);
    var step := TakeSubtree(rules, w, visit);
    hide TakeSubtree, Kept, Adds;
    if step.Goes? && !Stopped(step.w) {
      AddsKeeps(w, step.w, [own]);
    }
  }

  lemma StoppedTakesAnything(rules: Rules, w: WalkState, t: WalkState, parts: seq<Part>)
    ensures Stopped(t) ==> Takes(rules, w, t, parts)
  {
  }

  lemma ValueLists(rules: Rules, w: WalkState, start: StartPath, answer: Answer, root: DirId, own: Round)
      returns (more: Round)
    requires start.group < |w.counts| && start.withSelf && start.descend
    requires !Stopped(w) ==> Kept(w, [own])
    ensures OneMore(own, more, start.path, answer)
    ensures var step := TakeValue(rules, w, start.path, answer, root, start.group);
            step.Goes? ==> StartTaken(rules, w, step.w, start, answer, root, more)
  {
    hide Kept, Takes, TakeLeafCounted, PointLink, TakeSubtree, OneEntry, OwnEntry, Unanswered;
    more := own;
    var step := TakeValue(rules, w, start.path, answer, root, start.group);
    if step.Fails? { return; }
    if answer.reached.Unreachable? {
      MissingLists(rules, w, start, answer, root, own);
      return;
    }
    var entry := answer.reached.entry;
    if entry.kind == RawDirectory {
      SubtreeKeeps(rules, w, Visit(start.path, answer.subtree.value, [root], start.group), own);
    } else {
      LeafCountedLists(rules, w, start.path, entry, [root], Some(start.group));
      var leaf := TakeLeafCounted(rules, w, start.path, entry, [root], Some(start.group));
      more := LeafThenPointed(rules, w, leaf.w, leaf.link, start.path, entry, Some(start.group), answer, own);
      var part := LeafParts(rules, start.path, entry, answer, Some(start.group));
      assert part + [] == part;
      if leaf.link.None? {
        StoppedTakesAnything(rules, w, step.w, StartParts(rules, start, answer, root));
      } else {
        var pointed := PointLink(rules, leaf.w, leaf.link.value, answer).w;
        if answer.link == Some(ToDirectory) {
          var visit := Visit(start.path, answer.subtree.value, leaf.link.value.ancestors, leaf.link.value.counter);
          SubtreeKeeps(rules, pointed, visit, more);
          TakesIsTransitive(rules, w, pointed, step.w, part,
                            [TreePart(start.path, answer.subtree.value, [root], start.group)]);
          PointLinkKeepsStop(rules, leaf.w, leaf.link.value, answer);
          StoppedStays(rules, pointed, step.w, [TreePart(start.path, answer.subtree.value, [root], start.group)]);
        }
        StoppedTakesAnything(rules, w, step.w, StartParts(rules, start, answer, root));
      }
    }
  }

  lemma BelowLists(rules: Rules, w: WalkState, start: StartPath, answer: Answer, root: DirId, own: Round)
    requires start.group < |w.counts| && !start.withSelf
    requires !Stopped(w) ==> Kept(w, [own])
    ensures var step := TakeBelow(rules, w, start, answer, root);
            step.Goes? ==> StartTaken(rules, w, step.w, start, answer, root, own)
  {
    hide Kept, Takes, TakeSubtree, ListDirectory;
    NothingTaken(rules, w, w);
    var step := TakeBelow(rules, w, start, answer, root);
    if step.Fails? { return; }
    if answer.reached.Unreachable? {
      MissingLists(rules, w, start, answer, root, own);
      return;
    }
    var entry := answer.reached.entry;
    if entry.kind == RawDirectory || (entry.kind.RawSymlink? && answer.link == Some(ToDirectory)) {
      var shown := if answer.subtree.Some? then answer.subtree.value.start else entry;
      OwnDirectoryLists(rules, w, start.path, shown, own);
      var listed := ListDirectory(rules, w, start.path, shown).w;
      var part := [OwnPart(start.path, shown, ListedDirectory, None)];
      assert part + [] == part;
      if start.descend {
        SubtreeKeeps(rules, listed, Visit(start.path, answer.subtree.value, [root], start.group), own);
        TakesIsTransitive(rules, w, listed, step.w, part,
                          [TreePart(start.path, answer.subtree.value, [root], start.group)]);
      }
    }
  }

  lemma StartLists(rules: Rules, w: WalkState, start: StartPath, answer: Answer, root: DirId, own: Round)
      returns (more: Round)
    requires start.group < |w.counts|
    requires !Stopped(w) ==> Kept(w, [own])
    ensures if start.withSelf then OneMore(own, more, start.path, answer) else more == own
    ensures var step := TakeStart(rules, w, start, answer, root);
            step.Goes? ==> StartTaken(rules, w, step.w, start, answer, root, more)
  {
    hide Kept, TakeItself, TakeValue, TakeBelow, StartTaken, OneMore;
    if !start.withSelf {
      more := own;
      BelowLists(rules, w, start, answer, root, own);
    } else if start.descend {
      more := ValueLists(rules, w, start, answer, root, own);
    } else {
      more := ItselfLists(rules, w, start, answer, root, own);
    }
  }

  lemma OneMoreOwnLink(starts: seq<StartPath>, answers: seq<Answer>, k: nat, own: Round, more: Round)
    requires k < |starts| == |answers| && OwnLinks(starts, answers, own)
    requires if starts[k].withSelf then OneMore(own, more, starts[k].path, answers[k]) else more == own
    ensures OwnLinks(starts, answers, more)
  {
    if more != own {
      forall j | 0 <= j < |more.links| ensures OwnLink(starts, answers, more.links[j], more.answers[j]) {
        if j < |own.links| {
          assert OwnLink(starts, answers, own.links[j], own.answers[j]);
        }
      }
    }
  }

  ghost predicate StartsSettled(starts: seq<StartPath>, answers: seq<Answer>, k: nat) {
    forall i :: k <= i < |starts| && i < |answers| ==> StartSettled(starts[i], answers[i])
  }

  lemma {:induction false} StartsList(rules: Rules, w: WalkState, starts: seq<StartPath>, answers: seq<Answer>,
                                      root: DirId, k: nat, own: Round)
      returns (more: Round)
    requires k <= |starts| == |answers| && StartsCounted(starts, |w.counts|)
    requires !Stopped(w) ==> Kept(w, [own])
    requires OwnLinks(starts, answers, own)
    ensures OwnLinks(starts, answers, more)
    ensures var step := TakeStarts(rules, w, starts, answers, root, k);
            step.Goes? ==>
              && Takes(rules, w, step.w, StartsParts(rules, starts, answers, root, k))
              && (!Stopped(step.w) ==> Kept(step.w, [more]) && StartsSettled(starts, answers, k))
    decreases |starts| - k
  {
    hide Kept, Takes, TakeStart, StartParts, StartSettled, OwnLinks, OneMore;
    more := own;
    NothingTaken(rules, w, w);
    if k < |starts| {
      var one := StartLists(rules, w, starts[k], answers[k], root, own);
      OneMoreOwnLink(starts, answers, k, own, one);
      var step := TakeStart(rules, w, starts[k], answers[k], root);
      if step.Goes? {
        more := StartsList(rules, step.w, starts, answers, root, k + 1, one);
        var after := TakeStarts(rules, step.w, starts, answers, root, k + 1);
        if after.Goes? {
          StoppedStays(rules, step.w, after.w, StartsParts(rules, starts, answers, root, k + 1));
          TakesIsTransitive(rules, w, step.w, after.w, StartParts(rules, starts[k], answers[k], root),
                            StartsParts(rules, starts, answers, root, k + 1));
        }
      }
    }
  }

  lemma ListsFromNothing(rules: Rules, counters: nat, t: WalkState, parts: seq<Part>)
    requires Lists(rules, Empty(counters), t, parts) && !Stopped(t)
    ensures UnpointedAll(t.entries) == OfAll(PartEntries(rules), parts)
    ensures t.unreadableNames == OfAll(PartNames(rules), parts)
    ensures t.unresolvableNames == OfAll(PartNowhere(rules), parts)
    ensures AllRead(rules, parts)
  {
    hide OfAll, AllRead;
    assert UnpointedAll([]) == [];
  }

  lemma StoppedStays(rules: Rules, w: WalkState, t: WalkState, parts: seq<Part>)
    requires Takes(rules, w, t, parts)
    ensures Stopped(w) ==> Stopped(t)
  {
  }

  // ----- The whole scan -----

  /** What the first batch lists: root_dir if all of it is asked for, then the starts. */
  ghost function FirstParts(rules: Rules, whole: bool, starts: seq<StartPath>, answers: seq<Answer>,
                            root: DirId): seq<Part>
    requires |answers| == 1 + |starts|
  {
    (if whole then TreeParts("", [], 0, answers[0]) else []) + StartsParts(rules, starts, answers[1..], root, 0)
  }

  /** Symlink i of the listing is a start's own entry and says what was answered about that start. */
  ghost predicate AnsweredAsStart(entries: seq<ListedEntry>, i: nat, starts: seq<StartPath>, answers: seq<Answer>)
    requires i < |entries| && entries[i].kind.ListedSymlink?
  {
    exists k :: 0 <= k < |starts| && k < |answers| && starts[k].withSelf && starts[k].path == entries[i].path
             && answers[k].link.Some? && entries[i].kind.pointsTo == PointOf(answers[k].link.value)
  }

  /** What an ended scan that did not stop early has to show for it. */
  ghost predicate Complete(rules: Rules, collector: Collector, whole: bool, starts: seq<StartPath>,
                           answers: seq<Answer>, root: DirId, run: Run)
    requires |answers| == 1 + |starts| && run.Finished?
  {
    var parts := FirstParts(rules, whole, starts, answers, root) + Followed(rules, run.rounds);
    && answers[0].reached.Entry? && answers[0].reached.entry.kind == RawDirectory
    && answers[0].reached.entry.id == root
    && (whole ==> answers[0].subtree.Some?)
    && StartsSettled(starts, answers[1..], 0)
    && (forall r :: 0 <= r < |run.rounds| ==> AnsweredBy(collector, r, run.rounds[r]))
    && AllRead(rules, parts)
    && UnpointedAll(run.w.entries) == OfAll(PartEntries(rules), parts)
    && run.w.unreadableNames == OfAll(PartNames(rules), parts)
    && run.w.unresolvableNames == OfAll(PartNowhere(rules), parts)
    && AskedInOrder(rules, FirstParts(rules, whole, starts, answers, root), run.rounds)
    && OfAll(PartLinks(rules), LastParts(rules, FirstParts(rules, whole, starts, answers, root), run.rounds)) == []
    && (forall r :: 0 <= r < |run.rounds| ==> AllPointed(run.w.entries, run.rounds[r]))
    && (forall i: nat :: i < |run.w.entries| && run.w.entries[i].kind.ListedSymlink? ==>
          InSomeRound(run.rounds, i) || AnsweredAsStart(run.w.entries, i, starts, answers[1..]))
  }

  lemma FirstLists(rules: Rules, whole: bool, starts: seq<StartPath>, answers: seq<Answer>, root: DirId)
      returns (own: Round)
    requires |answers| == 1 + |starts|
    ensures OwnLinks(starts, answers[1..], own)
    ensures var step := TakeFirst(rules, whole, starts, answers, root);
            step.Goes? ==>
              && (whole ==> answers[0].subtree.Some?)
              && Takes(rules, Empty(Counters(starts)), step.w, FirstParts(rules, whole, starts, answers, root))
              && (!Stopped(step.w) ==> Kept(step.w, [own]) && StartsSettled(starts, answers[1..], 0))
  {
    hide TakeSubtree, TakeStarts, Takes, StartsParts;
    var w, nothing := Empty(Counters(starts)), Round([], []);
    own := nothing;
    assert Kept(w, [nothing]);
    hide Kept;
    NothingTaken(rules, w, w);
    if whole && answers[0].subtree.Some? {
      SubtreeKeeps(rules, w, Visit("", answers[0].subtree.value, [], 0), nothing);
    }
    var first := if whole then TakeWhole(rules, w, answers[0]) else Goes(w);
    if first.Goes? {
      own := StartsList(rules, first.w, starts, answers[1..], root, 0, nothing);
      var step := TakeStarts(rules, first.w, starts, answers[1..], root, 0);
      if step.Goes? {
        var parts := if whole then TreeParts("", [], 0, answers[0]) else [];
        TakesIsTransitive(rules, w, first.w, step.w, parts, StartsParts(rules, starts, answers[1..], root, 0));
      }
    }
  }

  lemma OwnOrInARound(entries: seq<ListedEntry>, i: nat, starts: seq<StartPath>, answers: seq<Answer>, own: Round,
                      rounds: seq<Round>)
    requires i < |entries| && entries[i].kind.ListedSymlink?
    requires InSomeRound([own] + rounds, i)
    requires AllPointed(entries, own) && OwnLinks(starts, answers, own)
    ensures InSomeRound(rounds, i) || AnsweredAsStart(entries, i, starts, answers)
  {
    var r :| 0 <= r < 1 + |rounds| && Waits(([own] + rounds)[r].links, i);
    if r > 0 {
      assert Waits(rounds[r - 1].links, i);
    } else {
      var j :| 0 <= j < |own.links| && own.links[j].listed == At(i);
      assert PointedAs(entries, own.links[j], own.answers[j]);
      assert OwnLink(starts, answers, own.links[j], own.answers[j]);
    }
  }

  lemma KeptAtTheEnd(w: WalkState, starts: seq<StartPath>, answers: seq<Answer>, own: Round, rounds: seq<Round>)
    requires Kept(w, [own] + rounds) && w.pending == []
    requires OwnLinks(starts, answers, own)
    ensures forall r :: 0 <= r < |rounds| ==> AllPointed(w.entries, rounds[r])
    ensures forall i: nat :: i < |w.entries| && w.entries[i].kind.ListedSymlink? ==>
              InSomeRound(rounds, i) || AnsweredAsStart(w.entries, i, starts, answers)
  {
    var all := [own] + rounds;
    forall r | 0 <= r < |rounds| ensures AllPointed(w.entries, rounds[r]) {
      assert AllPointed(w.entries, all[r + 1]);
    }
    hide AllPointed, OwnLinks, InSomeRound, AnsweredAsStart;
    assert AllPointed(w.entries, all[0]);
    forall i: nat | i < |w.entries| && w.entries[i].kind.ListedSymlink?
      ensures InSomeRound(rounds, i) || AnsweredAsStart(w.entries, i, starts, answers)
    {
      OwnOrInARound(w.entries, i, starts, answers, own, rounds);
    }
  }

  lemma NothingFollowed(rules: Rules, parts: seq<Part>, own: Round)
    ensures parts + Followed(rules, []) == parts && [own] + [] == [own]
  {
  }

  lemma FirstLinks(rules: Rules, t: WalkState, counters: nat, parts: seq<Part>)
    requires Queues(rules, Empty(counters), t, parts)
    ensures !Stopped(t) ==> AskedLinks(t.pending) == OfAll(PartLinks(rules), LastParts(rules, parts, []))
    ensures AskedInOrder(rules, parts, [])
  {
    hide OfAll;
    assert AskedLinks([]) == [];
  }

  /** Everything the first batch and the rounds keep makes the scan complete. */
  lemma KeptIsComplete(rules: Rules, collector: Collector, whole: bool, starts: seq<StartPath>, answers: seq<Answer>,
                       root: DirId, own: Round, run: Run)
    requires |answers| == 1 + |starts| && run.Finished? && !Stopped(run.w) && run.w.pending == []
    requires answers[0].reached.Entry? && answers[0].reached.entry.kind == RawDirectory
    requires answers[0].reached.entry.id == root
    requires whole ==> answers[0].subtree.Some?
    requires StartsSettled(starts, answers[1..], 0)
    requires forall r :: 0 <= r < |run.rounds| ==> AnsweredBy(collector, r, run.rounds[r])
    requires Kept(run.w, [own] + run.rounds) && OwnLinks(starts, answers[1..], own)
    requires Lists(rules, Empty(Counters(starts)), run.w,
               FirstParts(rules, whole, starts, answers, root) + Followed(rules, run.rounds))
    requires AskedInOrder(rules, FirstParts(rules, whole, starts, answers, root), run.rounds)
    requires OfAll(PartLinks(rules), LastParts(rules, FirstParts(rules, whole, starts, answers, root), run.rounds))
             == []
    ensures Complete(rules, collector, whole, starts, answers, root, run)
  {
    hide Lists, Kept, AllPointed, AnsweredAsStart, FirstParts, OwnLinks, StartsSettled;
    hide UnpointedAll, OfAll, AllRead, InSomeRound, AnsweredBy, Followed, AskedInOrder, LastParts;
    ListsFromNothing(rules, Counters(starts), run.w,
                     FirstParts(rules, whole, starts, answers, root) + Followed(rules, run.rounds));
    KeptAtTheEnd(run.w, starts, answers[1..], own, run.rounds);
  }

  /** For every collector and all starts, a scan that ends without truncation or cycle: each entry that
      is not excluded in root_dir, at or below a start, or in a subtree that was followed is listed
      once, in the order these were taken; its name is reported instead if it is not UTF-8; nothing of
      them was unread, changed or left out. Each listed symlink points to what was answered about its
      own path; each round asks about the symlinks found in the step before it, each of them once and in
      order, and the last step found none. */
  lemma CompleteScan(rules: Rules, collector: Collector, whole: bool, starts: seq<StartPath>)
    ensures var run := Scan(rules, collector, whole, starts);
            run.Finished? && !Stopped(run.w) ==>
              var first := Ask(collector, 0, FirstQuestions(whole, starts));
              && first.Got? && first.answers[0].reached.Entry?
              && Complete(rules, collector, whole, starts, first.answers, first.answers[0].reached.entry.id, run)
  {
    hide TakeFirst, Rounds, Fair, Lists, Kept, FirstParts, OwnLinks, StartsSettled, Complete, AnsweredBy, Followed;
    hide OfAll, PartLinks, Queues, AskedLinks;
    var run := Scan(rules, collector, whole, starts);
    if run.Finished? && !Stopped(run.w) {
      var answers := Ask(collector, 0, FirstQuestions(whole, starts)).answers;
      var root := RootIdentity(answers[0]).id;
      FirstIsFair(rules, whole, starts, answers, root);
      var first := TakeFirst(rules, whole, starts, answers, root);
      var own := FirstLists(rules, whole, starts, answers, root);
      var parts := FirstParts(rules, whole, starts, answers, root);
      NothingFollowed(rules, parts, own);
      FirstLinks(rules, first.w, Counters(starts), parts);
      RoundsAreComplete(rules, collector, first.w, parts, own, []);
      RoundsAreAnswered(rules, collector, first.w, []);
      KeptIsComplete(rules, collector, whole, starts, answers, root, own, run);
    }
  }

  /** However a scan ends that does not fail: it knows its root_dir, its rounds asked about exactly the
      symlinks found before them, and they used the answers the collector gave. */
  lemma FinishedAsked(rules: Rules, collector: Collector, whole: bool, starts: seq<StartPath>)
    ensures var run := Scan(rules, collector, whole, starts);
            run.Finished? ==>
              var first := Ask(collector, 0, FirstQuestions(whole, starts));
              && first.Got? && first.answers[0].reached.Entry?
              && AskedInOrder(rules,
                              FirstParts(rules, whole, starts, first.answers, first.answers[0].reached.entry.id),
                                run.rounds)
              && forall r :: 0 <= r < |run.rounds| ==> AnsweredBy(collector, r, run.rounds[r])
  {
    hide TakeFirst, Rounds, Fair, Lists, Kept, FirstParts, OwnLinks, StartsSettled, AnsweredBy, Followed;
    hide OfAll, PartLinks, Queues, AskedLinks;
    var run := Scan(rules, collector, whole, starts);
    if run.Finished? {
      var answers := Ask(collector, 0, FirstQuestions(whole, starts)).answers;
      var root := RootIdentity(answers[0]).id;
      FirstIsFair(rules, whole, starts, answers, root);
      var first := TakeFirst(rules, whole, starts, answers, root);
      var own := FirstLists(rules, whole, starts, answers, root);
      var parts := FirstParts(rules, whole, starts, answers, root);
      NothingFollowed(rules, parts, own);
      FirstLinks(rules, first.w, Counters(starts), parts);
      RoundsAreComplete(rules, collector, first.w, parts, own, []);
      RoundsAreAnswered(rules, collector, first.w, []);
    }
  }

  // ----- The listing -----

  /** The listing holds the entries of the walk, each as often as the walk, by path. */
  lemma FinishSorts(w: WalkState)
    ensures var listing := Finish(w);
            && multiset(listing.entries) == multiset(w.entries)
            && multiset(listing.unreadableNames) == multiset(w.unreadableNames)
            && multiset(listing.unresolvableNames) == multiset(w.unresolvableNames)
            && Sorting.InOrder(listing.entries, PathBefore)
            && Sorting.InOrder(listing.unreadableNames, LexLe)
            && Sorting.InOrder(listing.unresolvableNames, LexLe)
            && listing.counted == Sum(w.counts) && listing.truncated == w.truncated && listing.cycle == w.cycle
  {
    Sorting.SortedIsPermutation(w.entries, PathBefore);
    Sorting.SortedIsPermutation(w.unreadableNames, LexLe);
    Sorting.SortedIsPermutation(w.unresolvableNames, LexLe);
    forall a: string, b: string ensures LexLe(a, b) || LexLe(b, a) {
      LexTotal(a, b);
    }
    forall a: string, b: string, c: string | LexLe(a, b) && LexLe(b, c) ensures LexLe(a, c) {
      LexTransitive(a, b, c);
    }
    Sorting.SortedInOrder(w.entries, PathBefore);
    Sorting.SortedInOrder(w.unreadableNames, LexLe);
    Sorting.SortedInOrder(w.unresolvableNames, LexLe);
  }
}
