/** The rounds of a scan: what is asked in each, and how it ends. */
module ScanRun {
  import opened Texts
  import opened RelativePath
  import opened StartPaths
  import opened ScanData
  import opened WalkSteps
  import opened WalkCounts
  import Sorting

  datatype Asked = Got(answers: seq<Answer>) | Refused(failure: ScanFailure)

  /** The n-th batch of questions. */
  function Ask(collector: Collector, n: nat, questions: seq<Question>): (asked: Asked)
    ensures asked.Got? ==> |asked.answers| == |questions|
  {
    match collector(n, questions)
    case CollectFailed => Refused(CollectorFailed)
    case RootGone => Refused(RootChanged)
    case Answers(answers) => if |answers| != |questions| then Refused(InconsistentAnswer) else Got(answers)
  }

  function FirstQuestions(whole: bool, starts: seq<StartPath>): (questions: seq<Question>)
    ensures |questions| == 1 + |starts|
  {
    [Question("", if whole then All else Itself)]
    + seq(|starts|, i requires 0 <= i < |starts| => Question(starts[i].path, if starts[i].descend then All else Itself))
  }

  function LinkQuestions(links: seq<PendingLink>): (questions: seq<Question>)
    ensures |questions| == |links|
  {
    seq(|links|, i requires 0 <= i < |links| => Question(links[i].path, All))
  }

  /** What is asked: root_dir, with everything below it in a scan of all of it; each start, with what is
      below it if it descends; and each link with everything below what it leads to. */
  lemma QuestionsAre(whole: bool, starts: seq<StartPath>, links: seq<PendingLink>, i: nat)
    ensures FirstQuestions(whole, starts)[0] == Question("", if whole then All else Itself)
    ensures i < |starts| ==>
              FirstQuestions(whole, starts)[1 + i]
                == Question(starts[i].path, if starts[i].descend then All else Itself)
    ensures i < |links| ==> LinkQuestions(links)[i] == Question(links[i].path, All)
  {
  }

  datatype RootId = RootFound(id: DirId) | RootRefused(failure: ScanFailure)

  function RootIdentity(answer: Answer): RootId {
    match answer.reached
    case Unreachable(PathMissing) => RootRefused(RootMissing)
    case Unreachable(PathBlocked) => RootRefused(RootNotDirectory)
    case Unreachable(PathUnreadable(cause)) => RootRefused(RootUnreadable(cause))
    case Entry(entry) => if entry.kind == RawDirectory then RootFound(entry.id) else RootRefused(RootNotDirectory)
  }

  /** One counter for each group, and at least one. */
  function Counters(starts: seq<StartPath>): (n: nat)
    ensures n >= 1
    ensures forall s :: s in starts ==> s.group < n
  {
    if starts == [] then 1
    else
      var others := Counters(starts[1..]);
      if starts[0].group + 1 > others then starts[0].group + 1 else others
  }

  function Empty(counters: nat): WalkState {
    WalkState(seq(counters, _ => 0), [], [], [], false, None, [])
  }

  predicate PathBefore(a: ListedEntry, b: ListedEntry) {
    LexLe(a.path, b.path)
  }

  function Finish(w: WalkState): Listing {
    Listing(Sorting.Sorted(w.entries, PathBefore), Sorting.Sorted(w.unreadableNames, LexLe), w.truncated, w.cycle,
            Sorting.Sorted(w.unresolvableNames, LexLe), Sum(w.counts))
  }

  /** A walk between two takes. */
  ghost predicate Fair(rules: Rules, w: WalkState) {
    Bounded(rules, w) && Placed(w.entries, |w.counts|, w.pending)
  }

  lemma {:induction false} NothingCounted(n: nat)
    ensures Sum(seq(n, _ => 0)) == 0
  {
    if n > 0 {
      NothingCounted(n - 1);
      assert seq(n, _ => 0)[..n - 1] == seq(n - 1, _ => 0);
    }
  }

  lemma EmptyIsFair(rules: Rules, counters: nat)
    ensures Fair(rules, Empty(counters))
    ensures Sum(Empty(counters).counts) == 0
  {
    NothingCounted(counters);
  }

  // ----- The first round: the whole root_dir, then the starts -----

  ghost function TakeWhole(rules: Rules, w: WalkState, answer: Answer): (step: Step)
    requires 0 < |w.counts|
    ensures step.Goes? ==> |step.w.counts| == |w.counts| && |w.entries| <= |step.w.entries|
  {
    if answer.subtree == None then Fails(InconsistentAnswer)
    else TakeSubtree(rules, w, Visit("", answer.subtree.value, [], 0))
  }

  ghost predicate StartsCounted(starts: seq<StartPath>, counters: nat) {
    forall i :: 0 <= i < |starts| ==> starts[i].group < counters
  }

  /** Takes the starts from the k-th on. */
  ghost function TakeStarts(rules: Rules, w: WalkState, starts: seq<StartPath>, answers: seq<Answer>, root: DirId,
                            k: nat): (step: Step)
    requires k <= |starts| == |answers| && StartsCounted(starts, |w.counts|)
    ensures step.Goes? ==> |step.w.counts| == |w.counts| && |w.entries| <= |step.w.entries|
    decreases |starts| - k
  {
    if k == |starts| then Goes(w) else
    match TakeStart(rules, w, starts[k], answers[k], root)
    case Fails(failure) => Fails(failure)
    case Goes(t) => TakeStarts(rules, t, starts, answers, root, k + 1)
  }

  lemma {:induction false} TakeStartsGrows(rules: Rules, w: WalkState, starts: seq<StartPath>, answers: seq<Answer>,
                                           root: DirId, k: nat)
    requires k <= |starts| == |answers| && StartsCounted(starts, |w.counts|)
    ensures var step := TakeStarts(rules, w, starts, answers, root, k); step.Goes? ==> Grows(rules, w, step.w)
    decreases |starts| - k
  {
    hide Grows, TakeStart;
    SameCountsGrow(rules, w, w);
    if k < |starts| {
      var step := TakeStart(rules, w, starts[k], answers[k], root);
      if step.Goes? {
        TakeStartGrows(rules, w, starts[k], answers[k], root);
        TakeStartsGrows(rules, step.w, starts, answers, root, k + 1);
        var after := TakeStarts(rules, step.w, starts, answers, root, k + 1);
        if after.Goes? {
          GrowsIsTransitive(rules, w, step.w, after.w);
        }
      }
    }
  }

  ghost function TakeFirst(rules: Rules, whole: bool, starts: seq<StartPath>, answers: seq<Answer>,
                           root: DirId): (step: Step)
    requires |answers| == 1 + |starts|
  {
    var w := Empty(Counters(starts));
    var first := if whole then TakeWhole(rules, w, answers[0]) else Goes(w);
    match first
    case Fails(failure) => Fails(failure)
    case Goes(t) => TakeStarts(rules, t, starts, answers[1..], root, 0)
  }

  lemma TakeFirstGrows(rules: Rules, whole: bool, starts: seq<StartPath>, answers: seq<Answer>, root: DirId)
    requires |answers| == 1 + |starts|
    ensures var step := TakeFirst(rules, whole, starts, answers, root);
            step.Goes? ==> Grows(rules, Empty(Counters(starts)), step.w)
  {
    hide Grows, TakeStarts, TakeSubtree;
    var w := Empty(Counters(starts));
    SameCountsGrow(rules, w, w);
    if answers[0].subtree.Some? {
      TakeSubtreeGrows(rules, w, Visit("", answers[0].subtree.value, [], 0));
    }
    var first := if whole then TakeWhole(rules, w, answers[0]) else Goes(w);
    if first.Goes? {
      TakeStartsGrows(rules, first.w, starts, answers[1..], root, 0);
      var after := TakeStarts(rules, first.w, starts, answers[1..], root, 0);
      if after.Goes? {
        GrowsIsTransitive(rules, w, first.w, after.w);
      }
    }
  }

  // ----- Later rounds: the links that wait -----

  /** Takes the links from the k-th on. */
  ghost function TakeLinks(rules: Rules, w: WalkState, links: seq<PendingLink>, answers: seq<Answer>,
                           k: nat): (step: Step)
    requires k <= |links| == |answers| && Placed(w.entries, |w.counts|, links)
    ensures step.Goes? ==> |step.w.counts| == |w.counts| && |w.entries| <= |step.w.entries|
    decreases |links| - k
  {
    if k == |links| then Goes(w) else
    assert OwnEntry(w.entries, links[k]);
    match TakeLink(rules, w, links[k], answers[k])
    case Fails(failure) => Fails(failure)
    case Goes(t) =>
      TakeLinkGrows(rules, w, links[k], answers[k]);
      StaysPlaced(w.entries, t.entries, |w.counts|, links);
      TakeLinks(rules, t, links, answers, k + 1)
  }

  lemma {:induction false} TakeLinksGrows(rules: Rules, w: WalkState, links: seq<PendingLink>, answers: seq<Answer>,
                                          k: nat)
    requires k <= |links| == |answers| && Placed(w.entries, |w.counts|, links)
    ensures var step := TakeLinks(rules, w, links, answers, k); step.Goes? ==> Grows(rules, w, step.w)
    decreases |links| - k
  {
    hide Bounded, TakeLink, Sum;
    SameCountsGrow(rules, w, w);
    if k < |links| {
      assert OwnEntry(w.entries, links[k]);
      var step := TakeLink(rules, w, links[k], answers[k]);
      if step.Goes? {
        TakeLinkGrows(rules, w, links[k], answers[k]);
        StaysPlaced(w.entries, step.w.entries, |w.counts|, links);
        hide Grows, Placed, Extends;
        TakeLinksGrows(rules, step.w, links, answers, k + 1);
        var after := TakeLinks(rules, step.w, links, answers, k + 1);
        if after.Goes? {
          GrowsIsTransitive(rules, w, step.w, after.w);
        }
      }
    }
  }

  /** The links of one round and the answers about them. */
  datatype Round = Round(links: seq<PendingLink>, answers: seq<Answer>)

  /** How a scan ends: with a walk, or with a failure at the last of `asked` batches. */
  datatype Run = Finished(w: WalkState, rounds: seq<Round>) | Broken(failure: ScanFailure, asked: nat)

  predicate Resting(w: WalkState) {
    w.pending == [] || Stopped(w)
  }

  /** The links of one round. */
  ghost function TakeRound(rules: Rules, w: WalkState, answers: seq<Answer>): Step
    requires Fair(rules, w) && |answers| == |w.pending|
  {
    TakeLinks(rules, w.(pending := []), w.pending, answers, 0)
  }

  /** Whatever is newly waiting after a round was counted in it. */
  lemma RoundCounts(rules: Rules, w: WalkState, answers: seq<Answer>)
    requires Fair(rules, w) && |answers| == |w.pending|
    ensures var step := TakeRound(rules, w, answers);
            step.Goes? ==>
              && Fair(rules, step.w) && |step.w.counts| == |w.counts|
              && Sum(w.counts) + |step.w.pending| <= Sum(step.w.counts)
  {
    TakeLinksGrows(rules, w.(pending := []), w.pending, answers, 0);
    hide TakeLinks, Sum;
  }

  /** How much the groups may still count. */
  ghost function Room(rules: Rules, w: WalkState): nat
    requires Fair(rules, w)
  {
    if Resting(w) then 0
    else
      SumAtMost(w.counts, rules.maxEntries);
      1 + |w.counts| * rules.maxEntries - Sum(w.counts)
  }

  /** Asks about the links that wait until none waits or the walk stops. */
  ghost function Rounds(rules: Rules, collector: Collector, w: WalkState, rounds: seq<Round>): Run
    requires Fair(rules, w)
    decreases Room(rules, w)
  {
    if Resting(w) then Finished(w, rounds) else
    match Ask(collector, 1 + |rounds|, LinkQuestions(w.pending))
    case Refused(failure) => Broken(failure, 2 + |rounds|)
    case Got(answers) =>
      RoundCounts(rules, w, answers);
      match TakeRound(rules, w, answers)
      case Fails(failure) => Broken(failure, 2 + |rounds|)
      case Goes(t) =>
        RoomShrinks(rules, w, t);
        Rounds(rules, collector, t, rounds + [Round(w.pending, answers)])
  }

  lemma RoomShrinks(rules: Rules, w: WalkState, t: WalkState)
    requires Fair(rules, w) && Fair(rules, t) && !Resting(w)
    requires |t.counts| == |w.counts| && Sum(w.counts) + |t.pending| <= Sum(t.counts)
    ensures Room(rules, t) < Room(rules, w)
  {
    SumIsRoom(rules, w);
    hide Sum, Fair;
  }

  /** A scan of the whole root_dir or of tidied starts. */
  ghost function Scan(rules: Rules, collector: Collector, whole: bool, starts: seq<StartPath>): Run {
    match Ask(collector, 0, FirstQuestions(whole, starts))
    case Refused(failure) => Broken(failure, 1)
    case Got(answers) =>
      match RootIdentity(answers[0])
      case RootRefused(failure) => Broken(failure, 1)
      case RootFound(root) =>
        match TakeFirst(rules, whole, starts, answers, root)
        case Fails(failure) => Broken(failure, 1)
        case Goes(w) =>
          FirstIsFair(rules, whole, starts, answers, root);
          Rounds(rules, collector, w, [])
  }

  lemma FirstIsFair(rules: Rules, whole: bool, starts: seq<StartPath>, answers: seq<Answer>, root: DirId)
    requires |answers| == 1 + |starts|
    ensures var step := TakeFirst(rules, whole, starts, answers, root);
            step.Goes? ==>
              && Fair(rules, step.w) && |step.w.counts| == Counters(starts)
              && |step.w.pending| <= Sum(step.w.counts)
  {
    TakeFirstGrows(rules, whole, starts, answers, root);
    EmptyIsFair(rules, Counters(starts));
    hide TakeFirst, Sum, Bounded, Placed;
  }

  // ----- How many batches -----

  /** The number of batches a scan asks. */
  function Batches(run: Run): nat {
    if run.Finished? then 1 + |run.rounds| else run.asked
  }

  lemma {:induction false} RoundsAreFew(rules: Rules, collector: Collector, w: WalkState, rounds: seq<Round>)
    requires Fair(rules, w)
    requires |rounds| + |w.pending| <= Sum(w.counts)
    requires |rounds| <= |w.counts| * rules.maxEntries
    ensures var run := Rounds(rules, collector, w, rounds);
            && Batches(run) <= 1 + |w.counts| * rules.maxEntries
            && (run.Finished? ==> Fair(rules, run.w) && |run.w.counts| == |w.counts| && Resting(run.w))
    decreases Room(rules, w)
  {
    hide Fair, Sum, TakeRound, Ask;
    if !Resting(w) {
      var most := |w.counts| * rules.maxEntries;
      assert Sum(w.counts) <= most by { SumIsRoom(rules, w); }
      var asked := Ask(collector, 1 + |rounds|, LinkQuestions(w.pending));
      if asked.Got? {
        RoundCounts(rules, w, asked.answers);
        var step := TakeRound(rules, w, asked.answers);
        if step.Goes? {
          RoomShrinks(rules, w, step.w);
          assert |step.w.counts| * rules.maxEntries == most;
          RoundsAreFew(rules, collector, step.w, rounds + [Round(w.pending, asked.answers)]);
        }
      }
    }
  }

  lemma SumIsRoom(rules: Rules, w: WalkState)
    requires Fair(rules, w) && !w.truncated
    ensures Sum(w.counts) <= |w.counts| * rules.maxEntries
  {
    SumAtMost(w.counts, rules.maxEntries);
  }

  /** For every collector the scan ends after at most one batch and one more for each entry the groups
      may count. No group counts more than the limit, except that the scan is truncated exactly when one
      single group counted one entry more. */
  lemma ScanEnds(rules: Rules, collector: Collector, whole: bool, starts: seq<StartPath>)
    ensures var run := Scan(rules, collector, whole, starts);
            && Batches(run) <= 1 + Counters(starts) * rules.maxEntries
            && (run.Finished? ==>
                  && |run.w.counts| == Counters(starts)
                  && (run.w.truncated <==> OneOver(run.w.counts, rules.maxEntries))
                  && (!run.w.truncated <==> WithinLimit(run.w.counts, rules.maxEntries)))
  {
    hide Sum, TakeFirst, Rounds, Ask;
    var asked := Ask(collector, 0, FirstQuestions(whole, starts));
    if asked.Got? && RootIdentity(asked.answers[0]).RootFound? {
      var root := RootIdentity(asked.answers[0]).id;
      var first := TakeFirst(rules, whole, starts, asked.answers, root);
      FirstIsFair(rules, whole, starts, asked.answers, root);
      if first.Goes? {
        RoundsAreFew(rules, collector, first.w, []);
        var run := Rounds(rules, collector, first.w, []);
        if run.Finished? {
          TruncatedExactlyWhenOver(rules, run.w);
        }
      }
    }
  }
}
