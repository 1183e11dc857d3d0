/** The scan as it runs: one batch of questions for the starts, then one for each round of links. */
module ScanDriver {
  import opened Texts
  import opened Exclude
  import opened Starts
  import opened StartPaths
  import opened ScanData
  import opened WalkCounts
  import opened ScanRun
  import opened Walk
  import Steps = WalkSteps

  datatype Scanned = Success(listing: Listing) | Failure(failure: ScanFailure)

  function ScannedOf(run: Run): Scanned {
    match run
    case Finished(w, _) => Success(Finish(w))
    case Broken(failure, _) => Failure(failure)
  }

  /** The starts of a scope, tidied. */
  ghost predicate StartsOf(ctx: Exclusion, scope: ScanScope, whole: bool, starts: seq<StartPath>) {
    match scope
    case Whole => whole && starts == []
    case StartsAt(given) => Tidied(ctx, given, whole, starts)
  }

  method AskFor(collector: Collector, n: nat, questions: seq<Question>) returns (asked: Asked)
    ensures asked == Ask(collector, n, questions)
  {
    var collected := collector(n, questions);
    match collected {
      case CollectFailed => return Refused(CollectorFailed);
      case RootGone => return Refused(RootChanged);
      case Answers(answers) =>
        if |answers| != |questions| {
          return Refused(InconsistentAnswer);
        }
        return Got(answers);
    }
  }

  method TakeStartOf(walk: Walk, start: StartPath, answer: Answer, root: DirId) returns (failure: Option<ScanFailure>)
    requires walk.Valid() && start.group < |walk.counts|
    modifies walk
    ensures Took(Steps.TakeStart(walk.rules, old(walk.State()), start, answer, root), failure, walk.State())
  {
    hide Steps.TakeItself, Steps.TakeValue, Steps.TakeBelow, EscapesElements;
    if start.withSelf && !start.descend {
      failure := TakeItself(walk, start.path, answer, root, start.group);
    } else if start.withSelf {
      failure := TakeValue(walk, start.path, answer, root, start.group);
    } else {
      failure := TakeBelow(walk, start, answer, root);
    }
  }

  /** The first answers: root_dir if all of it is scanned, then each start. */
  method TakeFirstOf(walk: Walk, whole: bool, starts: seq<StartPath>, answers: seq<Answer>, root: DirId)
      returns (failure: Option<ScanFailure>)
    requires walk.Valid() && |answers| == 1 + |starts| && walk.State() == Empty(Counters(starts))
    modifies walk
    ensures Took(TakeFirst(walk.rules, whole, starts, answers, root), failure, walk.State())
  {
    hide Steps.TakeStart, Steps.TakeSubtree, EscapesElements;
    ghost var first := if whole then TakeWhole(walk.rules, walk.State(), answers[0]) else Steps.Goes(walk.State());
    if whole {
      if answers[0].subtree == None {
        return Some(InconsistentAnswer);
      }
      failure := walk.TakeSubtree("", answers[0].subtree.value, [], 0);
      if failure.Some? {
        return;
      }
    }
    assert first == Steps.Goes(walk.State());
    assert TakeFirst(walk.rules, whole, starts, answers, root)
        == TakeStarts(walk.rules, walk.State(), starts, answers[1..], root, 0);
    for k := 0 to |starts|
      invariant |walk.counts| == Counters(starts)
      invariant TakeFirst(walk.rules, whole, starts, answers, root)
             == TakeStarts(walk.rules, walk.State(), starts, answers[1..], root, k)
    {
      assert starts[k] in starts;
      failure := TakeStartOf(walk, starts[k], answers[1..][k], root);
      if failure.Some? {
        return;
      }
    }
    return None;
  }

  /** One round of links. */
  method TakeRoundOf(walk: Walk, answers: seq<Answer>) returns (failure: Option<ScanFailure>)
    requires walk.Valid() && Fair(walk.rules, walk.State()) && |answers| == |walk.pending|
    modifies walk
    ensures Took(TakeRound(walk.rules, old(walk.State()), answers), failure, walk.State())
  {
    hide Steps.TakeLink, EscapesElements, Bounded;
    var links := walk.pending;
    walk.pending := [];
    ghost var before := walk.State();
    for k := 0 to |links|
      invariant Placed(walk.entries, |walk.counts|, links)
      invariant TakeLinks(walk.rules, before, links, answers, 0)
                == TakeLinks(walk.rules, walk.State(), links, answers, k)
    {
      ghost var now := walk.State();
      assert OwnEntry(walk.entries, links[k]);
      failure := walk.TakeLink(links[k], answers[k]);
      if failure.Some? {
        return;
      }
      TakeLinkGrows(walk.rules, now, links[k], answers[k]);
      StaysPlaced(now.entries, walk.entries, |now.counts|, links);
    }
    return None;
  }

  /** Scans root_dir or the starts. `whole`, `starts` and `run` say which starts were left and how the
      scan went. */
  method ScanScope(collector: Collector, rules: Rules, scope: ScanScope)
      returns (scanned: Scanned, ghost whole: bool, ghost starts: seq<StartPath>, ghost run: Run)
    requires EscapesElements(rules.ctx.escape)
    ensures StartsOf(rules.ctx, scope, whole, starts)
    ensures run == Scan(rules, collector, whole, starts)
    ensures scanned == ScannedOf(run)
  {
    var patterns := MakePatterns(rules.ctx.patterns);
    var everything, kept := true, [];
    if scope.StartsAt? {
      everything, kept := TidyStartPaths(scope.starts, rules.ctx, patterns);
    }
    hide EscapesElements, MakePatterns, Fair, TakeFirst, TakeRound, FirstQuestions, LinkQuestions, Ask, Tidied;
    whole, starts := everything, kept;
    run := Scan(rules, collector, whole, starts);
    var asked := AskFor(collector, 0, FirstQuestions(everything, kept));
    if asked.Refused? {
      return Failure(asked.failure), whole, starts, run;
    }
    var root := RootIdentity(asked.answers[0]);
    if root.RootRefused? {
      return Failure(root.failure), whole, starts, run;
    }
    var walk := new Walk(rules, patterns, Counters(kept));
    var failure := TakeFirstOf(walk, everything, kept, asked.answers, root.id);
    if failure.Some? {
      return Failure(failure.value), whole, starts, run;
    }
    FirstIsFair(rules, whole, starts, asked.answers, root.id);
    ghost var rounds: seq<Round> := [];
    var n := 1;
    while walk.pending != [] && !walk.Stopped()
      invariant walk.Valid() && walk.rules == rules
      invariant Fair(rules, walk.State())
      invariant n == 1 + |rounds|
      invariant run == Rounds(rules, collector, walk.State(), rounds)
      decreases Room(rules, walk.State())
    {
      ghost var before := walk.State();
      var more := AskFor(collector, n, LinkQuestions(walk.pending));
      if more.Refused? {
        return Failure(more.failure), whole, starts, run;
      }
      RoundCounts(rules, before, more.answers);
      failure := TakeRoundOf(walk, more.answers);
      if failure.Some? {
        return Failure(failure.value), whole, starts, run;
      }
      RoomShrinks(rules, before, walk.State());
      rounds := rounds + [Round(before.pending, more.answers)];
      n := n + 1;
    }
    var listing := walk.Finish();
    return Success(listing), whole, starts, run;
  }
}
