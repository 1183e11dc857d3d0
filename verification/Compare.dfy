/** Judging two sides of a path from their states, and settling with hashes what the states leave open. */
module Compare {
  import opened Texts
  import opened ScanData
  import opened OpFailures

  datatype Role = Left | Right | Ref | Target

  datatype Mtime = Mtime(secs: int, nanos: nat, digits: nat)

  datatype SideState =
    | Absent
    | UnreadableName
    | Other
    | File(size: Option<nat>, mtime: Option<Mtime>)
    | Directory
    | Symlink(target: string, pointsTo: LinkPoint)

  datatype Present = First | Second

  datatype SideFailure = SideFailure(role: Role, failure: OpFailure)

  datatype Undecidable =
    | NameUnreadable
    | NotRegularFile(roles: seq<Role>)
    | UnfollowableLink(roles: seq<Role>)
    | ReadFailed(failures: seq<SideFailure>)

  datatype Verdict =
    | BothAbsent
    | Undecided(why: Undecidable)
    | OneSided(present: Present)
    | KindDiffers
    | Same
    | Differs

  datatype Judgement = Decided(verdict: Verdict) | ByContent

  datatype Method = Metadata | Content

  /** The state of a listed entry. */
  function StateOfEntry(entry: ListedEntry): SideState {
    match entry.kind
    case ListedFile => File(Some(entry.size), Some(Mtime(entry.secs, entry.nanos, entry.digits)))
    case ListedDirectory => Directory
    case ListedSymlink(target, pointsTo) => Symlink(target, pointsTo)
    case ListedOther => Other
  }

  /** The state of what a symlink leads to. */
  function FollowedState(pointsTo: LinkPoint): SideState {
    match pointsTo
    case PointsToDirectory => Directory
    case PointsToNothing => Absent
    case PointsToOther => Other
    case PointsNowhere => Other
    case PointsToFile => File(None, None)
  }

  // ----- Judging states -----

  predicate Unfollowable(s: SideState) {
    s.Symlink? && s.pointsTo == PointsNowhere
  }

  /** The roles whose states are marked, the first side's before the second's. */
  function MarkedRoles(first: Role, firstMarked: bool, second: Role, secondMarked: bool): seq<Role> {
    (if firstMarked then [first] else []) + (if secondMarked then [second] else [])
  }

  function PowerOfTen(n: nat): (p: nat)
    ensures p >= 1
  {
    if n == 0 then 1 else 10 * PowerOfTen(n - 1)
  }

  function Least(a: nat, b: nat): nat {
    if a <= b then a else b
  }

  /** The same time to the finest precision both have, if both are finer than a second. */
  predicate SameTime(a: Mtime, b: Mtime) {
    if a.digits == 0 || b.digits == 0 then false
    else
      var unit := PowerOfTen(9 - Least(Least(a.digits, b.digits), 9));
      a.secs == b.secs && a.nanos / unit == b.nanos / unit
  }

  function JudgeFiles(aSize: Option<nat>, aTime: Option<Mtime>, bSize: Option<nat>, bTime: Option<Mtime>,
                      how: Method): Judgement {
    if aSize.Some? && bSize.Some? && aSize != bSize then Decided(Differs)
    else
      var sameSize := aSize.Some? && bSize.Some? && aSize == bSize;
      if how == Metadata && aTime.Some? && bTime.Some? && sameSize && SameTime(aTime.value, bTime.value)
      then Decided(Same)
      else ByContent
  }

  function JudgeStates(first: Role, a: SideState, second: Role, b: SideState, how: Method): Judgement {
    if a == Absent && b == Absent then Decided(BothAbsent)
    else if a == UnreadableName || b == UnreadableName then Decided(Undecided(Undecidable.NameUnreadable))
    else if a == Other || b == Other then
      Decided(Undecided(NotRegularFile(MarkedRoles(first, a == Other, second, b == Other))))
    else if Unfollowable(a) || Unfollowable(b) then
      Decided(Undecided(UnfollowableLink(MarkedRoles(first, Unfollowable(a), second, Unfollowable(b)))))
    else if b == Absent then Decided(OneSided(First))
    else if a == Absent then Decided(OneSided(Second))
    else if a.Symlink? && b.Symlink? then Decided(if a.target == b.target then Same else Differs)
    else if a == Directory && b == Directory then Decided(Same)
    else if a.File? && b.File? then JudgeFiles(a.size, a.mtime, b.size, b.mtime, how)
    else Decided(KindDiffers)
  }

  /** The verdict with the sides exchanged. */
  function Mirrored(v: Verdict): Verdict {
    match v
    case OneSided(present) => OneSided(if present == First then Second else First)
    case Undecided(NotRegularFile(roles)) => Undecided(NotRegularFile(Turned(roles)))
    case Undecided(UnfollowableLink(roles)) => Undecided(UnfollowableLink(Turned(roles)))
    case Undecided(ReadFailed(failures)) => Undecided(ReadFailed(Turned(failures)))
    case _ => v
  }

  function MirroredJudgement(j: Judgement): Judgement {
    if j.Decided? then Decided(Mirrored(j.verdict)) else ByContent
  }

  function Turned<T>(s: seq<T>): seq<T> {
    if s == [] then [] else Turned(s[1..]) + [s[0]]
  }

  lemma TurnedMarks(first: Role, firstMarked: bool, second: Role, secondMarked: bool)
    ensures Turned(MarkedRoles(first, firstMarked, second, secondMarked))
            == MarkedRoles(second, secondMarked, first, firstMarked)
  {
    TurnedShort(first, second);
  }

  lemma TurnedShort<T>(a: T, b: T)
    ensures Turned([a]) == [a] && Turned([a, b]) == [b, a]
  {
    assert Turned([a][1..]) == [];
    assert [a, b][1..] == [b] && Turned([b]) == Turned([b][1..]) + [b];
  }

  /** Exchanging the two sides exchanges them in the judgement and changes nothing else. */
  lemma JudgingIsSymmetric(first: Role, a: SideState, second: Role, b: SideState, how: Method)
    ensures JudgeStates(second, b, first, a, how) == MirroredJudgement(JudgeStates(first, a, second, b, how))
  {
    TurnedMarks(first, a == Other, second, b == Other);
    TurnedMarks(first, Unfollowable(a), second, Unfollowable(b));
    hide Turned, MarkedRoles;
  }

  /** A regular file, a directory, or a symlink that can be followed. */
  predicate Plain(s: SideState) {
    s.File? || s.Directory? || (s.Symlink? && !Unfollowable(s))
  }

  predicate SameKind(a: SideState, b: SideState) {
    (a.File? && b.File?) || (a.Directory? && b.Directory?) || (a.Symlink? && b.Symlink?)
  }

  /** What makes two sides of the same kind the same without reading them. */
  predicate SaysSame(a: SideState, b: SideState, how: Method)
    requires SameKind(a, b)
  {
    if a.Symlink? then a.target == b.target
    else if a.File? then
      && how == Metadata && a.size.Some? && a.size == b.size
      && a.mtime.Some? && b.mtime.Some? && SameTime(a.mtime.value, b.mtime.value)
    else true
  }

  predicate SaysDifferent(a: SideState, b: SideState)
    requires SameKind(a, b)
  {
    if a.Symlink? then a.target != b.target else a.File? && a.size.Some? && b.size.Some? && a.size != b.size
  }

  /** What leaves two sides undecided: first an unreadable name, then other kinds of files, then links that
      cannot be followed, with the sides that are such. */
  function WhyUndecided(first: Role, a: SideState, second: Role, b: SideState): Undecidable {
    if a == UnreadableName || b == UnreadableName then Undecidable.NameUnreadable
    else if a == Other && b == Other then NotRegularFile([first, second])
    else if a == Other then NotRegularFile([first])
    else if b == Other then NotRegularFile([second])
    else if a.Symlink? && a.pointsTo == PointsNowhere && b.Symlink? && b.pointsTo == PointsNowhere then
      UnfollowableLink([first, second])
    else if a.Symlink? && a.pointsTo == PointsNowhere then UnfollowableLink([first])
    else UnfollowableLink([second])
  }

  /** When the judgement is what: two plain sides of one kind are the same or different exactly as they
      say, and contents decide exactly two files that say neither; kinds differ exactly for two plain
      sides of different kinds, a side is missed exactly beside a plain one, and nothing is decided
      exactly beside an unreadable name, another kind of file or a link that cannot be followed. */
  lemma WhatJudgementsMean(first: Role, a: SideState, second: Role, b: SideState, how: Method)
    ensures var j := JudgeStates(first, a, second, b, how);
            && (j == Decided(KindDiffers) <==> Plain(a) && Plain(b) && !SameKind(a, b))
            && (j == ByContent <==> a.File? && b.File? && !SaysDifferent(a, b) && !SaysSame(a, b, how))
            && (j == Decided(Same) <==> Plain(a) && Plain(b) && SameKind(a, b) && SaysSame(a, b, how))
            && (j == Decided(Differs) <==> Plain(a) && Plain(b) && SameKind(a, b) && SaysDifferent(a, b))
            && (j == Decided(OneSided(First)) <==> Plain(a) && b == Absent)
            && (j == Decided(OneSided(Second)) <==> a == Absent && Plain(b))
            && (j == Decided(BothAbsent) <==> a == Absent && b == Absent)
            && (j.Decided? && j.verdict.Undecided? <==> !(Plain(a) || a == Absent) || !(Plain(b) || b == Absent))
            && (j.Decided? && j.verdict.Undecided? ==> j.verdict.why == WhyUndecided(first, a, second, b))
  {
    MarkedAre(first, second);
    hide SameTime, MarkedRoles;
  }

  lemma MarkedAre(first: Role, second: Role)
    ensures MarkedRoles(first, true, second, true) == [first, second]
    ensures MarkedRoles(first, true, second, false) == [first]
    ensures MarkedRoles(first, false, second, true) == [second]
  {
  }

  lemma Distributed(u: nat, a: nat, b: nat)
    ensures u * (a + b) == u * a + u * b
  {
  }

  lemma OneMoreTime(d: nat, a: nat, b: nat)
    requires a > b
    ensures d * a >= d * b + d
  {
    Distributed(d, b, a - b);
    assert d * (a - b) >= d * 1;
  }

  lemma QuotientIs(x: nat, d: nat, q: nat, r: nat)
    requires d >= 1 && x == d * q + r && r < d
    ensures x / d == q
  {
    var other := x / d;
    assert x == d * other + x % d;
    if other > q {
      OneMoreTime(d, other, q);
    } else if other < q {
      OneMoreTime(d, q, other);
    }
  }

  lemma Regrouped(x: nat, u: nat, q: nat, r: nat, tens: nat, ones: nat)
    requires x == u * q + r && r < u && q == 10 * tens + ones && ones < 10
    ensures x == (10 * u) * tens + (u * ones + r)
    ensures u * ones + r < 10 * u
  {
    Distributed(u, 10 * tens, ones);
    assert u * (10 * tens) == (10 * u) * tens;
    if ones < 9 {
      OneMoreTime(u, 9, ones);
    }
  }

  lemma DividedByTen(x: nat, u: nat)
    requires u >= 1
    ensures x / (10 * u) == x / u / 10
  {
    var q, r := x / u, x % u;
    Regrouped(x, u, q, r, q / 10, q % 10);
    QuotientIs(x, 10 * u, q / 10, u * (q % 10) + r);
  }

  lemma {:induction false} SameWhenDividedFurther(x: nat, y: nat, k: nat, n: nat)
    requires k <= n && x / PowerOfTen(k) == y / PowerOfTen(k)
    ensures x / PowerOfTen(n) == y / PowerOfTen(n)
    decreases n - k
  {
    if k < n {
      DividedByTen(x, PowerOfTen(k));
      DividedByTen(y, PowerOfTen(k));
      SameWhenDividedFurther(x, y, k + 1, n);
    }
  }

  lemma PowersOfTen()
    ensures PowerOfTen(0) == 1 && PowerOfTen(3) == 1000 && PowerOfTen(6) == 1000000
    ensures PowerOfTen(9) == 1000000000
  {
    assert PowerOfTen(1) == 10 && PowerOfTen(2) == 100;
    assert PowerOfTen(4) == 10000 && PowerOfTen(5) == 100000;
    assert PowerOfTen(7) == 10000000 && PowerOfTen(8) == 100000000;
  }

  /** Times of the usual precisions: whole seconds never decide, and milliseconds, microseconds and
      nanoseconds decide by being equal in the coarser of the two. */
  lemma SameTimeExactly(a: Mtime, b: Mtime)
    ensures a.digits == 0 || b.digits == 0 ==> !SameTime(a, b)
    ensures (a.digits >= 9 && b.digits >= 9) ==> (SameTime(a, b) <==> a.secs == b.secs && a.nanos == b.nanos)
    ensures (a.digits == 6 && b.digits >= 6) ==>
            (SameTime(a, b) <==> a.secs == b.secs && a.nanos / 1000 == b.nanos / 1000)
    ensures (a.digits == 3 && b.digits >= 3) ==>
              (SameTime(a, b) <==> a.secs == b.secs && a.nanos / 1000000 == b.nanos / 1000000)
    ensures SameTime(a, b) <==> SameTime(b, a)
  {
    PowersOfTen();
    hide PowerOfTen;
  }

  /** Two times that are the same stay the same when one of them is known less precisely, down to a
      tenth of a second. */
  lemma LessPreciseIsStillSame(a: Mtime, b: Mtime, digits: nat)
    requires SameTime(a, b) && 1 <= digits <= a.digits
    ensures SameTime(a.(digits := digits), b)
  {
    var fine, coarse := Least(Least(a.digits, b.digits), 9), Least(Least(digits, b.digits), 9);
    SameWhenDividedFurther(a.nanos, b.nanos, 9 - fine, 9 - coarse);
    hide PowerOfTen;
  }

  // ----- Reading -----

  /** Whether a failure stops the side instead of leaving the pair undecided. */
  predicate Stops(failure: OpFailure) {
    failure.Disconnected? || failure.RootGone?
  }

  datatype ReadOutcome = Read | Unread(why: Undecidable) | StoppedBy(failed: SideFailure)

  function FirstStop(failures: seq<SideFailure>): Option<SideFailure> {
    if failures == [] then None
    else if Stops(failures[0].failure) then Some(failures[0])
    else FirstStop(failures[1..])
  }

  function OutcomeOf(failures: seq<SideFailure>): ReadOutcome {
    match FirstStop(failures)
    case Some(failed) => StoppedBy(failed)
    case None => if failures == [] then Read else Unread(ReadFailed(failures))
  }

  method ReadOutcomeOf(failures: seq<SideFailure>) returns (outcome: ReadOutcome)
    ensures outcome == OutcomeOf(failures)
  {
    var undecidable := [];
    for i := 0 to |failures|
      invariant undecidable == failures[..i] && FirstStop(failures) == FirstStop(failures[i..])
    {
      if Stops(failures[i].failure) {
        return StoppedBy(failures[i]);
      }
      undecidable := undecidable + [failures[i]];
    }
    assert failures[..|failures|] == failures;
    return if undecidable == [] then Read else Unread(ReadFailed(undecidable));
  }

  lemma {:induction false} FirstStopIsOne(failures: seq<SideFailure>)
    ensures FirstStop(failures).Some? <==> exists f :: f in failures && Stops(f.failure)
    ensures FirstStop(failures).Some? ==>
            FirstStop(failures).value in failures && Stops(FirstStop(failures).value.failure)
  {
    if failures != [] {
      FirstStopIsOne(failures[1..]);
      assert failures == [failures[0]] + failures[1..];
    }
  }

  datatype Hash = Hashed(text: string) | Unhashed(failure: OpFailure)

  function HashFailures(first: Role, a: Hash, second: Role, b: Hash): seq<SideFailure> {
    (if a.Unhashed? then [SideFailure(first, a.failure)] else [])
    + (if b.Unhashed? then [SideFailure(second, b.failure)] else [])
  }

  datatype ContentJudgement = ContentDecided(verdict: Verdict) | ContentStopped(failed: SideFailure)

  function JudgeHashes(first: Role, a: Hash, second: Role, b: Hash): ContentJudgement {
    match OutcomeOf(HashFailures(first, a, second, b))
    case StoppedBy(failed) => ContentStopped(failed)
    case Unread(why) => ContentDecided(Undecided(why))
    case Read => ContentDecided(if a == b then Same else Differs)
  }

  /** Hashes decide by being equal, once both are there; a stopping failure of either side stops. */
  lemma HashesDecide(first: Role, a: Hash, second: Role, b: Hash)
    ensures var j := JudgeHashes(first, a, second, b);
            && (j == ContentDecided(Same) <==> a.Hashed? && b.Hashed? && a.text == b.text)
            && (j == ContentDecided(Differs) <==> a.Hashed? && b.Hashed? && a.text != b.text)
            && (j.ContentStopped? <==> (a.Unhashed? && Stops(a.failure)) || (b.Unhashed? && Stops(b.failure)))
            && (j.ContentStopped? ==> Stops(j.failed.failure) && j.failed in HashFailures(first, a, second, b))
            && (j.ContentDecided? ==>
                  j.verdict == Same || j.verdict == Differs || (j.verdict.Undecided? && j.verdict.why.ReadFailed?))
  {
    var failures := HashFailures(first, a, second, b);
    FirstStopIsOne(failures);
    if a.Unhashed? { assert SideFailure(first, a.failure) in failures; }
    if b.Unhashed? { assert SideFailure(second, b.failure) in failures; }
    hide FirstStop;
  }

  // ----- Pairs -----

  datatype Pair = Pair(first: Role, second: Role)

  const PAIRS: seq<Pair> := [Pair(Left, Right), Pair(Left, Ref), Pair(Right, Ref)]

  /** What is known of a path: the states of the sides that were collected, the sides where it is a
      symlink that leads outside root_dir, and the sides that were not collected. */
  datatype PathStates = PathStates(states: map<Role, SideState>, outside: set<Role>, notCollected: set<Role>,
                                   permissions: map<Role, nat>)

  datatype PairJudgement = PairJudgement(pair: Pair, judgement: Judgement, followed: Option<Judgement>)

  function JudgePair(s: PathStates, pair: Pair, how: Method, follow: bool): Option<PairJudgement> {
    if pair.first !in s.states || pair.second !in s.states then None
    else
      var a, b := s.states[pair.first], s.states[pair.second];
      var followed :=
        if follow && a.Symlink? && b.Symlink? && pair.first !in s.outside && pair.second !in s.outside then
          Some(JudgeStates(pair.first, FollowedState(a.pointsTo), pair.second, FollowedState(b.pointsTo), Content))
        else None;
      Some(PairJudgement(pair, JudgeStates(pair.first, a, pair.second, b, how), followed))
  }

  function JudgeEach(s: PathStates, pairs: seq<Pair>, how: Method, follow: bool): (judged: seq<PairJudgement>)
    ensures forall j :: j in judged <==> exists p :: p in pairs && JudgePair(s, p, how, follow) == Some(j)
  {
    if pairs == [] then []
    else
      var first, others := JudgePair(s, pairs[0], how, follow), JudgeEach(s, pairs[1..], how, follow);
      assert pairs == [pairs[0]] + pairs[1..];
      if first.Some? then [first.value] + others else others
  }

  function JudgePairs(s: PathStates, how: Method, follow: bool): seq<PairJudgement> {
    JudgeEach(s, PAIRS, how, follow)
  }

  /** What two links lead to is judged exactly if it is asked for and neither link leaves root_dir, and
      then exactly by where they lead: two directories are the same, two missing targets absent, a file and
      a directory differ in kind, a missing target makes the pair one-sided, two files are read, and
      nothing is decided beside a target of another kind or a link that leads nowhere. */
  lemma FollowedExactly(s: PathStates, pair: Pair, how: Method, follow: bool)
    requires pair.first in s.states && pair.second in s.states
    ensures var a, b := s.states[pair.first], s.states[pair.second];
            var judged := JudgePair(s, pair, how, follow);
            && judged.Some?
            && (judged.value.followed.Some? <==>
                  follow && a.Symlink? && b.Symlink? && pair.first !in s.outside && pair.second !in s.outside)
            && (judged.value.followed.Some? ==> FollowedAs(judged.value.followed.value, a.pointsTo, b.pointsTo))
  {
    hide SameTime;
    var a, b := s.states[pair.first], s.states[pair.second];
    if a.Symlink? && b.Symlink? {
      WhatJudgementsMean(pair.first, FollowedState(a.pointsTo), pair.second, FollowedState(b.pointsTo), Method.Content);
    }
  }

  predicate LeadsToKnown(p: LinkPoint) {
    p == PointsToFile || p == PointsToDirectory
  }

  predicate LeadsAstray(p: LinkPoint) {
    p == PointsToOther || p == PointsNowhere
  }

  ghost predicate FollowedAs(j: Judgement, a: LinkPoint, b: LinkPoint) {
    && (j == ByContent <==> a == PointsToFile && b == PointsToFile)
    && (j == Decided(Same) <==> a == PointsToDirectory && b == PointsToDirectory)
    && (j == Decided(KindDiffers) <==> LeadsToKnown(a) && LeadsToKnown(b) && a != b)
    && (j == Decided(BothAbsent) <==> a == PointsToNothing && b == PointsToNothing)
    && (j == Decided(OneSided(First)) <==> LeadsToKnown(a) && b == PointsToNothing)
    && (j == Decided(OneSided(Second)) <==> a == PointsToNothing && LeadsToKnown(b))
    && (j.Decided? && j.verdict.Undecided? <==> LeadsAstray(a) || LeadsAstray(b))
    && j != Decided(Differs)
  }

  predicate WantsContent(j: PairJudgement) {
    j.judgement == ByContent || j.followed == Some(ByContent)
  }

  /** The sides whose contents the judgements ask for. */
  function HashRoles(judged: seq<PairJudgement>): (roles: set<Role>)
    ensures forall role :: role in roles <==>
              exists j :: j in judged && WantsContent(j) && (role == j.pair.first || role == j.pair.second)
  {
    if judged == [] then {}
    else
      assert judged == [judged[0]] + judged[1..];
      (if WantsContent(judged[0]) then {judged[0].pair.first, judged[0].pair.second} else {}) + HashRoles(judged[1..])
  }

  // ----- Settling -----

  datatype PairVerdict = PairVerdict(pair: Pair, verdict: Verdict, followed: Option<Verdict>)

  type Hashes = map<Role, Hash>

  datatype Settled = Verdicts(pairs: seq<PairVerdict>) | StoppedAt(failed: SideFailure)

  datatype SettledOne = OneVerdict(verdict: Verdict) | OneStopped(failed: SideFailure)

  datatype SettledPair = PairSettled(pair: PairVerdict) | PairStopped(failed: SideFailure)

  function CombineLinkPair(link: Verdict, followed: Verdict): Verdict {
    if link == Same && (followed == Same || followed == BothAbsent) then Same
    else if link == Same && (followed == Differs || followed.OneSided? || followed == KindDiffers) then Differs
    else if (link == Same || link == Differs) && followed.Undecided? then followed
    else link
  }

  function NoHash(role: Role): SideFailure {
    SideFailure(role, Disconnected(NoAnswer))
  }

  function Settle(j: Judgement, pair: Pair, hashes: Hashes): SettledOne {
    match j
    case Decided(verdict) => OneVerdict(verdict)
    case ByContent =>
      if pair.first !in hashes then OneStopped(NoHash(pair.first))
      else if pair.second !in hashes then OneStopped(NoHash(pair.second))
      else
        match JudgeHashes(pair.first, hashes[pair.first], pair.second, hashes[pair.second])
        case ContentDecided(verdict) => OneVerdict(verdict)
        case ContentStopped(failed) => OneStopped(failed)
  }

  function SettlePair(j: PairJudgement, hashes: Hashes): SettledPair {
    match Settle(j.judgement, j.pair, hashes)
    case OneStopped(failed) => PairStopped(failed)
    case OneVerdict(verdict) =>
      match j.followed
      case None => PairSettled(PairVerdict(j.pair, verdict, None))
      case Some(f) =>
        match Settle(f, j.pair, hashes)
        case OneStopped(failed) => PairStopped(failed)
        case OneVerdict(followed) =>
          PairSettled(PairVerdict(j.pair, CombineLinkPair(verdict, followed), Some(followed)))
  }

  function TurnedPair(p: Pair): Pair {
    Pair(p.second, p.first)
  }

  function TurnedJudgement(j: PairJudgement): PairJudgement {
    PairJudgement(TurnedPair(j.pair), MirroredJudgement(j.judgement),
                  if j.followed.Some? then Some(MirroredJudgement(j.followed.value)) else None)
  }

  function TurnedVerdict(v: PairVerdict): PairVerdict {
    PairVerdict(TurnedPair(v.pair), Mirrored(v.verdict),
                if v.followed.Some? then Some(Mirrored(v.followed.value)) else None)
  }

  lemma HashesAreSymmetric(first: Role, a: Hash, second: Role, b: Hash)
    requires JudgeHashes(first, a, second, b).ContentDecided?
    ensures JudgeHashes(second, b, first, a) == ContentDecided(Mirrored(JudgeHashes(first, a, second, b).verdict))
  {
    var failures, turned := HashFailures(first, a, second, b), HashFailures(second, b, first, a);
    TurnedFailures(first, a, second, b);
    assert forall f :: f in turned <==> f in failures;
    FirstStopIsOne(failures);
    FirstStopIsOne(turned);
    hide FirstStop, Turned, HashFailures;
  }

  lemma TurnedFailures(first: Role, a: Hash, second: Role, b: Hash)
    ensures HashFailures(second, b, first, a) == Turned(HashFailures(first, a, second, b))
  {
    if a.Unhashed? && b.Unhashed? {
      TurnedShort(SideFailure(first, a.failure), SideFailure(second, b.failure));
    } else if a.Unhashed? {
      TurnedShort(SideFailure(first, a.failure), SideFailure(first, a.failure));
    } else if b.Unhashed? {
      TurnedShort(SideFailure(second, b.failure), SideFailure(second, b.failure));
    }
  }

  /** What stops a comparison is a side that is gone, the connection to it or its root_dir; any other failure
      only leaves its own pairs undecided. */
  lemma StopsExactly(failure: OpFailure)
    ensures Stops(failure) <==> failure == OpFailure.RootGone || exists how :: failure == Disconnected(how)
    ensures var outcome := OutcomeOf([SideFailure(Left, failure)]);
            if failure == OpFailure.RootGone
              || failure.Disconnected? then outcome == StoppedBy(SideFailure(Left, failure))
            else outcome == Unread(ReadFailed([SideFailure(Left, failure)]))
  {
    if failure.Disconnected? {
      assert failure == Disconnected(failure.how);
    }
    assert FirstStop([SideFailure(Left, failure)][1..]) == None;
  }

  lemma SettleIsSymmetric(j: Judgement, pair: Pair, hashes: Hashes)
    requires Settle(j, pair, hashes).OneVerdict?
    ensures Settle(MirroredJudgement(j), TurnedPair(pair), hashes)
            == OneVerdict(Mirrored(Settle(j, pair, hashes).verdict))
  {
    if j.ByContent? {
      HashesAreSymmetric(pair.first, hashes[pair.first], pair.second, hashes[pair.second]);
    }
    hide JudgeHashes, Mirrored;
  }

  lemma CombiningIsSymmetric(link: Verdict, followed: Verdict)
    ensures CombineLinkPair(Mirrored(link), Mirrored(followed)) == Mirrored(CombineLinkPair(link, followed))
    ensures CombineLinkPair(link, followed) == Same <==> link == Same && (followed == Same || followed == BothAbsent)
    ensures CombineLinkPair(link, followed) == Differs <==>
              || (link == Differs && !followed.Undecided?)
              || (link == Same && (followed == Differs || followed == KindDiffers || followed.OneSided?))
    ensures CombineLinkPair(link, followed).Undecided? <==>
              link.Undecided? || ((link == Same || link == Differs) && followed.Undecided?)
    ensures link != Same && link != Differs ==> CombineLinkPair(link, followed) == link
  {
  }

  /** Exchanging the sides of a pair exchanges them in its settled verdict and changes nothing else. */
  lemma SettlingIsSymmetric(j: PairJudgement, hashes: Hashes)
    requires SettlePair(j, hashes).PairSettled?
    ensures SettlePair(TurnedJudgement(j), hashes) == PairSettled(TurnedVerdict(SettlePair(j, hashes).pair))
  {
    SettleIsSymmetric(j.judgement, j.pair, hashes);
    if j.followed.Some? {
      SettleIsSymmetric(j.followed.value, j.pair, hashes);
      CombiningIsSymmetric(Settle(j.judgement, j.pair, hashes).verdict,
                           Settle(j.followed.value, j.pair, hashes).verdict);
    }
    hide Settle, Mirrored, CombineLinkPair, MirroredJudgement;
  }

  function SettlePairs(judged: seq<PairJudgement>, hashes: Hashes): Settled {
    if judged == [] then Verdicts([])
    else
      match SettlePair(judged[0], hashes)
      case PairStopped(failed) => StoppedAt(failed)
      case PairSettled(pair) =>
        match SettlePairs(judged[1..], hashes)
        case StoppedAt(failed) => StoppedAt(failed)
        case Verdicts(others) => Verdicts([pair] + others)
  }

  predicate Agree(a: Hashes, b: Hashes, role: Role) {
    (role in a <==> role in b) && (role in a ==> a[role] == b[role])
  }

  /** The result depends on no hash but those of the sides that are asked for. */
  lemma {:induction false} OnlyAskedHashesMatter(judged: seq<PairJudgement>, a: Hashes, b: Hashes)
    requires forall role :: role in HashRoles(judged) ==> Agree(a, b, role)
    ensures SettlePairs(judged, a) == SettlePairs(judged, b)
  {
    hide JudgeHashes, CombineLinkPair;
    if judged != [] {
      forall role | role in HashRoles(judged[1..]) ensures Agree(a, b, role) {
        assert role in HashRoles(judged);
      }
      OnlyAskedHashesMatter(judged[1..], a, b);
      assert WantsContent(judged[0]) ==> Agree(a, b, judged[0].pair.first) && Agree(a, b, judged[0].pair.second);
      hide HashRoles;
    }
  }

  /** A side whose answer stops: it is missing, or it is a failure that stops. */
  predicate StopsAt(hashes: Hashes, role: Role) {
    role !in hashes || (hashes[role].Unhashed? && Stops(hashes[role].failure))
  }

  function AnswerOf(hashes: Hashes, role: Role): OpFailure {
    if role in hashes && hashes[role].Unhashed? then hashes[role].failure else Disconnected(NoAnswer)
  }

  lemma SettleStops(j: Judgement, pair: Pair, hashes: Hashes)
    ensures var s := Settle(j, pair, hashes);
            && (s.OneStopped? <==> j.ByContent? && (StopsAt(hashes, pair.first) || StopsAt(hashes, pair.second)))
            && (s.OneStopped? ==>
                  && (s.failed.role == pair.first || s.failed.role == pair.second)
                  && StopsAt(hashes, s.failed.role) && s.failed.failure == AnswerOf(hashes, s.failed.role))
            && (j.ByContent? && s.OneVerdict? ==> !s.verdict.OneSided? && s.verdict != BothAbsent)
  {
    if j.ByContent? && pair.first in hashes && pair.second in hashes {
      HashesDecide(pair.first, hashes[pair.first], pair.second, hashes[pair.second]);
      hide JudgeHashes;
    }
  }

  lemma PairStops(j: PairJudgement, hashes: Hashes)
    ensures var s := SettlePair(j, hashes);
            && (s.PairStopped? <==>
                  WantsContent(j) && (StopsAt(hashes, j.pair.first) || StopsAt(hashes, j.pair.second)))
            && (s.PairStopped? ==>
                  && (s.failed.role == j.pair.first || s.failed.role == j.pair.second)
                  && StopsAt(hashes, s.failed.role) && s.failed.failure == AnswerOf(hashes, s.failed.role))
  {
    SettleStops(j.judgement, j.pair, hashes);
    if j.followed.Some? {
      SettleStops(j.followed.value, j.pair, hashes);
    }
    hide Settle, StopsAt, CombineLinkPair, AnswerOf;
  }

  /** The hashes that are asked for are enough, and each of them is needed: settling stops exactly when
      one of these sides has no answer or an answer that stops, and then it stops for such a side. */
  lemma {:induction false} AskedHashesSuffice(judged: seq<PairJudgement>, hashes: Hashes)
    ensures SettlePairs(judged, hashes).StoppedAt?
            <==> exists role :: role in HashRoles(judged) && StopsAt(hashes, role)
    ensures var s := SettlePairs(judged, hashes);
            s.StoppedAt? ==>
              && s.failed.role in HashRoles(judged) && StopsAt(hashes, s.failed.role)
              && s.failed.failure == AnswerOf(hashes, s.failed.role)
  {
    hide StopsAt, AnswerOf, SettlePair, WantsContent;
    if judged != [] {
      AskedHashesSuffice(judged[1..], hashes);
      PairStops(judged[0], hashes);
      var own := judged[0].pair;
      if WantsContent(judged[0]) {
        assert own.first in HashRoles(judged) && own.second in HashRoles(judged);
      }
      forall role ensures role in HashRoles(judged) <==>
                  role in HashRoles(judged[1..])
                  || (WantsContent(judged[0]) && (role == own.first || role == own.second))
      {
      }
      hide HashRoles;
    }
  }

  // ----- A side that was lost -----

  predicate Involves(pair: Pair, role: Role) {
    pair.first == role || pair.second == role
  }

  function LostVerdict(pair: Pair, lost: SideFailure): PairVerdict {
    PairVerdict(pair, Undecided(ReadFailed([lost])), None)
  }

  function SettleWithLost(judged: seq<PairJudgement>, hashes: Hashes, lost: SideFailure): Settled {
    if judged == [] then Verdicts([])
    else
      var first := if Involves(judged[0].pair, lost.role) then PairSettled(LostVerdict(judged[0].pair, lost))
                   else SettlePair(judged[0], hashes);
      match first
      case PairStopped(failed) => StoppedAt(failed)
      case PairSettled(pair) =>
        match SettleWithLost(judged[1..], hashes, lost)
        case StoppedAt(failed) => StoppedAt(failed)
        case Verdicts(others) => Verdicts([pair] + others)
  }

  function SettleOrLost(judged: seq<PairJudgement>, hashes: Hashes, lost: Option<SideFailure>): Settled {
    match lost
    case None => SettlePairs(judged, hashes)
    case Some(failed) => SettleWithLost(judged, hashes, failed)
  }

  function LosePairs(pairs: seq<PairVerdict>, lost: SideFailure): (kept: seq<PairVerdict>)
    ensures |kept| == |pairs|
  {
    seq(|pairs|, i requires 0 <= i < |pairs| =>
      if Involves(pairs[i].pair, lost.role) then LostVerdict(pairs[i].pair, lost) else pairs[i])
  }

  /** Losing a side while settling is settling first and losing it afterwards. */
  lemma {:induction false} LosingBeforeOrAfter(judged: seq<PairJudgement>, hashes: Hashes, lost: SideFailure)
    requires SettlePairs(judged, hashes).Verdicts?
    ensures SettleOrLost(judged, hashes, Some(lost)) == Verdicts(LosePairs(SettlePairs(judged, hashes).pairs, lost))
  {
    if judged != [] {
      LosingBeforeOrAfter(judged[1..], hashes, lost);
      var pair, others := SettlePair(judged[0], hashes).pair, SettlePairs(judged[1..], hashes).pairs;
      assert pair.pair == judged[0].pair;
      assert LosePairs([pair] + others, lost)[1..] == LosePairs(others, lost);
      hide SettlePair;
    }
  }

  /** A lost side leaves exactly its own pairs undecided, with its failure and nothing followed; the other
      pairs stay as they are. */
  lemma LostExactly(pairs: seq<PairVerdict>, lost: SideFailure, i: nat)
    requires i < |pairs|
    ensures var before, after := pairs[i], LosePairs(pairs, lost)[i];
            after == if before.pair.first == lost.role || before.pair.second == lost.role
                     then PairVerdict(before.pair, Undecided(ReadFailed([lost])), None) else before
  {
  }

  /** The hash of the lost side is not used. */
  lemma {:induction false} LostHashIsNotUsed(judged: seq<PairJudgement>, a: Hashes, b: Hashes, lost: SideFailure)
    requires forall role :: role != lost.role ==> Agree(a, b, role)
    ensures SettleOrLost(judged, a, Some(lost)) == SettleOrLost(judged, b, Some(lost))
  {
    hide JudgeHashes, CombineLinkPair;
    if judged != [] {
      LostHashIsNotUsed(judged[1..], a, b, lost);
      var pair := judged[0].pair;
      if !Involves(pair, lost.role) {
        assert Agree(a, b, pair.first) && Agree(a, b, pair.second);
        assert SettlePair(judged[0], a) == SettlePair(judged[0], b);
      }
      hide SettlePair;
    }
  }

  // ----- Failures while reading for a change -----

  function FailuresOf(failures: seq<SideFailure>, pair: Pair): (own: seq<SideFailure>)
    ensures forall f :: f in own <==> f in failures && Involves(pair, f.role)
  {
    if failures == [] then []
    else
      assert failures == [failures[0]] + failures[1..];
      (if Involves(pair, failures[0].role) then [failures[0]] else []) + FailuresOf(failures[1..], pair)
  }

  function ApplyRead(pair: PairVerdict, failures: seq<SideFailure>): SettledPair {
    match OutcomeOf(FailuresOf(failures, pair.pair))
    case StoppedBy(failed) => PairStopped(failed)
    case Unread(why) => PairSettled(if pair.verdict.Undecided? then pair else pair.(verdict := Undecided(why)))
    case Read => PairSettled(pair)
  }

  function ApplyReads(pairs: seq<PairVerdict>, failures: seq<SideFailure>): Settled {
    if pairs == [] then Verdicts([])
    else
      match ApplyRead(pairs[0], failures)
      case PairStopped(failed) => StoppedAt(failed)
      case PairSettled(pair) =>
        match ApplyReads(pairs[1..], failures)
        case StoppedAt(failed) => StoppedAt(failed)
        case Verdicts(others) => Verdicts([pair] + others)
  }

  /** What reading may do to a pair: nothing if neither side failed, and else it is left undecided, with
      the reason it had or with the failures of its own sides. */
  ghost predicate ReadAs(before: PairVerdict, after: PairVerdict, failures: seq<SideFailure>) {
    && after.pair == before.pair && after.followed == before.followed
    && if before.verdict.Undecided? || forall f :: f in failures ==> !Involves(before.pair, f.role) then after == before
       else after.verdict == Undecided(ReadFailed(FailuresOf(failures, before.pair)))
  }

  /** A side of the pair failed in a way that stops. */
  ghost predicate StoppedIn(pair: Pair, failures: seq<SideFailure>) {
    exists f :: f in failures && Involves(pair, f.role) && Stops(f.failure)
  }

  lemma OneIsReadAs(pair: PairVerdict, failures: seq<SideFailure>)
    ensures ApplyRead(pair, failures).PairStopped? <==> StoppedIn(pair.pair, failures)
    ensures ApplyRead(pair, failures).PairSettled? ==> ReadAs(pair, ApplyRead(pair, failures).pair, failures)
  {
    var own := FailuresOf(failures, pair.pair);
    FirstStopIsOne(own);
    hide FirstStop, FailuresOf, Involves, Stops;
    if own != [] {
      assert own[0] in own;
    }
  }

  ghost predicate SomeStopped(pairs: seq<PairVerdict>, failures: seq<SideFailure>) {
    exists p :: p in pairs && StoppedIn(p.pair, failures)
  }

  ghost predicate AllReadAs(before: seq<PairVerdict>, after: seq<PairVerdict>, failures: seq<SideFailure>) {
    |after| == |before| && forall i :: 0 <= i < |before| ==> ReadAs(before[i], after[i], failures)
  }

  /** Applying read failures stops exactly when a side of some pair failed in a way that stops, and else
      leaves exactly the pairs with a failed side undecided. */
  lemma {:induction false} ReadsAreApplied(pairs: seq<PairVerdict>, failures: seq<SideFailure>)
    ensures ApplyReads(pairs, failures).StoppedAt? <==> SomeStopped(pairs, failures)
    ensures ApplyReads(pairs, failures).Verdicts? ==> AllReadAs(pairs, ApplyReads(pairs, failures).pairs, failures)
  {
    hide ApplyRead, ReadAs, StoppedIn;
    if pairs != [] {
      ReadsAreApplied(pairs[1..], failures);
      OneIsReadAs(pairs[0], failures);
      assert pairs == [pairs[0]] + pairs[1..];
      if SomeStopped(pairs[1..], failures) {
        var p :| p in pairs[1..] && StoppedIn(p.pair, failures);
        assert p in pairs;
      }
      assert pairs[0] in pairs;
    }
  }
}
