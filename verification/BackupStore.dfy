/** The backup store as runs share it: each step is one operation on a directory, and the steps of
    any number of runs and cleanups interleave. */
module BackupStore {
  import opened Texts
  import opened SessionId

  /** The area of one target in a session: its records, whether the records directory exists, and
      whether a save is pending. */
  datatype Area = Area(records: set<string>, hasRecords: bool, pending: bool)

  /** What a run is doing. `Kept` is over but has not given its id back. */
  datatype Phase =
    | Listed(existing: seq<string>)
    | Trying(existing: seq<string>, reservedAt: nat)
    | Holding(id: string)
    | Finishing(id: string)
    | Checking(id: string)
    | Releasing(id: string)
    | Kept(id: string)
    | Ended

  /** What a cleanup is doing; `now` is when its command started. */
  datatype Cleaner =
    | Scanning(now: nat, retention: nat)
    | Removing(now: nat, retention: nat, id: string)
    | Emptied(now: nat, retention: nat, id: string)
    | Unreserving(now: nat, retention: nat, id: string)

  datatype State = State(
    clock: nat,
    reservations: set<string>,
    sessions: map<string, map<string, Area>>,
    runs: map<nat, Phase>,
    cleaners: map<nat, Cleaner>)

  datatype Event =
    | Tick(to: nat)
    | ListReservations(run: nat, existing: seq<string>)
    | ReadClock(run: nat)
    | Mkdir(run: nat, settled: bool)
    | FailToReserve(run: nat)
    | CreateArea(run: nat, key: string)
    | StartSave(run: nat, key: string)
    | CommitSave(run: nat, key: string, record: string)
    | EndSave(run: nat, key: string)
    | Crash(run: nat)
    | Finish(run: nat)
    | TidyRecords(run: nat, key: string)
    | TidyArea(run: nat, key: string)
    | TidySession(run: nat)
    | LookForSession(run: nat)
    | Release(run: nat)
    | BeginCleanup(cleaner: nat, retention: nat)
    | Pick(cleaner: nat, id: string)
    | RemoveArea(cleaner: nat, key: string)
    | LookEmpty(cleaner: nat)
    | RemoveSession(cleaner: nat)
    | Unreserve(cleaner: nat)

  /** The id a run has been handed and has not given back. */
  function Owned(phase: Phase): Option<string> {
    match phase
    case Holding(id) => Some(id)
    case Finishing(id) => Some(id)
    case Checking(id) => Some(id)
    case Releasing(id) => Some(id)
    case Kept(id) => Some(id)
    case _ => None
  }

  function AreaOf(s: State, id: string, key: string): Area {
    if id in s.sessions && key in s.sessions[id] then s.sessions[id][key] else Area({}, false, false)
  }

  /** Writing an area creates its session directory too. */
  function WithArea(s: State, id: string, key: string, area: Area): State {
    var areas := if id in s.sessions then s.sessions[id] else map[];
    s.(sessions := s.sessions[id := areas[key := area]])
  }

  function WithoutArea(s: State, id: string, key: string): State {
    if id in s.sessions then s.(sessions := s.sessions[id := s.sessions[id] - {key}]) else s
  }

  function Now(s: State, run: nat, phase: Phase): State {
    s.(runs := s.runs[run := phase])
  }

  function Cleaning(s: State, cleaner: nat, state: Cleaner): State {
    s.(cleaners := s.cleaners[cleaner := state])
  }

  /** Cleaning gives an id back only a day after the second it names, whatever the retention. */
  predicate Releasable(cal: Calendar, id: string, retention: nat, now: nat) {
    IsExpired(cal, id, if retention < 1 then 1 else retention, now) == Some(true)
  }

  /** One mkdir of the reserve loop, less than a day after the clock was read. */
  function TryMkdir(cal: Calendar, s: State, run: nat, existing: seq<string>, reservedAt: nat,
                    settled: bool): Option<State> {
    if s.clock >= reservedAt + DAY then None else
    match NextSessionId(cal, reservedAt, existing)
    case None => Some(Now(s, run, Ended))
    case Some(id) =>
      if id in s.reservations then Some(Now(s, run, Trying(existing + [id], reservedAt)))
      else
        Some(Now(s.(reservations := s.reservations + {id}), run, if settled then Holding(id) else Kept(id)))
  }

  /** A step of the run that holds `id` and may still write its session. */
  function HolderStep(s: State, e: Event, run: nat, id: string): Option<State> {
    match e
    case CreateArea(_, key) => Some(WithArea(s, id, key, AreaOf(s, id, key).(hasRecords := true)))
    case StartSave(_, key) => Some(WithArea(s, id, key, AreaOf(s, id, key).(pending := true)))
    case CommitSave(_, key, record) =>
      var area := AreaOf(s, id, key);
      if area.hasRecords && area.pending
      then Some(WithArea(s, id, key, area.(records := area.records + {record}))) else None
    case EndSave(_, key) =>
      if id in s.sessions && key in s.sessions[id]
      then Some(WithArea(s, id, key, AreaOf(s, id, key).(pending := false))) else None
    case Crash(_) => Some(Now(s, run, Kept(id)))
    case Finish(_) => Some(Now(s, run, Finishing(id)))
    case _ => None
  }

  /** A step of finish_session: only empty directories are removed. */
  function FinishStep(s: State, e: Event, run: nat, id: string): Option<State> {
    match e
    case TidyRecords(_, key) =>
      if id in s.sessions && key in s.sessions[id] && s.sessions[id][key].records == {}
      then Some(WithArea(s, id, key, s.sessions[id][key].(hasRecords := false))) else None
    case TidyArea(_, key) =>
      if id in s.sessions && key in s.sessions[id] && !s.sessions[id][key].hasRecords && !s.sessions[id][key].pending
      then Some(WithoutArea(s, id, key)) else None
    case TidySession(_) =>
      var tidied := if id in s.sessions && s.sessions[id] == map[] then s.(sessions := s.sessions - {id}) else s;
      Some(Now(tidied, run, Checking(id)))
    case Crash(_) => Some(Now(s, run, Kept(id)))
    case _ => None
  }

  function RunStep(cal: Calendar, s: State, e: Event, run: nat): Option<State>
  {
    if run !in s.runs then
      if e.ListReservations? then Some(Now(s, run, Listed(e.existing))) else None
    else
      match s.runs[run]
      case Listed(existing) =>
        if e.ReadClock? && s.clock < TIMES then Some(Now(s, run, Trying(existing, s.clock)))
        else if e.FailToReserve? then Some(Now(s, run, Ended)) else None
      case Trying(existing, reservedAt) =>
        if e.Mkdir? then TryMkdir(cal, s, run, existing, reservedAt, e.settled)
        else if e.FailToReserve? then Some(Now(s, run, Ended)) else None
      case Holding(id) => HolderStep(s, e, run, id)
      case Finishing(id) => FinishStep(s, e, run, id)
      case Checking(id) =>
        if e.LookForSession? then Some(Now(s, run, if id in s.sessions then Kept(id) else Releasing(id)))
        else if e.Crash? then Some(Now(s, run, Kept(id))) else None
      case Releasing(id) =>
        if e.Release? then Some(Now(s.(reservations := s.reservations - {id}), run, Ended))
        else if e.Crash? then Some(Now(s, run, Kept(id))) else None
      case _ => None
  }

  function CleanStep(cal: Calendar, s: State, e: Event, cleaner: nat): Option<State> {
    if cleaner !in s.cleaners then
      if e.BeginCleanup? then Some(Cleaning(s, cleaner, Scanning(s.clock, e.retention))) else None
    else
      match s.cleaners[cleaner]
      case Scanning(now, retention) =>
        if e.Pick? && IsExpired(cal, e.id, retention, now) == Some(true)
        then Some(Cleaning(s, cleaner, Removing(now, retention, e.id))) else None
      case Removing(now, retention, id) =>
        if e.RemoveArea? then Some(WithoutArea(s, id, e.key))
        else if e.LookEmpty? then
          Some(Cleaning(s, cleaner, if id in s.sessions && s.sessions[id] == map[] then Emptied(now, retention, id)
                                    else Scanning(now, retention)))
        else None
      case Emptied(now, retention, id) =>
        if !e.RemoveSession? then None
        else if id in s.sessions && s.sessions[id] != map[] then Some(Cleaning(s, cleaner, Scanning(now, retention)))
        else
          Some(Cleaning(s.(sessions := s.sessions - {id}), cleaner,
                        if Releasable(cal, id, retention, now) then Unreserving(now, retention, id)
                          else Scanning(now, retention)))
      case Unreserving(now, retention, id) =>
        if e.Unreserve?
        then Some(Cleaning(s.(reservations := s.reservations - {id}), cleaner, Scanning(now, retention)))
        else None
  }

  /** The state after one event, None where the event cannot happen. */
  function Step(cal: Calendar, s: State, e: Event): Option<State> {
    match e
    case Tick(to) => if to >= s.clock then Some(s.(clock := to)) else None
    case BeginCleanup(cleaner, _) => CleanStep(cal, s, e, cleaner)
    case Pick(cleaner, _) => CleanStep(cal, s, e, cleaner)
    case RemoveArea(cleaner, _) => CleanStep(cal, s, e, cleaner)
    case LookEmpty(cleaner) => CleanStep(cal, s, e, cleaner)
    case RemoveSession(cleaner) => CleanStep(cal, s, e, cleaner)
    case Unreserve(cleaner) => CleanStep(cal, s, e, cleaner)
    case _ => RunStep(cal, s, e, e.run)
  }

  // ----- What every step keeps -----

  function TimeOf(cal: Calendar, id: string): nat
    requires Parse(cal, id).Some?
  {
    Parse(cal, id).value.time
  }

  ghost predicate DayOver(cal: Calendar, s: State, id: string)
    requires Parse(cal, id).Some?
  {
    s.clock >= TimeOf(cal, id) + DAY
  }

  /** No new run can be handed `id`: it is reserved, or its day is over. */
  ghost predicate Guarded(cal: Calendar, s: State, id: string) {
    Parse(cal, id).Some? ==> id in s.reservations || DayOver(cal, s, id)
  }

  ghost predicate RunInv(cal: Calendar, s: State, run: nat)
    requires run in s.runs
  {
    match s.runs[run]
    case Trying(_, reservedAt) => reservedAt <= s.clock && reservedAt < TIMES
    case Releasing(id) => id !in s.sessions && Guarded(cal, s, id) && Parse(cal, id).Some?
    case phase => Owned(phase).Some? ==> Guarded(cal, s, Owned(phase).value) && Parse(cal, Owned(phase).value).Some?
  }

  ghost predicate CleanerInv(cal: Calendar, s: State, cleaner: nat)
    requires cleaner in s.cleaners
  {
    var c := s.cleaners[cleaner];
    && c.now <= s.clock
    && (c.Unreserving? ==> Parse(cal, c.id).Some? && DayOver(cal, s, c.id))
    && (c.Removing? || c.Emptied? ==> IsExpired(cal, c.id, c.retention, c.now) == Some(true))
  }

  ghost predicate Inv(cal: Calendar, s: State) {
    && (forall id :: id in s.sessions ==> Guarded(cal, s, id))
    && (forall run :: run in s.runs ==> RunInv(cal, s, run))
    && (forall cleaner :: cleaner in s.cleaners ==> CleanerInv(cal, s, cleaner))
    && (forall a, b :: a in s.runs && b in s.runs && a != b && Owned(s.runs[a]).Some? ==>
          Owned(s.runs[a]) != Owned(s.runs[b]))
  }

  /** Any store left by earlier runs, before a run or a cleanup has begun. */
  ghost predicate Initial(cal: Calendar, s: State) {
    && s.runs == map[] && s.cleaners == map[]
    && RecordsHaveDirectory(s)
    && forall id :: id in s.sessions ==> Guarded(cal, s, id)
  }

  /** What a step of `run` other than a mkdir and a release can change. */
  ghost predicate RunFrame(s: State, t: State, run: nat) {
    && t.clock == s.clock && t.reservations == s.reservations && t.cleaners == s.cleaners
    && run in t.runs && t.runs == s.runs[run := t.runs[run]]
    && (forall id :: id in t.sessions && id !in s.sessions ==> run in s.runs && s.runs[run] == Holding(id))
    && (Owned(t.runs[run]).Some? ==> run in s.runs && Owned(t.runs[run]) == Owned(s.runs[run]))
    && (t.runs[run].Trying? ==> t.runs[run].reservedAt == s.clock < TIMES)
    && (t.runs[run].Releasing? ==> t.runs[run].id !in t.sessions)
  }

  lemma RunStepFrame(cal: Calendar, s: State, e: Event, run: nat)
    requires RunStep(cal, s, e, run).Some? && !e.Mkdir? && !e.Release?
    ensures RunFrame(s, RunStep(cal, s, e, run).value, run)
  {
    var t := RunStep(cal, s, e, run).value;
    assert t.runs == s.runs[run := t.runs[run]];
  }

  lemma SteppingRunInv(cal: Calendar, s: State, t: State, run: nat)
    requires Inv(cal, s) && RunFrame(s, t, run)
    ensures RunInv(cal, t, run)
  {
    hide Parse;
    if run in s.runs {
      assert RunInv(cal, s, run);
    }
  }

  lemma OtherRunInv(cal: Calendar, s: State, t: State, run: nat, other: nat)
    requires Inv(cal, s) && RunFrame(s, t, run) && other in t.runs && other != run
    ensures RunInv(cal, t, other)
  {
    hide Parse;
    assert RunInv(cal, s, other);
    assert t.runs[other] == s.runs[other];
  }

  lemma RunStepKeepsInv(cal: Calendar, s: State, e: Event, run: nat)
    requires Inv(cal, s)
    requires RunStep(cal, s, e, run).Some? && !e.Mkdir? && !e.Release?
    ensures Inv(cal, RunStep(cal, s, e, run).value)
  {
    RunStepFrame(cal, s, e, run);
    var t := RunStep(cal, s, e, run).value;
    GuardedStays(cal, s, t);
    forall id | id in t.sessions ensures Guarded(cal, t, id) {
      if id !in s.sessions {
        assert RunInv(cal, s, run);
      }
      assert Guarded(cal, s, id);
    }
    forall other | other in t.runs ensures RunInv(cal, t, other) {
      if other != run { OtherRunInv(cal, s, t, run, other); } else { SteppingRunInv(cal, s, t, run); }
    }
    hide RunStep, Parse, RunInv, Guarded;
    forall cleaner | cleaner in t.cleaners ensures CleanerInv(cal, t, cleaner) {
      assert CleanerInv(cal, s, cleaner);
    }
  }

  lemma GuardedStays(cal: Calendar, s: State, t: State)
    requires s.reservations <= t.reservations && s.clock <= t.clock
    ensures forall id :: Guarded(cal, s, id) ==> Guarded(cal, t, id)
  {
  }

  lemma MkdirKeepsInv(cal: Calendar, s: State, run: nat, existing: seq<string>, reservedAt: nat, settled: bool)
    requires Sound(cal) && Inv(cal, s)
    requires run in s.runs && s.runs[run] == Trying(existing, reservedAt)
    requires TryMkdir(cal, s, run, existing, reservedAt, settled).Some?
    ensures Inv(cal, TryMkdir(cal, s, run, existing, reservedAt, settled).value)
  {
    hide Parse, NextSessionId;
    assert RunInv(cal, s, run);
    NextIsNew(cal, reservedAt, existing);
    var t := TryMkdir(cal, s, run, existing, reservedAt, settled).value;
    GuardedStays(cal, s, t);
    assert t.runs == s.runs[run := t.runs[run]] && t.sessions == s.sessions && t.cleaners == s.cleaners;
    var id := Owned(t.runs[run]);
    assert id.Some? ==>
           id.value !in s.reservations && Parse(cal, id.value).Some? && TimeOf(cal, id.value) == reservedAt;
    hide TryMkdir;
    forall other | other in t.runs ensures RunInv(cal, t, other) {
      if other != run { assert RunInv(cal, s, other); }
    }
    forall other | other in t.runs && other != run && id.Some? ensures Owned(t.runs[other]) != id {
      assert RunInv(cal, s, other);
    }
    forall cleaner | cleaner in t.cleaners ensures CleanerInv(cal, t, cleaner) {
      assert CleanerInv(cal, s, cleaner);
    }
  }

  lemma ReleaseKeepsInv(cal: Calendar, s: State, run: nat, id: string)
    requires Sound(cal) && Inv(cal, s)
    requires run in s.runs && s.runs[run] == Releasing(id)
    ensures Inv(cal, Now(s.(reservations := s.reservations - {id}), run, Ended))
  {
    hide Parse;
    var t := Now(s.(reservations := s.reservations - {id}), run, Ended);
    assert RunInv(cal, s, run);
    assert Owned(s.runs[run]) == Some(id);
    assert forall other :: other != id && Guarded(cal, s, other) ==> Guarded(cal, t, other);
    assert forall other :: other in t.runs && other != run ==> Owned(t.runs[other]) != Some(id);
  }

  /** What a step of a cleanup can change. */
  ghost predicate CleanFrame(cal: Calendar, s: State, t: State, cleaner: nat) {
    && t.clock == s.clock && t.runs == s.runs && t.sessions.Keys <= s.sessions.Keys
    && cleaner in t.cleaners && t.cleaners == s.cleaners[cleaner := t.cleaners[cleaner]]
    && (t.reservations != s.reservations ==>
          cleaner in s.cleaners && s.cleaners[cleaner].Unreserving?
            && t.reservations == s.reservations - {s.cleaners[cleaner].id})
    && t.cleaners[cleaner].now == (if cleaner in s.cleaners then s.cleaners[cleaner].now else s.clock)
    && var c := t.cleaners[cleaner];
       && (c.Unreserving? ==> Releasable(cal, c.id, c.retention, c.now))
       && (c.Removing? || c.Emptied? ==> IsExpired(cal, c.id, c.retention, c.now) == Some(true))
  }

  lemma CleanStepFrame(cal: Calendar, s: State, e: Event, cleaner: nat)
    requires CleanStep(cal, s, e, cleaner).Some?
    requires cleaner in s.cleaners ==> CleanerInv(cal, s, cleaner)
    ensures CleanFrame(cal, s, CleanStep(cal, s, e, cleaner).value, cleaner)
  {
    hide IsExpired, Parse;
    var t := CleanStep(cal, s, e, cleaner).value;
    assert t.cleaners == s.cleaners[cleaner := t.cleaners[cleaner]];
  }

  lemma CleanStepKeepsInv(cal: Calendar, s: State, e: Event, cleaner: nat)
    requires Inv(cal, s)
    requires CleanStep(cal, s, e, cleaner).Some?
    ensures Inv(cal, CleanStep(cal, s, e, cleaner).value)
  {
    CleanStepFrame(cal, s, e, cleaner);
    hide CleanStep, Parse;
    var t := CleanStep(cal, s, e, cleaner).value;
    if cleaner in s.cleaners {
      assert CleanerInv(cal, s, cleaner);
    }
    forall id | Guarded(cal, s, id) ensures Guarded(cal, t, id) {
    }
    forall other | other in t.cleaners ensures CleanerInv(cal, t, other) {
      if other != cleaner { assert CleanerInv(cal, s, other); }
    }
    forall run | run in t.runs ensures RunInv(cal, t, run) {
      assert RunInv(cal, s, run);
    }
  }

  lemma TickKeepsInv(cal: Calendar, s: State, to: nat)
    requires Inv(cal, s) && s.clock <= to
    ensures Inv(cal, s.(clock := to))
  {
    hide Parse;
    var t := s.(clock := to);
    assert forall id :: Guarded(cal, s, id) ==> Guarded(cal, t, id);
    assert forall run :: run in t.runs ==> RunInv(cal, s, run);
    assert forall cleaner :: cleaner in t.cleaners ==> CleanerInv(cal, s, cleaner);
  }

  lemma StepKeepsInv(cal: Calendar, s: State, e: Event)
    requires Sound(cal) && Inv(cal, s)
    requires Step(cal, s, e).Some?
    ensures Inv(cal, Step(cal, s, e).value)
  {
    hide Inv, HolderStep, FinishStep, TryMkdir;
    match e {
      case Tick(to) => TickKeepsInv(cal, s, to);
      case BeginCleanup(cleaner, _) => CleanStepKeepsInv(cal, s, e, cleaner);
      case Pick(cleaner, _) => CleanStepKeepsInv(cal, s, e, cleaner);
      case RemoveArea(cleaner, _) => CleanStepKeepsInv(cal, s, e, cleaner);
      case LookEmpty(cleaner) => CleanStepKeepsInv(cal, s, e, cleaner);
      case RemoveSession(cleaner) => CleanStepKeepsInv(cal, s, e, cleaner);
      case Unreserve(cleaner) => CleanStepKeepsInv(cal, s, e, cleaner);
      case Mkdir(run, settled) =>
        NotOfOwner(s, e, run);
        MkdirKeepsInv(cal, s, run, s.runs[run].existing, s.runs[run].reservedAt, settled);
      case Release(run) =>
        NotOfOwner(s, e, run);
        ReleaseKeepsInv(cal, s, run, s.runs[run].id);
      case _ => RunStepKeepsInv(cal, s, e, e.run);
    }
  }

  lemma NotOfOwner(s: State, e: Event, run: nat)
    requires e.Mkdir? || e.Release?
    ensures run in s.runs && s.runs[run].Holding? ==> HolderStep(s, e, run, s.runs[run].id) == None
    ensures run in s.runs && s.runs[run].Finishing? ==> FinishStep(s, e, run, s.runs[run].id) == None
  {
  }

  // ----- Whole runs -----

  /** `states` is what the events lead to, one after the other. */
  ghost predicate Execution(cal: Calendar, states: seq<State>, events: seq<Event>) {
    && |states| == |events| + 1
    && Initial(cal, states[0])
    && forall i :: 0 <= i < |events| ==> Step(cal, states[i], events[i]) == Some(states[i + 1])
  }

  lemma {:induction false} InvThroughout(cal: Calendar, states: seq<State>, events: seq<Event>, i: nat)
    requires Sound(cal) && Execution(cal, states, events)
    requires i < |states|
    ensures Inv(cal, states[i])
  {
    if i > 0 {
      hide Inv, Step;
      InvThroughout(cal, states, events, i - 1);
      assert Step(cal, states[i - 1], events[i - 1]) == Some(states[i]);
      StepKeepsInv(cal, states[i - 1], events[i - 1]);
    } else {
      hide Step;
    }
  }

  /** Event `i` hands `id` to `run`. */
  ghost predicate Grants(states: seq<State>, events: seq<Event>, i: nat, run: nat, id: string)
    requires |states| == |events| + 1 && i < |events|
  {
    && events[i].Mkdir? && events[i].run == run
    && run in states[i].runs && Owned(states[i].runs[run]) == None
    && run in states[i + 1].runs && Owned(states[i + 1].runs[run]) == Some(id)
  }

  /** In every interleaving, a newly reserved id names no reservation, no session directory and no
      id another run still has. */
  lemma NewIdIsFree(cal: Calendar, states: seq<State>, events: seq<Event>, i: nat, run: nat, id: string)
    requires Sound(cal) && Execution(cal, states, events)
    requires i < |events| && Grants(states, events, i, run, id)
    ensures id !in states[i].reservations && id !in states[i].sessions && id !in states[i + 1].sessions
    ensures forall other :: other in states[i].runs ==> Owned(states[i].runs[other]) != Some(id)
    ensures Parse(cal, id).Some? && TimeOf(cal, id) <= states[i].clock < TimeOf(cal, id) + DAY
  {
    InvThroughout(cal, states, events, i);
    var s := states[i];
    hide Parse, NextSessionId, HolderStep, FinishStep;
    NotOfOwner(s, events[i], run);
    assert Step(cal, s, events[i]) == Some(states[i + 1]);
    assert s.runs[run].Trying?;
    NextIsNew(cal, s.runs[run].reservedAt, s.runs[run].existing);
    assert !DayOver(cal, s, id) by { assert RunInv(cal, s, run); }
    forall other | other in s.runs ensures Owned(s.runs[other]) != Some(id) {
      assert RunInv(cal, s, other);
    }
  }

  /** One step leaves a run the id it owns, except that the run itself may release it. */
  lemma OwnerKeepsId(cal: Calendar, s: State, e: Event, run: nat, id: string)
    requires run in s.runs && Owned(s.runs[run]) == Some(id)
    requires Step(cal, s, e).Some?
    ensures var t := Step(cal, s, e).value;
            run in t.runs && (Owned(t.runs[run]) == Some(id) || (e == Release(run) && s.runs[run] == Releasing(id)))
  {
    hide Parse, NextSessionId, IsExpired, Releasable, WithArea, WithoutArea, AreaOf;
    if e.BeginCleanup? || e.Pick? || e.RemoveArea? || e.LookEmpty? || e.RemoveSession? || e.Unreserve? {
      hide RunStep, HolderStep, FinishStep;
      CleaningLeavesRuns(cal, s, e, e.cleaner);
    } else if !e.Tick? {
      hide CleanStep;
      RunKeepsOwn(cal, s, e, e.run, run, id);
    }
  }

  lemma CleaningLeavesRuns(cal: Calendar, s: State, e: Event, cleaner: nat)
    requires CleanStep(cal, s, e, cleaner).Some?
    ensures CleanStep(cal, s, e, cleaner).value.runs == s.runs
  {
    hide IsExpired, Releasable;
  }

  lemma RunKeepsOwn(cal: Calendar, s: State, e: Event, stepping: nat, run: nat, id: string)
    requires run in s.runs && Owned(s.runs[run]) == Some(id)
    requires RunStep(cal, s, e, stepping).Some?
    ensures var t := RunStep(cal, s, e, stepping).value;
            run in t.runs
            && (Owned(t.runs[run]) == Some(id) || (e.Release? && stepping == run && s.runs[run] == Releasing(id)))
  {
    if stepping in s.runs && s.runs[stepping].Holding? {
      HolderRuns(s, e, stepping, s.runs[stepping].id);
    }
    if stepping in s.runs && s.runs[stepping].Finishing? {
      FinishRuns(s, e, stepping, s.runs[stepping].id);
    }
    hide Parse, NextSessionId, HolderStep, FinishStep;
  }

  lemma HolderRuns(s: State, e: Event, run: nat, id: string)
    requires HolderStep(s, e, run, id).Some?
    ensures HolderStep(s, e, run, id).value.runs in [s.runs, s.runs[run := Kept(id)], s.runs[run := Finishing(id)]]
  {
  }

  lemma FinishRuns(s: State, e: Event, run: nat, id: string)
    requires FinishStep(s, e, run, id).Some?
    ensures FinishStep(s, e, run, id).value.runs in [s.runs, s.runs[run := Kept(id)], s.runs[run := Checking(id)]]
  {
  }

  lemma {:induction false} OwnedUntilReleased(cal: Calendar, states: seq<State>, events: seq<Event>, i: nat, j: nat,
                                              run: nat, id: string)
    requires Execution(cal, states, events)
    requires i <= j < |states|
    requires run in states[i].runs && Owned(states[i].runs[run]) == Some(id)
    requires forall k :: i <= k < j ==> events[k] != Release(run)
    ensures run in states[j].runs && Owned(states[j].runs[run]) == Some(id)
    decreases j - i
  {
    hide Step;
    if i < j {
      assert Step(cal, states[i], events[i]) == Some(states[i + 1]);
      OwnerKeepsId(cal, states[i], events[i], run, id);
      OwnedUntilReleased(cal, states, events, i + 1, j, run, id);
    }
  }

  /** An id is handed out a second time only after its earlier holder released it. */
  lemma HandedOutAgainOnlyAfterRelease(cal: Calendar, states: seq<State>, events: seq<Event>,
                                       i: nat, j: nat, earlier: nat, later: nat, id: string)
    requires Sound(cal) && Execution(cal, states, events)
    requires i < j < |events|
    requires Grants(states, events, i, earlier, id) && Grants(states, events, j, later, id)
    ensures exists k :: i < k < j && events[k] == Release(earlier)
  {
    if forall k :: i < k < j ==> events[k] != Release(earlier) {
      OwnedUntilReleased(cal, states, events, i + 1, j, earlier, id);
      NewIdIsFree(cal, states, events, j, later, id);
      assert false;
    }
  }

  ghost predicate Stored(s: State, id: string, key: string, record: string) {
    id in s.sessions && key in s.sessions[id] && record in s.sessions[id][key].records
  }

  /** Records lie in a records directory. */
  ghost predicate RecordsHaveDirectory(s: State) {
    forall id, key :: id in s.sessions && key in s.sessions[id] && s.sessions[id][key].records != {} ==>
      s.sessions[id][key].hasRecords
  }

  lemma HolderKeepsRecordsDirectory(s: State, e: Event, run: nat, id: string)
    requires RecordsHaveDirectory(s) && HolderStep(s, e, run, id).Some?
    ensures RecordsHaveDirectory(HolderStep(s, e, run, id).value)
  {
    var t := HolderStep(s, e, run, id).value;
    if t.sessions != s.sessions {
      WithSoundArea(s, id, e.key, AreaOf(t, id, e.key));
      assert t == WithArea(s, id, e.key, AreaOf(t, id, e.key));
    }
  }

  lemma FinishKeepsRecordsDirectory(s: State, e: Event, run: nat, id: string)
    requires RecordsHaveDirectory(s) && FinishStep(s, e, run, id).Some?
    ensures RecordsHaveDirectory(FinishStep(s, e, run, id).value)
  {
    if e.TidyRecords? {
      WithSoundArea(s, id, e.key, s.sessions[id][e.key].(hasRecords := false));
    } else if e.TidyArea? {
      WithoutAreaStaysSound(s, id, e.key);
    }
  }

  lemma WithSoundArea(s: State, id: string, key: string, area: Area)
    requires RecordsHaveDirectory(s)
    requires area.records != {} ==> area.hasRecords
    ensures RecordsHaveDirectory(WithArea(s, id, key, area))
  {
  }

  lemma WithoutAreaStaysSound(s: State, id: string, key: string)
    requires RecordsHaveDirectory(s)
    ensures RecordsHaveDirectory(WithoutArea(s, id, key))
  {
  }

  lemma CleanKeepsRecordsDirectory(cal: Calendar, s: State, e: Event, cleaner: nat)
    requires RecordsHaveDirectory(s) && CleanStep(cal, s, e, cleaner).Some?
    ensures RecordsHaveDirectory(CleanStep(cal, s, e, cleaner).value)
  {
    hide IsExpired, Releasable;
  }

  lemma StepKeepsRecordsDirectory(cal: Calendar, s: State, e: Event)
    requires RecordsHaveDirectory(s) && Step(cal, s, e).Some?
    ensures RecordsHaveDirectory(Step(cal, s, e).value)
  {
    if e.BeginCleanup? || e.Pick? || e.RemoveArea? || e.LookEmpty? || e.RemoveSession? || e.Unreserve? {
      CleanKeepsRecordsDirectory(cal, s, e, e.cleaner);
    } else if !e.Tick? {
      if e.run in s.runs && s.runs[e.run].Holding? {
        HolderKeepsRecordsDirectory(s, e, e.run, s.runs[e.run].id);
      } else if e.run in s.runs && s.runs[e.run].Finishing? {
        FinishKeepsRecordsDirectory(s, e, e.run, s.runs[e.run].id);
      } else {
        hide NextSessionId, RecordsHaveDirectory, HolderStep, FinishStep, CleanStep;
        assert Step(cal, s, e).value.sessions == s.sessions;
        SameSessions(s, Step(cal, s, e).value);
      }
    }
  }

  lemma SameSessions(s: State, t: State)
    requires RecordsHaveDirectory(s) && t.sessions == s.sessions
    ensures RecordsHaveDirectory(t)
  {
  }

  /** A saved record disappears only when a cleanup removes the area of a session whose retention is
      over; finishing a session never removes one. */
  lemma RecordLostOnlyToExpiry(cal: Calendar, s: State, e: Event, id: string, key: string, record: string)
    requires Inv(cal, s) && RecordsHaveDirectory(s) && Step(cal, s, e).Some?
    requires Stored(s, id, key, record) && !Stored(Step(cal, s, e).value, id, key, record)
    ensures e.RemoveArea? && e.key == key && e.cleaner in s.cleaners
    ensures var c := s.cleaners[e.cleaner];
            c.Removing? && c.id == id && Parse(cal, id).Some? && s.clock >= TimeOf(cal, id) + c.retention * DAY
  {
    if e.BeginCleanup? || e.Pick? || e.RemoveArea? || e.LookEmpty? || e.RemoveSession? || e.Unreserve? {
      CleanKeepsRecord(cal, s, e, e.cleaner, id, key, record);
      assert CleanerInv(cal, s, e.cleaner);
    } else if !e.Tick? {
      RunKeepsRecord(cal, s, e, e.run, id, key, record);
      assert false;
    }
  }

  lemma HolderKeepsRecord(s: State, e: Event, run: nat, holding: string, id: string, key: string, record: string)
    requires HolderStep(s, e, run, holding).Some? && Stored(s, id, key, record)
    ensures Stored(HolderStep(s, e, run, holding).value, id, key, record)
  {
  }

  lemma FinishKeepsRecord(s: State, e: Event, run: nat, finishing: string, id: string, key: string, record: string)
    requires RecordsHaveDirectory(s) && FinishStep(s, e, run, finishing).Some? && Stored(s, id, key, record)
    ensures Stored(FinishStep(s, e, run, finishing).value, id, key, record)
  {
    assert s.sessions[id] != map[];
    assert s.sessions[id][key].hasRecords;
  }

  lemma RunKeepsRecord(cal: Calendar, s: State, e: Event, run: nat, id: string, key: string, record: string)
    requires RecordsHaveDirectory(s) && RunStep(cal, s, e, run).Some?
    requires Stored(s, id, key, record)
    ensures Stored(RunStep(cal, s, e, run).value, id, key, record)
  {
    if run in s.runs && s.runs[run].Holding? {
      HolderKeepsRecord(s, e, run, s.runs[run].id, id, key, record);
    } else if run in s.runs && s.runs[run].Finishing? {
      FinishKeepsRecord(s, e, run, s.runs[run].id, id, key, record);
    } else {
      hide NextSessionId, HolderStep, FinishStep;
      assert RunStep(cal, s, e, run).value.sessions == s.sessions;
    }
  }

  lemma CleanKeepsRecord(cal: Calendar, s: State, e: Event, cleaner: nat, id: string, key: string, record: string)
    requires CleanStep(cal, s, e, cleaner).Some?
    requires Stored(s, id, key, record) && !Stored(CleanStep(cal, s, e, cleaner).value, id, key, record)
    ensures e.RemoveArea? && e.key == key && cleaner in s.cleaners
    ensures s.cleaners[cleaner].Removing? && s.cleaners[cleaner].id == id
  {
    hide Parse, IsExpired, Releasable;
    assert s.sessions[id] != map[];
  }

  lemma {:induction false} RecordsHaveDirectoryThroughout(cal: Calendar, states: seq<State>, events: seq<Event>, i: nat)
    requires Execution(cal, states, events) && i < |states|
    ensures RecordsHaveDirectory(states[i])
  {
    hide Step, RecordsHaveDirectory;
    if i > 0 {
      RecordsHaveDirectoryThroughout(cal, states, events, i - 1);
      assert Step(cal, states[i - 1], events[i - 1]) == Some(states[i]);
      StepKeepsRecordsDirectory(cal, states[i - 1], events[i - 1]);
    }
  }

  lemma ClockNeverGoesBack(cal: Calendar, s: State, e: Event)
    requires Step(cal, s, e).Some?
    ensures s.clock <= Step(cal, s, e).value.clock
  {
    hide Parse, NextSessionId, IsExpired;
  }

  lemma {:induction false} ClockGrows(cal: Calendar, states: seq<State>, events: seq<Event>, i: nat, j: nat)
    requires Execution(cal, states, events) && i <= j < |states|
    ensures states[i].clock <= states[j].clock
    decreases j - i
  {
    hide Step;
    if i < j {
      assert Step(cal, states[i], events[i]) == Some(states[i + 1]);
      ClockNeverGoesBack(cal, states[i], events[i]);
      ClockGrows(cal, states, events, i + 1, j);
    }
  }

  /** Over a whole run of the store: while every cleanup uses a retention of at least `days` days and
      the session is younger than that, a record that was saved stays. */
  lemma {:induction false} RecordStaysWhileRetained(cal: Calendar, states: seq<State>, events: seq<Event>,
                                                    i: nat, j: nat, days: nat, id: string, key: string, record: string)
    requires Sound(cal) && Execution(cal, states, events) && i <= j < |states|
    requires Stored(states[i], id, key, record)
    requires Parse(cal, id).Some? && states[j].clock < TimeOf(cal, id) + days * DAY
    requires forall k, c :: i <= k < j && c in states[k].cleaners ==> states[k].cleaners[c].retention >= days
    ensures Stored(states[j], id, key, record)
    decreases j - i
  {
    hide Step, Inv, RecordsHaveDirectory, Stored, Parse;
    if i < j {
      assert Step(cal, states[i], events[i]) == Some(states[i + 1]);
      InvThroughout(cal, states, events, i);
      RecordsHaveDirectoryThroughout(cal, states, events, i);
      ClockGrows(cal, states, events, i, j);
      if !Stored(states[i + 1], id, key, record) {
        RecordLostOnlyToExpiry(cal, states[i], events[i], id, key, record);
        assert false;
      }
      RecordStaysWhileRetained(cal, states, events, i + 1, j, days, id, key, record);
    }
  }
}
