/** What a run and a cleanup of the backup store achieve when all their steps go through. */
module BackupRuns {
  import opened Texts
  import opened SessionId
  import opened BackupStore

  /** The state after the events, None where one of them cannot happen. */
  ghost function After(cal: Calendar, s: State, events: seq<Event>): Option<State>
    decreases |events|
  {
    if events == [] then Some(s) else
    match Step(cal, s, events[0])
    case None => None
    case Some(t) => After(cal, t, events[1..])
  }

  lemma {:induction false} AfterBoth(cal: Calendar, s: State, a: seq<Event>, b: seq<Event>)
    requires After(cal, s, a).Some?
    ensures After(cal, s, a + b) == After(cal, After(cal, s, a).value, b)
    decreases |a|
  {
    hide Step;
    if a == [] {
      assert a + b == b;
    } else {
      AfterBoth(cal, Step(cal, s, a[0]).value, a[1..], b);
      assert (a + b)[1..] == a[1..] + b;
    }
  }

  lemma AfterOne(cal: Calendar, s: State, e: Event)
    ensures After(cal, s, [e]) == Step(cal, s, e)
  {
    hide Step;
  }

  /** One event more. */
  lemma Further(cal: Calendar, s: State, events: seq<Event>, e: Event)
    requires After(cal, s, events).Some?
    ensures After(cal, s, events + [e]) == Step(cal, After(cal, s, events).value, e)
  {
    AfterBoth(cal, s, events, [e]);
    AfterOne(cal, After(cal, s, events).value, e);
  }

  lemma UpdateTwice<K, V>(m: map<K, V>, k: K, a: V, b: V)
    ensures m[k := a][k := b] == m[k := b]
  {
  }

  lemma AreaTwice(s: State, id: string, key: string, a: Area, b: Area)
    ensures WithArea(WithArea(s, id, key, a), id, key, b) == WithArea(s, id, key, b)
    ensures AreaOf(WithArea(s, id, key, a), id, key) == a
  {
    var areas := if id in s.sessions then s.sessions[id] else map[];
    UpdateTwice(areas, key, a, b);
    UpdateTwice(s.sessions, id, areas[key := a], areas[key := b]);
  }

  // ----- Cleaning up -----

  /** At least `days` days of 86400 seconds lie between the second the id names and `now`. */
  ghost predicate DaysPassed(cal: Calendar, id: string, days: nat, now: nat) {
    Parse(cal, id).Some? && now >= Parse(cal, id).value.time + days * 86400
  }

  /** A cleanup can pick exactly the names that are ids whose retention is over. */
  lemma PickedExactlyWhenExpired(cal: Calendar, s: State, cleaner: nat, id: string)
    requires cleaner in s.cleaners && s.cleaners[cleaner].Scanning?
    ensures var c := s.cleaners[cleaner];
            Step(cal, s, Pick(cleaner, id))
              == if DaysPassed(cal, id, c.retention, c.now)
                 then Some(s.(cleaners := s.cleaners[cleaner := Removing(c.now, c.retention, id)])) else None
  {
    ExpiredExactly(cal, id, s.cleaners[cleaner].retention, s.cleaners[cleaner].now);
    hide Parse, IsExpired;
  }

  function RemoveAreas(cleaner: nat, keys: seq<string>): (events: seq<Event>)
    ensures |events| == |keys| && forall i :: 0 <= i < |keys| ==> events[i] == RemoveArea(cleaner, keys[i])
  {
    seq(|keys|, i requires 0 <= i < |keys| => RemoveArea(cleaner, keys[i]))
  }

  lemma {:induction false} AreasAreRemoved(cal: Calendar, s: State, cleaner: nat, id: string, keys: seq<string>)
    requires cleaner in s.cleaners && s.cleaners[cleaner].Removing? && s.cleaners[cleaner].id == id
    requires id in s.sessions
    ensures After(cal, s, RemoveAreas(cleaner, keys))
         == Some(s.(sessions := s.sessions[id := s.sessions[id] - (set key | key in keys)]))
    decreases |keys|
  {
    var events := RemoveAreas(cleaner, keys);
    if keys == [] {
      assert s.sessions[id] - (set key | key in keys) == s.sessions[id];
      assert s.sessions[id := s.sessions[id]] == s.sessions;
    } else {
      var t := WithoutArea(s, id, keys[0]);
      assert Step(cal, s, events[0]) == Some(t);
      AreasAreRemoved(cal, t, cleaner, id, keys[1..]);
      assert events[1..] == RemoveAreas(cleaner, keys[1..]);
      assert s.sessions[id] - {keys[0]} - (set key | key in keys[1..]) == s.sessions[id] - (set key | key in keys);
      assert t.sessions[id := t.sessions[id] - (set key | key in keys[1..])]
          == s.sessions[id := s.sessions[id] - (set key | key in keys)];
    }
  }

  /** The steps up to the look whether the session is empty. */
  ghost function EmptyingEvents(cleaner: nat, id: string, keys: seq<string>): seq<Event> {
    [Pick(cleaner, id)] + RemoveAreas(cleaner, keys) + [LookEmpty(cleaner)]
  }

  /** A cleanup removes the areas of the configured targets, and of no others, from an expired session. */
  lemma AreasOfTargetsAreCleaned(cal: Calendar, s: State, cleaner: nat, id: string, keys: seq<string>)
    requires cleaner in s.cleaners && s.cleaners[cleaner].Scanning? && id in s.sessions
    requires DaysPassed(cal, id, s.cleaners[cleaner].retention, s.cleaners[cleaner].now)
    ensures var c, left := s.cleaners[cleaner], s.sessions[id] - (set key | key in keys);
            After(cal, s, EmptyingEvents(cleaner, id, keys))
              == Some(s.(sessions := s.sessions[id := left],
                         cleaners := s.cleaners[cleaner := if left == map[] then Emptied(c.now, c.retention, id)
                                                           else Scanning(c.now, c.retention)]))
  {
    var c, left := s.cleaners[cleaner], s.sessions[id] - (set key | key in keys);
    var picked := s.(cleaners := s.cleaners[cleaner := Removing(c.now, c.retention, id)]);
    var removed := picked.(sessions := s.sessions[id := left]);
    hide After, Step, Parse;
    PickedExactlyWhenExpired(cal, s, cleaner, id);
    AfterOne(cal, s, Pick(cleaner, id));
    AreasAreRemoved(cal, picked, cleaner, id, keys);
    AfterBoth(cal, s, [Pick(cleaner, id)], RemoveAreas(cleaner, keys));
    Further(cal, s, [Pick(cleaner, id)] + RemoveAreas(cleaner, keys), LookEmpty(cleaner));
    LooksEmpty(cal, removed, cleaner);
    UpdateTwice(s.cleaners, cleaner, Removing(c.now, c.retention, id),
                if left == map[] then Emptied(c.now, c.retention, id) else Scanning(c.now, c.retention));
  }

  lemma LooksEmpty(cal: Calendar, s: State, cleaner: nat)
    requires cleaner in s.cleaners && s.cleaners[cleaner].Removing? && s.cleaners[cleaner].id in s.sessions
    ensures var c := s.cleaners[cleaner];
            Step(cal, s, LookEmpty(cleaner))
              == Some(s.(cleaners :=
                s.cleaners[cleaner := if s.sessions[c.id] == map[] then Emptied(c.now, c.retention, c.id)
                                                           else Scanning(c.now, c.retention)]))
  {
  }

  /** An emptied session goes, and its reservation goes exactly when the retention and at least one day
      have passed. */
  lemma EmptySessionIsCleaned(cal: Calendar, s: State, cleaner: nat)
    requires cleaner in s.cleaners && s.cleaners[cleaner].Emptied?
    requires s.cleaners[cleaner].id in s.sessions && s.sessions[s.cleaners[cleaner].id] == map[]
    ensures var c := s.cleaners[cleaner];
            var release := DaysPassed(cal, c.id, if c.retention == 0 then 1 else c.retention, c.now);
            After(cal, s, [RemoveSession(cleaner)] + (if release then [Unreserve(cleaner)] else []))
              == Some(s.(sessions := s.sessions - {c.id},
                         reservations := if release then s.reservations - {c.id} else s.reservations,
                         cleaners := s.cleaners[cleaner := Scanning(c.now, c.retention)]))
  {
    var c := s.cleaners[cleaner];
    var release := DaysPassed(cal, c.id, if c.retention == 0 then 1 else c.retention, c.now);
    ExpiredExactly(cal, c.id, if c.retention == 0 then 1 else c.retention, c.now);
    hide Parse, IsExpired;
    AfterOne(cal, s, RemoveSession(cleaner));
    var t := After(cal, s, [RemoveSession(cleaner)]).value;
    if release {
      Further(cal, s, [RemoveSession(cleaner)], Unreserve(cleaner));
      assert t.cleaners[cleaner := Scanning(c.now, c.retention)] == s.cleaners[cleaner := Scanning(c.now, c.retention)];
    } else {
      assert [RemoveSession(cleaner)] + [] == [RemoveSession(cleaner)];
    }
  }

  /** An expired session whose areas are all of configured targets disappears in one cleanup. */
  lemma ExpiredSessionDisappears(cal: Calendar, s: State, cleaner: nat, id: string, keys: seq<string>)
    requires cleaner in s.cleaners && s.cleaners[cleaner].Scanning? && id in s.sessions
    requires DaysPassed(cal, id, s.cleaners[cleaner].retention, s.cleaners[cleaner].now)
    requires forall key :: key in s.sessions[id] ==> key in keys
    ensures var c := s.cleaners[cleaner];
            var release := DaysPassed(cal, id, if c.retention == 0 then 1 else c.retention, c.now);
            After(cal, s, EmptyingEvents(cleaner, id, keys)
                          + ([RemoveSession(cleaner)] + (if release then [Unreserve(cleaner)] else [])))
              == Some(s.(sessions := s.sessions - {id},
                         reservations := if release then s.reservations - {id} else s.reservations))
  {
    var c, left := s.cleaners[cleaner], s.sessions[id] - (set key | key in keys);
    assert left == map[];
    AreasOfTargetsAreCleaned(cal, s, cleaner, id, keys);
    var t := After(cal, s, EmptyingEvents(cleaner, id, keys)).value;
    EmptySessionIsCleaned(cal, t, cleaner);
    var release := DaysPassed(cal, id, if c.retention == 0 then 1 else c.retention, c.now);
    AfterBoth(cal, s, EmptyingEvents(cleaner, id, keys),
              [RemoveSession(cleaner)] + (if release then [Unreserve(cleaner)] else []));
    hide After, Parse;
    assert t.cleaners[cleaner := Scanning(c.now, c.retention)] == s.cleaners;
    assert t.sessions - {id} == s.sessions - {id};
  }

  // ----- One run -----

  /** The steps of reserving: list the reservations, read the clock, one mkdir. */
  ghost function ReserveEvents(run: nat, listed: seq<string>): seq<Event> {
    [ListReservations(run, listed), ReadClock(run), Mkdir(run, true)]
  }

  /** All reservations are listed, and the numbers of this second are not used up. */
  ghost predicate CanReserve(cal: Calendar, s: State, run: nat, listed: seq<string>) {
    && Sound(cal) && s.clock < TIMES && run !in s.runs
    && (forall id :: id in s.reservations ==> id in listed)
    && forall text :: text in listed ==> SequenceAt(cal, s.clock, text) != Some(MAX_SEQUENCE)
  }

  /** A run that lists all the reservations holds a new id of this second after one mkdir. */
  lemma ReservesAtOnce(cal: Calendar, s: State, run: nat, listed: seq<string>) returns (id: string)
    requires CanReserve(cal, s, run, listed)
    ensures id !in s.reservations && Parse(cal, id).Some? && Parse(cal, id).value.time == s.clock
    ensures After(cal, s, ReserveEvents(run, listed))
         == Some(s.(reservations := s.reservations + {id}, runs := s.runs[run := Holding(id)]))
  {
    NextIsNew(cal, s.clock, listed);
    hide Parse, NextSessionId, SequenceAt, Sound;
    id := NextSessionId(cal, s.clock, listed).value;
    var a := Now(s, run, Listed(listed));
    var b := Now(a, run, Trying(listed, s.clock));
    AfterOne(cal, s, ListReservations(run, listed));
    Further(cal, s, [ListReservations(run, listed)], ReadClock(run));
    assert [ListReservations(run, listed)] + [ReadClock(run)] == [ListReservations(run, listed), ReadClock(run)];
    Further(cal, s, [ListReservations(run, listed), ReadClock(run)], Mkdir(run, true));
    assert [ListReservations(run, listed), ReadClock(run)] + [Mkdir(run, true)] == ReserveEvents(run, listed);
    assert b.runs[run := Holding(id)] == s.runs[run := Holding(id)];
  }

  /** The steps of one save. */
  ghost function SaveEvents(run: nat, key: string, record: string): seq<Event> {
    [CreateArea(run, key), StartSave(run, key), CommitSave(run, key, record), EndSave(run, key)]
  }

  /** A save adds its record to its own area and changes nothing else. */
  lemma SaveStores(cal: Calendar, s: State, run: nat, id: string, key: string, record: string)
    requires run in s.runs && s.runs[run] == Holding(id)
    ensures var before := if id in s.sessions && key in s.sessions[id] then s.sessions[id][key].records else {};
            var areas := if id in s.sessions then s.sessions[id] else map[];
            After(cal, s, SaveEvents(run, key, record))
              == Some(s.(sessions := s.sessions[id := areas[key := Area(before + {record}, true, false)]]))
  {
    var areas := if id in s.sessions then s.sessions[id] else map[];
    var area := AreaOf(s, id, key);
    var a, b := WithArea(s, id, key, area.(hasRecords := true)),
        WithArea(s, id, key, area.(hasRecords := true, pending := true));
    var c := WithArea(s, id, key, Area(area.records + {record}, true, true));
    var d := WithArea(s, id, key, Area(area.records + {record}, true, false));
    AreaTwice(s, id, key, area.(hasRecords := true), area.(hasRecords := true, pending := true));
    AreaTwice(s, id, key, area.(hasRecords := true, pending := true), Area(area.records + {record}, true, true));
    AreaTwice(s, id, key, Area(area.records + {record}, true, true), Area(area.records + {record}, true, false));
    assert a.runs == s.runs && b.runs == s.runs && c.runs == s.runs;
    assert d == s.(sessions := s.sessions[id := areas[key := Area(area.records + {record}, true, false)]]);
    hide WithArea, AreaOf, Step;
    HolderSteps(cal, s, run, id, key, record);
    HolderSteps(cal, a, run, id, key, record);
    HolderSteps(cal, b, run, id, key, record);
    HolderSteps(cal, c, run, id, key, record);
    FourSteps(cal, s, a, b, c, d, CreateArea(run, key), StartSave(run, key), CommitSave(run, key, record),
              EndSave(run, key));
  }

  lemma HolderSteps(cal: Calendar, s: State, run: nat, id: string, key: string, record: string)
    requires run in s.runs && s.runs[run] == Holding(id)
    ensures var area := AreaOf(s, id, key);
            && Step(cal, s, CreateArea(run, key)) == Some(WithArea(s, id, key, area.(hasRecords := true)))
            && Step(cal, s, StartSave(run, key)) == Some(WithArea(s, id, key, area.(pending := true)))
            && (area.hasRecords && area.pending ==>
                  Step(cal, s, CommitSave(run, key, record))
                    == Some(WithArea(s, id, key, area.(records := area.records + {record}))))
            && (area.pending ==> Step(cal, s, EndSave(run, key)) == Some(WithArea(s, id, key, area.(pending := false))))
            && WithArea(s, id, key, area).runs == s.runs
  {
  }

  lemma FourSteps(cal: Calendar, s: State, a: State, b: State, c: State, d: State, e: Event, f: Event, g: Event,
                  h: Event)
    requires Step(cal, s, e) == Some(a) && Step(cal, a, f) == Some(b)
    requires Step(cal, b, g) == Some(c) && Step(cal, c, h) == Some(d)
    ensures After(cal, s, [e, f, g, h]) == Some(d)
  {
    hide Step;
    AfterOne(cal, c, h);
    assert [e, f, g, h][1..][1..][1..] == [h];
    assert After(cal, b, [e, f, g, h][1..][1..]) == After(cal, c, [h]);
    assert After(cal, a, [e, f, g, h][1..]) == After(cal, b, [e, f, g, h][1..][1..]);
  }

  /** The steps of finishing a session with one area, up to the look whether it is still there. */
  ghost function FinishEvents(run: nat): seq<Event> {
    [Finish(run), TidySession(run), LookForSession(run)]
  }

  /** A session that holds a record is kept with its reservation when it is finished. */
  lemma SavedSessionIsKept(cal: Calendar, s: State, run: nat, id: string, key: string, record: string)
    requires run in s.runs && s.runs[run] == Holding(id) && Stored(s, id, key, record)
    ensures After(cal, s, FinishEvents(run)) == Some(s.(runs := s.runs[run := Kept(id)]))
    ensures var finishing := s.(runs := s.runs[run := Finishing(id)]);
            Step(cal, finishing, TidyRecords(run, key)) == None
  {
    assert s.sessions[id] != map[] by { assert key in s.sessions[id]; }
    var a, b := Now(s, run, Finishing(id)), Now(s, run, Checking(id));
    assert Step(cal, s, Finish(run)) == Some(a);
    assert Step(cal, a, TidySession(run)) == Some(b) by { assert Now(a, run, Checking(id)) == b; }
    UpdateTwice(s.runs, run, Finishing(id), Checking(id));
    UpdateTwice(s.runs, run, Checking(id), Kept(id));
    assert Step(cal, b, LookForSession(run)) == Some(Now(s, run, Kept(id)));
    AfterOne(cal, b, LookForSession(run));
    hide Step;
    assert FinishEvents(run)[1..][1..] == [LookForSession(run)];
    assert After(cal, a, FinishEvents(run)[1..]) == After(cal, b, [LookForSession(run)]);
  }

  /** What a run does that prepares an area and saves nothing. */
  ghost function UnusedEvents(run: nat, key: string): seq<Event> {
    [CreateArea(run, key), Finish(run), TidyRecords(run, key), TidyArea(run, key)]
  }

  lemma UnusedAreaGoes(cal: Calendar, s: State, run: nat, id: string, key: string)
    requires run in s.runs && s.runs[run] == Holding(id) && id !in s.sessions
    ensures After(cal, s, UnusedEvents(run, key))
         == Some(s.(sessions := s.sessions[id := map[]], runs := s.runs[run := Finishing(id)]))
  {
    var a := s.(sessions := s.sessions[id := map[key := Area({}, true, false)]]);
    var b := a.(runs := s.runs[run := Finishing(id)]);
    var c := b.(sessions := s.sessions[id := map[key := Area({}, false, false)]]);
    var d := c.(sessions := s.sessions[id := map[]]);
    assert Step(cal, s, CreateArea(run, key)) == Some(a);
    assert Step(cal, a, Finish(run)) == Some(b);
    assert Step(cal, b, TidyRecords(run, key)) == Some(c) by {
      UpdateTwice(map[], key, Area({}, true, false), Area({}, false, false));
      UpdateTwice(s.sessions, id, map[key := Area({}, true, false)], map[key := Area({}, false, false)]);
    }
    assert Step(cal, c, TidyArea(run, key)) == Some(d) by {
      assert c.sessions[id] - {key} == map[];
      UpdateTwice(s.sessions, id, map[key := Area({}, false, false)], map[]);
    }
    FourSteps(cal, s, a, b, c, d, CreateArea(run, key), Finish(run), TidyRecords(run, key), TidyArea(run, key));
  }

  /** The end of finishing: remove the empty session, look for it, give the id back. */
  ghost function GiveBackEvents(run: nat): seq<Event> {
    [TidySession(run), LookForSession(run), Release(run)]
  }

  lemma GivesBack(cal: Calendar, s: State, run: nat, id: string)
    requires run in s.runs && s.runs[run] == Finishing(id) && id in s.sessions && s.sessions[id] == map[]
    ensures After(cal, s, GiveBackEvents(run))
         == Some(s.(sessions := s.sessions - {id}, reservations := s.reservations - {id}, runs := s.runs[run := Ended]))
  {
    var a := Now(s.(sessions := s.sessions - {id}), run, Checking(id));
    var b := Now(a, run, Releasing(id));
    var c := s.(sessions := s.sessions - {id}, reservations := s.reservations - {id}, runs := s.runs[run := Ended]);
    assert Step(cal, s, TidySession(run)) == Some(a);
    assert Step(cal, a, LookForSession(run)) == Some(b);
    assert Step(cal, b, Release(run)) == Some(c) by { assert b.runs[run := Ended] == s.runs[run := Ended]; }
    AfterOne(cal, b, Release(run));
    hide Step;
    assert GiveBackEvents(run)[1..][1..] == [Release(run)];
    assert After(cal, a, GiveBackEvents(run)[1..]) == After(cal, b, [Release(run)]);
  }

  /** A run that prepares an area and saves nothing leaves the store as it found it. */
  lemma UnusedRunLeavesNothing(cal: Calendar, s: State, run: nat, listed: seq<string>, key: string)
    requires Inv(cal, s) && CanReserve(cal, s, run, listed)
    ensures After(cal, s, ReserveEvents(run, listed) + UnusedEvents(run, key) + GiveBackEvents(run))
         == Some(s.(runs := s.runs[run := Ended]))
  {
    var id := ReservesAtOnce(cal, s, run, listed);
    assert id !in s.sessions by { assert id in s.sessions ==> Guarded(cal, s, id); }
    hide Parse, Step, Inv, CanReserve, After;
    var held := s.(reservations := s.reservations + {id}, runs := s.runs[run := Holding(id)]);
    UnusedAreaGoes(cal, held, run, id, key);
    var empty := held.(sessions := s.sessions[id := map[]], runs := held.runs[run := Finishing(id)]);
    GivesBack(cal, empty, run, id);
    AfterBoth(cal, s, ReserveEvents(run, listed), UnusedEvents(run, key));
    AfterBoth(cal, s, ReserveEvents(run, listed) + UnusedEvents(run, key), GiveBackEvents(run));
    hide ReserveEvents, UnusedEvents, GiveBackEvents;
    AsBefore(s, run, id, held, empty);
  }

  lemma AsBefore(s: State, run: nat, id: string, held: State, empty: State)
    requires id !in s.sessions && id !in s.reservations
    requires held == s.(reservations := s.reservations + {id}, runs := s.runs[run := Holding(id)])
    requires empty == held.(sessions := s.sessions[id := map[]], runs := held.runs[run := Finishing(id)])
    ensures empty.(sessions := empty.sessions - {id}, reservations := empty.reservations - {id}, runs :=
              empty.runs[run := Ended])
         == s.(runs := s.runs[run := Ended])
  {
    assert s.reservations + {id} - {id} == s.reservations;
    assert s.sessions[id := map[]] - {id} == s.sessions;
    UpdateTwice(s.runs, run, Holding(id), Finishing(id));
    UpdateTwice(s.runs, run, Finishing(id), Ended);
  }
}
