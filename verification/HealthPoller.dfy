/** The system-health poller: an event-driven machine with one flight, one timer and a generation. */
module HealthPolling {
  import opened Basics

  const RANGES: seq<string> := ["live", "1h", "24h", "7d", "30d"]
  const FULL_INTERVAL := 60_000

  datatype Job = Current | History(range: string) | Storage | Hardware(refresh: bool)

  function KeyOf(job: Job): string {
    match job
    case Current => "current"
    case History(_) => "history"
    case Storage => "storage"
    case Hardware(_) => "hardware"
  }

  /** A settled request: its value, or the reason it failed. */
  datatype Outcome = Fulfilled(body: string) | Rejected(aborted: bool, message: string)

  /** A stored value together with the request it answered. */
  datatype Loaded = Loaded(job: Job, body: string)

  /** `values` are the current, history, storage and hardware entries that are not null. */
  datatype Data = Data(values: map<string, Loaded>, errors: map<string, string>)

  /** A run suspended at its `await`. */
  datatype Batch = Batch(version: nat, range: string, full: bool, refresh: bool)

  function Jobs(batch: Batch): (jobs: seq<Job>)
    ensures |jobs| == if batch.full then 4 else 1
  {
    [Current] + if batch.full then [History(batch.range), Storage, Hardware(batch.refresh)] else []
  }

  /** The poller's variables, and around them the page's visibility, the timers still armed and the
      runs still suspended. */
  datatype State = State(
    active: bool, paused: bool, range: string, generation: nat, timer: Option<nat>, flight: bool,
    pending: bool, manual: bool, lastFull: int, data: Data,
    visible: bool, armed: set<nat>, issued: nat, suspended: seq<Batch>)

  function Initial(visible: bool): State {
    State(false, false, "live", 0, None, false, false, false, 0, Data(map[], map[]), visible, {}, 0, [])
  }

  /** The clock is read where the source reads it. */
  datatype Event =
    | Enter(now: int)
    | Leave
    | VisibilityChanged(visible: bool, now: int)
    | TogglePause(now: int)
    | SetRange(value: string, now: int)
    | Refresh(now: int)
    | Fire(timer: nat, now: int)
    | Settle(results: seq<Outcome>, now: int)

  // ---- One event -----------------------------------------------------------------------------------

  function Invalidated(s: State): State {
    s.(generation := s.generation + 1, timer := None,
       armed := if s.timer.Some? then s.armed - {s.timer.value} else s.armed)
  }

  predicate Starts(s: State) {
    s.active && s.visible && !s.flight && (s.pending || !s.paused)
  }

  predicate Full(s: State, now: int) {
    s.manual || s.lastFull == 0 || now - s.lastFull >= FULL_INTERVAL
  }

  /** `run` up to its await. */
  function Ran(s: State, now: int): State {
    if !Starts(s) then s else
    s.(pending := false, manual := false, flight := true,
       suspended := s.suspended + [Batch(s.generation, s.range, Full(s, now), s.manual)])
  }

  function Reloaded(s: State, hardware: bool, now: int): State {
    Ran(Invalidated(s).(lastFull := 0, pending := true, manual := s.manual || hardware), now)
  }

  function Store(data: Data, job: Job, outcome: Outcome): Data {
    match outcome
    case Fulfilled(body) => Data(data.values[KeyOf(job) := Loaded(job, body)], data.errors - {KeyOf(job)})
    case Rejected(aborted, message) =>
      if aborted then data
      else data.(errors := data.errors[KeyOf(job) := if message == "" then "Request failed" else message])
  }

  /** The results in request order; the first `n` of them. */
  function StoreAll(data: Data, jobs: seq<Job>, results: seq<Outcome>, n: nat): Data
    requires n <= |jobs| && |results| == |jobs|
  {
    if n == 0 then data else Store(StoreAll(data, jobs, results, n - 1), jobs[n - 1], results[n - 1])
  }

  predicate AllFulfilled(results: seq<Outcome>) {
    forall i :: 0 <= i < |results| ==> results[i].Fulfilled?
  }

  /** Whether a settled batch may be stored. */
  predicate Applies(s: State, batch: Batch) {
    batch.version == s.generation && s.active && s.visible
  }

  function Applied(s: State, batch: Batch, results: seq<Outcome>, now: int): State
    requires |results| == |Jobs(batch)|
  {
    if !Applies(s, batch) then s else
    s.(data := StoreAll(s.data, Jobs(batch), results, |results|),
       lastFull := if batch.full && AllFulfilled(results) then now else s.lastFull)
  }

  function Armed(s: State): State {
    s.(timer := Some(s.issued), armed := s.armed + {s.issued}, issued := s.issued + 1)
  }

  /** `run` from its await on. */
  function Settled(s: State, results: seq<Outcome>, now: int): State
    requires s.suspended != [] && |results| == |Jobs(s.suspended[0])|
  {
    var batch := s.suspended[0];
    var stored := Applied(s.(flight := false, suspended := s.suspended[1..]), batch, results, now);
    if stored.pending then Ran(stored, now)
    else if stored.active && stored.visible && !stored.paused then Armed(stored)
    else stored
  }

  /** A timer fires only while armed, and a batch settles only while suspended, one outcome a job. */
  predicate Enabled(s: State, event: Event) {
    match event
    case Fire(timer, _) => timer in s.armed
    case Settle(results, _) => s.suspended != [] && |results| == |Jobs(s.suspended[0])|
    case _ => true
  }

  function Step(s: State, event: Event): State
    requires Enabled(s, event)
  {
    match event
    case Enter(now) => Reloaded(s.(active := true), false, now)
    case Leave => Invalidated(s.(active := false, pending := false, manual := false))
    case VisibilityChanged(visible, now) =>
      var t := Invalidated(s.(visible := visible));
      if t.active && t.visible && !t.paused then Ran(t.(pending := true, lastFull := 0), now) else t
    case TogglePause(now) =>
      var t := Invalidated(s.(paused := !s.paused, pending := false, manual := false));
      if !t.paused then Reloaded(t, false, now) else t
    case SetRange(value, now) =>
      if value !in RANGES || value == s.range then s
      else Reloaded(s.(range := value, data := s.data.(values := s.data.values - {"history"})), false, now)
    case Refresh(now) => Reloaded(s, true, now)
    case Fire(timer, now) => Ran(s.(armed := s.armed - {timer}), now)
    case Settle(results, now) => Settled(s, results, now)
  }

  // ---- What every event keeps ---------------------------------------------------------------------------

  ghost predicate Invariant(s: State) {
    // at most one batch is in flight, and the flag says so
    && |s.suspended| <= 1 && (s.flight <==> |s.suspended| == 1)
    // an armed timer is the poller's own, and only an idle, visible, running poller has one
    && (s.armed != {} ==> s.timer.Some? && s.armed == {s.timer.value} && !s.flight && s.active && s.visible && !s.paused)
    // a visible, running poller is never stuck
    && (s.active && s.visible && !s.paused ==> s.flight || s.armed != {})
    // a wanted reload waits only for a flight, or for the page to be shown and running
    && (s.pending && !s.flight ==> !s.active || !s.visible || s.paused)
    // a batch of the current generation was started under the current circumstances
    && (s.flight ==>
        && s.suspended[0].version <= s.generation
        && (s.suspended[0].version == s.generation ==> s.active && s.visible && s.suspended[0].range == s.range))
    // stored values answer the request of their own key, and history the current range
    && (forall key :: key in s.data.values ==> KeyOf(s.data.values[key].job) == key)
    && ("history" in s.data.values ==> s.data.values["history"].job == History(s.range))
    && (forall id :: id in s.armed ==> id < s.issued)
  }

  lemma {:induction false} StoreAllKeeps(data: Data, batch: Batch, results: seq<Outcome>, n: nat)
    requires n <= |Jobs(batch)| == |results|
    requires forall key :: key in data.values ==> KeyOf(data.values[key].job) == key
    requires "history" in data.values ==> data.values["history"].job == History(batch.range)
    ensures var after := StoreAll(data, Jobs(batch), results, n);
      && (forall key :: key in after.values ==> KeyOf(after.values[key].job) == key)
      && ("history" in after.values ==> after.values["history"].job == History(batch.range))
  {
    if n > 0 {
      StoreAllKeeps(data, batch, results, n - 1);
    }
  }

  lemma SettleKeeps(s: State, results: seq<Outcome>, now: int)
    requires Invariant(s) && Enabled(s, Settle(results, now))
    ensures Invariant(Settled(s, results, now))
  {
    var batch := s.suspended[0];
    if Applies(s, batch) {
      StoreAllKeeps(s.data, batch, results, |results|);
    }
  }

  lemma ReloadKeeps(s: State, event: Event)
    requires Invariant(s) && (event.Enter? || event.Refresh? || event.SetRange?)
    ensures Invariant(Step(s, event))
  {
  }

  lemma StepKeeps(s: State, event: Event)
    requires Invariant(s) && Enabled(s, event)
    ensures Invariant(Step(s, event))
  {
    match event
    case Settle(results, now) => SettleKeeps(s, results, now);
    case Enter(_) => ReloadKeeps(s, event);
    case Refresh(_) => ReloadKeeps(s, event);
    case SetRange(_, _) => ReloadKeeps(s, event);
    case _ =>
  }

  // ---- Whole runs ------------------------------------------------------------------------------------------

  /** The state after a sequence of events, if each could happen where it stands. */
  function Run(s: State, events: seq<Event>): Option<State> {
    if events == [] then Some(s) else
    match Run(s, events[..|events| - 1])
    case None => None
    case Some(t) => if Enabled(t, events[|events| - 1]) then Some(Step(t, events[|events| - 1])) else None
  }

  lemma {:induction false} RunKeeps(s: State, events: seq<Event>)
    requires Invariant(s) && Run(s, events).Some?
    ensures Invariant(Run(s, events).value)
  {
    if events != [] {
      RunKeeps(s, events[..|events| - 1]);
      StepKeeps(Run(s, events[..|events| - 1]).value, events[|events| - 1]);
    }
  }

  /** After every event sequence: at most one batch is in flight, an armed timer excludes a flight, a
      visible running poller has one or the other, a stopped, hidden or paused one has no timer, and a
      stored history belongs to the current range. */
  lemma NeverStallsNeverDoubles(visible: bool, events: seq<Event>)
    requires Run(Initial(visible), events).Some?
    ensures var s := Run(Initial(visible), events).value;
      && |s.suspended| <= 1 && |s.armed| <= 1
      && (s.armed != {} ==> s.suspended == [])
      && (s.active && s.visible && !s.paused ==> s.suspended != [] || s.armed != {})
      && (!s.active || !s.visible || s.paused ==> s.armed == {})
      && ("history" in s.data.values ==> s.data.values["history"].job == History(s.range))
  {
    RunKeeps(Initial(visible), events);
    var s := Run(Initial(visible), events).value;
    if s.armed != {} {
      assert s.armed == {s.timer.value};
    }
  }

  // ---- Stale answers ---------------------------------------------------------------------------------------

  /** The events that make every earlier answer stale. */
  predicate Invalidates(s: State, event: Event) {
    match event
    case Fire(_, _) => false
    case Settle(_, _) => false
    case SetRange(value, _) => value in RANGES && value != s.range
    case _ => true
  }

  lemma InvalidatedFields(s: State)
    ensures var t := Invalidated(s);
      && t.generation == s.generation + 1
      && t.pending == s.pending && t.lastFull == s.lastFull && t.flight == s.flight && t.suspended == s.suspended
      && t.active == s.active && t.visible == s.visible && t.paused == s.paused
  {
  }

  lemma RanFields(s: State, now: int)
    ensures Ran(s, now).generation == s.generation
    ensures s.flight ==> Ran(s, now) == s
  {
  }

  lemma ReloadedFields(s: State, hardware: bool, now: int)
    ensures var t := Reloaded(s, hardware, now);
      && t.generation == s.generation + 1
      && (s.flight ==> t.pending && t.lastFull == 0 && t.flight && t.suspended == s.suspended)
  {
    hide Invalidated, Ran;
    InvalidatedFields(s);
    RanFields(Invalidated(s).(lastFull := 0, pending := true, manual := s.manual || hardware), now);
  }

  lemma SettledGeneration(s: State, results: seq<Outcome>, now: int)
    requires s.suspended != [] && |results| == |Jobs(s.suspended[0])|
    ensures Settled(s, results, now).generation == s.generation
  {
    hide Ran, StoreAll;
    var batch := s.suspended[0];
    RanFields(Applied(s.(flight := false, suspended := s.suspended[1..]), batch, results, now), now);
  }

  lemma PlainEventsCount(s: State, event: Event)
    requires Enabled(s, event) && (event.Enter? || event.Leave? || event.SetRange? || event.Refresh? || event.Fire?)
    ensures Step(s, event).generation == s.generation + if Invalidates(s, event) then 1 else 0
  {
    hide Invalidated, Ran, Reloaded, Settled;
    match event
    case Enter(now) => ReloadedFields(s.(active := true), false, now);
    case Leave => InvalidatedFields(s.(active := false, pending := false, manual := false));
    case SetRange(value, now) =>
      ReloadedFields(s.(range := value, data := s.data.(values := s.data.values - {"history"})), false, now);
    case Refresh(now) => ReloadedFields(s, true, now);
    case Fire(timer, now) => RanFields(s.(armed := s.armed - {timer}), now);
    case _ =>
  }

  lemma TogglesCount(s: State, event: Event)
    requires Enabled(s, event) && (event.VisibilityChanged? || event.TogglePause?)
    ensures Step(s, event).generation > s.generation
  {
    hide Invalidated, Ran, Reloaded, Settled;
    match event
    case VisibilityChanged(visible, now) =>
      InvalidatedFields(s.(visible := visible));
      RanFields(Invalidated(s.(visible := visible)).(pending := true, lastFull := 0), now);
    case TogglePause(now) =>
      var t := s.(paused := !s.paused, pending := false, manual := false);
      InvalidatedFields(t);
      ReloadedFields(Invalidated(t), false, now);
    case _ =>
  }

  /** Every invalidating event, and no other, moves the generation on. */
  lemma GenerationCounts(s: State, event: Event)
    requires Enabled(s, event)
    ensures Step(s, event).generation >= s.generation
    ensures Step(s, event).generation > s.generation <==> Invalidates(s, event)
  {
    hide Invalidated, Ran, Reloaded, Settled;
    match event
    case VisibilityChanged(_, _) => TogglesCount(s, event);
    case TogglePause(_) => TogglesCount(s, event);
    case Settle(results, now) => SettledGeneration(s, results, now);
    case _ => PlainEventsCount(s, event);
  }

  /** The state before event `i` of a run. */
  ghost function Before(s: State, events: seq<Event>, i: nat): State
    requires i <= |events|
  {
    var r := Run(s, events[..i]);
    if r.Some? then r.value else s
  }

  ghost predicate NoSettle(events: seq<Event>) {
    forall i :: 0 <= i < |events| ==> !events[i].Settle?
  }

  ghost predicate SomeInvalidates(s: State, events: seq<Event>) {
    exists i :: 0 <= i < |events| && Invalidates(Before(s, events, i), events[i])
  }

  lemma BeforeFront(s: State, events: seq<Event>, i: nat)
    requires events != [] && i < |events|
    ensures Before(s, events, i) == Before(s, events[..|events| - 1], i)
  {
    assert events[..|events| - 1][..i] == events[..i];
  }

  lemma RunFront(s: State, events: seq<Event>)
    requires events != [] && Run(s, events).Some?
    ensures var front := events[..|events| - 1];
      && Run(s, front).Some?
      && Before(s, events, |front|) == Run(s, front).value
      && Enabled(Run(s, front).value, events[|front|])
      && Run(s, events).value == Step(Run(s, front).value, events[|front|])
  {
  }

  predicate Asks(s: State, event: Event) {
    match event
    case Enter(_) => true
    case Refresh(_) => true
    case SetRange(value, _) => value in RANGES && value != s.range
    case TogglePause(_) => s.paused
    case VisibilityChanged(visible, _) => visible && s.active && !s.paused
    case _ => false
  }

  predicate Withdraws(s: State, event: Event) {
    event.Leave? || (event.TogglePause? && !s.paused)
  }

  /** An event during a flight: the batch stays, and the wish for a reload comes and goes. */
  lemma FlightStep(s: State, event: Event)
    requires Enabled(s, event) && s.flight && !event.Settle?
    ensures Step(s, event).suspended == s.suspended && Step(s, event).flight
    ensures Step(s, event).pending == (Asks(s, event) || (s.pending && !Withdraws(s, event)))
    ensures s.pending && s.lastFull == 0 && !Withdraws(s, event) ==> Step(s, event).lastFull == 0
    ensures Asks(s, event) ==> Step(s, event).lastFull == 0 && Invalidates(s, event)
  {
    hide Invalidated, Ran, Reloaded;
    match event
    case Enter(now) => ReloadedFields(s.(active := true), false, now);
    case Leave => InvalidatedFields(s.(active := false, pending := false, manual := false));
    case VisibilityChanged(visible, now) =>
      InvalidatedFields(s.(visible := visible));
      RanFields(Invalidated(s.(visible := visible)).(pending := true, lastFull := 0), now);
    case TogglePause(now) =>
      var t := s.(paused := !s.paused, pending := false, manual := false);
      InvalidatedFields(t);
      ReloadedFields(Invalidated(t), false, now);
    case SetRange(value, now) =>
      ReloadedFields(s.(range := value, data := s.data.(values := s.data.values - {"history"})), false, now);
    case Refresh(now) => ReloadedFields(s, true, now);
    case Fire(timer, now) => RanFields(s.(armed := s.armed - {timer}), now);
    case Settle(results, now) =>
  }

  /** During a flight the batch stays the only one, and the generation moves exactly with the first
      invalidating event. */
  lemma {:induction false} FlightGoesOn(s: State, events: seq<Event>)
    requires Invariant(s) && s.flight && Run(s, events).Some? && NoSettle(events)
    ensures var t := Run(s, events).value;
      && Invariant(t) && t.flight && t.suspended == s.suspended
      && t.generation >= s.generation
      && (t.generation > s.generation <==> SomeInvalidates(s, events))
  {
    hide Step, Enabled, Invalidates, Asks, Withdraws, Before;
    if events != [] {
      var front, last := events[..|events| - 1], events[|events| - 1];
      RunFront(s, events);
      FlightGoesOn(s, front);
      var t := Run(s, front).value;
      GenerationCounts(t, last);
      StepKeeps(t, last);
      FlightStep(t, last);
      forall i: nat | i < |front| ensures Before(s, events, i) == Before(s, front, i) {
        BeforeFront(s, events, i);
      }
      if SomeInvalidates(s, front) {
        var i :| 0 <= i < |front| && Invalidates(Before(s, front, i), front[i]);
        assert Invalidates(Before(s, events, i), events[i]);
      }
    }
  }

  /** A settled batch is stored exactly when nothing invalidated it since it began; otherwise data and
      `lastFull` stay as they are. */
  lemma StoredExactlyWhenCurrent(s: State, events: seq<Event>, results: seq<Outcome>, now: int)
    requires Invariant(s) && s.flight && s.suspended[0].version == s.generation
    requires NoSettle(events) && Run(s, events).Some?
    requires |results| == |Jobs(s.suspended[0])|
    ensures var t := Run(s, events).value;
      && Enabled(t, Settle(results, now))
      && var u := Step(t, Settle(results, now));
      && (SomeInvalidates(s, events) ==> u.data == t.data && u.lastFull == t.lastFull)
      && (!SomeInvalidates(s, events) ==>
          && u.data == StoreAll(t.data, Jobs(s.suspended[0]), results, |results|)
          && s.suspended[0].range == t.range)
  {
    FlightGoesOn(s, events);
  }

  // ---- What is stored ------------------------------------------------------------------------------------------

  /** The entries of the page, in the order in which their requests are made. */
  const ENTRIES: seq<string> := ["current", "history", "storage", "hardware"]

  ghost predicate SameEntry(before: Data, after: Data, key: string) {
    && (key in after.values <==> key in before.values) && (key in after.errors <==> key in before.errors)
    && (key in after.values ==> after.values[key] == before.values[key])
    && (key in after.errors ==> after.errors[key] == before.errors[key])
  }

  /** An entry after its request settled: a value replaces value and error, a failure leaves the value and says
      why, an aborted request leaves both. */
  ghost predicate EntryIs(before: Data, after: Data, key: string, job: Job, outcome: Outcome) {
    match outcome
    case Fulfilled(body) => key in after.values && after.values[key] == Loaded(job, body) && key !in after.errors
    case Rejected(aborted, message) =>
      if aborted then SameEntry(before, after, key) else
      && (key in after.values <==> key in before.values) && (key in after.values ==> after.values[key] == before.values[key])
      && key in after.errors && after.errors[key] == if message == "" then "Request failed" else message
  }

  lemma StoreOne(data: Data, job: Job, outcome: Outcome)
    ensures EntryIs(data, Store(data, job, outcome), KeyOf(job), job, outcome)
    ensures forall key :: key != KeyOf(job) ==> SameEntry(data, Store(data, job, outcome), key)
  {
  }

  lemma JobKeys(batch: Batch)
    ensures |Jobs(batch)| <= 4 && forall k :: 0 <= k < |Jobs(batch)| ==> KeyOf(Jobs(batch)[k]) == ENTRIES[k]
    ensures forall j, k :: 0 <= j < k < 4 ==> ENTRIES[j] != ENTRIES[k]
  {
  }

  /** Storing a batch's answers changes exactly the entries it asked for, each by its own answer. */
  lemma {:induction false} AnswersStored(data: Data, batch: Batch, results: seq<Outcome>, n: nat)
    requires n <= |results| == |Jobs(batch)|
    ensures |Jobs(batch)| <= 4
    ensures var after := StoreAll(data, Jobs(batch), results, n);
      && (forall k :: 0 <= k < n ==> EntryIs(data, after, ENTRIES[k], Jobs(batch)[k], results[k]))
      && (forall key :: key !in ENTRIES[..n] ==> SameEntry(data, after, key))
  {
    hide Store, KeyOf, Jobs, SameEntry, EntryIs;
    JobKeys(batch);
    if n > 0 {
      AnswersStored(data, batch, results, n - 1);
      var before, job := StoreAll(data, Jobs(batch), results, n - 1), Jobs(batch)[n - 1];
      var after := Store(before, job, results[n - 1]);
      StoreOne(before, job, results[n - 1]);
      assert ENTRIES[..n] == ENTRIES[..n - 1] + [ENTRIES[n - 1]];
      forall k | 0 <= k < n - 1 ensures EntryIs(data, after, ENTRIES[k], Jobs(batch)[k], results[k]) {
        assert SameEntry(before, after, ENTRIES[k]);
        EntryStays(data, before, after, ENTRIES[k], Jobs(batch)[k], results[k]);
      }
      EntryFrom(data, before, after, ENTRIES[n - 1], job, results[n - 1]);
      forall key | key !in ENTRIES[..n] ensures SameEntry(data, after, key) {
        SameTwice(data, before, after, key);
      }
    } else {
      Unchanged(data);
    }
  }

  lemma Unchanged(data: Data)
    ensures forall key :: SameEntry(data, data, key)
  {
  }

  lemma EntryStays(data: Data, before: Data, after: Data, key: string, job: Job, outcome: Outcome)
    requires EntryIs(data, before, key, job, outcome) && SameEntry(before, after, key)
    ensures EntryIs(data, after, key, job, outcome)
  {
  }

  lemma EntryFrom(data: Data, before: Data, after: Data, key: string, job: Job, outcome: Outcome)
    requires SameEntry(data, before, key) && EntryIs(before, after, key, job, outcome)
    ensures EntryIs(data, after, key, job, outcome)
  {
  }

  lemma SameTwice(data: Data, before: Data, after: Data, key: string)
    requires SameEntry(data, before, key) && SameEntry(before, after, key)
    ensures SameEntry(data, after, key)
  {
  }

  lemma ReloadedData(s: State, hardware: bool, now: int)
    ensures Reloaded(s, hardware, now).data == s.data
  {
  }

  /** Nothing but an answer changes the entries, except that another range empties the history. */
  lemma OthersKeepData(s: State, event: Event)
    requires Enabled(s, event) && !event.Settle?
    ensures var t := Step(s, event);
      if event.SetRange? && event.value in {"live", "1h", "24h", "7d", "30d"} && event.value != s.range
      then "history" !in t.data.values && t.data.errors == s.data.errors
           && forall key :: key != "history" ==> SameEntry(s.data, t.data, key)
      else t.data == s.data
  {
    hide Reloaded;
    match event
    case Enter(now) => ReloadedData(s.(active := true), false, now);
    case Refresh(now) => ReloadedData(s, true, now);
    case SetRange(value, now) => ReloadedData(s.(range := value, data := s.data.(values := s.data.values - {"history"})), false, now);
    case TogglePause(now) => ReloadedData(Invalidated(s.(paused := !s.paused, pending := false, manual := false)), false, now);
    case _ =>
  }

  // ---- A reload asked for during a flight -----------------------------------------------------------------------

  /** Some event asked for a reload, and neither leaving nor pausing came after it. */
  ghost predicate StillWanted(s: State, events: seq<Event>) {
    exists i :: 0 <= i < |events| && WantedSince(s, events, i)
  }

  ghost predicate WantedSince(s: State, events: seq<Event>, i: nat)
    requires i < |events|
  {
    && Asks(Before(s, events, i), events[i])
    && forall j :: i < j < |events| ==> !Withdraws(Before(s, events, j), events[j])
  }

  lemma StillWantedStep(s: State, events: seq<Event>)
    requires events != []
    ensures var front, n := events[..|events| - 1], |events| - 1;
      StillWanted(s, events) <==>
        (Asks(Before(s, events, n), events[n]) || (StillWanted(s, front) && !Withdraws(Before(s, events, n), events[n])))
  {
    hide Asks, Withdraws, Before;
    var front, n := events[..|events| - 1], |events| - 1;
    forall i: nat | i < n ensures Before(s, events, i) == Before(s, front, i) {
      BeforeFront(s, events, i);
    }
    if StillWanted(s, events) {
      var i :| 0 <= i < |events| && WantedSince(s, events, i);
      if i < n {
        assert WantedSince(s, front, i);
      }
    }
    if StillWanted(s, front) && !Withdraws(Before(s, events, n), events[n]) {
      var i :| 0 <= i < |front| && WantedSince(s, front, i);
      assert WantedSince(s, events, i);
    }
    if Asks(Before(s, events, n), events[n]) {
      assert WantedSince(s, events, n);
    }
  }

  lemma {:induction false} PendingExactly(s: State, events: seq<Event>)
    requires Invariant(s) && s.flight && !s.pending && NoSettle(events) && Run(s, events).Some?
    ensures var t := Run(s, events).value;
      && t.flight
      && (t.pending <==> StillWanted(s, events))
      && (t.pending ==> t.lastFull == 0 && t.generation > s.generation)
  {
    if events != [] {
      var front := events[..|events| - 1];
      RunFront(s, events);
      PendingExactly(s, front);
      FlightGoesOn(s, front);
      FlightStep(Run(s, front).value, events[|front|]);
      GenerationCounts(Run(s, front).value, events[|front|]);
      StillWantedStep(s, events);
    }
  }

  /** When a flight ends, a new batch starts at once exactly when the poller is active and visible and a
      reload asked for during the flight is still wanted; that batch is full and of the current
      generation and range. */
  lemma RestartsExactlyWhenWanted(s: State, events: seq<Event>, results: seq<Outcome>, now: int)
    requires Invariant(s) && s.flight && !s.pending && s.suspended[0].version == s.generation
    requires NoSettle(events) && Run(s, events).Some?
    requires |results| == |Jobs(s.suspended[0])|
    ensures var t := Run(s, events).value;
      && Enabled(t, Settle(results, now))
      && var u := Step(t, Settle(results, now));
      && (u.flight <==> t.active && t.visible && StillWanted(s, events))
      && (u.flight ==> u.suspended == [Batch(u.generation, u.range, true, t.manual)])
  {
    FlightGoesOn(s, events);
    PendingExactly(s, events);
  }

  /** A reload asked for during a flight is not always followed by a batch, even if the poller is still
      active and visible when the flight ends: pausing in between withdraws it. */
  lemma PauseWithdrawsReload(results: seq<Outcome>)
    requires |results| == 4
    ensures var events := [Enter(1), Refresh(2), TogglePause(3), Settle(results, 4)];
      && Run(Initial(true), events).Some?
      && var t := Run(Initial(true), events).value;
      && t.active && t.visible && !t.flight && t.armed == {}
  {
    var s0 := Initial(true);
    var s1 := Step(s0, Enter(1));
    assert s1.flight && s1.suspended == [Batch(1, "live", true, false)];
    RefreshThenPause(s1, results);
    RunFour(s0, Enter(1), Refresh(2), TogglePause(3), Settle(results, 4));
  }

  lemma RunFour(s: State, a: Event, b: Event, c: Event, d: Event)
    requires Enabled(s, a) && Enabled(Step(s, a), b) && Enabled(Step(Step(s, a), b), c)
    requires Enabled(Step(Step(Step(s, a), b), c), d)
    ensures Run(s, [a, b, c, d]) == Some(Step(Step(Step(Step(s, a), b), c), d))
  {
    hide Step, Enabled;
    RunStep(s, [], a);
    assert [] + [a] == [a];
    RunStep(s, [a], b);
    assert [a] + [b] == [a, b];
    RunStep(s, [a, b], c);
    assert [a, b] + [c] == [a, b, c];
    RunStep(s, [a, b, c], d);
    assert [a, b, c] + [d] == [a, b, c, d];
  }

  lemma RefreshThenPause(s: State, results: seq<Outcome>)
    requires s.flight && s.active && s.visible && !s.paused && s.armed == {} && s.generation == 1
    requires s.suspended == [Batch(1, "live", true, false)] && |results| == 4
    ensures var t := Step(Step(s, Refresh(2)), TogglePause(3));
      && Enabled(t, Settle(results, 4))
      && var u := Step(t, Settle(results, 4));
      && u.active && u.visible && !u.flight && u.armed == {}
  {
    var r := Step(s, Refresh(2));
    assert r.flight && r.active && r.visible && !r.paused && r.armed == {} && r.generation == 2 && r.suspended == s.suspended;
    var t := Step(r, TogglePause(3));
    assert t.flight && t.active && t.visible && t.paused && t.armed == {} && t.generation == 3 && t.suspended == s.suspended;
  }

  lemma RunStep(s: State, events: seq<Event>, event: Event)
    requires Run(s, events).Some? && Enabled(Run(s, events).value, event)
    ensures Run(s, events + [event]) == Some(Step(Run(s, events).value, event))
  {
    assert (events + [event])[..|events|] == events;
  }
}

/** The poller as the page runs it: a closure's variables, changed by each event. */
module HealthPollerObject {
  import opened Basics
  import opened HealthPolling

  /** The browser around the poller: visibility, armed timers, suspended runs. */
  class Page {
    var visible: bool
    var armed: set<nat>
    var issued: nat
    var suspended: seq<Batch>

    constructor (visible: bool)
      ensures this.visible == visible && armed == {} && issued == 0 && suspended == []
    {
      this.visible := visible;
      armed, issued, suspended := {}, 0, [];
    }

    method Schedule() returns (id: nat)
      modifies `armed, `issued
      ensures id == old(issued) && armed == old(armed) + {id} && issued == old(issued) + 1
    {
      id := issued;
      armed, issued := armed + {id}, issued + 1;
    }

    method Unschedule(id: Option<nat>)
      modifies `armed
      ensures armed == if id.Some? then old(armed) - {id.value} else old(armed)
    {
      if id.Some? {
        armed := armed - {id.value};
      }
    }
  }

  class HealthPoller {
    const page: Page
    var active: bool
    var paused: bool
    var range: string
    var generation: nat
    var timer: Option<nat>
    var flight: bool
    var pending: bool
    var manual: bool
    var lastFull: int
    var data: Data

    ghost function View(): State
      reads this, page
    {
      State(active, paused, range, generation, timer, flight, pending, manual, lastFull, data,
            page.visible, page.armed, page.issued, page.suspended)
    }

    constructor (page: Page)
      requires page.armed == {} && page.issued == 0 && page.suspended == []
      ensures this.page == page && View() == Initial(page.visible)
    {
      this.page := page;
      active, paused, range, generation, timer := false, false, "live", 0, None;
      flight, pending, manual, lastFull := false, false, false, 0;
      data := Data(map[], map[]);
    }

    method Invalidate()
      modifies this, page
      ensures View() == Invalidated(old(View()))
    {
      generation := generation + 1;
      page.Unschedule(timer);
      timer := None;
    }

    method Run(now: int)
      modifies this, page
      ensures View() == Ran(old(View()), now)
    {
      if !active || !page.visible || flight || (!pending && paused) {
        return;
      }
      pending := false;
      var version, selectedRange, refreshHardware := generation, range, manual;
      manual := false;
      var full := refreshHardware || lastFull == 0 || now - lastFull >= FULL_INTERVAL;
      flight := true;
      page.suspended := page.suspended + [Batch(version, selectedRange, full, refreshHardware)];
    }

    method Reload(hardware: bool, now: int)
      modifies this, page
      ensures View() == Reloaded(old(View()), hardware, now)
    {
      Invalidate();
      lastFull := 0;
      pending := true;
      manual := manual || hardware;
      Run(now);
    }

    method OnEnter(now: int)
      modifies this, page
      ensures View() == Step(old(View()), Enter(now))
    {
      active := true;
      Reload(false, now);
    }

    method OnLeave()
      modifies this, page
      ensures View() == Step(old(View()), Leave)
    {
      active, pending, manual := false, false, false;
      Invalidate();
    }

    method OnVisibilityChanged(visible: bool, now: int)
      modifies this, page
      ensures View() == Step(old(View()), VisibilityChanged(visible, now))
    {
      page.visible := visible;
      Invalidate();
      if active && page.visible && !paused {
        pending, lastFull := true, 0;
        Run(now);
      }
    }

    method OnTogglePause(now: int)
      modifies this, page
      ensures View() == Step(old(View()), TogglePause(now))
    {
      paused, pending, manual := !paused, false, false;
      Invalidate();
      if !paused {
        Reload(false, now);
      }
    }

    method OnSetRange(value: string, now: int)
      modifies this, page
      ensures View() == Step(old(View()), SetRange(value, now))
    {
      if value !in RANGES || range == value {
        return;
      }
      range := value;
      data := data.(values := data.values - {"history"});
      Reload(false, now);
    }

    method OnRefresh(now: int)
      modifies this, page
      ensures View() == Step(old(View()), Refresh(now))
    {
      Reload(true, now);
    }

    method OnFire(id: nat, now: int)
      requires id in page.armed
      modifies this, page
      ensures View() == Step(old(View()), Fire(id, now))
    {
      page.armed := page.armed - {id};
      Run(now);
    }

    /** The continuation of `run`: the results are stored in a loop, job by job. */
    method OnSettle(results: seq<Outcome>, now: int)
      requires page.suspended != [] && |results| == |Jobs(page.suspended[0])|
      modifies this, page
      ensures View() == Step(old(View()), Settle(results, now))
    {
      hide StoreAll, AllFulfilled, Ran, Invalidated, Reloaded, Full, Starts, Jobs;
      var batch := page.suspended[0];
      page.suspended := page.suspended[1..];
      flight := false;
      if batch.version == generation && active && page.visible {
        StoreResults(Jobs(batch), results);
        if batch.full && AllFulfilled(results) {
          lastFull := now;
        }
      }
      if pending {
        Run(now);
        return;
      }
      if active && page.visible && !paused {
        var id := page.Schedule();
        timer := Some(id);
      }
    }

    method StoreResults(jobs: seq<Job>, results: seq<Outcome>)
      requires |results| == |jobs|
      modifies `data
      ensures data == StoreAll(old(data), jobs, results, |results|)
    {
      var i := 0;
      while i < |results|
        invariant 0 <= i <= |results|
        invariant data == StoreAll(old(data), jobs, results, i)
      {
        var key := KeyOf(jobs[i]);
        match results[i] {
          case Fulfilled(body) =>
            data := Data(data.values[key := Loaded(jobs[i], body)], data.errors - {key});
          case Rejected(aborted, message) =>
            if !aborted {
              data := data.(errors := data.errors[key := if message == "" then "Request failed" else message]);
            }
        }
        i := i + 1;
      }
    }
  }
}
