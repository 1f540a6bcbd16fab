/** The poller seen from outside: what the events so far call for, without generations, timers or flags. */
module HealthLedger {
  import opened Basics
  import opened HealthPolling

  /** A batch under way: whether it asks for everything, and whether an event has made its answer stale. */
  datatype Flying = Flying(full: bool, stale: bool)

  /** What is known from the events: the circumstances; a reload and a hardware refresh that were asked for and
      neither begun nor withdrawn; when the last complete full batch was stored since a reload was asked for;
      and the batch under way. */
  datatype Ledger = Ledger(
    active: bool, shown: bool, paused: bool, range: string,
    reload: bool, hardware: bool, stored: Option<int>, flying: Option<Flying>)

  function Opened(shown: bool): Ledger {
    Ledger(false, shown, false, "live", false, false, None, None)
  }

  // ---- The circumstances -----------------------------------------------------------------------------------

  /** The last of entering and leaving decides, the last report of visibility, the number of toggles, and the
      last range that exists. */
  function Moved(h: Ledger, event: Event): Ledger {
    match event
    case Enter(_) => h.(active := true)
    case Leave => h.(active := false)
    case VisibilityChanged(visible, _) => h.(shown := visible)
    case TogglePause(_) => h.(paused := !h.paused)
    case SetRange(value, _) => if value in {"live", "1h", "24h", "7d", "30d"} then h.(range := value) else h
    case _ => h
  }

  /** Entering, refreshing, another range, resuming, and being shown while running ask for a reload. */
  predicate AsksReload(h: Ledger, event: Event) {
    match event
    case Enter(_) => true
    case Refresh(_) => true
    case SetRange(value, _) => Moved(h, event).range != h.range
    case TogglePause(_) => h.paused
    case VisibilityChanged(visible, _) => visible && h.active && !h.paused
    case _ => false
  }

  /** Everything but a timer, an answer, and a range that changes nothing makes the answer under way stale. */
  predicate MakesStale(h: Ledger, event: Event) {
    !event.Fire? && !event.Settle? && (event.SetRange? ==> Moved(h, event).range != h.range)
  }

  /** Leaving and pausing take a reload back; leaving, pausing and resuming a hardware refresh. */
  predicate ReloadDue(h: Ledger, event: Event) {
    AsksReload(h, event) || (h.reload && !event.Leave? && !event.TogglePause?)
  }

  predicate HardwareDue(h: Ledger, event: Event) {
    event.Refresh? || (h.hardware && !event.Leave? && !event.TogglePause?)
  }

  /** A complete full batch whose answer is not stale is stored when it settles; a reload forgets it. */
  function StoredAt(h: Ledger, event: Event): Option<int> {
    if AsksReload(h, event) then None
    else match event
      case Settle(results, now) =>
        if h.flying.Some? && h.flying.value.full && !h.flying.value.stale && (forall i :: 0 <= i < |results| ==> results[i].Fulfilled?)
        then Some(now) else h.stored
      case _ => h.stored
  }

  /** A batch begins with an event that asks for a reload while none is under way, with the timer, or with an
      answer that a wanted reload has waited for; the poller being active and shown. */
  predicate Begins(h: Ledger, event: Event) {
    && Moved(h, event).active && Moved(h, event).shown
    && match event
       case Settle(_, _) => h.reload
       case Fire(_, _) => true
       case _ => h.flying.None? && AsksReload(h, event)
  }

  function TimeOf(event: Event): int {
    match event
    case Enter(now) => now
    case Leave => 0
    case VisibilityChanged(_, now) => now
    case TogglePause(now) => now
    case SetRange(_, now) => now
    case Refresh(now) => now
    case Fire(_, now) => now
    case Settle(_, now) => now
  }

  /** A batch begun by this event is full: a hardware refresh is wanted, nothing complete is stored since the
      last reload, or what is stored is a minute old. (A clock reading of zero counts as nothing.) */
  predicate FullDue(h: Ledger, event: Event) {
    || HardwareDue(h, event)
    || match StoredAt(h, event)
       case None => true
       case Some(at) => at == 0 || TimeOf(event) - at >= 60_000
  }

  function Noted(h: Ledger, event: Event): Ledger {
    var begins := Begins(h, event);
    Moved(h, event).(
      reload := ReloadDue(h, event) && !begins,
      hardware := HardwareDue(h, event) && !begins,
      stored := StoredAt(h, event),
      flying :=
        if begins then Some(Flying(FullDue(h, event), false))
        else if event.Settle? then None
        else if h.flying.Some? && MakesStale(h, event) then Some(h.flying.value.(stale := true))
        else h.flying)
  }

  /** The ledger after these events. */
  function After(shown: bool, events: seq<Event>): Ledger {
    if events == [] then Opened(shown) else Noted(After(shown, events[..|events| - 1]), events[|events| - 1])
  }

  // ---- The machine keeps the ledger ---------------------------------------------------------------------------

  ghost predicate Agrees(s: State, h: Ledger) {
    && s.active == h.active && s.visible == h.shown && s.paused == h.paused && s.range == h.range
    && s.pending == h.reload && s.manual == h.hardware
    && s.lastFull == (match h.stored case None => 0 case Some(at) => at)
    && s.flight == h.flying.Some?
    && (s.flight ==> AgreesInFlight(s, h.flying.value))
  }

  ghost predicate AgreesInFlight(s: State, flying: Flying) {
    && |s.suspended| == 1 && s.suspended[0].full == flying.full
    && (s.suspended[0].version != s.generation <==> flying.stale)
  }

  /** The requests of a batch: current figures always, and with a full batch the history of the range, storage and
      hardware. */
  function Requests(range: string, full: bool, refresh: bool): seq<Job> {
    if full then [Current, History(range), Storage, Hardware(refresh)] else [Current]
  }

  /** The machine begins a batch exactly when the ledger says so, with the requests it says. */
  ghost predicate BeginsAs(s: State, t: State, h: Ledger, event: Event) {
    var left := if event.Settle? then [] else s.suspended;
    if Begins(h, event)
    then && |t.suspended| == |left| + 1 && t.suspended[..|left|] == left
         && Jobs(t.suspended[|left|]) == Requests(Moved(h, event).range, FullDue(h, event), HardwareDue(h, event))
    else t.suspended == left
  }

  /** The step of one event agrees. */
  ghost predicate Faithful(s: State, h: Ledger, event: Event)
    requires Enabled(s, event)
  {
    Agrees(Step(s, event), Noted(h, event)) && BeginsAs(s, Step(s, event), h, event)
  }

  lemma RanAgrees(s: State, now: int, full: bool)
    requires s.flight <==> |s.suspended| == 1
    requires |s.suspended| <= 1
    requires full <==> s.manual || s.lastFull == 0 || now - s.lastFull >= 60_000
    ensures var t := Ran(s, now);
      if s.active && s.visible && !s.flight && (s.pending || !s.paused)
      then t == s.(pending := false, manual := false, flight := true,
                   suspended := [Batch(s.generation, s.range, full, s.manual)])
      else t == s
  {
    assert !s.flight ==> s.suspended == [];
  }

  lemma JobsAre(batch: Batch)
    ensures Jobs(batch) == Requests(batch.range, batch.full, batch.refresh)
  {
  }

  /** A reload after `invalidate`. */
  lemma ReloadAgrees(s: State, t: State, h: Ledger, event: Event)
    requires Invariant(s) && Agrees(s, h) && AsksReload(h, event) && Moved(h, event).active == t.active
    requires event.Enter? || event.Refresh? || event.SetRange? || event.TogglePause?
    requires t.visible == s.visible == Moved(h, event).shown && t.paused == Moved(h, event).paused && t.range == Moved(h, event).range
    requires t.flight == s.flight && t.suspended == s.suspended && t.generation >= s.generation
    requires (t.manual || event.Refresh?) == HardwareDue(h, event)
    ensures var u := Reloaded(t, event.Refresh?, TimeOf(event));
      Agrees(u, Noted(h, event)) && BeginsAs(s, u, h, event)
  {
    var w := Invalidated(t).(lastFull := 0, pending := true, manual := t.manual || event.Refresh?);
    RanAgrees(w, TimeOf(event), true);
    JobsAre(Batch(w.generation, w.range, true, w.manual));
  }

  lemma StopAgrees(s: State, h: Ledger, event: Event)
    requires Invariant(s) && Agrees(s, h) && Enabled(s, event)
    requires event.Leave? || (event.TogglePause? && !s.paused)
    ensures Faithful(s, h, event)
  {
  }

  lemma EnterAgrees(s: State, h: Ledger, event: Event)
    requires Invariant(s) && Agrees(s, h) && (event.Enter? || event.Refresh?)
    ensures Faithful(s, h, event)
  {
    hide Invariant, Reloaded, Ran;
    ReloadAgrees(s, if event.Enter? then s.(active := true) else s, h, event);
  }

  lemma RangeAgrees(s: State, h: Ledger, value: string, now: int)
    requires Invariant(s) && Agrees(s, h)
    ensures Faithful(s, h, SetRange(value, now))
  {
    hide Invariant, Reloaded, Ran;
    var event := SetRange(value, now);
    if AsksReload(h, event) {
      ReloadAgrees(s, s.(range := value, data := s.data.(values := s.data.values - {"history"})), h, event);
    }
  }

  lemma ToggleAgrees(s: State, h: Ledger, now: int)
    requires Invariant(s) && Agrees(s, h)
    ensures Faithful(s, h, TogglePause(now))
  {
    hide Invariant, Reloaded, Ran;
    if s.paused {
      ReloadAgrees(s, Invalidated(s.(paused := false, pending := false, manual := false)), h, TogglePause(now));
    } else {
      StopAgrees(s, h, TogglePause(now));
    }
  }

  lemma ShownAgrees(s: State, h: Ledger, visible: bool, now: int)
    requires Invariant(s) && Agrees(s, h)
    ensures Faithful(s, h, VisibilityChanged(visible, now))
  {
    hide Ran;
    var t := Invalidated(s.(visible := visible));
    if t.active && t.visible && !t.paused {
      var w := t.(pending := true, lastFull := 0);
      RanAgrees(w, now, true);
      JobsAre(Batch(w.generation, w.range, true, w.manual));
    }
  }

  lemma FireAgrees(s: State, h: Ledger, timer: nat, now: int)
    requires Invariant(s) && Agrees(s, h) && Enabled(s, Fire(timer, now))
    ensures Faithful(s, h, Fire(timer, now))
  {
    hide Ran;
    var w, event := s.(armed := s.armed - {timer}), Fire(timer, now);
    RanAgrees(w, now, FullDue(h, event));
    JobsAre(Batch(w.generation, w.range, FullDue(h, event), w.manual));
  }

  /** The answer is stored first, then the next batch is decided. */
  lemma SettleAgrees(s: State, h: Ledger, results: seq<Outcome>, now: int)
    requires Invariant(s) && Agrees(s, h) && Enabled(s, Settle(results, now))
    ensures Faithful(s, h, Settle(results, now))
  {
    hide Ran, StoreAll;
    var event := Settle(results, now);
    var batch := s.suspended[0];
    assert s.suspended[1..] == [];
    var stored := Applied(s.(flight := false, suspended := s.suspended[1..]), batch, results, now);
    assert stored.lastFull == match StoredAt(h, event) case None => 0 case Some(at) => at;
    if stored.pending {
      RanAgrees(stored, now, FullDue(h, event));
      JobsAre(Batch(stored.generation, stored.range, FullDue(h, event), stored.manual));
    }
  }

  lemma StepAgrees(s: State, h: Ledger, event: Event)
    requires Invariant(s) && Agrees(s, h) && Enabled(s, event)
    ensures Faithful(s, h, event)
  {
    hide Invariant, Agrees, Step, Noted, BeginsAs;
    match event
    case Leave => StopAgrees(s, h, event);
    case VisibilityChanged(visible, now) => ShownAgrees(s, h, visible, now);
    case Fire(timer, now) => FireAgrees(s, h, timer, now);
    case Settle(results, now) => SettleAgrees(s, h, results, now);
    case SetRange(value, now) => RangeAgrees(s, h, value, now);
    case TogglePause(now) => ToggleAgrees(s, h, now);
    case _ => EnterAgrees(s, h, event);
  }

  lemma {:induction false} RunAgrees(shown: bool, events: seq<Event>)
    requires Run(Initial(shown), events).Some?
    ensures Invariant(Run(Initial(shown), events).value)
    ensures Agrees(Run(Initial(shown), events).value, After(shown, events))
  {
    hide Invariant, Agrees, Step, Noted, BeginsAs, Initial;
    if events == [] {
      StartAgrees(shown);
    } else {
      var front, last := events[..|events| - 1], events[|events| - 1];
      RunAgrees(shown, front);
      StepAgrees(Run(Initial(shown), front).value, After(shown, front), last);
      StepKeeps(Run(Initial(shown), front).value, last);
    }
  }

  lemma StartAgrees(shown: bool)
    ensures Invariant(Initial(shown)) && Agrees(Initial(shown), Opened(shown))
  {
  }

  /** Over every event sequence: the last event begins a batch exactly when the poller is active and shown and the
      event calls for one; the batch asks for current figures, and for history of the range, storage and hardware
      exactly when a hardware refresh is wanted, nothing complete was stored since the last reload, or what was
      stored is at least a minute old. The hardware is refreshed exactly when that was asked for. */
  lemma BatchesExactly(shown: bool, events: seq<Event>)
    requires events != [] && Run(Initial(shown), events).Some?
    ensures var front, last := events[..|events| - 1], events[|events| - 1];
      && Run(Initial(shown), front).Some?
      && BeginsAs(Run(Initial(shown), front).value, Run(Initial(shown), events).value, After(shown, front), last)
  {
    hide Invariant, Agrees, Step, Noted, BeginsAs, Initial;
    var front := events[..|events| - 1];
    RunAgrees(shown, front);
    StepAgrees(Run(Initial(shown), front).value, After(shown, front), events[|events| - 1]);
  }

  /** Event `i` settled a full batch that was not stale, with every request fulfilled, and no reload was asked for
      and no such batch stored since. */
  ghost predicate LastComplete(shown: bool, events: seq<Event>, i: nat)
    requires i < |events|
  {
    && Completes(After(shown, events[..i]), events[i])
    && forall j :: i < j < |events| ==> !AsksReload(After(shown, events[..j]), events[j]) && !Completes(After(shown, events[..j]), events[j])
  }

  ghost predicate Completes(h: Ledger, event: Event) {
    && event.Settle? && h.flying.Some? && h.flying.value.full && !h.flying.value.stale
    && forall i :: 0 <= i < |event.results| ==> event.results[i].Fulfilled?
  }

  lemma LastStep(shown: bool, events: seq<Event>, i: nat)
    requires events != [] && i < |events|
    ensures var n := |events| - 1; var h := After(shown, events[..n]);
      LastComplete(shown, events, i) <==>
        if i == n then Completes(h, events[n])
        else LastComplete(shown, events[..n], i) && !AsksReload(h, events[n]) && !Completes(h, events[n])
  {
    hide AsksReload, Completes, After;
    var n := |events| - 1;
    var front := events[..n];
    assert forall j :: 0 <= j < n ==> front[..j] == events[..j] && front[j] == events[j];
  }

  /** The time stored is that of the last complete full batch since the last reload, if there is one. */
  lemma {:induction false} StoredIsLast(shown: bool, events: seq<Event>)
    ensures After(shown, events).stored.Some? <==> exists i :: 0 <= i < |events| && LastComplete(shown, events, i)
    ensures forall i :: 0 <= i < |events| && LastComplete(shown, events, i) ==> After(shown, events).stored == Some(TimeOf(events[i]))
  {
    hide AsksReload, Completes, Noted, LastComplete, TimeOf;
    if events != [] {
      var n := |events| - 1;
      var front, last := events[..n], events[n];
      StoredIsLast(shown, front);
      StoredStep(After(shown, front), last);
      forall i: nat | i <= n ensures LastComplete(shown, events, i) <==>
        if i == n then Completes(After(shown, front), last)
        else LastComplete(shown, front, i) && !AsksReload(After(shown, front), last) && !Completes(After(shown, front), last)
      {
        LastStep(shown, events, i);
      }
      if Completes(After(shown, front), last) {
        assert LastComplete(shown, events, n);
      } else if After(shown, events).stored.Some? {
        var i :| 0 <= i < |front| && LastComplete(shown, front, i);
        assert LastComplete(shown, events, i);
      }
    }
  }

  lemma StoredStep(h: Ledger, event: Event)
    ensures Noted(h, event).stored ==
      if AsksReload(h, event) then None else if Completes(h, event) then Some(TimeOf(event)) else h.stored
    ensures Completes(h, event) ==> !AsksReload(h, event)
  {
  }
}
