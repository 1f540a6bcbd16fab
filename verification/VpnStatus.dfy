/** The VPN status file: written by one controller at a time, which may die at any step, and judged by
    the health check. */
module VpnStatus {
  import opened Basics

  /** What the status text reads as: `connected is True`, an integer process, a numeric instant. */
  datatype Document = Unreadable | Document(connected: bool, pid: Option<int>, checked: Option<real>)

  datatype File = File(regular: bool, private: bool, size: nat, document: Document)

  // ---- The reader ------------------------------------------------------------------------------------------

  const STATUS_MAX_BYTES := 4096
  const FRESH_SECONDS := 10.0

  predicate Fresh(checked: Option<real>, now: real) {
    checked.Some? && 0.0 <= now - checked.value <= FRESH_SECONDS
  }

  /** `check_vpn3_status` raises nothing; `alive` is `os.kill(pid, 0)`. */
  predicate Accepts(marker: bool, status: Option<File>, now: real, alive: set<int>) {
    !marker ||
    (match status
     case None => false
     case Some(file) =>
       && file.regular && file.private && file.size <= STATUS_MAX_BYTES
       && file.document.Document? && file.document.connected
       && file.document.pid.Some? && file.document.pid.value > 1
       && Fresh(file.document.checked, now)
       && file.document.pid.value in alive)
  }

  // ---- The writer -------------------------------------------------------------------------------------------

  /** Where the controller is between two of its effects. */
  datatype Phase =
    | Clearing
    | Preparing
    | Working
    | Polling(connected: bool)
    | Stamping
    | Opening(at: real)
    | Writing(at: real)
    | Replacing(at: real)
    | Discarding
    | Cleaning

  datatype Controller = Controller(pid: int, run: nat, phase: Phase)

  datatype Poll = Poll(run: nat, pid: int, at: real, connected: bool)

  /** `runs`, `polls` and `source` record the past: the controllers started, their answered polls, and the
      poll after which the present status was stamped. */
  datatype State = State(
    now: real, status: Option<File>, temp: Option<File>, controller: Option<Controller>,
    runs: nat, polls: seq<Poll>, source: nat)

  function Initial(now: real, temp: Option<File>): State {
    State(now, None, temp, None, 0, [], 0)
  }

  /** What a poll answers: it can fail or be cancelled, and a session that is not up may end the startup. */
  datatype Answer = Raised | Up | Down(ends: bool)

  datatype Event =
    | Tick(seconds: real)
    | Start(pid: int)
    | Crash
    | Remove(fails: bool)
    | Proceed(ok: bool)
    | Observe(answer: Answer)
    | ReadClock
    | Open(ok: bool)
    | Write(ok: bool, size: nat)
    | Replace(ok: bool)
    | Discard(ok: bool)

  predicate Enabled(s: State, event: Event) {
    match event
    case Tick(seconds) => seconds >= 0.0
    case Start(_) => s.controller.None?
    case _ =>
      s.controller.Some? &&
      (var phase := s.controller.value.phase;
       match event
       case Crash => true
       case Remove(_) => phase.Clearing? || phase.Cleaning?
       case Proceed(_) => phase.Preparing? || phase.Working?
       case Observe(_) => phase.Polling?
       case ReadClock => phase.Stamping?
       case Open(_) => phase.Opening?
       case Write(_, _) => phase.Writing?
       case Replace(_) => phase.Replacing?
       case Discard(_) => phase.Discarding?)
  }

  function Stamp(pid: int, at: real, size: nat): File {
    File(true, true, size, Document(true, Some(pid), Some(at)))
  }

  const TRUNCATED := File(true, true, 0, Unreadable)

  function Goto(s: State, phase: Phase): State
    requires s.controller.Some?
  {
    s.(controller := Some(s.controller.value.(phase := phase)))
  }

  function Gone(s: State): State {
    s.(controller := None)
  }

  /** `remove_status`, first before anything else and last in the `finally`; a failure other than a
      missing file propagates and ends the run. */
  function Removed(s: State, fails: bool): State
    requires s.controller.Some?
  {
    if fails then Gone(s)
    else if s.controller.value.phase.Clearing? then Goto(s.(status := None), Preparing)
    else Gone(s.(status := None))
  }

  function Observed(s: State, answer: Answer): State
    requires s.controller.Some? && s.controller.value.phase.Polling?
  {
    var c := s.controller.value;
    match answer
    case Raised => Goto(s, Cleaning)
    case Up => Goto(s.(polls := s.polls + [Poll(c.run, c.pid, s.now, true)]), Stamping)
    case Down(ends) =>
      Goto(s.(polls := s.polls + [Poll(c.run, c.pid, s.now, false)]),
           if c.phase.connected || ends then Cleaning else Polling(false))
  }

  function Step(s: State, event: Event): State
    requires Enabled(s, event)
  {
    match event
    case Tick(seconds) => s.(now := s.now + seconds)
    case Start(pid) => s.(controller := Some(Controller(pid, s.runs, Clearing)), runs := s.runs + 1)
    case Crash => Gone(s)
    case Remove(fails) => Removed(s, fails)
    case Proceed(ok) =>
      if s.controller.value.phase.Preparing? then if ok then Goto(s, Working) else Gone(s)
      else Goto(s, if ok then Polling(false) else Cleaning)
    case Observe(answer) => Observed(s, answer)
    case ReadClock => Goto(s, Opening(s.now))
    case Open(ok) =>
      if ok then Goto(s.(temp := Some(TRUNCATED)), Writing(s.controller.value.phase.at)) else Goto(s, Cleaning)
    case Write(ok, size) =>
      var at := s.controller.value.phase.at;
      if ok then Goto(s.(temp := Some(Stamp(s.controller.value.pid, at, size))), Replacing(at))
      else Goto(s, Discarding)
    case Replace(ok) =>
      if ok then Goto(s.(status := s.temp, temp := None, source := if s.polls == [] then 0 else |s.polls| - 1), Polling(true))
      else Goto(s, Discarding)
    case Discard(ok) => Goto(if ok then s.(temp := None) else s, Cleaning)
  }

  predicate Possible(s: State, events: seq<Event>)
    decreases |events|
  {
    events == [] || (Enabled(s, events[0]) && Possible(Step(s, events[0]), events[1..]))
  }

  function Run(s: State, events: seq<Event>): State
    requires Possible(s, events)
    decreases |events|
  {
    if events == [] then s else Run(Step(s, events[0]), events[1..])
  }

  // ---- What every step keeps ------------------------------------------------------------------------------------

  ghost predicate PollsPast(s: State) {
    forall i :: 0 <= i < |s.polls| ==> s.polls[i].at <= s.now && s.polls[i].run < s.runs
  }

  /** In one run, a poll between a connected one and a later one is connected. */
  ghost predicate LossEnds(polls: seq<Poll>) {
    forall i, j, k :: 0 <= i < j < k < |polls| && polls[i].run == polls[j].run == polls[k].run && polls[i].connected
      ==> polls[j].connected
  }

  ghost predicate NeverUp(polls: seq<Poll>, run: nat) {
    forall i :: 0 <= i < |polls| && polls[i].run == run ==> !polls[i].connected
  }

  ghost predicate UpSince(polls: seq<Poll>, run: nat) {
    forall i, j :: 0 <= i < j < |polls| && polls[i].run == polls[j].run == run && polls[i].connected ==> polls[j].connected
  }

  ghost predicate OneAfter(polls: seq<Poll>, source: nat)
    requires source < |polls|
  {
    forall j, k :: source < j < k < |polls| ==> !(polls[j].run == polls[k].run == polls[source].run)
  }

  /** The last poll is this run's, was connected, and came before the stamp. */
  ghost predicate JustUp(s: State, at: real)
    requires s.controller.Some?
  {
    && s.polls != []
    && (var last := s.polls[|s.polls| - 1];
        last.connected && last.run == s.controller.value.run && last.pid == s.controller.value.pid && last.at <= at <= s.now)
  }

  ghost predicate Stamped(s: State) {
    s.status.Some? ==>
      && s.source < |s.polls|
      && (exists at, size: nat :: StampedAfter(s.status.value, s.polls[s.source], at, size, s.now))
      && OneAfter(s.polls, s.source)
  }

  ghost predicate StampedAfter(file: File, poll: Poll, at: real, size: nat, now: real) {
    file == Stamp(poll.pid, at, size) && poll.connected && poll.at <= at <= now
  }

  ghost predicate PhaseKept(s: State) {
    match s.controller
    case None => true
    case Some(c) =>
      && c.run < s.runs
      && (match c.phase
          case Clearing => forall i :: 0 <= i < |s.polls| ==> s.polls[i].run != c.run
          case Preparing => s.status.None? && NeverUp(s.polls, c.run)
          case Working => s.status.None? && NeverUp(s.polls, c.run)
          case Polling(connected) =>
            if connected
            then s.status.Some? && s.source == |s.polls| - 1 && JustUp(s, s.now) && UpSince(s.polls, c.run)
            else s.status.None? && NeverUp(s.polls, c.run)
          case Stamping => JustUp(s, s.now) && UpSince(s.polls, c.run)
          case Opening(at) => JustUp(s, at) && UpSince(s.polls, c.run)
          case Writing(at) => JustUp(s, at) && UpSince(s.polls, c.run)
          case Replacing(at) =>
            && JustUp(s, at) && UpSince(s.polls, c.run)
            && exists size: nat :: s.temp == Some(Stamp(c.pid, at, size))
          case Discarding => true
          case Cleaning => true)
  }

  ghost predicate Invariant(s: State) {
    PollsPast(s) && LossEnds(s.polls) && Stamped(s) && PhaseKept(s)
  }

  lemma PollAppended(polls: seq<Poll>, poll: Poll)
    requires LossEnds(polls) && (UpSince(polls, poll.run) || (NeverUp(polls, poll.run) && !poll.connected))
    ensures LossEnds(polls + [poll])
    ensures UpSince(polls, poll.run) && poll.connected ==> UpSince(polls + [poll], poll.run)
    ensures NeverUp(polls, poll.run) && !poll.connected ==> NeverUp(polls + [poll], poll.run)
  {
    var longer := polls + [poll];
    assert longer[|polls|] == poll;
    assert forall i :: 0 <= i < |polls| ==> longer[i] == polls[i];
  }

  lemma NeverUpIsUp(polls: seq<Poll>, run: nat)
    requires NeverUp(polls, run)
    ensures UpSince(polls, run)
  {
  }

  lemma StampStays(s: State, poll: Poll)
    requires Stamped(s) && (s.status.Some? ==> s.source == |s.polls| - 1)
    ensures Stamped(s.(polls := s.polls + [poll]))
  {
    var longer := s.polls + [poll];
    assert s.status.Some? ==> longer[s.source] == s.polls[s.source];
  }

  lemma PollsPastGrows(s: State, poll: Poll)
    requires PollsPast(s) && poll.at <= s.now && poll.run < s.runs
    ensures PollsPast(s.(polls := s.polls + [poll]))
  {
  }

  lemma ObserveKeeps(s: State, answer: Answer)
    requires Invariant(s) && Enabled(s, Observe(answer))
    ensures Invariant(Observed(s, answer))
  {
    hide LossEnds, NeverUp, UpSince, Stamped, PollsPast;
    if !answer.Raised? {
      var c := s.controller.value;
      var poll := Poll(c.run, c.pid, s.now, answer.Up?);
      if !c.phase.connected {
        NeverUpIsUp(s.polls, c.run);
      }
      PollAppended(s.polls, poll);
      StampStays(s, poll);
      PollsPastGrows(s, poll);
      StampedElsewhere(s.(polls := s.polls + [poll]), Observed(s, answer));
      PastElsewhere(s.(polls := s.polls + [poll]), Observed(s, answer));
    } else {
      StampedElsewhere(s, Observed(s, answer));
      PastElsewhere(s, Observed(s, answer));
    }
  }

  lemma StampedElsewhere(s: State, t: State)
    requires Stamped(s) && t.polls == s.polls && t.now >= s.now && (t.status.None? || (t.status == s.status && t.source == s.source))
    ensures Stamped(t)
  {
    if t.status.Some? {
      var at, size: nat :| StampedAfter(s.status.value, s.polls[s.source], at, size, s.now);
      assert StampedAfter(t.status.value, t.polls[t.source], at, size, t.now);
    }
  }

  lemma PastElsewhere(s: State, t: State)
    requires PollsPast(s) && t.polls == s.polls && t.now >= s.now && t.runs >= s.runs
    ensures PollsPast(t)
  {
  }

  lemma ReplaceKeeps(s: State)
    requires Invariant(s) && Enabled(s, Replace(true))
    ensures Invariant(Step(s, Replace(true)))
  {
    hide LossEnds, NeverUp, UpSince;
    var t := Step(s, Replace(true));
    var c := s.controller.value;
    var size: nat :| s.temp == Some(Stamp(c.pid, c.phase.at, size));
    assert StampedAfter(t.status.value, t.polls[t.source], c.phase.at, size, t.now);
  }

  lemma StepKeeps(s: State, event: Event)
    requires Invariant(s) && Enabled(s, event)
    ensures Invariant(Step(s, event))
  {
    match event
    case Observe(answer) => ObserveKeeps(s, answer);
    case Replace(ok) =>
      if ok {
        ReplaceKeeps(s);
      } else {
        OtherKeeps(s, event);
      }
    case _ => OtherKeeps(s, event);
  }

  lemma OtherKeeps(s: State, event: Event)
    requires Invariant(s) && Enabled(s, event) && !event.Observe? && event != Replace(true)
    ensures Invariant(Step(s, event))
  {
    hide LossEnds, NeverUp, UpSince, Stamped;
    var t := Step(s, event);
    StampedElsewhere(s, t);
    if event.Remove? && s.controller.value.phase.Clearing? && !event.fails {
      FreshRun(s.polls, s.controller.value.run);
    }
  }

  lemma FreshRun(polls: seq<Poll>, run: nat)
    requires forall i :: 0 <= i < |polls| ==> polls[i].run != run
    ensures NeverUp(polls, run)
  {
  }

  lemma {:induction false} RunKeeps(s: State, events: seq<Event>)
    requires Invariant(s) && Possible(s, events)
    ensures Invariant(Run(s, events))
    decreases |events|
  {
    hide Invariant, Step, Enabled;
    if events != [] {
      StepKeeps(s, events[0]);
      RunKeeps(Step(s, events[0]), events[1..]);
    }
  }

  lemma InitialKeeps(now: real, temp: Option<File>)
    ensures Invariant(Initial(now, temp))
  {
  }

  // ---- The main results -------------------------------------------------------------------------------------------

  /** At the moment `s`, poll `i` had seen the session connected, the document had been stamped after it, and its
      writer had polled at most once more since. */
  ghost predicate StampedAfterPoll(s: State, document: Document, i: nat) {
    && i < |s.polls| && s.polls[i].connected
    && document.Document? && document.pid == Some(s.polls[i].pid)
    && document.checked.Some? && s.polls[i].at <= document.checked.value <= s.now
    && OneAfter(s.polls, i)
  }

  /** With crashes at any step and any clock, for a check that reads the file at one moment and the clock at a later
      one: when the marker exists and the check accepts, the status is a whole document, stamped at most ten
      seconds before the clock was read, after a poll that saw the session connected and at most one poll of its
      writer before the file was read. */
  lemma AcceptedIsFresh(now: real, temp: Option<File>, before: seq<Event>, between: seq<Event>, alive: set<int>)
    requires Possible(Initial(now, temp), before) && Possible(Run(Initial(now, temp), before), between)
    requires var r := Run(Initial(now, temp), before); Accepts(true, r.status, Run(r, between).now, alive)
    ensures var r := Run(Initial(now, temp), before); var s := Run(r, between);
      && r.status.Some? && (exists i :: StampedAfterPoll(r, r.status.value.document, i))
      && r.status.value.document.checked.value <= s.now <= r.status.value.document.checked.value + 10.0
  {
    hide Run, OneAfter, PollsPast, LossEnds, PhaseKept;
    InitialKeeps(now, temp);
    RunKeeps(Initial(now, temp), before);
    var r := Run(Initial(now, temp), before);
    assert StampedAfterPoll(r, r.status.value.document, r.source);
  }

  /** Which stamps a check accepts: those that it can read whole, of a process that is there, and taken at most ten
      seconds ago. */
  lemma StampAcceptedExactly(pid: int, at: real, size: nat, now: real, alive: set<int>)
    ensures Accepts(true, Some(Stamp(pid, at, size)), now, alive) <==>
      size <= 4096 && pid > 1 && pid in alive && at <= now <= at + 10.0
    ensures Accepts(false, Some(Stamp(pid, at, size)), now, alive)
  {
  }

  /** A file that no controller writes is refused: not a regular one, one that others may read, one that is not the
      status document of a connected session. */
  lemma OthersRefused(file: File, now: real, alive: set<int>)
    requires !file.regular || !file.private || !file.document.Document? || !file.document.connected
      || file.document.pid.None? || file.document.checked.None?
    ensures !Accepts(true, Some(file), now, alive) && !Accepts(true, None, now, alive)
  {
  }

  /** Over every run: the check accepts exactly when a connected poll left a stamp that is still there, no larger
      than it reads, not older than ten seconds, and of a process that is still alive. */
  lemma AcceptedExactly(now: real, temp: Option<File>, before: seq<Event>, between: seq<Event>, alive: set<int>)
    requires Possible(Initial(now, temp), before) && Possible(Run(Initial(now, temp), before), between)
    ensures var r := Run(Initial(now, temp), before); var s := Run(r, between);
      Accepts(true, r.status, s.now, alive) <==>
        && r.status.Some? && r.source < |r.polls|
        && exists at, size: nat ::
             && StampedAfter(r.status.value, r.polls[r.source], at, size, r.now)
             && s.now <= at + 10.0 && size <= 4096 && r.polls[r.source].pid > 1 && r.polls[r.source].pid in alive
  {
    hide Run, OneAfter, PollsPast, LossEnds, PhaseKept, Accepts;
    InitialKeeps(now, temp);
    RunKeeps(Initial(now, temp), before);
    var r := Run(Initial(now, temp), before);
    var s := Run(r, between);
    TimePasses(r, between);
    if r.status.Some? {
      var at, size: nat :| StampedAfter(r.status.value, r.polls[r.source], at, size, r.now);
      StampAcceptedExactly(r.polls[r.source].pid, at, size, s.now, alive);
    } else {
      OthersRefused(File(false, false, 0, Unreadable), s.now, alive);
    }
  }

  lemma {:induction false} TimePasses(s: State, events: seq<Event>)
    requires Possible(s, events)
    ensures Run(s, events).now >= s.now
    decreases |events|
  {
    hide Step, Enabled;
    if events != [] {
      ClockAdvances(s, events[0]);
      TimePasses(Step(s, events[0]), events[1..]);
    }
  }

  lemma ClockAdvances(s: State, event: Event)
    requires Enabled(s, event)
    ensures Step(s, event).now == if event.Tick? then s.now + event.seconds else s.now
    ensures Step(s, event).now >= s.now
  {
  }

  /** Once a run has seen the session connected, the first poll that does not is its last. */
  lemma FirstLossIsLast(now: real, temp: Option<File>, events: seq<Event>, i: nat, j: nat, k: nat)
    requires Possible(Initial(now, temp), events)
    requires var polls := Run(Initial(now, temp), events).polls;
      i < j < k < |polls| && polls[i].run == polls[j].run == polls[k].run && polls[i].connected
    ensures Run(Initial(now, temp), events).polls[j].connected
  {
    hide Run, OneAfter, PollsPast, Stamped, PhaseKept;
    InitialKeeps(now, temp);
    RunKeeps(Initial(now, temp), events);
  }

  predicate Exits(s: State, event: Event)
    requires Enabled(s, event)
  {
    s.controller.Some? && Step(s, event).controller.None? && event != Crash
  }

  /** Every normal or exceptional exit leaves no status file, except exactly when the removal itself fails
      on a file that is there. */
  lemma ExitLeavesNothing(now: real, temp: Option<File>, events: seq<Event>, event: Event)
    requires Possible(Initial(now, temp), events) && Enabled(Run(Initial(now, temp), events), event)
    requires Exits(Run(Initial(now, temp), events), event)
    ensures var s := Run(Initial(now, temp), events);
      Step(s, event).status.None? <==> !(event == Remove(true) && s.status.Some?)
  {
    hide Run, OneAfter, PollsPast, Stamped, LossEnds, NeverUp, UpSince;
    InitialKeeps(now, temp);
    RunKeeps(Initial(now, temp), events);
  }

  /** `states` is what each of the events leads to in turn. */
  ghost predicate Leads(states: seq<State>, events: seq<Event>) {
    |states| == |events| + 1 && forall k :: 0 <= k < |events| ==> LeadsAt(states, events, k)
  }

  ghost predicate LeadsAt(states: seq<State>, events: seq<Event>, k: nat)
    requires k < |events| && |states| == |events| + 1
  {
    Enabled(states[k], events[k]) && Step(states[k], events[k]) == states[k + 1]
  }

  lemma {:induction false} LeadsToLast(states: seq<State>, events: seq<Event>)
    requires Leads(states, events)
    ensures Possible(states[0], events) && Run(states[0], events) == states[|events|]
    decreases |events|
  {
    hide Enabled, Step;
    if events != [] {
      assert LeadsAt(states, events, 0);
      forall k | 0 <= k < |events| - 1 ensures LeadsAt(states[1..], events[1..], k) {
        assert LeadsAt(states, events, k + 1);
      }
      LeadsToLast(states[1..], events[1..]);
    }
  }

  function LeftEvents(): seq<Event> {
    [Start(2), Remove(false), Proceed(true), Proceed(true), Observe(Up), ReadClock, Open(true), Write(true, 100), Replace(true),
     Observe(Down(false)), Remove(true)]
  }

  function LeftStates(): seq<State> {
    var file, up, down := Some(Stamp(2, 0.0, 100)), Poll(0, 2, 0.0, true), Poll(0, 2, 0.0, false);
    var s := State(0.0, None, None, Some(Controller(2, 0, Clearing)), 1, [], 0);
    var p := s.(polls := [up]);
    var q := p.(status := file);
    [Initial(0.0, None), s, Goto(s, Preparing), Goto(s, Working), Goto(s, Polling(false)), Goto(p, Stamping),
     Goto(p, Opening(0.0)), Goto(p.(temp := Some(TRUNCATED)), Writing(0.0)), Goto(p.(temp := file), Replacing(0.0)),
     Goto(q, Polling(true)), Goto(q.(polls := [up, down]), Cleaning), Gone(q.(polls := [up, down]))]
  }

  lemma LeftConnects(k: nat)
    requires k < 5
    ensures LeadsAt(LeftStates(), LeftEvents(), k)
  {
    assert [] + [Poll(0, 2, 0.0, true)] == [Poll(0, 2, 0.0, true)];
  }

  lemma LeftWrites(k: nat)
    requires 5 <= k < 11
    ensures LeadsAt(LeftStates(), LeftEvents(), k)
  {
    assert [Poll(0, 2, 0.0, true)] + [Poll(0, 2, 0.0, false)] == [Poll(0, 2, 0.0, true), Poll(0, 2, 0.0, false)];
  }

  /** A controller that connected, lost the connection and could not remove its file: the run is over, and the file
      is still there and accepted. */
  lemma FileLeftBehind() returns (events: seq<Event>)
    ensures Possible(Initial(0.0, None), events) && |events| > 0 && events[|events| - 1] == Remove(true)
    ensures var s := Run(Initial(0.0, None), events);
      s.controller.None? && s.status.Some? && Accepts(true, s.status, s.now, {2})
  {
    hide LeadsAt, Step, Enabled, Run, Possible;
    events := LeftEvents();
    forall k | 0 <= k < |events| ensures LeadsAt(LeftStates(), events, k) {
      if k < 5 {
        LeftConnects(k);
      } else {
        LeftWrites(k);
      }
    }
    LeadsToLast(LeftStates(), events);
  }

  /** Between polls of a connected session the file holds the stamp of the very last poll, and before the
      session was connected there is no file. */
  lemma FileFollowsSession(now: real, temp: Option<File>, events: seq<Event>)
    requires Possible(Initial(now, temp), events)
    requires var s := Run(Initial(now, temp), events); s.controller.Some? && s.controller.value.phase.Polling?
    ensures var s := Run(Initial(now, temp), events);
      if s.controller.value.phase.connected
      then s.status.Some? && s.source == |s.polls| - 1 && s.polls[s.source].run == s.controller.value.run
      else s.status.None?
  {
    hide Run, OneAfter, PollsPast, Stamped, LossEnds, NeverUp, UpSince;
    InitialKeeps(now, temp);
    RunKeeps(Initial(now, temp), events);
  }
}

/** `write_status`, `remove_status`, `monitor_session` and `run` on the two files, each shown to be a run of
    the step machine. The answers of the environment are parameters. */
module VpnControllerObject {
  import opened Basics
  import opened VpnStatus

  ghost predicate Reaches(s: State, t: State) {
    exists events :: ReachesBy(s, events, t)
  }

  ghost predicate ReachesBy(s: State, events: seq<Event>, t: State) {
    Possible(s, events) && Run(s, events) == t
  }

  lemma {:induction false} RunAppend(s: State, events: seq<Event>, event: Event)
    requires Possible(s, events) && Enabled(Run(s, events), event)
    ensures Possible(s, events + [event]) && Run(s, events + [event]) == Step(Run(s, events), event)
    decreases |events|
  {
    hide Step, Enabled;
    if events == [] {
      assert (events + [event])[1..] == [];
    } else {
      RunAppend(Step(s, events[0]), events[1..], event);
      assert (events + [event])[1..] == events[1..] + [event];
    }
  }

  lemma ReachesStep(s: State, t: State, event: Event)
    requires Reaches(s, t) && Enabled(t, event)
    ensures Reaches(s, Step(t, event))
  {
    hide Step, Enabled, Run, Possible;
    var events :| ReachesBy(s, events, t);
    RunAppend(s, events, event);
    assert ReachesBy(s, events + [event], Step(t, event));
  }

  /** How one status write fares: each call that can fail, and the size of the text. */
  datatype Effects = Effects(creates: bool, written: bool, size: nat, renamed: bool, unlinked: bool)

  /** One turn of the monitor: the time since the last one, then what is found. */
  datatype Turn = Turn(elapsed: real, cancelled: bool, answers: bool, up: bool, terminal: bool, late: bool, effects: Effects)

  datatype Outcome = Running | Cancelled | Failed | ConnectionLost | StartupFailed

  /** The writer's steps, one for each of its phases. */
  lemma WriterStep(s: State, effects: Effects)
    ensures s.controller.Some? ==>
      var c := s.controller.value;
      match c.phase
      case Stamping => Enabled(s, ReadClock) && Step(s, ReadClock) == Goto(s, Opening(s.now))
      case Opening(at) =>
        && Enabled(s, Open(effects.creates))
        && Step(s, Open(effects.creates)) == (if effects.creates then Goto(s.(temp := Some(TRUNCATED)), Writing(at)) else Goto(s, Cleaning))
      case Writing(at) =>
        && Enabled(s, Write(effects.written, effects.size))
        && Step(s, Write(effects.written, effects.size))
             == (if effects.written then Goto(s.(temp := Some(Stamp(c.pid, at, effects.size))), Replacing(at)) else Goto(s, Discarding))
      case Replacing(at) =>
        && Enabled(s, Replace(effects.renamed))
        && Step(s, Replace(effects.renamed))
             == (if effects.renamed
                 then Goto(s.(status := s.temp, temp := None, source := if s.polls == [] then 0 else |s.polls| - 1), Polling(true))
                 else Goto(s, Discarding))
      case Discarding =>
        && Enabled(s, Discard(effects.unlinked))
        && Step(s, Discard(effects.unlinked)) == Goto(if effects.unlinked then s.(temp := None) else s, Cleaning)
      case _ => true
  {
  }

  predicate WriteSucceeds(effects: Effects) {
    effects.creates && effects.written && effects.renamed
  }

  predicate UpBefore(turns: seq<Turn>, n: nat)
    requires n <= |turns|
  {
    exists i :: 0 <= i < n && turns[i].up
  }

  /** Turn `n` lets the monitor go on. */
  predicate GoesOn(turns: seq<Turn>, n: nat)
    requires n < |turns|
  {
    var turn := turns[n];
    && !turn.cancelled && turn.answers
    && if turn.up then WriteSucceeds(turn.effects) else !UpBefore(turns, n) && !turn.terminal && !turn.late
  }

  function EndOf(turns: seq<Turn>, n: nat): Outcome
    requires n < |turns|
  {
    var turn := turns[n];
    if turn.cancelled then Cancelled
    else if !turn.answers || turn.up then Failed
    else if UpBefore(turns, n) then ConnectionLost
    else StartupFailed
  }

  class VpnController {
    var status: Option<File>
    var temp: Option<File>
    var now: real
    const pid: int
    ghost var machine: State

    ghost predicate Valid()
      reads this
    {
      && machine.status == status && machine.temp == temp && machine.now == now
      && (machine.controller.Some? ==> machine.controller.value.pid == pid)
    }

    constructor (pid: int, status: Option<File>, temp: Option<File>, now: real, ghost machine: State)
      requires machine.status == status && machine.temp == temp && machine.now == now && machine.controller.None?
      ensures Valid() && this.machine == machine && this.pid == pid
    {
      this.pid, this.status, this.temp, this.now, this.machine := pid, status, temp, now, machine;
    }

    ghost predicate In(phase: Phase)
      reads this
    {
      machine.controller.Some? && machine.controller.value.phase == phase
    }

    ghost method Advance(s: State, event: Event)
      requires Reaches(s, machine) && Enabled(machine, event)
      modifies `machine
      ensures machine == Step(old(machine), event) && Reaches(s, machine)
    {
      ReachesStep(s, machine, event);
      machine := Step(machine, event);
    }

    method RemoveStatus(fails: bool, ghost s: State)
      requires Valid() && (In(Clearing) || In(Cleaning)) && Reaches(s, machine)
      modifies this
      ensures Valid() && Reaches(s, machine) && machine == Step(old(machine), Remove(fails))
      ensures status == if fails then old(status) else None
    {
      hide Reaches;
      Advance(s, Remove(fails));
      if !fails {
        status := None;
      }
    }

    /** The status is the new stamp when every call succeeds, and the old one otherwise. */
    method WriteStatus(effects: Effects, ghost s: State) returns (raised: bool)
      requires Valid() && In(Stamping) && Reaches(s, machine) && machine.polls != []
      modifies this
      ensures Valid() && Reaches(s, machine) && machine.polls == old(machine.polls)
      ensures raised == !WriteSucceeds(effects) && In(if raised then Cleaning else Polling(true))
      ensures status == if raised then old(status) else Some(Stamp(pid, old(now), effects.size))
    {
      hide Reaches, Step;
      var at := now;
      WriterStep(machine, effects);
      Advance(s, ReadClock);
      WriterStep(machine, effects);
      Advance(s, Open(effects.creates));
      WriterStep(machine, effects);
      if !effects.creates {
        return true;
      }
      temp := Some(TRUNCATED);
      Advance(s, Write(effects.written, effects.size));
      WriterStep(machine, effects);
      if effects.written {
        temp := Some(Stamp(pid, at, effects.size));
        Advance(s, Replace(effects.renamed));
        WriterStep(machine, effects);
        if effects.renamed {
          status, temp := temp, None;
          return false;
        }
      }
      Advance(s, Discard(effects.unlinked));
      if effects.unlinked {
        temp := None;
      }
      return true;
    }

    /** The monitor stops at the first turn that does not let it go on; `Running` means none did so far. */
    method MonitorSession(turns: seq<Turn>, ghost s: State) returns (n: nat, outcome: Outcome)
      requires Valid() && In(Polling(false)) && Reaches(s, machine)
      requires forall i :: 0 <= i < |turns| ==> turns[i].elapsed >= 0.0
      modifies this
      ensures Valid() && Reaches(s, machine)
      ensures n <= |turns| && forall i :: 0 <= i < n ==> GoesOn(turns, i)
      ensures outcome == if n < |turns| then EndOf(turns, n) else Running
      ensures n < |turns| ==> !GoesOn(turns, n) && In(Cleaning)
      ensures n == |turns| ==> machine.controller.Some? && machine.controller.value.phase.Polling?
    {
      hide Reaches, GoesOn, EndOf;
      var connected := false;
      n := 0;
      while n < |turns|
        invariant n <= |turns| && forall i :: 0 <= i < n ==> GoesOn(turns, i)
        invariant connected == UpBefore(turns, n)
        invariant Valid() && In(Polling(connected)) && Reaches(s, machine)
      {
        var turn := turns[n];
        Ends(turns, n);
        Advance(s, Tick(turn.elapsed));
        now := now + turn.elapsed;
        if turn.cancelled {
          Advance(s, Observe(Raised));
          return n, Cancelled;
        }
        if !turn.answers {
          Advance(s, Observe(Raised));
          return n, Failed;
        }
        if turn.up {
          Advance(s, Observe(Up));
          connected := true;
          var raised := WriteStatus(turn.effects, s);
          if raised {
            return n, Failed;
          }
        } else {
          Advance(s, Observe(Down(turn.terminal || turn.late)));
          if connected {
            return n, ConnectionLost;
          }
          if turn.terminal || turn.late {
            return n, StartupFailed;
          }
        }
        n := n + 1;
      }
      return n, Running;
    }

    /** `run`: clear, prepare, connect and monitor, and in the end clean up. A failing first removal or
        preparation ends the run before its `finally` is in force. */
    method RunSession(clearFails: bool, prepares: bool, connects: bool, turns: seq<Turn>, cleanFails: bool, ghost s: State)
      returns (outcome: Outcome)
      requires Valid() && machine.controller.None? && Reaches(s, machine)
      requires forall i :: 0 <= i < |turns| ==> turns[i].elapsed >= 0.0
      modifies this
      ensures Valid() && Reaches(s, machine)
      ensures outcome != Running ==> machine.controller.None?
      ensures clearFails ==> outcome == Failed && status == old(status)
      ensures !clearFails && !cleanFails && outcome != Running ==> status == None
      ensures outcome == ConnectionLost ==> exists n :: 0 <= n < |turns| && UpBefore(turns, n) && !turns[n].up
    {
      hide Reaches, GoesOn;
      Advance(s, Start(pid));
      RemoveStatus(clearFails, s);
      if clearFails {
        return Failed;
      }
      Advance(s, Proceed(prepares));
      if !prepares {
        return Failed;
      }
      Advance(s, Proceed(connects));
      var n := 0;
      outcome := Failed;
      if connects {
        n, outcome := MonitorSession(turns, s);
      }
      if outcome != Running {
        RemoveStatus(cleanFails, s);
      }
    }

    lemma Ends(turns: seq<Turn>, n: nat)
      requires n < |turns|
      ensures GoesOn(turns, n) <==>
        !turns[n].cancelled && turns[n].answers &&
        if turns[n].up then WriteSucceeds(turns[n].effects) else !UpBefore(turns, n) && !turns[n].terminal && !turns[n].late
      ensures EndOf(turns, n) ==
        if turns[n].cancelled then Cancelled else if !turns[n].answers || turns[n].up then Failed
        else if UpBefore(turns, n) then ConnectionLost else StartupFailed
    {
    }
  }
}
