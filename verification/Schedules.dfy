/** Schedule claims and edits by several processes: every call is a SELECT, a decision and an UPDATE,
    and other processes may write between the first and the last. */
module Schedules {
  import opened Basics
  import opened RecordTable
  import J = JsonText

  // ---- Decisions on one record ----------------------------------------------------------------------------

  /** `Number(record.lastCronFireMs || 0)`; only claims write it, always with an integer. */
  function HighWater(record: Record): int {
    match Field(record, "lastCronFireMs")
    case Some(Num(n)) => n
    case _ => 0
  }

  /** `record.cronEligibleSince || record.createdAt` */
  function Eligibility(record: Record): Option<J.Json> {
    var since := Field(record, "cronEligibleSince");
    if Truthy(since) then since else Field(record, "createdAt")
  }

  /** The snapshot a tick evaluated still describes the stored schedule. */
  predicate SameSchedule(record: Record, snapshot: Record) {
    && Field(record, "cron") == Field(snapshot, "cron")
    && Field(record, "runAt") == Field(snapshot, "runAt")
    && Field(record, "intervalDays") == Field(snapshot, "intervalDays")
    && Eligibility(record) == Eligibility(snapshot)
  }

  datatype Claim = Claim(id: string, minute: int, legacyKey: string, expected: Option<Record>)

  /** `stamp` is the clock reading that a new eligibility boundary would store. */
  datatype Edit = Edit(id: string, patch: Patch, expected: Option<Patch>, stamp: J.Json)

  datatype Operation = ClaimOp(claim: Claim) | EditOp(edit: Edit)

  function IdOf(op: Operation): string {
    if op.ClaimOp? then op.claim.id else op.edit.id
  }

  /** The record that a claim would store, if the record it read allows the claim. */
  function ClaimNext(record: Record, claim: Claim): Option<Record> {
    if claim.expected.Some? && !SameSchedule(record, claim.expected.value) then None
    else if !EnabledIn(record) || HighWater(record) >= claim.minute
      || (HighWater(record) == 0 && Field(record, "lastFireMinute") == Some(J.Str(claim.legacyKey))) then None
    else
      var fired := record["lastCronFireMs" := J.Num(claim.minute)]["lastFireMinute" := J.Str(claim.legacyKey)];
      Some(if Field(record, "kind") == Some(J.Str("reminder")) then fired
           else fired["executionState" := J.Str("queued")]["activeRunId" := J.Null])
  }

  /** Enabling a disabled schedule or changing its cron starts a new eligibility boundary. */
  predicate Renews(before: Record, after: Record) {
    (!EnabledIn(before) && EnabledIn(after)) || Field(before, "cron") != Field(after, "cron")
  }

  function EditNext(record: Record, edit: Edit): Option<Record> {
    if edit.expected.Some? && !Matches(record, edit.expected.value) then None else
    var next := Merge(record, edit.patch);
    Some(if Renews(record, next) then next["cronEligibleSince" := edit.stamp] else next)
  }

  function NextOf(record: Record, op: Operation): Option<Record> {
    if op.ClaimOp? then ClaimNext(record, op.claim) else EditNext(record, op.edit)
  }

  /** Whether the UPDATE compares the row with what was read: always for a claim, and for an edit that
      came with expectations. */
  predicate Guarded(op: Operation) {
    op.ClaimOp? || op.edit.expected.Some?
  }

  // ---- The processes ---------------------------------------------------------------------------------------

  /** A call between its SELECT and its UPDATE. */
  datatype Pending = Pending(op: Operation, read: Record, next: Record)

  /** A write is logged with the record it was computed from, the record it replaced and the one it stored. */
  datatype Commit =
    | Added(id: string, data: Record)
    | Deleted(id: string)
    | Wrote(op: Operation, read: Record, before: Record, after: Record)

  /** `used` are the identifiers ever given out: random ones, never given out twice. */
  datatype State = State(rows: seq<Row>, used: set<string>, pending: map<nat, Pending>, log: seq<Commit>)

  datatype Action =
    | Add(id: string, data: Record)
    | Delete(id: string, channel: Option<string>)
    | Begin(process: nat, op: Operation)
    | Finish(process: nat)

  predicate Possible(s: State, action: Action) {
    match action
    case Add(id, _) => id !in s.used
    case Delete(_, _) => true
    case Begin(process, _) => process !in s.pending
    case Finish(process) => process in s.pending
  }

  function Began(s: State, process: nat, op: Operation): State {
    match Lookup(s.rows, IdOf(op))
    case None => s
    case Some(row) =>
      match NextOf(row.data, op)
      case None => s
      case Some(next) => s.(pending := s.pending[process := Pending(op, row.data, next)])
  }

  /** The UPDATE: a claim sets only the record, an edit sets the columns too. */
  function Updated(row: Row, call: Pending): Row {
    if call.op.ClaimOp? then row.(data := call.next) else Mirrored(row.id, call.next)
  }

  function Finished(s: State, process: nat): State
    requires process in s.pending
  {
    var call := s.pending[process];
    var rest := s.pending - {process};
    match Lookup(s.rows, IdOf(call.op))
    case None => s.(pending := rest)
    case Some(row) =>
      if Guarded(call.op) && row.data != call.read then s.(pending := rest)
      else s.(rows := Put(s.rows, Updated(row, call)), pending := rest,
              log := s.log + [Wrote(call.op, call.read, row.data, call.next)])
  }

  function Removed(s: State, id: string, channel: Option<string>): State {
    match Lookup(s.rows, id)
    case None => s
    case Some(row) =>
      if channel.Some? && channel.value != "" && row.channel != channel.value then s
      else s.(rows := Remove(s.rows, id), log := s.log + [Deleted(id)])
  }

  function Act(s: State, action: Action): State
    requires Possible(s, action)
  {
    match action
    case Add(id, data) =>
      s.(rows := s.rows + [Mirrored(id, data)], used := s.used + {id}, log := s.log + [Added(id, data)])
    case Delete(id, channel) => Removed(s, id, channel)
    case Begin(process, op) => Began(s, process, op)
    case Finish(process) => Finished(s, process)
  }

  function Run(s: State, actions: seq<Action>): Option<State> {
    if actions == [] then Some(s) else
    match Run(s, actions[..|actions| - 1])
    case None => None
    case Some(t) => if Possible(t, actions[|actions| - 1]) then Some(Act(t, actions[|actions| - 1])) else None
  }

  /** Any database whose columns mirror its records, with no call under way. */
  ghost predicate Initial(s: State) {
    UniqueIds(s.rows) && Ids(s.rows) <= s.used && ColumnsMirror(s.rows) && s.pending == map[] && s.log == []
  }

  // ---- Columns always mirror the records -------------------------------------------------------------------

  ghost predicate Sound(s: State) {
    && UniqueIds(s.rows) && Ids(s.rows) <= s.used && ColumnsMirror(s.rows)
    && forall p :: p in s.pending ==> NextOf(s.pending[p].read, s.pending[p].op) == Some(s.pending[p].next)
  }

  lemma ClaimKeepsColumns(record: Record, claim: Claim)
    requires ClaimNext(record, claim).Some?
    ensures var next := ClaimNext(record, claim).value;
      && ChannelOf(next) == ChannelOf(record) && EnabledIn(next) == EnabledIn(record)
      && Field(next, "cron") == Field(record, "cron") && Eligibility(next) == Eligibility(record)
      && Field(next, "cronEligibleSince") == Field(record, "cronEligibleSince")
      && HighWater(next) == claim.minute > HighWater(record)
  {
  }

  lemma UpdatedMirrors(row: Row, call: Pending)
    requires row == Mirrored(row.id, row.data)
    requires NextOf(call.read, call.op) == Some(call.next)
    requires Guarded(call.op) ==> row.data == call.read
    ensures Updated(row, call) == Mirrored(row.id, call.next)
  {
    if call.op.ClaimOp? {
      ClaimKeepsColumns(call.read, call.op.claim);
    }
  }

  lemma ActIsSound(s: State, action: Action)
    requires Sound(s) && Possible(s, action)
    ensures Sound(Act(s, action))
  {
    hide ClaimNext, EditNext;
    match action
    case Add(id, data) => AppendKeeps(s.rows, Mirrored(id, data));
    case Delete(id, channel) => RemoveKeeps(s.rows, id);
    case Begin(process, op) =>
    case Finish(process) =>
      var row := Lookup(s.rows, IdOf(s.pending[process].op));
      if row.Some? && (Guarded(s.pending[process].op) ==> row.value.data == s.pending[process].read) {
        UpdatedMirrors(row.value, s.pending[process]);
        PutKeeps(s.rows, Updated(row.value, s.pending[process]));
        assert ColumnsMirror(Put(s.rows, Updated(row.value, s.pending[process])));
      }
  }

  lemma {:induction false} RunIsSound(s: State, actions: seq<Action>)
    requires Sound(s) && Run(s, actions).Some?
    ensures Sound(Run(s, actions).value)
  {
    if actions != [] {
      RunIsSound(s, actions[..|actions| - 1]);
      ActIsSound(Run(s, actions[..|actions| - 1]).value, actions[|actions| - 1]);
    }
  }

  /** `countEnabledForChannel` and `listForChannel`: the columns decide. */
  function CountEnabled(rows: seq<Row>, channel: string): nat {
    |Where(rows, EnabledInChannel(channel))|
  }

  function ListFor(rows: seq<Row>, channel: string): seq<Record> {
    DataOf(Where(rows, InChannel(channel)))
  }

  /** After every interleaving of adds, edits (guarded or blind), claims and deletes, the per-channel
      count and list are those of a scan over the records. */
  lemma QueriesSeeTheRecords(s: State, actions: seq<Action>, channel: string)
    requires Initial(s) && Run(s, actions).Some?
    ensures var rows := Run(s, actions).value.rows;
      && CountEnabled(rows, channel) == |Where(rows, RecordEnabledInChannel(channel))|
      && ListFor(rows, channel) == DataOf(Where(rows, RecordInChannel(channel)))
  {
    RunIsSound(s, actions);
    ColumnQueryIsScan(Run(s, actions).value.rows, channel);
  }

  // ---- Linearizability ----------------------------------------------------------------------------------------

  /** One logged operation on the table as it stands. */
  function Apply(rows: seq<Row>, commit: Commit): seq<Row> {
    match commit
    case Added(id, data) => rows + [Mirrored(id, data)]
    case Deleted(id) => Remove(rows, id)
    case Wrote(op, _, _, after) => Put(rows, Mirrored(IdOf(op), after))
  }

  function Replay(rows: seq<Row>, log: seq<Commit>): seq<Row> {
    if log == [] then rows else Apply(Replay(rows, log[..|log| - 1]), log[|log| - 1])
  }

  /** A logged write replaced the record that was stored at that moment and stored what the operation makes
      of the record it read; for a claim or a guarded edit the two are the same record. */
  ghost predicate Decided(rows: seq<Row>, commit: Commit) {
    commit.Wrote? ==>
      && Lookup(rows, IdOf(commit.op)) == Some(Mirrored(IdOf(commit.op), commit.before))
      && NextOf(commit.read, commit.op) == Some(commit.after)
      && (Guarded(commit.op) ==> commit.read == commit.before)
  }

  ghost predicate AllDecided(rows: seq<Row>, log: seq<Commit>) {
    forall i :: 0 <= i < |log| ==> Decided(Replay(rows, log[..i]), log[i])
  }

  ghost predicate Linear(s0: State, s: State) {
    Sound(s) && s.rows == Replay(s0.rows, s.log) && AllDecided(s0.rows, s.log)
  }

  lemma CommitIsLinear(s0: State, s: State, t: State, commit: Commit)
    requires Linear(s0, s) && Sound(t)
    requires t.log == s.log + [commit] && t.rows == Apply(s.rows, commit) && Decided(s.rows, commit)
    ensures Linear(s0, t)
  {
    hide Apply, Sound, Decided;
    assert t.log[..|s.log|] == s.log;
    forall i | 0 <= i < |t.log| ensures Decided(Replay(s0.rows, t.log[..i]), t.log[i]) {
      if i < |s.log| {
        assert t.log[..i] == s.log[..i] && t.log[i] == s.log[i];
      }
    }
  }

  lemma UpdatedData(row: Row, call: Pending)
    ensures Updated(row, call).id == row.id && Updated(row, call).data == call.next
  {
  }

  lemma StoredRow(s: State, id: string)
    requires Sound(s) && Lookup(s.rows, id).Some?
    ensures Lookup(s.rows, id) == Some(Mirrored(id, Lookup(s.rows, id).value.data))
  {
  }

  lemma ActIsLinear(s0: State, s: State, action: Action)
    requires Linear(s0, s) && Possible(s, action)
    ensures Linear(s0, Act(s, action))
  {
    hide NextOf, Replay, Linear, Mirrored, AllDecided, Updated;
    LinearIsSound(s0, s);
    ActIsSound(s, action);
    var t := Act(s, action);
    match action
    case Add(id, data) => CommitIsLinear(s0, s, t, Added(id, data));
    case Delete(id, channel) =>
      if t != s {
        CommitIsLinear(s0, s, t, Deleted(id));
      }
    case Begin(process, op) => LinearElsewhere(s0, s, t);
    case Finish(process) =>
      var call := s.pending[process];
      var row := Lookup(s.rows, IdOf(call.op));
      if row.Some? && (Guarded(call.op) ==> row.value.data == call.read) {
        StoredRow(s, IdOf(call.op));
        UpdatedMirrors(row.value, call);
        CommitIsLinear(s0, s, t, Wrote(call.op, call.read, row.value.data, call.next));
      } else {
        LinearElsewhere(s0, s, t);
      }
  }

  lemma LinearIsSound(s0: State, s: State)
    requires Linear(s0, s)
    ensures Sound(s)
  {
  }

  lemma LinearElsewhere(s0: State, s: State, t: State)
    requires Linear(s0, s) && Sound(t) && t.rows == s.rows && t.log == s.log
    ensures Linear(s0, t)
  {
  }

  lemma {:induction false} RunIsLinear(s: State, actions: seq<Action>)
    requires Initial(s) && Run(s, actions).Some?
    ensures Linear(s, Run(s, actions).value)
  {
    if actions != [] {
      var front := actions[..|actions| - 1];
      RunIsLinear(s, front);
      ActIsLinear(s, Run(s, front).value, actions[|actions| - 1]);
    }
  }

  /** After every interleaving the stored table is the fold of the successful operations in commit order.
      Each claim and each guarded edit was decided on the very record it replaced, as if it had been one
      step; a blind edit stored what it made of the record it had read. */
  lemma Linearizable(s: State, actions: seq<Action>)
    requires Initial(s) && Run(s, actions).Some?
    ensures var t := Run(s, actions).value; t.rows == Replay(s.rows, t.log) && AllDecided(s.rows, t.log)
  {
    RunIsLinear(s, actions);
  }

  lemma CommitDecided(s: State, actions: seq<Action>, i: nat)
    requires Initial(s) && Run(s, actions).Some? && i < |Run(s, actions).value.log|
    ensures var commit := Run(s, actions).value.log[i];
      commit.Wrote? ==>
        && NextOf(commit.read, commit.op) == Some(commit.after)
        && (Guarded(commit.op) ==> commit.read == commit.before)
  {
    hide NextOf, Replay;
    RunIsLinear(s, actions);
    assert Decided(Replay(s.rows, Run(s, actions).value.log[..i]), Run(s, actions).value.log[i]);
  }

  // ---- What claims and edits store ------------------------------------------------------------------------------

  /** The marks that allow a claim: below the minute, and for a schedule that was never marked not the same
      minute under its older key. */
  ghost predicate Unfired(record: Record, claim: Claim) {
    match Field(record, "lastCronFireMs")
    case Some(Num(n)) =>
      n < claim.minute && (n != 0 || Field(record, "lastFireMinute") != Some(J.Str(claim.legacyKey)))
    case _ => 0 < claim.minute && Field(record, "lastFireMinute") != Some(J.Str(claim.legacyKey))
  }

  /** What a claim asks of the record it reads: switched on, unfired, and the schedule that the tick evaluated. */
  ghost predicate Claimable(record: Record, claim: Claim) {
    && IsOn(record) && Unfired(record, claim)
    && (claim.expected.Some? ==>
        var snapshot := claim.expected.value;
        && Field(record, "cron") == Field(snapshot, "cron")
        && Field(record, "runAt") == Field(snapshot, "runAt")
        && Field(record, "intervalDays") == Field(snapshot, "intervalDays")
        && Field(record, if Field(record, "cronEligibleSince") in FALSY then "createdAt" else "cronEligibleSince")
        == Field(snapshot, if Field(snapshot, "cronEligibleSince") in FALSY then "createdAt" else "cronEligibleSince"))
  }

  lemma ClaimExactly(record: Record, claim: Claim)
    ensures ClaimNext(record, claim).Some? <==> Claimable(record, claim)
  {
  }

  /** What a claim changes: the two marks, and for everything but a reminder the state of a queued run. */
  ghost predicate IsClaimed(before: Record, after: Record, claim: Claim) {
    && Field(after, "lastCronFireMs") == Some(J.Num(claim.minute))
    && Field(after, "lastFireMinute") == Some(J.Str(claim.legacyKey))
    && (Field(before, "kind") != Some(J.Str("reminder")) ==>
        Field(after, "executionState") == Some(J.Str("queued")) && Field(after, "activeRunId") == Some(J.Null))
    && (Field(before, "kind") == Some(J.Str("reminder")) ==>
        && Field(after, "executionState") == Field(before, "executionState")
        && Field(after, "activeRunId") == Field(before, "activeRunId"))
    && forall name :: name !in {"lastCronFireMs", "lastFireMinute", "executionState", "activeRunId"} ==>
         Field(after, name) == Field(before, name)
  }

  lemma ClaimStores(record: Record, claim: Claim)
    requires ClaimNext(record, claim).Some?
    ensures IsClaimed(record, ClaimNext(record, claim).value, claim)
  {
    hide SameSchedule, HighWater, EnabledIn;
  }

  /** After every interleaving, blind edits included: a claim replaced a record that was switched on, unfired
      and still agreed with the snapshot it was given; it wrote its minute and, unless it is a reminder,
      queued the run; it changed nothing else. */
  lemma ClaimsMeetTheirSnapshot(s: State, actions: seq<Action>, i: nat)
    requires Initial(s) && Run(s, actions).Some?
    requires i < |Run(s, actions).value.log|
    ensures var commit := Run(s, actions).value.log[i];
      commit.Wrote? && commit.op.ClaimOp? ==>
        && Claimable(commit.before, commit.op.claim)
        && IsClaimed(commit.before, commit.after, commit.op.claim)
  {
    hide ClaimNext, EditNext, Run, Claimable, IsClaimed;
    CommitDecided(s, actions, i);
    var commit := Run(s, actions).value.log[i];
    if commit.Wrote? && commit.op.ClaimOp? {
      ClaimExactly(commit.before, commit.op.claim);
      ClaimStores(commit.before, commit.op.claim);
    }
  }

  /** What an edit makes of the record it read: patched names hold the patch, all others stay, and switching on
      or another cron stores a new eligibility boundary. */
  ghost predicate IsEdited(read: Record, after: Record, edit: Edit) {
    && (forall name :: name != "cronEligibleSince" ==>
         Field(after, name) == if name in edit.patch then edit.patch[name] else Field(read, name))
    && Field(after, "cronEligibleSince") ==
         if (!IsOn(read) && IsOn(after)) || Field(read, "cron") != Field(after, "cron") then Some(edit.stamp)
         else if "cronEligibleSince" in edit.patch then edit.patch["cronEligibleSince"]
         else Field(read, "cronEligibleSince")
  }

  lemma EditExactly(record: Record, edit: Edit)
    ensures EditNext(record, edit).Some?
       <==> (edit.expected.Some? ==> forall name :: name in edit.expected.value ==> Field(record, name) == edit.expected.value[name])
    ensures EditNext(record, edit).Some? ==> IsEdited(record, EditNext(record, edit).value, edit)
  {
    var merged := Merge(record, edit.patch);
    hide Merge;
    var stamped := merged["cronEligibleSince" := edit.stamp];
    assert forall name :: name != "cronEligibleSince" ==> Field(stamped, name) == Field(merged, name);
  }

  /** After every interleaving a logged edit stored what it makes of the record it read; a guarded one read the
      row it replaced and found its expectations there. */
  lemma EditsWritePatches(s: State, actions: seq<Action>, i: nat)
    requires Initial(s) && Run(s, actions).Some?
    requires i < |Run(s, actions).value.log|
    ensures var commit := Run(s, actions).value.log[i];
      commit.Wrote? && commit.op.EditOp? ==>
        && IsEdited(commit.read, commit.after, commit.op.edit)
        && (commit.op.edit.expected.Some? ==>
              && commit.read == commit.before
              && var expected := commit.op.edit.expected.value;
              forall name :: name in expected ==> Field(commit.before, name) == expected[name])
  {
    hide Run, Merge, EditNext, IsEdited;
    CommitDecided(s, actions, i);
    var commit := Run(s, actions).value.log[i];
    if commit.Wrote? && commit.op.EditOp? {
      NextIsEdit(commit.read, commit.op);
      EditExactly(commit.read, commit.op.edit);
    }
  }

  /** A call gets past its SELECT exactly when the row is there and allows it; then it is under way with the
      record it read. Nothing is written yet. */
  lemma BeginReadsExactly(s: State, process: nat, op: Operation)
    requires process !in s.pending
    ensures var row := Lookup(s.rows, IdOf(op)); var t := Act(s, Begin(process, op));
      var allowed := row.Some? && match op
        case ClaimOp(claim) => Claimable(row.value.data, claim)
        case EditOp(edit) => edit.expected.Some? ==>
          forall name :: name in edit.expected.value ==> Field(row.value.data, name) == edit.expected.value[name];
      && t.rows == s.rows && t.log == s.log
      && if allowed then exists next :: t.pending == s.pending[process := Pending(op, row.value.data, next)]
         else t.pending == s.pending
  {
    hide ClaimNext, EditNext, Claimable;
    var row := Lookup(s.rows, IdOf(op));
    if row.Some? {
      match op
      case ClaimOp(claim) => ClaimExactly(row.value.data, claim);
      case EditOp(edit) => EditExactly(row.value.data, edit);
    }
  }

  /** When a call ends, its write is logged and stored exactly when the row is still there and, for a claim or
      an edit with expectations, is still the one it read; otherwise nothing changes. */
  lemma FinishCommitsExactly(s: State, process: nat)
    requires Sound(s) && process in s.pending
    ensures var call := s.pending[process]; var row := Lookup(s.rows, IdOf(call.op)); var t := Act(s, Finish(process));
      if row.Some? && (call.op.ClaimOp? || call.op.edit.expected.Some? ==> row.value.data == call.read)
      then && t.log == s.log + [Wrote(call.op, call.read, row.value.data, call.next)]
           && Lookup(t.rows, IdOf(call.op)) == Some(Mirrored(IdOf(call.op), call.next))
           && (forall id :: id != IdOf(call.op) ==> Lookup(t.rows, id) == Lookup(s.rows, id))
      else t.log == s.log && t.rows == s.rows
  {
    hide NextOf, Mirrored;
    var call := s.pending[process];
    var row := Lookup(s.rows, IdOf(call.op));
    if row.Some? && (Guarded(call.op) ==> row.value.data == call.read) {
      UpdatedMirrors(row.value, call);
      UpdatedData(row.value, call);
      PutKeeps(s.rows, Updated(row.value, call));
    }
  }

  // ---- Eligibility boundaries ----------------------------------------------------------------------------------

  /** What an edit overlooks: judged by the record it read it neither enables the schedule nor changes its cron,
      but the row it overwrites has another cron, or is disabled while the edit stores it enabled. */
  predicate Overlooks(read: Record, before: Record, patch: Patch) {
    var stored := Merge(read, patch);
    && Field(stored, "cron") == Field(read, "cron") && (EnabledIn(stored) ==> EnabledIn(read))
    && (Field(before, "cron") != Field(read, "cron") || (EnabledIn(stored) && !EnabledIn(before)))
  }

  lemma EditStores(record: Record, edit: Edit)
    requires EditNext(record, edit).Some?
    ensures var next, merged := EditNext(record, edit).value, Merge(record, edit.patch);
      && EnabledIn(next) == EnabledIn(merged) && Field(next, "cron") == Field(merged, "cron")
      && Field(next, "cronEligibleSince") == if Renews(record, merged) then Some(edit.stamp) else Field(merged, "cronEligibleSince")
  {
    hide Merge;
  }

  lemma RenewsByColumns(before: Record, a: Record, b: Record)
    requires EnabledIn(a) == EnabledIn(b) && Field(a, "cron") == Field(b, "cron")
    ensures Renews(before, a) <==> Renews(before, b)
  {
  }

  /** After every interleaving: a logged edit that enabled a disabled schedule or changed its cron, compared
      with the row it replaced, stored its new boundary, unless it overlooked that row; then it stored the
      boundary it had read or was told. As long as the clock reading is not what would be stored anyway,
      "unless" is "exactly unless". A guarded edit overlooks nothing. */
  lemma EditsRenewEligibility(s: State, actions: seq<Action>, i: nat)
    requires Initial(s) && Run(s, actions).Some?
    requires i < |Run(s, actions).value.log|
    requires Run(s, actions).value.log[i].Wrote? && Run(s, actions).value.log[i].op.EditOp?
    ensures var commit := Run(s, actions).value.log[i]; var edit := commit.op.edit;
      var kept := Field(Merge(commit.read, edit.patch), "cronEligibleSince");
      && (edit.expected.Some? ==> !Overlooks(commit.read, commit.before, edit.patch))
      && (Renews(commit.before, commit.after) ==>
            Field(commit.after, "cronEligibleSince") ==
              if Overlooks(commit.read, commit.before, edit.patch) then kept else Some(edit.stamp))
      && (kept != Some(edit.stamp) ==>
            (Overlooks(commit.read, commit.before, edit.patch) <==>
              Renews(commit.before, commit.after) && Field(commit.after, "cronEligibleSince") != Some(edit.stamp)))
  {
    hide Run, Merge, EditNext;
    CommitDecided(s, actions, i);
    var commit := Run(s, actions).value.log[i];
    NextIsEdit(commit.read, commit.op);
    EditStores(commit.read, commit.op.edit);
    RenewsByColumns(commit.before, commit.after, Merge(commit.read, commit.op.edit.patch));
  }

  /** An edit that meets the row it read, or one with the same cron and the same enabling, overlooks nothing. */
  lemma OverlooksOnlyMoved(read: Record, before: Record, patch: Patch)
    requires EnabledIn(read) == EnabledIn(before) && Field(read, "cron") == Field(before, "cron")
    ensures !Overlooks(read, before, patch)
  {
    hide Merge;
  }

  lemma NextIsEdit(record: Record, op: Operation)
    ensures op.EditOp? ==> NextOf(record, op) == EditNext(record, op.edit)
  {
  }

  // ---- Claimed minutes --------------------------------------------------------------------------------------------

  /** No edit writes the high-water mark itself, and a blind edit does not lower it: the row it overwrites is
      marked no higher than the record it read. Anything else may have changed in between. */
  ghost predicate KeepsMark(s: State, action: Action) {
    match action
    case Begin(_, EditOp(edit)) => "lastCronFireMs" !in edit.patch
    case Finish(process) =>
      process in s.pending && !Guarded(s.pending[process].op) ==>
        var row := Lookup(s.rows, IdOf(s.pending[process].op));
        row.Some? ==> HighWater(row.value.data) <= HighWater(s.pending[process].read)
    case _ => true
  }

  ghost predicate MarkNeverFalls(s: State, actions: seq<Action>) {
    forall i :: 0 <= i < |actions| ==>
      var before := Run(s, actions[..i]);
      before.Some? ==> KeepsMark(before.value, actions[i])
  }

  ghost predicate IsClaimOf(a: Commit, b: Commit) {
    a.Wrote? && b.Wrote? && a.op.ClaimOp? && b.op.ClaimOp? && a.op.claim.id == b.op.claim.id
  }

  /** The claims logged for an identifier have strictly increasing minutes. */
  ghost predicate ClaimsIncrease(log: seq<Commit>) {
    forall i, j :: 0 <= i < j < |log| && IsClaimOf(log[i], log[j]) ==>
      log[i].op.claim.minute < log[j].op.claim.minute
  }

  ghost predicate MarkCovers(s: State, commit: Commit) {
    commit.Wrote? && commit.op.ClaimOp? ==>
      && commit.op.claim.id in s.used
      && (Lookup(s.rows, commit.op.claim.id).Some? ==>
          HighWater(Lookup(s.rows, commit.op.claim.id).value.data) >= commit.op.claim.minute)
  }

  ghost predicate PatchesKeepMark(s: State) {
    forall p :: p in s.pending && s.pending[p].op.EditOp? ==> "lastCronFireMs" !in s.pending[p].op.edit.patch
  }

  ghost predicate Marked(s: State) {
    && Sound(s) && ClaimsIncrease(s.log) && PatchesKeepMark(s)
    && forall i :: 0 <= i < |s.log| ==> MarkCovers(s, s.log[i])
  }

  lemma EditKeepsMark(record: Record, edit: Edit)
    requires EditNext(record, edit).Some? && "lastCronFireMs" !in edit.patch
    ensures HighWater(EditNext(record, edit).value) == HighWater(record)
  {
    assert Field(Merge(record, edit.patch), "lastCronFireMs") == Field(record, "lastCronFireMs");
  }

  lemma NextMark(record: Record, op: Operation)
    requires NextOf(record, op).Some? && (op.EditOp? ==> "lastCronFireMs" !in op.edit.patch)
    ensures HighWater(NextOf(record, op).value) >= HighWater(record)
    ensures op.ClaimOp? ==> HighWater(NextOf(record, op).value) == op.claim.minute > HighWater(record)
  {
    if op.ClaimOp? {
      ClaimKeepsColumns(record, op.claim);
    } else {
      EditKeepsMark(record, op.edit);
    }
  }

  lemma CommitIsMarked(s: State, t: State, commit: Commit)
    requires Marked(s) && Sound(t) && PatchesKeepMark(t) && t.log == s.log + [commit]
    requires MarkCovers(t, commit) && forall i :: 0 <= i < |s.log| ==> MarkCovers(t, s.log[i])
    requires forall i :: 0 <= i < |s.log| && IsClaimOf(s.log[i], commit) ==> s.log[i].op.claim.minute < commit.op.claim.minute
    ensures Marked(t)
  {
    hide Sound, MarkCovers, IsClaimOf, PatchesKeepMark;
    assert forall i :: 0 <= i < |s.log| ==> t.log[i] == s.log[i];
  }

  lemma FinishIsMarked(s: State, process: nat)
    requires Marked(s) && process in s.pending && KeepsMark(s, Finish(process))
    ensures Marked(Act(s, Finish(process)))
  {
    hide NextOf, Merge, Mirrored, Updated;
    var call := s.pending[process];
    var found := Lookup(s.rows, IdOf(call.op));
    ActIsSound(s, Finish(process));
    var t := Act(s, Finish(process));
    if found.Some? && (Guarded(call.op) ==> found.value.data == call.read) {
      var row := found.value;
      NextMark(call.read, call.op);
      UpdatedData(row, call);
      PutKeeps(s.rows, Updated(row, call));
      forall i | 0 <= i < |s.log|
        ensures MarkCovers(t, s.log[i])
        ensures IsClaimOf(s.log[i], Wrote(call.op, call.read, row.data, call.next)) ==> s.log[i].op.claim.minute < call.op.claim.minute
      {
        assert MarkCovers(s, s.log[i]);
      }
      CommitIsMarked(s, t, Wrote(call.op, call.read, row.data, call.next));
    } else {
      forall i | 0 <= i < |s.log| ensures MarkCovers(t, s.log[i]) {
        assert MarkCovers(s, s.log[i]);
      }
    }
  }

  lemma OtherIsMarked(s: State, action: Action)
    requires Marked(s) && Possible(s, action) && KeepsMark(s, action) && !action.Finish?
    ensures Marked(Act(s, action))
  {
    hide NextOf, Mirrored;
    ActIsSound(s, action);
    var t := Act(s, action);
    if action.Add? {
      MirroredId(action.id, action.data);
      AppendKeeps(s.rows, Mirrored(action.id, action.data));
    } else if action.Delete? {
      RemoveKeeps(s.rows, action.id);
    }
    forall i | 0 <= i < |s.log| ensures MarkCovers(t, s.log[i]) {
      assert MarkCovers(s, s.log[i]);
    }
    if action.Add? {
      CommitIsMarked(s, t, Added(action.id, action.data));
    } else if action.Delete? && t != s {
      CommitIsMarked(s, t, Deleted(action.id));
    }
  }

  lemma MirroredId(id: string, data: Record)
    ensures Mirrored(id, data).id == id && Mirrored(id, data).data == data
  {
  }

  lemma {:induction false} RunIsMarked(s: State, actions: seq<Action>)
    requires Initial(s) && Run(s, actions).Some? && MarkNeverFalls(s, actions)
    ensures Marked(Run(s, actions).value)
  {
    hide Possible, Act, KeepsMark;
    if actions != [] {
      var front, last := actions[..|actions| - 1], actions[|actions| - 1];
      forall i | 0 <= i < |front| ensures front[..i] == actions[..i] {
      }
      RunIsMarked(s, front);
      if last.Finish? {
        FinishIsPossible(Run(s, front).value, last.process);
        FinishIsMarked(Run(s, front).value, last.process);
      } else {
        OtherIsMarked(Run(s, front).value, last);
      }
    } else {
      StartIsMarked(s);
    }
  }

  lemma StartIsMarked(s: State)
    requires Initial(s)
    ensures Marked(s)
  {
  }

  lemma FinishIsPossible(s: State, process: nat)
    requires Possible(s, Finish(process))
    ensures process in s.pending
  {
  }

  /** A schedule's successful claims have strictly increasing minutes, so no minute fires twice, over every
      interleaving with claims, guarded edits and those blind edits that do not lower the mark. */
  lemma FiresAtMostOnce(s: State, actions: seq<Action>, i: nat, j: nat)
    requires Initial(s) && Run(s, actions).Some? && MarkNeverFalls(s, actions)
    requires i < j < |Run(s, actions).value.log|
    requires IsClaimOf(Run(s, actions).value.log[i], Run(s, actions).value.log[j])
    ensures Run(s, actions).value.log[i].op.claim.minute < Run(s, actions).value.log[j].op.claim.minute
  {
    hide Run, MarkNeverFalls;
    RunIsMarked(s, actions);
  }

  // ---- Blind edits -------------------------------------------------------------------------------------------------

  /** A blind edit puts back the mark it read. */
  lemma BlindEditRestoresMark(s: State, process: nat)
    requires Sound(s) && process in s.pending && !Guarded(s.pending[process].op)
    requires "lastCronFireMs" !in s.pending[process].op.edit.patch
    requires Lookup(s.rows, IdOf(s.pending[process].op)).Some?
    ensures var call := s.pending[process]; var t := Act(s, Finish(process));
      && Sound(t) && t.pending == s.pending - {process}
      && HighWater(call.next) == HighWater(call.read)
      && Lookup(t.rows, IdOf(call.op)) == Some(Mirrored(IdOf(call.op), call.next))
      && t.log == s.log + [Wrote(call.op, call.read, Lookup(s.rows, IdOf(call.op)).value.data, call.next)]
  {
    hide NextOf, EditNext, Merge;
    var call := s.pending[process];
    var row := Lookup(s.rows, IdOf(call.op)).value;
    ActIsSound(s, Finish(process));
    PutKeeps(s.rows, Updated(row, call));
    NextIsEdit(call.read, call.op);
    EditKeepsMark(call.read, call.op.edit);
  }

  lemma RunMore(s: State, actions: seq<Action>, last: Action)
    requires Run(s, actions).Some?
    ensures Run(s, actions + [last]) ==
            if Possible(Run(s, actions).value, last) then Some(Act(Run(s, actions).value, last)) else None
  {
    assert (actions + [last])[..|actions|] == actions;
  }

  /** An uninterrupted claim on a stored record. */
  lemma ClaimAlone(s: State, process: nat, claim: Claim, record: Record)
    requires Sound(s) && process !in s.pending && Lookup(s.rows, claim.id) == Some(Mirrored(claim.id, record))
    ensures Possible(Act(s, Begin(process, ClaimOp(claim))), Finish(process)) <==> Claimable(record, claim)
    ensures Claimable(record, claim) ==>
      Act(Act(s, Begin(process, ClaimOp(claim))), Finish(process)).log
        == s.log + [Wrote(ClaimOp(claim), record, record, ClaimNext(record, claim).value)]
  {
    hide ClaimNext, Claimable, EnabledIn, ChannelOf;
    ClaimExactly(record, claim);
  }

  /** The exact reach of a fallen mark, over all runs: a blind edit under way, which read the row before, puts
      its mark back; then a claim that had succeeded succeeds once more, uninterrupted, exactly when that mark
      is below the claimed minute and what the edit stored is enabled and claimable. So the same minute fires
      twice. */
  lemma FallenMarkRefires(s: State, actions: seq<Action>, process: nat, i: nat)
    requires Initial(s) && Run(s, actions).Some? && i < |Run(s, actions).value.log|
    requires var t := Run(s, actions).value;
      && process in t.pending && !Guarded(t.pending[process].op)
      && "lastCronFireMs" !in t.pending[process].op.edit.patch
      && Lookup(t.rows, IdOf(t.pending[process].op)).Some?
      && t.log[i].Wrote? && t.log[i].op.ClaimOp? && t.log[i].op.claim.id == IdOf(t.pending[process].op)
    ensures var t := Run(s, actions).value; var edited := t.pending[process].next; var claim := t.log[i].op.claim;
      var again := Run(s, actions + [Finish(process)] + [Begin(process, ClaimOp(claim))] + [Finish(process)]);
      && HighWater(edited) == HighWater(t.pending[process].read)
      && (again.Some? <==> Claimable(edited, claim))
      && (again.Some? ==>
            && |again.value.log| == |t.log| + 2 && again.value.log[..|t.log|] == t.log
            && again.value.log[|t.log| + 1].Wrote? && again.value.log[|t.log| + 1].op == t.log[i].op)
  {
    hide Act, Possible, Run, Sound, Claimable, HighWater, ClaimNext, Lookup;
    RunIsSound(s, actions);
    var t := Run(s, actions).value;
    var claim, edited := t.log[i].op.claim, t.pending[process].next;
    FinishCan(t, process);
    BlindEditRestoresMark(t, process);
    var u := Act(t, Finish(process));
    RunMore(s, actions, Finish(process));
    BeginCan(u, process, ClaimOp(claim));
    RunMore(s, actions + [Finish(process)], Begin(process, ClaimOp(claim)));
    RunMore(s, actions + [Finish(process)] + [Begin(process, ClaimOp(claim))], Finish(process));
    ClaimAlone(u, process, claim, edited);
  }

  lemma FinishCan(s: State, process: nat)
    requires process in s.pending
    ensures Possible(s, Finish(process))
  {
  }

  lemma BeginCan(s: State, process: nat, op: Operation)
    requires process !in s.pending
    ensures Possible(s, Begin(process, op))
  {
  }

  function NewRecord(): Record {
    map["channelId" := J.Str("C1"), "cron" := J.Str("* * * * *"), "enabled" := J.Bool(true)]
  }

  function BlindEdit(): Operation {
    EditOp(Edit("s", map["lastStatus" := Some(J.Str("ok"))], None, J.Null))
  }

  function FirstMinute(): Operation {
    ClaimOp(Claim("s", 60_000, "1970-01-01 00:01", None))
  }

  /** A blind edit that read the row before a claim and writes it afterwards undoes the claim: the same
      minute is claimed a second time, and both claims succeed. */
  lemma BlindEditUndoesClaim() returns (actions: seq<Action>)
    ensures var s := State([], {}, map[], []);
      && Initial(s) && Run(s, actions).Some?
      && var log := Run(s, actions).value.log;
      && |log| == 4
      && log[1].Wrote? && log[1].op == FirstMinute()
      && log[3].Wrote? && log[3].op == FirstMinute()
  {
    RaceFacts();
    var record := NewRecord();
    var edited := EditNext(record, BlindEdit().edit).value;
    actions := Race(record, ClaimNext(record, FirstMinute().claim).value, edited,
      ClaimNext(edited, FirstMinute().claim).value, BlindEdit(), FirstMinute());
  }

  /** The interleaving up to the edit's write: read for the edit, claim, write the edit. */
  lemma RaceToEdit(record: Record, claimed: Record, edited: Record, edit: Operation, claim: Operation)
    returns (actions: seq<Action>)
    requires edit.EditOp? && !Guarded(edit) && claim.ClaimOp? && IdOf(edit) == "s" && IdOf(claim) == "s"
    requires NextOf(record, claim) == Some(claimed) && NextOf(record, edit) == Some(edited)
    ensures Run(State([], {}, map[], []), actions) == Some(State([Mirrored("s", edited)], {"s"}, map[],
      [Added("s", record), Wrote(claim, record, record, claimed), Wrote(edit, record, claimed, edited)]))
  {
    hide ClaimNext, EditNext, NextOf, ChannelOf, EnabledIn, Began, Finished, Lookup, Put, Run;
    var s0 := State([], {}, map[], []);
    var row := Mirrored("s", record);
    var s1 := State([row], {"s"}, map[], [Added("s", record)]);
    var s2 := s1.(pending := map[1 := Pending(edit, record, edited)]);
    var s3 := s2.(pending := s2.pending[2 := Pending(claim, record, claimed)]);
    var s4 := State([row.(data := claimed)], {"s"}, s2.pending, s1.log + [Wrote(claim, record, record, claimed)]);
    var s5 := State([Mirrored("s", edited)], {"s"}, map[], s4.log + [Wrote(edit, record, claimed, edited)]);
    actions := [Add("s", record), Begin(1, edit), Begin(2, claim), Finish(2), Finish(1)];
    assert [] + [row] == [row];
    OneRowBegin(s1, 1, edit, row, edited);
    OneRowBegin(s2, 2, claim, row, claimed);
    OneRowFinish(s3, 2, row);
    assert s3.pending - {2} == s2.pending;
    OneRowFinish(s4, 1, row.(data := claimed));
    assert s4.pending - {1} == map[];
    RunFive(s0, actions, s1, s2, s3, s4, s5);
    assert actions[..5] == actions;
    assert s5.log == [Added("s", record), Wrote(claim, record, record, claimed), Wrote(edit, record, claimed, edited)];
  }

  /** And then the claim again. */
  lemma Race(record: Record, claimed: Record, edited: Record, again: Record, edit: Operation, claim: Operation)
    returns (actions: seq<Action>)
    requires edit.EditOp? && !Guarded(edit) && claim.ClaimOp? && IdOf(edit) == "s" && IdOf(claim) == "s"
    requires NextOf(record, claim) == Some(claimed) && NextOf(record, edit) == Some(edited)
    requires NextOf(edited, claim) == Some(again)
    ensures var s := State([], {}, map[], []);
      && Initial(s) && Run(s, actions).Some?
      && Run(s, actions).value.log
        == [Added("s", record), Wrote(claim, record, record, claimed), Wrote(edit, record, claimed, edited), Wrote(claim, edited, edited, again)]
  {
    hide ClaimNext, EditNext, NextOf, ChannelOf, EnabledIn, Began, Finished, Lookup, Put, Run;
    var s0 := State([], {}, map[], []);
    var first := RaceToEdit(record, claimed, edited, edit, claim);
    var s5 := Run(s0, first).value;
    OneRowBegin(s5, 3, claim, Mirrored("s", edited), again);
    RunMore(s0, first, Begin(3, claim));
    var s6 := s5.(pending := map[3 := Pending(claim, edited, again)]);
    OneRowFinish(s6, 3, Mirrored("s", edited));
    RunMore(s0, first + [Begin(3, claim)], Finish(3));
    actions := first + [Begin(3, claim)] + [Finish(3)];
  }

  function Disable(): Operation {
    EditOp(Edit("s", map["enabled" := Some(J.Bool(false))], None, J.Null))
  }

  /** A blind edit of the status that read the row before another process disabled the schedule enables it
      again, and no eligibility boundary is stored: the minutes of the pause count as missed. */
  lemma BlindEditReenables() returns (actions: seq<Action>)
    ensures var s := State([], {}, map[], []);
      && Initial(s) && Run(s, actions).Some?
      && var log := Run(s, actions).value.log;
      && |log| == 3
      && log[1].Wrote? && log[1].op == Disable() && !EnabledIn(log[1].after)
      && log[2].Wrote? && log[2].op == BlindEdit() && log[2].before == log[1].after
      && EnabledIn(log[2].after) && Field(log[2].after, "cronEligibleSince") == None
      && Overlooks(log[2].read, log[2].before, BlindEdit().edit.patch)
  {
    DisableFacts();
    var record := NewRecord();
    actions := Reenable(record, EditNext(record, BlindEdit().edit).value, EditNext(record, Disable().edit).value, BlindEdit(), Disable());
  }

  lemma DisableFacts()
    ensures var record := NewRecord(); var edited, disabled := EditNext(record, BlindEdit().edit), EditNext(record, Disable().edit);
      && edited.Some? && disabled.Some? && EnabledIn(edited.value) && !EnabledIn(disabled.value)
      && Field(edited.value, "cronEligibleSince") == None
      && Overlooks(record, disabled.value, BlindEdit().edit.patch)
  {
    var record := NewRecord();
    var edited, disabled := Merge(record, BlindEdit().edit.patch), Merge(record, Disable().edit.patch);
    assert Field(edited, "enabled") == Field(record, "enabled") == Some(J.Bool(true));
    assert Field(edited, "cron") == Field(record, "cron") == Field(disabled, "cron");
    assert Field(disabled, "enabled") == Some(J.Bool(false));
    assert Field(edited, "cronEligibleSince") == None;
  }

  /** The interleaving: read for one edit, disable by another, write the first. */
  lemma Reenable(record: Record, edited: Record, disabled: Record, edit: Operation, disable: Operation)
    returns (actions: seq<Action>)
    requires edit.EditOp? && disable.EditOp? && !Guarded(edit) && !Guarded(disable)
    requires IdOf(edit) == "s" && IdOf(disable) == "s"
    requires NextOf(record, edit) == Some(edited) && NextOf(record, disable) == Some(disabled)
    ensures var s := State([], {}, map[], []);
      && Initial(s) && Run(s, actions).Some?
      && Run(s, actions).value.log
        == [Added("s", record), Wrote(disable, record, record, disabled), Wrote(edit, record, disabled, edited)]
  {
    hide EditNext, NextOf, ChannelOf, EnabledIn, Began, Finished, Lookup, Put, Run;
    var s0 := State([], {}, map[], []);
    var row := Mirrored("s", record);
    var s1 := State([row], {"s"}, map[], [Added("s", record)]);
    var s2 := s1.(pending := map[1 := Pending(edit, record, edited)]);
    var s3 := s2.(pending := s2.pending[2 := Pending(disable, record, disabled)]);
    var s4 := State([Mirrored("s", disabled)], {"s"}, s2.pending, s1.log + [Wrote(disable, record, record, disabled)]);
    var s5 := State([Mirrored("s", edited)], {"s"}, map[], s4.log + [Wrote(edit, record, disabled, edited)]);
    actions := [Add("s", record), Begin(1, edit), Begin(2, disable), Finish(2), Finish(1)];
    assert [] + [row] == [row];
    OneRowBegin(s1, 1, edit, row, edited);
    OneRowBegin(s2, 2, disable, row, disabled);
    OneRowFinish(s3, 2, row);
    assert s3.pending - {2} == s2.pending;
    OneRowFinish(s4, 1, Mirrored("s", disabled));
    assert s4.pending - {1} == map[];
    RunFive(s0, actions, s1, s2, s3, s4, s5);
    assert actions[..5] == actions;
  }

  lemma OneRowBegin(s: State, process: nat, op: Operation, row: Row, next: Record)
    requires s.rows == [row] && IdOf(op) == row.id && NextOf(row.data, op) == Some(next)
    ensures Began(s, process, op) == s.(pending := s.pending[process := Pending(op, row.data, next)])
  {
    hide NextOf;
  }

  lemma RaceFacts()
    ensures ClaimNext(NewRecord(), FirstMinute().claim).Some?
    ensures EditNext(NewRecord(), BlindEdit().edit).Some?
    ensures ClaimNext(EditNext(NewRecord(), BlindEdit().edit).value, FirstMinute().claim).Some?
  {
    var record := NewRecord();
    var edited := Merge(record, BlindEdit().edit.patch);
    assert Field(edited, "enabled") == Field(record, "enabled");
    assert Field(edited, "cron") == Field(record, "cron");
    assert Field(edited, "lastCronFireMs") == None && Field(edited, "lastFireMinute") == None;
  }

  lemma OneRowFinish(s: State, process: nat, row: Row)
    requires s.rows == [row] && process in s.pending && IdOf(s.pending[process].op) == row.id
    requires Guarded(s.pending[process].op) ==> row.data == s.pending[process].read
    ensures Finished(s, process) == State([Updated(row, s.pending[process])], s.used, s.pending - {process},
      s.log + [Wrote(s.pending[process].op, s.pending[process].read, row.data, s.pending[process].next)])
  {
    hide NextOf;
    assert Put([row], Updated(row, s.pending[process])) == [Updated(row, s.pending[process])];
  }

  lemma RunStep(s: State, actions: seq<Action>, n: nat, t: State, u: State)
    requires n < |actions| && Run(s, actions[..n]) == Some(t) && Possible(t, actions[n]) && Act(t, actions[n]) == u
    ensures Run(s, actions[..n + 1]) == Some(u)
  {
    assert actions[..n + 1][..n] == actions[..n];
  }

  lemma RunFive(s0: State, actions: seq<Action>, s1: State, s2: State, s3: State, s4: State, s5: State)
    requires |actions| >= 5
    requires Possible(s0, actions[0]) && Act(s0, actions[0]) == s1 && Possible(s1, actions[1]) && Act(s1, actions[1]) == s2
    requires Possible(s2, actions[2]) && Act(s2, actions[2]) == s3 && Possible(s3, actions[3]) && Act(s3, actions[3]) == s4
    requires Possible(s4, actions[4]) && Act(s4, actions[4]) == s5
    ensures Run(s0, actions[..5]) == Some(s5)
  {
    hide Act, Possible;
    RunStep(s0, actions, 0, s0, s1);
    RunStep(s0, actions, 1, s1, s2);
    RunStep(s0, actions, 2, s2, s3);
    RunStep(s0, actions, 3, s3, s4);
    RunStep(s0, actions, 4, s4, s5);
  }
}

/** `schedules.js` as one process runs it: statements on a shared table, and the calls made of them. */
module ScheduleStoreObject {
  import opened Basics
  import opened RecordTable
  import opened Schedules

  class ScheduleStore {
    var rows: seq<Row>

    constructor ()
      ensures rows == []
    {
      rows := [];
    }

    /** INSERT: a used primary key is refused and nothing changes. */
    method AddSchedule(id: string, data: Record) returns (added: bool)
      modifies this
      ensures added <==> id !in Ids(old(rows))
      ensures rows == if added then Apply(old(rows), Added(id, data)) else old(rows)
    {
      added := Lookup(rows, id).None?;
      if added {
        rows := rows + [Row(id, ChannelOf(data), EnabledIn(data), data)];
      }
    }

    /** The SELECT of a claim or an edit, and the decision on what it read: the step `Begin` of the interleaved
        machine, on its own. */
    method Read(op: Operation) returns (call: Option<Pending>)
      ensures Began(State(rows, {}, map[], []), 0, op).pending == if call.Some? then map[0 := call.value] else map[]
    {
      var row := Lookup(rows, IdOf(op));
      if row.None? {
        return None;
      }
      var next := NextOf(row.value.data, op);
      if next.None? {
        return None;
      }
      return Some(Pending(op, row.value.data, next.value));
    }

    /** The UPDATE that ends a call: the step `Finish` of the interleaved machine, on its own. */
    method Write(call: Pending) returns (changed: bool)
      modifies this
      ensures var s := Finished(State(old(rows), {}, map[0 := call], []), 0);
        rows == s.rows && (changed <==> s.log != [])
    {
      changed := false;
      var row := Lookup(rows, IdOf(call.op));
      if row.None? || (Guarded(call.op) && row.value.data != call.read) {
        return;
      }
      rows := Put(rows, Updated(row.value, call));
      changed := true;
    }

    /** A call that nobody interrupts is the atomic operation. */
    method Perform(op: Operation) returns (result: Option<Record>)
      requires UniqueIds(rows) && ColumnsMirror(rows)
      modifies this
      ensures UniqueIds(rows) && ColumnsMirror(rows)
      ensures var row := Lookup(old(rows), IdOf(op));
        result == if row.Some? then NextOf(row.value.data, op) else None
      ensures var row := Lookup(old(rows), IdOf(op));
        match op
        case ClaimOp(claim) =>
          && (result.Some? <==> row.Some? && Claimable(row.value.data, claim))
          && (result.Some? ==> IsClaimed(row.value.data, result.value, claim))
        case EditOp(edit) => result.Some? ==> IsEdited(row.value.data, result.value, edit)
      ensures result.None? ==> rows == old(rows)
      ensures result.Some? ==> rows == Put(old(rows), Mirrored(IdOf(op), result.value))
    {
      hide NextOf, Updated, Mirrored, Claimable, IsClaimed, IsEdited;
      Decides(op);
      var call := Read(op);
      ghost var pending := Began(State(rows, {}, map[], []), 0, op).pending;
      assert call.Some? <==> 0 in pending;
      assert call.Some? ==> pending[0] == call.value;
      if call.None? {
        return None;
      }
      ghost var row := Lookup(rows, IdOf(op)).value;
      StoredAs(rows, IdOf(op));
      UpdatedMirrors(row, call.value);
      UpdatedData(row, call.value);
      PutKeeps(rows, Updated(row, call.value));
      PutMirrors(rows, row.id, call.value.next);
      var changed := Write(call.value);
      result := if changed then Some(call.value.next) else None;
    }

    lemma Decides(op: Operation)
      ensures var row := Lookup(rows, IdOf(op));
        row.Some? ==> match op
        case ClaimOp(claim) =>
          && (NextOf(row.value.data, op).Some? <==> Claimable(row.value.data, claim))
          && (NextOf(row.value.data, op).Some? ==> IsClaimed(row.value.data, NextOf(row.value.data, op).value, claim))
        case EditOp(edit) => NextOf(row.value.data, op).Some? ==> IsEdited(row.value.data, NextOf(row.value.data, op).value, edit)
    {
      hide ClaimNext, EditNext, Claimable, IsClaimed, IsEdited;
      var row := Lookup(rows, IdOf(op));
      if row.Some? {
        match op
        case ClaimOp(claim) =>
          ClaimExactly(row.value.data, claim);
          if ClaimNext(row.value.data, claim).Some? {
            ClaimStores(row.value.data, claim);
          }
        case EditOp(edit) => EditExactly(row.value.data, edit);
      }
    }

    lemma StoredAs(rows: seq<Row>, id: string)
      requires ColumnsMirror(rows) && Lookup(rows, id).Some?
      ensures var row := Lookup(rows, id).value; row.id == id && row == Mirrored(row.id, row.data)
    {
    }

    lemma PutMirrors(rows: seq<Row>, id: string, data: Record)
      requires ColumnsMirror(rows)
      ensures ColumnsMirror(Put(rows, Mirrored(id, data)))
    {
    }

    method DeleteSchedule(id: string, channel: string) returns (deleted: bool)
      modifies this
      ensures rows == Removed(State(old(rows), {}, map[], []), id, Some(channel)).rows
      ensures deleted <==> Lookup(old(rows), id).Some? && (channel == "" || Lookup(old(rows), id).value.channel == channel)
      ensures rows == if deleted then Where(old(rows), (row: Row) => row.id != id) else old(rows)
    {
      var row := Lookup(rows, id);
      deleted := row.Some? && (channel == "" || row.value.channel == channel);
      if deleted {
        RemoveIsWhere(rows, id);
        rows := Remove(rows, id);
      }
    }

    method CountEnabledForChannel(channel: string) returns (n: nat)
      ensures n == CountEnabled(rows, channel)
    {
      n := 0;
      var i := |rows|;
      assert rows[|rows|..] == [];
      while i > 0
        invariant 0 <= i <= |rows|
        invariant n == CountEnabled(rows[i..], channel)
      {
        i := i - 1;
        assert rows[i..][1..] == rows[i + 1..];
        if rows[i].channel == channel && rows[i].enabled {
          n := n + 1;
        }
      }
      assert rows[0..] == rows;
    }
  }
}

/** Pending acknowledgments: the same mirroring, and the lookup that a reaction triggers. */
module Acknowledgments {
  import opened Basics
  import opened RecordTable
  import J = JsonText

  /** Calls of `updateAck` by any process are split at their UPDATE, which compares nothing. */
  datatype State = State(rows: seq<Row>, pending: map<nat, (string, Record)>)

  datatype Action =
    | Add(id: string, data: Record)
    | Delete(id: string)
    | Begin(process: nat, id: string, patch: Patch)
    | Finish(process: nat)

  function Act(s: State, action: Action): State {
    match action
    case Add(id, data) => if id in Ids(s.rows) then s else s.(rows := s.rows + [Mirrored(id, data)])
    case Delete(id) => s.(rows := Remove(s.rows, id))
    case Begin(process, id, patch) =>
      (match Lookup(s.rows, id)
       case None => s
       case Some(row) => s.(pending := s.pending[process := (id, Merge(row.data, patch))]))
    case Finish(process) =>
      if process !in s.pending then s else
      var (id, next) := s.pending[process];
      s.(rows := Put(s.rows, Mirrored(id, next)), pending := s.pending - {process})
  }

  function Run(s: State, actions: seq<Action>): State {
    if actions == [] then s else Act(Run(s, actions[..|actions| - 1]), actions[|actions| - 1])
  }

  lemma {:induction false} RunMirrors(s: State, actions: seq<Action>)
    requires UniqueIds(s.rows) && ColumnsMirror(s.rows)
    ensures UniqueIds(Run(s, actions).rows) && ColumnsMirror(Run(s, actions).rows)
  {
    if actions != [] {
      var t := Run(s, actions[..|actions| - 1]);
      RunMirrors(s, actions[..|actions| - 1]);
      match actions[|actions| - 1]
      case Add(id, data) => if id !in Ids(t.rows) { AppendKeeps(t.rows, Mirrored(id, data)); }
      case Delete(id) => RemoveKeeps(t.rows, id);
      case Begin(_, _, _) =>
      case Finish(process) =>
        if process in t.pending {
          PutKeeps(t.rows, Mirrored(t.pending[process].0, t.pending[process].1));
        }
    }
  }

  /** The reminder message itself, or any repost of it. */
  predicate Acknowledges(record: Record, messageTs: string) {
    || Field(record, "messageTs") == Some(J.Str(messageTs))
    || match Field(record, "messageTsList")
       case Some(Arr(items)) => J.Str(messageTs) in items
       case _ => false
  }

  /** One of the messages that the record can be acknowledged by. */
  ghost predicate Covers(record: Record, messageTs: string) {
    || Field(record, "messageTs") == Some(J.Str(messageTs))
    || exists items, k ::
         0 <= k < |items| && Field(record, "messageTsList") == Some(J.Arr(items)) && items[k] == J.Str(messageTs)
  }

  lemma AcknowledgesExactly(record: Record, messageTs: string)
    ensures Acknowledges(record, messageTs) <==> Covers(record, messageTs)
  {
    var listed := Field(record, "messageTsList");
    if listed.Some? && listed.value.Arr? && J.Str(messageTs) in listed.value.items {
      var items := listed.value.items;
      var k :| 0 <= k < |items| && items[k] == J.Str(messageTs);
    }
  }

  lemma AnswerIsChannel(rows: seq<Row>, answer: seq<Row>, channel: string)
    requires ColumnsMirror(rows) && multiset(answer) == multiset(Where(rows, InChannel(channel)))
    ensures forall row :: row in answer <==> row in rows && NamesChannel(row.data, channel)
  {
    hide EnabledIn;
    forall row ensures row in answer <==> row in rows && NamesChannel(row.data, channel) {
      assert row in answer <==> row in multiset(answer);
      assert row in Where(rows, InChannel(channel)) <==> row in multiset(Where(rows, InChannel(channel)));
    }
  }

  /** `findAckByMessage`: an indexed query on the channel column, then a loop over its records. The query asks
      for no order, so `answer` lists the channel's rows in any; the first match in that order is returned. */
  method FindAckByMessage(rows: seq<Row>, answer: seq<Row>, channel: string, messageTs: string) returns (ack: Option<Record>)
    requires ColumnsMirror(rows) && multiset(answer) == multiset(Where(rows, InChannel(channel)))
    ensures ack.Some? <==>
      && channel != "" && messageTs != ""
      && exists row :: row in rows && NamesChannel(row.data, channel) && Covers(row.data, messageTs)
    ensures ack.Some? ==> exists i ::
      && 0 <= i < |answer| && answer[i] in rows && answer[i].data == ack.value
      && NamesChannel(ack.value, channel) && Covers(ack.value, messageTs)
      && forall j :: 0 <= j < i ==> !Covers(answer[j].data, messageTs)
  {
    hide Acknowledges, Covers, NamesChannel, ColumnsMirror;
    AnswerIsChannel(rows, answer, channel);
    if channel == "" || messageTs == "" {
      return None;
    }
    var i := 0;
    while i < |answer|
      invariant 0 <= i <= |answer|
      invariant forall j :: 0 <= j < i ==> !Covers(answer[j].data, messageTs)
    {
      assert answer[i] in answer;
      AcknowledgesExactly(answer[i].data, messageTs);
      if Acknowledges(answer[i].data, messageTs) {
        return Some(answer[i].data);
      }
      i := i + 1;
    }
    return None;
  }

  /** After every interleaving of adds, split updates and deletes, the indexed query meets exactly the
      records that a scan of all of them would select. */
  lemma IndexedQueryIsScan(s: State, actions: seq<Action>, channel: string)
    requires UniqueIds(s.rows) && ColumnsMirror(s.rows)
    ensures ColumnsMirror(Run(s, actions).rows)
    ensures Where(Run(s, actions).rows, InChannel(channel)) == Where(Run(s, actions).rows, RecordInChannel(channel))
  {
    RunMirrors(s, actions);
    ColumnQueryIsScan(Run(s, actions).rows, channel);
  }
}
