/** Device commands: their rows, the overlap rule, the merge a save performs, and the
    change each handler of the command worker makes. */
module Commands {
  import opened Calendar
  import opened Outcomes
  import opened Collections

  datatype Status = Unset | Pending | Queued | Sent | Ack | Failed

  datatype Command = Command(
    id: ID,
    version: int,
    deviceId: ID,
    deviceName: string,
    taskId: ID,
    port: int,
    priority: string,
    index: int,
    value: int,
    dispatchAfter: Instant,
    createdAt: Instant,
    ready: bool,
    sent: bool,
    sentAt: Instant,
    status: Status,
    errorMessage: Option<string>,
    queuedAt: Option<Instant>,
    ackedAt: Option<Instant>,
    failedAt: Option<Instant>)
  {
    /** Sets the status and the time stamp that goes with it. */
    function UpdateStatus(status: Status, error: Option<string>, now: Instant): Command {
      var c := this.(status := status);
      match status
      case Queued => c.(queuedAt := Some(now))
      case Sent => c.(sent := true, sentAt := now)
      case Ack => c.(ackedAt := Some(now))
      case Failed => c.(failedAt := Some(now), errorMessage := error)
      case _ => c
    }

    predicate OverlapsWith(other: Command) {
      if index != other.index then false
      else
        var thisEnd := dispatchAfter + OVERLAP_BUFFER;
        var otherEnd := other.dispatchAfter + OVERLAP_BUFFER;
        dispatchAfter < otherEnd && other.dispatchAfter < thisEnd
    }
  }

  function CommandId(c: Command): ID { c.id }

  const OVERLAP_BUFFER := 30 * NANOS_PER_SECOND

  function Distance(a: Instant, b: Instant): int {
    if a <= b then b - a else a - b
  }

  /** Two commands overlap exactly if they drive the same index less than 30 s apart. */
  lemma OverlapIff(a: Command, b: Command)
    ensures a.OverlapsWith(b) <==> a.index == b.index && Distance(a.dispatchAfter, b.dispatchAfter) < OVERLAP_BUFFER
    ensures a.OverlapsWith(b) <==>
            && a.index == b.index
            && a.dispatchAfter - b.dispatchAfter < 30_000_000_000 && b.dispatchAfter - a.dispatchAfter < 30_000_000_000
    ensures a.OverlapsWith(b) <==> b.OverlapsWith(a)
  {
  }

  // ---- Saving ----

  /** What a save writes over an existing row: creation time and unset fields come from the row,
      and the version is the row's plus one. */
  function Merge(existing: Command, cmd: Command): Command {
    cmd.(createdAt := existing.createdAt,
         status := if cmd.status.Unset? then existing.status else cmd.status,
         queuedAt := if cmd.queuedAt.None? then existing.queuedAt else cmd.queuedAt,
         ackedAt := if cmd.ackedAt.None? then existing.ackedAt else cmd.ackedAt,
         failedAt := if cmd.failedAt.None? then existing.failedAt else cmd.failedAt,
         version := existing.version + 1)
  }

  /** What an insert writes; the status column defaults to pending. */
  function Inserted(cmd: Command): Command {
    if cmd.status.Unset? then cmd.(status := Pending) else cmd
  }

  /** An inserted row is the command, field by field, but that a missing status becomes pending. */
  lemma InsertedFields(c: Command)
    ensures var r := Inserted(c);
            && r.id == c.id && r.deviceId == c.deviceId && r.deviceName == c.deviceName && r.taskId == c.taskId
            && r.port == c.port && r.priority == c.priority && r.index == c.index && r.value == c.value
            && r.dispatchAfter == c.dispatchAfter && r.createdAt == c.createdAt && r.version == c.version
            && r.ready == c.ready && r.sent == c.sent && r.sentAt == c.sentAt && r.errorMessage == c.errorMessage
            && r.queuedAt == c.queuedAt && r.ackedAt == c.ackedAt && r.failedAt == c.failedAt
            && r.status == if c.status == Unset then Pending else c.status
  {
  }

  function InsertAll(rows: map<ID, Command>, cmds: seq<Command>): map<ID, Command>
    decreases |cmds|
  {
    if cmds == [] then rows else InsertAll(rows[cmds[0].id := Inserted(cmds[0])], cmds[1..])
  }

  /** The state every builder leaves a command in. */
  predicate Unprocessed(c: Command) {
    !c.ready && !c.sent && c.queuedAt.None? && c.ackedAt.None? && c.failedAt.None?
  }

  predicate IsPending(c: Command) { !c.sent && !c.ready }

  predicate IsReadyToDispatch(c: Command) { c.ready && !c.sent }

  // ---- Changes ----

  /** The three edits the command worker makes to a row. */
  datatype Change = MakeReady | MarkSent(at: Instant) | SetStatus(status: Status, error: Option<string>, at: Instant)

  function Apply(change: Change, row: Command): Command {
    match change
    case MakeReady => row.(ready := true)
    case MarkSent(at) => row.(sent := true, sentAt := at)
    case SetStatus(status, error, at) => row.UpdateStatus(status, error, at)
  }

  predicate Meaningful(change: Change) {
    change.SetStatus? ==> !change.status.Unset?
  }

  /** Saving an edited copy of the current row merges to exactly the edit with the next version. */
  lemma MergeOfEdit(row: Command, change: Change)
    requires Meaningful(change)
    ensures Merge(row, Apply(change, row)) == Apply(change, row).(version := row.version + 1)
  {
  }

  /** The part of a command that no step ever changes. */
  predicate SameOrder(a: Command, b: Command) {
    && a.id == b.id && a.deviceId == b.deviceId && a.deviceName == b.deviceName && a.taskId == b.taskId
    && a.port == b.port && a.priority == b.priority && a.index == b.index && a.value == b.value
    && a.dispatchAfter == b.dispatchAfter && a.createdAt == b.createdAt
  }

  /** A later row keeps its order, its flags, and its time stamps. */
  predicate Progresses(before: Command, after: Command) {
    && SameOrder(before, after)
    && (before.ready ==> after.ready)
    && (before.sent ==> after.sent)
    && (before.queuedAt.Some? ==> after.queuedAt.Some?)
    && (before.ackedAt.Some? ==> after.ackedAt.Some?)
    && (before.failedAt.Some? ==> after.failedAt.Some?)
    && before.version <= after.version
  }

  lemma EditKeepsOrder(row: Command, change: Change)
    ensures SameOrder(row, Apply(change, row)) && Apply(change, row).id == row.id
  {
  }

  // An edit loses no flag and no time stamp.
  lemma EditLosesNothing(row: Command, change: Change)
    ensures var after := Apply(change, row);
            && (row.ready ==> after.ready) && (row.sent ==> after.sent)
            && (row.queuedAt.Some? ==> after.queuedAt.Some?)
            && (row.ackedAt.Some? ==> after.ackedAt.Some?)
            && (row.failedAt.Some? ==> after.failedAt.Some?)
  {
  }

  lemma ChangeProgresses(row: Command, change: Change)
    requires Meaningful(change)
    ensures Progresses(row, Merge(row, Apply(change, row)))
  {
    hide Merge, Apply;
    MergeOfEdit(row, change);
    EditKeepsOrder(row, change);
    EditLosesNothing(row, change);
  }

  // Something the network reported, directly or through the push, has reached the row.
  predicate Touched(c: Command) {
    c.sent || c.queuedAt.Some? || c.ackedAt.Some? || c.failedAt.Some?
  }

  // ---- Tasks ----

  datatype Task = Task(id: ID, deviceId: ID, commands: seq<Command>)

  /** How the callers build a task: fresh commands for its device that carry its ID. */
  ghost predicate WellBuilt(task: Task) {
    && task.commands != []
    && (forall i :: 0 <= i < |task.commands| ==>
          Unprocessed(task.commands[i]) && task.commands[i].deviceId == task.deviceId && task.commands[i].taskId == task.id)
    && (forall i, j :: 0 <= i < j < |task.commands| ==> task.commands[i].id != task.commands[j].id)
  }

  /** The pending commands of the task's device leave room for all its commands. */
  ghost predicate Fits(rows: map<ID, Command>, task: Task) {
    forall id, i :: id in rows && !rows[id].sent && rows[id].deviceId == task.deviceId && 0 <= i < |task.commands| ==>
                      !task.commands[i].OverlapsWith(rows[id])
  }

  ghost predicate AllNew(rows: map<ID, Command>, cmds: seq<Command>) {
    && (forall i :: 0 <= i < |cmds| ==> cmds[i].id !in rows)
    && (forall i, j :: 0 <= i < j < |cmds| ==> cmds[i].id != cmds[j].id)
  }

  function CommandIds(cmds: seq<Command>): seq<ID> {
    if cmds == [] then [] else [cmds[0].id] + CommandIds(cmds[1..])
  }

  /** The rows after inserting new commands: the old rows, and each command under its ID. */
  lemma {:induction false} InsertAllRows(rows: map<ID, Command>, cmds: seq<Command>)
    requires AllNew(rows, cmds)
    ensures forall id :: id in rows ==> id in InsertAll(rows, cmds) && InsertAll(rows, cmds)[id] == rows[id]
    ensures forall i :: 0 <= i < |cmds| ==>
              cmds[i].id in InsertAll(rows, cmds) && InsertAll(rows, cmds)[cmds[i].id] == Inserted(cmds[i])
    ensures forall id :: id in InsertAll(rows, cmds) && id !in rows ==> exists i :: 0 <= i < |cmds| && cmds[i].id == id
    decreases |cmds|
  {
    if cmds != [] {
      var rows1 := rows[cmds[0].id := Inserted(cmds[0])];
      InsertAllRows(rows1, cmds[1..]);
      forall i | 0 <= i < |cmds|
        ensures cmds[i].id in InsertAll(rows, cmds) && InsertAll(rows, cmds)[cmds[i].id] == Inserted(cmds[i])
      {
        if i > 0 {
          assert cmds[1..][i - 1] == cmds[i];
        }
      }
      forall id | id in InsertAll(rows, cmds) && id !in rows
        ensures exists i :: 0 <= i < |cmds| && cmds[i].id == id
      {
        if id != cmds[0].id {
          assert id in InsertAll(rows1, cmds[1..]) && id !in rows1;
          var i :| 0 <= i < |cmds[1..]| && cmds[1..][i].id == id;
          assert cmds[i + 1].id == id;
        } else {
          assert cmds[0].id == id;
        }
      }
    }
  }

  // ---- Correlation with the network ----

  const CORRELATION_PREFIX := "zensor:"

  predicate Correlated(correlationId: string) {
    CORRELATION_PREFIX <= correlationId
  }

  /** The command a network report is about: what follows the prefix in the first correlation ID
      that has it. Nothing, if there is none or nothing follows. */
  function ReportedCommand(correlationIds: seq<string>): Option<ID> {
    if correlationIds == [] then None
    else if Correlated(correlationIds[0]) then
      var id := correlationIds[0][|CORRELATION_PREFIX|..];
      if id == "" then None else Some(id)
    else ReportedCommand(correlationIds[1..])
  }

  /** A push's correlation ID comes back as the command, whatever foreign IDs stand before and after it. */
  lemma {:induction false} CorrelationRoundTrip(before: seq<string>, id: ID, after: seq<string>)
    requires forall i :: 0 <= i < |before| ==> !Correlated(before[i])
    requires id != ""
    ensures ReportedCommand(before + ["zensor:" + id] + after) == Some(id)
    decreases |before|
  {
    var all := before + [CORRELATION_PREFIX + id] + after;
    if before == [] {
      assert all[0] == CORRELATION_PREFIX + id;
      assert all[0][|CORRELATION_PREFIX|..] == id;
      assert Correlated(all[0]);
    } else {
      assert all[1..] == before[1..] + [CORRELATION_PREFIX + id] + after;
      CorrelationRoundTrip(before[1..], id, after);
    }
  }

  lemma {:induction false} ReportedWasCorrelated(correlationIds: seq<string>)
    ensures ReportedCommand(correlationIds).Some? ==>
              (CORRELATION_PREFIX + ReportedCommand(correlationIds).value) in correlationIds
  {
    if correlationIds != [] {
      if Correlated(correlationIds[0]) {
        assert correlationIds[0] == CORRELATION_PREFIX + correlationIds[0][|CORRELATION_PREFIX|..];
      } else {
        ReportedWasCorrelated(correlationIds[1..]);
      }
    }
  }
}
