/** The command table and the services and workers that run on it, as imperative code. Each
    method is tied to the functions the protocol steps are made of. Outcomes of store, broker
    and push calls are parameters; a failed call changes nothing. */
module CommandStore {
  import opened Calendar
  import opened Outcomes
  import opened Collections
  import opened Commands
  import opened CommandProtocol

  datatype StoreError = CommandNotFound | DatabaseError

  /** The unsent rows of a device, in any order. */
  ghost predicate PendingOf(found: seq<Command>, rows: map<ID, Command>, deviceId: ID) {
    && (forall c :: c in found ==> c.id in rows && rows[c.id] == c && !c.sent && c.deviceId == deviceId)
    && (forall id :: id in rows && !rows[id].sent && rows[id].deviceId == deviceId ==> rows[id] in found)
  }

  method MergeFields(existing: Command, cmd: Command) returns (entity: Command)
    ensures entity == Merge(existing, cmd) && entity.id == cmd.id
    ensures entity.createdAt == existing.createdAt && entity.version == existing.version + 1
    ensures entity.status == if cmd.status != Unset then cmd.status else existing.status
    ensures entity.queuedAt == if cmd.queuedAt != None then cmd.queuedAt else existing.queuedAt
    ensures entity.ackedAt == if cmd.ackedAt != None then cmd.ackedAt else existing.ackedAt
    ensures entity.failedAt == if cmd.failedAt != None then cmd.failedAt else existing.failedAt
    ensures entity.ready == cmd.ready && entity.sent == cmd.sent && entity.sentAt == cmd.sentAt
    ensures entity.errorMessage == cmd.errorMessage && entity.dispatchAfter == cmd.dispatchAfter
    ensures entity.deviceId == cmd.deviceId && entity.deviceName == cmd.deviceName && entity.taskId == cmd.taskId
    ensures entity.port == cmd.port && entity.priority == cmd.priority && entity.index == cmd.index && entity.value == cmd.value
  {
    var status, queuedAt, ackedAt, failedAt := cmd.status, cmd.queuedAt, cmd.ackedAt, cmd.failedAt;
    if status.Unset? {
      status := existing.status;
    }
    if queuedAt.None? && existing.queuedAt.Some? {
      queuedAt := existing.queuedAt;
    }
    if ackedAt.None? && existing.ackedAt.Some? {
      ackedAt := existing.ackedAt;
    }
    if failedAt.None? && existing.failedAt.Some? {
      failedAt := existing.failedAt;
    }
    entity := cmd.(createdAt := existing.createdAt, status := status, queuedAt := queuedAt, ackedAt := ackedAt,
                   failedAt := failedAt, version := existing.version + 1);
  }

  lemma SelectedIsPending(c: Command)
    ensures Selected(true, c) <==> IsPending(c)
  {
  }

  lemma SnapshotMember(found: seq<Command>, rows: map<ID, Command>, pending: bool, i: nat)
    requires Snapshot(found, rows, pending) && i < |found|
    ensures found[i].id in rows && rows[found[i].id] == found[i] && Selected(pending, found[i])
    ensures forall k :: 0 <= k < |found| && k != i ==> found[k].id != found[i].id
  {
    assert found[i] in found;
  }

  lemma SnapshotComplete(found: seq<Command>, rows: map<ID, Command>, pending: bool, id: ID) returns (k: nat)
    requires Snapshot(found, rows, pending) && KeysMatch(rows, CommandId) && id in rows && Selected(pending, rows[id])
    ensures k < |found| && found[k] == rows[id] && found[k].id == id
  {
    assert rows[id] in found;
    k :| 0 <= k < |found| && found[k] == rows[id];
  }

  class CommandRepository {
    var rows: map<ID, Command>

    ghost predicate Valid()
      reads this
    {
      KeysMatch(rows, CommandId)
    }

    method Create(cmd: Command, ok: bool) returns (created: bool)
      requires Valid()
      modifies this
      ensures Valid()
      ensures created <==> ok && cmd.id !in old(rows)
      ensures rows == if created then old(rows)[cmd.id := Inserted(cmd)] else old(rows)
      ensures created ==> rows[cmd.id] == cmd.(status := if cmd.status == Unset then Pending else cmd.status)
    {
      created := ok && cmd.id !in rows;
      if created {
        rows := rows[cmd.id := Inserted(cmd)];
      }
    }

    /** Merges the command into its row field by field and raises the version. */
    method Update(cmd: Command, readOk: bool, saveOk: bool) returns (updated: bool)
      requires Valid()
      modifies this
      ensures Valid()
      ensures updated <==> readOk && saveOk && cmd.id in old(rows)
      ensures rows == if updated then old(rows)[cmd.id := Merge(old(rows)[cmd.id], cmd)] else old(rows)
    {
      if !readOk || cmd.id !in rows {
        return false;
      }
      hide Commands.Merge;
      var entity := MergeFields(rows[cmd.id], cmd);
      if !saveOk {
        return false;
      }
      rows := rows[entity.id := entity];
      return true;
    }

    method GetByID(id: ID, ok: bool) returns (r: Result<Command, StoreError>)
      ensures r == if ok && id in rows then Ok(rows[id]) else if ok then Err(CommandNotFound) else Err(DatabaseError)
    {
      if !ok {
        return Err(DatabaseError);
      }
      return if id in rows then Ok(rows[id]) else Err(CommandNotFound);
    }

    // The rows with these flags, each once.
    method Select(pending: bool) returns (found: seq<Command>)
      requires Valid()
      ensures Snapshot(found, rows, pending)
    {
      found := [];
      var rest := rows.Keys;
      while rest != {}
        invariant rest <= rows.Keys
        invariant forall c :: c in found ==> c.id in rows && rows[c.id] == c && c.id !in rest && Selected(pending, c)
        invariant forall i, j :: 0 <= i < j < |found| ==> found[i].id != found[j].id
        invariant forall id :: id in rows && id !in rest && Selected(pending, rows[id]) ==> rows[id] in found
        decreases |rest|
      {
        hide CommandProtocol.Selected;
        var id :| id in rest;
        rest := rest - {id};
        if Selected(pending, rows[id]) {
          ghost var before := found;
          found := found + [rows[id]];
          forall i | 0 <= i < |before|
            ensures found[i].id != id
          {
            assert before[i] in before;
          }
        }
      }
    }

    method FindAllPending(ok: bool) returns (r: Result<seq<Command>, StoreError>)
      requires Valid()
      ensures r.Ok? <==> ok
      ensures ok ==> Snapshot(r.value, rows, true)
      ensures ok ==> forall c :: c in r.value <==> c.id in rows && rows[c.id] == c && !c.sent && !c.ready
    {
      if !ok {
        return Err(DatabaseError);
      }
      var found := Select(true);
      return Ok(found);
    }

    method FindAllReadyToDispatch(ok: bool) returns (r: Result<seq<Command>, StoreError>)
      requires Valid()
      ensures r.Ok? <==> ok
      ensures ok ==> Snapshot(r.value, rows, false)
      ensures ok ==> forall c :: c in r.value <==> c.id in rows && rows[c.id] == c && !c.sent && c.ready
    {
      if !ok {
        return Err(DatabaseError);
      }
      var found := Select(false);
      return Ok(found);
    }

    method FindPendingByDevice(deviceId: ID, ok: bool) returns (r: Result<seq<Command>, StoreError>)
      requires Valid()
      ensures r.Ok? <==> ok
      ensures ok ==> PendingOf(r.value, rows, deviceId)
    {
      if !ok {
        return Err(DatabaseError);
      }
      var found: seq<Command> := [];
      var rest := rows.Keys;
      while rest != {}
        invariant rest <= rows.Keys
        invariant forall c :: c in found ==> c.id in rows && rows[c.id] == c && !c.sent && c.deviceId == deviceId
        invariant forall id :: id in rows && id !in rest && !rows[id].sent && rows[id].deviceId == deviceId ==> rows[id] in found
        decreases |rest|
      {
        var id :| id in rest;
        rest := rest - {id};
        if !rows[id].sent && rows[id].deviceId == deviceId {
          found := found + [rows[id]];
        }
      }
      return Ok(found);
    }

    /** The transaction of task creation: all commands or none. */
    method CreateTask(task: Task, ok: bool) returns (created: bool)
      requires Valid()
      modifies this
      ensures Valid()
      ensures created ==> ok && AllNew(old(rows), task.commands) && rows == InsertAll(old(rows), task.commands)
      ensures !created ==> rows == old(rows)
      ensures ok && AllNew(old(rows), task.commands) ==> created
    {
      hide Commands.AllNew, Commands.InsertAll, Commands.Inserted;
      var draft := rows;
      NoneNew(rows);
      for i := 0 to |task.commands|
        invariant rows == old(rows)
        invariant AllNew(rows, task.commands[..i])
        invariant draft == InsertAll(rows, task.commands[..i])
      {
        var cmd := task.commands[i];
        OneMore(rows, task.commands, i);
        if cmd.id in draft {
          return false;
        }
        draft := draft[cmd.id := Inserted(cmd)];
      }
      assert task.commands[..|task.commands|] == task.commands;
      if !ok {
        return false;
      }
      InsertKeepsKeys(rows, task.commands);
      rows := draft;
      return true;
    }
  }

  lemma NoneNew(rows: map<ID, Command>)
    ensures AllNew(rows, []) && InsertAll(rows, []) == rows
  {
  }

  lemma InsertKeepsKeys(rows: map<ID, Command>, cmds: seq<Command>)
    requires KeysMatch(rows, CommandId) && AllNew(rows, cmds)
    ensures KeysMatch(InsertAll(rows, cmds), CommandId)
  {
    InsertAllRows(rows, cmds);
  }

  lemma {:induction false} InsertAllAppend(rows: map<ID, Command>, cmds: seq<Command>, cmd: Command)
    ensures InsertAll(rows, cmds + [cmd]) == InsertAll(rows, cmds)[cmd.id := Inserted(cmd)]
    decreases |cmds|
  {
    if cmds == [] {
      assert (cmds + [cmd])[1..] == [];
    } else {
      assert (cmds + [cmd])[1..] == cmds[1..] + [cmd];
      InsertAllAppend(rows[cmds[0].id := Inserted(cmds[0])], cmds[1..], cmd);
    }
  }

  // The next command of an insertion: its key is taken, or the insertion goes on.
  lemma OneMore(rows: map<ID, Command>, cmds: seq<Command>, i: nat)
    requires i < |cmds| && AllNew(rows, cmds[..i])
    ensures var draft := InsertAll(rows, cmds[..i]);
            if cmds[i].id in draft then !AllNew(rows, cmds)
            else AllNew(rows, cmds[..i + 1]) && InsertAll(rows, cmds[..i + 1]) == draft[cmds[i].id := Inserted(cmds[i])]
  {
    hide InsertAll;
    var before := cmds[..i];
    InsertAllRows(rows, before);
    assert cmds[..i + 1] == before + [cmds[i]];
    InsertAllAppend(rows, before, cmds[i]);
    if cmds[i].id in InsertAll(rows, before) && cmds[i].id !in rows {
      var j :| 0 <= j < |before| && before[j].id == cmds[i].id;
      assert cmds[j].id == cmds[i].id;
    }
    if cmds[i].id !in InsertAll(rows, before) {
      forall j | 0 <= j < i
        ensures cmds[j].id != cmds[i].id
      {
        assert before[j].id in InsertAll(rows, before);
      }
    }
  }

  // ---- Task service ----

  datatype TaskError = FindingPendingFailed | CommandOverlap | StoringFailed

  class TaskService {
    const repository: CommandRepository

    constructor (repository: CommandRepository)
      ensures this.repository == repository
    {
      this.repository := repository;
    }

    method ValidateCommandOverlaps(task: Task, findOk: bool) returns (r: Result<(), TaskError>)
      requires repository.Valid()
      ensures r == if !findOk then Err(FindingPendingFailed)
                   else if Fits(repository.rows, task) then Ok(())
                   else Err(CommandOverlap)
    {
      var pending := repository.FindPendingByDevice(task.deviceId, findOk);
      if pending.Err? {
        return Err(FindingPendingFailed);
      }
      for i := 0 to |task.commands|
        invariant forall k, c :: 0 <= k < i && c in pending.value ==> !task.commands[k].OverlapsWith(c)
      {
        for j := 0 to |pending.value|
          invariant forall c :: c in pending.value[..j] ==> !task.commands[i].OverlapsWith(c)
        {
          if task.commands[i].OverlapsWith(pending.value[j]) {
            assert pending.value[j] in pending.value;
            return Err(CommandOverlap);
          }
        }
        assert pending.value[..|pending.value|] == pending.value;
      }
      return Ok(());
    }

    method Create(task: Task, findOk: bool, storeOk: bool) returns (r: Result<(), TaskError>)
      requires repository.Valid()
      modifies repository
      ensures repository.Valid()
      ensures r == if !findOk then Err(FindingPendingFailed)
                   else if !Fits(old(repository.rows), task) then Err(CommandOverlap)
                   else if storeOk && AllNew(old(repository.rows), task.commands) then Ok(())
                   else Err(StoringFailed)
      ensures repository.rows == if r.Ok? then InsertAll(old(repository.rows), task.commands) else old(repository.rows)
    {
      var checked := ValidateCommandOverlaps(task, findOk);
      if checked.Err? {
        return checked;
      }
      var created := repository.CreateTask(task, storeOk);
      return if created then Ok(()) else Err(StoringFailed);
    }
  }

  // ---- Command worker ----

  /** What a sweep does to one row; `now` is the clock when that row is handled. */
  function SweptRow(c: Command, now: Instant, saved: bool): Command {
    if saved && IsPending(c) && c.dispatchAfter <= now then Merge(c, Apply(MakeReady, c)) else c
  }

  // What a sweep does to a row, field by field.
  lemma SweptInFields(c: Command, now: Instant, saved: bool)
    ensures SweptRow(c, now, saved) ==
              if saved && !c.sent && !c.ready && c.dispatchAfter <= now then c.(ready := true, version := c.version + 1) else c
  {
    hide Merge;
    MergeOfEdit(c, MakeReady);
  }

  lemma SweptTableInFields(rows: map<ID, Command>, clock: ID -> Instant, findOk: bool, failing: set<ID>)
    ensures forall id :: id in rows ==>
              SweptRow(rows[id], clock(id), findOk && id !in failing) ==
                if findOk && id !in failing && !rows[id].sent && !rows[id].ready && rows[id].dispatchAfter <= clock(id)
                then rows[id].(ready := true, version := rows[id].version + 1) else rows[id]
  {
    hide SweptRow;
    forall id | id in rows
      ensures SweptRow(rows[id], clock(id), findOk && id !in failing) ==
                if findOk && id !in failing && !rows[id].sent && !rows[id].ready && rows[id].dispatchAfter <= clock(id)
                then rows[id].(ready := true, version := rows[id].version + 1) else rows[id]
    {
      SweptInFields(rows[id], clock(id), findOk && id !in failing);
    }
  }

  /** The table after one command of a sweep is handled. */
  function HandledRows(rows: map<ID, Command>, cmd: Command, now: Instant, readOk: bool,
          saveOk: bool): map<ID, Command>
  {
    if cmd.dispatchAfter <= now && readOk && saveOk && cmd.id in rows
    then rows[cmd.id := Merge(rows[cmd.id], Apply(MakeReady, cmd))]
    else rows
  }

  /** The table after a message of the device topic is handled. */
  function MessageRows(rows: map<ID, Command>, event: Event, now: Instant, readOk: bool, rereadOk: bool,
          saveOk: bool): map<ID, Command>
  {
    if readOk && rereadOk && saveOk && event.id in rows && !(event.StatusUpdate? && event.id == "")
    then rows[event.id := Merge(rows[event.id], Apply(ChangeFor(event, now), rows[event.id]))]
    else rows
  }

  ghost predicate Swept(before: map<ID, Command>, after: map<ID, Command>, clock: ID -> Instant, saved: set<ID>) {
    && after.Keys == before.Keys
    && forall id :: id in before ==> after[id] == SweptRow(before[id], clock(id), id in saved)
  }

  lemma NothingSwept(rows: map<ID, Command>, clock: ID -> Instant)
    ensures Swept(rows, rows, clock, {})
  {
  }

  // Handling the next pending row of a sweep.
  lemma SweepOne(before: map<ID, Command>, rows: map<ID, Command>, clock: ID -> Instant, done: set<ID>,
          failing: set<ID>, cmd: Command, saveOk: bool)
    requires Swept(before, rows, clock, done - failing) && cmd.id !in done
    requires cmd.id in before && before[cmd.id] == cmd && IsPending(cmd)
    requires saveOk <==> cmd.id !in failing
    ensures Swept(before, HandledRows(rows, cmd, clock(cmd.id), true, saveOk), clock, done + {cmd.id} - failing)
  {
    hide Merge, Apply;
    assert rows[cmd.id] == cmd;
  }

  lemma SweptAll(before: map<ID, Command>, after: map<ID, Command>, clock: ID -> Instant, done: set<ID>,
          failing: set<ID>, pending: seq<Command>)
    requires Swept(before, after, clock, done - failing)
    requires KeysMatch(before, CommandId) && Snapshot(pending, before, true)
    requires forall k :: 0 <= k < |pending| ==> pending[k].id in done
    ensures after == map id | id in before :: SweptRow(before[id], clock(id), id !in failing)
  {
    hide Merge, Apply, Snapshot, Selected, IsPending;
    forall id | id in before
      ensures after[id] == SweptRow(before[id], clock(id), id !in failing)
    {
      SelectedIsPending(before[id]);
      if IsPending(before[id]) {
        var k := SnapshotComplete(pending, before, true, id);
      }
    }
  }

  /** The row after a status update, field by field. */
  ghost predicate StatusFields(row: Command, after: Command, status: Status, error: Option<string>, now: Instant) {
    && after.status == (if status == Unset then row.status else status)
    && after.queuedAt == (if status == Queued then Some(now) else row.queuedAt)
    && after.ackedAt == (if status == Ack then Some(now) else row.ackedAt)
    && after.failedAt == (if status == Failed then Some(now) else row.failedAt)
    && after.errorMessage == (if status == Failed then error else row.errorMessage)
    && after.sent == (row.sent || status == Sent)
    && after.sentAt == (if status == Sent then now else row.sentAt)
    && after.ready == row.ready && after.version == row.version + 1
    && SameOrder(row, after)
  }

  lemma StatusSaved(row: Command, status: Status, error: Option<string>, now: Instant)
    ensures Apply(SetStatus(status, error, now), row) == row.UpdateStatus(status, error, now)
    ensures row.UpdateStatus(status, error, now).id == row.id
    ensures StatusFields(row, Merge(row, Apply(SetStatus(status, error, now), row)), status, error, now)
  {
  }

  /** What a message of the device topic makes of the row of its command, field by field. */
  ghost predicate MessageFields(row: Command, after: Command, event: Event, now: Instant) {
    match event
    case CommandSent(_) => after == row.(sent := true, sentAt := now, version := row.version + 1)
    case StatusUpdate(_, status, error) => StatusFields(row, after, status, error, now)
  }

  class CommandWorker {
    const repository: CommandRepository
    var processed: seq<Command>

    constructor (repository: CommandRepository)
      ensures this.repository == repository && processed == []
    {
      this.repository := repository;
      processed := [];
    }

    method Handle(cmd: Command, now: Instant, readOk: bool, saveOk: bool)
      requires repository.Valid()
      modifies this`processed, repository
      ensures repository.Valid()
      ensures repository.rows == HandledRows(old(repository.rows), cmd, now, readOk, saveOk)
      ensures processed == if cmd.dispatchAfter <= now && readOk && saveOk && cmd.id in old(repository.rows)
                           then old(processed) + [Apply(MakeReady, cmd)] else old(processed)
    {
      if cmd.dispatchAfter > now {
        return;
      }
      var edited := cmd.(ready := true);
      var updated := repository.Update(edited, readOk, saveOk);
      if updated {
        processed := processed + [edited];
      }
    }

    /** Every pending row that is due becomes ready, and no other row changes. `clock` gives the
        time at which each row is handled, `failing` the rows whose save fails. */
    method Reconciliation(findOk: bool, clock: ID -> Instant, failing: set<ID>)
      requires repository.Valid()
      modifies this`processed, repository
      ensures repository.Valid()
      ensures repository.rows == map id | id in old(repository.rows) ::
                SweptRow(old(repository.rows)[id], clock(id), findOk && id !in failing)
      ensures forall id :: id in old(repository.rows) ==>
                var row := old(repository.rows)[id];
                id in repository.rows && repository.rows[id] ==
                  if findOk && id !in failing && !row.sent && !row.ready && row.dispatchAfter <= clock(id)
                  then row.(ready := true, version := row.version + 1) else row
    {
      hide Commands.Merge, Commands.Apply, CommandProtocol.Snapshot, CommandProtocol.Selected;
      hide SweptRow, Swept, IsPending, HandledRows;
      ghost var rows := repository.rows;
      SweptTableInFields(rows, clock, findOk, failing);
      var pending := repository.FindAllPending(findOk);
      if pending.Err? {
        return;
      }
      ghost var done: set<ID> := {};
      NothingSwept(rows, clock);
      assert done - failing == {};
      for i := 0 to |pending.value|
        invariant repository.Valid()
        invariant Swept(rows, repository.rows, clock, done - failing)
        invariant forall k :: 0 <= k < i ==> pending.value[k].id in done
        invariant forall k :: i <= k < |pending.value| ==> pending.value[k].id !in done
      {
        var cmd := pending.value[i];
        SnapshotMember(pending.value, rows, true, i);
        SelectedIsPending(cmd);
        var saveOk := cmd.id !in failing;
        SweepOne(rows, repository.rows, clock, done, failing, cmd, saveOk);
        Handle(cmd, clock(cmd.id), true, saveOk);
        done := done + {cmd.id};
      }
      SweptAll(rows, repository.rows, clock, done, failing, pending.value);
    }

    /** A message marks its command sent or sets its status; without the command nothing happens. */
    method HandleMessage(event: Event, now: Instant, readOk: bool, rereadOk: bool, saveOk: bool)
      requires repository.Valid()
      modifies repository
      ensures repository.Valid()
      ensures repository.rows == MessageRows(old(repository.rows), event, now, readOk, rereadOk, saveOk)
      ensures readOk && rereadOk && saveOk && event.id in old(repository.rows) && !(event.StatusUpdate? && event.id == "") ==>
                && event.id in repository.rows
                && MessageFields(old(repository.rows)[event.id], repository.rows[event.id], event, now)
    {
      hide Commands.Merge, Commands.Apply, StatusFields;
      match event {
        case CommandSent(id) =>
          HandleCommandSent(id, now, readOk, rereadOk, saveOk);
        case StatusUpdate(id, status, error) =>
          HandleCommandStatusUpdate(id, status, error, now, readOk, rereadOk, saveOk);
      }
    }

    method HandleCommandSent(id: ID, now: Instant, readOk: bool, rereadOk: bool, saveOk: bool)
      requires repository.Valid()
      modifies repository
      ensures repository.Valid()
      ensures repository.rows ==
              if readOk && rereadOk && saveOk && id in old(repository.rows)
              then old(repository.rows)[id := Merge(old(repository.rows)[id], Apply(MarkSent(now), old(repository.rows)[id]))]
              else old(repository.rows)
      ensures readOk && rereadOk && saveOk && id in old(repository.rows) ==>
                var row := old(repository.rows)[id];
                repository.rows[id] == row.(sent := true, sentAt := now, version := row.version + 1)
    {
      var existing := repository.GetByID(id, readOk);
      if existing.Err? {
        return;
      }
      var cmd := existing.value;
      cmd := cmd.(sent := true);
      cmd := cmd.(sentAt := now);
      var _ := repository.Update(cmd, rereadOk, saveOk);
    }

    method HandleCommandStatusUpdate(id: ID, status: Status, error: Option<string>, now: Instant, readOk: bool,
            rereadOk: bool, saveOk: bool)
      requires repository.Valid()
      modifies repository
      ensures repository.Valid()
      ensures repository.rows ==
              if readOk && rereadOk && saveOk && id in old(repository.rows) && id != ""
              then old(repository.rows)[id := Merge(old(repository.rows)[id],
                                                    Apply(SetStatus(status, error, now), old(repository.rows)[id]))]
              else old(repository.rows)
      ensures readOk && rereadOk && saveOk && id in old(repository.rows) && id != "" ==>
                id in repository.rows && StatusFields(old(repository.rows)[id], repository.rows[id], status, error, now)
    {
      hide Commands.Merge, Commands.Apply, StatusFields, Commands.Command.UpdateStatus;
      if id == "" {
        return;
      }
      var target := repository.GetByID(id, readOk);
      if target.Err? {
        return;
      }
      StatusSaved(target.value, status, error, now);
      var _ := repository.Update(target.value.UpdateStatus(status, error, now), rereadOk, saveOk);
    }
  }

  // ---- LoRa integration worker ----

  // The pushes and messages of a dispatch snapshot, in its order.
  function Pushes(found: seq<Command>, clock: ID -> Instant, unreachable: set<ID>): seq<Push> {
    if found == [] then []
    else
      Pushes(found[..|found| - 1], clock, unreachable) + PushOf(found[|found| - 1], clock, unreachable)
  }

  function SentMessages(found: seq<Command>, unreachable: set<ID>, unpublished: set<ID>): seq<Event> {
    if found == [] then []
    else
      SentMessages(found[..|found| - 1], unreachable, unpublished) + MessageOf(found[|found| - 1], unreachable, unpublished)
  }

  function PushOf(c: Command, clock: ID -> Instant, unreachable: set<ID>): seq<Push> {
    if c.id in unreachable then [] else [Push(c, clock(c.id))]
  }

  function MessageOf(c: Command, unreachable: set<ID>, unpublished: set<ID>): seq<Event> {
    if c.id in unreachable || c.id in unpublished then [] else [CommandSent(c.id)]
  }

  lemma NothingDispatched(clock: ID -> Instant, unreachable: set<ID>, unpublished: set<ID>)
    ensures Pushes([], clock, unreachable) == [] && SentMessages([], unreachable, unpublished) == []
  {
  }

  lemma DispatchOneMore(found: seq<Command>, i: nat, clock: ID -> Instant, unreachable: set<ID>, unpublished: set<ID>)
    requires i < |found|
    ensures Pushes(found[..i + 1], clock, unreachable)
         == Pushes(found[..i], clock, unreachable) + PushOf(found[i], clock, unreachable)
    ensures SentMessages(found[..i + 1], unreachable, unpublished)
         == SentMessages(found[..i], unreachable, unpublished) + MessageOf(found[i], unreachable, unpublished)
  {
    assert found[..i + 1][..i] == found[..i];
  }

  lemma {:induction false} EveryPushReached(found: seq<Command>, clock: ID -> Instant)
    ensures |Pushes(found, clock, {})| == |found|
    ensures forall k :: 0 <= k < |found| ==> Pushes(found, clock, {})[k] == Push(found[k], clock(found[k].id))
  {
    if found != [] {
      EveryPushReached(found[..|found| - 1], clock);
    }
  }

  /** Nothing due is forgotten: a pending command that is due when a sweep reaches it is ready afterwards,
      and the next dispatch snapshot pushes it exactly once, provided that nothing fails. */
  lemma DueCommandIsPushed(rows: map<ID, Command>, id: ID, swept: map<ID, Command>, sweepClock: ID -> Instant,
                           found: seq<Command>, pushClock: ID -> Instant)
    requires KeysMatch(rows, CommandId) && id in rows
    requires !rows[id].sent && !rows[id].ready && rows[id].dispatchAfter <= sweepClock(id)
    requires swept == map k | k in rows :: SweptRow(rows[k], sweepClock(k), true)
    requires Snapshot(found, swept, false)
    ensures var pushes := Pushes(found, pushClock, {});
            exists k :: 0 <= k < |pushes| && pushes[k].command.id == id && pushes[k].at == pushClock(id)
              && forall m :: 0 <= m < |pushes| && pushes[m].command.id == id ==> m == k
  {
    hide Pushes;
    EveryPushReached(found, pushClock);
    assert swept[id].id == id && swept[id] in found;
    var k :| 0 <= k < |found| && found[k] == swept[id];
    assert Pushes(found, pushClock, {})[k].command.id == id;
  }

  class LoraIntegrationWorker {
    const repository: CommandRepository
    var pushed: seq<Push>
    var published: seq<Event>

    constructor (repository: CommandRepository)
      ensures this.repository == repository && pushed == [] && published == []
    {
      this.repository := repository;
      pushed := [];
      published := [];
    }

    method DispatchCommand(cmd: Command, now: Instant, pushOk: bool, publishOk: bool)
      modifies this
      ensures var goes := cmd.ready && !cmd.sent && pushOk;
              && pushed == (if goes then old(pushed) + [Push(cmd, now)] else old(pushed))
              && published == (if goes && publishOk then old(published) + [CommandSent(cmd.id)] else old(published))
    {
      if !cmd.ready {
        return;
      }
      if cmd.sent {
        return;
      }
      if !pushOk {
        return;
      }
      pushed := pushed + [Push(cmd, now)];
      if publishOk {
        published := published + [CommandSent(cmd.id)];
      }
    }

    /** Pushes every ready unsent row once, and reports each push, failures aside. */
    method DispatchReadyCommands(findOk: bool, clock: ID -> Instant, unreachable: set<ID>, unpublished: set<ID>)
      returns (ghost found: seq<Command>)
      requires repository.Valid()
      modifies this
      ensures !findOk ==> pushed == old(pushed) && published == old(published)
      ensures findOk ==>
                && Snapshot(found, repository.rows, false)
                && pushed == old(pushed) + Pushes(found, clock, unreachable)
                && published == old(published) + SentMessages(found, unreachable, unpublished)
    {
      hide CommandProtocol.Snapshot, Pushes, SentMessages;
      found := [];
      var commands := repository.FindAllReadyToDispatch(findOk);
      if commands.Err? {
        return;
      }
      found := commands.value;
      assert found[..0] == [];
      NothingDispatched(clock, unreachable, unpublished);
      for i := 0 to |commands.value|
        invariant pushed == old(pushed) + Pushes(found[..i], clock, unreachable)
        invariant published == old(published) + SentMessages(found[..i], unreachable, unpublished)
      {
        var cmd := commands.value[i];
        SnapshotMember(found, repository.rows, false, i);
        DispatchOneMore(found, i, clock, unreachable, unpublished);
        ghost var pushes, messages := PushOf(cmd, clock, unreachable), MessageOf(cmd, unreachable, unpublished);
        assert old(pushed) + (Pushes(found[..i], clock, unreachable) + pushes) == pushed + pushes;
        assert old(published) + (SentMessages(found[..i], unreachable, unpublished) + messages) == published + messages;
        assert pushed + [] == pushed && published + [] == published;
        DispatchCommand(cmd, clock(cmd.id), cmd.id !in unreachable, cmd.id !in unpublished);
      }
      assert found[..|found|] == found;
    }

    method UpdateCommandStatus(correlationIds: seq<string>, status: Status, error: Option<string>, publishOk: bool)
      modifies this`published
      ensures published == old(published) +
              (match ReportedCommand(correlationIds)
               case Some(id) => if publishOk then [StatusUpdate(id, status, error)] else []
               case None => [])
    {
      if |correlationIds| == 0 {
        return;
      }
      var commandId := "";
      var i := 0;
      while i < |correlationIds|
        invariant 0 <= i <= |correlationIds|
        invariant commandId == "" && ReportedCommand(correlationIds[i..]) == ReportedCommand(correlationIds)
      {
        assert correlationIds[i..][0] == correlationIds[i] && correlationIds[i..][1..] == correlationIds[i + 1..];
        if Correlated(correlationIds[i]) {
          commandId := correlationIds[i][|CORRELATION_PREFIX|..];
          break;
        }
        i := i + 1;
      }
      if commandId == "" {
        return;
      }
      if publishOk {
        published := published + [StatusUpdate(commandId, status, error)];
      }
    }
  }

  // ---- The methods as steps of the protocol ----

  /** Handling a swept command is the two worker steps of the protocol, with nothing in between. */
  lemma HandlingIsSteps(w: World, readOk: bool, saveOk: bool) returns (held: World, done: World)
    requires w.worker.Free? && w.worker.todo != []
    ensures Step(w, held, HandleNext)
    ensures if held.worker.Saving? then Step(held, done, SaveRow(readOk && saveOk)) else done == held
    ensures done == w.(worker := Free(w.worker.todo[1..]),
                       rows := HandledRows(w.rows, w.worker.todo[0], w.clock, readOk, saveOk))
  {
    hide Merge;
    var cmd, rest := w.worker.todo[0], w.worker.todo[1..];
    held := w.(worker := if cmd.dispatchAfter > w.clock then Free(rest) else Saving(MakeReady, Apply(MakeReady, cmd), rest));
    done := w.(worker := Free(rest), rows := HandledRows(w.rows, cmd, w.clock, readOk, saveOk));
  }

  /** Handling a message is receiving it and saving the edit it asks for. */
  lemma MessageIsSteps(w: World, event: Event, readOk: bool, rereadOk: bool, saveOk: bool)
    returns (held: World, done: World)
    requires w.worker == Free([]) && event in w.inFlight && KeysMatch(w.rows, CommandId)
    ensures Step(w, held, Receive(event, readOk))
    ensures if held.worker.Saving? then Step(held, done, SaveRow(rereadOk && saveOk)) else done == held
    ensures done == w.(inFlight := w.inFlight - multiset{event},
                       rows := MessageRows(w.rows, event, w.clock, readOk, rereadOk, saveOk))
  {
    hide Merge;
    held := w.(inFlight := w.inFlight - multiset{event},
               worker := if HasReceiver(w, event, readOk)
                         then Saving(ChangeFor(event, w.clock), Apply(ChangeFor(event, w.clock), w.rows[event.id]), [])
                         else w.worker);
    done := w.(inFlight := w.inFlight - multiset{event}, rows := MessageRows(w.rows, event, w.clock, readOk, rereadOk, saveOk));
    if HasReceiver(w, event, readOk) {
      EditKeepsOrder(w.rows[event.id], ChangeFor(event, w.clock));
    }
  }

  /** A creation that nothing interrupts is its check followed, if that passes, by its storing. */
  lemma CreationIsSteps(w: World, task: Task, findOk: bool, storeOk: bool) returns (checked: World, done: World)
    requires WellBuilt(task) && w.creators == []
    ensures Step(w, checked, CheckTask(task, findOk))
    ensures if findOk && Fits(w.rows, task) then Step(checked, done, StoreTask(0, storeOk)) else done == checked
    ensures done.creators == []
    ensures done.rows == if findOk && Fits(w.rows, task) && storeOk && AllNew(w.rows, task.commands)
                         then InsertAll(w.rows, task.commands) else w.rows
  {
    hide Fits, AllNew, InsertAll, WellBuilt, CommandIds;
    checked := if findOk && Fits(w.rows, task) then w.(creators := [task]) else w;
    assert w.creators + [task] == [task];
    done := checked;
    if findOk && Fits(w.rows, task) {
      assert Without(checked.creators, 0) == [];
      done := if storeOk && AllNew(w.rows, task.commands)
              then Insert(checked, task.commands).(creators := [], byTask := w.byTask + set c | c in task.commands :: c.id)
              else checked.(creators := []);
    }
  }
}
