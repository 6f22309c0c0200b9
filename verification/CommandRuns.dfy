/** What the command protocol guarantees over whole runs. */
module CommandRuns {
  import opened Calendar
  import opened Outcomes
  import opened Collections
  import opened Commands
  import opened CommandProtocol

  /** No push in any run happens before the `DispatchAfter` of its command, which is also that of
      the row, then and ever after. */
  lemma NoEarlyDispatch(ws: seq<World>, acts: seq<Action>, i: nat, p: Push)
    requires Run(ws, acts) && i < |ws| && p in ws[i].pushed
    ensures p.command.dispatchAfter <= p.at <= ws[i].clock
    ensures p.command.id in ws[i].rows && SameOrder(p.command, ws[i].rows[p.command.id])
  {
    hide Run, RowsOk, WorkerOk, DispatchersOk, EventsOk;
    RunKeepsInv(ws, acts, i);
    assert PushOk(ws[i], p);
  }

  /** A row is sent, queued, acknowledged or failed only if its command was pushed. */
  lemma TouchedOnlyAfterPush(ws: seq<World>, acts: seq<Action>, i: nat, id: ID)
    requires Run(ws, acts) && i < |ws|
    requires id in ws[i].rows && Touched(ws[i].rows[id])
    ensures exists k :: 0 <= k < |ws[i].pushed| && ws[i].pushed[k].command.id == id
  {
    hide Run, WorkerOk, DispatchersOk, EventsOk, PushesOk, Touched;
    RunKeepsInv(ws, acts, i);
    assert RowOk(ws[i], id);
  }

  /** Whatever happens between the worker's read and its save, the save amounts to one atomic edit
      of the row as it is now, with the next version. For a swept command the edit is setting
      `ready`, and the command is due. */
  lemma SavesAreAtomicEdits(ws: seq<World>, acts: seq<Action>, i: nat)
    requires Run(ws, acts) && i < |acts| && acts[i].SaveRow? && acts[i].ok
    ensures ws[i].worker.Saving?
    ensures var id, change := ws[i].worker.cmd.id, ws[i].worker.change;
            && id in ws[i].rows
            && ws[i + 1].rows == ws[i].rows[id := Apply(change, ws[i].rows[id]).(version := ws[i].rows[id].version + 1)]
            && (change.MakeReady? ==>
                  && ws[i + 1].rows[id] == ws[i].rows[id].(ready := true, version := ws[i].rows[id].version + 1)
                  && ws[i].rows[id].dispatchAfter <= ws[i].clock)
  {
    hide RowsOk, DispatchersOk, EventsOk, PushesOk, CreatorsOk, Step;
    RunKeepsInv(ws, acts, i);
    RunStep(ws, acts, i);
    var w := ws[i];
    var id := w.worker.cmd.id;
    SaveStep(w, ws[i + 1], acts[i]);
    EditKeepsOrder(w.rows[id], w.worker.change);
    MergeOfEdit(w.rows[id], w.worker.change);
  }

  lemma SaveStep(w: World, w': World, a: Action)
    requires Step(w, w', a) && a.SaveRow? && a.ok
    ensures w.worker.Saving?
    ensures w.worker.cmd.id in w.rows ==> w'.rows == w.rows[w.worker.cmd.id := Merge(w.rows[w.worker.cmd.id], w.worker.cmd)]
  {
  }

  // Whether a step saves an edit of the row.
  ghost predicate Saves(w: World, a: Action, id: ID) {
    a.SaveRow? && a.ok && w.worker.Saving? && w.worker.cmd.id == id
  }

  // How many saves of a row succeed in the steps i..j.
  ghost function SavesOf(ws: seq<World>, acts: seq<Action>, id: ID, i: nat, j: nat): nat
    requires |ws| == |acts| + 1 && i <= j < |ws|
  {
    if i == j then 0
    else SavesOf(ws, acts, id, i, j - 1)
         + (if Saves(ws[j - 1], acts[j - 1], id) then 1 else 0)
  }

  /** Over any stretch of a run a row stays, keeps its order and creation time, loses no flag and
      no time stamp, and its version rises by one with each of its saves and by nothing else. */
  lemma {:induction false} RowsProgress(ws: seq<World>, acts: seq<Action>, id: ID, i: nat, j: nat)
    requires Run(ws, acts) && i <= j < |ws|
    requires id in ws[i].rows
    ensures id in ws[j].rows && Progresses(ws[i].rows[id], ws[j].rows[id])
    ensures ws[j].rows[id].version == ws[i].rows[id].version + SavesOf(ws, acts, id, i, j)
    ensures var before, later := ws[i].rows[id], ws[j].rows[id];
            && (before.ready ==> later.ready) && (before.sent ==> later.sent)
            && (before.queuedAt != None ==> later.queuedAt != None) && (before.ackedAt != None ==> later.ackedAt != None)
            && (before.failedAt != None ==> later.failedAt != None)
            && before.createdAt == later.createdAt && before.dispatchAfter == later.dispatchAfter
    decreases j
  {
    hide Inv, Step;
    if i == j {
      ProgressReflexive(ws[i].rows[id]);
    } else {
      RowsProgress(ws, acts, id, i, j - 1);
      RunKeepsInv(ws, acts, j - 1);
      RunStep(ws, acts, j - 1);
      StepKeepsInv(ws[j - 1], ws[j], acts[j - 1]);
      InvCreators(ws[j - 1]);
      StepRows(ws[j - 1], ws[j], acts[j - 1]);
      ProgressTransitive(ws[i].rows[id], ws[j - 1].rows[id], ws[j].rows[id]);
    }
  }

  lemma InvCreators(w: World)
    requires Inv(w)
    ensures CreatorsOk(w)
  {
  }

  lemma ProgressReflexive(c: Command)
    ensures Progresses(c, c)
  {
  }

  lemma ProgressTransitive(a: Command, b: Command, c: Command)
    requires Progresses(a, b) && Progresses(b, c)
    ensures Progresses(a, c)
  {
  }

  // ---- Rows and the history of their saves ----

  /** The edits that write one field, or one group of fields, of a row. */
  datatype Kind = OfReady | OfSent | OfStatus | OfStamp(stamp: Status)

  predicate Writes(change: Change, kind: Kind) {
    match kind
    case OfReady => change.MakeReady?
    case OfSent => change.MarkSent? || (change.SetStatus? && change.status == Sent)
    case OfStatus => change.SetStatus?
    case OfStamp(stamp) => change.SetStatus? && change.status == stamp
  }

  // The last edit of a kind that was saved to the row before step j.
  ghost function LastSaved(ws: seq<World>, acts: seq<Action>, id: ID, kind: Kind, j: nat): (change: Option<Change>)
    requires |ws| == |acts| + 1 && j < |ws|
    ensures change.Some? ==> Writes(change.value, kind)
  {
    if j == 0 then None
    else if Saves(ws[j - 1], acts[j - 1], id) && Writes(ws[j - 1].worker.change, kind) then Some(ws[j - 1].worker.change)
    else LastSaved(ws, acts, id, kind, j - 1)
  }

  // The row as it was inserted, if that happened by world j.
  ghost function FirstRow(ws: seq<World>, id: ID, j: nat): Option<Command>
    requires j < |ws|
  {
    if j > 0 && FirstRow(ws, id, j - 1).Some? then FirstRow(ws, id, j - 1)
    else if id in ws[j].rows then Some(ws[j].rows[id])
    else None
  }

  function AtOf(change: Option<Change>): Option<Instant>
    requires change.Some? ==> !change.value.MakeReady?
  {
    if change.Some? then Some(change.value.at) else None
  }

  ghost predicate ShowsSaves(ws: seq<World>, acts: seq<Action>, id: ID, j: nat)
    requires |ws| == |acts| + 1 && j < |ws|
  {
    var status, sent := LastSaved(ws, acts, id, OfStatus, j), LastSaved(ws, acts, id, OfSent, j);
    var failure := LastSaved(ws, acts, id, OfStamp(Failed), j);
    var first := FirstRow(ws, id, j);
    if id !in ws[j].rows then
      && first.None?
      && status.None? && sent.None? && failure.None?
      && LastSaved(ws, acts, id, OfReady, j).None?
      && LastSaved(ws, acts, id, OfStamp(Queued), j).None? && LastSaved(ws, acts, id, OfStamp(Ack), j).None?
    else
      var row := ws[j].rows[id];
      && first.Some? && Unprocessed(first.value)
      && (row.ready <==> LastSaved(ws, acts, id, OfReady, j).Some?)
      && (row.sent <==> sent.Some?)
      && row.sentAt == (if sent.Some? then sent.value.at else first.value.sentAt)
      && row.status == (if status.Some? then status.value.status else first.value.status)
      && row.errorMessage == (if failure.Some? then failure.value.error else first.value.errorMessage)
      && row.queuedAt == AtOf(LastSaved(ws, acts, id, OfStamp(Queued), j))
      && row.ackedAt == AtOf(LastSaved(ws, acts, id, OfStamp(Ack), j))
      && row.failedAt == AtOf(failure)
  }

  // What one saved edit does to the fields it may touch.
  lemma SavedFields(row: Command, change: Change)
    requires Meaningful(change)
    ensures var after := Merge(row, Apply(change, row));
            && after.ready == (row.ready || Writes(change, OfReady))
            && after.sent == (row.sent || Writes(change, OfSent))
            && after.sentAt == (if Writes(change, OfSent) then change.at else row.sentAt)
            && after.status == (if Writes(change, OfStatus) then change.status else row.status)
            && after.errorMessage == (if Writes(change, OfStamp(Failed)) then change.error else row.errorMessage)
            && after.queuedAt == (if Writes(change, OfStamp(Queued)) then Some(change.at) else row.queuedAt)
            && after.ackedAt == (if Writes(change, OfStamp(Ack)) then Some(change.at) else row.ackedAt)
            && after.failedAt == (if Writes(change, OfStamp(Failed)) then Some(change.at) else row.failedAt)
  {
    hide Merge;
    MergeOfEdit(row, change);
  }

  lemma SavesNeedWorker(w: World, a: Action, id: ID)
    requires WorkerOk(w) && Saves(w, a, id)
    ensures w.worker.Saving?
    ensures id in w.rows && w.worker.cmd == Apply(w.worker.change, w.rows[id]) && Meaningful(w.worker.change)
  {
  }

  lemma SavesShow(ws: seq<World>, acts: seq<Action>, id: ID, j: nat)
    requires |ws| == |acts| + 1 && j < |acts|
    requires ShowsSaves(ws, acts, id, j) && WorkerOk(ws[j]) && Saves(ws[j], acts[j], id)
    requires id in ws[j].rows && id in ws[j + 1].rows
    requires ws[j + 1].rows[id] == Merge(ws[j].rows[id], ws[j].worker.cmd)
    ensures ShowsSaves(ws, acts, id, j + 1)
  {
    hide Merge, Apply, WorkerOk, Saves, Writes;
    SavesNeedWorker(ws[j], acts[j], id);
    SavedFields(ws[j].rows[id], ws[j].worker.change);
  }

  lemma QuietStepShows(ws: seq<World>, acts: seq<Action>, id: ID, j: nat)
    requires |ws| == |acts| + 1 && j < |acts|
    requires ShowsSaves(ws, acts, id, j) && !Saves(ws[j], acts[j], id)
    requires id in ws[j].rows ==> id in ws[j + 1].rows && ws[j + 1].rows[id] == ws[j].rows[id]
    requires id !in ws[j].rows && id in ws[j + 1].rows ==> Unprocessed(ws[j + 1].rows[id])
    ensures ShowsSaves(ws, acts, id, j + 1)
  {
    hide Saves, Writes;
  }

  /** In every interleaving a row shows its saves: it is ready or sent exactly if an edit that makes it so was
      saved; its status, the time it was sent and its error are those of the last saved edit that writes them,
      or those it was inserted with; and each of its time stamps is that of the last saved status update of
      its kind. */
  lemma {:induction false} RowsShowTheirSaves(ws: seq<World>, acts: seq<Action>, id: ID, j: nat)
    requires Run(ws, acts) && j < |ws|
    ensures ShowsSaves(ws, acts, id, j)
  {
    hide Inv, Step, Merge, WorkerOk, ShowsSaves, Unprocessed;
    if j == 0 {
      NothingSaved(ws, acts, id);
    } else {
      var w := ws[j - 1];
      RowsShowTheirSaves(ws, acts, id, j - 1);
      RunKeepsInv(ws, acts, j - 1);
      RunStep(ws, acts, j - 1);
      InvCreators(w);
      InvWorker(w);
      StepRows(w, ws[j], acts[j - 1]);
      if Saves(w, acts[j - 1], id) {
        SavesNeedWorker(w, acts[j - 1], id);
        SavesShow(ws, acts, id, j - 1);
      } else {
        QuietStepShows(ws, acts, id, j - 1);
      }
    }
  }

  lemma NothingSaved(ws: seq<World>, acts: seq<Action>, id: ID)
    requires |ws| == |acts| + 1 && Initial(ws[0])
    ensures ShowsSaves(ws, acts, id, 0)
  {
  }

  lemma InvWorker(w: World)
    requires Inv(w)
    ensures WorkerOk(w)
  {
  }

  // ---- Rows and pushes and the commands they carry out ----

  /** The step stores this command: one of a created task, or one queued on its device, whose port defaults to 1. */
  ghost predicate Stores(w: World, a: Action, c: Command) {
    || (a.StoreTask? && a.creator < |w.creators| && c in w.creators[a.creator].commands)
    || (a.QueueCommand? && c == a.cmd.(port := if a.cmd.port == 0 then 1 else a.cmd.port))
  }

  lemma BornRow(w: World, w': World, a: Action, id: ID) returns (c: Command)
    requires Step(w, w', a) && CreatorsOk(w) && id !in w.rows && id in w'.rows
    ensures Stores(w, a, c) && c.id == id && w'.rows[id] == Inserted(c)
  {
    hide Fits, Snapshot, HonestReport, HasReceiver, InsertAll, CommandIds, Inserted, Merge, Apply, WellBuilt, Unprocessed;
    if a.QueueCommand? {
      var queued := [a.cmd.(port := if a.cmd.port == 0 then 1 else a.cmd.port)];
      OneNew(w.rows, queued);
      InsertAllRows(w.rows, queued);
      c := queued[0];
    } else {
      var cmds := w.creators[a.creator].commands;
      InsertAllRows(w.rows, cmds);
      var i :| 0 <= i < |cmds| && cmds[i].id == id;
      c := cmds[i];
    }
  }

  /** In every run each row carries out a command that was stored: it has its device, port, priority, index,
      value and time of dispatch, and the status it was inserted with is the command's, or pending. */
  lemma {:induction false} RowsCarryOutCommands(ws: seq<World>, acts: seq<Action>, id: ID, j: nat) returns (k: nat, c: Command)
    requires Run(ws, acts) && j < |ws| && id in ws[j].rows
    ensures k < j && Stores(ws[k], acts[k], c) && c.id == id
    ensures var r := ws[j].rows[id];
            && r.id == c.id && r.deviceId == c.deviceId && r.deviceName == c.deviceName && r.taskId == c.taskId
            && r.port == c.port && r.priority == c.priority && r.index == c.index && r.value == c.value
            && r.dispatchAfter == c.dispatchAfter && r.createdAt == c.createdAt
    ensures FirstRow(ws, id, j).Some?
    ensures var first := FirstRow(ws, id, j).value;
            && first.status == (if c.status == Unset then Pending else c.status)
            && first.sentAt == c.sentAt && first.errorMessage == c.errorMessage
  {
    hide Inv, Step, Inserted, Stores, Merge;
    var w, a := ws[j - 1], acts[j - 1];
    RunKeepsInv(ws, acts, j - 1);
    RunStep(ws, acts, j - 1);
    InvCreators(w);
    if id in w.rows {
      k, c := RowsCarryOutCommands(ws, acts, id, j - 1);
      StepKeepsInv(w, ws[j], a);
      assert Progresses(w.rows[id], ws[j].rows[id]);
    } else {
      c := BornRow(w, ws[j], a, id);
      k := j - 1;
      InsertedFields(c);
      NoFirstRow(ws, acts, id, j - 1);
    }
  }

  lemma NoFirstRow(ws: seq<World>, acts: seq<Action>, id: ID, j: nat)
    requires Run(ws, acts) && j < |ws| && id !in ws[j].rows
    ensures FirstRow(ws, id, j).None?
  {
    hide ShowsSaves;
    RowsShowTheirSaves(ws, acts, id, j);
    ShowsNoFirst(ws, acts, id, j);
  }

  lemma ShowsNoFirst(ws: seq<World>, acts: seq<Action>, id: ID, j: nat)
    requires |ws| == |acts| + 1 && j < |ws| && ShowsSaves(ws, acts, id, j) && id !in ws[j].rows
    ensures FirstRow(ws, id, j).None?
  {
    hide LastSaved;
  }

  /** In every run each push carries out a command that was stored: the network gets its device, port, priority,
      index and value, not before its time of dispatch. */
  lemma PushesCarryOutCommands(ws: seq<World>, acts: seq<Action>, i: nat, p: Push) returns (k: nat, c: Command)
    requires Run(ws, acts) && i < |ws| && p in ws[i].pushed
    ensures k < i && Stores(ws[k], acts[k], c)
    ensures p.command.id == c.id && p.command.deviceId == c.deviceId && p.command.deviceName == c.deviceName
    ensures p.command.port == c.port && p.command.priority == c.priority
    ensures p.command.index == c.index && p.command.value == c.value
    ensures c.dispatchAfter == p.command.dispatchAfter <= p.at <= ws[i].clock
  {
    hide Run, Stores, Inserted;
    NoEarlyDispatch(ws, acts, i, p);
    k, c := RowsCarryOutCommands(ws, acts, p.command.id, i);
  }

  // ---- Overlap ----

  /** Creations are serial: from the overlap check of a task until it is stored or given up,
      nothing else is checked or inserted. The worker, the dispatchers and the network go on. */
  ghost predicate Serial(ws: seq<World>, acts: seq<Action>)
    requires |ws| == |acts| + 1
  {
    forall i :: 0 <= i < |acts| && (acts[i].CheckTask? || acts[i].QueueCommand?) ==> ws[i].creators == []
  }

  /** The bookkeeping of insertions: `stored` lists the keys of the rows, each once. */
  ghost predicate Listed(w: World) {
    && (forall k :: 0 <= k < |w.stored| ==> w.stored[k] in w.rows)
    && (forall id :: id in w.rows ==> id in w.stored)
    && (forall i, j :: 0 <= i < j < |w.stored| ==> w.stored[i] != w.stored[j])
    && (forall id :: id in w.byTask ==> id in w.rows)
  }

  /** Two unsent commands of one device from different tasks, the later of them stored by task
      creation, drive different indexes or start at least 30 s apart. */
  predicate Apart(a: Command, b: Command, laterByTask: bool) {
    laterByTask && !a.sent && !b.sent && a.deviceId == b.deviceId && a.taskId != b.taskId ==>
      a.index != b.index || Distance(a.dispatchAfter, b.dispatchAfter) >= OVERLAP_BUFFER
  }

  ghost predicate NoOverlap(w: World) {
    && Listed(w)
    && forall i, j :: 0 <= i < j < |w.stored| ==>
                        Apart(w.rows[w.stored[i]], w.rows[w.stored[j]], w.stored[j] in w.byTask)
  }

  // The task that has been checked, if there is one, still fits.
  ghost predicate ChecksHold(w: World) {
    |w.creators| <= 1 && forall t :: t in w.creators ==> Fits(w.rows, t)
  }

  lemma ApartStays(a: Command, b: Command, a': Command, b': Command, laterByTask: bool)
    requires Apart(a, b, laterByTask) && Progresses(a, a') && Progresses(b, b')
    ensures Apart(a', b', laterByTask)
  {
  }

  lemma FitsStays(rows: map<ID, Command>, rows': map<ID, Command>, task: Task)
    requires Fits(rows, task)
    requires rows'.Keys == rows.Keys
    requires forall id :: id in rows ==> Progresses(rows[id], rows'[id])
    ensures Fits(rows', task)
  {
    forall id, i | id in rows' && !rows'[id].sent && rows'[id].deviceId == task.deviceId && 0 <= i < |task.commands|
      ensures !task.commands[i].OverlapsWith(rows'[id])
    {
      assert Progresses(rows[id], rows'[id]);
      assert !task.commands[i].OverlapsWith(rows[id]);
    }
  }

  lemma {:induction false} CommandIdsAt(cmds: seq<Command>)
    ensures |CommandIds(cmds)| == |cmds|
    ensures forall k :: 0 <= k < |cmds| ==> CommandIds(cmds)[k] == cmds[k].id
  {
    if cmds != [] {
      CommandIdsAt(cmds[1..]);
    }
  }

  lemma StoredAfterInsert(w: World, cmds: seq<Command>)
    ensures var stored := Insert(w, cmds).stored;
            && |stored| == |w.stored| + |cmds|
            && (forall k :: 0 <= k < |w.stored| ==> stored[k] == w.stored[k])
            && (forall k :: |w.stored| <= k < |stored| ==> stored[k] == cmds[k - |w.stored|].id)
  {
    CommandIdsAt(cmds);
  }

  // Inserting new rows keeps the list and what holds between older rows.
  lemma InsertLists(w: World, cmds: seq<Command>)
    requires Listed(w) && AllNew(w.rows, cmds)
    ensures var rows := Insert(w, cmds).rows;
            var stored := Insert(w, cmds).stored;
            && |stored| == |w.stored| + |cmds|
            && (forall k :: 0 <= k < |stored| ==> stored[k] in rows)
            && (forall id :: id in rows ==> id in stored)
            && (forall k :: 0 <= k < |w.stored| ==> stored[k] == w.stored[k] && rows[stored[k]] == w.rows[stored[k]])
            && (forall k :: |w.stored| <= k < |stored| ==>
                  stored[k] == cmds[k - |w.stored|].id && rows[stored[k]] == Inserted(cmds[k - |w.stored|]) && stored[k] !in w.rows)
  {
    hide Inserted, AllNew, InsertAll, CommandIds;
    InsertAllRows(w.rows, cmds);
    StoredAfterInsert(w, cmds);
    var rows, stored := Insert(w, cmds).rows, Insert(w, cmds).stored;
    forall id | id in rows
      ensures id in stored
    {
      if id in w.rows {
        var k :| 0 <= k < |w.stored| && w.stored[k] == id;
        assert stored[k] == id;
      } else {
        var i :| 0 <= i < |cmds| && cmds[i].id == id;
        assert stored[|w.stored| + i] == id;
      }
    }
    forall k | |w.stored| <= k < |stored|
      ensures stored[k] == cmds[k - |w.stored|].id && stored[k] in rows
      ensures rows[stored[k]] == Inserted(cmds[k - |w.stored|]) && stored[k] !in w.rows
    {
      var c := cmds[k - |w.stored|];
      assert c.id in rows && rows[c.id] == Inserted(c);
      NewIsNew(w.rows, cmds, k - |w.stored|);
    }
  }

  lemma NewIsNew(rows: map<ID, Command>, cmds: seq<Command>, i: nat)
    requires AllNew(rows, cmds) && i < |cmds|
    ensures cmds[i].id !in rows
    ensures forall j :: i < j < |cmds| ==> cmds[j].id != cmds[i].id
  {
  }

  lemma InsertKeepsDistinct(w: World, cmds: seq<Command>)
    requires Listed(w) && AllNew(w.rows, cmds)
    ensures var stored := Insert(w, cmds).stored;
            forall i, j :: 0 <= i < j < |stored| ==> stored[i] != stored[j]
  {
    hide AllNew;
    StoredAfterInsert(w, cmds);
    var stored := Insert(w, cmds).stored;
    forall i, j | 0 <= i < j < |stored|
      ensures stored[i] != stored[j]
    {
      if j >= |w.stored| {
        NewIsNew(w.rows, cmds, j - |w.stored|);
        if i >= |w.stored| {
          NewIsNew(w.rows, cmds, i - |w.stored|);
        }
      }
    }
  }

  lemma StoreTaskKeeps(w: World, w': World, a: Action)
    requires Step(w, w', a) && a.StoreTask? && NoOverlap(w) && ChecksHold(w) && CreatorsOk(w)
    ensures NoOverlap(w') && ChecksHold(w')
  {
    var task := w.creators[0];
    assert task in w.creators;
    assert Without(w.creators, 0) == [];
    if a.ok && AllNew(w.rows, task.commands) {
      hide AllNew, InsertAll, CommandIds;
      InsertTouches(w, task.commands);
      FitsMakesRoom(w.rows, task);
      StoringKeepsApartIff(w, w', task);
    }
  }

  ghost predicate TaskStored(w: World, w': World, task: Task) {
    && AllNew(w.rows, task.commands) && WellBuilt(task)
    && w'.rows == Insert(w, task.commands).rows && w'.stored == Insert(w, task.commands).stored
    && w'.byTask == w.byTask + set c | c in task.commands :: c.id
  }

  lemma StoredTaskListed(w: World, w': World, task: Task)
    requires Listed(w) && TaskStored(w, w', task)
    ensures Listed(w')
  {
    hide AllNew, InsertAll, CommandIds, WellBuilt;
    InsertLists(w, task.commands);
    InsertKeepsDistinct(w, task.commands);
    forall id | id in w'.byTask
      ensures id in w'.rows
    {
      if id in w.byTask {
        var k :| 0 <= k < |w.stored| && w.stored[k] == id;
        assert w'.stored[k] == id;
      } else {
        var c :| c in task.commands && c.id == id;
        var k :| 0 <= k < |task.commands| && task.commands[k] == c;
        assert w'.stored[|w.stored| + k] == id;
      }
    }
  }

  /** The task leaves room for the unsent commands that other tasks have on its device. */
  ghost predicate RoomFor(rows: map<ID, Command>, task: Task) {
    forall id, i :: id in rows && 0 <= i < |task.commands| ==> RoomBeside(rows[id], task, i)
  }

  predicate RoomBeside(row: Command, task: Task, i: nat)
    requires i < |task.commands|
  {
    !row.sent && row.deviceId == task.deviceId && row.taskId != task.id ==> !task.commands[i].OverlapsWith(row)
  }

  lemma FitsMakesRoom(rows: map<ID, Command>, task: Task)
    requires Fits(rows, task)
    ensures RoomFor(rows, task)
  {
  }

  lemma OldPairApart(w: World, w': World, task: Task, i: nat, j: nat)
    requires NoOverlap(w) && TaskStored(w, w', task)
    requires i < j < |w.stored|
    ensures |w.stored| <= |w'.stored| && w'.stored[i] in w'.rows && w'.stored[j] in w'.rows
    ensures Apart(w'.rows[w'.stored[i]], w'.rows[w'.stored[j]], w'.stored[j] in w'.byTask)
  {
    hide AllNew, InsertAll, CommandIds, Apart, WellBuilt;
    InsertLists(w, task.commands);
    assert Apart(w.rows[w.stored[i]], w.rows[w.stored[j]], w.stored[j] in w.byTask);
    if w'.stored[j] in w'.byTask && w.stored[j] !in w.byTask {
      var c :| c in task.commands && c.id == w.stored[j];
      var k :| 0 <= k < |task.commands| && task.commands[k] == c;
      NewIsNew(w.rows, task.commands, k);
      assert false;
    }
  }

  // An older row and a new command are apart exactly if there is room between them.
  lemma MixedPairApart(w: World, w': World, task: Task, i: nat, k: nat)
    requires Listed(w) && TaskStored(w, w', task)
    requires i < |w.stored| && k < |task.commands|
    ensures var j := |w.stored| + k;
            && j < |w'.stored| && w'.stored[i] in w'.rows && w'.stored[j] in w'.rows
            && (Apart(w'.rows[w'.stored[i]], w'.rows[w'.stored[j]], w'.stored[j] in w'.byTask)
                <==> RoomBeside(w.rows[w.stored[i]], task, k))
  {
    hide AllNew, InsertAll, CommandIds, Distance;
    InsertLists(w, task.commands);
    var row, later := w.rows[w.stored[i]], task.commands[k];
    assert w'.stored[|w.stored| + k] == later.id;
    OverlapIff(later, row);
    DistanceSymmetric(later.dispatchAfter, row.dispatchAfter);
    assert later in task.commands;
  }

  lemma NewPairApart(w: World, w': World, task: Task, i: nat, j: nat)
    requires Listed(w) && TaskStored(w, w', task)
    requires |w.stored| <= i < j < |w'.stored|
    ensures w'.stored[i] in w'.rows && w'.stored[j] in w'.rows
    ensures Apart(w'.rows[w'.stored[i]], w'.rows[w'.stored[j]], w'.stored[j] in w'.byTask)
  {
    hide AllNew, InsertAll, CommandIds, Distance;
    InsertLists(w, task.commands);
    assert task.commands[i - |w.stored|].taskId == task.commands[j - |w.stored|].taskId;
  }

  lemma StoredTaskApart(w: World, w': World, task: Task, i: nat, j: nat)
    requires NoOverlap(w) && TaskStored(w, w', task) && RoomFor(w.rows, task) && Listed(w')
    requires i < j < |w'.stored|
    ensures Apart(w'.rows[w'.stored[i]], w'.rows[w'.stored[j]], w'.stored[j] in w'.byTask)
  {
    hide AllNew, InsertAll, CommandIds, Apart, WellBuilt, RoomBeside, Insert;
    StoredAfterInsert(w, task.commands);
    assert i < |w.stored| ==> w.stored[i] in w.rows;
    hide Listed;
    if j < |w.stored| {
      OldPairApart(w, w', task, i, j);
    } else if i < |w.stored| {
      assert RoomBeside(w.rows[w.stored[i]], task, j - |w.stored|);
      MixedPairApart(w, w', task, i, j - |w.stored|);
    } else {
      NewPairApart(w, w', task, i, j);
    }
  }

  /** Storing a checked task keeps commands apart if and only if there is still room for it at
      that moment; with serial creations there always is. */
  lemma StoringKeepsApartIff(w: World, w': World, task: Task)
    requires NoOverlap(w) && TaskStored(w, w', task)
    ensures NoOverlap(w') <==> RoomFor(w.rows, task)
  {
    hide AllNew, InsertAll, CommandIds, Apart, WellBuilt, RoomBeside, TaskStored;
    StoredTaskListed(w, w', task);
    if RoomFor(w.rows, task) {
      forall i, j | 0 <= i < j < |w'.stored|
        ensures Apart(w'.rows[w'.stored[i]], w'.rows[w'.stored[j]], w'.stored[j] in w'.byTask)
      {
        StoredTaskApart(w, w', task, i, j);
      }
    }
    if NoOverlap(w') {
      forall id, k | id in w.rows && 0 <= k < |task.commands|
        ensures RoomBeside(w.rows[id], task, k)
      {
        var i :| 0 <= i < |w.stored| && w.stored[i] == id;
        MixedPairApart(w, w', task, i, k);
      }
    }
  }

  lemma DistanceSymmetric(a: Instant, b: Instant)
    ensures Distance(a, b) == Distance(b, a)
  {
  }

  // What queueing a command does: nothing, or an insertion that is not marked as stored by a task.
  lemma QueueCommandStep(w: World, w': World, a: Action) returns (queued: seq<Command>)
    requires Step(w, w', a) && a.QueueCommand?
    ensures w' == w || (w' == Insert(w, queued) && AllNew(w.rows, queued) && w'.byTask == w.byTask && w'.creators == w.creators)
  {
    hide InsertAll, CommandIds, Unprocessed;
    queued := [a.cmd.(port := if a.cmd.port == 0 then 1 else a.cmd.port)];
    if a.ok && a.cmd.id !in w.rows {
      OneNew(w.rows, queued);
    }
  }

  lemma QueueCommandKeeps(w: World, w': World, a: Action)
    requires Step(w, w', a) && a.QueueCommand? && w.creators == [] && NoOverlap(w)
    ensures NoOverlap(w') && ChecksHold(w')
  {
    hide Apart, Step, Insert, AllNew, Fits;
    var queued := QueueCommandStep(w, w', a);
    if w' != w {
      InsertLists(w, queued);
      InsertKeepsDistinct(w, queued);
      InsertTouches(w, queued);
      QueuedApart(w, w', |queued|);
    }
  }

  // Rows inserted behind the others by no task change nothing about who keeps apart.
  lemma QueuedApart(w: World, w': World, n: nat)
    requires NoOverlap(w) && |w'.stored| == |w.stored| + n && w'.byTask == w.byTask
    requires forall k :: 0 <= k < |w'.stored| ==> w'.stored[k] in w'.rows
    requires forall k :: 0 <= k < |w.stored| ==> w'.stored[k] == w.stored[k] && w'.rows[w.stored[k]] == w.rows[w.stored[k]]
    requires forall k :: |w.stored| <= k < |w'.stored| ==> w'.stored[k] !in w.rows
    ensures forall i, j :: 0 <= i < j < |w'.stored| ==>
              Apart(w'.rows[w'.stored[i]], w'.rows[w'.stored[j]], w'.stored[j] in w'.byTask)
  {
    hide Apart;
    forall i, j | 0 <= i < j < |w'.stored|
      ensures Apart(w'.rows[w'.stored[i]], w'.rows[w'.stored[j]], w'.stored[j] in w'.byTask)
    {
      if j < |w.stored| {
        assert Apart(w.rows[w.stored[i]], w.rows[w.stored[j]], w.stored[j] in w.byTask);
      } else {
        NotByTaskApart(w'.rows[w'.stored[i]], w'.rows[w'.stored[j]]);
      }
    }
  }

  lemma NotByTaskApart(a: Command, b: Command)
    ensures Apart(a, b, false)
  {
  }

  lemma OtherStepsKeep(w: World, w': World, a: Action)
    requires Step(w, w', a) && !a.StoreTask? && !a.QueueCommand? && !a.CheckTask?
    requires Grows(w, w') && NoOverlap(w) && ChecksHold(w)
    ensures NoOverlap(w') && ChecksHold(w')
  {
    hide Apart, Fits, Progresses, Step;
    OtherStepsInsertNothing(w, w', a);
    forall i, j | 0 <= i < j < |w'.stored|
      ensures Apart(w'.rows[w'.stored[i]], w'.rows[w'.stored[j]], w'.stored[j] in w'.byTask)
    {
      ApartStays(w.rows[w.stored[i]], w.rows[w.stored[j]], w'.rows[w.stored[i]], w'.rows[w.stored[j]], w.stored[j] in w.byTask);
    }
    forall t | t in w'.creators
      ensures Fits(w'.rows, t)
    {
      FitsStays(w.rows, w'.rows, t);
    }
  }

  lemma OtherStepsInsertNothing(w: World, w': World, a: Action)
    requires Step(w, w', a) && !a.StoreTask? && !a.QueueCommand? && !a.CheckTask?
    ensures w'.stored == w.stored && w'.byTask == w.byTask && w'.creators == w.creators && w'.rows.Keys == w.rows.Keys
  {
    hide Snapshot, HonestReport, HasReceiver, Merge, Apply;
  }

  /** In every run with serial creations, at every moment, commands stored by task creation keep
      their distance from the earlier unsent commands of other tasks. */
  lemma {:induction false} CreatedTasksKeepApart(ws: seq<World>, acts: seq<Action>, i: nat)
    requires Run(ws, acts) && Serial(ws, acts) && i < |ws|
    ensures NoOverlap(ws[i]) && ChecksHold(ws[i])
  {
    hide Step, Inv, NoOverlap, ChecksHold;
    if i == 0 {
      NothingStored(ws[0]);
    } else {
      var w, w', a := ws[i - 1], ws[i], acts[i - 1];
      CreatedTasksKeepApart(ws, acts, i - 1);
      RunKeepsInv(ws, acts, i - 1);
      RunStep(ws, acts, i - 1);
      StepKeepsInv(w, w', a);
      InvCreators(w);
      match a {
        case StoreTask(_, _) => StoreTaskKeeps(w, w', a);
        case QueueCommand(_, _) => QueueCommandKeeps(w, w', a);
        case CheckTask(_, _) => CheckTaskKeeps(w, w', a);
        case _ => OtherStepsKeep(w, w', a);
      }
    }
  }

  lemma NothingStored(w: World)
    requires Initial(w)
    ensures NoOverlap(w) && ChecksHold(w)
  {
  }

  lemma CheckTaskKeeps(w: World, w': World, a: Action)
    requires Step(w, w', a) && a.CheckTask? && w.creators == [] && NoOverlap(w)
    ensures NoOverlap(w') && ChecksHold(w')
  {
    hide Fits, Apart;
    if a.findOk && Fits(w.rows, a.task) {
      assert w'.creators == [a.task];
    }
  }

  function TaskOf(c: Command): Task {
    Task(c.taskId, c.deviceId, [c])
  }

  function AfterStoring(w: World, c: Command): World
    requires w.creators != []
  {
    w.(rows := w.rows[c.id := Inserted(c)], stored := w.stored + [c.id], byTask := w.byTask + {c.id}, creators := w.creators[1..])
  }

  lemma CheckOnNoRows(w: World, c: Command)
    requires w.rows == map[] && Unprocessed(c)
    ensures Step(w, w.(creators := w.creators + [TaskOf(c)]), CheckTask(TaskOf(c), true))
  {
  }

  lemma StoreFirst(w: World, c: Command)
    requires w.creators != [] && w.creators[0] == TaskOf(c) && c.id !in w.rows
    ensures Step(w, AfterStoring(w, c), StoreTask(0, true))
  {
    OneNew(w.rows, [c]);
    assert InsertAll(w.rows[c.id := Inserted(c)], []) == w.rows[c.id := Inserted(c)];
    assert [c][1..] == [];
    assert CommandIds([c]) == [c.id] + CommandIds([]);
    assert (set d | d in [c] :: d.id) == {c.id};
    assert Without(w.creators, 0) == w.creators[1..];
  }

  /** Without serial creations the property fails: two creations that both pass their check before
      either stores put two commands on one index at the same time. */
  lemma ConcurrentCreationsOverlap(a: Command, b: Command) returns (ws: seq<World>, acts: seq<Action>)
    requires a.id != b.id && a.taskId != b.taskId && a.deviceId == b.deviceId
    requires a.index == b.index && a.dispatchAfter == b.dispatchAfter
    requires Unprocessed(a) && Unprocessed(b)
    ensures Run(ws, acts) && |ws| == 5 && !NoOverlap(ws[4])
  {
    hide Step;
    var w0 := World(0, map[], [], {}, [], Free([]), [], multiset{}, []);
    var w1 := w0.(creators := w0.creators + [TaskOf(a)]);
    var w2 := w1.(creators := w1.creators + [TaskOf(b)]);
    var w3 := AfterStoring(w2, a);
    assert w3.creators == [TaskOf(b)];
    var w4 := AfterStoring(w3, b);
    CheckOnNoRows(w0, a);
    CheckOnNoRows(w1, b);
    StoreFirst(w2, a);
    StoreFirst(w3, b);
    ws := [w0, w1, w2, w3, w4];
    acts := [CheckTask(TaskOf(a), true), CheckTask(TaskOf(b), true), StoreTask(0, true), StoreTask(0, true)];
    assert w4.stored == [a.id, b.id];
    assert !Apart(w4.rows[w4.stored[0]], w4.rows[w4.stored[1]], w4.stored[1] in w4.byTask);
  }

  // ---- Packing ----

  function CeilingDivide(n: nat, k: nat): nat
    requires k > 0
  {
    (n + k - 1) / k
  }

  /** The unsent commands of one device and index that fall into a window and come from pairwise
      different tasks stored by task creation. */
  ghost predicate Packed(w: World, ids: set<ID>, deviceId: ID, index: int, from: Instant, length: nat) {
    && (forall id :: id in ids ==>
          && id in w.rows && id in w.byTask
          && !w.rows[id].sent && w.rows[id].deviceId == deviceId && w.rows[id].index == index
          && from <= w.rows[id].dispatchAfter < from + length)
    && (forall a, b :: a in ids && b in ids && a != b ==> w.rows[a].taskId != w.rows[b].taskId)
  }

  /** A window of length W holds at most W / 30 s of them, rounded up. */
  lemma PackingBound(ws: seq<World>, acts: seq<Action>, i: nat, ids: set<ID>, deviceId: ID, index: int, from: Instant,
          length: nat)
    requires Run(ws, acts) && Serial(ws, acts) && i < |ws|
    requires Packed(ws[i], ids, deviceId, index, from, length)
    ensures |ids| <= CeilingDivide(length, OVERLAP_BUFFER)
  {
    hide Run, Serial, ChecksHold, Apart, Distance;
    CreatedTasksKeepApart(ws, acts, i);
    var w := ws[i];
    var slot := map id | id in ids :: (w.rows[id].dispatchAfter - from) / OVERLAP_BUFFER;
    forall id | id in ids
      ensures 0 <= slot[id] < CeilingDivide(length, OVERLAP_BUFFER)
    {
      SlotInRange(w.rows[id].dispatchAfter - from, length);
    }
    forall a, b | a in ids && b in ids && a != b
      ensures slot[a] != slot[b]
    {
      PackedApart(w, ids, deviceId, index, from, length, a, b);
      DifferentSlots(w.rows[a].dispatchAfter - from, w.rows[b].dispatchAfter - from);
    }
    BucketBound(ids, slot, CeilingDivide(length, OVERLAP_BUFFER));
  }

  lemma PackedApart(w: World, ids: set<ID>, deviceId: ID, index: int, from: Instant, length: nat, a: ID, b: ID)
    requires NoOverlap(w) && Packed(w, ids, deviceId, index, from, length)
    requires a in ids && b in ids && a != b
    ensures Distance(w.rows[a].dispatchAfter - from, w.rows[b].dispatchAfter - from) >= OVERLAP_BUFFER
  {
    var i :| 0 <= i < |w.stored| && w.stored[i] == a;
    var j :| 0 <= j < |w.stored| && w.stored[j] == b;
    assert w.rows[a].taskId != w.rows[b].taskId;
    if i < j {
      assert Apart(w.rows[w.stored[i]], w.rows[w.stored[j]], w.stored[j] in w.byTask);
    } else {
      assert Apart(w.rows[w.stored[j]], w.rows[w.stored[i]], w.stored[i] in w.byTask);
    }
  }

  lemma SlotInRange(offset: int, length: nat)
    requires 0 <= offset < length
    ensures 0 <= offset / OVERLAP_BUFFER < CeilingDivide(length, OVERLAP_BUFFER)
  {
  }

  lemma DifferentSlots(a: int, b: int)
    requires Distance(a, b) >= OVERLAP_BUFFER
    ensures a / OVERLAP_BUFFER != b / OVERLAP_BUFFER
  {
  }
}
