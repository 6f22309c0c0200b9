/** The command protocol as a state machine. Task creation, the command worker, the dispatch
    goroutines, the broker and the network each take small steps in any interleaving; store,
    broker and push failures are part of the steps. */
module CommandProtocol {
  import opened Calendar
  import opened Outcomes
  import opened Collections
  import opened Commands

  /** Messages of the device topic. */
  datatype Event =
    | CommandSent(id: ID)
    | StatusUpdate(id: ID, status: Status, error: Option<string>)

  datatype Push = Push(command: Command, at: Instant)

  /** The single goroutine of the command worker: free, with the rest of its sweep to handle, or
      holding an edited row it is about to save. */
  datatype Worker = Free(todo: seq<Command>) | Saving(change: Change, cmd: Command, todo: seq<Command>)

  datatype World = World(
    clock: Instant,
    rows: map<ID, Command>,
    stored: seq<ID>,               // row IDs in the order of insertion
    byTask: set<ID>,               // the rows stored by task creation
    creators: seq<Task>,           // creations that passed the overlap check and have not stored
    worker: Worker,
    dispatchers: seq<seq<Command>>, // what each dispatch goroutine still has of its snapshot
    inFlight: multiset<Event>,
    pushed: seq<Push>)

  datatype Action =
    | Elapse(to: Instant)
    | CheckTask(task: Task, findOk: bool)
    | StoreTask(creator: nat, ok: bool)
    | QueueCommand(cmd: Command, ok: bool)
    | StartSweep(pending: seq<Command>)
    | HandleNext
    | SaveRow(ok: bool)
    | Receive(event: Event, found: bool)
    | StartDispatch(dispatchable: seq<Command>)
    | DispatchNext(dispatcher: nat, pushOk: bool, publishOk: bool)
    | Report(correlationIds: seq<string>, status: Status, error: Option<string>, publishOk: bool)
    | Lose(event: Event)

  /** The rows a query for pending, or else for dispatchable, commands selects. */
  predicate Selected(pending: bool, c: Command) {
    if pending then IsPending(c) else IsReadyToDispatch(c)
  }

  /** A query result: every selected row, each once, in any order. */
  ghost predicate Snapshot(found: seq<Command>, rows: map<ID, Command>, pending: bool) {
    && (forall c :: c in found ==> c.id in rows && rows[c.id] == c && Selected(pending, c))
    && (forall i, j :: 0 <= i < j < |found| ==> found[i].id != found[j].id)
    && (forall id :: id in rows && Selected(pending, rows[id]) ==> rows[id] in found)
  }

  predicate PushedId(w: World, id: ID) {
    exists k :: 0 <= k < |w.pushed| && w.pushed[k].command.id == id
  }

  /** What the network sends back: it only repeats our correlation IDs from pushes it received,
      and its four topics carry these statuses. */
  ghost predicate HonestReport(w: World, correlationIds: seq<string>, status: Status) {
    && status in {Queued, Sent, Failed, Ack}
    && forall s :: s in correlationIds && Correlated(s) ==> PushedId(w, s[|CORRELATION_PREFIX|..])
  }

  // The edit a message asks for, at the time it is handled.
  function ChangeFor(event: Event, now: Instant): Change {
    match event
    case CommandSent(_) => MarkSent(now)
    case StatusUpdate(_, status, error) => SetStatus(status, error, now)
  }

  predicate HasReceiver(w: World, event: Event, found: bool) {
    found && event.id in w.rows && !(event.StatusUpdate? && event.id == "")
  }

  function Insert(w: World, cmds: seq<Command>): World {
    w.(rows := InsertAll(w.rows, cmds), stored := w.stored + CommandIds(cmds))
  }

  ghost predicate Step(w: World, w': World, a: Action) {
    match a
    case Elapse(to) =>
      w.clock <= to && w' == w.(clock := to)
    case CheckTask(task, findOk) =>
      && WellBuilt(task)
      && w' == if findOk && Fits(w.rows, task) then w.(creators := w.creators + [task]) else w
    case StoreTask(i, ok) =>
      && i < |w.creators|
      && var task := w.creators[i];
         w' == if ok && AllNew(w.rows, task.commands)
               then Insert(w, task.commands).(creators := Without(w.creators, i),
                                              byTask := w.byTask + set c | c in task.commands :: c.id)
               else w.(creators := Without(w.creators, i))
    case QueueCommand(cmd, ok) =>
      && Unprocessed(cmd)
      && w' == if ok && cmd.id !in w.rows
               then Insert(w, [cmd.(port := if cmd.port == 0 then 1 else cmd.port)])
               else w
    case StartSweep(pending) =>
      && w.worker == Free([])
      && Snapshot(pending, w.rows, true)
      && w' == w.(worker := Free(pending))
    case HandleNext =>
      && w.worker.Free? && w.worker.todo != []
      && var cmd, rest := w.worker.todo[0], w.worker.todo[1..];
         w' == w.(worker := if cmd.dispatchAfter > w.clock then Free(rest)
                            else Saving(MakeReady, Apply(MakeReady, cmd), rest))
    case SaveRow(ok) =>
      && w.worker.Saving?
      && var cmd := w.worker.cmd;
         w' == w.(worker := Free(w.worker.todo),
                  rows := if ok && cmd.id in w.rows then w.rows[cmd.id := Merge(w.rows[cmd.id], cmd)] else w.rows)
    case Receive(event, found) =>
      && w.worker == Free([]) && event in w.inFlight
      && w' == w.(inFlight := w.inFlight - multiset{event},
                  worker := if HasReceiver(w, event, found)
                            then Saving(ChangeFor(event, w.clock), Apply(ChangeFor(event, w.clock), w.rows[event.id]), [])
                            else w.worker)
    case StartDispatch(dispatchable) =>
      && Snapshot(dispatchable, w.rows, false)
      && w' == w.(dispatchers := w.dispatchers + [dispatchable])
    case DispatchNext(d, pushOk, publishOk) =>
      && d < |w.dispatchers| && w.dispatchers[d] != []
      && var cmd := w.dispatchers[d][0];
         var goes := cmd.ready && !cmd.sent && pushOk;
         w' == w.(dispatchers := w.dispatchers[d := w.dispatchers[d][1..]],
                  pushed := if goes then w.pushed + [Push(cmd, w.clock)] else w.pushed,
                  inFlight := if goes && publishOk then w.inFlight + multiset{CommandSent(cmd.id)} else w.inFlight)
    case Report(correlationIds, status, error, publishOk) =>
      && HonestReport(w, correlationIds, status)
      && var id := ReportedCommand(correlationIds);
         w' == if id.Some? && publishOk
               then w.(inFlight := w.inFlight + multiset{StatusUpdate(id.value, status, error)})
               else w
    case Lose(event) =>
      event in w.inFlight && w' == w.(inFlight := w.inFlight - multiset{event})
  }

  ghost predicate Initial(w: World) {
    && w.rows == map[] && w.stored == [] && w.byTask == {} && w.creators == []
    && w.worker == Free([]) && w.dispatchers == [] && w.inFlight == multiset{} && w.pushed == []
  }

  ghost predicate Run(ws: seq<World>, acts: seq<Action>) {
    && |ws| == |acts| + 1
    && Initial(ws[0])
    && forall i :: 0 <= i < |acts| ==> Step(ws[i], ws[i + 1], acts[i])
  }

  lemma RunStep(ws: seq<World>, acts: seq<Action>, i: nat)
    requires Run(ws, acts) && i < |acts|
    ensures Step(ws[i], ws[i + 1], acts[i])
  {
  }

  // ---- The invariant ----

  ghost predicate RowOk(w: World, id: ID)
    requires id in w.rows
  {
    && w.rows[id].id == id
    && (w.rows[id].ready ==> w.rows[id].dispatchAfter <= w.clock)
    && (Touched(w.rows[id]) ==> PushedId(w, id))
  }

  ghost predicate RowsOk(w: World) {
    forall id :: id in w.rows ==> RowOk(w, id)
  }

  /** Every command still to sweep is the current row, and so is the copy being saved, but for its edit. */
  ghost predicate WorkerOk(w: World) {
    && (forall c :: c in w.worker.todo ==> c.id in w.rows && w.rows[c.id] == c && IsPending(c))
    && (forall i, j :: 0 <= i < j < |w.worker.todo| ==> w.worker.todo[i].id != w.worker.todo[j].id)
    && (w.worker.Saving? ==>
          && w.worker.cmd.id in w.rows
          && w.worker.cmd == Apply(w.worker.change, w.rows[w.worker.cmd.id])
          && Meaningful(w.worker.change)
          && (forall c :: c in w.worker.todo ==> c.id != w.worker.cmd.id)
          && (if w.worker.change.MakeReady? then w.worker.cmd.dispatchAfter <= w.clock else PushedId(w, w.worker.cmd.id)))
  }

  // A dispatcher's copy may be stale, but its row has been ready ever since.
  ghost predicate CopyOk(w: World, c: Command) {
    && c.id in w.rows && SameOrder(c, w.rows[c.id])
    && c.ready && !c.sent && w.rows[c.id].ready
  }

  ghost predicate DispatchersOk(w: World) {
    forall d, c :: 0 <= d < |w.dispatchers| && c in w.dispatchers[d] ==> CopyOk(w, c)
  }

  ghost predicate EventsOk(w: World) {
    forall e :: e in w.inFlight ==> PushedId(w, e.id) && (e.StatusUpdate? ==> !e.status.Unset?)
  }

  /** A push happened no earlier than its command allows, and it carried the row's order. */
  ghost predicate PushOk(w: World, p: Push) {
    && p.command.id in w.rows && SameOrder(p.command, w.rows[p.command.id])
    && p.command.dispatchAfter <= p.at <= w.clock
  }

  ghost predicate PushesOk(w: World) {
    forall p :: p in w.pushed ==> PushOk(w, p)
  }

  ghost predicate CreatorsOk(w: World) {
    forall t :: t in w.creators ==> WellBuilt(t)
  }

  ghost predicate Inv(w: World) {
    RowsOk(w) && WorkerOk(w) && DispatchersOk(w) && EventsOk(w) && PushesOk(w) && CreatorsOk(w)
  }

  /** What every step does to the rest of the world: rows stay and progress, pushes are only added. */
  ghost predicate Grows(w: World, w': World) {
    && w.clock <= w'.clock
    && (forall id :: id in w.rows ==> id in w'.rows && Progresses(w.rows[id], w'.rows[id]))
    && w.pushed <= w'.pushed
  }

  lemma InsertKeeps(w: World, cmds: seq<Command>)
    requires AllNew(w.rows, cmds)
    requires forall i :: 0 <= i < |cmds| ==> Unprocessed(cmds[i])
    ensures forall id :: id in w.rows ==> id in Insert(w, cmds).rows && Insert(w, cmds).rows[id] == w.rows[id]
    ensures forall id :: id in Insert(w, cmds).rows && id !in w.rows ==>
              Insert(w, cmds).rows[id].id == id && Unprocessed(Insert(w, cmds).rows[id])
  {
    InsertAllRows(w.rows, cmds);
  }

  // What a step does to the rows: it may insert unprocessed ones, and save one edited row.
  lemma StepRows(w: World, w': World, a: Action)
    requires Step(w, w', a) && CreatorsOk(w)
    ensures forall id :: id in w.rows ==> id in w'.rows
    ensures forall id :: id in w'.rows && id !in w.rows ==> w'.rows[id].id == id && Unprocessed(w'.rows[id])
    ensures forall id :: id in w.rows ==>
              w'.rows[id] == if a.SaveRow? && a.ok && w.worker.cmd.id == id then Merge(w.rows[id], w.worker.cmd) else w.rows[id]
    ensures w.pushed <= w'.pushed && w.clock <= w'.clock
    ensures a.SaveRow? ==> w.worker.Saving?
  {
    hide AllNew, Fits, Snapshot, HonestReport, HasReceiver, Insert;
    match a {
      case StoreTask(i, ok) =>
        assert w.creators[i] in w.creators;
        if ok && AllNew(w.rows, w.creators[i].commands) {
          InsertKeeps(w, w.creators[i].commands);
          InsertTouches(w, w.creators[i].commands);
        }
      case QueueCommand(cmd, ok) =>
        if ok && cmd.id !in w.rows {
          var queued := [cmd.(port := if cmd.port == 0 then 1 else cmd.port)];
          OneNew(w.rows, queued);
          InsertKeeps(w, queued);
          InsertTouches(w, queued);
        }
      case _ =>
    }
  }

  lemma OneNew(rows: map<ID, Command>, cmds: seq<Command>)
    requires |cmds| == 1 && cmds[0].id !in rows
    ensures AllNew(rows, cmds)
  {
  }

  lemma InsertTouches(w: World, cmds: seq<Command>)
    ensures Insert(w, cmds) == w.(rows := Insert(w, cmds).rows, stored := Insert(w, cmds).stored)
  {
  }

  lemma StepGrows(w: World, w': World, a: Action)
    requires Step(w, w', a) && WorkerOk(w) && CreatorsOk(w)
    ensures Grows(w, w')
  {
    hide Step, Merge;
    StepRows(w, w', a);
    if a.SaveRow? && a.ok {
      ChangeProgresses(w.rows[w.worker.cmd.id], w.worker.change);
    }
  }

  lemma GrowsKeepsPushedId(w: World, w': World, id: ID)
    requires w.pushed <= w'.pushed && PushedId(w, id)
    ensures PushedId(w', id)
  {
    var k :| 0 <= k < |w.pushed| && w.pushed[k].command.id == id;
    assert w'.pushed[k].command.id == id;
  }

  lemma RowsStayOk(w: World, w': World, a: Action)
    requires Step(w, w', a) && Inv(w)
    ensures RowsOk(w')
  {
    hide Step, DispatchersOk, EventsOk, PushesOk, PushedId, CreatorsOk;
    StepRows(w, w', a);
    forall id | id in w'.rows
      ensures RowOk(w', id)
    {
      if PushedId(w, id) {
        GrowsKeepsPushedId(w, w', id);
      }
      if id in w.rows {
        assert RowOk(w, id);
      }
    }
  }

  lemma WorkerStaysOk(w: World, w': World, a: Action)
    requires Step(w, w', a) && Inv(w)
    ensures WorkerOk(w')
  {
    hide RowsOk, DispatchersOk, EventsOk, PushesOk, Step, CreatorsOk, WorkerOk;
    match a {
      case StartSweep(_) => SweepStartsOk(w, w', a);
      case HandleNext => HandlingStaysOk(w, w', a);
      case SaveRow(_) => SavingStaysOk(w, w', a);
      case Receive(_, _) => ReceivingStaysOk(w, w', a);
      case _ =>
        StepRows(w, w', a);
        SameWorker(w, w', a);
        OtherStepsStayOk(w, w', a);
    }
  }

  lemma SameWorker(w: World, w': World, a: Action)
    requires Step(w, w', a) && !a.StartSweep? && !a.HandleNext? && !a.SaveRow? && !a.Receive?
    ensures w'.worker == w.worker
  {
    hide AllNew, Fits, Snapshot, HonestReport, HasReceiver;
  }

  lemma OtherStepsStayOk(w: World, w': World, a: Action)
    requires WorkerOk(w) && w'.worker == w.worker
    requires forall id :: id in w.rows ==> id in w'.rows && w'.rows[id] == w.rows[id]
    requires w.pushed <= w'.pushed && w.clock <= w'.clock
    ensures WorkerOk(w')
  {
    hide PushedId, Apply;
    if w.worker.Saving? && PushedId(w, w.worker.cmd.id) {
      GrowsKeepsPushedId(w, w', w.worker.cmd.id);
    }
  }

  lemma SweepStartsOk(w: World, w': World, a: Action)
    requires Step(w, w', a) && a.StartSweep?
    ensures WorkerOk(w')
  {
  }

  lemma HandlingStaysOk(w: World, w': World, a: Action)
    requires Step(w, w', a) && a.HandleNext? && WorkerOk(w)
    ensures WorkerOk(w')
  {
    assert w.worker.todo[0] in w.worker.todo;
  }

  lemma SavingStaysOk(w: World, w': World, a: Action)
    requires Step(w, w', a) && a.SaveRow? && WorkerOk(w)
    ensures WorkerOk(w')
  {
    hide Merge, Apply, PushedId;
  }

  lemma ReceivingStaysOk(w: World, w': World, a: Action)
    requires Step(w, w', a) && a.Receive? && WorkerOk(w) && RowsOk(w) && EventsOk(w)
    ensures WorkerOk(w')
  {
    hide PushedId;
    if HasReceiver(w, a.event, a.found) {
      assert RowOk(w, a.event.id);
      assert PushedId(w, a.event.id);
      GrowsKeepsPushedId(w, w', a.event.id);
    }
  }

  lemma CopyStaysOk(w: World, w': World, c: Command)
    requires CopyOk(w, c) && Grows(w, w')
    ensures CopyOk(w', c)
  {
  }

  lemma DispatchersStayOk(w: World, w': World, a: Action)
    requires Step(w, w', a) && Inv(w) && Grows(w, w')
    ensures DispatchersOk(w')
  {
    hide Grows, Progresses, SameOrder;
    forall d, c | 0 <= d < |w'.dispatchers| && c in w'.dispatchers[d]
      ensures CopyOk(w', c)
    {
      if d < |w.dispatchers| {
        assert c in w.dispatchers[d];
        CopyStaysOk(w, w', c);
      } else {
        assert a.StartDispatch?;
        SameAsItself(c);
      }
    }
  }

  lemma SameAsItself(c: Command)
    ensures SameOrder(c, c)
  {
  }

  // A message is put in flight by a push, about the command pushed, or by a report of the network.
  lemma NewEvent(w: World, w': World, a: Action, e: Event)
    requires Step(w, w', a) && e in w'.inFlight && e !in w.inFlight
    ensures a.DispatchNext? || a.Report?
    ensures a.DispatchNext? ==> e.CommandSent? && |w'.pushed| > |w.pushed| && w'.pushed[|w.pushed|].command.id == e.id
    ensures a.Report? ==>
              && e.StatusUpdate? && HonestReport(w, a.correlationIds, a.status)
              && e.status == a.status && ReportedCommand(a.correlationIds) == Some(e.id)
  {
    hide HonestReport, ReportedCommand, Snapshot, WellBuilt, Fits, AllNew, InsertAll, CommandIds;
    hide Unprocessed, HasReceiver, Apply, Merge;
  }

  lemma EventsStayOk(w: World, w': World, a: Action)
    requires Step(w, w', a) && EventsOk(w) && Grows(w, w')
    ensures EventsOk(w')
  {
    hide Step, Progresses;
    forall e | e in w'.inFlight
      ensures PushedId(w', e.id) && (e.StatusUpdate? ==> !e.status.Unset?)
    {
      if e in w.inFlight {
        GrowsKeepsPushedId(w, w', e.id);
      } else {
        NewEvent(w, w', a, e);
        if a.Report? {
          ReportedWasCorrelated(a.correlationIds);
          var s := CORRELATION_PREFIX + e.id;
          assert s in a.correlationIds && Correlated(s);
          assert s[|CORRELATION_PREFIX|..] == e.id;
          GrowsKeepsPushedId(w, w', e.id);
        }
      }
    }
  }

  lemma PushesStayOk(w: World, w': World, a: Action)
    requires Step(w, w', a) && Inv(w) && Grows(w, w')
    ensures PushesOk(w')
  {
    hide WorkerOk, EventsOk, Touched, PushedId;
    forall p | p in w'.pushed
      ensures PushOk(w', p)
    {
      if p in w.pushed {
        assert PushOk(w, p);
      } else {
        var c := w.dispatchers[a.dispatcher][0];
        assert c in w.dispatchers[a.dispatcher];
        assert CopyOk(w, c) && RowOk(w, c.id);
      }
    }
  }

  lemma StepKeepsInv(w: World, w': World, a: Action)
    requires Step(w, w', a) && Inv(w)
    ensures Inv(w') && Grows(w, w')
  {
    hide RowsOk, WorkerOk, DispatchersOk, EventsOk, PushesOk, Grows, CreatorsOk;
    StepGrows(w, w', a);
    RowsStayOk(w, w', a);
    WorkerStaysOk(w, w', a);
    DispatchersStayOk(w, w', a);
    EventsStayOk(w, w', a);
    PushesStayOk(w, w', a);
    CreatorsStayOk(w, w', a);
  }

  lemma CreatorsStayOk(w: World, w': World, a: Action)
    requires Step(w, w', a) && CreatorsOk(w)
    ensures CreatorsOk(w')
  {
  }

  /** The invariant holds throughout every run. */
  lemma {:induction false} RunKeepsInv(ws: seq<World>, acts: seq<Action>, i: nat)
    requires Run(ws, acts) && i < |ws|
    ensures Inv(ws[i])
  {
    hide Step;
    if i > 0 {
      hide Inv;
      RunKeepsInv(ws, acts, i - 1);
      RunStep(ws, acts, i - 1);
      StepKeepsInv(ws[i - 1], ws[i], acts[i - 1]);
    }
  }
}
