/** The worker that turns due scheduled tasks into tasks and records when it did. */
module IntervalWorker {
  import opened Calendar
  import opened Outcomes
  import opened Collections
  import opened IntervalSchedule
  import Commands
  import CommandStore

  datatype Device = Device(id: ID, name: string)

  /** What one evaluation meets: the tenant's zone, the clock at the check, at the building of the
      commands and at the record, generated identifiers, and the outcome of every call. */
  datatype Environment = Environment(
    zone: Option<int>,
    now: Instant,
    device: Option<Device>,
    builtAt: Instant,
    taskId: ID,
    commandIds: nat -> ID,
    findOk: bool,
    storeOk: bool,
    publishOk: bool,
    recordedAt: Instant,
    saveOk: bool)

  /** A fresh command from a template: it waits for `waitFor` after the time it is built. */
  function ToCommand(template: CommandTemplate, device: Device, taskId: ID, id: ID, base: Instant): Commands.Command {
    Commands.Command(id, 1, device.id, device.name, taskId, template.port, template.priority, template.index, template.value,
                     base + template.waitFor, 0, false, false, 0, Commands.Unset, None, None, None, None)
  }

  function BuiltTask(task: ScheduledTask, device: Device, env: Environment): Commands.Task {
    Commands.Task(env.taskId, device.id,
                  seq(|task.templates|, i requires 0 <= i < |task.templates| =>
                    ToCommand(task.templates[i], device, env.taskId, env.commandIds(i), env.builtAt)))
  }

  /** With commands and distinct identifiers the built task is as the command protocol expects. */
  lemma BuiltTaskIsWellBuilt(task: ScheduledTask, device: Device, env: Environment)
    requires task.templates != []
    requires forall i, j :: 0 <= i < j < |task.templates| ==> env.commandIds(i) != env.commandIds(j)
    ensures Commands.WellBuilt(BuiltTask(task, device, env))
    ensures forall i :: 0 <= i < |task.templates| ==>
              var c, template := BuiltTask(task, device, env).commands[i], task.templates[i];
              && c.dispatchAfter == env.builtAt + template.waitFor
              && c.port == template.port && c.priority == template.priority
              && c.index == template.index && c.value == template.value
              && c.deviceName == device.name && c.id == env.commandIds(i) && c.version == 1
              && c.createdAt == 0 && c.sentAt == 0 && c.status.Unset? && c.errorMessage.None?
    ensures |BuiltTask(task, device, env).commands| == |task.templates|
    ensures BuiltTask(task, device, env).deviceId == device.id && BuiltTask(task, device, env).id == env.taskId
  {
    var built := BuiltTask(task, device, env);
    forall i, j | 0 <= i < j < |built.commands|
      ensures built.commands[i].id != built.commands[j].id
    {
      assert env.commandIds(i) != env.commandIds(j);
    }
    forall i | 0 <= i < |built.commands|
      ensures Commands.Unprocessed(built.commands[i])
      ensures built.commands[i].deviceId == built.deviceId && built.commands[i].taskId == built.id
      ensures built.commands[i] == ToCommand(task.templates[i], device, env.taskId, env.commandIds(i), env.builtAt)
    {
      assert built.commands[i] == ToCommand(task.templates[i], device, env.taskId, env.commandIds(i), env.builtAt);
    }
  }

  /** The task gets built and stored: its device is known, it has commands, and the task service
      accepts and stores them. */
  ghost predicate Creates(task: ScheduledTask, env: Environment, rows: map<ID, Commands.Command>) {
    && env.device.Some? && env.device.value.id != ""
    && task.templates != []
    && env.findOk && Commands.Fits(rows, BuiltTask(task, env.device.value, env))
    && env.storeOk && Commands.AllNew(rows, BuiltTask(task, env.device.value, env).commands)
  }

  /** The tick of `IntervalSchedule` that an evaluation amounts to. */
  function TickOf(task: ScheduledTask, env: Environment, creates: bool): Tick {
    Tick(task.isActive, env.now, creates, env.recordedAt, env.saveOk)
  }

  function Evaluated(task: ScheduledTask, env: Environment, creates: bool): ScheduledTask {
    if env.zone.Some? then AfterTick(task, env.zone.value, TickOf(task, env, creates)) else task
  }

  class ScheduledTaskWorker {
    const taskService: CommandStore.TaskService
    var tasks: map<ID, ScheduledTask>
    var executed: seq<ScheduledTask>

    constructor (taskService: CommandStore.TaskService, tasks: map<ID, ScheduledTask>)
      ensures this.taskService == taskService && this.tasks == tasks && executed == []
    {
      this.taskService := taskService;
      this.tasks := tasks;
      executed := [];
    }

    method ShouldExecuteSchedule(task: ScheduledTask, env: Environment) returns (r: Result<bool, ScheduleError>)
      ensures r == Err(IntervalOnly) <==> !task.scheduling.kind.Interval?
      ensures r == Err(UnknownTimezone) <==> task.scheduling.kind.Interval? && env.zone.None?
      ensures r == Err(BadExecutionTime) <==>
              task.scheduling.kind.Interval? && env.zone.Some? && task.scheduling.executionTime.None?
      ensures r.Ok? && ValidScheduling(task.scheduling) ==> r.value == (DueDate(task, env.zone.value) <= env.now)
      ensures r == Ok(true) <==> ShouldExecute(task, env.zone, env.now)
    {
      hide IntervalSchedule.CalculateNextIntervalExecution, IntervalSchedule.DueDate;
      var next := CalculateNextExecution(task, env.zone);
      if env.zone.Some? && ValidScheduling(task.scheduling) {
        DueInClosedForm(task, env.zone.value);
      }
      match next {
        case Ok(due) => return Ok(due < env.now || due == env.now);
        case Err(e) => return Err(e);
      }
    }

    method CreateTaskFromScheduledTask(task: ScheduledTask, env: Environment) returns (created: bool)
      requires taskService.repository.Valid()
      modifies this`tasks, this`executed, taskService.repository
      ensures taskService.repository.Valid()
      ensures created <==> Creates(task, env, old(taskService.repository.rows))
      ensures taskService.repository.rows ==
              if created then Commands.InsertAll(old(taskService.repository.rows), BuiltTask(task, env.device.value, env).commands)
              else old(taskService.repository.rows)
      ensures tasks == if created && env.saveOk then old(tasks)[task.id := task.(lastExecutedAt := Some(env.recordedAt))] else old(tasks)
      ensures executed == if created && env.publishOk then old(executed) + [task] else old(executed)
    {
      hide Commands.Fits, Commands.AllNew, Commands.InsertAll;
      if env.device.None? {
        return false;
      }
      var device := env.device.value;
      var commands := new Commands.Command[|task.templates|];
      for i := 0 to |task.templates|
        modifies commands
        invariant forall k :: 0 <= k < i ==> commands[k] == ToCommand(task.templates[k], device, env.taskId, env.commandIds(k), env.builtAt)
      {
        commands[i] := ToCommand(task.templates[i], device, env.taskId, env.commandIds(i), env.builtAt);
      }
      if device.id == "" || |task.templates| == 0 {
        return false;
      }
      var built := Commands.Task(env.taskId, device.id, commands[..]);
      assert built == BuiltTask(task, device, env);
      var stored := taskService.Create(built, env.findOk, env.storeOk);
      if stored.Err? {
        return false;
      }
      if env.publishOk {
        executed := executed + [task];
      }
      if env.saveOk {
        tasks := tasks[task.id := task.(lastExecutedAt := Some(env.recordedAt))];
      }
      return true;
    }

    /** Evaluating the current row of a task is one tick of its schedule. */
    method EvaluateAndMaybeCreateTask(task: ScheduledTask, env: Environment) returns (created: bool)
      requires taskService.repository.Valid()
      requires task.id in tasks && tasks[task.id] == task
      modifies this`tasks, this`executed, taskService.repository
      ensures taskService.repository.Valid()
      ensures created <==> task.isActive && ShouldExecute(task, env.zone, env.now) && Creates(task, env, old(taskService.repository.rows))
      ensures taskService.repository.rows ==
              if created then Commands.InsertAll(old(taskService.repository.rows), BuiltTask(task, env.device.value, env).commands)
              else old(taskService.repository.rows)
      ensures tasks == old(tasks)[task.id := Evaluated(task, env, created)]
      ensures executed == if created && env.publishOk then old(executed) + [task] else old(executed)
    {
      hide IntervalSchedule.CalculateNextIntervalExecution, Creates, Commands.InsertAll;
      created := false;
      if !task.isActive {
        return;
      }
      var should := ShouldExecuteSchedule(task, env);
      if should.Err? {
        return;
      }
      if should.value {
        created := CreateTaskFromScheduledTask(task, env);
      }
    }

    /** A pass over the active tasks: every row takes its own tick, creations succeeding for `created`. */
    method EvaluateSchedules(findOk: bool, env: ID -> Environment) returns (ghost created: set<ID>)
      requires taskService.repository.Valid() && KeysMatch(tasks, ScheduledTaskId)
      modifies this`tasks, this`executed, taskService.repository
      ensures taskService.repository.Valid() && KeysMatch(tasks, ScheduledTaskId)
      ensures tasks == if findOk then map id | id in old(tasks) :: Evaluated(old(tasks)[id], env(id), id in created) else old(tasks)
    {
      created := {};
      if !findOk {
        return;
      }
      hide Evaluated, EvaluatedRows, Commands.InsertAll, Creates, IntervalSchedule.ShouldExecute;
      ghost var before := tasks;
      var rest := set id | id in tasks && tasks[id].isActive;
      InactiveStay(before, env, rest);
      while rest != {}
        invariant taskService.repository.Valid()
        invariant rest <= before.Keys && created !! rest
        invariant EvaluatedRows(before, tasks, env, rest, created)
        decreases |rest|
      {
        var id :| id in rest;
        RowWaits(before, tasks, env, rest, created, id);
        ghost var waiting := tasks;
        var fired := EvaluateAndMaybeCreateTask(tasks[id], env(id));
        RowEvaluated(before, waiting, env, rest, created, id, fired);
        rest := rest - {id};
        if fired {
          created := created + {id};
        }
      }
      AllEvaluated(before, tasks, env, created);
    }
  }

  /** Every row but those in `rest` has been evaluated, with creations for `created`. */
  ghost predicate EvaluatedRows(before: map<ID, ScheduledTask>, after: map<ID, ScheduledTask>, env: ID -> Environment,
          rest: set<ID>, created: set<ID>)
  {
    && KeysMatch(before, ScheduledTaskId)
    && after.Keys == before.Keys
    && forall id :: id in before ==> after[id] == if id in rest then before[id] else Evaluated(before[id], env(id), id in created)
  }

  lemma InactiveStay(tasks: map<ID, ScheduledTask>, env: ID -> Environment, rest: set<ID>)
    requires KeysMatch(tasks, ScheduledTaskId)
    requires forall id :: id in tasks && tasks[id].isActive ==> id in rest
    ensures EvaluatedRows(tasks, tasks, env, rest, {})
  {
    hide ShouldExecute;
  }

  lemma RowWaits(before: map<ID, ScheduledTask>, after: map<ID, ScheduledTask>, env: ID -> Environment, rest: set<ID>,
          created: set<ID>, id: ID)
    requires EvaluatedRows(before, after, env, rest, created) && id in rest && id in before
    ensures id in after && after[id] == before[id] && after[id].id == id
  {
  }

  lemma RowEvaluated(before: map<ID, ScheduledTask>, after: map<ID, ScheduledTask>, env: ID -> Environment,
          rest: set<ID>, created: set<ID>, id: ID, fired: bool)
    requires EvaluatedRows(before, after, env, rest, created) && id in rest && id in before && id !in created
    ensures EvaluatedRows(before, after[id := Evaluated(before[id], env(id), fired)], env, rest - {id},
                          if fired then created + {id} else created)
  {
    hide Evaluated;
  }

  lemma AllEvaluated(before: map<ID, ScheduledTask>, after: map<ID, ScheduledTask>, env: ID -> Environment,
          created: set<ID>)
    requires EvaluatedRows(before, after, env, {}, created)
    ensures after == map id | id in before :: Evaluated(before[id], env(id), id in created)
    ensures KeysMatch(after, ScheduledTaskId)
  {
    forall id | id in before
      ensures after[id].id == id
    {
      EvaluatedKeepsId(before[id], env(id), id in created);
    }
  }

  lemma EvaluatedKeepsId(task: ScheduledTask, env: Environment, creates: bool)
    ensures Evaluated(task, env, creates).id == task.id
  {
    hide ShouldExecute;
  }
}
