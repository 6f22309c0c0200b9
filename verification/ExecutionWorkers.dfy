/** The maintenance worker: it creates the coming executions of each activity, announces
    executions some days ahead, and counts the days they are overdue. */
module ExecutionWorkers {
  import opened Calendar
  import opened Outcomes
  import opened Collections
  import opened Recurrence
  import opened MaintenanceDomain
  import opened ExecutionStore

  lemma NothingSaved(check: Check, activities: map<ID, Activity>, rows: map<ID, Execution>, log: seq<Event>)
    ensures TableAfter(check, activities, rows, {}) == rows
    ensures Announced(check, activities, rows, {}, log, log)
  {
  }

  lemma NextCreateStep(activities: map<ID, Activity>, t: Tables, activity: Activity, last: Instant,
          next: Instant, attempts: seq<Attempt>, n: nat)
    requires Valid(activity.schedule) && n < |attempts| && next == NextOccurrence(activity.schedule, last)
    ensures CreateSteps(activities, t, activity, last, attempts[n..])
         == CreateSteps(activities, CreateStep(activities, t, activity, next, attempts[n]), activity, next, attempts[n + 1..])
  {
    hide NextOccurrence, CreateStep;
    assert attempts[n..][0] == attempts[n] && attempts[n..][1..] == attempts[n + 1..];
  }

  lemma NoMoreSteps(activities: map<ID, Activity>, t: Tables, activity: Activity, last: Instant, attempts: seq<Attempt>)
    requires Valid(activity.schedule)
    ensures CreateSteps(activities, t, activity, last, attempts[|attempts|..]) == t
  {
  }

  class ExecutionWorker {
    const repository: ExecutionRepository
    const service: ExecutionService
    var published: seq<Event>

    constructor (repository: ExecutionRepository, service: ExecutionService)
      requires service.repository == repository
      ensures this.repository == repository && this.service == service && published == []
    {
      this.repository := repository;
      this.service := service;
      published := [];
    }

    method ExecutionExists(activityId: ID, date: Instant, ok: bool) returns (r: Option<bool>)
      ensures r == if ok then Some(MaintenanceDomain.ExecutionExists(repository.executions, activityId, date)) else None
    {
      var found := repository.FindByActivityAndScheduledDate(activityId, date, ok);
      match found {
        case Ok(_) => return Some(true);
        case Err(ExecutionNotFound) => return Some(false);
        case Err(DatabaseError) => return None;
      }
    }

    method CreateExecution(activity: Activity, date: Instant, attempt: Attempt) returns (created: bool)
      requires service.repository == repository && repository.Valid()
      modifies repository`executions
      ensures repository.Valid()
      ensures created <==> CanCreate(repository.activities, old(repository.executions), attempt.id, activity.id, date,
                                     attempt.activityOk, attempt.insertOk)
      ensures repository.executions ==
              if created
              then old(repository.executions)[attempt.id := NewExecution(attempt.id, activity.id, date, activity.defaultValues)]
              else old(repository.executions)
    {
      var built := BuildExecution(attempt.id, activity.id, date, activity.defaultValues);
      if built.None? {
        return false;
      }
      created := service.CreateExecution(built.value, attempt.activityOk, attempt.insertOk);
    }

    /** Publishes an event; a failure is not reported to the caller. */
    method Publish(e: Event, ok: bool)
      modifies this`published
      ensures published == Published(old(published), e, ok)
      ensures published == if ok then old(published) + [e] else old(published)
    {
      if ok {
        published := published + [e];
      }
    }

    method ProcessActivity(activity: Activity, tenantOk: bool, publishOk: bool, now: Instant, attempts: seq<Attempt>)
      requires service.repository == repository && repository.Valid()
      requires |attempts| == NEXT_EXECUTIONS_COUNT
      modifies this`published, repository`executions
      ensures repository.Valid()
      ensures Tables(repository.executions, published)
           == Pass(repository.activities, Tables(old(repository.executions), old(published)), activity, tenantOk, publishOk,
                   now, attempts)
    {
      hide Recurrence.Advance, Recurrence.Occurrence, Recurrence.NextOccurrence, Recurrence.Validate;
      hide MaintenanceDomain.ExecutionExists, MaintenanceDomain.CreateSteps;
      if !tenantOk {
        Publish(CreationFailed(activity.id), publishOk);
        return;
      }
      var lastExecutionTime := now;
      ghost var begun := Tables(repository.executions, published);
      assert attempts[0..] == attempts;
      for n := 0 to NEXT_EXECUTIONS_COUNT
        invariant repository.Valid()
        invariant n > 0 ==> Recurrence.Valid(activity.schedule)
        invariant !Recurrence.Valid(activity.schedule) ==> Tables(repository.executions, published) == begun
        invariant Recurrence.Valid(activity.schedule) ==>
          CreateSteps(repository.activities, Tables(repository.executions, published), activity, lastExecutionTime, attempts[n..])
          == CreateSteps(repository.activities, begun, activity, now, attempts)
      {
        hide MaintenanceDomain.Published, Recurrence.Valid;
        var next := Recurrence.Next(activity.schedule, lastExecutionTime);
        if next.Err? {
          Publish(CreationFailed(activity.id), publishOk);
          return;
        }
        NextCreateStep(repository.activities, Tables(repository.executions, published), activity, lastExecutionTime,
                       next.value, attempts, n);
        lastExecutionTime := next.value;
        var found := ExecutionExists(activity.id, next.value, attempts[n].lookupOk);
        if found.None? {
          Publish(CreationFailed(activity.id), attempts[n].publishOk);
        } else if !found.value {
          var created := CreateExecution(activity, next.value, attempts[n]);
          if created {
            Publish(Created(activity.id, next.value), attempts[n].publishOk);
          } else {
            Publish(CreationFailed(activity.id), attempts[n].publishOk);
          }
        }
      }
      NoMoreSteps(repository.activities, Tables(repository.executions, published), activity, lastExecutionTime, attempts);
    }

    /** Every row takes its own step, and the log gains that row's events. `failing` holds the executions
        whose save fails, `unpublished` those whose news is saved but not published. */
    method CheckReadyForNotification(current: Instant, findOk: bool, failing: set<ID>, unpublished: set<ID>)
      requires repository.Valid()
      modifies this`published, repository`executions
      ensures repository.Valid()
      ensures CheckDone(Notification(current), repository.activities, old(repository.executions), findOk, failing,
                        unpublished, old(published), repository.executions, published)
    {
      hide MaintenanceDomain.DaysUntil, MaintenanceDomain.Open, ExecutionStore.Ids;
      ghost var rows, activities := repository.executions, repository.activities;
      ghost var check := Notification(current);
      NothingSaved(check, activities, rows, published);
      var found := repository.FindPendingExecutionsReadyForNotification(current, findOk);
      if found.Err? {
        return;
      }
      var due := found.value;
      NoIds();
      for i := 0 to |due|
        invariant repository.Valid()
        invariant repository.executions == TableAfter(check, activities, rows, Ids(due[..i]) - failing)
        invariant Announced(check, activities, rows, Ids(due[..i]) - failing - unpublished, old(published), published)
      {
        hide MaintenanceDomain.Announced, MaintenanceDomain.TableAfter;
        var execution := due[i].execution;
        ghost var saved := Ids(due[..i]) - failing;
        NotListedBefore(due, rows, activities, Ids(due), i);
        assert Belongs(due[i], rows, activities);
        assert DueForNotification(activities, execution, current);
        var daysBefore := DaysUntil(execution.scheduledDate, current);
        ghost var told, log := saved - unpublished, published;
        assert log + [] == log;
        SaveOne(check, activities, rows, saved, execution.id);
        if execution.id in failing {
          assert Ids(due[..i + 1]) - failing == saved;
        } else {
          assert Ids(due[..i + 1]) - failing == saved + {execution.id};
          if execution.id in unpublished {
            assert saved + {execution.id} - unpublished == told;
          } else {
            assert saved + {execution.id} - unpublished == told + {execution.id};
            TellOne(check, activities, rows, told, execution.id, old(published), published);
          }
        }
        if !execution.HasNotificationDaySent(daysBefore) {
          repository.Update(execution.MarkNotificationDaySent(daysBefore), execution.id !in failing);
          if execution.id !in failing {
            Publish(ReadyForNotification(execution.id, due[i].activity.id, daysBefore), execution.id !in unpublished);
          }
        }
        assert execution.id !in failing && execution.id !in unpublished ==>
            published == log + RowEvents(check, activities, execution, true);
        assert execution.id in failing || execution.id in unpublished ==> published == log;
      }
      assert due[..|due|] == due;
      CheckSame(check, activities, rows, Ids(due) - failing, rows.Keys - failing);
      CheckSame(check, activities, rows, Ids(due) - failing - unpublished, rows.Keys - failing - unpublished);
    }

    /** As above for overdue executions: `queried` is the clock of the query, `current` that of the tick. */
    method CheckOverdueExecutions(current: Instant, queried: Instant, findOk: bool, failing: set<ID>, unpublished: set<ID>)
      requires repository.Valid()
      modifies this`published, repository`executions
      ensures repository.Valid()
      ensures CheckDone(Overdue(queried, current), repository.activities, old(repository.executions), findOk, failing,
                        unpublished, old(published), repository.executions, published)
    {
      hide MaintenanceDomain.WholeDays, MaintenanceDomain.Sub, MaintenanceDomain.Open, ExecutionStore.Ids;
      ghost var rows, activities := repository.executions, repository.activities;
      ghost var check := Overdue(queried, current);
      NothingSaved(check, activities, rows, published);
      var found := repository.FindOverdueExecutions(queried, findOk);
      if found.Err? {
        return;
      }
      var late := found.value;
      NoIds();
      for i := 0 to |late|
        invariant repository.Valid()
        invariant repository.executions == TableAfter(check, activities, rows, Ids(late[..i]) - failing)
        invariant Announced(check, activities, rows, Ids(late[..i]) - failing - unpublished, old(published), published)
      {
        hide MaintenanceDomain.Announced, MaintenanceDomain.TableAfter;
        var execution := late[i].execution;
        ghost var saved := Ids(late[..i]) - failing;
        NotListedBefore(late, rows, activities, Ids(late), i);
        assert Belongs(late[i], rows, activities);
        assert Matches(Past(queried), activities, execution);
        var currentOverdueDays := execution.CalculateOverdueDays(current);
        ghost var told, log := saved - unpublished, published;
        assert log + [] == log;
        SaveOne(check, activities, rows, saved, execution.id);
        if execution.id in failing {
          assert Ids(late[..i + 1]) - failing == saved;
        } else {
          assert Ids(late[..i + 1]) - failing == saved + {execution.id};
          if execution.id in unpublished {
            assert saved + {execution.id} - unpublished == told;
          } else {
            assert saved + {execution.id} - unpublished == told + {execution.id};
            TellOne(check, activities, rows, told, execution.id, old(published), published);
          }
        }
        if currentOverdueDays > execution.overdueDays {
          repository.Update(execution.(overdueDays := currentOverdueDays), execution.id !in failing);
          if execution.id !in failing {
            Publish(OverdueBy(execution.id, late[i].activity.id, currentOverdueDays), execution.id !in unpublished);
          }
        }
        assert execution.id !in failing && execution.id !in unpublished ==>
            published == log + RowEvents(check, activities, execution, true);
        assert execution.id in failing || execution.id in unpublished ==> published == log;
      }
      assert late[..|late|] == late;
      CheckSame(check, activities, rows, Ids(late) - failing, rows.Keys - failing);
      CheckSame(check, activities, rows, Ids(late) - failing - unpublished, rows.Keys - failing - unpublished);
    }
  }
}
