/** The maintenance tables and the execution repository and service on top of them.
    Each store operation takes the outcome of its database calls as a parameter; a failed
    call leaves the tables as they were. */
module ExecutionStore {
  import opened Calendar
  import opened Outcomes
  import opened Collections
  import opened MaintenanceDomain

  datatype StoreError = ExecutionNotFound | DatabaseError

  datatype ExecutionWithActivity = ExecutionWithActivity(execution: Execution, activity: Activity)

  /** The two row filters of the worker's queries. */
  datatype Query = Upcoming(current: Instant) | Past(now: Instant)

  predicate Matches(q: Query, activities: map<ID, Activity>, e: Execution) {
    && Open(activities, e)
    && match q {
         case Upcoming(current) => e.scheduledDate > current
         case Past(now) => e.scheduledDate < now
       }
  }

  function Ids(found: seq<ExecutionWithActivity>): (ids: set<ID>)
    ensures forall i :: 0 <= i < |found| ==> found[i].execution.id in ids
  {
    if found == [] then {} else Ids(found[..|found| - 1]) + {found[|found| - 1].execution.id}
  }

  /** `found` holds the rows with these keys, each once, next to their activities. */
  ghost predicate Lists(found: seq<ExecutionWithActivity>, executions: map<ID, Execution>,
          activities: map<ID, Activity>, ids: set<ID>)
  {
    && Ids(found) == ids
    && (forall i :: 0 <= i < |found| ==> Belongs(found[i], executions, activities))
    && (forall i, j :: 0 <= i < j < |found| ==> found[i].execution.id != found[j].execution.id)
  }

  ghost predicate Belongs(row: ExecutionWithActivity, executions: map<ID, Execution>, activities: map<ID, Activity>) {
    && row.execution.id in executions
    && executions[row.execution.id] == row.execution
    && row.execution.activityId in activities
    && row.activity == activities[row.execution.activityId]
  }

  lemma {:induction false} IdsAreIndexed(found: seq<ExecutionWithActivity>, id: ID)
    ensures id in Ids(found) <==> exists i :: 0 <= i < |found| && found[i].execution.id == id
  {
    if found != [] {
      var init := found[..|found| - 1];
      IdsAreIndexed(init, id);
      if id in Ids(init) {
        var i :| 0 <= i < |init| && init[i].execution.id == id;
        assert found[i].execution.id == id;
      } else if found[|found| - 1].execution.id == id {
        assert id in Ids(found);
      } else {
        assert forall i :: 0 <= i < |init| ==> found[i] == init[i];
      }
    }
  }

  lemma ListsAppend(found: seq<ExecutionWithActivity>, row: ExecutionWithActivity, executions: map<ID, Execution>,
          activities: map<ID, Activity>, ids: set<ID>)
    requires Lists(found, executions, activities, ids)
    requires Belongs(row, executions, activities) && row.execution.id !in ids
    ensures Lists(found + [row], executions, activities, ids + {row.execution.id})
  {
    assert (found + [row])[..|found|] == found;
  }

  /** A row that comes later in a list is not among the rows before it. */
  lemma NotListedBefore(found: seq<ExecutionWithActivity>, executions: map<ID, Execution>,
          activities: map<ID, Activity>, ids: set<ID>, i: nat)
    requires Lists(found, executions, activities, ids) && i < |found|
    ensures found[i].execution.id !in Ids(found[..i])
    ensures Ids(found[..i + 1]) == Ids(found[..i]) + {found[i].execution.id}
  {
    IdsAreIndexed(found[..i], found[i].execution.id);
    assert found[..i + 1][..i] == found[..i];
  }

  lemma NoIds()
    ensures Ids([]) == {}
  {
  }

  // The keys among `keys` whose rows satisfy a filter.
  function MatchingIds(q: Query, activities: map<ID, Activity>, executions: map<ID, Execution>, keys: set<ID>): set<ID> {
    set id | id in keys && id in executions && Matches(q, activities, executions[id])
  }

  function DueIds(current: Instant, activities: map<ID, Activity>, executions: map<ID, Execution>,
          keys: set<ID>): set<ID>
  {
    set id | id in keys && id in executions && DueForNotification(activities, executions[id], current)
  }

  lemma MatchesJoined(q: Query, activities: map<ID, Activity>, e: Execution)
    requires Matches(q, activities, e)
    ensures e.activityId in activities
  {
  }

  lemma MatchingOneMore(q: Query, activities: map<ID, Activity>, executions: map<ID, Execution>, keys: set<ID>, id: ID)
    requires id in executions
    ensures MatchingIds(q, activities, executions, keys + {id})
         == MatchingIds(q, activities, executions, keys) + (if Matches(q, activities, executions[id]) then {id} else {})
  {
    hide Matches;
  }

  lemma DueOneMore(current: Instant, activities: map<ID, Activity>, executions: map<ID, Execution>, keys: set<ID>,
          id: ID)
    requires id in executions
    ensures DueIds(current, activities, executions, keys + {id})
         == DueIds(current, activities, executions, keys) + (if DueForNotification(activities, executions[id], current) then {id} else {})
  {
    hide DueForNotification;
  }

  /** The row is open and belongs to an activity that is active and not deleted, field by field. */
  ghost predicate OpenFields(activities: map<ID, Activity>, e: Execution) {
    && e.deletedAt == None && e.completedAt == None
    && e.activityId in activities
    && activities[e.activityId].isActive && activities[e.activityId].deletedAt == None
  }

  lemma DueInFields(current: Instant, activities: map<ID, Activity>, executions: map<ID, Execution>, id: ID)
    ensures id in DueIds(current, activities, executions, executions.Keys) <==>
            && id in executions && OpenFields(activities, executions[id])
            && executions[id].scheduledDate > current
            && DaysUntil(executions[id].scheduledDate, current) in activities[executions[id].activityId].notificationDaysBefore
  {
    hide DaysUntil;
  }

  lemma PastInFields(now: Instant, activities: map<ID, Activity>, executions: map<ID, Execution>, id: ID)
    ensures id in MatchingIds(Past(now), activities, executions, executions.Keys) <==>
            id in executions && OpenFields(activities, executions[id]) && executions[id].scheduledDate < now
  {
  }

  ghost predicate IsListed(found: seq<ExecutionWithActivity>, id: ID) {
    exists i :: 0 <= i < |found| && found[i].execution.id == id
  }

  /** The row after its completion, field by field: the values given replace or join the ones it had. */
  ghost predicate CompletedFields(before: Execution, after: Execution, person: string, values: Fields, now: Instant) {
    && after.completedAt == Some(now) && after.completedBy == Some(person) && after.overdueDays == 0
    && (forall k :: k in after.fieldValues <==> k in before.fieldValues || k in values)
    && (forall k :: k in values ==> after.fieldValues[k] == values[k])
    && (forall k :: k in before.fieldValues && k !in values ==> after.fieldValues[k] == before.fieldValues[k])
    && after.id == before.id && after.activityId == before.activityId && after.scheduledDate == before.scheduledDate
    && after.notificationDaysSent == before.notificationDaysSent && after.deletedAt == before.deletedAt
  }

  class ExecutionRepository {
    var activities: map<ID, Activity>
    var executions: map<ID, Execution>

    ghost predicate Valid()
      reads this
    {
      KeysMatch(executions, ExecutionId) && KeysMatch(activities, ActivityId)
    }

    method Create(e: Execution, ok: bool) returns (created: bool)
      requires Valid()
      modifies this`executions
      ensures Valid()
      ensures created <==> ok && e.id !in old(executions)
      ensures executions == if created then old(executions)[e.id := e] else old(executions)
    {
      created := ok && e.id !in executions;
      if created {
        executions := executions[e.id := e];
      }
    }

    /** Saves the full row under its key. */
    method Update(e: Execution, ok: bool)
      requires Valid()
      modifies this`executions
      ensures Valid()
      ensures executions == if ok then old(executions)[e.id := e] else old(executions)
    {
      if ok {
        executions := executions[e.id := e];
      }
    }

    method GetByID(id: ID, ok: bool) returns (r: Result<Execution, StoreError>)
      ensures r == if !ok then Err(DatabaseError)
                   else if id in executions then Ok(executions[id])
                   else Err(ExecutionNotFound)
    {
      if !ok {
        return Err(DatabaseError);
      }
      return if id in executions then Ok(executions[id]) else Err(ExecutionNotFound);
    }

    method FindByActivityAndScheduledDate(activityId: ID, date: Instant, ok: bool)
      returns (r: Result<Execution, StoreError>)
      ensures !ok ==> r == Err(DatabaseError)
      ensures ok && ExecutionExists(executions, activityId, date) ==> r.Ok? && LiveAt(r.value, activityId, date)
      ensures ok && !ExecutionExists(executions, activityId, date) ==> r == Err(ExecutionNotFound)
    {
      if !ok {
        return Err(DatabaseError);
      }
      var rest := executions.Keys;
      while rest != {}
        invariant rest <= executions.Keys
        invariant forall id :: id in executions && id !in rest ==> !LiveAt(executions[id], activityId, date)
        decreases |rest|
      {
        var id :| id in rest;
        if LiveAt(executions[id], activityId, date) {
          return Ok(executions[id]);
        }
        rest := rest - {id};
      }
      return Err(ExecutionNotFound);
    }

    method MarkCompleted(id: ID, person: string, values: Fields, now: Instant, readOk: bool, saveOk: bool)
      returns (r: Result<(), StoreError>)
      requires Valid()
      modifies this`executions
      ensures Valid()
      ensures r.Ok? <==> readOk && saveOk && id in old(executions)
      ensures executions == if r.Ok? then old(executions)[id := old(executions)[id].MarkCompleted(person, values, now)]
                            else old(executions)
    {
      var read := GetByID(id, readOk);
      if read.Err? {
        return Err(read.error);
      }
      Update(read.value.MarkCompleted(person, values, now), saveOk);
      return if saveOk then Ok(()) else Err(DatabaseError);
    }

    // The matching rows joined with their activities, in an order of the database's choosing.
    method Select(q: Query) returns (found: seq<ExecutionWithActivity>)
      requires Valid()
      ensures Lists(found, executions, activities, MatchingIds(q, activities, executions, executions.Keys))
    {
      hide Matches, Ids;
      found := [];
      var rest := executions.Keys;
      NoIds();
      assert executions.Keys - rest == {};
      assert MatchingIds(q, activities, executions, executions.Keys - rest) == {};
      while rest != {}
        invariant rest <= executions.Keys
        invariant Lists(found, executions, activities, MatchingIds(q, activities, executions, executions.Keys - rest))
        decreases |rest|
      {
        var id :| id in rest;
        ghost var before := executions.Keys - rest;
        assert executions.Keys - (rest - {id}) == before + {id};
        MatchingOneMore(q, activities, executions, before, id);
        if Matches(q, activities, executions[id]) {
          MatchesJoined(q, activities, executions[id]);
          var row := ExecutionWithActivity(executions[id], activities[executions[id].activityId]);
          ListsAppend(found, row, executions, activities, MatchingIds(q, activities, executions, before));
          found := found + [row];
        }
        rest := rest - {id};
      }
      assert executions.Keys - rest == executions.Keys;
    }

    method FindPendingExecutionsReadyForNotification(current: Instant, ok: bool)
      returns (r: Result<seq<ExecutionWithActivity>, StoreError>)
      requires Valid()
      ensures r.Ok? <==> ok
      ensures ok ==> Lists(r.value, executions, activities, DueIds(current, activities, executions, executions.Keys))
      ensures ok ==> forall id :: IsListed(r.value, id) <==>
                && id in executions && OpenFields(activities, executions[id])
                && executions[id].scheduledDate > current
                && DaysUntil(executions[id].scheduledDate, current)
                   in activities[executions[id].activityId].notificationDaysBefore
    {
      hide Ids, MaintenanceDomain.DaysUntil, MaintenanceDomain.Open;
      if !ok {
        return Err(DatabaseError);
      }
      var rows := Select(Upcoming(current));
      var due: seq<ExecutionWithActivity> := [];
      NoIds();
      for i := 0 to |rows|
        invariant Lists(due, executions, activities, DueIds(current, activities, executions, Ids(rows[..i])))
      {
        NotListedBefore(rows, executions, activities, Ids(rows), i);
        assert Belongs(rows[i], executions, activities);
        assert Matches(Upcoming(current), activities, rows[i].execution);
        DueOneMore(current, activities, executions, Ids(rows[..i]), rows[i].execution.id);
        var ready, _ := IsReadyForNotification(rows[i].activity, rows[i].execution.scheduledDate, current);
        if ready {
          ListsAppend(due, rows[i], executions, activities, DueIds(current, activities, executions, Ids(rows[..i])));
          due := due + [rows[i]];
        }
      }
      assert rows[..|rows|] == rows;
      assert DueIds(current, activities, executions, Ids(rows)) == DueIds(current, activities, executions, executions.Keys);
      forall id
        ensures IsListed(due, id) <==> id in DueIds(current, activities, executions, executions.Keys)
      {
        IdsAreIndexed(due, id);
      }
      forall id
        ensures id in DueIds(current, activities, executions, executions.Keys) <==>
                && id in executions && OpenFields(activities, executions[id])
                && executions[id].scheduledDate > current
                && DaysUntil(executions[id].scheduledDate, current)
                   in activities[executions[id].activityId].notificationDaysBefore
      {
        DueInFields(current, activities, executions, id);
      }
      return Ok(due);
    }

    method FindOverdueExecutions(now: Instant, ok: bool) returns (r: Result<seq<ExecutionWithActivity>, StoreError>)
      requires Valid()
      ensures r.Ok? <==> ok
      ensures ok ==> Lists(r.value, executions, activities, MatchingIds(Past(now), activities, executions, executions.Keys))
      ensures ok ==> forall id :: IsListed(r.value, id) <==>
                id in executions && OpenFields(activities, executions[id]) && executions[id].scheduledDate < now
    {
      if !ok {
        return Err(DatabaseError);
      }
      hide Ids, Matches;
      var rows := Select(Past(now));
      forall id
        ensures IsListed(rows, id) <==>
                id in executions && OpenFields(activities, executions[id]) && executions[id].scheduledDate < now
      {
        IdsAreIndexed(rows, id);
        PastInFields(now, activities, executions, id);
      }
      return Ok(rows);
    }
  }

  class ExecutionService {
    const repository: ExecutionRepository

    constructor (repository: ExecutionRepository)
      ensures this.repository == repository
    {
      this.repository := repository;
    }

    method CreateExecution(e: Execution, activityOk: bool, insertOk: bool) returns (created: bool)
      requires repository.Valid()
      modifies repository`executions
      ensures repository.Valid()
      ensures created <==> activityOk && insertOk && e.activityId in repository.activities && e.id !in old(repository.executions)
      ensures repository.executions == if created then old(repository.executions)[e.id := e] else old(repository.executions)
    {
      if !activityOk || e.activityId !in repository.activities {
        return false;
      }
      created := repository.Create(e, insertOk);
    }

    /** A creation request, for an activity and a date of the caller's choice. */
    method RequestExecution(id: ID, activityId: ID, date: Instant, values: Fields, activityOk: bool, insertOk: bool)
      returns (created: bool)
      requires repository.Valid()
      modifies repository`executions
      ensures repository.Valid()
      ensures created <==>
              && activityId != "" && date != 0 && activityOk && activityId in repository.activities
              && insertOk && id !in old(repository.executions)
      ensures repository.executions ==
              if created then old(repository.executions)[id := Execution(id, activityId, date, None, None, 0, values, [], None)]
              else old(repository.executions)
    {
      var built := BuildExecution(id, activityId, date, values);
      if built.None? {
        return false;
      }
      created := CreateExecution(built.value, activityOk, insertOk);
    }

    method MarkExecutionCompleted(id: ID, person: string, values: Fields, now: Instant, readOk: bool, rereadOk: bool,
            saveOk: bool)
      returns (r: Result<(), CompletionError>)
      requires repository.Valid()
      modifies repository`executions
      ensures repository.Valid()
      ensures var guard := CompletionGuard(old(repository.executions), id, now);
              r == if !readOk then Err(StoreFailed)
                   else if guard.Some? then Err(guard.value)
                   else if rereadOk && saveOk then Ok(()) else Err(StoreFailed)
      ensures r.Ok? <==> Completes(old(repository.executions), id, now, readOk, rereadOk, saveOk)
      ensures readOk ==> (r == Err(NotFound) <==> id !in old(repository.executions))
      ensures readOk && id in old(repository.executions) ==>
                var e := old(repository.executions)[id];
                && (r == Err(Deleted) <==> e.deletedAt.Some?)
                && (r == Err(AlreadyCompleted) <==> e.deletedAt.None? && e.completedAt.Some?)
                && (r == Err(ScheduledInFuture) <==> e.deletedAt.None? && e.completedAt.None? && now < e.scheduledDate)
      ensures r.Ok? ==>
                && id in old(repository.executions) && id in repository.executions
                && CompletedFields(old(repository.executions)[id], repository.executions[id], person, values, now)
      ensures repository.executions ==
              if r.Ok? then old(repository.executions)[id := old(repository.executions)[id].MarkCompleted(person, values, now)]
              else old(repository.executions)
    {
      var read := repository.GetByID(id, readOk);
      if read.Err? {
        return Err(if read.error.ExecutionNotFound? then NotFound else StoreFailed);
      }
      var e := read.value;
      if e.IsDeleted() {
        return Err(Deleted);
      }
      if e.IsCompleted() {
        return Err(AlreadyCompleted);
      }
      if e.IsScheduledInTheFuture(now) {
        return Err(ScheduledInFuture);
      }
      var marked := repository.MarkCompleted(id, person, values, now, rereadOk, saveOk);
      return if marked.Ok? then Ok(()) else Err(StoreFailed);
    }
  }
}
