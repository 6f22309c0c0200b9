/** Maintenance activities, their executions, and what one row does in one worker step. */
module MaintenanceDomain {
  import opened Calendar
  import opened Outcomes
  import opened Collections
  import opened Recurrence

  type Fields = map<string, string>

  /** `defaultValues` holds the default of every field of the activity that has one. */
  datatype Activity = Activity(
    id: ID,
    schedule: Schedule,
    notificationDaysBefore: seq<int>,
    defaultValues: Fields,
    isActive: bool,
    deletedAt: Option<Instant>)

  datatype Execution = Execution(
    id: ID,
    activityId: ID,
    scheduledDate: Instant,
    completedAt: Option<Instant>,
    completedBy: Option<string>,
    overdueDays: int,
    fieldValues: Fields,
    notificationDaysSent: seq<int>,
    deletedAt: Option<Instant>)
  {
    predicate IsDeleted() { deletedAt.Some? }

    predicate IsCompleted() { completedAt.Some? }

    predicate IsScheduledInTheFuture(asOf: Instant) { scheduledDate > asOf }

    predicate HasNotificationDaySent(day: int) { day in notificationDaysSent }

    function MarkNotificationDaySent(day: int): Execution {
      if HasNotificationDaySent(day) then this
      else this.(notificationDaysSent := notificationDaysSent + [day])
    }

    function SoftDelete(now: Instant): (e: Execution)
      ensures e.IsDeleted() && e == this.(deletedAt := e.deletedAt)
    {
      this.(deletedAt := Some(now))
    }

    function MarkCompleted(person: string, values: Fields, now: Instant): Execution {
      this.(completedAt := Some(now), completedBy := Some(person), overdueDays := 0, fieldValues := fieldValues + values)
    }

    function CalculateOverdueDays(current: Instant): (days: int)
      ensures days >= 0
    {
      if IsCompleted() || current <= scheduledDate then 0 else WholeDays(Sub(current, scheduledDate))
    }
  }

  function ActivityId(a: Activity): ID { a.id }

  function ExecutionId(e: Execution): ID { e.id }

  const MAX_DURATION := 0x7fff_ffff_ffff_ffff

  /** `Time.Sub`: a difference that does not fit a 64-bit duration saturates. */
  function Sub(a: Instant, b: Instant): (d: int)
    ensures a >= b ==> 0 <= d <= a - b
    ensures a <= b ==> a - b <= d <= 0
  {
    if a - b > MAX_DURATION then MAX_DURATION
    else if a - b < -MAX_DURATION - 1 then -MAX_DURATION - 1
    else a - b
  }

  /** Hours divided by 24, truncated towards zero. */
  function WholeDays(d: int): (days: int)
    ensures d >= 0 ==> days >= 0
  {
    if d >= 0 then d / NANOS_PER_DAY else -((-d) / NANOS_PER_DAY)
  }

  function DaysUntil(scheduled: Instant, current: Instant): int {
    WholeDays(Sub(scheduled, current))
  }

  /** The count of whole days left, in nanoseconds: truncated towards zero, and at most 106751 days. */
  lemma DaysUntilBracket(scheduled: Instant, current: Instant)
    ensures 0 <= scheduled - current <= MAX_DURATION ==>
              && DaysUntil(scheduled, current) * 86_400_000_000_000 <= scheduled - current
              && scheduled - current < (DaysUntil(scheduled, current) + 1) * 86_400_000_000_000
    ensures scheduled - current > MAX_DURATION ==> DaysUntil(scheduled, current) == 106_751
    ensures scheduled - current < -MAX_DURATION ==> DaysUntil(scheduled, current) == -106_751
    ensures -MAX_DURATION <= scheduled - current <= MAX_DURATION ==>
              DaysUntil(scheduled, current) == -DaysUntil(current, scheduled)
  {
  }

  /** The days an execution is overdue: the whole days since its date while it is not completed, and otherwise 0. */
  lemma OverdueBracket(e: Execution, current: Instant)
    ensures e.completedAt.Some? || current <= e.scheduledDate ==> e.CalculateOverdueDays(current) == 0
    ensures e.completedAt.None? && 0 < current - e.scheduledDate <= MAX_DURATION ==>
              && e.CalculateOverdueDays(current) * 86_400_000_000_000 <= current - e.scheduledDate
              && current - e.scheduledDate < (e.CalculateOverdueDays(current) + 1) * 86_400_000_000_000
    ensures e.completedAt.None? && current - e.scheduledDate > MAX_DURATION ==> e.CalculateOverdueDays(current) == 106_751
  {
    DaysUntilBracket(current, e.scheduledDate);
  }

  /** At most a day later, the count of whole days left is at most one lower. */
  lemma DaysUntilSteps(scheduled: Instant, earlier: Instant, later: Instant)
    requires earlier <= later <= earlier + NANOS_PER_DAY
    requires later <= scheduled
    ensures DaysUntil(scheduled, earlier) - 1 <= DaysUntil(scheduled, later) <= DaysUntil(scheduled, earlier)
  {
    var a, b := Sub(scheduled, earlier), Sub(scheduled, later);
    assert b <= a <= b + NANOS_PER_DAY;
  }

  /** The search of an activity for a configured day that is due. */
  method IsReadyForNotification(activity: Activity, scheduled: Instant, current: Instant)
    returns (ready: bool, day: int)
    ensures ready <==> DaysUntil(scheduled, current) in activity.notificationDaysBefore
    ensures day == if ready then DaysUntil(scheduled, current) else 0
  {
    var daysUntil := DaysUntil(scheduled, current);
    for i := 0 to |activity.notificationDaysBefore|
      invariant daysUntil !in activity.notificationDaysBefore[..i]
    {
      if daysUntil == activity.notificationDaysBefore[i] {
        return true, daysUntil;
      }
    }
    return false, 0;
  }

  // ---- Events ----

  datatype Event =
    | Created(activityId: ID, scheduledDate: Instant)
    | CreationFailed(activityId: ID)
    | ReadyForNotification(executionId: ID, activityId: ID, daysBefore: int)
    | OverdueBy(executionId: ID, activityId: ID, overdueDays: int)

  predicate Concerns(e: Event, id: ID) {
    (e.ReadyForNotification? || e.OverdueBy?) && e.executionId == id
  }

  // The notification and overdue events of one execution, in order.
  function EventsOf(log: seq<Event>, id: ID): seq<Event> {
    if log == [] then []
    else EventsOf(log[..|log| - 1], id) + (if Concerns(log[|log| - 1], id) then [log[|log| - 1]] else [])
  }

  lemma {:induction false} EventsOfConcat(a: seq<Event>, b: seq<Event>, id: ID)
    ensures EventsOf(a + b, id) == EventsOf(a, id) + EventsOf(b, id)
    decreases |b|
  {
    if b == [] {
      assert a + b == a;
    } else {
      var init := b[..|b| - 1];
      assert (a + b)[..|a + b| - 1] == a + init;
      EventsOfConcat(a, init, id);
    }
  }

  lemma EventsOfAppend(log: seq<Event>, e: Event, id: ID)
    ensures EventsOf(log + [e], id) == EventsOf(log, id) + (if Concerns(e, id) then [e] else [])
  {
    assert (log + [e])[..|log|] == log;
  }

  // ---- One row in one step ----

  /** The row condition the two finders share: open, of an activity that is active and not deleted. */
  predicate Open(activities: map<ID, Activity>, e: Execution) {
    && !e.IsDeleted() && !e.IsCompleted()
    && e.activityId in activities
    && activities[e.activityId].deletedAt.None?
    && activities[e.activityId].isActive
  }

  predicate DueForNotification(activities: map<ID, Activity>, e: Execution, current: Instant) {
    && Open(activities, e)
    && e.scheduledDate > current
    && DaysUntil(e.scheduledDate, current) in activities[e.activityId].notificationDaysBefore
  }

  /** The two checks of a tick. The overdue query reads its own clock, `queried`. */
  datatype Check = Notification(current: Instant) | Overdue(queried: Instant, current: Instant)

  /** Whether the check finds the row and has news about it. */
  predicate Acts(check: Check, activities: map<ID, Activity>, e: Execution) {
    match check
    case Notification(current) =>
      DueForNotification(activities, e, current) && !e.HasNotificationDaySent(DaysUntil(e.scheduledDate, current))
    case Overdue(queried, current) =>
      Open(activities, e) && e.scheduledDate < queried && e.CalculateOverdueDays(current) > e.overdueDays
  }

  function Changed(check: Check, e: Execution): Execution {
    match check
    case Notification(current) => e.MarkNotificationDaySent(DaysUntil(e.scheduledDate, current))
    case Overdue(_, current) => e.(overdueDays := e.CalculateOverdueDays(current))
  }

  function Announcement(check: Check, e: Execution): Event {
    match check
    case Notification(current) => ReadyForNotification(e.id, e.activityId, DaysUntil(e.scheduledDate, current))
    case Overdue(_, current) => OverdueBy(e.id, e.activityId, e.CalculateOverdueDays(current))
  }

  function RowAfter(check: Check, activities: map<ID, Activity>, e: Execution, saved: bool): Execution {
    if saved && Acts(check, activities, e) then Changed(check, e) else e
  }

  // What is published about a row; `told` says that its save and its publication succeed.
  function RowEvents(check: Check, activities: map<ID, Activity>, e: Execution, told: bool): seq<Event> {
    if told && Acts(check, activities, e) then [Announcement(check, e)] else []
  }

  // The table after a check whose saves succeed for the keys in `saved`.
  function TableAfter(check: Check, activities: map<ID, Activity>, rows: map<ID, Execution>,
          saved: set<ID>): map<ID, Execution>
  {
    map id | id in rows :: RowAfter(check, activities, rows[id], id in saved)
  }

  /** The log has gained the events of the rows in `told`, in whatever order the rows came. */
  ghost predicate Announced(check: Check, activities: map<ID, Activity>, rows: map<ID, Execution>, told: set<ID>,
          before: seq<Event>, after: seq<Event>)
  {
    forall id :: EventsOf(after, id) == EventsOf(before, id) + NewEvents(check, activities, rows, told, id)
  }

  function NewEvents(check: Check, activities: map<ID, Activity>, rows: map<ID, Execution>, told: set<ID>,
          id: ID): seq<Event>
  {
    if id in rows then RowEvents(check, activities, rows[id], id in told) else []
  }

  /** Saving one more row of a check changes that row and nothing else. */
  lemma SaveOne(check: Check, activities: map<ID, Activity>, rows: map<ID, Execution>, saved: set<ID>, id: ID)
    requires id in rows && id !in saved
    ensures id in TableAfter(check, activities, rows, saved) && TableAfter(check, activities, rows, saved)[id] == rows[id]
    ensures TableAfter(check, activities, rows, saved)[id := rows[id]] == TableAfter(check, activities, rows, saved)
    ensures TableAfter(check, activities, rows, saved + {id})
         == TableAfter(check, activities, rows, saved)[id := RowAfter(check, activities, rows[id], true)]
  {
    hide Acts, Changed;
  }

  /** Publishing about one more row adds that row's events and nothing else. */
  lemma TellOne(check: Check, activities: map<ID, Activity>, rows: map<ID, Execution>, told: set<ID>, id: ID,
          before: seq<Event>, log: seq<Event>)
    requires KeysMatch(rows, ExecutionId) && id in rows && id !in told
    requires Announced(check, activities, rows, told, before, log)
    ensures Announced(check, activities, rows, told + {id}, before, log + RowEvents(check, activities, rows[id], true))
  {
    hide Acts, Changed, EventsOf;
    var news := RowEvents(check, activities, rows[id], true);
    forall k
      ensures EventsOf(log + news, k) == EventsOf(before, k) + NewEvents(check, activities, rows, told + {id}, k)
    {
      if news != [] {
        EventsOfAppend(log, news[0], k);
        assert news == [news[0]];
      } else {
        assert log + news == log;
      }
      assert NewEvents(check, activities, rows, told + {id}, k) ==
        if k == id then news else NewEvents(check, activities, rows, told, k);
      if k == id {
        assert NewEvents(check, activities, rows, told, k) == [];
      }
    }
  }

  /** Only the rows a check acts on matter for which calls succeed. */
  lemma CheckSame(check: Check, activities: map<ID, Activity>, rows: map<ID, Execution>, a: set<ID>, b: set<ID>)
    requires forall id :: id in rows && Acts(check, activities, rows[id]) ==> (id in a <==> id in b)
    ensures TableAfter(check, activities, rows, a) == TableAfter(check, activities, rows, b)
    ensures forall id :: NewEvents(check, activities, rows, a, id) == NewEvents(check, activities, rows, b, id)
  {
    hide Acts, Changed;
  }

  /** What a whole check does to the tables and the log; the rows come in any order. The saves fail for
      the rows in `failing`; news that was saved is not published for those in `unpublished`, and there is
      no second attempt. */
  ghost predicate CheckDone(check: Check, activities: map<ID, Activity>, rows: map<ID, Execution>, findOk: bool,
          failing: set<ID>, unpublished: set<ID>, before: seq<Event>, rows': map<ID, Execution>, after: seq<Event>)
  {
    var saved := if findOk then rows.Keys - failing else {};
    && rows' == TableAfter(check, activities, rows, saved)
    && Announced(check, activities, rows, saved - unpublished, before, after)
  }

  // ---- Materialising occurrences ----

  predicate LiveAt(e: Execution, activityId: ID, date: Instant) {
    e.activityId == activityId && e.scheduledDate == date && !e.IsDeleted()
  }

  predicate ExecutionExists(executions: map<ID, Execution>, activityId: ID, date: Instant) {
    exists id :: id in executions && LiveAt(executions[id], activityId, date)
  }

  /** What the environment decides for one of the three creations of a pass: whether the look-up,
      the read of the activity, the insert and the publication succeed, and the generated identifier. */
  datatype Attempt = Attempt(lookupOk: bool, activityOk: bool, insertOk: bool, publishOk: bool, id: ID)

  datatype Tables = Tables(executions: map<ID, Execution>, log: seq<Event>)

  /** The execution builder: it refuses an empty activity ID and the zero time. */
  function BuildExecution(id: ID, activityId: ID, date: Instant, values: Fields): Option<Execution> {
    if activityId == "" || date == 0 then None
    else Some(NewExecution(id, activityId, date, values))
  }

  function NewExecution(id: ID, activityId: ID, date: Instant, values: Fields): Execution {
    Execution(id, activityId, date, None, None, 0, values, [], None)
  }

  /** Whether the service stores a new execution: the builder accepts it, the activity exists, and the
      primary key is new. It does not look for an execution of that activity and date. */
  predicate CanCreate(activities: map<ID, Activity>, executions: map<ID, Execution>, id: ID, activityId: ID,
          date: Instant, activityOk: bool, insertOk: bool)
  {
    && activityId != "" && date != 0
    && activityOk && activityId in activities
    && insertOk && id !in executions
  }

  function Published(log: seq<Event>, e: Event, publishOk: bool): seq<Event> {
    if publishOk then log + [e] else log
  }

  function CreateStep(activities: map<ID, Activity>, t: Tables, activity: Activity, date: Instant,
          attempt: Attempt): Tables
  {
    var failed := t.(log := Published(t.log, CreationFailed(activity.id), attempt.publishOk));
    if !attempt.lookupOk then failed
    else if ExecutionExists(t.executions, activity.id, date) then t
    else if !CanCreate(activities, t.executions, attempt.id, activity.id, date, attempt.activityOk, attempt.insertOk) then failed
    else Tables(t.executions[attempt.id := NewExecution(attempt.id, activity.id, date, activity.defaultValues)],
                Published(t.log, Created(activity.id, date), attempt.publishOk))
  }

  /** One creation per attempt, each at the next occurrence after the one before. */
  function CreateSteps(activities: map<ID, Activity>, t: Tables, activity: Activity, last: Instant,
          attempts: seq<Attempt>): Tables
    requires Valid(activity.schedule)
    decreases |attempts|
  {
    if attempts == [] then t
    else
      var next := NextOccurrence(activity.schedule, last);
      CreateSteps(activities, CreateStep(activities, t, activity, next, attempts[0]), activity, next, attempts[1..])
  }

  const NEXT_EXECUTIONS_COUNT := 3

  /** The scheduling of one activity; `activity` is the row as the pass read it. `publishOk` is the outcome
      of publishing that the pass could not begin. */
  function Pass(activities: map<ID, Activity>, t: Tables, activity: Activity, tenantOk: bool, publishOk: bool,
          now: Instant, attempts: seq<Attempt>): Tables
  {
    if !tenantOk || !Valid(activity.schedule)
    then t.(log := Published(t.log, CreationFailed(activity.id), publishOk))
    else CreateSteps(activities, t, activity, now, attempts)
  }

  // ---- Completion ----

  datatype CompletionError = NotFound | Deleted | AlreadyCompleted | ScheduledInFuture | StoreFailed

  /** The guards of the completion request, in the order the service checks them. */
  function CompletionGuard(executions: map<ID, Execution>, id: ID, now: Instant): Option<CompletionError> {
    if id !in executions then Some(NotFound)
    else if executions[id].IsDeleted() then Some(Deleted)
    else if executions[id].IsCompleted() then Some(AlreadyCompleted)
    else if executions[id].IsScheduledInTheFuture(now) then Some(ScheduledInFuture)
    else None
  }

  // Whether a completion request goes through, given the outcome of its three database calls.
  predicate Completes(executions: map<ID, Execution>, id: ID, now: Instant, readOk: bool, rereadOk: bool, saveOk: bool)
    ensures Completes(executions, id, now, readOk, rereadOk, saveOk) ==> id in executions
  {
    readOk && CompletionGuard(executions, id, now).None? && rereadOk && saveOk
  }
}
