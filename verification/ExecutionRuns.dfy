/** Whole runs of the maintenance side: any serial sequence of scheduling passes, checks, creation and
    completion requests, deletions and activity changes, with any store and broker failures. */
module ExecutionRuns {
  import opened Calendar
  import opened Outcomes
  import opened Collections
  import opened Recurrence
  import opened MaintenanceDomain

  datatype World = World(activities: map<ID, Activity>, executions: map<ID, Execution>, log: seq<Event>)

  datatype Op =
    | SchedulePass(activity: Activity, tenantOk: bool, publishOk: bool, now: Instant, attempts: seq<Attempt>)
    | RunCheck(check: Check, findOk: bool, failing: set<ID>, unpublished: set<ID>)
    | Request(newId: ID, activityId: ID, date: Instant, fields: Fields, activityOk: bool, insertOk: bool)
    | Complete(id: ID, person: string, values: Fields, at: Instant, readOk: bool, rereadOk: bool, saveOk: bool)
    | DeleteExecution(id: ID, at: Instant)
    | StoreActivity(stored: Activity)

  ghost predicate Step(w: World, w': World, op: Op) {
    match op
    case SchedulePass(activity, tenantOk, publishOk, now, attempts) =>
      && |attempts| == NEXT_EXECUTIONS_COUNT
      && w'.activities == w.activities
      && Tables(w'.executions, w'.log)
      == Pass(w.activities, Tables(w.executions, w.log), activity, tenantOk, publishOk, now, attempts)
    case RunCheck(check, findOk, failing, unpublished) =>
      && w'.activities == w.activities
      && CheckDone(check, w.activities, w.executions, findOk, failing, unpublished, w.log, w'.executions, w'.log)
    case Request(id, activityId, date, fields, activityOk, insertOk) =>
      w' == if CanCreate(w.activities, w.executions, id, activityId, date, activityOk, insertOk)
            then w.(executions := w.executions[id := NewExecution(id, activityId, date, fields)])
            else w
    case Complete(id, person, values, at, readOk, rereadOk, saveOk) =>
      w' == if Completes(w.executions, id, at, readOk, rereadOk, saveOk)
            then w.(executions := w.executions[id := w.executions[id].MarkCompleted(person, values, at)])
            else w
    case DeleteExecution(id, at) =>
      w' == if id in w.executions then w.(executions := w.executions[id := w.executions[id].SoftDelete(at)]) else w
    case StoreActivity(stored) =>
      w' == w.(activities := w.activities[stored.id := stored])
  }

  ghost predicate Run(ws: seq<World>, ops: seq<Op>) {
    && |ws| == |ops| + 1
    && ws[0].executions == map[] && ws[0].log == []
    && forall i :: 0 <= i < |ops| ==> Step(ws[i], ws[i + 1], ops[i])
  }

  // ---- What one step does to the rows ----

  predicate SameLiveDate(a: Execution, b: Execution) {
    && !a.IsDeleted() && !b.IsDeleted()
    && a.activityId == b.activityId
    && a.scheduledDate == b.scheduledDate
  }

  /** No other live row has the activity and date of this one. */
  ghost predicate NoTwin(executions: map<ID, Execution>, id: ID)
    requires id in executions
  {
    forall other :: other in executions && other != id ==> !SameLiveDate(executions[other], executions[id])
  }

  ghost predicate IsNew(e: Execution, id: ID, activity: Activity) {
    && e == Execution(id, activity.id, e.scheduledDate, None, None, 0, activity.defaultValues, [], None)
    && IsOccurrence(activity.schedule, e.scheduledDate)
    && e.scheduledDate != 0 && activity.id != ""
  }

  // What a creation changes: nothing, or one new live row at a date that had none.
  lemma CreateStepCases(activities: map<ID, Activity>, t: Tables, activity: Activity, date: Instant, attempt: Attempt)
    ensures var t' := CreateStep(activities, t, activity, date, attempt);
            || t'.executions == t.executions
            || (&& attempt.id !in t.executions
                && !ExecutionExists(t.executions, activity.id, date)
                && date != 0 && activity.id != ""
                && t'.executions
                == t.executions[attempt.id := NewExecution(attempt.id, activity.id, date, activity.defaultValues)])
  {
  }

  // A new row at a date that had none is no twin of an old row, nor of a row that had no twin.
  lemma NewRowHasNoTwin(executions: map<ID, Execution>, id: ID, activity: Activity, date: Instant)
    requires id !in executions && !ExecutionExists(executions, activity.id, date)
    ensures var after := executions[id := NewExecution(id, activity.id, date, activity.defaultValues)];
            && NoTwin(after, id)
            && forall k :: k in executions && NoTwin(executions, k) ==> NoTwin(after, k)
  {
  }

  lemma {:induction false} CreateStepsKeep(activities: map<ID, Activity>, t: Tables, activity: Activity,
          last: Instant, attempts: seq<Attempt>)
    requires Valid(activity.schedule)
    ensures var t' := CreateSteps(activities, t, activity, last, attempts);
            && (forall id :: id in t.executions ==> id in t'.executions && t'.executions[id] == t.executions[id])
            && (forall id :: id in t'.executions && id !in t.executions ==> IsNew(t'.executions[id], id, activity))
            && (forall id :: id in t'.executions && (id !in t.executions || NoTwin(t.executions, id)) ==> NoTwin(t'.executions, id))
            && (forall id :: EventsOf(t'.log, id) == EventsOf(t.log, id))
    decreases |attempts|
  {
    hide IsOccurrence, NoTwin, EventsOf, CreateStep, ExecutionExists, NextOccurrence;
    if attempts != [] {
      var next := NextOccurrence(activity.schedule, last);
      var t1 := CreateStep(activities, t, activity, next, attempts[0]);
      CreateStepCases(activities, t, activity, next, attempts[0]);
      if t1.executions != t.executions {
        NewRowHasNoTwin(t.executions, attempts[0].id, activity, next);
      }
      CreationsConcernNoExecution(activities, t, activity, next, attempts[0]);
      CreateStepsKeep(activities, t1, activity, next, attempts[1..]);
    }
  }

  // What one creation publishes: that a row was stored, that none could be, or nothing if there was one.
  lemma CreationNews(activities: map<ID, Activity>, t: Tables, activity: Activity, date: Instant, attempt: Attempt)
    ensures var t' := CreateStep(activities, t, activity, date, attempt);
            t'.log == t.log + if !attempt.publishOk then []
                              else if t'.executions != t.executions then [Created(activity.id, date)]
                              else if attempt.lookupOk && ExecutionExists(t.executions, activity.id, date) then []
                              else [CreationFailed(activity.id)]
  {
    assert t.log + [] == t.log;
  }

  lemma CreationsConcernNoExecution(activities: map<ID, Activity>, t: Tables, activity: Activity, date: Instant,
          attempt: Attempt)
    ensures forall id :: EventsOf(CreateStep(activities, t, activity, date, attempt).log, id) == EventsOf(t.log, id)
  {
    CreationNews(activities, t, activity, date, attempt);
    hide CreateStep, EventsOf, ExecutionExists;
    assert t.log + [] == t.log;
    forall id
      ensures EventsOf(CreateStep(activities, t, activity, date, attempt).log, id) == EventsOf(t.log, id)
    {
      EventsOfAppend(t.log, CreationFailed(activity.id), id);
      EventsOfAppend(t.log, Created(activity.id, date), id);
    }
  }

  /** In every state, whatever fails, a pass only adds rows, at occurrences of its schedule, none of which
      has a live twin, and touches nothing else. */
  lemma PassAddsNoTwin(w: World, w': World, op: Op)
    requires Step(w, w', op) && op.SchedulePass?
    ensures forall id :: id in w.executions ==> id in w'.executions && w'.executions[id] == w.executions[id]
    ensures forall id :: id in w'.executions && id !in w.executions ==>
              IsNew(w'.executions[id], id, op.activity) && NoTwin(w'.executions, id)
    ensures forall id :: id in w.executions && NoTwin(w.executions, id) ==> NoTwin(w'.executions, id)
    ensures forall id :: EventsOf(w'.log, id) == EventsOf(w.log, id)
  {
    hide IsOccurrence, EventsOf, NoTwin;
    if op.tenantOk && Valid(op.activity.schedule) {
      CreateStepsKeep(w.activities, Tables(w.executions, w.log), op.activity, op.now, op.attempts);
    } else {
      forall id
        ensures EventsOf(w'.log, id) == EventsOf(w.log, id)
      {
        EventsOfAppend(w.log, CreationFailed(op.activity.id), id);
      }
    }
  }

  lemma {:induction false} CreateStepsAnnounce(activities: map<ID, Activity>, t: Tables, activity: Activity,
          last: Instant, attempts: seq<Attempt>)
    requires Valid(activity.schedule)
    ensures var t' := CreateSteps(activities, t, activity, last, attempts);
            && t.log <= t'.log
            && (forall id :: id in t.executions ==> id in t'.executions && t'.executions[id] == t.executions[id])
            && (forall e :: e in t'.log[|t.log|..] ==> e == CreationFailed(activity.id) || TellsBirth(t.executions, t'.executions, activity.id, e))
            && ((forall i :: 0 <= i < |attempts| ==> attempts[i].publishOk) ==>
                  forall id :: id in t'.executions && id !in t.executions ==>
                    Created(activity.id, t'.executions[id].scheduledDate) in t'.log[|t.log|..])
    decreases |attempts|
  {
    hide CreateStep, ExecutionExists, NextOccurrence, IsOccurrence, NoTwin, Valid;
    if attempts != [] {
      var next := NextOccurrence(activity.schedule, last);
      var t1 := CreateStep(activities, t, activity, next, attempts[0]);
      CreateStepCases(activities, t, activity, next, attempts[0]);
      CreationNews(activities, t, activity, next, attempts[0]);
      CreateStepsAnnounce(activities, t1, activity, next, attempts[1..]);
      var t' := CreateSteps(activities, t1, activity, next, attempts[1..]);
      var first := t1.log[|t.log|..];
      assert t'.log[|t.log|..] == first + t'.log[|t1.log|..];
      assert Created(activity.id, next) in first ==> TellsBirth(t.executions, t'.executions, activity.id, Created(activity.id, next)) by {
        if Created(activity.id, next) in first {
          assert t1.executions[attempts[0].id].scheduledDate == next;
          assert attempts[0].id in t'.executions;
        }
      }
    }
  }

  // The event tells that a new execution of the activity was stored, and for what date.
  ghost predicate TellsBirth(before: map<ID, Execution>, after: map<ID, Execution>, activityId: ID, e: Event) {
    exists id :: id in after && id !in before && e == Created(activityId, after[id].scheduledDate)
  }

  /** A pass publishes a creation only for a row it stored, with the date of that row, and for every such row
      if publishing succeeds; it publishes nothing else but that a creation failed. */
  lemma PassAnnounces(w: World, w': World, op: Op)
    requires Step(w, w', op) && op.SchedulePass?
    ensures w.log <= w'.log
    ensures forall e :: e in w'.log[|w.log|..] ==>
              e == CreationFailed(op.activity.id) || TellsBirth(w.executions, w'.executions, op.activity.id, e)
    ensures (forall i :: 0 <= i < |op.attempts| ==> op.attempts[i].publishOk) ==>
              forall id :: id in w'.executions && id !in w.executions ==>
                Created(op.activity.id, w'.executions[id].scheduledDate) in w'.log[|w.log|..]
    ensures op.publishOk && (!op.tenantOk || !Valid(op.activity.schedule)) ==>
              w'.log == w.log + [CreationFailed(op.activity.id)]
  {
    if op.tenantOk && Valid(op.activity.schedule) {
      CreateStepsAnnounce(w.activities, Tables(w.executions, w.log), op.activity, op.now, op.attempts);
    }
  }

  // Whether a step stores the execution it was asked for.
  predicate Grants(w: World, op: Op) {
    op.Request? && CanCreate(w.activities, w.executions, op.newId, op.activityId, op.date, op.activityOk, op.insertOk)
  }

  // Whether a check saves what it changes in a row, and whether it then publishes it.
  predicate Saves(op: Op, id: ID)
    requires op.RunCheck?
  {
    op.findOk && id !in op.failing
  }

  predicate Tells(op: Op, id: ID)
    requires op.RunCheck?
  {
    Saves(op, id) && id !in op.unpublished
  }

  /** One execution's view of a step that is not a pass: the row's part of a check, or a request
      that leaves the log alone. */
  lemma RowView(w: World, w': World, op: Op, id: ID)
    requires Step(w, w', op) && !op.SchedulePass?
    ensures id in w'.executions <==> id in w.executions || (Grants(w, op) && id == op.newId)
    ensures id !in w.executions ==> EventsOf(w'.log, id) == EventsOf(w.log, id)
    ensures id !in w.executions && id in w'.executions ==>
              w'.executions[id] == NewExecution(id, op.activityId, op.date, op.fields)
    ensures id in w.executions && op.RunCheck? ==>
              && w'.executions[id] == RowAfter(op.check, w.activities, w.executions[id], Saves(op, id))
              && EventsOf(w'.log, id)
              == EventsOf(w.log, id) + RowEvents(op.check, w.activities, w.executions[id], Tells(op, id))
    ensures !op.RunCheck? ==> w'.log == w.log
    ensures id in w.executions && !op.RunCheck? ==>
              || w'.executions[id] == w.executions[id]
              || (op.Complete? && !w.executions[id].IsCompleted()
                  && w'.executions[id] == w.executions[id].MarkCompleted(op.person, op.values, op.at))
              || (op.DeleteExecution? && w'.executions[id] == w.executions[id].SoftDelete(op.at))
  {
    hide EventsOf, Acts, Changed, Announcement;
    if op.RunCheck? {
      var keys := if op.findOk then w.executions.Keys - op.failing else {};
      assert EventsOf(w'.log, id)
          == EventsOf(w.log, id) + NewEvents(op.check, w.activities, w.executions, keys - op.unpublished, id);
      assert EventsOf(w.log, id) + [] == EventsOf(w.log, id);
    }
  }

  /** A row keeps its key, activity and date, and stays deleted once it is. */
  predicate Identified(e: Execution, e': Execution) {
    && e'.id == e.id && e'.activityId == e.activityId && e'.scheduledDate == e.scheduledDate
    && (e.IsDeleted() ==> e'.IsDeleted())
  }

  lemma RowsKept(w: World, w': World, op: Op)
    requires Step(w, w', op)
    ensures forall id :: id in w.executions ==> id in w'.executions && Identified(w.executions[id], w'.executions[id])
    ensures forall id :: id in w'.executions && id !in w.executions ==> w'.executions[id].id == id
  {
    hide Step, Acts, DaysUntil, EventsOf, Grants, NoTwin, IsOccurrence;
    if op.SchedulePass? {
      PassAddsNoTwin(w, w', op);
    } else {
      forall id
        ensures id in w.executions ==> id in w'.executions && Identified(w.executions[id], w'.executions[id])
        ensures id in w'.executions && id !in w.executions ==> w'.executions[id].id == id
      {
        RowView(w, w', op, id);
      }
    }
  }

  lemma {:induction false} RowStays(ws: seq<World>, ops: seq<Op>, id: ID, i: nat, j: nat)
    requires Run(ws, ops) && i <= j < |ws|
    requires id in ws[i].executions
    ensures id in ws[j].executions && Identified(ws[i].executions[id], ws[j].executions[id])
    decreases j
  {
    hide Step;
    if i < j {
      RowStays(ws, ops, id, i, j - 1);
      RunStep(ws, ops, j - 1);
      RowsKept(ws[j - 1], ws[j], ops[j - 1]);
    }
  }

  // ---- Twins come from requests ----

  ghost predicate UniqueLive(executions: map<ID, Execution>) {
    forall id :: id in executions ==> NoTwin(executions, id)
  }

  /** The request is granted although a live row has its activity and date. */
  predicate Duplicates(w: World, op: Op) {
    Grants(w, op) && ExecutionExists(w.executions, op.activityId, op.date)
  }

  lemma RequestAddsTwinIff(w: World, w': World, op: Op)
    requires Step(w, w', op) && op.Request? && UniqueLive(w.executions)
    ensures UniqueLive(w'.executions) <==> !Duplicates(w, op)
  {
    if Duplicates(w, op) {
      var k :| k in w.executions && LiveAt(w.executions[k], op.activityId, op.date);
      assert SameLiveDate(w'.executions[k], w'.executions[op.newId]);
      assert !NoTwin(w'.executions, op.newId);
    } else if Grants(w, op) {
      forall id | id in w'.executions
        ensures NoTwin(w'.executions, id)
      {
        forall other | other in w'.executions && other != id
          ensures !SameLiveDate(w'.executions[other], w'.executions[id])
        {
          assert other in w.executions && id in w.executions ==> NoTwin(w.executions, id);
          assert forall k :: k in w.executions ==> !LiveAt(w.executions[k], op.activityId, op.date);
        }
      }
    }
  }

  lemma OtherStepsKeepUnique(w: World, w': World, op: Op)
    requires Step(w, w', op) && !op.Request? && UniqueLive(w.executions)
    ensures UniqueLive(w'.executions)
  {
    hide Step;
    if op.SchedulePass? {
      hide NoTwin;
      PassAddsNoTwin(w, w', op);
    } else {
      RowsKept(w, w', op);
      forall id, other | id in w'.executions && other in w'.executions && other != id
        ensures !SameLiveDate(w'.executions[other], w'.executions[id])
      {
        RowView(w, w', op, id);
        RowView(w, w', op, other);
        assert NoTwin(w.executions, id);
      }
    }
  }

  /** A step from a table without twins leads to one with a twin if and only if it grants a request for an
      activity and date that a live row has. */
  lemma StepAddsTwinIff(w: World, w': World, op: Op)
    requires Step(w, w', op) && UniqueLive(w.executions)
    ensures UniqueLive(w'.executions) <==> !Duplicates(w, op)
  {
    hide Step, UniqueLive;
    if op.Request? {
      RequestAddsTwinIff(w, w', op);
    } else {
      OtherStepsKeepUnique(w, w', op);
    }
  }

  /** In every run, whatever fails, there is at no time a second live execution of one activity and date if
      and only if no request was granted that asked for one. */
  lemma {:induction false} NeverTwoLiveIff(ws: seq<World>, ops: seq<Op>, i: nat)
    requires Run(ws, ops) && i < |ws|
    ensures (forall j :: 0 <= j <= i ==> UniqueLive(ws[j].executions)) <==>
            (forall j :: 0 <= j < i ==> !Duplicates(ws[j], ops[j]))
  {
    hide Step, UniqueLive, Duplicates;
    if i == 0 {
      NoRows(ws[0]);
    } else {
      NeverTwoLiveIff(ws, ops, i - 1);
      RunStep(ws, ops, i - 1);
      if forall j :: 0 <= j <= i - 1 ==> UniqueLive(ws[j].executions) {
        assert UniqueLive(ws[i - 1].executions);
        StepAddsTwinIff(ws[i - 1], ws[i], ops[i - 1]);
      }
    }
  }

  lemma NoRows(w: World)
    requires w.executions == map[]
    ensures UniqueLive(w.executions)
  {
  }

  /** The row appears in this step. */
  ghost predicate Born(ws: seq<World>, ops: seq<Op>, id: ID, k: nat)
    requires |ws| == |ops| + 1 && k < |ops|
  {
    id !in ws[k].executions && id in ws[k + 1].executions
  }

  lemma {:induction false} BirthStep(ws: seq<World>, ops: seq<Op>, id: ID, i: nat) returns (k: nat)
    requires Run(ws, ops) && i < |ws| && id in ws[i].executions
    ensures k < i && Born(ws, ops, id, k)
  {
    if id in ws[i - 1].executions {
      k := BirthStep(ws, ops, id, i - 1);
    } else {
      k := i - 1;
    }
  }

  // The later of two twins was born in a granted request.
  lemma LaterTwinRequested(ws: seq<World>, ops: seq<Op>, i: nat, earlier: ID, later: ID, k: nat)
    requires Run(ws, ops) && k < i < |ws|
    requires earlier in ws[i].executions && later in ws[i].executions && earlier != later
    requires SameLiveDate(ws[i].executions[earlier], ws[i].executions[later])
    requires Born(ws, ops, later, k) && earlier in ws[k + 1].executions
    ensures ops[k].Request? && ops[k].newId == later && earlier in ws[k].executions
  {
    hide Step, NoTwin, Grants;
    RowStays(ws, ops, earlier, k + 1, i);
    RowStays(ws, ops, later, k + 1, i);
    RunStep(ws, ops, k);
    if ops[k].SchedulePass? {
      PassAddsNoTwin(ws[k], ws[k + 1], ops[k]);
      TwinsAreTwins(ws[k + 1].executions, earlier, later);
    } else {
      RowView(ws[k], ws[k + 1], ops[k], later);
      RowView(ws[k], ws[k + 1], ops[k], earlier);
      GrantsRequests(ws[k], ops[k]);
    }
  }

  lemma TwinsAreTwins(executions: map<ID, Execution>, a: ID, b: ID)
    requires a in executions && b in executions && a != b
    ensures SameLiveDate(executions[a], executions[b]) ==> !NoTwin(executions, b)
  {
  }

  lemma GrantsRequests(w: World, op: Op)
    ensures Grants(w, op) ==> op.Request?
  {
  }

  /** In every run, two live executions of one activity and date exist only because the later of them was
      requested while the earlier was stored: the worker never creates one. */
  lemma TwinsComeFromRequests(ws: seq<World>, ops: seq<Op>, i: nat, a: ID, b: ID)
    requires Run(ws, ops) && i < |ws|
    requires a in ws[i].executions && b in ws[i].executions && a != b
    requires SameLiveDate(ws[i].executions[a], ws[i].executions[b])
    ensures exists k :: 0 <= k < i && ops[k].Request?
              && ((ops[k].newId == a && b in ws[k].executions) || (ops[k].newId == b && a in ws[k].executions))
  {
    hide Step, Run;
    var ka := BirthStep(ws, ops, a, i);
    var kb := BirthStep(ws, ops, b, i);
    if ka <= kb {
      RunLength(ws, ops);
      RowStays(ws, ops, a, ka + 1, kb + 1);
      LaterTwinRequested(ws, ops, i, a, b, kb);
    } else {
      RunLength(ws, ops);
      RowStays(ws, ops, b, kb + 1, ka + 1);
      LaterTwinRequested(ws, ops, i, b, a, ka);
    }
  }

  lemma RunLength(ws: seq<World>, ops: seq<Op>)
    requires Run(ws, ops)
    ensures |ws| == |ops| + 1
  {
  }

  /** Requests can do that: two equal ones, for any existing activity and any date, leave two live rows. */
  lemma TwoRequestsTwins(activity: Activity, date: Instant, fields: Fields, a: ID, b: ID)
    returns (ws: seq<World>, ops: seq<Op>)
    requires activity.id != "" && date != 0 && a != b
    ensures Run(ws, ops) && |ws| == 3
    ensures a in ws[2].executions && b in ws[2].executions
    ensures LiveAt(ws[2].executions[a], activity.id, date) && LiveAt(ws[2].executions[b], activity.id, date)
    ensures !UniqueLive(ws[2].executions)
  {
    var w0 := World(map[activity.id := activity], map[], []);
    var w1 := w0.(executions := w0.executions[a := NewExecution(a, activity.id, date, fields)]);
    var w2 := w1.(executions := w1.executions[b := NewExecution(b, activity.id, date, fields)]);
    ws := [w0, w1, w2];
    ops := [Request(a, activity.id, date, fields, true, true), Request(b, activity.id, date, fields, true, true)];
    assert SameLiveDate(w2.executions[a], w2.executions[b]);
    assert !NoTwin(w2.executions, b);
  }

  /** If the schedule of an activity never changes, each of its executions, deleted ones included, is at an
      occurrence of that schedule or was requested for its date. */
  lemma {:induction false} OnlyOccurrenceDates(ws: seq<World>, ops: seq<Op>, s: Schedule, id: ID, i: nat)
    requires Run(ws, ops) && i < |ws| && id in ws[i].executions
    requires forall j :: 0 <= j < |ops| && ops[j].SchedulePass? && ops[j].activity.id == ws[i].executions[id].activityId ==>
               ops[j].activity.schedule == s
    ensures || IsOccurrence(s, ws[i].executions[id].scheduledDate)
            || exists k :: 0 <= k < i && ops[k].Request? && ops[k].newId == id && ops[k].date == ws[i].executions[id].scheduledDate
  {
    hide Step, NoTwin, IsOccurrence, Grants;
    var k := BirthStep(ws, ops, id, i);
    RunStep(ws, ops, k);
    RowStays(ws, ops, id, k + 1, i);
    if ops[k].SchedulePass? {
      PassAddsNoTwin(ws[k], ws[k + 1], ops[k]);
      assert IsNew(ws[k + 1].executions[id], id, ops[k].activity);
    } else {
      RowView(ws[k], ws[k + 1], ops[k], id);
      GrantsRequests(ws[k], ops[k]);
    }
  }

  // ---- What a pass without failures achieves ----

  ghost predicate Unfailing(executions: map<ID, Execution>, attempts: seq<Attempt>) {
    && (forall i :: 0 <= i < |attempts| ==>
          attempts[i].lookupOk && attempts[i].activityOk && attempts[i].insertOk && attempts[i].id !in executions)
    && (forall i, j :: 0 <= i < j < |attempts| ==> attempts[i].id != attempts[j].id)
  }

  lemma {:induction false} CreateStepsFill(activities: map<ID, Activity>, t: Tables, activity: Activity,
          last: Instant, attempts: seq<Attempt>, k: nat)
    requires Valid(activity.schedule) && StepsPast(activity.schedule, last) == k
    requires activity.id in activities && activity.id != ""
    requires Unfailing(t.executions, attempts)
    ensures forall n: nat :: k <= n < k + |attempts| && Occurrence(activity.schedule, n) != 0 ==>
              ExecutionExists(CreateSteps(activities, t, activity, last, attempts).executions, activity.id,
                              Occurrence(activity.schedule, n))
    decreases |attempts|
  {
    hide Advance, Valid, NoTwin, IsOccurrence, Occurrence, CreateStep, ExecutionExists;
    if attempts != [] {
      var date := Occurrence(activity.schedule, k);
      var t1 := CreateStep(activities, t, activity, date, attempts[0]);
      StepsPastOccurrence(activity.schedule, k);
      CreateStepCases(activities, t, activity, date, attempts[0]);
      CreateStepsFill(activities, t1, activity, date, attempts[1..], k + 1);
      CreateStepsKeep(activities, t1, activity, date, attempts[1..]);
      var t' := CreateSteps(activities, t, activity, last, attempts);
      if date != 0 {
        CreateStepFills(activities, t, activity, date, attempts[0]);
        StillExists(t1.executions, t'.executions, activity.id, date);
      }
    }
  }

  lemma CreateStepFills(activities: map<ID, Activity>, t: Tables, activity: Activity, date: Instant, attempt: Attempt)
    requires attempt.lookupOk
    requires CanCreate(activities, t.executions, attempt.id, activity.id, date, attempt.activityOk, attempt.insertOk)
    ensures ExecutionExists(CreateStep(activities, t, activity, date, attempt).executions, activity.id, date)
  {
    var t' := CreateStep(activities, t, activity, date, attempt);
    if !ExecutionExists(t.executions, activity.id, date) {
      assert LiveAt(t'.executions[attempt.id], activity.id, date);
    }
  }

  lemma StillExists(before: map<ID, Execution>, after: map<ID, Execution>, activityId: ID, date: Instant)
    requires forall id :: id in before ==> id in after && after[id] == before[id]
    requires ExecutionExists(before, activityId, date)
    ensures ExecutionExists(after, activityId, date)
  {
    var id :| id in before && LiveAt(before[id], activityId, date);
    assert id in after && LiveAt(after[id], activityId, date);
  }

  /** After a pass without failures, live executions exist at the three least occurrences after
      `now`, the zero time excepted: at an occurrence one exists exactly if it did before or the
      builder accepts it. */
  lemma PassFillsNextThree(w: World, w': World, op: Op, j: nat)
    requires Step(w, w', op) && op.SchedulePass?
    requires op.tenantOk && Valid(op.activity.schedule) && op.activity.id in w.activities
    requires Unfailing(w.executions, op.attempts)
    requires j < 3
    ensures var date := Occurrence(op.activity.schedule, StepsPast(op.activity.schedule, op.now) + j);
            ExecutionExists(w'.executions, op.activity.id, date) <==>
            ExecutionExists(w.executions, op.activity.id, date) || (date != 0 && op.activity.id != "")
  {
    hide Advance, Valid, NoTwin, IsOccurrence, Occurrence, Acts, EventsOf;
    var k := StepsPast(op.activity.schedule, op.now);
    var date := Occurrence(op.activity.schedule, k + j);
    PassAddsNoTwin(w, w', op);
    if op.activity.id != "" {
      CreateStepsFill(w.activities, Tables(w.executions, w.log), op.activity, op.now, op.attempts, k);
    }
    if ExecutionExists(w.executions, op.activity.id, date) {
      StillExists(w.executions, w'.executions, op.activity.id, date);
    }
    if ExecutionExists(w'.executions, op.activity.id, date) {
      var id :| id in w'.executions && LiveAt(w'.executions[id], op.activity.id, date);
      if id in w.executions {
        assert LiveAt(w.executions[id], op.activity.id, date);
      } else {
        assert IsNew(w'.executions[id], id, op.activity);
      }
    }
  }

  // The three dates a pass looks at are the first three of the sequence after `now`.
  lemma NextThreeAreLeast(s: Schedule, now: Instant, k: nat)
    requires Valid(s)
    ensures Occurrence(s, k) > now <==> k >= StepsPast(s, now)
    ensures k >= StepsPast(s, now) + 3 ==> Occurrence(s, k) > Occurrence(s, StepsPast(s, now) + 2)
  {
    hide Advance;
    var n := StepsPast(s, now);
    if n < k { OccurrencesIncrease(s, n, k); }
    if n + 3 <= k { OccurrencesIncrease(s, n + 2, k); }
  }

  lemma {:induction false} CreateStepsIdle(activities: map<ID, Activity>, t: Tables, activity: Activity,
          last: Instant, attempts: seq<Attempt>, k: nat)
    requires Valid(activity.schedule) && StepsPast(activity.schedule, last) == k
    requires forall i :: 0 <= i < |attempts| ==> attempts[i].lookupOk
    requires forall n: nat :: k <= n < k + |attempts| ==> ExecutionExists(t.executions, activity.id, Occurrence(activity.schedule, n))
    ensures CreateSteps(activities, t, activity, last, attempts) == t
    decreases |attempts|
  {
    hide Advance, Valid, IsOccurrence, Occurrence, ExecutionExists;
    if attempts != [] {
      var date := Occurrence(activity.schedule, k);
      StepsPastOccurrence(activity.schedule, k);
      CreateStepsIdle(activities, t, activity, date, attempts[1..], k + 1);
    }
  }

  /** A pass that finds its three dates taken, such as one repeated at the same time, changes nothing. */
  lemma PassIsIdempotent(w: World, w': World, op: Op)
    requires Step(w, w', op) && op.SchedulePass?
    requires op.tenantOk && Valid(op.activity.schedule)
    requires forall i :: 0 <= i < |op.attempts| ==> op.attempts[i].lookupOk
    requires var k := StepsPast(op.activity.schedule, op.now);
             forall n: nat :: k <= n < k + 3 ==>
                                ExecutionExists(w.executions, op.activity.id, Occurrence(op.activity.schedule, n))
    ensures w' == w
  {
    hide Advance, Occurrence, ExecutionExists;
    CreateStepsIdle(w.activities, Tables(w.executions, w.log), op.activity, op.now, op.attempts,
                    StepsPast(op.activity.schedule, op.now));
  }

  // ---- Notifications ----

  function TimesAnnounced(events: seq<Event>, day: int): nat {
    if events == [] then 0
    else TimesAnnounced(events[..|events| - 1], day)
         + (if events[|events| - 1].ReadyForNotification? && events[|events| - 1].daysBefore == day then 1 else 0)
  }

  lemma TimesAnnouncedAppend(events: seq<Event>, more: seq<Event>, day: int)
    requires |more| <= 1
    ensures TimesAnnounced(events + more, day) == TimesAnnounced(events, day) + TimesAnnounced(more, day)
  {
    if more == [] {
      assert events + more == events;
    } else {
      assert (events + more)[..|events|] == events;
      assert more[..0] == [];
    }
  }

  predicate Marked(w: World, id: ID, day: int) {
    id in w.executions && w.executions[id].HasNotificationDaySent(day)
  }

  // A day stays marked; only a notification check at that day marks it, and only that announces it.
  lemma NotificationStep(w: World, w': World, op: Op, id: ID, day: int)
    requires Step(w, w', op)
    ensures Marked(w, id, day) ==> Marked(w', id, day)
    ensures Marked(w, id, day) || !Marked(w', id, day) ==>
              TimesAnnounced(EventsOf(w'.log, id), day) == TimesAnnounced(EventsOf(w.log, id), day)
    ensures !Marked(w, id, day) && Marked(w', id, day) ==>
              && IsTick(op) && DaysUntil(w'.executions[id].scheduledDate, op.check.current) == day
              && TimesAnnounced(EventsOf(w'.log, id), day)
              == TimesAnnounced(EventsOf(w.log, id), day) + (if id in op.unpublished then 0 else 1)
  {
    hide EventsOf, DaysUntil, Open, NoTwin, IsOccurrence, Step, TimesAnnounced, Grants;
    NoneAnnounced(day);
    if op.SchedulePass? {
      PassAddsNoTwin(w, w', op);
    } else {
      RowView(w, w', op, id);
      if id in w.executions && op.RunCheck? {
        var e := w.executions[id];
        TimesAnnouncedAppend(EventsOf(w.log, id), RowEvents(op.check, w.activities, e, Tells(op, id)), day);
        OneAnnounced(Announcement(op.check, e), day);
      }
    }
  }

  // The step that marked a day before world i.
  ghost function MarkingTick(ws: seq<World>, id: ID, day: int, i: nat): (k: Option<nat>)
    requires i < |ws|
    ensures k.Some? ==> k.value < i
  {
    if i == 0 then None
    else if MarkingTick(ws, id, day, i - 1).Some? then MarkingTick(ws, id, day, i - 1)
    else if Marked(ws[i], id, day) && !Marked(ws[i - 1], id, day) then Some(i - 1)
    else None
  }

  lemma NoneAnnounced(day: int)
    ensures TimesAnnounced([], day) == 0
  {
  }

  lemma OneAnnounced(e: Event, day: int)
    ensures TimesAnnounced([e], day) == if e.ReadyForNotification? && e.daysBefore == day then 1 else 0
  {
    assert [e][..0] == [];
  }

  /** In every run, whatever fails: a day is marked exactly if some tick that many days ahead marked it, and
      the day of an execution is announced if and only if it is marked and the publication of that very tick
      succeeded, and then once. */
  lemma {:induction false} AnnouncedIff(ws: seq<World>, ops: seq<Op>, id: ID, day: int, i: nat)
    requires Run(ws, ops) && i < |ws|
    ensures Marked(ws[i], id, day) <==> MarkingTick(ws, id, day, i).Some?
    ensures MarkingTick(ws, id, day, i).Some? ==>
              var k := MarkingTick(ws, id, day, i).value;
              IsTick(ops[k]) && DaysUntil(ws[i].executions[id].scheduledDate, ops[k].check.current) == day
    ensures TimesAnnounced(EventsOf(ws[i].log, id), day) ==
            match MarkingTick(ws, id, day, i)
            case None => 0
            case Some(k) => if id in ops[k].unpublished then 0 else 1
  {
    hide Step, EventsOf, TimesAnnounced, DaysUntil;
    if i == 0 {
      NothingAnnounced(ws[0], id, day);
    } else {
      AnnouncedIff(ws, ops, id, day, i - 1);
      RunStep(ws, ops, i - 1);
      NotificationStep(ws[i - 1], ws[i], ops[i - 1], id, day);
      if Marked(ws[i - 1], id, day) {
        RowStays(ws, ops, id, i - 1, i);
      }
    }
  }

  lemma NothingAnnounced(w: World, id: ID, day: int)
    requires w.executions == map[] && w.log == []
    ensures !Marked(w, id, day) && TimesAnnounced(EventsOf(w.log, id), day) == 0
  {
  }

  /** In every run, whatever fails, each day of an execution is announced at most once and only if marked;
      once it is marked nothing announces it any more, so that a lost publication is never repeated. */
  lemma {:induction false} AtMostOneNotification(ws: seq<World>, ops: seq<Op>, id: ID, day: int, i: nat, j: nat)
    requires Run(ws, ops) && i <= j < |ws|
    ensures TimesAnnounced(EventsOf(ws[i].log, id), day) <= 1
    ensures TimesAnnounced(EventsOf(ws[i].log, id), day) == 1 ==> Marked(ws[i], id, day)
    ensures Marked(ws[i], id, day) ==>
              && Marked(ws[j], id, day) && MarkingTick(ws, id, day, j) == MarkingTick(ws, id, day, i)
              && TimesAnnounced(EventsOf(ws[j].log, id), day) == TimesAnnounced(EventsOf(ws[i].log, id), day)
    decreases j
  {
    hide Step, EventsOf, TimesAnnounced, DaysUntil, Marked;
    AnnouncedIff(ws, ops, id, day, i);
    AnnouncedIff(ws, ops, id, day, j);
    if i < j {
      AtMostOneNotification(ws, ops, id, day, i, j - 1);
    }
  }

  /** A run that loses a notification: the publication of the marking tick fails. */
  lemma NotificationLost(activity: Activity, fields: Fields, id: ID, day: nat) returns (ws: seq<World>, ops: seq<Op>)
    requires activity.id != "" && activity.isActive && activity.deletedAt.None?
    requires day in activity.notificationDaysBefore && 0 < day && day * NANOS_PER_DAY <= MAX_DURATION
    ensures Run(ws, ops) && |ws| == 3
    ensures Marked(ws[2], id, day) && TimesAnnounced(EventsOf(ws[2].log, id), day) == 0
  {
    var date := day * NANOS_PER_DAY;
    var w0 := World(map[activity.id := activity], map[], []);
    var w1 := w0.(executions := w0.executions[id := NewExecution(id, activity.id, date, fields)]);
    var e := w1.executions[id];
    var w2 := w1.(executions := w1.executions[id := e.MarkNotificationDaySent(day)]);
    var check := Notification(0);
    assert DaysUntil(date, 0) == day;
    assert Acts(check, w1.activities, e);
    assert w2.executions == TableAfter(check, w1.activities, w1.executions, w1.executions.Keys - {});
    ws := [w0, w1, w2];
    ops := [Request(id, activity.id, date, fields, true, true), RunCheck(check, true, {}, {id})];
  }

  predicate IsTick(op: Op) {
    op.RunCheck? && op.check.Notification?
  }

  /** The execution is open with `day` configured, and the step finds and saves it if it is a tick. */
  ghost predicate UndisturbedAt(w: World, op: Op, id: ID, day: int) {
    && id in w.executions
    && Open(w.activities, w.executions[id])
    && day in w.activities[w.executions[id].activityId].notificationDaysBefore
    && (IsTick(op) ==> op.findOk && id !in op.failing)
  }

  ghost predicate Undisturbed(ws: seq<World>, ops: seq<Op>, id: ID, day: int, p: nat, q: nat)
    requires |ws| == |ops| + 1 && p <= q < |ops|
  {
    forall i :: p <= i <= q ==> UndisturbedAt(ws[i], ops[i], id, day)
  }

  /** Ticks are in order and at most a day apart. */
  ghost predicate DailyTicks(ops: seq<Op>, p: nat, q: nat)
    requires p <= q < |ops|
  {
    forall i, j :: p <= i < j <= q && IsTick(ops[i]) && IsTick(ops[j]) && (forall k :: i < k < j ==> !IsTick(ops[k])) ==>
                     ops[i].check.current <= ops[j].check.current <= ops[i].check.current + NANOS_PER_DAY
  }

  // The first tick after p, given that there is one at q.
  lemma {:induction false} NextTick(ops: seq<Op>, p: nat, q: nat) returns (n: nat)
    requires p < q < |ops| && IsTick(ops[q])
    ensures p < n <= q && IsTick(ops[n]) && forall k :: p < k < n ==> !IsTick(ops[k])
    decreases q - p
  {
    n := p + 1;
    while !IsTick(ops[n])
      invariant p < n <= q && forall k :: p < k < n ==> !IsTick(ops[k])
      decreases q - n
    {
      n := n + 1;
    }
  }

  /** Days-until falls by at most one from tick to tick, so some tick meets each day on the way. */
  lemma {:induction false} SomeTickMeets(ops: seq<Op>, scheduled: Instant, day: int, p: nat, q: nat) returns (m: nat)
    requires p <= q < |ops| && IsTick(ops[p]) && IsTick(ops[q]) && DailyTicks(ops, p, q)
    requires DaysUntil(scheduled, ops[p].check.current) >= day >= DaysUntil(scheduled, ops[q].check.current)
    requires ops[q].check.current < scheduled
    ensures p <= m <= q && IsTick(ops[m])
    ensures ops[m].check.current < scheduled && DaysUntil(scheduled, ops[m].check.current) == day
    decreases q - p
  {
    hide DaysUntil;
    TicksInOrder(ops, p, q);
    if DaysUntil(scheduled, ops[p].check.current) == day {
      m := p;
    } else {
      var n := NextTick(ops, p, q);
      TicksInOrder(ops, n, q);
      DaysUntilSteps(scheduled, ops[p].check.current, ops[n].check.current);
      m := SomeTickMeets(ops, scheduled, day, n, q);
    }
  }

  lemma {:induction false} TicksInOrder(ops: seq<Op>, p: nat, q: nat)
    requires p <= q < |ops| && IsTick(ops[p]) && IsTick(ops[q]) && DailyTicks(ops, p, q)
    ensures ops[p].check.current <= ops[q].check.current
    decreases q - p
  {
    if p < q {
      var n := NextTick(ops, p, q);
      TicksInOrder(ops, n, q);
    }
  }

  /** With daily ticks that find and save the execution, a configured day that the count of days passes
      through is marked by one of these ticks; it is announced exactly once if and only if the publication
      of that tick succeeded, and so if all of them did. */
  lemma ExactlyOneNotification(ws: seq<World>, ops: seq<Op>, id: ID, day: int, p: nat, q: nat, r: nat)
    requires Run(ws, ops) && p <= q < |ops| && q < r < |ws|
    requires IsTick(ops[p]) && IsTick(ops[q]) && DailyTicks(ops, p, q)
    requires Undisturbed(ws, ops, id, day, p, q) && id in ws[p].executions
    requires var scheduled := ws[p].executions[id].scheduledDate;
             && DaysUntil(scheduled, ops[p].check.current) >= day >= DaysUntil(scheduled, ops[q].check.current)
             && ops[q].check.current < scheduled
    ensures MarkingTick(ws, id, day, r).Some?
    ensures var k := MarkingTick(ws, id, day, r).value;
            && k <= q && IsTick(ops[k])
            && (TimesAnnounced(EventsOf(ws[r].log, id), day) == 1 <==> id !in ops[k].unpublished)
    ensures (forall k :: 0 <= k <= q && IsTick(ops[k]) ==> id !in ops[k].unpublished) ==>
              TimesAnnounced(EventsOf(ws[r].log, id), day) == 1
  {
    hide DaysUntil, EventsOf, TimesAnnounced, Step, DailyTicks, UndisturbedAt, Run, Marked, MarkingTick;
    var scheduled := ws[p].executions[id].scheduledDate;
    var m := SomeTickMeets(ops, scheduled, day, p, q);
    assert UndisturbedAt(ws[p], ops[p], id, day) && UndisturbedAt(ws[m], ops[m], id, day);
    UndisturbedRow(ws[p], ops[p], id, day);
    RowStays(ws, ops, id, p, m);
    RunStep(ws, ops, m);
    TickMarks(ws[m], ws[m + 1], ops[m], id, day);
    AtMostOneNotification(ws, ops, id, day, m + 1, r);
    AnnouncedIff(ws, ops, id, day, m + 1);
    AnnouncedIff(ws, ops, id, day, r);
  }

  lemma RunStep(ws: seq<World>, ops: seq<Op>, i: nat)
    requires Run(ws, ops) && i < |ops|
    ensures Step(ws[i], ws[i + 1], ops[i])
  {
  }

  lemma UndisturbedRow(w: World, op: Op, id: ID, day: int)
    requires UndisturbedAt(w, op, id, day)
    ensures id in w.executions
  {
  }

  lemma TickMarks(w: World, w': World, op: Op, id: ID, day: int)
    requires Step(w, w', op) && IsTick(op) && UndisturbedAt(w, op, id, day)
    requires op.check.current < w.executions[id].scheduledDate
    requires DaysUntil(w.executions[id].scheduledDate, op.check.current) == day
    ensures Marked(w', id, day)
  {
    hide DaysUntil, EventsOf, Announced;
  }

  // ---- Whom events are about ----

  lemma {:induction false} RunKeepsKeys(ws: seq<World>, ops: seq<Op>, id: ID, i: nat)
    requires Run(ws, ops) && i < |ws| && id in ws[i].executions
    ensures ws[i].executions[id].id == id
  {
    hide Step;
    var k := BirthStep(ws, ops, id, i);
    RunStep(ws, ops, k);
    RowsKept(ws[k], ws[k + 1], ops[k]);
    RowStays(ws, ops, id, k + 1, i);
  }

  /** In every run, a step that adds an event about an execution is a check that found it neither deleted nor
      completed, of an activity that is stored, active and not deleted; it adds one event, with the activity of
      the row, and the day or the count that is due. */
  lemma EventsAreAboutOpenRows(ws: seq<World>, ops: seq<Op>, id: ID, i: nat)
    requires Run(ws, ops) && i < |ops|
    requires EventsOf(ws[i + 1].log, id) != EventsOf(ws[i].log, id)
    ensures id in ws[i].executions && ops[i].RunCheck?
    ensures var e := ws[i].executions[id];
            && e.deletedAt == None && e.completedAt == None
            && e.activityId in ws[i].activities
            && ws[i].activities[e.activityId].isActive && ws[i].activities[e.activityId].deletedAt == None
            && match ops[i].check
               case Notification(current) =>
                 && current < e.scheduledDate
                 && DaysUntil(e.scheduledDate, current) in ws[i].activities[e.activityId].notificationDaysBefore
                 && EventsOf(ws[i + 1].log, id)
                 == EventsOf(ws[i].log, id) + [ReadyForNotification(id, e.activityId, DaysUntil(e.scheduledDate, current))]
               case Overdue(queried, current) =>
                 && e.scheduledDate < queried && e.overdueDays < e.CalculateOverdueDays(current)
                 && EventsOf(ws[i + 1].log, id)
                 == EventsOf(ws[i].log, id) + [OverdueBy(id, e.activityId, e.CalculateOverdueDays(current))]
  {
    hide EventsOf, DaysUntil, NoTwin, IsOccurrence, Step, Grants, WholeDays, Sub;
    RunStep(ws, ops, i);
    if ops[i].SchedulePass? {
      PassAddsNoTwin(ws[i], ws[i + 1], ops[i]);
    } else {
      RowView(ws[i], ws[i + 1], ops[i], id);
      if id in ws[i].executions {
        RunKeepsKeys(ws, ops, id, i);
        assert EventsOf(ws[i].log, id) + [] == EventsOf(ws[i].log, id);
      }
    }
  }

  /** A check that finds and saves everything leaves no row behind: an open row of an active activity has its
      day marked, or its overdue count brought up to the whole days since its date; others stay as they are. */
  lemma CheckCatchesUp(w: World, w': World, op: Op, id: ID)
    requires Step(w, w', op) && op.RunCheck? && op.findOk && id !in op.failing && id in w.executions
    ensures id in w'.executions
    ensures var e, e' := w.executions[id], w'.executions[id];
            var open := e.deletedAt == None && e.completedAt == None && e.activityId in w.activities
                        && w.activities[e.activityId].isActive && w.activities[e.activityId].deletedAt == None;
            match op.check
            case Notification(current) =>
              if open && current < e.scheduledDate
                 && DaysUntil(e.scheduledDate, current) in w.activities[e.activityId].notificationDaysBefore
              then e' == e.(notificationDaysSent := e'.notificationDaysSent)
                   && forall day :: day in e'.notificationDaysSent <==>
                                    day in e.notificationDaysSent || day == DaysUntil(e.scheduledDate, current)
              else e' == e
            case Overdue(queried, current) =>
              if open && e.scheduledDate < queried && e.overdueDays < e.CalculateOverdueDays(current)
              then e' == e.(overdueDays := e.CalculateOverdueDays(current))
              else e' == e
  {
    hide EventsOf, DaysUntil, Step, WholeDays, Sub;
    RowView(w, w', op, id);
  }

  // ---- Overdue counts and completion ----

  function OverdueCounts(events: seq<Event>): seq<int> {
    if events == [] then []
    else OverdueCounts(events[..|events| - 1])
         + (if events[|events| - 1].OverdueBy? then [events[|events| - 1].overdueDays] else [])
  }

  predicate Increasing(counts: seq<int>) {
    && (forall i :: 0 <= i < |counts| ==> counts[i] > 0)
    && (forall i, j :: 0 <= i < j < |counts| ==> counts[i] < counts[j])
  }

  function Latest(counts: seq<int>): int {
    if counts == [] then 0 else counts[|counts| - 1]
  }

  function Stored(w: World, id: ID): int {
    if id in w.executions then w.executions[id].overdueDays else 0
  }

  lemma OverdueCountsAppend(events: seq<Event>, more: seq<Event>)
    requires |more| <= 1
    ensures OverdueCounts(events + more) == OverdueCounts(events) + OverdueCounts(more)
  {
    if more == [] {
      assert events + more == events;
    } else {
      assert (events + more)[..|events|] == events;
      assert more[..0] == [];
    }
  }

  predicate Done(w: World, id: ID) {
    id in w.executions && w.executions[id].IsCompleted()
  }

  // Only an overdue check raises the stored count, and only that publishes one, the count it stored.
  lemma OverdueStep(w: World, w': World, op: Op, id: ID)
    requires Step(w, w', op)
    ensures Stored(w', id) > Stored(w, id) && Stored(w, id) >= 0 ==>
              && op.RunCheck? && op.check.Overdue? && !Done(w, id) && !Done(w', id)
              && OverdueCounts(EventsOf(w'.log, id))
              == OverdueCounts(EventsOf(w.log, id)) + (if id in op.unpublished then [] else [Stored(w', id)])
    ensures Stored(w', id) <= Stored(w, id) ==> OverdueCounts(EventsOf(w'.log, id)) == OverdueCounts(EventsOf(w.log, id))
    ensures Stored(w', id) <= Stored(w, id) ==>
              Stored(w', id) == if Done(w, id) || !Done(w', id) then Stored(w, id) else 0
    ensures Done(w, id) ==> Done(w', id) && w'.executions[id] == w.executions[id].(deletedAt := w'.executions[id].deletedAt)
  {
    hide EventsOf, DaysUntil, NoTwin, IsOccurrence, Step, OverdueCounts, WholeDays, Sub, Grants;
    NoneCounted();
    if op.SchedulePass? {
      PassAddsNoTwin(w, w', op);
    } else {
      RowView(w, w', op, id);
      if id in w.executions && op.RunCheck? {
        var e := w.executions[id];
        OverdueCountsAppend(EventsOf(w.log, id), RowEvents(op.check, w.activities, e, Tells(op, id)));
        OneCounted(Announcement(op.check, e));
        assert OverdueCounts(EventsOf(w.log, id)) + [] == OverdueCounts(EventsOf(w.log, id));
      }
    }
  }

  // The last step before world i that raised the stored count.
  ghost function RaisingTick(ws: seq<World>, id: ID, i: nat): (k: Option<nat>)
    requires i < |ws|
    ensures k.Some? ==> k.value < i
  {
    if i == 0 then None
    else if Stored(ws[i], id) > Stored(ws[i - 1], id) then Some(i - 1)
    else RaisingTick(ws, id, i - 1)
  }

  lemma NoneCounted()
    ensures OverdueCounts([]) == []
  {
  }

  lemma OneCounted(e: Event)
    ensures OverdueCounts([e]) == if e.OverdueBy? then [e.overdueDays] else []
  {
    assert [e][..0] == [];
  }

  /** In every run, whatever fails: the published counts of an execution strictly increase and none exceeds
      the count saved last; the stored count is that one, or 0 once the execution is completed; and it is the
      last one published if and only if the publication of the check that saved it succeeded. */
  lemma {:induction false} OverdueCountsIff(ws: seq<World>, ops: seq<Op>, id: ID, i: nat)
    requires Run(ws, ops) && i < |ws|
    ensures var counts := OverdueCounts(EventsOf(ws[i].log, id));
            && Increasing(counts)
            && (forall m :: 0 <= m < |counts| ==> 0 < counts[m])
            && (forall m, n :: 0 <= m < n < |counts| ==> counts[m] < counts[n])
            && match RaisingTick(ws, id, i)
               case None => counts == [] && Stored(ws[i], id) == 0
               case Some(k) =>
                 var last := Stored(ws[k + 1], id);
                 && last > 0 && ops[k].RunCheck? && ops[k].check.Overdue?
                 && Stored(ws[i], id) == (if Done(ws[i], id) then 0 else last)
                 && Latest(counts) <= last
                 && (Latest(counts) == last <==> id !in ops[k].unpublished)
  {
    hide Step, EventsOf, OverdueCounts, Stored, Done;
    if i == 0 {
      NothingOverdue(ws[0], id);
    } else {
      OverdueCountsIff(ws, ops, id, i - 1);
      RunStep(ws, ops, i - 1);
      OverdueStep(ws[i - 1], ws[i], ops[i - 1], id);
    }
  }

  lemma NothingOverdue(w: World, id: ID)
    requires w.executions == map[] && w.log == []
    ensures OverdueCounts(EventsOf(w.log, id)) == [] && Stored(w, id) == 0
  {
  }

  /** A run that loses an overdue count: it is stored, and its publication fails. */
  lemma OverdueCountLost(activity: Activity, fields: Fields, id: ID) returns (ws: seq<World>, ops: seq<Op>)
    requires activity.id != "" && activity.isActive && activity.deletedAt.None?
    ensures Run(ws, ops) && |ws| == 3
    ensures Stored(ws[2], id) == 1 && OverdueCounts(EventsOf(ws[2].log, id)) == []
  {
    var date, now := NANOS_PER_DAY, 2 * NANOS_PER_DAY;
    var w0 := World(map[activity.id := activity], map[], []);
    var w1 := w0.(executions := w0.executions[id := NewExecution(id, activity.id, date, fields)]);
    var e := w1.executions[id];
    var w2 := w1.(executions := w1.executions[id := e.(overdueDays := 1)]);
    var check := Overdue(now, now);
    assert e.CalculateOverdueDays(now) == 1;
    assert Acts(check, w1.activities, e);
    assert w2.executions == TableAfter(check, w1.activities, w1.executions, w1.executions.Keys - {});
    ws := [w0, w1, w2];
    ops := [Request(id, activity.id, date, fields, true, true), RunCheck(check, true, {}, {id})];
  }

  /** A completed execution never changes again, but that it may be deleted: it stays completed by the
      same person at the same time with count 0, and no overdue event about it follows. */
  lemma {:induction false} CompletionIsFinal(ws: seq<World>, ops: seq<Op>, id: ID, i: nat, j: nat)
    requires Run(ws, ops) && i <= j < |ws|
    requires id in ws[i].executions && ws[i].executions[id].IsCompleted()
    ensures id in ws[j].executions
    ensures ws[j].executions[id] == ws[i].executions[id].(deletedAt := ws[j].executions[id].deletedAt)
    ensures ws[j].executions[id].overdueDays == 0
    ensures OverdueCounts(EventsOf(ws[j].log, id)) == OverdueCounts(EventsOf(ws[i].log, id))
    decreases j
  {
    hide Step, OverdueCounts, EventsOf;
    OverdueCountsIff(ws, ops, id, j);
    if i < j {
      CompletionIsFinal(ws, ops, id, i, j - 1);
      OverdueCountsIff(ws, ops, id, j - 1);
      RunStep(ws, ops, j - 1);
      OverdueStep(ws[j - 1], ws[j], ops[j - 1], id);
    }
  }
}
