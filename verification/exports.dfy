/** Export tasks and the export list: the status setter, `start_task` and
    `query_status` state machine with its retry budget, the per-category
    summary, and the start and tracking sweeps over the list.

    The remote job handle is an oracle: its `start()` either succeeds or fails
    with a message, and each `status()` call consumes the next reply of a finite
    script, after which the job keeps giving its `last` reply. */
module Exports {
  import opened Wrappers
  import opened Text
  import opened Seqs
  import opened Status

  // ---------------------------------------------------------------------------
  // The job oracle

  /** What one `status()` call yields: a dictionary whose `state` is read, or
      an exception with its message. */
  datatype Reply = State(state: string) | Fault(msg: string)

  datatype Job = Job(startError: Option<string>, replies: seq<Reply>, last: Reply) {
    /** The reply the next `status()` call gives. */
    function Next(): Reply {
      if |replies| > 0 then replies[0] else last
    }

    /** The job after one `status()` call. */
    function Advance(): Job {
      if |replies| > 0 then this.(replies := replies[1..]) else this
    }

    /** The reply of the `k`-th `status()` call from now. */
    function ReplyAt(k: nat): Reply {
      if k < |replies| then replies[k] else last
    }
  }

  // ---------------------------------------------------------------------------
  // Tasks

  datatype Target = Gee | Gdrive

  function TargetName(t: Target): string {
    match t
    case Gee => "gee"
    case Gdrive => "gdrive"
  }

  datatype Task = Task(
    job: Option<Job>,
    image: string,
    date: string,
    target: Target,
    status: RawStatus,
    exportStatus: Category,
    error: Option<string>,
    failures: nat)

  /** The class invariant the status setter maintains: the category is the
      row of the raw status. */
  predicate Wf(t: Task) {
    t.exportStatus == CategoryOf(t.status)
  }

  predicate AllWf(ts: seq<Task>) {
    forall i :: 0 <= i < |ts| ==> Wf(ts[i])
  }

  /** The `target` setter: lower-cases and accepts only "gee" and "gdrive". */
  function ParseTarget(value: string): (r: Result<Target>)
    ensures r == Ok(Gee) <==> Lower(value) == "gee"
    ensures r == Ok(Gdrive) <==> Lower(value) == "gdrive"
    ensures r.Err? ==> r.error.ValueError?
  {
    var v := Lower(value);
    if v == "gee" then Ok(Gee)
    else if v == "gdrive" then Ok(Gdrive)
    else Err(ValueError("Can't create ExportTask, invalid target: " + v + "."))
  }

  lemma ParseTargetName(t: Target)
    ensures ParseTarget(TargetName(t)) == Ok(t)
  {
    match t
    case Gee =>
      assert IsLowerCase("gee");
      LowerOfLowerCase("gee");
    case Gdrive =>
      assert IsLowerCase("gdrive");
      LowerOfLowerCase("gdrive");
  }

  /** The `status` setter: upper-cases the value, rejects values outside the
      table, and sets the category by `export_status`'s own lookup of the same
      value; nothing else about the task changes. */
  function SetStatus(t: Task, value: string): (r: Result<Task>)
    ensures r.Ok? <==> ParseStatus(Upper(value)).Some?
    ensures r.Ok? ==> && Wf(r.value)
                      && StatusName(r.value.status) == Upper(value)
                      && r.value.(status := t.status, exportStatus := t.exportStatus) == t
    ensures r.Err? ==> r.error.ValueError?
  {
    var v := Upper(value);
    match ParseStatus(v)
    case None => Err(ValueError("Invalid task status: " + v + "."))
    case Some(s) =>
      UpperIsUpperCase(value);
      UpperOfUpperCase(v);
      ClassifyName(s, v);
      Ok(t.(status := s, exportStatus := Classify(v)))
  }

  /** Assigns one of the statuses the tasks' own code uses. */
  function Assign(t: Task, s: RawStatus): (r: Task)
    ensures Wf(r) && r.status == s
    ensures r.(status := t.status, exportStatus := t.exportStatus) == t
  {
    t.(status := s, exportStatus := CategoryOf(s))
  }

  /** The setter accepts the name of every table entry, and `Assign` is what it
      does for them. */
  lemma AssignIsSetStatus(t: Task, s: RawStatus)
    ensures SetStatus(t, StatusName(s)) == Ok(Assign(t, s))
  {
    NameIsUpperCase(s);
    UpperOfUpperCase(StatusName(s));
    ParseStatusName(s);
    ClassifyName(s, StatusName(s));
  }

  /** `ExportTask(image, date, target, status, task)`: the target is checked
      first, then the status; a new task has no error and no failed queries. */
  function NewTask(image: string, date: string, target: string, status: string, job: Option<Job>): (r: Result<Task>)
    ensures r.Ok? <==> ParseTarget(target).Ok? && ParseStatus(Upper(status)).Some?
    ensures ParseTarget(target).Err? ==> r == Err(ParseTarget(target).error)
    ensures ParseTarget(target).Ok? && ParseStatus(Upper(status)).None? ==>
              r == Err(ValueError("Invalid task status: " + Upper(status) + "."))
    ensures r.Err? ==> r.error.ValueError?
    ensures r.Ok? ==> && Wf(r.value)
                      && r.value.image == image && r.value.date == date
                      && r.value.target == ParseTarget(target).value
                      && StatusName(r.value.status) == Upper(status)
                      && r.value.job == job && r.value.error == None && r.value.failures == 0
  {
    var tgt :- ParseTarget(target);
    var blank := Task(job, image, date, tgt, RawPlanned, NotStarted, None, 0);
    SetStatus(blank, status)
  }

  // ---------------------------------------------------------------------------
  // start_task and query_status

  /** `start_task`: only a task whose status is NOT_STARTED moves; without a job
      it becomes NO_TASK_CREATED, otherwise STARTED, or FAILED_TO_START with
      the error recorded when `start()` throws. It never raises and never
      touches the failure counter. */
  function StartTask(t: Task): (r: Task)
    requires Wf(t)
    ensures Wf(r)
    ensures r.failures == t.failures && r.job == t.job
    ensures r.image == t.image && r.date == t.date && r.target == t.target
    ensures t.status !in StatusesOf(NotStarted) ==> r == t
    ensures t.status in StatusesOf(NotStarted) && t.job.None? ==>
              r.status == RawNoTaskCreated && r.error == t.error
    ensures t.status in StatusesOf(NotStarted) && t.job.Some? && t.job.value.startError.None? ==>
              r.status == RawStarted && r.error == t.error
    ensures t.status in StatusesOf(NotStarted) && t.job.Some? && t.job.value.startError.Some? ==>
              r.status == RawFailedToStart && r.error == t.job.value.startError
  {
    if t.status !in StatusesOf(NotStarted) then t
    else if t.job.None? then Assign(t, RawNoTaskCreated)
    else match t.job.value.startError
      case None => Assign(t, RawStarted)
      case Some(e) => Assign(t, RawFailedToStart).(error := Some(e))
  }

  /** A task that gave up is never polled again. */
  lemma GaveUpNotPollable()
    ensures RawFailedToGetStatus !in PollableStatuses()
  {
    RowsDisjoint(RawFailedToGetStatus, Pending);
    RowsDisjoint(RawFailedToGetStatus, NotStarted);
  }

  /** Statuses `query_status` asks the provider about: PENDING and NOT_STARTED. */
  function PollableStatuses(): seq<RawStatus> {
    StatusesOf(Pending) + StatusesOf(NotStarted)
  }

  /** The provider is asked: a job is attached, the retry budget is not spent
      (or the task already gave up) and the status is pollable. */
  predicate Queried(t: Task) {
    && t.job.Some?
    && (t.failures < MaxStatusUpdateFailures || t.status == RawFailedToGetStatus)
    && t.status in PollableStatuses()
  }

  /** A reply the status setter accepts. */
  predicate AcceptedReply(reply: Reply) {
    reply.State? && ParseStatus(Upper(reply.state)).Some?
  }

  /** `query_status`. Without a job nothing happens. With the failure counter at
      the budget the task becomes FAILED_TO_GET_STATUS without a query.
      Otherwise a PENDING or NOT_STARTED task consumes one reply: a valid state
      is adopted and clears counter and error; a fault, or a state the setter
      rejects, bumps the counter, records the error and keeps the status. */
  function QueryStatus(t: Task): (r: Task)
    requires Wf(t)
    ensures Wf(r)
    ensures r.image == t.image && r.date == t.date && r.target == t.target
    ensures t.job.None? ==> r == t
    ensures t.job.Some? && t.failures >= MaxStatusUpdateFailures && t.status != RawFailedToGetStatus ==>
              r == Assign(t, RawFailedToGetStatus)
    ensures t.job.Some? && !Queried(t) && t.failures < MaxStatusUpdateFailures ==> r == t
    ensures t.job.Some? && t.status == RawFailedToGetStatus ==> r == t
    ensures Queried(t) ==> r.job == Some(t.job.value.Advance())
    ensures Queried(t) && AcceptedReply(t.job.value.Next()) ==>
              StatusName(r.status) == Upper(t.job.value.Next().state) && r.failures == 0 && r.error == None
    ensures Queried(t) && !AcceptedReply(t.job.value.Next()) ==>
              r.status == t.status && r.failures == t.failures + 1 && r.error.Some?
  {
    GaveUpNotPollable();
    if t.job.None? then t
    else if t.failures >= MaxStatusUpdateFailures && t.status != RawFailedToGetStatus then
      Assign(t, RawFailedToGetStatus)
    else if t.status !in PollableStatuses() then t
    else
      var job := t.job.value;
      ApplyReply(t.(job := Some(job.Advance())), job.Next())
  }

  /** The `try` block of `query_status` once the provider has answered: an
      accepted state replaces the status and clears counter and error; a fault
      or a rejected state bumps the counter and records the message. */
  function ApplyReply(t: Task, reply: Reply): (r: Task)
    ensures r.job == t.job && r.image == t.image && r.date == t.date && r.target == t.target
    ensures AcceptedReply(reply) ==>
              Wf(r) && StatusName(r.status) == Upper(reply.state) && r.failures == 0 && r.error == None
    ensures !AcceptedReply(reply) ==>
              r == t.(failures := t.failures + 1, error := r.error) && r.error.Some?
    ensures reply.Fault? ==> r.error == Some(reply.msg)
  {
    match reply
    case Fault(msg) => t.(failures := t.failures + 1, error := Some(msg))
    case State(s) =>
      match SetStatus(t, s)
      case Ok(u) => u.(failures := 0, error := None)
      case Err(e) => t.(failures := t.failures + 1, error := Some(e.msg))
  }

  /** Starting twice is starting once: a started task is no longer NOT_STARTED. */
  lemma StartTaskIdempotent(t: Task)
    requires Wf(t)
    ensures StartTask(StartTask(t)) == StartTask(t)
    ensures StartTask(t).exportStatus != NotStarted
  {
    RowsDisjoint(StartTask(t).status, NotStarted);
  }

  /** The next `n` replies of the job are faults. */
  predicate NextFaults(j: Job, n: nat) {
    forall k :: 0 <= k < n ==> j.ReplyAt(k).Fault?
  }

  lemma AdvanceShifts(j: Job, k: nat)
    ensures j.Advance().ReplyAt(k) == j.ReplyAt(k + 1)
    ensures j.Next() == j.ReplyAt(0)
  {
  }

  /** One faulty reply to a pollable task with budget left bumps the counter,
      keeps the status and moves the job on. */
  lemma FaultCounts(t: Task)
    requires Wf(t) && Queried(t) && t.job.value.Next().Fault?
    ensures QueryStatus(t) == t.(job := Some(t.job.value.Advance()), failures := t.failures + 1,
                                 error := Some(t.job.value.Next().msg))
  {
  }

  /** The retry budget: from a pollable task with a fresh counter, three
      consecutive faults leave the status alone; the fourth call marks it
      FAILED_TO_GET_STATUS without asking the provider, and from then on
      `query_status` changes nothing. */
  lemma {:induction false} RetryBudget(t: Task)
    requires Wf(t) && t.job.Some? && t.failures == 0
    requires t.status in PollableStatuses()
    requires NextFaults(t.job.value, 3)
    ensures var t3 := QueryStatus(QueryStatus(QueryStatus(t)));
            && t3.status == t.status && t3.failures == 3
            && QueryStatus(t3).status == RawFailedToGetStatus
            && QueryStatus(t3).job == t3.job
            && QueryStatus(QueryStatus(t3)) == QueryStatus(t3)
  {
    var j := t.job.value;
    AdvanceShifts(j, 0);
    FaultCounts(t);
    var t1 := QueryStatus(t);
    AdvanceShifts(j.Advance(), 0);
    AdvanceShifts(j, 1);
    FaultCounts(t1);
    var t2 := QueryStatus(t1);
    AdvanceShifts(j.Advance().Advance(), 0);
    AdvanceShifts(j.Advance(), 1);
    AdvanceShifts(j, 2);
    FaultCounts(t2);
    var t3 := QueryStatus(t2);
    assert t3.failures == 3 && t3.status == t.status;
    var t4 := QueryStatus(t3);
    assert t4 == Assign(t3, RawFailedToGetStatus);
  }

  // ---------------------------------------------------------------------------
  // The export list

  /** `add_task`. */
  function AddTask(tasks: seq<Task>, t: Task): (r: seq<Task>)
    ensures |r| == |tasks| + 1 && r[..|tasks|] == tasks && r[|tasks|] == t
  {
    tasks + [t]
  }

  /** The targets an `export_summary` filter selects: none or "" selects both,
      otherwise the lower-cased filter must name one target. */
  function FilterTargets(filter: Option<string>): (r: Result<set<Target>>)
    ensures filter.None? || filter == Some("") ==> r == Ok({Gee, Gdrive})
    ensures filter.Some? && filter.value != "" ==>
              (r.Ok? <==> ParseTarget(filter.value).Ok?) &&
              (r.Ok? ==> r.value == {ParseTarget(filter.value).value})
    ensures r.Err? ==> r.error.ValueError?
  {
    if filter.None? || filter.value == "" then Ok({Gee, Gdrive})
    else
      match ParseTarget(filter.value)
      case Ok(t) => Ok({t})
      case Err(_) => Err(ValueError("Invalid filter: " + Lower(filter.value) + ". Must be one of ['gee', 'gdrive']."))
  }

  /** The number of tasks in `ts` with category `c`. */
  function CountOf(ts: seq<Task>, c: Category): nat {
    |Filter(ts, (t: Task) => t.exportStatus == c)|
  }

  function Categorize(ts: seq<Task>): seq<Category> {
    Map(ts, (t: Task) => t.exportStatus)
  }

  /** A dictionary counting the occurrences of each category in `cats`. */
  function Tally(cats: seq<Category>): (r: map<Category, nat>)
    ensures forall c :: c in r <==> c in cats
    ensures forall c :: c in r ==> r[c] == multiset(cats)[c]
  {
    map c | c in cats :: multiset(cats)[c]
  }

  /** `export_summary`: one key per category present among the selected tasks,
      counting them; absent categories have no key. */
  function ExportSummary(ts: seq<Task>, filter: Option<string>): (r: Result<map<Category, nat>>)
    ensures r.Ok? <==> FilterTargets(filter).Ok?
    ensures r.Ok? ==> forall c :: Get(r.value, c) == CountOf(Selected(ts, FilterTargets(filter).value), c)
    ensures r.Ok? ==> forall c :: c in r.value <==> CountOf(Selected(ts, FilterTargets(filter).value), c) > 0
  {
    var targets :- FilterTargets(filter);
    var sel := Selected(ts, targets);
    forall c ensures CountOf(sel, c) == multiset(Categorize(sel))[c] {
      CountIsOccurrences(sel, c);
    }
    Ok(Tally(Categorize(sel)))
  }

  /** The tasks whose target passes the filter, in list order. */
  function Selected(ts: seq<Task>, targets: set<Target>): seq<Task> {
    Filter(ts, (t: Task) => t.target in targets)
  }

  lemma {:induction false} CountIsOccurrences(ts: seq<Task>, c: Category)
    ensures CountOf(ts, c) == multiset(Categorize(ts))[c]
    decreases |ts|
  {
    if |ts| > 0 {
      CountIsOccurrences(ts[1..], c);
      assert Categorize(ts) == [ts[0].exportStatus] + Categorize(ts[1..]);
    }
  }

  /** The value of a summary entry, 0 for an absent category. */
  function Get(summary: map<Category, nat>, c: Category): nat {
    if c in summary then summary[c] else 0
  }

  /** The sum of all entries of a summary. */
  function Total(summary: map<Category, nat>): nat {
    Get(summary, Excluded) + Get(summary, NotStarted) + Get(summary, Pending)
    + Get(summary, Completed) + Get(summary, Failed) + Get(summary, Unknown)
    + Get(summary, Other)
  }

  /** Every selected task is counted exactly once: the counts of a summary add
      up to the number of tasks whose target passes the filter. */
  lemma SummaryTotal(ts: seq<Task>, filter: Option<string>)
    requires ExportSummary(ts, filter).Ok?
    ensures Total(ExportSummary(ts, filter).value) == |Selected(ts, FilterTargets(filter).value)|
  {
    CountsAddUp(Selected(ts, FilterTargets(filter).value));
  }

  /** A category is a key of the summary exactly when some task of a selected
      target carries it. */
  lemma SummaryKeys(ts: seq<Task>, filter: Option<string>, c: Category)
    requires ExportSummary(ts, filter).Ok?
    ensures c in ExportSummary(ts, filter).value <==>
              exists i :: 0 <= i < |ts| && ts[i].target in FilterTargets(filter).value && ts[i].exportStatus == c
  {
    var targets := FilterTargets(filter).value;
    var sel := Selected(ts, targets);
    CountPositive(sel, c);
    FilterMembers(ts, (t: Task) => t.target in targets);
    assert forall t :: t in sel <==> t in ts && t.target in targets;
    if exists i :: 0 <= i < |ts| && ts[i].target in targets && ts[i].exportStatus == c {
      var i :| 0 <= i < |ts| && ts[i].target in targets && ts[i].exportStatus == c;
      assert ts[i] in sel;
    }
  }

  /** Some task carries `c` exactly when its count is positive. */
  lemma CountPositive(ts: seq<Task>, c: Category)
    ensures CountOf(ts, c) > 0 <==> exists t :: t in ts && t.exportStatus == c
  {
    var f := Filter(ts, (t: Task) => t.exportStatus == c);
    FilterMembers(ts, (t: Task) => t.exportStatus == c);
    if |f| > 0 {
      assert f[0] in f;
    }
  }

  lemma {:induction false} CountsAddUp(ts: seq<Task>)
    ensures CountOf(ts, Excluded) + CountOf(ts, NotStarted) + CountOf(ts, Pending)
            + CountOf(ts, Completed) + CountOf(ts, Failed) + CountOf(ts, Unknown)
            + CountOf(ts, Other) == |ts|
    decreases |ts|
  {
    if |ts| > 0 {
      CountsAddUp(ts[1..]);
      CountOfCons(ts, Excluded);
      CountOfCons(ts, NotStarted);
      CountOfCons(ts, Pending);
      CountOfCons(ts, Completed);
      CountOfCons(ts, Failed);
      CountOfCons(ts, Unknown);
      CountOfCons(ts, Other);
    }
  }

  lemma CountOfCons(ts: seq<Task>, c: Category)
    requires |ts| > 0
    ensures CountOf(ts, c) == (if ts[0].exportStatus == c then 1 else 0) + CountOf(ts[1..], c)
  {
  }

  /** `start_exports`: every NOT_STARTED task is started, every other task is
      left as it is, and order and count are preserved. Returns the updated
      list and the summary over both targets. */
  method StartExports(tasks: seq<Task>) returns (ts: seq<Task>, summary: map<Category, nat>)
    requires AllWf(tasks)
    ensures |ts| == |tasks| && AllWf(ts)
    ensures forall i :: 0 <= i < |ts| ==> ts[i].exportStatus != NotStarted
    ensures forall i :: 0 <= i < |ts| && tasks[i].status !in StatusesOf(NotStarted) ==> ts[i] == tasks[i]
    ensures forall i :: 0 <= i < |ts| ==> ts[i] == StartTask(tasks[i])
    ensures ExportSummary(ts, None) == Ok(summary)
  {
    ts := tasks;
    var i := 0;
    while i < |ts|
      invariant 0 <= i <= |ts| == |tasks|
      invariant forall j :: 0 <= j < i ==> ts[j] == StartTask(tasks[j])
      invariant forall j :: i <= j < |ts| ==> ts[j] == tasks[j]
    {
      if ts[i].status in StatusesOf(NotStarted) {
        ts := ts[i := StartTask(ts[i])];
      }
      i := i + 1;
    }
    StartedAll(tasks, ts);
    summary := ExportSummary(ts, None).value;
  }

  /** Every task of a started list is past NOT_STARTED, and the tasks that
      were not NOT_STARTED are unchanged. */
  lemma StartedAll(tasks: seq<Task>, ts: seq<Task>)
    requires AllWf(tasks) && |ts| == |tasks|
    requires forall i :: 0 <= i < |ts| ==> ts[i] == StartTask(tasks[i])
    ensures AllWf(ts)
    ensures forall i :: 0 <= i < |ts| ==> ts[i].exportStatus != NotStarted
    ensures forall i :: 0 <= i < |ts| && tasks[i].status !in StatusesOf(NotStarted) ==> ts[i] == tasks[i]
  {
    forall i | 0 <= i < |ts| ensures ts[i].exportStatus != NotStarted {
      StartTaskIdempotent(tasks[i]);
    }
  }

  // ---------------------------------------------------------------------------
  // Tracking

  predicate IsPending(t: Task) {
    t.status in UnfinishedStatuses()
  }

  /** What one pass of `track_exports` does to one task: a task already
      finished, or not PENDING, is left alone; a PENDING one is queried once. */
  function Visit(t: Task, finished: bool): (r: Task)
    requires Wf(t)
    ensures Wf(r)
    ensures finished || !IsPending(t) ==> r == t
    ensures !finished && IsPending(t) ==> r == QueryStatus(t)
  {
    if finished || !IsPending(t) then t else QueryStatus(t)
  }

  /** One pass of `track_exports` over the list. A task already finished is not
      looked at; a task that is not PENDING is finished without a query; a
      PENDING task is queried once and finished unless it is still PENDING.
      `running` tells whether some task is still PENDING, which is when the
      source sleeps before the next pass. */
  method Sweep(tasks: seq<Task>, finished: set<nat>) returns (ts: seq<Task>, done: set<nat>, running: bool)
    requires AllWf(tasks)
    requires forall i :: i in finished ==> i < |tasks| && !IsPending(tasks[i])
    ensures |ts| == |tasks| && AllWf(ts)
    ensures forall i :: 0 <= i < |ts| ==> ts[i] == Visit(tasks[i], i in finished)
    ensures finished <= done
    ensures forall i :: i in done <==> 0 <= i < |ts| && !IsPending(ts[i])
    ensures running <==> exists i :: 0 <= i < |ts| && IsPending(ts[i])
  {
    ts := tasks;
    done := finished;
    running := false;
    var i := 0;
    while i < |ts|
      invariant SweptUpTo(tasks, finished, ts, done, running, i)
      invariant AllWf(ts)
    {
      var t := Visit(ts[i], i in done);
      SweepStep(tasks, finished, ts, done, running, i, t);
      ts, done, running := ts[i := t], (if !IsPending(t) then done + {i} else done), running || IsPending(t);
      i := i + 1;
    }
    SweptAll(tasks, finished, ts, done, running);
  }

  /** The state of a sweep after the first `i` tasks. */
  predicate SweptUpTo(tasks: seq<Task>, finished: set<nat>, ts: seq<Task>, done: set<nat>, running: bool, i: int) {
    && AllWf(tasks) && 0 <= i <= |ts| == |tasks|
    && TasksSwept(tasks, finished, ts, i)
    && DoneSwept(tasks, finished, ts, done, i)
    && RunningSwept(ts, running, i)
  }

  /** The first `i` tasks have been visited, the others are untouched. */
  predicate TasksSwept(tasks: seq<Task>, finished: set<nat>, ts: seq<Task>, i: int)
    requires AllWf(tasks) && 0 <= i <= |ts| == |tasks|
  {
    && (forall j :: i <= j < |ts| ==> ts[j] == tasks[j])
    && (forall j :: 0 <= j < i ==> ts[j] == Visit(tasks[j], j in finished))
  }

  /** `done` holds the tasks finished before the pass and the visited tasks
      that are not PENDING. */
  predicate DoneSwept(tasks: seq<Task>, finished: set<nat>, ts: seq<Task>, done: set<nat>, i: int)
    requires 0 <= i <= |ts| == |tasks|
  {
    && finished <= done
    && (forall j :: j in done ==> j in finished || (j < i && !IsPending(ts[j])))
    && (forall j :: j in finished ==> j < |tasks| && !IsPending(tasks[j]))
    && (forall j :: 0 <= j < i && !IsPending(ts[j]) ==> j in done)
  }

  /** `running` tells whether a visited task is still PENDING. */
  predicate RunningSwept(ts: seq<Task>, running: bool, i: int)
    requires 0 <= i <= |ts|
  {
    running <==> exists j :: 0 <= j < i && IsPending(ts[j])
  }

  lemma SweepStep(tasks: seq<Task>, finished: set<nat>, ts: seq<Task>, done: set<nat>, running: bool, i: int, t: Task)
    requires SweptUpTo(tasks, finished, ts, done, running, i) && i < |ts|
    requires t == Visit(ts[i], i in done)
    ensures SweptUpTo(tasks, finished, ts[i := t], if !IsPending(t) then done + {i} else done,
                      running || IsPending(t), i + 1)
  {
    assert i in done <==> i in finished;
    assert ts[i] == tasks[i];
    TasksStep(tasks, finished, ts, i, t);
    DoneStep(tasks, finished, ts, done, i, t);
    RunningStep(ts, running, i, t);
  }

  lemma TasksStep(tasks: seq<Task>, finished: set<nat>, ts: seq<Task>, i: int, t: Task)
    requires AllWf(tasks) && 0 <= i < |ts| == |tasks| && TasksSwept(tasks, finished, ts, i)
    requires t == Visit(tasks[i], i in finished)
    ensures TasksSwept(tasks, finished, ts[i := t], i + 1)
  {
  }

  lemma DoneStep(tasks: seq<Task>, finished: set<nat>, ts: seq<Task>, done: set<nat>, i: int, t: Task)
    requires 0 <= i < |ts| == |tasks| && DoneSwept(tasks, finished, ts, done, i)
    ensures DoneSwept(tasks, finished, ts[i := t], if !IsPending(t) then done + {i} else done, i + 1)
  {
  }

  lemma RunningStep(ts: seq<Task>, running: bool, i: int, t: Task)
    requires 0 <= i < |ts| && RunningSwept(ts, running, i)
    ensures RunningSwept(ts[i := t], running || IsPending(t), i + 1)
  {
    var ts' := ts[i := t];
    assert forall j :: 0 <= j < i ==> ts'[j] == ts[j];
    if IsPending(t) {
      assert ts'[i] == t;
    }
  }

  lemma SweptAll(tasks: seq<Task>, finished: set<nat>, ts: seq<Task>, done: set<nat>, running: bool)
    requires SweptUpTo(tasks, finished, ts, done, running, |ts|)
    ensures |ts| == |tasks| && AllWf(ts)
    ensures forall i :: 0 <= i < |ts| ==> ts[i] == Visit(tasks[i], i in finished)
    ensures finished <= done
    ensures forall i :: i in done <==> 0 <= i < |ts| && !IsPending(ts[i])
    ensures running <==> exists i :: 0 <= i < |ts| && IsPending(ts[i])
  {
    forall j | j in finished ensures !IsPending(ts[j]) {
      assert ts[j] == Visit(tasks[j], true);
    }
    assert AllWf(ts) by {
      forall j | 0 <= j < |ts| ensures Wf(ts[j]) {
        assert ts[j] == Visit(tasks[j], j in finished);
      }
    }
  }

  /** The provider assumption under which tracking ends: every PENDING task has
      a job, and no job keeps answering with a PENDING state forever. */
  predicate Settles(ts: seq<Task>) {
    forall i :: 0 <= i < |ts| && IsPending(ts[i]) ==>
      ts[i].job.Some? && JobSettles(ts[i].job.value)
  }

  predicate JobSettles(j: Job) {
    !(j.last.State? && ParseStatus(Upper(j.last.state)).Some?
      && ParseStatus(Upper(j.last.state)).value in UnfinishedStatuses())
  }

  /** How much polling a task can still take: replies left in its script, and
      faults left in its retry budget. */
  function TaskRank(t: Task): nat {
    if !IsPending(t) then 0
    else
      var left := if t.job.Some? then |t.job.value.replies| else 0;
      1 + 5 * left + (if t.failures >= 3 then 0 else 3 - t.failures)
  }

  function Rank(ts: seq<Task>): nat {
    if |ts| == 0 then 0 else TaskRank(ts[0]) + Rank(ts[1..])
  }

  /** A query of a PENDING task that settles lowers its rank. */
  lemma QueryLowersRank(t: Task)
    requires Wf(t) && IsPending(t) && t.job.Some? && JobSettles(t.job.value)
    ensures TaskRank(QueryStatus(t)) < TaskRank(t)
    ensures IsPending(QueryStatus(t)) ==> QueryStatus(t).job.Some? && JobSettles(QueryStatus(t).job.value)
  {
    if t.failures >= MaxStatusUpdateFailures {
      GiveUpFinishes(t);
    } else if AcceptedReply(t.job.value.Next()) {
      AcceptedLowersRank(t);
    } else {
      RejectedLowersRank(t);
    }
  }

  lemma GiveUpFinishes(t: Task)
    requires Wf(t) && IsPending(t) && t.job.Some? && t.failures >= MaxStatusUpdateFailures
    ensures !IsPending(QueryStatus(t))
  {
    assert QueryStatus(t).status == RawFailedToGetStatus;
  }

  lemma AcceptedLowersRank(t: Task)
    requires Wf(t) && IsPending(t) && t.job.Some? && JobSettles(t.job.value)
    requires t.failures < MaxStatusUpdateFailures && AcceptedReply(t.job.value.Next())
    ensures TaskRank(QueryStatus(t)) < TaskRank(t)
    ensures IsPending(QueryStatus(t)) ==> QueryStatus(t).job.Some? && JobSettles(QueryStatus(t).job.value)
  {
    var r := QueryStatus(t);
    var j := t.job.value;
    assert Queried(t);
    if IsPending(r) {
      ParseStatusName(r.status);
      assert |j.replies| > 0;
    }
  }

  lemma RejectedLowersRank(t: Task)
    requires Wf(t) && IsPending(t) && t.job.Some? && JobSettles(t.job.value)
    requires t.failures < MaxStatusUpdateFailures && !AcceptedReply(t.job.value.Next())
    ensures TaskRank(QueryStatus(t)) < TaskRank(t)
    ensures IsPending(QueryStatus(t)) ==> QueryStatus(t).job.Some? && JobSettles(QueryStatus(t).job.value)
  {
    assert Queried(t);
  }

  /** Ranks are summed pointwise. */
  lemma {:induction false} RankPointwise(a: seq<Task>, b: seq<Task>, k: nat)
    requires |a| == |b| && k < |a|
    requires forall i :: 0 <= i < |a| ==> TaskRank(b[i]) <= TaskRank(a[i])
    requires TaskRank(b[k]) < TaskRank(a[k])
    ensures Rank(b) < Rank(a)
    decreases |a|
  {
    if k > 0 {
      RankPointwise(a[1..], b[1..], k - 1);
    } else {
      RankMono(a[1..], b[1..]);
    }
  }

  lemma {:induction false} RankMono(a: seq<Task>, b: seq<Task>)
    requires |a| == |b|
    requires forall i :: 0 <= i < |a| ==> TaskRank(b[i]) <= TaskRank(a[i])
    ensures Rank(b) <= Rank(a)
    decreases |a|
  {
    if |a| > 0 {
      RankMono(a[1..], b[1..]);
    }
  }

  lemma VisitLowersRank(t: Task, finished: bool)
    requires Wf(t) && (finished ==> !IsPending(t))
    requires IsPending(t) ==> t.job.Some? && JobSettles(t.job.value)
    ensures TaskRank(Visit(t, finished)) <= TaskRank(t)
    ensures IsPending(Visit(t, finished)) ==> TaskRank(Visit(t, finished)) < TaskRank(t)
    ensures IsPending(Visit(t, finished)) ==>
              Visit(t, finished).job.Some? && JobSettles(Visit(t, finished).job.value)
  {
    if !finished && IsPending(t) {
      QueryLowersRank(t);
    }
  }

  /** A sweep keeps the provider assumption and does not raise the rank; it
      lowers it when some task is still PENDING afterwards. */
  lemma SweepLowersRank(before: seq<Task>, after: seq<Task>, finished: set<nat>)
    requires |before| == |after| && AllWf(before) && Settles(before)
    requires forall i :: i in finished ==> i < |before| && !IsPending(before[i])
    requires forall i :: 0 <= i < |after| ==> after[i] == Visit(before[i], i in finished)
    ensures Settles(after)
    ensures Rank(after) <= Rank(before)
    ensures (exists i :: 0 <= i < |after| && IsPending(after[i])) ==> Rank(after) < Rank(before)
  {
    forall i | 0 <= i < |after|
      ensures TaskRank(after[i]) <= TaskRank(before[i])
      ensures IsPending(after[i]) ==> TaskRank(after[i]) < TaskRank(before[i])
      ensures IsPending(after[i]) ==> after[i].job.Some? && JobSettles(after[i].job.value)
    {
      VisitLowersRank(before[i], i in finished);
    }
    if exists i :: 0 <= i < |after| && IsPending(after[i]) {
      var k :| 0 <= k < |after| && IsPending(after[k]);
      RankPointwise(before, after, k);
    } else {
      RankMono(before, after);
    }
  }

  /** A sweep leaves alone every task that was not PENDING when tracking
      began, and every task without a job. */
  lemma SweepKeeps(tasks: seq<Task>, before: seq<Task>, after: seq<Task>, finished: set<nat>)
    requires |tasks| == |before| == |after| && AllWf(before)
    requires forall i :: 0 <= i < |after| ==> after[i] == Visit(before[i], i in finished)
    requires forall i :: 0 <= i < |before| && !IsPending(tasks[i]) ==> before[i] == tasks[i]
    requires forall i :: 0 <= i < |before| && tasks[i].job.None? ==> before[i] == tasks[i]
    ensures forall i :: 0 <= i < |after| && !IsPending(tasks[i]) ==> after[i] == tasks[i]
    ensures forall i :: 0 <= i < |after| && tasks[i].job.None? ==> after[i] == tasks[i]
  {
  }

  /** What holds of the list between two sweeps of `track_exports`: the
      provider assumption, the finished indexes, and the tasks never touched. */
  predicate Tracking(tasks: seq<Task>, ts: seq<Task>, finished: set<nat>) {
    && |ts| == |tasks| && AllWf(ts) && Settles(ts)
    && (forall i :: i in finished ==> i < |ts| && !IsPending(ts[i]))
    && (forall i :: 0 <= i < |ts| && !IsPending(tasks[i]) ==> ts[i] == tasks[i])
    && (forall i :: 0 <= i < |ts| && tasks[i].job.None? ==> ts[i] == tasks[i])
  }

  /** One sweep keeps `Tracking`, lowers the rank while some task is still
      PENDING, and leaves none PENDING otherwise. */
  method TrackStep(tasks: seq<Task>, before: seq<Task>, finished: set<nat>)
    returns (after: seq<Task>, done: set<nat>, running: bool)
    requires Tracking(tasks, before, finished)
    ensures Tracking(tasks, after, done)
    ensures Rank(after) <= Rank(before)
    ensures running ==> Rank(after) < Rank(before)
    ensures !running ==> forall i :: 0 <= i < |after| ==> !IsPending(after[i])
  {
    after, done, running := Sweep(before, finished);
    SweepLowersRank(before, after, finished);
    SweepKeeps(tasks, before, after, finished);
  }

  /** `track_exports`: sweeps until no task is PENDING. Every sweep but the
      last is followed by a sleep, which the trace `slept` records; a task not
      PENDING at the start, or without a job, is never changed. Terminates
      under `Settles`. */
  method TrackExports(tasks: seq<Task>) returns (ts: seq<Task>, slept: seq<bool>, summary: map<Category, nat>)
    requires AllWf(tasks)
    requires Settles(tasks)
    ensures |ts| == |tasks| && AllWf(ts)
    ensures forall i :: 0 <= i < |ts| ==> !IsPending(ts[i])
    ensures forall i :: 0 <= i < |ts| && !IsPending(tasks[i]) ==> ts[i] == tasks[i]
    ensures forall i :: 0 <= i < |ts| && tasks[i].job.None? ==> ts[i] == tasks[i]
    ensures |slept| >= 1 && !slept[|slept| - 1]
    ensures forall k :: 0 <= k < |slept| - 1 ==> slept[k]
    ensures ExportSummary(ts, None) == Ok(summary)
  {
    ts := tasks;
    var finished: set<nat> := {};
    var running := true;
    slept := [];
    while running
      invariant Tracking(tasks, ts, finished)
      invariant running ==> forall k :: 0 <= k < |slept| ==> slept[k]
      invariant !running ==> forall i :: 0 <= i < |ts| ==> !IsPending(ts[i])
      invariant !running ==> |slept| >= 1 && !slept[|slept| - 1]
      invariant !running ==> forall k :: 0 <= k < |slept| - 1 ==> slept[k]
      decreases Rank(ts) + (if running then 1 else 0)
    {
      ts, finished, running := TrackStep(tasks, ts, finished);
      slept := slept + [running];
    }
    summary := ExportSummary(ts, None).value;
  }
}
