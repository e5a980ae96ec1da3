/** The planning steps of an export run: reading the saved inventories into month
    keys, reconciling the requested months with the months available upstream
    and with each destination's inventory, and creating one export task per
    month still to save. Listing the inventories and creating the Earth Engine
    export are outside the model: their results are parameters. */
module Workflows {
  import opened Wrappers
  import opened Text
  import opened Seqs
  import opened Sorting
  import opened Status
  import opened Exports
  import opened Assets
  import opened Exporting

  // ---------------------------------------------------------------------------
  // Saved-asset normalisation

  /** `re.fullmatch` of the saved-image pattern: `prefix_DDDD-DD` when there is
      a prefix (taken literally), otherwise `.*_DDDD-DD`, where `.` matches
      anything but a newline. */
  predicate MatchesSaved(name: string, prefix: string) {
    if prefix != "" then
      && |name| == |prefix| + 8 && name[..|prefix|] == prefix && name[|prefix|] == '_'
      && IsYearMonth(name[|prefix| + 1..])
    else
      && |name| >= 8 && name[|name| - 8] == '_' && IsYearMonth(name[|name| - 7..])
      && '\n' !in name[..|name| - 8]
  }

  /** A matching name ends in a year-month token. */
  lemma MatchEndsInYearMonth(name: string, prefix: string)
    requires MatchesSaved(name, prefix)
    ensures IsYearMonth(Last7(name))
  {
  }

  /** The month key of a year-month token: its first day. */
  function FirstOfMonth(ym: string): string {
    ym + "-01"
  }

  /** A month key as the inventories produce it: `YYYY-MM-01` with MM in
      01..12. */
  predicate IsMonthKey(s: string) {
    |s| == 10 && AcceptedMonth(s[..7]) && s[7..] == "-01"
  }

  /** The names the pattern is applied to: GEE asset ids are reduced to their
      last path component, Drive file names are used as they are. */
  function ListedNames(listing: seq<string>, target: Target): (r: seq<string>)
    ensures |r| == |listing|
    ensures forall k :: 0 <= k < |r| ==> r[k] == if target == Gee then Basename(listing[k]) else listing[k]
  {
    if target == Gee then Map(listing, Basename) else listing
  }

  /** The filtering steps of `get_gee_saved_assets` and
      `get_gdrive_saved_assets`: the names matching the pattern, in listing
      order, and their month keys, newest first, one per name whose month is
      1 to 12. */
  method GetSavedAssets(listing: seq<string>, target: Target, prefix: string) returns (saved: seq<string>, months: seq<string>)
    ensures saved == Filter(ListedNames(listing, target), SavedPattern(prefix))
    ensures forall k :: 0 <= k < |saved| ==> MatchesSaved(saved[k], prefix)
    ensures forall x :: x in saved <==> x in ListedNames(listing, target) && MatchesSaved(x, prefix)
    ensures |months| <= |saved|
    ensures forall k :: 0 <= k < |months| ==> IsMonthKey(months[k])
    ensures SortedDesc(months)
    ensures forall x :: x in months <==> IsMonthKey(x) && CountTrailing(saved, x[..7]) > 0
    ensures forall x :: IsMonthKey(x) ==> multiset(months)[x] == CountTrailing(saved, x[..7])
  {
    saved := KeepMatching(ListedNames(listing, target), prefix);
    var yms := GetTrailingYm(saved);
    months := AppendFirstDay(yms);
    forall x ensures x in months <==> IsMonthKey(x) && CountTrailing(saved, x[..7]) > 0 {
      MonthKeyFound(saved, yms, months, x);
    }
    forall x | IsMonthKey(x) ensures multiset(months)[x] == CountTrailing(saved, x[..7]) {
      MonthKeyCount(yms, months, x);
    }
  }

  /** Each key occurs as often as its year-month token. */
  lemma {:induction false} MonthKeyCount(yms: seq<string>, months: seq<string>, x: string)
    requires forall k :: 0 <= k < |yms| ==> AcceptedMonth(yms[k])
    requires |months| == |yms|
    requires forall k :: 0 <= k < |months| ==> months[k] == FirstOfMonth(yms[k])
    requires IsMonthKey(x)
    ensures multiset(months)[x] == multiset(yms)[x[..7]]
    decreases |yms|
  {
    if |yms| > 0 {
      MonthKeyCount(yms[1..], months[1..], x);
      assert yms == [yms[0]] + yms[1..] && months == [months[0]] + months[1..];
      assert AcceptedMonth(yms[0]);
      assert x == x[..7] + "-01";
      assert months[0] == x <==> yms[0] == x[..7];
    }
  }

  /** The saved-image pattern as a test on names. */
  function SavedPattern(prefix: string): string -> bool {
    name => MatchesSaved(name, prefix)
  }

  /** The names matching the pattern, in order, duplicates kept: the list
      comprehension of the source. */
  method KeepMatching(names: seq<string>, prefix: string) returns (saved: seq<string>)
    ensures saved == Filter(names, SavedPattern(prefix))
    ensures forall k :: 0 <= k < |saved| ==> MatchesSaved(saved[k], prefix)
    ensures forall x :: x in saved <==> x in names && MatchesSaved(x, prefix)
  {
    saved := [];
    var i := 0;
    while i < |names|
      invariant 0 <= i <= |names|
      invariant saved == Filter(names[..i], SavedPattern(prefix))
    {
      FilterSnoc(names[..i], names[i], SavedPattern(prefix));
      if MatchesSaved(names[i], prefix) {
        saved := saved + [names[i]];
      }
      assert names[..i + 1] == names[..i] + [names[i]];
      i := i + 1;
    }
    assert names[..i] == names;
    FilterMembers(names, SavedPattern(prefix));
  }

  lemma MonthKeyFound(saved: seq<string>, yms: seq<string>, months: seq<string>, x: string)
    requires forall k :: 0 <= k < |yms| ==> AcceptedMonth(yms[k])
    requires forall y :: AcceptedMonth(y) ==> multiset(yms)[y] == CountTrailing(saved, y)
    requires |months| == |yms|
    requires forall k :: 0 <= k < |months| ==> months[k] == FirstOfMonth(yms[k]) && IsMonthKey(months[k])
    ensures x in months <==> IsMonthKey(x) && CountTrailing(saved, x[..7]) > 0
  {
    if x in months {
      var k :| 0 <= k < |months| && months[k] == x;
      assert AcceptedMonth(yms[k]);
      assert x[..7] == yms[k];
      assert yms[k] in multiset(yms);
    }
    if IsMonthKey(x) && CountTrailing(saved, x[..7]) > 0 {
      assert x[..7] in multiset(yms);
      var k :| 0 <= k < |yms| && yms[k] == x[..7];
      assert x == x[..7] + x[7..];
      assert months[k] == x;
    }
  }

  /** Appends `-01` to every accepted year-month token; descending order is
      kept. */
  function AppendFirstDay(yms: seq<string>): (r: seq<string>)
    requires forall k :: 0 <= k < |yms| ==> AcceptedMonth(yms[k])
    requires SortedDesc(yms)
    ensures |r| == |yms|
    ensures forall k :: 0 <= k < |r| ==> r[k] == FirstOfMonth(yms[k]) && IsMonthKey(r[k])
    ensures SortedDesc(r)
  {
    var r := Map(yms, FirstOfMonth);
    forall k | 0 <= k < |r| ensures IsMonthKey(r[k]) {
      assert AcceptedMonth(yms[k]);
      assert r[k] == yms[k] + "-01";
      assert r[k][..7] == yms[k];
    }
    forall i, j | 0 <= i < j < |r| ensures LexLe(r[j], r[i]) {
      assert AcceptedMonth(yms[i]) && AcceptedMonth(yms[j]);
      LexLeSuffix(yms[j], yms[i], "-01");
    }
    r
  }

  /** Appending the same text to two strings of equal length keeps their
      order. */
  lemma {:induction false} LexLeSuffix(a: string, b: string, s: string)
    requires |a| == |b| && LexLe(a, b)
    ensures LexLe(a + s, b + s)
    decreases |a|
  {
    if |a| == 0 {
      assert a + s == s && b + s == s;
      LexLeReflexive(s);
    } else if a[0] == b[0] {
      LexLeSuffix(a[1..], b[1..], s);
      assert (a + s)[1..] == a[1..] + s;
      assert (b + s)[1..] == b[1..] + s;
    }
  }

  // ---------------------------------------------------------------------------
  // Tasks the planning steps create

  /** `ExportTask(image, date, target, status, task)` for a target and a status
      the package's own code passes. */
  function Fresh(image: string, date: string, target: Target, s: RawStatus, job: Option<Job>): (t: Task)
    ensures Wf(t) && t.status == s && t.image == image && t.date == date && t.target == target
    ensures t.job == job && t.error == None && t.failures == 0
  {
    Assign(Task(job, image, date, target, RawPlanned, NotStarted, None, 0), s)
  }

  /** `Fresh` is what the constructor builds from the target's and the
      status's names. */
  lemma FreshIsNewTask(image: string, date: string, target: Target, s: RawStatus, job: Option<Job>)
    ensures NewTask(image, date, TargetName(target), StatusName(s), job) == Ok(Fresh(image, date, target, s, job))
  {
    ParseTargetName(target);
    AssignIsSetStatus(Task(job, image, date, target, RawPlanned, NotStarted, None, 0), s);
  }

  /** `f"{image_prefix}_{month[:7]}"`. */
  function ImageName(prefix: string, month: string): (r: string)
    ensures |r| == |prefix| + 1 + (if |month| < 7 then |month| else 7)
  {
    prefix + "_" + (if |month| <= 7 then month else month[..7])
  }

  /** The image created for a month key is read back, by the saved-asset
      pattern, as an image of that same month: export and inventory agree on
      names. */
  lemma ImageNameSaved(prefix: string, month: string)
    requires IsMonthKey(month)
    ensures MatchesSaved(ImageName(prefix, month), prefix)
    ensures Last7(ImageName(prefix, month)) == month[..7]
    ensures FirstOfMonth(Last7(ImageName(prefix, month))) == month
  {
    var name := ImageName(prefix, month);
    var ym := month[..7];
    assert name == prefix + "_" + ym;
    assert name[|prefix|] == '_';
    assert name[..|prefix|] == prefix;
    assert name[|prefix| + 1..] == ym;
    assert month == ym + "-01";
  }

  // ---------------------------------------------------------------------------
  // target_export_plan

  /** The months of `plan` not in `existing`, in plan order, duplicates kept. */
  function ToSave(plan: seq<string>, existing: seq<string>): (r: seq<string>)
    ensures |r| <= |plan|
  {
    if |plan| == 0 then []
    else
      var n := |plan| - 1;
      ToSave(plan[..n], existing) + (if plan[n] in existing then [] else [plan[n]])
  }

  /** The months to save are the months of the plan not in the inventory. */
  lemma {:induction false} ToSaveMembers(plan: seq<string>, existing: seq<string>)
    ensures forall x :: x in ToSave(plan, existing) <==> x in plan && x !in existing
    decreases |plan|
  {
    if |plan| > 0 {
      var n := |plan| - 1;
      ToSaveMembers(plan[..n], existing);
      assert plan == plan[..n] + [plan[n]];
    }
  }

  /** The months of `plan` found in `existing`, in plan order, duplicates kept. */
  function Existing(plan: seq<string>, existing: seq<string>): (r: seq<string>)
    ensures |r| <= |plan|
  {
    if |plan| == 0 then []
    else
      var n := |plan| - 1;
      Existing(plan[..n], existing) + (if plan[n] in existing then [plan[n]] else [])
  }

  /** The months found are the months of the plan in the inventory. */
  lemma {:induction false} ExistingMembers(plan: seq<string>, existing: seq<string>)
    ensures forall x :: x in Existing(plan, existing) <==> x in plan && x in existing
    decreases |plan|
  {
    if |plan| > 0 {
      var n := |plan| - 1;
      ExistingMembers(plan[..n], existing);
      assert plan == plan[..n] + [plan[n]];
    }
  }

  /** The two sides split the plan without loss or duplication. */
  lemma {:induction false} ToSaveExistingPartition(plan: seq<string>, existing: seq<string>)
    ensures multiset(ToSave(plan, existing)) + multiset(Existing(plan, existing)) == multiset(plan)
    decreases |plan|
  {
    if |plan| > 0 {
      var n := |plan| - 1;
      var front := plan[..n];
      ToSaveExistingPartition(front, existing);
      assert plan == front + [plan[n]];
      assert multiset(plan) == multiset(front) + multiset{plan[n]};
      if plan[n] in existing {
        assert ToSave(plan, existing) == ToSave(front, existing);
        assert multiset(Existing(plan, existing)) == multiset(Existing(front, existing)) + multiset{plan[n]};
      } else {
        assert Existing(plan, existing) == Existing(front, existing);
        assert multiset(ToSave(plan, existing)) == multiset(ToSave(front, existing)) + multiset{plan[n]};
      }
    }
  }

  /** `ToSave` is the order-preserving filter `[m for m in plan if m not in existing]`. */
  lemma {:induction false} ToSaveIsFilter(plan: seq<string>, existing: seq<string>)
    ensures ToSave(plan, existing) == Filter(plan, x => x !in existing)
    decreases |plan|
  {
    if |plan| > 0 {
      var n := |plan| - 1;
      ToSaveIsFilter(plan[..n], existing);
      assert plan == plan[..n] + [plan[n]];
      FilterSnoc(plan[..n], plan[n], x => x !in existing);
    }
  }

  /** The ALREADY_EXISTS task of one month. */
  function AlreadyExists(prefix: string, month: string, target: Target): Task {
    Fresh(ImageName(prefix, month), month, target, RawAlreadyExists, None)
  }

  /** The ALREADY_EXISTS tasks `target_export_plan` appends: one per month of
      `plan` found in `existing`, in plan order. */
  function ExistingTasks(plan: seq<string>, existing: seq<string>, prefix: string, target: Target): (r: seq<Task>)
    ensures |r| == |Existing(plan, existing)|
  {
    if |plan| == 0 then []
    else
      var n := |plan| - 1;
      ExistingTasks(plan[..n], existing, prefix, target)
        + (if plan[n] in existing then [AlreadyExists(prefix, plan[n], target)] else [])
  }

  /** The `k`-th ALREADY_EXISTS task is the one of the `k`-th month found. */
  lemma {:induction false} ExistingTasksAt(plan: seq<string>, existing: seq<string>, prefix: string, target: Target, k: nat)
    requires k < |ExistingTasks(plan, existing, prefix, target)|
    ensures ExistingTasks(plan, existing, prefix, target)[k] == AlreadyExists(prefix, Existing(plan, existing)[k], target)
    decreases |plan|
  {
    var n := |plan| - 1;
    var front := ExistingTasks(plan[..n], existing, prefix, target);
    if k < |front| {
      ExistingTasksAt(plan[..n], existing, prefix, target, k);
    }
  }

  /** Every ALREADY_EXISTS task is excluded from submission, carries the
      target, no job, and a month of the plan found in the inventory. */
  lemma ExistingTasksShape(plan: seq<string>, existing: seq<string>, prefix: string, target: Target, k: nat)
    requires k < |ExistingTasks(plan, existing, prefix, target)|
    ensures var t := ExistingTasks(plan, existing, prefix, target)[k];
            && Wf(t) && t.status == RawAlreadyExists && t.exportStatus == Excluded
            && t.target == target && t.job.None? && t.error.None? && t.failures == 0
            && t.date in plan && t.date in existing && t.image == ImageName(prefix, t.date)
  {
    var e := Existing(plan, existing);
    ExistingTasksAt(plan, existing, prefix, target, k);
    ExistingMembers(plan, existing);
    assert e[k] in e;
  }

  /** The manager with the to-save list of `target` replaced. */
  function WithToSave(m: ExportManager, target: Target, toSave: seq<string>): (r: ExportManager)
    ensures target == Gee ==> r == m.(gee := m.gee.(toSave := toSave))
    ensures target == Gdrive ==> r == m.(gdrive := m.gdrive.(toSave := toSave))
  {
    match target
    case Gee => m.(gee := m.gee.(toSave := toSave))
    case Gdrive => m.(gdrive := m.gdrive.(toSave := toSave))
  }

  /** `target_export_plan`: appends an ALREADY_EXISTS task for every month of
      the plan already in the destination's inventory and sets the
      destination's to-save list to the other months. The list is assigned
      inside the loop, so an empty plan leaves it as it was. Only the task
      list and that destination's to-save list change. */
  method TargetExportPlan(m: ExportManager, target: Target, plan: seq<string>, existing: seq<string>, prefix: string)
    returns (r: ExportManager)
    ensures r.tasks == m.tasks + ExistingTasks(plan, existing, prefix, target)
    ensures r.imagePrefix == m.imagePrefix && r.plan == m.plan
    ensures target == Gee ==> r.gdrive == m.gdrive
    ensures target == Gee ==> r.gee == if plan != [] then m.gee.(toSave := ToSave(plan, existing)) else m.gee
    ensures target == Gdrive ==> r.gee == m.gee
    ensures target == Gdrive ==> r.gdrive == if plan != [] then m.gdrive.(toSave := ToSave(plan, existing)) else m.gdrive
  {
    var targetPlan, tasks := SplitPlan(m.tasks, plan, existing, prefix, target);
    r := m.(tasks := tasks);
    if plan != [] {
      r := WithToSave(r, target, targetPlan);
    }
  }

  /** The loop of `target_export_plan`: the months still to save, and the task
      list with an ALREADY_EXISTS task appended per month already saved. */
  method SplitPlan(tasks0: seq<Task>, plan: seq<string>, existing: seq<string>, prefix: string, target: Target)
    returns (targetPlan: seq<string>, tasks: seq<Task>)
    ensures targetPlan == ToSave(plan, existing)
    ensures tasks == tasks0 + ExistingTasks(plan, existing, prefix, target)
  {
    targetPlan := [];
    var added: seq<Task> := [];
    var i := 0;
    while i < |plan|
      invariant 0 <= i <= |plan|
      invariant targetPlan == ToSave(plan[..i], existing)
      invariant added == ExistingTasks(plan[..i], existing, prefix, target)
    {
      var month := plan[i];
      PlanSnoc(plan, existing, prefix, target, i);
      if month in existing {
        added := added + [AlreadyExists(prefix, month, target)];
      } else {
        targetPlan := targetPlan + [month];
      }
      i := i + 1;
    }
    assert plan[..i] == plan;
    tasks := tasks0 + added;
  }

  lemma PlanSnoc(plan: seq<string>, existing: seq<string>, prefix: string, target: Target, i: nat)
    requires i < |plan|
    ensures ToSave(plan[..i + 1], existing) == ToSave(plan[..i], existing) + (if plan[i] in existing then [] else [plan[i]])
    ensures ExistingTasks(plan[..i + 1], existing, prefix, target)
            == ExistingTasks(plan[..i], existing, prefix, target) + (if plan[i] in existing then [AlreadyExists(prefix, plan[i], target)] else [])
  {
    assert plan[..i + 1][..i] == plan[..i];
  }

  // ---------------------------------------------------------------------------
  // determine_export_plan

  const ImageUnavailable := "IMAGE_UNAVAILABLE"

  /** The keys of `excluded`: the planned months missing upstream, each once,
      in order of first appearance, as a dictionary keeps them. */
  function Unavailable(planned: seq<string>, available: seq<string>): (r: seq<string>)
    ensures forall x :: x in r <==> x in planned && x !in available
    ensures forall i, j :: 0 <= i < j < |r| ==> r[i] != r[j]
  {
    if |planned| == 0 then []
    else
      var n := |planned| - 1;
      var prev := Unavailable(planned[..n], available);
      assert planned == planned[..n] + [planned[n]];
      if planned[n] !in available && planned[n] !in prev then prev + [planned[n]] else prev
  }

  function UnavailableEntry(month: string): (string, string) {
    (month, ImageUnavailable)
  }

  /** The final plan drops exactly the unavailable months: it and the
      excluded keys split the planned months. */
  lemma {:induction false} FinalPlanPartition(planned: seq<string>, available: seq<string>)
    ensures var final := ToSave(planned, Unavailable(planned, available));
            && (forall x :: x in final <==> x in planned && x in available)
            && multiset(final) + multiset(Existing(planned, Unavailable(planned, available))) == multiset(planned)
  {
    ToSaveExistingPartition(planned, Unavailable(planned, available));
    ToSaveMembers(planned, Unavailable(planned, available));
  }

  /** `determine_export_plan`: records the unavailable months as excluded and
      the remaining months as the final plan, then runs `target_export_plan`
      for each enabled destination against its inventory. `available` is the
      list of months the upstream collection has. */
  method DetermineExportPlan(m: ExportManager, available: seq<string>) returns (r: ExportManager)
    ensures var keys := Unavailable(m.plan.planned, available);
            && r.plan.planned == m.plan.planned
            && r.plan.excluded == Map(keys, UnavailableEntry)
            && r.plan.finalPlan == Some(ToSave(m.plan.planned, keys))
    ensures var final := ToSave(m.plan.planned, Unavailable(m.plan.planned, available));
            && r.tasks == m.tasks
                 + (if m.gee.enabled then ExistingTasks(final, m.gee.savedMonths, m.imagePrefix, Gee) else [])
                 + (if m.gdrive.enabled then ExistingTasks(final, m.gdrive.savedMonths, m.imagePrefix, Gdrive) else [])
            && r.gee == (if m.gee.enabled && final != [] then m.gee.(toSave := ToSave(final, m.gee.savedMonths)) else m.gee)
            && r.gdrive == (if m.gdrive.enabled && final != [] then m.gdrive.(toSave := ToSave(final, m.gdrive.savedMonths)) else m.gdrive)
    ensures r.imagePrefix == m.imagePrefix
  {
    var planned := m.plan.planned;
    var keys := Unavailable(planned, available);
    var final := ToSave(planned, keys);
    var excluded := Map(keys, UnavailableEntry);
    r := m.(plan := m.plan.(excluded := excluded, finalPlan := Some(final)));
    ghost var afterPlan := r;
    if r.gee.enabled {
      r := TargetExportPlan(r, Gee, final, r.gee.savedMonths, r.imagePrefix);
    }
    ghost var afterGee := r;
    assert afterGee.gdrive == m.gdrive && afterGee.imagePrefix == m.imagePrefix && afterGee.plan == afterPlan.plan;
    if r.gdrive.enabled {
      r := TargetExportPlan(r, Gdrive, final, r.gdrive.savedMonths, r.imagePrefix);
    }
    assert r.plan == afterPlan.plan;
  }

  /** A month missing upstream reaches neither destination: it is in no new
      to-save list and in no ALREADY_EXISTS task, whatever the inventories
      hold. */
  lemma UnavailableNeverPlanned(m: ExportManager, available: seq<string>, x: string)
    requires x !in available
    ensures var final := ToSave(m.plan.planned, Unavailable(m.plan.planned, available));
            && x !in final
            && x !in ToSave(final, m.gee.savedMonths) && x !in ToSave(final, m.gdrive.savedMonths)
            && x !in Existing(final, m.gee.savedMonths) && x !in Existing(final, m.gdrive.savedMonths)
  {
    var final := ToSave(m.plan.planned, Unavailable(m.plan.planned, available));
    FinalPlanPartition(m.plan.planned, available);
    ToSaveMembers(final, m.gee.savedMonths);
    ToSaveMembers(final, m.gdrive.savedMonths);
    ExistingMembers(final, m.gee.savedMonths);
    ExistingMembers(final, m.gdrive.savedMonths);
  }

  /** A disabled destination gets no tasks: every task `target_export_plan`
      appends carries the target it was planned for. */
  lemma TasksCarryTarget(plan: seq<string>, existing: seq<string>, prefix: string, target: Target, k: nat)
    requires k < |ExistingTasks(plan, existing, prefix, target)|
    ensures ExistingTasks(plan, existing, prefix, target)[k].target == target
  {
  }

  // ---------------------------------------------------------------------------
  // create_export_tasks_to_gee / _to_gdrive

  /** The outcome of creating one Earth Engine export: the job handle, or the
      exception's message. */
  datatype Creation = Created(job: Job) | CreateFailed(msg: string)

  /** The task recorded for one month: CREATED with the job, or
      FAILED_TO_CREATE without one when creation throws. */
  function CreatedTask(prefix: string, month: string, target: Target, c: Creation): (t: Task)
    ensures Wf(t) && t.target == target && t.date == month && t.image == ImageName(prefix, month)
    ensures c.Created? ==> t.status == RawCreated && t.job == Some(c.job)
    ensures c.CreateFailed? ==> t.status == RawFailedToCreate && t.job.None?
  {
    match c
    case Created(job) => Fresh(ImageName(prefix, month), month, target, RawCreated, Some(job))
    case CreateFailed(_) => Fresh(ImageName(prefix, month), month, target, RawFailedToCreate, None)
  }

  /** The creation loop for one destination: one task per month of its
      to-save list, in order, appended to the list; a failed creation does not
      stop the loop. `create` stands for the Earth Engine export call. */
  method CreateTargetTasks(tasks: seq<Task>, toSave: seq<string>, prefix: string, target: Target, create: string -> Creation)
    returns (ts: seq<Task>)
    ensures |ts| == |tasks| + |toSave|
    ensures ts[..|tasks|] == tasks
    ensures forall k :: 0 <= k < |toSave| ==> ts[|tasks| + k] == CreatedTask(prefix, toSave[k], target, create(toSave[k]))
  {
    ts := tasks;
    var i := 0;
    while i < |toSave|
      invariant 0 <= i <= |toSave|
      invariant |ts| == |tasks| + i
      invariant ts[..|tasks|] == tasks
      invariant forall k :: 0 <= k < i ==> ts[|tasks| + k] == CreatedTask(prefix, toSave[k], target, create(toSave[k]))
    {
      ts := ts + [CreatedTask(prefix, toSave[i], target, create(toSave[i]))];
      i := i + 1;
    }
  }

  /** Starting a created task submits it; a task that failed to create is
      left FAILED. */
  lemma CreatedTaskStarts(prefix: string, month: string, target: Target, c: Creation)
    ensures var t := StartTask(CreatedTask(prefix, month, target, c));
            && (c.Created? && c.job.startError.None? ==> t.status == RawStarted)
            && (c.Created? && c.job.startError.Some? ==> t.status == RawFailedToStart && t.error == c.job.startError)
            && (c.CreateFailed? ==> t == CreatedTask(prefix, month, target, c) && t.exportStatus == Failed)
  {
  }

  /** The number of tasks a destination's creation loop adds. */
  function CreatedCount(d: Destination): nat {
    if d.enabled then |d.toSave| else 0
  }

  /** `create_export_tasks` up to the start: one task per to-save month of
      the GEE destination, in order, then one per to-save month of the Drive
      destination, each for an enabled destination only; nothing else of the
      manager changes. */
  method CreateExportTasks(m: ExportManager, createGee: string -> Creation, createGdrive: string -> Creation)
    returns (r: ExportManager)
    ensures r == m.(tasks := r.tasks)
    ensures |r.tasks| == |m.tasks| + CreatedCount(m.gee) + CreatedCount(m.gdrive)
    ensures r.tasks[..|m.tasks|] == m.tasks
    ensures m.gee.enabled ==> forall k :: 0 <= k < |m.gee.toSave| ==>
              r.tasks[|m.tasks| + k] == CreatedTask(m.imagePrefix, m.gee.toSave[k], Gee, createGee(m.gee.toSave[k]))
    ensures m.gdrive.enabled ==> forall k :: 0 <= k < |m.gdrive.toSave| ==>
              r.tasks[|m.tasks| + CreatedCount(m.gee) + k]
              == CreatedTask(m.imagePrefix, m.gdrive.toSave[k], Gdrive, createGdrive(m.gdrive.toSave[k]))
  {
    var ts := m.tasks;
    if m.gee.enabled {
      ts := CreateTargetTasks(ts, m.gee.toSave, m.imagePrefix, Gee, createGee);
    }
    var ts2 := ts;
    if m.gdrive.enabled {
      ts2 := CreateTargetTasks(ts, m.gdrive.toSave, m.imagePrefix, Gdrive, createGdrive);
      forall k | |m.tasks| <= k < |ts| ensures ts2[k] == ts[k] {
        assert ts2[..|ts|][k] == ts[k];
      }
      assert ts2[..|m.tasks|] == ts2[..|ts|][..|m.tasks|];
    }
    r := m.(tasks := ts2);
  }
}
