/** The export manager: the requested months, the per-destination inventories
    and to-save lists, the task list, the union of the to-save lists, and the
    sections of the two text reports. The clock is a parameter. */
module Exporting {
  import opened Wrappers
  import opened Text
  import opened Seqs
  import opened Sorting
  import opened Status
  import opened Exports
  import opened Dates

  /** What the manager keeps about one destination (GEE assets or Drive). */
  datatype Destination = Destination(
    enabled: bool,
    path: string,
    saved: seq<string>,        // matching asset names found there
    savedMonths: seq<string>,  // their months as `YYYY-MM-01`
    toSave: seq<string>)       // months still to export there

  /** The export plan: the requested months, the months excluded with the
      reason, in insertion order, and the final plan once it is determined. */
  datatype ExportPlan = ExportPlan(
    planned: seq<string>,
    excluded: seq<(string, string)>,
    finalPlan: Option<seq<string>>)

  datatype ExportManager = ExportManager(
    imagePrefix: string,
    plan: ExportPlan,
    tasks: seq<Task>,
    gee: Destination,
    gdrive: Destination)

  /** A destination before any inventory is read. */
  function EmptyDestination(enabled: bool, path: string): (d: Destination)
    ensures d.enabled == enabled && d.path == path
    ensures d.saved == [] && d.savedMonths == [] && d.toSave == []
  {
    Destination(enabled, path, [], [], [])
  }

  /** The first day of the month before `today`, as `YYYY-MM-01`. */
  function DefaultMonth(today: Date): (r: Result<string>)
    requires ValidDate(today)
    ensures r.Err? <==> today.year == 1 && today.month == 1
    ensures r.Err? ==> r.error.OverflowError?
    ensures r.Ok? ==> ParseDate(r.value).Some?
    ensures r.Ok? ==> var d := ParseDate(r.value).value;
                      && d.day == 1 && Before(d, today)
                      && (today.month == 1 ==> d.year == today.year - 1 && d.month == 12)
                      && (today.month > 1 ==> d.year == today.year && d.month == today.month - 1)
  {
    var last :- PrevMonthLastDate(today);
    var first := last.(day := 1);
    ParseFormat(first);
    Ok(FormatDate(first))
  }

  /** `ExportManager(...)`: with no months requested the plan is the month
      before `today` (which fails for January of year 1, where there is no
      previous month); everything else starts empty. */
  function NewExportManager(exportToGee: bool, exportToGdrive: bool, geePath: string, gdrivePath: string,
                            monthsToSave: seq<string>, imagePrefix: string, today: Date): (r: Result<ExportManager>)
    requires ValidDate(today)
    ensures r.Err? <==> monthsToSave == [] && today.year == 1 && today.month == 1
    ensures r.Ok? && monthsToSave != [] ==> r.value.plan.planned == monthsToSave
    ensures r.Ok? && monthsToSave == [] ==> r.value.plan.planned == [DefaultMonth(today).value]
    ensures r.Ok? ==> && r.value.plan.excluded == [] && r.value.plan.finalPlan.None?
                      && r.value.tasks == [] && r.value.imagePrefix == imagePrefix
                      && r.value.gee == EmptyDestination(exportToGee, geePath)
                      && r.value.gdrive == EmptyDestination(exportToGdrive, gdrivePath)
  {
    var planned :- if monthsToSave == [] then
                     (var m :- DefaultMonth(today); Ok([m]))
                   else Ok(monthsToSave);
    Ok(ExportManager(imagePrefix, ExportPlan(planned, [], None), [],
                     EmptyDestination(exportToGee, geePath), EmptyDestination(exportToGdrive, gdrivePath)))
  }

  /** A manager created in a later month than January of year 1 with no
      months requested plans exactly one month, and that month is a valid
      date before `today`. */
  lemma DefaultPlanIsPreviousMonth(exportToGee: bool, exportToGdrive: bool, geePath: string, gdrivePath: string,
                                   imagePrefix: string, today: Date)
    requires ValidDate(today) && !(today.year == 1 && today.month == 1)
    ensures var r := NewExportManager(exportToGee, exportToGdrive, geePath, gdrivePath, [], imagePrefix, today);
            && r.Ok? && |r.value.plan.planned| == 1
            && CheckValidDate(r.value.plan.planned[0])
  {
    var m := DefaultMonth(today).value;
    var d := ParseDate(m).value;
    FormatParse(m);
    assert ValidDate(d) && FormatDate(d) == m;
    assert CheckValidDate(m);
    assert NewExportManager(exportToGee, exportToGdrive, geePath, gdrivePath, [], imagePrefix, today).value.plan.planned == [m];
  }

  // ---------------------------------------------------------------------------
  // final_assets_to_save

  /** `final_assets_to_save`: `sorted(set(gee_to_save + gdrive_to_save))`. */
  function FinalAssetsToSave(m: ExportManager): (r: seq<string>)
    ensures StrictlyAsc(r)
    ensures forall x :: x in r <==> x in m.gee.toSave || x in m.gdrive.toSave
  {
    var all := m.gee.toSave + m.gdrive.toSave;
    var sorted := SortAsc(all);
    assert forall x :: x in sorted <==> x in all by {
      forall x ensures x in sorted <==> x in all {
        assert x in sorted <==> x in multiset(sorted);
        assert x in all <==> x in multiset(all);
      }
    }
    Dedup(sorted)
  }

  /** The result is the only strictly ascending list of exactly those months,
      so it is what sorting the set gives. */
  lemma FinalAssetsUnique(m: ExportManager, s: seq<string>)
    requires StrictlyAsc(s)
    requires forall x :: x in s <==> x in m.gee.toSave || x in m.gdrive.toSave
    ensures FinalAssetsToSave(m) == s
  {
    StrictlyAscUnique(FinalAssetsToSave(m), s);
  }

  // ---------------------------------------------------------------------------
  // print_export_plan

  /** The lines of the plan report; colours and layout are not modelled. */
  datatype PlanLine =
    | PlanHeader
    | ToExportHeader
    | MonthLine(month: string)
    | NoImages
    | ExcludedHeader
    | ExcludedLine(month: string, reason: string)

  function MonthLineOf(month: string): PlanLine {
    MonthLine(month)
  }

  function ExcludedLineOf(entry: (string, string)): PlanLine {
    ExcludedLine(entry.0, entry.1)
  }

  /** `print_export_plan`: the months to export, or "No images to export"
      when there are none, and an Excluded section iff some month was
      excluded. Reading the final plan before it is determined is a
      KeyError. */
  function PrintExportPlan(m: ExportManager): (r: Result<seq<PlanLine>>)
    ensures r.Err? <==> m.plan.finalPlan.None?
    ensures r.Err? ==> r.error.KeyError?
    ensures r.Ok? ==> (NoImages in r.value <==> m.plan.finalPlan.value == [])
    ensures r.Ok? ==> (ExcludedHeader in r.value <==> m.plan.excluded != [])
    ensures r.Ok? ==> forall x :: MonthLine(x) in r.value <==> x in m.plan.finalPlan.value
    ensures r.Ok? ==> forall x, y :: ExcludedLine(x, y) in r.value <==> (x, y) in m.plan.excluded
  {
    match m.plan.finalPlan
    case None => Err(KeyError("final_plan"))
    case Some(final) =>
      var toExport := if final != [] then Map(final, MonthLineOf) else [NoImages];
      var excluded := if m.plan.excluded != [] then [ExcludedHeader] + Map(m.plan.excluded, ExcludedLineOf) else [];
      var lines := [PlanHeader, ToExportHeader] + toExport + excluded;
      PlanLines(final, m.plan.excluded, toExport, excluded);
      Ok(lines)
  }

  lemma PlanLines(final: seq<string>, excl: seq<(string, string)>, toExport: seq<PlanLine>, excluded: seq<PlanLine>)
    requires toExport == if final != [] then Map(final, MonthLineOf) else [NoImages]
    requires excluded == if excl != [] then [ExcludedHeader] + Map(excl, ExcludedLineOf) else []
    ensures var lines := [PlanHeader, ToExportHeader] + toExport + excluded;
            && (NoImages in lines <==> final == [])
            && (ExcludedHeader in lines <==> excl != [])
            && (forall x :: MonthLine(x) in lines <==> x in final)
            && (forall x, y :: ExcludedLine(x, y) in lines <==> (x, y) in excl)
  {
    PlanMarkers(final, excl, toExport, excluded);
    PlanEntries(final, excl, toExport, excluded);
  }

  /** "No images to export" iff the plan is empty; the Excluded header iff
      something was excluded. */
  lemma PlanMarkers(final: seq<string>, excl: seq<(string, string)>, toExport: seq<PlanLine>, excluded: seq<PlanLine>)
    requires toExport == if final != [] then Map(final, MonthLineOf) else [NoImages]
    requires excluded == if excl != [] then [ExcludedHeader] + Map(excl, ExcludedLineOf) else []
    ensures var lines := [PlanHeader, ToExportHeader] + toExport + excluded;
            && (NoImages in lines <==> final == [])
            && (ExcludedHeader in lines <==> excl != [])
  {
    var lines := [PlanHeader, ToExportHeader] + toExport + excluded;
    assert forall l :: l in lines <==> l == PlanHeader || l == ToExportHeader || l in toExport || l in excluded;
  }

  /** Every month of the plan and every exclusion is listed, and nothing else. */
  lemma PlanEntries(final: seq<string>, excl: seq<(string, string)>, toExport: seq<PlanLine>, excluded: seq<PlanLine>)
    requires toExport == if final != [] then Map(final, MonthLineOf) else [NoImages]
    requires excluded == if excl != [] then [ExcludedHeader] + Map(excl, ExcludedLineOf) else []
    ensures var lines := [PlanHeader, ToExportHeader] + toExport + excluded;
            && (forall x :: MonthLine(x) in lines <==> x in final)
            && (forall x, y :: ExcludedLine(x, y) in lines <==> (x, y) in excl)
  {
    var lines := [PlanHeader, ToExportHeader] + toExport + excluded;
    assert forall l :: l in lines <==> l == PlanHeader || l == ToExportHeader || l in toExport || l in excluded;
    MonthLinesListed(final);
    ExcludedLinesListed(excl);
  }

  lemma MonthLinesListed(final: seq<string>)
    ensures forall x :: MonthLine(x) in Map(final, MonthLineOf) <==> x in final
  {
    forall x | x in final ensures MonthLine(x) in Map(final, MonthLineOf) {
      var k :| 0 <= k < |final| && final[k] == x;
      assert Map(final, MonthLineOf)[k] == MonthLine(x);
    }
  }

  lemma ExcludedLinesListed(excl: seq<(string, string)>)
    ensures forall x, y :: ExcludedLine(x, y) in Map(excl, ExcludedLineOf) <==> (x, y) in excl
  {
    forall x, y | (x, y) in excl ensures ExcludedLine(x, y) in Map(excl, ExcludedLineOf) {
      var k :| 0 <= k < |excl| && excl[k] == (x, y);
      assert Map(excl, ExcludedLineOf)[k] == ExcludedLine(x, y);
    }
  }

  // ---------------------------------------------------------------------------
  // print_export_status

  /** The lines of the status report; colours and layout are not modelled. */
  datatype StatusLine =
    | StatusHeader
    | NoTasks
    | GeeHeader
    | GdriveHeader
    | Separator
    | TaskLine(image: string, status: RawStatus, detail: Option<string>)

  /** One task's line: the error is shown only when it is a non-empty string. */
  function TaskLineOf(t: Task): StatusLine {
    TaskLine(t.image, t.status, if t.error.Some? && t.error.value != "" then t.error else None)
  }

  /** The lines of the tasks bound for `target`, in list order. */
  function TargetLines(tasks: seq<Task>, target: Target): (r: seq<StatusLine>)
    ensures forall k :: 0 <= k < |r| ==> r[k].TaskLine?
    ensures forall l :: l in r <==> exists i :: 0 <= i < |tasks| && tasks[i].target == target && l == TaskLineOf(tasks[i])
  {
    if |tasks| == 0 then []
    else
      var rest := TargetLines(tasks[1..], target);
      assert forall i :: 1 <= i < |tasks| ==> tasks[1..][i - 1] == tasks[i];
      (if tasks[0].target == target then [TaskLineOf(tasks[0])] else []) + rest
  }

  /** `print_export_status`: "No export tasks available." for an empty list;
      otherwise a section for each enabled destination listing its tasks. */
  function PrintExportStatus(m: ExportManager): (r: seq<StatusLine>)
    ensures NoTasks in r <==> m.tasks == []
    ensures GeeHeader in r <==> m.tasks != [] && m.gee.enabled
    ensures GdriveHeader in r <==> m.tasks != [] && m.gdrive.enabled
    ensures forall i :: 0 <= i < |m.tasks| && ((m.tasks[i].target == Gee && m.gee.enabled) || (m.tasks[i].target == Gdrive && m.gdrive.enabled))
              ==> TaskLineOf(m.tasks[i]) in r
    ensures forall l :: l in r && l.TaskLine? ==>
              exists i :: 0 <= i < |m.tasks| && l == TaskLineOf(m.tasks[i])
                          && ((m.tasks[i].target == Gee && m.gee.enabled) || (m.tasks[i].target == Gdrive && m.gdrive.enabled))
  {
    if m.tasks == [] then [StatusHeader, NoTasks]
    else
      var geeSection := if m.gee.enabled then [GeeHeader] + TargetLines(m.tasks, Gee) else [];
      var gap := if m.gee.enabled && m.gdrive.enabled then [Separator] else [];
      var gdriveSection := if m.gdrive.enabled then [GdriveHeader] + TargetLines(m.tasks, Gdrive) else [];
      var r := [StatusHeader] + geeSection + gap + gdriveSection;
      StatusHeaders(m, geeSection, gap, gdriveSection);
      StatusTaskLines(m, geeSection, gap, gdriveSection);
      r
  }

  /** A section header appears exactly for each enabled destination. */
  lemma StatusHeaders(m: ExportManager, geeSection: seq<StatusLine>, gap: seq<StatusLine>, gdriveSection: seq<StatusLine>)
    requires geeSection == if m.gee.enabled then [GeeHeader] + TargetLines(m.tasks, Gee) else []
    requires gap == if m.gee.enabled && m.gdrive.enabled then [Separator] else []
    requires gdriveSection == if m.gdrive.enabled then [GdriveHeader] + TargetLines(m.tasks, Gdrive) else []
    ensures var r := [StatusHeader] + geeSection + gap + gdriveSection;
            && NoTasks !in r
            && (GeeHeader in r <==> m.gee.enabled)
            && (GdriveHeader in r <==> m.gdrive.enabled)
  {
    var r := [StatusHeader] + geeSection + gap + gdriveSection;
    assert forall l :: l in r <==> l == StatusHeader || l in geeSection || l in gap || l in gdriveSection;
  }

  /** The task lines are exactly those of the tasks of enabled destinations. */
  lemma StatusTaskLines(m: ExportManager, geeSection: seq<StatusLine>, gap: seq<StatusLine>, gdriveSection: seq<StatusLine>)
    requires geeSection == if m.gee.enabled then [GeeHeader] + TargetLines(m.tasks, Gee) else []
    requires gap == if m.gee.enabled && m.gdrive.enabled then [Separator] else []
    requires gdriveSection == if m.gdrive.enabled then [GdriveHeader] + TargetLines(m.tasks, Gdrive) else []
    ensures var r := [StatusHeader] + geeSection + gap + gdriveSection;
            && (forall i :: 0 <= i < |m.tasks| && ((m.tasks[i].target == Gee && m.gee.enabled) || (m.tasks[i].target == Gdrive && m.gdrive.enabled))
                  ==> TaskLineOf(m.tasks[i]) in r)
            && (forall l :: l in r && l.TaskLine? ==>
                  exists i :: 0 <= i < |m.tasks| && l == TaskLineOf(m.tasks[i])
                              && ((m.tasks[i].target == Gee && m.gee.enabled) || (m.tasks[i].target == Gdrive && m.gdrive.enabled)))
  {
    var r := [StatusHeader] + geeSection + gap + gdriveSection;
    assert forall l :: l in r <==> l == StatusHeader || l in geeSection || l in gap || l in gdriveSection;
  }
}
