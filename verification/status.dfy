/** The status taxonomy of export tasks: the fixed table from raw provider
    status strings to seven categories, the derived groups, and the
    classification the task's status setter performs.

    The twenty-one raw statuses are an enumeration; `StatusName` gives each its
    string and `ParseStatus` recognises those strings, so the rest of the model
    compares enumeration values instead of strings. */
module Status {
  import opened Wrappers
  import opened Text

  /** The keys of the status table (`GEE_EXPORT_VALID_STATUS`). */
  datatype Category = Excluded | NotStarted | Pending | Completed | Failed | Unknown | Other

  /** The raw statuses of the table (`GEE_TASK_VALID_STATUS`). */
  datatype RawStatus =
    | RawExcluded | RawMockCreated | RawMockTaskSkipped | RawAlreadyExists
    | RawPlanned | RawCreated | RawUnsubmitted
    | RawSubmitted | RawPending | RawStarted | RawReady | RawRunning
    | RawCompleted | RawFinished | RawCancelled
    | RawFailed | RawFailedToCreate | RawFailedToStart
    | RawFailedToGetStatus | RawUnknown
    | RawNoTaskCreated

  /** The table keys in declaration order. */
  const Categories: seq<Category> :=
    [Excluded, NotStarted, Pending, Completed, Failed, Unknown, Other]

  function CategoryName(c: Category): string {
    match c
    case Excluded => "EXCLUDED"
    case NotStarted => "NOT_STARTED"
    case Pending => "PENDING"
    case Completed => "COMPLETED"
    case Failed => "FAILED"
    case Unknown => "UNKNOWN"
    case Other => "OTHER"
  }

  function StatusName(s: RawStatus): string {
    match s
    case RawExcluded => "EXCLUDED"
    case RawMockCreated => "MOCK_CREATED"
    case RawMockTaskSkipped => "MOCK_TASK_SKIPPED"
    case RawAlreadyExists => "ALREADY_EXISTS"
    case RawPlanned => "PLANNED"
    case RawCreated => "CREATED"
    case RawUnsubmitted => "UNSUBMITTED"
    case RawSubmitted => "SUBMITTED"
    case RawPending => "PENDING"
    case RawStarted => "STARTED"
    case RawReady => "READY"
    case RawRunning => "RUNNING"
    case RawCompleted => "COMPLETED"
    case RawFinished => "FINISHED"
    case RawCancelled => "CANCELLED"
    case RawFailed => "FAILED"
    case RawFailedToCreate => "FAILED_TO_CREATE"
    case RawFailedToStart => "FAILED_TO_START"
    case RawFailedToGetStatus => "FAILED_TO_GET_STATUS"
    case RawUnknown => "UNKNOWN"
    case RawNoTaskCreated => "NO_TASK_CREATED"
  }

  /** Membership in `GEE_TASK_VALID_STATUS`, identifying the entry. */
  function ParseStatus(s: string): (r: Option<RawStatus>)
    ensures r.Some? ==> StatusName(r.value) == s
  {
    if s == "EXCLUDED" then Some(RawExcluded)
    else if s == "MOCK_CREATED" then Some(RawMockCreated)
    else if s == "MOCK_TASK_SKIPPED" then Some(RawMockTaskSkipped)
    else if s == "ALREADY_EXISTS" then Some(RawAlreadyExists)
    else if s == "PLANNED" then Some(RawPlanned)
    else if s == "CREATED" then Some(RawCreated)
    else if s == "UNSUBMITTED" then Some(RawUnsubmitted)
    else if s == "SUBMITTED" then Some(RawSubmitted)
    else if s == "PENDING" then Some(RawPending)
    else if s == "STARTED" then Some(RawStarted)
    else if s == "READY" then Some(RawReady)
    else if s == "RUNNING" then Some(RawRunning)
    else if s == "COMPLETED" then Some(RawCompleted)
    else if s == "FINISHED" then Some(RawFinished)
    else if s == "CANCELLED" then Some(RawCancelled)
    else if s == "FAILED" then Some(RawFailed)
    else if s == "FAILED_TO_CREATE" then Some(RawFailedToCreate)
    else if s == "FAILED_TO_START" then Some(RawFailedToStart)
    else if s == "FAILED_TO_GET_STATUS" then Some(RawFailedToGetStatus)
    else if s == "UNKNOWN" then Some(RawUnknown)
    else if s == "NO_TASK_CREATED" then Some(RawNoTaskCreated)
    else None
  }

  /** One row of the status table: the raw statuses filed under `c`. */
  function StatusesOf(c: Category): seq<RawStatus> {
    match c
    case Excluded => [RawExcluded, RawMockCreated, RawMockTaskSkipped, RawAlreadyExists]
    case NotStarted => [RawPlanned, RawCreated, RawUnsubmitted]
    case Pending => [RawSubmitted, RawPending, RawStarted, RawReady, RawRunning]
    case Completed => [RawCompleted, RawFinished, RawCancelled]
    case Failed => [RawFailed, RawFailedToCreate, RawFailedToStart]
    case Unknown => [RawFailedToGetStatus, RawUnknown]
    case Other => [RawNoTaskCreated]
  }

  /** The concatenation of the rows of `cs`, in order. */
  function Flatten(cs: seq<Category>): seq<RawStatus> {
    if |cs| == 0 then [] else StatusesOf(cs[0]) + Flatten(cs[1..])
  }

  /** `GEE_TASK_VALID_STATUS`. */
  function ValidStatuses(): seq<RawStatus> {
    Flatten(Categories)
  }

  /** `GEE_TASK_SKIP_STATUS`: tasks never submitted nor polled. */
  function SkipStatuses(): seq<RawStatus> {
    Flatten([Excluded, Completed, Failed, Unknown, Other])
  }

  /** `GEE_TASK_UNFINISHED_STATUS`. */
  function UnfinishedStatuses(): seq<RawStatus> {
    StatusesOf(Pending)
  }

  /** `GEE_TASK_FINISHED_STATUS`. */
  function FinishedStatuses(): seq<RawStatus> {
    StatusesOf(Completed) + StatusesOf(Failed)
  }

  const MaxStatusUpdateFailures: nat := 3

  /** The first category, in table order, whose row holds `value`. */
  function FirstMatch(cs: seq<Category>, value: RawStatus): (r: Option<Category>)
    ensures r.Some? ==> r.value in cs && value in StatusesOf(r.value)
    ensures r.None? <==> value !in Flatten(cs)
  {
    if |cs| == 0 then None
    else if value in StatusesOf(cs[0]) then Some(cs[0])
    else FirstMatch(cs[1..], value)
  }

  /** The `export_status` setter: upper-cases the value, takes the first table
      row that holds it, and falls back to OTHER. */
  function Classify(value: string): (c: Category)
    ensures ParseStatus(Upper(value)).None? ==> c == Other
  {
    match ParseStatus(Upper(value))
    case None => Other
    case Some(s) =>
      match FirstMatch(Categories, s)
      case Some(c) => c
      case None => Other
  }

  /** The row a raw status sits in. */
  function CategoryOf(s: RawStatus): (c: Category)
    ensures s in StatusesOf(c)
  {
    match s
    case RawExcluded | RawMockCreated | RawMockTaskSkipped | RawAlreadyExists => Excluded
    case RawPlanned | RawCreated | RawUnsubmitted => NotStarted
    case RawSubmitted | RawPending | RawStarted | RawReady | RawRunning => Pending
    case RawCompleted | RawFinished | RawCancelled => Completed
    case RawFailed | RawFailedToCreate | RawFailedToStart => Failed
    case RawFailedToGetStatus | RawUnknown => Unknown
    case RawNoTaskCreated => Other
  }

  lemma {:induction false} FlattenMember(cs: seq<Category>, s: RawStatus)
    ensures s in Flatten(cs) <==> exists c :: c in cs && s in StatusesOf(c)
    decreases |cs|
  {
    if |cs| > 0 {
      FlattenMember(cs[1..], s);
      assert forall c :: c in cs <==> c == cs[0] || c in cs[1..];
    }
  }

  /** No raw status is filed under two rows. */
  lemma RowsDisjoint(s: RawStatus, c: Category)
    ensures s in StatusesOf(c) <==> c == CategoryOf(s)
  {
  }

  /** Every raw status is in the table, in exactly one row. */
  lemma RowsPartition(s: RawStatus, c: Category)
    ensures s in ValidStatuses()
    ensures s in StatusesOf(c) <==> c == CategoryOf(s)
  {
    FlattenMember(Categories, s);
    var own := CategoryOf(s);
    assert own in Categories && s in StatusesOf(own);
    RowsDisjoint(s, c);
  }

  /** The table strings are exactly the names of the raw statuses. */
  lemma ParseStatusName(s: RawStatus)
    ensures ParseStatus(StatusName(s)) == Some(s)
  {
    match CategoryOf(s)
    case Excluded => ParseExcludedName(s);
    case NotStarted => ParseNotStartedName(s);
    case Pending => ParsePendingName(s);
    case Completed => ParseCompletedName(s);
    case Failed => ParseFailedName(s);
    case Unknown => ParseUnknownName(s);
    case Other => ParseOtherName(s);
  }

  lemma ParseExcludedName(s: RawStatus)
    requires CategoryOf(s) == Excluded
    ensures ParseStatus(StatusName(s)) == Some(s)
  {
    match s
    case RawExcluded =>
    case RawMockCreated =>
    case RawMockTaskSkipped =>
    case RawAlreadyExists =>
  }

  lemma ParseNotStartedName(s: RawStatus)
    requires CategoryOf(s) == NotStarted
    ensures ParseStatus(StatusName(s)) == Some(s)
  {
    match s
    case RawPlanned =>
    case RawCreated =>
    case RawUnsubmitted =>
  }

  lemma ParsePendingName(s: RawStatus)
    requires CategoryOf(s) == Pending
    ensures ParseStatus(StatusName(s)) == Some(s)
  {
    match s
    case RawSubmitted =>
    case RawPending =>
    case RawStarted =>
    case RawReady =>
    case RawRunning =>
  }

  lemma ParseCompletedName(s: RawStatus)
    requires CategoryOf(s) == Completed
    ensures ParseStatus(StatusName(s)) == Some(s)
  {
    match s
    case RawCompleted =>
    case RawFinished =>
    case RawCancelled =>
  }

  lemma ParseFailedName(s: RawStatus)
    requires CategoryOf(s) == Failed
    ensures ParseStatus(StatusName(s)) == Some(s)
  {
    match s
    case RawFailed =>
    case RawFailedToCreate =>
    case RawFailedToStart =>
  }

  lemma ParseUnknownName(s: RawStatus)
    requires CategoryOf(s) == Unknown
    ensures ParseStatus(StatusName(s)) == Some(s)
  {
    match s
    case RawFailedToGetStatus =>
    case RawUnknown =>
  }

  lemma ParseOtherName(s: RawStatus)
    requires CategoryOf(s) == Other
    ensures ParseStatus(StatusName(s)) == Some(s)
  {
    match s
    case RawNoTaskCreated =>
  }

  /** Raw status names are upper case, so the setter's upper-casing leaves them
      unchanged. */
  lemma NameIsUpperCase(s: RawStatus)
    ensures IsUpperCase(StatusName(s))
  {
    match CategoryOf(s)
    case Excluded => ExcludedNamesUpperCase(s);
    case NotStarted => NotStartedNamesUpperCase(s);
    case Pending => PendingNamesUpperCase(s);
    case Completed => CompletedNamesUpperCase(s);
    case Failed => FailedNamesUpperCase(s);
    case Unknown => UnknownNamesUpperCase(s);
    case Other => OtherNamesUpperCase(s);
  }

  lemma ExcludedNamesUpperCase(s: RawStatus)
    requires CategoryOf(s) == Excluded
    ensures IsUpperCase(StatusName(s))
  {
    if s == RawExcluded {
      assert IsUpperCase("EXCLUDED");
    } else if s == RawMockCreated {
      assert IsUpperCase("MOCK_CREATED");
    } else if s == RawMockTaskSkipped {
      assert IsUpperCase("MOCK_TASK_SKIPPED");
    } else {
      assert s == RawAlreadyExists;
      assert IsUpperCase("ALREADY_EXISTS");
    }
  }

  lemma NotStartedNamesUpperCase(s: RawStatus)
    requires CategoryOf(s) == NotStarted
    ensures IsUpperCase(StatusName(s))
  {
    if s == RawPlanned {
      assert IsUpperCase("PLANNED");
    } else if s == RawCreated {
      assert IsUpperCase("CREATED");
    } else {
      assert s == RawUnsubmitted;
      assert IsUpperCase("UNSUBMITTED");
    }
  }

  lemma PendingNamesUpperCase(s: RawStatus)
    requires CategoryOf(s) == Pending
    ensures IsUpperCase(StatusName(s))
  {
    if s == RawSubmitted {
      assert IsUpperCase("SUBMITTED");
    } else if s == RawPending {
      assert IsUpperCase("PENDING");
    } else if s == RawStarted {
      assert IsUpperCase("STARTED");
    } else if s == RawReady {
      assert IsUpperCase("READY");
    } else {
      assert s == RawRunning;
      assert IsUpperCase("RUNNING");
    }
  }

  lemma CompletedNamesUpperCase(s: RawStatus)
    requires CategoryOf(s) == Completed
    ensures IsUpperCase(StatusName(s))
  {
    if s == RawCompleted {
      assert IsUpperCase("COMPLETED");
    } else if s == RawFinished {
      assert IsUpperCase("FINISHED");
    } else {
      assert s == RawCancelled;
      assert IsUpperCase("CANCELLED");
    }
  }

  lemma FailedNamesUpperCase(s: RawStatus)
    requires CategoryOf(s) == Failed
    ensures IsUpperCase(StatusName(s))
  {
    if s == RawFailed {
      assert IsUpperCase("FAILED");
    } else if s == RawFailedToCreate {
      assert IsUpperCase("FAILED_TO_CREATE");
    } else {
      assert s == RawFailedToStart;
      assert IsUpperCase("FAILED_TO_START");
    }
  }

  lemma UnknownNamesUpperCase(s: RawStatus)
    requires CategoryOf(s) == Unknown
    ensures IsUpperCase(StatusName(s))
  {
    if s == RawFailedToGetStatus {
      assert IsUpperCase("FAILED_TO_GET_STATUS");
    } else {
      assert s == RawUnknown;
      assert IsUpperCase("UNKNOWN");
    }
  }

  lemma OtherNamesUpperCase(s: RawStatus)
    requires CategoryOf(s) == Other
    ensures IsUpperCase(StatusName(s))
  {
    assert s == RawNoTaskCreated;
    assert IsUpperCase("NO_TASK_CREATED");
  }

  /** Classifying a valid status gives its row, whatever the letter case the
      value arrives in; the table order therefore does not matter. */
  lemma ClassifyName(s: RawStatus, value: string)
    requires Upper(value) == StatusName(s)
    ensures Classify(value) == CategoryOf(s)
  {
    ParseStatusName(s);
    assert ParseStatus(Upper(value)) == Some(s);
    var c := FirstMatch(Categories, s);
    RowsPartition(s, CategoryOf(s));
    assert c.Some?;
    RowsPartition(s, c.value);
  }

  /** Membership of a raw status in the derived groups is decided by its row:
      SKIP = EXCLUDED, COMPLETED, FAILED, UNKNOWN, OTHER; UNFINISHED = PENDING;
      FINISHED = COMPLETED, FAILED; the rest is NOT_STARTED or PENDING. */
  lemma GroupsByCategory(s: RawStatus)
    ensures s in SkipStatuses() <==> CategoryOf(s) in {Excluded, Completed, Failed, Unknown, Other}
    ensures s in UnfinishedStatuses() <==> CategoryOf(s) == Pending
    ensures s in FinishedStatuses() <==> CategoryOf(s) in {Completed, Failed}
    ensures s !in SkipStatuses() <==> CategoryOf(s) in {NotStarted, Pending}
  {
    FlattenMember([Excluded, Completed, Failed, Unknown, Other], s);
    forall c | true
      ensures s in StatusesOf(c) <==> c == CategoryOf(s)
    {
      RowsDisjoint(s, c);
    }
  }
}
