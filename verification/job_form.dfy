/** The job form allocaters and admins use to create a job or edit one. */
module JobForm {
  import opened Wrappers
  import opened Text
  import opened Domain
  import opened JobStore
  import JobStatusUpdate

  /** The longest job reference and importer name, in UTF-16 code units of
      the trimmed text. */
  const MaxJobRef: nat := 100
  const MaxImporterName: nat := 200

  /** The submitted fields, as the form data carries them. `status` is
      absent when the form does not render the status select. */
  datatype FormInput = FormInput(
    jobRef: string,
    importerName: string,
    etd: string,
    allocatedTo: string,
    status: Option<string>)

  /** The form's fields when it opens: empty for a new job, the job's
      columns when editing. Only the edit form renders the status select. */
  function OpenForm(editing: Option<Job>): (f: FormInput)
    ensures editing.None? ==> f == FormInput("", "", "", "", None)
    ensures editing.Some? ==>
      && f.jobRef == editing.value.jobRef
      && f.importerName == editing.value.importerName
      && (editing.value.etd.Some? ==> f.etd == editing.value.etd.value)
      && (editing.value.etd.None? ==> f.etd == "")
      && (editing.value.allocatedTo.Some? ==> f.allocatedTo == editing.value.allocatedTo.value)
      && (editing.value.allocatedTo.None? ==> f.allocatedTo == "")
      && f.status == Some(StatusName(editing.value.status))
  {
    match editing
    case None => FormInput("", "", "", "", None)
    case Some(job) =>
      FormInput(job.jobRef, job.importerName, job.etd.GetOr(""), job.allocatedTo.GetOr(""), Some(StatusName(job.status)))
  }

  /** `jobSchema`'s complaints; it reports the job reference before the
      importer name. */
  datatype FieldError = JobRefRequired | JobRefTooLong | ImporterRequired | ImporterTooLong

  /** `jobSchema.safeParse` and its first error: the trimmed reference must
      be 1..100 code units and the trimmed importer name 1..200. The ETD is
      any string and never fails. */
  function Validate(f: FormInput): (r: Option<FieldError>)
    ensures r.None? <==>
      1 <= JsLength(Trim(f.jobRef)) <= MaxJobRef && 1 <= JsLength(Trim(f.importerName)) <= MaxImporterName
    ensures r == Some(JobRefRequired) <==> IsBlank(f.jobRef)
    ensures r == Some(JobRefTooLong) <==> JsLength(Trim(f.jobRef)) > MaxJobRef
    ensures r == Some(ImporterRequired) <==>
      1 <= JsLength(Trim(f.jobRef)) <= MaxJobRef && IsBlank(f.importerName)
    ensures r == Some(ImporterTooLong) <==>
      1 <= JsLength(Trim(f.jobRef)) <= MaxJobRef && JsLength(Trim(f.importerName)) > MaxImporterName
  {
    match CheckLength(JsLength(Trim(f.jobRef)), 1, MaxJobRef)
    case Some(TooShort) => Some(JobRefRequired)
    case Some(TooLong) => Some(JobRefTooLong)
    case None =>
      match CheckLength(JsLength(Trim(f.importerName)), 1, MaxImporterName)
      case Some(TooShort) => Some(ImporterRequired)
      case Some(TooLong) => Some(ImporterTooLong)
      case None => None
  }

  /** `value || null` on a form string: the empty string is the only falsy
      string. */
  function NullIfEmpty(text: string): (r: Option<string>)
    ensures r.None? <==> text == []
    ensures r.Some? ==> r.value == text
  {
    if text == "" then None else Some(text)
  }

  /** `status || "pending"`, read by the database as a `job_status` label:
      an absent or empty field is `pending`, any other text must be a label
      of the enum or the write fails with code 22P02. */
  function ResolveStatus(field: Option<string>): (r: Result<Status, DbError>)
    ensures (field.None? || field == Some("")) ==> r == Ok(Pending)
    ensures field.Some? && field.value != "" ==>
      (r.Ok? <==> ParseStatus(field.value).Some?) && (r.Ok? ==> StatusName(r.value) == field.value)
    ensures r.Err? ==> r.error.code == InvalidTextRepresentation
  {
    var text := if field.None? || field.value == "" then "pending" else field.value;
    match ParseStatus(text)
    case Some(st) => Ok(st)
    case None => Err(DbError(InvalidTextRepresentation))
  }

  /** Why a submission wrote nothing. */
  datatype FormError = Invalid(reason: FieldError) | DuplicateRef | SaveFailed

  /** The error toast's choice: code 23505 is a duplicate reference, every
      other code a generic failure. */
  function ReportError(e: DbError): (r: FormError)
    ensures r == DuplicateRef <==> e.code == UniqueViolation
    ensures r != DuplicateRef ==> r == SaveFailed
  {
    if e.code == UniqueViolation then DuplicateRef else SaveFailed
  }

  /** `jobData`: the raw, untrimmed strings; an empty ETD and an empty
      assignee are null; the acting user is the allocator. */
  function ToDraft(f: FormInput, user: UserId, status: Status): (d: Draft)
    ensures d.jobRef == f.jobRef && d.importerName == f.importerName
    ensures d.etd == NullIfEmpty(f.etd) && d.allocatedTo == NullIfEmpty(f.allocatedTo)
    ensures d.allocatedBy == user && d.status == status
  {
    Draft(f.jobRef, f.importerName, NullIfEmpty(f.etd), user, NullIfEmpty(f.allocatedTo), status)
  }

  /** The create path: validate, then insert one row. */
  function Create(s: Store, user: UserId, f: FormInput, now: int): (r: Result<Store, FormError>)
    ensures Validate(f).Some? <==> r.Err? && r.error.Invalid?
    ensures Validate(f).Some? ==> r == Err(Invalid(Validate(f).value))
    ensures Validate(f).None? && ResolveStatus(f.status).Err? ==> r == Err(SaveFailed)
    ensures Validate(f).None? && ResolveStatus(f.status).Ok? ==>
      (r == Err(DuplicateRef) <==> RefTaken(s.jobs, f.jobRef, None)) && (r.Ok? <==> !RefTaken(s.jobs, f.jobRef, None))
    ensures r.Ok? ==>
      && r.value.nextId == s.nextId + 1
      && r.value.jobs == s.jobs[s.nextId := FromDraft(ToDraft(f, user, ResolveStatus(f.status).value), now)]
    ensures Valid(s) && r.Ok? ==> Valid(r.value) && s.nextId !in s.jobs
  {
    match Validate(f)
    case Some(e) => Err(Invalid(e))
    case None =>
      match ResolveStatus(f.status)
      case Err(e) => Err(ReportError(e))
      case Ok(st) =>
        var d := ToDraft(f, user, st);
        InsertOne(s, d, now);
        match Insert(s, [d], now)
        case Ok(t) => Ok(t)
        case Err(e) => Err(ReportError(e))
  }

  /** A job created from the form is `pending` with no query text: the
      create form has no status select. */
  lemma CreatedJobsArePending(s: Store, user: UserId, f: FormInput, now: int)
    requires f.status.None?
    ensures Create(s, user, f, now).Ok? ==>
      var job := Create(s, user, f, now).value.jobs[s.nextId];
      && job.status == Pending && job.queryDetails.None? && JobStatusUpdate.DetailsCoupled(job)
      && job.allocatedBy == user && job.createdAt == now
  {
  }

  /** The row an edit writes: the form's columns over the existing row. The
      query text and the creation time stay; the allocator becomes the
      editing user. */
  function Edited(job: Job, d: Draft): Job {
    job.(jobRef := d.jobRef, importerName := d.importerName, etd := d.etd,
         allocatedBy := d.allocatedBy, allocatedTo := d.allocatedTo, status := d.status)
  }

  /** The update an edit sends, with its error read the way the form reads
      it: only a clash with another job's reference can make it fail. */
  function SaveEdit(s: Store, id: JobId, row: Job): (r: Result<Store, FormError>)
    requires id in s.jobs
    ensures r.Ok? <==> !RefTaken(s.jobs, row.jobRef, Some(id))
    ensures r.Err? ==> r.error == DuplicateRef
    ensures r.Ok? ==> r.value.jobs == s.jobs[id := row] && r.value.nextId == s.nextId
    ensures Valid(s) && r.Ok? ==> Valid(r.value)
  {
    UpdateSpec(s, id, row);
    match Update(s, id, row)
    case Ok(t) => Ok(t)
    case Err(e) => Err(ReportError(e))
  }

  /** The edit path: validate, then update the row with the edited job's id.
      Editing a job that is gone matches no row and succeeds unchanged. */
  function Edit(s: Store, user: UserId, id: JobId, f: FormInput): (r: Result<Store, FormError>)
    ensures Validate(f).Some? <==> r.Err? && r.error.Invalid?
    ensures Validate(f).Some? ==> r == Err(Invalid(Validate(f).value))
    ensures Validate(f).None? && ResolveStatus(f.status).Err? ==> r == Err(SaveFailed)
    ensures Validate(f).None? && ResolveStatus(f.status).Ok? && id in s.jobs ==>
      (r == Err(DuplicateRef) <==> RefTaken(s.jobs, f.jobRef, Some(id))) && (r.Ok? <==> !RefTaken(s.jobs, f.jobRef, Some(id)))
    ensures id !in s.jobs && r.Ok? ==> r.value == s
    ensures r.Ok? ==> r.value.nextId == s.nextId
    ensures r.Ok? && id in s.jobs ==> id in r.value.jobs && r.value.jobs == s.jobs[id := r.value.jobs[id]]
    ensures Valid(s) && r.Ok? ==> Valid(r.value)
  {
    match Validate(f)
    case Some(e) => Err(Invalid(e))
    case None =>
      match ResolveStatus(f.status)
      case Err(e) => Err(ReportError(e))
      case Ok(st) =>
        if id !in s.jobs then Ok(s)
        else
          SaveEdit(s, id, Edited(s.jobs[id], ToDraft(f, user, st)))
  }

  /** What a successful edit of an existing job writes into its row: the
      form's columns as typed, the editing user as allocator, the chosen
      status; the query text and the creation time stay. */
  lemma EditWrites(s: Store, user: UserId, id: JobId, f: FormInput)
    requires id in s.jobs
    ensures Edit(s, user, id, f).Ok? ==> ResolveStatus(f.status).Ok? && id in Edit(s, user, id, f).value.jobs
    ensures Edit(s, user, id, f).Ok? ==>
      var old_ := s.jobs[id];
      var new_ := Edit(s, user, id, f).value.jobs[id];
      && new_.jobRef == f.jobRef && new_.importerName == f.importerName
      && new_.etd == NullIfEmpty(f.etd) && new_.allocatedTo == NullIfEmpty(f.allocatedTo)
      && new_.allocatedBy == user
      && new_.status == ResolveStatus(f.status).value
      && new_.queryDetails == old_.queryDetails
      && new_.createdAt == old_.createdAt
  {
    if Edit(s, user, id, f).Ok? {
      var st := ResolveStatus(f.status).value;
      UpdateSpec(s, id, Edited(s.jobs[id], ToDraft(f, user, st)));
    }
  }

  /** Editing a `query` job to any other status through the form keeps its
      query text: the form does not keep status and query text coupled. */
  lemma EditKeepsStaleDetails(s: Store, user: UserId, id: JobId, f: FormInput)
    requires id in s.jobs && JobStatusUpdate.DetailsCoupled(s.jobs[id]) && s.jobs[id].status == Query
    requires f.status != Some("query")
    ensures Edit(s, user, id, f).Ok? ==>
      && Edit(s, user, id, f).value.jobs[id].queryDetails == s.jobs[id].queryDetails
      && !JobStatusUpdate.DetailsCoupled(Edit(s, user, id, f).value.jobs[id])
  {
    EditWrites(s, user, id, f);
    if Edit(s, user, id, f).Ok? {
      var st := ResolveStatus(f.status).value;
      assert st != Query;
    }
  }

  /** A status label read back through the form's status field is that
      status. */
  lemma ResolveStatusName(st: Status)
    ensures ResolveStatus(Some(StatusName(st))) == Ok(st)
  {
    assert StatusName(st) != "";
  }

  /** The row an edit of the untouched form writes is the job with the
      saving user as allocator, when the job holds no empty ETD or assignee
      text. */
  lemma EditedOpenForm(job: Job, user: UserId)
    requires job.etd != Some("") && job.allocatedTo != Some("")
    ensures Edited(job, ToDraft(OpenForm(Some(job)), user, job.status)) == job.(allocatedBy := user)
  {
    var f := OpenForm(Some(job));
    assert NullIfEmpty(f.etd) == job.etd;
    assert NullIfEmpty(f.allocatedTo) == job.allocatedTo;
  }

  /** Opening the edit form on a job and saving it untouched writes the row
      back as it was, except that the saving user becomes its allocator.
      This holds when the job passes the form's checks and holds no empty
      ETD or assignee text, which the form would turn into null. The create
      form opens empty, and an empty form is refused for its reference. */
  lemma OpenThenEditKeepsRow(s: Store, user: UserId, id: JobId)
    requires Valid(s) && id in s.jobs
    requires Validate(OpenForm(Some(s.jobs[id]))).None?
    requires s.jobs[id].etd != Some("") && s.jobs[id].allocatedTo != Some("")
    ensures Edit(s, user, id, OpenForm(Some(s.jobs[id]))) == Ok(s.(jobs := s.jobs[id := s.jobs[id].(allocatedBy := user)]))
    ensures Validate(OpenForm(None)) == Some(JobRefRequired)
  {
    var job := s.jobs[id];
    var row := job.(allocatedBy := user);
    ResolveStatusName(job.status);
    EditedOpenForm(job, user);
    assert !RefTaken(s.jobs, row.jobRef, Some(id));
    assert SaveEdit(s, id, row) == Ok(s.(jobs := s.jobs[id := row]));
    assert IsBlank("");
  }
}
