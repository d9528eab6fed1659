/** The status dialog a declarant opens on one of their jobs: it writes a
    new status and, for the `query` status, the query text. */
module JobStatusUpdate {
  import opened Wrappers
  import opened Text
  import opened Domain
  import opened JobStore

  /** The longest query text the schema accepts, in UTF-16 code units. */
  const MaxQueryDetails: nat := 1000

  /** The statuses the dialog's select offers. */
  const SelectableStatuses: seq<Status> := [Pending, Processing, Query, Complete]

  /** The select offers exactly the four statuses of the enum, each once. */
  lemma SelectableStatusesAreTheEnum()
    ensures forall st: Status :: st in SelectableStatuses
    ensures |SelectableStatuses| == 4
    ensures forall i, j :: 0 <= i < j < |SelectableStatuses| ==> SelectableStatuses[i] != SelectableStatuses[j]
  {
    forall st: Status ensures st in SelectableStatuses {
      match st
      case Pending => assert SelectableStatuses[0] == st;
      case Processing => assert SelectableStatuses[1] == st;
      case Query => assert SelectableStatuses[2] == st;
      case Complete => assert SelectableStatuses[3] == st;
    }
  }

  /** The dialog's state: the selected status and the text area. */
  datatype Form = Form(status: Status, queryDetails: string)

  /** The dialog opens on the job's status and its query text, or an empty
      text area when the job has none. */
  function OpenForm(job: Job): (f: Form)
    ensures f.status == job.status
    ensures job.queryDetails.Some? ==> f.queryDetails == job.queryDetails.value
    ensures job.queryDetails.None? ==> f.queryDetails == ""
  {
    Form(job.status, job.queryDetails.GetOr(""))
  }

  /** The schema's complaints, in the order it checks them. */
  datatype DetailsError = DetailsRequired | DetailsTooLong

  /** `statusUpdateSchema`: the trimmed text must be 1 to 1000 code units
      long; exactly 1000 passes, whatever the "less than" message says.
      It is missing exactly when the text is blank. */
  function ValidateDetails(text: string): (r: Option<DetailsError>)
    ensures r.None? <==> 1 <= JsLength(Trim(text)) <= MaxQueryDetails
    ensures r == Some(DetailsRequired) <==> IsBlank(text)
    ensures r == Some(DetailsTooLong) <==> JsLength(Trim(text)) > MaxQueryDetails
  {
    var n := JsLength(Trim(text));
    if n < 1 then Some(DetailsRequired)
    else if n > MaxQueryDetails then Some(DetailsTooLong)
    else None
  }

  /** Why a submission wrote nothing. */
  datatype UpdateError = Invalid(reason: DetailsError) | UpdateFailed

  /** The status and query text the update writes: the raw, untrimmed text
      for `query`, and null for every other status. */
  function Written(job: Job, f: Form): Job {
    job.(status := f.status, queryDetails := if f.status == Query then Some(f.queryDetails) else None)
  }

  /** A job whose query text is present and not blank exactly when its
      status is `query`. */
  predicate DetailsCoupled(j: Job) {
    j.status == Query <==> j.queryDetails.Some? && !IsBlank(j.queryDetails.value)
  }

  /** `handleSubmit`: for the `query` status the text is validated first and
      nothing is written when it fails; other statuses skip validation. The
      update is keyed on the job id alone and writes only `status` and
      `query_details`. */
  function Submit(s: Store, id: JobId, f: Form): (r: Result<Store, UpdateError>)
    ensures r.Err? && r.error.Invalid? <==> f.status == Query && ValidateDetails(f.queryDetails).Some?
    ensures Valid(s) ==> (r.Ok? <==> f.status != Query || ValidateDetails(f.queryDetails).None?)
    ensures r.Ok? ==> r.value.jobs.Keys == s.jobs.Keys && r.value.nextId == s.nextId
    ensures r.Ok? ==> forall k :: k in s.jobs && k != id ==> r.value.jobs[k] == s.jobs[k]
    ensures r.Ok? && id in s.jobs ==>
      var old_ := s.jobs[id];
      var new_ := r.value.jobs[id];
      && new_.status == f.status
      && (new_.queryDetails.Some? <==> f.status == Query)
      && (f.status == Query ==> new_.queryDetails == Some(f.queryDetails))
      && new_ == old_.(status := new_.status, queryDetails := new_.queryDetails)
      && DetailsCoupled(new_)
    ensures Valid(s) && r.Ok? ==> Valid(r.value)
  {
    if f.status == Query && ValidateDetails(f.queryDetails).Some? then
      Err(Invalid(ValidateDetails(f.queryDetails).value))
    else if id !in s.jobs then
      Ok(s)
    else
      var row := Written(s.jobs[id], f);
      UpdateKeepingRef(s, id, row);
      match Update(s, id, row)
      case Ok(t) => Ok(t)
      case Err(_) => Err(UpdateFailed)
  }

  /** Opening the dialog on a job and saving it untouched writes the row
      back as it was, when the row is in the shape the dialog itself writes:
      coupled, with no text unless it is in `query`, and with text the
      schema accepts. */
  lemma OpenThenSubmitKeepsRow(s: Store, id: JobId)
    requires Valid(s) && id in s.jobs && DetailsCoupled(s.jobs[id])
    requires s.jobs[id].status != Query ==> s.jobs[id].queryDetails.None?
    requires s.jobs[id].status == Query ==> JsLength(Trim(s.jobs[id].queryDetails.value)) <= MaxQueryDetails
    ensures Submit(s, id, OpenForm(s.jobs[id])) == Ok(s)
  {
    var job := s.jobs[id];
    assert Written(job, OpenForm(job)) == job;
    UpdateKeepingRef(s, id, job);
    assert s.jobs[id := job] == s.jobs;
  }

  /** A row the dialog cannot write back as it was: a non-`query` job that
      keeps a blank query text is coupled, yet opening and saving it clears
      the text. */
  lemma OpenThenSubmitClearsBlankText(s: Store, id: JobId)
    requires Valid(s) && id in s.jobs && s.jobs[id].status != Query && s.jobs[id].queryDetails.Some?
    ensures Submit(s, id, OpenForm(s.jobs[id])).Ok?
    ensures Submit(s, id, OpenForm(s.jobs[id])).value.jobs[id] == s.jobs[id].(queryDetails := None)
  {
  }
}
