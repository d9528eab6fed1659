/** The admin dashboard (also shown to managers): all jobs with edit and
    delete, the job form, the upload panel, the reports and the role
    manager. */
module AdminDashboard {
  import opened Wrappers
  import opened Domain
  import opened JobStore
  import opened Views
  import opened JobPanels
  import JobTable
  import JobForm
  import ExcelUpload

  /** The all-jobs table offers edit and delete on every row. */
  const AdminTable: JobTable.Props := JobTable.Props(true, false, false, true, true, false, false)

  lemma AdminActions()
    ensures JobTable.RowActions(AdminTable) == [JobTable.Edit, JobTable.Delete]
    ensures JobTable.HasActionsColumn(AdminTable)
  {
  }

  /** `handleFormClose`: the form closes and forgets the edited job; the
      upload panel stays as it was. */
  function CloseForm(p: Panels): (r: Panels)
    ensures !r.showJobForm && r.editing.None? && r.showExcelUpload == p.showExcelUpload
  {
    p.(showJobForm := false, editing := None)
  }

  /** The upload panel's close closes only the upload panel. */
  function CloseUpload(p: Panels): (r: Panels)
    ensures !r.showExcelUpload && r.showJobForm == p.showJobForm && r.editing == p.editing
  {
    p.(showExcelUpload := false)
  }

  /** Each panel closes back to where it was opened from: closing the form
      after an edit or a "Create Job" gives the panels of a closed form,
      and closing the upload panel undoes opening it. After the form is
      closed, "Create Job" opens it on a new job, not on the last edit. */
  lemma PanelRoundTrips(p: Panels, id: JobId)
    ensures CloseForm(StartEdit(p, id)) == CloseForm(p)
    ensures CloseForm(OpenCreate(p)) == CloseForm(p)
    ensures CloseUpload(OpenUpload(p)) == CloseUpload(p)
    ensures !p.showExcelUpload ==> CloseUpload(OpenUpload(p)) == p
    ensures CloseForm(OpenUpload(p)) == OpenUpload(CloseForm(p))
    ensures OpenCreate(CloseForm(StartEdit(p, id))).editing.None?
  {
  }

  /** `handleDelete`: removes the job with that id and nothing else. There
      is no confirmation step and deleting a missing job deletes nothing. */
  function HandleDelete(s: Store, id: JobId): (r: Store)
    ensures r.jobs.Keys == s.jobs.Keys - {id} && r.nextId == s.nextId
    ensures forall k :: k in r.jobs ==> r.jobs[k] == s.jobs[k]
    ensures Valid(s) ==> Valid(r)
  {
    Delete(s, id)
  }

  /** After a delete the change event refetches the list; once the fetch
      succeeds the deleted job is gone from it and every other job is
      still there. */
  lemma DeleteThenRefetch(s: Store, id: JobId, prev: seq<Entry>, reply: Reply)
    requires reply.Rows? && IsAnswer(reply.rows, HandleDelete(s, id).jobs, AllJobs)
    ensures Ids(Refresh(prev, reply)) == s.jobs.Keys - {id}
    ensures id !in Ids(Refresh(prev, reply))
  {
    AllJobsAfterFetch(prev, reply, HandleDelete(s, id).jobs);
  }

  /** A form submission: on success the form closes (and the change event
      refetches the list); on failure the form stays open with its job and
      the table is untouched. */
  function SubmitForm(s: Store, p: Panels, user: UserId, f: JobForm.FormInput, now: int)
    : (r: (Store, Panels, Option<JobForm.FormError>))
    ensures r.2.None? <==> SaveForm(s, p.editing, user, f, now).Ok?
    ensures r.2.None? ==> r.0 == SaveForm(s, p.editing, user, f, now).value && r.1 == CloseForm(p)
    ensures r.2.Some? ==> r.0 == s && r.1 == p && SaveForm(s, p.editing, user, f, now) == Err(r.2.value)
    ensures Valid(s) ==> Valid(r.0)
  {
    match SaveForm(s, p.editing, user, f, now)
    case Ok(t) => (t, CloseForm(p), None)
    case Err(e) => (s, p, Some(e))
  }

  /** An upload: on success only the upload panel closes. */
  function SubmitUpload(s: Store, p: Panels, user: UserId, rows: seq<ExcelUpload.Row>, now: int)
    : (r: (Store, Panels, Option<ExcelUpload.UploadError>))
    ensures r.2.None? <==> ExcelUpload.Upload(s, user, rows, now).Ok?
    ensures r.2.None? ==> r.0 == ExcelUpload.Upload(s, user, rows, now).value.0 && r.1 == CloseUpload(p)
    ensures r.2.Some? ==> r.0 == s && r.1 == p
    ensures Valid(s) ==> Valid(r.0)
  {
    match ExcelUpload.Upload(s, user, rows, now)
    case Ok((t, _)) => (t, CloseUpload(p), None)
    case Err(e) => (s, p, Some(e))
  }
}
