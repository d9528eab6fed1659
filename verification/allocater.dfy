/** The allocater dashboard: all jobs with edit only, the job form and the
    upload panel. */
module AllocaterDashboard {
  import opened Wrappers
  import opened Domain
  import opened JobStore
  import opened JobPanels
  import JobTable
  import JobForm
  import ExcelUpload

  /** The table gets the edit callback and no delete callback. */
  const AllocaterTable: JobTable.Props := JobTable.Props(true, false, false, true, false, false, false)

  /** Allocaters can edit every job and delete none. */
  lemma AllocaterActions()
    ensures JobTable.RowActions(AllocaterTable) == [JobTable.Edit]
    ensures JobTable.Delete !in JobTable.RowActions(AllocaterTable)
  {
  }

  /** `handleFormClose`, used by both panels: it closes the form and the
      upload panel and forgets the edited job. */
  function ClosePanels(p: Panels): (r: Panels)
    ensures r == Closed
  {
    p.(showJobForm := false, showExcelUpload := false, editing := None)
  }

  /** The shared close undoes every opening at once: whatever was open and
      whichever job was being edited, closing gives the state before
      anything was opened, and "Create Job" after it opens a form for a new
      job with the upload panel shut. */
  lemma ClosePanelsResets(p: Panels, id: JobId)
    ensures ClosePanels(StartEdit(p, id)) == ClosePanels(OpenUpload(p)) == ClosePanels(OpenCreate(p)) == ClosePanels(p)
    ensures ClosePanels(ClosePanels(p)) == ClosePanels(p)
    ensures OpenCreate(ClosePanels(StartEdit(p, id))) == Panels(true, false, None)
  {
  }

  /** A form submission: on success both panels close; on failure nothing
      changes. */
  function SubmitForm(s: Store, p: Panels, user: UserId, f: JobForm.FormInput, now: int)
    : (r: (Store, Panels, Option<JobForm.FormError>))
    ensures r.2.None? <==> SaveForm(s, p.editing, user, f, now).Ok?
    ensures r.2.None? ==> r.0 == SaveForm(s, p.editing, user, f, now).value && r.1 == Closed
    ensures r.2.Some? ==> r.0 == s && r.1 == p && SaveForm(s, p.editing, user, f, now) == Err(r.2.value)
    ensures Valid(s) ==> Valid(r.0)
  {
    match SaveForm(s, p.editing, user, f, now)
    case Ok(t) => (t, ClosePanels(p), None)
    case Err(e) => (s, p, Some(e))
  }

  /** An upload: on success the upload's close is the same `handleFormClose`,
      so the job form closes too and its edit is dropped. */
  function SubmitUpload(s: Store, p: Panels, user: UserId, rows: seq<ExcelUpload.Row>, now: int)
    : (r: (Store, Panels, Option<ExcelUpload.UploadError>))
    ensures r.2.None? <==> ExcelUpload.Upload(s, user, rows, now).Ok?
    ensures r.2.None? ==> r.0 == ExcelUpload.Upload(s, user, rows, now).value.0 && r.1 == Closed
    ensures r.2.Some? ==> r.0 == s && r.1 == p
    ensures Valid(s) ==> Valid(r.0)
  {
    match ExcelUpload.Upload(s, user, rows, now)
    case Ok((t, _)) => (t, ClosePanels(p), None)
    case Err(e) => (s, p, Some(e))
  }
}
