/** What the admin and allocater dashboards share: the job form and the
    upload panel above an all-jobs table, and the form's dispatch between
    creating and editing. */
module JobPanels {
  import opened Wrappers
  import opened Domain
  import opened JobStore
  import opened Views
  import JobForm

  /** Which panels are open, and the job the form edits, if any. */
  datatype Panels = Panels(showJobForm: bool, showExcelUpload: bool, editing: Option<JobId>)

  /** Both panels closed, nothing being edited. */
  const Closed: Panels := Panels(false, false, None)

  /** `handleEdit`: the form opens on the chosen job. */
  function StartEdit(p: Panels, id: JobId): (r: Panels)
    ensures r.showJobForm && r.editing == Some(id) && r.showExcelUpload == p.showExcelUpload
  {
    p.(showJobForm := true, editing := Some(id))
  }

  /** The "Create Job" button: it shows the form and leaves the edited job
      as it is. */
  function OpenCreate(p: Panels): (r: Panels)
    ensures r.showJobForm && r.editing == p.editing && r.showExcelUpload == p.showExcelUpload
  {
    p.(showJobForm := true)
  }

  /** The "Upload Excel" button. */
  function OpenUpload(p: Panels): (r: Panels)
    ensures r.showExcelUpload && r.showJobForm == p.showJobForm && r.editing == p.editing
  {
    p.(showExcelUpload := true)
  }

  /** "Create Job" pressed while an edit is open keeps the form on that
      job: the form saves an edit, not a new job, until it is closed. */
  lemma CreateWhileEditing(p: Panels, id: JobId)
    ensures OpenCreate(StartEdit(p, id)).editing == Some(id)
    ensures OpenCreate(Closed).editing.None?
  {
  }

  /** The two buttons and the edit action open independent panels:
      opening the upload panel neither opens the form nor changes the job it
      edits, and opening the form, for a new job or an edit, leaves the
      upload panel as it was; the order of two openings does not matter. */
  lemma OpeningsCommute(p: Panels, id: JobId)
    ensures OpenUpload(StartEdit(p, id)) == StartEdit(OpenUpload(p), id)
    ensures OpenUpload(OpenCreate(p)) == OpenCreate(OpenUpload(p))
    ensures OpenCreate(OpenCreate(p)) == OpenCreate(p) && OpenUpload(OpenUpload(p)) == OpenUpload(p)
    ensures StartEdit(OpenCreate(p), id) == StartEdit(p, id)
    ensures OpenUpload(Closed).showExcelUpload && !OpenUpload(Closed).showJobForm
  {
  }

  /** The form's submit: it edits the job it was opened on, or creates a
      job when it was opened on none. */
  function SaveForm(s: Store, editing: Option<JobId>, user: UserId, f: JobForm.FormInput, now: int): (r: Result<Store, JobForm.FormError>)
    ensures editing.None? ==> r == JobForm.Create(s, user, f, now)
    ensures editing.Some? ==> r == JobForm.Edit(s, user, editing.value, f)
    ensures Valid(s) && r.Ok? ==> Valid(r.value)
  {
    match editing
    case None => JobForm.Create(s, user, f, now)
    case Some(id) => JobForm.Edit(s, user, id, f)
  }

  /** The all-jobs list after a fetch: a failed fetch keeps the previous
      list; a successful one is an answer of the all-jobs query, so it holds
      every job of the table exactly once, newest first. */
  lemma AllJobsAfterFetch(prev: seq<Entry>, reply: Reply, jobs: map<JobId, Job>)
    requires reply.Rows? ==> IsAnswer(reply.rows, jobs, AllJobs)
    ensures reply.QueryFailed? ==> Refresh(prev, reply) == prev
    ensures reply.Rows? ==> Ids(Refresh(prev, reply)) == jobs.Keys && |Refresh(prev, reply)| == |jobs|
    ensures reply.Rows? ==> NewestFirst(Refresh(prev, reply))
  {
    if reply.Rows? {
      AnswerIds(reply.rows, jobs, AllJobs);
      assert MatchingIds(jobs, AllJobs) == jobs.Keys;
      DistinctIdsCount(reply.rows);
      assert |jobs.Keys| == |jobs|;
    }
  }
}
