/** The declarant's dashboard: their own jobs, the unallocated jobs they
    can take, and the status dialog. */
module DeclarantDashboard {
  import opened Wrappers
  import opened Domain
  import opened JobStore
  import opened Views
  import JobTable
  import JobStatusUpdate

  /** The dashboard's state: the two lists and the job whose status
      dialog is open, if any. */
  datatype State = State(myJobs: seq<Entry>, available: seq<Entry>, updating: Option<Job>)

  /** The dashboard before its first fetch. */
  const Initial: State := State([], [], None)

  /** `fetchJobs`: the two queries run independently. The own list is
      replaced only when its query succeeds and the available list only
      when its own query succeeds; a failed query keeps the previous list. */
  function FetchJobs(st: State, mine: Reply, available: Reply): (r: State)
    ensures mine.Rows? ==> r.myJobs == mine.rows
    ensures mine.QueryFailed? ==> r.myJobs == st.myJobs
    ensures available.Rows? ==> r.available == available.rows
    ensures available.QueryFailed? ==> r.available == st.available
    ensures r.updating == st.updating
  {
    st.(myJobs := Refresh(st.myJobs, mine), available := Refresh(st.available, available))
  }

  /** After a fetch whose queries both succeed over the current table, the
      own list is exactly the jobs allocated to the user, the available
      list exactly the unallocated jobs, and no job is on both. */
  lemma FetchPartitions(st: State, mine: seq<Entry>, available: seq<Entry>, jobs: map<JobId, Job>, user: UserId)
    requires IsAnswer(mine, jobs, AssignedTo(user)) && IsAnswer(available, jobs, Unallocated)
    ensures var r := FetchJobs(st, Rows(mine), Rows(available));
      && Ids(r.myJobs) == (set id | id in jobs && jobs[id].allocatedTo == Some(user))
      && Ids(r.available) == (set id | id in jobs && jobs[id].allocatedTo.None?)
      && Ids(r.myJobs) !! Ids(r.available)
  {
    AnswerIds(mine, jobs, AssignedTo(user));
    AnswerIds(available, jobs, Unallocated);
    MineAndAvailableDisjoint(mine, available, jobs, user);
  }

  /** `handleTakeJob`: one update keyed only on the job id that sets
      `allocated_to` to the user and `status` to `processing`. It does not
      check that the job is unallocated, and it leaves every other column,
      `query_details` included, as it was. */
  function TakeJob(s: Store, id: JobId, user: UserId): (r: Result<Store, DbError>)
    ensures Valid(s) ==> r.Ok? && Valid(r.value)
    ensures r.Ok? ==> r.value.jobs.Keys == s.jobs.Keys && r.value.nextId == s.nextId
    ensures r.Ok? ==> forall k :: k in s.jobs && k != id ==> r.value.jobs[k] == s.jobs[k]
    ensures r.Ok? && id in s.jobs ==>
      var j := r.value.jobs[id];
      && j.allocatedTo == Some(user)
      && j.status == Processing
      && j == s.jobs[id].(allocatedTo := j.allocatedTo, status := j.status)
  {
    if id !in s.jobs then Ok(s)
    else
      var row := s.jobs[id].(allocatedTo := Some(user), status := Processing);
      UpdateKeepingRef(s, id, row);
      Update(s, id, row)
  }

  /** A second take of the same job overwrites the first: the job ends up
      with the second taker, whoever held it before. */
  lemma SecondTakeWins(s: Store, id: JobId, first: UserId, second: UserId)
    requires Valid(s) && id in s.jobs
    ensures TakeJob(s, id, first).Ok?
    ensures var t := TakeJob(s, id, first).value;
      && t.jobs[id].allocatedTo == Some(first)
      && TakeJob(t, id, second).Ok?
      && TakeJob(t, id, second).value.jobs[id].allocatedTo == Some(second)
  {
  }

  /** Taking a job that is in `query` leaves its query text behind: the job
      is then `processing` and still carries the text, so taking does not
      keep status and query text coupled. */
  lemma TakeKeepsStaleDetails(s: Store, id: JobId, user: UserId)
    requires Valid(s) && id in s.jobs
    requires s.jobs[id].status == Query && JobStatusUpdate.DetailsCoupled(s.jobs[id])
    ensures TakeJob(s, id, user).Ok?
    ensures var j := TakeJob(s, id, user).value.jobs[id];
      && j.status == Processing
      && j.queryDetails == s.jobs[id].queryDetails
      && !JobStatusUpdate.DetailsCoupled(j)
  {
  }

  /** The own list offers only the status button; the available list
      offers only the take button. */
  const MyJobsTable: JobTable.Props := JobTable.Props(false, false, true, false, false, false, true)
  const AvailableTable: JobTable.Props := JobTable.Props(false, true, false, false, false, true, false)

  lemma DeclarantActions()
    ensures JobTable.RowActions(MyJobsTable) == [JobTable.Update]
    ensures JobTable.RowActions(AvailableTable) == [JobTable.Take]
  {
  }

  /** The status button opens the dialog on the job; closing it clears it. */
  function OpenStatusUpdate(st: State, job: Job): (r: State)
    ensures r.updating == Some(job) && r.myJobs == st.myJobs && r.available == st.available
  {
    st.(updating := Some(job))
  }

  function CloseStatusUpdate(st: State): (r: State)
    ensures r.updating.None? && r.myJobs == st.myJobs && r.available == st.available
  {
    st.(updating := None)
  }

  /** Opening the dialog and closing it again leaves the lists as they were
      with no dialog open, and a refetch while the dialog is open neither
      closes it nor changes the job it shows: a fetch and the dialog touch
      separate parts of the state. */
  lemma StatusDialogRoundTrip(st: State, job: Job, mine: Reply, available: Reply)
    ensures CloseStatusUpdate(OpenStatusUpdate(st, job)) == st.(updating := None)
    ensures CloseStatusUpdate(OpenStatusUpdate(CloseStatusUpdate(st), job)) == CloseStatusUpdate(st)
    ensures FetchJobs(OpenStatusUpdate(st, job), mine, available) == OpenStatusUpdate(FetchJobs(st, mine, available), job)
    ensures FetchJobs(CloseStatusUpdate(st), mine, available) == CloseStatusUpdate(FetchJobs(st, mine, available))
  {
  }
}
