/** The records of the job tracker: the job row with its status enum, the
    role enum of the `user_roles` table, and the columns a client supplies
    when it inserts a job. */
module Domain {
  import opened Wrappers

  /** A user reference (the auth provider's user id, also the profile id). */
  type UserId = string

  /** A job row's primary key. */
  type JobId = nat

  /** The `job_status` enum of the jobs table. */
  datatype Status = Pending | Processing | Query | Complete

  /** The enum label the database and the forms use for a status. */
  function StatusName(s: Status): string {
    match s
    case Pending => "pending"
    case Processing => "processing"
    case Query => "query"
    case Complete => "complete"
  }

  /** Reads an enum label; any other text is not a status. */
  function ParseStatus(text: string): (r: Option<Status>)
    ensures r.Some? ==> StatusName(r.value) == text
    ensures forall s: Status :: StatusName(s) == text ==> r == Some(s)
  {
    if text == "pending" then Some(Pending)
    else if text == "processing" then Some(Processing)
    else if text == "query" then Some(Query)
    else if text == "complete" then Some(Complete)
    else None
  }

  /** The `app_role` enum of the user_roles table. */
  datatype Role = Admin | Manager | Allocater | Declarant

  /** The enum label the database and the role picker use for a role. */
  function RoleName(r: Role): string {
    match r
    case Admin => "admin"
    case Manager => "manager"
    case Allocater => "allocater"
    case Declarant => "declarant"
  }

  /** Reads a role label; any other text is not a role. */
  function ParseRole(text: string): (r: Option<Role>)
    ensures r.Some? ==> RoleName(r.value) == text
    ensures forall role: Role :: RoleName(role) == text ==> r == Some(role)
  {
    if text == "admin" then Some(Admin)
    else if text == "manager" then Some(Manager)
    else if text == "allocater" then Some(Allocater)
    else if text == "declarant" then Some(Declarant)
    else None
  }

  /** The profile columns the job lists show for a user. */
  datatype Profile = Profile(employeeId: string, fullName: string)

  /** A row of the jobs table. `createdAt` is the insertion time the
      database stamps; `queryDetails` and `allocatedTo` are nullable. */
  datatype Job = Job(
    jobRef: string,
    importerName: string,
    etd: Option<string>,
    status: Status,
    queryDetails: Option<string>,
    allocatedBy: UserId,
    allocatedTo: Option<UserId>,
    createdAt: int)

  /** The columns a client sends when it inserts a job: the remaining
      columns take their database defaults. */
  datatype Draft = Draft(
    jobRef: string,
    importerName: string,
    etd: Option<string>,
    allocatedBy: UserId,
    allocatedTo: Option<UserId>,
    status: Status)

  /** The row the database stores for an inserted draft: no query details
      (the column default is null) and the insertion time. */
  function FromDraft(d: Draft, now: int): Job {
    Job(d.jobRef, d.importerName, d.etd, d.status, None, d.allocatedBy, d.allocatedTo, now)
  }
}
