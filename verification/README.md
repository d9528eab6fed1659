# Customs job tracker: the job lifecycle as a Dafny model

This project models the core of a web application that tracks customs jobs
(import/export consignments) through allocation and processing. It is written
in Dafny 4.11. The application's components read and write three database
tables: `jobs`, `user_roles` and `profiles`. Here every write a component makes
is a pure function from one state of the tables to the next. Every read is a
function of the tables.

- `JobStore` is the `jobs` table. It is a map from job id to row, with the
  unique constraint on `job_ref` and the two PostgreSQL error codes the
  components look at: 23505 (unique violation) and 22P02 (a text that is not a
  label of the enum).
- `Views` says what a correct answer of a list query is. That is every
  matching row exactly once, with its current columns, newest first. The
  module also covers the refetch every change event triggers.
- `JobStatusUpdate`, `DeclarantDashboard`, `JobForm`, `ExcelUpload`,
  `UserRoleManager` and `AdminDashboard` are the writes: the status dialog,
  taking a job, creating and editing a job, the spreadsheet import, granting
  and revoking roles, and deleting a job.
- `ReportingDashboard` is the aggregate: counts per status, the completion
  rate and the per-assignee bars.
- `Login` covers the two forms' validation and the employee-id-to-identity
  mapping. `DashboardPage` is the role dispatch. `JobTable` is the gating of
  the action buttons.
- `Text` holds JavaScript's `trim()`, `length` (UTF-16 code units) and
  `includes()`, as the validators use them.

The database clock, the auth provider's answers and the outcome of each list
query are parameters: `now`, `SignInReply`, a sign-up error message, and
`Reply`.

These lemmas state behaviours of the code that a reader might not expect:

- Taking a job and editing it through the form do not keep the rule "status is
  `query` exactly when there is query text". Taking a `query` job keeps its
  text (`DeclarantDashboard.TakeKeepsStaleDetails`). The form writes the status
  without touching the text (`JobForm.EditKeepsStaleDetails`). Only the status
  dialog keeps the two coupled (`JobStatusUpdate.Submit`).
- Taking a job is an unconditional update, not a compare-and-set. A second
  take overwrites the first (`DeclarantDashboard.SecondTakeWins`).
- The form's edit overwrites `allocated_by` with the editing user
  (`JobForm.EditWrites`), so the column records the last editor, not the
  allocator.
- Removing a role the user does not hold succeeds and changes nothing
  (`UserRoleManager.RemoveRole`). It does not report "not assigned".
- The import applies none of the form's checks. A whitespace reference is
  truthy and is imported (`ExcelUpload.ImportSkipsFormChecks`).
- The dashboard page fetches the role once, when it mounts. A later
  sign-in as another user replaces only the user, so the page renders the
  first user's role dashboard for the second user's id
  (`DashboardPage.NewSessionKeepsOldRole`).
- The bulk import is atomic. One insert carries the whole batch, and any
  duplicate reference rejects all of it (`ExcelUpload.Upload`).

The dashboard page does not guard against a role label outside the enum: such
a label would pass the no-role check and render no dashboard
(`DashboardPage.UnknownRoleShowsNoDashboard`). The case cannot arise while the
role column is the enum, which refuses such labels with 22P02
(`UserRoleManager.ReadRole`).

## Model

| member | source | states |
|---|---|---|
| Text.Trim | job-tracker-main/src/components/jobs/JobForm.tsx:12-13 | only a blank prefix and a blank suffix are removed: the input is blank text, then the result, then blank text; the result is empty exactly when the input is all whitespace, and otherwise starts and ends with a non-whitespace character |
| Text.TrimIsSlice | job-tracker-main/src/components/jobs/JobForm.tsx:12-13 | trimming keeps one contiguous run of the input |
| Text.TrimIdempotent | job-tracker-main/src/pages/Login.tsx:13 | trimming twice is trimming once |
| Text.TrimOfTrimmed | job-tracker-main/src/pages/Login.tsx:13 | a text that neither starts nor ends with whitespace is unchanged by trimming |
| Text.JsLength | job-tracker-main/src/components/jobs/JobStatusUpdate.tsx:12 | the length zod compares lies between the number of characters and twice it, and is zero only for the empty text |
| Text.JsLengthOfBmp | job-tracker-main/src/components/jobs/JobStatusUpdate.tsx:12 | for text without astral characters the length zod compares is the number of characters |
| Text.Includes | job-tracker-main/src/pages/Login.tsx:127 | the scan answers true exactly when the phrase occurs somewhere in the text |
| Domain.ParseStatus | job-tracker-main/src/components/jobs/JobForm.tsx:80 | a label reads as a status exactly when it is the name of that status |
| Domain.ParseRole | job-tracker-main/src/components/admin/UserRoleManager.tsx:48 | a label reads as a role exactly when it is the name of that role |
| JobStore.InsertSpec | job-tracker-main/src/components/jobs/ExcelUpload.tsx:76-85 | a batch insert fails with 23505 exactly when two drafts share a reference or one reuses a table reference; on success it adds one row per draft under fresh ids, in order, keeps every old row and keeps references unique |
| JobStore.InsertOne | job-tracker-main/src/components/jobs/JobForm.tsx:105-114 | a single insert fails with 23505 exactly when the reference is taken; otherwise the row lands under the next id and the table stays valid |
| JobStore.AddRowsShape | job-tracker-main/src/components/jobs/ExcelUpload.tsx:76 | draft i of a batch is stored under id nextId + i, and every earlier row is kept |
| JobStore.AddRowsValid | job-tracker-main/src/components/jobs/ExcelUpload.tsx:76 | a batch with distinct, new references keeps the table's references unique |
| JobStore.UpdateSpec | job-tracker-main/src/components/jobs/JobForm.tsx:84-96 | an update by id fails with 23505 exactly when another row holds the new reference; otherwise only that row changes and the invariant holds |
| JobStore.UpdateKeepingRef | job-tracker-main/src/components/jobs/JobStatusUpdate.tsx:51-54 | an update that keeps the row's reference always succeeds on a valid table and changes only that row |
| JobStore.DeleteSpec | job-tracker-main/src/components/dashboard/AdminDashboard.tsx:68-69 | deleting removes exactly that row and keeps the invariant |
| Views.Query | job-tracker-main/src/components/dashboard/AdminDashboard.tsx:25-32 | every table has an answer for every filter: the matching rows once each, newest first |
| Views.AnswersAgree | job-tracker-main/src/components/dashboard/AdminDashboard.tsx:25-32 | two answers of one query hold the same lines and as many; only rows created at the same instant may be ordered differently |
| Views.AnswerIds | job-tracker-main/src/components/dashboard/DeclarantDashboard.tsx:18-35 | an answer shows exactly the ids of the matching rows |
| Views.DistinctIdsCount | job-tracker-main/src/components/dashboard/AdminDashboard.tsx:25-32 | a list without repeated ids is as long as its id set |
| Views.RefreshAfterChange | job-tracker-main/src/components/dashboard/AdminDashboard.tsx:34-42 | whatever order the database picks among rows of one instant, a successful refetch shows exactly the ids of the rows matching the filter, once each, and exactly the lines of the reference answer; a failed one keeps the old list |
| Views.MineAndAvailableDisjoint | job-tracker-main/src/components/dashboard/DeclarantDashboard.tsx:25-34 | no job is both on a declarant's own list and on the available list |
| JobTable.RowActions | job-tracker-main/src/components/jobs/JobTable.tsx:124-172 | each button shows exactly when its switch is on and its callback is passed; Edit and Delete only with showAllActions; no button twice; any button implies the actions column |
| JobTable.StatusVariantTotal | job-tracker-main/src/components/jobs/JobTable.tsx:35-48 | the four statuses get four different badge styles, none muted; every other label is muted |
| JobTable.RenderShowsRowButtons | job-tracker-main/src/components/jobs/JobTable.tsx:50-110 | a non-empty list renders as a table with one row per job; a row's "Allocated To" cell shows "Unassigned" exactly when the job has no assignee or the assignee has no profile, and otherwise that profile's full name and employee id; the actions column is there whenever some row gets a button, and when it is absent no row gets one |
| JobStatusUpdate.SelectableStatusesAreTheEnum | job-tracker-main/src/components/jobs/JobStatusUpdate.tsx:98-103 | the dialog offers every status of the enum exactly once |
| JobStatusUpdate.ValidateDetails | job-tracker-main/src/components/jobs/JobStatusUpdate.tsx:11-13 | query text passes exactly when its trimmed length is 1..1000; it is missing exactly when blank |
| JobStatusUpdate.OpenThenSubmitKeepsRow | job-tracker-main/src/components/jobs/JobStatusUpdate.tsx:22-54 | submitting the dialog as it opens on a coupled job whose text, if any, is valid query text leaves the table exactly as it was |
| JobStatusUpdate.OpenThenSubmitClearsBlankText | job-tracker-main/src/components/jobs/JobStatusUpdate.tsx:22-54 | submitting the dialog as it opens on a non-`query` job with stale text succeeds and only clears that text |
| JobStatusUpdate.Submit | job-tracker-main/src/components/jobs/JobStatusUpdate.tsx:31-54 | only the `query` status is validated; on a valid table the update succeeds exactly when validation passes; it writes the status and the raw text for `query`, null otherwise, changes nothing else, and leaves the row's status and text coupled |
| DeclarantDashboard.FetchPartitions | job-tracker-main/src/components/dashboard/DeclarantDashboard.tsx:17-35 | after two successful queries the own list is exactly the user's jobs, the available list exactly the unallocated ones, and they are disjoint |
| DeclarantDashboard.TakeJob | job-tracker-main/src/components/dashboard/DeclarantDashboard.tsx:75-79 | on a valid table a take always succeeds, sets the assignee to the user and the status to `processing`, and changes no other column and no other job |
| DeclarantDashboard.SecondTakeWins | job-tracker-main/src/components/dashboard/DeclarantDashboard.tsx:75-79 | a second take of a taken job succeeds and overwrites the first taker |
| DeclarantDashboard.TakeKeepsStaleDetails | job-tracker-main/src/components/dashboard/DeclarantDashboard.tsx:75-79 | taking any coupled `query` job on a valid table succeeds and leaves it `processing` with its query text, breaking the status/text coupling |
| DeclarantDashboard.DeclarantActions | job-tracker-main/src/components/dashboard/DeclarantDashboard.tsx:109-124 | the own list offers only Update, the available list only Take |
| DeclarantDashboard.StatusDialogRoundTrip | job-tracker-main/src/components/dashboard/DeclarantDashboard.tsx:95-101 | opening the status dialog and closing it again returns to the page with no dialog; closing is idempotent after an opening; refetching the lists commutes with opening and with closing the dialog |
| JobForm.OpenThenEditKeepsRow | job-tracker-main/src/components/jobs/JobForm.tsx:49-192 | submitting the edit form as it opens, on a job whose columns pass validation, rewrites only `allocated_by`, to the editing user; the create form opens empty and is refused for its missing reference |
| JobForm.Validate | job-tracker-main/src/components/jobs/JobForm.tsx:11-15 | the form passes exactly when the trimmed reference is 1..100 and the trimmed importer 1..200 code units; the first failing field is reported, reference first, with "required" for blank text and "too long" past the bound |
| JobForm.ResolveStatus | job-tracker-main/src/components/jobs/JobForm.tsx:80 | an absent or empty status is `pending`; other text is accepted exactly when it is a status label, else the write fails with 22P02 |
| JobForm.Create | job-tracker-main/src/components/jobs/JobForm.tsx:104-121 | invalid input writes nothing; a bad status is a generic failure; otherwise creation fails as a duplicate exactly when the reference is taken, and on success adds exactly one row under the next id |
| JobForm.CreatedJobsArePending | job-tracker-main/src/components/jobs/JobForm.tsx:189-192 | a job made by the create form is `pending`, has no query text, is coupled, and records its creator and creation time |
| JobForm.SaveEdit | job-tracker-main/src/components/jobs/JobForm.tsx:84-96 | an edit's update fails, as a duplicate, exactly when another job holds the new reference; otherwise it replaces that one row |
| JobForm.Edit | job-tracker-main/src/components/jobs/JobForm.tsx:83-103 | invalid input writes nothing; on an existing job the edit fails as a duplicate exactly when another job holds the reference; editing a missing job succeeds unchanged; only the edited row changes |
| JobForm.EditWrites | job-tracker-main/src/components/jobs/JobForm.tsx:74-87 | a successful edit writes the typed reference, importer, ETD and assignee (empty as null), the editing user as allocator and the chosen status, and keeps the query text and creation time |
| JobForm.EditKeepsStaleDetails | job-tracker-main/src/components/jobs/JobForm.tsx:74-81 | editing a coupled `query` job to another status keeps its text and breaks the coupling |
| ExcelUpload.FirstTruthy | job-tracker-main/src/components/jobs/ExcelUpload.tsx:58-60 | the value is the first non-empty cell among the aliases, in alias order, or none when all are missing or empty |
| ExcelUpload.NormaliseReadsRow | job-tracker-main/src/components/jobs/ExcelUpload.tsx:57-63 | a row yields a job exactly when some reference alias and some importer alias have a non-empty cell; the job carries the first such cell of each, the first non-empty ETD cell or null, and is `pending`, unassigned, with the importing user as allocator |
| ExcelUpload.Prepare | job-tracker-main/src/components/jobs/ExcelUpload.tsx:57-63 | every output comes from a row, every normalisable row is in the output, and no output is longer than the sheet |
| ExcelUpload.PrepareAppend | job-tracker-main/src/components/jobs/ExcelUpload.tsx:57-63 | preparing two sheets one after the other is preparing their concatenation: rows are handled one by one, in order |
| ExcelUpload.PrepareOne | job-tracker-main/src/components/jobs/ExcelUpload.tsx:57-63 | a one-row sheet yields that row's job or nothing |
| ExcelUpload.Upload | job-tracker-main/src/components/jobs/ExcelUpload.tsx:31-92 | an empty sheet, missing headers in the first row, no valid row and a duplicate reference are each reported exactly when they occur, in that order; success inserts all prepared jobs at once and reports their number |
| ExcelUpload.HeadersFromFirstRowOnly | job-tracker-main/src/components/jobs/ExcelUpload.tsx:42-54 | the header check depends on the first row alone |
| ExcelUpload.ImportSkipsFormChecks | job-tracker-main/src/components/jobs/ExcelUpload.tsx:63 | every non-empty whitespace reference with an importer is imported as a job, though the form refuses that reference as missing |
| ReportingDashboard.CountStatus | job-tracker-main/src/components/dashboard/ReportingDashboard.tsx:64-67 | a status count never exceeds the number of jobs |
| ReportingDashboard.CountStatusIsMultiplicity | job-tracker-main/src/components/dashboard/ReportingDashboard.tsx:64-67 | a status count is the number of times that status occurs among the rows' statuses, whatever their order |
| ReportingDashboard.CountsCoverAll | job-tracker-main/src/components/dashboard/ReportingDashboard.tsx:62-67 | the four status counts add up to the number of jobs |
| ReportingDashboard.CompletionRate | job-tracker-main/src/components/dashboard/ReportingDashboard.tsx:68 | the rate times the total is 100 times the completed count; it is 0 with no jobs, lies in 0..100, and is 100 exactly when every job is complete |
| ReportingDashboard.ComputeStats | job-tracker-main/src/components/dashboard/ReportingDashboard.tsx:62-69 | total and the four counts are the filtered counts, they add up to the total, and the rate is the completed share |
| ReportingDashboard.InProgressIsTheRest | job-tracker-main/src/components/dashboard/ReportingDashboard.tsx:153 | the in-progress card is the jobs neither pending nor complete |
| ReportingDashboard.Bump | job-tracker-main/src/components/dashboard/ReportingDashboard.tsx:77-84 | adding a job keeps every existing bar's name and place; the list grows by one bar only for a name it did not hold, and that bar is last |
| ReportingDashboard.BumpCounts | job-tracker-main/src/components/dashboard/ReportingDashboard.tsx:80-84 | adding a job under a name adds one to that name's total, and one to its completed count when the job is complete, and changes no other name |
| ReportingDashboard.BumpKeepsBars | job-tracker-main/src/components/dashboard/ReportingDashboard.tsx:77-79 | adding a job keeps bar names distinct and every bar's completed count within its total |
| ReportingDashboard.Activities | job-tracker-main/src/components/dashboard/ReportingDashboard.tsx:73-92 | one bar per name, its total and completed the counted jobs under that name; the bars add up to the counted jobs |
| ReportingDashboard.ActivityBars | job-tracker-main/src/components/dashboard/ReportingDashboard.tsx:73-92 | every bar counts at least one job, completed never exceeds total, and the bars never exceed the number of jobs |
| ReportingDashboard.HasBarIffCounted | job-tracker-main/src/components/dashboard/ReportingDashboard.tsx:75-79 | a name has a bar exactly when some counted job is grouped under it |
| ReportingDashboard.SameNameMerges | job-tracker-main/src/components/dashboard/ReportingDashboard.tsx:74-86 | any two counted jobs under one full name, whether of one user or of two, land on a single bar whose total counts both |
| ReportingDashboard.BuildActivity | job-tracker-main/src/components/dashboard/ReportingDashboard.tsx:74-86 | the loop over the jobs builds the same bars as the fold |
| ReportingDashboard.Fetch | job-tracker-main/src/components/dashboard/ReportingDashboard.tsx:57-95 | with rows, the report is recomputed from them: total, the four counts, the rate, and per name the total and completed counts of the bars; with none, both stay |
| UserRoleManager.RoleOptionsAreTheEnum | job-tracker-main/src/components/admin/UserRoleManager.tsx:136-139 | the picker offers a label for every role and nothing else |
| UserRoleManager.ReadRole | job-tracker-main/src/components/admin/UserRoleManager.tsx:48 | the database accepts a label exactly when it names a role, else 22P02 |
| UserRoleManager.InsertGrant | job-tracker-main/src/components/admin/UserRoleManager.tsx:46-49 | the insert fails exactly when the label is bad or the pair exists (then with 23505); otherwise it adds the pair |
| UserRoleManager.DeleteGrant | job-tracker-main/src/components/admin/UserRoleManager.tsx:73-77 | the delete fails only on a bad label; otherwise it removes the pair, present or not |
| UserRoleManager.AddRole | job-tracker-main/src/components/admin/UserRoleManager.tsx:43-58 | "already has this role" exactly when the pair exists; a generic failure exactly for a bad label; success adds a new pair |
| UserRoleManager.RemoveRole | job-tracker-main/src/components/admin/UserRoleManager.tsx:70-84 | fails only on a bad label, generically; otherwise removes exactly that pair |
| UserRoleManager.AddRoleEffect | job-tracker-main/src/components/admin/UserRoleManager.tsx:46-49 | adding a role gives the user exactly that extra role and changes nobody else's roles |
| UserRoleManager.RemoveRoleEffect | job-tracker-main/src/components/admin/UserRoleManager.tsx:73-77 | removing a role always succeeds for a real role, takes exactly that role and changes nobody else's |
| UserRoleManager.AddThenRemove | job-tracker-main/src/components/admin/UserRoleManager.tsx:43-94 | adding a role the user lacks and removing it restores the table; adding a held role fails and changes nothing |
| UserRoleManager.Listing | job-tracker-main/src/components/admin/UserRoleManager.tsx:14-35 | one card per profile, in order, each listing exactly that user's roles |
| UserRoleManager.AfterChangeKeepsInSync | job-tracker-main/src/components/admin/UserRoleManager.tsx:59-65 | every role change, successful or not, leaves one card per profile, in order, listing exactly the roles the table grants that user; a failed change keeps the table |
| UserRoleManager.AddShowsRole | job-tracker-main/src/components/admin/UserRoleManager.tsx:59-64 | after a successful add the user's card shows the new role |
| JobPanels.OpeningsCommute | job-tracker-main/src/components/dashboard/AdminDashboard.tsx:85-116 | opening the upload panel commutes with starting an edit and with "Create Job"; both openings are idempotent; an edit started after "Create Job" is the same as one started directly |
| JobPanels.CreateWhileEditing | job-tracker-main/src/components/dashboard/AdminDashboard.tsx:116-125 | "Create Job" pressed during an edit keeps the form on the edited job |
| JobPanels.SaveForm | job-tracker-main/src/components/jobs/JobForm.tsx:83-122 | the form edits the job it was opened on, or creates one when opened on none, and keeps the table valid |
| JobPanels.AllJobsAfterFetch | job-tracker-main/src/components/dashboard/AdminDashboard.tsx:24-43 | after a successful fetch the all-jobs list holds every job exactly once, newest first; a failed fetch keeps the list |
| AdminDashboard.AdminActions | job-tracker-main/src/components/dashboard/AdminDashboard.tsx:135-140 | the admin table offers Edit and Delete on every row |
| AdminDashboard.PanelRoundTrips | job-tracker-main/src/components/dashboard/AdminDashboard.tsx:85-132 | closing the form undoes starting an edit and "Create Job"; closing the upload panel undoes opening it, and restores the page when it was closed; closing the form commutes with opening the upload panel; "Create Job" after closing an edit creates rather than edits |
| AdminDashboard.HandleDelete | job-tracker-main/src/components/dashboard/AdminDashboard.tsx:68-69 | a delete removes exactly that job, with no confirmation, and keeps the table valid |
| AdminDashboard.DeleteThenRefetch | job-tracker-main/src/components/dashboard/AdminDashboard.tsx:48-61 | after a delete the refetched list holds every other job and not the deleted one |
| AdminDashboard.SubmitForm | job-tracker-main/src/components/dashboard/AdminDashboard.tsx:120-126 | a successful save closes the form; a failed one leaves the table and the panels as they were |
| AdminDashboard.SubmitUpload | job-tracker-main/src/components/dashboard/AdminDashboard.tsx:128-132 | a successful import closes only the upload panel; a failed one changes nothing |
| AllocaterDashboard.AllocaterActions | job-tracker-main/src/components/dashboard/AllocaterDashboard.tsx:98 | allocaters get Edit and never Delete |
| AllocaterDashboard.ClosePanelsResets | job-tracker-main/src/components/dashboard/AllocaterDashboard.tsx:70-74 | the shared close leaves the same page whatever was opened before it, is idempotent, and "Create Job" after it opens a form on no job |
| AllocaterDashboard.SubmitForm | job-tracker-main/src/components/dashboard/AllocaterDashboard.tsx:90-96 | a successful save closes both panels; a failed one changes nothing |
| AllocaterDashboard.SubmitUpload | job-tracker-main/src/components/dashboard/AllocaterDashboard.tsx:89 | a successful import closes both panels, the form included; a failed one changes nothing |
| DashboardPage.RenderedByRole | job-tracker-main/src/pages/Dashboard.tsx:109-111 | at most one dashboard renders, none exactly for a label outside the enum; admin and manager both get the admin dashboard, allocater and declarant each their own |
| DashboardPage.Resolve | job-tracker-main/src/pages/Dashboard.tsx:19-111 | no session redirects to login; a missing or empty role shows the notice; otherwise the header and the role's dashboard |
| DashboardPage.UnknownRoleShowsNoDashboard | job-tracker-main/src/pages/Dashboard.tsx:83-111 | an unknown role label shows the header with no dashboard |
| DashboardPage.MountShowsResolve | job-tracker-main/src/pages/Dashboard.tsx:19-50 | the page mounted for a session shows what the session and its role resolve to: the login page without a session, the notice without a role, else the role's dashboards |
| DashboardPage.AuthChangeResolves | job-tracker-main/src/pages/Dashboard.tsx:53-61 | losing the session ends on the login page; a new session replaces the user but keeps the role loaded at mount, so the page shows the new user under the old role, and that role's one dashboard when it is a label of the enum |
| DashboardPage.NewSessionKeepsOldRole | job-tracker-main/src/pages/Dashboard.tsx:30-61 | a page mounted for one user that receives another user's session renders the first user's role dashboard for the second user's id |
| Login.ValidateLogin | job-tracker-main/src/pages/Login.tsx:12-15 | the login passes exactly when the trimmed id is 1..50 and the password 8..100 code units; the first failing field is reported, id first |
| Login.ValidateSignup | job-tracker-main/src/pages/Login.tsx:17-23 | sign-up passes exactly when the login checks pass, the trimmed name is 1..100 and the passwords match; errors come in field order, the mismatch last |
| Login.IdentityInjective | job-tracker-main/src/pages/Login.tsx:53 | different ids give different identities, the id being sent as typed, untrimmed |
| Login.SpacedIdSendsAnotherIdentity | job-tracker-main/src/pages/Login.tsx:39-55 | an id typed with any leading whitespace gets the same validation verdict as the bare id but sends the auth provider a different identity |
| Login.SignUpThenLogin | job-tracker-main/src/pages/Login.tsx:39-122 | every sign-up the form sends, the login form accepts with the same id and password, sending the identity and password the account was created with |
| Login.LoginOutcomeOf | job-tracker-main/src/pages/Login.tsx:52-71 | a login succeeds exactly when the input is valid and the provider returns no error and a session |
| Login.SignUpRequest | job-tracker-main/src/pages/Login.tsx:94-122 | invalid input stops before the provider; valid input sends the identity, the password and the id and name as typed |
| Login.SignUpOutcomeOf | job-tracker-main/src/pages/Login.tsx:124-137 | no error signs up; an error containing "already registered" reads as a taken id; any other error is a generic failure |

## Left out

- Transient and network failures of writes, and the `catch` blocks that report them. Every write is deterministic on the modelled tables. The only write error codes are 23505 and 22P02.
- Loading flags and toast messages. Their distinctions are modelled as error constructors.
- Foreign keys from `jobs.allocated_by` and `jobs.allocated_to` to `profiles`. The tables are modelled without referential checks.
- The realtime channels, their subscription and their removal. Each change event is a refetch, given as a `Reply` parameter.
- The auth provider itself: sessions, password checking and sign-out. Its answers are parameters.
- `.single()` on the role query when a user holds several roles. That query then returns an error and no data, which the page reads like a missing role. `DashboardPage.Resolve` takes the resulting role, or none, as a parameter.
- A failed per-profile roles query in the role manager, which lists no roles for that user. `UserRoleManager.Listing` assumes every query succeeds.
- Spreadsheet decoding, and numeric or date cells. A row is the decoded map from header to text.
- The type of the `etd` column, which the database schema fixes and which is not part of this model. The form offers a date input for it (JobForm.tsx line 168) and the table formats it as a date (JobTable.tsx line 90), so it is probably a date column. ETD is free text here: a spreadsheet ETD that is not a date would make the real batch insert fail with a code other than 23505, which the import reports as the generic failure (ExcelUpload.tsx lines 81-83), while `ExcelUpload.Upload` reports success.
- Concurrent takes, and a compare-and-set on `allocated_to`. The code has none: takes are sequential updates.
- The declarant picker's fetch in the job form (JobForm.tsx lines 28-47) and the browser's `required` attributes. They only restrict what a user can type.
- The profile header of the dashboard page, which, like the role, is loaded only when the page mounts, and the list rendering in JobList.tsx.
- Job ids are a counter, not database UUIDs. `created_at` is a `now` parameter, and one batch insert stamps every row with the same `now`.
