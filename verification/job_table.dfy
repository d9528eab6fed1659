/** The job table component: which action buttons a row offers, the badge
    style of a status, and what the table shows for an empty list or an
    unassigned job. */
module JobTable {
  import opened Wrappers
  import opened Domain

  /** The component's properties: three display switches and which of the
      four callbacks the parent passed. */
  datatype Props = Props(
    showAllActions: bool,
    showTakeAction: bool,
    showStatusUpdate: bool,
    onEdit: bool,
    onDelete: bool,
    onTakeJob: bool,
    onUpdateStatus: bool)

  /** The buttons a row can carry. */
  datatype Action = Take | Update | Edit | Delete

  /** Whether the header and every row get an "Actions" column. */
  function HasActionsColumn(p: Props): bool {
    p.showAllActions || p.showTakeAction || p.showStatusUpdate
  }

  /** The buttons of one row, in the order they are drawn. */
  function RowActions(p: Props): (acts: seq<Action>)
    ensures Take in acts <==> p.showTakeAction && p.onTakeJob
    ensures Update in acts <==> p.showStatusUpdate && p.onUpdateStatus
    ensures Edit in acts <==> p.showAllActions && p.onEdit
    ensures Delete in acts <==> p.showAllActions && p.onDelete
    ensures acts != [] ==> HasActionsColumn(p)
    ensures forall i, j :: 0 <= i < j < |acts| ==> acts[i] != acts[j]
  {
    if !HasActionsColumn(p) then []
    else
      var take := if p.showTakeAction && p.onTakeJob then [Take] else [];
      var update := if p.showStatusUpdate && p.onUpdateStatus then [Update] else [];
      var edit := if p.showAllActions && p.onEdit then [Edit] else [];
      var delete := if p.showAllActions && p.onDelete then [Delete] else [];
      DistinctButtons(take, update, edit, delete);
      take + update + edit + delete
  }

  /** At most one button of each kind, joined in drawing order, gives no
      button twice. */
  lemma DistinctButtons(a: seq<Action>, b: seq<Action>, c: seq<Action>, d: seq<Action>)
    requires a == [] || a == [Take]
    requires b == [] || b == [Update]
    requires c == [] || c == [Edit]
    requires d == [] || d == [Delete]
    ensures forall i, j :: 0 <= i < j < |a + b + c + d| ==> (a + b + c + d)[i] != (a + b + c + d)[j]
  {
    var acts := a + b + c + d;
    forall i, j | 0 <= i < j < |acts| ensures acts[i] != acts[j] {
      assert Rank(acts[i]) < Rank(acts[j]) by {
        RankedButtons(a, b, c, d, i, j);
      }
    }
  }

  /** In the joined list a later button has a later place in the drawing
      order. */
  lemma RankedButtons(a: seq<Action>, b: seq<Action>, c: seq<Action>, d: seq<Action>, i: int, j: int)
    requires a == [] || a == [Take]
    requires b == [] || b == [Update]
    requires c == [] || c == [Edit]
    requires d == [] || d == [Delete]
    requires 0 <= i < j < |a + b + c + d|
    ensures Rank((a + b + c + d)[i]) < Rank((a + b + c + d)[j])
  {
  }

  /** The drawing order of the buttons. */
  function Rank(x: Action): nat {
    match x
    case Take => 0
    case Update => 1
    case Edit => 2
    case Delete => 3
  }

  /** The badge classes for a status label, `getStatusVariant`. */
  function StatusVariant(status: string): string {
    if status == "pending" then "bg-warning text-warning-foreground"
    else if status == "processing" then "bg-info text-info-foreground"
    else if status == "query" then "bg-accent text-accent-foreground"
    else if status == "complete" then "bg-success text-success-foreground"
    else MutedVariant
  }

  /** The badge classes of any label outside the enum. */
  const MutedVariant: string := "bg-muted text-muted-foreground"

  /** The badge style is defined for every label: the four statuses get
      four different styles, none of them the muted one, and every other
      label gets the muted style. */
  lemma StatusVariantTotal(text: string)
    ensures ParseStatus(text).None? ==> StatusVariant(text) == MutedVariant
    ensures forall a: Status, b: Status :: a != b ==> StatusVariant(StatusName(a)) != StatusVariant(StatusName(b))
    ensures forall a: Status :: StatusVariant(StatusName(a)) != MutedVariant
  {
  }

  /** The "Allocated To" cell. */
  datatype AssigneeCell = Assigned(fullName: string, employeeId: string) | Unassigned

  /** A job without a joined assignee profile shows "Unassigned". */
  function AssigneeOf(profile: Option<Profile>): (c: AssigneeCell)
    ensures c.Unassigned? <==> profile.None?
    ensures profile.Some? ==> c == Assigned(profile.value.fullName, profile.value.employeeId)
  {
    match profile
    case None => Unassigned
    case Some(pr) => Assigned(pr.fullName, pr.employeeId)
  }

  /** The assignee profile the list queries embed through the
      `allocated_to` foreign key: none when the job has no assignee or the
      assignee has no profile. */
  function JoinedProfile(job: Job, profiles: map<UserId, Profile>): Option<Profile> {
    if job.allocatedTo.Some? && job.allocatedTo.value in profiles then Some(profiles[job.allocatedTo.value]) else None
  }

  /** What the component draws for a list: the notice, or a table with one
      "Allocated To" cell per job and, maybe, the actions column. */
  datatype Body = NoJobsFound | Table(assignees: seq<AssigneeCell>, actionsColumn: bool)

  /** An empty list shows the "No jobs found" notice instead of a table. */
  function Render(jobs: seq<Job>, profiles: map<UserId, Profile>, p: Props): (b: Body)
    ensures b.NoJobsFound? <==> |jobs| == 0
    ensures b.Table? ==> |b.assignees| == |jobs| && b.actionsColumn == HasActionsColumn(p)
  {
    if |jobs| == 0 then NoJobsFound
    else Table(seq(|jobs|, i requires 0 <= i < |jobs| => AssigneeOf(JoinedProfile(jobs[i], profiles))), HasActionsColumn(p))
  }

  /** The table and its rows agree: a list with a job draws one row per
      job, a row shows "Unassigned" exactly when its job has no assignee or
      the assignee has no profile, and otherwise that profile's name and
      employee id; a drawn table whose rows carry a button has the actions
      column, and a table without that column draws no button on any row. */
  lemma RenderShowsRowButtons(jobs: seq<Job>, profiles: map<UserId, Profile>, p: Props)
    ensures |jobs| > 0 ==> Render(jobs, profiles, p).Table? && |Render(jobs, profiles, p).assignees| == |jobs|
    ensures |jobs| > 0 ==> forall i :: 0 <= i < |jobs| ==>
      (Render(jobs, profiles, p).assignees[i].Unassigned? <==>
        jobs[i].allocatedTo.None? || jobs[i].allocatedTo.value !in profiles)
    ensures |jobs| > 0 ==> forall i :: 0 <= i < |jobs| && jobs[i].allocatedTo.Some? && jobs[i].allocatedTo.value in profiles ==>
      var pr := profiles[jobs[i].allocatedTo.value];
      Render(jobs, profiles, p).assignees[i] == Assigned(pr.fullName, pr.employeeId)
    ensures Render(jobs, profiles, p).Table? && RowActions(p) != [] ==> Render(jobs, profiles, p).actionsColumn
    ensures Render(jobs, profiles, p).Table? && !Render(jobs, profiles, p).actionsColumn ==> RowActions(p) == []
  {
  }
}
