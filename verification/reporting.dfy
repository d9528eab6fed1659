/** The reporting dashboard: job counts per status, the completion rate and
    the per-assignee activity, all computed from one query over the jobs
    table. */
module ReportingDashboard {
  import opened Wrappers
  import opened Domain

  /** What the query returns for a job: its status, its assignee id and the
      assignee's full name from the joined profile, if the join found one. */
  datatype ReportRow = ReportRow(status: Status, allocatedTo: Option<UserId>, assigneeName: Option<string>)

  /** The number of rows with status `st`: one `filter(...).length`. */
  function CountStatus(rows: seq<ReportRow>, st: Status): (n: nat)
    ensures n <= |rows|
  {
    if rows == [] then 0
    else (if rows[0].status == st then 1 else 0) + CountStatus(rows[1..], st)
  }

  /** The statuses of the rows, in order. */
  function Statuses(rows: seq<ReportRow>): (r: seq<Status>)
    ensures |r| == |rows| && forall i :: 0 <= i < |rows| ==> r[i] == rows[i].status
  {
    seq(|rows|, i requires 0 <= i < |rows| => rows[i].status)
  }

  /** The count is the multiplicity of `st` among the rows' statuses: it
      counts exactly the rows whose status is `st`, whatever their order. */
  lemma {:induction false} CountStatusIsMultiplicity(rows: seq<ReportRow>, st: Status)
    ensures CountStatus(rows, st) == multiset(Statuses(rows))[st]
  {
    if rows != [] {
      CountStatusIsMultiplicity(rows[1..], st);
      assert Statuses(rows) == [rows[0].status] + Statuses(rows[1..]);
    }
  }

  /** The four counts add up to the number of rows: every row has exactly
      one of the four statuses. */
  lemma {:induction false} CountsCoverAll(rows: seq<ReportRow>)
    ensures CountStatus(rows, Pending) + CountStatus(rows, Processing)
          + CountStatus(rows, Query) + CountStatus(rows, Complete) == |rows|
  {
    if rows != [] {
      CountsCoverAll(rows[1..]);
    }
  }

  datatype Stats = Stats(total: nat, pending: nat, processing: nat, query: nat, complete: nat, completionRate: real)

  /** The stats before the first fetch. */
  const NoStats: Stats := Stats(0, 0, 0, 0, 0, 0.0)

  /** `complete / total * 100`, exactly, and 0 for no jobs. */
  function CompletionRate(complete: nat, total: nat): (rate: real)
    requires complete <= total
    ensures total == 0 ==> rate == 0.0
    ensures total > 0 ==> rate * (total as real) == (complete as real) * 100.0
    ensures 0.0 <= rate <= 100.0
    ensures rate == 100.0 <==> total > 0 && complete == total
  {
    if total > 0 then
      var q := (complete as real) / (total as real);
      assert q * (total as real) == complete as real;
      assert q <= 1.0;
      q * 100.0
    else 0.0
  }

  /** The stats of one fetch. */
  function ComputeStats(rows: seq<ReportRow>): (st: Stats)
    ensures st.total == |rows| == st.pending + st.processing + st.query + st.complete
    ensures st.complete == CountStatus(rows, Complete) && st.pending == CountStatus(rows, Pending)
    ensures st.processing == CountStatus(rows, Processing) && st.query == CountStatus(rows, Query)
    ensures st.complete <= st.total && st.completionRate == CompletionRate(st.complete, st.total)
  {
    CountsCoverAll(rows);
    var complete := CountStatus(rows, Complete);
    Stats(|rows|, CountStatus(rows, Pending), CountStatus(rows, Processing), CountStatus(rows, Query),
          complete, CompletionRate(complete, |rows|))
  }

  /** The "In progress" card: the jobs that are neither pending nor
      complete. */
  function InProgress(st: Stats): nat {
    st.processing + st.query
  }

  lemma InProgressIsTheRest(rows: seq<ReportRow>)
    ensures InProgress(ComputeStats(rows)) == |rows| - CountStatus(rows, Pending) - CountStatus(rows, Complete)
    ensures InProgress(ComputeStats(rows)) == CountStatus(rows, Processing) + CountStatus(rows, Query)
  {
  }

  /** A row counts toward activity when it has a (truthy) assignee id and a
      joined profile; it is grouped under the profile's full name. */
  predicate Counted(row: ReportRow) {
    row.allocatedTo.Some? && row.allocatedTo.value != "" && row.assigneeName.Some?
  }

  /** One bar of the activity chart. */
  datatype Activity = Activity(name: string, total: nat, completed: nat)

  predicate DistinctNames(acts: seq<Activity>) {
    forall i, j :: 0 <= i < j < |acts| ==> acts[i].name != acts[j].name
  }

  /** Counted rows grouped under `name`, and those of them complete. */
  function CountNamed(rows: seq<ReportRow>, name: string): nat {
    if rows == [] then 0
    else
      var last := rows[|rows| - 1];
      CountNamed(rows[..|rows| - 1], name) + (if Counted(last) && last.assigneeName.value == name then 1 else 0)
  }

  function CompletedNamed(rows: seq<ReportRow>, name: string): nat {
    if rows == [] then 0
    else
      var last := rows[|rows| - 1];
      CompletedNamed(rows[..|rows| - 1], name)
        + (if Counted(last) && last.assigneeName.value == name && last.status == Complete then 1 else 0)
  }

  /** The number of counted rows. */
  function CountedRows(rows: seq<ReportRow>): (n: nat)
    ensures n <= |rows|
  {
    if rows == [] then 0
    else CountedRows(rows[..|rows| - 1]) + (if Counted(rows[|rows| - 1]) then 1 else 0)
  }

  /** The totals and completions listed under `name`. */
  function TotalFor(acts: seq<Activity>, name: string): nat {
    if acts == [] then 0 else (if acts[0].name == name then acts[0].total else 0) + TotalFor(acts[1..], name)
  }

  function CompletedFor(acts: seq<Activity>, name: string): nat {
    if acts == [] then 0 else (if acts[0].name == name then acts[0].completed else 0) + CompletedFor(acts[1..], name)
  }

  function SumTotals(acts: seq<Activity>): nat {
    if acts == [] then 0 else acts[0].total + SumTotals(acts[1..])
  }

  /** Every bar has at least one job and no more completed jobs than jobs. */
  predicate WellFormedBars(acts: seq<Activity>) {
    forall k :: 0 <= k < |acts| ==> 1 <= acts[k].total && acts[k].completed <= acts[k].total
  }

  /** One counted job for `name`: its bar grows by one, or a new bar is
      appended when the name is new, as a `Map` keeps insertion order. */
  function Bump(acts: seq<Activity>, name: string, done: bool): (r: seq<Activity>)
    ensures |acts| <= |r| <= |acts| + 1
    ensures forall k :: 0 <= k < |acts| ==> r[k].name == acts[k].name
    ensures |r| == |acts| + 1 ==> r[|acts|].name == name && forall k :: 0 <= k < |acts| ==> acts[k].name != name
    decreases |acts|
  {
    var d := if done then 1 else 0;
    if acts == [] then [Activity(name, 1, d)]
    else if acts[0].name == name then [acts[0].(total := acts[0].total + 1, completed := acts[0].completed + d)] + acts[1..]
    else
      var rest := Bump(acts[1..], name, done);
      assert forall k :: 1 <= k < |acts| ==> acts[k] == acts[1..][k - 1] && ([acts[0]] + rest)[k] == rest[k - 1];
      [acts[0]] + rest
  }

  /** Bumping adds one job under `name`, and one completion when the job is
      complete, and nothing under any other name. */
  lemma {:induction false} BumpCounts(acts: seq<Activity>, name: string, done: bool, n: string)
    ensures TotalFor(Bump(acts, name, done), n) == TotalFor(acts, n) + (if n == name then 1 else 0)
    ensures CompletedFor(Bump(acts, name, done), n) == CompletedFor(acts, n) + (if n == name && done then 1 else 0)
    ensures SumTotals(Bump(acts, name, done)) == SumTotals(acts) + 1
    decreases |acts|
  {
    if acts != [] && acts[0].name != name {
      var rest := Bump(acts[1..], name, done);
      BumpCounts(acts[1..], name, done, n);
      assert ([acts[0]] + rest)[1..] == rest;
    } else if acts != [] {
      assert ([acts[0]] + acts[1..])[1..] == acts[1..];
    }
  }

  /** Bumping keeps the names distinct and every bar well formed. */
  lemma {:induction false} BumpKeepsBars(acts: seq<Activity>, name: string, done: bool)
    requires DistinctNames(acts) && WellFormedBars(acts)
    ensures DistinctNames(Bump(acts, name, done)) && WellFormedBars(Bump(acts, name, done))
    decreases |acts|
  {
    if acts == [] {
      ConsKeepsBars(Bump(acts, name, done)[0], []);
      assert Bump(acts, name, done) == [Bump(acts, name, done)[0]] + [];
    } else {
      var tail := acts[1..];
      TailKeepsBars(acts);
      if acts[0].name != name {
        BumpKeepsBars(tail, name, done);
        var rest := Bump(tail, name, done);
        assert forall k :: 0 <= k < |rest| ==> rest[k].name != acts[0].name by {
          forall k | 0 <= k < |rest| ensures rest[k].name != acts[0].name {
            if k < |tail| {
              assert rest[k].name == tail[k].name && tail[k] == acts[k + 1];
            }
          }
        }
        ConsKeepsBars(acts[0], rest);
      } else {
        assert forall k :: 0 <= k < |tail| ==> tail[k].name != acts[0].name by {
          forall k | 0 <= k < |tail| ensures tail[k].name != acts[0].name {
            assert tail[k] == acts[k + 1];
          }
        }
        ConsKeepsBars(Bump(acts, name, done)[0], tail);
      }
    }
  }

  /** The bars after the first keep distinct names and stay well formed. */
  lemma TailKeepsBars(acts: seq<Activity>)
    requires acts != [] && DistinctNames(acts) && WellFormedBars(acts)
    ensures DistinctNames(acts[1..]) && WellFormedBars(acts[1..])
  {
    forall i | 0 <= i < |acts| - 1 ensures acts[1..][i] == acts[i + 1] { }
  }

  /** A well-formed bar under a new name, put before well-formed bars with
      distinct names, keeps both properties. */
  lemma ConsKeepsBars(a: Activity, rest: seq<Activity>)
    requires 1 <= a.total && a.completed <= a.total
    requires DistinctNames(rest) && WellFormedBars(rest)
    requires forall k :: 0 <= k < |rest| ==> rest[k].name != a.name
    ensures DistinctNames([a] + rest) && WellFormedBars([a] + rest)
  {
    var r := [a] + rest;
    assert forall k :: 1 <= k < |r| ==> r[k] == rest[k - 1];
  }

  /** The activity list: the counted rows folded, in query order, into one
      bar per full name. Different users with the same full name share a
      bar. */
  function Activities(rows: seq<ReportRow>): (acts: seq<Activity>)
    ensures DistinctNames(acts) && WellFormedBars(acts)
    ensures forall n :: TotalFor(acts, n) == CountNamed(rows, n)
    ensures forall n :: CompletedFor(acts, n) == CompletedNamed(rows, n)
    ensures SumTotals(acts) == CountedRows(rows)
    ensures |acts| <= |rows|
  {
    if rows == [] then []
    else
      var init := rows[..|rows| - 1];
      var last := rows[|rows| - 1];
      var acts := Activities(init);
      if Counted(last) then
        var name := last.assigneeName.value;
        var done := last.status == Complete;
        BumpKeepsBars(acts, name, done);
        assert forall n :: TotalFor(Bump(acts, name, done), n) == TotalFor(acts, n) + (if n == name then 1 else 0)
                        && CompletedFor(Bump(acts, name, done), n) == CompletedFor(acts, n) + (if n == name && done then 1 else 0) by {
          forall n ensures TotalFor(Bump(acts, name, done), n) == TotalFor(acts, n) + (if n == name then 1 else 0)
                        && CompletedFor(Bump(acts, name, done), n) == CompletedFor(acts, n) + (if n == name && done then 1 else 0) {
            BumpCounts(acts, name, done, n);
          }
        }
        BumpCounts(acts, name, done, name);
        Bump(acts, name, done)
      else acts
  }

  /** In a list of distinct names the total listed under a bar's name is
      that bar's total. */
  lemma {:induction false} TotalOfBar(acts: seq<Activity>, k: nat)
    requires DistinctNames(acts) && k < |acts|
    ensures TotalFor(acts, acts[k].name) == acts[k].total
    ensures CompletedFor(acts, acts[k].name) == acts[k].completed
  {
    if k == 0 {
      AbsentName(acts[1..], acts[0].name);
    } else {
      assert acts[1..][k - 1] == acts[k];
      assert DistinctNames(acts[1..]) by {
        forall i, j | 0 <= i < j < |acts| - 1 ensures acts[1..][i].name != acts[1..][j].name {
          assert acts[1..][i] == acts[i + 1] && acts[1..][j] == acts[j + 1];
        }
      }
      TotalOfBar(acts[1..], k - 1);
    }
  }

  /** A name without a bar has nothing listed under it. */
  lemma {:induction false} AbsentName(acts: seq<Activity>, name: string)
    requires forall k :: 0 <= k < |acts| ==> acts[k].name != name
    ensures TotalFor(acts, name) == 0 && CompletedFor(acts, name) == 0
  {
    if acts != [] {
      assert forall k :: 0 <= k < |acts| - 1 ==> acts[1..][k] == acts[k + 1];
      AbsentName(acts[1..], name);
    }
  }

  /** Each bar shows exactly the counted jobs under its name and how many
      of them are complete; completed never exceeds the total, and the bars
      together never exceed the number of jobs. */
  lemma ActivityBars(rows: seq<ReportRow>, k: nat)
    requires k < |Activities(rows)|
    ensures Activities(rows)[k].total == CountNamed(rows, Activities(rows)[k].name) >= 1
    ensures Activities(rows)[k].completed == CompletedNamed(rows, Activities(rows)[k].name)
    ensures Activities(rows)[k].completed <= Activities(rows)[k].total
    ensures SumTotals(Activities(rows)) <= |rows|
  {
    TotalOfBar(Activities(rows), k);
  }

  /** `name` has a bar. */
  predicate HasBar(acts: seq<Activity>, name: string) {
    exists k :: 0 <= k < |acts| && acts[k].name == name
  }

  /** In a list of well-formed bars with distinct names, a name has a bar
      exactly when something is listed under it. */
  lemma BarIffListed(acts: seq<Activity>, name: string)
    requires DistinctNames(acts) && WellFormedBars(acts)
    ensures HasBar(acts, name) <==> TotalFor(acts, name) > 0
  {
    if HasBar(acts, name) {
      var k :| 0 <= k < |acts| && acts[k].name == name;
      TotalOfBar(acts, k);
    } else {
      AbsentName(acts, name);
    }
  }

  /** A name has a bar exactly when some counted job is grouped under it. */
  lemma HasBarIffCounted(rows: seq<ReportRow>, name: string)
    ensures HasBar(Activities(rows), name) <==> CountNamed(rows, name) > 0
  {
    BarIffListed(Activities(rows), name);
  }

  /** Two counted rows under one full name, whether or not they belong to
      the same user, end up on a single bar, and that bar counts both. */
  lemma SameNameMerges(rows: seq<ReportRow>, i: nat, j: nat)
    requires i < j < |rows| && Counted(rows[i]) && Counted(rows[j])
    requires rows[i].assigneeName == rows[j].assigneeName
    ensures exists k :: (0 <= k < |Activities(rows)|
      && Activities(rows)[k].name == rows[i].assigneeName.value && Activities(rows)[k].total >= 2
      && forall k' :: 0 <= k' < |Activities(rows)| && Activities(rows)[k'].name == rows[i].assigneeName.value ==> k' == k)
  {
    var name := rows[i].assigneeName.value;
    var acts := Activities(rows);
    TwoNamedRows(rows, i, j);
    HasBarIffCounted(rows, name);
    var k :| 0 <= k < |acts| && acts[k].name == name;
    ActivityBars(rows, k);
  }

  /** Two counted rows under `name` make its count at least two. */
  lemma {:induction false} TwoNamedRows(rows: seq<ReportRow>, i: nat, j: nat)
    requires i < j < |rows| && Counted(rows[i]) && Counted(rows[j])
    requires rows[i].assigneeName == rows[j].assigneeName
    ensures CountNamed(rows, rows[i].assigneeName.value) >= 2
    decreases |rows|
  {
    var init := rows[..|rows| - 1];
    if j == |rows| - 1 {
      assert init[i] == rows[i];
      OneNamedRow(init, i);
    } else {
      assert init[i] == rows[i] && init[j] == rows[j];
      TwoNamedRows(init, i, j);
    }
  }

  /** A counted row under `name` makes its count at least one. */
  lemma {:induction false} OneNamedRow(rows: seq<ReportRow>, i: nat)
    requires i < |rows| && Counted(rows[i])
    ensures CountNamed(rows, rows[i].assigneeName.value) >= 1
    decreases |rows|
  {
    if i < |rows| - 1 {
      var init := rows[..|rows| - 1];
      assert init[i] == rows[i];
      OneNamedRow(init, i);
    }
  }

  /** `activityMap` built by the `forEach` over the rows, one job at a time. */
  method BuildActivity(rows: seq<ReportRow>) returns (acts: seq<Activity>)
    ensures acts == Activities(rows)
    ensures DistinctNames(acts) && WellFormedBars(acts) && SumTotals(acts) <= |rows|
  {
    acts := [];
    var i := 0;
    while i < |rows|
      invariant 0 <= i <= |rows|
      invariant acts == Activities(rows[..i])
    {
      assert rows[..i + 1][..i] == rows[..i];
      var row := rows[i];
      if Counted(row) {
        acts := Bump(acts, row.assigneeName.value, row.status == Complete);
      }
      i := i + 1;
    }
    assert rows[..i] == rows;
  }

  /** What the dashboard shows. */
  datatype Report = Report(stats: Stats, activity: seq<Activity>)

  const InitialReport: Report := Report(NoStats, [])

  /** `fetchReportingData`: when the query returns rows, stats and activity
      are both recomputed from them; when it returns nothing, both stay. */
  function Fetch(prev: Report, reply: Option<seq<ReportRow>>): (r: Report)
    ensures reply.None? ==> r == prev
    ensures reply.Some? ==> r.stats.total == |reply.value| && SumTotals(r.activity) <= r.stats.total
    ensures reply.Some? ==> r.stats.complete == CountStatus(reply.value, Complete)
    ensures reply.Some? ==> forall n :: TotalFor(r.activity, n) == CountNamed(reply.value, n)
    ensures reply.Some? ==> forall n :: CompletedFor(r.activity, n) == CompletedNamed(reply.value, n)
    ensures reply.Some? ==>
      && r.stats.pending == CountStatus(reply.value, Pending)
      && r.stats.processing == CountStatus(reply.value, Processing)
      && r.stats.query == CountStatus(reply.value, Query)
      && r.stats.completionRate == CompletionRate(r.stats.complete, r.stats.total)
    ensures reply.Some? ==> r.stats == ComputeStats(reply.value) && r.activity == Activities(reply.value)
  {
    match reply
    case None => prev
    case Some(rows) => Report(ComputeStats(rows), Activities(rows))
  }
}
