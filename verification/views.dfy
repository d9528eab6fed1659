/** The job lists the dashboards hold. Each list is the answer of a query
    over the jobs table, filtered by assignee, newest first; after any change
    on the table a dashboard re-runs its query and replaces the list, unless
    the query fails, in which case it keeps the list it had. */
module Views {
  import opened Wrappers
  import opened Domain

  /** The row filters the dashboards use. */
  datatype Filter =
    | AllJobs                  // admin and allocater: every job
    | AssignedTo(user: UserId) // declarant "my jobs": allocated_to = user
    | Unallocated              // declarant "available": allocated_to IS NULL

  predicate Matches(f: Filter, j: Job) {
    match f
    case AllJobs => true
    case AssignedTo(u) => j.allocatedTo == Some(u)
    case Unallocated => j.allocatedTo.None?
  }

  /** One line of a list: the row's id and its columns. */
  datatype Entry = Entry(id: JobId, job: Job)

  /** The ids a list shows. */
  function Ids(view: seq<Entry>): set<JobId> {
    set i | 0 <= i < |view| :: view[i].id
  }

  predicate DistinctIds(view: seq<Entry>) {
    forall i, j :: 0 <= i < j < |view| ==> view[i].id != view[j].id
  }

  /** Ordered by `created_at` descending. Rows created at the same instant
      may come in any order. */
  predicate NewestFirst(view: seq<Entry>) {
    forall i, j :: 0 <= i < j < |view| ==> view[i].job.createdAt >= view[j].job.createdAt
  }

  /** `view` is a correct answer of the query with filter `f` over `jobs`:
      every matching row once, current columns, newest first. */
  predicate IsAnswer(view: seq<Entry>, jobs: map<JobId, Job>, f: Filter) {
    && (forall i :: 0 <= i < |view| ==>
          view[i].id in jobs && jobs[view[i].id] == view[i].job && Matches(f, view[i].job))
    && (forall id :: id in jobs && Matches(f, jobs[id]) ==> id in Ids(view))
    && DistinctIds(view)
    && NewestFirst(view)
  }

  /** What a query returns to the component: its rows or an error. */
  datatype Reply = Rows(rows: seq<Entry>) | QueryFailed

  /** The list after a fetch: the rows when the query succeeded, the
      previous list when it failed. */
  function Refresh(prev: seq<Entry>, reply: Reply): seq<Entry> {
    match reply
    case Rows(rows) => rows
    case QueryFailed => prev
  }

  /** A refetch triggered by a change event catches up with the table when
      the query succeeds: whatever the list held before, it now shows every
      matching row once, with its current columns, the same lines as the
      reference evaluation `Query`. When the query fails the list is the
      stale one it was. */
  lemma RefreshAfterChange(prev: seq<Entry>, reply: Reply, jobs: map<JobId, Job>, f: Filter)
    requires reply.Rows? ==> IsAnswer(reply.rows, jobs, f)
    ensures reply.Rows? ==> Ids(Refresh(prev, reply)) == MatchingIds(jobs, f)
    ensures reply.Rows? ==> |Refresh(prev, reply)| == |MatchingIds(jobs, f)|
    ensures reply.Rows? ==> forall e :: e in Refresh(prev, reply) <==> e in Query(jobs, f)
    ensures reply.QueryFailed? ==> Refresh(prev, reply) == prev
  {
    if reply.Rows? {
      AnswersAgree(reply.rows, Query(jobs, f), jobs, f);
    }
  }

  /** A list of distinct ids is as long as its id set. */
  lemma {:induction false} DistinctIdsCount(view: seq<Entry>)
    requires DistinctIds(view)
    ensures |Ids(view)| == |view|
  {
    if view != [] {
      var tail := view[1..];
      assert DistinctIds(tail) by {
        forall i, j | 0 <= i < j < |tail| ensures tail[i].id != tail[j].id {
          assert tail[i] == view[i + 1] && tail[j] == view[j + 1];
        }
      }
      DistinctIdsCount(tail);
      assert Ids(view) == {view[0].id} + Ids(tail) by {
        forall id ensures id in Ids(view) <==> id in {view[0].id} + Ids(tail) {
          if id in Ids(view) {
            var i :| 0 <= i < |view| && view[i].id == id;
            if i > 0 {
              assert tail[i - 1] == view[i];
            }
          }
          if id in Ids(tail) {
            var i :| 0 <= i < |tail| && tail[i].id == id;
            assert view[i + 1] == tail[i];
          }
        }
      }
      assert view[0].id !in Ids(tail);
    }
  }

  /** The matching rows of a table. */
  function MatchingIds(jobs: map<JobId, Job>, f: Filter): set<JobId> {
    set id | id in jobs && Matches(f, jobs[id])
  }

  /** Any two answers of the same query show the same lines, as many of
      them; they can differ only in the order of rows created at the same
      instant. So a refetched list is determined by the table. */
  lemma AnswersAgree(v1: seq<Entry>, v2: seq<Entry>, jobs: map<JobId, Job>, f: Filter)
    requires IsAnswer(v1, jobs, f) && IsAnswer(v2, jobs, f)
    ensures Ids(v1) == Ids(v2) == MatchingIds(jobs, f)
    ensures |v1| == |v2| == |MatchingIds(jobs, f)|
    ensures forall e :: e in v1 <==> e in v2
  {
    AnswerIds(v1, jobs, f);
    AnswerIds(v2, jobs, f);
    DistinctIdsCount(v1);
    DistinctIdsCount(v2);
    forall e | e in v1 ensures e in v2 {
      AnswerHasEntry(v1, v2, jobs, f, e);
    }
    forall e | e in v2 ensures e in v1 {
      AnswerHasEntry(v2, v1, jobs, f, e);
    }
  }

  /** An answer shows exactly the matching ids. */
  lemma AnswerIds(v: seq<Entry>, jobs: map<JobId, Job>, f: Filter)
    requires IsAnswer(v, jobs, f)
    ensures Ids(v) == MatchingIds(jobs, f)
  {
    forall id | id in Ids(v) ensures id in MatchingIds(jobs, f) {
      var i :| 0 <= i < |v| && v[i].id == id;
    }
  }

  /** A line of one answer is a line of any other answer of the same query. */
  lemma AnswerHasEntry(v1: seq<Entry>, v2: seq<Entry>, jobs: map<JobId, Job>, f: Filter, e: Entry)
    requires IsAnswer(v1, jobs, f) && IsAnswer(v2, jobs, f) && e in v1
    ensures e in v2
  {
    var i :| 0 <= i < |v1| && v1[i] == e;
    assert e.id in Ids(v2);
    var j :| 0 <= j < |v2| && v2[j].id == e.id;
    assert v2[j] == Entry(e.id, jobs[e.id]) == e;
  }

  /** `id` is a newest row among `ks`. */
  ghost predicate IsNewest(id: JobId, ks: set<JobId>, jobs: map<JobId, Job>)
    requires ks <= jobs.Keys
  {
    id in ks && forall k :: k in ks ==> jobs[k].createdAt <= jobs[id].createdAt
  }

  /** Every non-empty set of rows has a newest row. */
  lemma NewestExists(ks: set<JobId>, jobs: map<JobId, Job>)
    requires ks <= jobs.Keys && ks != {}
    ensures exists id :: IsNewest(id, ks, jobs)
    decreases |ks|
  {
    var x :| x in ks;
    if ks != {x} {
      var rest := ks - {x};
      NewestExists(rest, jobs);
      var y :| IsNewest(y, rest, jobs);
      if jobs[x].createdAt <= jobs[y].createdAt {
        assert IsNewest(y, ks, jobs);
      } else {
        assert IsNewest(x, ks, jobs);
      }
    } else {
      assert IsNewest(x, ks, jobs);
    }
  }

  /** Putting a newest matching row in front of an answer over the rest of
      the table gives an answer over the whole table. */
  lemma ConsAnswer(jobs: map<JobId, Job>, f: Filter, id: JobId, tail: seq<Entry>)
    requires MatchingIds(jobs, f) <= jobs.Keys && IsNewest(id, MatchingIds(jobs, f), jobs)
    requires IsAnswer(tail, jobs - {id}, f)
    ensures IsAnswer([Entry(id, jobs[id])] + tail, jobs, f)
  {
    var rest := jobs - {id};
    var ks := MatchingIds(jobs, f);
    var v := [Entry(id, jobs[id])] + tail;
    assert forall i :: 0 < i < |v| ==> v[i] == tail[i - 1];
    forall k | k in jobs && Matches(f, jobs[k]) ensures k in Ids(v) {
      if k == id {
        assert v[0].id == k;
      } else {
        assert k in rest && Matches(f, rest[k]);
        var i :| 0 <= i < |tail| && tail[i].id == k;
        assert v[i + 1].id == k;
      }
    }
    forall i, j | 0 <= i < j < |v| ensures v[i].id != v[j].id && v[i].job.createdAt >= v[j].job.createdAt {
      if i == 0 {
        assert v[j] == tail[j - 1];
        assert tail[j - 1].id in rest;
        assert tail[j - 1].id in ks;
      }
    }
  }

  /** A reference evaluation of a query: repeatedly take a newest matching
      row. It shows that every table has an answer for every filter. */
  ghost function Query(jobs: map<JobId, Job>, f: Filter): (v: seq<Entry>)
    ensures IsAnswer(v, jobs, f)
    decreases |jobs|
  {
    var ks := MatchingIds(jobs, f);
    if ks == {} then []
    else
      NewestExists(ks, jobs);
      var id :| IsNewest(id, ks, jobs);
      var rest := jobs - {id};
      assert rest.Keys == jobs.Keys - {id};
      var tail := Query(rest, f);
      ConsAnswer(jobs, f, id, tail);
      [Entry(id, jobs[id])] + tail
  }

  /** A job in the declarant's own list is never in the available list:
      answers of the two queries share no id. */
  lemma MineAndAvailableDisjoint(mine: seq<Entry>, available: seq<Entry>, jobs: map<JobId, Job>, user: UserId)
    requires IsAnswer(mine, jobs, AssignedTo(user)) && IsAnswer(available, jobs, Unallocated)
    ensures Ids(mine) !! Ids(available)
    ensures forall i :: 0 <= i < |mine| ==> mine[i].job.allocatedTo == Some(user)
    ensures forall i :: 0 <= i < |available| ==> available[i].job.allocatedTo.None?
  {
    AnswerIds(mine, jobs, AssignedTo(user));
    AnswerIds(available, jobs, Unallocated);
  }
}
