/** The jobs table as the components see it: an in-memory map from job id to
    row, with the database's unique constraint on `job_ref` and the error
    codes the components inspect. */
module JobStore {
  import opened Wrappers
  import opened Domain

  /** The jobs table; `nextId` is the id the next inserted row receives. */
  datatype Store = Store(jobs: map<JobId, Job>, nextId: JobId)

  /** A database error, identified by its PostgreSQL SQLSTATE code. */
  datatype DbError = DbError(code: string)

  /** SQLSTATE of a unique-constraint violation. */
  const UniqueViolation: string := "23505"

  /** SQLSTATE of a text that is not a label of the target enum. */
  const InvalidTextRepresentation: string := "22P02"

  /** No two rows share a job reference (the unique constraint on `job_ref`). */
  predicate UniqueRefs(jobs: map<JobId, Job>) {
    forall a, b :: a in jobs && b in jobs && a != b ==> jobs[a].jobRef != jobs[b].jobRef
  }

  /** The table invariant: every id was handed out already and references
      are unique. */
  predicate Valid(s: Store) {
    && (forall id :: id in s.jobs ==> id < s.nextId)
    && UniqueRefs(s.jobs)
  }

  /** The empty table. */
  const Empty: Store := Store(map[], 0)

  /** Some row other than `except` already carries reference `ref`. */
  predicate RefTaken(jobs: map<JobId, Job>, ref: string, except: Option<JobId>) {
    exists id :: id in jobs && Some(id) != except && jobs[id].jobRef == ref
  }

  /** The drafts of one batch carry pairwise different references. */
  predicate DistinctRefs(drafts: seq<Draft>) {
    forall i, j :: 0 <= i < j < |drafts| ==> drafts[i].jobRef != drafts[j].jobRef
  }

  /** Some draft of the batch reuses a reference already in the table. */
  predicate ClashesWithTable(jobs: map<JobId, Job>, drafts: seq<Draft>) {
    exists i :: 0 <= i < |drafts| && RefTaken(jobs, drafts[i].jobRef, None)
  }

  /** The ids a batch of `n` rows receives when the next free id is `first`. */
  function NewIds(first: JobId, n: nat): (ids: set<JobId>)
    ensures forall id :: id in ids <==> first <= id < first + n
    ensures |ids| == n
  {
    if n == 0 then {} else NewIds(first, n - 1) + {first + n - 1}
  }

  /** Adds the drafts one row at a time, draft `i` under id `nextId + i`. */
  function AddRows(s: Store, drafts: seq<Draft>, now: int): Store
    decreases |drafts|
  {
    if drafts == [] then s
    else AddRows(Store(s.jobs[s.nextId := FromDraft(drafts[0], now)], s.nextId + 1), drafts[1..], now)
  }

  /** One INSERT statement carrying a batch of rows. The statement is atomic:
      a unique violation on any row, against the table or inside the batch,
      rejects the whole batch and leaves the table as it was. Every row of
      the batch is stamped with the same insertion time. */
  function Insert(s: Store, drafts: seq<Draft>, now: int): Result<Store, DbError> {
    if !DistinctRefs(drafts) || ClashesWithTable(s.jobs, drafts) then
      Err(DbError(UniqueViolation))
    else
      Ok(AddRows(s, drafts, now))
  }

  /** UPDATE ... WHERE id = `id`, writing the whole new row `row`. It fails
      with a unique violation when the new reference belongs to another row. */
  function Update(s: Store, id: JobId, row: Job): Result<Store, DbError>
    requires id in s.jobs
  {
    if RefTaken(s.jobs, row.jobRef, Some(id)) then Err(DbError(UniqueViolation))
    else Ok(s.(jobs := s.jobs[id := row]))
  }

  /** DELETE ... WHERE id = `id`; deleting a missing row deletes nothing. */
  function Delete(s: Store, id: JobId): Store {
    s.(jobs := s.jobs - {id})
  }

  /** A successful insert adds exactly one row per draft, under fresh ids
      and in batch order, keeps every earlier row, and keeps the table
      invariant; a failed insert is a unique violation. */
  lemma InsertSpec(s: Store, drafts: seq<Draft>, now: int)
    ensures Insert(s, drafts, now).Err? <==> !DistinctRefs(drafts) || ClashesWithTable(s.jobs, drafts)
    ensures Insert(s, drafts, now).Err? ==> Insert(s, drafts, now).error.code == UniqueViolation
    ensures Valid(s) && Insert(s, drafts, now).Ok? ==>
      var t := Insert(s, drafts, now).value;
      && Valid(t)
      && t.nextId == s.nextId + |drafts|
      && t.jobs.Keys == s.jobs.Keys + NewIds(s.nextId, |drafts|)
      && |t.jobs| == |s.jobs| + |drafts|
      && (forall id :: id in s.jobs ==> t.jobs[id] == s.jobs[id])
      && (forall i :: 0 <= i < |drafts| ==> t.jobs[s.nextId + i] == FromDraft(drafts[i], now))
  {
    if Valid(s) && Insert(s, drafts, now).Ok? {
      AddRowsShape(s, drafts, now);
      AddRowsValid(s, drafts, now);
      var t := AddRows(s, drafts, now);
      assert t.jobs.Keys == s.jobs.Keys + NewIds(s.nextId, |drafts|);
      assert s.jobs.Keys !! NewIds(s.nextId, |drafts|);
      assert |t.jobs.Keys| == |s.jobs.Keys| + |NewIds(s.nextId, |drafts|)|;
    }
  }

  /** Inserting a single draft fails exactly when its reference is taken;
      otherwise the row lands under the next id and the table stays valid. */
  lemma InsertOne(s: Store, d: Draft, now: int)
    ensures Insert(s, [d], now).Err? <==> RefTaken(s.jobs, d.jobRef, None)
    ensures Insert(s, [d], now).Err? ==> Insert(s, [d], now).error.code == UniqueViolation
    ensures Insert(s, [d], now).Ok? ==>
      Insert(s, [d], now).value == Store(s.jobs[s.nextId := FromDraft(d, now)], s.nextId + 1)
    ensures Valid(s) && Insert(s, [d], now).Ok? ==> Valid(Insert(s, [d], now).value)
  {
    var s1 := Store(s.jobs[s.nextId := FromDraft(d, now)], s.nextId + 1);
    assert [d][1..] == [];
    assert AddRows(s, [d], now) == AddRows(s1, [], now) == s1;
    assert ClashesWithTable(s.jobs, [d]) <==> RefTaken(s.jobs, d.jobRef, None) by {
      assert [d][0] == d;
    }
  }

  /** Adding rows one at a time puts draft `i` under id `nextId + i` and
      leaves every earlier row alone. */
  lemma {:induction false} AddRowsShape(s: Store, drafts: seq<Draft>, now: int)
    requires forall id :: id in s.jobs ==> id < s.nextId
    ensures AddRows(s, drafts, now).nextId == s.nextId + |drafts|
    ensures forall id :: id in AddRows(s, drafts, now).jobs <==> id in s.jobs || id in NewIds(s.nextId, |drafts|)
    ensures forall id :: id in s.jobs ==> AddRows(s, drafts, now).jobs[id] == s.jobs[id]
    ensures forall i :: 0 <= i < |drafts| ==>
      s.nextId + i in AddRows(s, drafts, now).jobs && AddRows(s, drafts, now).jobs[s.nextId + i] == FromDraft(drafts[i], now)
    decreases |drafts|
  {
    if drafts != [] {
      var s1 := Store(s.jobs[s.nextId := FromDraft(drafts[0], now)], s.nextId + 1);
      var rest := drafts[1..];
      AddRowsShape(s1, rest, now);
      var t := AddRows(s, drafts, now);
      assert t == AddRows(s1, rest, now);
      forall i | 0 <= i < |drafts| ensures t.jobs[s.nextId + i] == FromDraft(drafts[i], now) {
        if i > 0 {
          assert s.nextId + i == s1.nextId + (i - 1);
          assert rest[i - 1] == drafts[i];
        }
      }
      forall id | id in s.jobs ensures t.jobs[id] == s.jobs[id] {
        assert s1.jobs[id] == s.jobs[id];
      }
      NewIdsSplit(s.nextId, |rest|);
    }
  }

  /** Adding a batch whose references are distinct and new to a valid table
      keeps it valid. */
  lemma {:induction false} AddRowsValid(s: Store, drafts: seq<Draft>, now: int)
    requires Valid(s) && DistinctRefs(drafts) && !ClashesWithTable(s.jobs, drafts)
    ensures Valid(AddRows(s, drafts, now))
    decreases |drafts|
  {
    if drafts != [] {
      var s1 := Store(s.jobs[s.nextId := FromDraft(drafts[0], now)], s.nextId + 1);
      assert !RefTaken(s.jobs, drafts[0].jobRef, None);
      assert Valid(s1);
      var rest := drafts[1..];
      assert DistinctRefs(rest) by {
        forall i, j | 0 <= i < j < |rest| ensures rest[i].jobRef != rest[j].jobRef {
          assert rest[i] == drafts[i + 1] && rest[j] == drafts[j + 1];
        }
      }
      assert !ClashesWithTable(s1.jobs, rest) by {
        forall i | 0 <= i < |rest| ensures !RefTaken(s1.jobs, rest[i].jobRef, None) {
          assert rest[i] == drafts[i + 1];
          assert !RefTaken(s.jobs, drafts[i + 1].jobRef, None);
          assert drafts[0].jobRef != drafts[i + 1].jobRef;
        }
      }
      AddRowsValid(s1, rest, now);
      assert AddRows(s, drafts, now) == AddRows(s1, rest, now);
    }
  }

  /** A batch's ids are its first id followed by the ids of the rest. */
  lemma NewIdsSplit(first: JobId, n: nat)
    ensures NewIds(first, n + 1) == {first} + NewIds(first + 1, n)
  {
  }

  /** An update that keeps the row's reference never hits the unique
      constraint of a valid table, changes only that row and keeps the
      invariant. */
  lemma UpdateKeepingRef(s: Store, id: JobId, row: Job)
    requires id in s.jobs && row.jobRef == s.jobs[id].jobRef
    ensures Valid(s) ==> Update(s, id, row) == Ok(s.(jobs := s.jobs[id := row]))
    ensures Valid(s) ==> Valid(Update(s, id, row).value)
  {
  }

  /** Any successful update of a valid table keeps it valid, and it fails
      exactly when another row already holds the new reference. */
  lemma UpdateSpec(s: Store, id: JobId, row: Job)
    requires id in s.jobs
    ensures Update(s, id, row).Err? <==> RefTaken(s.jobs, row.jobRef, Some(id))
    ensures Update(s, id, row).Err? ==> Update(s, id, row).error.code == UniqueViolation
    ensures Update(s, id, row).Ok? ==> Update(s, id, row).value == s.(jobs := s.jobs[id := row])
    ensures Valid(s) && Update(s, id, row).Ok? ==> Valid(Update(s, id, row).value)
  {
  }

  /** Deleting removes exactly the given row and keeps the invariant. */
  lemma DeleteSpec(s: Store, id: JobId)
    requires Valid(s)
    ensures Valid(Delete(s, id))
    ensures Delete(s, id).jobs.Keys == s.jobs.Keys - {id}
    ensures forall k :: k in Delete(s, id).jobs ==> Delete(s, id).jobs[k] == s.jobs[k]
  {
  }
}
