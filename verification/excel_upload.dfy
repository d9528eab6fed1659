/** The bulk import: the rows of a spreadsheet's first sheet become jobs in
    one insert. A row is the object the sheet reader produces for it: a
    header name for each non-empty cell, mapped to the cell's text. */
module ExcelUpload {
  import opened Wrappers
  import opened Domain
  import opened JobStore
  import JobForm
  import Text

  type Row = map<string, string>

  /** The header names each column may go by, in the order they are tried. */
  const JobRefKeys: seq<string> := ["Job Ref", "job_ref"]
  const ImporterKeys: seq<string> := ["Importer/Exporter", "Importer Name", "importer_name"]
  const EtdKeys: seq<string> := ["ETD", "etd"]

  /** `row[key]` is truthy: the key is present and its text is not empty. */
  predicate Truthy(row: Row, key: string) {
    key in row && row[key] != ""
  }

  /** `keys[i]` is the first of `keys` whose cell is truthy. */
  predicate IsFirstTruthy(row: Row, keys: seq<string>, i: int) {
    && 0 <= i < |keys|
    && Truthy(row, keys[i])
    && forall j :: 0 <= j < i ==> !Truthy(row, keys[j])
  }

  /** `row[k1] || row[k2] || ...`: the first truthy cell among the aliases,
      or nothing when none is truthy. */
  function FirstTruthy(row: Row, keys: seq<string>): (r: Option<string>)
    ensures r.None? <==> forall i :: 0 <= i < |keys| ==> !Truthy(row, keys[i])
    ensures r.Some? ==> exists i :: IsFirstTruthy(row, keys, i) && r.value == row[keys[i]]
    ensures r.Some? ==> r.value != ""
    decreases |keys|
  {
    if keys == [] then None
    else if Truthy(row, keys[0]) then
      assert IsFirstTruthy(row, keys, 0);
      Some(row[keys[0]])
    else
      var rest := FirstTruthy(row, keys[1..]);
      assert forall i :: 1 <= i < |keys| ==> keys[i] == keys[1..][i - 1];
      if rest.None? then None
      else
        var i :| IsFirstTruthy(row, keys[1..], i) && rest.value == row[keys[1..][i]];
        assert IsFirstTruthy(row, keys, i + 1);
        rest
  }

  /** The header check, made on the first row alone: it needs a job
      reference key and an importer key, whatever their cells hold. */
  predicate HasHeaders(first: Row) {
    && (JobRefKeys[0] in first || JobRefKeys[1] in first)
    && (ImporterKeys[0] in first || ImporterKeys[1] in first || ImporterKeys[2] in first)
  }

  /** One row as a job to insert, or nothing when its reference or its
      importer is falsy. The ETD falls back to null; the status is always
      `pending`, the importing user is the allocator and nobody is
      assigned. The texts are taken as they are, untrimmed. */
  function Normalise(row: Row, user: UserId): (r: Option<Draft>)
    ensures r.None? <==> FirstTruthy(row, JobRefKeys).None? || FirstTruthy(row, ImporterKeys).None?
    ensures r.Some? ==>
      && r.value.jobRef == FirstTruthy(row, JobRefKeys).value
      && r.value.importerName == FirstTruthy(row, ImporterKeys).value
      && r.value.etd == FirstTruthy(row, EtdKeys)
      && r.value.status == Pending && r.value.allocatedBy == user && r.value.allocatedTo.None?
  {
    match (FirstTruthy(row, JobRefKeys), FirstTruthy(row, ImporterKeys))
    case (Some(ref), Some(importer)) => Some(Draft(ref, importer, FirstTruthy(row, EtdKeys), user, None, Pending))
    case _ => None
  }

  /** The first truthy alias is unique, so `FirstTruthy` finds a value
      exactly when some alias is the first truthy one, and then it is that
      alias's cell. */
  lemma FirstTruthyIsFirst(row: Row, keys: seq<string>)
    ensures FirstTruthy(row, keys).Some? <==> exists i :: IsFirstTruthy(row, keys, i)
    ensures forall i :: IsFirstTruthy(row, keys, i) ==> FirstTruthy(row, keys) == Some(row[keys[i]])
  {
    forall i | IsFirstTruthy(row, keys, i) ensures FirstTruthy(row, keys) == Some(row[keys[i]]) {
      assert Truthy(row, keys[i]);
      assert FirstTruthy(row, keys).Some?;
      var j :| IsFirstTruthy(row, keys, j) && FirstTruthy(row, keys).value == row[keys[j]];
    }
  }

  /** What `Normalise` reads from a row, stated over the row's cells: a
      row yields a job exactly when one of its reference aliases and one of
      its importer aliases has a non-empty cell; the job then carries the
      cell of the first such alias of each, the first non-empty ETD cell or
      null, and is `pending`, unassigned, with the importing user as its
      allocator. */
  lemma NormaliseReadsRow(row: Row, user: UserId)
    ensures Normalise(row, user).Some? <==>
      (exists i :: IsFirstTruthy(row, JobRefKeys, i)) && (exists i :: IsFirstTruthy(row, ImporterKeys, i))
    ensures Normalise(row, user).Some? ==>
      var d := Normalise(row, user).value;
      && (forall i :: IsFirstTruthy(row, JobRefKeys, i) ==> d.jobRef == row[JobRefKeys[i]])
      && (forall i :: IsFirstTruthy(row, ImporterKeys, i) ==> d.importerName == row[ImporterKeys[i]])
      && (forall i :: IsFirstTruthy(row, EtdKeys, i) ==> d.etd == Some(row[EtdKeys[i]]))
      && ((forall i :: 0 <= i < |EtdKeys| ==> !Truthy(row, EtdKeys[i])) ==> d.etd.None?)
      && d.status == Pending && d.allocatedTo.None? && d.allocatedBy == user
  {
    FirstTruthyIsFirst(row, JobRefKeys);
    FirstTruthyIsFirst(row, ImporterKeys);
    FirstTruthyIsFirst(row, EtdKeys);
  }

  /** The drafts an import produces: every row normalised, in sheet order,
      with the rows that yield nothing dropped. */
  function Prepare(rows: seq<Row>, user: UserId): (jobs: seq<Draft>)
    ensures |jobs| <= |rows|
    ensures forall k :: 0 <= k < |jobs| ==>
      && jobs[k].status == Pending && jobs[k].allocatedBy == user && jobs[k].allocatedTo.None?
      && jobs[k].jobRef != "" && jobs[k].importerName != ""
    ensures forall d :: d in jobs ==> exists i :: 0 <= i < |rows| && Normalise(rows[i], user) == Some(d)
    ensures forall i :: 0 <= i < |rows| && Normalise(rows[i], user).Some? ==> Normalise(rows[i], user).value in jobs
    decreases |rows|
  {
    if rows == [] then []
    else
      var rest := Prepare(rows[1..], user);
      var head := if Normalise(rows[0], user).Some? then [Normalise(rows[0], user).value] else [];
      PrependRow(rows, user, rest, head);
      head + rest
  }

  /** One step of `Prepare`: the drafts of the first row, put before the
      drafts of the other rows, are the drafts of all rows. */
  lemma PrependRow(rows: seq<Row>, user: UserId, rest: seq<Draft>, head: seq<Draft>)
    requires rows != []
    requires head == if Normalise(rows[0], user).Some? then [Normalise(rows[0], user).value] else []
    requires |rest| <= |rows| - 1
    requires forall k :: 0 <= k < |rest| ==>
      && rest[k].status == Pending && rest[k].allocatedBy == user && rest[k].allocatedTo.None?
      && rest[k].jobRef != "" && rest[k].importerName != ""
    requires forall d :: d in rest ==> exists i :: 0 <= i < |rows[1..]| && Normalise(rows[1..][i], user) == Some(d)
    requires forall i :: 0 <= i < |rows[1..]| && Normalise(rows[1..][i], user).Some? ==> Normalise(rows[1..][i], user).value in rest
    ensures |head + rest| <= |rows|
    ensures forall k :: 0 <= k < |head + rest| ==>
      && (head + rest)[k].status == Pending && (head + rest)[k].allocatedBy == user && (head + rest)[k].allocatedTo.None?
      && (head + rest)[k].jobRef != "" && (head + rest)[k].importerName != ""
    ensures forall d :: d in head + rest ==> exists i :: 0 <= i < |rows| && Normalise(rows[i], user) == Some(d)
    ensures forall i :: 0 <= i < |rows| && Normalise(rows[i], user).Some? ==> Normalise(rows[i], user).value in head + rest
  {
    assert forall i :: 1 <= i < |rows| ==> rows[i] == rows[1..][i - 1];
  }

  /** Preparing two sheets one after the other is preparing their
      concatenation: the import treats each row on its own, and keeps the
      order. */
  lemma {:induction false} PrepareAppend(a: seq<Row>, b: seq<Row>, user: UserId)
    ensures Prepare(a + b, user) == Prepare(a, user) + Prepare(b, user)
    decreases |a|
  {
    if a != [] {
      var ab := a + b;
      assert ab[1..] == a[1..] + b;
      assert ab[0] == a[0];
      var head := if Normalise(a[0], user).Some? then [Normalise(a[0], user).value] else [];
      assert Prepare(ab, user) == head + Prepare(ab[1..], user);
      assert Prepare(a, user) == head + Prepare(a[1..], user);
      PrepareAppend(a[1..], b, user);
    } else {
      assert a + b == b;
    }
  }

  /** A single row yields its normalised draft, or nothing. With
      `PrepareAppend` this determines `Prepare` on every sheet. */
  lemma PrepareOne(row: Row, user: UserId)
    ensures Prepare([row], user) == if Normalise(row, user).Some? then [Normalise(row, user).value] else []
  {
    assert [row][1..] == [];
  }

  /** Why an import inserted nothing. */
  datatype UploadError = EmptyFile | MissingColumns | NoValidRows | DuplicateRefs | UploadFailed

  /** The error toast's choice: code 23505 means some references already
      exist, every other code is a generic failure. */
  function ReportError(e: DbError): (r: UploadError)
    ensures r == DuplicateRefs <==> e.code == UniqueViolation
    ensures r != DuplicateRefs ==> r == UploadFailed
  {
    if e.code == UniqueViolation then DuplicateRefs else UploadFailed
  }

  /** `handleFileUpload` from the decoded rows on: the empty-sheet check,
      the header check, the filter, then one insert of all drafts. A unique
      violation reports that some references exist; success reports how
      many jobs were uploaded. */
  function Upload(s: Store, user: UserId, rows: seq<Row>, now: int): (r: Result<(Store, nat), UploadError>)
    ensures r == Err(EmptyFile) <==> rows == []
    ensures r == Err(MissingColumns) <==> rows != [] && !HasHeaders(rows[0])
    ensures r == Err(NoValidRows) <==> rows != [] && HasHeaders(rows[0]) && Prepare(rows, user) == []
    ensures r == Err(DuplicateRefs) <==>
      && rows != [] && HasHeaders(rows[0]) && Prepare(rows, user) != []
      && (!DistinctRefs(Prepare(rows, user)) || ClashesWithTable(s.jobs, Prepare(rows, user)))
    ensures r.Ok? ==>
      && r.value.1 == |Prepare(rows, user)| >= 1
      && Ok(r.value.0) == Insert(s, Prepare(rows, user), now)
    ensures Valid(s) && r.Ok? ==>
      && Valid(r.value.0)
      && |r.value.0.jobs| == |s.jobs| + r.value.1
      && r.value.0.jobs.Keys == s.jobs.Keys + NewIds(s.nextId, r.value.1)
      && (forall id :: id in s.jobs ==> r.value.0.jobs[id] == s.jobs[id])
      && (forall i :: 0 <= i < |Prepare(rows, user)| ==>
            r.value.0.jobs[s.nextId + i] == FromDraft(Prepare(rows, user)[i], now))
  {
    if rows == [] then Err(EmptyFile)
    else if !HasHeaders(rows[0]) then Err(MissingColumns)
    else
      var jobs := Prepare(rows, user);
      if jobs == [] then Err(NoValidRows)
      else
        InsertSpec(s, jobs, now);
        match Insert(s, jobs, now)
        case Ok(t) => Ok((t, |jobs|))
        case Err(e) => Err(ReportError(e))
  }

  /** The header check looks at the first row only: a sheet whose first row
      has the headers passes it even when no other row does, and one whose
      first row lacks them fails whatever the other rows hold. */
  lemma HeadersFromFirstRowOnly(first: Row, rest: seq<Row>, s: Store, user: UserId, now: int)
    ensures !HasHeaders(first) ==> Upload(s, user, [first] + rest, now) == Err(MissingColumns)
    ensures HasHeaders(first) ==> Upload(s, user, [first] + rest, now) != Err(MissingColumns)
  {
    assert ([first] + rest)[0] == first;
  }

  /** The import applies none of the form's checks: a reference made only
      of whitespace is truthy, so a row holding it and an importer is
      imported as it is, though the form refuses that reference. */
  lemma ImportSkipsFormChecks(ref: string, importer: string, user: UserId)
    requires ref != "" && Text.IsBlank(ref) && importer != ""
    ensures var row: Row := map["Job Ref" := ref, "Importer Name" := importer];
      && Prepare([row], user) == [Draft(ref, importer, None, user, None, Pending)]
      && JobForm.Validate(JobForm.FormInput(ref, importer, "", "", None)) == Some(JobForm.JobRefRequired)
  {
    var row: Row := map["Job Ref" := ref, "Importer Name" := importer];
    assert Truthy(row, JobRefKeys[0]);
    assert !Truthy(row, ImporterKeys[0]) && Truthy(row, ImporterKeys[1]);
    assert !Truthy(row, EtdKeys[0]) && !Truthy(row, EtdKeys[1]);
    assert FirstTruthy(row, EtdKeys).None?;
    PrepareOne(row, user);
  }
}
