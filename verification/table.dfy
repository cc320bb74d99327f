/** The candidates_daily_report table both jobs write: the importer's
    `INSERT ... ON CONFLICT (lower(email), lower(job_ref_number), created_on)
    DO UPDATE` statements, run in one transaction, and the re-link job's
    `UPDATE ... WHERE id = :id`. A row is a map from column to value; a
    column a row lacks is NULL. */
module Table {
  import opened Text
  import opened Base
  import opened Columns

  /** The unique key of a row: lower(email), lower(job_ref_number), created_on. */
  datatype Key = Key(email: Value, jobRef: Value, createdOn: Value)

  /** SQL lower() on a text value; other values are left alone. */
  function Lowered(v: Value): Value
  {
    if v.Str? then Str(Lower(v.s)) else v
  }

  /** lower() keeps a text value's length, leaves no upper-case letter in
      it and changes nothing the second time; other values pass through. */
  lemma LoweredShape(v: Value)
    ensures var w := Lowered(v);
      && (w.Str? <==> v.Str?)
      && (v.Str? ==> |w.s| == |v.s| && forall i :: 0 <= i < |v.s| ==> !IsUpper(w.s[i]))
      && (!v.Str? ==> w == v)
      && Lowered(w) == w
  {
    if v.Str? {
      LowerIdempotent(v.s);
    }
  }

  function KeyOf(r: Row): Key
  {
    Key(Lowered(Get(r, Email)), Lowered(Get(r, JobRefNumber)), Get(r, CreatedOn))
  }

  /** Columns the table has: all but the fetch's accessToken and names it
      does not know. */
  predicate IsTableColumn(c: Col)
  {
    !(c.AccessToken? || c.Named?)
  }

  /** source_system's column default. */
  const DefaultSource := "HireIntelligence"

  /** created_on, job_ref_number, email and source_system are NOT NULL. */
  predicate NotNullOk(r: Row)
  {
    Get(r, CreatedOn) != Null && Get(r, JobRefNumber) != Null && Get(r, Email) != Null
    && Get(r, SourceSystem) != Null
  }

  /** No two rows share a key: what the unique index on the key enforces. */
  ghost predicate UniqueKeys(rows: seq<Row>)
  {
    forall i, j :: 0 <= i < j < |rows| ==> KeyOf(rows[i]) != KeyOf(rows[j])
  }

  /** The ids are distinct integers below the serial's next value. */
  ghost predicate IdsBelow(rows: seq<Row>, nextId: int)
  {
    && (forall i :: 0 <= i < |rows| ==> Get(rows[i], Id).Int? && Get(rows[i], Id).i < nextId)
    && (forall i, j :: 0 <= i < j < |rows| ==> Get(rows[i], Id) != Get(rows[j], Id))
  }

  /** What the table's constraints guarantee about its rows. */
  ghost predicate TableRows(rows: seq<Row>, nextId: int)
  {
    && UniqueKeys(rows)
    && IdsBelow(rows, nextId)
    && (forall i :: 0 <= i < |rows| ==> NotNullOk(rows[i]))
  }

  /** The row an INSERT proposes: the record's values over the column
      defaults (the serial id, the transaction's load time, the default
      source system); every other column is NULL. */
  function Proposed(record: Row, id: int, now: int): (p: Row)
    ensures forall c :: c in record ==> c in p && p[c] == record[c]
    ensures Id !in record ==> Get(p, Id) == Int(id)
    ensures EtlLoadTimestamp !in record ==> Get(p, EtlLoadTimestamp) == Time(now)
    ensures SourceSystem !in record ==> Get(p, SourceSystem) == Str(DefaultSource)
    ensures forall c :: c !in record && c != Id && c != EtlLoadTimestamp && c != SourceSystem ==> c !in p
  {
    map[Id := Int(id), EtlLoadTimestamp := Time(now), SourceSystem := Str(DefaultSource)] + record
  }

  /** The proposed row has the record's key. */
  lemma ProposedKey(record: Row, id: int, now: int)
    ensures KeyOf(Proposed(record, id, now)) == KeyOf(record)
  {
  }

  /** `DO UPDATE SET col = EXCLUDED.col` for the listed columns. */
  function Overwrite(existing: Row, p: Row, cols: seq<Col>): (out: Row)
    ensures forall c :: c in cols ==> Get(out, c) == Get(p, c)
    ensures forall c :: c !in cols ==> Get(out, c) == Get(existing, c)
    decreases |cols|
  {
    if cols == [] then existing
    else
      var last := cols[|cols| - 1];
      Overwrite(existing, p, cols[..|cols| - 1])[last := Get(p, last)]
  }

  /** The row holding key k, if any. */
  function FindKey(rows: seq<Row>, k: Key): (o: Option<nat>)
    ensures o.Some? ==> o.value < |rows| && KeyOf(rows[o.value]) == k
    ensures o.None? ==> forall i :: 0 <= i < |rows| ==> KeyOf(rows[i]) != k
  {
    if rows == [] then None
    else if KeyOf(rows[|rows| - 1]) == k then Some(|rows| - 1)
    else FindKey(rows[..|rows| - 1], k)
  }

  /** The record names a column the table does not have. */
  predicate HasForeignColumn(record: Row)
  {
    exists c :: c in record && !IsTableColumn(c)
  }

  /** One upsert statement; `id` is the serial value its INSERT draws. A
      record naming a column the table lacks is refused before it is sent,
      and a NULL in a NOT NULL column violates that constraint; both raise. */
  function UpsertRow(rows: seq<Row>, id: int, record: Row, now: int, cols: seq<Col>): Result<seq<Row>>
  {
    var p := Proposed(record, id, now);
    if HasForeignColumn(record) then Err("Unconsumed column names")
    else if !NotNullOk(p) then Err("null value violates not-null constraint")
    else match FindKey(rows, KeyOf(p))
      case None => Ok(rows + [p])
      case Some(i) => Ok(rows[i := Overwrite(rows[i], p, cols)])
  }

  /** An upsert raises exactly when the record names a foreign column or
      leaves a NOT NULL column NULL. */
  lemma UpsertRowFails(rows: seq<Row>, id: int, record: Row, now: int, cols: seq<Col>)
    ensures UpsertRow(rows, id, record, now, cols).Err? <==>
      || HasForeignColumn(record)
      || Get(record, CreatedOn) == Null || Get(record, JobRefNumber) == Null
      || Get(record, Email) == Null
      || (SourceSystem in record && record[SourceSystem] == Null)
  {
  }

  /** A new key is appended as the proposed row: the record's values, a
      fresh id, the load time. */
  lemma UpsertRowInserts(rows: seq<Row>, id: int, record: Row, now: int, cols: seq<Col>)
    requires UpsertRow(rows, id, record, now, cols).Ok?
    requires forall j :: 0 <= j < |rows| ==> KeyOf(rows[j]) != KeyOf(record)
    ensures UpsertRow(rows, id, record, now, cols).value == rows + [Proposed(record, id, now)]
  {
    ProposedKey(record, id, now);
  }

  /** The row found for the record's key is overwritten in place. */
  lemma UpsertRowFound(rows: seq<Row>, id: int, record: Row, now: int, cols: seq<Col>, i: nat)
    requires UpsertRow(rows, id, record, now, cols).Ok?
    requires FindKey(rows, KeyOf(record)) == Some(i)
    ensures i < |rows|
    ensures UpsertRow(rows, id, record, now, cols).value == rows[i := Overwrite(rows[i], Proposed(record, id, now), cols)]
  {
    ProposedKey(record, id, now);
  }

  /** An existing key is updated in place: with unique keys, the upsert of a
      record whose key row i holds overwrites row i and no other. */
  lemma UpsertRowUpdates(rows: seq<Row>, id: int, record: Row, now: int, cols: seq<Col>, i: int)
    requires UpsertRow(rows, id, record, now, cols).Ok?
    requires 0 <= i < |rows| && KeyOf(rows[i]) == KeyOf(record)
    requires UniqueKeys(rows)
    ensures UpsertRow(rows, id, record, now, cols).value == rows[i := Overwrite(rows[i], Proposed(record, id, now), cols)]
  {
    FindKeyUnique(rows, KeyOf(record), i);
    UpsertRowFound(rows, id, record, now, cols, i);
  }

  /** Overwriting with a proposed row writes the record's own values to the
      listed columns it names, NULL to the listed columns it omits (but the
      defaults), and keeps every other column. */
  lemma OverwriteWithRecord(existing: Row, record: Row, id: int, now: int, cols: seq<Col>)
    ensures var o := Overwrite(existing, Proposed(record, id, now), cols);
      && (forall c :: c in cols && c in record ==> Get(o, c) == record[c])
      && (forall c :: c in cols && c !in record && c != Id && c != EtlLoadTimestamp && c != SourceSystem ==> Get(o, c) == Null)
      && (forall c :: c !in cols ==> Get(o, c) == Get(existing, c))
  {
  }

  /** Under unique keys, the row found for a key is the one holding it. */
  lemma FindKeyUnique(rows: seq<Row>, k: Key, i: int)
    requires UniqueKeys(rows)
    requires 0 <= i < |rows| && KeyOf(rows[i]) == k
    ensures FindKey(rows, k) == Some(i)
  {
  }

  /** Some row has the record's key and its values in the listed columns. */
  ghost predicate Holds(out: seq<Row>, record: Row, cols: seq<Col>)
  {
    exists i :: 0 <= i < |out| && KeyOf(out[i]) == KeyOf(record)
      && forall c :: c in cols && c in record ==> Get(out[i], c) == record[c]
  }

  /** A successful upsert leaves rows with another key where they were, and
      one row with the record's key holding its values in the listed
      columns. */
  lemma UpsertRowResult(rows: seq<Row>, id: int, record: Row, now: int, cols: seq<Col>)
    requires UpsertRow(rows, id, record, now, cols).Ok?
    ensures var out := UpsertRow(rows, id, record, now, cols).value;
      && |rows| <= |out| <= |rows| + 1
      && (forall j :: 0 <= j < |rows| && KeyOf(rows[j]) != KeyOf(record) ==> out[j] == rows[j])
      && Holds(out, record, cols)
  {
    var p := Proposed(record, id, now);
    ProposedKey(record, id, now);
    match FindKey(rows, KeyOf(record))
    case None =>
      UpsertRowInserts(rows, id, record, now, cols);
      AppendHolds(rows, p, record, cols);
    case Some(i) =>
      UpsertRowFound(rows, id, record, now, cols, i);
      OverwriteWithRecord(rows[i], record, id, now, cols);
      OverwriteKey(rows[i], p, cols);
      ReplaceHolds(rows, i, Overwrite(rows[i], p, cols), record, cols);
  }

  /** Appending a row with the record's key and values keeps every row and
      makes the record hold. */
  lemma AppendHolds(rows: seq<Row>, p: Row, record: Row, cols: seq<Col>)
    requires KeyOf(p) == KeyOf(record)
    requires forall c :: c in record ==> c in p && p[c] == record[c]
    ensures var out := rows + [p];
      && (forall j :: 0 <= j < |rows| ==> out[j] == rows[j])
      && Holds(out, record, cols)
  {
    var out := rows + [p];
    assert out[|rows|] == p;
  }

  /** Replacing the row holding the record's key by one with the same key
      and the record's values keeps every other row and makes the record
      hold. */
  lemma ReplaceHolds(rows: seq<Row>, i: int, o: Row, record: Row, cols: seq<Col>)
    requires 0 <= i < |rows| && KeyOf(o) == KeyOf(record)
    requires forall c :: c in cols && c in record ==> Get(o, c) == record[c]
    ensures var out := rows[i := o];
      && (forall j :: 0 <= j < |rows| && j != i ==> out[j] == rows[j])
      && Holds(out, record, cols)
  {
    var out := rows[i := o];
    assert out[i] == o;
  }

  /** Overwriting a row with one of the same key keeps the key: a listed
      key column takes a value that lower-cases alike. */
  lemma OverwriteKey(existing: Row, p: Row, cols: seq<Col>)
    requires KeyOf(existing) == KeyOf(p)
    ensures KeyOf(Overwrite(existing, p, cols)) == KeyOf(p)
  {
    var o := Overwrite(existing, p, cols);
    assert Get(o, Email) == Get(p, Email) || Get(o, Email) == Get(existing, Email);
    assert Get(o, JobRefNumber) == Get(p, JobRefNumber) || Get(o, JobRefNumber) == Get(existing, JobRefNumber);
    assert Get(o, CreatedOn) == Get(p, CreatedOn) || Get(o, CreatedOn) == Get(existing, CreatedOn);
  }

  /** A successful upsert of a record without an id of its own keeps the
      table's constraints, provided it overwrites no key column. */
  lemma UpsertRowKeepsTable(rows: seq<Row>, id: int, record: Row, now: int, cols: seq<Col>)
    requires TableRows(rows, id)
    requires Id !in record
    requires forall c :: c in cols ==> c !in KeptOnConflict
    requires UpsertRow(rows, id, record, now, cols).Ok?
    ensures TableRows(UpsertRow(rows, id, record, now, cols).value, id + 1)
  {
    var p := Proposed(record, id, now);
    match FindKey(rows, KeyOf(p))
    case None => AppendKeepsTable(rows, id, p);
    case Some(i) => OverwriteKeepsTable(rows, id, i, p, cols);
  }

  /** Appending a row with a new key, the serial's value as id and its NOT
      NULL columns filled keeps the table's constraints. */
  lemma AppendKeepsTable(rows: seq<Row>, id: int, p: Row)
    requires TableRows(rows, id)
    requires NotNullOk(p) && Get(p, Id) == Int(id)
    requires forall i :: 0 <= i < |rows| ==> KeyOf(rows[i]) != KeyOf(p)
    ensures TableRows(rows + [p], id + 1)
  {
    var out := rows + [p];
    assert forall i :: 0 <= i < |rows| ==> out[i] == rows[i];
  }

  /** Overwriting columns outside the key of the row holding p's key keeps
      the table's constraints. */
  lemma OverwriteKeepsTable(rows: seq<Row>, id: int, i: int, p: Row, cols: seq<Col>)
    requires TableRows(rows, id)
    requires 0 <= i < |rows| && KeyOf(p) == KeyOf(rows[i]) && NotNullOk(p)
    requires forall c :: c in cols ==> c !in KeptOnConflict
    ensures TableRows(rows[i := Overwrite(rows[i], p, cols)], id + 1)
  {
    var o := Overwrite(rows[i], p, cols);
    assert Id !in cols && Email !in cols && JobRefNumber !in cols && CreatedOn !in cols;
    assert Get(o, Id) == Get(rows[i], Id);
    assert KeyOf(o) == KeyOf(rows[i]);
  }

  /** The state the transaction reaches: the rows after the statements that
      ran, the serial's next value, and the error that stopped it, if any. */
  datatype Run = Run(rows: seq<Row>, nextId: int, error: Option<string>)

  /** The statements of the transaction, in record order, until the first
      that raises. Every statement that reaches the database draws a serial
      value, whether it inserts, updates or violates a constraint. */
  function UpsertAll(rows: seq<Row>, nextId: int, records: seq<Row>, now: int, cols: seq<Col>): (run: Run)
    decreases |records|
  {
    if records == [] then Run(rows, nextId, None)
    else
      var next := if HasForeignColumn(records[0]) then nextId else nextId + 1;
      match UpsertRow(rows, nextId, records[0], now, cols)
      case Err(m) => Run(rows, next, Some(m))
      case Ok(r) => UpsertAll(r, next, records[1..], now, cols)
  }

  /** The serial only moves forward, by at most one per record, and by
      exactly one per record when every statement succeeds. */
  lemma {:induction false} UpsertAllSerial(rows: seq<Row>, nextId: int, records: seq<Row>, now: int, cols: seq<Col>)
    ensures var run := UpsertAll(rows, nextId, records, now, cols);
      && nextId <= run.nextId <= nextId + |records|
      && (run.error.None? ==> run.nextId == nextId + |records|)
    decreases |records|
  {
    if records != [] {
      match UpsertRow(rows, nextId, records[0], now, cols)
      case Err(_) =>
      case Ok(r) => UpsertAllSerial(r, nextId + 1, records[1..], now, cols);
    }
  }

  /** A transaction that commits keeps the table's constraints. */
  lemma {:induction false} UpsertAllKeepsTable(rows: seq<Row>, nextId: int, records: seq<Row>, now: int, cols: seq<Col>)
    requires TableRows(rows, nextId)
    requires forall k :: 0 <= k < |records| ==> Id !in records[k]
    requires forall c :: c in cols ==> c !in KeptOnConflict
    ensures var run := UpsertAll(rows, nextId, records, now, cols);
      run.error.None? ==> TableRows(run.rows, run.nextId)
    decreases |records|
  {
    if records != [] {
      match UpsertRow(rows, nextId, records[0], now, cols)
      case Err(_) =>
      case Ok(r) =>
        UpsertRowKeepsTable(rows, nextId, records[0], now, cols);
        UpsertAllKeepsTable(r, nextId + 1, records[1..], now, cols);
    }
  }

  /** An upsert of another key keeps what an earlier record left. */
  lemma HoldsAfterOtherKey(rows: seq<Row>, id: int, next: Row, now: int, cols: seq<Col>, record: Row)
    requires UpsertRow(rows, id, next, now, cols).Ok?
    requires Holds(rows, record, cols) && KeyOf(next) != KeyOf(record)
    ensures Holds(UpsertRow(rows, id, next, now, cols).value, record, cols)
  {
    UpsertRowResult(rows, id, next, now, cols);
    var i :| 0 <= i < |rows| && KeyOf(rows[i]) == KeyOf(record)
      && forall c :: c in cols && c in record ==> Get(rows[i], c) == record[c];
    assert UpsertRow(rows, id, next, now, cols).value[i] == rows[i];
  }

  /** Upserts of other keys keep what an earlier record left. */
  lemma {:induction false} HoldsThroughOthers(rows: seq<Row>, nextId: int, records: seq<Row>, now: int, cols: seq<Col>, record: Row)
    requires UpsertAll(rows, nextId, records, now, cols).error.None?
    requires Holds(rows, record, cols)
    requires forall k :: 0 <= k < |records| ==> KeyOf(records[k]) != KeyOf(record)
    ensures Holds(UpsertAll(rows, nextId, records, now, cols).rows, record, cols)
    decreases |records|
  {
    if records != [] {
      UpsertAllStep(rows, nextId, records, now, cols);
      var first := UpsertRow(rows, nextId, records[0], now, cols).value;
      HoldsAfterOtherKey(rows, nextId, records[0], now, cols, record);
      HoldsThroughOthers(first, nextId + 1, records[1..], now, cols, record);
    }
  }

  /** In a committed transaction a record that no later record shares a key
      with has a row with its key and its values in the listed columns: the
      last record with a key wins. */
  lemma {:induction false} LastRecordWins(rows: seq<Row>, nextId: int, records: seq<Row>, now: int, cols: seq<Col>, j: int)
    requires UpsertAll(rows, nextId, records, now, cols).error.None?
    requires 0 <= j < |records|
    requires forall k :: j < k < |records| ==> KeyOf(records[k]) != KeyOf(records[j])
    ensures Holds(UpsertAll(rows, nextId, records, now, cols).rows, records[j], cols)
    decreases |records|
  {
    UpsertAllStep(rows, nextId, records, now, cols);
    var first := UpsertRow(rows, nextId, records[0], now, cols).value;
    var rest := records[1..];
    if j == 0 {
      UpsertRowResult(rows, nextId, records[0], now, cols);
      forall k | 0 <= k < |rest| ensures KeyOf(rest[k]) != KeyOf(records[0]) {
        assert rest[k] == records[k + 1];
      }
      HoldsThroughOthers(first, nextId + 1, rest, now, cols, records[0]);
    } else {
      forall k | j - 1 < k < |rest| ensures KeyOf(rest[k]) != KeyOf(rest[j - 1]) {
        assert rest[k] == records[k + 1];
      }
      LastRecordWins(first, nextId + 1, rest, now, cols, j - 1);
    }
  }

  /** A transaction that commits ran its first statement successfully and
      went on from the rows it left, with the next serial value. */
  lemma UpsertAllStep(rows: seq<Row>, nextId: int, records: seq<Row>, now: int, cols: seq<Col>)
    requires records != []
    requires UpsertAll(rows, nextId, records, now, cols).error.None?
    ensures UpsertRow(rows, nextId, records[0], now, cols).Ok?
    ensures UpsertAll(rows, nextId, records, now, cols)
      == UpsertAll(UpsertRow(rows, nextId, records[0], now, cols).value, nextId + 1, records[1..], now, cols)
  {
  }

  /** `UPDATE ... SET cv_gcs_path = :gcs, cv_download_status = :status
      WHERE id = :id`: a NULL id matches no row. */
  function SetCv(rows: seq<Row>, id: Value, path: Value, status: string): (out: seq<Row>)
    ensures |out| == |rows|
    ensures forall i :: 0 <= i < |rows| && (id == Null || Get(rows[i], Id) != id) ==> out[i] == rows[i]
    ensures forall i :: 0 <= i < |rows| && id != Null && Get(rows[i], Id) == id ==>
      && out[i].Keys == rows[i].Keys + {CvGcsPath, CvDownloadStatus}
      && Get(out[i], CvGcsPath) == path && Get(out[i], CvDownloadStatus) == Str(status)
      && Get(out[i], Id) == id
  {
    seq(|rows|, i requires 0 <= i < |rows| =>
      if id != Null && Get(rows[i], Id) == id
      then rows[i][CvGcsPath := path][CvDownloadStatus := Str(status)]
      else rows[i])
  }

  /** The update changes only the path and status of the row with the id. */
  lemma SetCvChangesOnly(rows: seq<Row>, id: Value, path: Value, status: string, i: int, c: Col)
    requires 0 <= i < |rows|
    ensures var out := SetCv(rows, id, path, status);
      && (id == Null || Get(rows[i], Id) != id ==> out[i] == rows[i])
      && (c != CvGcsPath && c != CvDownloadStatus ==> Get(out[i], c) == Get(rows[i], c))
      && (id != Null && Get(rows[i], Id) == id ==>
            Get(out[i], CvGcsPath) == path && Get(out[i], CvDownloadStatus) == Str(status))
  {
  }

  /** The update keeps the table's constraints. */
  lemma SetCvKeepsTable(rows: seq<Row>, nextId: int, id: Value, path: Value, status: string)
    requires TableRows(rows, nextId)
    ensures TableRows(SetCv(rows, id, path, status), nextId)
  {
    var out := SetCv(rows, id, path, status);
    forall i | 0 <= i < |rows|
      ensures KeyOf(out[i]) == KeyOf(rows[i]) && Get(out[i], Id) == Get(rows[i], Id)
      ensures NotNullOk(out[i])
    {
      SetCvChangesOnly(rows, id, path, status, i, Id);
      SetCvChangesOnly(rows, id, path, status, i, Email);
      SetCvChangesOnly(rows, id, path, status, i, JobRefNumber);
      SetCvChangesOnly(rows, id, path, status, i, CreatedOn);
      SetCvChangesOnly(rows, id, path, status, i, SourceSystem);
    }
  }

  /** Ids below one serial value are below any later one. */
  lemma TableRowsLaterSerial(rows: seq<Row>, nextId: int, later: int)
    requires TableRows(rows, nextId) && nextId <= later
    ensures TableRows(rows, later)
  {
  }

  /** The candidates_daily_report table and its id serial. */
  class CandidateTable {
    var rows: seq<Row>
    var nextId: int

    ghost predicate Valid()
      reads this
    {
      TableRows(rows, nextId)
    }

    constructor ()
      ensures rows == [] && nextId == 1
      ensures Valid()
    {
      rows := [];
      nextId := 1;
    }

    /** `with engine.begin()`: one upsert per record, in order. The first
        that raises rolls the transaction back and is re-raised; the serial
        is not rolled back. Otherwise every record affected one row. */
    method Upsert(records: seq<Row>, now: int, cols: seq<Col>) returns (error: Option<string>, affected: nat)
      modifies this
      ensures var run := UpsertAll(old(rows), old(nextId), records, now, cols);
        && error == run.error
        && nextId == run.nextId
        && rows == (if error.None? then run.rows else old(rows))
      ensures error.None? ==> affected == |records|
      ensures affected <= |records|
      ensures (old(Valid()) && (forall k :: 0 <= k < |records| ==> Id !in records[k])
        && (forall c :: c in cols ==> c !in KeptOnConflict)) ==> Valid()
    {
      ghost var whole := UpsertAll(rows, nextId, records, now, cols);
      ghost var initialId := nextId;
      var saved := rows;
      affected := 0;
      error := None;
      var k := 0;
      while k < |records|
        invariant 0 <= k <= |records| && affected == k
        invariant UpsertAll(rows, nextId, records[k..], now, cols) == whole
        invariant initialId <= nextId
      {
        var record := records[k];
        var step := UpsertRow(rows, nextId, record, now, cols);
        if !HasForeignColumn(record) {
          nextId := nextId + 1;
        }
        if step.Err? {
          error := Some(step.error);
          rows := saved;
          if TableRows(saved, initialId) {
            TableRowsLaterSerial(saved, initialId, nextId);
          }
          return;
        }
        assert records[k..][1..] == records[k + 1..];
        rows := step.value;
        affected := affected + 1;
        k := k + 1;
      }
      if TableRows(saved, initialId) && (forall j :: 0 <= j < |records| ==> Id !in records[j])
        && (forall c :: c in cols ==> c !in KeptOnConflict)
      {
        UpsertAllKeepsTable(saved, initialId, records, now, cols);
      }
    }

    /** The re-link job's UPDATE of one row's path and status. */
    method UpdateCv(id: Value, path: Value, status: string)
      modifies this
      ensures rows == SetCv(old(rows), id, path, status)
      ensures nextId == old(nextId)
      ensures old(Valid()) ==> Valid()
    {
      if Valid() {
        SetCvKeepsTable(rows, nextId, id, path, status);
      }
      rows := SetCv(rows, id, path, status);
    }
  }
}
