/** insert_candidate_data and main of the daily importer: rename the
    fetched columns, run the CV pass, keep the insertable columns, clean the
    rows and upsert them in one transaction. */
module Importer {
  import opened Base
  import opened Seqs
  import opened Frames
  import opened Columns
  import opened Pagination
  import opened CvStatus
  import opened Cleaning
  import opened Table

  /** The columns the importer adds before the CV pass. */
  function Tagged(df: Frame<Col>): (out: Frame<Col>)
  {
    SetColumn(SetColumn(SetColumn(df, SourceSystem, Str(DefaultSource)), CvGcsPath, Null), CvDownloadStatus, Null)
  }

  /** The records to upsert, cleaned from the insertable columns, and the
      columns a key conflict overwrites. */
  datatype Insert = Insert(records: seq<Row>, cols: seq<Col>)

  /** What insert_candidate_data ends up doing: nothing, raising with a
      message, or upserting a batch of records. */
  datatype Batch = Nothing | Raise(message: string) | Upsert(ins: Insert)

  /** The frame after the rename, the added columns and the CV pass, or
      the message of the KeyError that ends insert_candidate_data (no
      accessToken column, or the CV pass escaping). */
  function Passed(df: Frame<string>, calls: nat -> CvCalls): Result<Frame<Col>>
  {
    var tagged := Tagged(RenameFrame(df));
    if AccessToken !in tagged.columns then Err(KeyErrorText(AccessToken))
    else match CvPass(tagged.rows, calls)
      case Err(m) => Err(m)
      case Ok(passed) => Ok(Frame(tagged.columns, passed))
  }

  function InsertOf(passed: Frame<Col>, parse: Value -> Option<int>): Insert
  {
    var selected := SelectInsertColumns(passed);
    Insert(CleanRows(parse, selected.rows), UpdateColsIn(selected.columns))
  }

  /** What follows the CV pass: raise its error, or upsert the cleaned
      records unless there are none. */
  function BatchAfter(passed: Result<Frame<Col>>, parse: Value -> Option<int>): Batch
  {
    match passed
    case Err(m) => Raise(m)
    case Ok(f) =>
      var ins := InsertOf(f, parse);
      if |ins.records| == 0 then Nothing else Upsert(ins)
  }

  /** The work insert_candidate_data derives from the fetched frame. `calls`
      answers the CV pass's external calls; `parse` is the timestamp parser. */
  function BatchOf(df: Frame<string>, parse: Value -> Option<int>, calls: nat -> CvCalls): Batch
  {
    if Empty(df) then Nothing else BatchAfter(Passed(df, calls), parse)
  }

  /** Each record is a cleaned row holding insertable columns only. */
  lemma InsertRecordShape(passed: Frame<Col>, parse: Value -> Option<int>, k: int)
    requires 0 <= k < |InsertOf(passed, parse).records|
    ensures Cleaned(InsertOf(passed, parse).records[k])
    ensures forall c :: c in InsertOf(passed, parse).records[k] ==> Inserted(c)
  {
    var selected := SelectInsertColumns(passed);
    SelectInsertColumnsShape(passed);
    CleanRowsShape(parse, selected.rows, k);
  }

  /** An upsert batch is the cleaned records of the frame after the CV pass,
      and there is at least one. */
  lemma BatchUpsert(passed: Result<Frame<Col>>, parse: Value -> Option<int>)
    requires BatchAfter(passed, parse).Upsert?
    ensures passed.Ok?
    ensures BatchAfter(passed, parse) == Upsert(InsertOf(passed.value, parse))
    ensures |InsertOf(passed.value, parse).records| > 0
  {
  }

  /** The records carry no id, and a conflict overwrites no key, id,
      load-time or e-mail column. */
  ghost predicate SafeInsert(ins: Insert)
  {
    && (forall k :: 0 <= k < |ins.records| ==> Id !in ins.records[k])
    && (forall c :: c in ins.cols ==> c !in KeptOnConflict)
  }

  ghost predicate SafeBatch(b: Batch)
  {
    b.Upsert? ==> SafeInsert(b.ins)
  }

  lemma InsertNoIds(passed: Frame<Col>, parse: Value -> Option<int>)
    ensures SafeInsert(InsertOf(passed, parse))
  {
    var ins := InsertOf(passed, parse);
    forall k | 0 <= k < |ins.records| ensures Id !in ins.records[k] {
      InsertRecordShape(passed, parse, k);
    }
  }

  lemma BatchIsSafe(df: Frame<string>, parse: Value -> Option<int>, calls: nat -> CvCalls)
    ensures SafeBatch(BatchOf(df, parse, calls))
  {
    if BatchOf(df, parse, calls).Upsert? {
      InsertNoIds(Passed(df, calls).value, parse);
    }
  }

  /** The first half of insert_candidate_data: rename, add the three
      columns, look up accessToken, and run the CV pass over the rows in
      place. */
  method RunCvPass(df: Frame<string>, calls: nat -> CvCalls) returns (passed: Result<Frame<Col>>)
    ensures passed == Passed(df, calls)
  {
    var tagged := Tagged(RenameFrame(df));
    if AccessToken !in tagged.columns {
      return Err(KeyErrorText(AccessToken));
    }
    var n := |tagged.rows|;
    var cells := new Row[n](i requires 0 <= i < n => tagged.rows[i]);
    assert cells[..] == tagged.rows;
    var escaped := RecordCvStatuses(cells, calls);
    if escaped.Some? {
      return Err(escaped.value);
    }
    return Ok(Frame(tagged.columns, cells[..]));
  }

  /** The table after a batch, and the error it raised. A failed upsert
      rolls the rows back but not the serial. */
  function Imported(rows: seq<Row>, nextId: int, b: Batch, now: int): Run
  {
    match b
    case Nothing => Run(rows, nextId, None)
    case Raise(m) => Run(rows, nextId, Some(m))
    case Upsert(ins) =>
      var run := UpsertAll(rows, nextId, ins.records, now, ins.cols);
      if run.error.None? then run else Run(rows, run.nextId, run.error)
  }

  /** A safe batch keeps the table's constraints, whether its transaction
      commits or rolls back. */
  lemma ImportKeepsTable(rows: seq<Row>, nextId: int, b: Batch, now: int)
    requires TableRows(rows, nextId)
    requires SafeBatch(b)
    ensures var run := Imported(rows, nextId, b, now);
      TableRows(run.rows, run.nextId)
  {
    match b
    case Nothing =>
    case Raise(_) =>
    case Upsert(ins) =>
      var run := UpsertAll(rows, nextId, ins.records, now, ins.cols);
      UpsertAllSerial(rows, nextId, ins.records, now, ins.cols);
      UpsertAllKeepsTable(rows, nextId, ins.records, now, ins.cols);
      if run.error.Some? {
        TableRowsLaterSerial(rows, nextId, run.nextId);
      }
  }

  /** The database half of insert_candidate_data. */
  method ApplyBatch(table: CandidateTable, b: Batch, now: int) returns (error: Option<string>)
    modifies table
    ensures Run(table.rows, table.nextId, error) == Imported(old(table.rows), old(table.nextId), b, now)
    ensures old(table.Valid()) && SafeBatch(b) ==> table.Valid()
  {
    match b
    case Nothing => return None;
    case Raise(m) => return Some(m);
    case Upsert(ins) =>
      var affected;
      error, affected := table.Upsert(ins.records, now, ins.cols);
  }

  /** insert_candidate_data. Returns the message of the exception it
      raises, if any. */
  method InsertCandidateData(table: CandidateTable, df: Frame<string>, parse: Value -> Option<int>,
                             calls: nat -> CvCalls, now: int)
    returns (error: Option<string>)
    modifies table
    ensures Run(table.rows, table.nextId, error)
      == Imported(old(table.rows), old(table.nextId), BatchOf(df, parse, calls), now)
    ensures old(table.Valid()) ==> table.Valid()
  {
    var batch := Nothing;
    if !Empty(df) {
      var passed := RunCvPass(df, calls);
      batch := BatchAfter(passed, parse);
    }
    assert batch == BatchOf(df, parse, calls);
    BatchIsSafe(df, parse, calls);
    error := ApplyBatch(table, batch, now);
  }

  /** The importer's main once the configuration is loaded and the table
      exists: fetch, then import. An empty fetch ends the job with status 0;
      an exception from the import, with status 1. */
  method ImporterMain(table: CandidateTable, login: Option<Login>, replies: seq<Option<Page>>,
                      parse: Value -> Option<int>, calls: nat -> CvCalls, now: int)
    returns (exitCode: int)
    modifies table
    ensures var df := FetchReport(login, replies);
      var run := Imported(old(table.rows), old(table.nextId), BatchOf(df, parse, calls), now);
      && (Empty(df) ==> exitCode == 0 && table.rows == old(table.rows) && table.nextId == old(table.nextId))
      && (!Empty(df) ==>
            table.rows == run.rows && table.nextId == run.nextId && (exitCode == 0 <==> run.error.None?))
      && (exitCode == 0 || exitCode == 1)
    ensures old(table.Valid()) ==> table.Valid()
  {
    var df := FetchDataFromApi(login, replies);
    if Empty(df) {
      return 0;
    }
    var error := InsertCandidateData(table, df, parse, calls, now);
    exitCode := if error.Some? then 1 else 0;
  }
}
