/** The main loop of the CV re-link job: select yesterday's and today's rows
    whose CV has not been stored or whose last attempt failed, fetch each CV
    again, store it in Cloud Storage and record the outcome in the row. */
module Relink {
  import opened Text
  import opened Base
  import opened Seqs
  import opened Columns
  import opened Table
  import opened CvFiles
  import opened RelinkConfig

  /** One day, in microseconds. */
  const DayMicros: int := 86_400_000_000

  /** Midnight (UTC) of the day before `now`. */
  function WindowStart(now: int): int
  {
    ((now - DayMicros) / DayMicros) * DayMicros
  }

  /** 23:59:59.999999 (UTC) of the day of `now`. */
  function WindowEnd(now: int): int
  {
    (now / DayMicros) * DayMicros + DayMicros - 1
  }

  /** The window runs from the first microsecond of yesterday to the last
      microsecond of today, and contains now. */
  lemma WindowBounds(now: int)
    ensures WindowStart(now) % DayMicros == 0
    ensures WindowStart(now) <= now - DayMicros < WindowStart(now) + DayMicros
    ensures (WindowEnd(now) + 1) % DayMicros == 0
    ensures now <= WindowEnd(now) < now + DayMicros
    ensures WindowEnd(now) == WindowStart(now) + 2 * DayMicros - 1
    ensures WindowStart(now) < now <= WindowEnd(now)
  {
    var q := now / DayMicros;
    assert now == q * DayMicros + now % DayMicros;
    assert now - DayMicros == (q - 1) * DayMicros + now % DayMicros;
    assert (now - DayMicros) / DayMicros == q - 1;
  }

  /** `cv_download_status LIKE 'Failed%'` (false on NULL). */
  predicate FailedStatus(v: Value)
  {
    v.Str? && Like(v.s, "Failed")
  }

  /** `created_on BETWEEN :start AND :end`. */
  predicate InWindow(v: Value, start: int, end: int)
  {
    v.Time? && start <= v.micros <= end
  }

  /** The WHERE clause of the selection query. */
  predicate Selected(r: Row, start: int, end: int)
  {
    && Get(r, CvId) != Null
    && (Get(r, CvGcsPath) == Null || FailedStatus(Get(r, CvDownloadStatus)))
    && InWindow(Get(r, CreatedOn), start, end)
  }

  /** The columns the query returns. */
  const QueryColumns: set<Col> := {Id, Email, JobRefNumber, CreatedOn, CvId, FirstName, LastName}

  function Selector(start: int, end: int): Row -> bool
  {
    r => Selected(r, start, end)
  }

  function QueryRow(r: Row): Row
  {
    Project(r, QueryColumns)
  }

  /** The rows the query fetches, in table order. */
  function Snapshot(rows: seq<Row>, start: int, end: int): (snap: seq<Row>)
  {
    Map(QueryRow, Filter(Selector(start, end), rows))
  }

  /** Every fetched row is a selected table row's queried columns. */
  lemma SnapshotOrigin(rows: seq<Row>, start: int, end: int, j: int) returns (i: int)
    requires 0 <= j < |Snapshot(rows, start, end)|
    ensures 0 <= i < |rows| && Selected(rows[i], start, end)
    ensures Snapshot(rows, start, end)[j] == QueryRow(rows[i])
  {
    var kept := Filter(Selector(start, end), rows);
    assert kept[j] in kept;
    i :| 0 <= i < |rows| && rows[i] == kept[j];
  }

  /** Every selected table row is fetched. */
  lemma SnapshotCovers(rows: seq<Row>, start: int, end: int, i: int) returns (j: int)
    requires 0 <= i < |rows| && Selected(rows[i], start, end)
    ensures 0 <= j < |Snapshot(rows, start, end)|
    ensures Snapshot(rows, start, end)[j] == QueryRow(rows[i])
  {
    var kept := Filter(Selector(start, end), rows);
    assert rows[i] in rows;
    assert rows[i] in kept;
    j :| 0 <= j < |kept| && kept[j] == rows[i];
  }

  /** No two rows share an id. */
  ghost predicate DistinctIds(rows: seq<Row>)
  {
    forall i, j :: 0 <= i < j < |rows| ==> Get(rows[i], Id) != Get(rows[j], Id)
  }

  lemma {:induction false} FilterKeepsDistinctIds(p: Row -> bool, rows: seq<Row>)
    requires DistinctIds(rows)
    ensures DistinctIds(Filter(p, rows))
    decreases |rows|
  {
    if rows != [] {
      var tail := rows[1..];
      assert forall i, j :: 0 <= i < j < |tail| ==> tail[i] == rows[i + 1] && tail[j] == rows[j + 1];
      FilterKeepsDistinctIds(p, tail);
      var rest := Filter(p, tail);
      if p(rows[0]) {
        forall j | 0 <= j < |rest| ensures Get(rest[j], Id) != Get(rows[0], Id) {
          assert rest[j] in rest;
          var k :| 0 <= k < |tail| && tail[k] == rest[j];
          assert rows[k + 1] == rest[j];
        }
        var out := [rows[0]] + rest;
        assert Filter(p, rows) == out;
        forall i, j | 0 <= i < j < |out| ensures Get(out[i], Id) != Get(out[j], Id) {
          assert out[j] == rest[j - 1];
          if i > 0 {
            assert out[i] == rest[i - 1];
          }
        }
      } else {
        assert Filter(p, rows) == rest;
      }
    }
  }

  /** Table rows with distinct ids give fetched rows with distinct ids. */
  lemma SnapshotDistinctIds(rows: seq<Row>, start: int, end: int)
    requires DistinctIds(rows)
    ensures DistinctIds(Snapshot(rows, start, end))
  {
    var kept := Filter(Selector(start, end), rows);
    FilterKeepsDistinctIds(Selector(start, end), rows);
    var snap := Snapshot(rows, start, end);
    forall i, j | 0 <= i < j < |snap| ensures Get(snap[i], Id) != Get(snap[j], Id) {
      assert Get(snap[i], Id) == Get(kept[i], Id);
      assert Get(snap[j], Id) == Get(kept[j], Id);
    }
  }

  /** What the external calls answered for the k-th fetched row: the two
      requests of download_cv_from_api, the clock (whole seconds) when the
      file name is built, and whether upload_cv_to_gcs raised. */
  datatype RelinkCalls = RelinkCalls(first: FirstResponse, file: Result<FileResponse>, clock: int, upload: Result<()>)

  /** The branch one fetched row takes through the loop body. */
  datatype RowOutcome = Skipped | Linked(path: string) | NotFound | Aborted(message: string)

  function Outcome(row: Row, calls: RelinkCalls): RowOutcome
  {
    if !Truthy(Get(row, CvId)) then Skipped
    else match DownloadCv(calls.first, calls.file)
      case None => NotFound
      case Some(d) =>
        if calls.upload.Err? then Aborted(calls.upload.error)
        else Linked(GcsPath(CvFileName(row, calls.clock, d.extension)))
  }

  /** A falsy cv_id is skipped; no CV gives "Failed" with no path; a stored CV
      is at gs://{bucket}/candidate-cvs/{file name}, the file name ending in
      the extension of the CV's content type. */
  lemma OutcomeCases(row: Row, calls: RelinkCalls)
    ensures Outcome(row, calls).Skipped? <==> !Truthy(Get(row, CvId))
    ensures Outcome(row, calls).NotFound? <==>
      Truthy(Get(row, CvId)) && DownloadCv(calls.first, calls.file).None?
    ensures Outcome(row, calls).Linked? ==>
      var d := DownloadCv(calls.first, calls.file).value;
      && calls.upload.Ok?
      && Outcome(row, calls).path == GcsPath(CvFileName(row, calls.clock, d.extension))
      && FileNameOf(Outcome(row, calls).path) == CvFileName(row, calls.clock, d.extension)
    ensures Truthy(Get(row, CvId)) && DownloadCv(calls.first, calls.file).Some? ==>
      (Outcome(row, calls).Linked? <==> calls.upload.Ok?)
    ensures Outcome(row, calls).Aborted? <==>
      Truthy(Get(row, CvId)) && DownloadCv(calls.first, calls.file).Some? && calls.upload.Err?
    ensures Outcome(row, calls).Aborted? ==> Outcome(row, calls).message == calls.upload.error
  {
    if Outcome(row, calls).Linked? {
      GcsPathRoundTrip(CvFileName(row, calls.clock, DownloadCv(calls.first, calls.file).value.extension));
    }
  }

  /** The UPDATE a processed row issues. */
  function Apply(rows: seq<Row>, row: Row, o: RowOutcome): seq<Row>
  {
    match o
    case Linked(p) => SetCv(rows, Get(row, Id), Str(p), "Downloaded")
    case NotFound => SetCv(rows, Get(row, Id), Null, "Failed")
    case _ => rows
  }

  /** The table after the loop, and the message of the upload error that
      stopped it, if any. */
  datatype Relinked = Relinked(rows: seq<Row>, error: Option<string>)

  /** The loop from the k-th fetched row on; `calls(k)` answers for row k.
      Each UPDATE is committed on its own, so an abort keeps the earlier
      ones. */
  function RelinkFrom(rows: seq<Row>, snap: seq<Row>, calls: nat -> RelinkCalls, k: nat): Relinked
    decreases |snap| - k
  {
    if k >= |snap| then Relinked(rows, None)
    else match Outcome(snap[k], calls(k))
      case Aborted(m) => Relinked(rows, Some(m))
      case o => RelinkFrom(Apply(rows, snap[k], o), snap, calls, k + 1)
  }

  /** Where the row for the processed id now stands: a stored path and
      "Downloaded", no path and "Failed", or path and status as before. */
  predicate Settled(r: Row, orig: Row, o: RowOutcome)
  {
    match o
    case Linked(p) => Get(r, CvGcsPath) == Str(p) && Get(r, CvDownloadStatus) == Str("Downloaded")
    case NotFound => Get(r, CvGcsPath) == Null && Get(r, CvDownloadStatus) == Str("Failed")
    case _ => Get(r, CvGcsPath) == Get(orig, CvGcsPath) && Get(r, CvDownloadStatus) == Get(orig, CvDownloadStatus)
  }

  /** One UPDATE settles the row with its id and leaves every other row. */
  lemma ApplyEffect(rows: seq<Row>, row: Row, o: RowOutcome, i: int)
    requires 0 <= i < |rows| && !o.Aborted?
    ensures |Apply(rows, row, o)| == |rows|
    ensures Get(row, Id) != Get(rows[i], Id) ==> Apply(rows, row, o)[i] == rows[i]
    ensures Get(row, Id) == Get(rows[i], Id) && Get(row, Id) != Null ==>
      Settled(Apply(rows, row, o)[i], rows[i], o)
    ensures forall c :: c != CvGcsPath && c != CvDownloadStatus ==>
      Get(Apply(rows, row, o)[i], c) == Get(rows[i], c)
  {
    match o
    case Linked(p) =>
      forall c { SetCvChangesOnly(rows, Get(row, Id), Str(p), "Downloaded", i, c); }
    case NotFound =>
      forall c { SetCvChangesOnly(rows, Get(row, Id), Null, "Failed", i, c); }
    case Skipped =>
  }

  /** The loop keeps the table's length, and a row whose id no remaining
      fetched row has. */
  lemma {:induction false} RelinkKeepsRow(rows: seq<Row>, snap: seq<Row>, calls: nat -> RelinkCalls, k: nat, i: int)
    requires 0 <= i < |rows|
    requires forall m :: k <= m < |snap| ==> Get(snap[m], Id) != Get(rows[i], Id)
    ensures |RelinkFrom(rows, snap, calls, k).rows| == |rows|
    ensures RelinkFrom(rows, snap, calls, k).rows[i] == rows[i]
    decreases |snap| - k
  {
    if k < |snap| {
      var o := Outcome(snap[k], calls(k));
      if !o.Aborted? {
        ApplyEffect(rows, snap[k], o, i);
        RelinkKeepsRow(Apply(rows, snap[k], o), snap, calls, k + 1, i);
      }
    }
  }

  /** A completed loop leaves the row of fetched row j settled by j's
      outcome, with every column but the path and status as before. */
  lemma {:induction false} RelinkSettles(rows: seq<Row>, snap: seq<Row>, calls: nat -> RelinkCalls, k: nat, j: int, i: int)
    requires RelinkFrom(rows, snap, calls, k).error.None?
    requires k <= j < |snap| && 0 <= i < |rows|
    requires Get(snap[j], Id) == Get(rows[i], Id) && Get(snap[j], Id) != Null
    requires forall m :: k <= m < |snap| && m != j ==> Get(snap[m], Id) != Get(snap[j], Id)
    ensures var out := RelinkFrom(rows, snap, calls, k).rows;
      && |out| == |rows|
      && Settled(out[i], rows[i], Outcome(snap[j], calls(j)))
      && forall c :: c != CvGcsPath && c != CvDownloadStatus ==> Get(out[i], c) == Get(rows[i], c)
    decreases |snap| - k
  {
    var o := Outcome(snap[k], calls(k));
    assert !o.Aborted?;
    var next := Apply(rows, snap[k], o);
    ApplyEffect(rows, snap[k], o, i);
    if k == j {
      RelinkKeepsRow(next, snap, calls, k + 1, i);
    } else {
      RelinkSettles(next, snap, calls, k + 1, j, i);
    }
  }

  /** A selected row settled by an outcome stays selected exactly when its
      CV was not stored. */
  lemma SettledSelection(r: Row, orig: Row, o: RowOutcome, start: int, end: int)
    requires Selected(orig, start, end) && Settled(r, orig, o)
    requires Get(r, CvId) == Get(orig, CvId) && Get(r, CreatedOn) == Get(orig, CreatedOn)
    ensures Selected(r, start, end) <==> !o.Linked?
  {
    assert "Downloaded"[..6][0] == 'D';
  }

  /** After a run that completed, a row the query did not select is
      unchanged. */
  lemma UnselectedUnchanged(rows: seq<Row>, nextId: int, start: int, end: int, calls: nat -> RelinkCalls, i: int)
    requires TableRows(rows, nextId)
    requires 0 <= i < |rows| && !Selected(rows[i], start, end)
    ensures var out := RelinkFrom(rows, Snapshot(rows, start, end), calls, 0).rows;
      |out| == |rows| && out[i] == rows[i]
  {
    var snap := Snapshot(rows, start, end);
    assert DistinctIds(rows);
    forall m | 0 <= m < |snap| ensures Get(snap[m], Id) != Get(rows[i], Id) {
      var origin := SnapshotOrigin(rows, start, end, m);
      assert origin != i;
    }
    RelinkKeepsRow(rows, snap, calls, 0, i);
  }

  /** After a run that completed, a selected row is settled by the outcome
      of its fetched row, and is still selected exactly when its CV was not
      stored ("Failed", or a falsy cv_id that was skipped): a second run
      retries only those. */
  lemma RetriesOnlyFailures(rows: seq<Row>, nextId: int, start: int, end: int, calls: nat -> RelinkCalls, i: int)
    requires TableRows(rows, nextId)
    requires RelinkFrom(rows, Snapshot(rows, start, end), calls, 0).error.None?
    requires 0 <= i < |rows| && Selected(rows[i], start, end)
    ensures var snap := Snapshot(rows, start, end);
      var out := RelinkFrom(rows, snap, calls, 0).rows;
      exists j :: 0 <= j < |snap| && snap[j] == QueryRow(rows[i])
        && |out| == |rows|
        && Settled(out[i], rows[i], Outcome(snap[j], calls(j)))
        && (Selected(out[i], start, end) <==> !Outcome(snap[j], calls(j)).Linked?)
  {
    var snap := Snapshot(rows, start, end);
    assert DistinctIds(rows);
    SnapshotDistinctIds(rows, start, end);
    var j := SnapshotCovers(rows, start, end, i);
    assert Get(snap[j], Id) == Get(rows[i], Id);
    RelinkSettles(rows, snap, calls, 0, j, i);
    var out := RelinkFrom(rows, snap, calls, 0).rows;
    SettledSelection(out[i], rows[i], Outcome(snap[j], calls(j)), start, end);
  }

  /** One turn of the loop. */
  lemma RelinkStep(rows: seq<Row>, snap: seq<Row>, calls: nat -> RelinkCalls, k: nat)
    requires k < |snap|
    ensures var o := Outcome(snap[k], calls(k));
      RelinkFrom(rows, snap, calls, k) ==
        if o.Aborted? then Relinked(rows, Some(o.message))
        else RelinkFrom(Apply(rows, snap[k], o), snap, calls, k + 1)
  {
  }

  /** The `for row in rows` loop of main over the fetched rows, issuing
      each row's UPDATE on the table. Returns whether an upload raised,
      which ends the loop and the job. */
  method ProcessRows(table: CandidateTable, snap: seq<Row>, calls: nat -> RelinkCalls)
    returns (aborted: bool)
    modifies table
    ensures var run := RelinkFrom(old(table.rows), snap, calls, 0);
      table.rows == run.rows && (aborted <==> run.error.Some?)
    ensures table.nextId == old(table.nextId)
    ensures old(table.Valid()) ==> table.Valid()
  {
    ghost var whole := RelinkFrom(table.rows, snap, calls, 0);
    var k := 0;
    while k < |snap|
      invariant 0 <= k <= |snap|
      invariant RelinkFrom(table.rows, snap, calls, k) == whole
      invariant table.nextId == old(table.nextId)
      invariant old(table.Valid()) ==> table.Valid()
    {
      var row := snap[k];
      ghost var o := Outcome(row, calls(k));
      RelinkStep(table.rows, snap, calls, k);
      if !Truthy(Get(row, CvId)) {
        assert o == Skipped;
        k := k + 1;
        continue;
      }
      var result := DownloadCv(calls(k).first, calls(k).file);
      var status := "Failed";
      var gcsPath := Null;
      if result.Some? {
        var fileName := CvFileName(row, calls(k).clock, result.value.extension);
        if calls(k).upload.Err? {
          assert o == Aborted(calls(k).upload.error);
          return true;
        }
        gcsPath := Str(GcsPath(fileName));
        status := "Downloaded";
        assert o == Linked(gcsPath.s);
      } else {
        assert o == NotFound;
      }
      assert Apply(table.rows, row, o) == SetCv(table.rows, Get(row, Id), gcsPath, status);
      table.UpdateCv(Get(row, Id), gcsPath, status);
      k := k + 1;
    }
    return false;
  }

  /** The job's main: load the configuration, log in, select the rows, then
      fetch, store and record each CV. `token` is the login's access token,
      `now` the current time in microseconds. Returns the exit status. */
  method RelinkCvs(table: CandidateTable, env: map<string, string>, secret: string -> Result<string>,
                   token: Value, now: int, calls: nat -> RelinkCalls)
    returns (exitCode: int)
    modifies table
    ensures var snap := Snapshot(old(table.rows), WindowStart(now), WindowEnd(now));
      var run := RelinkFrom(old(table.rows), snap, calls, 0);
      var started := LoadConfig(env, secret).Ok? && Truthy(token);
      && table.rows == (if started then run.rows else old(table.rows))
      && (exitCode == 0 <==> started && run.error.None?)
      && (exitCode == 0 || exitCode == 1)
    ensures table.nextId == old(table.nextId)
    ensures old(table.Valid()) ==> table.Valid()
  {
    var cfg := LoadConfig(env, secret);
    if cfg.Err? || !Truthy(token) {
      return 1;
    }
    var snap := Snapshot(table.rows, WindowStart(now), WindowEnd(now));
    var aborted := ProcessRows(table, snap, calls);
    exitCode := if aborted then 1 else 0;
  }
}
