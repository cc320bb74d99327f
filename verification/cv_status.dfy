/** The CV download pass of the daily importer (insert_candidate_data): for
    every row, look up the CV's file names, download it, upload it to Cloud
    Storage, and record the outcome in cv_download_status and cv_gcs_path. */
module CvStatus {
  import opened Text
  import opened Base
  import opened Columns

  /** CV_BUCKET_NAME, upload_to_gcs's default bucket. */
  const CvBucket := "intelligent-recruitment-cvs"

  function CvPathPrefix(bucket: string): string
  {
    "gs://" + bucket + "/cvs/"
  }

  /** The path upload_to_gcs returns after storing `fileName` under cvs/. */
  function GcsCvPath(bucket: string, fileName: string): (path: string)
    ensures StartsWith(path, CvPathPrefix(bucket))
    ensures |path| == |CvPathPrefix(bucket)| + |fileName|
  {
    CvPathPrefix(bucket) + fileName
  }

  /** The object name a CV path ends with. */
  function CvFileNameOf(bucket: string, path: string): string
    requires StartsWith(path, CvPathPrefix(bucket))
  {
    path[|CvPathPrefix(bucket)|..]
  }

  /** The file name can be read back from the path, so distinct CV files get
      distinct paths. */
  lemma GcsCvPathRoundTrip(bucket: string, fileName: string)
    ensures CvFileNameOf(bucket, GcsCvPath(bucket, fileName)) == fileName
  {
    var path := GcsCvPath(bucket, fileName);
    assert path[|CvPathPrefix(bucket)|..] == fileName;
  }

  /** What the external calls answered for one row: get_cv_filename gave
      (fileName, cvFileName) or raised with a message; download_cv returned
      or raised; upload_to_gcs stored the file or (catching its own error)
      returned None. */
  datatype CvCalls = CvCalls(lookup: Result<(Value, Value)>, download: Result<()>, uploaded: bool)

  /** The branch one row takes through the loop body. */
  datatype CvOutcome =
    | MissingIds
    | NoFileName
    | Uploaded(path: string)
    | UploadFailed
    | Raised(message: string)
    | Escaped(message: string)

  /** str() of the KeyError raised by reading a missing column. */
  function KeyErrorText(c: Col): string
  {
    "'" + Name(c) + "'"
  }

  /** Row r has both ids and a buyer_id column, so get_cv_filename is called. */
  predicate ReachesLookup(r: Row)
  {
    CvId in r && r[CvId] != Null && UserId in r && r[UserId] != Null && BuyerId in r
  }

  /** get_cv_filename answered with two truthy names. */
  predicate NamesFound(calls: CvCalls)
  {
    calls.lookup.Ok? && Truthy(calls.lookup.value.0) && Truthy(calls.lookup.value.1)
  }

  /** The branch taken for row r. A row without a cv_id column raises
      KeyError, and the except clause's log line reads row['cv_id'] again, so
      that second KeyError escapes the loop (Escaped). */
  function Decide(r: Row, calls: CvCalls): (o: CvOutcome)
    ensures o.Escaped? <==> CvId !in r
    ensures o.MissingIds? <==>
      CvId in r && (r[CvId] == Null || (UserId in r && r[UserId] == Null))
    ensures o.NoFileName? <==> ReachesLookup(r) && calls.lookup.Ok? && !NamesFound(calls)
    ensures o.Uploaded? || o.UploadFailed? <==>
      ReachesLookup(r) && NamesFound(calls) && calls.download.Ok?
    ensures o.Raised? <==>
      && CvId in r && r[CvId] != Null
      && (UserId !in r || (r[UserId] != Null &&
           (BuyerId !in r || calls.lookup.Err? || (NamesFound(calls) && calls.download.Err?))))
    ensures o.Uploaded? <==> (o.Uploaded? || o.UploadFailed?) && calls.uploaded
    ensures o.Uploaded? ==> o.path == GcsCvPath(CvBucket, Show(calls.lookup.value.1))
  {
    if CvId !in r then Escaped(KeyErrorText(CvId))
    else if r[CvId] == Null then MissingIds
    else if UserId !in r then Raised(KeyErrorText(UserId))
    else if r[UserId] == Null then MissingIds
    else if BuyerId !in r then Raised(KeyErrorText(BuyerId))
    else match calls.lookup
      case Err(m) => Raised(m)
      case Ok(names) =>
        if !(Truthy(names.0) && Truthy(names.1)) then NoFileName
        else match calls.download
          case Err(m) => Raised(m)
          case Ok(_) =>
            if calls.uploaded then Uploaded(GcsCvPath(CvBucket, Show(names.1))) else UploadFailed
  }

  /** The message of a raised outcome is that of the exception raised: the
      KeyError of the missing user_id or buyer_id column, or the lookup's or
      the download's error. */
  lemma DecideRaisedMessage(r: Row, calls: CvCalls)
    requires CvId in r && r[CvId] != Null
    ensures UserId !in r ==> Decide(r, calls) == Raised("'user_id'")
    ensures UserId in r && r[UserId] != Null && BuyerId !in r ==>
      Decide(r, calls) == Raised("'buyer_id'")
    ensures ReachesLookup(r) && calls.lookup.Err? ==> Decide(r, calls) == Raised(calls.lookup.error)
    ensures ReachesLookup(r) && NamesFound(calls) && calls.download.Err? ==>
      Decide(r, calls) == Raised(calls.download.error)
  {
    assert KeyErrorText(UserId) == "'user_id'";
    assert KeyErrorText(BuyerId) == "'buyer_id'";
  }

  /** The cv_download_status text of an outcome: "Success" exactly for an
      upload that returned a path, and "Failed…" for every other branch. */
  function StatusText(o: CvOutcome): (s: string)
    requires !o.Escaped?
    ensures s == "Success" <==> o.Uploaded?
    ensures !o.Uploaded? ==> Like(s, "Failed")
  {
    match o
    case MissingIds => "Failed - Missing CV ID or User ID"
    case NoFileName => "Failed - No file name"
    case Uploaded(_) => "Success"
    case UploadFailed => "Failed"
    case Raised(m) => "Failed - " + m
  }

  /** The row after the loop body wrote its outcome (the `df.at[...]` writes). */
  function Record(r: Row, o: CvOutcome): Row
    requires !o.Escaped?
  {
    var withStatus := r[CvDownloadStatus := Str(StatusText(o))];
    match o
    case Uploaded(path) => withStatus[CvGcsPath := Str(path)]
    case UploadFailed => withStatus[CvGcsPath := Null]
    case _ => withStatus
  }

  /** The loop body writes the status on every branch, the path only on the
      upload branch (None when upload_to_gcs failed), and no other column. */
  lemma RecordWrites(r: Row, o: CvOutcome)
    requires !o.Escaped?
    ensures var out := Record(r, o);
      && out.Keys == r.Keys + {CvDownloadStatus} + (if o.Uploaded? || o.UploadFailed? then {CvGcsPath} else {})
      && Get(out, CvDownloadStatus) == Str(StatusText(o))
      && (o.Uploaded? ==> Get(out, CvGcsPath) == Str(o.path))
      && (o.UploadFailed? ==> Get(out, CvGcsPath) == Null)
      && (!(o.Uploaded? || o.UploadFailed?) ==> Get(out, CvGcsPath) == Get(r, CvGcsPath))
      && (forall c :: c != CvDownloadStatus && c != CvGcsPath ==> Get(out, c) == Get(r, c))
  {
  }

  /** One row through the loop body. */
  function Step(r: Row, calls: CvCalls): Row
    requires CvId in r
  {
    Record(r, Decide(r, calls))
  }

  /** The status text the loop body leaves on a row, for each path through
      its conditions. */
  lemma StepStatus(r: Row, calls: CvCalls)
    requires CvId in r
    ensures var status := Get(Step(r, calls), CvDownloadStatus);
      && (r[CvId] == Null || (UserId in r && r[UserId] == Null) ==>
            status == Str("Failed - Missing CV ID or User ID"))
      && (r[CvId] != Null && UserId !in r ==> status == Str("Failed - 'user_id'"))
      && (r[CvId] != Null && UserId in r && r[UserId] != Null && BuyerId !in r ==>
            status == Str("Failed - 'buyer_id'"))
      && (ReachesLookup(r) && calls.lookup.Err? ==> status == Str("Failed - " + calls.lookup.error))
      && (ReachesLookup(r) && calls.lookup.Ok? && !NamesFound(calls) ==>
            status == Str("Failed - No file name"))
      && (ReachesLookup(r) && NamesFound(calls) && calls.download.Err? ==>
            status == Str("Failed - " + calls.download.error))
      && (ReachesLookup(r) && NamesFound(calls) && calls.download.Ok? ==>
            status == Str(if calls.uploaded then "Success" else "Failed"))
  {
    var o := Decide(r, calls);
    assert Get(Step(r, calls), CvDownloadStatus) == Str(StatusText(o)) by {
      RecordWrites(r, o);
    }
    if r[CvId] != Null {
      DecideRaisedMessage(r, calls);
    }
  }

  /** The whole pass over the rows in order: the recorded rows, or the
      message of the KeyError that escaped. */
  function CvPass(rows: seq<Row>, calls: nat -> CvCalls): (res: Result<seq<Row>>)
    ensures res.Ok? ==> |res.value| == |rows|
    decreases |rows|
  {
    if rows == [] then Ok([])
    else
      var n := |rows| - 1;
      match CvPass(rows[..n], calls)
      case Err(m) => Err(m)
      case Ok(done) =>
        if CvId !in rows[n] then Err(KeyErrorText(CvId))
        else Ok(done + [Step(rows[n], calls(n))])
  }

  /** The pass escapes only on a row without a cv_id column; otherwise it
      yields one row per input row, each gone through the loop body with the
      answers for its own position. */
  lemma {:induction false} CvPassShape(rows: seq<Row>, calls: nat -> CvCalls)
    ensures CvPass(rows, calls).Err? ==> exists i :: 0 <= i < |rows| && CvId !in rows[i]
    ensures CvPass(rows, calls).Ok? ==>
      forall i :: 0 <= i < |rows| ==>
        CvId in rows[i] && CvPass(rows, calls).value[i] == Step(rows[i], calls(i))
    decreases |rows|
  {
    if rows != [] {
      var n := |rows| - 1;
      CvPassShape(rows[..n], calls);
      assert forall i :: 0 <= i < n ==> rows[..n][i] == rows[i];
      match CvPass(rows[..n], calls)
      case Err(m) =>
      case Ok(done) =>
        if CvId in rows[n] {
          var out := done + [Step(rows[n], calls(n))];
          assert CvPass(rows, calls) == Ok(out);
          assert forall i :: 0 <= i < n ==> out[i] == done[i];
        }
    }
  }

  /** Every row that went through the pass carries exactly one status, it is
      "Success" exactly when the CV was stored, and a stored CV's path is
      gs://{bucket}/cvs/{cvFileName}. */
  lemma CvPassStatuses(rows: seq<Row>, calls: nat -> CvCalls, i: nat)
    requires CvPass(rows, calls).Ok? && i < |rows|
    requires forall r :: r in rows ==> Get(r, CvGcsPath) == Null
    ensures var out := CvPass(rows, calls).value[i];
      && Get(out, CvDownloadStatus).Str?
      && (Get(out, CvDownloadStatus) == Str("Success") <==> Get(out, CvGcsPath) != Null)
      && (Get(out, CvDownloadStatus) != Str("Success") ==> Like(Get(out, CvDownloadStatus).s, "Failed"))
      && (Get(out, CvGcsPath) != Null ==>
            calls(i).lookup.Ok? &&
            Get(out, CvGcsPath) == Str(GcsCvPath(CvBucket, Show(calls(i).lookup.value.1))))
  {
    CvPassShape(rows, calls);
    assert rows[i] in rows;
    RecordWrites(rows[i], Decide(rows[i], calls(i)));
  }

  /** The loop of insert_candidate_data over the DataFrame's rows, writing
      each row's outcome in place. `calls(i)` is what the external calls
      answered for row i. Returns the message of an escaping KeyError. */
  method RecordCvStatuses(rows: array<Row>, calls: nat -> CvCalls) returns (escaped: Option<string>)
    modifies rows
    ensures CvPass(old(rows[..]), calls) == (if escaped.None? then Ok(rows[..]) else Err(escaped.value))
  {
    var i := 0;
    while i < rows.Length
      invariant 0 <= i <= rows.Length
      invariant CvPass(old(rows[..])[..i], calls) == Ok(rows[..i])
      invariant rows[i..] == old(rows[..])[i..]
    {
      var row := rows[i];
      assert row == old(rows[..])[i];
      assert old(rows[..])[..i + 1][..i] == old(rows[..])[..i];
      var o := Decide(row, calls(i));
      if o.Escaped? {
        assert CvPass(old(rows[..])[..i + 1], calls) == Err(o.message);
        CvPassEscapes(old(rows[..]), calls, i + 1);
        return Some(o.message);
      }
      rows[i] := Record(row, o);
      assert rows[..i + 1] == rows[..i] + [rows[i]];
      i := i + 1;
    }
    assert old(rows[..])[..rows.Length] == old(rows[..]);
    assert rows[..rows.Length] == rows[..];
    return None;
  }

  /** Once the pass has escaped on a prefix, it escapes with the same message
      on the whole sequence. */
  lemma {:induction false} CvPassEscapes(rows: seq<Row>, calls: nat -> CvCalls, k: nat)
    requires k <= |rows| && CvPass(rows[..k], calls).Err?
    ensures CvPass(rows, calls) == CvPass(rows[..k], calls)
    decreases |rows| - k
  {
    if k < |rows| {
      assert rows[..k + 1][..k] == rows[..k];
      CvPassEscapes(rows, calls, k + 1);
    } else {
      assert rows[..k] == rows;
    }
  }
}
