/** The columns of the candidates_daily_report table and the importer's
    DataFrame: renaming the API's camelCase keys to column names, the fixed
    lists of columns the importer inserts and, on a key conflict,
    overwrites. */
module Columns {
  import opened Base
  import opened Seqs
  import opened Frames

  /** A column name. The table's columns are listed one by one, as is the
      accessToken column the fetch adds; any other name is Named. */
  datatype Col =
    | CreatedOn | JobRefNumber | StatusId | AppStatus | SupplierName | JobTitle
    | JobLocation | UserId | FirstName | LastName | TelephoneDialingCode | Telephone
    | Email | BuyerName | BuyerId | CvId | Interview | Hire | Rejected | Qualified
    | NoteId | Note | SourceSystem | CvGcsPath | CvDownloadStatus
    | Id | EtlLoadTimestamp | EmailSentTimestamp | EmailStatus | EmailErrorMessage
    | AccessToken
    | Named(name: string)

  /** A DataFrame row or a table row. */
  type Row = map<Col, Value>

  /** The column name pandas and SQL use; it appears in KeyError messages. */
  function Name(c: Col): string
  {
    match c
    case CreatedOn => "created_on"
    case JobRefNumber => "job_ref_number"
    case StatusId => "status_id"
    case AppStatus => "app_status"
    case SupplierName => "supplier_name"
    case JobTitle => "job_title"
    case JobLocation => "job_location"
    case UserId => "user_id"
    case FirstName => "first_name"
    case LastName => "last_name"
    case TelephoneDialingCode => "telephone_international_dialing_code"
    case Telephone => "telephone"
    case Email => "email"
    case BuyerName => "buyer_name"
    case BuyerId => "buyer_id"
    case CvId => "cv_id"
    case Interview => "interview"
    case Hire => "hire"
    case Rejected => "rejected"
    case Qualified => "qualified"
    case NoteId => "note_id"
    case Note => "note"
    case SourceSystem => "source_system"
    case CvGcsPath => "cv_gcs_path"
    case CvDownloadStatus => "cv_download_status"
    case Id => "id"
    case EtlLoadTimestamp => "etl_load_timestamp"
    case EmailSentTimestamp => "email_sent_timestamp"
    case EmailStatus => "email_status"
    case EmailErrorMessage => "email_error_message"
    case AccessToken => "accessToken"
    case Named(n) => n
  }

  /** The column an API key lands in after `df.rename(columns=...)`. The
      rename table lists the camelCase keys and the keys it keeps
      (telephone, email, note and the four flags); every other key keeps its
      name and is only ever dropped by the column selection. */
  function ApiColumn(k: string): Col
  {
    match k
    case "createdOn" => CreatedOn
    case "jobRefNumber" => JobRefNumber
    case "statusId" => StatusId
    case "appStatus" => AppStatus
    case "supplierName" => SupplierName
    case "jobTitle" => JobTitle
    case "jobLocation" => JobLocation
    case "userId" => UserId
    case "firstName" => FirstName
    case "lastName" => LastName
    case "telephoneInternationalDialingCode" => TelephoneDialingCode
    case "telephone" => Telephone
    case "email" => Email
    case "buyerName" => BuyerName
    case "buyerId" => BuyerId
    case "cVid" => CvId
    case "noteId" => NoteId
    case "note" => Note
    case "interview" => Interview
    case "hire" => Hire
    case "rejected" => Rejected
    case "qualified" => Qualified
    case "accessToken" => AccessToken
    case _ => Named(k)
  }

  /** The API key a renamed column came from. */
  function ApiKey(c: Col): string
  {
    match c
    case CreatedOn => "createdOn"
    case JobRefNumber => "jobRefNumber"
    case StatusId => "statusId"
    case AppStatus => "appStatus"
    case SupplierName => "supplierName"
    case JobTitle => "jobTitle"
    case JobLocation => "jobLocation"
    case UserId => "userId"
    case FirstName => "firstName"
    case LastName => "lastName"
    case TelephoneDialingCode => "telephoneInternationalDialingCode"
    case BuyerName => "buyerName"
    case BuyerId => "buyerId"
    case CvId => "cVid"
    case NoteId => "noteId"
    case Named(n) => n
    case _ => Name(c)
  }

  /** Renaming loses nothing: every API key is recovered from its column. */
  lemma ApiKeyRoundTrip(k: string)
    ensures ApiKey(ApiColumn(k)) == k
  {
    // the rename table's keys one by one; any other key is Named
    match k
    case "createdOn" =>
    case "jobRefNumber" =>
    case "statusId" =>
    case "appStatus" =>
    case "supplierName" =>
    case "jobTitle" =>
    case "jobLocation" =>
    case "userId" =>
    case "firstName" =>
    case "lastName" =>
    case "telephoneInternationalDialingCode" =>
    case "telephone" =>
    case "email" =>
    case "buyerName" =>
    case "buyerId" =>
    case "cVid" =>
    case "noteId" =>
    case "note" =>
    case "interview" =>
    case "hire" =>
    case "rejected" =>
    case "qualified" =>
    case "accessToken" =>
    case _ =>
  }

  /** One JSON record after `df.rename(columns=...)`. */
  function RenameRecord(r: Record): (out: Row)
    ensures out.Keys == set k | k in r :: ApiColumn(k)
    ensures forall k :: k in r ==> out[ApiColumn(k)] == r[k]
  {
    var keys := set k | k in r :: ApiColumn(k);
    assert forall c :: c in keys ==> ApiKey(c) in r by {
      forall c | c in keys ensures ApiKey(c) in r {
        var k :| k in r && ApiColumn(k) == c;
        ApiKeyRoundTrip(k);
      }
    }
    assert forall k :: k in r ==> ApiKey(ApiColumn(k)) == k by {
      forall k | k in r ensures ApiKey(ApiColumn(k)) == k {
        ApiKeyRoundTrip(k);
      }
    }
    map c | c in keys :: r[ApiKey(c)]
  }

  /** The DataFrame after the rename. */
  function RenameFrame(df: Frame<string>): Frame<Col>
  {
    Frame(set k | k in df.columns :: ApiColumn(k), Map(RenameRecord, df.rows))
  }

  /** The rename keeps the rows and their order, moves every cell to its
      renamed column, and keeps a well-formed frame well-formed. */
  lemma RenameFrameCells(df: Frame<string>)
    ensures var out := RenameFrame(df);
      && (WellFormed(df) ==> WellFormed(out))
      && out.columns == (set k | k in df.columns :: ApiColumn(k))
      && |out.rows| == |df.rows|
      && forall i, k :: 0 <= i < |df.rows| ==> Get(out.rows[i], ApiColumn(k)) == Get(df.rows[i], k)
  {
    var out := RenameFrame(df);
    forall i, k | 0 <= i < |df.rows| ensures Get(out.rows[i], ApiColumn(k)) == Get(df.rows[i], k) {
      if k !in df.rows[i] && ApiColumn(k) in out.rows[i] {
        var k' :| k' in df.rows[i] && ApiColumn(k') == ApiColumn(k);
        ApiKeyRoundTrip(k);
        ApiKeyRoundTrip(k');
      }
    }
  }

  /** db_insert_columns, in the order the importer lists them. */
  const InsertColumns: seq<Col> := [
    CreatedOn, JobRefNumber, StatusId, AppStatus, SupplierName,
    JobTitle, JobLocation, UserId, FirstName, LastName,
    TelephoneDialingCode, Telephone, Email, BuyerName,
    BuyerId, CvId, Interview, Hire, Rejected, Qualified, NoteId, Note,
    SourceSystem, CvGcsPath, CvDownloadStatus
  ]

  /** The columns db_insert_columns lists: all but the id, the load
      timestamp, the e-mail bookkeeping columns, accessToken and any other
      name. */
  predicate Inserted(c: Col)
  {
    !(c.Id? || c.EtlLoadTimestamp? || c.EmailSentTimestamp? || c.EmailStatus?
      || c.EmailErrorMessage? || c.AccessToken? || c.Named?)
  }

  lemma InsertColumnsOnlyInserted(c: Col)
    ensures c in InsertColumns ==> Inserted(c)
  {
    // the columns that are not Inserted, one by one
    match c
    case Id =>
    case EtlLoadTimestamp =>
    case EmailSentTimestamp =>
    case EmailStatus =>
    case EmailErrorMessage =>
    case AccessToken =>
    case Named(_) =>
    case _ =>
  }

  lemma InsertedListed(c: Col)
    ensures Inserted(c) ==> c in InsertColumns
  {
  }

  /** db_insert_columns lists exactly the Inserted columns. */
  lemma InsertColumnsListed(c: Col)
    ensures c in InsertColumns <==> Inserted(c)
  {
    InsertColumnsOnlyInserted(c);
    InsertedListed(c);
  }

  /** update_cols: what an upsert overwrites when the key already exists. */
  const UpdateColumns: seq<Col> := [
    StatusId, AppStatus, SupplierName, JobTitle, JobLocation,
    UserId, FirstName, LastName, TelephoneDialingCode,
    Telephone, BuyerName, BuyerId, CvId, Interview, Hire,
    Rejected, Qualified, NoteId, Note, SourceSystem,
    CvGcsPath, CvDownloadStatus
  ]

  /** Columns an upsert conflict never overwrites: the serial id, the three
      key columns, the load timestamp and the e-mail bookkeeping columns. */
  const KeptOnConflict: set<Col> := {
    Id, Email, JobRefNumber, CreatedOn, EtlLoadTimestamp,
    EmailSentTimestamp, EmailStatus, EmailErrorMessage
  }

  /** The columns update_cols lists: the inserted columns other than the
      three key columns. */
  predicate Updated(c: Col)
  {
    Inserted(c) && !(c.CreatedOn? || c.JobRefNumber? || c.Email?)
  }

  lemma UpdateColumnsOnlyUpdated(c: Col)
    ensures c in UpdateColumns ==> Updated(c)
  {
    // the columns that are not Updated, one by one
    match c
    case CreatedOn =>
    case JobRefNumber =>
    case Email =>
    case Id =>
    case EtlLoadTimestamp =>
    case EmailSentTimestamp =>
    case EmailStatus =>
    case EmailErrorMessage =>
    case AccessToken =>
    case Named(_) =>
    case _ =>
  }

  lemma UpdatedListed(c: Col)
    ensures Updated(c) ==> c in UpdateColumns
  {
  }

  /** update_cols lists exactly the Updated columns. */
  lemma UpdateColumnsListed(c: Col)
    ensures c in UpdateColumns <==> Updated(c)
  {
    UpdateColumnsOnlyUpdated(c);
    UpdatedListed(c);
  }

  /** An update column is never the id, a key column, the load time or an
      e-mail bookkeeping column. */
  lemma UpdatedNotKept(c: Col)
    ensures Updated(c) ==> c !in KeptOnConflict
  {
  }

  lemma UpdateColumnsDisjoint()
    ensures forall c :: c in UpdateColumns ==> c !in KeptOnConflict
  {
    forall c | c in UpdateColumns ensures c !in KeptOnConflict {
      UpdateColumnsOnlyUpdated(c);
      UpdatedNotKept(c);
    }
  }

  /** `[col for col in wanted if col in present]`. */
  function Present(wanted: seq<Col>, present: set<Col>): seq<Col>
    decreases |wanted|
  {
    if wanted == [] then []
    else (if wanted[0] in present then [wanted[0]] else []) + Present(wanted[1..], present)
  }

  /** A column is kept when it is wanted and the frame has it. */
  lemma {:induction false} PresentMember(wanted: seq<Col>, present: set<Col>, c: Col)
    ensures c in Present(wanted, present) <==> c in wanted && c in present
    decreases |wanted|
  {
    if wanted != [] {
      PresentMember(wanted[1..], present, c);
      assert c in wanted <==> c == wanted[0] || c in wanted[1..];
    }
  }

  /** They stay in the wanted order. */
  lemma {:induction false} PresentInOrder(wanted: seq<Col>, present: set<Col>)
    ensures IsSubsequence(Present(wanted, present), wanted)
    decreases |wanted|
  {
    if wanted != [] {
      PresentInOrder(wanted[1..], present);
      var rest := Present(wanted[1..], present);
      if wanted[0] in present {
        assert Present(wanted, present) == [wanted[0]] + rest;
        assert ([wanted[0]] + rest)[1..] == rest;
      } else {
        assert Present(wanted, present) == rest;
      }
    }
  }

  /** update_cols_in_df: exactly the update columns the frame has, never a
      key, id, load-time or e-mail column. */
  function UpdateColsIn(present: set<Col>): (cols: seq<Col>)
    ensures forall c :: c in cols <==> Updated(c) && c in present
    ensures forall c :: c in cols ==> c !in KeptOnConflict
  {
    forall c ensures c in Present(UpdateColumns, present) <==> Updated(c) && c in present {
      PresentMember(UpdateColumns, present, c);
      UpdateColumnsListed(c);
    }
    forall c ensures Updated(c) ==> c !in KeptOnConflict {
      UpdatedNotKept(c);
    }
    Present(UpdateColumns, present)
  }

  /** A row restricted to the given columns. */
  function Project(r: Row, cols: set<Col>): (out: Row)
    ensures out.Keys == r.Keys * cols
    ensures forall c :: c in cols ==> Get(out, c) == Get(r, c)
  {
    map c | c in r && c in cols :: r[c]
  }

  /** The selected columns, as a set. */
  function InsertedPresent(present: set<Col>): (keep: set<Col>)
  {
    set c | c in present && Inserted(c)
  }

  /** They are the listed columns the frame has. */
  lemma InsertedPresentListed(present: set<Col>)
    ensures InsertedPresent(present) == set c | c in Present(InsertColumns, present)
  {
    forall c ensures c in InsertedPresent(present) <==> c in Present(InsertColumns, present) {
      PresentMember(InsertColumns, present, c);
      InsertColumnsListed(c);
    }
  }

  /** Every row restricted to the given columns. */
  function ProjectAll(rows: seq<Row>, keep: set<Col>): (out: seq<Row>)
    ensures |out| == |rows|
    ensures forall i :: 0 <= i < |rows| ==> out[i] == Project(rows[i], keep)
  {
    seq(|rows|, i requires 0 <= i < |rows| => Project(rows[i], keep))
  }

  /** The frame with its rows restricted to the kept columns. */
  function Restrict(df: Frame<Col>, keep: set<Col>): Frame<Col>
  {
    Frame(keep, ProjectAll(df.rows, keep))
  }

  lemma RestrictRows(df: Frame<Col>, keep: set<Col>)
    requires keep == InsertedPresent(df.columns)
    ensures forall i, c :: 0 <= i < |df.rows| && !Inserted(c) ==> c !in Restrict(df, keep).rows[i]
  {
  }

  lemma RestrictWellFormed(df: Frame<Col>, keep: set<Col>)
    requires WellFormed(df) && keep <= df.columns
    ensures WellFormed(Restrict(df, keep))
  {
    var out := Restrict(df, keep);
    forall r | r in out.rows ensures r.Keys == keep {
      var i :| 0 <= i < |out.rows| && out.rows[i] == r;
      assert df.rows[i] in df.rows;
    }
  }

  lemma RestrictCell(df: Frame<Col>, keep: set<Col>, i: int, c: Col)
    requires WellFormed(df) && 0 <= i < |df.rows|
    requires c in keep || c !in df.columns
    ensures Get(Restrict(df, keep).rows[i], c) == Get(df.rows[i], c)
  {
    assert df.rows[i] in df.rows;
  }

  /** `df[[col for col in db_insert_columns if col in df.columns]]`. */
  function SelectInsertColumns(df: Frame<Col>): Frame<Col>
  {
    Restrict(df, InsertedPresent(df.columns))
  }

  /** The selection keeps well-formedness and the rows; its columns are the
      listed columns the frame has, each cell unchanged, and nothing else. */
  lemma SelectInsertColumnsShape(df: Frame<Col>)
    ensures var out := SelectInsertColumns(df);
      && (WellFormed(df) ==> WellFormed(out))
      && (forall c :: c in out.columns <==> c in df.columns && Inserted(c))
      && |out.rows| == |df.rows|
      && (WellFormed(df) ==>
            forall i, c :: 0 <= i < |df.rows| && Inserted(c) ==> Get(out.rows[i], c) == Get(df.rows[i], c))
      && (forall i, c :: 0 <= i < |df.rows| && !Inserted(c) ==> c !in out.rows[i])
  {
    var keep := InsertedPresent(df.columns);
    RestrictRows(df, keep);
    if WellFormed(df) {
      RestrictWellFormed(df, keep);
      forall i, c | 0 <= i < |df.rows| && Inserted(c)
        ensures Get(Restrict(df, keep).rows[i], c) == Get(df.rows[i], c)
      {
        RestrictCell(df, keep, i, c);
      }
    }
  }
}
