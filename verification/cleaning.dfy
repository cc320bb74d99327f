/** The cleaning steps of insert_candidate_data between the column selection
    and the upsert: empty strings become NULL, e-mail and job reference are
    trimmed and lower-cased, missing flags become false, created_on is parsed
    and truncated to whole seconds, and rows without a usable created_on,
    job reference or e-mail are dropped. */
module Cleaning {
  import opened Text
  import opened Base
  import opened Seqs
  import opened Columns

  /** `.replace({'': pd.NA})`: an empty string reads as missing. */
  function EmptyToNull(r: Row): (out: Row)
    ensures out.Keys == r.Keys
    ensures forall c :: c in out ==> out[c] != Str("")
    ensures forall c :: c in r && r[c] != Str("") ==> out[c] == r[c]
  {
    map c | c in r :: if r[c] == Str("") then Null else r[c]
  }

  /** `.astype(str).str.strip().str.lower()` on one cell; a missing cell
      stays missing. */
  function NormalizeCell(v: Value): (w: Value)
    ensures w == Null <==> v == Null
    ensures v.Str? ==> w == Str(Normalize(v.s))
  {
    if v == Null then Null else Str(Normalize(Show(v)))
  }

  /** A normalised cell is text without surrounding whitespace or upper-case
      letters, and normalising it again changes nothing. */
  lemma NormalizeCellNormalized(v: Value)
    ensures var w := NormalizeCell(v);
      && (w != Null ==> w.Str? && Normalized(w.s))
      && NormalizeCell(w) == w
  {
    if v != Null {
      NormalizeIdempotent(Show(v));
    }
  }

  /** The cell of column c normalised, when the frame has that column. */
  function NormalizeColumn(r: Row, c: Col): (out: Row)
    ensures out.Keys == r.Keys
    ensures c in r ==> out[c] == NormalizeCell(r[c])
    ensures forall d :: d in r && d != c ==> out[d] == r[d]
  {
    if c in r then r[c := NormalizeCell(r[c])] else r
  }

  /** Lines 378-383: e-mail, then job reference. */
  function NormalizeKeys(r: Row): Row
  {
    NormalizeColumn(NormalizeColumn(r, Email), JobRefNumber)
  }

  /** interview, hire, rejected and qualified. */
  predicate IsFlag(c: Col)
  {
    c == Interview || c == Hire || c == Rejected || c == Qualified
  }

  /** `.fillna(False)` on the four flag columns the frame has. */
  function FillFlags(r: Row): (out: Row)
    ensures out.Keys == r.Keys
    ensures forall c :: c in r && IsFlag(c) ==> out[c] != Null
    ensures forall c :: c in r && IsFlag(c) && r[c] == Null ==> out[c] == Bool(false)
    ensures forall c :: c in r && IsFlag(c) && r[c] != Null ==> out[c] == r[c]
    ensures forall c :: c in r && !IsFlag(c) ==> out[c] == r[c]
  {
    map c | c in r :: if IsFlag(c) && r[c] == Null then Bool(false) else r[c]
  }

  /** The per-cell steps, in the order the importer applies them. */
  function Prepare(r: Row): Row
  {
    FillFlags(NormalizeKeys(EmptyToNull(r)))
  }

  /** `pd.to_datetime(..., errors='coerce', utc=True)` on one cell: `parse`
      gives the instant of a value in microseconds since the epoch, or None
      when the value does not parse; a missing value parses to nothing. */
  function ParseTime(parse: Value -> Option<int>, v: Value): Option<int>
  {
    if v == Null then None else parse(v)
  }

  /** The created_on cell converted to a timestamp (NULL when unparsable). */
  function ToDatetime(parse: Value -> Option<int>, r: Row): (out: Row)
    ensures out.Keys == r.Keys
    ensures CreatedOn in r ==>
      (out[CreatedOn] == Null <==> ParseTime(parse, r[CreatedOn]).None?)
    ensures CreatedOn in r && out[CreatedOn] != Null ==>
      out[CreatedOn] == Time(ParseTime(parse, r[CreatedOn]).value)
    ensures forall c :: c in r && c != CreatedOn ==> out[c] == r[c]
  {
    if CreatedOn !in r then r
    else match ParseTime(parse, r[CreatedOn])
      case None => r[CreatedOn := Null]
      case Some(t) => r[CreatedOn := Time(t)]
  }

  const MicrosPerSecond: int := 1_000_000

  /** `.dt.floor('S')`: the latest whole second not after t. */
  function FloorToSecond(t: int): (s: int)
    ensures s % MicrosPerSecond == 0
    ensures s <= t < s + MicrosPerSecond
  {
    t - t % MicrosPerSecond
  }

  /** Flooring twice is flooring once. */
  lemma FloorToSecondIdempotent(t: int)
    ensures FloorToSecond(FloorToSecond(t)) == FloorToSecond(t)
  {
    var s := FloorToSecond(t);
    assert s % MicrosPerSecond == 0;
  }

  /** The created_on timestamp truncated to whole seconds. */
  function FloorCreated(r: Row): (out: Row)
    ensures out.Keys == r.Keys
    ensures CreatedOn in r && r[CreatedOn].Time? ==>
      out[CreatedOn] == Time(FloorToSecond(r[CreatedOn].micros))
    ensures forall c :: c in r && (c != CreatedOn || !r[CreatedOn].Time?) ==> out[c] == r[c]
  {
    if CreatedOn in r && r[CreatedOn].Time? then r[CreatedOn := Time(FloorToSecond(r[CreatedOn].micros))]
    else r
  }

  /** `dropna(subset=[c])` keeps a row whose c is not missing; a frame
      without column c keeps every row. */
  predicate Has(c: Col, r: Row)
  {
    c !in r || r[c] != Null
  }

  predicate HasCreatedOn(r: Row) { Has(CreatedOn, r) }
  predicate HasJobRef(r: Row) { Has(JobRefNumber, r) }
  predicate HasEmail(r: Row) { Has(Email, r) }

  /** The created_on conversion with this parser, as a row function. */
  function Converter(parse: Value -> Option<int>): Row -> Row
  {
    r => ToDatetime(parse, r)
  }

  /** Lines 374-411 as the importer runs them, column by column over the
      whole frame. */
  function CleanRows(parse: Value -> Option<int>, rows: seq<Row>): seq<Row>
  {
    var prepared := Map(Prepare, rows);
    var parsed := Filter(HasCreatedOn, Map(Converter(parse), prepared));
    var floored := Map(FloorCreated, parsed);
    Filter(HasEmail, Filter(HasJobRef, floored))
  }

  /** One row prepared and its created_on converted. */
  function Converted(parse: Value -> Option<int>, r: Row): Row
  {
    ToDatetime(parse, Prepare(r))
  }

  predicate CreatedSurvives(parse: Value -> Option<int>, r: Row)
  {
    HasCreatedOn(Converted(parse, r))
  }

  predicate JobRefSurvives(parse: Value -> Option<int>, r: Row)
  {
    HasJobRef(Finish(parse, r))
  }

  predicate EmailSurvives(parse: Value -> Option<int>, r: Row)
  {
    HasEmail(Finish(parse, r))
  }

  predicate KeysSurvive(parse: Value -> Option<int>, r: Row)
  {
    JobRefSurvives(parse, r) && EmailSurvives(parse, r)
  }

  /** What cleaning turns one row into. */
  function Finish(parse: Value -> Option<int>, r: Row): Row
  {
    FloorCreated(Converted(parse, r))
  }

  /** Whether one row survives cleaning. */
  predicate Keeps(parse: Value -> Option<int>, r: Row)
  {
    CreatedSurvives(parse, r) && KeysSurvive(parse, r)
  }

  function Finisher(parse: Value -> Option<int>): Row -> Row
  {
    r => Finish(parse, r)
  }

  function Keeper(parse: Value -> Option<int>): Row -> bool
  {
    r => Keeps(parse, r)
  }

  /** The conversion and flooring leave the job reference and e-mail alone. */
  lemma FinishKeepsKeys(parse: Value -> Option<int>, r: Row)
    ensures HasJobRef(Finish(parse, r)) == HasJobRef(Prepare(r))
    ensures HasEmail(Finish(parse, r)) == HasEmail(Prepare(r))
    ensures Get(Finish(parse, r), JobRefNumber) == Get(Prepare(r), JobRefNumber)
    ensures Get(Finish(parse, r), Email) == Get(Prepare(r), Email)
  {
  }

  /** Preparing, converting and dropping on the result is dropping on the
      prepared and converted row. */
  lemma FirstDrop(prepare: Row -> Row, convert: Row -> Row, p1: Row -> bool,
                  pc: Row -> Row, k1: Row -> bool, xs: seq<Row>)
    requires forall x :: pc(x) == convert(prepare(x))
    requires forall x :: k1(x) == p1(pc(x))
    ensures Filter(p1, Map(convert, Map(prepare, xs))) == Map(pc, Filter(k1, xs))
  {
    MapOfMap(prepare, convert, pc, xs);
    FilterOfMap(p1, pc, k1, xs);
  }

  /** Finishing, then two drops on the finished rows, is one combined drop
      on the rows before finishing. */
  lemma LastDrops(pc: Row -> Row, finish: Row -> Row, whole: Row -> Row,
                  p2: Row -> bool, p3: Row -> bool, k2: Row -> bool, k3: Row -> bool,
                  k23: Row -> bool, s1: seq<Row>)
    requires forall x :: whole(x) == finish(pc(x))
    requires forall x :: k2(x) == p2(whole(x))
    requires forall x :: k3(x) == p3(whole(x))
    requires forall x :: k23(x) == (k2(x) && k3(x))
    ensures Filter(p3, Filter(p2, Map(finish, Map(pc, s1)))) == Map(whole, Filter(k23, s1))
  {
    MapOfMap(pc, finish, whole, s1);
    FilterOfMap(p2, whole, k2, s1);
    var s2 := Filter(k2, s1);
    FilterOfMap(p3, whole, k3, s2);
    FilterOfFilter(k2, k3, k23, s1);
  }

  /** Cleaning treats rows one at a time: it keeps exactly the rows that pass
      every drop, in their order, each turned into Finish of itself. */
  lemma CleanRowsRowWise(parse: Value -> Option<int>, rows: seq<Row>)
    ensures CleanRows(parse, rows) == Map(Finisher(parse), Filter(Keeper(parse), rows))
  {
    var pc: Row -> Row := r => Converted(parse, r);
    var k1: Row -> bool := r => CreatedSurvives(parse, r);
    var k2: Row -> bool := r => JobRefSurvives(parse, r);
    var k3: Row -> bool := r => EmailSurvives(parse, r);
    var k23: Row -> bool := r => KeysSurvive(parse, r);
    FirstDrop(Prepare, Converter(parse), HasCreatedOn, pc, k1, rows);
    var s1 := Filter(k1, rows);
    LastDrops(pc, FloorCreated, Finisher(parse), HasJobRef, HasEmail, k2, k3, k23, s1);
    FilterOfFilter(k1, k23, Keeper(parse), rows);
  }

  /** What survives is a subsequence of the cleaned rows, in input order. */
  lemma CleanRowsSubsequence(parse: Value -> Option<int>, rows: seq<Row>)
    ensures IsSubsequence(CleanRows(parse, rows), Map(Finisher(parse), rows))
  {
    CleanRowsRowWise(parse, rows);
    FilterIsSubsequence(Keeper(parse), rows);
    MapKeepsSubsequence(Finisher(parse), Filter(Keeper(parse), rows), rows);
  }

  /** The created_on drop only looks at whether the non-empty created_on
      parses. */
  lemma CreatedSurvivesExactly(parse: Value -> Option<int>, r: Row)
    ensures CreatedSurvives(parse, r) <==>
      (CreatedOn in r ==> ParseTime(parse, Get(EmptyToNull(r), CreatedOn)).Some?)
  {
    PrepareCreatedCell(r);
  }

  /** Preparing leaves created_on present exactly when it was, with empty
      strings turned into missing values. */
  lemma PrepareCreatedCell(r: Row)
    ensures CreatedOn in Prepare(r) <==> CreatedOn in r
    ensures CreatedOn in r ==> Prepare(r)[CreatedOn] == EmptyToNull(r)[CreatedOn]
  {
    var e := EmptyToNull(r);
    var m := NormalizeColumn(e, Email);
    var n := NormalizeColumn(m, JobRefNumber);
    assert Prepare(r) == FillFlags(n);
    assert !IsFlag(CreatedOn) && n.Keys == r.Keys;
    if CreatedOn in r {
      assert FillFlags(n)[CreatedOn] == n[CreatedOn];
      assert n[CreatedOn] == m[CreatedOn] == e[CreatedOn];
    }
  }

  /** The drop on key column c (e-mail or job reference) only looks at
      whether c is missing once empty strings count as missing. */
  lemma KeySurvivesExactly(parse: Value -> Option<int>, r: Row, c: Col)
    requires c == Email || c == JobRefNumber
    ensures Has(c, Finish(parse, r)) <==> (c in r ==> Get(EmptyToNull(r), c) != Null)
  {
    FinishKeepsKeys(parse, r);
    PrepareKeyCell(r, c);
  }

  /** Preparing leaves a key column present exactly when it was, holding
      the normalised non-empty value. */
  lemma PrepareKeyCell(r: Row, c: Col)
    requires c == Email || c == JobRefNumber
    ensures c in Prepare(r) <==> c in r
    ensures c in r ==> Prepare(r)[c] == NormalizeCell(EmptyToNull(r)[c])
  {
    var e := EmptyToNull(r);
    var m := NormalizeColumn(e, Email);
    var n := NormalizeColumn(m, JobRefNumber);
    assert Prepare(r) == FillFlags(n);
    assert !IsFlag(c) && n.Keys == r.Keys;
    if c in r {
      assert FillFlags(n)[c] == n[c];
      if c == Email {
        assert n[Email] == m[Email] == NormalizeCell(e[Email]);
      } else {
        assert n[JobRefNumber] == NormalizeCell(m[JobRefNumber]);
        assert m[JobRefNumber] == e[JobRefNumber];
      }
    }
  }

  /** A row is dropped exactly when its created_on does not parse, or its
      job reference or e-mail is missing once empty strings count as
      missing. */
  lemma KeepsExactly(parse: Value -> Option<int>, r: Row)
    ensures Keeps(parse, r) <==>
      && (CreatedOn in r ==> ParseTime(parse, Get(EmptyToNull(r), CreatedOn)).Some?)
      && (JobRefNumber in r ==> Get(EmptyToNull(r), JobRefNumber) != Null)
      && (Email in r ==> Get(EmptyToNull(r), Email) != Null)
  {
    CreatedSurvivesExactly(parse, r);
    KeySurvivesExactly(parse, r, JobRefNumber);
    KeySurvivesExactly(parse, r, Email);
    assert Keeps(parse, r) == (CreatedSurvives(parse, r) && JobRefSurvives(parse, r) && EmailSurvives(parse, r));
  }

  /** The shape of a cleaned row: created_on (when the frame has one) on a
      whole second, a normalised non-missing job reference and e-mail, and
      no missing flag. */
  predicate Cleaned(r: Row)
  {
    && (CreatedOn in r ==> r[CreatedOn].Time? && r[CreatedOn].micros % MicrosPerSecond == 0)
    && KeyNormalized(r, JobRefNumber)
    && KeyNormalized(r, Email)
    && (forall c :: c in r && IsFlag(c) ==> r[c] != Null)
  }

  predicate KeyNormalized(r: Row, c: Col)
  {
    c in r ==> r[c].Str? && Normalized(r[c].s)
  }

  lemma PrepareColumns(r: Row)
    ensures Prepare(r).Keys == r.Keys
  {
  }

  lemma PrepareKey(r: Row, c: Col)
    requires c == Email || c == JobRefNumber
    requires HasEmail(Prepare(r)) && HasJobRef(Prepare(r))
    ensures KeyNormalized(Prepare(r), c)
  {
    PrepareKeyCell(r, c);
    if c in r {
      NormalizeCellNormalized(EmptyToNull(r)[c]);
    }
  }

  lemma FinishCreated(parse: Value -> Option<int>, r: Row)
    requires HasCreatedOn(ToDatetime(parse, Prepare(r)))
    ensures var out := Finish(parse, r);
      CreatedOn in out ==> out[CreatedOn].Time? && out[CreatedOn].micros % MicrosPerSecond == 0
  {
  }

  /** Cleaning a row keeps its columns. */
  lemma FinishColumns(parse: Value -> Option<int>, r: Row)
    ensures Finish(parse, r).Keys == r.Keys
  {
    PrepareColumns(r);
  }

  /** A row that passes every drop comes out Cleaned. */
  lemma FinishShape(parse: Value -> Option<int>, r: Row)
    requires Keeps(parse, r)
    ensures Cleaned(Finish(parse, r))
  {
    FinishCreated(parse, r);
    FinishKey(parse, r, Email);
    FinishKey(parse, r, JobRefNumber);
    FinishFlags(parse, r);
  }

  /** A kept row's key column c comes out normalised. */
  lemma FinishKey(parse: Value -> Option<int>, r: Row, c: Col)
    requires c == Email || c == JobRefNumber
    requires Keeps(parse, r)
    ensures KeyNormalized(Finish(parse, r), c)
  {
    PrepareColumns(r);
    FinishKeepsKeys(parse, r);
    PrepareKey(r, c);
  }

  /** No flag comes out missing. */
  lemma FinishFlags(parse: Value -> Option<int>, r: Row)
    ensures forall c :: c in Finish(parse, r) && IsFlag(c) ==> Finish(parse, r)[c] != Null
  {
    var p := Prepare(r);
    var t := ToDatetime(parse, p);
    assert Finish(parse, r) == FloorCreated(t);
    forall c | c in Finish(parse, r) && IsFlag(c) ensures Finish(parse, r)[c] != Null {
      assert Finish(parse, r)[c] == t[c] == p[c];
    }
  }

  /** Every row cleaning returns is Cleaned and has the columns of some
      input row. */
  lemma CleanRowsShape(parse: Value -> Option<int>, rows: seq<Row>, i: int)
    requires 0 <= i < |CleanRows(parse, rows)|
    ensures Cleaned(CleanRows(parse, rows)[i])
    ensures exists k :: 0 <= k < |rows| && CleanRows(parse, rows)[i].Keys == rows[k].Keys
  {
    CleanRowsRowWise(parse, rows);
    var kept := Filter(Keeper(parse), rows);
    var r := kept[i];
    assert r in kept;
    var k :| 0 <= k < |rows| && rows[k] == r;
    assert CleanRows(parse, rows)[i] == Finish(parse, r);
    FinishShape(parse, r);
    FinishColumns(parse, r);
  }

  /** Normalising a column whose cell is already normalised changes nothing. */
  lemma NormalizeColumnFixed(r: Row, c: Col)
    requires c in r ==> NormalizeCell(r[c]) == r[c]
    ensures NormalizeColumn(r, c) == r
  {
    if c in r {
      assert r[c := r[c]] == r;
    }
  }

  /** Normalising the keys of an already normalised row changes nothing. */
  lemma NormalizeKeysIdempotent(r: Row)
    ensures NormalizeKeys(NormalizeKeys(r)) == NormalizeKeys(r)
  {
    var m := NormalizeColumn(r, Email);
    var n := NormalizeColumn(m, JobRefNumber);
    if Email in r {
      NormalizeCellNormalized(r[Email]);
    }
    if JobRefNumber in r {
      NormalizeCellNormalized(m[JobRefNumber]);
    }
    NormalizeColumnFixed(n, Email);
    NormalizeColumnFixed(n, JobRefNumber);
  }
}
