/** A pandas DataFrame as the importer uses it: a set of columns and a
    sequence of rows, each row holding exactly those columns. */
module Frames {
  import opened Base

  datatype Frame<K> = Frame(columns: set<K>, rows: seq<map<K, Value>>)

  /** Every row has exactly the frame's columns; a missing cell is Null. */
  predicate WellFormed<K>(df: Frame<K>)
  {
    forall r :: r in df.rows ==> r.Keys == df.columns
  }

  /** DataFrame.empty: no rows or no columns. */
  predicate Empty<K>(df: Frame<K>)
  {
    |df.rows| == 0 || df.columns == {}
  }

  /** Every key any of the records has. */
  function KeysOf<K>(records: seq<map<K, Value>>): (cols: set<K>)
    ensures forall i, c :: 0 <= i < |records| && c in records[i] ==> c in cols
    ensures forall c :: c in cols ==> exists i :: 0 <= i < |records| && c in records[i]
  {
    if records == [] then {} else KeysOf(records[..|records| - 1]) + records[|records| - 1].Keys
  }

  /** A record widened to the given columns, Null where it has no value. */
  function Pad<K>(r: map<K, Value>, columns: set<K>): map<K, Value>
  {
    map c | c in columns :: Get(r, c)
  }

  /** pd.DataFrame(records): one row per record in order, with every key any
      record has as a column, and NaN where a record lacks one. */
  function FromRecords<K(!new)>(records: seq<map<K, Value>>): (df: Frame<K>)
    ensures WellFormed(df)
    ensures |df.rows| == |records|
    ensures df.columns == KeysOf(records)
    ensures forall i, c :: 0 <= i < |records| ==> Get(df.rows[i], c) == Get(records[i], c)
  {
    var cols := KeysOf(records);
    Frame(cols, seq(|records|, i requires 0 <= i < |records| => Pad(records[i], cols)))
  }

  /** `df[column] = v`: the column is added or overwritten with v in every row. */
  function SetColumn<K(==,!new)>(df: Frame<K>, column: K, v: Value): (out: Frame<K>)
    ensures WellFormed(df) ==> WellFormed(out)
    ensures out.columns == df.columns + {column}
    ensures |out.rows| == |df.rows|
    ensures forall i :: 0 <= i < |df.rows| ==> Get(out.rows[i], column) == v
    ensures forall i, c :: 0 <= i < |df.rows| && c != column ==> Get(out.rows[i], c) == Get(df.rows[i], c)
  {
    Frame(df.columns + {column}, seq(|df.rows|, i requires 0 <= i < |df.rows| => df.rows[i][column := v]))
  }
}
