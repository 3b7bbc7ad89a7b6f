/** The data frames that fetches return: a list of columns of equal length. */
module DataFrames {
  import opened Server
  import opened ResultRow

  datatype DataFrame = DataFrame(columns: seq<seq<Value>>, nrow: nat)

  predicate Rectangular(df: DataFrame, p: nat, n: nat) {
    |df.columns| == p && df.nrow == n && forall j :: 0 <= j < p ==> |df.columns[j]| == n
  }

  /** Row i of a data frame holds these values. */
  predicate HasRow(df: DataFrame, i: nat, row: seq<Value>) {
    |df.columns| == |row| && forall j :: 0 <= j < |row| ==> i < |df.columns[j]| && df.columns[j][i] == row[j]
  }

  /** A data frame with exactly these rows. */
  predicate Shows(df: DataFrame, p: nat, rows: seq<seq<Value>>) {
    && Rectangular(df, p, |rows|)
    && forall i :: 0 <= i < |rows| ==> HasRow(df, i, rows[i])
  }

  /** Column j of such a data frame holds, in order, the j-th value of each of the rows. */
  lemma CellsShown(df: DataFrame, p: nat, rows: seq<seq<Value>>, i: nat, j: nat)
    requires Shows(df, p, rows) && i < |rows| && j < p
    ensures df.nrow == |rows| == |df.columns[j]| && |df.columns| == p == |rows[i]|
    ensures df.columns[j][i] == rows[i][j]
  {
    assert HasRow(df, i, rows[i]);
  }

  /** A data frame with room for n rows, the first of which are these. */
  predicate Filled(df: DataFrame, p: nat, n: nat, rows: seq<seq<Value>>) {
    && Rectangular(df, p, n)
    && |rows| <= n
    && forall i :: 0 <= i < |rows| ==> HasRow(df, i, rows[i])
  }

  /** The rows of a data frame. */
  function RowsOf(df: DataFrame): seq<seq<Value>>
    requires Rectangular(df, |df.columns|, df.nrow)
  {
    seq(df.nrow, i requires 0 <= i < df.nrow =>
      seq(|df.columns|, j requires 0 <= j < |df.columns| => df.columns[j][i]))
  }

  lemma ShownRows(df: DataFrame, p: nat, rows: seq<seq<Value>>)
    requires Shows(df, p, rows)
    ensures Rectangular(df, |df.columns|, df.nrow) && RowsOf(df) == rows
  {
    forall i | 0 <= i < |rows| ensures RowsOf(df)[i] == rows[i] {
      assert HasRow(df, i, rows[i]);
    }
  }

  /** `Rf_lengthgets`: keeps the front, pads with NA. */
  function LengthGets(column: seq<Value>, n: nat): seq<Value> {
    if n <= |column| then column[..n] else column + seq(n - |column|, _ => NA)
  }

  method DfCreate(types: seq<FieldType>, n: nat) returns (df: DataFrame)
    ensures Rectangular(df, |types|, n)
  {
    var columns: seq<seq<Value>> := [];
    for j := 0 to |types|
      invariant |columns| == j && forall k :: 0 <= k < j ==> |columns[k]| == n
    {
      columns := columns + [seq(n, _ => Unset)];
    }
    df := DataFrame(columns, n);
  }

  /** Changes the number of rows; rows that fit keep their values. */
  method DfResize(df: DataFrame, n: nat, ghost rows: seq<seq<Value>>) returns (out: DataFrame)
    requires Filled(df, |df.columns|, df.nrow, rows) && |rows| <= n
    ensures Filled(out, |df.columns|, n, rows)
    ensures forall j, i :: 0 <= j < |df.columns| && df.nrow <= i < n ==> out.columns[j][i] == NA
  {
    var columns: seq<seq<Value>> := [];
    for j := 0 to |df.columns|
      invariant |columns| == j
      invariant forall k :: 0 <= k < j ==> columns[k] == LengthGets(df.columns[k], n)
    {
      columns := columns + [LengthGets(df.columns[j], n)];
    }
    out := DataFrame(columns, n);
  }
}
