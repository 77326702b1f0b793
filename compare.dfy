/**
 * The comparator's local part (`_parseCompare`): finds the target soum's
 * row and averages each requested column over all rows ("country") and
 * over the rows flagged as neighbours ("cluster").
 */
module Compare {
  import opened Wrappers
  import opened JsObject
  import opened Schema

  /** A column average: a number, or NaN when JavaScript's division yields it. */
  datatype Average = Number(value: real) | NaN

  /** The comparison object: `{country, cluster, soum}`. */
  datatype Comparison = Comparison(country: Obj<Average>, cluster: Obj<Average>, soum: Option<Row>)

  /** What `_parseCompare` returns: `{rows, comparison}`. */
  datatype Compared = Compared(rows: seq<Row>, comparison: Comparison)

  /** lodash's matcher `{soumcode: soumId}`: the row has a `soumcode` column holding the id. */
  predicate Matches(row: Row, soumId: Value): (b: bool)
    ensures b <==> "soumcode" in row.props && row.props["soumcode"] == soumId
  {
    row.Get("soumcode") == Some(soumId)
  }

  /** lodash's matcher `{neighbor: true}`: the row has a `neighbor` column holding `true`. */
  predicate IsNeighbor(row: Row): (b: bool)
    ensures b <==> "neighbor" in row.props && row.props["neighbor"] == Bool(true)
  {
    row.Get("neighbor") == Some(Bool(true))
  }

  /** `row[column]` when it is a number. */
  function NumberAt(row: Row, column: string): Option<real> {
    match row.Get(column)
    case Some(Num(n)) => Some(n)
    case _ => None
  }

  /** `_.find(rows, {soumcode: soumId})`, as the index of the row found. */
  function FindIndex(rows: seq<Row>, soumId: Value): (k: Option<nat>)
    ensures k.Some? ==> k.value < |rows| && Matches(rows[k.value], soumId)
    ensures k.Some? ==> forall j :: 0 <= j < k.value ==> !Matches(rows[j], soumId)
    ensures k.None? ==> forall j :: 0 <= j < |rows| ==> !Matches(rows[j], soumId)
    decreases |rows|
  {
    if rows == [] then None
    else if Matches(rows[0], soumId) then Some(0)
    else match FindIndex(rows[1..], soumId)
      case None => None
      case Some(k) => Some(k + 1)
  }

  /** `_.filter(rows, {neighbor: true})`: the neighbour rows, each as often as it occurs. */
  function ClusterRows(rows: seq<Row>): (r: seq<Row>)
    ensures forall row :: row in r ==> IsNeighbor(row)
    ensures forall row :: multiset(r)[row] == if IsNeighbor(row) then multiset(rows)[row] else 0
    decreases |rows|
  {
    if rows == [] then []
    else
      assert rows == [rows[0]] + rows[1..];
      (if IsNeighbor(rows[0]) then [rows[0]] else []) + ClusterRows(rows[1..])
  }

  /**
   * The column's values added up from left to right, starting at zero;
   * None when a value is not a number, which makes the sum NaN.
   */
  function ColumnSum(rows: seq<Row>, column: string): (r: Option<real>)
    ensures rows == [] ==> r == Some(0.0)
    decreases |rows|
  {
    if rows == [] then Some(0.0)
    else match (ColumnSum(rows[..|rows| - 1], column), NumberAt(rows[|rows| - 1], column))
      case (Some(s), Some(x)) => Some(s + x)
      case _ => None
  }

  /** The column sum is a number exactly when every row's value is one. */
  lemma {:induction false} ColumnSumDefined(rows: seq<Row>, column: string)
    ensures ColumnSum(rows, column).None? <==> exists i :: 0 <= i < |rows| && NumberAt(rows[i], column).None?
    decreases |rows|
  {
    if rows != [] {
      var n := |rows| - 1;
      var p := rows[..n];
      ColumnSumDefined(p, column);
      if exists i :: 0 <= i < n && NumberAt(p[i], column).None? {
        var i :| 0 <= i < n && NumberAt(p[i], column).None?;
        assert rows[i] == p[i];
      }
      if exists i :: 0 <= i < |rows| && NumberAt(rows[i], column).None? {
        var i :| 0 <= i < |rows| && NumberAt(rows[i], column).None?;
        if i < n {
          assert p[i] == rows[i];
        }
      }
    }
  }

  /** One row's sum is its own value, or NaN when that value is not a number. */
  lemma ColumnSumSingle(row: Row, column: string)
    ensures ColumnSum([row], column) == NumberAt(row, column)
  {
    assert [row][..0] == [];
  }

  /** Adding up two runs of rows one after the other is adding the two partial sums. */
  lemma {:induction false} ColumnSumAppend(a: seq<Row>, b: seq<Row>, column: string)
    ensures ColumnSum(a + b, column) ==
              match (ColumnSum(a, column), ColumnSum(b, column))
              case (Some(x), Some(y)) => Some(x + y)
              case _ => None
    decreases |b|
  {
    if b == [] {
      assert a + b == a;
    } else {
      var n := |b| - 1;
      ColumnSumAppend(a, b[..n], column);
      assert (a + b)[..|a + b| - 1] == a + b[..n];
      assert (a + b)[|a + b| - 1] == b[n];
    }
  }

  /** `sum / colData.length`: NaN for no rows (0/0) or a non-number among them. */
  function MeanOf(rows: seq<Row>, column: string): (a: Average)
    ensures a.NaN? <==> |rows| == 0 || exists i :: 0 <= i < |rows| && NumberAt(rows[i], column).None?
    ensures a.Number? ==> ColumnSum(rows, column).Some? && ColumnSum(rows, column).value == a.value * (|rows| as real)
  {
    ColumnSumDefined(rows, column);
    var sum := ColumnSum(rows, column);
    if |rows| == 0 || sum.None? then NaN
    else
      DivMul(sum.value, |rows|);
      Number(sum.value / |rows| as real)
  }

  lemma DivMul(s: real, count: nat)
    requires count > 0
    ensures (s / count as real) * (count as real) == s
  {
  }

  /** `_parseCompare(data, soumId, columns)` */
  method ParseCompare(data: Response, soumId: Value, columns: seq<string>) returns (r: Compared)
    ensures r.rows == data.rows
    ensures r.comparison.soum.Some? <==> exists i :: 0 <= i < |data.rows| && Matches(data.rows[i], soumId)
    ensures r.comparison.soum.Some? ==>
              exists i :: 0 <= i < |data.rows| && data.rows[i] == r.comparison.soum.value
                          && Matches(data.rows[i], soumId)
                          && forall j :: 0 <= j < i ==> !Matches(data.rows[j], soumId)
    ensures r.comparison.country.Valid() && r.comparison.cluster.Valid()
    ensures r.comparison.country.keys == Dedup(columns) && r.comparison.cluster.keys == Dedup(columns)
    ensures forall c :: c in r.comparison.country.props <==> c in columns
    ensures forall c :: c in r.comparison.cluster.props <==> c in columns
    ensures forall c :: c in columns ==>
              r.comparison.country.props[c] == MeanOf(data.rows, c)
              && r.comparison.cluster.props[c] == MeanOf(ClusterRows(data.rows), c)
  {
    var rows := data.rows;
    var found := FindIndex(rows, soumId);
    var soumRow := if found.Some? then Some(rows[found.value]) else None;
    var country: Obj<Average> := Empty();
    var cluster: Obj<Average> := Empty();
    for i := 0 to |columns|
      invariant Averages(country, rows, columns[..i])
      invariant Averages(cluster, ClusterRows(rows), columns[..i])
    {
      var column := columns[i];
      var clusterRows := ClusterRows(rows);
      AveragesStep(country, rows, columns, i);
      AveragesStep(cluster, clusterRows, columns, i);
      country := country.Put(column, MeanOf(rows, column));
      cluster := cluster.Put(column, MeanOf(clusterRows, column));
    }
    assert columns[..|columns|] == columns;
    r := Compared(rows, Comparison(country, cluster, soumRow));
  }

  /** `o` holds `MeanOf(rows, c)` for exactly the columns `columns`, in order of first request. */
  ghost predicate Averages(o: Obj<Average>, rows: seq<Row>, columns: seq<string>) {
    && o.Valid()
    && o.keys == Dedup(columns)
    && forall c :: c in o.props ==> o.props[c] == MeanOf(rows, c)
  }

  lemma AveragesStep(o: Obj<Average>, rows: seq<Row>, columns: seq<string>, i: nat)
    requires i < |columns|
    requires Averages(o, rows, columns[..i])
    ensures Averages(o.Put(columns[i], MeanOf(rows, columns[i])), rows, columns[..i + 1])
  {
    DedupSnoc(columns[..i], columns[i]);
    assert columns[..i + 1] == columns[..i] + [columns[i]];
  }

  // ---------------------------------------------------------------------
  // Properties of the averages
  // ---------------------------------------------------------------------

  /** Values between two bounds sum to between the count times each bound. */
  lemma {:induction false} SumBounds(rows: seq<Row>, column: string, lo: real, hi: real)
    requires forall i :: 0 <= i < |rows| ==> NumberAt(rows[i], column).Some?
    requires forall i :: 0 <= i < |rows| ==> lo <= NumberAt(rows[i], column).value <= hi
    ensures ColumnSum(rows, column).Some?
    ensures |rows| as real * lo <= ColumnSum(rows, column).value <= |rows| as real * hi
    decreases |rows|
  {
    if rows != [] {
      var n := |rows| - 1;
      var p := rows[..n];
      assert forall i :: 0 <= i < n ==> p[i] == rows[i];
      SumBounds(p, column, lo, hi);
      var x := NumberAt(rows[n], column).value;
      assert lo <= x <= hi;
      SumStep(rows, column);
      StepBounds(ColumnSum(p, column).value, x, n as real, |rows| as real, lo, hi);
    }
  }

  /** The column sum over one more row with a numeric value. */
  lemma SumStep(rows: seq<Row>, column: string)
    requires rows != []
    requires ColumnSum(rows[..|rows| - 1], column).Some?
    requires NumberAt(rows[|rows| - 1], column).Some?
    ensures ColumnSum(rows, column)
            == Some(ColumnSum(rows[..|rows| - 1], column).value + NumberAt(rows[|rows| - 1], column).value)
  {
  }

  /** Adding one more value between the bounds keeps the sum between the bounds times the count. */
  lemma StepBounds(s: real, x: real, k: real, m: real, lo: real, hi: real)
    requires m == k + 1.0
    requires k * lo <= s <= k * hi
    requires lo <= x <= hi
    ensures m * lo <= s + x <= m * hi
  {
    assert m * lo == k * lo + lo;
    assert m * hi == k * hi + hi;
  }

  /** A column average lies between the smallest and the largest value. */
  lemma MeanWithinBounds(rows: seq<Row>, column: string, lo: real, hi: real)
    requires |rows| > 0
    requires forall i :: 0 <= i < |rows| ==> NumberAt(rows[i], column).Some?
    requires forall i :: 0 <= i < |rows| ==> lo <= NumberAt(rows[i], column).value <= hi
    ensures MeanOf(rows, column).Number?
    ensures lo <= MeanOf(rows, column).value <= hi
  {
    SumBounds(rows, column, lo, hi);
    QuotientBounds(ColumnSum(rows, column).value, |rows| as real, lo, hi);
  }

  /** A quotient by a positive count of a sum between `count*lo` and `count*hi` lies between `lo` and `hi`. */
  lemma QuotientBounds(s: real, n: real, lo: real, hi: real)
    requires n > 0.0
    requires n * lo <= s <= n * hi
    ensures lo <= s / n <= hi
  {
    var m := s / n;
    assert m * n == s;
    assert (m - lo) * n >= 0.0;
    assert (hi - m) * n >= 0.0;
  }

  /** A row is a cluster row exactly when it is one of the rows and a neighbour. */
  lemma ClusterMember(rows: seq<Row>, row: Row)
    ensures row in ClusterRows(rows) <==> row in rows && IsNeighbor(row)
  {
    assert row in ClusterRows(rows) <==> row in multiset(ClusterRows(rows));
    assert row in rows <==> row in multiset(rows);
  }

  /** The cluster average is NaN exactly when no row is a neighbour or some neighbour's value is not a number. */
  lemma ClusterNaN(rows: seq<Row>, column: string)
    ensures MeanOf(ClusterRows(rows), column).NaN?
            <==> (forall row :: row in rows ==> !IsNeighbor(row))
                 || exists row :: row in rows && IsNeighbor(row) && NumberAt(row, column).None?
  {
    var cr := ClusterRows(rows);
    forall row ensures row in cr <==> row in rows && IsNeighbor(row) {
      ClusterMember(rows, row);
    }
    assert (exists k :: 0 <= k < |cr| && NumberAt(cr[k], column).None?)
           <==> exists row :: row in cr && NumberAt(row, column).None?;
    assert |cr| == 0 <==> forall row :: row in cr ==> false;
  }
}
