/**
 * The response merger (`mergeResponses`): the first row of each per-table
 * response folded into one object, later columns overwriting earlier ones.
 */
module Merge {
  import opened Wrappers
  import opened JsObject
  import opened Schema
  import opened QueryDispatch

  /** The assignments `result[key] = row[key]` for `key of Object.keys(row)`. */
  function Entries(row: Row): seq<(string, Value)>
    requires row.Valid()
  {
    seq(|row.keys|, i requires 0 <= i < |row.keys| => (row.keys[i], row.props[row.keys[i]]))
  }

  /** Every row is a well-formed object. */
  predicate ValidRows(rows: seq<Row>) {
    forall i :: 0 <= i < |rows| ==> rows[i].Valid()
  }

  /** The assignments of all rows, row after row. */
  function AllEntries(rows: seq<Row>): seq<(string, Value)>
    requires ValidRows(rows)
    decreases |rows|
  {
    if rows == [] then [] else AllEntries(rows[..|rows| - 1]) + Entries(rows[|rows| - 1])
  }

  /** The object the merge builds from the given rows. */
  function Merged(rows: seq<Row>): (r: Row)
    requires ValidRows(rows)
    ensures r.Valid()
  {
    PutEach(Empty(), AllEntries(rows))
  }

  /** Every response has a first row. */
  predicate HasRows(responses: seq<Response>) {
    forall i :: 0 <= i < |responses| ==> responses[i].rows != []
  }

  /** `response.data.rows[0]` of each response. */
  function FirstRows(responses: seq<Response>): (rows: seq<Row>)
    requires HasRows(responses)
  {
    seq(|responses|, i requires 0 <= i < |responses| => responses[i].rows[0])
  }

  /** `mergeResponses(responses)` */
  method MergeResponses(responses: seq<Response>) returns (r: Result<Row, LoadError>)
    requires forall i :: 0 <= i < |responses| ==> WellFormed(responses[i])
    ensures r.Ok? <==> HasRows(responses)
    ensures r.Err? ==> r.error.NoRow? && r.error.response < |responses|
                       && responses[r.error.response].rows == []
                       && forall j :: 0 <= j < r.error.response ==> responses[j].rows != []
    ensures r.Ok? ==> ValidRows(FirstRows(responses)) && r.value == Merged(FirstRows(responses))
  {
    var result := Empty<Value>();
    for i := 0 to |responses|
      invariant HasRows(responses[..i])
      invariant ValidRows(FirstRows(responses[..i]))
      invariant result == Merged(FirstRows(responses[..i]))
    {
      if responses[i].rows == [] {
        return Err(NoRow(i));
      }
      var row := responses[i].rows[0];
      ghost var before := result;
      ghost var entries := Entries(row);
      for k := 0 to |row.keys|
        invariant result == PutEach(before, entries[..k])
      {
        var key := row.keys[k];
        result := result.Put(key, row.props[key]);
        PutEachStep(before, entries, k);
      }
      assert entries[..|row.keys|] == entries;
      MergeStep(responses, i);
    }
    assert responses[..|responses|] == responses;
    return Ok(result);
  }

  /** One more response of the outer loop of `mergeResponses`. */
  lemma MergeStep(responses: seq<Response>, i: nat)
    requires i < |responses| && responses[i].rows != [] && WellFormed(responses[i])
    requires HasRows(responses[..i]) && ValidRows(FirstRows(responses[..i]))
    ensures HasRows(responses[..i + 1]) && ValidRows(FirstRows(responses[..i + 1]))
    ensures Merged(FirstRows(responses[..i + 1]))
            == PutEach(Merged(FirstRows(responses[..i])), Entries(responses[i].rows[0]))
  {
    var row := responses[i].rows[0];
    assert responses[..i + 1] == responses[..i] + [responses[i]];
    assert FirstRows(responses[..i + 1]) == FirstRows(responses[..i]) + [row];
    MergedSnoc(FirstRows(responses[..i]), row);
  }

  /** Merging one more row assigns its columns on top of what was merged. */
  lemma MergedSnoc(rows: seq<Row>, row: Row)
    requires ValidRows(rows) && row.Valid()
    ensures ValidRows(rows + [row])
    ensures Merged(rows + [row]) == PutEach(Merged(rows), Entries(row))
  {
    assert (rows + [row])[..|rows|] == rows;
    PutEachAppend(Empty(), AllEntries(rows), Entries(row));
  }

  // ---------------------------------------------------------------------
  // Properties of the merged row
  // ---------------------------------------------------------------------

  lemma {:induction false} EntriesKeys(row: Row)
    requires row.Valid()
    ensures KeysOf(Entries(row)) == row.keys
  {
  }

  /** The merged row has exactly the columns of the rows. */
  lemma MergedKeys(rows: seq<Row>, k: string)
    requires ValidRows(rows)
    ensures k in Merged(rows).props <==> exists i :: 0 <= i < |rows| && k in rows[i].props
  {
    PutEachKeys(Empty(), AllEntries(rows));
    AllEntriesKeys(rows);
    AllKeysMember(rows, k);
  }

  /** A name occurs among the rows' columns exactly when some row has that column. */
  lemma {:induction false} AllKeysMember(rows: seq<Row>, k: string)
    requires ValidRows(rows)
    ensures k in AllKeys(rows) <==> exists i :: 0 <= i < |rows| && k in rows[i].props
    decreases |rows|
  {
    if rows != [] {
      var n := |rows| - 1;
      var p := rows[..n];
      AllKeysMember(p, k);
      assert AllKeys(rows) == AllKeys(p) + rows[n].keys;
      if k in AllKeys(rows) {
        if k in AllKeys(p) {
          var i :| 0 <= i < n && k in p[i].props;
          assert rows[i] == p[i];
        } else {
          assert k in rows[n].props;
        }
      }
      if exists i :: 0 <= i < |rows| && k in rows[i].props {
        var i :| 0 <= i < |rows| && k in rows[i].props;
        if i < n {
          assert p[i] == rows[i];
        } else {
          assert k in rows[n].keys;
        }
      }
    }
  }

  /** A column's merged value comes from the last row that has it. */
  lemma {:induction false} MergedLastWins(rows: seq<Row>, i: nat, k: string)
    requires ValidRows(rows)
    requires i < |rows| && k in rows[i].props
    requires forall j :: i < j < |rows| ==> k !in rows[j].props
    ensures k in Merged(rows).props && Merged(rows).props[k] == rows[i].props[k]
    decreases |rows|
  {
    var n := |rows| - 1;
    assert ValidRows(rows[..n]);
    var a := AllEntries(rows[..n]);
    var b := Entries(rows[n]);
    assert AllEntries(rows) == a + b;
    PutEachAppend(Empty(), a, b);
    assert Merged(rows) == PutEach(Merged(rows[..n]), b);
    EntriesKeys(rows[n]);
    if i == n {
      var m :| 0 <= m < |rows[n].keys| && rows[n].keys[m] == k;
      assert b[m] == (k, rows[n].props[k]);
      PutEachLastWins(PutEach(Empty(), a), b, m);
    } else {
      MergedLastWins(rows[..n], i, k);
      PutEachUntouched(PutEach(Empty(), a), b, k);
    }
  }

  /** Columns appear in the merged row in order of first appearance. */
  lemma {:induction false} MergedOrder(rows: seq<Row>)
    requires ValidRows(rows)
    ensures Merged(rows).keys == Dedup(AllKeys(rows))
  {
    PutEachOrder(Empty(), AllEntries(rows));
    AllEntriesKeys(rows);
    assert Empty<Value>().keys + KeysOf(AllEntries(rows)) == AllKeys(rows);
  }

  /** The column names of the rows, row after row. */
  function AllKeys(rows: seq<Row>): seq<string>
    decreases |rows|
  {
    if rows == [] then [] else AllKeys(rows[..|rows| - 1]) + rows[|rows| - 1].keys
  }

  lemma {:induction false} AllEntriesKeys(rows: seq<Row>)
    requires ValidRows(rows)
    ensures KeysOf(AllEntries(rows)) == AllKeys(rows)
    decreases |rows|
  {
    if rows != [] {
      var n := |rows| - 1;
      AllEntriesKeys(rows[..n]);
      EntriesKeys(rows[n]);
      assert KeysOf(AllEntries(rows[..n]) + Entries(rows[n])) == KeysOf(AllEntries(rows[..n])) + KeysOf(Entries(rows[n]));
    }
  }
}
