/**
 * The query dispatcher (`loadSoumData`): one `SELECT` per table of the
 * field map, each sent to the SQL endpoint, joined all-or-nothing.
 */
module QueryDispatch {
  import opened Wrappers
  import opened JsObject
  import opened Schema
  import opened FieldEnumeration

  /** Why loading a soum fails. */
  datatype LoadError =
    | Transport(message: string)  // a request was rejected
    | NoRow(response: nat)        // `response.data.rows[0]` was undefined for this response

  /** The total length of some strings. */
  function Width(parts: seq<string>): nat
    decreases |parts|
  {
    if parts == [] then 0 else |parts[0]| + Width(parts[1..])
  }

  /**
   * `parts.join(sep)`, which is also how a template literal renders an
   * array: the parts in order with one separator between neighbours, so an
   * empty array renders as the empty string and a single part as itself.
   */
  function Join(parts: seq<string>, sep: char): (r: string)
    ensures parts == [] ==> r == ""
    ensures |parts| == 1 ==> r == parts[0]
    ensures parts != [] ==> |r| == Width(parts) + |parts| - 1
    ensures parts != [] ==> r[..|parts[0]|] == parts[0]
    ensures |parts| >= 2 ==> r[|parts[0]|] == sep
    decreases |parts|
  {
    if parts == [] then ""
    else if |parts| == 1 then parts[0]
    else parts[0] + [sep] + Join(parts[1..], sep)
  }

  /** `s.split(sep)`: the pieces between separators. */
  function Split(s: string, sep: char): (r: seq<string>)
    ensures |r| >= 1
    decreases |s|
  {
    if s == [] then [""]
    else
      var rest := Split(s[1..], sep);
      if s[0] == sep then [""] + rest else [[s[0]] + rest[0]] + rest[1..]
  }

  lemma {:induction false} SplitPlain(s: string, sep: char)
    requires sep !in s
    ensures Split(s, sep) == [s]
    decreases |s|
  {
    if s != [] {
      SplitPlain(s[1..], sep);
      assert [s[0]] + s[1..] == s;
    }
  }

  lemma {:induction false} SplitAfter(a: string, b: string, sep: char)
    requires sep !in a
    ensures Split(a + [sep] + b, sep) == [a] + Split(b, sep)
    decreases |a|
  {
    var s := a + [sep] + b;
    if a == [] {
      assert s[1..] == b;
    } else {
      assert s[1..] == a[1..] + [sep] + b;
      SplitAfter(a[1..], b, sep);
      assert [a[0]] + a[1..] == a;
    }
  }

  /** The select list of a query splits back into exactly its fields when no field contains a comma. */
  lemma {:induction false} SplitJoin(parts: seq<string>, sep: char)
    requires |parts| >= 1
    requires forall i :: 0 <= i < |parts| ==> sep !in parts[i]
    ensures Split(Join(parts, sep), sep) == parts
    decreases |parts|
  {
    if |parts| == 1 {
      SplitPlain(parts[0], sep);
    } else {
      SplitJoin(parts[1..], sep);
      SplitAfter(parts[0], Join(parts[1..], sep), sep);
      assert [parts[0]] + parts[1..] == parts;
    }
  }

  /** The tail of a table's query after its select list. */
  function FromClause(table: string, soumId: string): string {
    " FROM " + table + " WHERE soumcode = " + soumId
  }

  /**
   * The query for one table: its fields comma-joined as the select list,
   * and the soum id spliced in verbatim, without quoting or escaping.
   */
  function Query(table: string, fields: seq<string>, soumId: string): (q: string)
    ensures |q| == 7 + |Join(fields, ',')| + |FromClause(table, soumId)|
    ensures q[..7] == "SELECT "
    ensures q[|q| - |FromClause(table, soumId)|..] == FromClause(table, soumId)
    ensures q[|q| - |soumId|..] == soumId
  {
    var list := Join(fields, ',');
    var q := "SELECT " + list + FromClause(table, soumId);
    assert q[..7] == "SELECT ";
    assert q[|q| - |FromClause(table, soumId)|..] == FromClause(table, soumId);
    assert FromClause(table, soumId)[|FromClause(table, soumId)| - |soumId|..] == soumId;
    q
  }

  /** The select list of a query splits back into its fields when no field holds a comma. */
  lemma QueryFields(table: string, fields: seq<string>, soumId: string)
    requires |fields| >= 1
    requires forall i :: 0 <= i < |fields| ==> ',' !in fields[i]
    ensures var q := Query(table, fields, soumId);
            Split(q[7..|q| - |FromClause(table, soumId)|], ',') == fields
  {
    var q := Query(table, fields, soumId);
    assert q[7..|q| - |FromClause(table, soumId)|] == Join(fields, ',');
    SplitJoin(fields, ',');
  }

  /** The queries `loadSoumData` issues for a field map, one per table in key order. */
  function Queries(soumId: string, fieldList: FieldMap): seq<string>
    requires fieldList.Valid()
  {
    seq(|fieldList.keys|, i requires 0 <= i < |fieldList.keys| =>
      Query(fieldList.keys[i], fieldList.props[fieldList.keys[i]], soumId))
  }

  /** There is exactly one query per table of the field map. */
  lemma QueryPerTable(soumId: string, fieldList: FieldMap)
    requires fieldList.Valid()
    ensures |Queries(soumId, fieldList)| == |fieldList.props|
  {
    ObjSize(fieldList);
  }

  /** The string part of the loop in `loadSoumData`. */
  method BuildQueries(soumId: string, fieldList: FieldMap) returns (queries: seq<string>)
    requires fieldList.Valid()
    ensures |queries| == |fieldList.keys|
    ensures forall i :: 0 <= i < |queries| ==>
              queries[i] == Query(fieldList.keys[i], fieldList.props[fieldList.keys[i]], soumId)
  {
    queries := [];
    var tables := fieldList.keys;
    for i := 0 to |tables|
      invariant |queries| == i
      invariant forall j :: 0 <= j < i ==> queries[j] == Query(tables[j], fieldList.props[tables[j]], soumId)
    {
      var table := tables[i];
      var fields := fieldList.props[table];
      var query := "SELECT " + Join(fields, ',') + " FROM " + table + " WHERE soumcode = " + soumId;
      queries := queries + [query];
    }
  }

  /**
   * `promises.push($http(request))` for each query, then `$q.all(promises)`:
   * the responses in query order, or the rejection of a failing request.
   */
  method FetchAll(queries: seq<string>, server: string -> Result<Response, string>)
    returns (r: Result<seq<Response>, LoadError>)
    ensures r.Ok? <==> forall i :: 0 <= i < |queries| ==> server(queries[i]).Ok?
    ensures r.Ok? ==> |r.value| == |queries|
    ensures r.Ok? ==> forall i :: 0 <= i < |queries| ==> r.value[i] == server(queries[i]).value
    ensures r.Err? ==> r.error.Transport?
    ensures r.Err? ==> exists i :: 0 <= i < |queries| && server(queries[i]) == Err(r.error.message)
  {
    var responses := [];
    for i := 0 to |queries|
      invariant |responses| == i
      invariant forall j :: 0 <= j < i ==> server(queries[j]).Ok? && responses[j] == server(queries[j]).value
    {
      var answer := server(queries[i]);
      if answer.Err? {
        return Err(Transport(answer.error));
      }
      responses := responses + [answer.value];
    }
    return Ok(responses);
  }

  /** `loadSoumData(soumId, mapSections)`: enumerate the fields, build the queries, fetch them all. */
  method LoadSoumData(soumId: string, mapSections: Obj<Section>, metadata: Section,
                      server: string -> Result<Response, string>)
    returns (r: Result<seq<Response>, LoadError>)
    requires mapSections.Valid()
    ensures var queries := Queries(soumId, AllFields(mapSections, metadata));
            && (r.Ok? <==> forall i :: 0 <= i < |queries| ==> server(queries[i]).Ok?)
            && (r.Ok? ==> |r.value| == |queries|
                          && forall i :: 0 <= i < |queries| ==> r.value[i] == server(queries[i]).value)
            && (r.Err? ==> r.error.Transport?
                           && exists i :: 0 <= i < |queries| && server(queries[i]) == Err(r.error.message))
  {
    var fieldList := GetAllFields(mapSections, metadata);
    var queries := BuildQueries(soumId, fieldList);
    assert queries == Queries(soumId, fieldList);
    r := FetchAll(queries, server);
  }
}
