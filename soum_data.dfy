/**
 * `load(soumId, mapSections)`: enumerate the fields, fetch one row per
 * table, merge the rows and format them along the configuration.
 */
module SoumData {
  import opened Wrappers
  import opened JsObject
  import opened Schema
  import opened FieldEnumeration
  import opened QueryDispatch
  import opened Merge
  import opened Format

  /** Every query was answered, and every answer has a first row. */
  ghost predicate Answered(server: string -> Result<Response, string>, queries: seq<string>) {
    forall i :: 0 <= i < |queries| ==> server(queries[i]).Ok? && server(queries[i]).value.rows != []
  }

  /** The first row of each answer, in query order. */
  ghost function FirstAnswers(server: string -> Result<Response, string>, queries: seq<string>): (rows: seq<Row>)
    requires Answered(server, queries)
    requires forall q :: server(q).Ok? ==> WellFormed(server(q).value)
    ensures ValidRows(rows)
  {
    assert forall i :: 0 <= i < |queries| ==> WellFormed(server(queries[i]).value);
    seq(|queries|, i requires 0 <= i < |queries| => server(queries[i]).value.rows[0])
  }

  /** The fetched responses have first rows exactly when every query was answered with one. */
  lemma AnswersAgree(server: string -> Result<Response, string>, queries: seq<string>, responses: seq<Response>)
    requires forall q :: server(q).Ok? ==> WellFormed(server(q).value)
    requires |responses| == |queries|
    requires forall i :: 0 <= i < |queries| ==> server(queries[i]).Ok? && responses[i] == server(queries[i]).value
    ensures forall i :: 0 <= i < |responses| ==> WellFormed(responses[i])
    ensures HasRows(responses) <==> Answered(server, queries)
    ensures HasRows(responses) ==> FirstRows(responses) == FirstAnswers(server, queries)
  {
  }

  /**
   * `load`: succeeds exactly when every table's query is answered with a
   * row; then the record is the formatted configuration and every
   * descriptor carries the merged row's value. On failure no descriptor
   * has been written. A rejected request is passed on unchanged and takes
   * precedence; only when every request succeeds can the failure be a
   * response without a row.
   */
  method Load(soumId: string, mapSections: Obj<Section>, metadata: Section,
              server: string -> Result<Response, string>)
    returns (r: Result<Obj<Obj<Variable>>, LoadError>)
    requires mapSections.Valid()
    requires forall q :: server(q).Ok? ==> WellFormed(server(q).value)
    modifies AllVars(mapSections, metadata)
    ensures r.Ok? <==> Answered(server, Queries(soumId, AllFields(mapSections, metadata)))
    ensures r.Err? ==> forall l, i :: l in mapSections.props && 0 <= i < |mapSections.props[l].visualizations| ==>
                         mapSections.props[l].visualizations[i].value == old(mapSections.props[l].visualizations[i].value)
    ensures r.Err? ==> forall i :: 0 <= i < |metadata.fields| ==> metadata.fields[i].value == old(metadata.fields[i].value)
    ensures var queries := Queries(soumId, AllFields(mapSections, metadata));
            r.Err? && r.error.Transport? ==>
              exists i :: 0 <= i < |queries| && server(queries[i]) == Err(r.error.message)
    ensures var queries := Queries(soumId, AllFields(mapSections, metadata));
            r.Err? && r.error.NoRow? ==>
              && (forall i :: 0 <= i < |queries| ==> server(queries[i]).Ok?)
              && r.error.response < |queries|
              && server(queries[r.error.response]).value.rows == []
    ensures var queries := Queries(soumId, AllFields(mapSections, metadata));
            (exists i :: 0 <= i < |queries| && server(queries[i]).Err?) ==> r.Err? && r.error.Transport?
    ensures r.Ok? ==> r.value == Formatted(mapSections, metadata)
    ensures r.Ok? ==>
              Filled(AllVars(mapSections, metadata),
                     Merged(FirstAnswers(server, Queries(soumId, AllFields(mapSections, metadata)))))
  {
    ghost var queries := Queries(soumId, AllFields(mapSections, metadata));
    var responses := LoadSoumData(soumId, mapSections, metadata, server);
    if responses.Err? {
      return Err(responses.error);
    }
    AnswersAgree(server, queries, responses.value);
    var combinedRow := MergeResponses(responses.value);
    if combinedRow.Err? {
      return Err(combinedRow.error);
    }
    var soum := FormatSoumData(combinedRow.value, mapSections, metadata);
    return Ok(soum);
  }
}
