/**
 * The shapes the soum data service works on: scalar values and rows as
 * CartoDB returns them, and the configuration's field descriptors and
 * sections.
 */
module Schema {
  import opened Wrappers
  import opened JsObject

  /** A scalar in a CartoDB JSON row. */
  datatype Value = Num(n: real) | Str(s: string) | Bool(b: bool) | Null

  /** One result row: column name to value. */
  type Row = Obj<Value>

  /** An HTTP response body as far as the service reads it: `data.rows`. */
  datatype Response = Response(rows: seq<Row>)

  /** Every row of the response is a well-formed object. */
  predicate WellFormed(response: Response) {
    forall i :: 0 <= i < |response.rows| ==> response.rows[i].Valid()
  }

  /**
   * A field descriptor of the configuration, `{field, key?, table?}`. The
   * service reads the first three and writes only `value` (`undefined`
   * until a load attaches the fetched value).
   */
  class Variable {
    const field: string
    const key: Option<string>
    const table: Option<string>
    var value: Option<Value>

    constructor (field: string, key: Option<string>, table: Option<string>)
      ensures this.field == field && this.key == key && this.table == table
      ensures value == None
    {
      this.field := field;
      this.key := key;
      this.table := table;
      value := None;
    }
  }

  /** Which array of a section to walk: map sections use `visualizations`, the metadata section `fields`. */
  datatype Container = Visualizations | Fields

  /** A configuration section: a default table and its descriptors. */
  datatype Section = Section(table: string, visualizations: seq<Variable>, fields: seq<Variable>) {
    /** `section[container]` */
    function Items(container: Container): seq<Variable> {
      match container
      case Visualizations => visualizations
      case Fields => fields
    }
  }

  /** JavaScript's `a || b` for an optional string: an absent or empty string falls through to `b`. */
  function Or(a: Option<string>, b: string): (r: string)
    ensures r == b || (a.Some? && r == a.value)
    ensures a.Some? && a.value != "" ==> r == a.value
    ensures r == "" <==> (a.None? || a.value == "") && b == ""
  {
    if a.Some? && a.value != "" then a.value else b
  }

  /** The key a descriptor is stored under: `variable.key || variable.field`. */
  function Id(v: Variable): (id: string)
    ensures id != v.field ==> v.key == Some(id) && id != ""
    ensures v.key.Some? && v.key.value != "" ==> id == v.key.value
  {
    Or(v.key, v.field)
  }

  /** The table a descriptor is fetched from: `variable.table || section.table`. */
  function TableOf(v: Variable, section: Section): (table: string)
    ensures table != section.table ==> v.table == Some(table) && table != ""
    ensures v.table.Some? && v.table.value != "" ==> table == v.table.value
  {
    Or(v.table, section.table)
  }

  /** The descriptor objects of a sequence. */
  function Vars(items: seq<Variable>): set<Variable> {
    set v | v in items
  }

  /** The `visualizations` descriptors of the sections with the given labels. */
  function SectionVars(mapSections: Obj<Section>, labels: seq<string>): set<Variable>
    requires forall l :: l in labels ==> l in mapSections.props
    decreases |labels|
  {
    if labels == [] then {}
    else SectionVars(mapSections, labels[..|labels| - 1])
         + Vars(mapSections.props[labels[|labels| - 1]].visualizations)
  }

  /** Every descriptor a load may write to: all map sections' and the metadata section's. */
  function AllVars(mapSections: Obj<Section>, metadata: Section): set<Variable>
    requires mapSections.Valid()
  {
    SectionVars(mapSections, mapSections.keys) + Vars(metadata.fields)
  }

  /** `SectionVars` over one more label of a prefix. */
  lemma SectionVarsStep(mapSections: Obj<Section>, labels: seq<string>, i: nat)
    requires forall l :: l in labels ==> l in mapSections.props
    requires i < |labels|
    ensures SectionVars(mapSections, labels[..i + 1])
            == SectionVars(mapSections, labels[..i]) + Vars(mapSections.props[labels[i]].visualizations)
  {
    assert labels[..i + 1][..i] == labels[..i];
  }

  /** The descriptors of one labelled section are among those of all labels. */
  lemma {:induction false} SectionVarsCover(mapSections: Obj<Section>, labels: seq<string>, j: nat)
    requires forall l :: l in labels ==> l in mapSections.props
    requires j < |labels|
    ensures Vars(mapSections.props[labels[j]].visualizations) <= SectionVars(mapSections, labels)
    decreases |labels|
  {
    if j < |labels| - 1 {
      SectionVarsCover(mapSections, labels[..|labels| - 1], j);
    }
  }

  /** Every descriptor in `vs` carries the row's value for its field. */
  ghost predicate Filled(vs: set<Variable>, row: Row)
    reads vs
  {
    forall v :: v in vs ==> v.value == row.Get(v.field)
  }
}
