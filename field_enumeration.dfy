/**
 * The field enumerator (`getAllFields`, `loadSectionFields`): walks the
 * configuration and collects, per effective table, the fields to fetch.
 */
module FieldEnumeration {
  import opened JsObject
  import opened Schema

  /** `{table: [field, ...]}` */
  type FieldMap = Obj<seq<string>>

  /** The (effective table, field) of each descriptor of a section's container, in order. */
  function Routes(section: Section, container: Container): seq<(string, string)> {
    var items := section.Items(container);
    seq(|items|, i requires 0 <= i < |items| => (TableOf(items[i], section), items[i].field))
  }

  /** The routes of the labelled sections' `visualizations`, label after label. */
  function SectionsRoutes(mapSections: Obj<Section>, labels: seq<string>): seq<(string, string)>
    requires forall l :: l in labels ==> l in mapSections.props
    decreases |labels|
  {
    if labels == [] then []
    else SectionsRoutes(mapSections, labels[..|labels| - 1])
         + Routes(mapSections.props[labels[|labels| - 1]], Visualizations)
  }

  /** Visiting order of `getAllFields`: the map sections in label order, the metadata `fields` last. */
  function AllRoutes(mapSections: Obj<Section>, metadata: Section): seq<(string, string)>
    requires mapSections.Valid()
  {
    SectionsRoutes(mapSections, mapSections.keys) + Routes(metadata, Fields)
  }

  /** One visit: the table's list is created empty on first use and the field is appended to it. */
  function AddField(fields: FieldMap, table: string, field: string): (r: FieldMap)
    requires fields.Valid()
    ensures r.Valid()
  {
    fields.Put(table, if table in fields.props then fields.props[table] + [field] else [field])
  }

  /** The field map after visiting `routes` in order. */
  function Grouped(fields: FieldMap, routes: seq<(string, string)>): (r: FieldMap)
    requires fields.Valid()
    ensures r.Valid()
    decreases |routes|
  {
    if routes == [] then fields
    else
      var last := routes[|routes| - 1];
      AddField(Grouped(fields, routes[..|routes| - 1]), last.0, last.1)
  }

  /** What `getAllFields` returns. */
  function AllFields(mapSections: Obj<Section>, metadata: Section): (r: FieldMap)
    requires mapSections.Valid()
    ensures r.Valid()
  {
    Grouped(Empty(), AllRoutes(mapSections, metadata))
  }

  /** The tables of a run of routes, in order. */
  function TablesOf(routes: seq<(string, string)>): seq<string> {
    seq(|routes|, i requires 0 <= i < |routes| => routes[i].0)
  }

  /** The fields routed to `table`, in visiting order, repetitions kept. */
  function FieldsFor(routes: seq<(string, string)>, table: string): seq<string>
    decreases |routes|
  {
    if routes == [] then []
    else
      var last := routes[|routes| - 1];
      FieldsFor(routes[..|routes| - 1], table) + (if last.0 == table then [last.1] else [])
  }

  /** The number of field entries over all tables. */
  function TotalLength(fields: FieldMap): nat
    requires fields.Valid()
  {
    SumLengths(fields.keys, fields.props)
  }

  function SumLengths(keys: seq<string>, props: map<string, seq<string>>): nat
    requires forall k :: k in keys ==> k in props
    decreases |keys|
  {
    if keys == [] then 0
    else SumLengths(keys[..|keys| - 1], props) + |props[keys[|keys| - 1]]|
  }

  // ---------------------------------------------------------------------
  // The two methods of the source
  // ---------------------------------------------------------------------

  /** `loadSectionFields(fields, section, container)`: appends the section's routes to `fields`. */
  method LoadSectionFields(fields: FieldMap, section: Section, container: Container) returns (r: FieldMap)
    requires fields.Valid()
    ensures r == Grouped(fields, Routes(section, container))
  {
    r := fields;
    var items := section.Items(container);
    ghost var routes := Routes(section, container);
    for i := 0 to |items|
      invariant r == Grouped(fields, routes[..i])
    {
      var variable := items[i];
      var table := Or(variable.table, section.table);
      ghost var before := r;
      if table !in r.props {
        r := r.Put(table, []);
      }
      r := r.Put(table, r.props[table] + [variable.field]);
      CreateThenPush(before, table, variable.field);
      assert routes[i] == (table, variable.field);
      GroupedStep(fields, routes, i);
    }
    assert routes[..|items|] == routes;
  }

  /** `getAllFields(mapSections)`, with the metadata section as a parameter. */
  method GetAllFields(mapSections: Obj<Section>, metadata: Section) returns (fields: FieldMap)
    requires mapSections.Valid()
    ensures fields == AllFields(mapSections, metadata)
  {
    fields := Empty();
    var labels := mapSections.keys;
    for i := 0 to |labels|
      invariant fields == Grouped(Empty(), SectionsRoutes(mapSections, labels[..i]))
    {
      var sectionLabel := labels[i];
      ghost var before := SectionsRoutes(mapSections, labels[..i]);
      fields := LoadSectionFields(fields, mapSections.props[sectionLabel], Visualizations);
      GroupedAppend(Empty(), before, Routes(mapSections.props[sectionLabel], Visualizations));
      assert labels[..i + 1][..i] == labels[..i];
    }
    assert labels[..|labels|] == labels;
    ghost var before := SectionsRoutes(mapSections, labels);
    fields := LoadSectionFields(fields, metadata, Fields);
    GroupedAppend(Empty(), before, Routes(metadata, Fields));
  }

  // ---------------------------------------------------------------------
  // Properties of the field map
  // ---------------------------------------------------------------------

  /** Creating a missing list and then pushing onto it is one visit. */
  lemma CreateThenPush(fields: FieldMap, table: string, field: string)
    requires fields.Valid()
    ensures var created := if table in fields.props then fields else fields.Put(table, []);
            created.Put(table, created.props[table] + [field]) == AddField(fields, table, field)
  {
    if table !in fields.props {
      assert [] + [field] == [field];
    }
  }

  lemma GroupedStep(fields: FieldMap, routes: seq<(string, string)>, i: nat)
    requires fields.Valid()
    requires i < |routes|
    ensures Grouped(fields, routes[..i + 1]) == AddField(Grouped(fields, routes[..i]), routes[i].0, routes[i].1)
  {
    assert routes[..i + 1][..i] == routes[..i];
  }

  /** Visiting two runs of routes one after the other is visiting their concatenation. */
  lemma {:induction false} GroupedAppend(fields: FieldMap, a: seq<(string, string)>, b: seq<(string, string)>)
    requires fields.Valid()
    ensures Grouped(Grouped(fields, a), b) == Grouped(fields, a + b)
    decreases |b|
  {
    if b == [] {
      assert a + b == a;
    } else {
      var n := |b| - 1;
      var (t, f) := b[n];
      GroupedAppend(fields, a, b[..n]);
      assert b == b[..n] + [(t, f)];
      AppendAssoc(a, b[..n], [(t, f)]);
      RoutesSnoc(fields, a + b[..n], t, f, t);
      RoutesSnoc(Grouped(fields, a), b[..n], t, f, t);
    }
  }

  lemma {:induction false} TablesOfConcat(a: seq<(string, string)>, b: seq<(string, string)>)
    ensures TablesOf(a + b) == TablesOf(a) + TablesOf(b)
  {
  }

  /** The fields routed to a table split over a concatenation of routes. */
  lemma {:induction false} FieldsForConcat(a: seq<(string, string)>, b: seq<(string, string)>, table: string)
    ensures FieldsFor(a + b, table) == FieldsFor(a, table) + FieldsFor(b, table)
    decreases |b|
  {
    if b == [] {
      assert a + b == a;
    } else {
      var n := |b| - 1;
      FieldsForConcat(a, b[..n], table);
      assert (a + b)[..|a + b| - 1] == a + b[..n];
    }
  }

  /**
   * A table is a key exactly when some route goes to it, and its list is
   * what it had plus every field routed to it, in order.
   */
  lemma {:induction false} GroupedLists(fields: FieldMap, routes: seq<(string, string)>, table: string)
    requires fields.Valid()
    ensures table in Grouped(fields, routes).props <==> table in fields.props || table in TablesOf(routes)
    ensures table in Grouped(fields, routes).props ==>
              Grouped(fields, routes).props[table]
              == (if table in fields.props then fields.props[table] else []) + FieldsFor(routes, table)
    decreases |routes|
  {
    if routes != [] {
      var n := |routes| - 1;
      GroupedLists(fields, routes[..n], table);
      assert routes == routes[..n] + [routes[n]];
      GroupedListsStep(fields, routes[..n], routes[n].0, routes[n].1, table);
    }
  }

  /** The step of `GroupedLists`: one more visit keeps the table's list in the stated form. */
  lemma GroupedListsStep(fields: FieldMap, p: seq<(string, string)>, t: string, f: string, table: string)
    requires fields.Valid()
    requires table in Grouped(fields, p).props <==> table in fields.props || table in TablesOf(p)
    requires table in Grouped(fields, p).props ==>
               Grouped(fields, p).props[table]
               == (if table in fields.props then fields.props[table] else []) + FieldsFor(p, table)
    ensures table in Grouped(fields, p + [(t, f)]).props
            <==> table in fields.props || table in TablesOf(p + [(t, f)])
    ensures table in Grouped(fields, p + [(t, f)]).props ==>
              Grouped(fields, p + [(t, f)]).props[table]
              == (if table in fields.props then fields.props[table] else []) + FieldsFor(p + [(t, f)], table)
  {
    var before := Grouped(fields, p);
    var prior := if table in fields.props then fields.props[table] else [];
    RoutesSnoc(fields, p, t, f, table);
    if table !in before.props {
      FieldsForAbsent(p, table);
    }
    AddFieldAppends(before, t, f, table, prior, FieldsFor(p, table));
  }

  /** One visit appends to the visited table's list and leaves the other lists alone. */
  lemma AddFieldAppends(before: FieldMap, t: string, f: string, table: string, prior: seq<string>, routed: seq<string>)
    requires before.Valid()
    requires table in before.props ==> before.props[table] == prior + routed
    requires table !in before.props ==> prior + routed == []
    ensures table in AddField(before, t, f).props <==> table in before.props || table == t
    ensures table in AddField(before, t, f).props ==>
              AddField(before, t, f).props[table] == prior + (routed + if t == table then [f] else [])
  {
    AddFieldAt(before, t, f, table);
    if t == table && table in before.props {
      assert (prior + routed) + [f] == prior + (routed + [f]);
    } else if t == table {
      assert prior + (routed + [f]) == (prior + routed) + [f];
    } else {
      assert routed + [] == routed;
    }
  }

  /** Unfolding `Grouped`, `TablesOf` and `FieldsFor` at one more route. */
  lemma RoutesSnoc(fields: FieldMap, p: seq<(string, string)>, t: string, f: string, table: string)
    requires fields.Valid()
    ensures Grouped(fields, p + [(t, f)]) == AddField(Grouped(fields, p), t, f)
    ensures TablesOf(p + [(t, f)]) == TablesOf(p) + [t]
    ensures FieldsFor(p + [(t, f)], table) == FieldsFor(p, table) + (if t == table then [f] else [])
  {
    assert (p + [(t, f)])[..|p|] == p;
  }

  /** What one visit does to the order of the tables. */
  lemma AddFieldShape(fields: FieldMap, t: string, f: string)
    requires fields.Valid()
    ensures AddField(fields, t, f).keys == if t in fields.props then fields.keys else fields.keys + [t]
  {
  }

  /** What one visit does to the list of one table. */
  lemma AddFieldAt(fields: FieldMap, t: string, f: string, u: string)
    requires fields.Valid()
    ensures u in AddField(fields, t, f).props <==> u == t || u in fields.props
    ensures u in AddField(fields, t, f).props ==>
              AddField(fields, t, f).props[u]
              == if u != t then fields.props[u] else (if t in fields.props then fields.props[t] else []) + [f]
  {
  }

  /** Tables are enumerated in order of their first route. */
  lemma {:induction false} GroupedOrder(fields: FieldMap, routes: seq<(string, string)>)
    requires fields.Valid()
    ensures Grouped(fields, routes).keys == Dedup(fields.keys + TablesOf(routes))
    decreases |routes|
  {
    if routes == [] {
      assert fields.keys + TablesOf(routes) == fields.keys;
      DedupOfDistinct(fields.keys);
    } else {
      var n := |routes| - 1;
      GroupedOrder(fields, routes[..n]);
      assert routes == routes[..n] + [routes[n]];
      GroupedOrderStep(fields, routes[..n], routes[n].0, routes[n].1);
    }
  }

  /** The step of `GroupedOrder`. */
  lemma GroupedOrderStep(fields: FieldMap, p: seq<(string, string)>, t: string, f: string)
    requires fields.Valid()
    requires Grouped(fields, p).keys == Dedup(fields.keys + TablesOf(p))
    ensures Grouped(fields, p + [(t, f)]).keys == Dedup(fields.keys + TablesOf(p + [(t, f)]))
  {
    var s := fields.keys + TablesOf(p);
    GroupedLists(fields, p, t);
    RoutesSnoc(fields, p, t, f, t);
    AppendAssoc(fields.keys, TablesOf(p), [t]);
    AddFieldOrder(Grouped(fields, p), t, f, s);
  }

  /** A visit to a table not yet present appends it to the enumeration order. */
  lemma AddFieldOrder(before: FieldMap, t: string, f: string, s: seq<string>)
    requires before.Valid()
    requires before.keys == Dedup(s)
    requires t in before.props <==> t in s
    ensures AddField(before, t, f).keys == Dedup(s + [t])
  {
    AddFieldShape(before, t, f);
    DedupSnoc(s, t);
  }

  lemma {:induction false} SumLengthsAgree(keys: seq<string>, p: map<string, seq<string>>, q: map<string, seq<string>>)
    requires forall k :: k in keys ==> k in p && k in q && |p[k]| == |q[k]|
    ensures SumLengths(keys, p) == SumLengths(keys, q)
    decreases |keys|
  {
    if keys != [] {
      SumLengthsAgree(keys[..|keys| - 1], p, q);
    }
  }

  lemma {:induction false} SumLengthsUpdate(keys: seq<string>, p: map<string, seq<string>>, t: string, l: seq<string>)
    requires Distinct(keys)
    requires forall k :: k in keys ==> k in p
    requires t in keys
    ensures SumLengths(keys, p[t := l]) + |p[t]| == SumLengths(keys, p) + |l|
    decreases |keys|
  {
    var n := |keys| - 1;
    var prefix := keys[..n];
    assert Distinct(prefix);
    if keys[n] == t {
      assert t !in prefix;
      SumLengthsAgree(prefix, p[t := l], p);
    } else {
      assert t in prefix;
      SumLengthsUpdate(prefix, p, t, l);
    }
  }

  /** Each visited descriptor adds exactly one entry to the field map. */
  lemma {:induction false} AddFieldTotal(fields: FieldMap, table: string, field: string)
    requires fields.Valid()
    ensures TotalLength(AddField(fields, table, field)) == TotalLength(fields) + 1
  {
    var r := AddField(fields, table, field);
    if table in fields.props {
      SumLengthsUpdate(fields.keys, fields.props, table, fields.props[table] + [field]);
    } else {
      assert r.keys == fields.keys + [table];
      assert r.keys[..|r.keys| - 1] == fields.keys;
      SumLengthsAgree(fields.keys, r.props, fields.props);
    }
  }

  lemma {:induction false} GroupedTotal(fields: FieldMap, routes: seq<(string, string)>)
    requires fields.Valid()
    ensures TotalLength(Grouped(fields, routes)) == TotalLength(fields) + |routes|
    decreases |routes|
  {
    if routes != [] {
      var n := |routes| - 1;
      GroupedTotal(fields, routes[..n]);
      AddFieldTotal(Grouped(fields, routes[..n]), routes[n].0, routes[n].1);
    }
  }

  /** Some descriptor of the section's container goes to `table`. */
  ghost predicate RoutesTo(section: Section, container: Container, table: string) {
    exists v :: v in section.Items(container) && TableOf(v, section) == table
  }

  lemma SectionTables(section: Section, container: Container, table: string)
    ensures table in TablesOf(Routes(section, container)) <==> RoutesTo(section, container, table)
  {
    var items := section.Items(container);
    var ts := TablesOf(Routes(section, container));
    if table in ts {
      var i :| 0 <= i < |ts| && ts[i] == table;
      assert items[i] in items && TableOf(items[i], section) == table;
    }
    if RoutesTo(section, container, table) {
      var v :| v in items && TableOf(v, section) == table;
      var i :| 0 <= i < |items| && items[i] == v;
      assert ts[i] == table;
    }
  }

  lemma {:induction false} SectionsTables(mapSections: Obj<Section>, labels: seq<string>, table: string)
    requires forall l :: l in labels ==> l in mapSections.props
    ensures table in TablesOf(SectionsRoutes(mapSections, labels))
            <==> exists l :: l in labels && RoutesTo(mapSections.props[l], Visualizations, table)
    decreases |labels|
  {
    if labels != [] {
      var n := |labels| - 1;
      var last := mapSections.props[labels[n]];
      SectionsTables(mapSections, labels[..n], table);
      TablesOfConcat(SectionsRoutes(mapSections, labels[..n]), Routes(last, Visualizations));
      SectionTables(last, Visualizations, table);
      assert forall l :: l in labels <==> l in labels[..n] || l == labels[n];
    }
  }

  /** The number of `visualizations` descriptors over the labelled sections. */
  function VariableCount(mapSections: Obj<Section>, labels: seq<string>): nat
    requires forall l :: l in labels ==> l in mapSections.props
    decreases |labels|
  {
    if labels == [] then 0
    else VariableCount(mapSections, labels[..|labels| - 1])
         + |mapSections.props[labels[|labels| - 1]].visualizations|
  }

  lemma {:induction false} SectionsRoutesLength(mapSections: Obj<Section>, labels: seq<string>)
    requires forall l :: l in labels ==> l in mapSections.props
    ensures |SectionsRoutes(mapSections, labels)| == VariableCount(mapSections, labels)
    decreases |labels|
  {
    if labels != [] {
      SectionsRoutesLength(mapSections, labels[..|labels| - 1]);
    }
  }

  /**
   * The key set of `getAllFields` is exactly the set of effective tables of
   * the map sections' `visualizations` and the metadata `fields`.
   */
  lemma AllFieldsTables(mapSections: Obj<Section>, metadata: Section, table: string)
    requires mapSections.Valid()
    ensures table in AllFields(mapSections, metadata).props
            <==> (exists l :: l in mapSections.props && RoutesTo(mapSections.props[l], Visualizations, table))
                 || RoutesTo(metadata, Fields, table)
  {
    GroupedLists(Empty(), AllRoutes(mapSections, metadata), table);
    TablesOfConcat(SectionsRoutes(mapSections, mapSections.keys), Routes(metadata, Fields));
    SectionsTables(mapSections, mapSections.keys, table);
    SectionTables(metadata, Fields, table);
  }

  /**
   * Each table's list is the fields routed to it, map sections first and
   * metadata last, repetitions kept; no list is empty; tables are enumerated
   * in order of first use.
   */
  lemma AllFieldsLists(mapSections: Obj<Section>, metadata: Section, table: string)
    requires mapSections.Valid()
    requires table in AllFields(mapSections, metadata).props
    ensures AllFields(mapSections, metadata).props[table]
            == FieldsFor(SectionsRoutes(mapSections, mapSections.keys), table) + FieldsFor(Routes(metadata, Fields), table)
    ensures AllFields(mapSections, metadata).props[table] != []
  {
    var routes := AllRoutes(mapSections, metadata);
    GroupedLists(Empty(), routes, table);
    FieldsForConcat(SectionsRoutes(mapSections, mapSections.keys), Routes(metadata, Fields), table);
    FieldsForNonEmpty(routes, table);
  }

  lemma {:induction false} FieldsForAbsent(routes: seq<(string, string)>, table: string)
    requires table !in TablesOf(routes)
    ensures FieldsFor(routes, table) == []
    decreases |routes|
  {
    if routes != [] {
      var n := |routes| - 1;
      assert TablesOf(routes) == TablesOf(routes[..n]) + [routes[n].0];
      FieldsForAbsent(routes[..n], table);
    }
  }

  lemma {:induction false} FieldsForNonEmpty(routes: seq<(string, string)>, table: string)
    requires table in TablesOf(routes)
    ensures FieldsFor(routes, table) != []
    decreases |routes|
  {
    var n := |routes| - 1;
    if routes[n].0 != table {
      assert TablesOf(routes) == TablesOf(routes[..n]) + [routes[n].0];
      FieldsForNonEmpty(routes[..n], table);
    }
  }

  /** Tables are enumerated in order of first use. */
  lemma AllFieldsOrder(mapSections: Obj<Section>, metadata: Section)
    requires mapSections.Valid()
    ensures AllFields(mapSections, metadata).keys == Dedup(TablesOf(AllRoutes(mapSections, metadata)))
  {
    GroupedOrder(Empty(), AllRoutes(mapSections, metadata));
    assert Empty<seq<string>>().keys + TablesOf(AllRoutes(mapSections, metadata)) == TablesOf(AllRoutes(mapSections, metadata));
  }

  /** The field map holds exactly one entry per visited descriptor. */
  lemma AllFieldsTotal(mapSections: Obj<Section>, metadata: Section)
    requires mapSections.Valid()
    ensures TotalLength(AllFields(mapSections, metadata))
            == VariableCount(mapSections, mapSections.keys) + |metadata.fields|
  {
    GroupedTotal(Empty(), AllRoutes(mapSections, metadata));
    SectionsRoutesLength(mapSections, mapSections.keys);
  }
}
