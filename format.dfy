/**
 * The record formatter (`formatSoumData`, `processSection`): attaches the
 * merged row's values to the configuration's descriptors, in place, and
 * indexes the descriptors by key, one object per section.
 */
module Format {
  import opened Wrappers
  import opened JsObject
  import opened Schema

  /** The assignments `results[variable.key || variable.field] = variable`, in order. */
  function IdEntries(items: seq<Variable>): seq<(string, Variable)> {
    seq(|items|, i requires 0 <= i < |items| => (Id(items[i]), items[i]))
  }

  /** The object `processSection` returns for a container's descriptors. */
  function Keyed(items: seq<Variable>): (r: Obj<Variable>)
    ensures r.Valid()
  {
    PutEach(Empty(), IdEntries(items))
  }

  /** The per-section assignments `soum[label] = ...`, in label order. */
  function SectionEntries(mapSections: Obj<Section>): seq<(string, Obj<Variable>)>
    requires mapSections.Valid()
  {
    seq(|mapSections.keys|, i requires 0 <= i < |mapSections.keys| =>
      (mapSections.keys[i], Keyed(mapSections.props[mapSections.keys[i]].visualizations)))
  }

  /** The record `formatSoumData` returns: every section, then `metadata`. */
  function Formatted(mapSections: Obj<Section>, metadata: Section): (r: Obj<Obj<Variable>>)
    requires mapSections.Valid()
    ensures r.Valid()
  {
    PutEach(Empty(), SectionEntries(mapSections) + [("metadata", Keyed(metadata.fields))])
  }

  // ---------------------------------------------------------------------
  // The two methods of the source
  // ---------------------------------------------------------------------

  /**
   * `processSection(soumRow, section, container)`: writes the row's value
   * into every descriptor of the container and returns them keyed by id.
   */
  method ProcessSection(soumRow: Row, section: Section, container: Container) returns (results: Obj<Variable>)
    modifies Vars(section.Items(container))
    ensures results == Keyed(section.Items(container))
    ensures forall v :: v in section.Items(container) ==> v.value == soumRow.Get(v.field)
  {
    var items := section.Items(container);
    ghost var entries := IdEntries(items);
    results := Empty();
    for i := 0 to |items|
      invariant results == PutEach(Empty(), entries[..i])
      invariant forall j :: 0 <= j < i ==> items[j].value == soumRow.Get(items[j].field)
    {
      var variable := items[i];
      label Before:
      variable.value := soumRow.Get(variable.field);
      forall j | 0 <= j < i + 1
        ensures items[j].value == soumRow.Get(items[j].field)
      {
        if items[j] != variable {
          assert items[j].value == old@Before(items[j].value);
        }
      }
      var id := Or(variable.key, variable.field);
      ghost var before := results;
      results := results.Put(id, variable);
      KeyedStep(items, i, before, results);
    }
    assert entries[..|items|] == entries;
  }

  /** `formatSoumData(soumRow, mapSections)`, with the metadata section as a parameter. */
  method FormatSoumData(soumRow: Row, mapSections: Obj<Section>, metadata: Section) returns (soum: Obj<Obj<Variable>>)
    requires mapSections.Valid()
    modifies AllVars(mapSections, metadata)
    ensures soum == Formatted(mapSections, metadata)
    ensures Filled(AllVars(mapSections, metadata), soumRow)
  {
    var labels := mapSections.keys;
    ghost var entries := SectionEntries(mapSections);
    ghost var done: set<Variable> := {};
    soum := Empty();
    for i := 0 to |labels|
      invariant soum == PutEach(Empty(), entries[..i])
      invariant done == SectionVars(mapSections, labels[..i])
      invariant Filled(done, soumRow)
    {
      var sectionLabel := labels[i];
      ghost var items := mapSections.props[sectionLabel].visualizations;
      SectionVarsCover(mapSections, labels, i);
      label Before:
      var results := ProcessSection(soumRow, mapSections.props[sectionLabel], Visualizations);
      forall v | v in done + Vars(items)
        ensures v.value == soumRow.Get(v.field)
      {
        if v !in Vars(items) {
          assert v.value == old@Before(v.value);
        }
      }
      soum := soum.Put(sectionLabel, results);
      PutEachStep(Empty(), entries, i);
      done := done + Vars(items);
      SectionVarsStep(mapSections, labels, i);
    }
    assert labels[..|labels|] == labels;
    assert entries[..|labels|] == entries;
    label Metadata:
    var metadataResults := ProcessSection(soumRow, metadata, Fields);
    forall v | v in done + Vars(metadata.fields)
      ensures v.value == soumRow.Get(v.field)
    {
      if v !in Vars(metadata.fields) {
        assert v.value == old@Metadata(v.value);
      }
    }
    soum := soum.Put("metadata", metadataResults);
    assert (entries + [("metadata", metadataResults)])[..|entries|] == entries;
  }

  lemma KeyedStep(items: seq<Variable>, i: nat, before: Obj<Variable>, after: Obj<Variable>)
    requires i < |items|
    requires before == PutEach(Empty(), IdEntries(items)[..i])
    requires after == before.Put(Id(items[i]), items[i])
    ensures after == PutEach(Empty(), IdEntries(items)[..i + 1])
  {
    PutEachStep(Empty(), IdEntries(items), i);
  }

  // ---------------------------------------------------------------------
  // Properties of the formatted record
  // ---------------------------------------------------------------------

  lemma IdEntriesKeys(items: seq<Variable>, id: string)
    ensures id in KeysOf(IdEntries(items)) <==> exists v :: v in items && Id(v) == id
  {
    var ks := KeysOf(IdEntries(items));
    if id in ks {
      var i :| 0 <= i < |ks| && ks[i] == id;
      assert items[i] in items;
    }
    if exists v :: v in items && Id(v) == id {
      var v :| v in items && Id(v) == id;
      var i :| 0 <= i < |items| && items[i] == v;
      assert ks[i] == id;
    }
  }

  /** A section's key set is exactly the ids `key || field` of its descriptors. */
  lemma KeyedKeys(items: seq<Variable>, id: string)
    ensures id in Keyed(items).props <==> exists v :: v in items && Id(v) == id
  {
    PutEachKeys(Empty(), IdEntries(items));
    IdEntriesKeys(items, id);
  }

  /** Every stored entry is one of the container's descriptor objects, under its own id. */
  lemma KeyedEntries(items: seq<Variable>, id: string)
    requires id in Keyed(items).props
    ensures Keyed(items).props[id] in items && Id(Keyed(items).props[id]) == id
  {
    PutEachFrom(Empty(), IdEntries(items), id);
    var i :| 0 <= i < |items| && IdEntries(items)[i] == (id, Keyed(items).props[id]);
  }

  /** When ids coincide, the last descriptor with that id is the one stored. */
  lemma KeyedLastWins(items: seq<Variable>, i: nat)
    requires i < |items|
    requires forall j :: i < j < |items| ==> Id(items[j]) != Id(items[i])
    ensures Id(items[i]) in Keyed(items).props
    ensures Keyed(items).props[Id(items[i])] == items[i]
  {
    PutEachLastWins(Empty(), IdEntries(items), i);
  }

  /** A section's keys are enumerated in order of first declaration. */
  lemma KeyedOrder(items: seq<Variable>)
    ensures Keyed(items).keys == Dedup(KeysOf(IdEntries(items)))
  {
    PutEachOrder(Empty(), IdEntries(items));
    assert Empty<Variable>().keys + KeysOf(IdEntries(items)) == KeysOf(IdEntries(items));
  }

  /** The labels `formatSoumData` assigns, in order. */
  lemma FormattedLabels(mapSections: Obj<Section>, metadata: Section)
    requires mapSections.Valid()
    ensures KeysOf(SectionEntries(mapSections) + [("metadata", Keyed(metadata.fields))]) == mapSections.keys + ["metadata"]
  {
  }

  /** The record's keys are exactly the section labels plus `metadata`. */
  lemma FormattedKeys(mapSections: Obj<Section>, metadata: Section)
    requires mapSections.Valid()
    ensures forall l :: l in Formatted(mapSections, metadata).props <==> l in mapSections.props || l == "metadata"
  {
    FormattedLabels(mapSections, metadata);
    PutEachKeys(Empty(), SectionEntries(mapSections) + [("metadata", Keyed(metadata.fields))]);
  }

  /** Sections are enumerated in label order, `metadata` at the end unless a section already has that label. */
  lemma FormattedOrder(mapSections: Obj<Section>, metadata: Section)
    requires mapSections.Valid()
    ensures Formatted(mapSections, metadata).keys
            == if "metadata" in mapSections.props then mapSections.keys else mapSections.keys + ["metadata"]
  {
    var entries := SectionEntries(mapSections) + [("metadata", Keyed(metadata.fields))];
    FormattedLabels(mapSections, metadata);
    PutEachOrder(Empty(), entries);
    assert Empty<Obj<Variable>>().keys + KeysOf(entries) == mapSections.keys + ["metadata"];
    DedupSnoc(mapSections.keys, "metadata");
    DedupOfDistinct(mapSections.keys);
  }

  /** `metadata` is written last, so it is the metadata section even when a map section has that label. */
  lemma FormattedMetadata(mapSections: Obj<Section>, metadata: Section)
    requires mapSections.Valid()
    ensures "metadata" in Formatted(mapSections, metadata).props
    ensures Formatted(mapSections, metadata).props["metadata"] == Keyed(metadata.fields)
  {
    var entries := SectionEntries(mapSections) + [("metadata", Keyed(metadata.fields))];
    PutEachLastWins(Empty(), entries, |entries| - 1);
  }

  /** Every other label holds its own section's keyed descriptors. */
  lemma FormattedSection(mapSections: Obj<Section>, metadata: Section, l: string)
    requires mapSections.Valid()
    requires l in mapSections.props && l != "metadata"
    ensures l in Formatted(mapSections, metadata).props
    ensures Formatted(mapSections, metadata).props[l] == Keyed(mapSections.props[l].visualizations)
  {
    var entries := SectionEntries(mapSections) + [("metadata", Keyed(metadata.fields))];
    var i :| 0 <= i < |mapSections.keys| && mapSections.keys[i] == l;
    assert entries[i] == (l, Keyed(mapSections.props[l].visualizations));
    PutEachLastWins(Empty(), entries, i);
  }
}
