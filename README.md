# Soum data service, modelled in Dafny

The soum data service is the browser-side data layer of a dashboard of
Mongolian soum (district) statistics. `load(soumId, mapSections)` works in
four steps:

1. It walks a declarative page configuration and builds a `table -> [field]`
   map (`getAllFields` / `loadSectionFields`).
2. It issues one CartoDB `SELECT` per table (`loadSoumData`).
3. It folds the first row of each response into one flat row
   (`mergeResponses`).
4. It writes each value into its field descriptor and keys the descriptors
   by section label (`formatSoumData` / `processSection`).

`compare` locates the target soum's row among all soums and averages
each requested column over all rows ("country") and over the rows the
database flagged as neighbours ("cluster"). That local part is
`_parseCompare`.

The project models this pipeline in the code's own imperative form:

| file | module | what it holds |
|---|---|---|
| `wrappers.dfy` | `Wrappers` | `Option` and `Result` |
| `js_object.dfy` | `JsObject` | A JavaScript plain object as `Obj<V>`: the key sequence in `Object.keys` insertion order plus a property map. `o[k] = v` is `Put`; a run of assignments is `PutEach`, with its laws. |
| `schema.dfy` | `Schema` | Row values, responses, the configuration sections, and the field descriptor. The descriptor is a `class`, because `processSection` writes its `value` in place. |
| `field_enumeration.dfy` | `FieldEnumeration` | `getAllFields` / `loadSectionFields` as methods, proved equal to the fold `Grouped` over the visited descriptors. Also the key-set, list, order and count properties of the field map. |
| `queries.dfy` | `QueryDispatch` | The query strings of `loadSoumData` and the all-or-nothing fetch of `$q.all`. |
| `merge.dfy` | `Merge` | `mergeResponses` as a nested loop, proved equal to `Merged`. Also the key set, last-write-wins and order of `Merged`. |
| `format.dfy` | `Format` | `processSection` / `formatSoumData` as methods that write the descriptors and return `Keyed`/`Formatted`. Also the key set, last-wins, aliasing and `metadata` precedence lemmas. |
| `compare.dfy` | `Compare` | `_parseCompare`: `_.find`, `_.filter` and the column sums as functions; the per-column loop as a method. |
| `soum_data.dfy` | `SoumData` | `load` as the composition of the above. |

The HTTP endpoint is a parameter `server: string -> Result<Response, string>`
that maps a query to its response or its rejection. `NationalConfig.metadata`
is the parameter `metadata`.

Points where the code's behaviour is easy to misread:

- The effective table and key use JavaScript `||`, so an empty `table` or
  `key` string falls through to the default, the same as an absent one
  (`Schema.Or`).
- The formatted record does not always mirror the configuration's declared
  keys. Descriptors whose `key || field` coincide collapse to the last one
  (`Format.KeyedLastWins`). A map section labelled `metadata` is replaced by
  the metadata section (`Format.FormattedMetadata`).
- The comparison also carries `soum`, the first matching row.
- The query is interpolated into the URL without explicit encoding.

## Model

| member | source | states |
|---|---|---|
| FieldEnumeration.LoadSectionFields | src/app/services/soum-data.service.js:130-138 | The returned map is the given accumulator after visiting the container's descriptors in order. Each visit creates the table's list on first use and appends the field. |
| Schema.Or | src/app/services/soum-data.service.js:113 | JavaScript `a \|\| b` on an optional string is one of its operands. A non-empty `a` wins. The result is empty only when `a` is absent or empty and `b` is empty, so an empty `a` falls through like an absent one. |
| Schema.TableOf | src/app/services/soum-data.service.js:132 | A descriptor's table differs from the section's table only when the descriptor names a non-empty table of its own, and such a table is always the one used. |
| Schema.Id | src/app/services/soum-data.service.js:113 | A descriptor's id differs from its `field` only when it has a non-empty `key`, and such a key is always the id. |
| FieldEnumeration.GetAllFields | src/app/services/soum-data.service.js:119-128 | The map is the fold over every map section's `visualizations` in label order, then the metadata `fields`, starting from `{}`. |
| FieldEnumeration.CreateThenPush | src/app/services/soum-data.service.js:133-136 | Creating a missing list and then pushing the field is one visit: the table's list gains the field at its end. |
| FieldEnumeration.AddFieldAt | src/app/services/soum-data.service.js:132-136 | One visit makes the table a key, appends the field to its list, and leaves every other table's list alone. |
| FieldEnumeration.GroupedAppend | src/app/services/soum-data.service.js:122-126 | Passing the same accumulator to successive `loadSectionFields` calls is the same as visiting the concatenated descriptors once. |
| FieldEnumeration.GroupedLists | src/app/services/soum-data.service.js:130-138 | A table is a key after the visits iff it was already a key or some visited descriptor routes to it. Its list is the old list followed by the routed fields in visit order, duplicates kept. |
| FieldEnumeration.GroupedOrder | src/app/services/soum-data.service.js:133-135 | Tables become keys in order of first use; later uses reuse the existing list. |
| FieldEnumeration.AddFieldTotal | src/app/services/soum-data.service.js:133-136 | Each visited descriptor adds exactly one list entry over all tables. |
| FieldEnumeration.GroupedTotal | src/app/services/soum-data.service.js:130-138 | The number of list entries grows by exactly the number of descriptors visited. |
| FieldEnumeration.SectionTables | src/app/services/soum-data.service.js:131-132 | A table occurs among a section's routes iff some descriptor's `table \|\| section.table` is that table. |
| FieldEnumeration.SectionsTables | src/app/services/soum-data.service.js:123-125 | A table occurs among the map sections' routes iff some labelled section routes a `visualizations` descriptor to it. |
| FieldEnumeration.AllFieldsTables | src/app/services/soum-data.service.js:119-138 | The field map's key set is exactly the effective tables of all map sections' `visualizations` plus those of the metadata `fields`. |
| FieldEnumeration.AllFieldsLists | src/app/services/soum-data.service.js:122-137 | Each table's list is the fields routed to it from the map sections in label-then-descriptor order, followed by those from the metadata section. No list is empty. |
| FieldEnumeration.AllFieldsOrder | src/app/services/soum-data.service.js:119-138 | The tables are keyed in order of first use over the whole visit: map sections first, metadata last. |
| FieldEnumeration.AllFieldsTotal | src/app/services/soum-data.service.js:122-137 | The total number of list entries equals the number of descriptors visited: all `visualizations` plus the metadata `fields`. |
| QueryDispatch.SplitJoin | src/app/services/soum-data.service.js:148 | The select list `${fields}` (an array rendered comma-joined) splits back into exactly the fields when no field contains a comma. |
| QueryDispatch.Join | src/app/services/soum-data.service.js:148 | An array rendered in a template literal: empty gives `""`, one element gives itself. Otherwise the length is the parts' total plus one comma per gap, the text starts with the first part, and a separator follows it. |
| QueryDispatch.Query | src/app/services/soum-data.service.js:148 | A table's query starts with `SELECT ` and ends with ` FROM <table> WHERE soumcode = <id>`, with the id spliced in verbatim at the very end. Between them lies exactly the length of the comma-joined fields. |
| QueryDispatch.QueryFields | src/app/services/soum-data.service.js:148 | The select list of a table's query splits back on commas into exactly that table's fields when no field contains a comma. |
| QueryDispatch.QueryPerTable | src/app/services/soum-data.service.js:146-156 | There is exactly one query per table key of the field map. |
| QueryDispatch.BuildQueries | src/app/services/soum-data.service.js:146-148 | Query `i` is `SELECT <fields joined by ','> FROM <table> WHERE soumcode = <id>` for the `i`-th table in key order. |
| QueryDispatch.FetchAll | src/app/services/soum-data.service.js:155-158 | The join succeeds iff every request succeeds. It then gives the responses in request order. Otherwise it fails with the rejection of some failing request. |
| QueryDispatch.LoadSoumData | src/app/services/soum-data.service.js:140-159 | The same all-or-nothing result over the queries built from `getAllFields` of the configuration. |
| Merge.MergeResponses | src/app/services/soum-data.service.js:80-92 | Succeeds iff every response has a first row. It then returns the fold of `result[key] = row[key]` over every first row's keys. Otherwise it fails naming the first response without a row. |
| Merge.MergedSnoc | src/app/services/soum-data.service.js:85-90 | Merging one more response assigns its row's columns on top of the row merged so far. |
| Merge.MergedKeys | src/app/services/soum-data.service.js:84-91 | A column is in the merged row iff some response's first row has it, so an empty response list gives `{}`. |
| Merge.MergedLastWins | src/app/services/soum-data.service.js:85-90 | A column's merged value is the one from the last row that has that column. |
| Merge.MergedOrder | src/app/services/soum-data.service.js:85-90 | The merged row's columns are in order of first appearance over the rows. |
| JsObject.PutEachKeys | src/app/services/soum-data.service.js:87-89 | After a run of assignments the keys are the old keys plus every assigned key. |
| JsObject.PutEachLastWins | src/app/services/soum-data.service.js:87-89 | A key holds the value of its last assignment. |
| JsObject.PutEachUntouched | src/app/services/soum-data.service.js:87-89 | A key never assigned keeps its presence and value. |
| JsObject.PutEachOrder | src/app/services/soum-data.service.js:87-89 | Keys are enumerated in order of first assignment, after the keys already present. |
| JsObject.PutEachAppend | src/app/services/soum-data.service.js:85-90 | Two runs of assignments one after the other are the run of their concatenation. |
| Format.ProcessSection | src/app/services/soum-data.service.js:106-117 | Every descriptor of the container gets `value = soumRow[field]`. Only those descriptors may change. The result stores each descriptor object under `key \|\| field`, in order. |
| Format.FormatSoumData | src/app/services/soum-data.service.js:94-104 | The record is every map section's keyed `visualizations` under its label, then `metadata`. Every descriptor reachable from the configuration carries the row's value. Only those descriptors may change. |
| Format.KeyedKeys | src/app/services/soum-data.service.js:109-116 | A section result's key set is exactly the ids `key \|\| field` of its descriptors. |
| Format.KeyedEntries | src/app/services/soum-data.service.js:113-114 | Every stored entry is one of the container's own descriptor objects, under its own id. |
| Format.KeyedLastWins | src/app/services/soum-data.service.js:113-114 | When ids coincide, the last descriptor with that id is the one stored. |
| Format.KeyedOrder | src/app/services/soum-data.service.js:110-115 | A section result's keys are in order of first declaration. |
| Format.FormattedKeys | src/app/services/soum-data.service.js:96-101 | The record's keys are exactly the section labels plus `metadata`. |
| Format.FormattedOrder | src/app/services/soum-data.service.js:96-101 | Labels come in `Object.keys` order. `metadata` comes last unless a map section already holds that label. |
| Format.FormattedMetadata | src/app/services/soum-data.service.js:101 | `metadata` is always the metadata section's keyed `fields`, even over a map section of that name. |
| Format.FormattedSection | src/app/services/soum-data.service.js:97-99 | Every other label holds its own section's keyed `visualizations`. |
| Compare.FindIndex | src/app/services/soum-data.service.js:61 | `_.find` yields the first row whose `soumcode` equals the id, or nothing when no row matches. |
| Compare.Matches | src/app/services/soum-data.service.js:61 | The matcher `{soumcode: soumId}` accepts a row iff the row has a `soumcode` column and it equals the id. |
| Compare.IsNeighbor | src/app/services/soum-data.service.js:71 | The matcher `{neighbor: true}` accepts a row iff the row has a `neighbor` column and it holds `true`. |
| Compare.ClusterRows | src/app/services/soum-data.service.js:71 | `_.filter(rows, {neighbor: true})` keeps exactly the neighbour rows, each as often as it occurs. |
| Compare.ColumnSum | src/app/services/soum-data.service.js:74-75 | The `reduce` starts from 0, so no rows give the sum 0. |
| Compare.ColumnSumSingle | src/app/services/soum-data.service.js:74-75 | A single row's sum is its own value, or NaN when that value is not a number. |
| Compare.ColumnSumAppend | src/app/services/soum-data.service.js:74-75 | The left-to-right sum over two runs of rows is the sum of the two runs' sums, and NaN when either run's sum is. |
| Compare.ColumnSumDefined | src/app/services/soum-data.service.js:70-75 | The column sum is a number iff every row's value is a number. |
| Compare.MeanOf | src/app/services/soum-data.service.js:74-75 | The quotient is NaN iff there are no rows or some value is not a number. Otherwise the mean times the count is the sum. |
| Compare.ParseCompare | src/app/services/soum-data.service.js:59-78 | `rows` is returned unchanged. `soum` is the first matching row, or absent iff none matches. `country` and `cluster` have exactly the requested columns, in first-request order. Their values are the mean over all rows and over the neighbour rows. |
| Compare.SumBounds | src/app/services/soum-data.service.js:74-75 | With numeric values between `lo` and `hi`, the sum lies between `count*lo` and `count*hi`. |
| Compare.MeanWithinBounds | src/app/services/soum-data.service.js:74-75 | A mean over at least one numeric row lies between the smallest and the largest value. |
| Compare.ClusterMember | src/app/services/soum-data.service.js:71 | A row is among the cluster rows iff it is a row and is flagged a neighbour. |
| Compare.ClusterNaN | src/app/services/soum-data.service.js:71-75 | The cluster average is NaN iff no row is a neighbour, or some neighbour's value is not a number. |
| SoumData.Load | src/app/services/soum-data.service.js:25-36 | Succeeds iff every table's query is answered with a row. The record is then the formatted configuration, and every descriptor carries the merged row's value. On failure no descriptor's `value` has changed. A rejected request makes `load` fail with that rejection's message unchanged, and a rejection always takes precedence. A missing-row failure happens only when every request was answered, and it names an answer whose `rows` is empty. |

## Left out

- `geojson` (src/app/services/soum-data.service.js:11-23) is one remote CartoDB call with no local logic.
- The SQL text and execution in `compare` (lines 38-57) are left out: the `neighbor` flag is computed by the database, so it is an input column of each row.
- URL construction and transport (lines 150-153) are left out; the model passes the query string itself to `server`.
- The asynchrony of `$http` and `$q.all` is not modelled.
- QueryDispatch.FetchAll: when several requests fail, `$q.all` rejects with whichever rejection arrives first. That depends on timing, so the model only says the error is the rejection of some failing request, and the method returns the first one in table order.
- Compare.MeanOf: JavaScript's coercions in `sum + val` are not modelled. These are `null` as 0, booleans as 0/1, and strings turning the sum into a concatenation. Any non-numeric or missing value makes the average NaN. Numbers are reals, not IEEE doubles.
- Compare.Matches: lodash's `_.find` matcher compares with deep equality; model values are scalars, so plain equality is used.
- Lodash property paths are not modelled: `_.map(rows, column)` treats a dotted column name as a path, and the model reads the column by its literal name.
- `Object.keys` lists integer-like keys first in ascending order. The model enumerates every key in insertion order.
- `fields[table]`, `results[id]` and `soumRow[field]` can also see properties inherited from `Object.prototype` (such as `constructor`). The model treats objects as plain maps without a prototype.
- `load`'s `soumId` is its string rendering, as the template literal inserts it. `compare`'s `soumId` is a row value.
- `loadSectionFields` mutates the accumulator it is given. The model threads it through as an argument and a result instead of sharing it by reference.
- `metadata` is `NationalConfig.metadata`, an injected constant, passed here as a parameter.
- `src/app/services/index.js` only registers the Angular module and holds no logic.
