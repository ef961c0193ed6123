# Data catalogue core: entity model, lineage traversal, SQL lineage and YAML loading

This project models the sequential core of a small data-catalogue
application that answers questions about tables, views and their lineage.
The model has five Dafny modules.

- `Wrappers` (`wrappers.dfy`): `Option` stands for Python's `None`, and
  `Result` stands for an exception that escapes the loader.
- `Text` (`text.dfy`): Python's `str.join`, `str.split` on one character,
  the code-point ordering `sorted` uses on `str`, `sorted(set(...))`, and
  duplicate-free lists.
- `SchemaModels` (`schema_models.dfy`) covers `src/schema_models.py`:
  - the `FieldDef` and `SchemaEntity` records;
  - `to_document_text`, the line-by-line plain-text rendering of an entity;
  - `get_impacted_entities`, the direct neighbours that the catalogue holds;
  - `get_full_lineage`, the transitive upstream and downstream closures.

  Reachability along upstream or downstream edges is a ghost predicate:
  `Reachable` holds when a walk exists. Each traversal is a worklist loop
  whose visited set is proved equal to the reachable set. It terminates on
  every catalogue, cyclic ones included, because the set of unvisited names
  among the finitely many names the catalogue mentions shrinks with every
  expansion.
- `SqlLineage` (`sql_lineage_to_yaml.dfy`) covers `src/sql_lineage_to_yaml.py`:
  - `extract_lineage_from_sql`, over the statements the SQL parser reports,
    outputs an insertion-ordered map from each created table to its source
    tables;
  - `build_yaml_entities_from_lineage` turns that map into an ordered list
    of entity records, using first-write-wins `setdefault`, sorted
    `upstream` and appended `downstream`.

  Both are imperative methods and are proved equal to recursive reference
  functions. Lemmas about those functions state what the map and the
  records mean.
- `YamlLoader` (`yaml_loader.dfy`) covers `load_yaml_entities` in
  `src/yaml_loader.py`, over what `yaml.safe_load` returned for each file:
  - the first pass converts records to entities, applies the defaults and
    sets `raw_text` to the document text;
  - a missing `name` aborts the whole load with `KeyError`;
  - the second pass appends the "Impact Analysis" block to every
    `raw_text`.

Inputs the program gets from elsewhere are parameters:
- Statements are the parser's view of each statement: whether it is a
  create with a table target, the target's name, and every table name in it.
- YAML documents are the loader's view of each parsed file.
- The order in which Python iterates over each source set is an input
  `enum`. Every lemma about the builder holds for any enumeration.

## Model

| member | source | states |
|---|---|---|
| `SchemaModels.RenderField` | src/schema_models.py:30-40 | one field's line is `- name: type`, then the flag bracket, then the description suffix, built by appending flags as the loop does |
| `SchemaModels.FlagsTextCases` | src/schema_models.py:31-37 | the bracket is absent iff neither `required` nor `pii` holds; otherwise `required` comes before `PII`, joined by the literal " ," |
| `SchemaModels.DescriptionTextCases` | src/schema_models.py:38 | the ` - description` suffix appears iff the description is present and non-empty |
| `SchemaModels.Layout` | src/schema_models.py:27-45 | the document's lines are the header line, then "Fields:", then one line per field in order, then the upstream line and the downstream line when present |
| `SchemaModels.AppendFieldLines` | src/schema_models.py:30-40 | the field loop appends exactly one rendered line per field, in field order, after the lines already there |
| `SchemaModels.ToDocumentText` | src/schema_models.py:25-47 | the appended line list joined by newlines equals the reference rendering `DocumentText` |
| `SchemaModels.DocumentTextLines` | src/schema_models.py:27-47 | with newline-free parts, the text splits back into exactly its lines: 2 + number of fields + 1 for non-empty upstream + 1 for non-empty downstream |
| `SchemaModels.GetImpactedEntities` | src/schema_models.py:53-70 | a name is in the result iff it is a catalogue key listed in `upstream` or `downstream`; unknown names are dropped and a self-reference is kept |
| `SchemaModels.Closure` | src/schema_models.py:81-97 | the visited set of one traversal, with the start recorded before the catalogue lookup and cycles cut by the visited check, is exactly the set of names reachable from the start |
| `SchemaModels.TraversalStep` | src/schema_models.py:81-97 | popping a visited name keeps the traversal state; expanding a new one keeps it and strictly shrinks the set of names left to visit, which is why the traversal terminates on cyclic catalogues |
| `SchemaModels.GetFullLineage` | src/schema_models.py:72-108 | `full_upstream` and `full_downstream` are the names reachable along upstream and downstream edges, each minus the entity's own name; both are empty when the name is not a catalogue key |
| `SchemaModels.UnknownNameReachesOnlyItself` | src/schema_models.py:84-88 | a name outside the catalogue is recorded but not expanded: it reaches only itself |
| `SchemaModels.ReachedThroughCatalogueEntry` | src/schema_models.py:85-88 | every reached name other than the start is listed by a reached catalogue entry, so dangling names add nothing further |
| `SchemaModels.ReachTransitive` | src/schema_models.py:81-97 | the lineage of a lineage member is part of the lineage |
| `Text.SortedSet` | src/sql_lineage_to_yaml.py:68 | `sorted(list(set(xs)))` is strictly increasing in Python's `str` order and holds exactly the elements of `xs` |
| `Text.SortedUnique` | src/sql_lineage_to_yaml.py:68 | two strictly sorted lists with the same elements are equal, so the sorted upstream does not depend on set iteration order |
| `SqlLineage.StatementSources` | src/sql_lineage_to_yaml.py:33-37 | a name is a source of a statement iff it is one of its table names, non-empty and different from the target |
| `SqlLineage.ExtractLineage` | src/sql_lineage_to_yaml.py:18-44 | the statement loop with in-place `update` computes the reference fold `Extract` |
| `SqlLineage.ExtractOrder` | src/sql_lineage_to_yaml.py:39-40 | the map is well formed and its keys are the created tables in order of first creation |
| `SqlLineage.ExtractKeys` | src/sql_lineage_to_yaml.py:25-40 | a name is a key iff some statement is a create with that table as target, even when it has no sources |
| `SqlLineage.ExtractSources` | src/sql_lineage_to_yaml.py:33-42 | a table's sources are the union, over all statements creating it, of their non-empty table names other than the table itself |
| `SqlLineage.ExtractSourcesExcludeTargetAndEmpty` | src/sql_lineage_to_yaml.py:36 | no table is its own source and the empty name is never a source |
| `SqlLineage.ExtractOrderIndependent` | src/sql_lineage_to_yaml.py:39-42 | reordering the statements does not change the source map |
| `SqlLineage.ExtractIgnores` | src/sql_lineage_to_yaml.py:23-27 | a statement that is not a create with a table target, wherever it stands, leaves the result unchanged |
| `SqlLineage.SetDefault` | src/sql_lineage_to_yaml.py:58-67 | `setdefault` adds the name and leaves every existing record unchanged; a new name is appended to the insertion order with the empty record of the given type, and a known name leaves the order as it was |
| `SqlLineage.AddDownstream` | src/sql_lineage_to_yaml.py:82-83 | after the guarded append the target is in the source's downstream list, appended at the end exactly when it was absent; every other record, the names and the keys are unchanged |
| `SqlLineage.BuildYamlEntities` | src/sql_lineage_to_yaml.py:47-85 | the nested loops over the targets and their enumerated sources compute the reference list `BuildEntities` |
| `SqlLineage.ListingMembers` | src/sql_lineage_to_yaml.py:82-83 | the targets listing a name as a source, in dictionary order, are exactly those targets, once each |
| `SqlLineage.FirstTypeSnoc` | src/sql_lineage_to_yaml.py:58-81 | a later encounter never changes the type of a name already met |
| `SqlLineage.BuildNames` | src/sql_lineage_to_yaml.py:55-85 | record names are unique and come in the order the builder first meets them |
| `SqlLineage.BuildNameSet` | src/sql_lineage_to_yaml.py:55-85 | the set of record names is the set of keys together with all their sources |
| `SqlLineage.BuildTypes` | src/sql_lineage_to_yaml.py:58-81 | a record is "view" if its name was first met as a target and "table" if first met as a source; every `fields` is empty |
| `SqlLineage.BuildUpstream` | src/sql_lineage_to_yaml.py:68 | a key's upstream is strictly sorted and holds exactly its sources; a name that is only a source has an empty upstream |
| `SqlLineage.BuildDownstream` | src/sql_lineage_to_yaml.py:71-83 | a downstream list names, in dictionary order and once each, exactly the keys that have the record as a source |
| `SqlLineage.BuildSymmetric` | src/sql_lineage_to_yaml.py:68-83 | `s` is upstream of `t` iff `t` is downstream of `s` |
| `YamlLoader.ConvertRecord` | src/yaml_loader.py:20-43 | the field loop and the entity construction give the reference conversion `ConvertEntity`, including the `KeyError` of the first field without a name |
| `YamlLoader.LoadFile` | src/yaml_loader.py:15-31 | one file's records, after the `or {}` and `get` defaults, are converted in order and the first failing record ends the load |
| `YamlLoader.AddImpactTexts` | src/yaml_loader.py:52-65 | the in-place `+=` loop gives the reference second pass |
| `YamlLoader.LoadYamlEntities` | src/yaml_loader.py:8-67 | the file loop plus the second pass give exactly the reference result `Load`: success or the first error |
| `YamlLoader.MapResultFirstFailure` | src/yaml_loader.py:19-31 | converting a list fails with the error of its first failing element |
| `YamlLoader.ConvertEntitySucceedsIff` | src/yaml_loader.py:25-35 | a record converts iff it and every one of its fields has a name; otherwise the error is the missing-name `KeyError` |
| `YamlLoader.FieldsFailWithMissingName` | src/yaml_loader.py:22-31 | the only way the field loop fails is the `KeyError` of a field without a name |
| `YamlLoader.ConvertFieldDefaults` | src/yaml_loader.py:24-30 | `required` and `pii` are false when absent and read with Python truthiness when present; `type` and `description` are kept and are `None` when absent |
| `YamlLoader.ConvertEntityDefaults` | src/yaml_loader.py:34-43 | `entity_type` defaults to "table"; `fields`, `upstream` and `downstream` default to empty; fields convert one for one in order; `raw_text` is the document text |
| `YamlLoader.EmptyDocuments` | src/yaml_loader.py:16-18 | a `None` document, a falsy value and a mapping without `entities` yield no records |
| `YamlLoader.FirstPassFlat` | src/yaml_loader.py:14-45 | when every file loads, the first pass converts all files' records as one list, in file order and then record order |
| `YamlLoader.LoadSucceedsIff` | src/yaml_loader.py:14-45 | the load succeeds iff every file is a mapping or empty and every record of every file is loadable |
| `YamlLoader.LoadOrder` | src/yaml_loader.py:14-45 | a successful load holds one entity per record, in file order and then record order, duplicate names included |
| `YamlLoader.LoadSkipsEmptyDocuments` | src/yaml_loader.py:14-18 | a file that yields no records can be dropped without changing the load |
| `YamlLoader.FirstPassRawText` | src/yaml_loader.py:43 | after the first pass every entity's `raw_text` is its document text |
| `YamlLoader.LoadRawText` | src/yaml_loader.py:43-65 | the second pass changes only `raw_text`: it becomes the document text, then "\n\n", then the impact block |
| `YamlLoader.ImpactTextIsJoin` | src/yaml_loader.py:53-62 | the impact block is its seven lines joined by newlines, with the edge lists joined by ", " and an empty list shown as the single token `None` |
| `YamlLoader.RawTextLines` | src/yaml_loader.py:43-65 | with newline-free parts, the final `raw_text` splits into the document lines, one empty line and the seven impact lines |
| `YamlLoader.EntityByNameKeys` | src/yaml_loader.py:50 | `entity_dict` has a key for every loaded name and no other |
| `YamlLoader.EntityByNameLast` | src/yaml_loader.py:50 | `entity_dict` maps each name to the last entity with that name |

## Left out

- SQL parsing (`sqlglot.parse`) and YAML parsing (`yaml.safe_load`) are foreign code. Their outputs are the input datatypes `Statement` and `Document`; a YAML parse error is the opaque `Unparsable` document.
- `generate_lineage_yaml_from_folder` (src/sql_lineage_to_yaml.py:88-114) only globs files, concatenates them, writes YAML and prints. It is file I/O and is not part of this model. So is the folder globbing of `load_yaml_entities`, whose file order is the order of the input list.
- Pydantic validation and coercion are not modelled. Record values are taken to have the declared types: strings for names, types and descriptions, and string lists for edges. The loader rejects no value types beyond a missing `name`. An explicit `null` under a key is not distinguished from a missing key. For `entities:` and `fields:` this differs from the code: there an explicit `null` makes the loop over `data.get("entities", [])` or `e.get("fields", [])` (src/yaml_loader.py:19, :22) raise `TypeError`, while the model loads it as an empty list. `YamlLoader.EmptyDocuments` and `YamlLoader.LoadSucceedsIff` therefore describe the code only for inputs without an explicit `null` under those two keys. Float scalars in `required`/`pii` are not modelled.
- A file whose `entities` value is not a list, or whose records or fields are not mappings, is not modelled. A non-mapping top-level value that Python counts true is the `NotAMapping` error, and one it counts false is an empty file.
- `SchemaModels.GetImpactedEntities` returns the set of catalogue keys reached, not a list of entity values. As written, `impacted.add(all_entities[u])` (src/schema_models.py:63, :68) raises `TypeError`, because non-frozen pydantic models are unhashable. So the code can only return `[]` (when no upstream or downstream name is a catalogue key) or raise. The key set models what the docstring intends; the list order of `list(impacted)` would be unspecified anyway.
- `SchemaModels.GetFullLineage` returns sets. The list order of `list(visited_up)` and `list(visited_down)` is set iteration order, which is unspecified.
- `SchemaModels.Closure` replaces the recursion of `dfs_up`/`dfs_down` with an explicit stack. The order of visits is not modelled. The recursion (src/schema_models.py:81-97) goes one Python frame deeper per link, so a chain longer than the interpreter's recursion limit (1000 by default) raises `RecursionError`. There the model still returns the full closure; on shallower graphs the set of visited names is the same.
- The order in which Python iterates over each source set is the input `enum`. The lemmas about the builder hold for every enumeration, and the lemmas on `downstream` order are stated relative to the dictionary order of targets.
- The builder's records are values. Aliasing between the `ent`/`src_ent` dictionaries and the `entities` dictionary is represented by writing the updated record back under its key.
- `entity_dict` in `load_yaml_entities` is built and never read. The model computes it (`EntityByName`) from the first-pass list. Whether its values share the objects later updated in place is unobservable and not modelled.
- The loop bodies of `to_document_text` and `load_yaml_entities` are separate methods (`RenderField`, `AppendFieldLines`, `ConvertRecord`, `LoadFile`, `AddImpactTexts`). Each one's contract ties it to the same reference function as the inline loop would have.
- Where the documentation says otherwise, the model follows the code:
  - dangling names are part of `full_upstream`/`full_downstream`;
  - a self-referencing entity is among its own impacted entities;
  - the loader keeps duplicate names;
  - `downstream` lists are in append order, not sorted;
  - the flag separator is " ,";
  - a missing field type renders as `None`.
