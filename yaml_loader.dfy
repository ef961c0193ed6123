/** `load_yaml_entities`: turning the parsed contents of the catalogue's YAML
    files into `SchemaEntity` values. The first pass converts every record of
    every file, in file order and then record order, applying the defaults
    and setting `raw_text` to the document text; the second pass appends an
    "Impact Analysis" block to every `raw_text`. Reading and parsing the files
    is outside the model: the loader receives what `yaml.safe_load` returned
    for each file, in the order the folder listing yields them. */
module YamlLoader {
  import opened Wrappers
  import opened Text
  import opened SchemaModels

  /** A YAML scalar as `yaml.safe_load` returns it (floats are not modelled). */
  datatype Scalar = YBool(b: bool) | YInt(i: int) | YStr(s: string) | YNull

  /** Python's `bool(v)`. */
  predicate Truthy(v: Scalar) {
    match v
    case YBool(b) => b
    case YInt(i) => i != 0
    case YStr(s) => s != ""
    case YNull => false
  }

  /** One mapping of a record's `fields` list; `None` stands for a missing key. */
  datatype RawField = RawField(
    name: Option<string>,
    fieldType: Option<string>,
    required: Option<Scalar>,
    pii: Option<Scalar>,
    description: Option<string>)

  /** One mapping of a file's `entities` list; `None` stands for a missing key. */
  datatype RawEntity = RawEntity(
    name: Option<string>,
    entityType: Option<string>,
    fields: Option<seq<RawField>>,
    upstream: Option<seq<string>>,
    downstream: Option<seq<string>>)

  /** What `yaml.safe_load` gives for one file: `None` (an empty file), a
      mapping with or without an `entities` key, some other value (a list or a
      scalar; `isEmpty` when Python counts it false), or a parse error. */
  datatype Document =
    | NullDocument
    | Mapping(entities: Option<seq<RawEntity>>)
    | NonMapping(isEmpty: bool)
    | Unparsable

  /** The exceptions the loader lets escape: `KeyError('name')`, the
      `AttributeError` of calling `get` on a non-mapping, and the YAML
      parser's error. */
  datatype LoadError = MissingName | NotAMapping | YamlError

  const DefaultEntityType := "table"

  // ---------------------------------------------------------------------
  // Converting lists where the first failing element aborts
  // ---------------------------------------------------------------------

  /** `[f(x) for x in xs]` where `f` may raise: the first failure, in list
      order, is the result. */
  function MapResult<X, Y, E>(xs: seq<X>, f: X -> Result<Y, E>): Result<seq<Y>, E>
    decreases |xs|
  {
    if xs == [] then Success([])
    else
      match MapResult(xs[..|xs| - 1], f)
      case Failure(err) => Failure(err)
      case Success(ys) =>
        match f(xs[|xs| - 1])
        case Failure(err) => Failure(err)
        case Success(y) => Success(ys + [y])
  }

  lemma MapResultStep<X, Y, E>(xs: seq<X>, f: X -> Result<Y, E>, i: nat, ys: seq<Y>, y: Y)
    requires i < |xs|
    requires MapResult(xs[..i], f) == Success(ys) && f(xs[i]) == Success(y)
    ensures MapResult(xs[..i + 1], f) == Success(ys + [y])
  {
    assert xs[..i + 1][..i] == xs[..i];
  }

  /** A failure stays the result however many elements follow it. */
  lemma {:induction false} MapResultKeepsFailure<X, Y, E>(xs: seq<X>, f: X -> Result<Y, E>, k: nat)
    requires k <= |xs| && MapResult(xs[..k], f).Failure?
    ensures MapResult(xs, f) == MapResult(xs[..k], f)
    decreases |xs| - k
  {
    if k < |xs| {
      assert xs[..k + 1][..k] == xs[..k];
      MapResultKeepsFailure(xs, f, k + 1);
    } else {
      assert xs[..k] == xs;
    }
  }

  /** When everything before index `k` converts and `xs[k]` fails, the whole
      conversion fails with the error of `xs[k]`. */
  lemma MapResultFailsAt<X, Y, E>(xs: seq<X>, f: X -> Result<Y, E>, k: nat)
    requires k < |xs| && MapResult(xs[..k], f).Success? && f(xs[k]).Failure?
    ensures MapResult(xs, f) == Failure(f(xs[k]).error)
  {
    assert xs[..k + 1][..k] == xs[..k];
    MapResultKeepsFailure(xs, f, k + 1);
  }

  /** The conversion succeeds exactly when every element converts, and then
      it holds the converted elements, one per element, in order. */
  lemma {:induction false} MapResultSuccess<X, Y, E>(xs: seq<X>, f: X -> Result<Y, E>)
    ensures MapResult(xs, f).Success? <==> forall i :: 0 <= i < |xs| ==> f(xs[i]).Success?
    ensures MapResult(xs, f).Success? ==>
      |MapResult(xs, f).value| == |xs| &&
      forall i :: 0 <= i < |xs| ==> MapResult(xs, f).value[i] == f(xs[i]).value
    decreases |xs|
  {
    if xs != [] {
      var pre := xs[..|xs| - 1];
      MapResultSuccess(pre, f);
      assert forall i :: 0 <= i < |pre| ==> pre[i] == xs[i];
    }
  }

  /** The first failing element decides the error. */
  lemma MapResultFirstFailure<X, Y, E>(xs: seq<X>, f: X -> Result<Y, E>, k: nat)
    requires k < |xs| && f(xs[k]).Failure?
    requires forall i :: 0 <= i < k ==> f(xs[i]).Success?
    ensures MapResult(xs, f) == Failure(f(xs[k]).error)
  {
    MapResultSuccess(xs[..k], f);
    MapResultFailsAt(xs, f, k);
  }

  /** Converting a concatenation is converting each part, the first part's
      failure winning. */
  lemma {:induction false} MapResultConcat<X, Y, E>(xs: seq<X>, ys: seq<X>, f: X -> Result<Y, E>)
    ensures MapResult(xs + ys, f) ==
      match MapResult(xs, f)
      case Failure(err) => Failure(err)
      case Success(a) =>
        match MapResult(ys, f)
        case Failure(err) => Failure(err)
        case Success(b) => Success(a + b)
    decreases |ys|
  {
    if ys == [] {
      assert xs + ys == xs;
      if MapResult(xs, f).Success? {
        assert MapResult(xs, f).value + [] == MapResult(xs, f).value;
      }
    } else {
      var pre := ys[..|ys| - 1];
      MapResultConcat(xs, pre, f);
      assert (xs + ys)[..|xs + ys| - 1] == xs + pre;
      assert (xs + ys)[|xs + ys| - 1] == ys[|ys| - 1];
      if MapResult(xs, f).Success? && MapResult(pre, f).Success? && f(ys[|ys| - 1]).Success? {
        var a, b, y := MapResult(xs, f).value, MapResult(pre, f).value, f(ys[|ys| - 1]).value;
        assert a + b + [y] == a + (b + [y]);
      }
    }
  }

  /** The lists of `gs`, one after the other. */
  function Concat<T>(gs: seq<seq<T>>): seq<T>
    decreases |gs|
  {
    if gs == [] then [] else Concat(gs[..|gs| - 1]) + gs[|gs| - 1]
  }

  lemma {:induction false} ConcatAppend<T>(gs: seq<seq<T>>, hs: seq<seq<T>>)
    ensures Concat(gs + hs) == Concat(gs) + Concat(hs)
    decreases |hs|
  {
    if hs == [] {
      assert gs + hs == gs;
    } else {
      var pre := hs[..|hs| - 1];
      ConcatAppend(gs, pre);
      assert (gs + hs)[..|gs + hs| - 1] == gs + pre;
      assert (gs + hs)[|gs + hs| - 1] == hs[|hs| - 1];
    }
  }

  /** A conversion into lists, its results concatenated. */
  function Flatten<Y, E>(r: Result<seq<seq<Y>>, E>): Result<seq<Y>, E> {
    match r
    case Failure(err) => Failure(err)
    case Success(groups) => Success(Concat(groups))
  }

  /** When each element converts to the conversion of its own list of items,
      converting the elements and concatenating is converting all the items
      as one list. */
  lemma {:induction false} MapResultFlatten<D, X, Y, E>(ds: seq<D>, fe: D -> Result<seq<Y>, E>, items: D -> seq<X>, conv: X -> Result<Y, E>)
    requires forall k :: 0 <= k < |ds| ==> fe(ds[k]) == MapResult(items(ds[k]), conv)
    ensures Flatten(MapResult(ds, fe)) == MapResult(Concat(MapSeq(ds, items)), conv)
    decreases |ds|
  {
    if ds != [] {
      var pre, d := ds[..|ds| - 1], ds[|ds| - 1];
      MapResultFlatten(pre, fe, items, conv);
      assert MapSeq(ds, items)[..|ds| - 1] == MapSeq(pre, items);
      assert Concat(MapSeq(ds, items)) == Concat(MapSeq(pre, items)) + items(d);
      MapResultConcat(Concat(MapSeq(pre, items)), items(d), conv);
      var g := MapResult(pre, fe);
      if g.Success? && fe(d).Success? {
        assert (g.value + [fe(d).value])[..|g.value|] == g.value;
      }
    }
  }

  lemma {:induction false} ConcatMembers<T>(gs: seq<seq<T>>, x: T)
    ensures x in Concat(gs) <==> exists i :: 0 <= i < |gs| && x in gs[i]
    decreases |gs|
  {
    if gs != [] {
      var pre, last := gs[..|gs| - 1], gs[|gs| - 1];
      ConcatMembers(pre, x);
      assert Concat(gs) == Concat(pre) + last;
      assert x in Concat(gs) <==> x in Concat(pre) || x in last;
      if x in Concat(pre) {
        var i :| 0 <= i < |pre| && x in pre[i];
        assert gs[i] == pre[i];
      }
      if exists i :: 0 <= i < |gs| && x in gs[i] {
        var i :| 0 <= i < |gs| && x in gs[i];
        if i < |pre| {
          assert pre[i] == gs[i];
        }
      }
    }
  }

  // ---------------------------------------------------------------------
  // First pass: records to entities
  // ---------------------------------------------------------------------

  /** `bool(fdef.get(key, False))`. */
  predicate Flag(v: Option<Scalar>) {
    v.Some? && Truthy(v.value)
  }

  /** `FieldDef(name=fdef["name"], type=fdef.get("type"), ...)`. */
  function ConvertField(f: RawField): Result<FieldDef, LoadError> {
    if f.name.None? then Failure(MissingName)
    else Success(FieldDef(f.name.value, f.fieldType, Flag(f.required), Flag(f.pii), f.description))
  }

  /** The entity of one record with its `raw_text` set to the document text.
      The fields are converted before the record's own `name` is read, as in
      `load_yaml_entities`; both failures are the same `KeyError`. */
  function ConvertEntity(r: RawEntity): Result<SchemaEntity, LoadError> {
    match MapResult(r.fields.GetOr([]), ConvertField)
    case Failure(err) => Failure(err)
    case Success(fields) =>
      if r.name.None? then Failure(MissingName)
      else
        var entity := SchemaEntity(r.name.value, r.entityType.GetOr(DefaultEntityType), fields,
                                   r.upstream.GetOr([]), r.downstream.GetOr([]), None);
        Success(entity.(rawText := Some(DocumentText(entity))))
  }

  /** `(yaml.safe_load(f) or {}).get("entities", [])`. */
  function FileRecords(d: Document): Result<seq<RawEntity>, LoadError> {
    match d
    case NullDocument => Success([])
    case Mapping(entities) => Success(entities.GetOr([]))
    case NonMapping(isEmpty) => if isEmpty then Success([]) else Failure(NotAMapping)
    case Unparsable => Failure(YamlError)
  }

  /** The entities of one file, in record order. */
  function FileEntities(d: Document): Result<seq<SchemaEntity>, LoadError> {
    match FileRecords(d)
    case Failure(err) => Failure(err)
    case Success(records) => MapResult(records, ConvertEntity)
  }

  /** The list the first pass builds: every file's entities, one file after
      another. */
  function FirstPass(files: seq<Document>): Result<seq<SchemaEntity>, LoadError> {
    Flatten(MapResult(files, FileEntities))
  }

  // ---------------------------------------------------------------------
  // Second pass: the impact block
  // ---------------------------------------------------------------------

  /** `names or ["None"]`. */
  function SystemsList(names: seq<string>): seq<string> {
    if names == [] then ["None"] else names
  }

  /** The impact block the second pass builds for an entity. */
  function ImpactText(e: SchemaEntity): string {
    "\n" + ("Impact Analysis for " + e.name + ":") + "\n"
    + "\n"
    + ("Upstream systems: " + Join(", ", SystemsList(e.upstream))) + "\n"
    + ("Downstream systems: " + Join(", ", SystemsList(e.downstream))) + "\n"
    + "\n"
  }

  /** `entity.raw_text += "\n\n" + impact_text`. */
  function WithImpact(e: SchemaEntity): SchemaEntity
    requires e.rawText.Some?
  {
    e.(rawText := Some(e.rawText.value + "\n\n" + ImpactText(e)))
  }

  function SecondPass(es: seq<SchemaEntity>): seq<SchemaEntity>
    requires forall i :: 0 <= i < |es| ==> es[i].rawText.Some?
  {
    seq(|es|, i requires 0 <= i < |es| && es[i].rawText.Some? => WithImpact(es[i]))
  }

  /** After the first pass every entity's `raw_text` is its document text. */
  ghost predicate FirstPassed(e: SchemaEntity) {
    e.rawText == Some(DocumentText(e))
  }

  lemma ConvertEntityFirstPassed(r: RawEntity)
    ensures ConvertEntity(r).Success? ==> FirstPassed(ConvertEntity(r).value)
  {
  }

  /** Every entity of a successful first pass has its document text as
      `raw_text`. */
  lemma FirstPassRawText(files: seq<Document>)
    ensures FirstPass(files).Success? ==>
      forall i :: 0 <= i < |FirstPass(files).value| ==> FirstPassed(FirstPass(files).value[i])
  {
    if FirstPass(files).Success? {
      var groups := MapResult(files, FileEntities).value;
      MapResultSuccess(files, FileEntities);
      forall i | 0 <= i < |Concat(groups)| ensures FirstPassed(Concat(groups)[i]) {
        var e := Concat(groups)[i];
        ConcatMembers(groups, e);
        var k :| 0 <= k < |groups| && e in groups[k];
        var records := FileRecords(files[k]).value;
        MapResultSuccess(records, ConvertEntity);
        var j :| 0 <= j < |groups[k]| && groups[k][j] == e;
        ConvertEntityFirstPassed(records[j]);
      }
    }
  }

  /** `load_yaml_entities`: the first pass, then the second. */
  function Load(files: seq<Document>): Result<seq<SchemaEntity>, LoadError> {
    match FirstPass(files)
    case Failure(err) => Failure(err)
    case Success(first) =>
      FirstPassRawText(files);
      Success(SecondPass(first))
  }

  /** `{e.name: e for e in entities}`: every name once, each mapped to the
      last entity with that name. */
  function EntityByName(es: seq<SchemaEntity>): map<string, SchemaEntity>
    decreases |es|
  {
    if es == [] then map[]
    else EntityByName(es[..|es| - 1])[es[|es| - 1].name := es[|es| - 1]]
  }

  // ---------------------------------------------------------------------
  // The loader, as the loops of `load_yaml_entities`
  // ---------------------------------------------------------------------

  /** The body of the record loop of `load_yaml_entities`: the field loop,
      the record's own name, and the initial document text. */
  method ConvertRecord(e: RawEntity) returns (r: Result<SchemaEntity, LoadError>)
    ensures r == ConvertEntity(e)
  {
    var rawFields := e.fields.GetOr([]);
    var fields: seq<FieldDef> := [];
    for m := 0 to |rawFields|
      invariant MapResult(rawFields[..m], ConvertField) == Success(fields)
    {
      var fdef := rawFields[m];
      if fdef.name.None? {
        MapResultFailsAt(rawFields, ConvertField, m);
        return Failure(MissingName);
      }
      var field := FieldDef(fdef.name.value, fdef.fieldType, Flag(fdef.required), Flag(fdef.pii), fdef.description);
      MapResultStep(rawFields, ConvertField, m, fields, field);
      fields := fields + [field];
    }
    assert rawFields[..|rawFields|] == rawFields;
    if e.name.None? {
      return Failure(MissingName);
    }
    var entity := SchemaEntity(e.name.value, e.entityType.GetOr(DefaultEntityType), fields,
                               e.upstream.GetOr([]), e.downstream.GetOr([]), None);
    var text := ToDocumentText(entity);
    entity := entity.(rawText := Some(text));
    return Success(entity);
  }

  /** The second pass of `load_yaml_entities`: each entity's `raw_text`
      extended in place by "\n\n" and its impact block. */
  method AddImpactTexts(first: seq<SchemaEntity>) returns (entities: seq<SchemaEntity>)
    requires forall i :: 0 <= i < |first| ==> first[i].rawText.Some?
    ensures entities == SecondPass(first)
  {
    entities := first;
    for i := 0 to |entities|
      invariant |entities| == |first|
      invariant forall t :: 0 <= t < i ==> entities[t] == WithImpact(first[t])
      invariant forall t :: i <= t < |entities| ==> entities[t] == first[t]
    {
      var entity := entities[i];
      var upstream := if entity.upstream != [] then entity.upstream else ["None"];
      var downstream := if entity.downstream != [] then entity.downstream else ["None"];
      var impactText := "\n" + ("Impact Analysis for " + entity.name + ":") + "\n"
                        + "\n"
                        + ("Upstream systems: " + Join(", ", upstream)) + "\n"
                        + ("Downstream systems: " + Join(", ", downstream)) + "\n"
                        + "\n";
      entities := entities[i := entity.(rawText := Some(entity.rawText.value + "\n\n" + impactText))];
    }
  }

  /** One iteration of the file loop of `load_yaml_entities`: the file's
      `entities` list (after the `or {}` and `get` defaults) converted record
      by record, the first failing record ending the load. */
  method LoadFile(data: Document) returns (r: Result<seq<SchemaEntity>, LoadError>)
    ensures r == FileEntities(data)
  {
    if data.Unparsable? {
      return Failure(YamlError);
    }
    if data.NonMapping? && !data.isEmpty {
      return Failure(NotAMapping);
    }
    var rawEntities := if data.Mapping? then data.entities.GetOr([]) else [];
    assert FileRecords(data) == Success(rawEntities);
    var entities: seq<SchemaEntity> := [];
    for j := 0 to |rawEntities|
      invariant MapResult(rawEntities[..j], ConvertEntity) == Success(entities)
    {
      var entity := ConvertRecord(rawEntities[j]);
      if entity.Failure? {
        MapResultFailsAt(rawEntities, ConvertEntity, j);
        return Failure(entity.error);
      }
      MapResultStep(rawEntities, ConvertEntity, j, entities, entity.value);
      entities := entities + [entity.value];
    }
    assert rawEntities[..|rawEntities|] == rawEntities;
    return Success(entities);
  }

  /** `load_yaml_entities` over the parsed files: the file loop of the first
      pass, the first `KeyError` (or file error) ending the load, then the
      second pass. */
  method LoadYamlEntities(files: seq<Document>) returns (result: Result<seq<SchemaEntity>, LoadError>)
    ensures result == Load(files)
  {
    var entities: seq<SchemaEntity> := [];
    ghost var groups: seq<seq<SchemaEntity>> := [];
    for k := 0 to |files|
      invariant MapResult(files[..k], FileEntities) == Success(groups)
      invariant entities == Concat(groups)
    {
      var fileEntities := LoadFile(files[k]);
      if fileEntities.Failure? {
        MapResultFailsAt(files, FileEntities, k);
        return Failure(fileEntities.error);
      }
      MapResultStep(files, FileEntities, k, groups, fileEntities.value);
      assert (groups + [fileEntities.value])[..|groups|] == groups;
      entities := entities + fileEntities.value;
      groups := groups + [fileEntities.value];
    }
    assert files[..|files|] == files;
    assert FirstPass(files) == Success(entities);
    FirstPassRawText(files);

    var entityDict := EntityByName(entities);

    entities := AddImpactTexts(entities);
    result := Success(entities);
  }

  // ---------------------------------------------------------------------
  // Properties of the loader
  // ---------------------------------------------------------------------

  /** A record converts when it and every one of its fields has a name. */
  predicate Loadable(r: RawEntity) {
    r.name.Some? && forall i :: 0 <= i < |r.fields.GetOr([])| ==> r.fields.GetOr([])[i].name.Some?
  }

  /** A record converts exactly when it is loadable; otherwise the load
      stops with `KeyError('name')`. */
  lemma ConvertEntitySucceedsIff(r: RawEntity)
    ensures ConvertEntity(r).Success? <==> Loadable(r)
    ensures !Loadable(r) ==> ConvertEntity(r) == Failure(MissingName)
  {
    var fs := r.fields.GetOr([]);
    MapResultSuccess(fs, ConvertField);
    if MapResult(fs, ConvertField).Failure? {
      FieldsFailWithMissingName(fs);
    }
  }

  /** Converting a field list fails, if at all, with `KeyError('name')`. */
  lemma FieldsFailWithMissingName(fs: seq<RawField>)
    requires MapResult(fs, ConvertField).Failure?
    ensures MapResult(fs, ConvertField).error == MissingName
  {
    MapResultSuccess(fs, ConvertField);
    var i :| 0 <= i < |fs| && ConvertField(fs[i]).Failure?;
    var k := FirstFailing(fs, i);
    MapResultFirstFailure(fs, ConvertField, k);
  }

  /** The index of the first field at or before `i` without a name. */
  function FirstFailing(fs: seq<RawField>, i: nat): (k: nat)
    requires i < |fs| && fs[i].name.None?
    ensures k <= i && fs[k].name.None?
    ensures forall j :: 0 <= j < k ==> fs[j].name.Some?
    decreases i
  {
    if exists j :: 0 <= j < i && fs[j].name.None? then
      var j :| 0 <= j < i && fs[j].name.None?;
      FirstFailing(fs, j)
    else i
  }

  /** The defaults of a field: `required` and `pii` are false and `type` and
      `description` are `None` when the key is missing; present values are
      kept, the flags read with Python's truthiness. */
  lemma ConvertFieldDefaults(f: RawField)
    ensures ConvertField(f).Success? <==> f.name.Some?
    ensures ConvertField(f).Success? ==>
      var d := ConvertField(f).value;
      && d.name == f.name.value
      && (f.required.None? ==> !d.required) && (f.required.Some? ==> d.required == Truthy(f.required.value))
      && (f.pii.None? ==> !d.pii) && (f.pii.Some? ==> d.pii == Truthy(f.pii.value))
      && d.fieldType == f.fieldType && d.description == f.description
  {
  }

  /** The defaults of a record: `entity_type` is "table" and `fields`,
      `upstream` and `downstream` are empty when the key is missing, present
      values are kept, the fields are converted one for one in order, and
      `raw_text` is the document text. */
  lemma ConvertEntityDefaults(r: RawEntity)
    requires Loadable(r)
    ensures ConvertEntity(r).Success?
    ensures ConvertEntity(r).value.name == r.name.value
    ensures ConvertEntity(r).value.entityType == if r.entityType.Some? then r.entityType.value else "table"
    ensures ConvertEntity(r).value.upstream == if r.upstream.Some? then r.upstream.value else []
    ensures ConvertEntity(r).value.downstream == if r.downstream.Some? then r.downstream.value else []
    ensures r.fields.None? ==> ConvertEntity(r).value.fields == []
    ensures |ConvertEntity(r).value.fields| == |r.fields.GetOr([])|
    ensures forall i :: 0 <= i < |r.fields.GetOr([])| ==>
      Success(ConvertEntity(r).value.fields[i]) == ConvertField(r.fields.GetOr([])[i])
    ensures ConvertEntity(r).value.rawText == Some(DocumentText(ConvertEntity(r).value))
  {
    var fs := r.fields.GetOr([]);
    MapResultSuccess(fs, ConvertField);
    ConvertEntityFirstPassed(r);
    var fields := MapResult(fs, ConvertField).value;
    var entity := SchemaEntity(r.name.value, r.entityType.GetOr(DefaultEntityType), fields,
                               r.upstream.GetOr([]), r.downstream.GetOr([]), None);
    assert ConvertEntity(r) == Success(entity.(rawText := Some(DocumentText(entity))));
  }

  /** A file contributes its records when it loads without error. */
  predicate FileOk(d: Document) {
    FileRecords(d).Success?
  }

  /** The records of a file: the `entities` list of a mapping, none otherwise. */
  function Records(d: Document): seq<RawEntity> {
    if d.Mapping? then d.entities.GetOr([]) else []
  }

  /** Every record of every file, in file order and then record order. */
  function AllRecords(files: seq<Document>): seq<RawEntity> {
    Concat(MapSeq(files, Records))
  }

  /** A `None` document, a falsy value and a mapping without `entities` all
      give an empty record list. */
  lemma EmptyDocuments(d: Document)
    ensures d.NullDocument? || (d.NonMapping? && d.isEmpty) || d == Mapping(None) ==> FileRecords(d) == Success([])
    ensures FileOk(d) ==> FileRecords(d) == Success(Records(d))
  {
  }

  /** When every file loads, the first pass converts the records of all
      files as one list: files in order, each one's records in order. */
  lemma FirstPassFlat(files: seq<Document>)
    requires forall k :: 0 <= k < |files| ==> FileOk(files[k])
    ensures FirstPass(files) == MapResult(AllRecords(files), ConvertEntity)
  {
    forall k | 0 <= k < |files| ensures FileEntities(files[k]) == MapResult(Records(files[k]), ConvertEntity) {
      EmptyDocuments(files[k]);
    }
    MapResultFlatten(files, FileEntities, Records, ConvertEntity);
  }

  /** The load succeeds exactly when every file is a mapping (or empty) and
      every record of every file is loadable. */
  lemma LoadSucceedsIff(files: seq<Document>)
    ensures Load(files).Success? <==>
      (forall k :: 0 <= k < |files| ==> FileOk(files[k])) &&
      (forall i :: 0 <= i < |AllRecords(files)| ==> Loadable(AllRecords(files)[i]))
  {
    MapResultSuccess(files, FileEntities);
    if forall k :: 0 <= k < |files| ==> FileOk(files[k]) {
      FirstPassFlat(files);
      var all := AllRecords(files);
      MapResultSuccess(all, ConvertEntity);
      forall i | 0 <= i < |all| ensures ConvertEntity(all[i]).Success? <==> Loadable(all[i]) {
        ConvertEntitySucceedsIff(all[i]);
      }
    } else {
      var k :| 0 <= k < |files| && !FileOk(files[k]);
      assert !FileEntities(files[k]).Success?;
    }
  }

  /** A successful load holds one entity per record, in file order and then
      record order, duplicate names included; each is the record's entity
      from the first pass with the impact block appended. */
  lemma LoadOrder(files: seq<Document>)
    requires Load(files).Success?
    ensures |Load(files).value| == |AllRecords(files)|
    ensures forall i :: 0 <= i < |AllRecords(files)| ==>
      ConvertEntity(AllRecords(files)[i]).Success? &&
      Load(files).value[i] == WithImpact(ConvertEntity(AllRecords(files)[i]).value)
  {
    LoadSucceedsIff(files);
    FirstPassFlat(files);
    MapResultSuccess(AllRecords(files), ConvertEntity);
  }

  /** An element converting to an empty list can be dropped from a
      conversion whose results are then concatenated. */
  lemma {:induction false} MapResultSkipsEmpty<X, T, E>(a: seq<X>, x: X, b: seq<X>, f: X -> Result<seq<T>, E>)
    requires f(x) == Success([])
    ensures MapResult(a + [x] + b, f).Success? <==> MapResult(a + b, f).Success?
    ensures MapResult(a + [x] + b, f).Failure? ==> MapResult(a + [x] + b, f).error == MapResult(a + b, f).error
    ensures MapResult(a + [x] + b, f).Success? ==>
      Concat(MapResult(a + [x] + b, f).value) == Concat(MapResult(a + b, f).value)
    decreases |b|
  {
    var full, short := a + [x] + b, a + b;
    if b == [] {
      assert full[..|full| - 1] == a && full[|full| - 1] == x;
      assert short == a;
      if MapResult(a, f).Success? {
        var g := MapResult(a, f).value;
        var none: seq<seq<T>> := [[]];
        assert (g + none)[..|g|] == g && (g + none)[|g|] == [];
        assert Concat(g + none) == Concat(g) + [];
      }
    } else {
      var pre, y := b[..|b| - 1], b[|b| - 1];
      MapResultSkipsEmpty(a, x, pre, f);
      assert full[..|full| - 1] == a + [x] + pre && full[|full| - 1] == y;
      assert short[..|short| - 1] == a + pre && short[|short| - 1] == y;
      var r1, r2 := MapResult(a + [x] + pre, f), MapResult(a + pre, f);
      if r1.Success? && r2.Success? && f(y).Success? {
        var z := f(y).value;
        assert (r1.value + [z])[..|r1.value|] == r1.value;
        assert (r2.value + [z])[..|r2.value|] == r2.value;
      }
    }
  }

  /** Files that yield no records can be dropped without changing the
      first pass. */
  lemma FirstPassSkipsEmpty(a: seq<Document>, d: Document, b: seq<Document>)
    requires FileRecords(d) == Success([])
    ensures FirstPass(a + [d] + b) == FirstPass(a + b)
  {
    assert FileEntities(d) == Success([]);
    MapResultSkipsEmpty(a, d, b, FileEntities);
  }

  /** Files that yield no records (a `None` document, a falsy value, a
      mapping without `entities`) can be dropped without changing the load. */
  lemma LoadSkipsEmptyDocuments(a: seq<Document>, d: Document, b: seq<Document>)
    requires FileRecords(d) == Success([])
    ensures Load(a + [d] + b) == Load(a + b)
  {
    FirstPassSkipsEmpty(a, d, b);
  }

  /** The second pass changes `raw_text` only: it becomes the document text,
      then "\n\n", then the impact block, and everything else is the first
      pass's entity. */
  lemma LoadRawText(files: seq<Document>)
    requires Load(files).Success?
    ensures FirstPass(files).Success?
    ensures |Load(files).value| == |FirstPass(files).value|
    ensures forall i :: 0 <= i < |FirstPass(files).value| ==>
      var e := FirstPass(files).value[i];
      Load(files).value[i] == e.(rawText := Some(DocumentText(e) + "\n\n" + ImpactText(e)))
  {
    FirstPassRawText(files);
  }

  /** The lines of the impact block. */
  function ImpactLines(e: SchemaEntity): seq<string> {
    ["", "Impact Analysis for " + e.name + ":", "",
     "Upstream systems: " + Join(", ", SystemsList(e.upstream)),
     "Downstream systems: " + Join(", ", SystemsList(e.downstream)), "", ""]
  }

  /** Seven lines of which the first, third and last two are empty, joined
      by newlines. */
  lemma ImpactShape(t: string, u: string, d: string)
    ensures Join("\n", ["", t, "", u, d, "", ""]) == "\n" + t + "\n" + "\n" + u + "\n" + d + "\n" + "\n"
  {
    var l := ["", t, "", u, d, "", ""];
    assert l[6..] == [""];
    assert Join("\n", l[5..]) == "" + "\n" + "" by { assert l[5..][1..] == l[6..]; }
    assert Join("\n", l[4..]) == d + "\n" + Join("\n", l[5..]) by { assert l[4..][1..] == l[5..]; }
    assert Join("\n", l[3..]) == u + "\n" + Join("\n", l[4..]) by { assert l[3..][1..] == l[4..]; }
    assert Join("\n", l[2..]) == "" + "\n" + Join("\n", l[3..]) by { assert l[2..][1..] == l[3..]; }
    assert Join("\n", l[1..]) == t + "\n" + Join("\n", l[2..]) by { assert l[1..][1..] == l[2..]; }
    assert Join("\n", l) == "" + "\n" + Join("\n", l[1..]);
  }

  /** The impact block is its seven lines joined by newlines; an empty edge
      list reads as the single token `None`. */
  lemma ImpactTextIsJoin(e: SchemaEntity)
    ensures ImpactText(e) == Join("\n", ImpactLines(e))
    ensures e.upstream == [] ==> ImpactLines(e)[3] == "Upstream systems: None"
    ensures e.downstream == [] ==> ImpactLines(e)[4] == "Downstream systems: None"
    ensures e.upstream != [] ==> ImpactLines(e)[3] == "Upstream systems: " + Join(", ", e.upstream)
    ensures e.downstream != [] ==> ImpactLines(e)[4] == "Downstream systems: " + Join(", ", e.downstream)
  {
    var l := ImpactLines(e);
    ImpactShape(l[1], l[3], l[4]);
    assert l == ["", l[1], "", l[3], l[4], "", ""];
    if e.upstream == [] {
      assert Join(", ", ["None"]) == "None";
    }
    if e.downstream == [] {
      assert Join(", ", ["None"]) == "None";
    }
  }

  /** The document lines of an entity with single-line parts have no
      newline. */
  lemma DocumentLinesAvoidNewline(e: SchemaEntity)
    requires SingleLineParts(e)
    ensures forall i :: 0 <= i < |DocumentLines(e)| ==> '\n' !in DocumentLines(e)[i]
  {
    DocumentTextLines(e);
    SplitPartsAvoid(DocumentText(e), '\n');
  }

  lemma ImpactLinesAvoidNewline(e: SchemaEntity)
    requires SingleLineParts(e)
    ensures forall i :: 0 <= i < |ImpactLines(e)| ==> '\n' !in ImpactLines(e)[i]
  {
    JoinAvoids(", ", SystemsList(e.upstream), '\n');
    JoinAvoids(", ", SystemsList(e.downstream), '\n');
  }

  /** Appending "\n\n" and a block is joining with one empty line between. */
  lemma GlueBlocks(doc: seq<string>, imp: seq<string>)
    requires doc != [] && imp != []
    ensures Join("\n", doc) + "\n\n" + Join("\n", imp) == Join("\n", doc + [""] + imp)
  {
    JoinConcat("\n", doc, [""]);
    JoinConcat("\n", doc + [""], imp);
    assert Join("\n", [""]) == "";
    assert "\n\n" == "\n" + "" + "\n";
  }

  /** Splitting the final `raw_text` of an entity with single-line parts at
      newlines gives the document lines, one empty line, and the seven
      impact lines. */
  lemma RawTextLines(e: SchemaEntity)
    requires SingleLineParts(e)
    ensures Split(DocumentText(e) + "\n\n" + ImpactText(e), '\n') == DocumentLines(e) + [""] + ImpactLines(e)
  {
    var doc, imp := DocumentLines(e), ImpactLines(e);
    ImpactTextIsJoin(e);
    GlueBlocks(doc, imp);
    DocumentLinesAvoidNewline(e);
    ImpactLinesAvoidNewline(e);
    LinesAvoid(doc + [""], imp, '\n');
    SplitJoin(doc + [""] + imp, '\n');
  }

  lemma LinesAvoid(a: seq<string>, b: seq<string>, c: char)
    requires forall i :: 0 <= i < |a| ==> c !in a[i]
    requires forall i :: 0 <= i < |b| ==> c !in b[i]
    ensures forall i :: 0 <= i < |a + b| ==> c !in (a + b)[i]
  {
  }

  /** `entity_dict` holds every loaded name ... */
  lemma {:induction false} EntityByNameKeys(es: seq<SchemaEntity>)
    ensures forall n :: n in EntityByName(es) <==> exists i :: 0 <= i < |es| && es[i].name == n
    decreases |es|
  {
    if es != [] {
      var pre := es[..|es| - 1];
      EntityByNameKeys(pre);
      forall n | n in EntityByName(es) ensures exists i :: 0 <= i < |es| && es[i].name == n {
        if n != es[|es| - 1].name {
          assert n in EntityByName(pre);
          var i :| 0 <= i < |pre| && pre[i].name == n;
          assert es[i] == pre[i];
        }
      }
      forall n | exists i :: 0 <= i < |es| && es[i].name == n ensures n in EntityByName(es) {
        var i :| 0 <= i < |es| && es[i].name == n;
        if i < |pre| {
          assert pre[i].name == n;
        }
      }
    }
  }

  /** ... and maps it to the last entity of that name: later duplicates
      overwrite earlier ones. */
  lemma {:induction false} EntityByNameLast(es: seq<SchemaEntity>, i: nat)
    requires i < |es|
    requires forall j :: i < j < |es| ==> es[j].name != es[i].name
    ensures es[i].name in EntityByName(es) && EntityByName(es)[es[i].name] == es[i]
    decreases |es|
  {
    if i < |es| - 1 {
      var pre := es[..|es| - 1];
      EntityByNameLast(pre, i);
    }
  }
}
