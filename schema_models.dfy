/** The catalogue's entity model (`FieldDef`, `SchemaEntity`), the plain-text
    rendering of an entity, and the two impact-analysis queries: the direct
    neighbours of an entity and its full upstream and downstream lineage. */
module SchemaModels {
  import opened Wrappers
  import opened Text

  /** One column of an entity; `fieldType` is the record's `type`. */
  datatype FieldDef = FieldDef(
    name: string,
    fieldType: Option<string>,
    required: bool,
    pii: bool,
    description: Option<string>)

  /** A catalogue entity. `upstream` and `downstream` hold names, which need
      not be names of catalogue entries. */
  datatype SchemaEntity = SchemaEntity(
    name: string,
    entityType: string,
    fields: seq<FieldDef>,
    upstream: seq<string>,
    downstream: seq<string>,
    rawText: Option<string>)

  /** A catalogue: entity name to entity. */
  type Catalogue = map<string, SchemaEntity>

  // ---------------------------------------------------------------------
  // Document text
  // ---------------------------------------------------------------------

  function HeaderLine(e: SchemaEntity): string {
    "Entity: " + e.name + " (" + e.entityType + ")"
  }

  /** A type is formatted with Python's `str`, so an absent one reads `None`. */
  function TypeText(t: Option<string>): string {
    match t
    case Some(s) => s
    case None => "None"
  }

  function FlagsText(f: FieldDef): string {
    var flags := (if f.required then ["required"] else []) + (if f.pii then ["PII"] else []);
    if flags != [] then " [" + Join(" ,", flags) + "]" else ""
  }

  function DescriptionText(d: Option<string>): string {
    if d.Some? && d.value != "" then " - " + d.value else ""
  }

  /** The flag bracket of a field line: `required` before `PII`, joined by
      the literal " ,", and no bracket at all when neither flag is set. */
  lemma FlagsTextCases(f: FieldDef)
    ensures FlagsText(f) == "" <==> !f.required && !f.pii
    ensures f.required && f.pii ==> FlagsText(f) == " [required ,PII]"
    ensures f.required && !f.pii ==> FlagsText(f) == " [required]"
    ensures !f.required && f.pii ==> FlagsText(f) == " [PII]"
  {
    if f.required && f.pii {
      var flags := ["required", "PII"];
      assert flags[1..] == ["PII"];
      assert Join(" ,", flags) == "required" + " ," + "PII";
    }
  }

  /** The description suffix is present exactly when the description is a
      non-empty string (Python truthiness). */
  lemma DescriptionTextCases(d: Option<string>)
    ensures DescriptionText(d) == "" <==> d.None? || d.value == ""
    ensures DescriptionText(d) != "" ==> DescriptionText(d) == " - " + d.value
  {
  }

  function FieldLine(f: FieldDef): string {
    "- " + f.name + ": " + TypeText(f.fieldType) + FlagsText(f) + DescriptionText(f.description)
  }

  function FieldLines(fs: seq<FieldDef>): seq<string> {
    MapSeq(fs, FieldLine)
  }

  /** `s`, with the optional line appended. */
  function AppendLine<L>(s: seq<L>, line: Option<L>): seq<L> {
    if line.Some? then s + [line.value] else s
  }

  /** The layout of the document: the header line, "Fields:", one line per
      field in order, then the optional upstream and downstream lines. */
  function Layout<L>(header: L, fieldsTitle: L, fieldLines: seq<L>, up: Option<L>, down: Option<L>): (lines: seq<L>)
    ensures |lines| == 2 + |fieldLines| + (if up.Some? then 1 else 0) + (if down.Some? then 1 else 0)
    ensures lines[0] == header && lines[1] == fieldsTitle
    ensures forall i :: 0 <= i < |fieldLines| ==> lines[2 + i] == fieldLines[i]
    ensures up.Some? ==> lines[2 + |fieldLines|] == up.value
    ensures down.Some? ==> lines[|lines| - 1] == down.value
  {
    AppendLine(AppendLine([header, fieldsTitle] + fieldLines, up), down)
  }

  function UpstreamLine(e: SchemaEntity): Option<string> {
    if e.upstream != [] then Some("Upstream: " + Join(", ", e.upstream)) else None
  }

  function DownstreamLine(e: SchemaEntity): Option<string> {
    if e.downstream != [] then Some("Downstream: " + Join(", ", e.downstream)) else None
  }

  /** The lines of `to_document_text`. */
  function DocumentLines(e: SchemaEntity): seq<string> {
    Layout(HeaderLine(e), "Fields:", FieldLines(e.fields), UpstreamLine(e), DownstreamLine(e))
  }

  /** The value `to_document_text` returns. */
  function DocumentText(e: SchemaEntity): string {
    Join("\n", DocumentLines(e))
  }

  /** One iteration of the field loop of `to_document_text`: the flag list
      built by appending, then the line. */
  method RenderField(f: FieldDef) returns (line: string)
    ensures line == FieldLine(f)
  {
    var flags: seq<string> := [];
    if f.required {
      flags := flags + ["required"];
    }
    if f.pii {
      flags := flags + ["PII"];
    }
    var flagsText := if flags != [] then " [" + Join(" ,", flags) + "]" else "";
    var desc := if f.description.Some? && f.description.value != "" then " - " + f.description.value else "";
    line := "- " + f.name + ": " + TypeText(f.fieldType) + flagsText + desc;
  }

  /** The field loop of `to_document_text`: one line appended per field, in
      order. */
  method AppendFieldLines(lines0: seq<string>, fields: seq<FieldDef>) returns (lines: seq<string>)
    ensures lines == lines0 + FieldLines(fields)
  {
    lines := lines0;
    for i := 0 to |fields|
      invariant lines == lines0 + FieldLines(fields[..i])
    {
      var line := RenderField(fields[i]);
      MapSeqSnoc(fields, FieldLine, i);
      lines := lines + [line];
    }
    assert fields[..|fields|] == fields;
  }

  /** `to_document_text`, building the list of lines by appending, as
      `to_document_text` does, and joining it with newlines. */
  method ToDocumentText(e: SchemaEntity) returns (text: string)
    ensures text == DocumentText(e)
  {
    var lines := [HeaderLine(e)];
    lines := lines + ["Fields:"];
    assert lines == [HeaderLine(e), "Fields:"];
    lines := AppendFieldLines(lines, e.fields);
    ghost var body := lines;
    if e.upstream != [] {
      lines := lines + ["Upstream: " + Join(", ", e.upstream)];
    }
    ghost var withUp := lines;
    if e.downstream != [] {
      lines := lines + ["Downstream: " + Join(", ", e.downstream)];
    }
    assert withUp == AppendLine(body, UpstreamLine(e));
    assert lines == AppendLine(withUp, DownstreamLine(e));
    DocumentLinesParts(e);
    text := Join("\n", lines);
  }

  /** The document lines as the body of `to_document_text` assembles them. */
  lemma DocumentLinesParts(e: SchemaEntity)
    ensures DocumentLines(e)
         == AppendLine(AppendLine([HeaderLine(e), "Fields:"] + FieldLines(e.fields), UpstreamLine(e)), DownstreamLine(e))
  {
  }

  /** No string the rendering is built from contains a newline. */
  predicate SingleLineParts(e: SchemaEntity) {
    && '\n' !in e.name && '\n' !in e.entityType
    && (forall i :: 0 <= i < |e.upstream| ==> '\n' !in e.upstream[i])
    && (forall i :: 0 <= i < |e.downstream| ==> '\n' !in e.downstream[i])
    && (forall i :: 0 <= i < |e.fields| ==> FieldIsSingleLine(e.fields[i]))
  }

  predicate FieldIsSingleLine(f: FieldDef) {
    && '\n' !in f.name
    && (f.fieldType.Some? ==> '\n' !in f.fieldType.value)
    && (f.description.Some? ==> '\n' !in f.description.value)
  }

  lemma HeaderLineIsSingleLine(e: SchemaEntity)
    requires '\n' !in e.name && '\n' !in e.entityType
    ensures '\n' !in HeaderLine(e)
  {
  }

  lemma FieldLineIsSingleLine(f: FieldDef)
    requires FieldIsSingleLine(f)
    ensures '\n' !in FieldLine(f)
  {
    FlagsTextCases(f);
    assert '\n' !in FlagsText(f);
    assert '\n' !in TypeText(f.fieldType);
    assert '\n' !in DescriptionText(f.description);
  }

  lemma EdgeLineIsSingleLine(title: string, names: seq<string>)
    requires '\n' !in title
    requires forall i :: 0 <= i < |names| ==> '\n' !in names[i]
    ensures '\n' !in title + Join(", ", names)
  {
    JoinAvoids(", ", names, '\n');
  }

  /** When its parts are single-line, the document text splits back into
      exactly its lines: 2 + |fields| lines, plus one for a non-empty
      upstream list and one for a non-empty downstream list. */
  lemma DocumentTextLines(e: SchemaEntity)
    requires SingleLineParts(e)
    ensures Split(DocumentText(e), '\n') == DocumentLines(e)
    ensures |Split(DocumentText(e), '\n')|
         == 2 + |e.fields| + (if e.upstream != [] then 1 else 0) + (if e.downstream != [] then 1 else 0)
  {
    var lines := DocumentLines(e);
    var fieldLines := FieldLines(e.fields);
    HeaderLineIsSingleLine(e);
    if e.upstream != [] {
      EdgeLineIsSingleLine("Upstream: ", e.upstream);
    }
    if e.downstream != [] {
      EdgeLineIsSingleLine("Downstream: ", e.downstream);
    }
    forall i | 0 <= i < |lines| ensures '\n' !in lines[i] {
      if 2 <= i < 2 + |e.fields| {
        assert lines[i] == fieldLines[i - 2] == FieldLine(e.fields[i - 2]);
        assert FieldIsSingleLine(e.fields[i - 2]);
        FieldLineIsSingleLine(e.fields[i - 2]);
      }
    }
    SplitJoin(lines, '\n');
  }

  // ---------------------------------------------------------------------
  // Direct impact
  // ---------------------------------------------------------------------

  /** `get_impacted_entities`: the entities named in `upstream` or
      `downstream` that the catalogue holds, given by their catalogue keys.
      Unknown names are dropped; the entity itself is kept when it lists
      itself and is in the catalogue. */
  method GetImpactedEntities(e: SchemaEntity, cat: Catalogue) returns (impacted: set<string>)
    ensures forall n :: n in impacted <==> n in cat && (n in e.upstream || n in e.downstream)
    ensures impacted <= cat.Keys
  {
    impacted := {};
    for i := 0 to |e.upstream|
      invariant forall n :: n in impacted <==> n in cat && n in e.upstream[..i]
    {
      var u := e.upstream[i];
      if u in cat {
        impacted := impacted + {u};
      }
      assert e.upstream[..i + 1] == e.upstream[..i] + [u];
    }
    assert e.upstream[..|e.upstream|] == e.upstream;
    for i := 0 to |e.downstream|
      invariant forall n :: n in impacted <==> n in cat && (n in e.upstream || n in e.downstream[..i])
    {
      var d := e.downstream[i];
      if d in cat {
        impacted := impacted + {d};
      }
      assert e.downstream[..i + 1] == e.downstream[..i] + [d];
    }
    assert e.downstream[..|e.downstream|] == e.downstream;
  }

  // ---------------------------------------------------------------------
  // Full lineage
  // ---------------------------------------------------------------------

  /** The two traversals of `get_full_lineage`: `dfs_up` follows `upstream`
      lists and `dfs_down` follows `downstream` lists. */
  datatype Direction = Up | Down

  function Edges(e: SchemaEntity, dir: Direction): seq<string> {
    match dir
    case Up => e.upstream
    case Down => e.downstream
  }

  /** The names a traversal expands `n` into: the edge list of its catalogue
      entry, and nothing for a name the catalogue does not hold. */
  function Successors(cat: Catalogue, dir: Direction, n: string): seq<string> {
    if n in cat then Edges(cat[n], dir) else []
  }

  /** A walk: each name is in the expansion of the one before it. */
  ghost predicate IsWalk(cat: Catalogue, dir: Direction, p: seq<string>) {
    |p| >= 1 && forall i :: 0 <= i < |p| - 1 ==> p[i + 1] in Successors(cat, dir, p[i])
  }

  /** `to` is reached from `from` by zero or more expansions. */
  ghost predicate Reachable(cat: Catalogue, dir: Direction, from: string, to: string) {
    exists p :: IsWalk(cat, dir, p) && p[0] == from && p[|p| - 1] == to
  }

  /** Every name a traversal from `start` can meet: finite, so the set of
      names still unvisited is a termination measure. */
  ghost function Universe(cat: Catalogue, dir: Direction, start: string): set<string> {
    {start} + cat.Keys + (set k, n | k in cat && n in Edges(cat[k], dir) :: n)
  }

  lemma ReachableFromItself(cat: Catalogue, dir: Direction, start: string)
    ensures Reachable(cat, dir, start, start)
  {
    assert IsWalk(cat, dir, [start]);
  }

  lemma ReachStep(cat: Catalogue, dir: Direction, start: string, n: string, m: string)
    requires Reachable(cat, dir, start, n)
    requires m in Successors(cat, dir, n)
    ensures Reachable(cat, dir, start, m)
  {
    var p :| IsWalk(cat, dir, p) && p[0] == start && p[|p| - 1] == n;
    var q := p + [m];
    forall i | 0 <= i < |q| - 1 ensures q[i + 1] in Successors(cat, dir, q[i]) {
      if i < |p| - 1 {
        assert q[i] == p[i] && q[i + 1] == p[i + 1];
      }
    }
    assert IsWalk(cat, dir, q);
  }

  /** Reachability is transitive: the lineage of a lineage member is part of
      the lineage. */
  lemma ReachTransitive(cat: Catalogue, dir: Direction, a: string, b: string, c: string)
    requires Reachable(cat, dir, a, b) && Reachable(cat, dir, b, c)
    ensures Reachable(cat, dir, a, c)
  {
    var p :| IsWalk(cat, dir, p) && p[0] == a && p[|p| - 1] == b;
    var q :| IsWalk(cat, dir, q) && q[0] == b && q[|q| - 1] == c;
    var w := p + q[1..];
    forall i | 0 <= i < |w| - 1 ensures w[i + 1] in Successors(cat, dir, w[i]) {
      if i < |p| - 1 {
        assert w[i] == p[i] && w[i + 1] == p[i + 1];
      } else if i == |p| - 1 {
        assert w[i] == q[0] && w[i + 1] == q[1];
      } else {
        assert w[i] == q[i - |p| + 1] && w[i + 1] == q[i - |p| + 2];
      }
    }
    assert IsWalk(cat, dir, w);
  }

  lemma {:induction false} WalkStaysInClosedSet(cat: Catalogue, dir: Direction, p: seq<string>, s: set<string>, k: nat)
    requires IsWalk(cat, dir, p) && p[0] in s
    requires forall n, m :: n in s && m in Successors(cat, dir, n) ==> m in s
    requires k < |p|
    ensures p[k] in s
  {
    if k > 0 {
      WalkStaysInClosedSet(cat, dir, p, s, k - 1);
    }
  }

  /** A set that holds `start` and the expansion of each of its names holds
      everything reachable from `start`. */
  lemma ClosedContainsReachable(cat: Catalogue, dir: Direction, start: string, s: set<string>)
    requires start in s
    requires forall n, m :: n in s && m in Successors(cat, dir, n) ==> m in s
    ensures forall n :: Reachable(cat, dir, start, n) ==> n in s
  {
    forall n | Reachable(cat, dir, start, n) ensures n in s {
      var p :| IsWalk(cat, dir, p) && p[0] == start && p[|p| - 1] == n;
      WalkStaysInClosedSet(cat, dir, p, s, |p| - 1);
    }
  }

  /** A name the catalogue does not hold reaches only itself: a traversal
      records it and stops there. */
  lemma UnknownNameReachesOnlyItself(cat: Catalogue, dir: Direction, start: string)
    requires start !in cat
    ensures forall n :: Reachable(cat, dir, start, n) <==> n == start
  {
    ReachableFromItself(cat, dir, start);
    ClosedContainsReachable(cat, dir, start, {start});
  }

  /** Every name reached beyond the start is listed by a reached catalogue
      entry; in particular names outside the catalogue contribute nothing. */
  lemma ReachedThroughCatalogueEntry(cat: Catalogue, dir: Direction, start: string, n: string)
    requires Reachable(cat, dir, start, n) && n != start
    ensures exists k :: k in cat && Reachable(cat, dir, start, k) && n in Edges(cat[k], dir)
  {
    var p :| IsWalk(cat, dir, p) && p[0] == start && p[|p| - 1] == n;
    var k := p[|p| - 2];
    assert n in Successors(cat, dir, k);
    var q := p[..|p| - 1];
    forall i | 0 <= i < |q| - 1 ensures q[i + 1] in Successors(cat, dir, q[i]) {
      assert q[i] == p[i] && q[i + 1] == p[i + 1];
    }
    assert IsWalk(cat, dir, q);
    assert Reachable(cat, dir, start, k);
  }

  /** The state of a traversal from `start`: every visited or pending name
      is reachable, `start` is visited or pending, and every expansion of a
      visited name is visited or still pending. */
  ghost predicate Frontier(cat: Catalogue, dir: Direction, start: string, visited: set<string>, pending: seq<string>) {
    && (start in visited || start in pending)
    && (forall n :: n in visited ==> Reachable(cat, dir, start, n))
    && (forall n :: n in pending ==> Reachable(cat, dir, start, n))
    && (forall n, m :: n in visited && m in Successors(cat, dir, n) ==> m in visited || m in pending)
  }

  /** Popping a name already visited keeps the frontier. */
  lemma SkipVisited(cat: Catalogue, dir: Direction, start: string, visited: set<string>, pending: seq<string>, name: string)
    requires Frontier(cat, dir, start, visited, pending + [name])
    requires name in visited
    ensures Frontier(cat, dir, start, visited, pending)
  {
    assert forall n :: n in pending + [name] ==> n == name || n in pending;
  }

  /** Visiting a popped name and pushing its expansion keeps the frontier. */
  lemma ExpandName(cat: Catalogue, dir: Direction, start: string, visited: set<string>, pending: seq<string>, name: string)
    requires Frontier(cat, dir, start, visited, pending + [name])
    ensures Frontier(cat, dir, start, visited + {name}, pending + Successors(cat, dir, name))
  {
    var next := Successors(cat, dir, name);
    assert name in pending + [name];
    forall m | m in next ensures Reachable(cat, dir, start, m) {
      ReachStep(cat, dir, start, name, m);
    }
    assert forall n :: n in pending + [name] ==> n == name || n in pending;
  }

  lemma SuccessorsInUniverse(cat: Catalogue, dir: Direction, start: string, name: string)
    ensures forall m :: m in Successors(cat, dir, name) ==> m in Universe(cat, dir, start)
  {
    forall m | m in Successors(cat, dir, name) ensures m in Universe(cat, dir, start) {
      assert name in cat && m in Edges(cat[name], dir);
    }
  }

  /** A frontier with nothing pending is exactly the reachable set. */
  lemma FrontierDone(cat: Catalogue, dir: Direction, start: string, visited: set<string>)
    requires Frontier(cat, dir, start, visited, [])
    ensures forall n :: n in visited <==> Reachable(cat, dir, start, n)
  {
    ClosedContainsReachable(cat, dir, start, visited);
  }

  /** Visiting a new name shrinks the set of unvisited names. */
  lemma VisitShrinks(universe: set<string>, visited: set<string>, name: string)
    requires name in universe && name !in visited
    ensures |universe - (visited + {name})| < |universe - visited|
  {
    assert universe - (visited + {name}) == (universe - visited) - {name};
  }

  /** The loop state of a traversal: a frontier within the finite universe
      of names the catalogue mentions. */
  ghost predicate Traversal(cat: Catalogue, dir: Direction, start: string, visited: set<string>, pending: seq<string>) {
    && visited <= Universe(cat, dir, start)
    && (forall n :: n in pending ==> n in Universe(cat, dir, start))
    && Frontier(cat, dir, start, visited, pending)
  }

  /** One iteration of the traversal loop keeps its state, and expanding a
      new name shrinks the set of names left to visit. */
  lemma TraversalStep(cat: Catalogue, dir: Direction, start: string, visited: set<string>, pending: seq<string>, name: string)
    requires Traversal(cat, dir, start, visited, pending + [name])
    ensures name in visited ==> Traversal(cat, dir, start, visited, pending)
    ensures name !in visited ==> Traversal(cat, dir, start, visited + {name}, pending + Successors(cat, dir, name))
    ensures name !in visited ==>
      |Universe(cat, dir, start) - (visited + {name})| < |Universe(cat, dir, start) - visited|
  {
    assert name in pending + [name];
    assert forall n :: n in pending ==> n in pending + [name];
    if name in visited {
      SkipVisited(cat, dir, start, visited, pending, name);
    } else {
      ExpandName(cat, dir, start, visited, pending, name);
      SuccessorsInUniverse(cat, dir, start, name);
      VisitShrinks(Universe(cat, dir, start), visited, name);
    }
  }

  /** One traversal of `get_full_lineage` (`dfs_up` or `dfs_down`) with an
      explicit stack in place of the recursion: a popped name already visited
      is skipped, otherwise it is marked visited and its edge list (empty for
      a name the catalogue does not hold) is pushed. */
  method Closure(cat: Catalogue, dir: Direction, start: string) returns (visited: set<string>)
    ensures forall n :: n in visited <==> Reachable(cat, dir, start, n)
  {
    visited := {};
    var pending := [start];
    ReachableFromItself(cat, dir, start);
    while pending != []
      invariant Traversal(cat, dir, start, visited, pending)
      decreases |Universe(cat, dir, start) - visited|, |pending|
    {
      var name := pending[|pending| - 1];
      SplitLast(pending);
      pending := pending[..|pending| - 1];
      TraversalStep(cat, dir, start, visited, pending, name);
      if name !in visited {
        visited := visited + {name};
        pending := pending + Successors(cat, dir, name);
      }
    }
    FrontierDone(cat, dir, start, visited);
  }

  /** `get_full_lineage`: the names reached from the catalogue entry of
      `e.name` along upstream edges and along downstream edges, each
      traversal on its own visited set, with `e.name` discarded from both. */
  method GetFullLineage(e: SchemaEntity, cat: Catalogue) returns (fullUpstream: set<string>, fullDownstream: set<string>)
    ensures forall n :: n in fullUpstream <==> n != e.name && Reachable(cat, Up, e.name, n)
    ensures forall n :: n in fullDownstream <==> n != e.name && Reachable(cat, Down, e.name, n)
    ensures e.name !in fullUpstream && e.name !in fullDownstream
    ensures e.name !in cat ==> fullUpstream == {} && fullDownstream == {}
  {
    var visitedUp := Closure(cat, Up, e.name);
    var visitedDown := Closure(cat, Down, e.name);
    fullUpstream := visitedUp - {e.name};
    fullDownstream := visitedDown - {e.name};
    if e.name !in cat {
      UnknownNameReachesOnlyItself(cat, Up, e.name);
      UnknownNameReachesOnlyItself(cat, Down, e.name);
    }
  }
}
