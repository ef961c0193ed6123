/** `src/sql_lineage_to_yaml.py`: folding parsed SQL statements into a map
    from created tables to the tables they read, and turning that map into
    the list of entity records the YAML catalogue is written from.

    The parser is not modelled: a statement is what the parser reports about
    it, namely whether it is a create whose target is a table reference,
    that target's name, and the names of all table references inside it (the
    target's own reference included), in the order the parser finds them. */
module SqlLineage {
  import opened Text

  /** The target of a create statement: a table reference or anything else. */
  datatype CreateTarget = TableTarget(name: string) | OtherTarget

  /** A parsed statement. `tables` lists the names of every table reference
      in the statement; a reference may have an empty name. */
  datatype Statement = Create(target: CreateTarget, tables: seq<string>) | OtherStatement

  /** The lineage map with Python's insertion order kept: `order` lists the
      keys of `sources` in the order they were inserted. */
  datatype Lineage = Lineage(order: seq<string>, sources: map<string, set<string>>)

  /** What every Python dictionary satisfies: each key is listed once. */
  ghost predicate WellFormed(l: Lineage) {
    Distinct(l.order) && forall t :: t in l.order <==> t in l.sources
  }

  /** The statements the extractor keeps. */
  predicate CreatesTable(s: Statement) {
    s.Create? && s.target.TableTarget?
  }

  predicate Creates(s: Statement, t: string) {
    CreatesTable(s) && s.target.name == t
  }

  /** `x` is a source a statement contributes to target `t`. */
  predicate Contributes(s: Statement, t: string, x: string) {
    Creates(s, t) && x in s.tables && x != "" && x != t
  }

  /** The sources one statement contributes: its table names other than the
      empty name and the target's own. */
  function StatementSources(target: string, tables: seq<string>): (r: set<string>)
    ensures forall x :: x in r <==> x in tables && x != "" && x != target
    decreases |tables|
  {
    if tables == [] then {}
    else
      var r := StatementSources(target, tables[..|tables| - 1]);
      var x := tables[|tables| - 1];
      assert tables == tables[..|tables| - 1] + [x];
      if x != "" && x != target then r + {x} else r
  }

  /** The effect of one statement on the lineage map. */
  function Step(l: Lineage, s: Statement): Lineage {
    if CreatesTable(s) then
      var t := s.target.name;
      var prior := if t in l.sources then l.sources[t] else {};
      Lineage(if t in l.sources then l.order else l.order + [t],
              l.sources[t := prior + StatementSources(t, s.tables)])
    else l
  }

  /** The lineage map of a statement list, statement by statement. */
  function Extract(stmts: seq<Statement>): Lineage
    decreases |stmts|
  {
    if stmts == [] then Lineage([], map[])
    else Step(Extract(stmts[..|stmts| - 1]), stmts[|stmts| - 1])
  }

  /** The targets of the kept statements, in statement order, repeats kept. */
  function CreatedTables(stmts: seq<Statement>): seq<string>
    decreases |stmts|
  {
    if stmts == [] then []
    else
      var s := stmts[|stmts| - 1];
      CreatedTables(stmts[..|stmts| - 1]) + if CreatesTable(s) then [s.target.name] else []
  }

  /** `extract_lineage_from_sql`, over the parser's statement list. */
  method ExtractLineage(stmts: seq<Statement>) returns (lineage: Lineage)
    ensures lineage == Extract(stmts)
  {
    var order: seq<string> := [];
    var sources: map<string, set<string>> := map[];
    for i := 0 to |stmts|
      invariant Lineage(order, sources) == Extract(stmts[..i])
    {
      var st := stmts[i];
      assert stmts[..i + 1][..i] == stmts[..i];
      if st.Create? && st.target.TableTarget? {
        var target := st.target.name;
        var found: set<string> := {};
        for j := 0 to |st.tables|
          invariant found == StatementSources(target, st.tables[..j])
        {
          var name := st.tables[j];
          assert st.tables[..j + 1][..j] == st.tables[..j];
          if name != "" && name != target {
            found := found + {name};
          }
        }
        assert st.tables[..|st.tables|] == st.tables;
        if target !in sources {
          order := order + [target];
          sources := sources[target := {}];
        }
        sources := sources[target := sources[target] + found];
      }
    }
    assert stmts[..|stmts|] == stmts;
    lineage := Lineage(order, sources);
  }

  /** The extracted map is a well-formed dictionary whose keys are the
      created tables in the order of their first creation. */
  lemma {:induction false} ExtractOrder(stmts: seq<Statement>)
    ensures WellFormed(Extract(stmts))
    ensures Extract(stmts).order == Dedup(CreatedTables(stmts))
    decreases |stmts|
  {
    if stmts != [] {
      var pre := stmts[..|stmts| - 1];
      var s := stmts[|stmts| - 1];
      ExtractOrder(pre);
      if CreatesTable(s) {
        var t := s.target.name;
        assert CreatedTables(stmts) == CreatedTables(pre) + [t];
        DedupSnoc(CreatedTables(pre), t);
        assert t in Extract(pre).sources <==> t in CreatedTables(pre);
        var o := Extract(pre).order;
        if t !in Extract(pre).sources {
          assert Extract(stmts).order == o + [t];
          assert Distinct(o + [t]) by {
            forall i, j | 0 <= i < j < |o + [t]| ensures (o + [t])[i] != (o + [t])[j] {
              if j == |o| {
                assert (o + [t])[i] == o[i];
              } else {
                assert (o + [t])[i] == o[i] && (o + [t])[j] == o[j];
              }
            }
          }
        } else {
          assert Extract(stmts).order == o;
        }
      } else {
        assert CreatedTables(stmts) == CreatedTables(pre) + [];
        assert CreatedTables(pre) + [] == CreatedTables(pre);
      }
    }
  }

  /** A name is a key exactly when some kept statement creates it. */
  lemma {:induction false} ExtractKeys(stmts: seq<Statement>)
    ensures forall t :: t in Extract(stmts).sources <==> exists i :: 0 <= i < |stmts| && Creates(stmts[i], t)
    decreases |stmts|
  {
    if stmts != [] {
      var pre := stmts[..|stmts| - 1];
      ExtractKeys(pre);
      forall t ensures t in Extract(stmts).sources <==> exists i :: 0 <= i < |stmts| && Creates(stmts[i], t) {
        if exists i :: 0 <= i < |stmts| && Creates(stmts[i], t) {
          var i :| 0 <= i < |stmts| && Creates(stmts[i], t);
          if i < |pre| {
            assert Creates(pre[i], t);
          }
        }
        if t in Extract(pre).sources {
          var i :| 0 <= i < |pre| && Creates(pre[i], t);
          assert Creates(stmts[i], t);
        }
      }
    }
  }

  /** The sources of a table are the union, over every kept statement that
      creates it, of that statement's table names other than the empty name
      and the table itself. */
  lemma {:induction false} ExtractSources(stmts: seq<Statement>)
    ensures forall t, x :: t in Extract(stmts).sources ==>
              (x in Extract(stmts).sources[t] <==> exists i :: 0 <= i < |stmts| && Contributes(stmts[i], t, x))
    decreases |stmts|
  {
    if stmts != [] {
      var pre := stmts[..|stmts| - 1];
      ExtractSources(pre);
      ExtractKeys(pre);
      forall t, x | t in Extract(stmts).sources
        ensures x in Extract(stmts).sources[t] <==> exists i :: 0 <= i < |stmts| && Contributes(stmts[i], t, x)
      {
        if exists i :: 0 <= i < |stmts| && Contributes(stmts[i], t, x) {
          var i :| 0 <= i < |stmts| && Contributes(stmts[i], t, x);
          if i < |pre| {
            assert Contributes(pre[i], t, x) && Creates(pre[i], t);
          }
        }
        if t in Extract(pre).sources && x in Extract(pre).sources[t] {
          var i :| 0 <= i < |pre| && Contributes(pre[i], t, x);
          assert Contributes(stmts[i], t, x);
        }
      }
    }
  }

  /** No table is its own source and the empty name is never a source. */
  lemma ExtractSourcesExcludeTargetAndEmpty(stmts: seq<Statement>)
    ensures forall t :: t in Extract(stmts).sources ==> t !in Extract(stmts).sources[t] && "" !in Extract(stmts).sources[t]
  {
    ExtractSources(stmts);
  }

  /** The map does not depend on the order of the statements. */
  lemma ExtractOrderIndependent(a: seq<Statement>, b: seq<Statement>)
    requires multiset(a) == multiset(b)
    ensures Extract(a).sources == Extract(b).sources
  {
    ExtractKeys(a);
    ExtractKeys(b);
    ExtractSources(a);
    ExtractSources(b);
    forall s ensures s in a <==> s in b {
      assert s in a <==> s in multiset(a);
      assert s in b <==> s in multiset(b);
    }
    forall t ensures t in Extract(a).sources <==> t in Extract(b).sources {
      if exists i :: 0 <= i < |a| && Creates(a[i], t) {
        var i :| 0 <= i < |a| && Creates(a[i], t);
        assert a[i] in b;
      }
      if exists i :: 0 <= i < |b| && Creates(b[i], t) {
        var i :| 0 <= i < |b| && Creates(b[i], t);
        assert b[i] in a;
      }
    }
    forall t | t in Extract(a).sources ensures Extract(a).sources[t] == Extract(b).sources[t] {
      forall x ensures x in Extract(a).sources[t] <==> x in Extract(b).sources[t] {
        if exists i :: 0 <= i < |a| && Contributes(a[i], t, x) {
          var i :| 0 <= i < |a| && Contributes(a[i], t, x);
          assert a[i] in b;
        }
        if exists i :: 0 <= i < |b| && Contributes(b[i], t, x) {
          var i :| 0 <= i < |b| && Contributes(b[i], t, x);
          assert b[i] in a;
        }
      }
    }
  }

  /** A statement that is not a create with a table target changes nothing,
      wherever it stands. */
  lemma {:induction false} ExtractIgnores(a: seq<Statement>, s: Statement, b: seq<Statement>)
    requires !CreatesTable(s)
    ensures Extract(a + [s] + b) == Extract(a + b)
    decreases |b|
  {
    if b == [] {
      assert (a + [s] + b)[..|a|] == a;
      assert a + b == a;
    } else {
      var pre := b[..|b| - 1];
      ExtractIgnores(a, s, pre);
      assert (a + [s] + b)[..|a + [s] + b| - 1] == a + [s] + pre;
      assert (a + b)[..|a + b| - 1] == a + pre;
    }
  }

  // ------------------------------------------------------------------
  // Building entity records from the lineage map
  // ------------------------------------------------------------------

  const ViewType: string := "view"
  const TableType: string := "table"

  /** One record of the `entities` list: the dictionary the builder makes
      for a name. `fields` stands for the record's field list. */
  datatype EntityRecord = EntityRecord(name: string, entityType: string, upstream: seq<string>,
                                       downstream: seq<string>, fields: seq<string>)

  /** The builder's `entities` dictionary: its keys in insertion order and
      the record stored under each key. */
  datatype Builder = Builder(names: seq<string>, records: map<string, EntityRecord>)

  /** The order in which Python iterates over the source set of each target:
      an enumeration of each set, once per element. */
  ghost predicate EnumeratesSources(l: Lineage, enum: map<string, seq<string>>) {
    forall t :: t in l.sources ==>
      t in enum && Distinct(enum[t]) && forall x :: x in enum[t] <==> x in l.sources[t]
  }

  function Enumeration(enum: map<string, seq<string>>, t: string): seq<string> {
    if t in enum then enum[t] else []
  }

  /** `entities.setdefault(n, {...})`: a name already present keeps its
      record, a new name is appended with an empty record of the given type. */
  function SetDefault(b: Builder, n: string, entityType: string): (r: Builder)
    ensures n in r.records && r.records.Keys == b.records.Keys + {n}
    ensures forall m :: m in b.records ==> r.records[m] == b.records[m]
    ensures r.names == if n in b.records then b.names else b.names + [n]
    ensures n !in b.records ==> r.records[n] == EntityRecord(n, entityType, [], [], [])
  {
    if n in b.records then b
    else Builder(b.names + [n], b.records[n := EntityRecord(n, entityType, [], [], [])])
  }

  /** Appending `t` to the downstream list of `s` unless it is there. */
  function AddDownstream(b: Builder, s: string, t: string): (r: Builder)
    requires s in b.records
    ensures r.names == b.names && r.records.Keys == b.records.Keys
    ensures t in r.records[s].downstream
    ensures forall m :: m in b.records && m != s ==> r.records[m] == b.records[m]
    ensures r.records[s] == b.records[s].(downstream :=
      if t in b.records[s].downstream then b.records[s].downstream else b.records[s].downstream + [t])
  {
    var rec := b.records[s];
    if t in rec.downstream then b
    else Builder(b.names, b.records[s := rec.(downstream := rec.downstream + [t])])
  }

  /** The inner loop body: the source `s` of target `t`. */
  function AddSource(b: Builder, t: string, s: string): Builder {
    AddDownstream(SetDefault(b, s, TableType), s, t)
  }

  /** The inner loop over the enumerated sources of `t`. */
  function AddSources(b: Builder, t: string, srcs: seq<string>): Builder
    decreases |srcs|
  {
    if srcs == [] then b
    else AddSource(AddSources(b, t, srcs[..|srcs| - 1]), t, srcs[|srcs| - 1])
  }

  /** The outer loop body up to its inner loop: the record of target `t`
      exists and its upstream list is the sorted union with `srcs`. */
  function StartTarget(b: Builder, t: string, srcs: seq<string>): Builder {
    var b1 := SetDefault(b, t, ViewType);
    var ent := b1.records[t];
    Builder(b1.names, b1.records[t := ent.(upstream := SortedSet(ent.upstream + srcs))])
  }

  function AddTarget(b: Builder, t: string, srcs: seq<string>): Builder {
    AddSources(StartTarget(b, t, srcs), t, srcs)
  }

  /** The outer loop over the targets `ts`, in order. */
  function BuildTargets(enum: map<string, seq<string>>, ts: seq<string>): Builder
    decreases |ts|
  {
    if ts == [] then Builder([], map[])
    else
      var t := ts[|ts| - 1];
      AddTarget(BuildTargets(enum, ts[..|ts| - 1]), t, Enumeration(enum, t))
  }

  /** `list(entities.values())`. */
  function RecordsInOrder(names: seq<string>, records: map<string, EntityRecord>): (r: seq<EntityRecord>)
    ensures |r| == |names|
    ensures forall i :: 0 <= i < |names| && names[i] in records ==> r[i] == records[names[i]]
  {
    seq(|names|, i requires 0 <= i < |names| => if names[i] in records then records[names[i]] else EntityRecord("", "", [], [], []))
  }

  /** The list `build_yaml_entities_from_lineage` returns. */
  function BuildEntities(l: Lineage, enum: map<string, seq<string>>): seq<EntityRecord> {
    var b := BuildTargets(enum, l.order);
    RecordsInOrder(b.names, b.records)
  }

  lemma AddSourcesStep(b: Builder, t: string, srcs: seq<string>, j: nat)
    requires j < |srcs|
    ensures AddSources(b, t, srcs[..j + 1]) == AddSource(AddSources(b, t, srcs[..j]), t, srcs[j])
  {
    assert srcs[..j + 1][..j] == srcs[..j];
  }

  lemma BuildTargetsStep(enum: map<string, seq<string>>, ts: seq<string>, i: nat)
    requires i < |ts|
    ensures BuildTargets(enum, ts[..i + 1]) == AddTarget(BuildTargets(enum, ts[..i]), ts[i], Enumeration(enum, ts[i]))
  {
    assert ts[..i + 1][..i] == ts[..i];
  }

  /** `build_yaml_entities_from_lineage`: the outer loop walks the targets in
      dictionary order, the inner loop walks each target's sources in the
      order `enum` gives. */
  method BuildYamlEntities(l: Lineage, enum: map<string, seq<string>>) returns (entities: seq<EntityRecord>)
    ensures entities == BuildEntities(l, enum)
  {
    var names: seq<string> := [];
    var records: map<string, EntityRecord> := map[];
    for i := 0 to |l.order|
      invariant Builder(names, records) == BuildTargets(enum, l.order[..i])
    {
      var target := l.order[i];
      var srcs := Enumeration(enum, target);
      ghost var before := Builder(names, records);
      if target !in records {
        names := names + [target];
        records := records[target := EntityRecord(target, ViewType, [], [], [])];
      }
      assert Builder(names, records) == SetDefault(before, target, ViewType);
      var ent := records[target];
      records := records[target := ent.(upstream := SortedSet(ent.upstream + srcs))];
      ghost var started := Builder(names, records);
      assert started == StartTarget(before, target, srcs);
      for j := 0 to |srcs|
        invariant Builder(names, records) == AddSources(started, target, srcs[..j])
      {
        var s := srcs[j];
        AddSourcesStep(started, target, srcs, j);
        ghost var current := Builder(names, records);
        if s !in records {
          names := names + [s];
          records := records[s := EntityRecord(s, TableType, [], [], [])];
        }
        ghost var added := Builder(names, records);
        assert added == SetDefault(current, s, TableType);
        var srcEnt := records[s];
        if target !in srcEnt.downstream {
          records := records[s := srcEnt.(downstream := srcEnt.downstream + [target])];
        }
        assert Builder(names, records) == AddDownstream(added, s, target);
      }
      assert srcs[..|srcs|] == srcs;
      BuildTargetsStep(enum, l.order, i);
    }
    assert l.order[..|l.order|] == l.order;
    entities := RecordsInOrder(names, records);
  }

  // ------------------------------------------------------------------
  // What the builder produces
  // ------------------------------------------------------------------

  /** A name as the builder meets it: as a target of the outer loop or as a
      source in the inner loop. */
  datatype Encounter = AsTarget(name: string) | AsSource(name: string)

  /** The type `setdefault` gives a record created at this encounter. */
  function TypeOf(e: Encounter): string {
    if e.AsTarget? then ViewType else TableType
  }

  function NameOf(e: Encounter): string {
    e.name
  }

  function SourceEncounter(s: string): Encounter {
    AsSource(s)
  }

  function TargetEncounters(t: string, srcs: seq<string>): seq<Encounter> {
    [AsTarget(t)] + MapSeq(srcs, SourceEncounter)
  }

  /** Every encounter of the builder, in the order it happens. */
  function Discovery(enum: map<string, seq<string>>, ts: seq<string>): seq<Encounter>
    decreases |ts|
  {
    if ts == [] then []
    else
      var t := ts[|ts| - 1];
      Discovery(enum, ts[..|ts| - 1]) + TargetEncounters(t, Enumeration(enum, t))
  }

  function EncounterNames(d: seq<Encounter>): seq<string> {
    MapSeq(d, NameOf)
  }

  /** The type a name gets at its first encounter ("" if it is never met). */
  function FirstType(d: seq<Encounter>, n: string): string
    decreases |d|
  {
    if d == [] then ""
    else if d[0].name == n then TypeOf(d[0])
    else FirstType(d[1..], n)
  }

  /** The targets among `ts`, in order, that list `n` as a source. */
  function Listing(l: Lineage, ts: seq<string>, n: string): seq<string>
    decreases |ts|
  {
    if ts == [] then []
    else
      var t := ts[|ts| - 1];
      Listing(l, ts[..|ts| - 1], n) + if t in l.sources && n in l.sources[t] then [t] else []
  }

  function RecordName(r: EntityRecord): string {
    r.name
  }

  lemma {:induction false} FirstTypeSnoc(d: seq<Encounter>, e: Encounter, n: string)
    ensures FirstType(d + [e], n) == if n in EncounterNames(d) then FirstType(d, n) else if e.name == n then TypeOf(e) else ""
    decreases |d|
  {
    if d != [] {
      assert (d + [e])[1..] == d[1..] + [e];
      FirstTypeSnoc(d[1..], e, n);
      assert EncounterNames(d) == [d[0].name] + EncounterNames(d[1..]);
    } else {
      assert EncounterNames(d) == [];
      assert (d + [e])[1..] == [];
    }
  }

  lemma {:induction false} ListingMembers(l: Lineage, ts: seq<string>, n: string)
    ensures forall t :: t in Listing(l, ts, n) <==> t in ts && t in l.sources && n in l.sources[t]
    ensures Distinct(ts) ==> Distinct(Listing(l, ts, n))
    decreases |ts|
  {
    if ts != [] {
      var pre := ts[..|ts| - 1];
      var t := ts[|ts| - 1];
      ListingMembers(l, pre, n);
      assert ts == pre + [t];
      if Distinct(ts) {
        assert Distinct(pre) by {
          forall i, j | 0 <= i < j < |pre| ensures pre[i] != pre[j] {
            assert pre[i] == ts[i] && pre[j] == ts[j];
          }
        }
        var ls := Listing(l, pre, n);
        if t in l.sources && n in l.sources[t] {
          assert t !in pre;
          forall i, j | 0 <= i < j < |ls + [t]| ensures (ls + [t])[i] != (ls + [t])[j] {
            if j == |ls| {
              assert (ls + [t])[i] == ls[i];
            } else {
              assert (ls + [t])[i] == ls[i] && (ls + [t])[j] == ls[j];
            }
          }
        } else {
          assert Listing(l, ts, n) == ls;
        }
      }
    }
  }

  /** The name bookkeeping of the builder after the encounters `d`: names
      in order of first encounter, one record per name, typed by its first
      encounter. */
  ghost predicate Named(d: seq<Encounter>, b: Builder) {
    && b.names == Dedup(EncounterNames(d))
    && (forall n :: n in b.records <==> n in b.names)
    && (forall n :: n in b.records ==>
          b.records[n].name == n && b.records[n].fields == [] && b.records[n].entityType == FirstType(d, n))
  }

  lemma SetDefaultTypes(d: seq<Encounter>, b: Builder, e: Encounter)
    requires Named(d, b)
    ensures forall n :: n in SetDefault(b, e.name, TypeOf(e)).records ==>
              SetDefault(b, e.name, TypeOf(e)).records[n].entityType == FirstType(d + [e], n)
  {
    var r := SetDefault(b, e.name, TypeOf(e));
    forall n | n in r.records ensures r.records[n].entityType == FirstType(d + [e], n) {
      FirstTypeSnoc(d, e, n);
    }
  }

  lemma SetDefaultNames(d: seq<Encounter>, b: Builder, e: Encounter)
    requires Named(d, b)
    ensures SetDefault(b, e.name, TypeOf(e)).names == Dedup(EncounterNames(d + [e]))
  {
    MapSeqConcat(d, [e], NameOf);
    DedupSnoc(EncounterNames(d), e.name);
  }

  /** `setdefault` keeps the bookkeeping: a new name is appended and typed
      by the encounter that introduced it. */
  lemma NamedSetDefault(d: seq<Encounter>, b: Builder, e: Encounter)
    requires Named(d, b)
    ensures Named(d + [e], SetDefault(b, e.name, TypeOf(e)))
  {
    SetDefaultTypes(d, b, e);
    SetDefaultNames(d, b, e);
  }

  lemma AddSourcesKeys(b: Builder, t: string, srcs: seq<string>)
    ensures forall n :: n in AddSources(b, t, srcs).records <==> n in b.records || n in srcs
    decreases |srcs|
  {
    if srcs != [] {
      var pre := srcs[..|srcs| - 1];
      AddSourcesKeys(b, t, pre);
      assert srcs == pre + [srcs[|srcs| - 1]];
    }
  }

  /** Setting a downstream list keeps the bookkeeping. */
  lemma NamedDownstream(d: seq<Encounter>, b: Builder, s: string, t: string)
    requires Named(d, b) && s in b.records
    ensures Named(d, AddDownstream(b, s, t))
  {
  }

  lemma SourceEncountersSnoc(d: seq<Encounter>, srcs: seq<string>)
    requires srcs != []
    ensures d + MapSeq(srcs, SourceEncounter) ==
            d + MapSeq(srcs[..|srcs| - 1], SourceEncounter) + [AsSource(srcs[|srcs| - 1])]
  {
    MapSeqSnoc(srcs, SourceEncounter, |srcs| - 1);
    assert srcs[..|srcs|] == srcs;
  }

  lemma {:induction false} NamedSources(d: seq<Encounter>, b: Builder, t: string, srcs: seq<string>)
    requires Named(d, b)
    ensures Named(d + MapSeq(srcs, SourceEncounter), AddSources(b, t, srcs))
    decreases |srcs|
  {
    if srcs == [] {
      assert d + MapSeq(srcs, SourceEncounter) == d;
    } else {
      var pre := srcs[..|srcs| - 1];
      var s := srcs[|srcs| - 1];
      NamedSources(d, b, t, pre);
      var d1 := d + MapSeq(pre, SourceEncounter);
      var b1 := AddSources(b, t, pre);
      NamedSetDefault(d1, b1, AsSource(s));
      NamedDownstream(d1 + [AsSource(s)], SetDefault(b1, s, TableType), s, t);
      SourceEncountersSnoc(d, srcs);
    }
  }

  /** Setting an upstream list keeps the bookkeeping. */
  lemma NamedUpstream(d: seq<Encounter>, b: Builder, t: string, up: seq<string>)
    requires Named(d, b) && t in b.records
    ensures Named(d, Builder(b.names, b.records[t := b.records[t].(upstream := up)]))
  {
  }

  lemma NamedStart(d: seq<Encounter>, b: Builder, t: string, srcs: seq<string>)
    requires Named(d, b)
    ensures Named(d + [AsTarget(t)], StartTarget(b, t, srcs))
  {
    NamedSetDefault(d, b, AsTarget(t));
    var b1 := SetDefault(b, t, ViewType);
    NamedUpstream(d + [AsTarget(t)], b1, t, SortedSet(b1.records[t].upstream + srcs));
  }

  /** One pass of the outer loop keeps the bookkeeping. */
  lemma NamedTarget(d: seq<Encounter>, b: Builder, t: string, srcs: seq<string>)
    requires Named(d, b)
    ensures Named(d + TargetEncounters(t, srcs), AddTarget(b, t, srcs))
  {
    NamedStart(d, b, t, srcs);
    NamedSources(d + [AsTarget(t)], StartTarget(b, t, srcs), t, srcs);
    TargetEncountersSplit(d, t, srcs);
  }

  lemma TargetEncountersSplit(d: seq<Encounter>, t: string, srcs: seq<string>)
    ensures d + [AsTarget(t)] + MapSeq(srcs, SourceEncounter) == d + TargetEncounters(t, srcs)
  {
  }

  lemma {:induction false} NamedBuild(enum: map<string, seq<string>>, ts: seq<string>)
    ensures Named(Discovery(enum, ts), BuildTargets(enum, ts))
    decreases |ts|
  {
    if ts == [] {
      assert EncounterNames([]) == [];
    } else {
      var pre := ts[..|ts| - 1];
      var t := ts[|ts| - 1];
      NamedBuild(enum, pre);
      NamedTarget(Discovery(enum, pre), BuildTargets(enum, pre), t, Enumeration(enum, t));
    }
  }

  /** The names met in one pass of the outer loop: the target and its
      sources. */
  lemma BlockNames(t: string, srcs: seq<string>)
    ensures forall n :: n in EncounterNames(TargetEncounters(t, srcs)) <==> n == t || n in srcs
  {
    var names := EncounterNames(TargetEncounters(t, srcs));
    assert names[0] == t;
    forall n ensures n in names <==> n == t || n in srcs {
      if n in srcs {
        var j :| 0 <= j < |srcs| && srcs[j] == n;
        assert names[j + 1] == n;
      }
      if n in names {
        var k :| 0 <= k < |names| && names[k] == n;
        if k > 0 {
          assert names[k] == srcs[k - 1];
        }
      }
    }
  }

  lemma {:induction false} DiscoveryNames(enum: map<string, seq<string>>, ts: seq<string>)
    ensures forall n :: n in EncounterNames(Discovery(enum, ts)) <==>
              exists j :: 0 <= j < |ts| && (n == ts[j] || n in Enumeration(enum, ts[j]))
    decreases |ts|
  {
    if ts != [] {
      var pre := ts[..|ts| - 1];
      var t := ts[|ts| - 1];
      var srcs := Enumeration(enum, t);
      DiscoveryNames(enum, pre);
      var block := TargetEncounters(t, srcs);
      MapSeqConcat(Discovery(enum, pre), block, NameOf);
      BlockNames(t, srcs);
      assert Discovery(enum, ts) == Discovery(enum, pre) + block;
      assert EncounterNames(Discovery(enum, ts)) == EncounterNames(Discovery(enum, pre)) + EncounterNames(block);
      forall n ensures n in EncounterNames(Discovery(enum, ts)) <==>
                       exists j :: 0 <= j < |ts| && (n == ts[j] || n in Enumeration(enum, ts[j]))
      {
        assert n in EncounterNames(Discovery(enum, ts)) <==> n in EncounterNames(Discovery(enum, pre)) || n == t || n in srcs;
        if n == t || n in srcs {
          assert n == ts[|ts| - 1] || n in Enumeration(enum, ts[|ts| - 1]);
        }
        if exists j :: 0 <= j < |ts| && (n == ts[j] || n in Enumeration(enum, ts[j])) {
          var j :| 0 <= j < |ts| && (n == ts[j] || n in Enumeration(enum, ts[j]));
          if j < |pre| {
            assert pre[j] == ts[j];
          }
        }
        if exists j :: 0 <= j < |pre| && (n == pre[j] || n in Enumeration(enum, pre[j])) {
          var j :| 0 <= j < |pre| && (n == pre[j] || n in Enumeration(enum, pre[j]));
          assert ts[j] == pre[j];
        }
      }
    }
  }

  /** The builder has a record for exactly the names it met. */
  lemma BuildKeys(enum: map<string, seq<string>>, ts: seq<string>)
    ensures forall n :: n in BuildTargets(enum, ts).records <==>
              exists j :: 0 <= j < |ts| && (n == ts[j] || n in Enumeration(enum, ts[j]))
  {
    NamedBuild(enum, ts);
    DiscoveryNames(enum, ts);
  }

  lemma DistinctPrefix(ts: seq<string>)
    requires Distinct(ts) && ts != []
    ensures Distinct(ts[..|ts| - 1]) && ts[|ts| - 1] !in ts[..|ts| - 1]
  {
    var pre := ts[..|ts| - 1];
    forall i, j | 0 <= i < j < |pre| ensures pre[i] != pre[j] {
      assert pre[i] == ts[i] && pre[j] == ts[j];
    }
  }

  /** The inner loop leaves an existing upstream list alone and creates new
      records with an empty one. */
  lemma {:induction false} UpstreamSources(b: Builder, t: string, srcs: seq<string>, n: string)
    requires n in AddSources(b, t, srcs).records
    ensures AddSources(b, t, srcs).records[n].upstream == if n in b.records then b.records[n].upstream else []
    decreases |srcs|
  {
    if srcs != [] {
      var pre := srcs[..|srcs| - 1];
      var b1 := AddSources(b, t, pre);
      AddSourcesKeys(b, t, pre);
      if n in b1.records {
        UpstreamSources(b, t, pre, n);
      }
    }
  }

  /** The upstream list of every target is the sorted set of its sources;
      every other name has none. */
  lemma {:induction false} UpstreamBuild(enum: map<string, seq<string>>, ts: seq<string>, n: string)
    requires Distinct(ts)
    requires n in BuildTargets(enum, ts).records
    ensures BuildTargets(enum, ts).records[n].upstream == if n in ts then SortedSet(Enumeration(enum, n)) else []
    decreases |ts|
  {
    var pre := ts[..|ts| - 1];
    var t := ts[|ts| - 1];
    var srcs := Enumeration(enum, t);
    var b := BuildTargets(enum, pre);
    var b2 := StartTarget(b, t, srcs);
    DistinctPrefix(ts);
    LastMembers(ts);
    UpstreamSources(b2, t, srcs, n);
    if n in b2.records {
      StartTargetUpstream(b, t, srcs, n);
      if n == t {
        if t in b.records {
          UpstreamBuild(enum, pre, t);
        }
        assert [] + srcs == srcs;
      } else {
        UpstreamBuild(enum, pre, n);
      }
    } else {
      BuildKeys(enum, pre);
    }
  }

  /** Starting a target sets its own upstream list and no other. */
  lemma StartTargetUpstream(b: Builder, t: string, srcs: seq<string>, n: string)
    requires n in StartTarget(b, t, srcs).records
    ensures n != t ==> n in b.records && StartTarget(b, t, srcs).records[n].upstream == b.records[n].upstream
    ensures n == t ==> StartTarget(b, t, srcs).records[n].upstream
                       == SortedSet((if t in b.records then b.records[t].upstream else []) + srcs)
  {
  }

  /** One source of the inner loop touches only its own downstream list. */
  lemma AddSourceDownstream(b: Builder, t: string, s: string, n: string)
    requires n in AddSource(b, t, s).records
    ensures n in b.records || n == s
    ensures AddSource(b, t, s).records[n].downstream ==
      if n != s then b.records[n].downstream
      else
        var prior := if s in b.records then b.records[s].downstream else [];
        if t in prior then prior else prior + [t]
  {
  }

  /** The inner loop for target `t` appends `t` to the downstream list of
      each source, once. */
  lemma {:induction false} DownstreamSources(b: Builder, t: string, srcs: seq<string>, n: string)
    requires Distinct(srcs)
    requires n in AddSources(b, t, srcs).records
    requires n in b.records ==> t !in b.records[n].downstream
    ensures AddSources(b, t, srcs).records[n].downstream ==
              (if n in b.records then b.records[n].downstream else []) + if n in srcs then [t] else []
    decreases |srcs|
  {
    if srcs == [] {
      assert b.records[n].downstream + [] == b.records[n].downstream;
    } else {
      var pre := srcs[..|srcs| - 1];
      var s := srcs[|srcs| - 1];
      DistinctPrefix(srcs);
      LastMembers(srcs);
      var b1 := AddSources(b, t, pre);
      AddSourcesKeys(b, t, pre);
      AddSourceDownstream(b1, t, s, n);
      if n in b1.records {
        DownstreamSources(b, t, pre, n);
      }
    }
  }

  lemma {:induction false} ListingEmpty(l: Lineage, ts: seq<string>, n: string)
    requires forall t :: t in ts && t in l.sources ==> n !in l.sources[t]
    ensures Listing(l, ts, n) == []
    decreases |ts|
  {
    if ts != [] {
      var pre := ts[..|ts| - 1];
      assert forall t :: t in pre ==> t in ts;
      ListingEmpty(l, pre, n);
    }
  }

  /** A name the builder never met is listed by no target. */
  lemma UnmetNameUnlisted(l: Lineage, enum: map<string, seq<string>>, ts: seq<string>, n: string)
    requires EnumeratesSources(l, enum)
    requires n !in BuildTargets(enum, ts).records
    ensures Listing(l, ts, n) == []
  {
    BuildKeys(enum, ts);
    forall t | t in ts && t in l.sources ensures n !in l.sources[t] {
      var j :| 0 <= j < |ts| && ts[j] == t;
      assert n !in Enumeration(enum, ts[j]);
    }
    ListingEmpty(l, ts, n);
  }

  /** Starting a target touches no downstream list; a new target record
      starts with an empty one. */
  lemma StartTargetDownstream(b: Builder, t: string, srcs: seq<string>, n: string)
    ensures n in StartTarget(b, t, srcs).records <==> n in b.records || n == t
    ensures n in StartTarget(b, t, srcs).records ==>
      StartTarget(b, t, srcs).records[n].downstream == if n in b.records then b.records[n].downstream else []
  {
  }

  /** The downstream list of every name lists, in dictionary order, the
      targets having it as a source. */
  lemma {:induction false} DownstreamBuild(l: Lineage, enum: map<string, seq<string>>, ts: seq<string>, n: string)
    requires EnumeratesSources(l, enum)
    requires Distinct(ts) && forall t :: t in ts ==> t in l.sources
    requires n in BuildTargets(enum, ts).records
    ensures BuildTargets(enum, ts).records[n].downstream == Listing(l, ts, n)
    decreases |ts|
  {
    var pre := ts[..|ts| - 1];
    var t := ts[|ts| - 1];
    var srcs := Enumeration(enum, t);
    var b := BuildTargets(enum, pre);
    var b2 := StartTarget(b, t, srcs);
    DistinctPrefix(ts);
    assert forall x :: x in pre ==> x in ts;
    assert t in l.sources;
    var prior := if n in b2.records then b2.records[n].downstream else [];
    StartTargetDownstream(b, t, srcs, n);
    if n in b.records {
      DownstreamBuild(l, enum, pre, n);
      ListingMembers(l, pre, n);
    } else {
      UnmetNameUnlisted(l, enum, pre, n);
    }
    assert prior == Listing(l, pre, n);
    DownstreamSources(b2, t, srcs, n);
  }

  lemma BuildRecordNames(enum: map<string, seq<string>>, ts: seq<string>)
    ensures forall n :: n in BuildTargets(enum, ts).records <==> n in BuildTargets(enum, ts).names
    ensures forall n :: n in BuildTargets(enum, ts).records ==> BuildTargets(enum, ts).records[n].name == n
  {
    NamedBuild(enum, ts);
  }

  lemma BuildNameOrder(enum: map<string, seq<string>>, ts: seq<string>)
    ensures BuildTargets(enum, ts).names == Dedup(EncounterNames(Discovery(enum, ts)))
  {
    NamedBuild(enum, ts);
  }

  /** The records of `BuildEntities` are the builder's records, listed in
      the builder's name order. */
  lemma BuildRecords(l: Lineage, enum: map<string, seq<string>>)
    ensures MapSeq(BuildEntities(l, enum), RecordName) == BuildTargets(enum, l.order).names
    ensures forall i :: 0 <= i < |BuildTargets(enum, l.order).names| ==>
              && BuildTargets(enum, l.order).names[i] in BuildTargets(enum, l.order).records
              && BuildEntities(l, enum)[i] == BuildTargets(enum, l.order).records[BuildTargets(enum, l.order).names[i]]
  {
    var b := BuildTargets(enum, l.order);
    var r := BuildEntities(l, enum);
    BuildRecordNames(enum, l.order);
    assert r == RecordsInOrder(b.names, b.records);
    forall i | 0 <= i < |b.names| ensures b.names[i] in b.records && r[i] == b.records[b.names[i]] {
      assert b.names[i] in b.names;
    }
    var m := MapSeq(r, RecordName);
    forall i | 0 <= i < |m| ensures m[i] == b.names[i] {
      assert b.names[i] in b.records;
    }
  }

  /** Names are unique and come in the order the builder first meets them. */
  lemma BuildNames(l: Lineage, enum: map<string, seq<string>>)
    ensures MapSeq(BuildEntities(l, enum), RecordName) == Dedup(EncounterNames(Discovery(enum, l.order)))
    ensures Distinct(MapSeq(BuildEntities(l, enum), RecordName))
  {
    BuildRecords(l, enum);
    BuildNameOrder(enum, l.order);
  }

  /** Meeting a name along the dictionary order means being a key or a
      source of one. */
  lemma MetIffKeyOrSource(l: Lineage, enum: map<string, seq<string>>, n: string)
    requires WellFormed(l) && EnumeratesSources(l, enum)
    ensures (exists j :: 0 <= j < |l.order| && (n == l.order[j] || n in Enumeration(enum, l.order[j]))) <==>
            n in l.sources || exists t :: t in l.sources && n in l.sources[t]
  {
    var ts := l.order;
    if exists j :: 0 <= j < |ts| && (n == ts[j] || n in Enumeration(enum, ts[j])) {
      var j :| 0 <= j < |ts| && (n == ts[j] || n in Enumeration(enum, ts[j]));
      assert ts[j] in l.sources;
    }
    if n in l.sources {
      var j :| 0 <= j < |ts| && ts[j] == n;
    } else if exists t :: t in l.sources && n in l.sources[t] {
      var t :| t in l.sources && n in l.sources[t];
      var j :| 0 <= j < |ts| && ts[j] == t;
      assert n in Enumeration(enum, ts[j]);
    }
  }

  /** The names are the keys together with all their sources. */
  lemma BuildNameSet(l: Lineage, enum: map<string, seq<string>>)
    requires WellFormed(l) && EnumeratesSources(l, enum)
    ensures forall n :: n in MapSeq(BuildEntities(l, enum), RecordName) <==>
              n in l.sources || exists t :: t in l.sources && n in l.sources[t]
  {
    var names := MapSeq(BuildEntities(l, enum), RecordName);
    var b := BuildTargets(enum, l.order);
    assert forall n :: n in names <==> n in b.records by {
      BuildRecords(l, enum);
      BuildRecordNames(enum, l.order);
    }
    BuildKeys(enum, l.order);
    forall n ensures n in names <==> n in l.sources || exists t :: t in l.sources && n in l.sources[t] {
      assert n in names <==> n in b.records;
      MetIffKeyOrSource(l, enum, n);
    }
  }

  /** A name is a "view" when the builder first meets it as a target and a
      "table" when it first meets it as a source; no record has fields. */
  lemma BuildTypes(l: Lineage, enum: map<string, seq<string>>)
    ensures forall i :: 0 <= i < |BuildEntities(l, enum)| ==>
              && BuildEntities(l, enum)[i].entityType == FirstType(Discovery(enum, l.order), BuildEntities(l, enum)[i].name)
              && BuildEntities(l, enum)[i].fields == []
  {
    BuildRecords(l, enum);
    NamedBuild(enum, l.order);
  }

  /** Every key's upstream list is strictly sorted and holds exactly its
      sources; a name that is only a source has none. */
  lemma BuildUpstream(l: Lineage, enum: map<string, seq<string>>)
    requires WellFormed(l) && EnumeratesSources(l, enum)
    ensures forall i :: 0 <= i < |BuildEntities(l, enum)| ==>
              var r := BuildEntities(l, enum)[i];
              && (r.name in l.sources ==> StrictlySorted(r.upstream) && forall x :: x in r.upstream <==> x in l.sources[r.name])
              && (r.name !in l.sources ==> r.upstream == [])
  {
    var b := BuildTargets(enum, l.order);
    BuildRecords(l, enum);
    forall i | 0 <= i < |b.names| ensures b.records[b.names[i]].upstream == if b.names[i] in l.order then SortedSet(Enumeration(enum, b.names[i])) else [] {
      UpstreamBuild(enum, l.order, b.names[i]);
    }
  }

  /** Every downstream list names, in dictionary order and once each, the
      keys that have the record's name as a source. */
  lemma BuildDownstream(l: Lineage, enum: map<string, seq<string>>)
    requires WellFormed(l) && EnumeratesSources(l, enum)
    ensures forall i :: 0 <= i < |BuildEntities(l, enum)| ==>
              var r := BuildEntities(l, enum)[i];
              && r.downstream == Listing(l, l.order, r.name)
              && Distinct(r.downstream)
              && forall t :: t in r.downstream <==> t in l.sources && r.name in l.sources[t]
  {
    var b := BuildTargets(enum, l.order);
    BuildRecords(l, enum);
    forall i | 0 <= i < |b.names|
      ensures var n := b.names[i];
              && b.records[n].downstream == Listing(l, l.order, n)
              && Distinct(Listing(l, l.order, n))
              && forall t :: t in Listing(l, l.order, n) <==> t in l.sources && n in l.sources[t]
    {
      DownstreamBuild(l, enum, l.order, b.names[i]);
      ListingMembers(l, l.order, b.names[i]);
    }
  }

  /** The edges are symmetric: `s` is upstream of `t` exactly when `t` is
      downstream of `s`. */
  lemma BuildSymmetric(l: Lineage, enum: map<string, seq<string>>)
    requires WellFormed(l) && EnumeratesSources(l, enum)
    ensures forall i, j :: 0 <= i < |BuildEntities(l, enum)| && 0 <= j < |BuildEntities(l, enum)| ==>
              (BuildEntities(l, enum)[j].name in BuildEntities(l, enum)[i].upstream <==>
               BuildEntities(l, enum)[i].name in BuildEntities(l, enum)[j].downstream)
  {
    BuildUpstream(l, enum);
    BuildDownstream(l, enum);
  }
}
