/**
 * The whole pipeline: the facts of an ontology are ingested into the
 * registry and the registry is emitted as declarations. The lemmas here
 * follow a property from the facts through to the declarations.
 */
module Compiler {
  import opened Wrappers
  import opened Iri
  import opened Sorting
  import opened EntityOrder
  import opened Facts
  import opened Errors
  import opened Classes
  import opened Store
  import opened Ingestion
  import opened Builder
  import opened Declarations

  /** The declarations the facts compile to, or the first error ingestion or emission raises. */
  function Compiled(facts: seq<Fact>, cfg: Config): Result<seq<seq<Decl>>, Error> {
    match Ingest(facts)
    case Err(e) => Err(e)
    case Ok(st) => Emit(st, cfg)
  }

  /** Builds the registry from the facts, then emits it. */
  method Compile(facts: seq<Fact>, cfg: Config) returns (r: Result<seq<seq<Decl>>, Error>)
    ensures r == Compiled(facts, cfg)
    ensures r.Ok? ==> Ingest(facts).Ok? && |r.value| == |EmissionOrder(Ingest(facts).value, cfg)|
  {
    var built := Build(facts);
    match built
    case Err(e) =>
      r := Err(e);
    case Ok(st) =>
      r := Emit(st, cfg);
      if r.Ok? {
        EmitRule(st, cfg);
      }
  }

  /**
   * After a successful ingestion, every emitted class is emitted once,
   * and every field list and subclass union names each entry once.
   */
  lemma EmittedOnce(facts: seq<Fact>, cfg: Config, c: Iri)
    requires Ingest(facts).Ok?
    ensures var st := Ingest(facts).value;
      var order := EmissionOrder(st, cfg);
      && (forall i, j :: 0 <= i < j < |order| ==> order[i].id != order[j].id)
      && NoDuplicates(FieldIds(st, cfg, c)) && NoDuplicates(Children(st, cfg, c))
  {
    var st := Ingest(facts).value;
    IngestRecords(facts);
    EmissionOrderRule(st, cfg);
  }

  /**
   * After a successful ingestion, a regular class has a field for the
   * property `q` exactly when `q` is an emitted property and some fact
   * puts the class in its domain.
   */
  lemma DomainFactMakesField(facts: seq<Fact>, cfg: Config, c: Iri, q: Iri)
    requires Ingest(facts).Ok?
    requires c in Ingest(facts).value.classes && RegularDecls(Ingest(facts).value, cfg, c).Ok?
    ensures var st := Ingest(facts).value;
      q in Properties(FieldsIn(RegularDecls(st, cfg, c).value))
      <==> q in st.props && Shown(cfg, st.props[q].supersededBy)
           && exists f :: f in facts && Says(f, q, DomainIncludes, c)
  {
    var st := Ingest(facts).value;
    IngestRecords(facts);
    FieldsRule(st, cfg, c);
    if q in st.props {
      assert st.props[q] == ExpectedProp(facts, q);
      DedupSpec(Targets(facts, q, DomainIncludes));
      TargetsIff(facts, q, DomainIncludes, c);
    }
  }

  /**
   * After a successful ingestion, the value map of an enumeration lists
   * the individuals typed with it, once each, in the order the typing
   * facts arrived; a datatype with no such individual is its host type.
   */
  lemma EnumerationInDiscoveryOrder(facts: seq<Fact>, cfg: Config, c: Iri)
    requires Ingest(facts).Ok?
    requires var st := Ingest(facts).value;
      c in st.classes && st.classes[c].kind == Primitive && EntityDecls(st, cfg, c).Ok?
    ensures var st := Ingest(facts).value;
      var ds := EntityDecls(st, cfg, c).value;
      var ms := Dedup(Instances(DeclareAll(facts), c, facts));
      && NoDuplicates(ms)
      && (forall x :: x in ms <==> exists f :: f in facts && IsInstanceFact(DeclareAll(facts), f, c) && f.subject == x)
      && (ms == [] ==> |ds| == 1 && ds[0].shape == HostType(cfg.host(c)))
      && (ms != [] ==> |ds| == 2 && ds[1].ValueMapDecl? && |ds[1].entries| == |ms|
                       && forall i :: 0 <= i < |ms| ==> ds[1].entries[i] == ValueEntry(ms[i].name, ms[i].href))
  {
    var st := Ingest(facts).value;
    var d := DeclareAll(facts);
    assert st.classes[c].members == Dedup(Instances(d, c, facts)) by {
      IngestRecords(facts);
      assert st.classes[c] == ExpectedClass(d, facts, c);
    }
    DataTypeRule(st, cfg, c);
    DedupSpec(Instances(d, c, facts));
    forall x ensures x in Dedup(Instances(d, c, facts))
                     <==> exists f :: f in facts && IsInstanceFact(d, f, c) && f.subject == x {
      InstancesIff(d, c, facts, x);
    }
  }
}
