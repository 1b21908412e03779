/**
 * Ingestion as a specification: the entity store a fact sequence builds.
 * Ingestion takes two passes over the facts. The first declares every
 * entity some `rdf:type` fact establishes (a class, a datatype or a
 * property); the second relates them, in arrival order, and fails on the
 * first reference to an entity that was never declared. Facts about an
 * entity may therefore come before the fact that types it.
 */
module Store {
  import opened Wrappers
  import opened Iri
  import opened Facts
  import opened Errors
  import opened EntityOrder
  import opened Classes

  /** The recorded state of one property. */
  datatype PropState = PropState(
    domain: seq<Iri>,
    range: seq<Iri>,
    supersededBy: seq<Iri>,
    comment: Option<string>)

  /** Entities keyed by identifier, with the order each was declared in. */
  datatype Store = Store(
    classOrder: seq<Iri>,
    classes: map<Iri, ClassState>,
    propOrder: seq<Iri>,
    props: map<Iri, PropState>)

  const Empty: Store := Store([], map[], [], map[])

  const NewProperty: PropState := PropState([], [], [], None)

  /** The kind a class gets when an `rdfs:Class` fact declares it. */
  function ClassKind(s: Iri): Kind {
    if IsDataTypeRoot(s) then DataTypeUnion else Regular
  }

  /**
   * First pass: the effect of one fact on the declared entities. Only a
   * type fact declares anything, only its subject, and never over a
   * property; entities already declared keep their place in the order.
   */
  function Declare(st: Store, f: Fact): (r: Store)
    ensures PredicateOf(f.pred) != Type || !f.obj.Node? || f.subject in st.props ==> r == st
    ensures st.classOrder <= r.classOrder && st.propOrder <= r.propOrder
    ensures st.classes.Keys <= r.classes.Keys && st.props.Keys <= r.props.Keys
    ensures forall x :: x in r.classes && x != f.subject ==> x in st.classes && r.classes[x] == st.classes[x]
    ensures forall x :: x in r.props && x != f.subject ==> x in st.props && r.props[x] == st.props[x]
  {
    if PredicateOf(f.pred) != Type || !f.obj.Node? || f.subject in st.props then st
    else
      var s := f.subject;
      match TypeObjectOf(f.obj.id)
      case ClassType =>
        if s in st.classes then st
        else st.(classOrder := st.classOrder + [s], classes := st.classes[s := Declared(ClassKind(s))])
      case DataTypeType =>
        if s in st.classes then st.(classes := st.classes[s := st.classes[s].(kind := Primitive)])
        else st.(classOrder := st.classOrder + [s], classes := st.classes[s := Declared(Primitive)])
      case PropertyType =>
        if s in st.classes then st
        else st.(propOrder := st.propOrder + [s], props := st.props[s := NewProperty])
      case InstanceOf(_) => st
  }

  function DeclareAll(facts: seq<Fact>): Store {
    if facts == [] then Empty
    else Declare(DeclareAll(facts[..|facts| - 1]), facts[|facts| - 1])
  }

  /** The effect of the fact `(self, p, o)` on a property, given the declared entities. */
  function ApplyPropFact(self: Iri, ps: PropState, p: Predicate, o: Object,
                         classes: set<Iri>, props: set<Iri>): (r: Result<PropState, Error>)
    ensures r.Err? <==> (o.Node? &&
      ((p == DomainIncludes && o.id !in classes)
       || (p == RangeIncludes && o.id !in classes)
       || (p == SupersededBy && o.id !in classes && o.id !in props)))
    ensures r.Err? && p == DomainIncludes ==> r.error == MissingDomain(self, o.id)
    ensures r.Err? && p == RangeIncludes ==> r.error == MissingRange(self, o.id)
    ensures r.Err? && p == SupersededBy ==> r.error == MissingEntity(o.id, self)
    ensures r.Ok? && o.Node? && p == DomainIncludes ==> r.value.domain == AddOnce(ps.domain, o.id)
    ensures r.Ok? && o.Node? && p == RangeIncludes ==> r.value.range == AddOnce(ps.range, o.id)
    ensures r.Ok? && o.Node? && p == SupersededBy ==> r.value.supersededBy == AddOnce(ps.supersededBy, o.id)
    ensures r.Ok? && o.Literal? && p == Comment ==> r.value.comment == Some(o.text)
    ensures r.Ok? && p != DomainIncludes ==> r.value.domain == ps.domain
    ensures r.Ok? && p != RangeIncludes ==> r.value.range == ps.range
    ensures r.Ok? && p != SupersededBy ==> r.value.supersededBy == ps.supersededBy
    ensures r.Ok? && p != Comment ==> r.value.comment == ps.comment
  {
    match (p, o)
    case (DomainIncludes, Node(x)) =>
      if x in classes then Ok(ps.(domain := AddOnce(ps.domain, x))) else Err(MissingDomain(self, x))
    case (RangeIncludes, Node(x)) =>
      if x in classes then Ok(ps.(range := AddOnce(ps.range, x))) else Err(MissingRange(self, x))
    case (SupersededBy, Node(x)) =>
      if x in classes || x in props then Ok(ps.(supersededBy := AddOnce(ps.supersededBy, x)))
      else Err(MissingEntity(x, self))
    case (Comment, Literal(text)) => Ok(ps.(comment := Some(text)))
    case _ => Ok(ps)
  }

  /** `x` is an individual typed with the datatype `c` of `st`. */
  predicate IsInstanceFact(st: Store, f: Fact, c: Iri) {
    && PredicateOf(f.pred) == Type && f.obj.Node? && f.obj.id == c
    && f.subject !in st.classes && f.subject !in st.props
    && c in st.classes && st.classes[c].kind == Primitive
  }

  /** The same entities, in the same order, with the same kinds. */
  predicate SameEntities(a: Store, b: Store) {
    && a.classOrder == b.classOrder && a.propOrder == b.propOrder
    && a.classes.Keys == b.classes.Keys && a.props.Keys == b.props.Keys
    && forall x :: x in a.classes ==> a.classes[x].kind == b.classes[x].kind
  }

  /**
   * Second pass: the effect of one fact on the declared entities. It
   * declares nothing and changes no kind, and it fails only on a
   * reference to something that is not a class.
   */
  function Relate(st: Store, f: Fact): (r: Result<Store, Error>)
    ensures r.Ok? ==> SameEntities(st, r.value)
    ensures r.Err? ==> f.obj.Node? && f.obj.id !in st.classes
  {
    var s := f.subject;
    var p := PredicateOf(f.pred);
    if s in st.classes then
      match ApplyClassFact(s, st.classes[s], p, f.obj, st.classes.Keys)
      case Err(e) => Err(e)
      case Ok((cs, _)) => Ok(st.(classes := st.classes[s := cs]))
    else if s in st.props then
      match ApplyPropFact(s, st.props[s], p, f.obj, st.classes.Keys, st.props.Keys)
      case Err(e) => Err(e)
      case Ok(ps) => Ok(st.(props := st.props[s := ps]))
    else if f.obj.Node? && IsInstanceFact(st, f, f.obj.id) then
      var c := f.obj.id;
      Ok(st.(classes := st.classes[c := st.classes[c].(members := AddOnce(st.classes[c].members, s))]))
    else Ok(st)
  }

  function RelateAll(st: Store, facts: seq<Fact>): (r: Result<Store, Error>)
    ensures r.Ok? ==> SameEntities(st, r.value)
    ensures r.Err? ==> exists f :: f in facts && f.obj.Node? && f.obj.id !in st.classes
  {
    if facts == [] then Ok(st)
    else
      var last := facts[|facts| - 1];
      assert forall f :: f in facts[..|facts| - 1] ==> f in facts;
      match RelateAll(st, facts[..|facts| - 1])
      case Err(e) => Err(e)
      case Ok(st') => Relate(st', last)
  }

  /**
   * The store a fact sequence builds, or the first error it raises:
   * exactly the entities the type facts declare, and an error only where
   * some fact refers to something no type fact makes a class.
   */
  function Ingest(facts: seq<Fact>): (r: Result<Store, Error>)
    ensures r.Ok? ==> SameEntities(DeclareAll(facts), r.value)
    ensures r.Err? ==> exists f :: f in facts && f.obj.Node? && f.obj.id !in DeclareAll(facts).classes
  {
    RelateAll(DeclareAll(facts), facts)
  }
}
