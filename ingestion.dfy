/**
 * What ingestion guarantees. The store is fully determined by the facts:
 * each entity records, in arrival order and without repeats, the targets
 * of the facts about it, its last comment, and (for a datatype) the
 * individuals typed with it; ingestion succeeds exactly when every
 * reference names a declared entity; and a class is a datatype exactly
 * when some fact types it `schema:DataType`, whichever order the facts
 * come in.
 */
module Ingestion {
  import opened Wrappers
  import opened Iri
  import opened Facts
  import opened Errors
  import opened EntityOrder
  import opened Classes
  import opened Store

  function Init<T>(s: seq<T>): seq<T>
    requires s != []
  {
    s[..|s| - 1]
  }

  function Last<T>(s: seq<T>): T
    requires s != []
  {
    s[|s| - 1]
  }

  /** An element of a nonempty sequence is in its front part or is its last element. */
  lemma MembersOfInitLast<T>(s: seq<T>)
    requires s != []
    ensures forall y :: y in s <==> y in Init(s) || y == Last(s)
  {
    assert s == Init(s) + [Last(s)];
  }

  /** The targets of the `p` facts about `s`, in arrival order. */
  function Targets(fs: seq<Fact>, s: Iri, p: Predicate): seq<Iri> {
    if fs == [] then []
    else
      var f := Last(fs);
      Targets(Init(fs), s, p)
        + (if f.subject == s && PredicateOf(f.pred) == p && f.obj.Node? then [f.obj.id] else [])
  }

  /** The text of the last comment fact about `s`. */
  function LastComment(fs: seq<Fact>, s: Iri): Option<string> {
    if fs == [] then None
    else
      var f := Last(fs);
      if f.subject == s && PredicateOf(f.pred) == Comment && f.obj.Literal? then Some(f.obj.text)
      else LastComment(Init(fs), s)
  }

  /** The individuals typed with the datatype `c` of `d`, in discovery order. */
  function Instances(d: Store, c: Iri, fs: seq<Fact>): seq<Iri> {
    if fs == [] then []
    else Instances(d, c, Init(fs)) + (if IsInstanceFact(d, Last(fs), c) then [Last(fs).subject] else [])
  }

  /** `s` with each element kept at its first occurrence only. */
  function Dedup<T(==)>(s: seq<T>): seq<T> {
    if s == [] then [] else AddOnce(Dedup(Init(s)), Last(s))
  }

  /** `Dedup` keeps every element, and each only once. */
  lemma {:induction false} DedupSpec<T>(s: seq<T>)
    ensures NoDuplicates(Dedup(s))
    ensures forall x :: x in Dedup(s) <==> x in s
  {
    if s != [] {
      DedupSpec(Init(s));
      assert s == Init(s) + [Last(s)];
    }
  }

  /** The state the facts `fs` give the class `c` declared in `d`. */
  function ExpectedClass(d: Store, fs: seq<Fact>, c: Iri): ClassState
    requires c in d.classes
  {
    ClassState(
      d.classes[c].kind,
      Dedup(Targets(fs, c, SubClassOf)),
      Dedup(Targets(fs, c, SupersededBy)),
      LastComment(fs, c),
      Dedup(Instances(d, c, fs)))
  }

  /** The state the facts `fs` give the property `q`. */
  function ExpectedProp(fs: seq<Fact>, q: Iri): PropState {
    PropState(
      Dedup(Targets(fs, q, DomainIncludes)),
      Dedup(Targets(fs, q, RangeIncludes)),
      Dedup(Targets(fs, q, SupersededBy)),
      LastComment(fs, q))
  }

  /** `st` has the entities of `d`, each in the state the facts `fs` give it. */
  predicate Records(d: Store, st: Store, fs: seq<Fact>) {
    && st.classOrder == d.classOrder && st.propOrder == d.propOrder
    && st.classes.Keys == d.classes.Keys && st.props.Keys == d.props.Keys
    && ClassesRecorded(d, st.classes, fs) && PropsRecorded(st.props, fs)
  }

  /** Each class of `m` is a class of `d` in the state the facts `fs` give it. */
  predicate ClassesRecorded(d: Store, m: map<Iri, ClassState>, fs: seq<Fact>) {
    forall c :: c in m ==> c in d.classes && m[c] == ExpectedClass(d, fs, c)
  }

  /** Each property of `m` is in the state the facts `fs` give it. */
  predicate PropsRecorded(m: map<Iri, PropState>, fs: seq<Fact>) {
    forall q :: q in m ==> m[q] == ExpectedProp(fs, q)
  }

  /** Every entity of `d` is as first declared. */
  predicate Pristine(d: Store) {
    && (forall c :: c in d.classes ==> d.classes[c] == Declared(d.classes[c].kind))
    && (forall q :: q in d.props ==> d.props[q] == NewProperty)
  }

  /** The declared entities: each order lists its keys once, and no entity is both a class and a property. */
  ghost predicate WellFormed(st: Store) {
    && NoDuplicates(st.classOrder) && (forall x :: x in st.classOrder <==> x in st.classes)
    && NoDuplicates(st.propOrder) && (forall x :: x in st.propOrder <==> x in st.props)
    && (forall x :: x in st.classes ==> x !in st.props)
  }

  /** The reference the fact makes names an entity of `d`, where one is needed. */
  predicate Resolves(d: Store, f: Fact) {
    var p := PredicateOf(f.pred);
    f.obj.Node? ==>
      && (f.subject in d.classes && (p == SubClassOf || p == SupersededBy) ==> f.obj.id in d.classes)
      && ((f.subject !in d.classes && f.subject in d.props && (p == DomainIncludes || p == RangeIncludes))
            ==> f.obj.id in d.classes)
      && ((f.subject !in d.classes && f.subject in d.props && p == SupersededBy)
            ==> f.obj.id in d.classes || f.obj.id in d.props)
  }

  /** The first pass yields well-formed, pristine entities. */
  lemma {:induction false} DeclareAllWellFormed(facts: seq<Fact>)
    ensures WellFormed(DeclareAll(facts)) && Pristine(DeclareAll(facts))
  {
    if facts != [] {
      DeclareAllWellFormed(Init(facts));
      var st := DeclareAll(Init(facts));
      var f := Last(facts);
      assert DeclareAll(facts) == Declare(st, f);
      if PredicateOf(f.pred) == Type && f.obj.Node? && f.subject !in st.props {
        var s := f.subject;
        match TypeObjectOf(f.obj.id)
        case ClassType =>
          if s !in st.classes {
            AppendFresh(st.classOrder, s);
          }
        case DataTypeType =>
          if s !in st.classes {
            AppendFresh(st.classOrder, s);
          }
        case PropertyType =>
          if s !in st.classes {
            AppendFresh(st.propOrder, s);
          }
        case InstanceOf(_) =>
      }
    }
  }

  /** The fact types `s` as a `schema:DataType`. */
  predicate IsDataTypeFact(f: Fact, s: Iri) {
    f.subject == s && PredicateOf(f.pred) == Type && f.obj.Node? && TypeObjectOf(f.obj.id) == DataTypeType
  }

  predicate TypedDataType(fs: seq<Fact>, s: Iri) {
    exists i :: 0 <= i < |fs| && IsDataTypeFact(fs[i], s)
  }

  lemma TypedDataTypeSplit(fs: seq<Fact>, s: Iri)
    requires fs != []
    ensures TypedDataType(fs, s) <==> TypedDataType(Init(fs), s) || IsDataTypeFact(Last(fs), s)
  {
    var prev := Init(fs);
    if TypedDataType(fs, s) && !IsDataTypeFact(Last(fs), s) {
      var i :| 0 <= i < |fs| && IsDataTypeFact(fs[i], s);
      assert prev[i] == fs[i];
    }
    if TypedDataType(prev, s) {
      var i :| 0 <= i < |prev| && IsDataTypeFact(prev[i], s);
      assert fs[i] == prev[i];
    }
  }

  /**
   * A declared class is a datatype exactly when some fact types it
   * `schema:DataType`, wherever that fact comes; otherwise it has the
   * kind its `rdfs:Class` declaration gives it. An entity first declared
   * as a property stays one.
   */
  lemma {:induction false} DeclaredKind(facts: seq<Fact>, s: Iri)
    ensures var st := DeclareAll(facts);
      && (TypedDataType(facts, s) ==> s in st.classes || s in st.props)
      && (s in st.props ==> s !in st.classes)
      && (s in st.classes ==> st.classes[s].kind == (if TypedDataType(facts, s) then Primitive else ClassKind(s)))
  {
    if facts != [] {
      var prev := Init(facts);
      var f := Last(facts);
      DeclaredKind(prev, s);
      TypedDataTypeSplit(facts, s);
      assert DeclareAll(facts) == Declare(DeclareAll(prev), f);
      DeclareStepKind(DeclareAll(prev), f, s, TypedDataType(prev, s));
    }
  }

  /** One declaring fact keeps the kind rule of `DeclaredKind`. */
  lemma DeclareStepKind(st: Store, f: Fact, s: Iri, typed: bool)
    requires typed ==> s in st.classes || s in st.props
    requires s in st.props ==> s !in st.classes
    requires s in st.classes ==> st.classes[s].kind == (if typed then Primitive else ClassKind(s))
    ensures var nx := Declare(st, f);
      var now := typed || IsDataTypeFact(f, s);
      && (now ==> s in nx.classes || s in nx.props)
      && (s in nx.props ==> s !in nx.classes)
      && (s in nx.classes ==> nx.classes[s].kind == (if now then Primitive else ClassKind(s)))
  {
  }

  lemma AppendFresh<T>(s: seq<T>, x: T)
    requires NoDuplicates(s) && x !in s
    ensures NoDuplicates(s + [x])
  {
  }

  lemma DedupStep<T(!new)>(s: seq<T>, x: T)
    ensures Dedup(s + [x]) == AddOnce(Dedup(s), x)
  {
    assert Init(s + [x]) == s;
  }

  lemma DedupSame<T(!new)>(s: seq<T>)
    ensures Dedup(s + []) == Dedup(s)
  {
    assert s + [] == s;
  }

  /** Whether a fact types an individual with a datatype depends only on the declared entities. */
  lemma InstanceFactStable(d: Store, st: Store, fs: seq<Fact>, f: Fact, c: Iri)
    requires Records(d, st, fs)
    ensures IsInstanceFact(st, f, c) == IsInstanceFact(d, f, c)
  {
    if c in st.classes {
      assert st.classes[c].kind == d.classes[c].kind;
    }
  }

  /** A fact about another entity, not typing an individual with `c`, leaves `c` as it was. */
  lemma ClassOtherStep(d: Store, fs: seq<Fact>, c: Iri)
    requires fs != [] && c in d.classes
    requires Last(fs).subject != c && !IsInstanceFact(d, Last(fs), c)
    ensures ExpectedClass(d, fs, c) == ExpectedClass(d, Init(fs), c)
  {
    var prev := Init(fs);
    DedupSame(Targets(prev, c, SubClassOf));
    DedupSame(Targets(prev, c, SupersededBy));
    DedupSame(Instances(d, c, prev));
  }

  /** An individual typed with `c` joins its members. */
  lemma ClassMemberStep(d: Store, fs: seq<Fact>, c: Iri)
    requires fs != [] && c in d.classes && IsInstanceFact(d, Last(fs), c)
    ensures ExpectedClass(d, fs, c)
         == ExpectedClass(d, Init(fs), c).(members := AddOnce(ExpectedClass(d, Init(fs), c).members, Last(fs).subject))
  {
    var prev := Init(fs);
    DedupSame(Targets(prev, c, SubClassOf));
    DedupSame(Targets(prev, c, SupersededBy));
    DedupStep(Instances(d, c, prev), Last(fs).subject);
  }

  /** A fact about the class `c` itself has the effect `ApplyClassFact` gives it. */
  lemma ClassSelfStep(d: Store, fs: seq<Fact>, c: Iri, cs: ClassState, keys: set<Iri>)
    requires fs != [] && c in d.classes && Last(fs).subject == c && !IsInstanceFact(d, Last(fs), c)
    requires cs == ExpectedClass(d, Init(fs), c)
    requires ApplyClassFact(c, cs, PredicateOf(Last(fs).pred), Last(fs).obj, keys).Ok?
    ensures ApplyClassFact(c, cs, PredicateOf(Last(fs).pred), Last(fs).obj, keys).value.0
         == ExpectedClass(d, fs, c)
  {
    var prev, f := Init(fs), Last(fs);
    var p := PredicateOf(f.pred);
    DedupSame(Instances(d, c, prev));
    if p == SubClassOf && f.obj.Node? {
      DedupStep(Targets(prev, c, SubClassOf), f.obj.id);
    } else {
      DedupSame(Targets(prev, c, SubClassOf));
    }
    if p == SupersededBy && f.obj.Node? {
      DedupStep(Targets(prev, c, SupersededBy), f.obj.id);
    } else {
      DedupSame(Targets(prev, c, SupersededBy));
    }
  }

  /** A fact about another entity leaves the property `q` as it was. */
  lemma PropOtherStep(fs: seq<Fact>, q: Iri)
    requires fs != [] && Last(fs).subject != q
    ensures ExpectedProp(fs, q) == ExpectedProp(Init(fs), q)
  {
    var prev := Init(fs);
    DedupSame(Targets(prev, q, DomainIncludes));
    DedupSame(Targets(prev, q, RangeIncludes));
    DedupSame(Targets(prev, q, SupersededBy));
  }

  /** A fact about the property `q` itself has the effect `ApplyPropFact` gives it. */
  lemma PropSelfStep(fs: seq<Fact>, q: Iri, ps: PropState, classes: set<Iri>, props: set<Iri>)
    requires fs != [] && Last(fs).subject == q && ps == ExpectedProp(Init(fs), q)
    requires ApplyPropFact(q, ps, PredicateOf(Last(fs).pred), Last(fs).obj, classes, props).Ok?
    ensures ApplyPropFact(q, ps, PredicateOf(Last(fs).pred), Last(fs).obj, classes, props).value
         == ExpectedProp(fs, q)
  {
    var prev, f := Init(fs), Last(fs);
    var p := PredicateOf(f.pred);
    if p == DomainIncludes && f.obj.Node? {
      DedupStep(Targets(prev, q, DomainIncludes), f.obj.id);
    } else {
      DedupSame(Targets(prev, q, DomainIncludes));
    }
    if p == RangeIncludes && f.obj.Node? {
      DedupStep(Targets(prev, q, RangeIncludes), f.obj.id);
    } else {
      DedupSame(Targets(prev, q, RangeIncludes));
    }
    if p == SupersededBy && f.obj.Node? {
      DedupStep(Targets(prev, q, SupersededBy), f.obj.id);
    } else {
      DedupSame(Targets(prev, q, SupersededBy));
    }
  }

  /** A fact about no property leaves every property as it was. */
  lemma PropsUnchanged(st: Store, fs: seq<Fact>)
    requires fs != [] && Last(fs).subject !in st.props
    requires PropsRecorded(st.props, Init(fs))
    ensures PropsRecorded(st.props, fs)
  {
    forall q | q in st.props
      ensures st.props[q] == ExpectedProp(fs, q)
    {
      PropOtherStep(fs, q);
    }
  }

  /** A fact about the class `s` leaves every other class as it was. */
  lemma ClassesAfterClassFact(d: Store, st: Store, fs: seq<Fact>, cs: ClassState)
    requires fs != [] && Last(fs).subject in d.classes
    requires ClassesRecorded(d, st.classes, Init(fs))
    requires cs == ExpectedClass(d, fs, Last(fs).subject)
    ensures ClassesRecorded(d, st.classes[Last(fs).subject := cs], fs)
  {
    var s := Last(fs).subject;
    forall c | c in st.classes && c != s
      ensures c in d.classes && st.classes[c] == ExpectedClass(d, fs, c)
    {
      ClassOtherStep(d, fs, c);
    }
  }

  /** A fact about a property leaves every other property as it was, and that one as `ApplyPropFact` says. */
  lemma PropsAfterPropFact(st: Store, fs: seq<Fact>, ps: PropState)
    requires fs != [] && Last(fs).subject in st.props
    requires PropsRecorded(st.props, Init(fs))
    requires ApplyPropFact(Last(fs).subject, st.props[Last(fs).subject], PredicateOf(Last(fs).pred),
                           Last(fs).obj, st.classes.Keys, st.props.Keys).Ok?
    requires ps == ApplyPropFact(Last(fs).subject, st.props[Last(fs).subject], PredicateOf(Last(fs).pred),
                                 Last(fs).obj, st.classes.Keys, st.props.Keys).value
    ensures PropsRecorded(st.props[Last(fs).subject := ps], fs)
  {
    var s := Last(fs).subject;
    forall q | q in st.props
      ensures st.props[s := ps][q] == ExpectedProp(fs, q)
    {
      if q == s {
        PropSelfStep(fs, q, st.props[q], st.classes.Keys, st.props.Keys);
      } else {
        PropOtherStep(fs, q);
      }
    }
  }

  /** A fact about no class, and typing no individual, leaves every class as it was. */
  lemma ClassesUnchanged(d: Store, st: Store, fs: seq<Fact>)
    requires fs != [] && Records(d, st, Init(fs)) && Last(fs).subject !in st.classes
    requires !(Last(fs).obj.Node? && IsInstanceFact(st, Last(fs), Last(fs).obj.id))
    ensures ClassesRecorded(d, st.classes, fs)
  {
    forall c | c in st.classes
      ensures c in d.classes && st.classes[c] == ExpectedClass(d, fs, c)
    {
      InstanceFactStable(d, st, Init(fs), Last(fs), c);
      ClassOtherStep(d, fs, c);
    }
  }

  /** An individual typed with the datatype `c` joins its members, and no other class changes. */
  lemma ClassesAfterInstance(d: Store, st: Store, fs: seq<Fact>, c: Iri)
    requires fs != [] && Records(d, st, Init(fs))
    requires Last(fs).obj.Node? && c == Last(fs).obj.id && IsInstanceFact(st, Last(fs), c)
    ensures ClassesRecorded(d, st.classes[c := st.classes[c].(members := AddOnce(st.classes[c].members, Last(fs).subject))], fs)
  {
    var cs := st.classes[c].(members := AddOnce(st.classes[c].members, Last(fs).subject));
    forall k | k in st.classes
      ensures k in d.classes && st.classes[c := cs][k] == ExpectedClass(d, fs, k)
    {
      InstanceFactStable(d, st, Init(fs), Last(fs), k);
      if k == c {
        ClassMemberStep(d, fs, k);
      } else {
        ClassOtherStep(d, fs, k);
      }
    }
  }

  lemma RecordsAfterClassFact(d: Store, st: Store, fs: seq<Fact>, cs: ClassState)
    requires fs != [] && WellFormed(d) && Records(d, st, Init(fs))
    requires Last(fs).subject in st.classes && cs == ExpectedClass(d, fs, Last(fs).subject)
    ensures Records(d, st.(classes := st.classes[Last(fs).subject := cs]), fs)
  {
    assert Last(fs).subject !in d.props;
    ClassesAfterClassFact(d, st, fs, cs);
    PropsUnchanged(st, fs);
  }

  lemma RecordsAfterPropFact(d: Store, st: Store, fs: seq<Fact>, ps: PropState)
    requires fs != [] && Records(d, st, Init(fs))
    requires Last(fs).subject !in st.classes && Last(fs).subject in st.props
    requires ApplyPropFact(Last(fs).subject, st.props[Last(fs).subject], PredicateOf(Last(fs).pred),
                           Last(fs).obj, st.classes.Keys, st.props.Keys).Ok?
    requires ps == ApplyPropFact(Last(fs).subject, st.props[Last(fs).subject], PredicateOf(Last(fs).pred),
                                 Last(fs).obj, st.classes.Keys, st.props.Keys).value
    ensures Records(d, st.(props := st.props[Last(fs).subject := ps]), fs)
  {
    ClassesUnchanged(d, st, fs);
    PropsAfterPropFact(st, fs, ps);
  }

  lemma RecordsAfterInstance(d: Store, st: Store, fs: seq<Fact>, c: Iri)
    requires fs != [] && Records(d, st, Init(fs))
    requires Last(fs).subject !in st.props
    requires Last(fs).obj.Node? && c == Last(fs).obj.id && IsInstanceFact(st, Last(fs), c)
    ensures Records(d, st.(classes := st.classes[c := st.classes[c].(members := AddOnce(st.classes[c].members, Last(fs).subject))]), fs)
  {
    ClassesAfterInstance(d, st, fs, c);
    PropsUnchanged(st, fs);
  }

  lemma RecordsAfterIgnoredFact(d: Store, st: Store, fs: seq<Fact>)
    requires fs != [] && Records(d, st, Init(fs))
    requires Last(fs).subject !in st.classes && Last(fs).subject !in st.props
    requires !(Last(fs).obj.Node? && IsInstanceFact(st, Last(fs), Last(fs).obj.id))
    ensures Records(d, st, fs)
  {
    ClassesUnchanged(d, st, fs);
    PropsUnchanged(st, fs);
  }

  /** One second-pass step keeps the record of the facts so far. */
  lemma RelateRecords(d: Store, st: Store, fs: seq<Fact>)
    requires fs != [] && WellFormed(d) && Records(d, st, Init(fs))
    requires Relate(st, Last(fs)).Ok?
    ensures Records(d, Relate(st, Last(fs)).value, fs)
  {
    var f := Last(fs);
    var s := f.subject;
    var p := PredicateOf(f.pred);
    if s in st.classes {
      var r := ApplyClassFact(s, st.classes[s], p, f.obj, st.classes.Keys);
      ClassSelfStep(d, fs, s, st.classes[s], st.classes.Keys);
      RecordsAfterClassFact(d, st, fs, r.value.0);
    } else if s in st.props {
      var r := ApplyPropFact(s, st.props[s], p, f.obj, st.classes.Keys, st.props.Keys);
      RecordsAfterPropFact(d, st, fs, r.value);
    } else if f.obj.Node? && IsInstanceFact(st, f, f.obj.id) {
      RecordsAfterInstance(d, st, fs, f.obj.id);
    } else {
      RecordsAfterIgnoredFact(d, st, fs);
    }
  }

  /** One second-pass step succeeds exactly when its reference resolves. */
  lemma RelateOkIff(d: Store, st: Store, fs: seq<Fact>, f: Fact)
    requires WellFormed(d) && Records(d, st, fs)
    ensures Relate(st, f).Ok? <==> Resolves(d, f)
  {
    assert st.classes.Keys == d.classes.Keys && st.props.Keys == d.props.Keys;
  }

  /**
   * The second pass, when it succeeds, leaves each declared entity in the
   * state the facts give it.
   */
  lemma {:induction false} RelateAllRecords(d: Store, fs: seq<Fact>)
    requires WellFormed(d) && Pristine(d)
    requires RelateAll(d, fs).Ok?
    ensures Records(d, RelateAll(d, fs).value, fs)
  {
    if fs != [] {
      RelateAllRecords(d, Init(fs));
      RelateRecords(d, RelateAll(d, Init(fs)).value, fs);
    }
  }

  predicate AllResolve(d: Store, fs: seq<Fact>) {
    forall i :: 0 <= i < |fs| ==> Resolves(d, fs[i])
  }

  lemma AllResolveSplit(d: Store, fs: seq<Fact>)
    requires fs != []
    ensures AllResolve(d, fs) <==> AllResolve(d, Init(fs)) && Resolves(d, Last(fs))
  {
    var prev := Init(fs);
    assert forall i :: 0 <= i < |prev| ==> prev[i] == fs[i];
  }

  /** The second pass succeeds exactly when every reference resolves. */
  lemma {:induction false} RelateAllOkIff(d: Store, fs: seq<Fact>)
    requires WellFormed(d) && Pristine(d)
    ensures RelateAll(d, fs).Ok? <==> AllResolve(d, fs)
  {
    if fs != [] {
      var prev := Init(fs);
      RelateAllOkIff(d, prev);
      AllResolveSplit(d, fs);
      assert fs[..|fs| - 1] == prev;
      if RelateAll(d, prev).Ok? {
        var st := RelateAll(d, prev).value;
        RelateAllRecords(d, prev);
        RelateOkIff(d, st, prev, Last(fs));
        assert RelateAll(d, fs) == Relate(st, Last(fs));
      } else {
        assert RelateAll(d, fs).Err?;
      }
    }
  }

  /** Ingestion succeeds exactly when every reference names a declared entity. */
  lemma IngestOkIff(facts: seq<Fact>)
    ensures Ingest(facts).Ok? <==> AllResolve(DeclareAll(facts), facts)
  {
    DeclareAllWellFormed(facts);
    RelateAllOkIff(DeclareAll(facts), facts);
  }

  /**
   * A successful ingestion records, for every declared entity, exactly
   * what the facts about it say, in arrival order.
   */
  lemma IngestRecords(facts: seq<Fact>)
    requires Ingest(facts).Ok?
    ensures Records(DeclareAll(facts), Ingest(facts).value, facts)
    ensures WellFormed(Ingest(facts).value)
  {
    DeclareAllWellFormed(facts);
    RelateAllRecords(DeclareAll(facts), facts);
  }

  /** The fact `f` says `(s, p, x)` with `x` an identifier. */
  predicate Says(f: Fact, s: Iri, p: Predicate, x: Iri) {
    f.subject == s && PredicateOf(f.pred) == p && f.obj == Node(x)
  }

  /** The targets of the `p` facts about `s` are exactly the identifiers such facts name. */
  lemma {:induction false} TargetsIff(fs: seq<Fact>, s: Iri, p: Predicate, x: Iri)
    ensures x in Targets(fs, s, p) <==> exists f :: f in fs && Says(f, s, p, x)
  {
    if fs != [] {
      TargetsIff(Init(fs), s, p, x);
      MembersOfInitLast(fs);
      assert Last(fs) in fs;
    }
  }

  /** The members found for a datatype are exactly the individuals some fact types with it. */
  lemma {:induction false} InstancesIff(d: Store, c: Iri, fs: seq<Fact>, x: Iri)
    ensures x in Instances(d, c, fs) <==> exists f :: f in fs && IsInstanceFact(d, f, c) && f.subject == x
  {
    if fs != [] {
      InstancesIff(d, c, Init(fs), x);
      assert fs == Init(fs) + [Last(fs)];
      assert Last(fs) in fs;
      if f :| f in fs && IsInstanceFact(d, f, c) && f.subject == x {
        if f != Last(fs) {
          assert f in Init(fs);
        }
      }
    }
  }
}
