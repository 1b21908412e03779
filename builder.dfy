/**
 * Ingestion as the program performs it: a registry of class objects,
 * each updated in place by `ClassEntity.Add`, and a map of properties,
 * built by folding over the facts twice. The result is proved to be the
 * store `Store.Ingest` specifies, so everything proved about that store
 * holds of the registry.
 */
module Builder {
  import opened Wrappers
  import opened Iri
  import opened Facts
  import opened Errors
  import opened EntityOrder
  import opened Classes
  import opened Store

  /** The recorded state of every class object of `m`. */
  function States(m: map<Iri, ClassEntity>): map<Iri, ClassState>
    reads m.Values
  {
    map k | k in m :: m[k].State()
  }

  lemma StatesPut(m: map<Iri, ClassEntity>, s: Iri, c: ClassEntity)
    ensures States(m[s := c]) == States(m)[s := c.State()]
  {
  }

  lemma StatesSplit(m: map<Iri, ClassEntity>, s: Iri)
    requires s in m
    ensures States(m) == States(m - {s})[s := m[s].State()]
  {
  }

  lemma MapPutTwice<K, V>(m: map<K, V>, k: K, v: V, w: V)
    ensures m[k := v][k := w] == m[k := w]
  {
  }

  /** The entities of the ontology being compiled, keyed by identifier. */
  class Registry {
    var classOrder: seq<Iri>
    var classes: map<Iri, ClassEntity>
    var propOrder: seq<Iri>
    var props: map<Iri, PropState>

    /** Each class object is filed under its own identifier, so no two keys share one. */
    ghost predicate Valid()
      reads this, classes.Values
    {
      forall k :: k in classes ==> classes[k].subject == k
    }

    /** The recorded state of every entity, as a value. */
    function Snapshot(): Store
      reads this, classes.Values
    {
      Store(classOrder, States(classes), propOrder, props)
    }

    constructor()
      ensures Valid() && Snapshot() == Empty && classes == map[]
    {
      classOrder := [];
      classes := map[];
      propOrder := [];
      props := map[];
    }

    /** Files a new class object under `s`. */
    method AddClass(s: Iri, kind: Kind)
      requires Valid() && s !in classes
      modifies this
      ensures Valid() && props == old(props) && propOrder == old(propOrder)
      ensures Snapshot() == old(Snapshot()).(classOrder := old(classOrder) + [s],
                                             classes := old(Snapshot()).classes[s := Declared(kind)])
      ensures s in classes && fresh(classes[s]) && classes == old(classes)[s := classes[s]]
    {
      var c := new ClassEntity(s, kind);
      StatesPut(classes, s, c);
      classOrder := classOrder + [s];
      classes := classes[s := c];
    }

    /** Makes the class `s` a datatype. */
    method Promote(s: Iri)
      requires Valid() && s in classes
      modifies classes[s]
      ensures Valid()
      ensures Snapshot() == old(Snapshot()).(classes := old(Snapshot()).classes[s := old(Snapshot()).classes[s].(kind := Primitive)])
    {
      var c := classes[s];
      ghost var rest := States(classes - {s});
      StatesSplit(classes, s);
      assert c !in (classes - {s}).Values;
      c.MarkDataType();
      assert States(classes - {s}) == rest;
      StatesSplit(classes, s);
      MapPutTwice(rest, s, old(c.State()), c.State());
    }

    /** First pass: declares the entity an `rdf:type` fact establishes. */
    method Register(f: Fact)
      requires Valid()
      modifies this, classes.Values
      ensures Valid()
      ensures Snapshot() == Declare(old(Snapshot()), f)
      ensures forall k :: k in classes ==> (k in old(classes) && classes[k] == old(classes)[k]) || fresh(classes[k])
    {
      if PredicateOf(f.pred) != Type || !f.obj.Node? || f.subject in props {
        return;
      }
      var s := f.subject;
      match TypeObjectOf(f.obj.id)
      case ClassType =>
        if s !in classes {
          AddClass(s, ClassKind(s));
        }
      case DataTypeType =>
        if s in classes {
          Promote(s);
        } else {
          AddClass(s, Primitive);
        }
      case PropertyType =>
        if s !in classes {
          propOrder := propOrder + [s];
          props := props[s := NewProperty];
        }
      case InstanceOf(_) =>
    }

    /** Records a fact about the class `f.subject` through its own `Add`. */
    method ApplyToClass(f: Fact) returns (r: Result<(), Error>)
      requires Valid() && f.subject in classes
      modifies classes[f.subject]
      ensures Valid()
      ensures match ApplyClassFact(f.subject, old(Snapshot()).classes[f.subject], PredicateOf(f.pred), f.obj,
                                   old(Snapshot()).classes.Keys)
        case Err(e) => r == Err(e) && Snapshot() == old(Snapshot())
        case Ok((cs, _)) => r == Ok(()) && Snapshot() == old(Snapshot()).(classes := old(Snapshot()).classes[f.subject := cs])
    {
      var s := f.subject;
      var c := classes[s];
      ghost var rest := States(classes - {s});
      StatesSplit(classes, s);
      assert c !in (classes - {s}).Values;
      assert States(classes).Keys == classes.Keys;
      var added := c.Add(f.pred, f.obj, classes);
      assert States(classes - {s}) == rest;
      StatesSplit(classes, s);
      MapPutTwice(rest, s, old(c.State()), c.State());
      match added
      case Err(e) => r := Err(e);
      case Ok(_) => r := Ok(());
    }

    /** Adds the individual `m` to the members of the datatype `c`. */
    method AddMemberTo(c: Iri, m: Iri)
      requires Valid() && c in classes
      modifies classes[c]
      ensures Valid()
      ensures Snapshot() == old(Snapshot()).(classes := old(Snapshot()).classes[c :=
        old(Snapshot()).classes[c].(members := AddOnce(old(Snapshot()).classes[c].members, m))])
    {
      var e := classes[c];
      ghost var rest := States(classes - {c});
      StatesSplit(classes, c);
      assert e !in (classes - {c}).Values;
      e.AddMember(m);
      assert States(classes - {c}) == rest;
      StatesSplit(classes, c);
      MapPutTwice(rest, c, old(e.State()), e.State());
    }

    /** Second pass: records one fact about the declared entities, or fails on an unknown reference. */
    method Apply(f: Fact) returns (r: Result<(), Error>)
      requires Valid()
      modifies this, classes.Values
      ensures Valid() && classes == old(classes)
      ensures match Relate(old(Snapshot()), f)
        case Err(e) => r == Err(e)
        case Ok(st) => r == Ok(()) && Snapshot() == st
    {
      var s := f.subject;
      var p := PredicateOf(f.pred);
      assert States(classes).Keys == classes.Keys;
      if s in classes {
        r := ApplyToClass(f);
      } else if s in props {
        match ApplyPropFact(s, props[s], p, f.obj, classes.Keys, props.Keys)
        case Err(e) => r := Err(e);
        case Ok(ps) =>
          props := props[s := ps];
          r := Ok(());
      } else if p == Type && f.obj.Node? && f.obj.id in classes && classes[f.obj.id].kind == Primitive {
        AddMemberTo(f.obj.id, s);
        r := Ok(());
      } else {
        r := Ok(());
      }
    }

    /** The first pass over all the facts, from an empty registry. */
    method RegisterAll(facts: seq<Fact>)
      requires Valid() && classes == map[] && Snapshot() == Empty
      modifies this
      ensures Valid() && Snapshot() == DeclareAll(facts)
      ensures forall k :: k in classes ==> fresh(classes[k])
    {
      var i := 0;
      while i < |facts|
        invariant 0 <= i <= |facts|
        invariant Valid() && Snapshot() == DeclareAll(facts[..i])
        invariant forall k :: k in classes ==> fresh(classes[k])
      {
        assert facts[..i + 1][..i] == facts[..i];
        Register(facts[i]);
        i := i + 1;
      }
      assert facts[..i] == facts;
    }

    /** The second pass over all the facts, stopping at the first error. */
    method ApplyAll(facts: seq<Fact>) returns (r: Result<(), Error>)
      requires Valid()
      modifies this, classes.Values
      ensures Valid() && classes == old(classes)
      ensures match RelateAll(old(Snapshot()), facts)
        case Err(e) => r == Err(e)
        case Ok(st) => r == Ok(()) && Snapshot() == st
    {
      ghost var start := Snapshot();
      var i := 0;
      while i < |facts|
        invariant 0 <= i <= |facts|
        invariant Valid() && classes == old(classes)
        invariant RelateAll(start, facts[..i]) == Ok(Snapshot())
      {
        RelateAllNext(start, facts, i, Snapshot());
        var applied := Apply(facts[i]);
        if applied.Err? {
          RelateAllStopsAtError(start, facts, i + 1);
          return Err(applied.error);
        }
        i := i + 1;
      }
      assert facts[..i] == facts;
      r := Ok(());
    }
  }

  /**
   * Builds the registry from the facts: every fact is registered, then
   * every fact is applied in arrival order, stopping at the first error.
   * The outcome is exactly the specified ingestion.
   */
  method Build(facts: seq<Fact>) returns (r: Result<Store, Error>)
    ensures r == Ingest(facts)
  {
    var reg := new Registry();
    reg.RegisterAll(facts);
    var applied := reg.ApplyAll(facts);
    match applied
    case Err(e) => r := Err(e);
    case Ok(_) => r := Ok(reg.Snapshot());
  }

  /** The second pass over one more fact relates that fact to the store so far. */
  lemma RelateAllNext(st: Store, facts: seq<Fact>, i: nat, cur: Store)
    requires i < |facts| && RelateAll(st, facts[..i]) == Ok(cur)
    ensures RelateAll(st, facts[..i + 1]) == Relate(cur, facts[i])
  {
    assert facts[..i + 1][..i] == facts[..i];
  }

  /** Once the second pass fails on a prefix, it fails the same way on the whole. */
  lemma {:induction false} RelateAllStopsAtError(st: Store, facts: seq<Fact>, n: nat)
    requires n <= |facts| && RelateAll(st, facts[..n]).Err?
    ensures RelateAll(st, facts) == RelateAll(st, facts[..n])
    decreases |facts| - n
  {
    if n < |facts| {
      assert facts[..n + 1][..n] == facts[..n];
      RelateAllStopsAtError(st, facts, n + 1);
    } else {
      assert facts[..n] == facts;
    }
  }
}
