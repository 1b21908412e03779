/**
 * A class of the ontology and the way facts about it are recorded
 * (`Class.add`): `subClassOf` records a parent, `supersededBy` a
 * deprecation target, `comment` the raw comment. A parent or target that
 * is not a known class is an error; every other fact is left unapplied.
 */
module Classes {
  import opened Wrappers
  import opened Iri
  import opened Facts
  import opened Errors
  import opened EntityOrder

  /** The recorded state of one class. */
  datatype ClassState = ClassState(
    kind: Kind,
    parents: seq<Iri>,
    supersededBy: seq<Iri>,
    comment: Option<string>,
    members: seq<Iri>)

  /** A class as first declared: nothing recorded about it yet. */
  function Declared(kind: Kind): ClassState {
    ClassState(kind, [], [], None, [])
  }

  /** A class is deprecated once something supersedes it. */
  predicate IsDeprecated(st: ClassState) {
    st.supersededBy != []
  }

  predicate NoDuplicates<T(==)>(s: seq<T>) {
    forall i, j :: 0 <= i < j < |s| ==> s[i] != s[j]
  }

  /** Each element of a sequence without duplicates occurs in it at most once. */
  lemma {:induction false} DistinctCount<T>(s: seq<T>, x: T)
    requires NoDuplicates(s)
    ensures multiset(s)[x] <= 1
  {
    if s != [] {
      assert s == [s[0]] + s[1..];
      assert NoDuplicates(s[1..]) by {
        forall i, j | 0 <= i < j < |s| - 1 ensures s[1..][i] != s[1..][j] {
          assert s[1..][i] == s[i + 1] && s[1..][j] == s[j + 1];
        }
      }
      DistinctCount(s[1..], x);
      if x == s[0] {
        forall k | 0 <= k < |s| - 1 ensures s[1..][k] != x {
          assert s[1..][k] == s[k + 1];
        }
        assert x !in s[1..];
      }
    }
  }

  /** An element found at two positions occurs at least twice. */
  lemma RepeatCount<T>(s: seq<T>, i: int, j: int)
    requires 0 <= i < j < |s|
    ensures s[i] == s[j] ==> multiset(s)[s[i]] >= 2
  {
    assert s == s[..j] + s[j..];
    assert s[..j][i] == s[i] && s[j..][0] == s[j];
    assert s[i] in s[..j] && s[j] in s[j..];
  }

  /** Rearranging a sequence neither creates nor removes duplicates. */
  lemma PermutationKeepsDistinct<T>(a: seq<T>, b: seq<T>)
    requires multiset(a) == multiset(b)
    ensures NoDuplicates(a) <==> NoDuplicates(b)
  {
    if NoDuplicates(a) {
      forall i, j | 0 <= i < j < |b| ensures b[i] != b[j] {
        DistinctCount(a, b[i]);
        RepeatCount(b, i, j);
      }
    }
    if NoDuplicates(b) {
      forall i, j | 0 <= i < j < |a| ensures a[i] != a[j] {
        DistinctCount(b, a[i]);
        RepeatCount(a, i, j);
      }
    }
  }

  /** `s` with `x` appended, unless it is already there. */
  function AddOnce<T(==)>(s: seq<T>, x: T): (r: seq<T>)
    ensures x in r && s <= r && |r| <= |s| + 1
    ensures forall y :: y in r ==> y in s || y == x
    ensures NoDuplicates(s) ==> NoDuplicates(r)
  {
    if x in s then s else s + [x]
  }

  /**
   * The effect of the fact `(self, p, o)` on a class in state `st`, given
   * the identifiers of the known classes: the new state and whether the
   * fact was applied, or the error it raises.
   */
  function ApplyClassFact(self: Iri, st: ClassState, p: Predicate, o: Object, known: set<Iri>)
    : (r: Result<(ClassState, bool), Error>)
    ensures r.Err? <==> (p == SubClassOf || p == SupersededBy) && o.Node? && o.id !in known
    ensures r.Err? && p == SubClassOf ==> r.error == MissingParent(self, o.id)
    ensures r.Err? && p == SupersededBy ==> r.error == MissingClass(o.id, self)
    ensures r.Ok? ==> var (st', applied) := r.value;
      && (applied <==> (p == Comment && o.Literal?)
                       || ((p == SubClassOf || p == SupersededBy) && o.Node?))
      && (!applied ==> st' == st)
      && st'.kind == st.kind && st'.members == st.members
      && (p == SubClassOf && applied ==> st'.parents == AddOnce(st.parents, o.id))
      && (p == SupersededBy && applied ==> st'.supersededBy == AddOnce(st.supersededBy, o.id))
      && (p == Comment && applied ==> st'.comment == Some(o.text))
      && (p != SubClassOf ==> st'.parents == st.parents)
      && (p != SupersededBy ==> st'.supersededBy == st.supersededBy)
      && (p != Comment ==> st'.comment == st.comment)
  {
    match p
    case SubClassOf =>
      if !o.Node? then Ok((st, false))
      else if o.id !in known then Err(MissingParent(self, o.id))
      else Ok((st.(parents := AddOnce(st.parents, o.id)), true))
    case SupersededBy =>
      if !o.Node? then Ok((st, false))
      else if o.id !in known then Err(MissingClass(o.id, self))
      else Ok((st.(supersededBy := AddOnce(st.supersededBy, o.id)), true))
    case Comment =>
      if o.Literal? then Ok((st.(comment := Some(o.text)), true)) else Ok((st, false))
    case _ => Ok((st, false))
  }

  /** Applying the same fact twice has the effect of applying it once. */
  lemma ApplyClassFactIdempotent(self: Iri, st: ClassState, p: Predicate, o: Object, known: set<Iri>)
    requires ApplyClassFact(self, st, p, o, known).Ok?
    ensures var st' := ApplyClassFact(self, st, p, o, known).value.0;
      ApplyClassFact(self, st', p, o, known).Ok?
      && ApplyClassFact(self, st', p, o, known).value.0 == st'
  {
  }

  /** Every reference a class records names a class of `known`. */
  predicate ReferencesKnown(st: ClassState, known: set<Iri>) {
    (forall x :: x in st.parents ==> x in known)
    && (forall x :: x in st.supersededBy ==> x in known)
  }

  /** Recording a fact keeps every reference pointing at a known class, and keeps lists duplicate-free. */
  lemma ApplyClassFactKeepsReferences(self: Iri, st: ClassState, p: Predicate, o: Object, known: set<Iri>)
    requires ReferencesKnown(st, known)
    requires NoDuplicates(st.parents) && NoDuplicates(st.supersededBy)
    requires ApplyClassFact(self, st, p, o, known).Ok?
    ensures var st' := ApplyClassFact(self, st, p, o, known).value.0;
      ReferencesKnown(st', known) && NoDuplicates(st'.parents) && NoDuplicates(st'.supersededBy)
  {
  }

  /** A class of the ontology, updated in place as facts about it arrive. */
  class ClassEntity {
    const subject: Iri
    var kind: Kind
    var parents: seq<Iri>
    var supersededBy: seq<Iri>
    var comment: Option<string>
    var members: seq<Iri>

    function State(): ClassState
      reads this
    {
      ClassState(kind, parents, supersededBy, comment, members)
    }

    /** A fresh class is not deprecated and has nothing recorded. */
    constructor(subject: Iri, kind: Kind)
      ensures this.subject == subject
      ensures State() == Declared(kind)
      ensures !IsDeprecated(State())
    {
      this.subject := subject;
      this.kind := kind;
      parents := [];
      supersededBy := [];
      comment := None;
      members := [];
    }

    predicate Deprecated()
      reads this
    {
      IsDeprecated(State())
    }

    /**
     * Records the fact `(subject, pred, obj)`. Answers whether it
     * was applied; on an error nothing changes.
     */
    method Add(pred: Iri, obj: Object, classMap: map<Iri, ClassEntity>)
      returns (r: Result<bool, Error>)
      modifies this
      ensures match ApplyClassFact(subject, old(State()), PredicateOf(pred), obj, classMap.Keys)
        case Err(e) => r == Err(e) && State() == old(State())
        case Ok((st, applied)) => r == Ok(applied) && State() == st
    {
      var p := PredicateOf(pred);
      match p
      case SubClassOf =>
        if !obj.Node? {
          return Ok(false);
        }
        if obj.id !in classMap {
          return Err(MissingParent(subject, obj.id));
        }
        parents := AddOnce(parents, obj.id);
        return Ok(true);
      case SupersededBy =>
        if !obj.Node? {
          return Ok(false);
        }
        if obj.id !in classMap {
          return Err(MissingClass(obj.id, subject));
        }
        supersededBy := AddOnce(supersededBy, obj.id);
        return Ok(true);
      case Comment =>
        if !obj.Literal? {
          return Ok(false);
        }
        comment := Some(obj.text);
        return Ok(true);
      case _ =>
        return Ok(false);
    }

    /** A `DataType` typing fact makes the class a datatype. */
    method MarkDataType()
      modifies this
      ensures State() == old(State()).(kind := Primitive)
    {
      kind := Primitive;
    }

    /** An individual typed with this class joins its members, in discovery order. */
    method AddMember(m: Iri)
      modifies this
      ensures State() == old(State()).(members := AddOnce(old(members), m))
    {
      members := AddOnce(members, m);
    }
  }
}
