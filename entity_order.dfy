/**
 * The canonical sort of entities (`Sort` in the class module): primitive
 * datatypes first, then datatype unions, then regular classes; within a
 * tier by key (local name, then full IRI), except that any two datatype
 * unions compare equal.
 */
module EntityOrder {
  import opened Strings
  import opened Iri
  import opened Sorting

  /** The sort tier of an entity. `Builtin` and `AliasBuiltin` are both `Primitive`. */
  datatype Kind = Primitive | DataTypeUnion | Regular

  datatype Entity = Entity(kind: Kind, id: Iri)

  function Tier(k: Kind): nat
  {
    match k
    case Primitive => 0
    case DataTypeUnion => 1
    case Regular => 2
  }

  function Sort(a: Entity, b: Entity): (r: int)
    ensures r == -1 || r == 0 || r == 1
    ensures Tier(a.kind) < Tier(b.kind) ==> r == -1
    ensures Tier(a.kind) > Tier(b.kind) ==> r == 1
  {
    if a.kind.Primitive? && !b.kind.Primitive? then -1
    else if !a.kind.Primitive? && b.kind.Primitive? then 1
    else if a.kind.DataTypeUnion? && !b.kind.DataTypeUnion? then -1
    else if !a.kind.DataTypeUnion? && b.kind.DataTypeUnion? then 1
    else if a.kind.DataTypeUnion? then 0
    else CompareKeys(a.id, b.id)
  }

  /**
   * Equal rank happens only for two datatype unions or for the same
   * identifier in the same tier.
   */
  lemma SortZeroIff(a: Entity, b: Entity)
    ensures Sort(a, b) == 0 <==>
              Tier(a.kind) == Tier(b.kind) && (a.kind.DataTypeUnion? || a.id == b.id)
  {
    CompareKeysZeroIffSame(a.id, b.id);
  }

  lemma SortAntisymmetric(a: Entity, b: Entity)
    ensures Sort(a, b) == -Sort(b, a)
  {
    CompareKeysAntisymmetric(a.id, b.id);
  }

  lemma SortTransitive(a: Entity, b: Entity, c: Entity)
    requires Sort(a, b) <= 0 && Sort(b, c) <= 0
    ensures Sort(a, c) <= 0
  {
    if Tier(a.kind) == Tier(b.kind) == Tier(c.kind) && !a.kind.DataTypeUnion? {
      CompareKeysTransitive(a.id, b.id, c.id);
    }
  }

  /** `Sort` is a total preorder, so sorting by it is well defined. */
  lemma SortIsTotalPreorder()
    ensures Total(Sort) && Transitive(Sort)
  {
    forall a, b ensures Sort(a, b) <= 0 || Sort(b, a) <= 0 {
      SortAntisymmetric(a, b);
    }
    forall a, b, c | Sort(a, b) <= 0 && Sort(b, c) <= 0 ensures Sort(a, c) <= 0 {
      SortTransitive(a, b, c);
    }
  }

  /** The key order is a total order: lists sorted by it are determined by their contents. */
  lemma KeyOrderIsTotalOrder()
    ensures Total(CompareKeys) && Transitive(CompareKeys) && Antisymmetric(CompareKeys)
  {
    forall a, b ensures CompareKeys(a, b) <= 0 || CompareKeys(b, a) <= 0 {
      CompareKeysAntisymmetric(a, b);
    }
    forall a, b, c | CompareKeys(a, b) <= 0 && CompareKeys(b, c) <= 0
      ensures CompareKeys(a, c) <= 0
    {
      CompareKeysTransitive(a, b, c);
    }
    forall a, b | CompareKeys(a, b) <= 0 && CompareKeys(b, a) <= 0 ensures a == b {
      CompareKeysAntisymmetric(a, b);
      CompareKeysZeroIffSame(a, b);
    }
  }

  /** Identifiers in key order. */
  function ByKey(ids: seq<Iri>): (r: seq<Iri>)
    ensures SortedBy(CompareKeys, r) && multiset(r) == multiset(ids)
  {
    KeyOrderIsTotalOrder();
    SortBy(CompareKeys, ids)
  }

  /** Entities in canonical order. */
  function Ranked(es: seq<Entity>): (r: seq<Entity>)
    ensures SortedBy(Sort, r) && multiset(r) == multiset(es)
  {
    SortIsTotalPreorder();
    SortBy(Sort, es)
  }

  /** A class, a primitive datatype and a datatype union, each named by parsing its IRI. */
  function RegularClass(href: string): Entity { Entity(Regular, Parse(href)) }
  function Builtin(href: string): Entity { Entity(Primitive, Parse(href)) }
  function Union(href: string): Entity { Entity(DataTypeUnion, Parse(href)) }

  /**
   * Primitive datatypes first, then datatype unions, then regular classes;
   * unions are all equal, and every entity is equal to itself.
   */
  lemma SortTiers(h: string, k: string)
    ensures Sort(Builtin(h), Union(k)) == -1 && Sort(Union(h), Builtin(k)) == 1
    ensures Sort(Builtin(h), RegularClass(k)) == -1 && Sort(Union(h), RegularClass(k)) == -1
    ensures Sort(Union(h), Union(k)) == 0
    ensures Sort(Builtin(h), Builtin(h)) == 0 && Sort(RegularClass(h), RegularClass(h)) == 0
  {
    SortZeroIff(Builtin(h), Builtin(h));
    SortZeroIff(RegularClass(h), RegularClass(h));
  }

  /**
   * Regular classes: by local name first, whatever their namespaces; the
   * name of a `#` IRI is its fragment.
   */
  lemma SortRegularByName(p: string, n: string, q: string, m: string)
    requires Namespace(p) && LocalName(n) && Namespace(q) && LocalName(m) && n != m
    ensures Sort(RegularClass(p + n), RegularClass(q + m)) == Compare(n, m)
    ensures Sort(RegularClass(p + n), RegularClass(p + n + "#" + m)) == Compare(n, m)
  {
    NamedBySegment(p, n);
    NamedBySegment(q, m);
    NamedByFragment(p + n, m);
    CompareZeroIffEqual(n, n);
    CompareZeroIffEqual(n, m);
  }

  /** The namespaces the examples below use. */
  lemma ExampleNamespaces()
    ensures Namespace("https://schema.org/") && Namespace("https://foo.bar/") && Namespace("https://z.org/")
    ensures '#' !in "https://z.org/2010"
  {
  }

  /**
   * Regular classes of the same name: by full IRI, with no preferred
   * namespace.
   */
  lemma SortRegularSameName(n: string)
    requires LocalName(n)
    ensures Sort(RegularClass("https://schema.org/" + n), RegularClass("https://foo.bar/" + n)) == 1
    ensures Sort(RegularClass("https://schema.org/" + n), RegularClass("https://z.org/2010#" + n)) == -1
  {
    var s, f, z := "schema.org/" + n, "foo.bar/" + n, "z.org/2010#" + n;
    assert "https://schema.org/" + n == "https://" + s;
    assert "https://foo.bar/" + n == "https://" + f;
    assert "https://z.org/2010" + "#" + n == "https://z.org/2010#" + n == "https://" + z;
    ExampleNamespaces();
    NamedBySegment("https://schema.org/", n);
    NamedBySegment("https://foo.bar/", n);
    NamedByFragment("https://z.org/2010", n);
    CompareZeroIffEqual(n, n);
    CompareAtFirstDifference("https://", s, f);
    CompareAtFirstDifference("https://", s, z);
  }

  /** The same, within one namespace: a segment name against the fragment of a longer IRI. */
  lemma SortRegularSameNameFragment(p: string, n: string, m: string)
    requires Namespace(p) && LocalName(n) && LocalName(m)
    ensures Sort(RegularClass(p + n), RegularClass(p + m + "#" + n)) == Compare(n, m + "#" + n)
  {
    assert p + m + "#" + n == p + (m + "#" + n);
    NamedBySegment(p, n);
    NamedByFragment(p + m, n);
    CompareZeroIffEqual(n, n);
    CompareSharedPrefix(p, n, m + "#" + n);
  }

  /** Primitive datatypes among themselves: by local name first. */
  lemma SortPrimitivesByName(p: string, n: string, m: string, q: string, c: string)
    requires Namespace(p) && LocalName(n) && Namespace(q) && LocalName(c) && m != c
    ensures Sort(Builtin(p + n + "#" + m), Builtin(q + c)) == Compare(m, c)
  {
    NamedBySegment(q, c);
    NamedByFragment(p + n, m);
    CompareZeroIffEqual(m, c);
  }

  /** Primitive datatypes of the same name: by full IRI. */
  lemma SortPrimitivesSameName(n: string)
    requires LocalName(n)
    ensures Sort(Builtin("https://z.org/" + n), Builtin("https://schema.org/" + n)) == 1
  {
    var z, s := "z.org/" + n, "schema.org/" + n;
    assert "https://z.org/" + n == "https://" + z;
    assert "https://schema.org/" + n == "https://" + s;
    ExampleNamespaces();
    NamedBySegment("https://z.org/", n);
    NamedBySegment("https://schema.org/", n);
    CompareZeroIffEqual(n, n);
    CompareAtFirstDifference("https://", z, s);
  }
}
