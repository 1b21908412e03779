/**
 * Declaration synthesis (`Class.toNode` and its datatype counterparts),
 * over the finished store. Declarations are kept abstract: what refers to
 * what, in which order, with which documentation lines, not how a printer
 * lays them out.
 *
 * A regular class `C` yields up to three declarations:
 *  - `CBase`, its own fields on top of its parents' bases (or of the bare
 *    identifier reference when it has no parent); a class with exactly one
 *    parent and no fields of its own has no base and reuses its parent's;
 *  - `CLeaf`, the base with the `"@type": "C"` tag;
 *  - the exported `C`, the leaf or any of its direct subclasses, in
 *    canonical order, carrying the class documentation.
 * A datatype maps to the host type configured for it; one with members is
 * an enumeration, which also gets a value map in discovery order. The
 * `DataType` class itself is the union of the datatypes. Comments are
 * sanitised here, so a comment with disallowed markup fails emission even
 * though recording it succeeded.
 */
module Declarations {
  import opened Wrappers
  import opened Strings
  import opened Iri
  import opened Sorting
  import opened EntityOrder
  import opened Errors
  import opened Comments
  import opened Facts
  import opened Classes
  import opened Store
  import opened Deprecation

  /** Whether deprecated entities are emitted, and the host type each datatype maps to. */
  datatype Config = Config(includeDeprecated: bool, host: Iri -> string)

  datatype TypeExpr =
    | IdReference                       // the optional `@id` shape
    | BaseRef(base: Iri)                // `XBase`
    | LeafRef(leaf: Iri)                // `XLeaf`
    | Named(target: Iri)                // the exported `X`
    | TypeTag(name: string)             // `{ "@type": name }`
    | Fields(fields: seq<Field>)        // optional fields
    | HostType(text: string)
    | IriLiteral(href: string)
    | Intersection(parts: seq<TypeExpr>)
    | Union(members: seq<TypeExpr>)

  /** An optional field: the property, the types of its values, its documentation. */
  datatype Field = Field(property: Iri, range: seq<Iri>, doc: seq<string>)

  datatype ValueEntry = ValueEntry(key: string, value: string)

  datatype Decl =
    | BaseDecl(cls: Iri, shape: TypeExpr)
    | LeafDecl(cls: Iri, shape: TypeExpr)
    | ExportedDecl(cls: Iri, doc: seq<string>, shape: TypeExpr)
    | ValueMapDecl(cls: Iri, entries: seq<ValueEntry>)

  /** The elements of `s` that satisfy `p`, in their order. */
  function Filter(s: seq<Iri>, p: Iri -> bool): (r: seq<Iri>)
    ensures forall x :: x in r <==> x in s && p(x)
    ensures NoDuplicates(s) ==> NoDuplicates(r)
    ensures |r| <= |s|
  {
    if s == [] then []
    else (if p(s[0]) then [s[0]] else []) + Filter(s[1..], p)
  }

  /** Deprecated entities are emitted, or this one is not deprecated. */
  predicate Shown(cfg: Config, supersededBy: seq<Iri>) {
    cfg.includeDeprecated || supersededBy == []
  }

  /** The lines of a raw comment, or the markup error it raises. */
  function CommentLines(comment: Option<string>): (r: Result<seq<string>, Error>)
    ensures comment.None? ==> r == Ok([])
    ensures comment.Some? ==> r == Sanitize(comment.value)
  {
    match comment
    case None => Ok([])
    case Some(raw) => Sanitize(raw)
  }

  /** `q` is a property of `st` that `c` has a field for. */
  predicate IsField(st: Store, cfg: Config, c: Iri, q: Iri) {
    q in st.props && c in st.props[q].domain && Shown(cfg, st.props[q].supersededBy)
  }

  /** Two sequences with the same multiset have the same elements. */
  lemma SameElements<T>(a: seq<T>, b: seq<T>)
    requires multiset(a) == multiset(b)
    ensures forall x :: x in a <==> x in b
  {
    forall x ensures x in a <==> x in b {
      assert x in a <==> x in multiset(a);
      assert x in b <==> x in multiset(b);
    }
  }

  /** The properties `c` has fields for, in key order. */
  function FieldIds(st: Store, cfg: Config, c: Iri): (r: seq<Iri>)
    ensures SortedBy(CompareKeys, r)
    ensures forall q :: q in r <==> q in st.propOrder && IsField(st, cfg, c, q)
    ensures NoDuplicates(st.propOrder) ==> NoDuplicates(r)
  {
    var ids := Filter(st.propOrder, q => IsField(st, cfg, c, q));
    SameElements(ByKey(ids), ids);
    PermutationKeepsDistinct(ids, ByKey(ids));
    ByKey(ids)
  }

  /** The field of the property `q`: its range in key order, its comment, its notice. */
  function FieldOf(st: Store, q: Iri): Result<Field, Error>
    requires q in st.props
  {
    var ps := st.props[q];
    match CommentLines(ps.comment)
    case Err(e) => Err(e)
    case Ok(body) => Ok(Field(q, ByKey(ps.range), PropertyDoc(body, PropertyNotice(ps.supersededBy))))
  }

  function FieldsOf(st: Store, ids: seq<Iri>): (r: Result<seq<Field>, Error>)
    requires forall q :: q in ids ==> q in st.props
    ensures r.Ok? <==> forall i :: 0 <= i < |ids| ==> FieldOf(st, ids[i]).Ok?
    ensures r.Ok? ==> (|r.value| == |ids|
      && forall i :: 0 <= i < |ids| ==> r.value[i] == FieldOf(st, ids[i]).value)
  {
    if ids == [] then Ok([])
    else
      match FieldOf(st, ids[0])
      case Err(e) => Err(e)
      case Ok(f) =>
        match FieldsOf(st, ids[1..])
        case Err(e) => Err(e)
        case Ok(fs) => Ok([f] + fs)
  }

  /** A class has a base of its own unless it has exactly one parent and no fields. */
  predicate HasOwnBase(parents: seq<Iri>, fields: seq<Field>) {
    |parents| != 1 || fields != []
  }

  function BaseRefs(parents: seq<Iri>): (r: seq<TypeExpr>)
    ensures |r| == |parents| && forall i :: 0 <= i < |parents| ==> r[i] == BaseRef(parents[i])
  {
    seq(|parents|, i requires 0 <= i < |parents| => BaseRef(parents[i]))
  }

  /** What a base builds on: the bare identifier reference, or the bases of the parents in order. */
  function Heads(parents: seq<Iri>): seq<TypeExpr> {
    if parents == [] then [IdReference] else BaseRefs(parents)
  }

  function BaseShape(parents: seq<Iri>, fields: seq<Field>): TypeExpr {
    Intersection(Heads(parents) + (if fields == [] then [] else [Fields(fields)]))
  }

  function EntityOf(st: Store, k: Iri): Entity
    requires k in st.classes
  {
    Entity(st.classes[k].kind, k)
  }

  function EntitiesOf(st: Store, ids: seq<Iri>): (r: seq<Entity>)
    requires forall k :: k in ids ==> k in st.classes
    ensures |r| == |ids| && forall i :: 0 <= i < |ids| ==> r[i] == EntityOf(st, ids[i])
  {
    seq(|ids|, i requires 0 <= i < |ids| => EntityOf(st, ids[i]))
  }

  lemma EntitiesOfMembers(st: Store, ids: seq<Iri>)
    requires forall k :: k in ids ==> k in st.classes
    ensures forall e :: e in EntitiesOf(st, ids) <==> e.id in ids && e == EntityOf(st, e.id)
    ensures NoDuplicates(ids) ==> NoDuplicates(EntitiesOf(st, ids))
  {
    var r := EntitiesOf(st, ids);
    forall e: Entity | e.id in ids && e == EntityOf(st, e.id) ensures e in r {
      var i :| 0 <= i < |ids| && ids[i] == e.id;
      assert r[i] == e;
    }
  }

  /**
   * The classes of `st`, in declaration order, that satisfy `p`, as
   * entities in canonical order.
   */
  function EntitiesWhere(st: Store, p: Iri -> bool): (r: seq<Entity>)
    ensures SortedBy(Sort, r)
    ensures forall e :: e in r <==>
      e.id in st.classOrder && e.id in st.classes && p(e.id) && e.kind == st.classes[e.id].kind
    ensures NoDuplicates(st.classOrder) ==> NoDuplicates(r)
  {
    var ids := Filter(st.classOrder, k => k in st.classes && p(k));
    var es := EntitiesOf(st, ids);
    EntitiesOfMembers(st, ids);
    SameElements(Ranked(es), es);
    PermutationKeepsDistinct(es, Ranked(es));
    Ranked(es)
  }

  function Refs(es: seq<Entity>): (r: seq<TypeExpr>)
    ensures |r| == |es| && forall i :: 0 <= i < |es| ==> r[i] == Named(es[i].id)
  {
    seq(|es|, i requires 0 <= i < |es| => Named(es[i].id))
  }

  /** `k` is a class of `st` that is emitted. */
  predicate IsShownClass(st: Store, cfg: Config, k: Iri) {
    k in st.classes && Shown(cfg, st.classes[k].supersededBy)
  }

  /** `k` is an emitted direct subclass of `c`. */
  predicate IsChild(st: Store, cfg: Config, c: Iri, k: Iri) {
    IsShownClass(st, cfg, k) && c in st.classes[k].parents
  }

  /** The emitted direct subclasses of `c`, in canonical order. */
  function Children(st: Store, cfg: Config, c: Iri): seq<Entity> {
    EntitiesWhere(st, k => IsChild(st, cfg, c, k))
  }

  /**
   * The documentation of a class or datatype: its comment, then its
   * notice, which adds exactly one line when the class is deprecated.
   */
  function ClassDocOf(cs: ClassState): (r: Result<seq<string>, Error>)
    ensures r.Ok? <==> CommentLines(cs.comment).Ok?
    ensures r.Ok? ==> (CommentLines(cs.comment).value <= r.value
      && (|r.value| == |CommentLines(cs.comment).value| + 1 <==> cs.supersededBy != []))
  {
    match CommentLines(cs.comment)
    case Err(e) => Err(e)
    case Ok(body) => Ok(ClassDoc(body, ClassNotice(cs.supersededBy)))
  }

  /**
   * The declarations of a regular class with the given parents,
   * documentation, fields and direct subclasses: its own base when it
   * has one, its leaf, and the exported union.
   */
  function RegularLayout(c: Iri, parents: seq<Iri>, doc: seq<string>, fields: seq<Field>,
                         children: seq<Entity>): seq<Decl>
  {
    var own := HasOwnBase(parents, fields);
    var base := if own then c else parents[0];
    (if own then [BaseDecl(c, BaseShape(parents, fields))] else [])
    + [LeafDecl(c, Intersection([TypeTag(c.name), BaseRef(base)])),
       ExportedDecl(c, doc, Union([LeafRef(c)] + Refs(children)))]
  }

  /**
   * The declarations of the regular class `c`. The class's own comment is
   * sanitised before its fields' comments are.
   */
  function RegularDecls(st: Store, cfg: Config, c: Iri): (r: Result<seq<Decl>, Error>)
    requires c in st.classes
    ensures r.Ok? <==> ClassDocOf(st.classes[c]).Ok? && FieldsOf(st, FieldIds(st, cfg, c)).Ok?
    ensures ClassDocOf(st.classes[c]).Err? ==> r == Err(ClassDocOf(st.classes[c]).error)
    ensures r.Ok? ==> (2 <= |r.value| <= 3 && r.value[|r.value| - 1].ExportedDecl?
                       && r.value[|r.value| - 1].cls == c)
  {
    var cs := st.classes[c];
    match ClassDocOf(cs)
    case Err(e) => Err(e)
    case Ok(doc) =>
      match FieldsOf(st, FieldIds(st, cfg, c))
      case Err(e) => Err(e)
      case Ok(fields) => Ok(RegularLayout(c, cs.parents, doc, fields, Children(st, cfg, c)))
  }

  function Literals(members: seq<Iri>): (r: seq<TypeExpr>)
    ensures |r| == |members| && forall i :: 0 <= i < |members| ==> r[i] == IriLiteral(members[i].href)
  {
    seq(|members|, i requires 0 <= i < |members| => IriLiteral(members[i].href))
  }

  function Entries(members: seq<Iri>): (r: seq<ValueEntry>)
    ensures |r| == |members| && forall i :: 0 <= i < |members| ==> r[i] == ValueEntry(members[i].name, members[i].href)
  {
    seq(|members|, i requires 0 <= i < |members| => ValueEntry(members[i].name, members[i].href))
  }

  /** The declarations of a datatype with the given host type, documentation and members. */
  function PrimitiveLayout(c: Iri, host: string, doc: seq<string>, members: seq<Iri>): seq<Decl> {
    if members == [] then [ExportedDecl(c, doc, HostType(host))]
    else [ExportedDecl(c, doc, Union([HostType(host)] + Literals(members))),
          ValueMapDecl(c, Entries(members))]
  }

  /** The declarations of the datatype `c`: its host type, and for an enumeration its members too. */
  function PrimitiveDecls(st: Store, cfg: Config, c: Iri): (r: Result<seq<Decl>, Error>)
    requires c in st.classes
    ensures r.Ok? <==> ClassDocOf(st.classes[c]).Ok?
    ensures r.Err? ==> r.error == ClassDocOf(st.classes[c]).error
    ensures r.Ok? ==> (|r.value| == (if st.classes[c].members == [] then 1 else 2)
                       && r.value[0].ExportedDecl? && r.value[0].cls == c
                       && r.value[0].doc == ClassDocOf(st.classes[c]).value)
  {
    var cs := st.classes[c];
    match ClassDocOf(cs)
    case Err(e) => Err(e)
    case Ok(doc) => Ok(PrimitiveLayout(c, cfg.host(c), doc, cs.members))
  }

  /** `k` is an emitted datatype. */
  predicate IsShownDataType(st: Store, cfg: Config, k: Iri) {
    IsShownClass(st, cfg, k) && st.classes[k].kind == Primitive
  }

  /** The emitted datatypes, in canonical order. */
  function DataTypes(st: Store, cfg: Config): seq<Entity> {
    EntitiesWhere(st, k => IsShownDataType(st, cfg, k))
  }

  /** The declaration of the `DataType` class: the union of every datatype. */
  function UnionDecls(st: Store, cfg: Config, c: Iri): (r: Result<seq<Decl>, Error>)
    requires c in st.classes
    ensures r.Ok? <==> ClassDocOf(st.classes[c]).Ok?
    ensures r.Err? ==> r.error == ClassDocOf(st.classes[c]).error
    ensures r.Ok? ==> (|r.value| == 1 && r.value[0].ExportedDecl? && r.value[0].cls == c
                       && r.value[0].doc == ClassDocOf(st.classes[c]).value
                       && r.value[0].shape.Union? && |r.value[0].shape.members| == |DataTypes(st, cfg)|)
  {
    match ClassDocOf(st.classes[c])
    case Err(e) => Err(e)
    case Ok(doc) => Ok([ExportedDecl(c, doc, Union(Refs(DataTypes(st, cfg))))])
  }

  function EntityDecls(st: Store, cfg: Config, c: Iri): Result<seq<Decl>, Error>
    requires c in st.classes
  {
    match st.classes[c].kind
    case Regular => RegularDecls(st, cfg, c)
    case Primitive => PrimitiveDecls(st, cfg, c)
    case DataTypeUnion => UnionDecls(st, cfg, c)
  }

  /** The emitted classes, in canonical order: datatypes, the datatype union, then regular classes. */
  function EmissionOrder(st: Store, cfg: Config): (r: seq<Entity>)
    ensures SortedBy(Sort, r)
    ensures forall e :: e in r <==>
      e.id in st.classOrder && IsShownClass(st, cfg, e.id) && e.kind == st.classes[e.id].kind
    ensures NoDuplicates(st.classOrder) ==> NoDuplicates(r)
  {
    EntitiesWhere(st, k => IsShownClass(st, cfg, k))
  }

  /** One block of declarations per entity of `es`, or the first error. */
  function EmitEach(st: Store, cfg: Config, es: seq<Entity>): (r: Result<seq<seq<Decl>>, Error>)
    requires forall e :: e in es ==> e.id in st.classes
    ensures r.Ok? <==> forall i :: 0 <= i < |es| ==> EntityDecls(st, cfg, es[i].id).Ok?
    ensures r.Ok? ==> (|r.value| == |es|
      && forall i :: 0 <= i < |es| ==> r.value[i] == EntityDecls(st, cfg, es[i].id).value)
  {
    if es == [] then Ok([])
    else
      match EntityDecls(st, cfg, es[0].id)
      case Err(e) => Err(e)
      case Ok(d) =>
        match EmitEach(st, cfg, es[1..])
        case Err(e) => Err(e)
        case Ok(ds) => Ok([d] + ds)
  }

  /** The declarations of the whole ontology, one block per emitted entity. */
  function Emit(st: Store, cfg: Config): (r: Result<seq<seq<Decl>>, Error>)
    ensures r.Ok? <==> forall e :: e in EmissionOrder(st, cfg) ==> EntityDecls(st, cfg, e.id).Ok?
    ensures r.Ok? ==> |r.value| == |EmissionOrder(st, cfg)|
  {
    EmitEach(st, cfg, EmissionOrder(st, cfg))
  }

  lemma RegularUnfold(st: Store, cfg: Config, c: Iri)
    requires c in st.classes && RegularDecls(st, cfg, c).Ok?
    ensures ClassDocOf(st.classes[c]).Ok? && FieldsOf(st, FieldIds(st, cfg, c)).Ok?
    ensures RegularDecls(st, cfg, c).value
         == RegularLayout(c, st.classes[c].parents, ClassDocOf(st.classes[c]).value,
                          FieldsOf(st, FieldIds(st, cfg, c)).value, Children(st, cfg, c))
  {
  }

  /** `c` has no field: no emitted property lists it in its domain. */
  predicate NoFields(st: Store, cfg: Config, c: Iri) {
    forall q :: q in st.propOrder ==> !IsField(st, cfg, c, q)
  }

  lemma NoFieldsIff(st: Store, cfg: Config, c: Iri)
    ensures NoFields(st, cfg, c) <==> FieldIds(st, cfg, c) == []
  {
    var ids := FieldIds(st, cfg, c);
    if ids != [] {
      assert ids[0] in ids;
    }
  }

  /** The fields a list of declarations gives its class: those ending its own base, if any. */
  function FieldsIn(ds: seq<Decl>): seq<Field> {
    if ds != [] && ds[0].BaseDecl? && ds[0].shape.Intersection? && ds[0].shape.parts != []
       && ds[0].shape.parts[|ds[0].shape.parts| - 1].Fields?
    then ds[0].shape.parts[|ds[0].shape.parts| - 1].fields
    else []
  }

  function Properties(fs: seq<Field>): (r: seq<Iri>)
    ensures |r| == |fs| && forall i :: 0 <= i < |fs| ==> r[i] == fs[i].property
  {
    seq(|fs|, i requires 0 <= i < |fs| => fs[i].property)
  }

  /**
   * A regular class has a base of its own, first among its declarations,
   * unless it has exactly one parent and no fields. Its leaf tags the
   * class's own name onto its own base, or else onto its single parent's.
   */
  lemma BaseRule(st: Store, cfg: Config, c: Iri)
    requires c in st.classes && RegularDecls(st, cfg, c).Ok?
    ensures var ds := RegularDecls(st, cfg, c).value;
      var parents := st.classes[c].parents;
      var own := |parents| != 1 || !NoFields(st, cfg, c);
      && |ds| == (if own then 3 else 2)
      && (own <==> ds[0].BaseDecl?)
      && ds[|ds| - 2] == LeafDecl(c, Intersection([TypeTag(c.name), BaseRef(if own then c else parents[0])]))
  {
    RegularUnfold(st, cfg, c);
    NoFieldsIff(st, cfg, c);
  }

  /**
   * An own base builds on the bare identifier reference when the class
   * has no parent, and on its parents' bases, in the order they were
   * recorded, otherwise; it ends with the class's fields when it has any.
   */
  lemma OwnBaseRule(st: Store, cfg: Config, c: Iri)
    requires c in st.classes && RegularDecls(st, cfg, c).Ok?
    requires |st.classes[c].parents| != 1 || !NoFields(st, cfg, c)
    ensures var ds := RegularDecls(st, cfg, c).value;
      var parents := st.classes[c].parents;
      && ds[0].BaseDecl? && ds[0].cls == c && ds[0].shape.Intersection?
      && var parts := ds[0].shape.parts;
      && |parts| == (if parents == [] then 1 else |parents|) + (if NoFields(st, cfg, c) then 0 else 1)
      && (parents == [] ==> parts[0] == IdReference)
      && (forall i :: 0 <= i < |parents| ==> parts[i] == BaseRef(parents[i]))
      && (NoFields(st, cfg, c) <==> !parts[|parts| - 1].Fields?)
  {
    RegularUnfold(st, cfg, c);
    NoFieldsIff(st, cfg, c);
    var cs := st.classes[c];
    OwnBaseLayout(c, cs.parents, ClassDocOf(cs).value, FieldsOf(st, FieldIds(st, cfg, c)).value, Children(st, cfg, c));
  }

  lemma OwnBaseLayout(c: Iri, parents: seq<Iri>, doc: seq<string>, fields: seq<Field>, kids: seq<Entity>)
    requires HasOwnBase(parents, fields)
    ensures var ds := RegularLayout(c, parents, doc, fields, kids);
      && ds[0].BaseDecl? && ds[0].cls == c && ds[0].shape.Intersection?
      && var parts := ds[0].shape.parts;
      && |parts| == (if parents == [] then 1 else |parents|) + (if fields == [] then 0 else 1)
      && (parents == [] ==> parts[0] == IdReference)
      && (forall i :: 0 <= i < |parents| ==> parts[i] == BaseRef(parents[i]))
      && (fields == [] <==> !parts[|parts| - 1].Fields?)
  {
    var heads := Heads(parents);
    assert forall i :: 0 <= i < |heads| ==> !heads[i].Fields?;
  }

  /**
   * `f` is the field of the property `q`: it lists the property's range
   * in key order and carries its sanitised comment and its notice.
   */
  predicate FieldFor(st: Store, q: Iri, f: Field) {
    && q in st.props && f.property == q
    && SortedBy(CompareKeys, f.range) && multiset(f.range) == multiset(st.props[q].range)
    && CommentLines(st.props[q].comment).Ok?
    && f.doc == PropertyDoc(CommentLines(st.props[q].comment).value, PropertyNotice(st.props[q].supersededBy))
  }

  lemma FieldOfRule(st: Store, q: Iri)
    requires q in st.props && FieldOf(st, q).Ok?
    ensures FieldFor(st, q, FieldOf(st, q).value)
  {
  }

  /** The fields of a layout are the ones it was given. */
  lemma FieldsInLayout(c: Iri, parents: seq<Iri>, doc: seq<string>, fs: seq<Field>, kids: seq<Entity>)
    ensures FieldsIn(RegularLayout(c, parents, doc, fs, kids)) == fs
  {
    var ds := RegularLayout(c, parents, doc, fs, kids);
    if HasOwnBase(parents, fs) {
      assert ds[0] == BaseDecl(c, BaseShape(parents, fs));
      if fs == [] {
        assert BaseShape(parents, fs).parts == Heads(parents);
      }
    }
  }

  /**
   * The fields of a regular class: one for each emitted property whose
   * domain includes the class, in key order, each the field of its property.
   */
  lemma FieldsRule(st: Store, cfg: Config, c: Iri)
    requires c in st.classes && RegularDecls(st, cfg, c).Ok?
    ensures var fs := FieldsIn(RegularDecls(st, cfg, c).value);
      && SortedBy(CompareKeys, Properties(fs))
      && (forall q :: q in Properties(fs) <==> q in st.propOrder && IsField(st, cfg, c, q))
      && (NoDuplicates(st.propOrder) ==> NoDuplicates(Properties(fs)))
      && forall i :: 0 <= i < |fs| ==> FieldFor(st, fs[i].property, fs[i])
  {
    RegularUnfold(st, cfg, c);
    var cs := st.classes[c];
    var ids := FieldIds(st, cfg, c);
    var fs := FieldsOf(st, ids).value;
    FieldsInLayout(c, cs.parents, ClassDocOf(cs).value, fs, Children(st, cfg, c));
    assert Properties(fs) == ids;
    forall i | 0 <= i < |fs| ensures FieldFor(st, fs[i].property, fs[i]) {
      assert ids[i] in ids;
      FieldOfRule(st, ids[i]);
    }
  }

  /**
   * The exported declaration of a regular class comes last, carries the
   * class documentation, and is its leaf or any emitted direct subclass,
   * the subclasses in canonical order.
   */
  lemma ExportedRule(st: Store, cfg: Config, c: Iri)
    requires c in st.classes && RegularDecls(st, cfg, c).Ok?
    ensures var ds := RegularDecls(st, cfg, c).value;
      var last := ds[|ds| - 1];
      && (forall i :: 0 <= i < |ds| - 1 ==> !ds[i].ExportedDecl?)
      && last.ExportedDecl? && last.cls == c
      && ClassDocOf(st.classes[c]).Ok? && last.doc == ClassDocOf(st.classes[c]).value
      && last.shape == Union([LeafRef(c)] + Refs(Children(st, cfg, c)))
      && SortedBy(Sort, Children(st, cfg, c))
      && (NoDuplicates(st.classOrder) ==> NoDuplicates(Children(st, cfg, c)))
      && forall k :: Named(k) in last.shape.members <==> k in st.classOrder && IsChild(st, cfg, c, k)
  {
    RegularUnfold(st, cfg, c);
    var cs := st.classes[c];
    var kids := Children(st, cfg, c);
    ExportedLayout(c, cs.parents, ClassDocOf(cs).value, FieldsOf(st, FieldIds(st, cfg, c)).value, kids);
    forall k ensures Named(k) in [LeafRef(c)] + Refs(kids) <==> k in st.classOrder && IsChild(st, cfg, c, k) {
      NamedInRefs(kids, k);
      if k in st.classOrder && IsChild(st, cfg, c, k) {
        assert EntityOf(st, k) in kids;
      }
    }
  }

  /** Only the last declaration of a layout is exported, and it is the leaf or a subclass. */
  lemma ExportedLayout(c: Iri, parents: seq<Iri>, doc: seq<string>, fields: seq<Field>, kids: seq<Entity>)
    ensures var ds := RegularLayout(c, parents, doc, fields, kids);
      && (forall i :: 0 <= i < |ds| - 1 ==> !ds[i].ExportedDecl?)
      && ds[|ds| - 1] == ExportedDecl(c, doc, Union([LeafRef(c)] + Refs(kids)))
  {
  }

  /** The union of `es` names exactly their identifiers. */
  lemma NamedInRefs(es: seq<Entity>, k: Iri)
    ensures Named(k) in Refs(es) <==> exists e :: e in es && e.id == k
  {
    var m := Refs(es);
    if Named(k) in m {
      var i :| 0 <= i < |m| && m[i] == Named(k);
      assert es[i] in es;
    }
    if e :| e in es && e.id == k {
      var i :| 0 <= i < |es| && es[i] == e;
      assert m[i] == Named(k);
    }
  }

  /**
   * A datatype maps to its host type; one with members is an enumeration
   * of their identifiers as well, with a value map from local name to
   * identifier, both in the order the members were discovered.
   */
  lemma DataTypeRule(st: Store, cfg: Config, c: Iri)
    requires c in st.classes && st.classes[c].kind == Primitive && EntityDecls(st, cfg, c).Ok?
    ensures var ds := EntityDecls(st, cfg, c).value;
      var ms := st.classes[c].members;
      && ds[0].ExportedDecl? && ds[0].cls == c
      && (ms == [] ==> |ds| == 1 && ds[0].shape == HostType(cfg.host(c)))
      && (ms != [] ==>
            && |ds| == 2 && ds[0].shape.Union?
            && var u := ds[0].shape.members;
            && |u| == |ms| + 1 && u[0] == HostType(cfg.host(c))
            && (forall i :: 0 <= i < |ms| ==> u[i + 1] == IriLiteral(ms[i].href))
            && ds[1].ValueMapDecl? && ds[1].cls == c && |ds[1].entries| == |ms|
            && (forall i :: 0 <= i < |ms| ==> ds[1].entries[i] == ValueEntry(ms[i].name, ms[i].href)))
  {
    var cs := st.classes[c];
    assert EntityDecls(st, cfg, c) == PrimitiveDecls(st, cfg, c);
    assert EntityDecls(st, cfg, c).value == PrimitiveLayout(c, cfg.host(c), ClassDocOf(cs).value, cs.members);
    if cs.members != [] {
      EnumerationLayout(c, cfg.host(c), ClassDocOf(cs).value, cs.members);
    }
  }

  /** An enumeration layout lists every member, as an identifier and as a value map entry, in order. */
  lemma EnumerationLayout(c: Iri, host: string, doc: seq<string>, ms: seq<Iri>)
    requires ms != []
    ensures var ds := PrimitiveLayout(c, host, doc, ms);
      && |ds| == 2 && ds[0].ExportedDecl? && ds[0].shape.Union?
      && var u := ds[0].shape.members;
      && |u| == |ms| + 1 && u[0] == HostType(host)
      && (forall i :: 0 <= i < |ms| ==> u[i + 1] == IriLiteral(ms[i].href))
      && ds[1].ValueMapDecl? && ds[1].cls == c && |ds[1].entries| == |ms|
      && (forall i :: 0 <= i < |ms| ==> ds[1].entries[i] == ValueEntry(ms[i].name, ms[i].href))
  {
    var lits := Literals(ms);
    var u := [HostType(host)] + lits;
    forall i | 0 <= i < |ms| ensures u[i + 1] == IriLiteral(ms[i].href) {
      assert u[i + 1] == lits[i];
    }
  }

  /** The `DataType` class is the union of every emitted datatype, in canonical order. */
  lemma DataTypeUnionRule(st: Store, cfg: Config, c: Iri)
    requires c in st.classes && st.classes[c].kind == DataTypeUnion && EntityDecls(st, cfg, c).Ok?
    ensures var ds := EntityDecls(st, cfg, c).value;
      var ts := DataTypes(st, cfg);
      && |ds| == 1 && ds[0].ExportedDecl? && ds[0].cls == c
      && ds[0].shape == Union(Refs(ts))
      && SortedBy(Sort, ts)
      && (NoDuplicates(st.classOrder) ==> NoDuplicates(ts))
      && forall e :: e in ts <==> e.id in st.classOrder && IsShownDataType(st, cfg, e.id) && e.kind == Primitive
  {
  }

  /**
   * Markup is checked when the declarations are built, not when the
   * comment is recorded: a comment with a table is accepted, and then
   * building the class fails naming the tag, whatever its kind.
   */
  lemma MarkupCheckedLazily(st: Store, cfg: Config, c: Iri, post: string)
    requires c in st.classes
    ensures var text := "Hello World. " + ("<" + "table" + ">" + post);
      var cs := st.classes[c];
      && ApplyClassFact(c, cs, Comment, Literal(text), st.classes.Keys) == Ok((cs.(comment := Some(text)), true))
      && EntityDecls(st.(classes := st.classes[c := cs.(comment := Some(text))]), cfg, c) == Err(UnknownTag("table"))
  {
    var text := "Hello World. " + ("<" + "table" + ">" + post);
    TableIsRejected(post);
    var st' := st.(classes := st.classes[c := st.classes[c].(comment := Some(text))]);
    assert CommentLines(st'.classes[c].comment) == Err(UnknownTag("table"));
  }

  /**
   * The order of a property's range facts does not matter: any
   * rearrangement of its range gives the same field.
   */
  lemma FieldIgnoresRangeOrder(st: Store, q: Iri, range: seq<Iri>)
    requires q in st.props && multiset(range) == multiset(st.props[q].range)
    ensures FieldOf(st.(props := st.props[q := st.props[q].(range := range)]), q) == FieldOf(st, q)
  {
    KeyOrderIsTotalOrder();
    SortedUnique(CompareKeys, ByKey(range), ByKey(st.props[q].range));
  }

  /**
   * The entities are emitted in canonical order, so datatypes come first,
   * then the datatype union, then regular classes; exactly the emitted
   * classes appear, and none is deprecated unless deprecated entities
   * are included.
   */
  lemma EmissionOrderRule(st: Store, cfg: Config)
    ensures var order := EmissionOrder(st, cfg);
      && SortedBy(Sort, order)
      && (forall i, j :: 0 <= i < j < |order| ==> Tier(order[i].kind) <= Tier(order[j].kind))
      && (forall e :: e in order <==> e.id in st.classOrder && IsShownClass(st, cfg, e.id)
                                       && e.kind == st.classes[e.id].kind)
      && (!cfg.includeDeprecated ==> forall e :: e in order ==> st.classes[e.id].supersededBy == [])
      && (NoDuplicates(st.classOrder) ==> forall i, j :: 0 <= i < j < |order| ==> order[i].id != order[j].id)
  {
    var order := EmissionOrder(st, cfg);
    forall i, j | 0 <= i < j < |order| && NoDuplicates(st.classOrder) ensures order[i].id != order[j].id {
      assert order[i] in order && order[j] in order;
    }
    forall i, j | 0 <= i < j < |order| ensures Tier(order[i].kind) <= Tier(order[j].kind) {
      assert Sort(order[i], order[j]) <= 0;
    }
  }

  /** Some declaration of `ds` exports `c`. */
  predicate ExportsEntity(ds: seq<Decl>, c: Iri) {
    exists j :: 0 <= j < |ds| && ds[j].ExportedDecl? && ds[j].cls == c
  }

  /** Every class, datatype or union that builds exports itself. */
  lemma Exports(st: Store, cfg: Config, c: Iri)
    requires c in st.classes && EntityDecls(st, cfg, c).Ok?
    ensures ExportsEntity(EntityDecls(st, cfg, c).value, c)
  {
    var ds := EntityDecls(st, cfg, c).value;
    match st.classes[c].kind
    case Regular =>
      ExportedRule(st, cfg, c);
      assert ds[|ds| - 1].ExportedDecl?;
    case Primitive =>
      assert ds[0].ExportedDecl?;
    case DataTypeUnion =>
      assert ds[0].ExportedDecl?;
  }

  /** Emission yields one block per emitted entity, in emission order, each exporting its entity. */
  lemma EmitRule(st: Store, cfg: Config)
    requires Emit(st, cfg).Ok?
    ensures var order := EmissionOrder(st, cfg);
      var blocks := Emit(st, cfg).value;
      && |blocks| == |order|
      && forall i :: 0 <= i < |order| ==> ExportsEntity(blocks[i], order[i].id)
  {
    var order := EmissionOrder(st, cfg);
    forall i | 0 <= i < |order| ensures ExportsEntity(Emit(st, cfg).value[i], order[i].id) {
      assert order[i] in order;
      Exports(st, cfg, order[i].id);
    }
  }

  /** Six identifiers in key order are listed in that order, whatever order the facts named them in. */
  lemma SixInKeyOrder(a: Iri, b: Iri, c: Iri, d: Iri, e: Iri, f: Iri)
    requires CompareKeys(a, b) < 0 && CompareKeys(b, c) < 0 && CompareKeys(c, d) < 0
    requires CompareKeys(d, e) < 0 && CompareKeys(e, f) < 0
    ensures ByKey([f, b, a, c, d, e]) == [a, b, c, d, e, f]
  {
    SixSorted(a, b, c, d, e, f);
    assert multiset([f, b, a, c, d, e]) == multiset([a, b, c, d, e, f]) by {
      assert [f, b, a, c, d, e] == [f] + [b, a] + [c, d, e];
      assert [a, b, c, d, e, f] == [a, b] + [c, d, e] + [f];
      assert multiset([b, a]) == multiset([a, b]);
    }
    KeyOrderIsTotalOrder();
    SortedUnique(CompareKeys, ByKey([f, b, a, c, d, e]), [a, b, c, d, e, f]);
  }

  lemma SixSorted(a: Iri, b: Iri, c: Iri, d: Iri, e: Iri, f: Iri)
    requires CompareKeys(a, b) < 0 && CompareKeys(b, c) < 0 && CompareKeys(c, d) < 0
    requires CompareKeys(d, e) < 0 && CompareKeys(e, f) < 0
    ensures SortedBy(CompareKeys, [a, b, c, d, e, f])
  {
    KeyOrderIsTotalOrder();
    SortedByNeighbours(CompareKeys, [a, b, c, d, e, f]);
  }

  lemma DataTypeNamesAscend()
    ensures Compare("Boolean", "Date") < 0 && Compare("Date", "DateTime") < 0
    ensures Compare("DateTime", "Number") < 0 && Compare("Number", "Text") < 0
    ensures Compare("Text", "Time") < 0
  {
  }

  /**
   * A property whose range facts name Time, Date, Boolean, DateTime,
   * Number and Text, in that order, lists them in key order.
   */
  lemma RangeInKeyOrder(st: Store, q: Iri)
    requires q in st.props && FieldOf(st, q).Ok?
    requires st.props[q].range == [
      Iri("http://schema.org/Time", "Time"), Iri("http://schema.org/Date", "Date"),
      Iri("http://schema.org/Boolean", "Boolean"), Iri("http://schema.org/DateTime", "DateTime"),
      Iri("http://schema.org/Number", "Number"), Iri("http://schema.org/Text", "Text")]
    ensures FieldOf(st, q).value.range == [
      Iri("http://schema.org/Boolean", "Boolean"), Iri("http://schema.org/Date", "Date"),
      Iri("http://schema.org/DateTime", "DateTime"), Iri("http://schema.org/Number", "Number"),
      Iri("http://schema.org/Text", "Text"), Iri("http://schema.org/Time", "Time")]
  {
    var boolean := Iri("http://schema.org/Boolean", "Boolean");
    var date := Iri("http://schema.org/Date", "Date");
    var dateTime := Iri("http://schema.org/DateTime", "DateTime");
    var number := Iri("http://schema.org/Number", "Number");
    var text := Iri("http://schema.org/Text", "Text");
    var time := Iri("http://schema.org/Time", "Time");
    DataTypeNamesAscend();
    SixInKeyOrder(boolean, date, dateTime, number, text, time);
  }
}
