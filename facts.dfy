/**
 * Ontology facts as structured triples, and the vocabulary the compiler
 * recognises in them. Schema.org terms are recognised under both the
 * `http://` and the `https://` prefix.
 */
module Facts {
  import opened Iri

  /** The object of a fact: a node or a literal string. */
  datatype Object = Node(id: Iri) | Literal(text: string)

  datatype Fact = Fact(subject: Iri, pred: Iri, obj: Object)

  /** The predicates with a meaning of their own; everything else is ignored. */
  datatype Predicate =
    | Type
    | SubClassOf
    | DomainIncludes
    | RangeIncludes
    | SupersededBy
    | Comment
    | Unrecognised

  const RdfNs: string := "http://www.w3.org/1999/02/22-rdf-syntax-ns#"
  const RdfsNs: string := "http://www.w3.org/2000/01/rdf-schema#"

  /** `href` names the schema.org term `local`, under either scheme. */
  predicate IsSchemaTerm(href: string, local: string) {
    href == "http://schema.org/" + local || href == "https://schema.org/" + local
  }

  function PredicateOf(p: Iri): Predicate {
    if p.href == RdfNs + "type" then Type
    else if p.href == RdfsNs + "subClassOf" then SubClassOf
    else if p.href == RdfsNs + "comment" then Comment
    else if IsSchemaTerm(p.href, "domainIncludes") then DomainIncludes
    else if IsSchemaTerm(p.href, "rangeIncludes") then RangeIncludes
    else if IsSchemaTerm(p.href, "supersededBy") then SupersededBy
    else Unrecognised
  }

  /** What the object of an `rdf:type` fact establishes. */
  datatype TypeObject =
    | ClassType          // rdfs:Class
    | PropertyType       // rdf:Property
    | DataTypeType       // schema:DataType
    | InstanceOf(cls: Iri)

  function TypeObjectOf(o: Iri): TypeObject {
    if o.href == RdfsNs + "Class" then ClassType
    else if o.href == RdfNs + "Property" then PropertyType
    else if IsSchemaTerm(o.href, "DataType") then DataTypeType
    else InstanceOf(o)
  }

  /** The schema.org `DataType` class itself, which groups every datatype. */
  predicate IsDataTypeRoot(s: Iri) {
    IsSchemaTerm(s.href, "DataType")
  }
}
