/** The fatal failures of a compilation run, with the messages they are reported by. */
module Errors {
  import opened Iri

  datatype Error =
    | MissingParent(child: Iri, parent: Iri)
    | MissingClass(target: Iri, superseded: Iri)
    | MissingEntity(target: Iri, subject: Iri)
    | MissingDomain(property: Iri, domain: Iri)
    | MissingRange(property: Iri, range: Iri)
    | UnknownTag(tag: string)

  /** The human-readable message; each names the identifier or tag at fault. */
  function Message(e: Error): (m: string)
    ensures e.MissingParent? ==> "Couldn't find parent of " <= m
    ensures e.MissingClass? ==> "Couldn't find class " + e.target.href <= m
    ensures e.UnknownTag? ==> "Unknown tag" <= m
  {
    match e
    case MissingParent(child, parent) =>
      "Couldn't find parent of " + child.href + ", " + parent.href
    case MissingClass(target, superseded) =>
      "Couldn't find class " + target.href + ", which supersedes class " + superseded.href
    case MissingEntity(target, subject) =>
      "Couldn't find " + target.href + ", which supersedes " + subject.href
    case MissingDomain(property, domain) =>
      "Couldn't find class " + domain.href + " in the domain of " + property.href
    case MissingRange(property, range) =>
      "Couldn't find class " + range.href + " in the range of " + property.href
    case UnknownTag(tag) =>
      "Unknown tag \"" + tag + "\"."
  }
}
