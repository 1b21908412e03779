/**
 * Deprecation notices and the documentation lines they end. A class
 * superseded by others reads "Use A or B instead." with the local names of
 * its replacements in key order, whatever order they were recorded in; a
 * property reads "Consider using <IRI> or <IRI> instead." with the full
 * identifiers in the order the facts arrived.
 */
module Deprecation {
  import opened Wrappers
  import opened Strings
  import opened Iri
  import opened Sorting
  import opened EntityOrder

  const Separator: string := " or "
  const DeprecatedTag: string := "@deprecated "

  function Names(ts: seq<Iri>): (r: seq<string>)
    ensures |r| == |ts| && forall i :: 0 <= i < |ts| ==> r[i] == ts[i].name
  {
    seq(|ts|, i requires 0 <= i < |ts| => ts[i].name)
  }

  function Hrefs(ts: seq<Iri>): (r: seq<string>)
    ensures |r| == |ts| && forall i :: 0 <= i < |ts| ==> r[i] == ts[i].href
  {
    seq(|ts|, i requires 0 <= i < |ts| => ts[i].href)
  }

  /** The notice of a class superseded by `targets`; there is one exactly when there is a target. */
  function ClassNotice(targets: seq<Iri>): (r: Option<string>)
    ensures r.Some? <==> targets != []
  {
    if targets == [] then None
    else Some("Use " + Join(Names(ByKey(targets)), Separator) + " instead.")
  }

  /** The notice of a property superseded by `targets`; there is one exactly when there is a target. */
  function PropertyNotice(targets: seq<Iri>): (r: Option<string>)
    ensures r.Some? <==> targets != []
  {
    if targets == [] then None
    else Some("Consider using " + Join(Hrefs(targets), Separator) + " instead.")
  }

  /**
   * The documentation of a class: its comment lines, then the notice on a
   * line of its own, with no blank line between.
   */
  function ClassDoc(body: seq<string>, notice: Option<string>): (r: seq<string>)
    ensures body <= r
    ensures notice.None? ==> r == body
    ensures notice.Some? ==> |r| == |body| + 1 && r[|body|] == DeprecatedTag + notice.value
  {
    body + (if notice.Some? then [DeprecatedTag + notice.value] else [])
  }

  /**
   * The documentation of a property: its comment lines, then the notice
   * on the last line. A single comment line is set off from the notice by
   * a blank line; a comment of several lines is not.
   */
  function PropertyDoc(body: seq<string>, notice: Option<string>): (r: seq<string>)
    ensures body <= r
    ensures notice.None? ==> r == body
    ensures notice.Some? ==> |r| == |body| + (if |body| == 1 then 2 else 1)
    ensures notice.Some? ==> r[|r| - 1] == DeprecatedTag + notice.value
    ensures notice.Some? && |body| == 1 ==> r[1] == ""
  {
    if notice.None? then body
    else body + (if |body| == 1 then [""] else []) + [DeprecatedTag + notice.value]
  }

  lemma JoinOne(x: string, sep: string)
    ensures Join([x], sep) == x
  {
  }

  lemma JoinTwo(x: string, y: string, sep: string)
    ensures Join([x, y], sep) == x + sep + y
  {
    assert [x, y][1..] == [y];
  }

  /** The class notice depends on which targets there are, not on the order they were recorded in. */
  lemma ClassNoticeIgnoresOrder(s: seq<Iri>, t: seq<Iri>)
    requires multiset(s) == multiset(t)
    ensures ClassNotice(s) == ClassNotice(t)
  {
    KeyOrderIsTotalOrder();
    SortedUnique(CompareKeys, ByKey(s), ByKey(t));
    if s == [] {
      assert |t| == |multiset(t)| == 0;
    } else {
      assert |t| == |multiset(t)| == |multiset(s)| > 0;
    }
  }

  lemma ClassNoticeOne(a: Iri)
    ensures ClassNotice([a]) == Some("Use " + a.name + " instead.")
  {
    assert ByKey([a]) == [a] by {
      KeyOrderIsTotalOrder();
      SortedUnique(CompareKeys, ByKey([a]), [a]);
    }
    JoinOne(a.name, Separator);
  }

  lemma SortedPair(a: Iri, b: Iri)
    requires CompareKeys(a, b) < 0
    ensures ByKey([a, b]) == [a, b] && ByKey([b, a]) == [a, b]
  {
    KeyOrderIsTotalOrder();
    assert SortedBy(CompareKeys, [a, b]);
    assert multiset([a, b]) == multiset([b, a]);
    SortedUnique(CompareKeys, ByKey([a, b]), [a, b]);
    SortedUnique(CompareKeys, ByKey([b, a]), [a, b]);
  }

  /** Two replacements are named in key order, whichever was recorded first. */
  lemma ClassNoticeTwo(a: Iri, b: Iri)
    requires CompareKeys(a, b) < 0
    ensures ClassNotice([a, b]) == Some("Use " + (a.name + Separator + b.name) + " instead.")
    ensures ClassNotice([b, a]) == Some("Use " + (a.name + Separator + b.name) + " instead.")
  {
    SortedPair(a, b);
    assert Names([a, b]) == [a.name, b.name];
    JoinTwo(a.name, b.name, Separator);
  }

  lemma PropertyNoticeOne(a: Iri)
    ensures PropertyNotice([a]) == Some("Consider using " + a.href + " instead.")
  {
    assert Hrefs([a]) == [a.href];
    JoinOne(a.href, Separator);
  }

  /** Two replacements of a property keep the order the facts named them in. */
  lemma PropertyNoticeTwo(a: Iri, b: Iri)
    ensures PropertyNotice([a, b]) == Some("Consider using " + (a.href + Separator + b.href) + " instead.")
  {
    assert Hrefs([a, b]) == [a.href, b.href];
    JoinTwo(a.href, b.href, Separator);
  }

  /** A class superseded by CoolPerson and then by APerson names APerson first. */
  lemma TwoReplacementsAlphabetical()
    ensures ClassNotice([Iri("https://schema.org/CoolPerson", "CoolPerson"), Iri("https://schema.org/APerson", "APerson")])
         == Some("Use " + ("APerson" + Separator + "CoolPerson") + " instead.")
  {
    var cool := Iri("https://schema.org/CoolPerson", "CoolPerson");
    var a := Iri("https://schema.org/APerson", "APerson");
    CompareAtFirstDifference("", a.name, cool.name);
    assert "" + a.name == a.name && "" + cool.name == cool.name;
    ClassNoticeTwo(a, cool);
  }

  /** Two property replacements are joined in fact order: `name` before `height`. */
  lemma TwoPropertyReplacementsInFactOrder()
    ensures PropertyNotice([Iri("http://schema.org/name", "name"), Iri("http://schema.org/height", "height")])
         == Some("Consider using " + ("http://schema.org/name" + Separator + "http://schema.org/height") + " instead.")
  {
    PropertyNoticeTwo(Iri("http://schema.org/name", "name"), Iri("http://schema.org/height", "height"));
  }
}
