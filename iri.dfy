/**
 * Identifiers. An IRI carries its full text and its local name: the
 * fragment after the first '#' when there is one, otherwise the last path
 * segment (`Parse`). Local names are what declarations are called after
 * (`Person`, `PersonBase`); with the full text they give the key order that
 * the entity sort uses within a tier.
 */
module Iri {
  import opened Strings
  import opened Wrappers

  datatype Iri = Iri(href: string, name: string)

  /** The text after the last occurrence of `c`, or all of `s` without one. */
  function AfterLast(s: string, c: char): (r: string)
    ensures |r| <= |s| && r == s[|s| - |r|..]
    ensures forall i :: 0 <= i < |r| ==> r[i] != c
    ensures |r| == |s| || s[|s| - |r| - 1] == c
  {
    if s == [] || s[|s| - 1] == c then []
    else AfterLast(s[..|s| - 1], c) + [s[|s| - 1]]
  }

  /** Splits an absolute IRI: its name is the fragment of a `#` IRI, else its last path segment. */
  function Parse(href: string): (r: Iri)
    ensures r.href == href
    ensures |r.name| <= |href| && r.name == href[|href| - |r.name|..]
    ensures IndexOf(href, '#').Some? ==> |r.name| == |href| - IndexOf(href, '#').value - 1
    ensures IndexOf(href, '#').None? ==>
              (forall i :: 0 <= i < |r.name| ==> r.name[i] != '/')
              && (r.name == href || href[|href| - |r.name| - 1] == '/')
  {
    match IndexOf(href, '#')
    case Some(k) => Iri(href, href[k + 1..])
    case None => Iri(href, AfterLast(href, '/'))
  }

  /** After the last `c` comes exactly the text that holds no `c`. */
  lemma AfterLastSuffix(p: string, n: string, c: char)
    requires p != [] && p[|p| - 1] == c
    requires forall i :: 0 <= i < |n| ==> n[i] != c
    ensures AfterLast(p + n, c) == n
  {
    var s := p + n;
    var r := AfterLast(s, c);
    assert r == s[|p|..];
  }

  /** A namespace IRI: ends with `/` and has no fragment. */
  predicate Namespace(p: string)
  {
    p != [] && p[|p| - 1] == '/' && '#' !in p
  }

  /** A local name: no `#` and no `/`. */
  predicate LocalName(n: string)
  {
    '#' !in n && '/' !in n
  }

  /** An IRI without a fragment is named after its last path segment. */
  lemma NamedBySegment(p: string, n: string)
    requires Namespace(p) && LocalName(n)
    ensures Parse(p + n) == Iri(p + n, n)
  {
    var s := p + n;
    forall i | 0 <= i < |s|
      ensures s[i] != '#'
    {
      if i < |p| {
        assert s[i] == p[i];
      } else {
        assert s[i] == n[i - |p|];
      }
    }
    AfterLastSuffix(p, n, '/');
  }

  /** An IRI with a fragment is named after the text that follows the first `#`. */
  lemma NamedByFragment(p: string, n: string)
    requires '#' !in p
    ensures Parse(p + "#" + n) == Iri(p + "#" + n, n)
  {
    var s := p + "#" + n;
    assert s[|p|] == '#';
    forall i | 0 <= i < |p|
      ensures s[i] != '#'
    {
      assert s[i] == p[i];
    }
    assert s[|p| + 1..] == n;
  }

  /**
   * The key order: local names first, then the full IRI text. There is no
   * preferred namespace: among equal names the full texts decide.
   */
  function CompareKeys(a: Iri, b: Iri): (r: int)
    ensures r == -1 || r == 0 || r == 1
  {
    if Compare(a.name, b.name) != 0 then Compare(a.name, b.name) else Compare(a.href, b.href)
  }

  lemma CompareKeysZeroIffSame(a: Iri, b: Iri)
    ensures CompareKeys(a, b) == 0 <==> a == b
  {
    CompareZeroIffEqual(a.name, b.name);
    CompareZeroIffEqual(a.href, b.href);
  }

  lemma CompareKeysAntisymmetric(a: Iri, b: Iri)
    ensures CompareKeys(a, b) == -CompareKeys(b, a)
  {
    CompareAntisymmetric(a.name, b.name);
    CompareAntisymmetric(a.href, b.href);
  }

  lemma CompareKeysTransitive(a: Iri, b: Iri, c: Iri)
    requires CompareKeys(a, b) <= 0 && CompareKeys(b, c) <= 0
    ensures CompareKeys(a, c) <= 0
  {
    CompareZeroIffEqual(a.name, b.name);
    CompareZeroIffEqual(b.name, c.name);
    CompareZeroIffEqual(a.name, c.name);
    if Compare(a.name, b.name) == 0 && Compare(b.name, c.name) == 0 {
      CompareTransitive(a.href, b.href, c.href);
    } else if Compare(a.name, b.name) != 0 && Compare(b.name, c.name) != 0 {
      CompareTransitive(a.name, b.name, c.name);
      if Compare(a.name, c.name) == 0 {
        CompareAntisymmetric(a.name, b.name);
      }
    }
  }
}
