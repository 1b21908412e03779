/**
 * The comment sanitiser: an `rdfs:comment` literal is read as a little
 * markup language with an allow-list of two tags. `<a href="X">Y</a>`
 * becomes the cross-reference `{@link X Y}`, `<br/>` starts a new line,
 * and any other tag is a failure naming that tag. Within a line, runs of
 * whitespace collapse to one space and the line is trimmed; blank lines
 * at either end are dropped.
 */
module Comments {
  import opened Wrappers
  import opened Strings
  import opened Errors

  /** A lexical unit of a comment: one character of text or one tag. */
  datatype Token = Char(c: char) | Tag(closing: bool, name: string, href: Option<string>)

  /** What the markup turns into before it is laid out in lines. */
  datatype Piece = Text(c: char) | Break

  predicate IsNameChar(c: char) {
    'a' <= c <= 'z' || 'A' <= c <= 'Z' || '0' <= c <= '9'
  }

  predicate IsSpace(c: char) {
    c == ' ' || c == '\n' || c == '\t' || c == '\r'
  }

  function LowerChar(c: char): char {
    if 'A' <= c <= 'Z' then (c - 'A' + 'a') as char else c
  }

  /** Tag names are matched without regard to ASCII case. */
  function Lower(s: string): (r: string)
    ensures |r| == |s|
    ensures forall i :: 0 <= i < |s| ==> r[i] == LowerChar(s[i])
  {
    if s == [] then "" else [LowerChar(s[0])] + Lower(s[1..])
  }

  /** Length of the longest prefix of `s` made of name characters. */
  function NameLength(s: string): (n: nat)
    ensures n <= |s|
    ensures forall i :: 0 <= i < n ==> IsNameChar(s[i])
    ensures n < |s| ==> !IsNameChar(s[n])
  {
    if s != [] && IsNameChar(s[0]) then 1 + NameLength(s[1..]) else 0
  }

  /** `s` without its leading whitespace. */
  function SkipSpaces(s: string): (r: string)
    ensures |r| <= |s| && r == s[|s| - |r|..]
    ensures forall i :: 0 <= i < |s| - |r| ==> IsSpace(s[i])
    ensures r != [] ==> !IsSpace(r[0])
  {
    if s != [] && IsSpace(s[0]) then SkipSpaces(s[1..]) else s
  }

  const HrefOpen: string := "href=\""

  /** The value of a leading `href="…"` attribute, if there is one. */
  function Href(attrs: string): (r: Option<string>)
    ensures r.Some? ==> '"' !in r.value
  {
    var a := SkipSpaces(attrs);
    if HrefOpen <= a then
      match IndexOf(a[|HrefOpen|..], '"')
      case Some(k) => Some(a[|HrefOpen|..][..k])
      case None => None
    else None
  }

  /** The tag whose text between `<` and `>` is `body`. */
  function ParseTag(body: string): (t: Token)
    ensures t.Tag?
    ensures t.closing <==> (body != [] && body[0] == '/')
  {
    var closing := body != [] && body[0] == '/';
    var rest := if closing then body[1..] else body;
    var n := NameLength(rest);
    Tag(closing, Lower(rest[..n]), Href(rest[n..]))
  }

  /** A run of name characters that the next character ends is read whole as the name. */
  lemma {:induction false} NameLengthOf(n: string, rest: string)
    requires forall i :: 0 <= i < |n| ==> IsNameChar(n[i])
    requires rest == [] || !IsNameChar(rest[0])
    ensures NameLength(n + rest) == |n|
    decreases |n|
  {
    var s := n + rest;
    if n == [] {
      assert s == rest;
    } else {
      assert s[0] == n[0] && s[1..] == n[1..] + rest;
      NameLengthOf(n[1..], rest);
    }
  }

  /** A closing tag reads like the opening tag it closes. */
  lemma ParseTagClosing(s: string)
    requires s == [] || s[0] != '/'
    ensures ParseTag("/" + s) == Tag(true, ParseTag(s).name, ParseTag(s).href)
  {
    assert ("/" + s)[1..] == s;
  }

  /**
   * A tag is named by the run of name characters after the optional `/`,
   * compared without regard to case; its link target comes from what
   * follows the name.
   */
  lemma ParseTagName(n: string, rest: string)
    requires n != [] && forall i :: 0 <= i < |n| ==> IsNameChar(n[i])
    requires rest == [] || !IsNameChar(rest[0])
    ensures ParseTag(n + rest) == Tag(false, Lower(n), Href(rest))
    ensures ParseTag("/" + (n + rest)) == Tag(true, Lower(n), Href(rest))
  {
    var s := n + rest;
    assert ParseTag(s) == Tag(false, Lower(n), Href(rest)) by {
      NameLengthOf(n, rest);
      assert s[..|n|] == n && s[|n|..] == rest;
    }
    assert s[0] == n[0];
    ParseTagClosing(s);
  }

  /** The characters of `t` as text tokens. */
  function Chars(t: string): (ts: seq<Token>)
    ensures |ts| == |t|
    ensures forall i :: 0 <= i < |t| ==> ts[i] == Char(t[i])
  {
    seq(|t|, i requires 0 <= i < |t| => Char(t[i]))
  }

  /**
   * Splits a comment into tokens: a `<` with a later `>` opens a tag that
   * ends at the first `>`; every other character is text.
   */
  function Lex(s: string): (ts: seq<Token>)
    ensures |ts| <= |s|
    ensures (forall i :: 0 <= i < |s| ==> s[i] != '<') ==> ts == Chars(s)
    decreases |s|
  {
    if s == [] then []
    else if s[0] == '<' then
      match IndexOf(s, '>')
      case Some(j) => [ParseTag(s[1..j])] + Lex(s[j + 1..])
      case None => [Char(s[0])] + Lex(s[1..])
    else
      assert Chars(s) == [Char(s[0])] + Chars(s[1..]);
      [Char(s[0])] + Lex(s[1..])
  }

  lemma LexText(s: string)
    requires s != [] && s[0] != '<'
    ensures Lex(s) == [Char(s[0])] + Lex(s[1..])
  {
  }

  /** Text without `<` is read character by character. */
  lemma {:induction false} LexPlain(t: string, s: string)
    requires forall i :: 0 <= i < |t| ==> t[i] != '<'
    ensures Lex(t + s) == Chars(t) + Lex(s)
    decreases |t|
  {
    if t != [] {
      assert Lex(t + s) == [Char(t[0])] + Lex(t[1..] + s) by {
        var w := t + s;
        assert w[0] == t[0] && w[1..] == t[1..] + s;
        LexText(w);
      }
      LexPlain(t[1..], s);
      CharsCons(t, Lex(s));
    } else {
      assert t + s == s && Chars(t) == [];
    }
  }

  /** A `<…>` whose body has no `>` is read as one tag. */
  lemma LexTag(body: string, s: string)
    requires forall i :: 0 <= i < |body| ==> body[i] != '>'
    ensures Lex("<" + body + ">" + s) == [ParseTag(body)] + Lex(s)
  {
    var w := "<" + body + ">" + s;
    var j := |body| + 1;
    assert w[j] == '>';
    match IndexOf(w, '>')
    case Some(k) =>
      assert k == j;
      assert w[1..j] == body;
      assert w[j + 1..] == s;
    case None =>
      assert false;
  }

  /** A name of one character ends at the next character. */
  lemma NameLengthOne(s: string)
    requires |s| >= 2 && IsNameChar(s[0]) && !IsNameChar(s[1])
    ensures NameLength(s) == 1
  {
    assert s[1..][0] == s[1];
  }

  lemma SkipOneSpace(x: string)
    requires x != [] && !IsSpace(x[0])
    ensures SkipSpaces(" " + x) == x
  {
    assert (" " + x)[1..] == x;
  }

  /** A value without quotes ends at the quote that follows it. */
  lemma QuotedValue(h: string)
    requires '"' !in h
    ensures IndexOf(h + "\"", '"') == Some(|h|)
  {
    var q := h + "\"";
    assert q[|h|] == '"';
    forall i | 0 <= i < |h|
      ensures q[i] != '"'
    {
      assert q[i] == h[i];
    }
  }

  lemma HrefOfValue(h: string)
    requires '"' !in h
    ensures Href(" " + (HrefOpen + h + "\"")) == Some(h)
  {
    var a := HrefOpen + h + "\"";
    assert a[0] == 'h';
    SkipOneSpace(a);
    assert HrefOpen <= a;
    assert a[|HrefOpen|..] == h + "\"";
    QuotedValue(h);
    assert (h + "\"")[..|h|] == h;
  }

  /** The `href` attribute of an opening link tag is read up to its closing quote. */
  lemma ParseLinkTag(h: string)
    requires '"' !in h
    ensures ParseTag("a href=\"" + h + "\"") == Tag(false, "a", Some(h))
  {
    var body := "a href=\"" + h + "\"";
    assert body[0] == 'a' && body[1] == ' ';
    assert NameLength(body) == 1 by { NameLengthOne(body); }
    assert Lower(body[..1]) == "a" by {
      assert body[..1] == "a";
      assert LowerChar('a') == 'a';
    }
    assert Href(body[1..]) == Some(h) by {
      assert body[1..] == " " + (HrefOpen + h + "\"");
      HrefOfValue(h);
    }
  }

  /** A closing link tag carries no attributes. */
  lemma ParseCloseLinkTag()
    ensures ParseTag("/a") == Tag(true, "a", None)
  {
    var rest := "/a"[1..];
    assert rest == "a";
    assert NameLength(rest) == 1 by {
      assert rest[0] == 'a' && rest[1..] == [];
    }
    assert Lower(rest[..1]) == "a" by {
      assert rest[..1] == "a";
      assert LowerChar('a') == 'a';
    }
    assert Href(rest[1..]) == None by {
      assert rest[1..] == "";
    }
  }

  lemma LinkBodyHasNoClose(h: string)
    requires '>' !in h
    ensures forall i :: 0 <= i < |"a href=\"" + h + "\""| ==> ("a href=\"" + h + "\"")[i] != '>'
  {
    var body := "a href=\"" + h + "\"";
    forall i | 0 <= i < |body| ensures body[i] != '>' {
      if 8 <= i < 8 + |h| { assert body[i] == h[i - 8]; }
    }
  }

  lemma LinkTextSplits(h: string, y: string, s: string)
    ensures "<a href=\"" + h + "\">" + y + "</a>" + s
         == "<" + ("a href=\"" + h + "\"") + ">" + (y + ("<" + "/a" + ">" + s))
  {
  }

  lemma Regroup<T>(a: seq<T>, b: seq<T>, c: seq<T>, d: seq<T>)
    ensures a + (b + (c + d)) == a + b + c + d
  {
  }

  /** The opening link tag is read as one token, up to its `>`. */
  lemma LexOpenLink(h: string, y: string, s: string)
    requires '"' !in h && '>' !in h
    ensures Lex("<a href=\"" + h + "\">" + y + "</a>" + s)
         == [Tag(false, "a", Some(h))] + Lex(y + ("<" + "/a" + ">" + s))
  {
    var body := "a href=\"" + h + "\"";
    LinkBodyHasNoClose(h);
    LinkTextSplits(h, y, s);
    LexTag(body, y + ("<" + "/a" + ">" + s));
    ParseLinkTag(h);
  }

  /** The closing link tag is read as one token. */
  lemma LexCloseLink(s: string)
    ensures Lex("<" + "/a" + ">" + s) == [Tag(true, "a", None)] + Lex(s)
  {
    LexTag("/a", s);
    ParseCloseLinkTag();
  }

  /** A link whose href has no quote and whose text has no markup lexes as open tag, text, close tag. */
  lemma LexLink(h: string, y: string, s: string)
    requires '"' !in h && '>' !in h
    requires forall i :: 0 <= i < |y| ==> y[i] != '<'
    ensures Lex("<a href=\"" + h + "\">" + y + "</a>" + s)
         == [Tag(false, "a", Some(h))] + Chars(y) + [Tag(true, "a", None)] + Lex(s)
  {
    var close := "<" + "/a" + ">" + s;
    LexOpenLink(h, y, s);
    LexPlain(y, close);
    LexCloseLink(s);
    Regroup([Tag(false, "a", Some(h))], Chars(y), [Tag(true, "a", None)], Lex(s));
  }

  predicate Allowed(name: string) {
    name == "a" || name == "br"
  }

  /** Every tag in `ts` is on the allow-list. */
  predicate AllAllowed(ts: seq<Token>) {
    forall i :: 0 <= i < |ts| && ts[i].Tag? ==> Allowed(ts[i].name)
  }

  function Texts(s: string): (ps: seq<Piece>)
    ensures |ps| == |s|
    ensures forall i :: 0 <= i < |s| ==> ps[i] == Text(s[i])
  {
    seq(|s|, i requires 0 <= i < |s| => Text(s[i]))
  }

  const LinkOpen: string := "{@link "
  const LinkClose: string := "}"

  /** What one allowed token contributes, given whether a link is open. */
  function Render(t: Token, inLink: bool): seq<Piece> {
    match t
    case Char(c) => [Text(c)]
    case Tag(closing, name, href) =>
      if name == "br" then (if closing then [] else [Break])
      else if closing then (if inLink then Texts(LinkClose) else [])
      else if href.Some? then Texts(LinkOpen + href.value + " ")
      else []
  }

  /** Whether a link is open after token `t`. */
  function NextInLink(t: Token, inLink: bool): bool {
    if t.Tag? && t.name == "a" then !t.closing && t.href.Some? else inLink
  }

  /** The markup rendered as pieces, or the first tag off the allow-list. */
  function Markup(ts: seq<Token>, inLink: bool): (r: Result<seq<Piece>, Error>)
    ensures r.Err? ==> (r.error.UnknownTag? && !Allowed(r.error.tag)
                        && exists t :: t in ts && t.Tag? && t.name == r.error.tag)
    decreases |ts|
  {
    if ts == [] then Ok([])
    else if ts[0].Tag? && !Allowed(ts[0].name) then Err(UnknownTag(ts[0].name))
    else
      assert forall t :: t in ts[1..] ==> t in ts;
      match Markup(ts[1..], NextInLink(ts[0], inLink))
      case Err(e) => Err(e)
      case Ok(rest) => Ok(Render(ts[0], inLink) + rest)
  }

  /** Markup succeeds exactly when every tag is allowed. */
  lemma {:induction false} MarkupOkIff(ts: seq<Token>, inLink: bool)
    ensures Markup(ts, inLink).Ok? <==> AllAllowed(ts)
    decreases |ts|
  {
    if ts != [] {
      MarkupOkIff(ts[1..], NextInLink(ts[0], inLink));
      if AllAllowed(ts[1..]) && !(ts[0].Tag? && !Allowed(ts[0].name)) {
        forall i | 0 <= i < |ts| && ts[i].Tag?
          ensures Allowed(ts[i].name)
        {
          if i > 0 { assert ts[i] == ts[1..][i - 1]; }
        }
      }
      if AllAllowed(ts) {
        forall i | 0 <= i < |ts[1..]| && ts[1..][i].Tag?
          ensures Allowed(ts[1..][i].name)
        {
          assert ts[1..][i] == ts[i + 1];
        }
      }
    }
  }

  /** A failure names the first tag that is off the allow-list. */
  lemma {:induction false} MarkupNamesFirstBadTag(ts: seq<Token>, inLink: bool, k: nat)
    requires k < |ts| && ts[k].Tag? && !Allowed(ts[k].name)
    requires AllAllowed(ts[..k])
    ensures Markup(ts, inLink) == Err(UnknownTag(ts[k].name))
    decreases k
  {
    if k > 0 {
      assert ts[..k][0] == ts[0];
      assert ts[1..][..k - 1] == ts[..k][1..];
      assert ts[1..][k - 1] == ts[k];
      MarkupNamesFirstBadTag(ts[1..], NextInLink(ts[0], inLink), k - 1);
    }
  }

  /** An allowed token followed by well-formed markup renders as its own pieces first. */
  lemma MarkupCons(t: Token, ts: seq<Token>, inLink: bool)
    requires !(t.Tag? && !Allowed(t.name))
    requires Markup(ts, NextInLink(t, inLink)).Ok?
    ensures Markup([t] + ts, inLink)
         == Ok(Render(t, inLink) + Markup(ts, NextInLink(t, inLink)).value)
  {
    assert ([t] + ts)[1..] == ts;
  }

  lemma CharsCons(t: string, ts: seq<Token>)
    requires t != []
    ensures Chars(t) + ts == [Char(t[0])] + (Chars(t[1..]) + ts)
  {
    assert Chars(t) == [Char(t[0])] + Chars(t[1..]);
  }

  lemma TextsCons(t: string, v: seq<Piece>)
    requires t != []
    ensures Texts(t) + v == [Text(t[0])] + (Texts(t[1..]) + v)
  {
    assert Texts(t) == [Text(t[0])] + Texts(t[1..]);
  }

  /** Plain text tokens render as the same characters. */
  lemma {:induction false} MarkupPlain(t: string, ts: seq<Token>, inLink: bool)
    requires Markup(ts, inLink).Ok?
    ensures Markup(Chars(t) + ts, inLink) == Ok(Texts(t) + Markup(ts, inLink).value)
    decreases |t|
  {
    var v := Markup(ts, inLink).value;
    if t != [] {
      var u := Chars(t[1..]) + ts;
      CharsCons(t, ts);
      MarkupPlain(t[1..], ts, inLink);
      MarkupCons(Char(t[0]), u, inLink);
      TextsCons(t, v);
    } else {
      assert Chars(t) + ts == ts;
      assert Texts(t) + v == v;
    }
  }

  lemma TextsAppend(a: string, b: string)
    ensures Texts(a + b) == Texts(a) + Texts(b)
  {
  }

  /** The tokens of a link render piece by piece: the opening, the text, the closing brace. */
  lemma LinkPieces(href: string, inner: string, ts: seq<Token>, inLink: bool)
    requires Markup(ts, false).Ok?
    ensures Markup([Tag(false, "a", Some(href))] + (Chars(inner) + ([Tag(true, "a", None)] + ts)), inLink)
         == Ok(Texts(LinkOpen + href + " ") + (Texts(inner) + (Texts(LinkClose) + Markup(ts, false).value)))
  {
    var v := Markup(ts, false).value;
    var close := Tag(true, "a", None);
    assert Markup([close] + ts, true) == Ok(Texts(LinkClose) + v) by {
      MarkupCons(close, ts, true);
    }
    assert Markup(Chars(inner) + ([close] + ts), true) == Ok(Texts(inner) + (Texts(LinkClose) + v)) by {
      MarkupPlain(inner, [close] + ts, true);
    }
    MarkupCons(Tag(false, "a", Some(href)), Chars(inner) + ([close] + ts), inLink);
  }

  lemma ReferenceText(href: string, inner: string, v: seq<Piece>)
    ensures Texts(LinkOpen + href + " " + inner + LinkClose) + v
         == Texts(LinkOpen + href + " ") + (Texts(inner) + (Texts(LinkClose) + v))
  {
    TextsAppend(LinkOpen + href + " " + inner, LinkClose);
    TextsAppend(LinkOpen + href + " ", inner);
  }

  /** A link with plain inner text becomes the `{@link X Y}` reference. */
  lemma LinkBecomesReference(href: string, inner: string, ts: seq<Token>, inLink: bool)
    requires Markup(ts, false).Ok?
    ensures Markup([Tag(false, "a", Some(href))] + Chars(inner) + [Tag(true, "a", None)] + ts, inLink)
         == Ok(Texts(LinkOpen + href + " " + inner + LinkClose) + Markup(ts, false).value)
  {
    var open, close := Tag(false, "a", Some(href)), Tag(true, "a", None);
    assert [open] + Chars(inner) + [close] + ts == [open] + (Chars(inner) + ([close] + ts));
    LinkPieces(href, inner, ts, inLink);
    ReferenceText(href, inner, Markup(ts, false).value);
  }

  /** The characters of the text pieces, in order. */
  function TextOf(ps: seq<Piece>): string {
    if ps == [] then "" else (if ps[0].Text? then [ps[0].c] else "") + TextOf(ps[1..])
  }

  function BreakCount(ps: seq<Piece>): nat {
    if ps == [] then 0 else (if ps[0].Break? then 1 else 0) + BreakCount(ps[1..])
  }

  /** The pieces cut into lines at each break. */
  function Lines(ps: seq<Piece>): (ls: seq<string>)
    ensures |ls| == BreakCount(ps) + 1
    ensures Concat(ls) == TextOf(ps)
    decreases |ps|
  {
    if ps == [] then [""]
    else
      var rest := Lines(ps[1..]);
      match ps[0]
      case Break =>
        assert ([""] + rest)[1..] == rest;
        [""] + rest
      case Text(c) =>
        assert ([[c] + rest[0]] + rest[1..])[1..] == rest[1..];
        assert rest == [rest[0]] + rest[1..];
        [[c] + rest[0]] + rest[1..]
  }

  /** The characters of `s` that are not whitespace, in order. */
  function NonSpace(s: string): string {
    if s == [] then "" else (if IsSpace(s[0]) then "" else [s[0]]) + NonSpace(s[1..])
  }

  lemma {:induction false} NonSpaceAppend(a: string, b: string)
    ensures NonSpace(a + b) == NonSpace(a) + NonSpace(b)
    decreases |a|
  {
    if a != [] {
      assert (a + b)[1..] == a[1..] + b;
      NonSpaceAppend(a[1..], b);
    } else {
      assert a + b == b;
    }
  }

  /** A word: non-empty, no whitespace. */
  predicate IsWord(w: string) {
    w != [] && forall i :: 0 <= i < |w| ==> !IsSpace(w[i])
  }

  lemma {:induction false} NonSpaceOfWord(w: string)
    requires forall i :: 0 <= i < |w| ==> !IsSpace(w[i])
    ensures NonSpace(w) == w
    decreases |w|
  {
    if w != [] {
      NonSpaceOfWord(w[1..]);
    }
  }

  /** Length of the leading run of non-whitespace. */
  function WordEnd(s: string): (n: nat)
    ensures n <= |s|
    ensures forall i :: 0 <= i < n ==> !IsSpace(s[i])
    ensures n < |s| ==> IsSpace(s[n])
  {
    if s != [] && !IsSpace(s[0]) then 1 + WordEnd(s[1..]) else 0
  }

  /** The whitespace-separated words of `s`. */
  function Words(s: string): (ws: seq<string>)
    ensures forall i :: 0 <= i < |ws| ==> IsWord(ws[i])
    ensures Concat(ws) == NonSpace(s)
    decreases |s|
  {
    if s == [] then []
    else if IsSpace(s[0]) then Words(s[1..])
    else
      var n := WordEnd(s);
      var ws := [s[..n]] + Words(s[n..]);
      assert s == s[..n] + s[n..];
      NonSpaceAppend(s[..n], s[n..]);
      NonSpaceOfWord(s[..n]);
      assert ws[1..] == Words(s[n..]);
      ws
  }

  /**
   * A tidy line: its only whitespace is single spaces strictly inside it,
   * each followed by a non-space.
   */
  predicate Tidy(s: string) {
    forall i :: 0 <= i < |s| && IsSpace(s[i]) ==>
      s[i] == ' ' && 0 < i < |s| - 1 && !IsSpace(s[i + 1])
  }

  /** One line with its whitespace runs collapsed and its ends trimmed. */
  function Collapse(line: string): string {
    Join(Words(line), " ")
  }

  lemma {:induction false} JoinWords(ws: seq<string>)
    requires forall i :: 0 <= i < |ws| ==> IsWord(ws[i])
    ensures Tidy(Join(ws, " "))
    ensures NonSpace(Join(ws, " ")) == Concat(ws)
    ensures ws != [] ==> Join(ws, " ") != [] && !IsSpace(Join(ws, " ")[0])
                         && !IsSpace(Join(ws, " ")[|Join(ws, " ")| - 1])
    decreases |ws|
  {
    if |ws| == 1 {
      NonSpaceOfWord(ws[0]);
      assert Concat(ws) == ws[0] + Concat(ws[1..]);
    } else if |ws| > 1 {
      var w, j := ws[0], Join(ws[1..], " ");
      JoinWords(ws[1..]);
      var s := w + " " + j;
      assert Join(ws, " ") == s;
      forall i | 0 <= i < |s| && IsSpace(s[i])
        ensures s[i] == ' ' && 0 < i < |s| - 1 && !IsSpace(s[i + 1])
      {
        if i < |w| {
          assert false;
        } else if i == |w| {
          assert s[i + 1] == j[0];
        } else {
          assert s[i] == j[i - |w| - 1];
          assert i - |w| - 1 < |j| - 1;
          assert s[i + 1] == j[i - |w|];
        }
      }
      NonSpaceAppend(w, " " + j);
      NonSpaceAppend(" ", j);
      NonSpaceOfWord(w);
      assert s == w + (" " + j);
      assert s[|s| - 1] == j[|j| - 1];
    }
  }

  /** A word is its own single word. */
  lemma WordsOfWord(w: string)
    requires IsWord(w)
    ensures Words(w) == [w]
  {
    assert WordEnd(w) == |w|;
    assert w[..|w|] == w && w[|w|..] == [];
  }

  /** The first word of `w + " " + j` is `w`, and the rest are the words of `j`. */
  lemma WordsOfPair(w: string, j: string)
    requires IsWord(w)
    ensures Words(w + " " + j) == [w] + Words(j)
  {
    var s := w + " " + j;
    assert s[0] == w[0];
    assert s[|w|] == ' ';
    var n := WordEnd(s);
    assert n == |w|;
    assert s[..n] == w;
    assert s[n..] == " " + j;
    assert (" " + j)[1..] == j;
  }

  /** Leading whitespace holds no word. */
  lemma {:induction false} WordsAfterSpaces(g: string, j: string)
    requires forall i :: 0 <= i < |g| ==> IsSpace(g[i])
    ensures Words(g + j) == Words(j)
    decreases |g|
  {
    if g == [] {
      assert g + j == j;
    } else {
      assert (g + j)[0] == g[0] && (g + j)[1..] == g[1..] + j;
      WordsAfterSpaces(g[1..], j);
    }
  }

  /** A word ends at any run of whitespace, however long and whatever its characters. */
  lemma WordsOfGap(w: string, g: string, j: string)
    requires IsWord(w) && g != [] && forall i :: 0 <= i < |g| ==> IsSpace(g[i])
    ensures Words(w + g + j) == [w] + Words(j)
  {
    var s := w + g + j;
    assert s[0] == w[0];
    assert s[|w|] == g[0];
    var n := WordEnd(s);
    assert n == |w|;
    assert s[..n] == w;
    assert s[n..] == g + j;
    WordsAfterSpaces(g, j);
  }

  /** Words reads back the words a single-space join was made of. */
  lemma {:induction false} WordsOfJoin(ws: seq<string>)
    requires forall i :: 0 <= i < |ws| ==> IsWord(ws[i])
    ensures Words(Join(ws, " ")) == ws
    decreases |ws|
  {
    if |ws| == 1 {
      WordsOfWord(ws[0]);
    } else if |ws| > 1 {
      WordsOfJoin(ws[1..]);
      WordsOfPair(ws[0], Join(ws[1..], " "));
      assert ws == [ws[0]] + ws[1..];
    }
  }

  /** A collapsed line is tidy and keeps every non-space character in order. */
  lemma CollapseIsTidy(line: string)
    ensures Tidy(Collapse(line))
    ensures NonSpace(Collapse(line)) == NonSpace(line)
  {
    JoinWords(Words(line));
  }

  /** Collapsing a collapsed line changes nothing. */
  lemma CollapseIdempotent(line: string)
    ensures Collapse(Collapse(line)) == Collapse(line)
  {
    WordsOfJoin(Words(line));
  }

  /** The lines after the leading blank ones. */
  function DropLeadingBlank(ls: seq<string>): (r: seq<string>)
    ensures |r| <= |ls| && r == ls[|ls| - |r|..]
    ensures forall i :: 0 <= i < |ls| - |r| ==> ls[i] == ""
    ensures r != [] ==> r[0] != ""
  {
    if ls != [] && ls[0] == "" then DropLeadingBlank(ls[1..]) else ls
  }

  /** The lines before the trailing blank ones. */
  function DropTrailingBlank(ls: seq<string>): (r: seq<string>)
    ensures |r| <= |ls| && r == ls[..|r|]
    ensures forall i :: |r| <= i < |ls| ==> ls[i] == ""
    ensures r != [] ==> r[|r| - 1] != ""
  {
    if ls != [] && ls[|ls| - 1] == "" then DropTrailingBlank(ls[..|ls| - 1]) else ls
  }

  function CollapseAll(ls: seq<string>): (r: seq<string>)
    ensures |r| == |ls|
    ensures forall i :: 0 <= i < |ls| ==> r[i] == Collapse(ls[i])
  {
    seq(|ls|, i requires 0 <= i < |ls| => Collapse(ls[i]))
  }

  /** The sanitised comment: its lines, or the failure for a tag off the allow-list. */
  function Sanitize(raw: string): (r: Result<seq<string>, Error>)
    ensures r.Err? ==> (r.error.UnknownTag? && !Allowed(r.error.tag)
                        && exists t :: t in Lex(raw) && t.Tag? && t.name == r.error.tag)
    ensures r.Ok? && r.value != [] ==> r.value[0] != "" && r.value[|r.value| - 1] != ""
  {
    match Markup(Lex(raw), false)
    case Err(e) => Err(e)
    case Ok(ps) => Ok(DropTrailingBlank(DropLeadingBlank(CollapseAll(Lines(ps)))))
  }

  /**
   * Sanitising fails exactly when a tag is off the allow-list; otherwise
   * every line is tidy and neither the first nor the last is blank.
   */
  lemma SanitizeShape(raw: string)
    ensures Sanitize(raw).Ok? <==> AllAllowed(Lex(raw))
    ensures Sanitize(raw).Ok? ==>
      var ls := Sanitize(raw).value;
      (forall i :: 0 <= i < |ls| ==> Tidy(ls[i]))
      && (ls != [] ==> ls[0] != "" && ls[|ls| - 1] != "")
  {
    assert Sanitize(raw).Ok? <==> AllAllowed(Lex(raw)) by {
      MarkupOkIff(Lex(raw), false);
    }
    if Markup(Lex(raw), false).Ok? {
      var ps := Markup(Lex(raw), false).value;
      var all := CollapseAll(Lines(ps));
      var lead := DropLeadingBlank(all);
      var ls := DropTrailingBlank(lead);
      assert Sanitize(raw).value == ls;
      forall i | 0 <= i < |ls|
        ensures Tidy(ls[i])
      {
        assert ls[i] == lead[i];
        LeadingLine(all, i);
        CollapseIsTidy(Lines(ps)[|all| - |lead| + i]);
      }
    }
  }

  /** Line `i` left after the leading blank lines are dropped. */
  lemma LeadingLine(all: seq<string>, i: int)
    requires 0 <= i < |DropLeadingBlank(all)|
    ensures DropLeadingBlank(all)[i] == all[|all| - |DropLeadingBlank(all)| + i]
  {
    var lead := DropLeadingBlank(all);
    assert lead == all[|all| - |lead|..];
  }

  /**
   * A tag off the allow-list after plain text makes sanitising fail with
   * that tag's name, whatever follows it.
   */
  lemma LexTagAfterText(pre: string, body: string, post: string)
    requires forall i :: 0 <= i < |pre| ==> pre[i] != '<'
    requires forall i :: 0 <= i < |body| ==> body[i] != '>'
    ensures Lex(pre + ("<" + body + ">" + post)) == Chars(pre) + ([ParseTag(body)] + Lex(post))
  {
    LexPlain(pre, "<" + body + ">" + post);
    LexTag(body, post);
  }

  lemma MarkupTagAfterText(pre: string, t: Token, post: seq<Token>)
    requires t.Tag? && !Allowed(t.name)
    ensures Markup(Chars(pre) + ([t] + post), false) == Err(UnknownTag(t.name))
  {
    var ts := Chars(pre) + ([t] + post);
    assert ts[|pre|] == t;
    assert ts[..|pre|] == Chars(pre);
    MarkupNamesFirstBadTag(ts, false, |pre|);
  }

  lemma UnknownTagFails(pre: string, body: string, post: string)
    requires forall i :: 0 <= i < |pre| ==> pre[i] != '<'
    requires forall i :: 0 <= i < |body| ==> body[i] != '>'
    requires !Allowed(ParseTag(body).name)
    ensures Sanitize(pre + ("<" + body + ">" + post)) == Err(UnknownTag(ParseTag(body).name))
  {
    LexTagAfterText(pre, body, post);
    MarkupTagAfterText(pre, ParseTag(body), Lex(post));
  }

  lemma TableTagName()
    ensures ParseTag("table") == Tag(false, "table", None)
  {
    assert NameLength("table") == 5;
    assert "table"[..5] == "table";
    assert Lower("table") == "table";
    assert "table"[5..] == "";
  }

  /** A comment holding a table is rejected, naming the `table` tag. */
  lemma TableIsRejected(post: string)
    ensures Sanitize("Hello World. " + ("<" + "table" + ">" + post)) == Err(UnknownTag("table"))
  {
    TableTagName();
    UnknownTagFails("Hello World. ", "table", post);
  }

  /** Pieces of plain text with no break form a single line. */
  lemma {:induction false} LinesOfText(x: string)
    ensures Lines(Texts(x)) == [x]
    decreases |x|
  {
    if x != [] {
      assert Texts(x)[1..] == Texts(x[1..]);
      LinesOfText(x[1..]);
      assert [x[0]] + x[1..] == x;
    }
  }

  /**
   * Text followed by a link sanitises to one line: the text and the
   * `{@link X Y}` reference, with whitespace collapsed.
   */
  lemma LinkAfterText(pre: string, h: string, y: string)
    requires forall i :: 0 <= i < |pre| ==> pre[i] != '<'
    requires forall i :: 0 <= i < |y| ==> y[i] != '<'
    requires '"' !in h && '>' !in h
    ensures Sanitize(pre + ("<a href=\"" + h + "\">" + y + "</a>" + ""))
         == Ok(DropTrailingBlank(DropLeadingBlank([Collapse(pre + (LinkOpen + h + " " + y + LinkClose))])))
  {
    var link := "<a href=\"" + h + "\">" + y + "</a>" + "";
    var open, shut := Tag(false, "a", Some(h)), Tag(true, "a", None);
    LexPlain(pre, link);
    LexLink(h, y, "");
    var lts := [open] + Chars(y) + [shut] + [];
    assert Lex(pre + link) == Chars(pre) + lts;
    LinkBecomesReference(h, y, [], false);
    var x := LinkOpen + h + " " + y + LinkClose;
    assert Markup(lts, false) == Ok(Texts(x) + []);
    assert Texts(x) + [] == Texts(x);
    MarkupPlain(pre, lts, false);
    TextsAppend(pre, x);
    LinesOfText(pre + x);
    assert CollapseAll([pre + x]) == [Collapse(pre + x)];
  }

  lemma SlashIsNoHref()
    ensures Href("/") == None
  {
    assert SkipSpaces("/") == "/";
  }

  lemma BreakTagName()
    ensures ParseTag("br/") == Tag(false, "br", None)
  {
    assert NameLength("br/") == 2;
    assert "br/"[..2] == "br" && "br/"[2..] == "/";
    assert Lower("br") == "br";
    SlashIsNoHref();
  }

  /** Text, then a break: the text is a line of its own. */
  lemma {:induction false} LinesAfterText(pre: string, ps: seq<Piece>)
    ensures Lines(Texts(pre) + ([Break] + ps)) == [pre] + Lines(ps)
    decreases |pre|
  {
    if pre != [] {
      TextsCons(pre, [Break] + ps);
      LinesAfterText(pre[1..], ps);
      var all := Texts(pre) + ([Break] + ps);
      assert all[1..] == Texts(pre[1..]) + ([Break] + ps);
      assert [pre[0]] + pre[1..] == pre;
    } else {
      assert Texts(pre) + ([Break] + ps) == [Break] + ps;
      assert ([Break] + ps)[1..] == ps;
    }
  }

  /** A `<br/>` lexes as the break tag, whatever follows it. */
  lemma LexBreak(s: string)
    ensures Lex("<" + "br/" + ">" + s) == [Tag(false, "br", None)] + Lex(s)
  {
    assert Lex("<" + "br/" + ">" + s) == [ParseTag("br/")] + Lex(s) by {
      LexTag("br/", s);
    }
    assert ParseTag("br/") == Tag(false, "br", None) by {
      BreakTagName();
    }
  }

  /** A `<br/>` then a link lexes as the break tag, then the link's tokens. */
  lemma LexBreakThenLink(h: string, y: string)
    requires forall i :: 0 <= i < |y| ==> y[i] != '<'
    requires '"' !in h && '>' !in h
    ensures Lex("<" + "br/" + ">" + ("<a href=\"" + h + "\">" + y + "</a>" + ""))
         == [Tag(false, "br", None)] + ([Tag(false, "a", Some(h))] + Chars(y) + [Tag(true, "a", None)] + [])
  {
    var link := "<a href=\"" + h + "\">" + y + "</a>" + "";
    var lts := [Tag(false, "a", Some(h))] + Chars(y) + [Tag(true, "a", None)] + [];
    assert Lex(link) == lts by {
      LexLink(h, y, "");
      assert Lex("") == [];
    }
    LexBreak(link);
  }

  /** The pieces of text, a `<br/>`, then a link. */
  lemma BreakThenLinkPieces(pre: string, h: string, y: string)
    requires forall i :: 0 <= i < |pre| ==> pre[i] != '<'
    requires forall i :: 0 <= i < |y| ==> y[i] != '<'
    requires '"' !in h && '>' !in h
    ensures Markup(Lex(pre + ("<" + "br/" + ">" + ("<a href=\"" + h + "\">" + y + "</a>" + ""))), false)
         == Ok(Texts(pre) + ([Break] + Texts(LinkOpen + h + " " + y + LinkClose)))
  {
    var br := "<" + "br/" + ">" + ("<a href=\"" + h + "\">" + y + "</a>" + "");
    var lts := [Tag(false, "a", Some(h))] + Chars(y) + [Tag(true, "a", None)] + [];
    var bts := [Tag(false, "br", None)] + lts;
    LexBreakThenLink(h, y);
    LexPlain(pre, br);
    LinkBecomesReference(h, y, [], false);
    var x := LinkOpen + h + " " + y + LinkClose;
    assert Markup(lts, false) == Ok(Texts(x) + []);
    assert Texts(x) + [] == Texts(x);
    MarkupCons(Tag(false, "br", None), lts, false);
    MarkupPlain(pre, bts, false);
  }

  /**
   * Text, a `<br/>`, then a link: two lines, the text and the
   * `{@link X Y}` reference.
   */
  lemma BreakThenLink(pre: string, h: string, y: string)
    requires forall i :: 0 <= i < |pre| ==> pre[i] != '<'
    requires forall i :: 0 <= i < |y| ==> y[i] != '<'
    requires '"' !in h && '>' !in h
    ensures Sanitize(pre + ("<" + "br/" + ">" + ("<a href=\"" + h + "\">" + y + "</a>" + "")))
         == Ok(DropTrailingBlank(DropLeadingBlank([Collapse(pre), Collapse(LinkOpen + h + " " + y + LinkClose)])))
  {
    var x := LinkOpen + h + " " + y + LinkClose;
    BreakThenLinkPieces(pre, h, y);
    LinesAfterText(pre, Texts(x));
    LinesOfText(x);
    assert Lines(Texts(pre) + ([Break] + Texts(x))) == [pre] + [x];
    assert CollapseAll([pre] + [x]) == [Collapse(pre), Collapse(x)];
  }
}
