/**
 * Two comments from the deprecated-objects baseline, sanitised to the
 * exact lines the generated documentation shows: a newline inside a line
 * of text is whitespace like any other, while `<br/>` starts a new line.
 */
module CommentExamples {
  import opened Wrappers
  import opened Strings
  import opened Comments

  lemma ExampleWords()
    ensures IsWord("Names") && IsWord("are") && IsWord("great!")
    ensures IsWord("{@link") && IsWord("X") && IsWord("Y}")
  {
  }

  /** The words of three words separated by single spaces, then whitespace and a tail. */
  lemma ThreeWords(a: string, b: string, c: string, g: string, t: string)
    requires IsWord(a) && IsWord(b) && IsWord(c)
    requires g != [] && forall i :: 0 <= i < |g| ==> IsSpace(g[i])
    ensures Words(a + " " + (b + " " + (c + g + t))) == [a, b, c] + Words(t)
  {
    WordsOfGap(c, g, t);
    WordsOfPair(b, c + g + t);
    WordsOfPair(a, b + " " + (c + g + t));
  }

  /** A single-space join of six words. */
  lemma JoinSix(a: string, b: string, c: string, d: string, e: string, f: string)
    ensures Join([a, b, c, d, e, f], " ")
         == a + " " + (b + " " + (c + " " + (d + " " + (e + " " + f))))
  {
    assert [a, b, c, d, e, f][1..] == [b, c, d, e, f];
    assert [b, c, d, e, f][1..] == [c, d, e, f];
    assert [c, d, e, f][1..] == [d, e, f];
    assert [d, e, f][1..] == [e, f];
    assert [e, f][1..] == [f];
    assert Join([e, f], " ") == e + " " + f;
    assert Join([d, e, f], " ") == d + " " + (e + " " + f);
    assert Join([c, d, e, f], " ") == c + " " + (d + " " + (e + " " + f));
    assert Join([b, c, d, e, f], " ") == b + " " + (c + " " + (d + " " + (e + " " + f)));
  }

  lemma JoinThree(a: string, b: string, c: string)
    ensures Join([a, b, c], " ") == a + " " + (b + " " + c)
  {
    assert [a, b, c][1..] == [b, c];
    assert [b, c][1..] == [c];
    assert Join([b, c], " ") == b + " " + c;
  }

  lemma LinkWords()
    ensures Words(LinkOpen + "X" + " " + "Y" + LinkClose) == ["{@link", "X", "Y}"]
  {
    ExampleWords();
    assert LinkOpen + "X" + " " + "Y" + LinkClose == "{@link" + " " + ("X" + " " + "Y}");
    WordsOfWord("Y}");
    WordsOfPair("X", "Y}");
    WordsOfPair("{@link", "X" + " " + "Y}");
  }

  lemma NamesWords(link: string)
    ensures "Names are great!\n " + link == "Names" + " " + ("are" + " " + ("great!" + "\n " + link))
    ensures "Names" + " " + ("are" + " " + ("great!" + " " + ("{@link" + " " + ("X" + " " + "Y}"))))
         == "Names are great! {@link X Y}"
  {
  }

  /** The text and link of `names`, collapsed onto one line. */
  lemma NamesLine()
    ensures Collapse("Names are great!\n " + (LinkOpen + "X" + " " + "Y" + LinkClose))
         == "Names are great! {@link X Y}"
  {
    var link := LinkOpen + "X" + " " + "Y" + LinkClose;
    NamesWords(link);
    ExampleWords();
    ThreeWords("Names", "are", "great!", "\n ", link);
    LinkWords();
    assert ["Names", "are", "great!"] + ["{@link", "X", "Y}"] == ["Names", "are", "great!", "{@link", "X", "Y}"];
    JoinSix("Names", "are", "great!", "{@link", "X", "Y}");
  }

  /** `names`: the newline before the link is whitespace, so the link joins the line. */
  lemma NamesComment()
    ensures Sanitize("Names are great!\n <a href=\"X\">Y</a>") == Ok(["Names are great! {@link X Y}"])
  {
    var pre := "Names are great!\n ";
    assert "Names are great!\n <a href=\"X\">Y</a>" == pre + ("<a href=\"" + "X" + "\">" + "Y" + "</a>" + "");
    LinkAfterText(pre, "X", "Y");
    NamesLine();
  }

  /** Three words, then trailing whitespace, collapse to the words on one line. */
  lemma TextLine(a: string, b: string, c: string, g: string)
    requires IsWord(a) && IsWord(b) && IsWord(c)
    requires g != [] && forall i :: 0 <= i < |g| ==> IsSpace(g[i])
    ensures Collapse(a + " " + (b + " " + (c + g))) == a + " " + (b + " " + c)
  {
    assert c + g == c + g + "";
    ThreeWords(a, b, c, g, "");
    assert Words("") == [];
    assert [a, b, c] + [] == [a, b, c];
    JoinThree(a, b, c);
  }

  /** The text of `names2`, ending in the newline before `<br/>`. */
  const Names2Text: string := "Names are great!\n"

  lemma Names2Words()
    ensures Names2Text == "Names" + " " + ("are" + " " + ("great!" + "\n"))
    ensures "Names" + " " + ("are" + " " + "great!") == "Names are great!"
  {
  }

  /** The text of `names2` collapses to itself without the newline. */
  lemma Names2TextLine()
    ensures Collapse(Names2Text) == "Names are great!"
  {
    ExampleWords();
    Names2Words();
    TextLine("Names", "are", "great!", "\n");
  }

  /** The link of `names2`, on its own line. */
  lemma Names2Link()
    ensures Collapse(LinkOpen + "X" + " " + "Y" + LinkClose) == "{@link X Y}"
  {
    LinkWords();
    JoinThree("{@link", "X", "Y}");
    assert "{@link" + " " + ("X" + " " + "Y}") == "{@link X Y}";
  }

  lemma Names2Input()
    ensures "Names are great!\n<br/><a href=\"X\">Y</a>"
         == Names2Text + ("<" + "br/" + ">" + ("<a href=\"" + "X" + "\">" + "Y" + "</a>" + ""))
    ensures forall i :: 0 <= i < |Names2Text| ==> Names2Text[i] != '<'
  {
  }

  /** `names2`: `<br/>` after the text puts the link on a line of its own. */
  lemma Names2Comment()
    ensures Sanitize("Names are great!\n<br/><a href=\"X\">Y</a>") == Ok(["Names are great!", "{@link X Y}"])
  {
    Names2Input();
    BreakThenLink(Names2Text, "X", "Y");
    Names2TextLine();
    Names2Link();
  }
}
