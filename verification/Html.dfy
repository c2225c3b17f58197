/** A rendered page as tokens, and as the trees they come from. */
module Html {
  import opened Text

  // The tokens are those the HTML tokenizer reports.  Which elements are requirement units follows `maker_gate.py`.

  const VOID_TAGS: set<string> :=
    {"meta", "br", "img", "hr", "input", "link", "source", "area", "base", "col", "wbr"}
  const UNIT_TAGS: set<string> := {"li", "section", "article"}
  const UNIT_DIV_CLASSES: set<string> := {"user-story", "rr-unit", "req-unit"}

  predicate EndsWith(s: string, e: string) {
    |e| <= |s| && s[|s| - |e|..] == e
  }

  /** The landmark rule: which elements open a requirement unit. */
  predicate IsUnitTag(tag: string, classes: set<string>) {
    || tag in UNIT_TAGS
    || ((tag == "div" || tag == "aside")
        && (classes * UNIT_DIV_CLASSES != {} || exists c :: c in classes && EndsWith(c, "-unit")))
  }

  /** What the tokenizer reports, each token with its source text.  Void and self-closing elements, character
      data, comments and declarations open and close nothing: they are `Other`. */
  datatype Token =
    | Open(tag: string, isUnit: bool, text: string)
    | Close(tag: string, text: string)
    | Other(text: string)

  /** The token of a start tag as the tokenizer reads it. */
  function StartTag(tag: string, classes: set<string>, selfClosing: bool, text: string): Token {
    if selfClosing || tag in VOID_TAGS then Other(text) else Open(tag, IsUnitTag(tag, classes), text)
  }

  /** Well-nested markup, as siblings in order. */
  datatype Html =
    | End
    | Leaf(raw: string, next: Html)
    | Element(tag: string, isUnit: bool, openText: string, closeText: string, body: Html, next: Html)

  /** A close tag ends at its first `>`. */
  predicate IsCloseText(t: string) {
    t != "" && t[|t| - 1] == '>' && '>' !in t[..|t| - 1]
  }

  /** Every close tag is one. */
  predicate WellFormed(h: Html) {
    match h
    case End => true
    case Leaf(_, next) => WellFormed(next)
    case Element(_, _, _, closeText, body, next) => IsCloseText(closeText) && WellFormed(body) && WellFormed(next)
  }

  /** The source text. */
  function Source(h: Html): string {
    match h
    case End => ""
    case Leaf(raw, next) => raw + Source(next)
    case Element(_, _, openText, closeText, body, next) => openText + Source(body) + closeText + Source(next)
  }

  /** The tokens of well-nested markup. */
  function Tokens(h: Html): seq<Token> {
    match h
    case End => []
    case Leaf(raw, next) => [Other(raw)] + Tokens(next)
    case Element(tag, isUnit, openText, closeText, body, next) =>
      [Open(tag, isUnit, openText)] + Tokens(body) + [Close(tag, closeText)] + Tokens(next)
  }

  function TokenText(tokens: seq<Token>): string {
    if tokens == [] then "" else tokens[0].text + TokenText(tokens[1..])
  }

  lemma {:induction false} TokenTextAppend(a: seq<Token>, b: seq<Token>)
    ensures TokenText(a + b) == TokenText(a) + TokenText(b)
  {
    if a == [] {
      assert a + b == b;
    } else {
      assert (a + b)[1..] == a[1..] + b;
      TokenTextAppend(a[1..], b);
      Assoc(a[0].text, TokenText(a[1..]), TokenText(b));
    }
  }

  lemma {:induction false} TokenTextCons(k: Token, b: seq<Token>)
    ensures TokenText([k] + b) == k.text + TokenText(b)
  {
    assert ([k] + b)[1..] == b;
  }

  lemma {:induction false} TokensSpellSource(h: Html)
    ensures TokenText(Tokens(h)) == Source(h)
  {
    match h
    case End =>
    case Leaf(raw, next) =>
      TokensSpellSource(next);
      TokenTextCons(Other(raw), Tokens(next));
    case Element(tag, isUnit, openText, closeText, body, next) =>
      TokensSpellSource(body);
      TokensSpellSource(next);
      var o, b, c, n := [Open(tag, isUnit, openText)], Tokens(body), [Close(tag, closeText)], Tokens(next);
      TokenTextAppend(o + b + c, n);
      TokenTextAppend(o + b, c);
      TokenTextCons(o[0], b);
      TokenTextCons(c[0], []);
      assert c + [] == c;
  }

  /** Siblings put after siblings. */
  function Append(a: Html, b: Html): Html {
    match a
    case End => b
    case Leaf(raw, next) => Leaf(raw, Append(next, b))
    case Element(tag, isUnit, openText, closeText, body, next) =>
      Element(tag, isUnit, openText, closeText, body, Append(next, b))
  }

  lemma {:induction false} SourceAppend(a: Html, b: Html)
    ensures Source(Append(a, b)) == Source(a) + Source(b)
  {
    match a
    case End =>
    case Leaf(raw, next) =>
      SourceAppend(next, b);
      Assoc(raw, Source(next), Source(b));
    case Element(_, _, openText, closeText, body, next) =>
      SourceAppend(next, b);
      Assoc(openText + Source(body) + closeText, Source(next), Source(b));
  }

  lemma {:induction false} AppendWellFormed(a: Html, b: Html)
    requires WellFormed(a) && WellFormed(b)
    ensures WellFormed(Append(a, b))
  {
    match a
    case End =>
    case Leaf(_, next) => AppendWellFormed(next, b);
    case Element(_, _, _, _, _, next) => AppendWellFormed(next, b);
  }
}
