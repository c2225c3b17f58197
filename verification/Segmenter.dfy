/**
The segmenter of `block_splice.py`: a stack machine over tokens that finds the source spans of the
outermost requirement units of a page.
*/
module Segmenter {
  import opened Text
  import opened Html

  datatype Segment = Segment(html: string, ref: Option<string>, start: nat, end: nat)

  /** An open element on the stack. */
  datatype Entry = Entry(tag: string, start: nat, isUnit: bool)

  datatype Scan = Scan(stack: seq<Entry>, unitDepth: int, pending: Option<nat>, segments: seq<Segment>)

  const START := Scan([], 0, None, [])

  /** The ref of a unit: the id it shows when it shows exactly one.  `ids` gives the ids in a text. */
  function RefIn(ids: string -> set<string>, html: string): Option<string> {
    Only(ids(html))
  }

  function UnitsIn(stack: seq<Entry>): nat {
    if stack == [] then 0 else UnitsIn(stack[..|stack| - 1]) + (if stack[|stack| - 1].isUnit then 1 else 0)
  }

  lemma {:induction false} UnitsStep(stack: seq<Entry>, k: nat)
    requires k < |stack|
    ensures UnitsIn(stack[..0]) == 0
    ensures UnitsIn(stack[..k + 1]) == UnitsIn(stack[..k]) + if stack[k].isUnit then 1 else 0
  {
    assert stack[..k + 1][..k] == stack[..k];
  }

  lemma {:induction false} UnitsInAppend(a: seq<Entry>, b: seq<Entry>)
    ensures UnitsIn(a + b) == UnitsIn(a) + UnitsIn(b)
  {
    if b == [] {
      assert a + b == a;
    } else {
      assert (a + b)[..|a + b| - 1] == a + b[..|b| - 1];
      UnitsInAppend(a, b[..|b| - 1]);
    }
  }

  /** The topmost stack entry with this tag, or -1. */
  function Matching(stack: seq<Entry>, tag: string): (i: int)
    ensures -1 <= i < |stack|
    ensures i >= 0 ==> stack[i].tag == tag
    ensures forall k :: i < k < |stack| ==> stack[k].tag != tag
  {
    if stack == [] then -1
    else if stack[|stack| - 1].tag == tag then |stack| - 1
    else Matching(stack[..|stack| - 1], tag)
  }

  /** Where a close tag that starts at `pos` ends. */
  function CloseEnd(html: string, pos: nat): nat {
    var gt := Find(html, ">", pos);
    if gt != -1 then gt + 1 else |html|
  }

  function OnOpen(s: Scan, tag: string, isUnit: bool, pos: nat): Scan {
    Scan(s.stack + [Entry(tag, pos, isUnit)],
         if isUnit then s.unitDepth + 1 else s.unitDepth,
         if isUnit && s.unitDepth == 0 then Some(pos) else s.pending,
         s.segments)
  }

  function SegmentAt(ids: string -> set<string>, html: string, start: nat, end: nat): Segment {
    Segment(Cut(html, start, end), RefIn(ids, Cut(html, start, end)), start, end)
  }

  function OnClose(ids: string -> set<string>, html: string, s: Scan, tag: string, pos: nat): Scan {
    var i := Matching(s.stack, tag);
    if i < 0 then s
    else
      var depth := s.unitDepth - UnitsIn(s.stack[i..]);
      if depth == 0 && s.pending.Some? then
        Scan(s.stack[..i], depth, None, s.segments + [SegmentAt(ids, html, s.pending.value, CloseEnd(html, pos))])
      else Scan(s.stack[..i], depth, s.pending, s.segments)
  }

  function OnToken(ids: string -> set<string>, html: string, s: Scan, t: Token, pos: nat): Scan {
    match t
    case Open(tag, isUnit, _) => OnOpen(s, tag, isUnit, pos)
    case Close(tag, _) => OnClose(ids, html, s, tag, pos)
    case Other(_) => s
  }

  /** The machine over the tokens that start at `pos`. */
  function Run(ids: string -> set<string>, html: string, tokens: seq<Token>, pos: nat, s: Scan): Scan {
    if tokens == [] then s
    else Run(ids, html, tokens[1..], pos + |tokens[0].text|, OnToken(ids, html, s, tokens[0], pos))
  }

  lemma {:induction false} RunAppend(ids: string -> set<string>, html: string, a: seq<Token>, b: seq<Token>, pos: nat,
                                     s: Scan)
    ensures Run(ids, html, a + b, pos, s) == Run(ids, html, b, pos + |TokenText(a)|, Run(ids, html, a, pos, s))
  {
    if a == [] {
      assert a + b == b;
    } else {
      assert (a + b)[1..] == a[1..] + b;
      RunAppend(ids, html, a[1..], b, pos + |a[0].text|, OnToken(ids, html, s, a[0], pos));
    }
  }

  // ----- the units of a well-nested page -----

  /** The outermost units of well-nested markup whose source starts at `pos`. */
  function Units(ids: string -> set<string>, h: Html, pos: nat): seq<Segment> {
    match h
    case End => []
    case Leaf(raw, next) => Units(ids, next, pos + |raw|)
    case Element(tag, isUnit, openText, closeText, body, next) =>
      var html := openText + Source(body) + closeText;
      (if isUnit then [Segment(html, RefIn(ids, html), pos, pos + |html|)]
       else Units(ids, body, pos + |openText|))
      + Units(ids, next, pos + |html|)
  }

  /** The scan counts the open units right and waits for an outermost unit exactly while one is open. */
  predicate Balanced(s: Scan) {
    s.unitDepth == UnitsIn(s.stack) && (s.pending.Some? <==> s.unitDepth > 0)
  }

  function With(s: Scan, found: seq<Segment>): Scan {
    Scan(s.stack, s.unitDepth, s.pending, s.segments + found)
  }

  lemma {:induction false} CloseTextEnds(html: string, t: string, pos: nat)
    requires IsCloseText(t) && Occurs(html, t, pos)
    ensures CloseEnd(html, pos) == pos + |t|
  {
    var gt := pos + |t| - 1;
    OccursChar(html, '>', gt);
    assert html[gt] == html[pos..pos + |t|][|t| - 1];
    forall j | pos <= j < gt ensures !Occurs(html, ">", j) {
      OccursChar(html, '>', j);
      assert html[j] == t[..|t| - 1][j - pos];
    }
    FindIs(html, ">", pos, gt);
  }

  lemma {:induction false} OpenKeepsBalance(s: Scan, tag: string, isUnit: bool, pos: nat)
    requires Balanced(s)
    ensures Balanced(OnOpen(s, tag, isUnit, pos))
    ensures OnOpen(s, tag, isUnit, pos).unitDepth == s.unitDepth + if isUnit then 1 else 0
  {
    var e := Entry(tag, pos, isUnit);
    assert (s.stack + [e])[..|s.stack|] == s.stack;
  }

  lemma {:induction false} CloseKeepsBalance(ids: string -> set<string>, html: string, s: Scan, tag: string, pos: nat)
    requires Balanced(s)
    ensures Balanced(OnClose(ids, html, s, tag, pos))
  {
    var i := Matching(s.stack, tag);
    if i >= 0 {
      TakeDrop(s.stack, i);
      UnitsInAppend(s.stack[..i], s.stack[i..]);
    }
  }

  lemma {:induction false} TopMatches(stack: seq<Entry>, e: Entry)
    ensures var more := stack + [e];
      && Matching(more, e.tag) == |stack| && more[..|stack|] == stack
      && UnitsIn(more[|stack|..]) == if e.isUnit then 1 else 0
  {
    CutAt(stack + [e], stack, [e]);
    assert [e][..0] == [];
  }

  /** Opening an element and closing it again, with nothing left open between. */
  lemma {:induction false} OpenThenClose(ids: string -> set<string>, html: string, s: Scan, tag: string,
                                         isUnit: bool, pos: nat, found: seq<Segment>, closeAt: nat, end: nat)
    requires Balanced(s) && end == CloseEnd(html, closeAt)
    ensures var o := OnOpen(s, tag, isUnit, pos);
      OnClose(ids, html, With(o, found), tag, closeAt)
      == if isUnit && s.unitDepth == 0
         then With(s, found + [SegmentAt(ids, html, pos, end)])
         else With(s, found)
  {
    hide Matching, UnitsIn, SegmentAt, CloseEnd;
    TopMatches(s.stack, Entry(tag, pos, isUnit));
    Assoc(s.segments, found, [SegmentAt(ids, html, pos, end)]);
  }

  lemma {:induction false} WithKeepsBalance(s: Scan, found: seq<Segment>)
    requires Balanced(s)
    ensures Balanced(With(s, found)) && With(s, found).unitDepth == s.unitDepth
  {
  }

  lemma {:induction false} WithNothing(s: Scan)
    ensures With(s, []) == s
  {
    assert s.segments + [] == s.segments;
  }

  /** The tokens of one element. */
  function ElementTokens(tag: string, isUnit: bool, openText: string, b: seq<Token>, closeText: string): seq<Token> {
    [Open(tag, isUnit, openText)] + b + [Close(tag, closeText)]
  }

  lemma {:induction false} RunElement(ids: string -> set<string>, html: string, tag: string, isUnit: bool,
                                      openText: string, b: seq<Token>, closeText: string, pos: nat, s: Scan)
    ensures Run(ids, html, ElementTokens(tag, isUnit, openText, b, closeText), pos, s)
      == OnClose(ids, html, Run(ids, html, b, pos + |openText|, OnOpen(s, tag, isUnit, pos)), tag,
                 pos + |openText| + |TokenText(b)|)
  {
    var open, close := Open(tag, isUnit, openText), Close(tag, closeText);
    Assoc([open], b, [close]);
    RunCons(ids, html, open, b + [close], pos, s);
    var o := OnOpen(s, tag, isUnit, pos);
    RunAppend(ids, html, b, [close], pos + |openText|, o);
    assert [close] + [] == [close];
    RunCons(ids, html, close, [], pos + |openText| + |TokenText(b)|, Run(ids, html, b, pos + |openText|, o));
  }

  lemma {:induction false} ElementTokensSpell(tag: string, isUnit: bool, openText: string, b: seq<Token>,
                                              closeText: string)
    ensures TokenText(ElementTokens(tag, isUnit, openText, b, closeText)) == openText + TokenText(b) + closeText
  {
    var open, close := Open(tag, isUnit, openText), Close(tag, closeText);
    Assoc([open], b, [close]);
    TokenTextCons(open, b + [close]);
    TokenTextAppend(b, [close]);
    assert [close] + [] == [close];
    TokenTextCons(close, []);
    Assoc(openText, TokenText(b), closeText);
  }

  /** Inside a unit the machine reports nothing. */
  lemma {:induction false} RunInsideUnit(ids: string -> set<string>, html: string, h: Html, pos: nat, s: Scan)
    requires Balanced(s) && s.unitDepth > 0
    ensures Run(ids, html, Tokens(h), pos, s) == s
    decreases h
  {
    hide OnClose, OnOpen, UnitsIn, Matching, CloseEnd;
    match h
    case End =>
    case Leaf(raw, next) =>
      RunInsideUnit(ids, html, next, pos + |raw|, s);
      RunCons(ids, html, Other(raw), Tokens(next), pos, s);
    case Element(tag, isUnit, openText, closeText, body, next) =>
      OpenKeepsBalance(s, tag, isUnit, pos);
      RunInsideUnit(ids, html, body, pos + |openText|, OnOpen(s, tag, isUnit, pos));
      InsideClose(ids, html, s, tag, isUnit, openText, Tokens(body), closeText, pos);
      var e := ElementTokens(tag, isUnit, openText, Tokens(body), closeText);
      RunInsideUnit(ids, html, next, pos + |TokenText(e)|, s);
      RunAppend(ids, html, e, Tokens(next), pos, s);
  }

  lemma {:induction false} InsideClose(ids: string -> set<string>, html: string, s: Scan, tag: string, isUnit: bool,
                                       openText: string, b: seq<Token>, closeText: string, pos: nat)
    requires Balanced(s) && s.unitDepth > 0
    requires Run(ids, html, b, pos + |openText|, OnOpen(s, tag, isUnit, pos)) == OnOpen(s, tag, isUnit, pos)
    ensures Run(ids, html, ElementTokens(tag, isUnit, openText, b, closeText), pos, s) == s
  {
    RunElement(ids, html, tag, isUnit, openText, b, closeText, pos, s);
    var closeAt := pos + |openText| + |TokenText(b)|;
    OpenThenClose(ids, html, s, tag, isUnit, pos, [], closeAt, CloseEnd(html, closeAt));
    WithNothing(s);
    WithNothing(OnOpen(s, tag, isUnit, pos));
  }

  /** On well-nested markup outside any unit the machine finds the outermost units and leaves the rest of
      its state alone. */
  lemma {:induction false} RunFindsUnits(ids: string -> set<string>, html: string, h: Html, pos: nat, s: Scan)
    requires WellFormed(h) && Occurs(html, Source(h), pos) && Balanced(s) && s.unitDepth == 0
    ensures Run(ids, html, Tokens(h), pos, s) == With(s, Units(ids, h, pos))
    decreases h, 0
  {
    hide Run, OnOpen, OnClose, Occurs, TokenText, Balanced, Units, OwnUnits, With, ElementTokens;
    UnitsAre(ids, h, pos);
    match h
    case End =>
      WithNothing(s);
      RunNothing(ids, html, pos, s);
    case Leaf(raw, next) =>
      OccursPair(html, raw, Source(next), pos);
      RunFindsUnits(ids, html, next, pos + |raw|, s);
      RunOther(ids, html, raw, Tokens(next), pos, s);
    case Element(tag, isUnit, openText, closeText, body, next) =>
      var unit := openText + Source(body) + closeText;
      OccursPair(html, unit, Source(next), pos);
      var own := OwnUnits(ids, tag, isUnit, openText, closeText, body, pos);
      RunOwn(ids, html, tag, isUnit, openText, closeText, body, pos, s);
      WithKeepsBalance(s, own);
      var e := ElementTokens(tag, isUnit, openText, Tokens(body), closeText);
      RunFindsUnits(ids, html, next, pos + |unit|, With(s, own));
      TokensSpellSource(body);
      ElementTokensSpell(tag, isUnit, openText, Tokens(body), closeText);
      RunAppend(ids, html, e, Tokens(next), pos, s);
      WithBoth(s, own, Units(ids, next, pos + |unit|));
      TokensOf(h);
  }

  lemma {:induction false} UnitsAre(ids: string -> set<string>, h: Html, pos: nat)
    ensures Units(ids, h, pos) == match h
      case End => []
      case Leaf(raw, next) => Units(ids, next, pos + |raw|)
      case Element(tag, isUnit, openText, closeText, body, next) =>
        OwnUnits(ids, tag, isUnit, openText, closeText, body, pos)
        + Units(ids, next, pos + |openText + Source(body) + closeText|)
  {
  }

  lemma {:induction false} TokensOf(h: Html)
    requires h.Element?
    ensures Tokens(h) == ElementTokens(h.tag, h.isUnit, h.openText, Tokens(h.body), h.closeText) + Tokens(h.next)
  {
  }

  lemma {:induction false} WithBoth(s: Scan, a: seq<Segment>, b: seq<Segment>)
    ensures With(With(s, a), b) == With(s, a + b)
  {
    Assoc(s.segments, a, b);
  }

  lemma {:induction false} RunNothing(ids: string -> set<string>, html: string, pos: nat, s: Scan)
    ensures Run(ids, html, [], pos, s) == s
  {
  }

  lemma {:induction false} RunOther(ids: string -> set<string>, html: string, raw: string, rest: seq<Token>, pos: nat,
                                    s: Scan)
    ensures Run(ids, html, [Other(raw)] + rest, pos, s) == Run(ids, html, rest, pos + |raw|, s)
  {
    RunCons(ids, html, Other(raw), rest, pos, s);
  }

  lemma {:induction false} RunOwn(ids: string -> set<string>, html: string, tag: string, isUnit: bool, openText: string,
                                  closeText: string, body: Html, pos: nat, s: Scan)
    requires WellFormed(body) && IsCloseText(closeText)
    requires Occurs(html, openText + Source(body) + closeText, pos)
    requires Balanced(s) && s.unitDepth == 0
    ensures Run(ids, html, ElementTokens(tag, isUnit, openText, Tokens(body), closeText), pos, s)
      == With(s, OwnUnits(ids, tag, isUnit, openText, closeText, body, pos))
    decreases body, 2
  {
    hide OnClose, OnOpen, UnitsIn, Matching, CloseEnd;
    TokensSpellSource(body);
    RunElement(ids, html, tag, isUnit, openText, Tokens(body), closeText, pos, s);
    if isUnit {
      OpenKeepsBalance(s, tag, true, pos);
      RunInsideUnit(ids, html, body, pos + |openText|, OnOpen(s, tag, true, pos));
      UnitClose(ids, html, s, tag, pos, openText + Source(body) + closeText, closeText);
    } else {
      RunWrapper(ids, html, tag, openText, closeText, body, pos, s);
    }
  }

  lemma {:induction false} RunWrapper(ids: string -> set<string>, html: string, tag: string, openText: string,
                                      closeText: string, body: Html, pos: nat, s: Scan)
    requires WellFormed(body) && Balanced(s) && s.unitDepth == 0
    requires Occurs(html, openText + Source(body) + closeText, pos)
    ensures OnClose(ids, html, Run(ids, html, Tokens(body), pos + |openText|, OnOpen(s, tag, false, pos)), tag,
                    pos + |openText| + |Source(body)|)
      == With(s, Units(ids, body, pos + |openText|))
    decreases body, 1
  {
    hide OnClose, UnitsIn, Matching, CloseEnd;
    var bodyAt := pos + |openText|;
    OccursParts(html, openText, Source(body), closeText, pos);
    OpenKeepsBalance(s, tag, false, pos);
    RunFindsUnits(ids, html, body, bodyAt, OnOpen(s, tag, false, pos));
    var closeAt := bodyAt + |Source(body)|;
    OpenThenClose(ids, html, s, tag, false, pos, Units(ids, body, bodyAt), closeAt, CloseEnd(html, closeAt));
  }

  lemma {:induction false} UnitClose(ids: string -> set<string>, html: string, s: Scan, tag: string,
                                     pos: nat, unit: string, closeText: string)
    requires Balanced(s) && s.unitDepth == 0 && Occurs(html, unit, pos)
    requires IsCloseText(closeText) && |closeText| <= |unit| && unit[|unit| - |closeText|..] == closeText
    ensures OnClose(ids, html, OnOpen(s, tag, true, pos), tag, pos + |unit| - |closeText|)
      == With(s, [Segment(unit, RefIn(ids, unit), pos, pos + |unit|)])
  {
    hide OnClose, OnOpen, UnitsIn, Matching, CloseEnd;
    var closeAt, end := pos + |unit| - |closeText|, pos + |unit|;
    OccursTrans(html, unit, closeText, pos, |unit| - |closeText|);
    CloseTextEnds(html, closeText, closeAt);
    CutOccurs(html, unit, pos);
    OpenThenClose(ids, html, s, tag, true, pos, [], closeAt, end);
    WithNothing(OnOpen(s, tag, true, pos));
  }

  /** What one element contributes. */
  function OwnUnits(ids: string -> set<string>, tag: string, isUnit: bool, openText: string,
                    closeText: string, body: Html, pos: nat): seq<Segment> {
    var html := openText + Source(body) + closeText;
    if isUnit then [Segment(html, RefIn(ids, html), pos, pos + |html|)]
    else Units(ids, body, pos + |openText|)
  }

  lemma {:induction false} RunCons(ids: string -> set<string>, html: string, t: Token, rest: seq<Token>, pos: nat,
                                   s: Scan)
    ensures Run(ids, html, [t] + rest, pos, s) == Run(ids, html, rest, pos + |t.text|, OnToken(ids, html, s, t, pos))
  {
    assert ([t] + rest)[1..] == rest;
  }

  lemma {:induction false} CutOccurs(html: string, t: string, pos: nat)
    requires Occurs(html, t, pos)
    ensures Cut(html, pos, pos + |t|) == t
  {
  }

  function Segments(ids: string -> set<string>, html: string, tokens: seq<Token>): seq<Segment> {
    Run(ids, html, tokens, 0, START).segments
  }

  /** On a well-nested page the segments are the outermost units. */
  lemma {:induction false} SegmentsAreUnits(ids: string -> set<string>, h: Html)
    requires WellFormed(h)
    ensures Segments(ids, Source(h), Tokens(h)) == Units(ids, h, 0)
  {
    var html := Source(h);
    assert html[0..0 + |html|] == html;
    RunFindsUnits(ids, html, h, 0, START);
    assert START.segments + Units(ids, h, 0) == Units(ids, h, 0);
  }

  // ----- any page, well nested or not -----

  /** `tokens` are tokens of `html` from `pos` on. */
  ghost predicate Spells(html: string, tokens: seq<Token>, pos: nat) {
    && Occurs(html, TokenText(tokens), pos) && pos + |TokenText(tokens)| == |html|
    && forall t :: t in tokens && t.Close? ==> IsCloseText(t.text)
  }

  /** Segments in order, each a non-empty stretch of the page that starts where the one before has ended. */
  ghost predicate InOrder(ids: string -> set<string>, html: string, segs: seq<Segment>, end: nat) {
    && (forall k :: 0 <= k < |segs| ==>
         segs[k].start <= segs[k].end <= end && segs[k] == SegmentAt(ids, html, segs[k].start, segs[k].end))
    && forall j, k :: 0 <= j < k < |segs| ==> segs[j].end <= segs[k].start
  }

  /** What the machine keeps on every page. */
  ghost predicate Sound(ids: string -> set<string>, html: string, s: Scan, pos: nat) {
    && InOrder(ids, html, s.segments, if s.pending.Some? then s.pending.value else pos)
    && (s.pending.Some? ==> s.pending.value <= pos)
  }

  lemma {:induction false} InOrderLater(ids: string -> set<string>, html: string, segs: seq<Segment>, end: nat,
                                        later: nat)
    requires InOrder(ids, html, segs, end) && end <= later
    ensures InOrder(ids, html, segs, later)
  {
  }

  lemma {:induction false} InOrderGrows(ids: string -> set<string>, html: string, segs: seq<Segment>, start: nat,
                                        end: nat)
    requires InOrder(ids, html, segs, start) && start <= end
    ensures InOrder(ids, html, segs + [SegmentAt(ids, html, start, end)], end)
  {
  }

  lemma {:induction false} TokenKeepsSound(ids: string -> set<string>, html: string, s: Scan, t: Token, pos: nat)
    requires Sound(ids, html, s, pos) && Occurs(html, t.text, pos)
    requires t.Close? ==> IsCloseText(t.text)
    ensures Sound(ids, html, OnToken(ids, html, s, t, pos), pos + |t.text|)
  {
    var later := pos + |t.text|;
    match t
    case Open(tag, isUnit, _) =>
      if s.pending.None? { InOrderLater(ids, html, s.segments, pos, later); }
    case Close(tag, _) =>
      CloseTextEnds(html, t.text, pos);
      CloseKeepsOrder(ids, html, s, tag, pos, later);
    case Other(_) =>
      if s.pending.None? { InOrderLater(ids, html, s.segments, pos, later); }
  }

  lemma {:induction false} CloseKeepsOrder(ids: string -> set<string>, html: string, s: Scan, tag: string, pos: nat,
                                           later: nat)
    requires Sound(ids, html, s, pos) && pos <= later == CloseEnd(html, pos)
    ensures var c := OnClose(ids, html, s, tag, pos);
      && InOrder(ids, html, c.segments, if c.pending.Some? then c.pending.value else later)
      && (c.pending.Some? ==> c.pending.value <= later)
  {
    if s.pending.Some? {
      InOrderGrows(ids, html, s.segments, s.pending.value, later);
    } else {
      InOrderLater(ids, html, s.segments, pos, later);
    }
  }

  lemma {:induction false} SpellsTail(html: string, tokens: seq<Token>, pos: nat)
    requires Spells(html, tokens, pos) && tokens != []
    ensures Occurs(html, tokens[0].text, pos) && Spells(html, tokens[1..], pos + |tokens[0].text|)
    ensures tokens[0].Close? ==> IsCloseText(tokens[0].text)
  {
    OccursPair(html, tokens[0].text, TokenText(tokens[1..]), pos);
    assert tokens[0] in tokens && forall t :: t in tokens[1..] ==> t in tokens;
  }

  lemma {:induction false} RunKeepsSound(ids: string -> set<string>, html: string, tokens: seq<Token>, pos: nat,
                                         s: Scan)
    requires Spells(html, tokens, pos) && Sound(ids, html, s, pos)
    ensures Sound(ids, html, Run(ids, html, tokens, pos, s), |html|)
  {
    if tokens != [] {
      SpellsTail(html, tokens, pos);
      TokenKeepsSound(ids, html, s, tokens[0], pos);
      RunKeepsSound(ids, html, tokens[1..], pos + |tokens[0].text|, OnToken(ids, html, s, tokens[0], pos));
    }
  }

  /** Whatever the nesting, the count of open units is right and a unit is pending exactly while one is open. */
  lemma {:induction false} RunKeepsBalance(ids: string -> set<string>, html: string, tokens: seq<Token>, pos: nat,
                                           s: Scan)
    requires Balanced(s)
    ensures Balanced(Run(ids, html, tokens, pos, s))
  {
    if tokens != [] {
      match tokens[0] {
        case Open(tag, isUnit, _) => OpenKeepsBalance(s, tag, isUnit, pos);
        case Close(tag, _) => CloseKeepsBalance(ids, html, s, tag, pos);
        case Other(_) =>
      }
      RunKeepsBalance(ids, html, tokens[1..], pos + |tokens[0].text|, OnToken(ids, html, s, tokens[0], pos));
    }
  }

  /** Whatever the nesting, the segments are disjoint stretches of the page, in order. */
  lemma {:induction false} SegmentsInOrder(ids: string -> set<string>, html: string, tokens: seq<Token>)
    requires Spells(html, tokens, 0)
    ensures InOrder(ids, html, Segments(ids, html, tokens), |html|)
  {
    RunKeepsSound(ids, html, tokens, 0, START);
    var s := Run(ids, html, tokens, 0, START);
    if s.pending.Some? { InOrderLater(ids, html, s.segments, s.pending.value, |html|); }
  }

  // ----- the parser object -----

  class UnitSpanParser {
    const html: string
    const ids: string -> set<string>
    var stack: seq<Entry>
    var unitDepth: int
    var pendingUnitStart: Option<nat>
    var segments: seq<Segment>

    ghost function Contents(): Scan
      reads this
    {
      Scan(stack, unitDepth, pendingUnitStart, segments)
    }

    constructor (html: string, ids: string -> set<string>)
      ensures this.html == html && this.ids == ids && Contents() == START
    {
      this.html, this.ids := html, ids;
      stack, unitDepth, pendingUnitStart, segments := [], 0, None, [];
    }

    method HandleStartTag(tag: string, isUnit: bool, start: nat)
      modifies this
      ensures Contents() == OnOpen(old(Contents()), tag, isUnit, start)
    {
      if isUnit && unitDepth == 0 {
        pendingUnitStart := Some(start);
      }
      stack := stack + [Entry(tag, start, isUnit)];
      if isUnit {
        unitDepth := unitDepth + 1;
      }
    }

    /** Pops to the matching open tag, over elements that were never closed. */
    method HandleEndTag(tag: string, pos: nat)
      modifies this
      ensures Contents() == OnClose(ids, html, old(Contents()), tag, pos)
    {
      hide RefIn, Cut, Find, UnitsIn;
      var i := |stack| - 1;
      while i >= 0 && stack[i].tag != tag
        invariant -1 <= i < |stack|
        invariant forall k :: i < k < |stack| ==> stack[k].tag != tag
      {
        i := i - 1;
      }
      MatchingIs(stack, tag, i);
      if i < 0 { return; }
      var closed := stack[i..];
      UnitsStep(closed, 0);
      stack := stack[..i];
      var gt := Find(html, ">", pos);
      var end: nat := if gt != -1 then gt + 1 else |html|;
      for k := 0 to |closed|
        invariant unitDepth == old(unitDepth) - UnitsIn(closed[..k])
        invariant stack == old(stack)[..i] && pendingUnitStart == old(pendingUnitStart) && segments == old(segments)
      {
        UnitsStep(closed, k);
        if closed[k].isUnit {
          unitDepth := unitDepth - 1;
        }
      }
      assert closed[..|closed|] == closed;
      if unitDepth == 0 && pendingUnitStart.Some? {
        var segHtml := Cut(html, pendingUnitStart.value, end);
        segments := segments + [Segment(segHtml, RefIn(ids, segHtml), pendingUnitStart.value, end)];
        pendingUnitStart := None;
      }
    }
  }

  lemma {:induction false} MatchingIs(stack: seq<Entry>, tag: string, i: int)
    requires -1 <= i < |stack|
    requires i >= 0 ==> stack[i].tag == tag
    requires forall k :: i < k < |stack| ==> stack[k].tag != tag
    ensures Matching(stack, tag) == i
  {
  }

  /** Every top-level unit segment of a page, in document order. */
  method SegmentUnits(ids: string -> set<string>, html: string, tokens: seq<Token>) returns (segs: seq<Segment>)
    ensures segs == Segments(ids, html, tokens)
  {
    var parser := new UnitSpanParser(html, ids);
    var pos: nat := 0;
    for i := 0 to |tokens|
      invariant parser.html == html && parser.ids == ids
      invariant Run(ids, html, tokens, 0, START) == Run(ids, html, tokens[i..], pos, parser.Contents())
    {
      assert tokens[i..][1..] == tokens[i + 1..];
      match tokens[i] {
        case Open(tag, isUnit, _) => parser.HandleStartTag(tag, isUnit, pos);
        case Close(tag, _) => parser.HandleEndTag(tag, pos);
        case Other(_) =>
      }
      pos := pos + |tokens[i].text|;
    }
    segs := parser.segments;
  }
}
