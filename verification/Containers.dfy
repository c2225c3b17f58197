/** The container-text index of `maker_gate.py` and the anchoring of a quote. */
module Containers {
  import opened Text

  // The spans of the elements of a page in its shown text nest like the elements, so a place in the text has one
  // innermost requirement unit; `comment_anchor.py` anchors a quote there.

  /** A page as the browser sees it: siblings in order.  Void and self-closing elements are nodes without a body. */
  datatype Dom =
    | Nil
    | Words(text: string, next: Dom)
    | Node(tag: string, classes: set<string>, isUnit: bool, body: Dom, next: Dom)

  /** An element's stretch of the shown text. */
  datatype Container = Container(tag: string, classes: set<string>, start: nat, end: nat, depth: nat, isUnit: bool)

  predicate IsHidden(tag: string) {
    tag == "script" || tag == "style"
  }

  /** The concatenated text nodes, scripts and styles left out. */
  function Shown(d: Dom): string {
    match d
    case Nil => ""
    case Words(text, next) => text + Shown(next)
    case Node(tag, _, _, body, next) => (if IsHidden(tag) then "" else Shown(body)) + Shown(next)
  }

  /** The containers of siblings whose text starts at `pos`, inner ones before outer ones. */
  function Spans(d: Dom, pos: nat, depth: nat): seq<Container> {
    match d
    case Nil => []
    case Words(text, next) => Spans(next, pos + |text|, depth)
    case Node(tag, classes, isUnit, body, next) =>
      if IsHidden(tag) then Spans(next, pos, depth)
      else
        var end := pos + |Shown(body)|;
        Spans(body, pos, depth + 1) + [Container(tag, classes, pos, end, depth + 1, isUnit)] + Spans(next, end, depth)
  }

  // ----- building the index -----

  class TextIndexer {
    var pos: nat
    var text: string
    var containers: seq<Container>

    constructor ()
      ensures pos == 0 && text == "" && containers == []
    {
      pos, text, containers := 0, "", [];
    }

    method Walk(d: Dom, depth: nat)
      requires pos == |text|
      modifies this
      ensures pos == |text|
      ensures text == old(text) + Shown(d)
      ensures containers == old(containers) + Spans(d, old(pos), depth)
      decreases d
    {
      hide IsHidden;
      match d {
        case Nil =>
          assert text + "" == text && containers + [] == containers;
        case Words(words, next) =>
          text, pos := text + words, pos + |words|;
          Assoc(old(text), words, Shown(next));
          Walk(next, depth);
        case Node(tag, classes, isUnit, body, next) =>
          if IsHidden(tag) {
            Walk(next, depth);
            assert "" + Shown(next) == Shown(next);
          } else {
            var start := pos;
            Walk(body, depth + 1);
            var c := Container(tag, classes, start, pos, depth + 1, isUnit);
            containers := containers + [c];
            Walk(next, depth);
            Assoc(old(text), Shown(body), Shown(next));
            Assoc(old(containers), Spans(body, start, depth + 1), [c]);
            Assoc(old(containers), Spans(body, start, depth + 1) + [c], Spans(next, start + |Shown(body)|, depth));
          }
      }
    }
  }

  /** The first element, depth first, with this class. */
  function FindClass(d: Dom, c: string): Option<Dom> {
    match d
    case Nil => None
    case Words(_, next) => FindClass(next, c)
    case Node(_, classes, _, body, next) =>
      if c in classes then Some(d)
      else if FindClass(body, c).Some? then FindClass(body, c)
      else FindClass(next, c)
  }

  /** What the index covers: the content of the first `.rr-document` element, or the whole page. */
  function Scope(d: Dom): Dom {
    var root := FindClass(d, "rr-document");
    if root.Some? && root.value.Node? then root.value.body else d
  }

  /** The elements of a page in document order: an element before what it holds. */
  ghost function InDocumentOrder(d: Dom): (es: seq<Dom>)
    ensures forall e :: e in es ==> e.Node?
  {
    match d
    case Nil => []
    case Words(_, next) => InDocumentOrder(next)
    case Node(_, _, _, body, next) => [d] + InDocumentOrder(body) + InDocumentOrder(next)
  }

  /** Element `k` of the list is the first one with the class. */
  ghost predicate IsFirstWith(es: seq<Dom>, c: string, k: nat)
    requires forall e :: e in es ==> e.Node?
  {
    k < |es| && c in es[k].classes && forall j :: 0 <= j < k ==> c !in es[j].classes
  }

  lemma {:induction false} FirstInFront(a: seq<Dom>, b: seq<Dom>, c: string, k: nat)
    requires forall e :: e in a + b ==> e.Node?
    requires forall e :: e in a ==> e.Node?
    requires IsFirstWith(a, c, k)
    ensures IsFirstWith(a + b, c, k) && (a + b)[k] == a[k]
  {
  }

  lemma {:induction false} FirstBehind(a: seq<Dom>, b: seq<Dom>, c: string, k: nat)
    requires forall e :: e in a + b ==> e.Node?
    requires forall e :: e in b ==> e.Node?
    requires (forall e :: e in a ==> e.Node? && c !in e.classes) && IsFirstWith(b, c, k)
    ensures IsFirstWith(a + b, c, |a| + k) && (a + b)[|a| + k] == b[k]
  {
    forall j | 0 <= j < |a| ensures (a + b)[j] in a { }
  }

  lemma {:induction false} FindClassIs(d: Dom, c: string)
    ensures FindClass(d, c) == None <==> forall e :: e in InDocumentOrder(d) ==> c !in e.classes
    ensures FindClass(d, c).Some? ==>
      exists k: nat :: IsFirstWith(InDocumentOrder(d), c, k) && FindClass(d, c) == Some(InDocumentOrder(d)[k])
  {
    hide IsFirstWith;
    match d
    case Nil =>
    case Words(_, next) => FindClassIs(next, c);
    case Node(_, classes, _, body, next) =>
      FindClassIs(body, c);
      FindClassIs(next, c);
      FindClassHere(d, c);
  }

  lemma {:induction false} FindClassHere(d: Dom, c: string)
    requires d.Node?
    requires FindClass(d.body, c) == None <==> forall e :: e in InDocumentOrder(d.body) ==> c !in e.classes
    requires FindClass(d.next, c) == None <==> forall e :: e in InDocumentOrder(d.next) ==> c !in e.classes
    requires FindClass(d.body, c).Some? ==>
      exists k: nat :: IsFirstWith(InDocumentOrder(d.body), c, k)
                       && FindClass(d.body, c) == Some(InDocumentOrder(d.body)[k])
    requires FindClass(d.next, c).Some? ==>
      exists k: nat :: IsFirstWith(InDocumentOrder(d.next), c, k)
                       && FindClass(d.next, c) == Some(InDocumentOrder(d.next)[k])
    ensures FindClass(d, c) == None <==> forall e :: e in InDocumentOrder(d) ==> c !in e.classes
    ensures FindClass(d, c).Some? ==>
      exists k: nat :: IsFirstWith(InDocumentOrder(d), c, k) && FindClass(d, c) == Some(InDocumentOrder(d)[k])
  {
    var es, a, b := InDocumentOrder(d), InDocumentOrder(d.body), InDocumentOrder(d.next);
    assert es == [d] + a + b;
    assert forall e :: e in es <==> e == d || e in a || e in b;
    if c in d.classes {
      assert es[0] == d;
      assert IsFirstWith(es, c, 0);
    } else if FindClass(d.body, c).Some? {
      var k: nat :| IsFirstWith(a, c, k) && FindClass(d.body, c) == Some(a[k]);
      FirstBehind([d], a, c, k);
      FirstInFront([d] + a, b, c, k + 1);
    } else if FindClass(d.next, c).Some? {
      var k: nat :| IsFirstWith(b, c, k) && FindClass(d.next, c) == Some(b[k]);
      FirstBehind([d] + a, b, c, k);
    }
  }

  /** What the index covers: the content of the first element in document order that is an `.rr-document`, or the
      whole page when there is none. */
  ghost predicate IsScope(page: Dom, scope: Dom) {
    var es := InDocumentOrder(page);
    || (exists k: nat :: IsFirstWith(es, "rr-document", k) && scope == es[k].body)
    || (scope == page && forall e :: e in es ==> "rr-document" !in e.classes)
  }

  lemma {:induction false} ScopeIs(page: Dom)
    ensures IsScope(page, Scope(page))
  {
    FindClassIs(page, "rr-document");
  }

  method ContainerTextIndex(d: Dom) returns (text: string, containers: seq<Container>)
    ensures text == Shown(Scope(d)) && containers == Spans(Scope(d), 0, 0) && IsScope(d, Scope(d))
  {
    ScopeIs(d);
    var indexer := new TextIndexer();
    indexer.Walk(Scope(d), 0);
    text, containers := indexer.text, indexer.containers;
    assert "" + text == text && [] + containers == containers;
  }

  // ----- the spans form a laminar family -----

  predicate Inside(a: Container, b: Container) {
    b.start <= a.start && a.end <= b.end && a.depth > b.depth
  }

  /** Of two containers, `a` listed first: apart, `a` before `b`, or `a` deeper inside `b`. */
  ghost predicate Ordered(a: Container, b: Container) {
    a.end <= b.start || Inside(a, b)
  }

  ghost predicate Laminar(cs: seq<Container>) {
    && (forall k :: 0 <= k < |cs| ==> cs[k].start <= cs[k].end)
    && forall i, j :: 0 <= i < j < |cs| ==> Ordered(cs[i], cs[j])
  }

  ghost predicate Within(cs: seq<Container>, lo: nat, hi: nat, depth: nat) {
    forall k :: 0 <= k < |cs| ==> lo <= cs[k].start <= cs[k].end <= hi && cs[k].depth > depth
  }

  lemma {:induction false} LaminarNode(a: seq<Container>, c: Container, b: seq<Container>)
    requires Laminar(a) && Within(a, c.start, c.end, c.depth) && c.start <= c.end
    requires Laminar(b) && forall k :: 0 <= k < |b| ==> c.end <= b[k].start
    ensures Laminar(a + [c] + b)
  {
    hide Inside;
    var cs := a + [c] + b;
    forall i, j | 0 <= i < j < |cs| ensures Ordered(cs[i], cs[j]) {
      if j < |a| {
        assert Ordered(a[i], a[j]);
      } else if i > |a| {
        assert Ordered(b[i - |a| - 1], b[j - |a| - 1]);
      } else if j == |a| {
        InsideNode(a, c, i);
      }
    }
  }

  lemma {:induction false} InsideNode(a: seq<Container>, c: Container, i: nat)
    requires i < |a| && Within(a, c.start, c.end, c.depth)
    ensures Inside(a[i], c)
  {
  }

  lemma {:induction false} WithinNode(a: seq<Container>, c: Container, b: seq<Container>, lo: nat, mid: nat, hi: nat,
                                      depth: nat)
    requires Within(a, lo, mid, depth + 1) && Within(b, mid, hi, depth) && lo <= mid <= hi
    requires c.start == lo && c.end == mid && c.depth == depth + 1
    ensures Within(a + [c] + b, lo, hi, depth)
  {
  }

  lemma {:induction false} WithinWider(a: seq<Container>, lo: nat, hi: nat, depth: nat, lo': nat)
    requires Within(a, lo, hi, depth) && lo' <= lo
    ensures Within(a, lo', hi, depth)
  {
  }

  /** The containers of a page are pairwise apart or nested, deeper ones inside; each lies in the shown text. */
  lemma {:induction false} SpansAreLaminar(d: Dom, pos: nat, depth: nat)
    ensures Laminar(Spans(d, pos, depth))
    ensures Within(Spans(d, pos, depth), pos, pos + |Shown(d)|, depth)
  {
    hide IsHidden, Laminar, Ordered, Inside;
    match d
    case Nil => NoSpans(pos, depth);
    case Words(text, next) =>
      SpansAreLaminar(next, pos + |text|, depth);
      WithinWider(Spans(next, pos + |text|, depth), pos + |text|, pos + |text| + |Shown(next)|, depth, pos);
    case Node(tag, classes, isUnit, body, next) =>
      if IsHidden(tag) {
        SpansAreLaminar(next, pos, depth);
      } else {
        var end := pos + |Shown(body)|;
        var c := Container(tag, classes, pos, end, depth + 1, isUnit);
        SpansAreLaminar(body, pos, depth + 1);
        SpansAreLaminar(next, end, depth);
        LaminarNode(Spans(body, pos, depth + 1), c, Spans(next, end, depth));
        WithinNode(Spans(body, pos, depth + 1), c, Spans(next, end, depth), pos, end, end + |Shown(next)|, depth);
      }
  }

  lemma {:induction false} NoSpans(pos: nat, depth: nat)
    ensures Laminar([]) && Within([], pos, pos, depth)
  {
  }

  /** The shown elements of a page, in the order in which their containers are listed. */
  ghost function Elements(d: Dom): (es: seq<Dom>)
    ensures forall e :: e in es ==> e.Node?
  {
    match d
    case Nil => []
    case Words(_, next) => Elements(next)
    case Node(tag, _, _, body, next) =>
      if tag == "script" || tag == "style" then Elements(next) else Elements(body) + [d] + Elements(next)
  }

  /** The container is that of the element, and its slice of the text is what the element's own content shows. */
  ghost predicate Describes(c: Container, e: Dom, doc: string) {
    && e.Node? && c.tag == e.tag && c.classes == e.classes && c.isUnit == e.isUnit
    && TextOf(doc, c) == Shown(e.body)
  }

  ghost predicate DescribesAll(cs: seq<Container>, es: seq<Dom>, doc: string) {
    |cs| == |es| && forall k :: 0 <= k < |cs| ==> Describes(cs[k], es[k], doc)
  }

  lemma {:induction false} DescribesAppend(a: seq<Container>, x: seq<Dom>, b: seq<Container>, y: seq<Dom>, doc: string)
    requires DescribesAll(a, x, doc) && DescribesAll(b, y, doc)
    ensures DescribesAll(a + b, x + y, doc)
  {
    hide Describes;
    forall k | 0 <= k < |a + b| ensures Describes((a + b)[k], (x + y)[k], doc) {
      assert k >= |a| ==> Describes(b[k - |a|], y[k - |a|], doc);
    }
  }

  /** Every container of siblings that stand in the text holds exactly the text its own element shows. */
  lemma {:induction false} SpansHoldText(d: Dom, pos: nat, depth: nat, doc: string)
    requires Occurs(doc, Shown(d), pos)
    ensures DescribesAll(Spans(d, pos, depth), Elements(d), doc)
  {
    hide Occurs, Describes;
    match d
    case Nil =>
    case Words(text, next) =>
      OccursPair(doc, text, Shown(next), pos);
      SpansHoldText(next, pos + |text|, depth, doc);
    case Node(tag, classes, isUnit, body, next) =>
      if IsHidden(tag) {
        assert "" + Shown(next) == Shown(next);
        SpansHoldText(next, pos, depth, doc);
      } else {
        var end := pos + |Shown(body)|;
        var c := Container(tag, classes, pos, end, depth + 1, isUnit);
        OccursPair(doc, Shown(body), Shown(next), pos);
        SpansHoldText(body, pos, depth + 1, doc);
        SpansHoldText(next, end, depth, doc);
        OwnText(c, d, doc);
        DescribesAppend(Spans(body, pos, depth + 1), Elements(body), [c], [d], doc);
        DescribesAppend(Spans(body, pos, depth + 1) + [c], Elements(body) + [d], Spans(next, end, depth),
            Elements(next), doc);
      }
  }

  lemma {:induction false} OwnText(c: Container, e: Dom, doc: string)
    requires e.Node? && c.tag == e.tag && c.classes == e.classes && c.isUnit == e.isUnit
    requires Occurs(doc, Shown(e.body), c.start) && c.end == c.start + |Shown(e.body)|
    ensures Describes(c, e, doc)
  {
  }

  /** The index lists every shown element of the page, and each container's slice is what its element shows. */
  lemma {:induction false} IndexHoldsText(page: Dom)
    ensures DescribesAll(Spans(Scope(page), 0, 0), Elements(Scope(page)), Shown(Scope(page)))
  {
    var d := Scope(page);
    assert Shown(d)[0..|Shown(d)|] == Shown(d);
    SpansHoldText(d, 0, 0, Shown(d));
  }

  function TextOf(doc: string, c: Container): string {
    Cut(doc, c.start, c.end)
  }

  // ----- the innermost unit -----

  predicate Covers(c: Container, offset: nat) {
    c.isUnit && c.start <= offset < c.end
  }

  /** `k` is the innermost unit at `offset`: every other unit there is shallower and contains it. */
  ghost predicate IsUnitAt(cs: seq<Container>, offset: nat, k: nat) {
    && k < |cs| && cs[k].isUnit && cs[k].start <= offset < cs[k].end
    && forall j :: 0 <= j < |cs| && j != k && Covers(cs[j], offset) ==> Inside(cs[k], cs[j])
  }

  ghost predicate OutsideUnits(cs: seq<Container>, offset: nat) {
    forall k :: 0 <= k < |cs| && cs[k].isUnit ==> offset < cs[k].start || cs[k].end <= offset
  }

  /** The index of the innermost unit covering the offset, or -1. */
  method UnitAt(cs: seq<Container>, offset: nat) returns (best: int)
    requires Laminar(cs)
    ensures best == -1 <==> OutsideUnits(cs, offset)
    ensures best != -1 ==> best >= 0 && IsUnitAt(cs, offset, best)
  {
    best := -1;
    for k := 0 to |cs|
      invariant -1 <= best < k
      invariant best == -1 ==> forall j :: 0 <= j < k ==> !Covers(cs[j], offset)
      invariant best != -1 ==> Covers(cs[best], offset)
      invariant best != -1 ==> forall j :: 0 <= j < k && Covers(cs[j], offset) ==> cs[j].depth <= cs[best].depth
    {
      if Covers(cs[k], offset) {
        if best == -1 || cs[k].depth > cs[best].depth {
          best := k;
        }
      }
    }
    if best != -1 { DeepestIsInnermost(cs, offset, best); }
  }

  lemma {:induction false} DeepestIsInnermost(cs: seq<Container>, offset: nat, best: nat)
    requires Laminar(cs) && best < |cs| && Covers(cs[best], offset)
    requires forall j :: 0 <= j < |cs| && Covers(cs[j], offset) ==> cs[j].depth <= cs[best].depth
    ensures IsUnitAt(cs, offset, best)
  {
    forall j | 0 <= j < |cs| && j != best && Covers(cs[j], offset) ensures Inside(cs[best], cs[j]) {
      var first, second := if j < best then j else best, if j < best then best else j;
      assert Ordered(cs[first], cs[second]);
    }
  }

  lemma {:induction false} UnitAtIsUnique(cs: seq<Container>, offset: nat, j: nat, k: nat)
    requires IsUnitAt(cs, offset, j) && IsUnitAt(cs, offset, k)
    ensures j == k
  {
  }

  // ----- anchoring a quote -----

  datatype Miss = NotOnPage | Decoration | CrossBoundary | NoAnchorLabel

  datatype RenderAnchor = RenderAnchor(placed: bool, ref: Option<string>, inUnit: bool, miss: Option<Miss>)

  /** A quote first found at `offset` occurs in the text of a unit covering that place exactly when it ends inside
      the unit: an occurrence elsewhere in the unit would start later still. */
  lemma {:induction false} InTextIffInSpan(doc: string, c: Container, quote: string, offset: nat)
    requires c.start <= offset < c.end <= |doc| && Find(doc, quote, 0) == offset
    ensures Find(TextOf(doc, c), quote, 0) != -1 <==> offset + |quote| <= c.end
  {
    var t := TextOf(doc, c);
    if offset + |quote| <= c.end {
      OccursInSlice(doc, quote, c.start, c.end, offset);
    }
    var i := Find(t, quote, 0);
    if i != -1 {
      OccursInSlice(doc, quote, c.start, c.end, c.start + i);
    }
  }

  /** What anchoring answers for a quote first found at `offset`. */
  ghost predicate Resolved(ids: string -> set<string>, doc: string, cs: seq<Container>, quote: string, offset: nat,
                           r: RenderAnchor) {
    if OutsideUnits(cs, offset) then r == RenderAnchor(true, None, false, Some(Decoration))
    else exists k: nat :: IsUnitAt(cs, offset, k) && r == InUnit(ids, doc, cs[k], quote, offset)
  }

  /** The answer for a quote whose place lies in this innermost unit: by where the quote ends and how many ids the
      unit shows. */
  ghost function InUnit(ids: string -> set<string>, doc: string, unit: Container, quote: string,
                        offset: nat): RenderAnchor {
    var shown := ids(TextOf(doc, unit));
    if offset + |quote| > unit.end then RenderAnchor(true, None, true, Some(CrossBoundary))
    else if shown == {} then RenderAnchor(true, None, true, Some(NoAnchorLabel))
    else if Only(shown).Some? then RenderAnchor(true, Only(shown), true, None)
    else RenderAnchor(true, None, true, Some(CrossBoundary))
  }

  method ResolveRenderAnchor(ids: string -> set<string>, page: Dom, quote: string) returns (r: RenderAnchor)
    ensures var doc, cs := Shown(Scope(page)), Spans(Scope(page), 0, 0);
      var offset := Find(doc, quote, 0);
      if quote == "" || offset == -1 then r == RenderAnchor(false, None, false, Some(NotOnPage))
      else Resolved(ids, doc, cs, quote, offset, r)
  {
    if quote == "" { return RenderAnchor(false, None, false, Some(NotOnPage)); }
    var doc, cs := ContainerTextIndex(page);
    SpansAreLaminar(Scope(page), 0, 0);
    r := ResolveIn(ids, doc, cs, quote);
  }

  method ResolveIn(ids: string -> set<string>, doc: string, cs: seq<Container>, quote: string) returns (r: RenderAnchor)
    requires Laminar(cs) && Within(cs, 0, |doc|, 0)
    ensures var offset := Find(doc, quote, 0);
      if offset == -1 then r == RenderAnchor(false, None, false, Some(NotOnPage))
      else Resolved(ids, doc, cs, quote, offset, r)
  {
    var offset := Find(doc, quote, 0);
    if offset < 0 { return RenderAnchor(false, None, false, Some(NotOnPage)); }
    var at := UnitAt(cs, offset);
    if at == -1 { return RenderAnchor(true, None, false, Some(Decoration)); }
    r := InThisUnit(ids, doc, cs[at], quote, offset);
  }

  method InThisUnit(ids: string -> set<string>, doc: string, unit: Container, quote: string, offset: nat)
    returns (r: RenderAnchor)
    requires unit.start <= offset < unit.end <= |doc| && Find(doc, quote, 0) == offset
    ensures r == InUnit(ids, doc, unit, quote, offset)
  {
    hide Occurs, Cut;
    InTextIffInSpan(doc, unit, quote, offset);
    if Find(TextOf(doc, unit), quote, 0) == -1 { return RenderAnchor(true, None, true, Some(CrossBoundary)); }
    var shown := ids(TextOf(doc, unit));
    if |shown| == 1 { return RenderAnchor(true, Only(shown), true, None); }
    if |shown| == 0 { return RenderAnchor(true, None, true, Some(NoAnchorLabel)); }
    return RenderAnchor(true, None, true, Some(CrossBoundary));
  }

  /** A ref is given exactly when the first occurrence of the quote lies wholly inside the innermost unit at its
      start and that unit shows exactly this id. */
  lemma {:induction false} RefExactly(ids: string -> set<string>, doc: string, cs: seq<Container>, quote: string,
                                      offset: nat, r: RenderAnchor, ref: string)
    requires Resolved(ids, doc, cs, quote, offset, r)
    ensures r.ref == Some(ref)
      <==> exists k: nat :: IsUnitAt(cs, offset, k) && offset + |quote| <= cs[k].end && ids(TextOf(doc, cs[k])) == {ref}
  {
    hide TextOf;
    if k: nat :| IsUnitAt(cs, offset, k) && r == InUnit(ids, doc, cs[k], quote, offset) {
      forall j: nat | IsUnitAt(cs, offset, j) ensures j == k { UnitAtIsUnique(cs, offset, j, k); }
    }
  }

  /** The other answers, for a quote that is on the page: decoration outside every unit, no label when the innermost
      unit shows no id, and a crossed boundary when the quote runs past that unit or it shows several. */
  lemma {:induction false} MissExactly(ids: string -> set<string>, doc: string, cs: seq<Container>, quote: string,
                                       offset: nat, r: RenderAnchor, k: nat)
    requires Resolved(ids, doc, cs, quote, offset, r)
    ensures r.placed && (r.miss == Some(Decoration) <==> OutsideUnits(cs, offset))
    ensures r.inUnit <==> !OutsideUnits(cs, offset)
    ensures r.miss == None <==> r.ref.Some?
    ensures IsUnitAt(cs, offset, k) ==>
      var shown := ids(TextOf(doc, cs[k]));
      && (r.miss == Some(CrossBoundary) <==> offset + |quote| > cs[k].end || |shown| > 1)
      && (r.miss == Some(NoAnchorLabel) <==> offset + |quote| <= cs[k].end && shown == {})
  {
    hide TextOf;
    if j: nat :| IsUnitAt(cs, offset, j) && r == InUnit(ids, doc, cs[j], quote, offset) {
      if IsUnitAt(cs, offset, k) { UnitAtIsUnique(cs, offset, j, k); }
      ManyIffNotOnly(ids(TextOf(doc, cs[j])));
    }
  }

  lemma {:induction false} ManyIffNotOnly(s: set<string>)
    ensures |s| > 1 <==> s != {} && Only(s) == None
  {
    if |s| == 1 { OneElement(s); }
    if Only(s).Some? { assert s == {Only(s).value}; }
  }

  // ----- survival -----

  /** Some occurrence of the quote starts in a unit whose text shows the ref. */
  ghost predicate PlacesInOwner(ids: string -> set<string>, doc: string, cs: seq<Container>, quote: string,
                                ref: string) {
    exists at: nat, k: nat :: Occurs(doc, quote, at) && IsUnitAt(cs, at, k) && ref in ids(TextOf(doc, cs[k]))
  }

  method PlacesInOwnerScan(ids: string -> set<string>, doc: string, cs: seq<Container>, quote: string, ref: string)
    returns (places: bool)
    requires Laminar(cs)
    ensures places <==> PlacesInOwner(ids, doc, cs, quote, ref)
  {
    hide Occurs, TextOf, Laminar;
    var start: nat := 0;
    while true
      invariant start <= |doc| + 1
      invariant forall at: nat, k: nat :: at < start && Occurs(doc, quote, at) && IsUnitAt(cs, at, k)
                  ==> ref !in ids(TextOf(doc, cs[k]))
      decreases |doc| + 1 - start
    {
      var at := Find(doc, quote, start);
      if at == -1 { return false; }
      OccurrenceStarts(doc, quote, at);
      var unit := UnitAt(cs, at);
      if unit != -1 && ref in ids(TextOf(doc, cs[unit])) { return true; }
      forall k: nat | IsUnitAt(cs, at, k) ensures ref !in ids(TextOf(doc, cs[k])) {
        if unit != -1 { UnitAtIsUnique(cs, at, unit, k); }
      }
      start := at + 1;
    }
  }

  lemma {:induction false} OccurrenceStarts(doc: string, quote: string, at: nat)
    requires Occurs(doc, quote, at)
    ensures at <= |doc|
  {
  }

  /** A comment anchored to a ref survives on the page it was anchored on. */
  lemma {:induction false} AnchoredSurvives(ids: string -> set<string>, doc: string, cs: seq<Container>, quote: string,
                                            offset: nat, r: RenderAnchor, ref: string)
    requires Find(doc, quote, 0) == offset && Resolved(ids, doc, cs, quote, offset, r) && r.ref == Some(ref)
    ensures PlacesInOwner(ids, doc, cs, quote, ref)
  {
    hide TextOf, Resolved;
    RefExactly(ids, doc, cs, quote, offset, r, ref);
  }
}
