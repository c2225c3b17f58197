/** The page assembled in update mode satisfies its own gate. */
module UpdateFidelity {
  import opened Text
  import opened Html
  import opened Segmenter
  import opened Sorting
  import opened BlockSplice

  // On a well-nested prior page the assembled page is again well nested, its units are the prior ones in order
  // with only the changed ones swapped, dropped or added, and so `maker_gate.check_update_fidelity` passes for
  // every ref that was not to change.

  // ----- the gate -----

  datatype Violation = Missing(ref: string) | Differs(ref: string)

  /** The text of the last of the first `n` units labelled `ref`: what a dict keyed by ref ends up with. */
  function LastWith(segs: seq<Segment>, ref: string, n: nat): Option<string>
    requires n <= |segs|
  {
    if n == 0 then None
    else if segs[n - 1].ref == Some(ref) then Some(segs[n - 1].html)
    else LastWith(segs, ref, n - 1)
  }

  /** A ref that the prior page labels a unit with must label a unit with the same bytes on the new page. */
  ghost predicate KeptAsIs(segs: seq<Segment>, prior: seq<Segment>, ref: string) {
    LastWith(prior, ref, |prior|).Some? ==> LastWith(segs, ref, |segs|) == LastWith(prior, ref, |prior|)
  }

  function Judge(segs: seq<Segment>, prior: seq<Segment>, ref: string): seq<Violation> {
    var was, now := LastWith(prior, ref, |prior|), LastWith(segs, ref, |segs|);
    if was.None? then [] else if now.None? then [Missing(ref)] else if now != was then [Differs(ref)] else []
  }

  method ByRef(segs: seq<Segment>) returns (byRef: map<string, string>)
    ensures forall r :: r in byRef <==> LastWith(segs, r, |segs|).Some?
    ensures forall r :: r in byRef ==> LastWith(segs, r, |segs|) == Some(byRef[r])
  {
    byRef := map[];
    for n := 0 to |segs|
      invariant forall r :: r in byRef <==> LastWith(segs, r, n).Some?
      invariant forall r :: r in byRef ==> LastWith(segs, r, n) == Some(byRef[r])
    {
      if segs[n].ref.Some? {
        byRef := byRef[segs[n].ref.value := segs[n].html];
      }
    }
  }

  method CheckUpdateFidelity(segs: seq<Segment>, prior: seq<Segment>, untouched: set<string>)
    returns (violations: seq<Violation>)
    ensures violations == [] <==> forall r :: r in untouched ==> KeptAsIs(segs, prior, r)
    ensures forall v :: v in violations <==> exists r :: r in untouched && v in Judge(segs, prior, r)
    ensures forall r :: Missing(r) in violations <==>
      r in untouched && (exists k :: IsLast(prior, r, k)) && forall k :: !IsLast(segs, r, k)
    ensures forall r :: Differs(r) in violations <==>
      r in untouched && exists k, m :: IsLast(prior, r, k) && IsLast(segs, r, m) && prior[k].html != segs[m].html
  {
    hide IsLast;
    var priorByRef := ByRef(prior);
    var newByRef := ByRef(segs);
    var order := Sort(untouched);
    violations := [];
    for n := 0 to |order|
      invariant violations == [] <==> forall k :: 0 <= k < n ==> KeptAsIs(segs, prior, order[k])
      invariant forall v :: v in violations <==> exists k :: 0 <= k < n && v in Judge(segs, prior, order[k])
    {
      var ref := order[n];
      ghost var before := violations;
      if ref in priorByRef {
        if ref !in newByRef {
          violations := violations + [Missing(ref)];
        } else if newByRef[ref] != priorByRef[ref] {
          violations := violations + [Differs(ref)];
        }
      }
      assert violations == before + Judge(segs, prior, ref);
      assert Judge(segs, prior, ref) == [] <==> KeptAsIs(segs, prior, ref);
    }
    Indexed(order, untouched);
    JudgedAre(segs, prior, untouched, violations);
  }

  lemma {:induction false} JudgedAre(segs: seq<Segment>, prior: seq<Segment>, untouched: set<string>,
                                     violations: seq<Violation>)
    requires forall v :: v in violations <==> exists r :: r in untouched && v in Judge(segs, prior, r)
    ensures forall r :: Missing(r) in violations <==>
      r in untouched && (exists k :: IsLast(prior, r, k)) && forall k :: !IsLast(segs, r, k)
    ensures forall r :: Differs(r) in violations <==>
      r in untouched && exists k, m :: IsLast(prior, r, k) && IsLast(segs, r, m) && prior[k].html != segs[m].html
  {
    hide Judge;
    forall r ensures Missing(r) in violations <==>
        r in untouched && (exists k :: IsLast(prior, r, k)) && forall k :: !IsLast(segs, r, k)
      ensures Differs(r) in violations <==>
        r in untouched && exists k, m :: IsLast(prior, r, k) && IsLast(segs, r, m) && prior[k].html != segs[m].html
    {
      JudgeIs(segs, prior, r);
    }
  }

  /** Unit `k` is the last one labelled with the ref. */
  ghost predicate IsLast(segs: seq<Segment>, ref: string, k: int) {
    0 <= k < |segs| && segs[k].ref == Some(ref) && forall m :: k < m < |segs| ==> segs[m].ref != Some(ref)
  }

  lemma {:induction false} JudgeIs(segs: seq<Segment>, prior: seq<Segment>, ref: string)
    ensures forall r :: r != ref ==> Missing(ref) !in Judge(segs, prior, r) && Differs(ref) !in Judge(segs, prior, r)
    ensures Missing(ref) in Judge(segs, prior, ref)
      <==> (exists k :: IsLast(prior, ref, k)) && forall k :: !IsLast(segs, ref, k)
    ensures Differs(ref) in Judge(segs, prior, ref)
      <==> exists k, m :: IsLast(prior, ref, k) && IsLast(segs, ref, m) && prior[k].html != segs[m].html
  {
    hide IsLast, LastWith;
    var k := LastUnit(prior, ref);
    var m := LastUnit(segs, ref);
    forall j | IsLast(prior, ref, j) ensures j == k { OneLast(prior, ref, j, k); }
    forall j | IsLast(segs, ref, j) ensures j == m { OneLast(segs, ref, j, m); }
  }

  lemma {:induction false} OneLast(segs: seq<Segment>, ref: string, j: int, k: int)
    requires IsLast(segs, ref, j)
    requires if k == -1 then forall i :: !IsLast(segs, ref, i) else IsLast(segs, ref, k)
    ensures j == k
  {
  }

  /** What the gate compares is the last unit. */
  lemma {:induction false} LastUnit(segs: seq<Segment>, ref: string) returns (k: int)
    ensures k == -1 ==> LastWith(segs, ref, |segs|) == None && forall i :: !IsLast(segs, ref, i)
    ensures k != -1 ==> IsLast(segs, ref, k) && LastWith(segs, ref, |segs|) == Some(segs[k].html)
  {
    k := LastAmong(segs, ref, |segs|);
  }

  lemma {:induction false} LastAmong(segs: seq<Segment>, ref: string, n: nat) returns (k: int)
    requires n <= |segs|
    ensures -1 <= k < n && forall m :: k < m < n ==> segs[m].ref != Some(ref)
    ensures LastWith(segs, ref, n) == if k == -1 then None else Some(segs[k].html)
    ensures k != -1 ==> segs[k].ref == Some(ref)
  {
    if n == 0 {
      k := -1;
    } else if segs[n - 1].ref == Some(ref) {
      k := n - 1;
    } else {
      k := LastAmong(segs, ref, n - 1);
    }
  }

  lemma {:induction false} Indexed(order: seq<string>, s: set<string>)
    requires Lists(order, s)
    ensures forall k :: 0 <= k < |order| ==> order[k] in s
    ensures forall r :: r in s ==> exists k :: 0 <= k < |order| && order[k] == r
  {
    forall k | 0 <= k < |order| ensures order[k] in s { assert order[k] in order; }
  }

  // ----- units as trees -----

  /** The outermost unit elements, each on its own. */
  function UnitTrees(h: Html): seq<Html> {
    match h
    case End => []
    case Leaf(_, next) => UnitTrees(next)
    case Element(tag, isUnit, openText, closeText, body, next) =>
      (if isUnit then [Element(tag, true, openText, closeText, body, End)] else UnitTrees(body)) + UnitTrees(next)
  }

  ghost predicate Labelled(ids: string -> set<string>, segs: seq<Segment>, trees: seq<Html>) {
    |segs| == |trees| && forall k :: 0 <= k < |segs| ==> IsSegmentOf(ids, segs[k], trees[k])
  }

  ghost predicate IsSegmentOf(ids: string -> set<string>, seg: Segment, tree: Html) {
    seg.html == Source(tree) && seg.ref == RefIn(ids, Source(tree))
  }

  lemma {:induction false} LabelledAppend(ids: string -> set<string>, a: seq<Segment>, b: seq<Segment>, x: seq<Html>,
                                          y: seq<Html>)
    requires Labelled(ids, a, x) && Labelled(ids, b, y)
    ensures Labelled(ids, a + b, x + y)
  {
  }

  /** Segments carry the source of the unit trees. */
  lemma {:induction false} UnitsAreTrees(ids: string -> set<string>, h: Html, pos: nat)
    ensures Labelled(ids, Units(ids, h, pos), UnitTrees(h))
  {
    hide Labelled;
    match h
    case End => NoneLabelled(ids);
    case Leaf(raw, next) => UnitsAreTrees(ids, next, pos + |raw|);
    case Element(tag, isUnit, openText, closeText, body, next) =>
      var html := openText + Source(body) + closeText;
      UnitsAreTrees(ids, next, pos + |html|);
      var own := OwnUnits(ids, tag, isUnit, openText, closeText, body, pos);
      if isUnit {
        OneLabelled(ids, own[0], Element(tag, true, openText, closeText, body, End));
      } else {
        UnitsAreTrees(ids, body, pos + |openText|);
      }
      LabelledAppend(ids, own, Units(ids, next, pos + |html|),
                     if isUnit then [Element(tag, true, openText, closeText, body, End)] else UnitTrees(body),
                     UnitTrees(next));
  }

  lemma {:induction false} NoneLabelled(ids: string -> set<string>)
    ensures Labelled(ids, [], [])
  {
  }

  lemma {:induction false} OneLabelled(ids: string -> set<string>, seg: Segment, tree: Html)
    requires tree.Element? && tree.next == End
    requires seg.html == tree.openText + Source(tree.body) + tree.closeText && seg.ref == RefIn(ids, seg.html)
    ensures Labelled(ids, [seg], [tree])
  {
    assert Source(tree) == tree.openText + Source(tree.body) + tree.closeText + "" == seg.html;
    assert IsSegmentOf(ids, [seg][0], [tree][0]);
  }

  lemma {:induction false} UnitTreesAppend(a: Html, b: Html)
    ensures UnitTrees(Append(a, b)) == UnitTrees(a) + UnitTrees(b)
  {
    match a
    case End =>
    case Leaf(_, next) => UnitTreesAppend(next, b);
    case Element(tag, isUnit, openText, closeText, body, next) =>
      UnitTreesAppend(next, b);
      Assoc(if isUnit then [Element(tag, true, openText, closeText, body, End)] else UnitTrees(body),
            UnitTrees(next), UnitTrees(b));
  }

  lemma {:induction false} UnitTreesAreUnits(h: Html)
    requires WellFormed(h)
    ensures forall t :: t in UnitTrees(h) ==> WellFormed(t) && UnitTrees(t) == [t]
  {
    match h
    case End =>
    case Leaf(_, next) => UnitTreesAreUnits(next);
    case Element(tag, isUnit, openText, closeText, body, next) =>
      UnitTreesAreUnits(next);
      if isUnit {
        var t := Element(tag, true, openText, closeText, body, End);
        assert [t] + UnitTrees(End) == [t];
      } else {
        UnitTreesAreUnits(body);
      }
  }

  // ----- replacing units in the tree -----

  function Count(h: Html): nat {
    match h
    case End => 0
    case Leaf(_, next) => Count(next)
    case Element(_, isUnit, _, _, body, next) => (if isUnit then 1 else Count(body)) + Count(next)
  }

  lemma {:induction false} CountIs(ids: string -> set<string>, h: Html, pos: nat)
    ensures |UnitTrees(h)| == |Units(ids, h, pos)| == Count(h)
  {
    match h
    case End =>
    case Leaf(raw, next) => CountIs(ids, next, pos + |raw|);
    case Element(_, isUnit, openText, closeText, body, next) =>
      CountIs(ids, body, pos + |openText|);
      CountIs(ids, next, pos + |openText + Source(body) + closeText|);
  }

  /** The markup with its outermost units, the `i`-th and those after it, replaced by `plan[i]` and so on. */
  function Replace(h: Html, plan: seq<Html>, i: nat): Html
    requires i + Count(h) <= |plan|
  {
    match h
    case End => End
    case Leaf(raw, next) => Leaf(raw, Replace(next, plan, i))
    case Element(tag, isUnit, openText, closeText, body, next) =>
      if isUnit then Append(plan[i], Replace(next, plan, i + 1))
      else Element(tag, false, openText, closeText, Replace(body, plan, i), Replace(next, plan, i + Count(body)))
  }

  ghost predicate AllWellFormed(plan: seq<Html>) {
    forall k :: 0 <= k < |plan| ==> WellFormed(plan[k])
  }

  lemma {:induction false} ReplaceWellFormed(h: Html, plan: seq<Html>, i: nat)
    requires i + Count(h) <= |plan| && WellFormed(h) && AllWellFormed(plan)
    ensures WellFormed(Replace(h, plan, i))
  {
    match h
    case End =>
    case Leaf(_, next) => ReplaceWellFormed(next, plan, i);
    case Element(_, isUnit, _, _, body, next) =>
      if isUnit {
        ReplaceWellFormed(next, plan, i + 1);
        AppendWellFormed(plan[i], Replace(next, plan, i + 1));
      } else {
        ReplaceWellFormed(body, plan, i);
        ReplaceWellFormed(next, plan, i + Count(body));
      }
  }

  /** The units of `plan[i..j]`, in order. */
  function UnitsOfPlan(plan: seq<Html>, i: nat, j: nat): seq<Html>
    requires i <= j <= |plan|
  {
    if i == j then [] else UnitsOfPlan(plan, i, j - 1) + UnitTrees(plan[j - 1])
  }

  lemma {:induction false} UnitsOfPlanSplit(plan: seq<Html>, i: nat, m: nat, j: nat)
    requires i <= m <= j <= |plan|
    ensures UnitsOfPlan(plan, i, j) == UnitsOfPlan(plan, i, m) + UnitsOfPlan(plan, m, j)
  {
    if m < j {
      UnitsOfPlanSplit(plan, i, m, j - 1);
      Assoc(UnitsOfPlan(plan, i, m), UnitsOfPlan(plan, m, j - 1), UnitTrees(plan[j - 1]));
    }
  }

  /** The units after replacing are those of the replacements, in order. */
  lemma {:induction false} ReplacedUnits(h: Html, plan: seq<Html>, i: nat)
    requires i + Count(h) <= |plan|
    ensures UnitTrees(Replace(h, plan, i)) == UnitsOfPlan(plan, i, i + Count(h))
  {
    hide UnitsOfPlan, UnitTrees, Replace;
    ReplacedIs(h, plan, i);
    match h
    case End => UnitsOfNone(plan, i);
    case Leaf(_, next) => ReplacedUnits(next, plan, i);
    case Element(_, isUnit, _, _, body, next) =>
      if isUnit {
        ReplacedUnits(next, plan, i + 1);
        UnitsOfPlanSplit(plan, i, i + 1, i + 1 + Count(next));
        UnitsOfOne(plan, i);
      } else {
        ReplacedUnits(body, plan, i);
        ReplacedUnits(next, plan, i + Count(body));
        UnitsOfPlanSplit(plan, i, i + Count(body), i + Count(body) + Count(next));
      }
  }

  lemma {:induction false} ReplacedIs(h: Html, plan: seq<Html>, i: nat)
    requires i + Count(h) <= |plan|
    ensures UnitTrees(Replace(h, plan, i)) == match h
      case End => []
      case Leaf(_, next) => UnitTrees(Replace(next, plan, i))
      case Element(_, isUnit, _, _, body, next) =>
        if isUnit then UnitTrees(plan[i]) + UnitTrees(Replace(next, plan, i + 1))
        else UnitTrees(Replace(body, plan, i)) + UnitTrees(Replace(next, plan, i + Count(body)))
  {
    hide Append;
    if h.Element? && h.isUnit { UnitTreesAppend(plan[i], Replace(h.next, plan, i + 1)); }
  }

  lemma {:induction false} UnitsOfNone(plan: seq<Html>, i: nat)
    requires i <= |plan|
    ensures UnitsOfPlan(plan, i, i) == []
  {
  }

  lemma {:induction false} UnitsOfOne(plan: seq<Html>, i: nat)
    requires i < |plan|
    ensures UnitsOfPlan(plan, i, i + 1) == UnitTrees(plan[i])
  {
  }

  // ----- the assembled text is the source of the replaced tree -----

  /** The segments from `i` on start with these. */
  ghost predicate Listed(segs: seq<Segment>, i: nat, units: seq<Segment>) {
    i + |units| <= |segs| && forall k :: 0 <= k < |units| ==> segs[i + k] == units[k]
  }

  lemma {:induction false} ListedSplit(segs: seq<Segment>, i: nat, a: seq<Segment>, b: seq<Segment>)
    requires Listed(segs, i, a + b)
    ensures Listed(segs, i, a) && Listed(segs, i + |a|, b)
  {
    forall k | 0 <= k < |b| ensures segs[i + |a| + k] == b[k] { assert (a + b)[|a| + k] == b[k]; }
    forall k | 0 <= k < |a| ensures segs[i + k] == a[k] { assert (a + b)[k] == a[k]; }
  }

  lemma {:induction false} FirstStart(ids: string -> set<string>, h: Html, pos: nat)
    ensures Units(ids, h, pos) != [] ==> pos <= Units(ids, h, pos)[0].start <= pos + |Source(h)|
  {
    match h
    case End =>
    case Leaf(raw, next) => FirstStart(ids, next, pos + |raw|);
    case Element(_, _, openText, closeText, body, next) =>
      FirstStart(ids, body, pos + |openText|);
      FirstStart(ids, next, pos + |openText + Source(body) + closeText|);
  }

  /** The assembler's output from `c` on, with the source of `plan[k]` in the place of segment `k`. */
  function Output(html: string, segs: seq<Segment>, plan: seq<Html>, i: nat, c: nat): string
    requires i <= |segs| == |plan|
    decreases |segs| - i
  {
    if i == |segs| then Cut(html, c, |html|)
    else Cut(html, c, segs[i].start) + Source(plan[i]) + Output(html, segs, plan, i + 1, segs[i].end)
  }

  lemma {:induction false} OutputIsAssembled(html: string, segs: seq<Segment>, place: seq<string>, plan: seq<Html>,
                                             i: nat, c: nat)
    requires i <= |segs| == |plan| == |place| && forall k :: 0 <= k < |plan| ==> place[k] == Source(plan[k])
    ensures Output(html, segs, plan, i, c) == Assembled(html, segs, place, i, c)
    decreases |segs| - i
  {
    hide Cut, Source;
    if i < |segs| { OutputIsAssembled(html, segs, place, plan, i + 1, segs[i].end); }
  }

  /** Where segment `i` starts; past the last one, the end of the page. */
  function StartOf(html: string, segs: seq<Segment>, i: nat): nat {
    if i < |segs| then segs[i].start else |html|
  }

  lemma {:induction false} CutCompose(t: string, a: nat, b: nat, c: nat)
    requires a <= b <= c
    ensures Cut(t, a, c) == Cut(t, a, b) + Cut(t, b, c)
  {
  }

  lemma {:induction false} CutNothing(t: string, a: nat)
    ensures Cut(t, a, a) == ""
  {
  }

  lemma {:induction false} SkipTo(html: string, segs: seq<Segment>, plan: seq<Html>, i: nat, c: nat, p: nat)
    requires i <= |segs| == |plan| && c <= p <= StartOf(html, segs, i)
    ensures Output(html, segs, plan, i, c) == Cut(html, c, p) + Output(html, segs, plan, i, p)
  {
    hide Cut;
    var e := StartOf(html, segs, i);
    CutCompose(html, c, p, e);
    if i < |segs| {
      Assoc(Cut(html, c, p), Cut(html, p, e) + Source(plan[i]), Output(html, segs, plan, i + 1, segs[i].end));
      Assoc(Cut(html, c, p), Cut(html, p, e), Source(plan[i]));
    }
  }

  /** The text skipped so far, then the source of the replaced markup. */
  function Written(html: string, c: nat, pos: nat, h: Html, plan: seq<Html>, i: nat): string
    requires i + Count(h) <= |plan|
  {
    Cut(html, c, pos) + Source(Replace(h, plan, i))
  }

  /** The units of the markup `h` at `pos` are the segments from `i` on. */
  ghost predicate Ready(ids: string -> set<string>, html: string, segs: seq<Segment>, h: Html, pos: nat, i: nat) {
    && Occurs(html, Source(h), pos)
    && i + Count(h) <= |segs| && Listed(segs, i, Units(ids, h, pos))
    && pos + |Source(h)| <= StartOf(html, segs, i + Count(h))
  }

  lemma {:induction false} AssembleNothing(ids: string -> set<string>, html: string, segs: seq<Segment>,
                                           plan: seq<Html>, h: Html, pos: nat, i: nat, c: nat)
    requires h.End? && |segs| == |plan| && c <= pos && Ready(ids, html, segs, h, pos, i)
    ensures Output(html, segs, plan, i, c) == Written(html, c, pos, h, plan, i) + Output(html, segs, plan, i, pos)
  {
    SkipTo(html, segs, plan, i, c, pos);
    assert Cut(html, c, pos) + "" == Cut(html, c, pos);
  }

  lemma {:induction false} LeafReady(ids: string -> set<string>, html: string, segs: seq<Segment>, h: Html, pos: nat,
                                     i: nat, plan: seq<Html>, c: nat)
    requires h.Leaf? && c <= pos && |segs| == |plan| && Ready(ids, html, segs, h, pos, i)
    ensures Ready(ids, html, segs, h.next, pos + |h.raw|, i) && i + Count(h.next) <= |segs|
    ensures Written(html, c, pos + |h.raw|, h.next, plan, i) == Written(html, c, pos, h, plan, i)
  {
    hide Occurs, Cut, Listed, Units, StartOf;
    LeafUnits(ids, h, pos);
    OccursPair(html, h.raw, Source(h.next), pos);
    CutIsPart(html, h.raw, pos);
    CutCompose(html, c, pos, pos + |h.raw|);
    Assoc(Cut(html, c, pos), h.raw, Source(Replace(h.next, plan, i)));
  }

  lemma {:induction false} LeafUnits(ids: string -> set<string>, h: Html, pos: nat)
    requires h.Leaf?
    ensures Units(ids, h, pos) == Units(ids, h.next, pos + |h.raw|)
  {
  }

  lemma {:induction false} CutIsPart(html: string, part: string, pos: nat)
    requires Occurs(html, part, pos)
    ensures Cut(html, pos, pos + |part|) == part
  {
  }

  /** What the assembler, coming from `c`, writes over well-nested markup at `pos`. */
  lemma {:induction false} AssembleForest(ids: string -> set<string>, html: string, segs: seq<Segment>,
                                          plan: seq<Html>, h: Html, pos: nat, i: nat, c: nat)
    requires |segs| == |plan| && c <= pos && Ready(ids, html, segs, h, pos, i)
    ensures Output(html, segs, plan, i, c)
      == Written(html, c, pos, h, plan, i) + Output(html, segs, plan, i + Count(h), pos + |Source(h)|)
    decreases h, 1
  {
    hide Ready, Output, Written, Cut, Occurs, Listed, StartOf, Units;
    match h
    case End =>
      AssembleNothing(ids, html, segs, plan, h, pos, i, c);
    case Leaf(raw, next) =>
      LeafReady(ids, html, segs, h, pos, i, plan, c);
      AssembleForest(ids, html, segs, plan, next, pos + |raw|, i, c);
    case Element(_, isUnit, _, _, _, _) =>
      if isUnit {
        AssembleUnit(ids, html, segs, plan, h, pos, i, c);
      } else {
        AssembleWrapper(ids, html, segs, plan, h, pos, i, c);
      }
  }

  lemma {:induction false} UnitReady(ids: string -> set<string>, html: string, segs: seq<Segment>, h: Html, pos: nat,
                                     i: nat, end: nat)
    requires h.Element? && h.isUnit && end == pos + |h.openText + Source(h.body) + h.closeText|
    requires Ready(ids, html, segs, h, pos, i)
    ensures i + 1 + Count(h.next) == i + Count(h) <= |segs| && segs[i].start == pos && segs[i].end == end
    ensures Ready(ids, html, segs, h.next, end, i + 1)
  {
    var unit := h.openText + Source(h.body) + h.closeText;
    OccursPair(html, unit, Source(h.next), pos);
    var own := [Segment(unit, RefIn(ids, unit), pos, end)];
    ListedSplit(segs, i, own, Units(ids, h.next, end));
    assert segs[i + 0] == own[0];
  }

  lemma {:induction false} AssembleUnit(ids: string -> set<string>, html: string, segs: seq<Segment>,
                                        plan: seq<Html>, h: Html, pos: nat, i: nat, c: nat)
    requires h.Element? && h.isUnit
    requires |segs| == |plan| && c <= pos && Ready(ids, html, segs, h, pos, i)
    ensures Output(html, segs, plan, i, c)
      == Written(html, c, pos, h, plan, i) + Output(html, segs, plan, i + Count(h), pos + |Source(h)|)
    decreases h, 0
  {
    hide Ready, Replace, Written, Cut, Occurs, Listed, StartOf, Units;
    var end := pos + |h.openText + Source(h.body) + h.closeText|;
    UnitReady(ids, html, segs, h, pos, i, end);
    AssembleForest(ids, html, segs, plan, h.next, end, i + 1, end);
    WrittenUnit(html, c, pos, end, h, plan, i, Output(html, segs, plan, i + Count(h), pos + |Source(h)|));
  }

  lemma {:induction false} WrittenUnit(html: string, c: nat, pos: nat, end: nat, h: Html, plan: seq<Html>, i: nat,
                                       later: string)
    requires h.Element? && h.isUnit && i + Count(h) <= |plan|
    ensures Cut(html, c, pos) + Source(plan[i]) + (Written(html, end, end, h.next, plan, i + 1) + later)
      == Written(html, c, pos, h, plan, i) + later
  {
    hide Cut;
    SourceAppend(plan[i], Replace(h.next, plan, i + 1));
    var a, p, r := Cut(html, c, pos), Source(plan[i]), Source(Replace(h.next, plan, i + 1));
    CutNothing(html, end);
    assert "" + r == r;
    Assoc(a + p, r, later);
    Assoc(a, p, r);
  }

  lemma {:induction false} WrapperReady(ids: string -> set<string>, html: string, segs: seq<Segment>, h: Html,
                                        pos: nat, i: nat, bodyAt: nat, closeAt: nat, nextAt: nat)
    requires h.Element? && !h.isUnit
    requires bodyAt == pos + |h.openText| && closeAt == bodyAt + |Source(h.body)| && nextAt == closeAt + |h.closeText|
    requires Ready(ids, html, segs, h, pos, i)
    ensures Ready(ids, html, segs, h.body, bodyAt, i)
    ensures Ready(ids, html, segs, h.next, nextAt, i + Count(h.body))
    ensures i + Count(h) == i + Count(h.body) + Count(h.next) <= |segs|
    ensures Cut(html, pos, bodyAt) == h.openText && Cut(html, closeAt, nextAt) == h.closeText
  {
    hide Occurs, Cut, Units;
    WrapperUnits(ids, h, pos);
    OccursPair(html, h.openText + Source(h.body) + h.closeText, Source(h.next), pos);
    OccursParts(html, h.openText, Source(h.body), h.closeText, pos);
    CutIsPart(html, h.openText, pos);
    CutIsPart(html, h.closeText, closeAt);
    CountIs(ids, h.body, bodyAt);
    CountIs(ids, h.next, nextAt);
    var rest := Units(ids, h.next, nextAt);
    ListedSplit(segs, i, Units(ids, h.body, bodyAt), rest);
    FirstStart(ids, h.next, nextAt);
    if rest != [] { assert segs[i + Count(h.body) + 0] == rest[0]; }
  }

  lemma {:induction false} WrapperUnits(ids: string -> set<string>, h: Html, pos: nat)
    requires h.Element? && !h.isUnit
    ensures var bodyAt := pos + |h.openText|;
      var nextAt := bodyAt + |Source(h.body)| + |h.closeText|;
      Units(ids, h, pos) == Units(ids, h.body, bodyAt) + Units(ids, h.next, nextAt)
  {
  }

  lemma {:induction false} AssembleWrapper(ids: string -> set<string>, html: string, segs: seq<Segment>,
                                           plan: seq<Html>, h: Html, pos: nat, i: nat, c: nat)
    requires h.Element? && !h.isUnit
    requires |segs| == |plan| && c <= pos && Ready(ids, html, segs, h, pos, i)
    ensures Output(html, segs, plan, i, c)
      == Written(html, c, pos, h, plan, i) + Output(html, segs, plan, i + Count(h), pos + |Source(h)|)
    decreases h, 0
  {
    hide Ready, Output, Replace, Written, Cut, Occurs, Listed, StartOf, Units;
    var bodyAt := pos + |h.openText|;
    var closeAt := bodyAt + |Source(h.body)|;
    var nextAt := closeAt + |h.closeText|;
    var j := i + Count(h.body);
    WrapperReady(ids, html, segs, h, pos, i, bodyAt, closeAt, nextAt);
    AssembleForest(ids, html, segs, plan, h.body, bodyAt, i, c);
    AssembleForest(ids, html, segs, plan, h.next, nextAt, j, closeAt);
    CutCompose(html, c, pos, bodyAt);
    WrittenWrapper(html, c, pos, bodyAt, closeAt, nextAt, h, plan, i,
                   Output(html, segs, plan, j + Count(h.next), nextAt + |Source(h.next)|));
  }

  lemma {:induction false} WrittenWrapper(html: string, c: nat, pos: nat, bodyAt: nat, closeAt: nat, nextAt: nat,
                                          h: Html, plan: seq<Html>, i: nat, later: string)
    requires h.Element? && !h.isUnit && i + Count(h) <= |plan|
    requires Cut(html, c, bodyAt) == Cut(html, c, pos) + h.openText && Cut(html, closeAt, nextAt) == h.closeText
    ensures Written(html, c, bodyAt, h.body, plan, i)
      + (Written(html, closeAt, nextAt, h.next, plan, i + Count(h.body)) + later)
      == Written(html, c, pos, h, plan, i) + later
  {
    hide Cut;
    WrapperText(Cut(html, c, pos), h.openText, Source(Replace(h.body, plan, i)), h.closeText,
                Source(Replace(h.next, plan, i + Count(h.body))), later);
  }

  lemma {:induction false} WrapperText(a: string, o: string, b: string, c: string, n: string, l: string)
    ensures (a + o) + b + ((c + n) + l) == (a + (o + b + c + n)) + l
  {
    Assoc((a + o) + b, c + n, l);
    Assoc(a, o, b);
    Assoc(o + b, c, n);
    Assoc(a, o + b, c + n);
  }

  // ----- the assembled page as a tree -----

  function Texts(fr: map<string, Html>): map<string, string> {
    map k | k in fr :: Source(fr[k])
  }

  function KeptTree(ids: string -> set<string>, u: Update, fr: map<string, Html>, tree: Html): Html {
    var ref := RefIn(ids, Source(tree));
    if ref.Some? && ref.value in u.removed then End
    else if ref.Some? && ref.value in u.modified && ref.value in fr then fr[ref.value]
    else tree
  }

  function AddedTree(fr: map<string, Html>, refs: seq<string>): Html {
    if refs == [] then End
    else Leaf("\n", Append(if refs[0] in fr then fr[refs[0]] else End, AddedTree(fr, refs[1..])))
  }

  /** What stands in the place of the `i`-th unit. */
  function PlanAt(ids: string -> set<string>, h: Html, u: Update, fr: map<string, Html>, order: seq<string>,
                  i: nat): Html
    requires i < |UnitTrees(h)|
  {
    Append(KeptTree(ids, u, fr, UnitTrees(h)[i]), AddedTree(fr, Bucket(Units(ids, h, 0), u, order, i, |order|)))
  }

  function Plan(ids: string -> set<string>, h: Html, u: Update, fr: map<string, Html>,
                order: seq<string>): (plan: seq<Html>)
    ensures |plan| == |UnitTrees(h)|
  {
    seq(|UnitTrees(h)|, i requires 0 <= i < |UnitTrees(h)| => PlanAt(ids, h, u, fr, order, i))
  }

  /** What follows the page when there was no unit to follow. */
  function Trailer(ids: string -> set<string>, h: Html, u: Update, fr: map<string, Html>, order: seq<string>): Html {
    AddedTree(fr, Bucket(Units(ids, h, 0), u, order, -1, |order|))
  }

  function NewPage(ids: string -> set<string>, h: Html, u: Update, fr: map<string, Html>, order: seq<string>): Html
  {
    CountIs(ids, h, 0);
    Append(Replace(h, Plan(ids, h, u, fr, order), 0), Trailer(ids, h, u, fr, order))
  }

  lemma {:induction false} AddedTreeSource(u: Update, fr: map<string, Html>, refs: seq<string>)
    requires u.fragments == Texts(fr)
    ensures Source(AddedTree(fr, refs)) == Insertions(u, refs)
  {
    if refs != [] {
      AddedTreeSource(u, fr, refs[1..]);
      var first := if refs[0] in fr then fr[refs[0]] else End;
      SourceAppend(first, AddedTree(fr, refs[1..]));
      Assoc("\n", Source(first), Insertions(u, refs[1..]));
    }
  }

  lemma {:induction false} KeptTreeSource(ids: string -> set<string>, u: Update, fr: map<string, Html>, seg: Segment,
                                          tree: Html)
    requires u.fragments == Texts(fr) && IsSegmentOf(ids, seg, tree)
    ensures Source(KeptTree(ids, u, fr, tree)) == Kept(u, seg)
  {
  }

  lemma {:induction false} PlanSource(ids: string -> set<string>, h: Html, u: Update, fr: map<string, Html>,
                                      order: seq<string>, i: nat)
    requires u.fragments == Texts(fr) && i < |UnitTrees(h)|
    ensures |Units(ids, h, 0)| == |UnitTrees(h)|
    ensures Source(Plan(ids, h, u, fr, order)[i]) == Places(Units(ids, h, 0), u, order)[i]
  {
    UnitsAreTrees(ids, h, 0);
    var segs := Units(ids, h, 0);
    var refs := Bucket(segs, u, order, i, |order|);
    KeptTreeSource(ids, u, fr, segs[i], UnitTrees(h)[i]);
    AddedTreeSource(u, fr, refs);
    SourceAppend(KeptTree(ids, u, fr, UnitTrees(h)[i]), AddedTree(fr, refs));
  }

  /** The assembled page is the source of a well-nested page. */
  lemma {:induction false} SplicedIsWellNested(ids: string -> set<string>, h: Html, u: Update, fr: map<string, Html>,
                                               order: seq<string>)
    requires u.fragments == Texts(fr)
    ensures Spliced(Source(h), Units(ids, h, 0), u, order) == Source(NewPage(ids, h, u, fr, order))
  {
    hide Bucket, Source, Units, UnitTrees, Insertions, Kept, Replace;
    var html, segs, plan := Source(h), Units(ids, h, 0), Plan(ids, h, u, fr, order);
    var place := Places(segs, u, order);
    CountIs(ids, h, 0);
    forall k | 0 <= k < |plan| ensures place[k] == Source(plan[k]) { PlanSource(ids, h, u, fr, order, k); }
    OutputIsAssembled(html, segs, place, plan, 0, 0);
    OutputIsSource(ids, h, segs, plan);
    AddedTreeSource(u, fr, Bucket(segs, u, order, -1, |order|));
    SourceAppend(Replace(h, plan, 0), Trailer(ids, h, u, fr, order));
  }

  lemma {:induction false} OutputIsSource(ids: string -> set<string>, h: Html, segs: seq<Segment>, plan: seq<Html>)
    requires segs == Units(ids, h, 0) && |segs| == |plan| == Count(h)
    ensures Output(Source(h), segs, plan, 0, 0) == Source(Replace(h, plan, 0))
  {
    hide Units, Replace, Source;
    var html := Source(h);
    assert html[0..|html|] == html;
    AssembleForest(ids, html, segs, plan, h, 0, 0, 0);
    CutNothing(html, 0);
    CutNothing(html, |html|);
    var w := Source(Replace(h, plan, 0));
    assert "" + w + "" == w;
  }

  ghost predicate FragmentsWellFormed(fr: map<string, Html>) {
    forall k :: k in fr ==> WellFormed(fr[k])
  }

  lemma {:induction false} AddedTreeWellFormed(fr: map<string, Html>, refs: seq<string>)
    requires FragmentsWellFormed(fr)
    ensures WellFormed(AddedTree(fr, refs))
  {
    if refs != [] {
      AddedTreeWellFormed(fr, refs[1..]);
      AppendWellFormed(if refs[0] in fr then fr[refs[0]] else End, AddedTree(fr, refs[1..]));
    }
  }

  lemma {:induction false} NewPageWellFormed(ids: string -> set<string>, h: Html, u: Update, fr: map<string, Html>,
                                             order: seq<string>)
    requires WellFormed(h) && FragmentsWellFormed(fr)
    ensures WellFormed(NewPage(ids, h, u, fr, order))
  {
    hide Bucket, Units, UnitTrees, WellFormed, FragmentsWellFormed, Append, Replace;
    var plan := Plan(ids, h, u, fr, order);
    CountIs(ids, h, 0);
    forall k | 0 <= k < |plan| ensures WellFormed(plan[k]) { PlanWellFormed(ids, h, u, fr, order, k); }
    ReplaceWellFormed(h, plan, 0);
    AddedTreeWellFormed(fr, Bucket(Units(ids, h, 0), u, order, -1, |order|));
    AppendWellFormed(Replace(h, plan, 0), Trailer(ids, h, u, fr, order));
  }

  lemma {:induction false} PlanWellFormed(ids: string -> set<string>, h: Html, u: Update, fr: map<string, Html>,
                                          order: seq<string>, k: nat)
    requires WellFormed(h) && FragmentsWellFormed(fr) && k < |UnitTrees(h)|
    ensures WellFormed(PlanAt(ids, h, u, fr, order, k))
  {
    hide Bucket, Units;
    UnitTreesAreUnits(h);
    assert UnitTrees(h)[k] in UnitTrees(h);
    var refs := Bucket(Units(ids, h, 0), u, order, k, |order|);
    AddedTreeWellFormed(fr, refs);
    AppendWellFormed(KeptTree(ids, u, fr, UnitTrees(h)[k]), AddedTree(fr, refs));
  }

  // ----- which units the new page has -----

  /** The units a prior unit gives rise to: none if dropped, those of its fragment if swapped, else itself. */
  function KeptUnits(ids: string -> set<string>, u: Update, fr: map<string, Html>, tree: Html): seq<Html> {
    var ref := RefIn(ids, Source(tree));
    if ref.Some? && ref.value in u.removed then []
    else if ref.Some? && ref.value in u.modified && ref.value in fr then UnitTrees(fr[ref.value])
    else [tree]
  }

  /** The units of these fragments, in order. */
  function AddedUnits(fr: map<string, Html>, refs: seq<string>): seq<Html> {
    if refs == [] then []
    else (if refs[0] in fr then UnitTrees(fr[refs[0]]) else []) + AddedUnits(fr, refs[1..])
  }

  /** The first `n` prior units in order, each swapped, dropped or kept, and followed by what is added there. */
  function UpdatedUnits(ids: string -> set<string>, h: Html, u: Update, fr: map<string, Html>, order: seq<string>,
                        n: nat): seq<Html>
    requires n <= |UnitTrees(h)|
  {
    if n == 0 then []
    else UpdatedUnits(ids, h, u, fr, order, n - 1)
         + (KeptUnits(ids, u, fr, UnitTrees(h)[n - 1])
            + AddedUnits(fr, Bucket(Units(ids, h, 0), u, order, n - 1, |order|)))
  }

  lemma {:induction false} AddedTreeUnits(fr: map<string, Html>, refs: seq<string>)
    ensures UnitTrees(AddedTree(fr, refs)) == AddedUnits(fr, refs)
  {
    if refs != [] {
      AddedTreeUnits(fr, refs[1..]);
      UnitTreesAppend(if refs[0] in fr then fr[refs[0]] else End, AddedTree(fr, refs[1..]));
    }
  }

  lemma {:induction false} PlanUnits(ids: string -> set<string>, h: Html, u: Update, fr: map<string, Html>,
                                     order: seq<string>, k: nat)
    requires WellFormed(h) && k < |UnitTrees(h)|
    ensures UnitTrees(PlanAt(ids, h, u, fr, order, k))
      == KeptUnits(ids, u, fr, UnitTrees(h)[k]) + AddedUnits(fr, Bucket(Units(ids, h, 0), u, order, k, |order|))
  {
    hide Bucket, Units;
    UnitTreesAreUnits(h);
    assert UnitTrees(h)[k] in UnitTrees(h);
    var refs := Bucket(Units(ids, h, 0), u, order, k, |order|);
    AddedTreeUnits(fr, refs);
    UnitTreesAppend(KeptTree(ids, u, fr, UnitTrees(h)[k]), AddedTree(fr, refs));
  }

  lemma {:induction false} PlanUnitsUpTo(ids: string -> set<string>, h: Html, u: Update, fr: map<string, Html>,
                                         order: seq<string>, n: nat)
    requires WellFormed(h) && n <= |UnitTrees(h)|
    ensures UnitsOfPlan(Plan(ids, h, u, fr, order), 0, n) == UpdatedUnits(ids, h, u, fr, order, n)
  {
    hide Bucket, Units, UnitTrees, KeptUnits, AddedUnits, PlanAt;
    if n > 0 {
      PlanUnitsUpTo(ids, h, u, fr, order, n - 1);
      PlanUnits(ids, h, u, fr, order, n - 1);
      assert Plan(ids, h, u, fr, order)[n - 1] == PlanAt(ids, h, u, fr, order, n - 1);
    }
  }

  /** Re-segmenting the new page yields the prior units in order, the changed ones swapped or dropped, the
      added ones put in. */
  lemma {:induction false} NewPageUnits(ids: string -> set<string>, h: Html, u: Update, fr: map<string, Html>,
                                        order: seq<string>)
    requires WellFormed(h)
    ensures UnitTrees(NewPage(ids, h, u, fr, order))
      == UpdatedUnits(ids, h, u, fr, order, |UnitTrees(h)|)
         + AddedUnits(fr, Bucket(Units(ids, h, 0), u, order, -1, |order|))
  {
    hide Bucket, Units, UnitTrees, AddedUnits, UpdatedUnits, UnitsOfPlan, Replace, Append, WellFormed;
    var plan := Plan(ids, h, u, fr, order);
    CountIs(ids, h, 0);
    ReplacedUnits(h, plan, 0);
    PlanUnitsUpTo(ids, h, u, fr, order, |UnitTrees(h)|);
    AddedTreeUnits(fr, Bucket(Units(ids, h, 0), u, order, -1, |order|));
    UnitTreesAppend(Replace(h, plan, 0), Trailer(ids, h, u, fr, order));
  }

  // ----- fidelity -----

  /** The texts of the units labelled `r`, in order. */
  function LabelledWith(ids: string -> set<string>, trees: seq<Html>, r: string): seq<string> {
    if trees == [] then []
    else
      var t := trees[|trees| - 1];
      LabelledWith(ids, trees[..|trees| - 1], r) + if RefIn(ids, Source(t)) == Some(r) then [Source(t)] else []
  }

  lemma {:induction false} LabelledWithAppend(ids: string -> set<string>, a: seq<Html>, b: seq<Html>, r: string)
    ensures LabelledWith(ids, a + b, r) == LabelledWith(ids, a, r) + LabelledWith(ids, b, r)
  {
    hide RefIn, Source;
    if b == [] {
      assert a + b == a;
    } else {
      assert (a + b)[..|a + b| - 1] == a + b[..|b| - 1];
      LabelledWithAppend(ids, a, b[..|b| - 1], r);
      Assoc(LabelledWith(ids, a, r), LabelledWith(ids, b[..|b| - 1], r),
            if RefIn(ids, Source(b[|b| - 1])) == Some(r) then [Source(b[|b| - 1])] else []);
    }
  }

  /** No unit of a fragment that an update may place is labelled `r`. */
  ghost predicate NotIn(ids: string -> set<string>, u: Update, fr: map<string, Html>, r: string) {
    forall k :: k in fr && (k in u.added || k in u.modified) ==> LabelledWith(ids, UnitTrees(fr[k]), r) == []
  }

  lemma {:induction false} AddedUnitsLack(ids: string -> set<string>, u: Update, fr: map<string, Html>,
                                          refs: seq<string>, r: string)
    requires NotIn(ids, u, fr, r) && forall x :: x in refs ==> x in u.added
    ensures LabelledWith(ids, AddedUnits(fr, refs), r) == []
  {
    hide UnitTrees, LabelledWith;
    LabelledWithNone(ids, r);
    if refs != [] {
      AddedUnitsLack(ids, u, fr, refs[1..], r);
      LabelledWithAppend(ids, if refs[0] in fr then UnitTrees(fr[refs[0]]) else [], AddedUnits(fr, refs[1..]), r);
    }
  }

  lemma {:induction false} LabelledWithNone(ids: string -> set<string>, r: string)
    ensures LabelledWith(ids, [], r) == []
  {
  }

  lemma {:induction false} KeptUnitsKeep(ids: string -> set<string>, u: Update, fr: map<string, Html>, tree: Html,
                                         r: string)
    requires NotIn(ids, u, fr, r) && r !in u.modified && r !in u.removed
    ensures LabelledWith(ids, KeptUnits(ids, u, fr, tree), r) == LabelledWith(ids, [tree], r)
  {
    hide Source, UnitTrees;
    assert [tree][..0] == [];
  }

  lemma {:induction false} UpdatedUnitsKeep(ids: string -> set<string>, h: Html, u: Update, fr: map<string, Html>,
                                            order: seq<string>, n: nat, r: string)
    requires NotIn(ids, u, fr, r) && r !in u.modified && r !in u.removed && n <= |UnitTrees(h)|
    requires forall x :: x in order ==> x in u.added
    ensures LabelledWith(ids, UpdatedUnits(ids, h, u, fr, order, n), r) == LabelledWith(ids, UnitTrees(h)[..n], r)
  {
    hide Bucket, Units, UnitTrees, KeptUnits, AddedUnits, LabelledWith, NotIn;
    if n == 0 {
    } else {
      var trees := UnitTrees(h);
      var refs := Bucket(Units(ids, h, 0), u, order, n - 1, |order|);
      UpdatedUnitsKeep(ids, h, u, fr, order, n - 1, r);
      KeptUnitsKeep(ids, u, fr, trees[n - 1], r);
      BucketHasFragments(Units(ids, h, 0), u, order, n - 1, |order|);
      AddedUnitsLack(ids, u, fr, refs, r);
      LabelledWithAppend(ids, KeptUnits(ids, u, fr, trees[n - 1]), AddedUnits(fr, refs), r);
      LabelledWithAppend(ids, UpdatedUnits(ids, h, u, fr, order, n - 1),
                         KeptUnits(ids, u, fr, trees[n - 1]) + AddedUnits(fr, refs), r);
      assert trees[..n] == trees[..n - 1] + [trees[n - 1]];
      LabelledWithAppend(ids, trees[..n - 1], [trees[n - 1]], r);
      assert LabelledWith(ids, [trees[n - 1]], r) + [] == LabelledWith(ids, [trees[n - 1]], r);
    }
  }

  /** The units labelled with a ref that was neither modified nor removed are the same, byte for byte, in the same
      order, and no more of them, provided no fragment brings in that ref. */
  lemma {:induction false} UntouchedUnitsStay(ids: string -> set<string>, h: Html, u: Update, fr: map<string, Html>,
                                              order: seq<string>, r: string)
    requires WellFormed(h) && NotIn(ids, u, fr, r) && r !in u.modified && r !in u.removed
    requires forall x :: x in order ==> x in u.added
    ensures LabelledWith(ids, UnitTrees(NewPage(ids, h, u, fr, order)), r) == LabelledWith(ids, UnitTrees(h), r)
  {
    hide Bucket, Units, UnitTrees, AddedUnits, UpdatedUnits, LabelledWith, NotIn, NewPage, WellFormed;
    NewPageUnits(ids, h, u, fr, order);
    var trees, refs := UnitTrees(h), Bucket(Units(ids, h, 0), u, order, -1, |order|);
    LabelledWithAppend(ids, UpdatedUnits(ids, h, u, fr, order, |trees|), AddedUnits(fr, refs), r);
    UpdatedUnitsKeep(ids, h, u, fr, order, |trees|, r);
    BucketHasFragments(Units(ids, h, 0), u, order, -1, |order|);
    AddedUnitsLack(ids, u, fr, refs, r);
    assert trees[..|trees|] == trees;
    assert LabelledWith(ids, trees, r) + [] == LabelledWith(ids, trees, r);
  }

  function LastOf(s: seq<string>): Option<string> {
    if s == [] then None else Some(s[|s| - 1])
  }

  lemma {:induction false} LastWithIs(ids: string -> set<string>, segs: seq<Segment>, trees: seq<Html>, r: string,
                                      n: nat)
    requires Labelled(ids, segs, trees) && n <= |segs|
    ensures LastWith(segs, r, n) == LastOf(LabelledWith(ids, trees[..n], r))
  {
    hide RefIn, Source;
    if n > 0 {
      LastWithIs(ids, segs, trees, r, n - 1);
      assert IsSegmentOf(ids, segs[n - 1], trees[n - 1]);
      assert trees[..n][..n - 1] == trees[..n - 1];
    }
  }

  /** The construction passes its gate: on a well-nested prior page with well-nested fragments, every ref outside
      the modified and removed ones that no fragment brings in is kept byte-identical. */
  lemma {:induction false} SplicePassesGate(ids: string -> set<string>, h: Html, u: Update, fr: map<string, Html>,
                                            order: seq<string>, r: string)
    requires WellFormed(h) && FragmentsWellFormed(fr) && u.fragments == Texts(fr)
    requires NotIn(ids, u, fr, r) && r !in u.modified && r !in u.removed && Lists(order, u.added)
    ensures var page := NewPage(ids, h, u, fr, order);
      var prior := Segments(ids, Source(h), Tokens(h));
      && Spliced(Source(h), prior, u, order) == Source(page)
      && KeptAsIs(Segments(ids, Source(page), Tokens(page)), prior, r)
  {
    hide Segments, NewPage, Spliced, UnitTrees, Units, LastWith, LabelledWith, Labelled, Source, Tokens, WellFormed,
      NotIn;
    var page := NewPage(ids, h, u, fr, order);
    SplicedIsWellNested(ids, h, u, fr, order);
    NewPageWellFormed(ids, h, u, fr, order);
    SegmentsAreUnits(ids, h);
    SegmentsAreUnits(ids, page);
    UntouchedUnitsStay(ids, h, u, fr, order, r);
    LastUnitIs(ids, h, r);
    LastUnitIs(ids, page, r);
  }

  // ----- refs that a fragment brings in -----

  /** What stands on the new page between the kept text of prior unit `k` and what is written for unit `n`. */
  function Past(ids: string -> set<string>, h: Html, u: Update, fr: map<string, Html>, order: seq<string>, k: nat,
                n: nat): seq<Html>
    requires k < n <= |UnitTrees(h)|
  {
    var added := AddedUnits(fr, Bucket(Units(ids, h, 0), u, order, n - 1, |order|));
    if n == k + 1 then added
    else Past(ids, h, u, fr, order, k, n - 1) + (KeptUnits(ids, u, fr, UnitTrees(h)[n - 1]) + added)
  }

  /** The units of the new page past the kept text of prior unit `k`. */
  function UnitsPast(ids: string -> set<string>, h: Html, u: Update, fr: map<string, Html>, order: seq<string>,
                     k: nat): seq<Html>
    requires k < |UnitTrees(h)|
  {
    Past(ids, h, u, fr, order, k, |UnitTrees(h)|)
    + AddedUnits(fr, Bucket(Units(ids, h, 0), u, order, -1, |order|))
  }

  lemma {:induction false} UpdatedAround(ids: string -> set<string>, h: Html, u: Update, fr: map<string, Html>,
                                         order: seq<string>, k: nat, n: nat)
    requires k < n <= |UnitTrees(h)|
    ensures UpdatedUnits(ids, h, u, fr, order, n)
      == UpdatedUnits(ids, h, u, fr, order, k)
         + (KeptUnits(ids, u, fr, UnitTrees(h)[k]) + Past(ids, h, u, fr, order, k, n))
  {
    hide Bucket, Units, UnitTrees, KeptUnits, AddedUnits;
    if n > k + 1 {
      UpdatedAround(ids, h, u, fr, order, k, n - 1);
      var before, kept := UpdatedUnits(ids, h, u, fr, order, k), KeptUnits(ids, u, fr, UnitTrees(h)[k]);
      var past := Past(ids, h, u, fr, order, k, n - 1);
      var more := KeptUnits(ids, u, fr, UnitTrees(h)[n - 1])
                  + AddedUnits(fr, Bucket(Units(ids, h, 0), u, order, n - 1, |order|));
      Assoc(before, kept + past, more);
      Assoc(kept, past, more);
    }
  }

  /** The last prior unit labelled `r`. */
  ghost predicate LastLabelled(ids: string -> set<string>, h: Html, r: string, k: nat) {
    && k < |UnitTrees(h)| && RefIn(ids, Source(UnitTrees(h)[k])) == Some(r)
    && forall j :: k < j < |UnitTrees(h)| ==> RefIn(ids, Source(UnitTrees(h)[j])) != Some(r)
  }

  /** Of the units labelled `r` that fragments bring in past its last prior unit the last one, if any, has the same
      bytes as that unit. */
  ghost predicate BringsInTheSame(ids: string -> set<string>, h: Html, u: Update, fr: map<string, Html>,
                                  order: seq<string>, r: string) {
    forall k: nat :: LastLabelled(ids, h, r, k) ==>
      var brought := LabelledWith(ids, UnitsPast(ids, h, u, fr, order, k), r);
      brought == [] || LastOf(brought) == Some(Source(UnitTrees(h)[k]))
  }

  lemma {:induction false} LabelledWithOne(ids: string -> set<string>, t: Html, r: string)
    ensures LabelledWith(ids, [t], r) == if RefIn(ids, Source(t)) == Some(r) then [Source(t)] else []
  {
    hide RefIn, Source;
    assert [t][..0] == [];
  }

  /** The units labelled `r` on the new page: some, the last prior one, and those brought in past it. */
  lemma {:induction false} LabelledAround(ids: string -> set<string>, h: Html, u: Update, fr: map<string, Html>,
                                          order: seq<string>, r: string, k: nat)
    requires WellFormed(h) && r !in u.modified && r !in u.removed && LastLabelled(ids, h, r, k)
    ensures LastOf(LabelledWith(ids, UnitTrees(NewPage(ids, h, u, fr, order)), r))
      == var brought := LabelledWith(ids, UnitsPast(ids, h, u, fr, order, k), r);
         if brought == [] then Some(Source(UnitTrees(h)[k])) else LastOf(brought)
  {
    hide Bucket, Units, UnitTrees, AddedUnits, UpdatedUnits, LabelledWith, NewPage, WellFormed, Past, Source, RefIn;
    var tree, n := UnitTrees(h)[k], |UnitTrees(h)|;
    var trailing := AddedUnits(fr, Bucket(Units(ids, h, 0), u, order, -1, |order|));
    var before, past := UpdatedUnits(ids, h, u, fr, order, k), Past(ids, h, u, fr, order, k, n);
    NewPageUnits(ids, h, u, fr, order);
    UpdatedAround(ids, h, u, fr, order, k, n);
    assert KeptUnits(ids, u, fr, tree) == [tree];
    Assoc(before, [tree] + past, trailing);
    Assoc([tree], past, trailing);
    LabelledWithAppend(ids, before, [tree] + (past + trailing), r);
    LabelledWithAppend(ids, [tree], past + trailing, r);
    LabelledWithOne(ids, tree, r);
    LastOfThree(LabelledWith(ids, before, r), Source(tree), LabelledWith(ids, past + trailing, r));
  }

  lemma {:induction false} LastOfThree(a: seq<string>, t: string, b: seq<string>)
    ensures LastOf(a + ([t] + b)) == if b == [] then Some(t) else LastOf(b)
  {
  }

  /** The last prior unit labelled `r` is the one the gate compares with. */
  lemma {:induction false} LastLabelledIs(ids: string -> set<string>, trees: seq<Html>, r: string) returns (k: nat)
    requires LabelledWith(ids, trees, r) != []
    ensures k < |trees| && RefIn(ids, Source(trees[k])) == Some(r)
    ensures forall j :: k < j < |trees| ==> RefIn(ids, Source(trees[j])) != Some(r)
    ensures LastOf(LabelledWith(ids, trees, r)) == Some(Source(trees[k]))
  {
    hide RefIn, Source;
    var n := |trees| - 1;
    if RefIn(ids, Source(trees[n])) == Some(r) {
      k := n;
    } else {
      k := LastLabelledIs(ids, trees[..n], r);
      assert LabelledWith(ids, trees[..n], r) + [] == LabelledWith(ids, trees[..n], r);
    }
  }

  lemma {:induction false} LabelledIsThere(ids: string -> set<string>, trees: seq<Html>, r: string, k: nat)
    requires k < |trees| && RefIn(ids, Source(trees[k])) == Some(r)
    ensures LabelledWith(ids, trees, r) != []
  {
    hide RefIn, Source;
    if k < |trees| - 1 { LabelledIsThere(ids, trees[..|trees| - 1], r, k); }
  }

  lemma {:induction false} OnlyOneLast(ids: string -> set<string>, h: Html, r: string, j: nat, k: nat)
    requires LastLabelled(ids, h, r, j) && LastLabelled(ids, h, r, k)
    ensures j == k
  {
  }

  /** For any ref that was not to change, whatever fragments bring in: it passes the gate exactly when the last unit
      with its label that fragments bring in past its last prior unit, if any, has the same bytes. */
  lemma {:induction false} KeptIffBroughtInTheSame(ids: string -> set<string>, h: Html, u: Update,
                                                   fr: map<string, Html>, order: seq<string>, r: string)
    requires WellFormed(h) && FragmentsWellFormed(fr) && u.fragments == Texts(fr)
    requires r !in u.modified && r !in u.removed && Lists(order, u.added)
    ensures var page := NewPage(ids, h, u, fr, order);
      var prior := Segments(ids, Source(h), Tokens(h));
      && Spliced(Source(h), prior, u, order) == Source(page)
      && (KeptAsIs(Segments(ids, Source(page), Tokens(page)), prior, r)
          <==> BringsInTheSame(ids, h, u, fr, order, r))
  {
    hide Segments, NewPage, Spliced, UnitTrees, Units, LastWith, LabelledWith, Labelled, Source, Tokens, WellFormed,
      UnitsPast, RefIn;
    var page := NewPage(ids, h, u, fr, order);
    SplicedIsWellNested(ids, h, u, fr, order);
    NewPageWellFormed(ids, h, u, fr, order);
    SegmentsAreUnits(ids, h);
    SegmentsAreUnits(ids, page);
    LastUnitIs(ids, h, r);
    LastUnitIs(ids, page, r);
    if LabelledWith(ids, UnitTrees(h), r) != [] {
      var k := LastLabelledIs(ids, UnitTrees(h), r);
      assert LastLabelled(ids, h, r, k);
      LabelledAround(ids, h, u, fr, order, r, k);
      forall j: nat | LastLabelled(ids, h, r, j) ensures j == k { OnlyOneLast(ids, h, r, j, k); }
    } else {
      forall j: nat | LastLabelled(ids, h, r, j) ensures false { LabelledIsThere(ids, UnitTrees(h), r, j); }
    }
  }

  /** Assembling a page and gating it, for any set of refs that were not to change: the gate reports nothing exactly
      when what fragments bring in agrees with the prior page on each of them; so it does when they bring in none. */
  method SpliceThenGate(ids: string -> set<string>, h: Html, u: Update, fr: map<string, Html>, untouched: set<string>)
    returns (html: string, violations: seq<Violation>)
    requires WellFormed(h) && FragmentsWellFormed(fr) && u.fragments == Texts(fr)
    requires forall r :: r in untouched ==> r !in u.modified && r !in u.removed
    ensures html == Spliced(Source(h), Segments(ids, Source(h), Tokens(h)), u, Sorted(u.added))
    ensures violations == [] <==> forall r :: r in untouched ==> BringsInTheSame(ids, h, u, fr, Sorted(u.added), r)
    ensures (forall r :: r in untouched ==> NotIn(ids, u, fr, r)) ==> violations == []
  {
    hide Segments, NewPage, Spliced, Source, Tokens, WellFormed, NotIn, KeptAsIs, Judge, Report, Lists, BringsInTheSame;
    var missing, spliced;
    html, missing, spliced := SpliceUpdate(ids, Source(h), Tokens(h), u);
    var order := Sort(u.added);
    SortedIsUnique(order, Sorted(u.added), u.added);
    var page := NewPage(ids, h, u, fr, order);
    var segs := SegmentUnits(ids, html, Tokens(page));
    var prior := SegmentUnits(ids, Source(h), Tokens(h));
    violations := CheckUpdateFidelity(segs, prior, untouched);
    SplicedIsWellNested(ids, h, u, fr, order);
    forall r | r in untouched
      ensures KeptAsIs(segs, prior, r) <==> BringsInTheSame(ids, h, u, fr, order, r)
      ensures NotIn(ids, u, fr, r) ==> KeptAsIs(segs, prior, r)
    {
      KeptIffBroughtInTheSame(ids, h, u, fr, order, r);
      if NotIn(ids, u, fr, r) { SplicePassesGate(ids, h, u, fr, order, r); }
    }
  }

  /** A fragment that brings in another ref's unit: added for FR-002, it also holds a unit labelled FR-001 with other
      bytes, and the gate finds FR-001 changed. */
  lemma {:induction false} FragmentOverridesAnotherRef(ids: string -> set<string>, a: Html, b: Html, c: Html)
    requires a == Element("li", true, "<li>", "</li>", Leaf("FR-001: as it was", End), End)
    requires c == Element("li", true, "<li>", "</li>", Leaf("FR-001: made up", End), End)
    requires b == Element("li", true, "<li>", "</li>", Leaf("FR-002: new", End), c)
    requires RefIn(ids, Source(a)) == RefIn(ids, Source(c)) == Some("FR-001")
    ensures var u := Update(map["FR-002" := Source(b)], {}, {"FR-002"}, {});
      !BringsInTheSame(ids, a, u, map["FR-002" := b], ["FR-002"], "FR-001")
  {
    hide RefIn;
    var fr, order := map["FR-002" := b], ["FR-002"];
    var u := Update(map["FR-002" := Source(b)], {}, {"FR-002"}, {});
    var first := Element("li", true, "<li>", "</li>", Leaf("FR-002: new", End), End);
    assert UnitTrees(a) == [a] && UnitTrees(c) == [c] && UnitTrees(b) == [first, c];
    BucketOfOne(Units(ids, a, 0), u, "FR-002");
    assert ["FR-002"][1..] == [];
    assert AddedUnits(fr, ["FR-002"]) == [first, c] && AddedUnits(fr, []) == [];
    assert UnitsPast(ids, a, u, fr, order, 0) == [first, c] + [];
    assert [first, c][..1] == [first];
    assert LastOf(LabelledWith(ids, [first, c], "FR-001")) == Some(Source(c));
    assert Source(a) == "<li>" + ("FR-001: as it was" + "") + "</li>" + "";
    assert Source(c) == "<li>" + ("FR-001: made up" + "") + "</li>" + "";
    assert |Source(a)| != |Source(c)|;
    assert LastLabelled(ids, a, "FR-001", 0);
  }

  lemma {:induction false} BucketOfOne(segs: seq<Segment>, u: Update, r: string)
    requires |segs| == 1 && r in u.fragments
    ensures Bucket(segs, u, [r], 0, 1) == [r] && Bucket(segs, u, [r], -1, 1) == []
  {
    assert Place(segs, r) == 0;
    assert Bucket(segs, u, [r], 0, 0) == [] && Bucket(segs, u, [r], -1, 0) == [];
  }

  lemma {:induction false} LastUnitIs(ids: string -> set<string>, h: Html, r: string)
    ensures var segs := Units(ids, h, 0); LastWith(segs, r, |segs|) == LastOf(LabelledWith(ids, UnitTrees(h), r))
  {
    hide Units, UnitTrees, LastWith, LabelledWith, RefIn, Source;
    UnitsAreTrees(ids, h, 0);
    var segs, trees := Units(ids, h, 0), UnitTrees(h);
    LastWithIs(ids, segs, trees, r, |segs|);
    assert trees[..|trees|] == trees;
  }
}
