/** Checks of the render gate (`maker_gate.py`) over the container index. */
module GateChecks {
  import opened Text
  import opened Containers

  // One owner per id, no empty shells, and a one-to-one match between open gaps and gap markers.

  // ----- innermost owners -----

  /** Another owner lies deeper inside `cs[i]`. */
  predicate HasInner(cs: seq<Container>, i: nat)
    requires i < |cs|
  {
    exists o :: 0 <= o < |cs| && o != i && Inside(cs[o], cs[i])
  }

  ghost predicate DeeperWithin(a: Container, b: Container) {
    b.start <= a.start && a.end <= b.end && b.depth < a.depth
  }

  function SameSpan(a: Container, b: Container): bool {
    a.start == b.start && a.end == b.end
  }

  /** Owners of an id: containers of one page, each showing some text. */
  ghost predicate Owners(cs: seq<Container>) {
    Laminar(cs) && forall k :: 0 <= k < |cs| ==> cs[k].start < cs[k].end
  }

  /** The positions among the first `n` that hold an owner without another one inside. */
  function Leaves(cs: seq<Container>, n: nat): seq<nat>
    requires n <= |cs|
  {
    if n == 0 then []
    else if HasInner(cs, n - 1) then Leaves(cs, n - 1)
    else Leaves(cs, n - 1) + [n - 1]
  }

  lemma {:induction false} LeavesAre(cs: seq<Container>, n: nat)
    requires n <= |cs|
    ensures forall k: nat :: k in Leaves(cs, n) <==> k < n && !HasInner(cs, k)
    ensures forall x, y :: 0 <= x < y < |Leaves(cs, n)| ==> Leaves(cs, n)[x] < Leaves(cs, n)[y]
    ensures forall x :: 0 <= x < |Leaves(cs, n)| ==> Leaves(cs, n)[x] < n
  {
    hide HasInner;
    if n > 0 { LeavesAre(cs, n - 1); }
  }

  function At(cs: seq<Container>, ks: seq<nat>): (r: seq<Container>)
    requires forall x :: 0 <= x < |ks| ==> ks[x] < |cs|
    ensures |r| == |ks| && forall x :: 0 <= x < |ks| ==> r[x] == cs[ks[x]]
  {
    seq(|ks|, x requires 0 <= x < |ks| => cs[ks[x]])
  }

  /** Two leaves of a laminar family of non-empty spans are apart. */
  lemma {:induction false} LeavesAreApart(cs: seq<Container>, i: nat, j: nat)
    requires Owners(cs) && i < j < |cs| && !HasInner(cs, i) && !HasInner(cs, j)
    ensures cs[i].end <= cs[j].start
  {
    assert Ordered(cs[i], cs[j]);
  }

  /** Every owner contains a leaf. */
  lemma {:induction false} ContainsLeaf(cs: seq<Container>, i: nat, bound: nat) returns (k: nat)
    requires i < |cs| && forall c :: c in cs ==> c.depth <= bound
    ensures k < |cs| && !HasInner(cs, k) && cs[i].start <= cs[k].start && cs[k].end <= cs[i].end
    decreases bound - cs[i].depth
  {
    if HasInner(cs, i) {
      var o :| 0 <= o < |cs| && o != i && Inside(cs[o], cs[i]);
      assert cs[o] in cs;
      k := ContainsLeaf(cs, o, bound);
    } else {
      k := i;
    }
  }

  function MaxDepth(cs: seq<Container>, n: nat): (d: nat)
    requires n <= |cs|
    ensures forall k :: 0 <= k < n ==> cs[k].depth <= d
  {
    if n == 0 then 0
    else if cs[n - 1].depth > MaxDepth(cs, n - 1) then cs[n - 1].depth else MaxDepth(cs, n - 1)
  }

  /** `_innermost`: owners with another owner inside are dropped, and no span is kept twice. */
  method Innermost(cs: seq<Container>) returns (kept: seq<Container>)
    requires Owners(cs)
    ensures forall x :: 0 <= x < |Leaves(cs, |cs|)| ==> Leaves(cs, |cs|)[x] < |cs|
    ensures kept == At(cs, Leaves(cs, |cs|))
  {
    hide HasInner, Owners;
    kept := [];
    ghost var ks: seq<nat> := [];
    for i := 0 to |cs|
      invariant ks == Leaves(cs, i) && (forall x :: 0 <= x < |ks| ==> ks[x] < |cs|) && kept == At(cs, ks)
    {
      LeavesAre(cs, i);
      var inner := AnyInner(cs, i);
      if inner { continue; }
      var again := AnySame(kept, cs[i]);
      if again {
        ghost var x := SameAt(kept, cs[i]);
        LeavesDiffer(cs, ks[x], i);
        assert false;
      }
      kept := kept + [cs[i]];
      ks := ks + [i];
    }
  }

  lemma {:induction false} LeavesDiffer(cs: seq<Container>, i: nat, j: nat)
    requires Owners(cs) && i < j < |cs| && !HasInner(cs, i) && !HasInner(cs, j)
    ensures !SameSpan(cs[i], cs[j])
  {
    LeavesAreApart(cs, i, j);
  }

  lemma {:induction false} SameAt(kept: seq<Container>, c: Container) returns (x: nat)
    requires exists k :: 0 <= k < |kept| && SameSpan(kept[k], c)
    ensures x < |kept| && SameSpan(kept[x], c)
  {
    x :| x < |kept| && SameSpan(kept[x], c);
  }

  method AnyInner(cs: seq<Container>, i: nat) returns (b: bool)
    requires i < |cs|
    ensures b <==> HasInner(cs, i)
    ensures b <==>
      exists o :: 0 <= o < |cs| && o != i && DeeperWithin(cs[o], cs[i])
  {
    for o := 0 to |cs|
      invariant forall k :: 0 <= k < o && k != i ==> !Inside(cs[k], cs[i])
    {
      if o != i && Inside(cs[o], cs[i]) { return true; }
    }
    return false;
  }

  method AnySame(kept: seq<Container>, c: Container) returns (b: bool)
    ensures b <==> exists k :: 0 <= k < |kept| && SameSpan(kept[k], c)
    ensures b <==> exists k :: 0 <= k < |kept| && kept[k].start == c.start && kept[k].end == c.end
  {
    for k := 0 to |kept|
      invariant forall j :: 0 <= j < k ==> !SameSpan(kept[j], c)
    {
      if SameSpan(kept[k], c) { return true; }
    }
    return false;
  }

  predicate Around(a: Container, b: Container) {
    a.start <= b.start && b.end <= a.end
  }

  /** The `i`-th owner contains one of those kept. */
  ghost predicate HoldsKept(cs: seq<Container>, ks: seq<nat>, i: nat)
    requires i < |cs|
  {
    exists k: nat :: k in ks && k < |cs| && Around(cs[i], cs[k])
  }

  /** The kept owners are pairwise apart, and every owner contains one of them. */
  lemma {:induction false} InnermostCover(cs: seq<Container>, ks: seq<nat>)
    requires Owners(cs) && ks == Leaves(cs, |cs|)
    ensures forall x :: 0 <= x < |ks| ==> ks[x] < |cs|
    ensures forall x, y :: 0 <= x < y < |ks| ==> cs[ks[x]].end <= cs[ks[y]].start
    ensures forall i :: 0 <= i < |cs| ==> HoldsKept(cs, ks, i)
  {
    hide HasInner, Leaves;
    LeavesAre(cs, |cs|);
    forall x, y | 0 <= x < y < |ks| ensures cs[ks[x]].end <= cs[ks[y]].start {
      assert ks[x] in ks && ks[y] in ks;
      LeavesAreApart(cs, ks[x], ks[y]);
    }
    forall i | 0 <= i < |cs| ensures HoldsKept(cs, ks, i) {
      forall c | c in cs ensures c.depth <= MaxDepth(cs, |cs|) {}
      var k := ContainsLeaf(cs, i, MaxDepth(cs, |cs|));
      assert k in ks && Around(cs[i], cs[k]);
    }
  }

  /** All owners lie on one chain of ancestors. */
  ghost predicate OneChain(cs: seq<Container>) {
    forall i, j :: 0 <= i < j < |cs| ==> Inside(cs[i], cs[j])
  }

  /** Exactly one owner is kept exactly when there are owners and they all lie on one chain of ancestors: then an
      id labels one container. */
  lemma {:induction false} OneOwnerIffOneChain(cs: seq<Container>, ks: seq<nat>)
    requires Owners(cs) && ks == Leaves(cs, |cs|)
    ensures |ks| == 1 <==> cs != [] && OneChain(cs)
  {
    hide HasInner, Leaves, HoldsKept;
    InnermostCover(cs, ks);
    if |ks| == 1 { SingleLeafIsChain(cs, ks); }
    if cs != [] && OneChain(cs) { ChainHasSingleLeaf(cs, ks); }
  }

  lemma {:induction false} SingleLeafIsChain(cs: seq<Container>, ks: seq<nat>)
    requires Owners(cs) && |ks| == 1 && ks[0] < |cs|
    requires forall i :: 0 <= i < |cs| ==> HoldsKept(cs, ks, i)
    ensures OneChain(cs)
  {
    var leaf := cs[ks[0]];
    forall i | 0 <= i < |cs| ensures Around(cs[i], leaf) { assert HoldsKept(cs, ks, i); }
    forall i, j | 0 <= i < j < |cs| ensures Inside(cs[i], cs[j]) {
      assert Ordered(cs[i], cs[j]) && Around(cs[i], leaf) && Around(cs[j], leaf);
    }
  }

  lemma {:induction false} ChainHasSingleLeaf(cs: seq<Container>, ks: seq<nat>)
    requires Owners(cs) && cs != [] && OneChain(cs)
    requires forall i :: 0 <= i < |cs| ==> HoldsKept(cs, ks, i)
    requires forall x :: 0 <= x < |ks| ==> ks[x] < |cs|
    requires forall x, y :: 0 <= x < y < |ks| ==> cs[ks[x]].end <= cs[ks[y]].start
    ensures |ks| == 1
  {
    assert HoldsKept(cs, ks, 0);
    if |ks| > 1 { ChainedMeet(cs, ks[0], ks[1]); }
  }

  lemma {:induction false} ChainedMeet(cs: seq<Container>, i: nat, j: nat)
    requires Owners(cs) && OneChain(cs) && i < |cs| && j < |cs|
    ensures cs[j].start < cs[i].end
  {
    var first, second := if i < j then i else j, if i < j then j else i;
    assert first == second || Inside(cs[first], cs[second]);
  }

  // ----- empty shells -----

  /** Half-open stretches of a text. */
  datatype Stretch = Stretch(start: nat, end: nat)

  predicate Covered(hs: seq<Stretch>, i: nat) {
    exists h :: h in hs && h.start <= i < h.end
  }

  /** The characters of the first `n` that lie in none of the stretches, in order. */
  function Outside(t: string, hs: seq<Stretch>, n: nat): string
    requires n <= |t|
  {
    if n == 0 then ""
    else if Covered(hs, n - 1) then Outside(t, hs, n - 1)
    else Outside(t, hs, n - 1) + [t[n - 1]]
  }

  lemma {:induction false} OutsideGap(t: string, hs: seq<Stretch>, a: nat, b: nat)
    requires a <= b <= |t| && forall i :: a <= i < b ==> !Covered(hs, i)
    ensures Outside(t, hs, b) == Outside(t, hs, a) + t[a..b]
  {
    hide Covered;
    if a < b {
      OutsideGap(t, hs, a, b - 1);
      assert t[a..b] == t[a..b - 1] + [t[b - 1]];
      Assoc(Outside(t, hs, a), t[a..b - 1], [t[b - 1]]);
    } else {
      assert t[a..b] == "" && Outside(t, hs, a) + "" == Outside(t, hs, a);
    }
  }

  lemma {:induction false} OutsideCovered(t: string, hs: seq<Stretch>, a: nat, b: nat)
    requires a <= b <= |t| && forall i :: a <= i < b ==> Covered(hs, i)
    ensures Outside(t, hs, b) == Outside(t, hs, a)
  {
    hide Covered;
    if a < b { OutsideCovered(t, hs, a, b - 1); }
  }

  ghost predicate SortedByStart(hs: seq<Stretch>) {
    forall i, j :: 0 <= i < j < |hs| ==> hs[i].start <= hs[j].start
  }

  /** Carves sorted stretches, nested and adjacent ones included, out of a text. */
  method Carve(t: string, hs: seq<Stretch>) returns (body: string)
    requires SortedByStart(hs) && forall h :: h in hs ==> h.start <= h.end <= |t|
    ensures body == Outside(t, hs, |t|)
  {
    hide Covered, Outside, SortedByStart;
    body := "";
    var cursor: nat := 0;
    NothingOutside(t, hs);
    for k := 0 to |hs|
      invariant cursor <= |t| && body == Outside(t, hs, cursor)
      invariant forall j :: 0 <= j < k ==> hs[j].end <= cursor
      invariant k > 0 ==> hs[k - 1].end <= cursor
    {
      var s, e := hs[k].start, hs[k].end;
      assert hs[k] in hs;
      if s > cursor {
        GapBefore(t, hs, k, cursor);
        OutsideGap(t, hs, cursor, s);
        body := body + t[cursor..s];
      }
      UnderHeading(hs, k, cursor);
      var later := if s > cursor then s else cursor;
      if e > later {
        OutsideCovered(t, hs, later, e);
      }
      cursor := if e > cursor then e else cursor;
    }
    AfterAll(t, hs, cursor);
    OutsideGap(t, hs, cursor, |t|);
    body := body + t[cursor..];
  }

  lemma {:induction false} NothingOutside(t: string, hs: seq<Stretch>)
    ensures Outside(t, hs, 0) == ""
  {
  }

  lemma {:induction false} GapBefore(t: string, hs: seq<Stretch>, k: nat, cursor: nat)
    requires SortedByStart(hs) && k < |hs| && forall j :: 0 <= j < k ==> hs[j].end <= cursor
    ensures forall i :: cursor <= i < hs[k].start ==> !Covered(hs, i)
  {
    forall i | cursor <= i < hs[k].start ensures !Covered(hs, i) {
      forall j | 0 <= j < |hs| ensures !(hs[j].start <= i < hs[j].end) {
        if j > k { assert hs[k].start <= hs[j].start; }
      }
    }
  }

  lemma {:induction false} UnderHeading(hs: seq<Stretch>, k: nat, cursor: nat)
    requires k < |hs|
    ensures forall i :: hs[k].start <= i < hs[k].end ==> Covered(hs, i)
  {
    assert hs[k] in hs;
  }

  lemma {:induction false} AfterAll(t: string, hs: seq<Stretch>, cursor: nat)
    requires forall j :: 0 <= j < |hs| ==> hs[j].end <= cursor
    ensures forall i :: cursor <= i < |t| ==> !Covered(hs, i)
  {
  }

  /** Sorting by start, as `sorted(…, key=start)` does. */
  method SortByStart(hs: seq<Stretch>) returns (r: seq<Stretch>)
    ensures SortedByStart(r) && multiset(r) == multiset(hs)
  {
    hide SortedByStart;
    r := [];
    EmptyIsSorted();
    for k := 0 to |hs|
      invariant SortedByStart(r) && multiset(r) == multiset(hs[..k])
    {
      assert hs[..k + 1] == hs[..k] + [hs[k]];
      r := InsertByStart(r, hs[k]);
    }
    assert hs[..|hs|] == hs;
  }

  lemma {:induction false} EmptyIsSorted()
    ensures SortedByStart([])
  {
  }

  method InsertByStart(s: seq<Stretch>, h: Stretch) returns (r: seq<Stretch>)
    requires SortedByStart(s)
    ensures SortedByStart(r) && multiset(r) == multiset(s) + multiset{h}
  {
    var i := |s|;
    while i > 0 && s[i - 1].start > h.start
      invariant 0 <= i <= |s| && forall j :: i <= j < |s| ==> s[j].start > h.start
    {
      i := i - 1;
    }
    r := s[..i] + [h] + s[i..];
    InsertedSorted(s, h, i);
    InsertedMembers(s, h, i);
  }

  lemma {:induction false} InsertedSorted(s: seq<Stretch>, h: Stretch, i: nat)
    requires SortedByStart(s) && i <= |s|
    requires i > 0 ==> s[i - 1].start <= h.start
    requires forall j :: i <= j < |s| ==> s[j].start > h.start
    ensures SortedByStart(s[..i] + [h] + s[i..])
  {
    var r := s[..i] + [h] + s[i..];
    forall j | 0 <= j < |r| ensures r[j] == if j < i then s[j] else if j == i then h else s[j - 1] {}
    forall j | 0 <= j < i ensures s[j].start <= h.start {
      if j < i - 1 { assert s[j].start <= s[i - 1].start; }
    }
  }

  lemma {:induction false} InsertedMembers(s: seq<Stretch>, h: Stretch, i: nat)
    requires i <= |s|
    ensures multiset(s[..i] + [h] + s[i..]) == multiset(s) + multiset{h}
  {
    TakeDrop(s, i);
    assert multiset(s) == multiset(s[..i]) + multiset(s[i..]);
  }

  lemma {:induction false} OutsideDependsOnSet(t: string, a: seq<Stretch>, b: seq<Stretch>, n: nat)
    requires multiset(a) == multiset(b) && n <= |t|
    ensures Outside(t, a, n) == Outside(t, b, n)
  {
    if n > 0 {
      OutsideDependsOnSet(t, a, b, n - 1);
      forall h ensures h in a <==> h in b { assert h in a <==> h in multiset(a); assert h in b <==> h in multiset(b); }
    }
  }

  /** The headings inside a unit, relative to the unit's text, among the first `n`. */
  function Inner(unit: Container, headings: seq<Container>, n: nat): seq<Stretch>
    requires n <= |headings|
  {
    if n == 0 then []
    else
      var h := headings[n - 1];
      if unit.start <= h.start <= h.end <= unit.end
      then Inner(unit, headings, n - 1) + [Stretch(h.start - unit.start, h.end - unit.start)]
      else Inner(unit, headings, n - 1)
  }

  /** A titled unit that says nothing outside its headings. */
  predicate EmptyShell(isWord: char -> bool, t: string, hs: seq<Stretch>) {
    hs != [] && forall i :: 0 <= i < |t| && isWord(t[i]) ==> Covered(hs, i)
  }

  predicate HasWord(isWord: char -> bool, s: string) {
    exists i :: 0 <= i < |s| && isWord(s[i])
  }

  lemma {:induction false} HasWordStep(isWord: char -> bool, s: string, c: char)
    ensures HasWord(isWord, s + [c]) <==> HasWord(isWord, s) || isWord(c)
  {
    var t := s + [c];
    assert t[|s|] == c && forall i :: 0 <= i < |s| ==> t[i] == s[i];
  }

  /** A word character among the first `n` lies in none of the stretches. */
  predicate SaysMore(isWord: char -> bool, t: string, hs: seq<Stretch>, n: nat)
    requires n <= |t|
  {
    exists i :: 0 <= i < n && isWord(t[i]) && !Covered(hs, i)
  }

  lemma {:induction false} OutsideHasWord(isWord: char -> bool, t: string, hs: seq<Stretch>, n: nat)
    requires n <= |t|
    ensures HasWord(isWord, Outside(t, hs, n)) <==> SaysMore(isWord, t, hs, n)
  {
    hide Covered;
    if n > 0 {
      OutsideHasWord(isWord, t, hs, n - 1);
      HasWordStep(isWord, Outside(t, hs, n - 1), t[n - 1]);
      assert SaysMore(isWord, t, hs, n)
        <==> SaysMore(isWord, t, hs, n - 1) || (isWord(t[n - 1]) && !Covered(hs, n - 1));
    }
  }

  predicate OnlyHeadings(isWord: char -> bool, doc: string, unit: Container, headings: seq<Container>) {
    EmptyShell(isWord, TextOf(doc, unit), Inner(unit, headings, |headings|))
  }

  /** A unit is reported exactly when it has a heading and no word character outside its headings. */
  method IsEmptyShell(isWord: char -> bool, doc: string, unit: Container, headings: seq<Container>)
    returns (empty: bool)
    requires unit.start <= unit.end <= |doc|
    ensures empty <==> OnlyHeadings(isWord, doc, unit, headings)
  {
    hide Covered, Outside;
    var hs := InnerHeadings(unit, headings);
    if |hs| == 0 { return false; }
    InnerFits(unit, headings, |headings|);
    var ordered := SortByStart(hs);
    SameMembers(ordered, hs);
    var t := TextOf(doc, unit);
    var body := Carve(t, ordered);
    OutsideDependsOnSet(t, ordered, hs, |t|);
    OutsideHasWord(isWord, t, hs, |t|);
    var hasWord := SearchWord(isWord, body);
    empty := !hasWord;
  }

  method InnerHeadings(unit: Container, headings: seq<Container>) returns (hs: seq<Stretch>)
    ensures hs == Inner(unit, headings, |headings|)
  {
    hs := [];
    for n := 0 to |headings|
      invariant hs == Inner(unit, headings, n)
    {
      var h := headings[n];
      if unit.start <= h.start <= h.end <= unit.end {
        hs := hs + [Stretch(h.start - unit.start, h.end - unit.start)];
      }
    }
  }

  method SearchWord(isWord: char -> bool, s: string) returns (found: bool)
    ensures found <==> HasWord(isWord, s)
  {
    for i := 0 to |s|
      invariant forall j :: 0 <= j < i ==> !isWord(s[j])
    {
      if isWord(s[i]) { return true; }
    }
    return false;
  }

  lemma {:induction false} InnerFits(unit: Container, headings: seq<Container>, n: nat)
    requires n <= |headings|
    ensures forall h :: h in Inner(unit, headings, n) ==> h.start <= h.end && h.end + unit.start <= unit.end
  {
    if n > 0 { InnerFits(unit, headings, n - 1); }
  }

  lemma {:induction false} SameMembers(a: seq<Stretch>, b: seq<Stretch>)
    requires multiset(a) == multiset(b)
    ensures forall h :: h in a <==> h in b
  {
    forall h ensures h in a <==> h in b { assert h in a <==> h in multiset(a); assert h in b <==> h in multiset(b); }
  }

  function Headings(cs: seq<Container>, isHeading: string -> bool, n: nat): seq<Container>
    requires n <= |cs|
  {
    if n == 0 then []
    else if isHeading(cs[n - 1].tag) then Headings(cs, isHeading, n - 1) + [cs[n - 1]]
    else Headings(cs, isHeading, n - 1)
  }

  /** The `k`-th container is a unit and an empty shell. */
  predicate IsShell(isWord: char -> bool, isHeading: string -> bool, doc: string, cs: seq<Container>, k: nat) {
    k < |cs| && cs[k].isUnit && OnlyHeadings(isWord, doc, cs[k], Headings(cs, isHeading, |cs|))
  }

  /** Container `j` is a heading inside container `k`. */
  ghost predicate HeadingIn(isHeading: string -> bool, cs: seq<Container>, k: int, j: int)
    requires 0 <= k < |cs|
  {
    0 <= j < |cs| && isHeading(cs[j].tag) && cs[k].start <= cs[j].start && cs[j].end <= cs[k].end
  }

  /** Container `k` is a unit that has a heading, and every word character of it stands in a heading of it. */
  ghost predicate SaysNothing(isWord: char -> bool, isHeading: string -> bool, doc: string, cs: seq<Container>,
                              k: int) {
    && 0 <= k < |cs| && cs[k].isUnit && (exists j :: HeadingIn(isHeading, cs, k, j))
    && forall i :: cs[k].start <= i < cs[k].end && i < |doc| && isWord(doc[i]) ==>
         exists j :: HeadingIn(isHeading, cs, k, j) && cs[j].start <= i < cs[j].end
  }

  lemma {:induction false} HeadingsAre(cs: seq<Container>, isHeading: string -> bool, n: nat)
    requires n <= |cs|
    ensures forall h ::
      h in Headings(cs, isHeading, n) <==> exists j :: 0 <= j < n && isHeading(cs[j].tag) && cs[j] == h
  {
    if n > 0 { HeadingsAre(cs, isHeading, n - 1); }
  }

  lemma {:induction false} InnerAre(unit: Container, headings: seq<Container>, n: nat, s: Stretch)
    requires n <= |headings|
    ensures s in Inner(unit, headings, n)
      <==> exists k :: 0 <= k < n && unit.start <= headings[k].start <= headings[k].end <= unit.end
             && s == Stretch(headings[k].start - unit.start, headings[k].end - unit.start)
  {
    if n > 0 { InnerAre(unit, headings, n - 1, s); }
  }

  /** The stretches carved out of a unit's text are those of its headings. */
  lemma {:induction false} InnerIs(isHeading: string -> bool, cs: seq<Container>, k: nat, s: Stretch)
    requires k < |cs| && forall j :: 0 <= j < |cs| ==> cs[j].start <= cs[j].end
    ensures s in Inner(cs[k], Headings(cs, isHeading, |cs|), |Headings(cs, isHeading, |cs|)|)
      <==> exists j :: HeadingIn(isHeading, cs, k, j)
             && s == Stretch(cs[j].start - cs[k].start, cs[j].end - cs[k].start)
  {
    hide Headings, Inner;
    var hs := Headings(cs, isHeading, |cs|);
    HeadingsAre(cs, isHeading, |cs|);
    InnerAre(cs[k], hs, |hs|, s);
    if j :| HeadingIn(isHeading, cs, k, j) && s == Stretch(cs[j].start - cs[k].start, cs[j].end - cs[k].start) {
      assert cs[j] in hs;
    }
    if s in Inner(cs[k], hs, |hs|) {
      var x :| 0 <= x < |hs| && cs[k].start <= hs[x].start <= hs[x].end <= cs[k].end
               && s == Stretch(hs[x].start - cs[k].start, hs[x].end - cs[k].start);
      assert hs[x] in hs;
      var j :| 0 <= j < |cs| && isHeading(cs[j].tag) && cs[j] == hs[x];
      assert HeadingIn(isHeading, cs, k, j);
    }
  }

  lemma {:induction false} CoveredIs(isHeading: string -> bool, cs: seq<Container>, k: nat, i: nat)
    requires k < |cs| && forall j :: 0 <= j < |cs| ==> cs[j].start <= cs[j].end
    ensures Covered(Inner(cs[k], Headings(cs, isHeading, |cs|), |Headings(cs, isHeading, |cs|)|), i)
      <==> exists j :: HeadingIn(isHeading, cs, k, j) && cs[j].start <= cs[k].start + i < cs[j].end
  {
    hide Headings, Inner;
    var hs := Headings(cs, isHeading, |cs|);
    var inner := Inner(cs[k], hs, |hs|);
    if h :| h in inner && h.start <= i < h.end { InnerIs(isHeading, cs, k, h); }
    if j :| HeadingIn(isHeading, cs, k, j) && cs[j].start <= cs[k].start + i < cs[j].end {
      var h := Stretch(cs[j].start - cs[k].start, cs[j].end - cs[k].start);
      InnerIs(isHeading, cs, k, h);
      assert h in inner;
    }
  }

  lemma {:induction false} ShellIff(isWord: char -> bool, isHeading: string -> bool, doc: string, cs: seq<Container>,
                                    k: nat)
    requires forall j :: 0 <= j < |cs| ==> cs[j].start <= cs[j].end <= |doc|
    ensures IsShell(isWord, isHeading, doc, cs, k) <==> SaysNothing(isWord, isHeading, doc, cs, k)
  {
    hide Headings, Inner, Covered;
    if k < |cs| {
      var hs := Headings(cs, isHeading, |cs|);
      var inner, t := Inner(cs[k], hs, |hs|), TextOf(doc, cs[k]);
      assert |t| == cs[k].end - cs[k].start && forall i :: 0 <= i < |t| ==> t[i] == doc[cs[k].start + i];
      if inner != [] {
        InnerIs(isHeading, cs, k, inner[0]);
        assert inner[0] in inner;
      }
      if j :| HeadingIn(isHeading, cs, k, j) { HeadingCarved(isHeading, cs, k, j); }
      forall i: nat | i < |t|
        ensures Covered(inner, i)
          <==> exists j :: HeadingIn(isHeading, cs, k, j) && cs[j].start <= cs[k].start + i < cs[j].end
      {
        CoveredIs(isHeading, cs, k, i);
      }
      if SaysNothing(isWord, isHeading, doc, cs, k) {
        forall i | 0 <= i < |t| && isWord(t[i]) ensures Covered(inner, i) {
          assert isWord(doc[cs[k].start + i]);
        }
      }
      if IsShell(isWord, isHeading, doc, cs, k) {
        forall i | cs[k].start <= i < cs[k].end && i < |doc| && isWord(doc[i])
          ensures exists j :: HeadingIn(isHeading, cs, k, j) && cs[j].start <= i < cs[j].end
        {
          assert t[i - cs[k].start] == doc[i] && Covered(inner, i - cs[k].start);
        }
      }
    }
  }

  lemma {:induction false} HeadingCarved(isHeading: string -> bool, cs: seq<Container>, k: nat, j: int)
    requires k < |cs| && HeadingIn(isHeading, cs, k, j)
    requires forall j :: 0 <= j < |cs| ==> cs[j].start <= cs[j].end
    ensures Inner(cs[k], Headings(cs, isHeading, |cs|), |Headings(cs, isHeading, |cs|)|) != []
  {
    InnerIs(isHeading, cs, k, Stretch(cs[j].start - cs[k].start, cs[j].end - cs[k].start));
  }

  /** The units reported as empty shells, each once and in document order. */
  method CheckEmptyShells(isWord: char -> bool, isHeading: string -> bool, doc: string, cs: seq<Container>)
    returns (shells: seq<nat>)
    requires Within(cs, 0, |doc|, 0)
    ensures forall k: nat :: k in shells <==> SaysNothing(isWord, isHeading, doc, cs, k)
    ensures forall x, y :: 0 <= x < y < |shells| ==> shells[x] < shells[y]
  {
    hide EmptyShell, TextOf, Inner, SaysNothing, OnlyHeadings;
    var headings := [];
    for n := 0 to |cs|
      invariant headings == Headings(cs, isHeading, n)
    {
      if isHeading(cs[n].tag) {
        headings := headings + [cs[n]];
      }
    }
    shells := [];
    for n := 0 to |cs|
      invariant forall k: nat :: k in shells <==> k < n && IsShell(isWord, isHeading, doc, cs, k)
      invariant forall x, y :: 0 <= x < y < |shells| ==> shells[x] < shells[y]
      invariant forall x :: 0 <= x < |shells| ==> shells[x] < n
    {
      if cs[n].isUnit {
        var empty := IsEmptyShell(isWord, doc, cs[n], headings);
        if empty {
          shells := shells + [n];
        }
      }
    }
    forall k: nat ensures IsShell(isWord, isHeading, doc, cs, k) <==> SaysNothing(isWord, isHeading, doc, cs, k) {
      ShellIff(isWord, isHeading, doc, cs, k);
    }
  }

  // ----- gap markers -----

  predicate Carries(text: string, question: string) {
    Find(text, question, 0) != -1
  }

  /** The question stands in the text. */
  ghost predicate Holds(text: string, question: string) {
    exists i :: Occurs(text, question, i)
  }

  lemma {:induction false} CarriesIff(text: string, question: string)
    ensures Carries(text, question) <==> Holds(text, question)
  {
    if i :| Occurs(text, question, i) { assert i >= 0; }
  }

  /** How many of the first `n` markers carry the question. */
  function MarkersWith(texts: seq<string>, question: string, n: nat): nat
    requires n <= |texts|
  {
    if n == 0 then 0 else MarkersWith(texts, question, n - 1) + (if Carries(texts[n - 1], question) then 1 else 0)
  }

  /** How many of the first `n` questions the marker carries. */
  function QuestionsIn(questions: seq<string>, text: string, n: nat): nat
    requires n <= |questions|
  {
    if n == 0 then 0 else QuestionsIn(questions, text, n - 1) + (if Carries(text, questions[n - 1]) then 1 else 0)
  }

  /** None of the texts holds the question. */
  ghost predicate NoneHolds(texts: seq<string>, question: string) {
    forall c :: 0 <= c < |texts| ==> !Holds(texts[c], question)
  }

  /** Two of the texts hold the question. */
  ghost predicate TwoHold(texts: seq<string>, question: string) {
    exists c, e :: 0 <= c < e < |texts| && Holds(texts[c], question) && Holds(texts[e], question)
  }

  /** The text holds none of the questions. */
  ghost predicate HoldsNone(questions: seq<string>, text: string) {
    forall q :: 0 <= q < |questions| ==> !Holds(text, questions[q])
  }

  /** The text holds two of the questions. */
  ghost predicate HoldsTwo(questions: seq<string>, text: string) {
    exists q, p :: 0 <= q < p < |questions| && Holds(text, questions[q]) && Holds(text, questions[p])
  }

  lemma {:induction false} MarkersCounted(texts: seq<string>, question: string, n: nat)
    requires n <= |texts|
    ensures MarkersWith(texts, question, n) == 0 <==> NoneHolds(texts[..n], question)
    ensures MarkersWith(texts, question, n) > 1 <==> TwoHold(texts[..n], question)
  {
    hide Carries, Holds;
    if n > 0 {
      MarkersCounted(texts, question, n - 1);
      CarriesIff(texts[n - 1], question);
      assert forall k :: 0 <= k < n - 1 ==> texts[..n][k] == texts[..n - 1][k];
      assert texts[..n][n - 1] == texts[n - 1];
    }
  }

  lemma {:induction false} QuestionsCounted(questions: seq<string>, text: string, n: nat)
    requires n <= |questions|
    ensures QuestionsIn(questions, text, n) == 0 <==> HoldsNone(questions[..n], text)
    ensures QuestionsIn(questions, text, n) > 1 <==> HoldsTwo(questions[..n], text)
  {
    hide Carries, Holds;
    if n > 0 {
      QuestionsCounted(questions, text, n - 1);
      CarriesIff(text, questions[n - 1]);
      assert forall k :: 0 <= k < n - 1 ==> questions[..n][k] == questions[..n - 1][k];
      assert questions[..n][n - 1] == questions[n - 1];
    }
  }

  datatype GapViolation = Dropped(question: nat) | Repeated(question: nat) | Invented(marker: nat) | Merged(marker: nat)

  function QuestionVerdict(q: nat, n: nat): seq<GapViolation> {
    if n == 0 then [Dropped(q)] else if n > 1 then [Repeated(q)] else []
  }

  function MarkerVerdict(c: nat, n: nat): seq<GapViolation> {
    if n == 0 then [Invented(c)] else if n > 1 then [Merged(c)] else []
  }

  ghost predicate OneToOne(questions: seq<string>, texts: seq<string>) {
    && (forall q :: 0 <= q < |questions| ==> MarkersWith(texts, questions[q], |texts|) == 1)
    && (forall c :: 0 <= c < |texts| ==> QuestionsIn(questions, texts[c], |questions|) == 1)
  }

  /** What is reported of the first `n` questions. */
  ghost predicate QuestionsReported(violations: seq<GapViolation>, questions: seq<string>, texts: seq<string>, n: nat)
    requires n <= |questions|
  {
    forall q: nat ::
      && (Dropped(q) in violations <==> q < n && MarkersWith(texts, questions[q], |texts|) == 0)
      && (Repeated(q) in violations <==> q < n && MarkersWith(texts, questions[q], |texts|) > 1)
  }

  /** What is reported of the first `n` markers. */
  ghost predicate MarkersReported(violations: seq<GapViolation>, questions: seq<string>, texts: seq<string>, n: nat)
    requires n <= |texts|
  {
    forall c: nat ::
      && (Invented(c) in violations <==> c < n && QuestionsIn(questions, texts[c], |questions|) == 0)
      && (Merged(c) in violations <==> c < n && QuestionsIn(questions, texts[c], |questions|) > 1)
  }

  method CountMarkers(texts: seq<string>, question: string) returns (n: nat)
    ensures n == MarkersWith(texts, question, |texts|)
  {
    n := 0;
    for c := 0 to |texts|
      invariant n == MarkersWith(texts, question, c)
    {
      if Carries(texts[c], question) { n := n + 1; }
    }
  }

  method CountQuestions(questions: seq<string>, text: string) returns (matched: nat)
    ensures matched == QuestionsIn(questions, text, |questions|)
  {
    matched := 0;
    for q := 0 to |questions|
      invariant matched == QuestionsIn(questions, text, q)
    {
      if Carries(text, questions[q]) { matched := matched + 1; }
    }
  }

  /** What is found about the questions, and nothing about markers yet. */
  method CheckQuestions(questions: seq<string>, texts: seq<string>) returns (violations: seq<GapViolation>)
    ensures QuestionsReported(violations, questions, texts, |questions|)
    ensures MarkersReported(violations, questions, texts, 0)
    ensures violations == [] <==> forall q :: 0 <= q < |questions| ==> MarkersWith(texts, questions[q], |texts|) == 1
  {
    hide MarkersWith, QuestionsIn;
    violations := [];
    for q := 0 to |questions|
      invariant violations == [] <==> forall j :: 0 <= j < q ==> MarkersWith(texts, questions[j], |texts|) == 1
      invariant QuestionsReported(violations, questions, texts, q) && MarkersReported(violations, questions, texts, 0)
    {
      var n := CountMarkers(texts, questions[q]);
      violations := violations + QuestionVerdict(q, n);
    }
  }

  /** Then what is found about the markers. */
  method CheckMarkers(questions: seq<string>, texts: seq<string>, before: seq<GapViolation>)
    returns (violations: seq<GapViolation>)
    requires QuestionsReported(before, questions, texts, |questions|) && MarkersReported(before, questions, texts, 0)
    ensures QuestionsReported(violations, questions, texts, |questions|)
    ensures MarkersReported(violations, questions, texts, |texts|)
    ensures violations == []
      <==> before == [] && forall c :: 0 <= c < |texts| ==> QuestionsIn(questions, texts[c], |questions|) == 1
  {
    hide MarkersWith, QuestionsIn;
    violations := before;
    for c := 0 to |texts|
      invariant QuestionsReported(violations, questions, texts, |questions|)
      invariant MarkersReported(violations, questions, texts, c)
      invariant violations == []
        <==> before == [] && forall j :: 0 <= j < c ==> QuestionsIn(questions, texts[j], |questions|) == 1
    {
      var matched := CountQuestions(questions, texts[c]);
      violations := violations + MarkerVerdict(c, matched);
    }
  }

  lemma {:induction false} CountsMean(questions: seq<string>, texts: seq<string>)
    ensures forall q :: 0 <= q < |questions| ==>
      && (MarkersWith(texts, questions[q], |texts|) == 0 <==> NoneHolds(texts, questions[q]))
      && (MarkersWith(texts, questions[q], |texts|) > 1 <==> TwoHold(texts, questions[q]))
    ensures forall c :: 0 <= c < |texts| ==>
      && (QuestionsIn(questions, texts[c], |questions|) == 0 <==> HoldsNone(questions, texts[c]))
      && (QuestionsIn(questions, texts[c], |questions|) > 1 <==> HoldsTwo(questions, texts[c]))
  {
    hide NoneHolds, TwoHold, HoldsNone, HoldsTwo, MarkersWith, QuestionsIn;
    assert texts[..|texts|] == texts && questions[..|questions|] == questions;
    forall q | 0 <= q < |questions|
      ensures MarkersWith(texts, questions[q], |texts|) == 0 <==> NoneHolds(texts, questions[q])
      ensures MarkersWith(texts, questions[q], |texts|) > 1 <==> TwoHold(texts, questions[q])
    {
      MarkersCounted(texts, questions[q], |texts|);
    }
    forall c | 0 <= c < |texts|
      ensures QuestionsIn(questions, texts[c], |questions|) == 0 <==> HoldsNone(questions, texts[c])
      ensures QuestionsIn(questions, texts[c], |questions|) > 1 <==> HoldsTwo(questions, texts[c])
    {
      QuestionsCounted(questions, texts[c], |questions|);
    }
  }

  /** The gap-marker check, on the non-empty open questions and the texts of the markers. */
  method CheckGapMarkers(questions: seq<string>, texts: seq<string>) returns (violations: seq<GapViolation>)
    ensures violations == [] <==> OneToOne(questions, texts)
    ensures forall q: nat :: Dropped(q) in violations <==> q < |questions| && NoneHolds(texts, questions[q])
    ensures forall q: nat :: Repeated(q) in violations <==> q < |questions| && TwoHold(texts, questions[q])
    ensures forall c: nat :: Invented(c) in violations <==> c < |texts| && HoldsNone(questions, texts[c])
    ensures forall c: nat :: Merged(c) in violations <==> c < |texts| && HoldsTwo(questions, texts[c])
  {
    hide NoneHolds, TwoHold, HoldsNone, HoldsTwo, MarkersWith, QuestionsIn;
    var first := CheckQuestions(questions, texts);
    violations := CheckMarkers(questions, texts, first);
    CountsMean(questions, texts);
  }

  /** Pairs of a question and a marker carrying it, summed over the first `n` questions. */
  function PairsByQuestion(questions: seq<string>, texts: seq<string>, n: nat): nat
    requires n <= |questions|
  {
    if n == 0 then 0 else PairsByQuestion(questions, texts, n - 1) + MarkersWith(texts, questions[n - 1], |texts|)
  }

  /** The same pairs with the first `n` questions, summed over the first `m` markers. */
  function PairsByMarker(questions: seq<string>, texts: seq<string>, n: nat, m: nat): nat
    requires n <= |questions| && m <= |texts|
  {
    if m == 0 then 0 else PairsByMarker(questions, texts, n, m - 1) + QuestionsIn(questions, texts[m - 1], n)
  }

  lemma {:induction false} OneMoreQuestion(questions: seq<string>, texts: seq<string>, n: nat, m: nat)
    requires 0 < n <= |questions| && m <= |texts|
    ensures PairsByMarker(questions, texts, n, m) == PairsByMarker(questions, texts, n - 1, m)
        + MarkersWith(texts, questions[n - 1], m)
  {
    hide Carries;
    if m > 0 { OneMoreQuestion(questions, texts, n, m - 1); }
  }

  lemma {:induction false} NoQuestions(questions: seq<string>, texts: seq<string>, m: nat)
    requires m <= |texts|
    ensures PairsByMarker(questions, texts, 0, m) == 0
  {
    if m > 0 { NoQuestions(questions, texts, m - 1); }
  }

  lemma {:induction false} PairsAgree(questions: seq<string>, texts: seq<string>, n: nat)
    requires n <= |questions|
    ensures PairsByQuestion(questions, texts, n) == PairsByMarker(questions, texts, n, |texts|)
  {
    hide QuestionsIn, MarkersWith;
    if n == 0 {
      NoQuestions(questions, texts, |texts|);
    } else {
      PairsAgree(questions, texts, n - 1);
      OneMoreQuestion(questions, texts, n, |texts|);
    }
  }

  lemma {:induction false} EachOnce(questions: seq<string>, texts: seq<string>, n: nat, m: nat)
    requires OneToOne(questions, texts) && n <= |questions| && m <= |texts|
    ensures PairsByQuestion(questions, texts, n) == n
    ensures PairsByMarker(questions, texts, |questions|, m) == m
  {
    hide QuestionsIn, MarkersWith;
    if n > 0 { EachOnce(questions, texts, n - 1, m); }
    if m > 0 { EachOnce(questions, texts, n, m - 1); }
  }

  /** A page without gap violations has as many markers as open questions: the match is one to one. */
  lemma {:induction false} AsManyMarkersAsGaps(questions: seq<string>, texts: seq<string>)
    requires OneToOne(questions, texts)
    ensures |questions| == |texts|
  {
    hide OneToOne;
    PairsAgree(questions, texts, |questions|);
    EachOnce(questions, texts, |questions|, |texts|);
  }
}
