/** The change set between two texts of a requirement document. */
module ChangeSummary {
  import opened Text
  import opened Blocks
  import opened Parser
  import opened BlockDiff
  import opened BlockDiffLaws

  // The parser's blocks are what the diff compares (`change_request_service.py`, `_change_summary`).  Two parses
  // share no block object, not even for one text.

  // ----- one text, one parse -----

  /** The sections of a text are determined by it. */
  lemma {:induction false} SpansAreUnique(g: Grammar, lines: seq<string>, a: map<string, Section>,
                                          b: map<string, Section>)
    requires AreSpans(g, lines, a) && AreSpans(g, lines, b)
    ensures a == b
  {
    hide AreSpans;
    forall name ensures name in a <==> name in b {
      if name in a { SpanIn(g, lines, a, b, name); }
      if name in b { SpanIn(g, lines, b, a, name); }
    }
    forall name | name in a ensures a[name] == b[name] {
      SpanIn(g, lines, a, b, name);
      SpanIn(g, lines, b, a, name);
      SameSection(g, lines, a[name], b[name]);
    }
  }

  lemma {:induction false} SpanIn(g: Grammar, lines: seq<string>, a: map<string, Section>, b: map<string, Section>,
                                  name: string)
    requires AreSpans(g, lines, a) && AreSpans(g, lines, b) && name in a
    ensures name in b && a[name].first <= b[name].first
    ensures a[name].name == name && IsSection(g, lines, a[name])
  {
    assert OpensNamed(g, lines, a[name].first, name);
  }

  lemma {:induction false} SameSection(g: Grammar, lines: seq<string>, a: Section, b: Section)
    requires IsSection(g, lines, a) && IsSection(g, lines, b) && a.first == b.first && a.name == b.name
    ensures a == b
  {
  }

  lemma {:induction false} OrderIsUnique(a: seq<Section>, b: seq<Section>, spans: map<string, Section>)
    requires Sorts(a, spans) && Sorts(b, spans)
    ensures a == b
  {
    var x, y := Starts(a), Starts(b);
    forall n: nat ensures n in x <==> n in y {
      StartsAre(a, n);
      StartsAre(b, n);
    }
    AscendingUnique(x, y);
    forall i | 0 <= i < |a| ensures a[i] == b[i] {
      assert a[i] in a;
      assert a[i] in b;
      var j :| 0 <= j < |b| && b[j] == a[i];
      assert y[j] == x[i] == y[i];
    }
  }

  function Starts(ss: seq<Section>): (ns: seq<nat>)
    ensures |ns| == |ss|
  {
    seq(|ss|, i requires 0 <= i < |ss| => ss[i].first)
  }

  lemma {:induction false} StartsAre(ss: seq<Section>, n: nat)
    ensures n in Starts(ss) <==> exists s :: s in ss && s.first == n
  {
    if s :| s in ss && s.first == n {
      var i :| 0 <= i < |ss| && ss[i] == s;
      assert Starts(ss)[i] == n;
    }
    if n in Starts(ss) {
      var i :| 0 <= i < |ss| && Starts(ss)[i] == n;
      assert ss[i] in ss;
    }
  }

  // ----- whole-section blocks -----

  predicate IsDirectional(s: Section) {
    StartsWith(s.name, "Directional")
  }

  /** No two whole-section blocks are of one kind. */
  ghost predicate OneBlockPerKind(blocks: seq<Block>) {
    forall i, j :: 0 <= i < j < |blocks| && blocks[i].level == 1 && blocks[j].level == 1 ==>
      blocks[i].kind != blocks[j].kind
  }

  /** `b` is the block of the whole section `s`. */
  predicate IsWhole(lines: seq<string>, s: Section, b: Block) {
    && 1 <= s.first <= s.last <= |lines|
    && TreatmentOf(s.name) == Whole(b.kind) && b == WholeBlock(b.kind, lines, s)
  }

  lemma {:induction false} RowsAreElements(g: Grammar, kind: BlockKind, lines: seq<string>, first: nat, n: nat)
    requires n <= |lines|
    ensures forall b :: b in RowsUpTo(g, kind, lines, first, n) ==> b.level == 2
  {
    if n > first && n > 0 { RowsAreElements(g, kind, lines, first, n - 1); }
  }

  lemma {:induction false} CutsAreElements(g: Grammar, kind: BlockKind, lines: seq<string>, ms: seq<nat>, last: nat,
                                           n: nat)
    requires Rising(ms, 0, last) && last <= |lines| && n <= |ms|
    ensures forall b :: b in BlocksUpTo(g, kind, lines, ms, last, n) ==> b.level == 2
  {
    hide Rising;
    if n > 0 { CutsAreElements(g, kind, lines, ms, last, n - 1); }
  }

  /** The level-1 blocks of a section: its own, if it is kept whole. */
  lemma {:induction false} WholeOfSection(g: Grammar, lines: seq<string>, s: Section)
    requires 1 <= s.first <= s.last <= |lines|
    ensures forall b :: b in SectionBlocks(g, lines, s) && b.level == 1 <==> IsWhole(lines, s, b)
  {
    hide TreatmentOf, SliceBody, TrimTo, RowsUpTo;
    match TreatmentOf(s.name)
    case Whole(kind) =>
    case Rows(kind) => RowsAreElements(g, kind, lines, s.first, s.last);
    case Cut(kind) =>
      var ms := MarkersOf(g, kind, lines, s.first, s.last);
      CutsAreElements(g, kind, lines, ms, s.last, |ms|);
    case Unrecognized =>
  }

  /** The level-1 blocks of a document are the blocks of its sections that are kept whole. */
  lemma {:induction false} WholeBlocksAre(g: Grammar, lines: seq<string>, ss: seq<Section>, n: nat, b: Block)
    requires n <= |ss| && InSourceOrder(lines, ss)
    ensures b in AllBlocks(g, lines, ss, n) && b.level == 1 <==> exists k :: 0 <= k < n && IsWhole(lines, ss[k], b)
  {
    hide SectionBlocks, IsWhole;
    if n > 0 {
      WholeBlocksAre(g, lines, ss, n - 1, b);
      WholeOfSection(g, lines, ss[n - 1]);
    }
  }

  /** There is at most one whole-section block of a kind, as the diff's keys take for granted, exactly when no two
      section names begin with `Directional`. */
  lemma {:induction false} OneBlockPerKindIff(g: Grammar, lines: seq<string>, spans: map<string, Section>,
                                              ss: seq<Section>)
    requires Sorts(ss, spans) && InSourceOrder(lines, ss)
    ensures OneBlockPerKind(AllBlocks(g, lines, ss, |ss|))
      <==> forall i, j :: 0 <= i < j < |ss| ==> !(IsDirectional(ss[i]) && IsDirectional(ss[j]))
  {
    hide IsDirectional, IsWhole, Sorts, WellPlaced, InSourceOrder, AllBlocks;
    var bs := AllBlocks(g, lines, ss, |ss|);
    AllBlocksArePlaced(g, lines, ss, |ss|);
    if OneBlockPerKind(bs) {
      forall i, j | 0 <= i < j < |ss| ensures !(IsDirectional(ss[i]) && IsDirectional(ss[j])) {
        if IsDirectional(ss[i]) && IsDirectional(ss[j]) { TwoDirectional(g, lines, ss, i, j); }
      }
    }
    if forall i, j :: 0 <= i < j < |ss| ==> !(IsDirectional(ss[i]) && IsDirectional(ss[j])) {
      forall i, j | 0 <= i < j < |bs| && bs[i].level == 1 && bs[j].level == 1 ensures bs[i].kind != bs[j].kind {
        InOrder(lines, bs, 1, if |ss| == 0 then 0 else ss[|ss| - 1].last, i, j);
        KindsDiffer(g, lines, spans, ss, bs[i], bs[j]);
      }
    }
  }

  lemma {:induction false} KindsDiffer(g: Grammar, lines: seq<string>, spans: map<string, Section>, ss: seq<Section>,
                                       b: Block, c: Block)
    requires Sorts(ss, spans) && InSourceOrder(lines, ss)
    requires forall i, j :: 0 <= i < j < |ss| ==> !(IsDirectional(ss[i]) && IsDirectional(ss[j]))
    requires b in AllBlocks(g, lines, ss, |ss|) && c in AllBlocks(g, lines, ss, |ss|)
    requires b.level == 1 && c.level == 1 && b.first < c.first
    ensures b.kind != c.kind
  {
    hide IsDirectional, IsWhole, Sorts, InSourceOrder, AllBlocks;
    WholeBlocksAre(g, lines, ss, |ss|, b);
    WholeBlocksAre(g, lines, ss, |ss|, c);
    var k :| 0 <= k < |ss| && IsWhole(lines, ss[k], b);
    var m :| 0 <= m < |ss| && IsWhole(lines, ss[m], c);
    WholeIsPlaced(lines, ss[k], b);
    WholeIsPlaced(lines, ss[m], c);
    assert k != m;
    NamesDiffer(ss, spans, k, m);
    WholeKinds(lines, ss[k], ss[m], b, c);
  }

  lemma {:induction false} InOrder(lines: seq<string>, bs: seq<Block>, first: nat, last: nat, i: nat, j: nat)
    requires WellPlaced(lines, bs, first, last) && i < j < |bs|
    ensures bs[i].first < bs[j].first
  {
  }

  lemma {:induction false} WholeIsPlaced(lines: seq<string>, s: Section, b: Block)
    requires IsWhole(lines, s, b)
    ensures b.first == s.first && b.level == 1
  {
  }

  lemma {:induction false} NamesDiffer(ss: seq<Section>, spans: map<string, Section>, i: nat, j: nat)
    requires Sorts(ss, spans) && i < |ss| && j < |ss| && i != j
    ensures ss[i].name != ss[j].name
  {
    assert ss[i] in ss && ss[j] in ss;
    assert ss[i].first != ss[j].first by { if i < j { assert ss[i].first < ss[j].first; } }
  }

  /** Two sections of different names that are kept whole have different kinds, unless both are directional. */
  lemma {:induction false} WholeKinds(lines: seq<string>, s: Section, t: Section, b: Block, c: Block)
    requires IsWhole(lines, s, b) && IsWhole(lines, t, c) && s.name != t.name
    requires !(IsDirectional(s) && IsDirectional(t))
    ensures b.kind != c.kind
  {
    hide WholeBlock, StartsWith, TreatmentOf;
    WholeNames(s.name, b.kind);
    WholeNames(t.name, c.kind);
  }

  lemma {:induction false} WholeNames(name: string, kind: BlockKind)
    requires TreatmentOf(name) == Whole(kind)
    ensures kind == Intent ==> name == "Intent"
    ensures kind == Evidence ==> name == "Evidence"
    ensures kind == Decision ==> name == "Decisions"
    ensures kind == Intent || kind == Evidence || kind == Decision || kind == Directional
    ensures kind == Directional ==> StartsWith(name, "Directional")
  {
    hide StartsWith;
  }

  lemma {:induction false} TwoDirectional(g: Grammar, lines: seq<string>, ss: seq<Section>, i: nat, j: nat)
    requires InSourceOrder(lines, ss) && i < j < |ss| && IsDirectional(ss[i]) && IsDirectional(ss[j])
    ensures !OneBlockPerKind(AllBlocks(g, lines, ss, |ss|))
  {
    hide IsWhole, IsDirectional, AllBlocks;
    var bs := AllBlocks(g, lines, ss, |ss|);
    var b, c := WholeBlock(Directional, lines, ss[i]), WholeBlock(Directional, lines, ss[j]);
    DirectionalIsWhole(lines, ss[i], b);
    DirectionalIsWhole(lines, ss[j], c);
    WholeIsPlaced(lines, ss[i], b);
    WholeIsPlaced(lines, ss[j], c);
    WholeBlocksAre(g, lines, ss, |ss|, b);
    WholeBlocksAre(g, lines, ss, |ss|, c);
    var x :| 0 <= x < |bs| && bs[x] == b;
    var y :| 0 <= y < |bs| && bs[y] == c;
    assert x != y;
  }

  lemma {:induction false} DirectionalIsWhole(lines: seq<string>, s: Section, b: Block)
    requires 1 <= s.first <= s.last <= |lines| && IsDirectional(s) && b == WholeBlock(Directional, lines, s)
    ensures IsWhole(lines, s, b) && b.kind == Directional
  {
    hide TrimTo, SliceBody;
    assert "Directional"[0] == 'D' && s.name[..11][0] == s.name[0];
  }

  // ----- comparing two texts -----

  /** The objects one parse makes of its blocks, with identities from `from` on. */
  function Objects(blocks: seq<Block>, from: nat): (os: seq<BlockObject>)
    ensures |os| == |blocks|
    ensures forall i :: 0 <= i < |blocks| ==> os[i].block == blocks[i]
  {
    seq(|blocks|, i requires 0 <= i < |blocks| => BlockObject(from + i, blocks[i]))
  }

  lemma {:induction false} ParsesAgree(a: seq<Block>, b: seq<Block>)
    ensures ObjectsAgree(Objects(a, 0), Objects(b, |a|)) && NoSharedObject(Objects(a, 0) + Objects(b, |a|))
  {
  }

  /** Every block is an object of its own. */
  ghost predicate NoSharedObject(os: seq<BlockObject>) {
    forall i, j :: 0 <= i < j < |os| ==> os[i].id != os[j].id
  }

  /** `os` are the objects of a parse of the text. */
  ghost predicate ParsedFrom(g: Grammar, text: string, os: seq<BlockObject>) {
    exists spans, ss, from: nat ::
      && AreSpans(g, Split(text), spans) && Sorts(ss, spans) && InSourceOrder(Split(text), ss)
      && os == Objects(AllBlocks(g, Split(text), ss, |ss|), from)
  }

  /** The change set of two texts: that of their parsed blocks.  What is reported as modified is a section, or an
      element with a reference or heading. */
  method ChangeSet(g: Grammar, oldText: string, newText: string)
    returns (older: seq<BlockObject>, newer: seq<BlockObject>, d: BlockDiff)
    ensures ParsedFrom(g, oldText, older) && ParsedFrom(g, newText, newer) && IsDiff(older, newer, d)
    ensures NoSharedObject(older + newer)
    ensures forall m :: m in d.modified ==>
      && m.older < |older| && m.newer < |newer|
      && !Nameless(older[m.older].block) && !Nameless(newer[m.newer].block)
  {
    hide IsDiff, KeyOf, WellPlaced, AllBlocks, AreSpans, Sorts, InSourceOrder, ObjectsAgree, Split,
         NoSharedObject;
    var olds, _, spans, ss := ParseRequirements(g, oldText);
    var news, _, spans', ss' := ParseRequirements(g, newText);
    older, newer := Objects(olds, 0), Objects(news, |olds|);
    d := DiffBlocks(older, newer);
    ParsesAgree(olds, news);
    forall m | m in d.modified
      ensures m.older < |older| && m.newer < |newer|
      ensures !Nameless(older[m.older].block) && !Nameless(newer[m.newer].block)
    {
      AnonymousNeverModified(older, newer, d, m);
    }
  }

  // ----- the summary -----

  datatype Change = Added(newer: nat) | Modified(newer: nat) | Removed(older: nat)

  datatype Counts = Counts(added: nat, modified: nat, removed: nat, kept: nat)

  function NewSides(pairs: seq<Match>): seq<Change> {
    if pairs == [] then [] else NewSides(pairs[..|pairs| - 1]) + [Modified(pairs[|pairs| - 1].newer)]
  }

  lemma {:induction false} NewSidesAre(pairs: seq<Match>)
    ensures |NewSides(pairs)| == |pairs|
    ensures forall k :: 0 <= k < |pairs| ==> NewSides(pairs)[k] == Modified(pairs[k].newer)
  {
    if pairs != [] { NewSidesAre(pairs[..|pairs| - 1]); }
  }

  function Items(d: BlockDiff): seq<Change> {
    seq(|d.added|, k requires 0 <= k < |d.added| => Added(d.added[k]))
    + NewSides(d.modified)
    + seq(|d.removed|, k requires 0 <= k < |d.removed| => Removed(d.removed[k]))
  }

  /** The counts, and the changes: added, then modified, then removed, each in the order of the change set. */
  method Summarize(d: BlockDiff) returns (counts: Counts, items: seq<Change>)
    ensures counts == Counts(|d.added|, |d.modified|, |d.removed|, |d.kept|)
    ensures items == Items(d)
  {
    items := [];
    for k := 0 to |d.added|
      invariant |items| == k && forall i :: 0 <= i < k ==> items[i] == Added(d.added[i])
    {
      items := items + [Added(d.added[k])];
    }
    var a := items;
    var m := [];
    for k := 0 to |d.modified|
      invariant m == NewSides(d.modified[..k])
    {
      assert d.modified[..k + 1][..k] == d.modified[..k];
      m := m + [Modified(d.modified[k].newer)];
    }
    assert d.modified[..|d.modified|] == d.modified;
    var r := [];
    for k := 0 to |d.removed|
      invariant |r| == k && forall i :: 0 <= i < k ==> r[i] == Removed(d.removed[i])
    {
      r := r + [Removed(d.removed[k])];
    }
    items := a + m + r;
    counts := Counts(|d.added|, |d.modified|, |d.removed|, |d.kept|);
  }

  /** The summary of a change set lists every change once: each new block is either kept or listed as added or
      modified, and exactly the old blocks that nothing carries on are listed as removed. */
  lemma {:induction false} SummaryIsComplete(older: seq<BlockObject>, newer: seq<BlockObject>, d: BlockDiff)
    requires IsDiff(older, newer, d)
    ensures |Items(d)| == |d.added| + |d.modified| + |d.removed|
    ensures forall i, j :: 0 <= i < j < |Items(d)| ==> Items(d)[i] != Items(d)[j]
    ensures forall j: nat :: j < |newer| ==>
      HasNew(d.kept, j) != (Added(j) in Items(d) || Modified(j) in Items(d))
    ensures forall i: nat :: i < |older| ==>
      (Removed(i) in Items(d) <==> !HasOld(d.kept, i) && !HasOld(d.modified, i))
  {
    hide IsDiff, HasOld, HasNew;
    NewSidesAre(d.modified);
    DiffPartitions(older, newer, d);
    DiffIsOrdered(older, newer, d);
    ItemsAre(d);
    ItemsDiffer(d);
  }

  lemma {:induction false} DiffIsOrdered(older: seq<BlockObject>, newer: seq<BlockObject>, d: BlockDiff)
    requires IsDiff(older, newer, d)
    ensures Ascending(d.added) && Ascending(d.removed) && InNewOrder(d.modified)
  {
    hide Paired, LeftoverKeys, BodyLabels, Unmatched;
  }

  lemma {:induction false} ItemsAre(d: BlockDiff)
    ensures forall j: nat :: Added(j) in Items(d) <==> j in d.added
    ensures forall j: nat :: Modified(j) in Items(d) <==> HasNew(d.modified, j)
    ensures forall i: nat :: Removed(i) in Items(d) <==> i in d.removed
  {
    NewSidesAre(d.modified);
    var a := seq(|d.added|, k requires 0 <= k < |d.added| => Added(d.added[k]));
    var m := NewSides(d.modified);
    var r := seq(|d.removed|, k requires 0 <= k < |d.removed| => Removed(d.removed[k]));
    assert forall c :: c in Items(d) <==> c in a || c in m || c in r;
    forall j: nat ensures Added(j) in a <==> j in d.added {
      if k :| 0 <= k < |d.added| && d.added[k] == j { assert a[k] == Added(j); }
    }
    forall j: nat ensures Modified(j) in m <==> HasNew(d.modified, j) {
      if x :| x in d.modified && x.newer == j {
        var k :| 0 <= k < |d.modified| && d.modified[k] == x;
        assert m[k] == Modified(j);
      }
      if Modified(j) in m {
        var k :| 0 <= k < |m| && m[k] == Modified(j);
        assert d.modified[k] in d.modified;
      }
    }
    forall i: nat ensures Removed(i) in r <==> i in d.removed {
      if k :| 0 <= k < |d.removed| && d.removed[k] == i { assert r[k] == Removed(i); }
    }
  }

  lemma {:induction false} ItemsDiffer(d: BlockDiff)
    requires Ascending(d.added) && Ascending(d.removed) && InNewOrder(d.modified)
    ensures forall i, j :: 0 <= i < j < |Items(d)| ==> Items(d)[i] != Items(d)[j]
  {
    NewSidesAre(d.modified);
  }

  // ----- one text twice -----

  lemma {:induction false} SameBodies(blocks: seq<Block>, i: nat, j: nat)
    ensures BodyLabels(Objects(blocks, i)) == BodyLabels(Objects(blocks, j))
  {
    hide NormalizeBody;
    var a, b := Objects(blocks, i), Objects(blocks, j);
    assert forall k :: 0 <= k < |blocks| ==> BodyLabels(a)[k] == BodyLabels(b)[k];
  }

  /** Two parses of one text show no change, although they share no object. */
  lemma {:induction false} SameTextHasNoChanges(g: Grammar, text: string, older: seq<BlockObject>,
                                                newer: seq<BlockObject>, d: BlockDiff)
    requires ParsedFrom(g, text, older) && ParsedFrom(g, text, newer) && IsDiff(older, newer, d)
    ensures d.added == [] && d.removed == [] && d.modified == []
  {
    hide IsDiff, AreSpans, Sorts, InSourceOrder, AllBlocks, Objects, BodyLabels;
    var lines := Split(text);
    var a, x, i: nat :| AreSpans(g, lines, a) && Sorts(x, a) && InSourceOrder(lines, x)
                        && older == Objects(AllBlocks(g, lines, x, |x|), i);
    var b, y, j: nat :| AreSpans(g, lines, b) && Sorts(y, b) && InSourceOrder(lines, y)
                        && newer == Objects(AllBlocks(g, lines, y, |y|), j);
    SpansAreUnique(g, lines, a, b);
    OrderIsUnique(x, y, a);
    SameBodies(AllBlocks(g, lines, x, |x|), i, j);
    ReorderingIsUnchanged(older, newer, d);
  }
}
