/**
The block-level change set between two requirement documents
(`requirements_render/block_diff.py`).  A block is named by its position in its document.

The loops hand out positions from queues, one queue for each body and then one for each key.  What
they compute is said without queues: the k-th live block of a label on one side is paired with the
k-th live block of that label on the other.  That relation is symmetric, and the laws follow from it.
*/
module BlockDiff {
  import opened Text
  import opened Blocks

  /** A block object: its identity and its fields. */
  datatype BlockObject = BlockObject(id: nat, block: Block)

  datatype Match = Match(older: nat, newer: nat)

  datatype BlockDiff = BlockDiff(
    added: seq<nat>, removed: seq<nat>, modified: seq<Match>, kept: seq<Match>)

  // ----- labels -----

  function RStripLines(lines: seq<string>): (r: seq<string>)
    ensures |r| == |lines|
  {
    if lines == [] then [] else [TrimRight(lines[0], IsSpace)] + RStripLines(lines[1..])
  }

  /** Trailing white space of lines and trailing line breaks do not count. */
  function NormalizeBody(body: string): string {
    TrimRight(Join(RStripLines(Split(body))), IsNewline)
  }

  // ----- which bodies and which keys are the same -----

  /** Line `k` of a text without its trailing white space; a line it does not have counts as empty. */
  ghost function LineAt(body: string, k: nat): string {
    if k < |Split(body)| then TrimRight(Split(body)[k], IsSpace) else ""
  }

  /** The texts agree line by line, trailing white space and missing lines aside. */
  ghost predicate SameLines(a: string, b: string) {
    forall k: nat :: LineAt(a, k) == LineAt(b, k)
  }

  ghost function At(lines: seq<string>, k: nat): string {
    if k < |lines| then lines[k] else ""
  }

  /** The lines without the empty ones at the end. */
  ghost function Core(lines: seq<string>): (r: seq<string>)
    ensures r <= lines && (r != [] ==> r[|r| - 1] != "")
    ensures forall k :: |r| <= k < |lines| ==> lines[k] == ""
  {
    if lines != [] && lines[|lines| - 1] == "" then Core(lines[..|lines| - 1]) else lines
  }

  lemma {:induction false} CoreNotLonger(x: seq<string>, y: seq<string>)
    requires forall k: nat :: At(x, k) == At(y, k)
    ensures |Core(x)| <= |Core(y)|
  {
    var c := Core(x);
    if c != [] { assert At(y, |c| - 1) == At(x, |c| - 1) != ""; }
  }

  lemma {:induction false} CoreIffAt(x: seq<string>, y: seq<string>)
    ensures Core(x) == Core(y) <==> forall k: nat :: At(x, k) == At(y, k)
  {
    var c, d := Core(x), Core(y);
    assert forall k: nat :: At(x, k) == At(c, k) && At(y, k) == At(d, k);
    if forall k: nat :: At(x, k) == At(y, k) {
      CoreNotLonger(x, y);
      CoreNotLonger(y, x);
      forall k | 0 <= k < |c| ensures c[k] == d[k] { assert At(x, k) == At(y, k); }
    }
  }

  lemma {:induction false} TrimmedJoin(lines: seq<string>)
    requires forall l :: l in lines ==> '\n' !in l
    ensures TrimRight(Join(lines), IsNewline) == Join(Core(lines))
  {
    if lines != [] {
      var n := |lines| - 1;
      var front, last := lines[..n], lines[n];
      assert lines == front + [last];
      if front != [] { JoinAppend(front, [last]); }
      if last != "" {
        assert last in lines;
        assert Join(lines)[|Join(lines)| - 1] == last[|last| - 1];
      } else {
        TrimmedJoin(front);
        if front != [] { assert Join(lines) == Join(front) + "\n"; }
      }
    }
  }

  lemma {:induction false} JoinCoreInjective(x: seq<string>, y: seq<string>)
    requires forall l :: l in x + y ==> '\n' !in l
    ensures Join(Core(x)) == Join(Core(y)) <==> Core(x) == Core(y)
  {
    JoinCoreEmpty(x);
    JoinCoreEmpty(y);
    assert forall l :: l in Core(x) ==> l in x + y;
    assert forall l :: l in Core(y) ==> l in x + y;
    if Core(x) != [] { SplitJoin(Core(x)); }
    if Core(y) != [] { SplitJoin(Core(y)); }
  }

  lemma {:induction false} JoinCoreEmpty(x: seq<string>)
    ensures Join(Core(x)) == "" <==> Core(x) == []
  {
    var c := Core(x);
    if c != [] {
      assert c == c[..|c| - 1] + [c[|c| - 1]];
      if |c| > 1 { JoinAppend(c[..|c| - 1], [c[|c| - 1]]); }
    }
  }

  lemma {:induction false} RStripLinesAt(lines: seq<string>, k: nat)
    requires k < |lines|
    ensures RStripLines(lines)[k] == TrimRight(lines[k], IsSpace)
  {
    if k > 0 { RStripLinesAt(lines[1..], k - 1); }
  }

  /** Normalized bodies are equal exactly when the texts agree line by line, trailing white space aside, of lines and
      of the whole. */
  lemma {:induction false} SameBodyIff(a: string, b: string)
    ensures NormalizeBody(a) == NormalizeBody(b) <==> SameLines(a, b)
  {
    hide TrimRight, Core, Split, Join;
    var x, y := RStripLines(Split(a)), RStripLines(Split(b));
    StrippedLines(a);
    StrippedLines(b);
    TrimmedJoin(x);
    TrimmedJoin(y);
    JoinCoreInjective(x, y);
    CoreIffAt(x, y);
    forall k: nat ensures At(x, k) == At(y, k) <==> LineAt(a, k) == LineAt(b, k) {
    }
  }

  lemma {:induction false} StrippedLines(a: string)
    ensures var x := RStripLines(Split(a));
      (forall k: nat :: At(x, k) == LineAt(a, k)) && forall l :: l in x ==> '\n' !in l
  {
    var x := RStripLines(Split(a));
    SplitLineFree(a);
    forall k: nat | k < |x| ensures x[k] == LineAt(a, k) && '\n' !in x[k] {
      RStripLinesAt(Split(a), k);
      var line := Split(a)[k];
      TrimRightCuts(line, IsSpace);
      assert line in Split(a) && forall c :: c in x[k] ==> c in line;
    }
  }

  datatype Key =
    | Section(kind: BlockKind)
    | Element(kind: BlockKind, token: string)
    | Anonymous(kind: BlockKind, id: nat)

  function KeyOf(o: BlockObject): Key {
    var b := o.block;
    if b.level == 1 then Section(b.kind)
    else if b.ref.Some? then Element(b.kind, b.ref.value)
    else if b.heading.Some? then Element(b.kind, b.heading.value)
    else Anonymous(b.kind, o.id)
  }

  /** The name a key goes by: the reference, or the heading of a block without one. */
  ghost predicate Names(b: Block, token: string) {
    b.ref == Some(token) || (b.ref == None && b.heading == Some(token))
  }

  /** A block of a section that has no name. */
  ghost predicate Nameless(b: Block) {
    b.level != 1 && b.ref == None && b.heading == None
  }

  /** Whole sections of one kind, elements of one kind with one name, or one and the same nameless element. */
  ghost predicate SameKey(x: BlockObject, y: BlockObject) {
    && x.block.kind == y.block.kind
    && (x.block.level == 1 <==> y.block.level == 1)
    && (|| x.block.level == 1
        || (exists token :: Names(x.block, token) && Names(y.block, token))
        || (Nameless(x.block) && Nameless(y.block) && x.id == y.id))
  }

  lemma {:induction false} SameKeyIff(x: BlockObject, y: BlockObject)
    ensures KeyOf(x) == KeyOf(y) <==> SameKey(x, y)
  {
    if KeyOf(x) == KeyOf(y) && KeyOf(x).Element? {
      assert Names(x.block, KeyOf(x).token) && Names(y.block, KeyOf(x).token);
    }
  }

  /** What a pass matches blocks by; a block that is used already has no label. */
  datatype Label = Used | ByBody(body: string) | ByKey(key: Key)

  // ----- pairing by rank -----

  /** Positions below `n` at which `v` stands, in order. */
  function Positions(a: seq<Label>, v: Label, n: nat): seq<nat>
    requires n <= |a|
  {
    if n == 0 then []
    else if a[n - 1] == v then Positions(a, v, n - 1) + [n - 1]
    else Positions(a, v, n - 1)
  }

  function Rank(a: seq<Label>, i: nat): nat
    requires i < |a|
  {
    |Positions(a, a[i], i)|
  }

  predicate Paired(a: seq<Label>, b: seq<Label>, i: nat, j: nat) {
    i < |a| && j < |b| && a[i] != Used && a[i] == b[j] && Rank(a, i) == Rank(b, j)
  }

  predicate Taken(a: seq<Label>, b: seq<Label>, i: nat) {
    exists j: nat :: j < |b| && Paired(a, b, i, j)
  }

  lemma {:induction false} PositionsAt(a: seq<Label>, v: Label, n: nat, r: nat)
    requires n <= |a| && r < |Positions(a, v, n)|
    ensures var i := Positions(a, v, n)[r];
      i < n && a[i] == v && Rank(a, i) == r
  {
    if r < |Positions(a, v, n - 1)| { PositionsAt(a, v, n - 1, r); }
  }

  lemma {:induction false} RankBelowTotal(a: seq<Label>, i: nat, n: nat)
    requires i < n <= |a|
    ensures Rank(a, i) < |Positions(a, a[i], n)|
    ensures Positions(a, a[i], n)[Rank(a, i)] == i
  {
    if i < n - 1 { RankBelowTotal(a, i, n - 1); }
  }

  /** A block finds a partner exactly when the other side has more of its label than came before it. */
  lemma {:induction false} TakenIffRankBelow(a: seq<Label>, b: seq<Label>, i: nat)
    requires i < |a| && a[i] != Used
    ensures Taken(a, b, i) <==> Rank(a, i) < |Positions(b, a[i], |b|)|
  {
    if Rank(a, i) < |Positions(b, a[i], |b|)| {
      PositionsAt(b, a[i], |b|, Rank(a, i));
      assert Paired(a, b, i, Positions(b, a[i], |b|)[Rank(a, i)]);
    }
    if j: nat :| j < |b| && Paired(a, b, i, j) {
      RankBelowTotal(b, j, |b|);
    }
  }

  /** Pairing is one to one. */
  lemma {:induction false} PairedInjective(a: seq<Label>, b: seq<Label>, i: nat, j: nat, i': nat, j': nat)
    requires Paired(a, b, i, j) && Paired(a, b, i', j')
    ensures i == i' <==> j == j'
  {
    RankBelowTotal(a, i, |a|);
    RankBelowTotal(a, i', |a|);
    RankBelowTotal(b, j, |b|);
    RankBelowTotal(b, j', |b|);
  }

  /** Blocks left over on both sides never share a label. */
  lemma {:induction false} LeftoversDiffer(a: seq<Label>, b: seq<Label>, i: nat, j: nat)
    requires i < |a| && j < |b| && a[i] != Used && b[j] != Used
    requires !Taken(a, b, i) && !Taken(b, a, j)
    ensures a[i] != b[j]
  {
    TakenIffRankBelow(a, b, i);
    TakenIffRankBelow(b, a, j);
    RankBelowTotal(a, i, |a|);
    RankBelowTotal(b, j, |b|);
  }

  // ----- the pairs a pass hands out -----

  /** The block of the old side with the label and the rank of block `j`. */
  function Partner(a: seq<Label>, b: seq<Label>, j: nat): Option<nat>
    requires j < |b|
  {
    var all := Positions(a, b[j], |a|);
    if b[j] != Used && Rank(b, j) < |all| then Some(all[Rank(b, j)]) else None
  }

  lemma {:induction false} PartnerIsPaired(a: seq<Label>, b: seq<Label>, i: nat, j: nat)
    requires j < |b|
    ensures Paired(a, b, i, j) <==> Partner(a, b, j) == Some(i)
  {
    if Paired(a, b, i, j) {
      RankBelowTotal(a, i, |a|);
    }
    if Partner(a, b, j) == Some(i) {
      PositionsAt(a, b[j], |a|, Rank(b, j));
    }
  }

  /** The pairs handed out while serving the first `n` blocks of the new side. */
  function Pairs(a: seq<Label>, b: seq<Label>, n: nat): seq<Match>
    requires n <= |b|
  {
    if n == 0 then []
    else match Partner(a, b, n - 1)
      case None => Pairs(a, b, n - 1)
      case Some(i) => Pairs(a, b, n - 1) + [Match(i, n - 1)]
  }

  ghost predicate InNewOrder(pairs: seq<Match>) {
    forall x, y :: 0 <= x < y < |pairs| ==> pairs[x].newer < pairs[y].newer
  }

  /** The pairs are those of equal rank, in the order of the new side. */
  lemma {:induction false} PairsArePaired(a: seq<Label>, b: seq<Label>, n: nat)
    requires n <= |b|
    ensures forall m :: m in Pairs(a, b, n) <==> m.newer < n && Paired(a, b, m.older, m.newer)
    ensures InNewOrder(Pairs(a, b, n))
  {
    if n > 0 {
      PairsArePaired(a, b, n - 1);
      var front := Pairs(a, b, n - 1);
      forall m: Match | m.newer == n - 1
        ensures Paired(a, b, m.older, m.newer) <==> Partner(a, b, n - 1) == Some(m.older)
      {
        PartnerIsPaired(a, b, m.older, n - 1);
      }
      forall x | 0 <= x < |front| ensures front[x].newer < n - 1 {
        assert front[x] in front;
      }
    }
  }

  /** The labels of the pairs handed out while serving the first `n` blocks. */
  function PairLabels(a: seq<Label>, b: seq<Label>, n: nat): (r: seq<Label>)
    requires n <= |b|
    ensures |r| == |Pairs(a, b, n)|
  {
    if n == 0 then []
    else if Partner(a, b, n - 1) == None then PairLabels(a, b, n - 1)
    else PairLabels(a, b, n - 1) + [b[n - 1]]
  }

  lemma {:induction false} PairLabelsCount(a: seq<Label>, b: seq<Label>, n: nat, v: Label)
    requires n <= |b|
    ensures multiset(PairLabels(a, b, n))[v]
      == if v == Used then 0 else Min(|Positions(a, v, |a|)|, |Positions(b, v, n)|)
  {
    hide Partner, Min, Positions, PairLabels;
    var all := |Positions(a, v, |a|)|;
    MinStep(all, 0);
    if n == 0 {
      NoPositions(b, v);
      NoPairLabels(a, b);
    } else {
      PairLabelsCount(a, b, n - 1, v);
      PairLabelsStep(a, b, n, v);
      PositionsStep(b, v, n);
      MinStep(all, |Positions(b, v, n - 1)|);
      PartnerTaken(a, b, n - 1);
    }
  }

  lemma {:induction false} NoPairLabels(a: seq<Label>, b: seq<Label>)
    ensures PairLabels(a, b, 0) == []
  {
  }

  lemma {:induction false} PairLabelsStep(a: seq<Label>, b: seq<Label>, n: nat, v: Label)
    requires 0 < n <= |b|
    ensures multiset(PairLabels(a, b, n))[v]
      == multiset(PairLabels(a, b, n - 1))[v] + if Partner(a, b, n - 1) != None && b[n - 1] == v then 1 else 0
  {
    hide Partner, Pairs;
    CountStep(PairLabels(a, b, n - 1), b[n - 1], v);
  }

  lemma {:induction false} NoPositions(a: seq<Label>, v: Label)
    ensures Positions(a, v, 0) == []
  {
  }

  lemma {:induction false} PositionsStep(a: seq<Label>, v: Label, n: nat)
    requires 0 < n <= |a|
    ensures |Positions(a, v, n)| == |Positions(a, v, n - 1)| + if a[n - 1] == v then 1 else 0
  {
  }

  /** There is a partner as long as the other side has more of the label than was served. */
  lemma {:induction false} PartnerTaken(a: seq<Label>, b: seq<Label>, j: nat)
    requires j < |b|
    ensures Partner(a, b, j) == None
      <==> b[j] == Used || |Positions(a, b[j], |a|)| <= |Positions(b, b[j], j)|
  {
  }

  lemma {:induction false} MinStep(x: nat, y: nat)
    ensures Min(x, y + 1) == Min(x, y) + (if y < x then 1 else 0) && Min(x, 0) == 0
  {
  }

  lemma {:induction false} CountStep(front: seq<Label>, x: Label, v: Label)
    ensures multiset(front + [x])[v] == multiset(front)[v] + if x == v then 1 else 0
  {
  }

  function Min(x: nat, y: nat): nat { if x <= y then x else y }

  lemma {:induction false} PositionsCount(a: seq<Label>, v: Label, n: nat)
    requires n <= |a|
    ensures |Positions(a, v, n)| == multiset(a[..n])[v]
  {
    if n > 0 {
      PositionsCount(a, v, n - 1);
      assert a[..n] == a[..n - 1] + [a[n - 1]];
    }
  }

  /** There are as many pairs as the two sides have labels in common, counted with repetition. */
  lemma {:induction false} PairsCount(a: seq<Label>, b: seq<Label>)
    requires Used !in a
    ensures |Pairs(a, b, |b|)| == |multiset(a) * multiset(b)|
  {
    var labels, common := PairLabels(a, b, |b|), multiset(a) * multiset(b);
    forall v: Label ensures multiset(labels)[v] == common[v] {
      PairLabelsCount(a, b, |b|, v);
      PositionsCount(a, v, |a|);
      PositionsCount(b, v, |b|);
      assert a[..|a|] == a && b[..|b|] == b;
    }
    assert multiset(labels) == common;
  }

  // ----- one pass of the loops -----

  /** What is left of the queue of `v` when the first `j` blocks of the new side were served. */
  function Remaining(a: seq<Label>, b: seq<Label>, v: Label, j: nat): seq<nat>
    requires j <= |b|
  {
    var all, served := Positions(a, v, |a|), |Positions(b, v, j)|;
    if v == Used || served > |all| then [] else all[served..]
  }

  function QueueOf(queues: map<Label, seq<nat>>, v: Label): seq<nat> {
    if v in queues then queues[v] else []
  }

  ghost predicate QueuesAt(queues: map<Label, seq<nat>>, a: seq<Label>, b: seq<Label>, j: nat)
    requires j <= |b|
  {
    forall v :: QueueOf(queues, v) == Remaining(a, b, v, j)
  }

  /** Serving block `j` leaves the queues of other labels alone. */
  lemma {:induction false} ServeOther(a: seq<Label>, b: seq<Label>, v: Label, j: nat)
    requires j < |b| && b[j] != v
    ensures Remaining(a, b, v, j + 1) == Remaining(a, b, v, j)
  {
  }

  /** Serving block `j` takes the front of the queue of its label, if there is one. */
  lemma {:induction false} ServeOwn(a: seq<Label>, b: seq<Label>, j: nat)
    requires j < |b|
    ensures var q := Remaining(a, b, b[j], j);
      if q == [] then Partner(a, b, j) == None && Remaining(a, b, b[j], j + 1) == []
      else Partner(a, b, j) == Some(q[0]) && q[0] < |a| && Remaining(a, b, b[j], j + 1) == q[1..]
  {
    if Partner(a, b, j).Some? {
      PositionsAt(a, b[j], |a|, Rank(b, j));
    }
  }

  /** One block of the new side served by the queues. */
  lemma {:induction false} Serve(queues: map<Label, seq<nat>>, a: seq<Label>, b: seq<Label>, j: nat)
    requires j < |b| && QueuesAt(queues, a, b, j)
    ensures var q := QueueOf(queues, b[j]);
      if q == [] then Pairs(a, b, j + 1) == Pairs(a, b, j) && QueuesAt(queues, a, b, j + 1)
      else && q[0] < |a|
           && Pairs(a, b, j + 1) == Pairs(a, b, j) + [Match(q[0], j)]
           && QueuesAt(queues[b[j] := q[1..]], a, b, j + 1)
  {
    var q := QueueOf(queues, b[j]);
    ServeOwn(a, b, j);
    var after := if q == [] then queues else queues[b[j] := q[1..]];
    forall v: Label ensures QueueOf(after, v) == Remaining(a, b, v, j + 1) {
      if v != b[j] {
        ServeOther(a, b, v, j);
        assert QueueOf(after, v) == QueueOf(queues, v);
      }
    }
  }

  method BuildQueues(a: seq<Label>) returns (queues: map<Label, seq<nat>>)
    ensures forall v :: QueueOf(queues, v) == if v == Used then [] else Positions(a, v, |a|)
  {
    queues := map[];
    for n := 0 to |a|
      invariant forall v :: QueueOf(queues, v) == if v == Used then [] else Positions(a, v, n)
    {
      ghost var before := queues;
      if a[n] != Used {
        queues := queues[a[n] := QueueOf(queues, a[n]) + [n]];
      }
      forall v: Label ensures QueueOf(queues, v) == if v == Used then [] else Positions(a, v, n + 1) {
        assert v != a[n] ==> QueueOf(queues, v) == QueueOf(before, v);
      }
    }
  }

  /** Flags with the old sides of the pairs marked as used. */
  function MarkOld(used: seq<bool>, pairs: seq<Match>): (r: seq<bool>)
    ensures |r| == |used|
  {
    if pairs == [] then used
    else
      var r, i := MarkOld(used, pairs[..|pairs| - 1]), pairs[|pairs| - 1].older;
      if i < |r| then r[i := true] else r
  }

  /** Flags with the new sides of the pairs marked as used. */
  function MarkNew(used: seq<bool>, pairs: seq<Match>): (r: seq<bool>)
    ensures |r| == |used|
  {
    if pairs == [] then used
    else
      var r, j := MarkNew(used, pairs[..|pairs| - 1]), pairs[|pairs| - 1].newer;
      if j < |r| then r[j := true] else r
  }

  lemma {:induction false} MarkMeaning(used: seq<bool>, pairs: seq<Match>, k: nat)
    requires k < |used|
    ensures MarkOld(used, pairs)[k] <==> used[k] || exists m :: m in pairs && m.older == k
  {
    if pairs != [] {
      var front, last := pairs[..|pairs| - 1], pairs[|pairs| - 1];
      assert forall m :: m in pairs <==> m in front || m == last;
      MarkMeaning(used, front, k);
    }
  }

  lemma {:induction false} MarkNewMeaning(used: seq<bool>, pairs: seq<Match>, k: nat)
    requires k < |used|
    ensures MarkNew(used, pairs)[k] <==> used[k] || exists m :: m in pairs && m.newer == k
  {
    if pairs != [] {
      var front, last := pairs[..|pairs| - 1], pairs[|pairs| - 1];
      assert forall m :: m in pairs <==> m in front || m == last;
      MarkNewMeaning(used, front, k);
    }
  }

  /**
  One pass: queue the unused blocks of the old side by label, then let every unused block of the new
  side take the front of its queue.
  */
  method MatchPass(a: seq<Label>, b: seq<Label>) returns (pairs: seq<Match>)
    ensures Matches(a, b, pairs)
    ensures Used !in a ==> |pairs| == |multiset(a) * multiset(b)|
  {
    pairs := ServeAll(a, b);
    PairsArePaired(a, b, |b|);
    if Used !in a { PairsCount(a, b); }
  }

  /** The pairs are exactly those of equal label and rank, in the order of the new side. */
  ghost predicate Matches(a: seq<Label>, b: seq<Label>, pairs: seq<Match>) {
    (forall m :: m in pairs <==> Paired(a, b, m.older, m.newer)) && InNewOrder(pairs)
  }

  lemma {:induction false} StartServing(queues: map<Label, seq<nat>>, a: seq<Label>, b: seq<Label>)
    requires forall v :: QueueOf(queues, v) == if v == Used then [] else Positions(a, v, |a|)
    ensures QueuesAt(queues, a, b, 0) && Pairs(a, b, 0) == []
  {
  }

  method ServeAll(a: seq<Label>, b: seq<Label>) returns (pairs: seq<Match>)
    ensures pairs == Pairs(a, b, |b|)
  {
    hide QueueOf, Remaining, Pairs, QueuesAt;
    var queues := BuildQueues(a);
    StartServing(queues, a, b);
    pairs := [];
    for j := 0 to |b|
      invariant QueuesAt(queues, a, b, j)
      invariant pairs == Pairs(a, b, j)
    {
      Serve(queues, a, b, j);
      var queue := QueueOf(queues, b[j]);
      if queue != [] {
        queues := queues[b[j] := queue[1..]];
        pairs := pairs + [Match(queue[0], j)];
      }
    }
  }

  // ----- the two passes -----

  function BodyLabels(blocks: seq<BlockObject>): (r: seq<Label>)
    ensures |r| == |blocks| && Used !in r
    ensures forall i :: 0 <= i < |blocks| ==> r[i] == ByBody(NormalizeBody(blocks[i].block.body))
  {
    if blocks == [] then []
    else BodyLabels(blocks[..|blocks| - 1]) + [ByBody(NormalizeBody(blocks[|blocks| - 1].block.body))]
  }

  /** Keys of the blocks that are not used yet. */
  function KeyLabels(blocks: seq<BlockObject>, used: seq<bool>): (r: seq<Label>)
    requires |used| == |blocks|
    ensures |r| == |blocks|
    ensures forall i :: 0 <= i < |blocks| ==> r[i] == if used[i] then Used else ByKey(KeyOf(blocks[i]))
  {
    if blocks == [] then []
    else
      var n := |blocks| - 1;
      KeyLabels(blocks[..n], used[..n]) + [if used[n] then Used else ByKey(KeyOf(blocks[n]))]
  }

  function NoneUsed(n: nat): (r: seq<bool>)
    ensures |r| == n && forall i :: 0 <= i < n ==> !r[i]
  {
    if n == 0 then [] else NoneUsed(n - 1) + [false]
  }

  /** Positions whose flag is not set, in order. */
  function Unset(used: seq<bool>): (r: seq<nat>)
    ensures forall i: nat :: i in r <==> i < |used| && !used[i]
    ensures Ascending(r)
  {
    if used == [] then []
    else
      var n := |used| - 1;
      var rest := Unset(used[..n]);
      assert forall x :: 0 <= x < |rest| ==> rest[x] in rest;
      if used[n] then rest else rest + [n]
  }

  predicate Ascending(s: seq<nat>) {
    forall x, y :: 0 <= x < y < |s| ==> s[x] < s[y]
  }

  /** Which blocks of `mine` the first pass uses up, against `theirs`. */
  ghost function UsedByBody(mine: seq<BlockObject>, theirs: seq<BlockObject>): (r: seq<bool>)
    ensures |r| == |mine|
    ensures forall i :: 0 <= i < |mine| ==> (r[i] <==> Taken(BodyLabels(mine), BodyLabels(theirs), i))
  {
    seq(|mine|, i requires 0 <= i < |mine| => Taken(BodyLabels(mine), BodyLabels(theirs), i))
  }

  ghost function LeftoverKeys(mine: seq<BlockObject>, theirs: seq<BlockObject>): (r: seq<Label>)
    ensures |r| == |mine|
  {
    KeyLabels(mine, UsedByBody(mine, theirs))
  }

  /** Block `i` of `mine` is matched with nothing in `theirs`. */
  ghost predicate Unmatched(mine: seq<BlockObject>, theirs: seq<BlockObject>, i: nat) {
    && i < |mine|
    && !Taken(BodyLabels(mine), BodyLabels(theirs), i)
    && !Taken(LeftoverKeys(mine, theirs), LeftoverKeys(theirs, mine), i)
  }

  ghost predicate IsRemainder(mine: seq<BlockObject>, theirs: seq<BlockObject>, rest: seq<nat>) {
    (forall i: nat :: i in rest <==> Unmatched(mine, theirs, i)) && Ascending(rest)
  }

  /** What the diff of two documents is. */
  ghost predicate IsDiff(older: seq<BlockObject>, newer: seq<BlockObject>, d: BlockDiff) {
    && Matches(BodyLabels(older), BodyLabels(newer), d.kept)
    && Matches(LeftoverKeys(older, newer), LeftoverKeys(newer, older), d.modified)
    && IsRemainder(older, newer, d.removed)
    && IsRemainder(newer, older, d.added)
  }

  lemma {:induction false} OldSideTaken(a: seq<Label>, b: seq<Label>, pairs: seq<Match>, i: nat)
    requires Matches(a, b, pairs)
    ensures Taken(a, b, i) <==> exists m :: m in pairs && m.older == i
  {
    if Taken(a, b, i) {
      var j: nat :| j < |b| && Paired(a, b, i, j);
      assert Match(i, j) in pairs;
    }
  }

  lemma {:induction false} NewSideTaken(a: seq<Label>, b: seq<Label>, pairs: seq<Match>, j: nat)
    requires Matches(a, b, pairs)
    ensures Taken(b, a, j) <==> exists m :: m in pairs && m.newer == j
  {
    if Taken(b, a, j) {
      var i: nat :| i < |a| && Paired(b, a, j, i);
      assert Match(i, j) in pairs;
    }
    if m :| m in pairs && m.newer == j {
      assert Paired(b, a, j, m.older);
    }
  }

  /** The flags after a pass say which blocks it paired. */
  lemma {:induction false} FlagsAreTaken(a: seq<Label>, b: seq<Label>, pairs: seq<Match>, oldUsed: seq<bool>,
                                         newUsed: seq<bool>)
    requires Matches(a, b, pairs)
    ensures forall i :: 0 <= i < |oldUsed| ==> (MarkOld(oldUsed, pairs)[i] <==> oldUsed[i] || Taken(a, b, i))
    ensures forall j :: 0 <= j < |newUsed| ==> (MarkNew(newUsed, pairs)[j] <==> newUsed[j] || Taken(b, a, j))
  {
    forall i | 0 <= i < |oldUsed| ensures MarkOld(oldUsed, pairs)[i] <==> oldUsed[i] || Taken(a, b, i) {
      MarkMeaning(oldUsed, pairs, i);
      OldSideTaken(a, b, pairs, i);
    }
    forall j | 0 <= j < |newUsed| ensures MarkNew(newUsed, pairs)[j] <==> newUsed[j] || Taken(b, a, j) {
      MarkNewMeaning(newUsed, pairs, j);
      NewSideTaken(a, b, pairs, j);
    }
  }

  /** The deterministic change set from the old blocks to the new ones. */
  method DiffBlocks(older: seq<BlockObject>, newer: seq<BlockObject>) returns (d: BlockDiff)
    ensures IsDiff(older, newer, d)
    ensures |d.kept| == |multiset(BodyLabels(older)) * multiset(BodyLabels(newer))|
  {
    hide Matches, Taken, IsRemainder, KeyLabels, NormalizeBody;
    var a, b := BodyLabels(older), BodyLabels(newer);
    var kept := MatchPass(a, b);
    var oldUsed, newUsed := MarkOld(NoneUsed(|older|), kept), MarkNew(NoneUsed(|newer|), kept);
    FlagsAreTaken(a, b, kept, NoneUsed(|older|), NoneUsed(|newer|));
    assert oldUsed == UsedByBody(older, newer);
    assert newUsed == UsedByBody(newer, older);
    var modified := MatchPass(KeyLabels(older, oldUsed), KeyLabels(newer, newUsed));
    var oldDone, newDone := MarkOld(oldUsed, modified), MarkNew(newUsed, modified);
    FlagsAreTaken(LeftoverKeys(older, newer), LeftoverKeys(newer, older), modified, oldUsed, newUsed);
    RemainderIs(older, newer, oldDone);
    RemainderIs(newer, older, newDone);
    d := BlockDiff(Unset(newDone), Unset(oldDone), modified, kept);
  }

  lemma {:induction false} RemainderIs(mine: seq<BlockObject>, theirs: seq<BlockObject>, done: seq<bool>)
    requires |done| == |mine|
    requires forall i :: 0 <= i < |done| ==>
      (done[i] <==> UsedByBody(mine, theirs)[i] || Taken(LeftoverKeys(mine, theirs), LeftoverKeys(theirs, mine), i))
    ensures IsRemainder(mine, theirs, Unset(done))
  {
  }
}
