/**
What every block diff satisfies.  Swapping the documents mirrors it, so a document compared with itself pairs
every block with itself.  It accounts for every block once, and it leaves nothing unmatched that could have
been matched: no block added and none removed share a body or a key, and reordering leaves only unchanged pairs.
*/
module BlockDiffLaws {
  import opened Text
  import opened BlockDiff

  lemma {:induction false} MatchesMirror(a: seq<Label>, b: seq<Label>, x: seq<Match>, y: seq<Match>)
    requires Matches(a, b, x) && Matches(b, a, y)
    ensures forall i: nat, j: nat :: Match(i, j) in x <==> Match(j, i) in y
  {
    forall i: nat, j: nat ensures Match(i, j) in x <==> Match(j, i) in y {
      assert Match(i, j) in x <==> Paired(a, b, i, j);
      assert Match(j, i) in y <==> Paired(b, a, j, i);
    }
  }

  lemma {:induction false} AscendingUnique(s: seq<nat>, t: seq<nat>)
    requires Ascending(s) && Ascending(t)
    requires forall x: nat :: x in s <==> x in t
    ensures s == t
  {
    NonemptyHasMember(s);
    NonemptyHasMember(t);
    if s != [] && t != [] {
      var x, y := s[|s| - 1], t[|t| - 1];
      assert x in t && y in s;
      var s', t' := s[..|s| - 1], t[..|t| - 1];
      forall z: nat ensures z in s' <==> z in t' {
        assert z in s <==> z in s' || z == x;
        assert z in t <==> z in t' || z == y;
        assert x !in s' && y !in t';
      }
      AscendingUnique(s', t');
    }
  }

  lemma {:induction false} NonemptyHasMember<T>(s: seq<T>)
    ensures s != [] ==> exists x :: x in s
  {
    if s != [] { assert s[0] in s; }
  }

  /** Diffing the other way round swaps added with removed and inverts every pair. */
  lemma {:induction false} DiffMirrors(older: seq<BlockObject>, newer: seq<BlockObject>, d: BlockDiff, e: BlockDiff)
    requires IsDiff(older, newer, d) && IsDiff(newer, older, e)
    ensures e.added == d.removed && e.removed == d.added
    ensures forall i: nat, j: nat :: Match(i, j) in d.kept <==> Match(j, i) in e.kept
    ensures forall i: nat, j: nat :: Match(i, j) in d.modified <==> Match(j, i) in e.modified
  {
    AscendingUnique(e.added, d.removed);
    AscendingUnique(e.removed, d.added);
    MatchesMirror(BodyLabels(older), BodyLabels(newer), d.kept, e.kept);
    MatchesMirror(LeftoverKeys(older, newer), LeftoverKeys(newer, older), d.modified, e.modified);
  }

  // ----- the partition -----

  ghost predicate HasOld(pairs: seq<Match>, i: nat) { exists m :: m in pairs && m.older == i }
  ghost predicate HasNew(pairs: seq<Match>, j: nat) { exists m :: m in pairs && m.newer == j }

  /** No block stands in two pairs. */
  lemma {:induction false} MatchesOneToOne(a: seq<Label>, b: seq<Label>, pairs: seq<Match>, m: Match, n: Match)
    requires Matches(a, b, pairs) && m in pairs && n in pairs
    ensures m.older == n.older <==> m == n
    ensures m.newer == n.newer <==> m == n
  {
    PairedInjective(a, b, m.older, m.newer, n.older, n.newer);
  }

  /** A block used up by its body has no key left to be matched by. */
  lemma {:induction false} KeptHasNoKey(mine: seq<BlockObject>, theirs: seq<BlockObject>, i: nat)
    requires i < |mine|
    ensures LeftoverKeys(mine, theirs)[i]
      == if Taken(BodyLabels(mine), BodyLabels(theirs), i) then Used else ByKey(KeyOf(mine[i]))
  {
  }

  /** Every old block stands exactly once across removed, modified and unchanged, and every new block
      exactly once across added, modified and unchanged. */
  lemma {:induction false} DiffPartitions(older: seq<BlockObject>, newer: seq<BlockObject>, d: BlockDiff)
    requires IsDiff(older, newer, d)
    ensures forall i: nat :: i < |older| ==>
      (if i in d.removed then !HasOld(d.modified, i) && !HasOld(d.kept, i)
       else HasOld(d.modified, i) != HasOld(d.kept, i))
    ensures forall j: nat :: j < |newer| ==>
      (if j in d.added then !HasNew(d.modified, j) && !HasNew(d.kept, j)
       else HasNew(d.modified, j) != HasNew(d.kept, j))
    ensures forall m, n :: m in d.kept + d.modified && n in d.kept + d.modified && m != n ==>
      m.older != n.older && m.newer != n.newer
  {
    forall i: nat | i < |older|
      ensures if i in d.removed then !HasOld(d.modified, i) && !HasOld(d.kept, i)
              else HasOld(d.modified, i) != HasOld(d.kept, i)
    {
      OldBlockOnce(older, newer, d, i);
    }
    forall j: nat | j < |newer|
      ensures if j in d.added then !HasNew(d.modified, j) && !HasNew(d.kept, j)
              else HasNew(d.modified, j) != HasNew(d.kept, j)
    {
      NewBlockOnce(older, newer, d, j);
    }
    forall m, n | m in d.kept + d.modified && n in d.kept + d.modified && m != n
      ensures m.older != n.older && m.newer != n.newer
    {
      PairsDisjoint(older, newer, d, m, n);
    }
  }

  lemma {:induction false} OldBlockOnce(older: seq<BlockObject>, newer: seq<BlockObject>, d: BlockDiff, i: nat)
    requires IsDiff(older, newer, d) && i < |older|
    ensures if i in d.removed then !HasOld(d.modified, i) && !HasOld(d.kept, i)
            else HasOld(d.modified, i) != HasOld(d.kept, i)
  {
    OldSideTaken(BodyLabels(older), BodyLabels(newer), d.kept, i);
    OldSideTaken(LeftoverKeys(older, newer), LeftoverKeys(newer, older), d.modified, i);
    KeptHasNoKey(older, newer, i);
  }

  lemma {:induction false} NewBlockOnce(older: seq<BlockObject>, newer: seq<BlockObject>, d: BlockDiff, j: nat)
    requires IsDiff(older, newer, d) && j < |newer|
    ensures if j in d.added then !HasNew(d.modified, j) && !HasNew(d.kept, j)
            else HasNew(d.modified, j) != HasNew(d.kept, j)
  {
    NewSideTaken(BodyLabels(older), BodyLabels(newer), d.kept, j);
    NewSideTaken(LeftoverKeys(older, newer), LeftoverKeys(newer, older), d.modified, j);
    KeptHasNoKey(newer, older, j);
  }

  lemma {:induction false} PairsDisjoint(older: seq<BlockObject>, newer: seq<BlockObject>, d: BlockDiff, m: Match,
                                         n: Match)
    requires IsDiff(older, newer, d)
    requires m in d.kept + d.modified && n in d.kept + d.modified && m != n
    ensures m.older != n.older && m.newer != n.newer
  {
    if m in d.kept && n in d.kept {
      MatchesOneToOne(BodyLabels(older), BodyLabels(newer), d.kept, m, n);
    } else if m in d.modified && n in d.modified {
      MatchesOneToOne(LeftoverKeys(older, newer), LeftoverKeys(newer, older), d.modified, m, n);
    } else if m in d.kept {
      OldBlockOnce(older, newer, d, m.older);
      NewBlockOnce(older, newer, d, m.newer);
    } else {
      OldBlockOnce(older, newer, d, n.older);
      NewBlockOnce(older, newer, d, n.newer);
    }
  }

  // ----- maximality -----

  ghost predicate SameBody(x: BlockObject, y: BlockObject) {
    SameLines(x.block.body, y.block.body)
  }

  lemma {:induction false} SameBodyLabel(a: seq<BlockObject>, b: seq<BlockObject>, i: nat, j: nat)
    requires i < |a| && j < |b|
    ensures BodyLabels(a)[i] == BodyLabels(b)[j] <==> SameBody(a[i], b[j])
  {
    SameBodyIff(a[i].block.body, b[j].block.body);
  }

  /** An unchanged pair agrees on its body, line by line, trailing white space aside. */
  lemma {:induction false} KeptShareBody(older: seq<BlockObject>, newer: seq<BlockObject>, d: BlockDiff, m: Match)
    requires IsDiff(older, newer, d) && m in d.kept
    ensures m.older < |older| && m.newer < |newer| && SameBody(older[m.older], newer[m.newer])
  {
    hide SameBody, BodyLabels;
    SameBodyLabel(older, newer, m.older, m.newer);
  }

  /** Two blocks that the first pass left over differ in body. */
  lemma {:induction false} LeftoverBodiesDiffer(older: seq<BlockObject>, newer: seq<BlockObject>, i: nat, j: nat)
    requires i < |older| && j < |newer|
    requires !Taken(BodyLabels(older), BodyLabels(newer), i)
    requires !Taken(BodyLabels(newer), BodyLabels(older), j)
    ensures !SameBody(older[i], newer[j])
  {
    var a, b := BodyLabels(older), BodyLabels(newer);
    LeftoversDiffer(a, b, i, j);
    SameBodyLabel(older, newer, i, j);
  }

  /** A modified pair shares its key and really differs in body. */
  lemma {:induction false} ModifiedShareKeyOnly(older: seq<BlockObject>, newer: seq<BlockObject>, d: BlockDiff,
                                                m: Match)
    requires IsDiff(older, newer, d) && m in d.modified
    ensures m.older < |older| && m.newer < |newer|
    ensures SameKey(older[m.older], newer[m.newer])
    ensures !SameBody(older[m.older], newer[m.newer])
  {
    hide SameBody, SameKey, KeyOf, BodyLabels;
    KeptHasNoKey(older, newer, m.older);
    KeptHasNoKey(newer, older, m.newer);
    LeftoverBodiesDiffer(older, newer, m.older, m.newer);
    SameKeyIff(older[m.older], newer[m.newer]);
  }

  /** No removed and added block share a body or a key: nothing more could have been matched. */
  lemma {:induction false} UnmatchedShareNothing(older: seq<BlockObject>, newer: seq<BlockObject>, d: BlockDiff,
                                                 i: nat, j: nat)
    requires IsDiff(older, newer, d) && i in d.removed && j in d.added
    ensures i < |older| && j < |newer|
    ensures !SameBody(older[i], newer[j]) && !SameKey(older[i], newer[j])
  {
    hide SameBody, SameKey, KeyOf, BodyLabels;
    SameKeyIff(older[i], newer[j]);
    KeptHasNoKey(older, newer, i);
    KeptHasNoKey(newer, older, j);
    LeftoverBodiesDiffer(older, newer, i, j);
    LeftoversDiffer(LeftoverKeys(older, newer), LeftoverKeys(newer, older), i, j);
  }

  /** Two block objects are one object only if they are equal. */
  ghost predicate ObjectsAgree(older: seq<BlockObject>, newer: seq<BlockObject>) {
    forall i, j :: 0 <= i < |older| && 0 <= j < |newer| && older[i].id == newer[j].id ==> older[i] == newer[j]
  }

  /** A block with neither reference nor heading is never reported as modified. */
  lemma {:induction false} AnonymousNeverModified(older: seq<BlockObject>, newer: seq<BlockObject>, d: BlockDiff,
                                                  m: Match)
    requires IsDiff(older, newer, d) && ObjectsAgree(older, newer) && m in d.modified
    ensures m.older < |older| && m.newer < |newer|
    ensures !Nameless(older[m.older].block) && !Nameless(newer[m.newer].block)
  {
    hide IsDiff, SameBody;
    ModifiedShareKeyOnly(older, newer, d, m);
    SameObjectSameBody(older[m.older], newer[m.newer]);
  }

  lemma {:induction false} SameObjectSameBody(x: BlockObject, y: BlockObject)
    ensures x == y ==> SameBody(x, y)
  {
  }

  // ----- which block is paired with which -----

  ghost function Standing(a: seq<Label>, v: Label, n: nat): set<int>
    requires n <= |a|
  {
    set k | 0 <= k < n && a[k] == v
  }

  lemma {:induction false} RankCounts(a: seq<Label>, v: Label, n: nat)
    requires n <= |a|
    ensures |Positions(a, v, n)| == |Standing(a, v, n)|
  {
    hide Positions;
    if n == 0 {
      NoPositions(a, v);
      assert Standing(a, v, 0) == {};
    } else {
      var s, t := Standing(a, v, n), Standing(a, v, n - 1);
      RankCounts(a, v, n - 1);
      PositionsStep(a, v, n);
      assert n - 1 !in t;
      if a[n - 1] == v { assert s == t + {n - 1}; } else { assert s == t; }
    }
  }

  /** The blocks before block `i` with its body. */
  ghost function SameBodyBefore(doc: seq<BlockObject>, i: nat): set<int>
    requires i < |doc|
  {
    set k | 0 <= k < i && SameBody(doc[k], doc[i])
  }

  lemma {:induction false} BodyRank(doc: seq<BlockObject>, i: nat)
    requires i < |doc|
    ensures Rank(BodyLabels(doc), i) == |SameBodyBefore(doc, i)|
  {
    hide SameBody;
    var a := BodyLabels(doc);
    RankCounts(a, a[i], i);
    forall k | 0 <= k < i ensures a[k] == a[i] <==> SameBody(doc[k], doc[i]) { SameBodyLabel(doc, doc, k, i); }
    assert Standing(a, a[i], i) == SameBodyBefore(doc, i);
  }

  /** The unchanged pairs: of the blocks with one body the first with the first, the second with the second, and so
      on. */
  lemma {:induction false} KeptInOrder(older: seq<BlockObject>, newer: seq<BlockObject>, d: BlockDiff, m: Match)
    requires IsDiff(older, newer, d)
    ensures m in d.kept
      <==> && m.older < |older| && m.newer < |newer| && SameBody(older[m.older], newer[m.newer])
           && |SameBodyBefore(older, m.older)| == |SameBodyBefore(newer, m.newer)|
  {
    hide SameBody, SameBodyBefore, BodyLabels;
    if m.older < |older| && m.newer < |newer| {
      SameBodyLabel(older, newer, m.older, m.newer);
      BodyRank(older, m.older);
      BodyRank(newer, m.newer);
    }
  }

  /** The blocks before block `i` with its key, but for those in `done`. */
  ghost function SameKeyBefore(doc: seq<BlockObject>, done: set<nat>, i: nat): set<int>
    requires i < |doc|
  {
    set k | 0 <= k < i && k !in done && SameKey(doc[k], doc[i])
  }

  lemma {:induction false} KeyRank(mine: seq<BlockObject>, theirs: seq<BlockObject>, done: set<nat>, i: nat)
    requires i < |mine| && i !in done
    requires forall k: nat :: k in done <==> k < |mine| && Taken(BodyLabels(mine), BodyLabels(theirs), k)
    ensures Rank(LeftoverKeys(mine, theirs), i) == |SameKeyBefore(mine, done, i)|
  {
    hide SameKey, KeyOf, BodyLabels, Taken, LeftoverKeys;
    var a := LeftoverKeys(mine, theirs);
    KeptHasNoKey(mine, theirs, i);
    RankCounts(a, a[i], i);
    forall k | 0 <= k < i ensures a[k] == a[i] <==> k !in done && SameKey(mine[k], mine[i]) {
      KeptHasNoKey(mine, theirs, k);
      SameKeyIff(mine[k], mine[i]);
    }
    assert Standing(a, a[i], i) == SameKeyBefore(mine, done, i);
  }

  ghost function OldOf(pairs: seq<Match>): set<nat> { set m | m in pairs :: m.older }
  ghost function NewOf(pairs: seq<Match>): set<nat> { set m | m in pairs :: m.newer }

  /** The modified pairs: of the blocks with one key that are in no unchanged pair, again the first with the first,
      the second with the second, and so on. */
  lemma {:induction false} ModifiedInOrder(older: seq<BlockObject>, newer: seq<BlockObject>, d: BlockDiff, m: Match)
    requires IsDiff(older, newer, d)
    ensures var usedOld, usedNew := OldOf(d.kept), NewOf(d.kept);
      m in d.modified
      <==> && m.older < |older| && m.newer < |newer| && m.older !in usedOld && m.newer !in usedNew
           && SameKey(older[m.older], newer[m.newer])
           && |SameKeyBefore(older, usedOld, m.older)| == |SameKeyBefore(newer, usedNew, m.newer)|
  {
    hide SameKey, SameKeyBefore, BodyLabels, Taken, KeyOf, LeftoverKeys;
    if m.older < |older| && m.newer < |newer| {
      var i, j, usedOld, usedNew := m.older, m.newer, OldOf(d.kept), NewOf(d.kept);
      UsedIsTaken(older, newer, d);
      KeptHasNoKey(older, newer, i);
      KeptHasNoKey(newer, older, j);
      SameKeyIff(older[i], newer[j]);
      if i !in usedOld { KeyRank(older, newer, usedOld, i); }
      if j !in usedNew { KeyRank(newer, older, usedNew, j); }
    }
  }

  lemma {:induction false} UsedIsTaken(older: seq<BlockObject>, newer: seq<BlockObject>, d: BlockDiff)
    requires IsDiff(older, newer, d)
    ensures forall k: nat ::
      k in OldOf(d.kept) <==> k < |older| && Taken(BodyLabels(older), BodyLabels(newer), k)
    ensures forall k: nat ::
      k in NewOf(d.kept) <==> k < |newer| && Taken(BodyLabels(newer), BodyLabels(older), k)
  {
    forall k: nat
      ensures k in OldOf(d.kept) <==> k < |older| && Taken(BodyLabels(older), BodyLabels(newer), k)
      ensures k in NewOf(d.kept) <==> k < |newer| && Taken(BodyLabels(newer), BodyLabels(older), k)
    {
      OldSideTaken(BodyLabels(older), BodyLabels(newer), d.kept, k);
      NewSideTaken(BodyLabels(older), BodyLabels(newer), d.kept, k);
    }
  }

  // ----- documents with the same bodies -----

  /** When no body occurs more often on the other side, every block here is used up by the first pass. */
  lemma {:induction false} SameBodiesAllTaken(mine: seq<BlockObject>, theirs: seq<BlockObject>, i: nat)
    requires multiset(BodyLabels(mine)) == multiset(BodyLabels(theirs)) && i < |mine|
    ensures Taken(BodyLabels(mine), BodyLabels(theirs), i)
  {
    var a, b := BodyLabels(mine), BodyLabels(theirs);
    TakenIffRankBelow(a, b, i);
    RankBelowTotal(a, i, |a|);
    SameTotals(a, b, a[i]);
  }

  lemma {:induction false} SameTotals(a: seq<Label>, b: seq<Label>, v: Label)
    requires multiset(a) == multiset(b)
    ensures |Positions(a, v, |a|)| == |Positions(b, v, |b|)|
  {
    PositionsCount(a, v, |a|);
    PositionsCount(b, v, |b|);
    assert a[..|a|] == a && b[..|b|] == b;
  }

  /** A document whose blocks were only reordered gives unchanged pairs and nothing else. */
  lemma {:induction false} ReorderingIsUnchanged(older: seq<BlockObject>, newer: seq<BlockObject>, d: BlockDiff)
    requires IsDiff(older, newer, d)
    requires multiset(BodyLabels(older)) == multiset(BodyLabels(newer))
    ensures d.added == [] && d.removed == [] && d.modified == []
    ensures forall i: nat :: i < |older| ==> HasOld(d.kept, i)
    ensures forall j: nat :: j < |newer| ==> HasNew(d.kept, j)
  {
    forall i: nat | i < |older| ensures HasOld(d.kept, i) && i !in d.removed {
      SameBodiesAllTaken(older, newer, i);
      OldSideTaken(BodyLabels(older), BodyLabels(newer), d.kept, i);
    }
    forall j: nat | j < |newer| ensures HasNew(d.kept, j) && j !in d.added {
      SameBodiesAllTaken(newer, older, j);
      NewSideTaken(BodyLabels(older), BodyLabels(newer), d.kept, j);
    }
    forall m | m in d.modified ensures false {
      SameBodiesAllTaken(older, newer, m.older);
      KeptHasNoKey(older, newer, m.older);
    }
    NonemptyHasMember(d.removed);
    NonemptyHasMember(d.added);
    NonemptyHasMember(d.modified);
  }

  /** The diff of a document with itself pairs each block with itself. */
  lemma {:induction false} SelfDiff(doc: seq<BlockObject>, d: BlockDiff)
    requires IsDiff(doc, doc, d)
    ensures d.added == [] && d.removed == [] && d.modified == []
    ensures forall m :: m in d.kept <==> m.older == m.newer < |doc|
  {
    ReorderingIsUnchanged(doc, doc, d);
    var a := BodyLabels(doc);
    forall m: Match ensures m in d.kept <==> m.older == m.newer < |doc| {
      if m.older < |doc| {
        assert Paired(a, a, m.older, m.older);
        if m in d.kept { PairedInjective(a, a, m.older, m.newer, m.older, m.older); }
      }
    }
  }
}
