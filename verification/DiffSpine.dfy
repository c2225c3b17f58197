/** The tracked-changes view of a diff (`diff_render.py`). */
module DiffSpine {
  import opened Text
  import opened BlockDiff
  import opened BlockDiffLaws

  // One list of the new document's blocks in order, with every removed block put back after the block it used to
  // follow.

  datatype Change = Added | Modified | Removed | Unchanged

  /** A block of the view: an old block when it was removed, a new one otherwise. */
  datatype Item = Item(change: Change, block: nat)

  datatype Entry = Entry(n: nat, item: Item)

  // ----- where a removed block goes -----

  /** The new block that carries old block `i` forward, for the blocks that have one. */
  function Survivors(pairs: seq<Match>): map<nat, nat> {
    if pairs == [] then map[]
    else Survivors(pairs[..|pairs| - 1])[pairs[|pairs| - 1].older := pairs[|pairs| - 1].newer]
  }

  /** The new counterpart of the nearest old block before `i` that survives. */
  function AnchorOf(survivors: map<nat, nat>, i: nat): Option<nat> {
    if i == 0 then None
    else if i - 1 in survivors then Some(survivors[i - 1])
    else AnchorOf(survivors, i - 1)
  }

  /** Those of the first `n` removed blocks that go after `anchor`, in their old order. */
  function RemovedAfter(removed: seq<nat>, survivors: map<nat, nat>, anchor: Option<nat>, n: nat): seq<nat>
    requires n <= |removed|
  {
    if n == 0 then []
    else if AnchorOf(survivors, removed[n - 1]) == anchor
      then RemovedAfter(removed, survivors, anchor, n - 1) + [removed[n - 1]]
    else RemovedAfter(removed, survivors, anchor, n - 1)
  }

  function RemovedItems(blocks: seq<nat>): (r: seq<Item>)
    ensures |r| == |blocks|
    ensures forall k :: 0 <= k < |blocks| ==> r[k] == Item(Removed, blocks[k])
  {
    seq(|blocks|, k requires 0 <= k < |blocks| => Item(Removed, blocks[k]))
  }

  predicate HasNewBlock(pairs: seq<Match>, j: nat) {
    exists x :: 0 <= x < |pairs| && pairs[x].newer == j
  }

  function ChangeOf(d: BlockDiff, j: nat): Change {
    if j in d.added then Added else if HasNewBlock(d.modified, j) then Modified else Unchanged
  }

  /** The view up to new block `n`: leading removals, then each new block and the removals after it. */
  function Spine(d: BlockDiff, n: nat): seq<Item> {
    if n == 0 then RemovedItems(Group(d, None))
    else Spine(d, n - 1) + [Item(ChangeOf(d, n - 1), n - 1)] + RemovedItems(Group(d, Some(n - 1)))
  }

  function Group(d: BlockDiff, anchor: Option<nat>): seq<nat> {
    RemovedAfter(d.removed, Survivors(d.kept + d.modified), anchor, |d.removed|)
  }

  // ----- the loops -----

  function ChangedOnly(spine: seq<Entry>, n: nat): seq<Entry>
    requires n <= |spine|
  {
    if n == 0 then []
    else if spine[n - 1].item.change != Unchanged then ChangedOnly(spine, n - 1) + [spine[n - 1]]
    else ChangedOnly(spine, n - 1)
  }

  method FindAnchor(survivors: map<nat, nat>, i: nat) returns (anchor: Option<nat>)
    ensures anchor == AnchorOf(survivors, i)
  {
    var k: nat := i;
    while k > 0
      invariant k <= i && AnchorOf(survivors, i) == AnchorOf(survivors, k)
    {
      if k - 1 in survivors {
        return Some(survivors[k - 1]);
      }
      k := k - 1;
    }
    anchor := None;
  }

  function GroupAt(after: map<nat, seq<nat>>, j: nat): seq<nat> {
    if j in after then after[j] else []
  }

  /** Sort the removed blocks into those that lead and those that follow a new block. */
  method Attach(removed: seq<nat>, survivors: map<nat, nat>)
    returns (leading: seq<nat>, after: map<nat, seq<nat>>)
    ensures leading == RemovedAfter(removed, survivors, None, |removed|)
    ensures forall j: nat :: GroupAt(after, j) == RemovedAfter(removed, survivors, Some(j), |removed|)
  {
    leading, after := [], map[];
    for x := 0 to |removed|
      invariant leading == RemovedAfter(removed, survivors, None, x)
      invariant forall j: nat :: GroupAt(after, j) == RemovedAfter(removed, survivors, Some(j), x)
    {
      var anchor := FindAnchor(survivors, removed[x]);
      ghost var before := after;
      match anchor {
        case None => leading := leading + [removed[x]];
        case Some(j) => after := after[j := GroupAt(after, j) + [removed[x]]];
      }
      forall j: nat ensures GroupAt(after, j) == RemovedAfter(removed, survivors, Some(j), x + 1) {
        assert anchor != Some(j) ==> GroupAt(after, j) == GroupAt(before, j);
      }
    }
  }

  /** The blocks of the view in order. */
  method BuildSpine(d: BlockDiff, newCount: nat) returns (items: seq<Item>)
    ensures items == Spine(d, newCount)
  {
    var leading, after := Attach(d.removed, Survivors(d.kept + d.modified));
    items := RemovedItems(leading);
    for j := 0 to newCount
      invariant items == Spine(d, j)
    {
      items := items + [Item(ChangeOf(d, j), j)] + RemovedItems(GroupAt(after, j));
    }
  }

  /** The numbered view and the panel that links its changed entries: the numbers run from 1 without
      gaps. */
  method RenderSpine(d: BlockDiff, newCount: nat) returns (spine: seq<Entry>, panel: seq<Entry>)
    ensures |spine| == |Spine(d, newCount)|
    ensures forall k :: 0 <= k < |spine| ==> spine[k] == Entry(k + 1, Spine(d, newCount)[k])
    ensures panel == ChangedOnly(spine, |spine|)
    ensures forall e :: e in panel <==> e in spine && e.item.change != Unchanged
    ensures InOrder(panel)
  {
    var items := BuildSpine(d, newCount);
    spine := [];
    for k := 0 to |items|
      invariant |spine| == k
      invariant forall x :: 0 <= x < k ==> spine[x] == Entry(x + 1, items[x])
    {
      spine := spine + [Entry(|spine| + 1, items[k])];
    }
    panel := [];
    for k := 0 to |spine|
      invariant panel == ChangedOnly(spine, k)
    {
      if spine[k].item.change != Unchanged {
        panel := panel + [spine[k]];
      }
    }
    ChangedOnlyIs(spine, |spine|);
    assert spine[..|spine|] == spine;
  }

  ghost predicate InOrder(entries: seq<Entry>) {
    forall x, y :: 0 <= x < y < |entries| ==> entries[x].n < entries[y].n
  }

  lemma {:induction false} ChangedOnlyIs(spine: seq<Entry>, n: nat)
    requires n <= |spine| && forall k :: 0 <= k < |spine| ==> spine[k].n == k + 1
    ensures forall e :: e in ChangedOnly(spine, n) <==> e in spine[..n] && e.item.change != Unchanged
    ensures forall e :: e in ChangedOnly(spine, n) ==> e.n <= n
    ensures InOrder(ChangedOnly(spine, n))
  {
    if n > 0 {
      ChangedOnlyIs(spine, n - 1);
      assert spine[..n] == spine[..n - 1] + [spine[n - 1]];
      var front := ChangedOnly(spine, n - 1);
      forall x | 0 <= x < |front| ensures front[x].n <= n - 1 { assert front[x] in front; }
    }
  }

  // ----- what the view shows -----

  /** The new blocks of a list of items, in order. */
  function NewBlocks(items: seq<Item>): seq<nat> {
    if items == [] then []
    else
      var front, e := items[..|items| - 1], items[|items| - 1];
      if e.change == Removed then NewBlocks(front) else NewBlocks(front) + [e.block]
  }

  function Range(n: nat): seq<nat> {
    if n == 0 then [] else Range(n - 1) + [n - 1]
  }

  lemma {:induction false} NewBlocksAppend(a: seq<Item>, b: seq<Item>)
    ensures NewBlocks(a + b) == NewBlocks(a) + NewBlocks(b)
  {
    if b == [] {
      assert a + b == a;
    } else {
      var front, e := b[..|b| - 1], b[|b| - 1];
      CutAt(a + b, a + front, [e]);
      assert a + b == (a + front) + [e];
      NewBlocksAppend(a, front);
    }
  }

  lemma {:induction false} RemovedItemsHoldNoNew(items: seq<Item>)
    requires forall k :: 0 <= k < |items| ==> items[k].change == Removed
    ensures NewBlocks(items) == []
  {
    if items != [] { RemovedItemsHoldNoNew(items[..|items| - 1]); }
  }

  lemma {:induction false} NewBlocksSnoc(items: seq<Item>, e: Item)
    ensures NewBlocks(items + [e]) == if e.change == Removed then NewBlocks(items) else NewBlocks(items) + [e.block]
  {
    CutAt(items + [e], items, [e]);
  }

  lemma {:induction false} NewBlocksStep(before: seq<Item>, one: Item, blocks: seq<nat>)
    requires one.change != Removed
    ensures NewBlocks(before + [one] + RemovedItems(blocks)) == NewBlocks(before) + [one.block]
  {
    NewBlocksSnoc(before, one);
    RemovedItemsHoldNoNew(RemovedItems(blocks));
    NewBlocksAppend(before + [one], RemovedItems(blocks));
    assert NewBlocks(before + [one]) + [] == NewBlocks(before + [one]);
  }

  lemma {:induction false} IsNewItem(d: BlockDiff, j: nat)
    ensures ChangeOf(d, j) != Removed
  {
  }

  lemma {:induction false} NoneRemovedIsNew(d: BlockDiff)
    ensures NewBlocks(RemovedItems(Group(d, None))) == []
  {
    hide Group;
    RemovedItemsHoldNoNew(RemovedItems(Group(d, None)));
  }

  /** Every new block stands in the view once, in the order of the new document. */
  lemma {:induction false} SpineKeepsNewOrder(d: BlockDiff, n: nat)
    ensures NewBlocks(Spine(d, n)) == Range(n)
  {
    hide Group, ChangeOf, RemovedItems, NewBlocks;
    if n == 0 {
      NoneRemovedIsNew(d);
    } else {
      IsNewItem(d, n - 1);
      SpineKeepsNewOrder(d, n - 1);
      NewBlocksStep(Spine(d, n - 1), Item(ChangeOf(d, n - 1), n - 1), Group(d, Some(n - 1)));
    }
  }

  /** The last new block before position `p`. */
  function LastNew(items: seq<Item>, p: nat): Option<nat>
    requires p <= |items|
  {
    if p == 0 then None
    else if items[p - 1].change == Removed then LastNew(items, p - 1)
    else Some(items[p - 1].block)
  }

  lemma {:induction false} LastNewPrefix(a: seq<Item>, b: seq<Item>, p: nat)
    requires p <= |a|
    ensures LastNew(a + b, p) == LastNew(a, p)
  {
    if p > 0 { LastNewPrefix(a, b, p - 1); }
  }

  lemma {:induction false} LastNewAcrossRemoved(items: seq<Item>, p: nat, q: nat)
    requires p <= q <= |items|
    requires forall k :: p <= k < q ==> items[k].change == Removed
    ensures LastNew(items, q) == LastNew(items, p)
  {
    if p < q { LastNewAcrossRemoved(items, p, q - 1); }
  }

  lemma {:induction false} RemovedAfterMeaning(removed: seq<nat>, survivors: map<nat, nat>, anchor: Option<nat>, n: nat)
    requires n <= |removed|
    ensures forall i :: i in RemovedAfter(removed, survivors, anchor, n) <==>
                        i in removed[..n] && AnchorOf(survivors, i) == anchor
  {
    if n > 0 {
      RemovedAfterMeaning(removed, survivors, anchor, n - 1);
      assert removed[..n] == removed[..n - 1] + [removed[n - 1]];
    }
  }

  lemma {:induction false} GroupMeaning(d: BlockDiff, anchor: Option<nat>)
    ensures forall i :: i in Group(d, anchor) <==>
                        i in d.removed && AnchorOf(Survivors(d.kept + d.modified), i) == anchor
  {
    RemovedAfterMeaning(d.removed, Survivors(d.kept + d.modified), anchor, |d.removed|);
    assert d.removed[..|d.removed|] == d.removed;
  }

  /** Every removed block in the view follows the new counterpart of its nearest surviving old
      predecessor, with only removed blocks in between, or leads the view when it has none. */
  ghost predicate WellPlaced(d: BlockDiff, items: seq<Item>) {
    forall p :: 0 <= p < |items| && items[p].change == Removed ==>
      items[p].block in d.removed
      && LastNew(items, p) == AnchorOf(Survivors(d.kept + d.modified), items[p].block)
  }

  lemma {:induction false} SpineWellPlaced(d: BlockDiff, n: nat)
    ensures WellPlaced(d, Spine(d, n))
  {
    if n == 0 {
      GroupPlaced(d, [], None);
      assert [] + RemovedItems(Group(d, None)) == Spine(d, 0);
    } else {
      SpineWellPlaced(d, n - 1);
      var before, one := Spine(d, n - 1), Item(ChangeOf(d, n - 1), n - 1);
      OneMorePlaced(d, before, one);
      GroupPlaced(d, before + [one], Some(n - 1));
    }
  }

  /** The old block of the pair is the nearest one before `i` that has a new counterpart. */
  ghost predicate NearestPair(pairs: seq<Match>, i: nat, m: Match) {
    m in pairs && m.older < i && forall x :: x in pairs && x.older < i ==> x.older <= m.older
  }

  /** A removed block that stands after `anchor` follows the new counterpart of the nearest old block before it that has
      one; it leads when there is none. */
  ghost predicate FollowsNearest(pairs: seq<Match>, i: nat, anchor: Option<nat>) {
    match anchor
    case None => forall x :: x in pairs ==> x.older >= i
    case Some(j) => exists m :: NearestPair(pairs, i, m) && m.newer == j
  }

  lemma {:induction false} SurvivorsAre(pairs: seq<Match>, k: nat)
    ensures k in Survivors(pairs) <==> exists m :: m in pairs && m.older == k
    ensures k in Survivors(pairs) ==> Match(k, Survivors(pairs)[k]) in pairs
  {
    if pairs != [] {
      var front, last := pairs[..|pairs| - 1], pairs[|pairs| - 1];
      assert forall m :: m in pairs <==> m in front || m == last;
      SurvivorsAre(front, k);
    }
  }

  lemma {:induction false} AnchorFollows(pairs: seq<Match>, i: nat)
    ensures FollowsNearest(pairs, i, AnchorOf(Survivors(pairs), i))
  {
    hide Survivors;
    var survivors := Survivors(pairs);
    if AnchorOf(survivors, i).Some? {
      var b := NearestBefore(survivors, i);
      SurvivorsAre(pairs, b);
      forall x | x in pairs && x.older < i ensures x.older <= b { SurvivorsAre(pairs, x.older); }
      assert NearestPair(pairs, i, Match(b, survivors[b]));
    } else {
      forall x | x in pairs ensures x.older >= i {
        SurvivorsAre(pairs, x.older);
        if x.older < i { AnchorExists(survivors, i, x.older); }
      }
    }
  }

  /** So in the view of any diff every removed block stands after the new counterpart of the nearest old block before it
      that has one, with only removed blocks between. */
  lemma {:induction false} RemovedFollowNearest(d: BlockDiff, n: nat, p: nat)
    requires p < |Spine(d, n)| && Spine(d, n)[p].change == Removed
    ensures Spine(d, n)[p].block in d.removed
    ensures FollowsNearest(d.kept + d.modified, Spine(d, n)[p].block, LastNew(Spine(d, n), p))
  {
    hide Spine, FollowsNearest, LastNew;
    SpineWellPlaced(d, n);
    AnchorFollows(d.kept + d.modified, Spine(d, n)[p].block);
  }

  /** Old block `a` is the last surviving one of the section that block `i` is in. */
  ghost predicate LastSurvivorOf(survivors: map<nat, nat>, section: nat -> int, i: nat, a: nat) {
    && a in survivors && section(a) == section(i)
    && forall b: nat :: b in survivors && section(b) == section(i) ==> b <= a
  }

  lemma {:induction false} NearestBefore(survivors: map<nat, nat>, i: nat) returns (b: nat)
    requires AnchorOf(survivors, i).Some?
    ensures b < i && b in survivors && AnchorOf(survivors, i) == Some(survivors[b])
    ensures forall c: nat :: b < c < i ==> c !in survivors
  {
    if i - 1 in survivors {
      b := i - 1;
    } else {
      b := NearestBefore(survivors, i - 1);
    }
  }

  lemma {:induction false} AnchorExists(survivors: map<nat, nat>, i: nat, a: nat)
    requires a < i && a in survivors
    ensures AnchorOf(survivors, i).Some?
  {
    if a < i - 1 { AnchorExists(survivors, i - 1, a); }
  }

  ghost predicate AttachedAfter(survivors: map<nat, nat>, section: nat -> int, i: nat, a: nat) {
    LastSurvivorOf(survivors, section, i, a) && AnchorOf(survivors, i) == Some(survivors[a])
  }

  /** A removed block is attached after the last surviving block of its own old section exactly when that section has
      surviving blocks and they all come before it; the sections are in order, and no two blocks become one. */
  lemma {:induction false} AttachedInOwnSectionIff(survivors: map<nat, nat>, section: nat -> int, i: nat)
    requires forall a: nat, b: nat :: a <= b ==> section(a) <= section(b)
    requires forall a, b :: a in survivors && b in survivors && survivors[a] == survivors[b] ==> a == b
    requires i !in survivors
    ensures (exists a: nat :: AttachedAfter(survivors, section, i, a))
      <==> && (exists a: nat :: a in survivors && section(a) == section(i))
           && forall a: nat :: a in survivors && section(a) == section(i) ==> a < i
  {
    hide AttachedAfter;
    if a: nat :| AttachedAfter(survivors, section, i, a) {
      AllBefore(survivors, section, i, a);
    }
    if && (exists a: nat :: a in survivors && section(a) == section(i))
       && forall a: nat :: a in survivors && section(a) == section(i) ==> a < i
    {
      var b := LastBefore(survivors, section, i);
    }
  }

  lemma {:induction false} AllBefore(survivors: map<nat, nat>, section: nat -> int, i: nat, a: nat)
    requires forall a, b :: a in survivors && b in survivors && survivors[a] == survivors[b] ==> a == b
    requires AttachedAfter(survivors, section, i, a)
    ensures a in survivors && section(a) == section(i)
    ensures forall b: nat :: b in survivors && section(b) == section(i) ==> b < i
  {
    var b := NearestBefore(survivors, i);
    assert a == b;
  }

  lemma {:induction false} LastBefore(survivors: map<nat, nat>, section: nat -> int, i: nat) returns (b: nat)
    requires forall a: nat, b: nat :: a <= b ==> section(a) <= section(b)
    requires exists a: nat :: a in survivors && section(a) == section(i)
    requires forall a: nat :: a in survivors && section(a) == section(i) ==> a < i
    ensures AttachedAfter(survivors, section, i, b)
  {
    hide AnchorOf;
    var a: nat :| a in survivors && section(a) == section(i);
    AnchorExists(survivors, i, a);
    b := NearestBefore(survivors, i);
    assert section(a) <= section(b) <= section(i);
  }

  lemma {:induction false} OneMorePlaced(d: BlockDiff, head: seq<Item>, one: Item)
    requires WellPlaced(d, head) && one.change != Removed
    ensures WellPlaced(d, head + [one])
  {
    var items := head + [one];
    forall p | 0 <= p < |items| && items[p].change == Removed
      ensures items[p].block in d.removed
      ensures LastNew(items, p) == AnchorOf(Survivors(d.kept + d.modified), items[p].block)
    {
      LastNewPrefix(head, [one], p);
    }
  }

  lemma {:induction false} GroupPlaced(d: BlockDiff, head: seq<Item>, anchor: Option<nat>)
    requires WellPlaced(d, head) && LastNew(head, |head|) == anchor
    ensures WellPlaced(d, head + RemovedItems(Group(d, anchor)))
  {
    var blocks := Group(d, anchor);
    var tail := RemovedItems(blocks);
    var items := head + tail;
    GroupMeaning(d, anchor);
    forall p | 0 <= p < |items| && items[p].change == Removed
      ensures items[p].block in d.removed
      ensures LastNew(items, p) == AnchorOf(Survivors(d.kept + d.modified), items[p].block)
    {
      if p < |head| {
        LastNewPrefix(head, tail, p);
      } else {
        LastNewPrefix(head, tail, |head|);
        LastNewAcrossRemoved(items, |head|, p);
        assert items[p] == tail[p - |head|] == Item(Removed, blocks[p - |head|]);
        assert blocks[p - |head|] in blocks;
      }
    }
  }

  // ----- nothing is lost or shown twice -----

  /** The removed blocks among the first `n` items, in order. */
  function RemovedIn(items: seq<Item>, n: nat): seq<nat>
    requires n <= |items|
  {
    if n == 0 then []
    else if items[n - 1].change == Removed then RemovedIn(items, n - 1) + [items[n - 1].block]
    else RemovedIn(items, n - 1)
  }

  lemma {:induction false} RemovedInPrefix(a: seq<Item>, b: seq<Item>, n: nat)
    requires n <= |a|
    ensures RemovedIn(a + b, n) == RemovedIn(a, n)
  {
    if n > 0 { RemovedInPrefix(a, b, n - 1); }
  }

  lemma {:induction false} RemovedInGroup(head: seq<Item>, blocks: seq<nat>, n: nat)
    requires n <= |blocks|
    ensures RemovedIn(head + RemovedItems(blocks), |head| + n) == RemovedIn(head, |head|) + blocks[..n]
  {
    if n == 0 {
      RemovedInPrefix(head, RemovedItems(blocks), |head|);
      assert blocks[..0] == [];
    } else {
      RemovedInGroup(head, blocks, n - 1);
      assert blocks[..n] == blocks[..n - 1] + [blocks[n - 1]];
    }
  }

  /** The removed blocks of the view, group after group. */
  function Groups(d: BlockDiff, n: nat): seq<nat> {
    if n == 0 then Group(d, None) else Groups(d, n - 1) + Group(d, Some(n - 1))
  }

  lemma {:induction false} RemovedInStep(head: seq<Item>, blocks: seq<nat>)
    ensures var items := head + RemovedItems(blocks);
      RemovedIn(items, |items|) == RemovedIn(head, |head|) + blocks
  {
    RemovedInGroup(head, blocks, |blocks|);
    assert blocks[..|blocks|] == blocks;
  }

  lemma {:induction false} RemovedInSnoc(head: seq<Item>, one: Item)
    requires one.change != Removed
    ensures RemovedIn(head + [one], |head| + 1) == RemovedIn(head, |head|)
  {
    RemovedInPrefix(head, [one], |head|);
  }

  lemma {:induction false} SpineRemovedAreGroups(d: BlockDiff, n: nat)
    ensures RemovedIn(Spine(d, n), |Spine(d, n)|) == Groups(d, n)
  {
    if n == 0 {
      RemovedInStep([], Group(d, None));
      assert [] + RemovedItems(Group(d, None)) == Spine(d, 0);
    } else {
      SpineRemovedAreGroups(d, n - 1);
      var one := Item(ChangeOf(d, n - 1), n - 1);
      RemovedInSnoc(Spine(d, n - 1), one);
      RemovedInStep(Spine(d, n - 1) + [one], Group(d, Some(n - 1)));
    }
  }

  lemma {:induction false} GroupCount(removed: seq<nat>, survivors: map<nat, nat>, anchor: Option<nat>, n: nat, i: nat)
    requires n <= |removed|
    ensures multiset(RemovedAfter(removed, survivors, anchor, n))[i]
      == if AnchorOf(survivors, i) == anchor then multiset(removed[..n])[i] else 0
  {
    if n > 0 {
      GroupCount(removed, survivors, anchor, n - 1, i);
      assert removed[..n] == removed[..n - 1] + [removed[n - 1]];
    }
  }

  lemma {:induction false} GroupsCount(d: BlockDiff, n: nat, i: nat)
    ensures var anchor := AnchorOf(Survivors(d.kept + d.modified), i);
      multiset(Groups(d, n))[i] == if anchor == None || anchor.value < n then multiset(d.removed)[i] else 0
  {
    hide AnchorOf, RemovedAfter, Survivors;
    var survivors := Survivors(d.kept + d.modified);
    assert d.removed[..|d.removed|] == d.removed;
    if n == 0 {
      GroupCount(d.removed, survivors, None, |d.removed|, i);
    } else {
      GroupsCount(d, n - 1, i);
      GroupCount(d.removed, survivors, Some(n - 1), |d.removed|, i);
    }
  }

  lemma {:induction false} SurvivorsAreNew(pairs: seq<Match>, n: nat)
    requires forall m :: m in pairs ==> m.newer < n
    ensures forall k :: k in Survivors(pairs) ==> Survivors(pairs)[k] < n
  {
    if pairs != [] { SurvivorsAreNew(pairs[..|pairs| - 1], n); }
  }

  lemma {:induction false} AnchorIsNew(survivors: map<nat, nat>, i: nat, n: nat)
    requires forall k :: k in survivors ==> survivors[k] < n
    ensures AnchorOf(survivors, i).Some? ==> AnchorOf(survivors, i).value < n
  {
    if i > 0 { AnchorIsNew(survivors, i - 1, n); }
  }

  /** Every removed block of a diff stands in the view exactly once. */
  lemma {:induction false} SpineShowsRemovedOnce(older: seq<BlockObject>, newer: seq<BlockObject>, d: BlockDiff)
    requires IsDiff(older, newer, d)
    ensures var spine := Spine(d, |newer|);
      multiset(RemovedIn(spine, |spine|)) == multiset(d.removed)
  {
    var pairs := d.kept + d.modified;
    forall m | m in pairs ensures m.newer < |newer| {
    }
    SurvivorsAreNew(pairs, |newer|);
    SpineRemovedAreGroups(d, |newer|);
    forall i: nat ensures multiset(Groups(d, |newer|))[i] == multiset(d.removed)[i] {
      AnchorIsNew(Survivors(pairs), i, |newer|);
      GroupsCount(d, |newer|, i);
    }
    assert multiset(Groups(d, |newer|)) == multiset(d.removed);
  }

  /** Removed blocks that share an anchor keep their old order. */
  lemma {:induction false} GroupKeepsOldOrder(removed: seq<nat>, survivors: map<nat, nat>, anchor: Option<nat>, n: nat)
    requires n <= |removed| && Ascending(removed)
    ensures Ascending(RemovedAfter(removed, survivors, anchor, n))
    ensures forall i :: i in RemovedAfter(removed, survivors, anchor, n) ==> i in removed[..n]
  {
    if n > 0 {
      GroupKeepsOldOrder(removed, survivors, anchor, n - 1);
      var front := RemovedAfter(removed, survivors, anchor, n - 1);
      forall k | 0 <= k < |front| ensures front[k] < removed[n - 1] && front[k] in removed[..n] {
        assert front[k] in front;
        var x :| 0 <= x < n - 1 && removed[..n - 1][x] == front[k];
        assert removed[..n][x] == front[k];
      }
      assert removed[..n][n - 1] == removed[n - 1];
    }
  }

  // ----- what the entries say -----

  /** An item says of its block what the diff says of it. */
  ghost predicate SaysWhatHappened(d: BlockDiff, e: Item) {
    match e.change
    case Removed => e.block in d.removed
    case Added => e.block in d.added
    case Modified => HasNew(d.modified, e.block)
    case Unchanged => HasNew(d.kept, e.block)
  }

  lemma {:induction false} SpineItems(d: BlockDiff, n: nat, p: nat)
    requires p < |Spine(d, n)|
    ensures var e := Spine(d, n)[p];
      if e.change == Removed then e.block in d.removed else e.block < n && e.change == ChangeOf(d, e.block)
  {
    hide Group, ChangeOf;
    var s := if n == 0 then [] else Spine(d, n - 1) + [Item(ChangeOf(d, n - 1), n - 1)];
    if n > 0 { IsNewItem(d, n - 1); }
    if n > 0 && p < |Spine(d, n - 1)| {
      SpineItems(d, n - 1, p);
    } else if p >= |s| {
      var anchor := if n == 0 then None else Some(n - 1);
      GroupMeaning(d, anchor);
      assert Group(d, anchor)[p - |s|] in Group(d, anchor);
    }
  }

  /** Every entry of the view says of its block what the diff says: added, modified, removed or unchanged. */
  lemma {:induction false} EntriesSayWhatHappened(older: seq<BlockObject>, newer: seq<BlockObject>, d: BlockDiff,
                                                  p: nat)
    requires IsDiff(older, newer, d) && p < |Spine(d, |newer|)|
    ensures SaysWhatHappened(d, Spine(d, |newer|)[p])
  {
    hide IsDiff, HasNewBlock, HasNew, Spine;
    SpineItems(d, |newer|, p);
    var j := Spine(d, |newer|)[p].block;
    if j < |newer| {
      NewBlockOnce(older, newer, d, j);
      HasNewBlockIff(d.modified, j);
    }
  }

  // ----- the panel -----

  ghost function ChangedNew(d: BlockDiff, n: nat): set<nat> {
    set j: nat | j < n && ChangeOf(d, j) != Unchanged
  }

  lemma {:induction false} ChangedCount(items: seq<Item>, spine: seq<Entry>, n: nat)
    requires n <= |items| == |spine|
    requires forall k :: 0 <= k < |spine| ==> spine[k].item == items[k]
    ensures |ChangedOnly(spine, n)| == |RemovedIn(items, n)| + ChangedNewItems(items, n)
  {
    if n > 0 { ChangedCount(items, spine, n - 1); }
  }

  function ChangedNewItems(items: seq<Item>, n: nat): nat
    requires n <= |items|
  {
    if n == 0 then 0
    else ChangedNewItems(items, n - 1)
         + (if items[n - 1].change == Added || items[n - 1].change == Modified then 1 else 0)
  }

  lemma {:induction false} ChangedNewPrefix(a: seq<Item>, b: seq<Item>, n: nat)
    requires n <= |a|
    ensures ChangedNewItems(a + b, n) == ChangedNewItems(a, n)
  {
    if n > 0 { ChangedNewPrefix(a, b, n - 1); }
  }

  lemma {:induction false} ChangedNewAcrossRemoved(items: seq<Item>, p: nat, q: nat)
    requires p <= q <= |items|
    requires forall k :: p <= k < q ==> items[k].change == Removed
    ensures ChangedNewItems(items, q) == ChangedNewItems(items, p)
  {
    if p < q { ChangedNewAcrossRemoved(items, p, q - 1); }
  }

  lemma {:induction false} SpineChangedNew(d: BlockDiff, n: nat)
    ensures ChangedNewItems(Spine(d, n), |Spine(d, n)|) == |ChangedNew(d, n)|
  {
    hide Group, ChangeOf;
    if n == 0 {
      ChangedNewAcrossRemoved(Spine(d, 0), 0, |Spine(d, 0)|);
      assert ChangedNew(d, 0) == {};
    } else {
      IsNewItem(d, n - 1);
      SpineChangedNew(d, n - 1);
      NewItemCounts(Spine(d, n - 1), Item(ChangeOf(d, n - 1), n - 1), Group(d, Some(n - 1)));
      ChangedNewStep(d, n);
    }
  }

  /** An item of the new document counts if it changed; the removed ones after it do not. */
  lemma {:induction false} NewItemCounts(before: seq<Item>, item: Item, group: seq<nat>)
    requires item.change != Removed
    ensures var all := before + [item] + RemovedItems(group);
      ChangedNewItems(all, |all|)
      == ChangedNewItems(before, |before|) + if item.change != Unchanged then 1 else 0
  {
    var one, tail := [item], RemovedItems(group);
    ChangedNewPrefix(before, one, |before|);
    ChangedNewPrefix(before + one, tail, |before| + 1);
    ChangedNewAcrossRemoved(before + one + tail, |before| + 1, |before + one + tail|);
  }

  lemma {:induction false} ChangedNewStep(d: BlockDiff, n: nat)
    requires n > 0
    ensures |ChangedNew(d, n)| == |ChangedNew(d, n - 1)| + if ChangeOf(d, n - 1) != Unchanged then 1 else 0
  {
    hide ChangeOf;
    assert ChangedNew(d, n) == ChangedNew(d, n - 1) + (if ChangeOf(d, n - 1) != Unchanged then {n - 1} else {});
  }

  lemma {:induction false} AscendingSetSize(s: seq<nat>, members: set<nat>)
    requires Ascending(s)
    requires forall x: nat :: x in members <==> x in s
    ensures |members| == |s|
  {
    if s == [] {
      assert members == {};
    } else {
      var front, last := s[..|s| - 1], s[|s| - 1];
      forall x: nat ensures x in members - {last} <==> x in front {
        assert x in s <==> x in front || x == last;
        assert last !in front;
      }
      AscendingSetSize(front, members - {last});
    }
  }

  function Newers(pairs: seq<Match>): (r: seq<nat>)
    ensures |r| == |pairs| && forall k :: 0 <= k < |r| ==> r[k] == pairs[k].newer
  {
    seq(|pairs|, k requires 0 <= k < |pairs| => pairs[k].newer)
  }

  /** The panel has one entry for each added, modified and removed block. */
  lemma {:induction false} PanelCount(older: seq<BlockObject>, newer: seq<BlockObject>, d: BlockDiff, spine: seq<Entry>)
    requires IsDiff(older, newer, d)
    requires |spine| == |Spine(d, |newer|)|
    requires forall k :: 0 <= k < |spine| ==> spine[k] == Entry(k + 1, Spine(d, |newer|)[k])
    ensures |ChangedOnly(spine, |spine|)| == |d.added| + |d.modified| + |d.removed|
  {
    var items := Spine(d, |newer|);
    ChangedCount(items, spine, |spine|);
    SpineShowsRemovedOnce(older, newer, d);
    assert |multiset(RemovedIn(items, |items|))| == |multiset(d.removed)|;
    SpineChangedNew(d, |newer|);
    ChangedNewSize(older, newer, d);
  }

  lemma {:induction false} ChangedNewSize(older: seq<BlockObject>, newer: seq<BlockObject>, d: BlockDiff)
    requires IsDiff(older, newer, d)
    ensures |ChangedNew(d, |newer|)| == |d.added| + |d.modified|
  {
    forall j: nat | j in d.added ensures j < |newer| && !HasNewBlock(d.modified, j) {
      AddedIsNotModified(older, newer, d, j);
    }
    forall m | m in d.modified ensures m.newer < |newer| {
    }
    ChangedNewSizes(d, |newer|);
  }

  lemma {:induction false} AddedIsNotModified(older: seq<BlockObject>, newer: seq<BlockObject>, d: BlockDiff, j: nat)
    requires IsDiff(older, newer, d) && j in d.added
    ensures j < |newer| && !HasNewBlock(d.modified, j)
  {
    NewBlockOnce(older, newer, d, j);
    HasNewBlockIff(d.modified, j);
  }

  lemma {:induction false} HasNewBlockIff(pairs: seq<Match>, j: nat)
    ensures HasNewBlock(pairs, j) <==> HasNew(pairs, j)
  {
    if x :| 0 <= x < |pairs| && pairs[x].newer == j { assert pairs[x] in pairs; }
  }

  lemma {:induction false} ChangedNewSizes(d: BlockDiff, n: nat)
    requires Ascending(d.added) && InNewOrder(d.modified)
    requires forall j: nat :: j in d.added ==> j < n && !HasNewBlock(d.modified, j)
    requires forall m :: m in d.modified ==> m.newer < n
    ensures |ChangedNew(d, n)| == |d.added| + |d.modified|
  {
    var newers := Newers(d.modified);
    var added, modified := set j | j in d.added, set j | j in newers;
    AscendingSetSize(d.added, added);
    AscendingSetSize(newers, modified);
    forall j: nat ensures j in newers <==> HasNewBlock(d.modified, j) {
    }
    ChangedNewIs(d, n, added, modified);
  }

  lemma {:induction false} ChangedNewIs(d: BlockDiff, n: nat, added: set<nat>, modified: set<nat>)
    requires forall j: nat :: (j in added <==> j in d.added) && (j in modified <==> HasNewBlock(d.modified, j))
    requires forall j: nat :: j in added || j in modified ==> j < n
    requires added !! modified
    ensures |ChangedNew(d, n)| == |added| + |modified|
  {
    assert ChangedNew(d, n) == added + modified;
  }
}
