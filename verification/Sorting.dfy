/**
Python's `sorted` on a set of strings: the order is by code point, and the sorted list of a set is unique.
*/
module Sorting {

  predicate Less(a: string, b: string) {
    b != "" && (a == "" || a[0] < b[0] || (a[0] == b[0] && Less(a[1..], b[1..])))
  }

  /** `a` and `b` agree up to place `k`, where `a` ends or has the smaller character. */
  ghost predicate LessAt(a: string, b: string, k: nat) {
    k <= |a| && k < |b| && a[..k] == b[..k] && (k == |a| || a[k] < b[k])
  }

  lemma {:induction false} LessIs(a: string, b: string)
    ensures Less(a, b) <==> exists k: nat :: LessAt(a, b, k)
  {
    if a == "" || b == "" || a[0] != b[0] {
      assert LessAt(a, b, 0) <==> b != "" && (a == "" || a[0] < b[0]);
      forall k: nat | 0 < k <= |a| && k <= |b| ensures !LessAt(a, b, k) {
        assert a[..k][0] == a[0] && b[..k][0] == b[0];
      }
    } else {
      LessIs(a[1..], b[1..]);
      forall k: nat ensures LessAt(a, b, k + 1) <==> LessAt(a[1..], b[1..], k) {
        if k < |a| && k < |b| {
          assert a[..k + 1] == [a[0]] + a[1..][..k] && b[..k + 1] == [b[0]] + b[1..][..k];
          assert a[..k + 1][1..] == a[1..][..k] && b[..k + 1][1..] == b[1..][..k];
        }
      }
      if k: nat :| LessAt(a, b, k) {
        if k > 0 { assert LessAt(a[1..], b[1..], k - 1); }
      }
      if k: nat :| LessAt(a[1..], b[1..], k) { assert LessAt(a, b, k + 1); }
    }
  }

  lemma {:induction false} LessTrans(a: string, b: string, c: string)
    requires Less(a, b) && Less(b, c)
    ensures Less(a, c)
  {
    if a != "" && a[0] == b[0] && b[0] == c[0] { LessTrans(a[1..], b[1..], c[1..]); }
  }

  lemma {:induction false} LessTotal(a: string, b: string)
    ensures Less(a, b) || Less(b, a) <==> a != b
    ensures !(Less(a, b) && Less(b, a))
  {
    if a != "" && b != "" && a[0] == b[0] {
      LessTotal(a[1..], b[1..]);
      assert a == [a[0]] + a[1..] && b == [b[0]] + b[1..];
    }
  }

  ghost predicate Increasing(order: seq<string>) {
    forall i, j :: 0 <= i < j < |order| ==> Less(order[i], order[j])
  }

  /** `order` lists `s` in increasing order. */
  ghost predicate Lists(order: seq<string>, s: set<string>) {
    Increasing(order) && forall x :: x in order <==> x in s
  }

  lemma {:induction false} NonemptyHasMember(b: seq<string>)
    ensures b != [] ==> exists x :: x in b
  {
    if b != [] { assert b[0] in b; }
  }

  /** A set has one sorted list. */
  lemma {:induction false} SortedIsUnique(a: seq<string>, b: seq<string>, s: set<string>)
    requires Lists(a, s) && Lists(b, s)
    ensures a == b
  {
    if a == [] {
      NonemptyHasMember(b);
    } else {
      assert a[0] in a;
      assert b != [] && b[0] in b;
      SameFirst(a, b, s);
      TailLists(a, s);
      TailLists(b, s);
      SortedIsUnique(a[1..], b[1..], s - {a[0]});
      assert a == [a[0]] + a[1..] && b == [b[0]] + b[1..];
    }
  }

  lemma {:induction false} SameFirst(a: seq<string>, b: seq<string>, s: set<string>)
    requires Lists(a, s) && Lists(b, s) && a != [] && b != []
    ensures a[0] == b[0]
  {
    assert a[0] in a && b[0] in b;
    var i :| 0 <= i < |b| && b[i] == a[0];
    var j :| 0 <= j < |a| && a[j] == b[0];
    LessTotal(a[0], b[0]);
  }

  lemma {:induction false} TailLists(a: seq<string>, s: set<string>)
    requires Lists(a, s) && a != []
    ensures Lists(a[1..], s - {a[0]})
  {
    forall x ensures x in a[1..] <==> x in s - {a[0]} {
      if x in a[1..] {
        var i :| 0 <= i < |a[1..]| && a[1..][i] == x;
        assert a[i + 1] == x;
        LessTotal(a[0], x);
      }
      if x in s - {a[0]} {
        var i :| 0 <= i < |a| && a[i] == x;
        assert a[1..][i - 1] == x;
      }
    }
  }

  lemma {:induction false} NoRepeats(order: seq<string>, i: nat, j: nat)
    requires Increasing(order) && i < j < |order|
    ensures order[i] != order[j]
  {
    LessTotal(order[i], order[j]);
  }

  /** `sorted(s)`. */
  method Sort(s: set<string>) returns (order: seq<string>)
    ensures Lists(order, s)
  {
    order := [];
    var rest, done := s, {};
    while rest != {}
      invariant Lists(order, done) && done !! rest && done + rest == s
      decreases rest
    {
      var x :| x in rest;
      order := Insert(order, x, done);
      rest, done := rest - {x}, done + {x};
    }
  }

  method Insert(order: seq<string>, x: string, ghost done: set<string>) returns (r: seq<string>)
    requires Lists(order, done) && x !in done
    ensures Lists(r, done + {x})
  {
    var i := 0;
    while i < |order| && Less(order[i], x)
      invariant 0 <= i <= |order|
      invariant forall k :: 0 <= k < i ==> Less(order[k], x)
    {
      i := i + 1;
    }
    r := order[..i] + [x] + order[i..];
    InsertedLists(order, x, done, i);
  }

  lemma {:induction false} InsertedLists(order: seq<string>, x: string, done: set<string>, i: nat)
    requires Lists(order, done) && x !in done && i <= |order|
    requires forall k :: 0 <= k < i ==> Less(order[k], x)
    requires i < |order| ==> !Less(order[i], x)
    ensures Lists(order[..i] + [x] + order[i..], done + {x})
  {
    var r := order[..i] + [x] + order[i..];
    forall k | i <= k < |order| ensures Less(x, order[k]) {
      assert order[i] in order;
      LessTotal(order[i], x);
      if k > i { LessTrans(x, order[i], order[k]); }
    }
    InsertedIncreasing(order, x, i);
    forall y ensures y in r <==> y in done + {x} {
      assert r[i] == x;
      if y in order {
        var k :| 0 <= k < |order| && order[k] == y;
        assert r[if k < i then k else k + 1] == y;
      }
    }
  }

  lemma {:induction false} InsertedIncreasing(order: seq<string>, x: string, i: nat)
    requires Increasing(order) && i <= |order|
    requires forall k :: 0 <= k < i ==> Less(order[k], x)
    requires forall k :: i <= k < |order| ==> Less(x, order[k])
    ensures Increasing(order[..i] + [x] + order[i..])
  {
    var r := order[..i] + [x] + order[i..];
    forall j, k | 0 <= j < k < |r| ensures Less(r[j], r[k]) {
      if j != i && k != i {
        var j', k' := if j < i then j else j - 1, if k < i then k else k - 1;
        assert r[j] == order[j'] && r[k] == order[k'] && j' < k';
      } else if j == i {
        assert r[k] == order[k - 1];
      } else {
        assert r[j] == order[j];
      }
    }
  }

  /** The sorted list of a set. */
  ghost function Sorted(s: set<string>): (order: seq<string>)
    ensures Lists(order, s)
  {
    SortedExists(s);
    var order :| Lists(order, s);
    order
  }

  lemma {:induction false} SortedExists(s: set<string>)
    ensures exists order :: Lists(order, s)
  {
    if s == {} {
      assert Lists([], s);
    } else {
      var x :| x in s;
      SortedExists(s - {x});
      var order :| Lists(order, s - {x});
      var i := InsertPoint(order, x);
      InsertedLists(order, x, s - {x}, i);
      assert s - {x} + {x} == s;
    }
  }

  function InsertPoint(order: seq<string>, x: string): (i: nat)
    ensures i <= |order|
    ensures forall k :: 0 <= k < i ==> Less(order[k], x)
    ensures i < |order| ==> !Less(order[i], x)
  {
    if order == [] || !Less(order[0], x) then 0 else 1 + InsertPoint(order[1..], x)
  }
}
