/** Anchoring a comment to one occurrence of a quote (`anchor.js`). */
module Anchor {
  import opened Text

  // Capture records the text around the selection, grown until it is unique, and the ordinal of the occurrence;
  // re-anchoring scores every occurrence by how much of that context it has.

  function Min(x: int, y: int): int { if x <= y then x else y }
  function Max(x: int, y: int): int { if x >= y then x else y }

  /** JavaScript's `t.slice(i, j)`, where a negative bound counts from the end. */
  function Bound(t: string, i: int): (r: nat)
    ensures r <= |t|
  {
    if i < 0 then Max(0, |t| + i) else Min(i, |t|)
  }

  function Slice(t: string, i: int, j: int): string {
    if Bound(t, i) <= Bound(t, j) then t[Bound(t, i)..Bound(t, j)] else ""
  }

  /** Matching characters counted from the start, `i` of them known to match. */
  function PrefixFrom(a: string, b: string, i: nat): (r: nat)
    requires i <= Min(|a|, |b|)
    ensures i <= r <= Min(|a|, |b|)
    decreases |a| - i
  {
    if i < Min(|a|, |b|) && a[i] == b[i] then PrefixFrom(a, b, i + 1) else i
  }

  /** Matching characters counted from the end, `i` of them known to match. */
  function SuffixFrom(a: string, b: string, i: nat): (r: nat)
    requires i <= Min(|a|, |b|)
    ensures i <= r <= Min(|a|, |b|)
    decreases |a| - i
  {
    if i < Min(|a|, |b|) && a[|a| - 1 - i] == b[|b| - 1 - i] then SuffixFrom(a, b, i + 1) else i
  }

  ghost predicate StartAlike(a: string, b: string, n: nat) {
    n <= |a| && n <= |b| && a[..n] == b[..n]
  }

  ghost predicate EndAlike(a: string, b: string, n: nat) {
    n <= |a| && n <= |b| && a[|a| - n..] == b[|b| - n..]
  }

  lemma {:induction false} StartAlikeStep(a: string, b: string, i: nat)
    requires i < |a| && i < |b|
    ensures StartAlike(a, b, i + 1) <==> StartAlike(a, b, i) && a[i] == b[i]
  {
    assert a[..i + 1] == a[..i] + [a[i]] && b[..i + 1] == b[..i] + [b[i]];
  }

  lemma {:induction false} EndAlikeStep(a: string, b: string, i: nat)
    requires i < |a| && i < |b|
    ensures EndAlike(a, b, i + 1) <==> EndAlike(a, b, i) && a[|a| - 1 - i] == b[|b| - 1 - i]
  {
    assert a[|a| - (i + 1)..] == [a[|a| - 1 - i]] + a[|a| - i..];
    assert b[|b| - (i + 1)..] == [b[|b| - 1 - i]] + b[|b| - i..];
  }

  /** The longest agreement at the start of both. */
  method CommonPrefixLen(a: string, b: string) returns (i: nat)
    ensures i == PrefixFrom(a, b, 0)
    ensures StartAlike(a, b, i) && (i < |a| && i < |b| ==> a[i] != b[i])
  {
    var n := Min(|a|, |b|);
    i := 0;
    while i < n && a[i] == b[i]
      invariant 0 <= i <= n && PrefixFrom(a, b, 0) == PrefixFrom(a, b, i)
      invariant StartAlike(a, b, i)
    {
      i := i + 1;
    }
  }

  /** The longest agreement at the end of both. */
  method CommonSuffixLen(a: string, b: string) returns (i: nat)
    ensures i == SuffixFrom(a, b, 0)
    ensures EndAlike(a, b, i) && (i < |a| && i < |b| ==> a[|a| - 1 - i] != b[|b| - 1 - i])
  {
    var n := Min(|a|, |b|);
    i := 0;
    while i < n && a[|a| - 1 - i] == b[|b| - 1 - i]
      invariant 0 <= i <= n && SuffixFrom(a, b, 0) == SuffixFrom(a, b, i)
      invariant EndAlike(a, b, i)
    {
      EndAlikeStep(a, b, i);
      i := i + 1;
    }
  }

  /** The prefix count is `n` or more exactly when the first `n` characters agree. */
  lemma {:induction false} PrefixAtLeast(a: string, b: string, i: nat, n: nat)
    requires StartAlike(a, b, i)
    ensures PrefixFrom(a, b, i) >= n <==> n <= i || StartAlike(a, b, n)
    decreases |a| - i
  {
    hide StartAlike;
    if i < |a| && i < |b| {
      StartAlikeStep(a, b, i);
      if a[i] == b[i] { PrefixAtLeast(a, b, i + 1, n); }
    }
    if i < n { StartAlikeLess(a, b, i + 1, n); }
  }

  lemma {:induction false} StartAlikeLess(a: string, b: string, m: nat, n: nat)
    requires m <= n
    ensures StartAlike(a, b, n) ==> StartAlike(a, b, m)
  {
    if StartAlike(a, b, n) { assert a[..m] == a[..n][..m] && b[..m] == b[..n][..m]; }
  }

  /** The suffix count is `n` or more exactly when the last `n` characters agree. */
  lemma {:induction false} SuffixAtLeast(a: string, b: string, i: nat, n: nat)
    requires EndAlike(a, b, i)
    ensures SuffixFrom(a, b, i) >= n <==> n <= i || EndAlike(a, b, n)
    decreases |a| - i
  {
    hide EndAlike;
    if i < |a| && i < |b| {
      EndAlikeStep(a, b, i);
      if a[|a| - 1 - i] == b[|b| - 1 - i] { SuffixAtLeast(a, b, i + 1, n); }
    }
    if i < n { EndAlikeLess(a, b, i + 1, n); }
  }

  lemma {:induction false} EndAlikeLess(a: string, b: string, m: nat, n: nat)
    requires m <= n
    ensures EndAlike(a, b, n) ==> EndAlike(a, b, m)
  {
    if EndAlike(a, b, n) {
      assert a[|a| - m..] == a[|a| - n..][n - m..] && b[|b| - m..] == b[|b| - n..][n - m..];
    }
  }

  // ----- occurrences -----

  /** Every start of `quote` in `text`, overlapping ones included, in order. */
  ghost predicate AreOccurrences(text: string, quote: string, occ: seq<nat>) {
    && (forall i: nat :: i in occ <==> Occurs(text, quote, i))
    && forall x, y :: 0 <= x < y < |occ| ==> occ[x] < occ[y]
  }

  lemma {:induction false} OccursFits(text: string, quote: string, i: nat)
    requires Occurs(text, quote, i)
    ensures i + |quote| <= |text|
  {
  }

  method Occurrences(text: string, quote: string) returns (occ: seq<nat>)
    ensures quote == "" ==> occ == []
    ensures quote != "" ==> AreOccurrences(text, quote, occ)
  {
    hide Occurs;
    occ := [];
    if quote == "" { return; }
    var from: nat := 0;
    var i := Find(text, quote, from);
    while i != -1
      invariant i == Find(text, quote, from)
      invariant forall k: nat :: k in occ <==> k < from && Occurs(text, quote, k)
      invariant forall x, y :: 0 <= x < y < |occ| ==> occ[x] < occ[y]
      invariant from <= |text|
      decreases |text| - from, i != -1
    {
      assert forall x :: 0 <= x < |occ| ==> occ[x] in occ;
      OccursFits(text, quote, i);
      occ := occ + [i];
      from := i + 1;
      i := Find(text, quote, from);
    }
  }

  /** How many occurrences start before `p`: the ordinal of the one at `p`. */
  ghost function OrdinalOf(text: string, quote: string, p: nat): nat {
    if p == 0 then 0 else OrdinalOf(text, quote, p - 1) + (if Occurs(text, quote, p - 1) then 1 else 0)
  }

  lemma {:induction false} OrdinalMonotone(text: string, quote: string, p: nat, q: nat)
    requires p <= q
    ensures OrdinalOf(text, quote, p) <= OrdinalOf(text, quote, q)
    ensures p < q && Occurs(text, quote, p) ==> OrdinalOf(text, quote, p) < OrdinalOf(text, quote, q)
  {
    if p < q { OrdinalMonotone(text, quote, p, q - 1); }
  }

  /** The `k`-th entry of the list of occurrences has ordinal `k`. */
  lemma {:induction false} ListedOrdinal(text: string, quote: string, occ: seq<nat>, k: nat)
    requires AreOccurrences(text, quote, occ) && k < |occ|
    ensures OrdinalOf(text, quote, occ[k]) == k
    ensures OrdinalOf(text, quote, |text| + 1) == |occ|
  {
    OrdinalCountsList(text, quote, occ, occ[k], k);
    forall x | 0 <= x < |occ| ensures occ[x] <= |text| { assert occ[x] in occ; }
    OrdinalCountsList(text, quote, occ, |text| + 1, |occ|);
  }

  lemma {:induction false} OrdinalCountsList(text: string, quote: string, occ: seq<nat>, p: nat, n: nat)
    requires AreOccurrences(text, quote, occ) && n <= |occ|
    requires forall x :: 0 <= x < n ==> occ[x] < p
    requires forall x :: n <= x < |occ| ==> p <= occ[x]
    ensures OrdinalOf(text, quote, p) == n
  {
    hide Occurs;
    if p == 0 {
    } else if Occurs(text, quote, p - 1) {
      var x :| 0 <= x < |occ| && occ[x] == p - 1;
      assert x < n && occ[n - 1] < p;
      assert occ[x] <= occ[n - 1];
      OrdinalCountsList(text, quote, occ, p - 1, n - 1);
    } else {
      assert forall x :: 0 <= x < |occ| ==> occ[x] in occ;
      OrdinalCountsList(text, quote, occ, p - 1, n);
    }
  }

  // ----- scoring -----

  /** The text before `p` that a prefix of length `n` is compared with. */
  function Before(text: string, n: nat, p: nat): string
    requires p <= |text|
  {
    text[if p < n then 0 else p - n..p]
  }

  /** The text from `e` on that a suffix of length `n` is compared with. */
  function After(text: string, n: nat, e: nat): string
    requires e <= |text|
  {
    text[e..if |text| < e + n then |text| else e + n]
  }

  lemma {:induction false} SlicesAre(text: string, n: nat, p: nat)
    requires p <= |text|
    ensures Slice(text, Max(0, p - n), p) == Before(text, n, p)
    ensures Slice(text, p, p + n) == After(text, n, p)
  {
  }

  /** How much of the captured prefix ends at `p`. */
  function LeftScore(text: string, prefix: string, p: nat): nat
    requires p <= |text|
  {
    SuffixFrom(Before(text, |prefix|, p), prefix, 0)
  }

  /** How much of the captured suffix starts at `e`. */
  function RightScore(text: string, suffix: string, e: nat): nat
    requires e <= |text|
  {
    PrefixFrom(After(text, |suffix|, e), suffix, 0)
  }

  /** How much of the captured context stands around the quote at `p`. */
  function Score(text: string, quote: string, prefix: string, suffix: string, p: nat): nat
    requires p + |quote| <= |text|
  {
    LeftScore(text, prefix, p) + RightScore(text, suffix, p + |quote|)
  }

  /** The whole captured context stands around the quote at `p`. */
  predicate InContext(text: string, quote: string, prefix: string, suffix: string, p: nat) {
    |prefix| <= p && Occurs(text, prefix, p - |prefix|) && Occurs(text, suffix, p + |quote|)
  }

  lemma {:induction false} InContextIsOccurrence(text: string, quote: string, prefix: string, suffix: string, p: nat)
    requires Occurs(text, quote, p)
    ensures InContext(text, quote, prefix, suffix, p) <==>
            |prefix| <= p && Occurs(text, prefix + quote + suffix, p - |prefix|)
  {
    if |prefix| <= p {
      OccursParts(text, prefix, quote, suffix, p - |prefix|);
    }
  }

  /** The last `n` characters of the captured prefix end at `p`. */
  ghost predicate EndsThere(text: string, prefix: string, p: nat, n: nat) {
    n <= |prefix| && n <= p && Occurs(text, prefix[|prefix| - n..], p - n)
  }

  /** The first `n` characters of the captured suffix start at `e`. */
  ghost predicate StartsThere(text: string, suffix: string, e: nat, n: nat) {
    n <= |suffix| && Occurs(text, suffix[..n], e)
  }

  /** The score left of the quote is `n` or more exactly when the last `n` characters of the prefix end there. */
  lemma {:induction false} LeftScoreAtLeast(text: string, prefix: string, p: nat, n: nat)
    requires p <= |text|
    ensures LeftScore(text, prefix, p) >= n <==> EndsThere(text, prefix, p, n)
  {
    var before := Before(text, |prefix|, p);
    assert before[|before|..] == prefix[|prefix|..];
    SuffixAtLeast(before, prefix, 0, n);
    if n <= p && n <= |prefix| { SliceOfSlice(text, p - |before|, p - n, p, p); }
  }

  /** The score right of the quote is `n` or more exactly when the first `n` characters of the suffix start there. */
  lemma {:induction false} RightScoreAtLeast(text: string, suffix: string, e: nat, n: nat)
    requires e <= |text|
    ensures RightScore(text, suffix, e) >= n <==> StartsThere(text, suffix, e, n)
  {
    var after := After(text, |suffix|, e);
    PrefixAtLeast(after, suffix, 0, n);
    if e + n <= |text| && n <= |suffix| { SliceOfSlice(text, e, e, e + n, e + |after|); }
  }

  ghost predicate LongestBefore(text: string, prefix: string, p: nat, l: nat) {
    EndsThere(text, prefix, p, l) && forall n :: n > l ==> !EndsThere(text, prefix, p, n)
  }

  ghost predicate LongestAfter(text: string, suffix: string, e: nat, r: nat) {
    StartsThere(text, suffix, e, r) && forall n :: n > r ==> !StartsThere(text, suffix, e, n)
  }

  /** The score is the length of the longest end of the captured prefix that stands before the quote and that of the
      longest start of the captured suffix that stands after it. */
  lemma {:induction false} ScoreIs(text: string, quote: string, prefix: string, suffix: string, p: nat)
    returns (l: nat, r: nat)
    requires p + |quote| <= |text|
    ensures LongestBefore(text, prefix, p, l) && LongestAfter(text, suffix, p + |quote|, r)
    ensures Score(text, quote, prefix, suffix, p) == l + r
  {
    hide LeftScore, RightScore, EndsThere, StartsThere;
    var e := p + |quote|;
    l, r := LeftScore(text, prefix, p), RightScore(text, suffix, e);
    forall n: nat ensures l >= n <==> EndsThere(text, prefix, p, n) { LeftScoreAtLeast(text, prefix, p, n); }
    forall n: nat ensures r >= n <==> StartsThere(text, suffix, e, n) { RightScoreAtLeast(text, suffix, e, n); }
  }

  /** An occurrence scores full marks exactly when it stands in the whole captured context. */
  lemma {:induction false} FullScoreIffInContext(text: string, quote: string, prefix: string, suffix: string, p: nat)
    requires Occurs(text, quote, p)
    ensures Score(text, quote, prefix, suffix, p) <= |prefix| + |suffix|
    ensures Score(text, quote, prefix, suffix, p) == |prefix| + |suffix| <==> InContext(text, quote, prefix, suffix, p)
  {
    LeftScoreAtLeast(text, prefix, p, |prefix|);
    LeftScoreAtLeast(text, prefix, p, |prefix| + 1);
    RightScoreAtLeast(text, suffix, p + |quote|, |suffix|);
    RightScoreAtLeast(text, suffix, p + |quote|, |suffix| + 1);
    assert prefix[|prefix| - |prefix|..] == prefix && suffix[..|suffix|] == suffix;
    BothFull(LeftScore(text, prefix, p), |prefix|, |prefix| <= p && Occurs(text, prefix, p - |prefix|),
             RightScore(text, suffix, p + |quote|), |suffix|, Occurs(text, suffix, p + |quote|));
  }

  lemma {:induction false} BothFull(l: nat, x: nat, lFull: bool, r: nat, y: nat, rFull: bool)
    requires l <= x && (l == x <==> lFull) && r <= y && (r == y <==> rFull)
    ensures l + r <= x + y && (l + r == x + y <==> lFull && rFull)
  {
  }

  // ----- re-anchoring -----

  /** The occurrence at `p` scores higher than every other one. */
  ghost predicate Dominates(text: string, quote: string, prefix: string, suffix: string, p: nat) {
    && Occurs(text, quote, p)
    && forall q: nat :: Occurs(text, quote, q) && q != p ==>
         Score(text, quote, prefix, suffix, q) < Score(text, quote, prefix, suffix, p)
  }

  /** The first of the occurrences that score highest. */
  ghost predicate FirstBest(text: string, quote: string, prefix: string, suffix: string, p: nat) {
    && Occurs(text, quote, p)
    && forall q: nat :: Occurs(text, quote, q) ==>
         && Score(text, quote, prefix, suffix, q) <= Score(text, quote, prefix, suffix, p)
         && (q < p ==> Score(text, quote, prefix, suffix, q) < Score(text, quote, prefix, suffix, p))
  }

  /** What re-anchoring answers: -1 without any occurrence, else the one that scores highest; in a tie
      the one with the recorded ordinal, or the first of the best when there is no such ordinal. */
  ghost predicate Chosen(text: string, quote: string, prefix: string, suffix: string, ordinal: Option<int>, r: int) {
    if quote == "" || forall p: nat :: !Occurs(text, quote, p) then r == -1
    else
      && r >= 0 && Occurs(text, quote, r)
      && (forall p: nat :: Dominates(text, quote, prefix, suffix, p) ==> r == p)
      && ((forall p: nat :: !Dominates(text, quote, prefix, suffix, p)) ==>
            TieBroken(text, quote, prefix, suffix, ordinal, r))
  }

  /** In a tie the recorded ordinal decides if there are that many occurrences, else the first of the best. */
  ghost predicate TieBroken(text: string, quote: string, prefix: string, suffix: string, ordinal: Option<int>, r: nat) {
    if ordinal.Some? && 0 <= ordinal.value < OrdinalOf(text, quote, |text| + 1)
    then OrdinalOf(text, quote, r) == ordinal.value
    else FirstBest(text, quote, prefix, suffix, r)
  }

  method ScoreOf(text: string, quote: string, prefix: string, suffix: string, p: nat) returns (score: nat)
    requires p + |quote| <= |text|
    ensures score == Score(text, quote, prefix, suffix, p)
  {
    hide StartAlike, EndAlike, Before, After, Slice, PrefixFrom, SuffixFrom;
    SlicesAre(text, |prefix|, p);
    SlicesAre(text, |suffix|, p + |quote|);
    var left := CommonSuffixLen(Slice(text, Max(0, p - |prefix|), p), prefix);
    var e := p + |quote|;
    var right := CommonPrefixLen(Slice(text, e, e + |suffix|), suffix);
    score := left + right;
  }

  /** Scores of all occurrences, and the highest of them. */
  method ScoreAll(text: string, quote: string, prefix: string, suffix: string, occ: seq<nat>)
    returns (scores: seq<nat>, maxScore: int)
    requires forall k :: 0 <= k < |occ| ==> occ[k] + |quote| <= |text|
    ensures |scores| == |occ|
    ensures forall k :: 0 <= k < |occ| ==> scores[k] == Score(text, quote, prefix, suffix, occ[k])
    ensures forall k :: 0 <= k < |occ| ==> scores[k] <= maxScore
    ensures occ != [] ==> exists k :: 0 <= k < |occ| && scores[k] == maxScore
  {
    hide Score;
    maxScore, scores := -1, [];
    for i := 0 to |occ|
      invariant |scores| == i
      invariant forall k :: 0 <= k < i ==> scores[k] == Score(text, quote, prefix, suffix, occ[k])
      invariant forall k :: 0 <= k < i ==> scores[k] <= maxScore
      invariant i > 0 ==> exists k :: 0 <= k < i && scores[k] == maxScore
      invariant i == 0 ==> maxScore == -1
    {
      var score := ScoreOf(text, quote, prefix, suffix, occ[i]);
      ghost var before := scores;
      scores := scores + [score];
      assert scores[i] == score && forall k :: 0 <= k < i ==> scores[k] == before[k];
      if score > maxScore {
        maxScore := score;
      }
    }
  }

  /** Positions in the list that hold the highest score, in order. */
  method Top(scores: seq<nat>, maxScore: int) returns (top: seq<nat>)
    ensures forall k: nat :: k in top <==> k < |scores| && scores[k] == maxScore
    ensures forall x, y :: 0 <= x < y < |top| ==> top[x] < top[y]
  {
    top := [];
    for i := 0 to |scores|
      invariant forall k: nat :: k in top <==> k < i && scores[k] == maxScore
      invariant forall x, y :: 0 <= x < y < |top| ==> top[x] < top[y]
    {
      if scores[i] == maxScore {
        assert forall x :: 0 <= x < |top| ==> top[x] in top;
        top := top + [i];
      }
    }
  }

  method ChooseOccurrence(text: string, quote: string, prefix: string, suffix: string, ordinal: Option<int>)
    returns (r: int)
    ensures Chosen(text, quote, prefix, suffix, ordinal, r)
  {
    if quote == "" { return -1; }
    var occ := Occurrences(text, quote);
    if |occ| == 0 {
      assert forall p: nat :: Occurs(text, quote, p) ==> p in occ;
      return -1;
    }
    OccurrencesFit(text, quote, occ);
    if |occ| == 1 {
      OnlyOccurrence(text, quote, prefix, suffix, ordinal, occ);
      return occ[0];
    }
    var scores, maxScore := ScoreAll(text, quote, prefix, suffix, occ);
    var top := Top(scores, maxScore);
    if |top| == 1 {
      SingleTop(text, quote, prefix, suffix, ordinal, occ, scores, maxScore, top);
      return occ[top[0]];
    }
    ManyTop(text, quote, prefix, suffix, occ, scores, maxScore, top);
    r := BreakTie(text, quote, prefix, suffix, ordinal, occ, top);
  }

  /** The fall-back to the recorded ordinal. */
  method BreakTie(text: string, quote: string, prefix: string, suffix: string, ordinal: Option<int>,
                  occ: seq<nat>, top: seq<nat>)
    returns (r: int)
    requires quote != "" && AreOccurrences(text, quote, occ)
    requires |top| > 1 && forall x :: 0 <= x < |top| ==> top[x] < |occ|
    requires forall p: nat :: !Dominates(text, quote, prefix, suffix, p)
    requires FirstBest(text, quote, prefix, suffix, occ[top[0]])
    ensures Chosen(text, quote, prefix, suffix, ordinal, r)
  {
    ListedOrdinal(text, quote, occ, top[0]);
    if ordinal.Some? && ordinal.value >= 0 && ordinal.value < |occ| {
      TieByOrdinal(text, quote, prefix, suffix, ordinal, occ);
      for t := 0 to |top| {
        if top[t] == ordinal.value { return occ[top[t]]; }
      }
      return occ[ordinal.value];
    }
    return occ[top[0]];
  }

  lemma {:induction false} TieByOrdinal(text: string, quote: string, prefix: string, suffix: string,
                                        ordinal: Option<int>, occ: seq<nat>)
    requires quote != "" && AreOccurrences(text, quote, occ)
    requires ordinal.Some? && 0 <= ordinal.value < |occ|
    requires forall p: nat :: !Dominates(text, quote, prefix, suffix, p)
    ensures Chosen(text, quote, prefix, suffix, ordinal, occ[ordinal.value])
  {
    ListedOrdinal(text, quote, occ, ordinal.value);
    assert occ[ordinal.value] in occ;
  }

  lemma {:induction false} OccurrencesFit(text: string, quote: string, occ: seq<nat>)
    requires AreOccurrences(text, quote, occ)
    ensures forall k :: 0 <= k < |occ| ==> occ[k] + |quote| <= |text|
  {
    forall k | 0 <= k < |occ| ensures occ[k] + |quote| <= |text| { assert occ[k] in occ; }
  }

  /** An occurrence that dominates is the one chosen. */
  lemma {:induction false} DominatingIsChosen(text: string, quote: string, prefix: string, suffix: string,
                                              ordinal: Option<int>, p: nat)
    requires quote != "" && Dominates(text, quote, prefix, suffix, p)
    ensures Chosen(text, quote, prefix, suffix, ordinal, p)
  {
    forall q: nat | Dominates(text, quote, prefix, suffix, q) ensures q == p {
    }
  }

  lemma {:induction false} OnlyOccurrence(text: string, quote: string, prefix: string, suffix: string,
                                          ordinal: Option<int>, occ: seq<nat>)
    requires quote != "" && AreOccurrences(text, quote, occ) && |occ| == 1
    ensures Chosen(text, quote, prefix, suffix, ordinal, occ[0])
  {
    assert occ[0] in occ;
    assert forall q: nat :: Occurs(text, quote, q) ==> q in occ;
    assert Dominates(text, quote, prefix, suffix, occ[0]);
    DominatingIsChosen(text, quote, prefix, suffix, ordinal, occ[0]);
  }

  ghost predicate Scored(text: string, quote: string, prefix: string, suffix: string, occ: seq<nat>,
                         scores: seq<nat>, maxScore: int, top: seq<nat>) {
    && AreOccurrences(text, quote, occ) && |scores| == |occ| > 0
    && (forall k :: 0 <= k < |occ| ==> occ[k] + |quote| <= |text|)
    && (forall k :: 0 <= k < |occ| ==> scores[k] == Score(text, quote, prefix, suffix, occ[k]))
    && (forall k :: 0 <= k < |occ| ==> scores[k] <= maxScore)
    && (exists k :: 0 <= k < |occ| && scores[k] == maxScore)
    && (forall k: nat :: k in top <==> k < |scores| && scores[k] == maxScore)
    && forall x, y :: 0 <= x < y < |top| ==> top[x] < top[y]
  }

  lemma {:induction false} SingleTop(text: string, quote: string, prefix: string, suffix: string,
                                     ordinal: Option<int>, occ: seq<nat>,
                                     scores: seq<nat>, maxScore: int, top: seq<nat>)
    requires quote != "" && Scored(text, quote, prefix, suffix, occ, scores, maxScore, top) && |top| == 1
    ensures top[0] < |occ| && Chosen(text, quote, prefix, suffix, ordinal, occ[top[0]])
  {
    var k := top[0];
    assert k in top && occ[k] in occ;
    forall q: nat | Occurs(text, quote, q) && q != occ[k]
      ensures Score(text, quote, prefix, suffix, q) < Score(text, quote, prefix, suffix, occ[k])
    {
      assert q in occ;
      var m :| 0 <= m < |occ| && occ[m] == q;
      assert m !in top;
    }
    DominatingIsChosen(text, quote, prefix, suffix, ordinal, occ[k]);
  }

  lemma {:induction false} ManyTop(text: string, quote: string, prefix: string, suffix: string, occ: seq<nat>,
                                   scores: seq<nat>, maxScore: int, top: seq<nat>)
    requires Scored(text, quote, prefix, suffix, occ, scores, maxScore, top) && |top| != 1
    ensures |top| > 1 && forall x :: 0 <= x < |top| ==> top[x] < |occ|
    ensures forall p: nat :: !Dominates(text, quote, prefix, suffix, p)
    ensures FirstBest(text, quote, prefix, suffix, occ[top[0]])
  {
    hide Score, Occurs;
    var k0 :| 0 <= k0 < |occ| && scores[k0] == maxScore;
    assert k0 in top;
    forall x | 0 <= x < |top| ensures top[x] < |occ| { assert top[x] in top; }
    var a, b := top[0], top[1];
    assert a in top && b in top && occ[a] in occ && occ[b] in occ && a < b;
    TwoBestNoneDominates(text, quote, prefix, suffix, occ, scores, maxScore, a, b);
    forall q: nat | Occurs(text, quote, q)
      ensures Score(text, quote, prefix, suffix, q) <= Score(text, quote, prefix, suffix, occ[a])
      ensures q < occ[a] ==> Score(text, quote, prefix, suffix, q) < Score(text, quote, prefix, suffix, occ[a])
    {
      assert q in occ;
      var m :| 0 <= m < |occ| && occ[m] == q;
      if m in top { assert a <= m; }
    }
  }

  lemma {:induction false} TwoBestNoneDominates(text: string, quote: string, prefix: string, suffix: string,
                                                occ: seq<nat>, scores: seq<nat>, maxScore: int, a: nat, b: nat)
    requires AreOccurrences(text, quote, occ) && |scores| == |occ| && a < b < |occ|
    requires forall k :: 0 <= k < |occ| ==> occ[k] + |quote| <= |text|
    requires forall k :: 0 <= k < |occ| ==> scores[k] == Score(text, quote, prefix, suffix, occ[k]) <= maxScore
    requires scores[a] == scores[b] == maxScore
    ensures forall p: nat :: !Dominates(text, quote, prefix, suffix, p)
  {
    assert occ[a] in occ && occ[b] in occ;
    forall p: nat ensures !Dominates(text, quote, prefix, suffix, p) {
      var other := if p == occ[a] then occ[b] else occ[a];
      assert Occurs(text, quote, other) && other != p;
      if Occurs(text, quote, p) {
        assert p in occ;
        var m :| 0 <= m < |occ| && occ[m] == p;
      }
    }
  }

  // ----- capture -----

  /** Of the occurrences of the quote only the one at `start` stands in the given context. */
  ghost predicate OnlyInContext(text: string, quote: string, pre: string, suf: string, start: nat) {
    forall p: nat :: Occurs(text, quote, p) && InContext(text, quote, pre, suf, p) ==> p == start
  }

  /** Within `w` characters of context on both sides, the selection at `start` is told apart from every
      other occurrence of its quote. */
  ghost predicate Isolates(text: string, start: nat, quoteLen: nat, w: nat)
    requires start + quoteLen <= |text|
  {
    var quote, end := text[start..start + quoteLen], start + quoteLen;
    quoteLen == 0 || OnlyInContext(text, quote, Before(text, w, start), After(text, w, end), start)
  }

  /** The first width tried, from `need` on in steps, that isolates the selection or reaches `max`. */
  ghost function Needed(text: string, start: nat, quoteLen: nat, max: int, step: nat, need: nat): (r: nat)
    requires start + quoteLen <= |text| && step > 0
    ensures r >= need
    ensures Isolates(text, start, quoteLen, r) || r >= max
    decreases max - need
  {
    if need >= max || Isolates(text, start, quoteLen, need) then need
    else Needed(text, start, quoteLen, max, step, need + step)
  }

  /** The width of the context that is recorded. */
  ghost function SpanOf(text: string, start: nat, quoteLen: nat, buffer: int, max: int, step: nat): int
    requires start + quoteLen <= |text| && step > 0
  {
    Min(max, Needed(text, start, quoteLen, max, step, 0) + buffer)
  }

  method WindowIsolates(text: string, start: nat, quoteLen: nat, need: nat, occ: seq<nat>) returns (isolated: bool)
    requires start + quoteLen <= |text| && quoteLen > 0
    requires AreOccurrences(text, text[start..start + quoteLen], occ)
    ensures isolated <==> Isolates(text, start, quoteLen, need)
  {
    hide InContext, OnlyInContext, AreOccurrences, Before, After;
    var pre, suf := Window(text, start, quoteLen, need);
    var matches := CountMatches(text, text[start..start + quoteLen], occ, pre, suf, start);
    isolated := matches <= 1;
  }

  method Window(text: string, start: nat, quoteLen: nat, need: nat) returns (pre: string, suf: string)
    requires start + quoteLen <= |text|
    ensures pre == Before(text, need, start) && suf == After(text, need, start + quoteLen)
    ensures InContext(text, text[start..start + quoteLen], pre, suf, start)
  {
    var end := start + quoteLen;
    SlicesAre(text, need, start);
    SlicesAre(text, need, end);
    WindowStandsAround(text, start, quoteLen, need);
    pre := Slice(text, Max(0, start - need), start);
    suf := Slice(text, end, end + need);
  }

  /** Widen the context on both sides, step by step, until no other occurrence has it or the limit is reached. */
  method GrowWindow(text: string, start: nat, quoteLen: nat, max: int, step: nat, occ: seq<nat>)
    returns (need: nat)
    requires start + quoteLen <= |text| && step > 0
    requires quoteLen == 0 ==> occ == []
    requires quoteLen > 0 ==> AreOccurrences(text, text[start..start + quoteLen], occ)
    ensures need == Needed(text, start, quoteLen, max, step, 0)
  {
    hide Isolates, AreOccurrences;
    need := 0;
    if |occ| <= 1 { FewIsolate(text, start, quoteLen, occ); return; }
    while need < max
      invariant Needed(text, start, quoteLen, max, step, 0) == Needed(text, start, quoteLen, max, step, need)
      decreases max - need
    {
      var isolated := WindowIsolates(text, start, quoteLen, need, occ);
      if isolated { break; }
      need := need + step;
    }
  }

  method CaptureSpan(text: string, start: nat, quoteLen: nat, buffer: int, max: int, step: nat, occ: seq<nat>)
    returns (span: int)
    requires start + quoteLen <= |text| && step > 0
    requires quoteLen == 0 ==> occ == []
    requires quoteLen > 0 ==> AreOccurrences(text, text[start..start + quoteLen], occ)
    ensures span == SpanOf(text, start, quoteLen, buffer, max, step)
  {
    var need := GrowWindow(text, start, quoteLen, max, step, occ);
    span := Min(max, need + buffer);
  }

  method UniqueContext(text: string, start: nat, quoteLen: nat, buffer: int, max: int, step: nat)
    returns (prefix: string, suffix: string, ordinal: nat)
    requires start + quoteLen <= |text| && step > 0
    ensures prefix == Slice(text, Max(0, start - SpanOf(text, start, quoteLen, buffer, max, step)), start)
    ensures suffix == Slice(text, start + quoteLen, start + quoteLen + SpanOf(text, start, quoteLen, buffer, max, step))
    ensures quoteLen > 0 ==> ordinal == OrdinalOf(text, text[start..start + quoteLen], start)
  {
    var end := start + quoteLen;
    var quote := Slice(text, start, end);
    var occ := Occurrences(text, quote);
    ordinal := IndexOf(text, quote, occ, start);
    var span := CaptureSpan(text, start, quoteLen, buffer, max, step, occ);
    prefix := Slice(text, Max(0, start - span), start);
    suffix := Slice(text, end, end + span);
  }

  /** `occ.indexOf(start)`, with 0 for an absent start. */
  method IndexOf(text: string, quote: string, occ: seq<nat>, start: nat) returns (k: nat)
    requires quote == "" ==> occ == []
    requires quote != "" ==> AreOccurrences(text, quote, occ)
    requires Occurs(text, quote, start)
    ensures quote != "" ==> k == OrdinalOf(text, quote, start)
  {
    k := 0;
    while k < |occ| && occ[k] != start
      invariant 0 <= k <= |occ| && start !in occ[..k]
    {
      assert occ[..k + 1] == occ[..k] + [occ[k]];
      k := k + 1;
    }
    if k == |occ| {
      assert occ[..k] == occ;
      k := 0;
    } else {
      if quote != "" { ListedOrdinal(text, quote, occ, k); }
    }
  }

  lemma {:induction false} ContextBefore(text: string, pre: string, p: nat)
    requires p <= |text|
    ensures Before(text, |pre|, p) == pre <==> |pre| <= p && Occurs(text, pre, p - |pre|)
  {
  }

  lemma {:induction false} ContextAfter(text: string, suf: string, e: nat)
    requires e <= |text|
    ensures After(text, |suf|, e) == suf <==> Occurs(text, suf, e)
  {
  }

  /** Whether the characters around the occurrence at `p` are those of the window. */
  method SameContext(text: string, quote: string, pre: string, suf: string, p: nat) returns (same: bool)
    requires p + |quote| <= |text|
    ensures same <==> InContext(text, quote, pre, suf, p)
  {
    ContextBefore(text, pre, p);
    ContextAfter(text, suf, p + |quote|);
    SlicesAre(text, |pre|, p);
    SlicesAre(text, |suf|, p + |quote|);
    var cpre := Slice(text, Max(0, p - |pre|), p);
    var csuf := Slice(text, p + |quote|, p + |quote| + |suf|);
    same := cpre == pre && csuf == suf;
  }

  /** How many occurrences stand in the window's context, counted no further than two. */
  method CountMatches(text: string, quote: string, occ: seq<nat>, pre: string, suf: string, start: nat)
    returns (matches: nat)
    requires AreOccurrences(text, quote, occ)
    requires Occurs(text, quote, start) && InContext(text, quote, pre, suf, start)
    ensures matches <= 1 <==> OnlyInContext(text, quote, pre, suf, start)
  {
    matches := 0;
    ghost var m: nat := 0;
    OccurrencesFit(text, quote, occ);
    for k := 0 to |occ|
      invariant matches <= 1
      invariant matches == 0 ==> forall j :: 0 <= j < k ==> !InContext(text, quote, pre, suf, occ[j])
      invariant matches == 1 ==> m < k && InContext(text, quote, pre, suf, occ[m])
      invariant matches == 1 ==> forall j :: 0 <= j < k && InContext(text, quote, pre, suf, occ[j]) ==> j == m
    {
      var same := SameContext(text, quote, pre, suf, occ[k]);
      if same {
        if matches == 1 { TwoMatches(text, quote, occ, pre, suf, start, m, k); return 2; }
        m, matches := k, matches + 1;
      }
    }
    OneMatch(text, quote, occ, pre, suf, start, matches, m);
  }

  lemma {:induction false} TwoMatches(text: string, quote: string, occ: seq<nat>, pre: string, suf: string,
                                      start: nat, m: nat, k: nat)
    requires AreOccurrences(text, quote, occ) && m < k < |occ|
    requires InContext(text, quote, pre, suf, occ[m]) && InContext(text, quote, pre, suf, occ[k])
    ensures !OnlyInContext(text, quote, pre, suf, start)
  {
    var p := if occ[m] == start then occ[k] else occ[m];
    assert p in occ && p != start;
  }

  lemma {:induction false} OneMatch(text: string, quote: string, occ: seq<nat>, pre: string, suf: string,
                                    start: nat, matches: nat, m: nat)
    requires AreOccurrences(text, quote, occ) && matches <= 1
    requires Occurs(text, quote, start) && InContext(text, quote, pre, suf, start)
    requires matches == 0 ==> forall j :: 0 <= j < |occ| ==> !InContext(text, quote, pre, suf, occ[j])
    requires matches == 1 ==>
      m < |occ| && forall j :: 0 <= j < |occ| && InContext(text, quote, pre, suf, occ[j]) ==> j == m
    ensures OnlyInContext(text, quote, pre, suf, start)
  {
    assert start in occ;
    var s :| 0 <= s < |occ| && occ[s] == start;
    forall p: nat | Occurs(text, quote, p) && InContext(text, quote, pre, suf, p) ensures p == start {
      assert p in occ;
      var j :| 0 <= j < |occ| && occ[j] == p;
    }
  }

  /** With at most one occurrence no context is needed. */
  lemma {:induction false} FewIsolate(text: string, start: nat, quoteLen: nat, occ: seq<nat>)
    requires start + quoteLen <= |text| && |occ| <= 1
    requires quoteLen > 0 ==> AreOccurrences(text, text[start..start + quoteLen], occ)
    ensures Isolates(text, start, quoteLen, 0)
  {
    if quoteLen > 0 {
      var quote := text[start..start + quoteLen];
      forall p: nat | Occurs(text, quote, p) ensures p == start { assert p in occ && start in occ; }
    }
  }

  lemma {:induction false} BeforeEndsAt(text: string, n: nat, p: nat)
    requires p <= |text|
    ensures var t := Before(text, n, p); |t| <= p && Occurs(text, t, p - |t|)
  {
  }

  lemma {:induction false} AfterStartsAt(text: string, n: nat, e: nat)
    requires e <= |text|
    ensures Occurs(text, After(text, n, e), e)
  {
  }

  /** Whatever the width, the window cut around the selection stands around the selection. */
  lemma {:induction false} WindowStandsAround(text: string, start: nat, quoteLen: nat, w: nat)
    requires start + quoteLen <= |text|
    ensures InContext(text, text[start..start + quoteLen], Before(text, w, start),
                      After(text, w, start + quoteLen), start)
  {
    BeforeEndsAt(text, w, start);
    AfterStartsAt(text, w, start + quoteLen);
  }

  lemma {:induction false} NestedWindows(text: string, w: nat, v: nat, p: nat)
    requires w <= v && p <= |text|
    ensures var b, c := Before(text, w, p), Before(text, v, p); |b| <= |c| && b == c[|c| - |b|..]
    ensures var b, c := After(text, w, p), After(text, v, p); |b| <= |c| && b == c[..|b|]
  {
    NestedBefore(text, w, v, p);
    NestedAfter(text, w, v, p);
  }

  lemma {:induction false} NestedBefore(text: string, w: nat, v: nat, p: nat)
    requires w <= v && p <= |text|
    ensures var b, c := Before(text, w, p), Before(text, v, p); |b| <= |c| && b == c[|c| - |b|..]
  {
    SliceOfSlice(text, if p < v then 0 else p - v, if p < w then 0 else p - w, p, p);
  }

  lemma {:induction false} NestedAfter(text: string, w: nat, v: nat, p: nat)
    requires w <= v && p <= |text|
    ensures var b, c := After(text, w, p), After(text, v, p); |b| <= |c| && b == c[..|b|]
  {
    SliceOfSlice(text, p, p, if |text| < p + w then |text| else p + w, if |text| < p + v then |text| else p + v);
  }

  lemma {:induction false} SliceOfSlice(text: string, a: nat, b: nat, c: nat, d: nat)
    requires a <= b <= c <= d <= |text|
    ensures text[a..d][b - a..c - a] == text[b..c]
  {
    var x, y := text[a..d][b - a..c - a], text[b..c];
    assert forall k :: 0 <= k < |y| ==> x[k] == y[k];
  }

  /** A wider window isolates whatever a narrower one isolates. */
  lemma {:induction false} WiderIsolates(text: string, start: nat, quoteLen: nat, w: nat, v: nat)
    requires start + quoteLen <= |text| && w <= v
    requires Isolates(text, start, quoteLen, w)
    ensures Isolates(text, start, quoteLen, v)
  {
    hide Before, After, OnlyInContext;
    var quote, end := text[start..start + quoteLen], start + quoteLen;
    NestedWindows(text, w, v, start);
    NestedWindows(text, w, v, end);
    if quoteLen > 0 {
      NarrowerOnly(text, quote, Before(text, v, start), After(text, v, end),
                   Before(text, w, start), After(text, w, end), start);
    }
  }

  lemma {:induction false} NarrowerOnly(text: string, quote: string, pre: string, suf: string,
                                        pre': string, suf': string, start: nat)
    requires |pre'| <= |pre| && pre' == pre[|pre| - |pre'|..]
    requires |suf'| <= |suf| && suf' == suf[..|suf'|]
    requires OnlyInContext(text, quote, pre', suf', start)
    ensures OnlyInContext(text, quote, pre, suf, start)
  {
    forall p: nat | Occurs(text, quote, p) && InContext(text, quote, pre, suf, p) ensures p == start {
      NarrowerContext(text, quote, pre, suf, pre', suf', p);
    }
  }

  lemma {:induction false} NarrowerContext(text: string, quote: string, pre: string, suf: string,
                                           pre': string, suf': string, p: nat)
    requires InContext(text, quote, pre, suf, p)
    requires |pre'| <= |pre| && pre' == pre[|pre| - |pre'|..]
    requires |suf'| <= |suf| && suf' == suf[..|suf'|]
    ensures InContext(text, quote, pre', suf', p)
  {
    OccursTrans(text, pre, pre', p - |pre|, |pre| - |pre'|);
    OccursTrans(text, suf, suf', p + |quote|, 0);
  }

  // ----- the laws of anchoring -----

  ghost predicate OccursOnce(text: string, w: string, x: nat) {
    Occurs(text, w, x) && forall y: nat :: Occurs(text, w, y) ==> y == x
  }

  /** A capture, whatever its options, records context that stands around the selection. */
  lemma {:induction false} CaptureStandsAround(text: string, start: nat, quoteLen: nat, span: int)
    requires start + quoteLen <= |text|
    ensures InContext(text, text[start..start + quoteLen], Slice(text, Max(0, start - span), start),
                      Slice(text, start + quoteLen, start + quoteLen + span), start)
  {
    SliceEndsAt(text, Max(0, start - span), start);
    SliceStartsAt(text, start + quoteLen, start + quoteLen + span);
  }

  lemma {:induction false} SliceEndsAt(text: string, i: nat, p: nat)
    requires p <= |text|
    ensures var t := Slice(text, i, p); |t| <= p && Occurs(text, t, p - |t|)
  {
    if Bound(text, i) < p { assert Slice(text, i, p) == text[i..p]; }
  }

  lemma {:induction false} SliceStartsAt(text: string, p: nat, j: int)
    requires p <= |text|
    ensures Occurs(text, Slice(text, p, j), p)
  {
    if p < Bound(text, j) { assert Slice(text, p, j) == text[p..Bound(text, j)]; }
  }

  /** What was captured occurs once in the text exactly when the widest allowed window does: growing in
      steps and stopping early never loses uniqueness. */
  lemma {:induction false} CaptureIsUniqueWheneverPossible(text: string, start: nat, quoteLen: nat,
                                                           buffer: nat, max: nat, step: nat)
    requires start + quoteLen <= |text| && step > 0 && quoteLen > 0
    ensures var quote, end := text[start..start + quoteLen], start + quoteLen;
      var span := SpanOf(text, start, quoteLen, buffer, max, step);
      && span >= 0
      && (OccursOnce(text, Before(text, span, start) + quote + After(text, span, end),
                     start - |Before(text, span, start)|)
          <==> OccursOnce(text, Before(text, max, start) + quote + After(text, max, end),
                          start - |Before(text, max, start)|))
  {
    hide Isolates, Before, After, OccursOnce;
    var span := SpanOf(text, start, quoteLen, buffer, max, step);
    var quote, end := text[start..start + quoteLen], start + quoteLen;
    IsolatesIffOccursOnce(text, start, quoteLen, span, quote, Before(text, span, start), After(text, span, end));
    IsolatesIffOccursOnce(text, start, quoteLen, max, quote, Before(text, max, start), After(text, max, end));
    var need := Needed(text, start, quoteLen, max, step, 0);
    if need < max {
      WiderIsolates(text, start, quoteLen, need, span);
      WiderIsolates(text, start, quoteLen, need, max);
    }
  }

  lemma {:induction false} IsolatesIffOccursOnce(text: string, start: nat, quoteLen: nat, w: nat,
                                                 quote: string, pre: string, suf: string)
    requires start + quoteLen <= |text| && quoteLen > 0 && quote == text[start..start + quoteLen]
    requires pre == Before(text, w, start) && suf == After(text, w, start + quoteLen)
    ensures Isolates(text, start, quoteLen, w) <==> OccursOnce(text, pre + quote + suf, start - |pre|)
  {
    hide OnlyInContext, InContext, OccursOnce, Before, After;
    WindowStandsAround(text, start, quoteLen, w);
    OnlyInContextIffOnce(text, quote, pre, suf, start);
  }

  lemma {:induction false} OnlyInContextIffOnce(text: string, quote: string, pre: string, suf: string, start: nat)
    requires Occurs(text, quote, start) && InContext(text, quote, pre, suf, start)
    ensures OnlyInContext(text, quote, pre, suf, start) <==> OccursOnce(text, pre + quote + suf, start - |pre|)
  {
    InContextIsOccurrence(text, quote, pre, suf, start);
    if OnlyInContext(text, quote, pre, suf, start) {
      forall y: nat | Occurs(text, pre + quote + suf, y) ensures y == start - |pre| {
        OccursParts(text, pre, quote, suf, y);
        assert InContext(text, quote, pre, suf, y + |pre|);
      }
    }
    if OccursOnce(text, pre + quote + suf, start - |pre|) {
      forall p: nat | Occurs(text, quote, p) && InContext(text, quote, pre, suf, p) ensures p == start {
        InContextIsOccurrence(text, quote, pre, suf, p);
      }
    }
  }

  /** Round trip: on the text it was captured from, re-anchoring answers the selection, whatever context was
      recorded around it. */
  lemma {:induction false} RoundTrip(text: string, quote: string, prefix: string, suffix: string, start: nat, r: int)
    requires quote != "" && Occurs(text, quote, start) && InContext(text, quote, prefix, suffix, start)
    requires Chosen(text, quote, prefix, suffix, Some(OrdinalOf(text, quote, start)), r)
    ensures r == start
  {
    if !Dominates(text, quote, prefix, suffix, start) {
      forall p: nat ensures !Dominates(text, quote, prefix, suffix, p) {
        FullScoreIsNotBeaten(text, quote, prefix, suffix, start, p);
      }
      TieGoesBack(text, quote, prefix, suffix, start, r);
    }
  }

  lemma {:induction false} TieGoesBack(text: string, quote: string, prefix: string, suffix: string, start: nat, r: nat)
    requires Occurs(text, quote, start) && Occurs(text, quote, r)
    requires TieBroken(text, quote, prefix, suffix, Some(OrdinalOf(text, quote, start)), r)
    ensures r == start
  {
    OrdinalMonotone(text, quote, start, |text| + 1);
    OrdinalIsUnique(text, quote, start, r);
  }

  lemma {:induction false} FullScoreIsNotBeaten(text: string, quote: string, prefix: string, suffix: string,
                                                start: nat, p: nat)
    requires Occurs(text, quote, start) && InContext(text, quote, prefix, suffix, start)
    ensures Dominates(text, quote, prefix, suffix, p) ==> p == start
  {
    FullScoreIffInContext(text, quote, prefix, suffix, start);
    if Occurs(text, quote, p) { FullScoreIffInContext(text, quote, prefix, suffix, p); }
  }

  lemma {:induction false} OrdinalIsUnique(text: string, quote: string, p: nat, q: nat)
    requires Occurs(text, quote, p) && Occurs(text, quote, q)
    requires OrdinalOf(text, quote, p) == OrdinalOf(text, quote, q)
    ensures p == q
  {
    if p < q { OrdinalMonotone(text, quote, p, q); }
    if q < p { OrdinalMonotone(text, quote, q, p); }
  }

  /** After any edit that leaves the captured passage in the text once, re-anchoring finds it, whatever the
      ordinal says. */
  lemma {:induction false} SurvivesEdits(text: string, quote: string, prefix: string, suffix: string,
                                         ordinal: Option<int>, x: nat, r: int)
    requires quote != "" && OccursOnce(text, prefix + quote + suffix, x)
    requires Chosen(text, quote, prefix, suffix, ordinal, r)
    ensures r == x + |prefix|
  {
    OnceDominates(text, quote, prefix, suffix, x);
  }

  lemma {:induction false} OnceDominates(text: string, quote: string, prefix: string, suffix: string, x: nat)
    requires OccursOnce(text, prefix + quote + suffix, x)
    ensures Dominates(text, quote, prefix, suffix, x + |prefix|)
  {
    hide Score, InContext;
    var p := x + |prefix|;
    OccursParts(text, prefix, quote, suffix, x);
    InContextIsOccurrence(text, quote, prefix, suffix, p);
    FullScoreIffInContext(text, quote, prefix, suffix, p);
    forall q: nat | Occurs(text, quote, q) && q != p
      ensures Score(text, quote, prefix, suffix, q) < Score(text, quote, prefix, suffix, p)
    {
      FullScoreIffInContext(text, quote, prefix, suffix, q);
      InContextIsOccurrence(text, quote, prefix, suffix, q);
    }
  }

  lemma {:induction false} OccursWhereCut(text: string, i: nat, j: nat)
    requires i <= j <= |text|
    ensures Occurs(text, text[i..j], i)
  {
  }

  /** Capturing and re-anchoring in one go: the original start comes back. */
  method CaptureThenChoose(text: string, start: nat, quoteLen: nat, buffer: int, max: int, step: nat) returns (r: int)
    requires start + quoteLen <= |text| && step > 0 && quoteLen > 0
    ensures r == start
  {
    hide SpanOf, Slice, Occurs, InContext, Chosen;
    var prefix, suffix, ordinal := UniqueContext(text, start, quoteLen, buffer, max, step);
    OccursWhereCut(text, start, start + quoteLen);
    var quote := text[start..start + quoteLen];
    r := ChooseOccurrence(text, quote, prefix, suffix, Some(ordinal));
    CaptureStandsAround(text, start, quoteLen, SpanOf(text, start, quoteLen, buffer, max, step));
    RoundTrip(text, quote, prefix, suffix, start, r);
  }
}
