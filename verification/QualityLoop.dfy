/** The bounded rework loop of `render_common/quality_loop.py`. */
module QualityLoop {
  import opened Text

  // The loop and its terminal policy run against any behaviour of the stages they drive: each iteration's outcome
  // is given by a function of the iteration.

  /** The checker's verdict, reduced to what the code reads; `gated` says that a missing item names a gated token. */
  datatype Verdict = Verdict(canStateWhat: bool, gated: bool, errors: nat, warnings: nat)

  /** What one iteration of the stages brings: no output, or a rendered page with its gate reads and verdict.
      `bump` is by how much `run_how` raises the attempt counter. */
  datatype Outcome =
    | NoOutput(bump: nat)
    | Rendered(bump: nat, html: string, valid: bool, whatOk: bool, verdict: Option<Verdict>, unscored: bool)

  datatype Record = Record(attemptNo: nat, html: string, whatOk: bool, valid: bool, verdict: Option<Verdict>,
                           unscored: bool, score: Option<real>)

  datatype Reason = StructuralDegradation | CheckerUnavailable | NonConvergent | StructuralViolation
  datatype ServedBy = Maker | BrokenAttempt

  /** The terminal hooks. */
  datatype Hook =
    | PublishClean(record: Record)
    | PublishFlagged(record: Record, servedBy: ServedBy, reason: Reason)
    | PublishFallback

  // ----- verdict arithmetic -----

  predicate DerivePass(v: Verdict) {
    v.canStateWhat && !v.gated && v.errors == 0
  }

  function CanonicalScore(v: Verdict): (score: real)
    ensures 0.0 <= score <= 1.0
    ensures score > 0.0 ==> score + 0.15 * v.errors as real + 0.05 * v.warnings as real == 1.0
    ensures score == 0.0 ==> 0.15 * v.errors as real + 0.05 * v.warnings as real >= 1.0
  {
    var raw := 1.0 - 0.15 * v.errors as real - 0.05 * v.warnings as real;
    if raw > 0.0 then raw else 0.0
  }

  /** More issues never raise the score. */
  lemma {:induction false} ScoreFallsWithIssues(v: Verdict, w: Verdict)
    requires v.errors <= w.errors && v.warnings <= w.warnings
    ensures CanonicalScore(w) <= CanonicalScore(v)
  {
    assert 0.15 * v.errors as real <= 0.15 * w.errors as real;
    assert 0.05 * v.warnings as real <= 0.05 * w.warnings as real;
  }

  // ----- the ranking -----

  function Scored(r: Record): real {
    if r.score.Some? then r.score.value else -1.0
  }

  /** `a` ranks below `b`: scored over unscored, then by score, then the later attempt. */
  predicate Below(a: Record, b: Record) {
    if a.unscored != b.unscored then a.unscored
    else if Scored(a) != Scored(b) then Scored(a) < Scored(b)
    else a.attemptNo < b.attemptNo
  }

  /** The best of a pool: nothing in it ranks above. */
  ghost predicate IsBest(pool: seq<Record>, best: Record) {
    best in pool && forall r :: r in pool ==> !Below(best, r)
  }

  /** The score as it is compared: a missing one counts as -1. */
  ghost predicate ScoreAtMost(a: Option<real>, b: Option<real>) {
    match (a, b)
    case (Some(x), Some(y)) => x <= y
    case (Some(x), None) => x <= -1.0
    case (None, Some(y)) => -1.0 <= y
    case (None, None) => true
  }

  /** The best of a pool is scored if any record is; among those that are scored like it, or unscored like it, it has
      the highest score; and of those with that score it is the latest. */
  lemma {:induction false} BestIs(pool: seq<Record>, best: Record)
    ensures IsBest(pool, best)
      <==> && best in pool
           && (best.unscored ==> forall r :: r in pool ==> r.unscored)
           && (forall r :: r in pool && r.unscored == best.unscored ==> ScoreAtMost(r.score, best.score))
           && forall r :: r in pool && r.unscored == best.unscored && ScoreAtMost(best.score, r.score)
                ==> r.attemptNo <= best.attemptNo
  {
    forall r | r in pool
      ensures Below(best, r)
        <==> || (best.unscored && !r.unscored)
             || (r.unscored == best.unscored
                 && (!ScoreAtMost(r.score, best.score)
                     || (ScoreAtMost(best.score, r.score) && best.attemptNo < r.attemptNo)))
    {
    }
  }

  lemma {:induction false} BelowTrans(a: Record, b: Record, c: Record)
    requires !Below(b, a) && !Below(c, b)
    ensures !Below(c, a)
  {
  }

  method BestAttempt(pool: seq<Record>) returns (best: Record)
    requires pool != []
    ensures IsBest(pool, best)
  {
    best := pool[0];
    for k := 1 to |pool|
      invariant best in pool
      invariant forall j :: 0 <= j < k ==> !Below(best, pool[j])
    {
      if Below(best, pool[k]) {
        forall j | 0 <= j < k ensures !Below(pool[k], pool[j]) { BelowTrans(pool[j], best, pool[k]); }
        best := pool[k];
      }
    }
    forall r | r in pool ensures !Below(best, r) {
      var j :| 0 <= j < |pool| && pool[j] == r;
    }
  }

  /** With attempt numbers all different, the best is one record only. */
  lemma {:induction false} BestIsUnique(pool: seq<Record>, a: Record, b: Record)
    requires IsBest(pool, a) && IsBest(pool, b)
    requires forall i, j :: 0 <= i < j < |pool| ==> pool[i].attemptNo != pool[j].attemptNo
    ensures a == b
  {
    var i :| 0 <= i < |pool| && pool[i] == a;
    var j :| 0 <= j < |pool| && pool[j] == b;
    assert a in pool && b in pool && !Below(a, b) && !Below(b, a);
  }

  // ----- the iterations -----

  /** Structural failure: nothing extracted, or a gate read that failed. */
  predicate Failing(x: Outcome) {
    x.NoOutput? || !x.valid || !x.whatOk
  }

  predicate Clean(x: Outcome) {
    x.Rendered? && x.whatOk && x.valid && x.verdict.Some? && DerivePass(x.verdict.value)
  }

  /** The attempt counter after `n` iterations. */
  function Attempts(o: nat -> Outcome, n: nat): nat {
    if n == 0 then 0 else Attempts(o, n - 1) + o(n - 1).bump
  }

  /** The length of the run of structural failures that ends at iteration `n`. */
  function Streak(o: nat -> Outcome, n: nat): nat {
    if n == 0 || !Failing(o(n - 1)) then 0 else Streak(o, n - 1) + 1
  }

  function RecordOf(x: Outcome, attemptNo: nat): Record
    requires x.Rendered?
  {
    Record(attemptNo, x.html, x.whatOk, x.valid, x.verdict, x.unscored,
           if x.unscored || x.verdict.None? then None else Some(CanonicalScore(x.verdict.value)))
  }

  /** The attempts recorded in `n` iterations. */
  function History(o: nat -> Outcome, n: nat): seq<Record> {
    if n == 0 then []
    else History(o, n - 1) + if o(n - 1).Rendered? then [RecordOf(o(n - 1), Attempts(o, n))] else []
  }

  /** The streak is the trailing run of failing iterations. */
  lemma {:induction false} StreakIsTrailingRun(o: nat -> Outcome, n: nat)
    ensures Streak(o, n) <= n
    ensures forall k :: n - Streak(o, n) <= k < n ==> Failing(o(k))
    ensures Streak(o, n) < n ==> !Failing(o(n - Streak(o, n) - 1))
  {
    hide Failing;
    if n > 0 && Failing(o(n - 1)) { StreakIsTrailingRun(o, n - 1); }
  }

  ghost predicate Raises(o: nat -> Outcome) {
    forall n: nat :: o(n).bump > 0
  }

  lemma {:induction false} AttemptsGrow(o: nat -> Outcome, m: nat, n: nat)
    requires Raises(o) && m <= n
    ensures Attempts(o, n) >= Attempts(o, m) + (n - m)
  {
    if m < n { AttemptsGrow(o, m, n - 1); }
  }

  /** Attempt numbers increase strictly. */
  lemma {:induction false} HistoryNumbered(o: nat -> Outcome, n: nat)
    requires Raises(o)
    ensures forall k :: 0 <= k < |History(o, n)| ==> History(o, n)[k].attemptNo <= Attempts(o, n)
    ensures forall j, k :: 0 <= j < k < |History(o, n)| ==> History(o, n)[j].attemptNo < History(o, n)[k].attemptNo
  {
    if n > 0 { HistoryNumbered(o, n - 1); }
  }

  /** A record is that of an iteration that extracted a page: its page, its gate reads, its verdict, and a score
      unless the checker gave none. */
  ghost predicate Records(o: nat -> Outcome, k: nat, r: Record) {
    match o(k)
    case NoOutput(_) => false
    case Rendered(_, html, valid, whatOk, verdict, unscored) =>
      && r.html == html && r.valid == valid && r.whatOk == whatOk && r.verdict == verdict && r.unscored == unscored
      && r.attemptNo == Attempts(o, k + 1)
      && r.score == if unscored || verdict == None then None else Some(CanonicalScore(verdict.value))
  }

  lemma {:induction false} HistoryIs(o: nat -> Outcome, n: nat, r: Record)
    ensures r in History(o, n) <==> exists k: nat :: k < n && Records(o, k, r)
  {
    hide CanonicalScore, Attempts;
    if n > 0 {
      HistoryIs(o, n - 1, r);
      assert Records(o, n - 1, r) <==> o(n - 1).Rendered? && r == RecordOf(o(n - 1), Attempts(o, n));
    }
  }

  lemma {:induction false} HistoryEmptyIff(o: nat -> Outcome, n: nat)
    ensures History(o, n) == [] <==> forall k: nat :: k < n ==> o(k).NoOutput?
  {
    if n > 0 { HistoryEmptyIff(o, n - 1); }
  }

  // ----- the loop -----

  /** The loop goes on after `k` iterations: none was clean, the last one did not complete a streak, and attempts are
      left. */
  predicate GoesOn(o: nat -> Outcome, maxAttempts: int, stop: int, k: nat) {
    && Attempts(o, k) < maxAttempts
    && (k > 0 ==> !Clean(o(k - 1)) && Streak(o, k) < stop)
  }

  /** The loop makes at least `n` iterations. */
  ghost predicate Reaches(o: nat -> Outcome, maxAttempts: int, stop: int, n: nat) {
    forall k: nat :: k < n ==> GoesOn(o, maxAttempts, stop, k)
  }

  /** The loop makes exactly `n` iterations. */
  ghost predicate EndsAfter(o: nat -> Outcome, maxAttempts: int, stop: int, n: nat) {
    !GoesOn(o, maxAttempts, stop, n) && Reaches(o, maxAttempts, stop, n)
  }

  lemma {:induction false} ReachesStart(o: nat -> Outcome, maxAttempts: int, stop: int)
    ensures Reaches(o, maxAttempts, stop, 0)
  {
  }

  /** What one more iteration adds. */
  lemma {:induction false} IterationAdds(o: nat -> Outcome, n: nat)
    ensures Attempts(o, 0) == 0 && Streak(o, 0) == 0 && History(o, 0) == []
    ensures Attempts(o, n + 1) == Attempts(o, n) + o(n).bump
    ensures Streak(o, n + 1) == if Failing(o(n)) then Streak(o, n) + 1 else 0
    ensures History(o, n + 1)
      == History(o, n) + if o(n).Rendered? then [RecordOf(o(n), Attempts(o, n + 1))] else []
  {
  }

  lemma {:induction false} OneMore(o: nat -> Outcome, maxAttempts: int, stop: int, n: nat)
    requires Reaches(o, maxAttempts, stop, n) && Attempts(o, n) < maxAttempts
    requires n > 0 ==> !Clean(o(n - 1)) && Streak(o, n) < stop
    ensures Reaches(o, maxAttempts, stop, n + 1)
  {
  }

  lemma {:induction false} EndsHere(o: nat -> Outcome, maxAttempts: int, stop: int, n: nat)
    requires Reaches(o, maxAttempts, stop, n)
    requires Attempts(o, n) >= maxAttempts || (n > 0 && (Clean(o(n - 1)) || Streak(o, n) >= stop))
    ensures EndsAfter(o, maxAttempts, stop, n)
  {
  }

  /** The terminal policy over a history: prefer valid, then score. */
  ghost predicate Decided(history: seq<Record>, stopped: bool, h: Hook) {
    if history == [] then h == PublishFallback
    else if exists r :: r in history && r.valid then
      && h.PublishFlagged? && h.servedBy == Maker && IsBest(Valid(history), h.record)
      && h.reason == (if stopped then StructuralDegradation
                      else if forall r :: r in Valid(history) ==> r.unscored then CheckerUnavailable
                      else NonConvergent)
    else
      && h.PublishFlagged? && h.servedBy == BrokenAttempt && h.reason == StructuralViolation
      && IsBest(history, h.record)
  }

  /** The structurally valid records, in order. */
  function Valid(history: seq<Record>): seq<Record> {
    if history == [] then []
    else Valid(history[..|history| - 1]) + if history[|history| - 1].valid then [history[|history| - 1]] else []
  }

  lemma {:induction false} ValidAre(history: seq<Record>)
    ensures forall r :: r in Valid(history) <==> r in history && r.valid
  {
    if history != [] {
      var n := |history| - 1;
      ValidAre(history[..n]);
      assert history == history[..n] + [history[n]];
    }
  }

  class LoopState {
    var howAttempts: nat
    var consecutiveStructural: nat
    var attemptsHistory: seq<Record>
    var hooks: seq<Hook>

    constructor ()
      ensures howAttempts == 0 && consecutiveStructural == 0 && attemptsHistory == [] && hooks == []
    {
      howAttempts, consecutiveStructural, attemptsHistory, hooks := 0, 0, [], [];
    }

    /** Runs the loop to its end: `n` iterations, then one terminal hook. */
    method RunQualityLoop(o: nat -> Outcome, maxAttempts: int, stop: int) returns (n: nat)
      requires Raises(o)
      requires howAttempts == 0 && consecutiveStructural == 0 && attemptsHistory == [] && hooks == []
      modifies this
      ensures EndsAfter(o, maxAttempts, stop, n)
      ensures howAttempts == Attempts(o, n) && attemptsHistory == History(o, n)
      ensures |hooks| == 1
      ensures if n > 0 && Clean(o(n - 1)) then hooks[0] == PublishClean(RecordOf(o(n - 1), Attempts(o, n)))
              else consecutiveStructural == Streak(o, n) && Decided(History(o, n), Streak(o, n) >= stop, hooks[0])
    {
      hide Decided, Reaches, EndsAfter, GoesOn, CanonicalScore, DerivePass, Attempts, Streak, History;
      n := 0;
      IterationAdds(o, 0);
      ReachesStart(o, maxAttempts, stop);
      while howAttempts < maxAttempts
        invariant howAttempts == Attempts(o, n) && attemptsHistory == History(o, n)
        invariant consecutiveStructural == Streak(o, n) && hooks == []
        invariant n > 0 ==> !Clean(o(n - 1)) && Streak(o, n) < stop
        invariant Reaches(o, maxAttempts, stop, n)
        decreases maxAttempts - howAttempts
      {
        var x := o(n);
        OneMore(o, maxAttempts, stop, n);
        IterationAdds(o, n);
        howAttempts := howAttempts + x.bump;
        n := n + 1;
        if x.NoOutput? {
          consecutiveStructural := consecutiveStructural + 1;
          if consecutiveStructural >= stop { break; }
          continue;
        }
        var score := if x.unscored || x.verdict.None? then None else Some(CanonicalScore(x.verdict.value));
        var record := Record(howAttempts, x.html, x.whatOk, x.valid, x.verdict, x.unscored, score);
        attemptsHistory := attemptsHistory + [record];
        if x.whatOk && x.valid && x.verdict.Some? && DerivePass(x.verdict.value) {
          hooks := hooks + [PublishClean(record)];
          EndsHere(o, maxAttempts, stop, n);
          return;
        }
        if x.valid && x.whatOk {
          consecutiveStructural := 0;
        } else {
          consecutiveStructural := consecutiveStructural + 1;
        }
        if consecutiveStructural >= stop { break; }
      }
      EndsHere(o, maxAttempts, stop, n);
      DecideQuality(stop);
    }

    /** The terminal decision. */
    method DecideQuality(stop: int)
      modifies this`hooks
      ensures |hooks| == |old(hooks)| + 1 && hooks[..|old(hooks)|] == old(hooks)
      ensures Decided(attemptsHistory, consecutiveStructural >= stop, hooks[|old(hooks)|])
    {
      if attemptsHistory == [] {
        hooks := hooks + [PublishFallback];
        return;
      }
      var valid := FilterValid(attemptsHistory);
      ValidAre(attemptsHistory);
      if valid != [] {
        var chosen := BestAttempt(valid);
        var allUnscored := AllUnscored(valid);
        var reason := if consecutiveStructural >= stop then StructuralDegradation
                      else if allUnscored then CheckerUnavailable else NonConvergent;
        assert valid[0] in valid;
        hooks := hooks + [PublishFlagged(chosen, Maker, reason)];
      } else {
        var chosen := BestAttempt(attemptsHistory);
        hooks := hooks + [PublishFlagged(chosen, BrokenAttempt, StructuralViolation)];
      }
    }
  }

  method FilterValid(history: seq<Record>) returns (valid: seq<Record>)
    ensures valid == Valid(history)
  {
    valid := [];
    for k := 0 to |history|
      invariant valid == Valid(history[..k])
    {
      assert history[..k + 1][..k] == history[..k];
      if history[k].valid {
        valid := valid + [history[k]];
      }
    }
    assert history[..|history|] == history;
  }

  method AllUnscored(pool: seq<Record>) returns (all: bool)
    ensures all <==> forall r :: r in pool ==> r.unscored
  {
    for k := 0 to |pool|
      invariant forall j :: 0 <= j < k ==> pool[j].unscored
    {
      if !pool[k].unscored {
        assert pool[k] in pool;
        return false;
      }
    }
    return true;
  }

  // ----- what the policy means -----

  /** A page that may be published as clean: both gates passed, and the checker can say what it is about, misses
      nothing that is gated and found no error. */
  ghost predicate Publishable(x: Outcome) {
    match x
    case Rendered(_, _, valid, whatOk, Some(v), _) =>
      valid && whatOk && v.canStateWhat && !v.gated && v.errors == 0
    case _ => false
  }

  /** The last `stop` of `n` iterations brought no page or one that failed a gate. */
  ghost predicate Degraded(o: nat -> Outcome, n: nat, stop: int) {
    stop <= n && forall k: nat :: n - stop <= k < n ==> o(k).NoOutput? || !(o(k).valid && o(k).whatOk)
  }

  ghost predicate MayEnd(o: nat -> Outcome, maxAttempts: int, stop: int, n: nat) {
    || Attempts(o, n) >= maxAttempts
    || (n > 0 && (Publishable(o(n - 1)) || Degraded(o, n, stop)))
  }

  lemma {:induction false} DegradedIff(o: nat -> Outcome, n: nat, stop: int)
    ensures Streak(o, n) >= stop <==> Degraded(o, n, stop)
  {
    hide Streak;
    StreakIsTrailingRun(o, n);
    if Streak(o, n) < stop <= n { assert !Failing(o(n - Streak(o, n) - 1)); }
  }

  lemma {:induction false} GoesOnIff(o: nat -> Outcome, maxAttempts: int, stop: int, n: nat)
    ensures GoesOn(o, maxAttempts, stop, n) <==> !MayEnd(o, maxAttempts, stop, n)
  {
    hide Streak, Degraded, Attempts;
    DegradedIff(o, n, stop);
  }

  /** The loop ends the first time that attempts are used up, a page can be published as clean, or the last `stop`
      iterations all failed structurally. */
  lemma {:induction false} EndsWhen(o: nat -> Outcome, maxAttempts: int, stop: int, n: nat)
    ensures EndsAfter(o, maxAttempts, stop, n)
      <==> MayEnd(o, maxAttempts, stop, n) && forall k: nat :: k < n ==> !MayEnd(o, maxAttempts, stop, k)
  {
    hide GoesOn, MayEnd;
    forall k: nat ensures GoesOn(o, maxAttempts, stop, k) <==> !MayEnd(o, maxAttempts, stop, k) {
      GoesOnIff(o, maxAttempts, stop, k);
    }
  }

  /** The hook that fires: the last page when it is publishable; the fallback when no page was ever extracted; else a
      flagged page, with the reason why. */
  lemma {:induction false} HookIs(o: nat -> Outcome, n: nat, stop: int, h: Hook)
    requires if n > 0 && Clean(o(n - 1)) then h == PublishClean(RecordOf(o(n - 1), Attempts(o, n)))
             else Decided(History(o, n), Streak(o, n) >= stop, h)
    ensures h.PublishClean? <==> n > 0 && Publishable(o(n - 1))
    ensures h.PublishClean? ==> Records(o, n - 1, h.record)
    ensures h.PublishFlagged? ==>
      var valid := exists r :: r in History(o, n) && r.valid;
      && (h.servedBy == BrokenAttempt <==> h.reason == StructuralViolation) && (h.servedBy == Maker <==> valid)
      && (h.reason == StructuralDegradation <==> valid && Degraded(o, n, stop))
      && (h.reason == CheckerUnavailable <==>
            valid && !Degraded(o, n, stop) && forall r :: r in History(o, n) && r.valid ==> r.unscored)
  {
    hide Streak, Degraded, History, IsBest, CanonicalScore, Attempts, Valid;
    DegradedIff(o, n, stop);
    ValidAre(History(o, n));
  }

  /** The loop ends, within the attempt ceiling, after one definite number of iterations. */
  lemma {:induction false} EndsWithinCeiling(o: nat -> Outcome, maxAttempts: int, stop: int, n: nat, m: nat)
    requires Raises(o) && EndsAfter(o, maxAttempts, stop, n)
    ensures n > 0 ==> n <= maxAttempts
    ensures EndsAfter(o, maxAttempts, stop, m) ==> m == n
  {
    if n > 0 {
      assert GoesOn(o, maxAttempts, stop, n - 1);
      AttemptsGrow(o, 0, n - 1);
    }
  }

  /** The fallback page is served exactly when no attempt was ever extracted; a broken attempt only when none was
      valid, and never in place of a valid one. */
  lemma {:induction false} PreferValid(o: nat -> Outcome, n: nat, stopped: bool, h: Hook)
    requires Raises(o) && Decided(History(o, n), stopped, h)
    ensures h.PublishFallback? <==> forall k: nat :: k < n ==> o(k).NoOutput?
    ensures h.PublishFlagged? ==> h.record in History(o, n)
    ensures h.PublishFlagged? && !h.record.valid ==> forall r :: r in History(o, n) ==> !r.valid
    ensures h.PublishFlagged? ==> (h.servedBy == Maker <==> h.record.valid)
  {
    HistoryEmptyIff(o, n);
    ValidAre(History(o, n));
  }

  lemma {:induction false} BelowTotal(a: Record, b: Record)
    ensures a.attemptNo != b.attemptNo ==> Below(a, b) || Below(b, a)
  {
  }

  /** The attempt served is the one best of its pool. */
  lemma {:induction false} ServedIsTheBest(o: nat -> Outcome, n: nat, stopped: bool, h: Hook, r: Record)
    requires Raises(o) && Decided(History(o, n), stopped, h) && h.PublishFlagged?
    requires r in History(o, n) && r.valid == h.record.valid && r != h.record
    ensures Below(r, h.record)
  {
    hide History, Valid, Below;
    var history := History(o, n);
    ValidAre(history);
    HistoryNumbered(o, n);
    BelowTotal(r, h.record);
    var i :| 0 <= i < |history| && history[i] == r;
    PreferValid(o, n, stopped, h);
    var j :| 0 <= j < |history| && history[j] == h.record;
    assert r.attemptNo != h.record.attemptNo;
  }

  /** A degradation stop means that the last iterations, as many as the stop asks for, all failed structurally. */
  lemma {:induction false} StopMeansTrailingFailures(o: nat -> Outcome, n: nat, stop: nat, k: nat)
    requires Streak(o, n) >= stop && n - stop <= k < n
    ensures Failing(o(k))
  {
    StreakIsTrailingRun(o, n);
  }
}
