/**
The write-back service and the notification relay as they run: an object whose fields are the
tables and the files, updated call by call.  Every call is tied to the step of `WriteBack` it makes.
*/
module WriteBackService {
  import opened Text
  import opened SurgicalEdit
  import opened WriteBack

  /** One entry of the descriptor read by the badge and the inbox. */
  datatype Writeback = Writeback(request: nat, row: nat)

  class Service {
    var requests: seq<ChangeRequest>
    var events: seq<Event>
    var outbox: seq<OutboxRow>
    var files: map<string, string>
    var versions: map<string, seq<string>>
    ghost var writes: seq<FileWrite>
    const hash: Hash

    ghost function Contents(): Db
      reads this
    {
      Db(requests, events, outbox, files, versions, writes)
    }

    constructor (hash: Hash)
      ensures Contents() == Empty && this.hash == hash
    {
      requests, events, outbox, files, versions, writes := [], [], [], map[], map[], [];
      this.hash := hash;
    }

    /** Record a change request, its `proposed` event and, on the apply lane, its notification. */
    method Create(request: ChangeRequest) returns (id: nat)
      modifies this
      ensures Contents() == WriteBack.Create(old(Contents()), request)
      ensures id == |old(requests)|
    {
      id := |requests|;
      requests := requests + [request];
      events := events + [Event(id, EvProposed)];
      if request.status == Applied {
        outbox := outbox + [OutboxRow(id, Pending)];
      }
    }

    method RecordRefusal(id: nat, kind: EventType, status: Option<Status>)
      requires id < |requests|
      modifies this
      ensures Contents() == WriteBack.RecordRefusal(old(Contents()), id, kind, status)
    {
      if status.Some? {
        requests := requests[id := requests[id].(status := status.value)];
      }
      events := events + [Event(id, kind)];
    }

    /** Snapshot the file as the next version unless it repeats the current one. */
    method CreateNext(goal: string, content: string) returns (version: nat)
      modifies this
      ensures Contents() == WriteBack.CreateNext(old(Contents()), goal, content, hash)
      ensures version == |VersionsOf(Contents(), goal)|
    {
      var vs := if goal in versions then versions[goal] else [];
      if vs != [] && hash(vs[|vs| - 1]) == hash(content) {
        return |vs|;
      }
      versions := versions[goal := vs + [content]];
      version := |vs| + 1;
    }

    /** Apply a change request; `stop` says where, if anywhere, the process dies on the way. */
    method ApplyChangeRequest(a: ApplyArgs, stop: Stop) returns (outcome: Outcome)
      modifies this
      ensures (Contents(), outcome) == Apply(old(Contents()), a, stop, hash)
    {
      if a.id >= |requests| {
        return Refused(NoSuchRequest);
      }
      var cr := requests[a.id];
      var quote, hint := Or(a.quoteOverride, cr.targetQuote), Or(a.hintOverride, cr.sectionHint);
      if !a.inTree {
        return Refused(OutOfTree);
      }
      if cr.goal !in files {
        return Refused(NoFile);
      }
      var before := files[cr.goal];
      var base := "";
      if cr.goal in versions && 1 <= cr.baseVersion <= |versions[cr.goal]| {
        base := versions[cr.goal][cr.baseVersion - 1];
      }
      ghost var db := Contents();
      assert base == VersionContent(db, cr.goal, cr.baseVersion);
      var verdict := DetectConflict(base, before, quote, hash);
      if verdict == Orphan {
        if stop != NoStop { return Crashed; }
        RecordRefusal(a.id, EvOrphaned, None);
        return Refused(QuoteOrphaned);
      }
      if verdict == Conflict {
        if stop != NoStop { return Crashed; }
        RecordRefusal(a.id, EvConflicted, Some(Conflicted));
        return Refused(RegionConflicted);
      }
      var after := Splice(before, cr, quote, hint);
      if after == None {
        return Refused(QuoteOrphaned);
      }
      var w := FileWrite(a.id, cr.kind, cr.proposedBody, quote, hint, base, before, after.value);
      assert Proceeds(db, a, hash) && PlannedWrite(db, a) == Some(w);
      ApplyProceeds(db, a, stop, hash);
      outcome := CommitWrite(w, cr.goal, stop);
    }

    /** The edit of an apply, in memory, with the byte check that guards the write; the check never
        fails on it. */
    static method Splice(before: string, cr: ChangeRequest, quote: Option<string>, hint: Option<string>)
      returns (after: Option<string>)
      ensures after == Edited(before, cr, quote, hint)
    {
      var region: Option<string> := None;
      var text: string;
      if cr.kind == Addition {
        text := ApplyAddition(before, cr.proposedBody, hint);
      } else {
        region := VerbatimLocate(before, quote);
        if region == None {
          return None;
        }
        text := ApplyModification(before, region.value, cr.proposedBody);
      }
      PlannedWriteIsSurgical(before, cr, quote, hint);
      var surgical := VerifySurgical(before, text, cr.kind == Addition, region);
      assert surgical;
      after := Some(text);
    }

    /** The commits of an apply, in order: the file, the version, then status, event and notification
        together. */
    method CommitWrite(w: FileWrite, goal: string, stop: Stop) returns (outcome: Outcome)
      requires w.request < |requests|
      modifies this
      ensures (Contents(), outcome) == Commits(old(Contents()), w, goal, stop, hash)
    {
      if stop == BeforeCommit { return Crashed; }
      files := files[goal := w.after];
      writes := writes + [w];
      if stop == AfterFile { return Crashed; }
      var version := CreateNext(goal, w.after);
      if stop == AfterVersion { return Crashed; }
      requests := requests[w.request := requests[w.request].(status := Applied)];
      events := events + [Event(w.request, EvApplied)];
      outbox := outbox + [OutboxRow(w.request, Pending)];
      outcome := Done(version);
    }

    /** Deliver the pending rows oldest first, one commit each, dying after `stopAfter` of them. */
    method DrainOutbox(stopAfter: nat) returns (delivered: seq<nat>)
      modifies this`outbox
      ensures delivered <= PendingRows(old(outbox), |old(outbox)|)
      ensures |delivered| == Min(stopAfter, |PendingRows(old(outbox), |old(outbox)|)|)
      ensures outbox == DeliverAll(old(outbox), delivered)
    {
      var pending := PendingRows(outbox, |outbox|);
      delivered := [];
      for i := 0 to |pending|
        invariant i <= stopAfter && delivered == pending[..i]
        invariant outbox == DeliverAll(old(outbox), delivered)
      {
        if i == stopAfter { return; }
        outbox := Deliver(outbox, pending[i]);
        assert pending[..i + 1] == pending[..i] + [pending[i]];
        delivered := delivered + [pending[i]];
      }
    }

    /** The write-backs of a goal, newest first, each request once. */
    method RecentWritebacks(goal: string, limit: int) returns (out: seq<Writeback>)
      ensures out == Recent(requests, outbox, goal, limit)
    {
      var rows := Query(requests, outbox, goal, |outbox|);
      out := [];
      var seen: set<nat> := {};
      for i := 0 to |rows|
        invariant out == Firsts(rows, i) && |out| < Max(limit, 1)
        invariant forall r :: r in seen <==> exists j :: 0 <= j < i && rows[j].request == r
      {
        if rows[i].request !in seen {
          seen := seen + {rows[i].request};
          out := out + [rows[i]];
          if |out| >= limit {
            FirstsGrow(rows, i + 1, |rows|);
            return;
          }
        }
      }
    }
  }

  // ----- what the descriptor lists -----

  /** The delivered rows of a goal among the first `n`, newest first. */
  function Query(requests: seq<ChangeRequest>, outbox: seq<OutboxRow>, goal: string, n: nat)
    : seq<Writeback>
    requires n <= |outbox|
  {
    if n == 0 then []
    else
      (if Listed(requests, outbox, goal, n - 1) then [Writeback(outbox[n - 1].request, n - 1)] else [])
      + Query(requests, outbox, goal, n - 1)
  }

  predicate Listed(requests: seq<ChangeRequest>, outbox: seq<OutboxRow>, goal: string, k: int) {
    0 <= k < |outbox| && outbox[k].delivery == Delivered
    && outbox[k].request < |requests| && requests[outbox[k].request].goal == goal
  }

  /** Row `i` is the first of its request. */
  predicate IsFirst(rows: seq<Writeback>, i: nat)
    requires i < |rows|
  {
    forall j :: 0 <= j < i ==> rows[j].request != rows[i].request
  }

  function Firsts(rows: seq<Writeback>, n: nat): seq<Writeback>
    requires n <= |rows|
  {
    if n == 0 then []
    else Firsts(rows, n - 1) + (if IsFirst(rows, n - 1) then [rows[n - 1]] else [])
  }

  function Recent(requests: seq<ChangeRequest>, outbox: seq<OutboxRow>, goal: string, limit: int)
    : seq<Writeback>
  {
    var rows := Query(requests, outbox, goal, |outbox|);
    var all := Firsts(rows, |rows|);
    all[..Min(Max(limit, 1), |all|)]
  }

  lemma {:induction false} FirstsGrow(rows: seq<Writeback>, m: nat, n: nat)
    requires m <= n <= |rows|
    ensures Firsts(rows, m) <= Firsts(rows, n)
    decreases n
  {
    if m < n { FirstsGrow(rows, m, n - 1); }
  }

  ghost predicate Descending(rows: seq<Writeback>) {
    forall i, j :: 0 <= i < j < |rows| ==> rows[i].row > rows[j].row
  }

  lemma {:induction false} QueryLists(requests: seq<ChangeRequest>, outbox: seq<OutboxRow>, goal: string, n: nat)
    requires n <= |outbox|
    ensures var rows := Query(requests, outbox, goal, n);
      && Descending(rows)
      && forall w :: w in rows <==>
           w.row < n && Listed(requests, outbox, goal, w.row) && w.request == outbox[w.row].request
  {
    if n > 0 { QueryLists(requests, outbox, goal, n - 1); }
  }

  lemma {:induction false} FirstsAreFirst(rows: seq<Writeback>, n: nat)
    requires n <= |rows| && Descending(rows)
    ensures var kept := Firsts(rows, n);
      && Descending(kept)
      && forall w :: w in kept <==> exists i :: 0 <= i < n && rows[i] == w && IsFirst(rows, i)
  {
    if n > 0 {
      FirstsAreFirst(rows, n - 1);
      var kept := Firsts(rows, n - 1);
      forall k | 0 <= k < |kept| ensures kept[k].row > rows[n - 1].row {
        assert kept[k] in kept;
      }
    }
  }

  /** Row `k` is the newest delivered row of its request. */
  ghost predicate Newest(requests: seq<ChangeRequest>, outbox: seq<OutboxRow>, goal: string, k: int) {
    && 0 <= k < |outbox| && outbox[k].delivery == Delivered
    && outbox[k].request < |requests| && requests[outbox[k].request].goal == goal
    && forall m :: k < m < |outbox| && outbox[m].delivery == Delivered ==> outbox[m].request != outbox[k].request
  }

  /** Before the limit cuts it off, the list holds exactly the newest delivered row of each request. */
  lemma {:induction false} AllNewestListed(requests: seq<ChangeRequest>, outbox: seq<OutboxRow>, goal: string,
                                           w: Writeback)
    ensures var rows := Query(requests, outbox, goal, |outbox|);
      w in Firsts(rows, |rows|) <==>
        Newest(requests, outbox, goal, w.row) && w.request == outbox[w.row].request
  {
    var rows := Query(requests, outbox, goal, |outbox|);
    QueryLists(requests, outbox, goal, |outbox|);
    FirstsAreFirst(rows, |rows|);
    forall i | 0 <= i < |rows| && rows[i] == w
      ensures IsFirst(rows, i) <==> Newest(requests, outbox, goal, w.row)
    {
      FirstIffNewest(requests, outbox, goal, i);
    }
  }

  lemma {:induction false} FirstIffNewest(requests: seq<ChangeRequest>, outbox: seq<OutboxRow>, goal: string, i: nat)
    requires i < |Query(requests, outbox, goal, |outbox|)|
    ensures var rows := Query(requests, outbox, goal, |outbox|);
      IsFirst(rows, i) <==> Newest(requests, outbox, goal, rows[i].row)
  {
    var rows := Query(requests, outbox, goal, |outbox|);
    var w := rows[i];
    QueryLists(requests, outbox, goal, |outbox|);
    assert w in rows;
    if IsFirst(rows, i) {
      forall m | w.row < m && Listed(requests, outbox, goal, m) ensures outbox[m].request != w.request {
        assert Writeback(outbox[m].request, m) in rows;
      }
    }
    forall j | 0 <= j < i ensures rows[j] in rows && rows[j].row > w.row {
    }
  }

  /**
  The descriptor lists each request at most once, by its newest delivered row, newest first, and a
  request is missing only when the list is full of newer ones.  A limit below one acts as one.
  */
  lemma {:induction false} RecentListsEachRequestOnce(requests: seq<ChangeRequest>, outbox: seq<OutboxRow>,
                                                      goal: string, limit: int)
    ensures var out := Recent(requests, outbox, goal, limit);
      && (limit < 1 ==> |out| <= 1) && (limit >= 1 ==> |out| <= limit)
      && Descending(out)
      && (forall w :: w in out ==>
            Newest(requests, outbox, goal, w.row) && w.request == outbox[w.row].request)
      && (forall k :: Newest(requests, outbox, goal, k) ==>
            || Writeback(outbox[k].request, k) in out
            || (|out| == (if limit < 1 then 1 else limit) && forall w :: w in out ==> w.row > k))
  {
    var rows := Query(requests, outbox, goal, |outbox|);
    var all := Firsts(rows, |rows|);
    var out := Recent(requests, outbox, goal, limit);
    QueryLists(requests, outbox, goal, |outbox|);
    FirstsAreFirst(rows, |rows|);
    forall w | w in out
      ensures Newest(requests, outbox, goal, w.row) && w.request == outbox[w.row].request
    {
      AllNewestListed(requests, outbox, goal, w);
    }
    forall k | Newest(requests, outbox, goal, k) && Writeback(outbox[k].request, k) !in out
      ensures |out| == Max(limit, 1) && forall w :: w in out ==> w.row > k
    {
      var w := Writeback(outbox[k].request, k);
      AllNewestListed(requests, outbox, goal, w);
      var i :| 0 <= i < |all| && all[i] == w;
      assert i >= |out|;
    }
  }

  function Max(x: int, y: int): int { if x >= y then x else y }

  /** Indices of the pending rows among the first `n`, in order. */
  function PendingRows(outbox: seq<OutboxRow>, n: nat): seq<nat>
    requires n <= |outbox|
  {
    if n == 0 then []
    else PendingRows(outbox, n - 1) + (if outbox[n - 1].delivery == Pending then [n - 1] else [])
  }

  function DeliverAll(outbox: seq<OutboxRow>, rows: seq<nat>): seq<OutboxRow> {
    if rows == [] then outbox else Deliver(DeliverAll(outbox, rows[..|rows| - 1]), rows[|rows| - 1])
  }

  lemma {:induction false} PendingRowsAreThePending(outbox: seq<OutboxRow>, n: nat)
    requires n <= |outbox|
    ensures forall k: nat :: k in PendingRows(outbox, n) <==> k < n && outbox[k].delivery == Pending
  {
    if n > 0 { PendingRowsAreThePending(outbox, n - 1); }
  }

  lemma {:induction false} DeliverAllChanges(outbox: seq<OutboxRow>, rows: seq<nat>)
    ensures var after := DeliverAll(outbox, rows);
      && |after| == |outbox|
      && forall k: nat :: k < |outbox| ==>
           after[k] == if k in rows then outbox[k].(delivery := Delivered) else outbox[k]
  {
    if rows != [] {
      var front, last := rows[..|rows| - 1], rows[|rows| - 1];
      DeliverAllChanges(outbox, front);
      assert rows == front + [last];
    }
  }

  /** A drain that runs to its end leaves no pending row; wherever it stops, every row is either as
      it was or delivered, and what it did not get to is still pending for the next one. */
  lemma {:induction false} DrainLosesNothing(outbox: seq<OutboxRow>, delivered: seq<nat>)
    requires delivered <= PendingRows(outbox, |outbox|)
    ensures var after := DeliverAll(outbox, delivered);
      && |after| == |outbox|
      && (forall k: nat :: k < |outbox| ==>
            after[k] == if k in delivered then outbox[k].(delivery := Delivered) else outbox[k])
      && (delivered == PendingRows(outbox, |outbox|) ==> forall row :: row in after ==> row.delivery == Delivered)
      && (forall k: nat :: k < |outbox| && outbox[k].delivery == Pending && k !in delivered ==>
            k in PendingRows(after, |after|))
  {
    var after := DeliverAll(outbox, delivered);
    DeliverAllChanges(outbox, delivered);
    PendingRowsAreThePending(outbox, |outbox|);
    PendingRowsAreThePending(after, |after|);
  }
}
