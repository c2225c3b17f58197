/** The write-back protocol of change requests and notifications. */
module WriteBack {
  import opened Text
  import opened SurgicalEdit

  // Change requests are recorded, accepted ones are applied to the requirements file by one writer, and every
  // applied change leaves a notification that a relay delivers later (`services/change_request_service.py`,
  // `services/notification_service.py`, `requirements_render/conflict.py`).
  //
  // The database and the files are one value, `Db`.  A step is one call, which may stop at any point between two
  // commits, or an edit of a file by a person.  The laws at the end hold over every run.

  datatype Kind = Addition | Modification | Annotation
  datatype Status = Proposed | Applied | Conflicted | Rejected | Superseded

  datatype ChangeRequest = ChangeRequest(
    goal: string, kind: Kind, proposedBody: string, baseVersion: int,
    targetQuote: Option<string>, sectionHint: Option<string>, status: Status)

  datatype EventType = EvProposed | EvApplied | EvConflicted | EvOrphaned
  datatype Event = Event(request: nat, kind: EventType)

  datatype Delivery = Pending | Delivered
  datatype OutboxRow = OutboxRow(request: nat, delivery: Delivery)

  /** History: one write of a requirements file by the apply path. */
  datatype FileWrite = FileWrite(
    request: nat, kind: Kind, body: string, quote: Option<string>, hint: Option<string>,
    base: string, before: string, after: string)

  /** Tables indexed by row id, the files by goal, and the history of file writes. */
  datatype Db = Db(
    requests: seq<ChangeRequest>, events: seq<Event>, outbox: seq<OutboxRow>,
    files: map<string, string>, versions: map<string, seq<string>>, writes: seq<FileWrite>)

  type Hash = string -> string

  // ----- the conflict verdict -----

  datatype Verdict = Clean | Conflict | Orphan

  function RegionHash(content: string, quote: Option<string>, hash: Hash): Option<string> {
    match VerbatimLocate(content, quote)
    case None => None
    case Some(region) => Some(hash(region))
  }

  function DetectConflict(base: string, head: string, quote: Option<string>, hash: Hash): Verdict {
    if quote == None then Clean
    else if RegionHash(head, quote, hash) == None then Orphan
    else if RegionHash(base, quote, hash) == RegionHash(head, quote, hash) then Clean
    else Conflict
  }

  ghost predicate Injective(hash: Hash) {
    forall x, y :: hash(x) == hash(y) ==> x == y
  }

  /** The verdict on a quote: orphaned when HEAD lost it, clean when its lines are those of the base
      version, conflicted when somebody changed them. */
  lemma {:induction false} VerdictMeaning(base: string, head: string, quote: string, hash: Hash)
    requires Injective(hash)
    ensures var v := DetectConflict(base, head, Some(quote), hash);
      && (v == Orphan <==> forall j :: !Occurs(head, quote, j))
      && (v == Clean <==> VerbatimLocate(head, Some(quote)).Some?
                          && VerbatimLocate(base, Some(quote)) == VerbatimLocate(head, Some(quote)))
  {
  }

  // ----- intake -----

  function Create(db: Db, request: ChangeRequest): Db {
    var id := |db.requests|;
    db.(requests := db.requests + [request],
        events := db.events + [Event(id, EvProposed)],
        outbox := db.outbox + (if request.status == Applied then [OutboxRow(id, Pending)] else []))
  }

  // ----- apply -----

  /** Where a crash stops an apply: not at all, before its first commit, after the file was written,
      or after the version was recorded. */
  datatype Stop = NoStop | BeforeCommit | AfterFile | AfterVersion

  datatype Refusal = NoSuchRequest | OutOfTree | NoFile | QuoteOrphaned | RegionConflicted | NotSurgical
  datatype Outcome = Done(version: nat) | Refused(why: Refusal) | Crashed

  datatype ApplyArgs = ApplyArgs(
    id: nat, inTree: bool, quoteOverride: Option<string>, hintOverride: Option<string>)

  function Or<T>(x: Option<T>, y: Option<T>): Option<T> {
    if x.Some? then x else y
  }

  function VersionContent(db: Db, goal: string, version: int): string {
    if goal in db.versions && 1 <= version <= |db.versions[goal]| then db.versions[goal][version - 1]
    else ""
  }

  function VersionsOf(db: Db, goal: string): seq<string> {
    if goal in db.versions then db.versions[goal] else []
  }

  /** Snapshot of a file as the next version; nothing when it repeats the current version. */
  function CreateNext(db: Db, goal: string, content: string, hash: Hash): Db {
    var vs := VersionsOf(db, goal);
    if vs != [] && hash(vs[|vs| - 1]) == hash(content) then db
    else db.(versions := db.versions[goal := vs + [content]])
  }

  function RecordRefusal(db: Db, id: nat, kind: EventType, status: Option<Status>): Db
    requires id < |db.requests|
  {
    var row := db.requests[id];
    db.(requests := if status.Some? then db.requests[id := row.(status := status.value)] else db.requests,
        events := db.events + [Event(id, kind)])
  }

  /** The text after the edit, and the region it replaced; `None` when the quote is not there. */
  function Edited(content: string, cr: ChangeRequest, quote: Option<string>, hint: Option<string>)
    : Option<string>
  {
    if cr.kind == Addition then Some(AdditionResult(content, cr.proposedBody, hint))
    else match VerbatimLocate(content, quote)
      case None => None
      case Some(region) => Some(ApplyModification(content, region, cr.proposedBody))
  }

  function CommitFile(db: Db, w: FileWrite, goal: string): Db {
    db.(files := db.files[goal := w.after], writes := db.writes + [w])
  }

  function CommitApplied(db: Db, id: nat): Db
    requires id < |db.requests|
  {
    db.(requests := db.requests[id := db.requests[id].(status := Applied)],
        events := db.events + [Event(id, EvApplied)],
        outbox := db.outbox + [OutboxRow(id, Pending)])
  }

  /** The write an apply call would make, when it gets that far. */
  function PlannedWrite(db: Db, a: ApplyArgs): (w: Option<FileWrite>)
    requires a.id < |db.requests| && db.requests[a.id].goal in db.files
  {
    var cr := db.requests[a.id];
    var quote, hint := Or(a.quoteOverride, cr.targetQuote), Or(a.hintOverride, cr.sectionHint);
    var before := db.files[cr.goal];
    match Edited(before, cr, quote, hint)
    case None => None
    case Some(after) =>
      Some(FileWrite(a.id, cr.kind, cr.proposedBody, quote, hint,
                     VersionContent(db, cr.goal, cr.baseVersion), before, after))
  }

  function Apply(db: Db, a: ApplyArgs, stop: Stop, hash: Hash): (r: (Db, Outcome)) {
    if a.id >= |db.requests| then (db, Refused(NoSuchRequest))
    else
      var cr := db.requests[a.id];
      if !a.inTree then (db, Refused(OutOfTree))
      else if cr.goal !in db.files then (db, Refused(NoFile))
      else
        var quote := Or(a.quoteOverride, cr.targetQuote);
        var head, base := db.files[cr.goal], VersionContent(db, cr.goal, cr.baseVersion);
        match DetectConflict(base, head, quote, hash)
        case Orphan =>
          if stop != NoStop then (db, Crashed)
          else (RecordRefusal(db, a.id, EvOrphaned, None), Refused(QuoteOrphaned))
        case Conflict =>
          if stop != NoStop then (db, Crashed)
          else (RecordRefusal(db, a.id, EvConflicted, Some(Conflicted)), Refused(RegionConflicted))
        case Clean =>
          match PlannedWrite(db, a)
          case None => (db, Refused(QuoteOrphaned))
          case Some(w) => Commits(db, w, cr.goal, stop, hash)
  }

  /** The three commits of an apply: the file, the version, and status, event and notification. */
  function Commits(db: Db, w: FileWrite, goal: string, stop: Stop, hash: Hash): (Db, Outcome)
    requires w.request < |db.requests|
  {
    var db1 := CommitFile(db, w, goal);
    var db2 := CreateNext(db1, goal, w.after, hash);
    match stop
    case BeforeCommit => (db, Crashed)
    case AfterFile => (db1, Crashed)
    case AfterVersion => (db2, Crashed)
    case NoStop => (CommitApplied(db2, w.request), Done(|VersionsOf(db2, goal)|))
  }

  /** A write that touched nothing it should not: an addition is one contiguous insertion; any other
      kind replaced exactly the whole lines holding the quote, and those lines read as in the base. */
  ghost predicate CleanWrite(w: FileWrite) {
    if w.kind == Addition then
      w.after == AdditionResult(w.before, w.body, w.hint) && IsInsertion(w.before, w.after)
    else
      && w.quote.Some?
      && QuoteSpan(w.before, w.quote.value).Some?
      && var s := QuoteSpan(w.before, w.quote.value).value;
         var region := w.before[s.start..s.end];
         && VerbatimLocate(w.base, w.quote) == Some(region)
         && w.after == w.before[..s.start] + StripNewlines(w.body) + w.before[s.end..]
  }

  /** The conditions under which an apply call gets as far as writing. */
  predicate Proceeds(db: Db, a: ApplyArgs, hash: Hash) {
    && a.id < |db.requests| && a.inTree
    && var cr := db.requests[a.id];
       && cr.goal in db.files
       && DetectConflict(VersionContent(db, cr.goal, cr.baseVersion), db.files[cr.goal],
                         Or(a.quoteOverride, cr.targetQuote), hash) == Clean
       && PlannedWrite(db, a).Some?
  }

  lemma {:induction false} PlannedWriteIsClean(db: Db, a: ApplyArgs, hash: Hash)
    requires Injective(hash) && Proceeds(db, a, hash)
    ensures CleanWrite(PlannedWrite(db, a).value)
  {
    var cr := db.requests[a.id];
    var before := db.files[cr.goal];
    if cr.kind == Addition {
      AdditionIsInsertion(before, cr.proposedBody, Or(a.hintOverride, cr.sectionHint));
    } else {
      var quote := Or(a.quoteOverride, cr.targetQuote).value;
      VerdictMeaning(VersionContent(db, cr.goal, cr.baseVersion), before, quote, hash);
      ModificationText(before, quote, cr.proposedBody);
    }
  }

  /** Every planned edit passes the byte check, so that refusal never happens. */
  lemma {:induction false} PlannedWriteIsSurgical(content: string, cr: ChangeRequest, quote: Option<string>,
                               hint: Option<string>)
    requires Edited(content, cr, quote, hint).Some?
    ensures Surgical(content, Edited(content, cr, quote, hint).value, cr.kind == Addition,
                     if cr.kind == Addition then None else VerbatimLocate(content, quote))
  {
    if cr.kind == Addition {
      AdditionIsInsertion(content, cr.proposedBody, hint);
    } else {
      ModificationIsSurgical(content, quote.value, cr.proposedBody);
    }
  }

  lemma {:induction false} ApplyProceeds(db: Db, a: ApplyArgs, stop: Stop, hash: Hash)
    requires Proceeds(db, a, hash)
    ensures Apply(db, a, stop, hash)
      == Commits(db, PlannedWrite(db, a).value, db.requests[a.id].goal, stop, hash)
  {
  }

  /** An apply that does not get as far as writing changes nothing, or records why. */
  lemma {:induction false} ApplyRefuses(db: Db, a: ApplyArgs, stop: Stop, hash: Hash)
    requires !Proceeds(db, a, hash)
    ensures var after := Apply(db, a, stop, hash).0;
      || after == db
      || (a.id < |db.requests|
          && (after == RecordRefusal(db, a.id, EvOrphaned, None)
              || after == RecordRefusal(db, a.id, EvConflicted, Some(Conflicted))))
  {
    hide PlannedWrite, DetectConflict, RecordRefusal, Commits;
  }

  /** A refused apply, and one stopped before its first commit, leave every file, every version and
      the history alone. */
  lemma {:induction false} RefusalLeavesFiles(db: Db, a: ApplyArgs, stop: Stop, hash: Hash)
    ensures var r := Apply(db, a, stop, hash);
      r.1.Refused? || stop == BeforeCommit || !Proceeds(db, a, hash) ==>
        r.0.files == db.files && r.0.versions == db.versions && r.0.writes == db.writes
  {
    if Proceeds(db, a, hash) {
      ApplyProceeds(db, a, stop, hash);
    }
  }

  /** The quote and the hint an apply goes by, and the text it compares with: an override beats the request, and a
      version that is not on record reads as empty. */
  ghost predicate GoesBy(db: Db, a: ApplyArgs, quote: Option<string>, hint: Option<string>, base: string)
    requires a.id < |db.requests|
  {
    var cr := db.requests[a.id];
    && quote == (if a.quoteOverride.Some? then a.quoteOverride else cr.targetQuote)
    && hint == (if a.hintOverride.Some? then a.hintOverride else cr.sectionHint)
    && (if cr.goal in db.versions && 0 < cr.baseVersion <= |db.versions[cr.goal]|
        then base == db.versions[cr.goal][cr.baseVersion - 1] else base == "")
  }

  /** The file lost the quote. */
  ghost predicate Lost(head: string, quote: Option<string>) {
    quote.Some? && forall j :: !Occurs(head, quote.value, j)
  }

  /** The quote is there, but its lines are not those of the base version. */
  ghost predicate Changed(base: string, head: string, quote: Option<string>) {
    && quote.Some? && (exists j :: Occurs(head, quote.value, j))
    && VerbatimLocate(base, quote) != VerbatimLocate(head, quote)
  }

  lemma {:induction false} VerdictIs(base: string, head: string, quote: Option<string>, hash: Hash)
    requires Injective(hash)
    ensures DetectConflict(base, head, quote, hash)
      == if Lost(head, quote) then Orphan else if Changed(base, head, quote) then Conflict else Clean
  {
    hide VerbatimLocate, Occurs;
    if quote.Some? { VerdictMeaning(base, head, quote.value, hash); }
  }

  /** What is answered, and what is recorded of a refusal.  A lost quote is recorded as orphaned and leaves every
      request alone; a changed region is recorded as conflicted and marks this request only. */
  lemma {:induction false} ApplyAnswers(db: Db, a: ApplyArgs, stop: Stop, hash: Hash, quote: Option<string>,
                                        hint: Option<string>, base: string)
    requires Injective(hash)
    requires a.id < |db.requests| ==> GoesBy(db, a, quote, hint, base)
    ensures var (after, outcome) := Apply(db, a, stop, hash);
      if a.id >= |db.requests| then after == db && outcome == Refused(NoSuchRequest)
      else
        var cr := db.requests[a.id];
        if !a.inTree then after == db && outcome == Refused(OutOfTree)
        else if cr.goal !in db.files then after == db && outcome == Refused(NoFile)
        else if (Lost(db.files[cr.goal], quote) || Changed(base, db.files[cr.goal], quote)) && stop != NoStop then
          after == db && outcome == Crashed
        else if Lost(db.files[cr.goal], quote) then
          && outcome == Refused(QuoteOrphaned)
          && after == db.(events := db.events + [Event(a.id, EvOrphaned)])
        else if Changed(base, db.files[cr.goal], quote) then
          && outcome == Refused(RegionConflicted)
          && after == db.(events := db.events + [Event(a.id, EvConflicted)],
                          requests := db.requests[a.id := cr.(status := Conflicted)])
        else if quote == None && cr.kind != Addition then after == db && outcome == Refused(QuoteOrphaned)
        else Proceeds(db, a, hash) && if stop == NoStop then outcome.Done? else outcome == Crashed
  {
    hide VerbatimLocate, Occurs, Lost, Changed, Commits, DetectConflict, ApplyModification, AdditionResult;
    if a.id < |db.requests| && a.inTree && db.requests[a.id].goal in db.files {
      var cr := db.requests[a.id];
      var head := db.files[cr.goal];
      VerdictIs(base, head, quote, hash);
      LocatesUnlessLost(head, quote);
      if Proceeds(db, a, hash) { CommitsAnswer(db, PlannedWrite(db, a).value, cr.goal, stop, hash); }
    }
  }

  lemma {:induction false} LocatesUnlessLost(head: string, quote: Option<string>)
    ensures VerbatimLocate(head, quote).Some? <==> quote.Some? && !Lost(head, quote)
  {
  }

  lemma {:induction false} CommitsAnswer(db: Db, w: FileWrite, goal: string, stop: Stop, hash: Hash)
    requires w.request < |db.requests|
    ensures Commits(db, w, goal, stop, hash).1.Done? <==> stop == NoStop
    ensures Commits(db, w, goal, stop, hash).1.Crashed? <==> stop != NoStop
  {
  }

  /** Otherwise an apply makes one clean write, to the file of the request's own goal, of the text
      that file held; a finished one left the file equal to the version it reports. */
  lemma {:induction false} ApplyMakesOneCleanWrite(db: Db, a: ApplyArgs, stop: Stop, hash: Hash)
    requires Injective(hash) && Proceeds(db, a, hash) && stop != BeforeCommit
    ensures var (after, outcome) := Apply(db, a, stop, hash);
      var goal, w := db.requests[a.id].goal, PlannedWrite(db, a).value;
      && CleanWrite(w) && w.before == db.files[goal]
      && w.request == a.id && w.kind == db.requests[a.id].kind && w.body == db.requests[a.id].proposedBody
      && GoesBy(db, a, w.quote, w.hint, w.base)
      && after.writes == db.writes + [w]
      && after.files == db.files[goal := w.after]
      && (outcome.Done? ==> VersionContent(after, goal, outcome.version) == w.after)
  {
    hide Apply, DetectConflict, CleanWrite, CreateNext, Edited;
    PlannedWriteIsClean(db, a, hash);
    ApplyProceeds(db, a, stop, hash);
    CreateNextRecords(CommitFile(db, PlannedWrite(db, a).value, db.requests[a.id].goal),
                      db.requests[a.id].goal, PlannedWrite(db, a).value.after, hash);
  }

  /** What the commits leave in the tables.  The version is recorded unless the file repeats the current one; status,
      event and notification come together, and only when nothing stopped the call. */
  lemma {:induction false} ApplyLeavesTables(db: Db, a: ApplyArgs, stop: Stop, hash: Hash)
    requires Injective(hash) && Proceeds(db, a, hash)
    ensures var after := Apply(db, a, stop, hash).0;
      var cr, w := db.requests[a.id], PlannedWrite(db, a).value;
      var vs := VersionsOf(db, cr.goal);
      && (stop == NoStop ==>
            && after.requests == db.requests[a.id := cr.(status := Applied)]
            && after.events == db.events + [Event(a.id, EvApplied)]
            && after.outbox == db.outbox + [OutboxRow(a.id, Pending)])
      && (stop != NoStop ==>
            after.requests == db.requests && after.events == db.events && after.outbox == db.outbox)
      && VersionsOf(after, cr.goal)
         == (if stop == BeforeCommit || stop == AfterFile || (vs != [] && vs[|vs| - 1] == w.after) then vs
             else vs + [w.after])
      && forall goal :: goal != cr.goal ==> VersionsOf(after, goal) == VersionsOf(db, goal)
  {
    hide Apply, Proceeds, PlannedWrite;
    PlannedFor(db, a, hash);
    ApplyProceeds(db, a, stop, hash);
  }

  lemma {:induction false} PlannedFor(db: Db, a: ApplyArgs, hash: Hash)
    requires Proceeds(db, a, hash)
    ensures a.id < |db.requests| && db.requests[a.id].goal in db.files && PlannedWrite(db, a).Some?
    ensures PlannedWrite(db, a).value.request == a.id
  {
  }

  lemma {:induction false} CreateNextRecords(db: Db, goal: string, content: string, hash: Hash)
    requires Injective(hash)
    ensures var after := CreateNext(db, goal, content, hash);
      && VersionsOf(after, goal) != []
      && VersionContent(after, goal, |VersionsOf(after, goal)|) == content
      && VersionsOf(db, goal) <= VersionsOf(after, goal)
      && after == db.(versions := after.versions)
  {
  }

  // ----- delivery -----

  function Deliver(outbox: seq<OutboxRow>, row: nat): (r: seq<OutboxRow>)
    ensures |r| == |outbox|
  {
    if row < |outbox| then outbox[row := outbox[row].(delivery := Delivered)] else outbox
  }

  // ----- runs -----

  /** A step of the whole system.  The relay delivers one row per step, since each is one commit. */
  datatype Step =
    | StepCreate(request: ChangeRequest)
    | StepApply(args: ApplyArgs, stop: Stop)
    | StepEdit(goal: string, text: Option<string>)
    | StepSnapshot(goal: string)
    | StepDeliver(row: nat)

  function Do(db: Db, step: Step, hash: Hash): Db {
    match step
    case StepCreate(request) => Create(db, request)
    case StepApply(args, stop) => Apply(db, args, stop, hash).0
    case StepEdit(goal, Some(text)) => db.(files := db.files[goal := text])
    case StepEdit(goal, None) => db.(files := db.files - {goal})
    case StepSnapshot(goal) =>
      if goal in db.files then CreateNext(db, goal, db.files[goal], hash) else db
    case StepDeliver(row) => db.(outbox := Deliver(db.outbox, row))
  }

  function Run(db: Db, steps: seq<Step>, hash: Hash): Db
    decreases |steps|
  {
    if steps == [] then db else Run(Do(db, steps[0], hash), steps[1..], hash)
  }

  const Empty: Db := Db([], [], [], map[], map[], [])

  function Count<T(==)>(s: seq<T>, x: T): nat {
    if s == [] then 0 else Count(s[..|s| - 1], x) + (if s[|s| - 1] == x then 1 else 0)
  }

  function WriteCount(ws: seq<FileWrite>, id: nat): nat {
    if ws == [] then 0
    else WriteCount(ws[..|ws| - 1], id) + (if ws[|ws| - 1].request == id then 1 else 0)
  }

  lemma {:induction false} CountSnoc<T>(s: seq<T>, y: T, x: T)
    ensures Count(s + [y], x) == Count(s, x) + (if y == x then 1 else 0)
  {
    assert (s + [y])[..|s|] == s;
  }

  lemma {:induction false} WriteCountSnoc(ws: seq<FileWrite>, w: FileWrite, id: nat)
    ensures WriteCount(ws + [w], id) == WriteCount(ws, id) + (if w.request == id then 1 else 0)
  {
    assert (ws + [w])[..|ws|] == ws;
  }

  /** The first event of every request is its proposal, and it is proposed once. */
  ghost predicate ProposedFirst(db: Db) {
    && (forall id :: 0 <= id < |db.requests| ==> Count(db.events, Event(id, EvProposed)) == 1)
    && (forall k :: 0 <= k < |db.events| ==>
          && db.events[k].request < |db.requests|
          && (db.events[k].kind == EvProposed || Event(db.events[k].request, EvProposed) in db.events[..k]))
  }

  /** A request is marked applied only with a notification for it in the outbox. */
  ghost predicate AppliedHasNotice(db: Db) {
    && (forall row :: row in db.outbox ==> row.request < |db.requests|)
    && (forall id :: 0 <= id < |db.requests| && db.requests[id].status == Applied ==>
          exists row :: row in db.outbox && row.request == id)
  }

  /** Every `applied` event came after a file write of its own. */
  ghost predicate WriteBeforeApplied(db: Db) {
    forall id: nat :: Count(db.events, Event(id, EvApplied)) <= WriteCount(db.writes, id)
  }

  ghost predicate AllWritesClean(db: Db) {
    forall w :: w in db.writes ==> CleanWrite(w)
  }

  ghost predicate Inv(db: Db) {
    ProposedFirst(db) && AppliedHasNotice(db) && WriteBeforeApplied(db) && AllWritesClean(db)
  }

  lemma {:induction false} CountedIsIn<T>(s: seq<T>, x: T)
    ensures Count(s, x) > 0 <==> x in s
  {
    if s != [] {
      CountedIsIn(s[..|s| - 1], x);
      assert s == s[..|s| - 1] + [s[|s| - 1]];
    }
  }

  /** An event of a known request keeps every proposal first. */
  lemma {:induction false} EventKeepsProposedFirst(before: Db, after: Db, e: Event)
    requires ProposedFirst(before)
    requires |after.requests| == |before.requests| && after.events == before.events + [e]
    requires e.request < |before.requests| && e.kind != EvProposed
    ensures ProposedFirst(after)
  {
    forall id | 0 <= id < |after.requests| ensures Count(after.events, Event(id, EvProposed)) == 1 {
      CountSnoc(before.events, e, Event(id, EvProposed));
    }
    CountedIsIn(before.events, Event(e.request, EvProposed));
    forall k | 0 <= k < |after.events|
      ensures after.events[k].request < |after.requests|
      ensures after.events[k].kind == EvProposed
              || Event(after.events[k].request, EvProposed) in after.events[..k]
    {
      if k < |before.events| {
        assert after.events[..k] == before.events[..k];
      } else {
        assert after.events[..k] == before.events;
      }
    }
  }

  lemma {:induction false} CreateKeepsInv(db: Db, request: ChangeRequest)
    requires Inv(db)
    ensures Inv(Create(db, request))
  {
    var after := Create(db, request);
    var n, e := |db.requests|, Event(|db.requests|, EvProposed);
    assert forall k :: 0 <= k < |db.events| ==> after.events[..k] == db.events[..k];
    forall id | 0 <= id <= n ensures Count(after.events, Event(id, EvProposed)) == 1 {
      CountSnoc(db.events, e, Event(id, EvProposed));
      if id == n { CountedIsIn(db.events, e); }
    }
    forall id: nat ensures Count(after.events, Event(id, EvApplied)) <= WriteCount(after.writes, id) {
      CountSnoc(db.events, e, Event(id, EvApplied));
    }
    CreateKeepsNotices(db, request);
  }

  lemma {:induction false} CreateKeepsNotices(db: Db, request: ChangeRequest)
    requires AppliedHasNotice(db)
    ensures AppliedHasNotice(Create(db, request))
  {
    var after := Create(db, request);
    forall id | 0 <= id < |after.requests| && after.requests[id].status == Applied
      ensures exists row :: row in after.outbox && row.request == id
    {
      if id < |db.requests| {
        var row :| row in db.outbox && row.request == id;
        assert row in after.outbox;
      } else {
        assert OutboxRow(id, Pending) in after.outbox;
      }
    }
  }

  lemma {:induction false} RefusalKeepsInv(db: Db, id: nat, kind: EventType, status: Option<Status>)
    requires Inv(db) && id < |db.requests|
    requires kind == EvOrphaned || kind == EvConflicted
    requires status != Some(Applied)
    ensures Inv(RecordRefusal(db, id, kind, status))
  {
    var after := RecordRefusal(db, id, kind, status);
    EventKeepsProposedFirst(db, after, Event(id, kind));
    forall x: nat ensures Count(after.events, Event(x, EvApplied)) <= WriteCount(after.writes, x) {
      CountSnoc(db.events, Event(id, kind), Event(x, EvApplied));
    }
  }

  lemma {:induction false} FileCommitKeepsInv(db: Db, w: FileWrite, goal: string)
    requires Inv(db) && CleanWrite(w)
    ensures Inv(CommitFile(db, w, goal))
    ensures var after := CommitFile(db, w, goal);
      Count(after.events, Event(w.request, EvApplied)) < WriteCount(after.writes, w.request)
  {
    forall x: nat ensures WriteCount(db.writes, x) <= WriteCount(db.writes + [w], x) {
      WriteCountSnoc(db.writes, w, x);
    }
    WriteCountSnoc(db.writes, w, w.request);
  }

  lemma {:induction false} AppliedCommitKeepsInv(db: Db, id: nat)
    requires Inv(db) && id < |db.requests|
    requires Count(db.events, Event(id, EvApplied)) < WriteCount(db.writes, id)
    ensures Inv(CommitApplied(db, id))
  {
    var after := CommitApplied(db, id);
    EventKeepsProposedFirst(db, after, Event(id, EvApplied));
    forall x: nat ensures Count(after.events, Event(x, EvApplied)) <= WriteCount(after.writes, x) {
      CountSnoc(db.events, Event(id, EvApplied), Event(x, EvApplied));
    }
    forall x | 0 <= x < |after.requests| && after.requests[x].status == Applied
      ensures exists row :: row in after.outbox && row.request == x
    {
      if x == id {
        assert OutboxRow(id, Pending) in after.outbox;
      } else {
        var row :| row in db.outbox && row.request == x;
        assert row in after.outbox;
      }
    }
  }

  lemma {:induction false} CommitsKeepInv(db: Db, w: FileWrite, goal: string, stop: Stop, hash: Hash)
    requires Injective(hash) && Inv(db) && CleanWrite(w) && w.request < |db.requests|
    ensures Inv(Commits(db, w, goal, stop, hash).0)
  {
    var db1 := CommitFile(db, w, goal);
    FileCommitKeepsInv(db, w, goal);
    var db2 := CreateNext(db1, goal, w.after, hash);
    CreateNextRecords(db1, goal, w.after, hash);
    VersionsDoNotMatter(db1, db2);
    AppliedCommitKeepsInv(db2, w.request);
  }

  lemma {:induction false} VersionsDoNotMatter(before: Db, after: Db)
    requires Inv(before) && after == before.(versions := after.versions)
    ensures Inv(after)
  {
  }

  lemma {:induction false} ApplyKeepsInv(db: Db, a: ApplyArgs, stop: Stop, hash: Hash)
    requires Injective(hash) && Inv(db)
    ensures Inv(Apply(db, a, stop, hash).0)
  {
    hide Apply, Inv, CleanWrite, DetectConflict, Commits, RecordRefusal, Edited;
    if Proceeds(db, a, hash) {
      PlannedWriteIsClean(db, a, hash);
      ApplyProceeds(db, a, stop, hash);
      CommitsKeepInv(db, PlannedWrite(db, a).value, db.requests[a.id].goal, stop, hash);
    } else {
      ApplyRefuses(db, a, stop, hash);
      if a.id < |db.requests| {
        RefusalKeepsInv(db, a.id, EvOrphaned, None);
        RefusalKeepsInv(db, a.id, EvConflicted, Some(Conflicted));
      }
    }
  }

  lemma {:induction false} DeliverKeepsNotices(db: Db, row: nat)
    requires AppliedHasNotice(db)
    ensures AppliedHasNotice(db.(outbox := Deliver(db.outbox, row)))
  {
    var after := Deliver(db.outbox, row);
    forall id | 0 <= id < |db.requests| && db.requests[id].status == Applied
      ensures exists r :: r in after && r.request == id
    {
      var k :| 0 <= k < |db.outbox| && db.outbox[k].request == id;
      assert after[k] in after;
    }
  }

  lemma {:induction false} StepKeepsInv(db: Db, step: Step, hash: Hash)
    requires Injective(hash) && Inv(db)
    ensures Inv(Do(db, step, hash))
  {
    match step
    case StepCreate(request) => CreateKeepsInv(db, request);
    case StepApply(args, stop) => ApplyKeepsInv(db, args, stop, hash);
    case StepEdit(_, _) =>
    case StepSnapshot(goal) =>
    case StepDeliver(row) => DeliverKeepsNotices(db, row);
  }

  /** In every state any run reaches, with crashes anywhere and people editing in between: every
      request starts with its one proposal, an applied request has its notification, every `applied`
      event has a file write of its own before it, and no write ever touched other text. */
  lemma {:induction false} EveryRunKeepsInv(db: Db, steps: seq<Step>, hash: Hash)
    requires Injective(hash) && Inv(db)
    ensures Inv(Run(db, steps, hash))
    decreases |steps|
  {
    if steps != [] {
      StepKeepsInv(db, steps[0], hash);
      EveryRunKeepsInv(Do(db, steps[0], hash), steps[1..], hash);
    }
  }

  lemma {:induction false} EmptyIsInv()
    ensures Inv(Empty)
  {
  }

  /** From an empty database all of this holds in every state any run reaches. */
  lemma {:induction false} RunsFromEmpty(steps: seq<Step>, hash: Hash)
    requires Injective(hash)
    ensures Inv(Run(Empty, steps, hash))
  {
    hide Inv, Run;
    EmptyIsInv();
    EveryRunKeepsInv(Empty, steps, hash);
  }

  /** A snapshot leaves the current version equal to the file, and does nothing when there is no file. */
  lemma {:induction false} SnapshotRecords(db: Db, goal: string, hash: Hash)
    requires Injective(hash)
    ensures var after := Do(db, StepSnapshot(goal), hash);
      if goal in db.files then
        && VersionContent(after, goal, |VersionsOf(after, goal)|) == db.files[goal]
        && after == db.(versions := after.versions)
      else after == db
  {
    if goal in db.files { CreateNextRecords(db, goal, db.files[goal], hash); }
  }

  // ----- what no later step takes back -----

  /** Outbox rows are never lost and a delivered one is never pending again; versions and events are
      only appended. */
  ghost predicate Grows(before: Db, after: Db) {
    && |before.outbox| <= |after.outbox|
    && (forall k :: 0 <= k < |before.outbox| ==>
          && after.outbox[k].request == before.outbox[k].request
          && (before.outbox[k].delivery == Delivered ==> after.outbox[k].delivery == Delivered))
    && before.events <= after.events
    && before.writes <= after.writes
    && forall goal :: goal in before.versions ==>
          VersionsOf(before, goal) <= VersionsOf(after, goal)
  }

  lemma {:induction false} CommitsGrow(db: Db, w: FileWrite, goal: string, stop: Stop, hash: Hash)
    requires Injective(hash) && w.request < |db.requests|
    ensures Grows(db, Commits(db, w, goal, stop, hash).0)
  {
    hide Grows, CommitFile, CreateNext, CommitApplied;
    var db1 := CommitFile(db, w, goal);
    var db2 := CreateNext(db1, goal, w.after, hash);
    FileCommitGrows(db, w, goal);
    CreateNextGrows(db1, goal, w.after, hash);
    CommitKeepsRequests(db, w, goal, hash);
    AppliedCommitGrows(db2, w.request);
    GrowsTransitive(db, db1, db2);
    GrowsTransitive(db, db2, CommitApplied(db2, w.request));
    GrowsSelf(db);
  }

  lemma {:induction false} GrowsSelf(db: Db)
    ensures Grows(db, db)
  {
  }

  lemma {:induction false} CommitKeepsRequests(db: Db, w: FileWrite, goal: string, hash: Hash)
    ensures CreateNext(CommitFile(db, w, goal), goal, w.after, hash).requests == db.requests
  {
  }

  lemma {:induction false} FileCommitGrows(db: Db, w: FileWrite, goal: string)
    ensures Grows(db, CommitFile(db, w, goal))
  {
  }

  lemma {:induction false} CreateNextGrows(db: Db, goal: string, content: string, hash: Hash)
    requires Injective(hash)
    ensures Grows(db, CreateNext(db, goal, content, hash))
  {
    CreateNextRecords(db, goal, content, hash);
  }

  lemma {:induction false} AppliedCommitGrows(db: Db, id: nat)
    requires id < |db.requests|
    ensures Grows(db, CommitApplied(db, id))
  {
  }

  lemma {:induction false} StepGrows(db: Db, step: Step, hash: Hash)
    requires Injective(hash)
    ensures Grows(db, Do(db, step, hash))
  {
    hide Apply, Proceeds, Commits;
    match step
    case StepApply(a, stop) => ApplyGrows(db, a, stop, hash);
    case _ =>
  }

  lemma {:induction false} ApplyGrows(db: Db, a: ApplyArgs, stop: Stop, hash: Hash)
    requires Injective(hash)
    ensures Grows(db, Apply(db, a, stop, hash).0)
  {
    hide Apply, DetectConflict, Commits, Edited;
    if Proceeds(db, a, hash) {
      ApplyProceeds(db, a, stop, hash);
      CommitsGrow(db, PlannedWrite(db, a).value, db.requests[a.id].goal, stop, hash);
    } else {
      ApplyRefuses(db, a, stop, hash);
    }
  }

  lemma {:induction false} RunGrows(db: Db, steps: seq<Step>, hash: Hash)
    requires Injective(hash)
    ensures Grows(db, Run(db, steps, hash))
    decreases |steps|
  {
    if steps != [] {
      StepGrows(db, steps[0], hash);
      RunGrows(Do(db, steps[0], hash), steps[1..], hash);
      GrowsTransitive(db, Do(db, steps[0], hash), Run(db, steps, hash));
    }
  }

  lemma {:induction false} GrowsTransitive(a: Db, b: Db, c: Db)
    requires Grows(a, b) && Grows(b, c)
    ensures Grows(a, c)
  {
    forall goal | goal in a.versions ensures VersionsOf(a, goal) <= VersionsOf(c, goal) {
      if goal !in b.versions { assert VersionsOf(a, goal) == []; }
    }
  }

  ghost function RowCount(outbox: seq<OutboxRow>, id: nat): nat {
    if outbox == [] then 0
    else RowCount(outbox[..|outbox| - 1], id) + (if outbox[|outbox| - 1].request == id then 1 else 0)
  }

  lemma {:induction false} RowCountSnoc(outbox: seq<OutboxRow>, row: OutboxRow, id: nat)
    ensures RowCount(outbox + [row], id) == RowCount(outbox, id) + (if row.request == id then 1 else 0)
  {
    assert (outbox + [row])[..|outbox|] == outbox;
  }

  lemma {:induction false} SameRowCount(a: seq<OutboxRow>, b: seq<OutboxRow>, id: nat)
    requires |a| == |b| && forall k :: 0 <= k < |a| ==> a[k].request == b[k].request
    ensures RowCount(a, id) == RowCount(b, id)
  {
    if a != [] { SameRowCount(a[..|a| - 1], b[..|b| - 1], id); }
  }

  /** Notifications of a request beyond those for its `applied` events. */
  ghost function ExtraNotices(db: Db, id: nat): int {
    RowCount(db.outbox, id) - Count(db.events, Event(id, EvApplied))
  }

  /** A request taken in on the apply lane starts with one notification, any other with none. */
  lemma {:induction false} IntakeNotices(db: Db, request: ChangeRequest)
    requires Inv(db)
    ensures var after := Create(db, request);
      && after.requests == db.requests + [request]
      && ExtraNotices(after, |db.requests|) == (if request.status == Applied then 1 else 0)
  {
    var id := |db.requests|;
    var applied := Event(id, EvApplied);
    CountedIsIn(db.events, applied);
    CountSnoc(db.events, Event(id, EvProposed), applied);
    NoRowsYet(db.outbox, id);
    RowCountSnoc(db.outbox, OutboxRow(id, Pending), id);
    assert db.outbox + [] == db.outbox;
  }

  lemma {:induction false} NoRowsYet(outbox: seq<OutboxRow>, id: nat)
    requires forall row :: row in outbox ==> row.request < id
    ensures RowCount(outbox, id) == 0
  {
    if outbox != [] {
      assert outbox[|outbox| - 1] in outbox;
      NoRowsYet(outbox[..|outbox| - 1], id);
    }
  }

  lemma {:induction false} StepKeepsNotices(db: Db, step: Step, hash: Hash, id: nat)
    requires Injective(hash) && id < |db.requests|
    ensures var after := Do(db, step, hash);
      id < |after.requests| && ExtraNotices(after, id) == ExtraNotices(db, id)
  {
    hide Apply, Inv;
    match step
    case StepCreate(request) =>
      CountSnoc(db.events, Event(|db.requests|, EvProposed), Event(id, EvApplied));
      RowCountSnoc(db.outbox, OutboxRow(|db.requests|, Pending), id);
      assert db.outbox + [] == db.outbox;
    case StepApply(a, stop) => ApplyKeepsNotices(db, a, stop, hash, id);
    case StepEdit(_, _) =>
    case StepSnapshot(_) =>
    case StepDeliver(row) => SameRowCount(db.outbox, Deliver(db.outbox, row), id);
  }

  lemma {:induction false} ApplyKeepsNotices(db: Db, a: ApplyArgs, stop: Stop, hash: Hash, id: nat)
    requires Injective(hash) && id < |db.requests|
    ensures var after := Apply(db, a, stop, hash).0;
      |after.requests| == |db.requests| && ExtraNotices(after, id) == ExtraNotices(db, id)
  {
    hide Apply, Proceeds, PlannedWrite;
    if Proceeds(db, a, hash) {
      PlannedFor(db, a, hash);
      ApplyLeavesTables(db, a, stop, hash);
      CountSnoc(db.events, Event(a.id, EvApplied), Event(id, EvApplied));
      RowCountSnoc(db.outbox, OutboxRow(a.id, Pending), id);
    } else {
      ApplyRefuses(db, a, stop, hash);
      CountSnoc(db.events, Event(a.id, EvOrphaned), Event(id, EvApplied));
      CountSnoc(db.events, Event(a.id, EvConflicted), Event(id, EvApplied));
    }
  }

  /** Over any run every `applied` event of a request brings one notification of its own, and nothing else does. */
  lemma {:induction false} OneNoticePerApplied(db: Db, steps: seq<Step>, hash: Hash, id: nat)
    requires Injective(hash) && id < |db.requests|
    ensures ExtraNotices(Run(db, steps, hash), id) == ExtraNotices(db, id)
    decreases |steps|
  {
    if steps != [] {
      StepKeepsNotices(db, steps[0], hash, id);
      OneNoticePerApplied(Do(db, steps[0], hash), steps[1..], hash, id);
    }
  }

  /** A relay that read row `k` and delivered it, whatever else happened before and after, leaves it
      delivered: a finished drain leaves none of the rows it read pending. */
  lemma {:induction false} DeliveredForGood(db: Db, steps: seq<Step>, k: nat, hash: Hash)
    requires Injective(hash)
    requires k < |db.outbox| && StepDeliver(k) in steps
    ensures var after := Run(db, steps, hash);
      && k < |after.outbox|
      && after.outbox[k] == OutboxRow(db.outbox[k].request, Delivered)
    decreases |steps|
  {
    var next := Do(db, steps[0], hash);
    StepGrows(db, steps[0], hash);
    if steps[0] == StepDeliver(k) {
      RunGrows(next, steps[1..], hash);
    } else {
      DeliveredForGood(next, steps[1..], k, hash);
    }
  }

  /** A step changes a file only when a person edits it or an apply call makes its one write. */
  lemma {:induction false} OnlyPeopleAndAppliesChangeFiles(db: Db, step: Step, hash: Hash)
    requires Do(db, step, hash).files != db.files
    ensures step.StepEdit?
            || (step.StepApply? && step.stop != BeforeCommit && Proceeds(db, step.args, hash))
  {
    match step
    case StepApply(a, stop) => RefusalLeavesFiles(db, a, stop, hash);
    case _ =>
  }

  /** The status of a request is not looked at: an addition without a quote goes through again after
      it was applied, whatever happened to its status, as long as the file is there. */
  lemma {:induction false} AdditionGoesThroughEveryTime(db: Db, a: ApplyArgs, hash: Hash)
    requires a.id < |db.requests| && db.requests[a.id].kind == Addition
    requires Or(a.quoteOverride, db.requests[a.id].targetQuote) == None
    ensures Proceeds(db, a, hash) <==> a.inTree && db.requests[a.id].goal in db.files
    ensures Proceeds(db, a, hash) ==> Proceeds(Apply(db, a, NoStop, hash).0, a, hash)
  {
    if Proceeds(db, a, hash) {
      ApplyProceeds(db, a, NoStop, hash);
    }
  }
}
