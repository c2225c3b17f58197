/** The in-flight slots of `render_common/job_runtime.py`. */
module JobSlots {
  import opened Text

  // The state is a bounded semaphore, a held flag per job, the single-flight registry and the reaper, as the job
  // threads of `render_job_service.py` use them, and the table of job rows the reaper goes by.  Each step is one
  // section that the locks make atomic, or one access to the table; steps of all threads interleave freely, and a
  // thread may die between any two of its steps.

  type Key = string

  /** Where a job's thread stands: `Acquired` is after the semaphore and before the mark. */
  datatype Phase = New | Acquired | Marked | Released | Dropped

  /** A job and its row; `freed` counts how often its slot went back to the semaphore. */
  datatype Job = Job(key: Key, row: nat, alive: bool, phase: Phase, held: bool, freed: nat)

  datatype RowStatus = StillRunning | Published | Fallback | Superseded | Failed | Flagged

  /** A job row; `known` when it has a time of its last sign of life that can be read. */
  datatype JobRow = JobRow(key: Key, status: RowStatus, known: bool)

  /** The reaper holds the registry lock from its liveness test until it drops the job. */
  datatype Reaper = Idle | Found(row: nat, key: Key, job: nat) | Freed(row: nat, key: Key, job: nat)

  /** `pending` are the rows that passes of the reaper under way have read and not yet visited, `marks` those they
      have visited and not yet marked failed. */
  datatype State = State(
    limit: nat,
    permits: int,
    jobs: seq<Job>,
    registry: map<Key, nat>,
    slotsHeld: set<Key>,
    reaper: Reaper,
    raised: bool,
    rows: seq<JobRow>,
    pending: multiset<nat>,
    marks: multiset<nat>)

  datatype Step =
    | Start(key: Key)
    | Acquire(job: nat)
    | Mark(job: nat)
    | Finalize(job: nat, status: RowStatus)
    | Release(job: nat)
    | Drop(job: nat)
    | Die(job: nat)
    | ReapRead(row: nat)
    | ReapFind(row: nat)
    | ReapFree
    | ReapDrop
    | ReapMark(row: nat)

  /** At the start of the server no job runs; the rows of earlier runs are there. */
  function Initial(limit: nat, rows: seq<JobRow>): State {
    State(limit, limit, [], map[], {}, Idle, false, rows, multiset{}, multiset{})
  }

  // ----- the atomic sections -----

  predicate LiveFor(s: State, key: Key) {
    key in s.registry && s.registry[key] < |s.jobs| && s.jobs[s.registry[key]].alive
  }

  /** `release_slot`: gives the slot back once; the bounded semaphore raises when it is already full. */
  function ReleaseSlot(s: State, j: nat): State
    requires j < |s.jobs|
  {
    var job := s.jobs[j];
    if !job.held then s
    else s.(jobs := s.jobs[j := job.(held := false, freed := job.freed + 1)],
            slotsHeld := s.slotsHeld - {job.key},
            permits := s.permits + 1,
            raised := s.raised || s.permits >= s.limit)
  }

  function WithPhase(s: State, j: nat, phase: Phase): State
    requires j < |s.jobs|
  {
    s.(jobs := s.jobs[j := s.jobs[j].(phase := phase)])
  }

  predicate Running(s: State, j: nat, phase: Phase) {
    j < |s.jobs| && s.jobs[j].alive && s.jobs[j].phase == phase
  }

  /** Whether a step can happen; the registry lock keeps `Start`, `Drop` and a second reaper out while the
      reaper holds it. */
  predicate Enabled(s: State, t: Step) {
    match t
    case Start(_) => s.reaper.Idle?
    case Acquire(j) => Running(s, j, New) && s.permits > 0
    case Mark(j) => Running(s, j, Acquired)
    case Finalize(j, status) => Running(s, j, Marked) && s.jobs[j].row < |s.rows| && !status.StillRunning?
    case Release(j) => Running(s, j, Marked)
    case Drop(j) => Running(s, j, Released) && s.reaper.Idle?
    case Die(j) => j < |s.jobs| && s.jobs[j].alive
    case ReapRead(r) => r < |s.rows| && Due(s.rows[r])
    case ReapFind(r) => r < |s.rows| && r in s.pending && s.reaper.Idle?
    case ReapFree => s.reaper.Found? && s.reaper.job < |s.jobs|
    case ReapDrop => s.reaper.Freed?
    case ReapMark(r) => r < |s.rows| && r in s.marks
  }

  /** A row a pass of the reaper reads, once it is old enough. */
  predicate Due(row: JobRow) {
    row.status.StillRunning? && row.known
  }

  function WithStatus(s: State, r: nat, status: RowStatus): State
    requires r < |s.rows|
  {
    s.(rows := s.rows[r := s.rows[r].(status := status)])
  }

  /** The steps that only touch the table of rows and the reaper's lists. */
  predicate TableStep(t: Step) {
    t.Finalize? || t.ReapRead? || t.ReapMark?
  }

  function TableNext(s: State, t: Step): State
    requires Enabled(s, t) && TableStep(t)
  {
    match t
    case Finalize(j, status) => WithStatus(s, s.jobs[j].row, status)
    case ReapRead(r) => s.(pending := s.pending + multiset{r})
    case ReapMark(r) => WithStatus(s, r, Failed).(marks := s.marks - multiset{r})
  }

  lemma {:induction false} TableFrame(s: State, t: Step)
    requires Enabled(s, t) && TableStep(t)
    ensures var n := TableNext(s, t);
      && n == s.(rows := n.rows, pending := n.pending, marks := n.marks) && |n.rows| == |s.rows|
      && forall r :: 0 <= r < |s.rows| ==> n.rows[r].key == s.rows[r].key && (Due(n.rows[r]) ==> Due(s.rows[r]))
  {
  }

  function Next(s: State, t: Step): State
    requires Enabled(s, t)
  {
    match t
    case Start(key) =>
      if LiveFor(s, key) then s
      else
        s.(jobs := s.jobs + [Job(key, |s.rows|, true, New, false, 0)], registry := s.registry[key := |s.jobs|],
           rows := s.rows + [JobRow(key, StillRunning, true)])
    case Acquire(j) => WithPhase(s, j, Acquired).(permits := s.permits - 1)
    case Mark(j) =>
      s.(jobs := s.jobs[j := s.jobs[j].(phase := Marked, held := true)], slotsHeld := s.slotsHeld + {s.jobs[j].key})
    case Finalize(_, _) => TableNext(s, t)
    case Release(j) => WithPhase(ReleaseSlot(s, j), j, Released)
    case Drop(j) =>
      var dropped := WithPhase(s, j, Dropped);
      var key := s.jobs[j].key;
      if key in s.registry && s.registry[key] == j then dropped.(registry := s.registry - {key}) else dropped
    case Die(j) => s.(jobs := s.jobs[j := s.jobs[j].(alive := false)])
    case ReapRead(_) => TableNext(s, t)
    case ReapFind(r) =>
      var key, visited := s.rows[r].key, s.(pending := s.pending - multiset{r});
      if LiveFor(s, key) then visited
      else if key !in s.registry then visited.(marks := s.marks + multiset{r})
      else visited.(reaper := Found(r, key, s.registry[key]))
    case ReapFree => ReleaseSlot(s, s.reaper.job).(reaper := Freed(s.reaper.row, s.reaper.key, s.reaper.job))
    case ReapDrop =>
      s.(registry := s.registry - {s.reaper.key}, reaper := Idle, marks := s.marks + multiset{s.reaper.row})
    case ReapMark(_) => TableNext(s, t)
  }

  // ----- the invariant -----

  function HeldCount(jobs: seq<Job>): nat {
    if jobs == [] then 0 else HeldCount(jobs[..|jobs| - 1]) + (if jobs[|jobs| - 1].held then 1 else 0)
  }

  /** Jobs between the semaphore and the mark. */
  function BetweenCount(jobs: seq<Job>): nat {
    if jobs == [] then 0 else BetweenCount(jobs[..|jobs| - 1]) + (if jobs[|jobs| - 1].phase == Acquired then 1 else 0)
  }

  /** The slot accounting of one job: it holds a slot only between mark and release, and a slot once marked is
      held or was given back, once. */
  predicate JobSane(job: Job) {
    && (job.held ==> job.phase == Marked)
    && job.freed + (if job.held then 1 else 0) == (if job.phase == New || job.phase == Acquired then 0 else 1)
    && (job.alive && job.phase == Marked ==> job.held)
  }

  ghost predicate Conserved(s: State) {
    s.permits >= 0 && s.permits + HeldCount(s.jobs) + BetweenCount(s.jobs) == s.limit && !s.raised
  }

  ghost predicate RegistrySane(s: State) {
    && (forall k :: k in s.registry ==> s.registry[k] < |s.jobs| && s.jobs[s.registry[k]].key == k)
    && (forall j :: 0 <= j < |s.jobs| && s.jobs[j].alive && s.jobs[j].phase != Dropped ==>
          s.jobs[j].key in s.registry && s.registry[s.jobs[j].key] == j)
  }

  /** What the reaper works on is dead and registered. */
  ghost predicate ReaperSane(s: State) {
    s.reaper.Idle? || (
      && s.reaper.key in s.registry && s.registry[s.reaper.key] == s.reaper.job
      && s.reaper.job < |s.jobs| && !s.jobs[s.reaper.job].alive
      && (s.reaper.Freed? ==> !s.jobs[s.reaper.job].held))
  }

  /** Every job has a row of its key. */
  ghost predicate RowsSane(s: State) {
    forall j :: 0 <= j < |s.jobs| ==> s.jobs[j].row < |s.rows| && s.rows[s.jobs[j].row].key == s.jobs[j].key
  }

  ghost predicate Inv(s: State) {
    && Conserved(s)
    && (forall j :: 0 <= j < |s.jobs| ==> JobSane(s.jobs[j]))
    && RegistrySane(s)
    && ReaperSane(s)
    && RowsSane(s)
  }

  lemma {:induction false} CountUpdate(jobs: seq<Job>, j: nat, job: Job)
    requires j < |jobs|
    ensures HeldCount(jobs[j := job]) == HeldCount(jobs) - (if jobs[j].held then 1 else 0) + (if job.held then 1 else 0)
    ensures BetweenCount(jobs[j := job])
      == BetweenCount(jobs) - (if jobs[j].phase == Acquired then 1 else 0) + (if job.phase == Acquired then 1 else 0)
  {
    var n := |jobs| - 1;
    if j == n {
      assert jobs[j := job][..n] == jobs[..n];
    } else {
      assert jobs[j := job][..n] == jobs[..n][j := job];
      CountUpdate(jobs[..n], j, job);
    }
  }

  lemma {:induction false} CountAppend(jobs: seq<Job>, job: Job)
    ensures HeldCount(jobs + [job]) == HeldCount(jobs) + (if job.held then 1 else 0)
    ensures BetweenCount(jobs + [job]) == BetweenCount(jobs) + (if job.phase == Acquired then 1 else 0)
  {
    assert (jobs + [job])[..|jobs|] == jobs;
  }

  lemma {:induction false} HeldCountHas(jobs: seq<Job>, j: nat)
    requires j < |jobs| && jobs[j].held
    ensures HeldCount(jobs) >= 1
  {
    if j < |jobs| - 1 { HeldCountHas(jobs[..|jobs| - 1], j); }
  }

  lemma {:induction false} ReleaseKeepsConserved(s: State, j: nat)
    requires Conserved(s) && j < |s.jobs| && JobSane(s.jobs[j])
    ensures Conserved(ReleaseSlot(s, j)) && |ReleaseSlot(s, j).jobs| == |s.jobs|
  {
    var job := s.jobs[j];
    if job.held {
      CountUpdate(s.jobs, j, job.(held := false, freed := job.freed + 1));
      HeldCountHas(s.jobs, j);
    }
  }

  lemma {:induction false} PhaseKeepsConserved(s: State, j: nat, phase: Phase)
    requires Conserved(s) && j < |s.jobs| && s.jobs[j].phase != Acquired && phase != Acquired
    ensures Conserved(WithPhase(s, j, phase))
  {
    CountUpdate(s.jobs, j, s.jobs[j].(phase := phase));
  }

  /** Permits, held slots and acquisitions under way add up to the limit after every step, and the semaphore is
      never released beyond its bound. */
  lemma {:induction false} StepConserves(s: State, t: Step)
    requires Inv(s) && Enabled(s, t)
    ensures Conserved(Next(s, t))
  {
    match t
    case Start(key) => CountAppend(s.jobs, Job(key, |s.rows|, true, New, false, 0));
    case Acquire(j) => CountUpdate(s.jobs, j, s.jobs[j].(phase := Acquired));
    case Mark(j) => CountUpdate(s.jobs, j, s.jobs[j].(phase := Marked, held := true));
    case Release(j) =>
      ReleaseKeepsConserved(s, j);
      PhaseKeepsConserved(ReleaseSlot(s, j), j, Released);
    case Drop(j) => PhaseKeepsConserved(s, j, Dropped);
    case Die(j) => CountUpdate(s.jobs, j, s.jobs[j].(alive := false));
    case ReapFree => ReleaseKeepsConserved(s, s.reaper.job);
    case _ =>
  }

  lemma {:induction false} StepKeepsJobs(s: State, t: Step)
    requires Inv(s) && Enabled(s, t)
    ensures forall j :: 0 <= j < |Next(s, t).jobs| ==> JobSane(Next(s, t).jobs[j])
  {
    hide Conserved, RegistrySane, RowsSane, TableNext;
    if TableStep(t) { TableFrame(s, t); }
  }

  /** A step that only moves one job on, without reviving or undropping it, keeps the registry right. */
  lemma {:induction false} MovedKeepsRegistry(s: State, s': State)
    requires RegistrySane(s) && s'.registry == s.registry && |s'.jobs| == |s.jobs|
    requires forall j :: 0 <= j < |s.jobs| ==>
      s'.jobs[j].key == s.jobs[j].key && (s'.jobs[j].alive ==> s.jobs[j].alive)
      && (s.jobs[j].phase == Dropped ==> s'.jobs[j].phase == Dropped)
    ensures RegistrySane(s')
  {
  }

  lemma {:induction false} StartKeepsRegistry(s: State, key: Key)
    requires Inv(s) && Enabled(s, Start(key))
    ensures RegistrySane(Next(s, Start(key)))
  {
    hide Conserved, JobSane, RowsSane;
  }

  lemma {:induction false} DropKeepsRegistry(s: State, j: nat)
    requires Inv(s) && Enabled(s, Drop(j))
    ensures RegistrySane(Next(s, Drop(j)))
  {
    hide Conserved, JobSane, RowsSane;
  }

  lemma {:induction false} ReapDropKeepsRegistry(s: State)
    requires Inv(s) && Enabled(s, ReapDrop)
    ensures RegistrySane(Next(s, ReapDrop))
  {
    hide Conserved, JobSane, RowsSane;
  }

  lemma {:induction false} StepKeepsRegistry(s: State, t: Step)
    requires Inv(s) && Enabled(s, t)
    ensures RegistrySane(Next(s, t))
  {
    hide Conserved, JobSane, RegistrySane, ReaperSane;
    match t
    case Start(key) => StartKeepsRegistry(s, key);
    case Drop(j) => DropKeepsRegistry(s, j);
    case ReapDrop => ReapDropKeepsRegistry(s);
    case _ =>
      StepMoves(s, t);
      MovedKeepsRegistry(s, Next(s, t));
  }

  lemma {:induction false} StepMoves(s: State, t: Step)
    requires Inv(s) && Enabled(s, t) && !t.Start? && !t.Drop? && !t.ReapDrop?
    ensures var s' := Next(s, t);
      && s'.registry == s.registry && |s'.jobs| == |s.jobs|
      && forall j :: 0 <= j < |s.jobs| ==>
           s'.jobs[j].key == s.jobs[j].key && (s'.jobs[j].alive ==> s.jobs[j].alive)
           && (s.jobs[j].phase == Dropped ==> s'.jobs[j].phase == Dropped)
  {
    hide Conserved, JobSane, RegistrySane, RowsSane, TableNext, ReleaseSlot;
    if TableStep(t) { TableFrame(s, t); }
    if t.ReapFree? { ReleaseFrame(s, s.reaper.job); }
    if t.Release? { ReleaseFrame(s, t.job); }
  }

  lemma {:induction false} StepKeepsReaper(s: State, t: Step)
    requires Inv(s) && Enabled(s, t)
    ensures ReaperSane(Next(s, t))
  {
    hide Conserved, JobSane, RowsSane, TableNext;
    if TableStep(t) { TableFrame(s, t); }
  }

  lemma {:induction false} StepKeepsRows(s: State, t: Step)
    requires Inv(s) && Enabled(s, t)
    ensures RowsSane(Next(s, t))
  {
    hide Conserved, JobSane, RegistrySane, ReaperSane, TableNext, ReleaseSlot;
    if TableStep(t) { TableFrame(s, t); }
    if t.ReapFree? { ReleaseFrame(s, s.reaper.job); }
    if t.Release? { ReleaseFrame(s, t.job); }
  }

  lemma {:induction false} StepKeepsInv(s: State, t: Step)
    requires Inv(s) && Enabled(s, t)
    ensures Inv(Next(s, t))
  {
    hide Conserved, JobSane, RegistrySane, ReaperSane, RowsSane, Next, Enabled;
    StepKeepsRows(s, t);
    StepConserves(s, t);
    StepKeepsJobs(s, t);
    StepKeepsRegistry(s, t);
    StepKeepsReaper(s, t);
  }

  // ----- runs -----

  /** A run: steps that are not enabled do not happen. */
  function Run(s: State, steps: seq<Step>): State
    decreases |steps|
  {
    if steps == [] then s
    else Run(if Enabled(s, steps[0]) then Next(s, steps[0]) else s, steps[1..])
  }

  lemma {:induction false} RunKeepsInv(s: State, steps: seq<Step>)
    requires Inv(s)
    ensures Inv(Run(s, steps))
    decreases |steps|
  {
    hide Inv, Next, Enabled;
    if steps != [] {
      if Enabled(s, steps[0]) { StepKeepsInv(s, steps[0]); }
      RunKeepsInv(if Enabled(s, steps[0]) then Next(s, steps[0]) else s, steps[1..]);
    }
  }

  /** In every interleaving: the books balance, no more jobs hold slots than the limit, the semaphore is never
      over-released, no slot is given back twice, and no two live jobs run for one key. */
  lemma {:induction false} EveryRunIsSafe(limit: nat, rows: seq<JobRow>, steps: seq<Step>)
    ensures var s := Run(Initial(limit, rows), steps);
      && Conserved(s) && HeldCount(s.jobs) <= s.limit && !s.raised
      && (forall j :: 0 <= j < |s.jobs| ==> s.jobs[j].freed <= 1)
      && SingleFlight(s)
  {
    InitialIsInv(limit, rows);
    RunKeepsInv(Initial(limit, rows), steps);
    InvMeansSafe(Run(Initial(limit, rows), steps));
  }

  ghost predicate SingleFlight(s: State) {
    forall i, j :: 0 <= i < j < |s.jobs| && s.jobs[i].alive && s.jobs[j].alive && s.jobs[i].key == s.jobs[j].key
      ==> s.jobs[i].phase == Dropped || s.jobs[j].phase == Dropped
  }

  lemma {:induction false} InvMeansSafe(s: State)
    requires Inv(s)
    ensures HeldCount(s.jobs) <= s.limit && (forall j :: 0 <= j < |s.jobs| ==> s.jobs[j].freed <= 1) && SingleFlight(s)
  {
  }

  lemma {:induction false} InitialIsInv(limit: nat, rows: seq<JobRow>)
    ensures Inv(Initial(limit, rows))
  {
  }

  predicate IsReap(t: Step) {
    t.ReapRead? || t.ReapFind? || t.ReapFree? || t.ReapDrop? || t.ReapMark?
  }

  predicate Registered(s: State, j: nat) {
    j < |s.jobs| && s.jobs[j].key in s.registry && s.registry[s.jobs[j].key] == j
  }

  /** The reaper never takes a slot from a live thread, nor unregisters one. */
  lemma {:induction false} LiveIsNeverReaped(s: State, t: Step, j: nat)
    requires Inv(s) && Enabled(s, t) && IsReap(t) && j < |s.jobs| && s.jobs[j].alive
    ensures Next(s, t).jobs[j] == s.jobs[j]
    ensures Registered(s, j) ==> Registered(Next(s, t), j)
  {
    hide Conserved, JobSane, RowsSane, TableNext;
    if TableStep(t) { TableFrame(s, t); }
  }

  // ----- leaked permits -----

  /** The job took a permit from the semaphore and has not given it back. */
  predicate HasPermit(job: Job) {
    job.held || job.phase == Acquired
  }

  /** The reaper is about to free the job's slot. */
  predicate Underway(s: State, j: nat) {
    s.reaper.Found? && s.reaper.job == j
  }

  /** The row brings the reaper to the key: it is running with a known age, or a pass under way has read it. */
  predicate Leads(s: State, r: nat, key: Key) {
    r < |s.rows| && s.rows[r].key == key && (Due(s.rows[r]) || r in s.pending)
  }

  ghost predicate Visited(s: State, key: Key) {
    exists r: nat :: Leads(s, r, key)
  }

  /** What it takes for a dead job's permit to come back: the slot was marked held, the job is registered, and a row
      brings the reaper to its key, unless the reaper is there already. */
  ghost predicate Recoverable(s: State, j: nat)
    requires j < |s.jobs|
  {
    s.jobs[j].held && (Underway(s, j) || (Registered(s, j) && Visited(s, s.jobs[j].key)))
  }

  /** A dead job holds a permit that cannot come back. */
  ghost predicate Leaked(s: State, j: nat) {
    j < |s.jobs| && !s.jobs[j].alive && HasPermit(s.jobs[j]) && !Recoverable(s, j)
  }

  ghost predicate NoLeak(s: State) {
    forall j: nat :: !Leaked(s, j)
  }

  /** Rows keep their key, and only a new job brings in another running one. */
  lemma {:induction false} NoNewLead(s: State, t: Step, r: nat, key: Key)
    requires Enabled(s, t) && t != Start(key) && Leads(Next(s, t), r, key)
    ensures Leads(s, r, key)
  {
    hide ReleaseSlot, TableNext, Due;
    if TableStep(t) {
      NoNewTableLead(s, t, r, key);
    } else {
      if t.ReapFree? { ReleaseFrame(s, s.reaper.job); }
      if t.Release? { ReleaseFrame(s, t.job); }
    }
  }

  lemma {:induction false} NoNewTableLead(s: State, t: Step, r: nat, key: Key)
    requires Enabled(s, t) && TableStep(t) && Leads(TableNext(s, t), r, key)
    ensures Leads(s, r, key)
  {
  }

  lemma {:induction false} NoNewVisits(s: State, t: Step, key: Key)
    requires Enabled(s, t) && !Visited(s, key) && t != Start(key)
    ensures !Visited(Next(s, t), key)
  {
    hide Enabled, Next, Leads;
    forall r: nat | Leads(Next(s, t), r, key) ensures Leads(s, r, key) { NoNewLead(s, t, r, key); }
  }

  /** A dead job changes only when the reaper frees its slot. */
  lemma {:induction false} DeadStaysPut(s: State, t: Step, j: nat)
    requires Inv(s) && Enabled(s, t) && j < |s.jobs| && !s.jobs[j].alive
    requires !(t.ReapFree? && Underway(s, j) && s.jobs[j].held)
    ensures j < |Next(s, t).jobs| && Next(s, t).jobs[j] == s.jobs[j]
  {
    hide Conserved, JobSane, RegistrySane, RowsSane;
  }

  lemma {:induction false} UnregisteredStays(s: State, t: Step, j: nat)
    requires Inv(s) && Enabled(s, t) && j < |s.jobs| && !s.jobs[j].alive && !Registered(s, j)
    ensures !Registered(Next(s, t), j) && !Underway(Next(s, t), j)
  {
    hide Conserved, JobSane, RowsSane, TableNext, ReleaseSlot;
    if TableStep(t) { TableFrame(s, t); }
    if t.ReapFree? { ReleaseFrame(s, s.reaper.job); }
    if t.Release? { ReleaseFrame(s, t.job); }
  }

  /** The reaper comes to a job only by a row of its key. */
  lemma {:induction false} ReachedByRow(s: State, t: Step, j: nat)
    requires Inv(s) && Enabled(s, t) && j < |s.jobs| && !Underway(s, j) && !Visited(s, s.jobs[j].key)
    ensures !Underway(Next(s, t), j)
  {
    hide Conserved, JobSane, RowsSane;
    if t.ReapFind? { assert Leads(s, t.row, s.rows[t.row].key); }
  }

  lemma {:induction false} ReplacedIsUnregistered(s: State, t: Step, j: nat)
    requires Inv(s) && Enabled(s, t) && j < |s.jobs| && !s.jobs[j].alive && t == Start(s.jobs[j].key)
    ensures !Registered(Next(s, t), j) && !Underway(Next(s, t), j)
  {
    hide Conserved, JobSane, RowsSane;
  }

  /** A leaked permit stays leaked: no step of any thread or of the reaper gives it back. */
  lemma {:induction false} LeakStays(s: State, t: Step, j: nat)
    requires Inv(s) && Enabled(s, t) && Leaked(s, j)
    ensures Leaked(Next(s, t), j)
  {
    hide Inv, Next, Enabled, Visited, Registered, Underway;
    DeadStaysPut(s, t, j);
    if !Registered(s, j) {
      UnregisteredStays(s, t, j);
    } else if t == Start(s.jobs[j].key) {
      ReplacedIsUnregistered(s, t, j);
    } else if s.jobs[j].held {
      NoNewVisits(s, t, s.jobs[j].key);
      ReachedByRow(s, t, j);
    }
  }

  lemma {:induction false} LeakStaysForever(s: State, steps: seq<Step>, j: nat)
    requires Inv(s) && Leaked(s, j)
    ensures Leaked(Run(s, steps), j)
    decreases |steps|
  {
    hide Inv, Next, Enabled, Leaked;
    if steps != [] {
      var t := steps[0];
      if Enabled(s, t) {
        LeakStays(s, t, j);
        StepKeepsInv(s, t);
      }
      LeakStaysForever(if Enabled(s, t) then Next(s, t) else s, steps[1..], j);
    }
  }

  lemma {:induction false} RunOne(s: State, t: Step, rest: seq<Step>)
    requires Enabled(s, t)
    ensures Run(s, [t] + rest) == Run(Next(s, t), rest)
  {
    assert ([t] + rest)[1..] == rest;
  }

  lemma {:induction false} RunNothing(s: State)
    ensures Run(s, []) == s
  {
  }

  lemma {:induction false} RunTwo(s: State, t: Step, u: Step)
    requires Enabled(s, t) && Enabled(Next(s, t), u)
    ensures Run(s, [t, u]) == Next(Next(s, t), u)
  {
    hide Next, Enabled;
    RunOne(s, t, [u]);
    RunOne(Next(s, t), u, []);
    RunNothing(Next(Next(s, t), u));
    assert [t] + [u] == [t, u];
  }

  lemma {:induction false} RunAppend(s: State, a: seq<Step>, b: seq<Step>)
    ensures Run(s, a + b) == Run(Run(s, a), b)
    decreases |a|
  {
    hide Next, Enabled;
    if a == [] {
      assert a + b == b;
    } else {
      assert (a + b)[1..] == a[1..] + b;
      RunAppend(if Enabled(s, a[0]) then Next(s, a[0]) else s, a[1..], b);
    }
  }

  /** A reaper at work can always finish with the job it is at. */
  lemma {:induction false} ReaperFinishes(s: State, j: nat) returns (steps: seq<Step>)
    requires Inv(s) && j < |s.jobs| && !Underway(s, j) && Registered(s, j) && s.jobs[j].held
    ensures var e := Run(s, steps);
      && Inv(e) && e.reaper.Idle? && j < |e.jobs| && e.jobs[j] == s.jobs[j] && Registered(e, j)
      && e.rows == s.rows && e.pending == s.pending
  {
    hide Conserved, JobSane, RowsSane, ReleaseSlot;
    if s.reaper.Found? { ReleaseFrame(s, s.reaper.job); }
    if s.reaper.Idle? {
      steps := [];
    } else if s.reaper.Found? {
      steps := [ReapFree, ReapDrop];
      RunTwo(s, ReapFree, ReapDrop);
    } else {
      steps := [ReapDrop];
      RunOne(s, ReapDrop, []);
    }
    RunKeepsInv(s, steps);
  }

  /** A row that leads to the key of a registered dead holder brings its permit back, by one visit. */
  lemma {:induction false} ReapFreesSlot(s: State, j: nat, r: nat) returns (steps: seq<Step>)
    requires Inv(s) && s.reaper.Idle? && Registered(s, j) && s.jobs[j].held && !s.jobs[j].alive
    requires Leads(s, r, s.jobs[j].key)
    ensures var e := Run(s, steps);
      && |e.jobs| == |s.jobs| && e.permits == s.permits + 1 && !e.jobs[j].held && e.jobs[j].freed == 1
  {
    hide Inv, Next, Enabled;
    ReadIsPending(s, r, s.jobs[j].key);
    var a := if r in s.pending then s else Next(s, ReapRead(r));
    if r !in s.pending { StepKeepsInv(s, ReapRead(r)); }
    FindThenFree(a, r, j);
    RunTwo(a, ReapFind(r), ReapFree);
    if r in s.pending {
      steps := [ReapFind(r), ReapFree];
    } else {
      steps := [ReapRead(r)] + [ReapFind(r), ReapFree];
      RunOne(s, ReapRead(r), [ReapFind(r), ReapFree]);
    }
  }

  lemma {:induction false} ReadIsPending(s: State, r: nat, key: Key)
    requires Leads(s, r, key)
    ensures r !in s.pending ==>
      Enabled(s, ReapRead(r)) && Next(s, ReapRead(r)) == s.(pending := s.pending + multiset{r})
  {
  }

  lemma {:induction false} FindThenFree(s: State, r: nat, j: nat)
    requires Inv(s) && s.reaper.Idle? && r < |s.rows| && r in s.pending
    requires Registered(s, j) && s.jobs[j].held && !s.jobs[j].alive && s.rows[r].key == s.jobs[j].key
    ensures Enabled(s, ReapFind(r)) && Enabled(Next(s, ReapFind(r)), ReapFree)
    ensures var e := Next(Next(s, ReapFind(r)), ReapFree);
      && |e.jobs| == |s.jobs| && e.permits == s.permits + 1 && !e.jobs[j].held && e.jobs[j].freed == 1
  {
    hide Conserved, RegistrySane, ReaperSane, RowsSane;
  }

  /** The permit of a dead job can come back exactly when its slot was marked held, it is still registered, and a
      running row of known age, or one a pass has read already, brings the reaper to its key. */
  lemma {:induction false} RecoverableIff(s: State, j: nat)
    requires Inv(s) && j < |s.jobs| && !s.jobs[j].alive && HasPermit(s.jobs[j])
    ensures (exists steps :: j < |Run(s, steps).jobs| && !HasPermit(Run(s, steps).jobs[j])) <==> Recoverable(s, j)
  {
    hide Inv, Run, Visited, Registered, Next;
    if Recoverable(s, j) {
      var steps := Recovers(s, j);
      assert j < |Run(s, steps).jobs| && !HasPermit(Run(s, steps).jobs[j]);
    } else {
      forall steps | j < |Run(s, steps).jobs| ensures HasPermit(Run(s, steps).jobs[j]) {
        LeakStaysForever(s, steps, j);
      }
    }
  }

  lemma {:induction false} Recovers(s: State, j: nat) returns (steps: seq<Step>)
    requires Inv(s) && j < |s.jobs| && !s.jobs[j].alive && Recoverable(s, j)
    ensures j < |Run(s, steps).jobs| && !HasPermit(Run(s, steps).jobs[j])
  {
    hide Run, Conserved;
    if Underway(s, j) {
      steps := [ReapFree];
      RunOne(s, ReapFree, []);
      RunNothing(Next(s, ReapFree));
      assert [ReapFree] + [] == [ReapFree];
    } else {
      var first := ReaperFinishes(s, j);
      var e := Run(s, first);
      var r: nat :| Leads(s, r, s.jobs[j].key);
      assert Leads(e, r, e.jobs[j].key);
      var rest := ReapFreesSlot(e, j, r);
      steps := first + rest;
      RunAppend(s, first, rest);
      RunKeepsInv(e, rest);
      FreedIsMarked(Run(e, rest), j);
    }
  }

  lemma {:induction false} FreedIsMarked(s: State, j: nat)
    requires Inv(s) && j < |s.jobs| && !s.jobs[j].held && s.jobs[j].freed == 1
    ensures !HasPermit(s.jobs[j])
  {
  }

  // ----- what leaks a permit -----

  /** Starting a job for a key whose registered job died holding a slot: the old state is overwritten. */
  predicate Replaces(s: State, t: Step) {
    && t.Start? && !LiveFor(s, t.key) && t.key in s.registry
    && s.registry[t.key] < |s.jobs| && s.jobs[s.registry[t.key]].held
  }

  /** The row is the only one left that brings the reaper to its key. */
  ghost predicate OnlyLead(s: State, r: nat)
    requires r < |s.rows|
  {
    r !in s.pending && forall q: nat :: Leads(s, q, s.rows[r].key) ==> q == r
  }

  /** A dead job that is registered and holds a slot, the reaper not being at it. */
  predicate Waits(s: State, j: nat, key: Key) {
    j < |s.jobs| && !s.jobs[j].alive && s.jobs[j].held && s.jobs[j].key == key && Registered(s, j) && !Underway(s, j)
  }

  /** The step loses a permit: a thread dies before it marked its slot, or with no running row left that brings the
      reaper to its key; or a dead holder is replaced; or the last row that led to one is marked failed. */
  ghost predicate Loses(s: State, t: Step)
    requires Enabled(s, t)
  {
    match t
    case Die(j) => HasPermit(s.jobs[j]) && !(s.jobs[j].held && Visited(s, s.jobs[j].key))
    case Start(_) => Replaces(s, t)
    case ReapMark(r) => OnlyLead(s, r) && exists j: nat :: Waits(s, j, s.rows[r].key)
    case _ => false
  }

  lemma {:induction false} LossLeaks(s: State, t: Step)
    requires Inv(s) && Enabled(s, t) && Loses(s, t)
    ensures !NoLeak(Next(s, t))
  {
    hide Conserved;
    var n := Next(s, t);
    match t
    case Die(j) =>
      if s.jobs[j].held { NoNewVisits(s, t, s.jobs[j].key); }
      assert Leaked(n, j);
    case Start(key) =>
      ReplacedIsUnregistered(s, t, s.registry[key]);
      assert Leaked(n, s.registry[key]);
    case ReapMark(r) =>
      var j: nat :| Waits(s, j, s.rows[r].key);
      MarkedLeadsNowhere(s, r);
      assert Leaked(n, j);
    case _ =>
  }

  lemma {:induction false} MarkedLeadsNowhere(s: State, r: nat)
    requires Enabled(s, ReapMark(r)) && OnlyLead(s, r)
    ensures !Visited(Next(s, ReapMark(r)), s.rows[r].key)
  {
    var key := s.rows[r].key;
    forall q: nat ensures !Leads(Next(s, ReapMark(r)), q, key) {
      if Leads(s, q, key) { assert q == r; }
    }
  }

  /** A row goes on leading to a key unless it is finished with, or visited. */
  lemma {:induction false} LeadStays(s: State, t: Step, r: nat, key: Key)
    requires Inv(s) && Enabled(s, t) && Leads(s, r, key)
    ensures Leads(Next(s, t), r, key)
            || (t.Finalize? && s.jobs[t.job].row == r) || (t.ReapMark? && t.row == r) || (t.ReapFind? && t.row == r)
  {
    hide Inv, ReleaseSlot, TableNext, Due;
    if TableStep(t) {
      TableLeadStays(s, t, r, key);
    } else {
      ReaperAtJob(s);
      if t.ReapFree? { ReleaseFrame(s, s.reaper.job); }
      if t.Release? { ReleaseFrame(s, t.job); }
    }
  }

  lemma {:induction false} ReaperAtJob(s: State)
    requires Inv(s)
    ensures !s.reaper.Idle? ==> s.reaper.job < |s.jobs|
  {
  }

  lemma {:induction false} TableLeadStays(s: State, t: Step, r: nat, key: Key)
    requires Enabled(s, t) && TableStep(t) && Leads(s, r, key)
    ensures Leads(TableNext(s, t), r, key) || (t.Finalize? && s.jobs[t.job].row == r) || (t.ReapMark? && t.row == r)
  {
  }

  /** While a dead holder waits, a step that loses nothing leaves it a row that leads to it, or brings the reaper. */
  lemma {:induction false} VisitStays(s: State, t: Step, j: nat)
    requires Inv(s) && Enabled(s, t) && !Loses(s, t)
    requires j < |s.jobs| && Waits(s, j, s.jobs[j].key) && Visited(s, s.jobs[j].key)
    ensures Underway(Next(s, t), j) || Visited(Next(s, t), s.jobs[j].key)
  {
    hide Inv, Leads, Waits, Next;
    var key := s.jobs[j].key;
    var r: nat :| Leads(s, r, key);
    LeadStays(s, t, r, key);
    LeadsToKey(s, r, key);
    if t.ReapMark? && t.row == r {
      if r in s.pending {
        MarkKeepsPending(s, r, key);
      } else {
        assert Waits(s, j, s.rows[r].key);
        var q: nat :| Leads(s, q, key) && q != r;
        LeadStays(s, t, q, key);
      }
    } else if t.ReapFind? && t.row == r {
      FindReaches(s, r, j);
    } else if t.Finalize? && s.jobs[t.job].row == r {
      FinalizedIsElsewhere(s, t, j);
    }
  }

  lemma {:induction false} MarkKeepsPending(s: State, r: nat, key: Key)
    requires Enabled(s, ReapMark(r)) && s.rows[r].key == key && r in s.pending
    ensures Leads(Next(s, ReapMark(r)), r, key)
  {
  }

  lemma {:induction false} FindReaches(s: State, r: nat, j: nat)
    requires Inv(s) && Enabled(s, ReapFind(r)) && Waits(s, j, s.rows[r].key)
    ensures Underway(Next(s, ReapFind(r)), j)
  {
    hide Conserved, JobSane, RowsSane;
  }

  /** A job that finalizes its row is registered itself, so no dead holder of its key is. */
  lemma {:induction false} FinalizedIsElsewhere(s: State, t: Step, j: nat)
    requires Inv(s) && Enabled(s, t) && t.Finalize? && j < |s.jobs| && Waits(s, j, s.jobs[j].key)
    ensures s.rows[s.jobs[t.job].row].key != s.jobs[j].key
  {
    hide Conserved, JobSane;
  }

  lemma {:induction false} LeadsToKey(s: State, r: nat, key: Key)
    requires Leads(s, r, key)
    ensures r < |s.rows| && s.rows[r].key == key
  {
  }

  lemma {:induction false} RegistrationStays(s: State, t: Step, j: nat)
    requires Inv(s) && Enabled(s, t) && j < |s.jobs| && Waits(s, j, s.jobs[j].key) && !Replaces(s, t)
    ensures Registered(Next(s, t), j)
  {
    HolderKeepsKey(s, t, j);
  }

  lemma {:induction false} UnderwayStays(s: State, t: Step, j: nat)
    requires Inv(s) && Enabled(s, t) && j < |s.jobs| && !s.jobs[j].alive && s.jobs[j].held && Underway(s, j)
    ensures j < |Next(s, t).jobs|
    ensures if Underway(Next(s, t), j) then Next(s, t).jobs[j] == s.jobs[j] else !HasPermit(Next(s, t).jobs[j])
  {
    hide Conserved, RegistrySane;
  }

  lemma {:induction false} NoLossNoLeak(s: State, t: Step, j: nat)
    requires Inv(s) && Enabled(s, t) && NoLeak(s) && !Loses(s, t)
    ensures !Leaked(Next(s, t), j)
  {
    hide Inv, Enabled, Next, Visited, LiveFor, Waits;
    var n := Next(s, t);
    if j < |n.jobs| && !n.jobs[j].alive && HasPermit(n.jobs[j]) {
      NewlyDead(s, t, j);
      if s.jobs[j].alive {
        DyingIsRegistered(s, j);
      } else {
        assert !Leaked(s, j);
        if Underway(s, j) {
          UnderwayStays(s, t, j);
        } else {
          DeadStaysPut(s, t, j);
          WaitsHere(s, j);
          RegistrationStays(s, t, j);
          VisitStays(s, t, j);
        }
      }
    }
  }

  lemma {:induction false} WaitsHere(s: State, j: nat)
    requires j < |s.jobs| && !s.jobs[j].alive && s.jobs[j].held && Registered(s, j) && !Underway(s, j)
    ensures Waits(s, j, s.jobs[j].key)
  {
  }

  /** A job that is dead and has a permit after a step was dead with one before, or dies in this step. */
  lemma {:induction false} NewlyDead(s: State, t: Step, j: nat)
    requires Inv(s) && Enabled(s, t) && j < |Next(s, t).jobs|
    requires !Next(s, t).jobs[j].alive && HasPermit(Next(s, t).jobs[j])
    ensures j < |s.jobs| && HasPermit(s.jobs[j]) && (s.jobs[j].alive ==> t == Die(j))
  {
    hide Conserved, RegistrySane, RowsSane, TableNext;
    if TableStep(t) { TableFrame(s, t); }
  }

  lemma {:induction false} DyingIsRegistered(s: State, j: nat)
    requires Inv(s) && Enabled(s, Die(j)) && s.jobs[j].held && Visited(s, s.jobs[j].key)
    ensures Recoverable(Next(s, Die(j)), j)
  {
    hide Conserved;
    var key := s.jobs[j].key;
    var r: nat :| Leads(s, r, key);
    assert Leads(Next(s, Die(j)), r, key);
  }

  /** Exactly these steps leak a permit. */
  lemma {:induction false} LeaksExactly(s: State, t: Step)
    requires Inv(s) && Enabled(s, t) && NoLeak(s)
    ensures NoLeak(Next(s, t)) <==> !Loses(s, t)
  {
    hide Inv, Enabled, Next, Leaked, Loses;
    if Loses(s, t) {
      LossLeaks(s, t);
    } else {
      forall j: nat ensures !Leaked(Next(s, t), j) { NoLossNoLeak(s, t, j); }
    }
  }

  lemma {:induction false} NothingLeaksAtFirst(limit: nat, rows: seq<JobRow>)
    ensures NoLeak(Initial(limit, rows))
  {
  }

  /** A job whose row says it is done, and whose thread dies before it gives its slot back: the job is registered, but
      no row brings the reaper to it. */
  lemma {:induction false} TerminalRowLeaks()
    ensures var s := Run(Initial(1, []), [Start("k"), Acquire(0), Mark(0), Finalize(0, Published), Die(0)]);
      Leaked(s, 0) && Registered(s, 0) && s.jobs[0].held && s.permits == 0
  {
    hide Run, HasPermit;
    var first, rest := [Start("k"), Acquire(0), Mark(0)], [Finalize(0, Published), Die(0)];
    HolderRun();
    RunAppend(Initial(1, []), first, rest);
    assert first + rest == [Start("k"), Acquire(0), Mark(0), Finalize(0, Published), Die(0)];
    RunTwo(Holder(), Finalize(0, Published), Die(0));
    var s := Next(Next(Holder(), Finalize(0, Published)), Die(0));
    assert s.rows == [JobRow("k", Published, true)];
    assert forall r: nat :: !Leads(s, r, "k");
    assert s.jobs == [Job("k", 0, false, Marked, true, 0)];
    HeldHasPermit(s.jobs[0]);
  }

  lemma {:induction false} HeldHasPermit(job: Job)
    ensures job.held ==> HasPermit(job)
  {
  }

  /** One job, which has just marked the only slot. */
  function Holder(): State {
    State(1, 0, [Job("k", 0, true, Marked, true, 0)], map["k" := 0], {"k"}, Idle, false,
          [JobRow("k", StillRunning, true)], multiset{}, multiset{})
  }

  lemma {:induction false} HolderRun()
    ensures Run(Initial(1, []), [Start("k"), Acquire(0), Mark(0)]) == Holder()
  {
    hide Run;
    var s0 := Initial(1, []);
    var s1 := Next(s0, Start("k"));
    assert s1.jobs == [Job("k", 0, true, New, false, 0)] && s1.rows == [JobRow("k", StillRunning, true)];
    var s2 := Next(s1, Acquire(0));
    assert s2.jobs == [Job("k", 0, true, Acquired, false, 0)];
    RunTwo(s0, Start("k"), Acquire(0));
    RunAppend(s0, [Start("k"), Acquire(0)], [Mark(0)]);
    assert [Start("k"), Acquire(0)] + [Mark(0)] == [Start("k"), Acquire(0), Mark(0)];
    RunOne(s2, Mark(0), []);
    RunNothing(Next(s2, Mark(0)));
    assert [Mark(0)] + [] == [Mark(0)];
    assert Next(s2, Mark(0)).jobs == Holder().jobs;
  }

  /** A thread that dies between the semaphore and the mark takes its permit with it. */
  lemma {:induction false} DeathBeforeMarkLeaks()
    ensures var s := Run(Initial(1, []), [Start("k"), Acquire(0), Die(0)]);
      Leaked(s, 0) && Registered(s, 0) && Visited(s, "k") && s.permits == 0
  {
    var s0 := Initial(1, []);
    var s1 := Next(s0, Start("k"));
    var s2 := Next(s1, Acquire(0));
    var s3 := Next(s2, Die(0));
    RunOne(s2, Die(0), []);
    RunOne(s1, Acquire(0), [Die(0)]);
    RunOne(s0, Start("k"), [Acquire(0), Die(0)]);
    RunNothing(s3);
    assert Leads(s3, 0, "k");
  }

  /** A run that leaks the only slot: the thread dies holding it and the key is requested again before the reaper
      has come by. */
  lemma {:induction false} ReplacingLeaks()
    ensures var s := Run(Initial(1, []), [Start("k"), Acquire(0), Mark(0), Die(0), Start("k")]);
      Leaked(s, 0) && !Registered(s, 0) && s.permits == 0
  {
    hide Run, HasPermit;
    var first, rest := [Start("k"), Acquire(0), Mark(0)], [Die(0), Start("k")];
    HolderRun();
    RunAppend(Initial(1, []), first, rest);
    assert first + rest == [Start("k"), Acquire(0), Mark(0), Die(0), Start("k")];
    RunTwo(Holder(), Die(0), Start("k"));
    var s := Next(Next(Holder(), Die(0)), Start("k"));
    assert s.jobs == [Job("k", 0, false, Marked, true, 0), Job("k", 1, true, New, false, 0)];
    HeldHasPermit(s.jobs[0]);
  }

  // ----- unregistered holders -----

  ghost predicate NoOrphans(s: State) {
    forall j :: 0 <= j < |s.jobs| && s.jobs[j].held ==> Registered(s, j)
  }

  /** Slots are orphaned by replacing a dead holder, and by nothing else. */
  lemma {:induction false} OrphansComeFromReplacing(s: State, t: Step)
    requires Inv(s) && Enabled(s, t) && NoOrphans(s)
    ensures NoOrphans(Next(s, t)) <==> !Replaces(s, t)
  {
    hide Conserved;
    if Replaces(s, t) {
      var j := s.registry[t.key];
      assert Next(s, t).jobs[j] == s.jobs[j] && !Registered(Next(s, t), j);
    } else {
      forall j | 0 <= j < |Next(s, t).jobs| && Next(s, t).jobs[j].held ensures Registered(Next(s, t), j) {
        HolderStaysRegistered(s, t, j);
      }
    }
  }

  lemma {:induction false} HolderStaysRegistered(s: State, t: Step, j: nat)
    requires Inv(s) && Enabled(s, t) && NoOrphans(s) && !Replaces(s, t)
    requires j < |Next(s, t).jobs| && Next(s, t).jobs[j].held
    ensures Registered(Next(s, t), j)
  {
    hide Inv, Next, Enabled, Registered, Replaces;
    HeldBefore(s, t, j);
    HolderKeepsKey(s, t, j);
  }

  lemma {:induction false} HeldBefore(s: State, t: Step, j: nat)
    requires Inv(s) && Enabled(s, t) && j < |Next(s, t).jobs| && Next(s, t).jobs[j].held
    ensures j < |s.jobs| && (s.jobs[j].held || (t == Mark(j) && Registered(s, j)))
  {
    hide Conserved, RowsSane, TableNext, ReleaseSlot;
    if TableStep(t) { TableFrame(s, t); }
    if t.ReapFree? { ReleaseFrame(s, s.reaper.job); }
    if t.Release? { ReleaseFrame(s, t.job); }
  }

  lemma {:induction false} HolderKeepsKey(s: State, t: Step, j: nat)
    requires Inv(s) && Enabled(s, t) && !Replaces(s, t)
    requires j < |s.jobs| && Registered(s, j) && (s.jobs[j].held || t == Mark(j))
    ensures Registered(Next(s, t), j)
  {
    hide Conserved, RowsSane, TableNext, ReleaseSlot;
    if TableStep(t) { TableFrame(s, t); }
    if t.ReapFree? { ReleaseFrame(s, s.reaper.job); }
    if t.Release? { ReleaseFrame(s, t.job); }
  }

  // ----- the set of keys that hold a slot -----

  /** `slots_held` lists the keys of the jobs that hold a slot. */
  ghost predicate ListsHolders(s: State) {
    forall k :: k in s.slotsHeld <==> exists j :: 0 <= j < |s.jobs| && s.jobs[j].held && s.jobs[j].key == k
  }

  /** As long as no dead holder is replaced, the listing is right after every step. */
  lemma {:induction false} StepKeepsListing(s: State, t: Step)
    requires Inv(s) && Enabled(s, t) && NoOrphans(s) && ListsHolders(s)
    ensures ListsHolders(Next(s, t))
  {
    hide Conserved, RegistrySane, ReaperSane, RowsSane, TableNext, ReleaseSlot, ListsHolders, NoOrphans;
    match t
    case Release(j) =>
      ReleaseKeepsListing(s, j);
      ReleaseFrame(s, j);
      SameHolders(ReleaseSlot(s, j), Next(s, t));
    case ReapFree =>
      ReleaseKeepsListing(s, s.reaper.job);
      SameHolders(ReleaseSlot(s, s.reaper.job), Next(s, t));
    case Mark(j) => MarkKeepsListing(s, j);
    case Start(_) => StartKeepsListing(s, t);
    case _ =>
      HoldersUnchanged(s, t);
      SameHolders(s, Next(s, t));
  }

  lemma {:induction false} HoldersUnchanged(s: State, t: Step)
    requires Enabled(s, t) && !t.Release? && !t.ReapFree? && !t.Mark? && !t.Start?
    ensures var n := Next(s, t);
      && n.slotsHeld == s.slotsHeld && |n.jobs| == |s.jobs|
      && forall j :: 0 <= j < |s.jobs| ==> n.jobs[j].held == s.jobs[j].held && n.jobs[j].key == s.jobs[j].key
  {
    hide TableNext;
    if TableStep(t) { TableFrame(s, t); }
  }

  lemma {:induction false} SameHolders(s: State, s': State)
    requires ListsHolders(s) && s'.slotsHeld == s.slotsHeld && |s'.jobs| == |s.jobs|
    requires forall j :: 0 <= j < |s.jobs| ==> s'.jobs[j].held == s.jobs[j].held && s'.jobs[j].key == s.jobs[j].key
    ensures ListsHolders(s')
  {
  }

  lemma {:induction false} StartKeepsListing(s: State, t: Step)
    requires t.Start? && Enabled(s, t) && ListsHolders(s)
    ensures ListsHolders(Next(s, t))
  {
    var n := Next(s, t);
    forall k ensures k in n.slotsHeld <==> exists j :: 0 <= j < |n.jobs| && n.jobs[j].held && n.jobs[j].key == k {
      if k in s.slotsHeld {
        var j :| 0 <= j < |s.jobs| && s.jobs[j].held && s.jobs[j].key == k;
        assert n.jobs[j] == s.jobs[j];
      }
    }
  }

  lemma {:induction false} MarkKeepsListing(s: State, m: nat)
    requires Enabled(s, Mark(m)) && ListsHolders(s) && !s.jobs[m].held
    ensures ListsHolders(Next(s, Mark(m)))
  {
    var n := Next(s, Mark(m));
    assert n.jobs[m].held;
    forall k ensures k in n.slotsHeld <==> exists j :: 0 <= j < |n.jobs| && n.jobs[j].held && n.jobs[j].key == k {
      if k in s.slotsHeld {
        var j :| 0 <= j < |s.jobs| && s.jobs[j].held && s.jobs[j].key == k;
        assert n.jobs[j] == s.jobs[j];
      }
    }
  }

  lemma {:induction false} ReleaseKeepsListing(s: State, m: nat)
    requires m < |s.jobs| && NoOrphans(s) && ListsHolders(s)
    ensures ListsHolders(ReleaseSlot(s, m))
  {
    var n := ReleaseSlot(s, m);
    if s.jobs[m].held {
      forall k ensures k in n.slotsHeld <==> exists j :: 0 <= j < |n.jobs| && n.jobs[j].held && n.jobs[j].key == k {
        if k in n.slotsHeld {
          var j :| 0 <= j < |s.jobs| && s.jobs[j].held && s.jobs[j].key == k;
          assert n.jobs[j] == s.jobs[j];
        }
        forall j | 0 <= j < |n.jobs| && n.jobs[j].held && n.jobs[j].key == k ensures k in n.slotsHeld {
          assert s.jobs[j].held && Registered(s, j) && Registered(s, m);
        }
      }
    }
  }

  /** Where nothing leaks, every job that holds a slot is registered. */
  lemma {:induction false} NoLeakNoOrphans(s: State)
    requires Inv(s) && NoLeak(s)
    ensures NoOrphans(s)
  {
    hide Conserved, RowsSane, Visited;
    forall j | 0 <= j < |s.jobs| && s.jobs[j].held ensures Registered(s, j) {
      assert !Leaked(s, j);
    }
  }

  /** No step of the run loses a permit. */
  ghost predicate Careful(s: State, steps: seq<Step>)
    decreases |steps|
  {
    steps != [] ==>
      && !(Enabled(s, steps[0]) && Loses(s, steps[0]))
      && Careful(if Enabled(s, steps[0]) then Next(s, steps[0]) else s, steps[1..])
  }

  /** A run in which no step loses a permit leaks none, and `slots_held` stays right throughout. */
  lemma {:induction false} CarefulRunsLeakNothing(s: State, steps: seq<Step>)
    requires Inv(s) && NoLeak(s) && ListsHolders(s) && Careful(s, steps)
    ensures NoLeak(Run(s, steps)) && ListsHolders(Run(s, steps))
    decreases |steps|
  {
    hide Inv, NoLeak, NoOrphans, ListsHolders, Next, Enabled, Loses;
    if steps != [] {
      var t := steps[0];
      if Enabled(s, t) {
        StepKeepsInv(s, t);
        LeaksExactly(s, t);
        NoLeakNoOrphans(s);
        StepKeepsListing(s, t);
      }
      CarefulRunsLeakNothing(if Enabled(s, t) then Next(s, t) else s, steps[1..]);
    }
  }

  /** So a server in whose run no step loses a permit leaks none. */
  lemma {:induction false} CarefulServersLeakNothing(limit: nat, rows: seq<JobRow>, steps: seq<Step>)
    requires Careful(Initial(limit, rows), steps)
    ensures NoLeak(Run(Initial(limit, rows), steps)) && ListsHolders(Run(Initial(limit, rows), steps))
  {
    hide Run, Careful, NoLeak;
    InitialIsInv(limit, rows);
    NothingLeaksAtFirst(limit, rows);
    CarefulRunsLeakNothing(Initial(limit, rows), steps);
  }

  // ----- the registry object -----

  /** The row was read as running with a known age beyond the ceiling. */
  predicate Stale(ages: seq<Option<int>>, r: nat, ceiling: int) {
    r < |ages| && ages[r].Some? && ages[r].value > ceiling
  }

  /** The running rows among the first `n`, and of these the stale ones. */
  function RunningRows(rows: seq<JobRow>, n: nat): (rs: seq<nat>)
    requires n <= |rows|
    ensures forall r :: r in rs ==> r < n && rows[r].status.StillRunning?
  {
    if n == 0 then []
    else RunningRows(rows, n - 1) + if rows[n - 1].status.StillRunning? then [n - 1] else []
  }

  function StaleRows(rs: seq<nat>, ages: seq<Option<int>>, ceiling: int): seq<nat> {
    if rs == [] then []
    else (if Stale(ages, rs[0], ceiling) then [rs[0]] else []) + StaleRows(rs[1..], ages, ceiling)
  }

  /** One visit of the reaper for a row it has read, undisturbed. */
  function Visit(s: State, r: nat): State
    requires r < |s.rows|
  {
    var key := s.rows[r].key;
    if LiveFor(s, key) then s
    else if key !in s.registry then WithStatus(s, r, Failed)
    else
      var freed := if s.registry[key] < |s.jobs| then ReleaseSlot(s, s.registry[key]) else s;
      WithStatus(freed.(registry := freed.registry - {key}), r, Failed)
  }

  function VisitSteps(s: State, r: nat): seq<Step>
    requires r < |s.rows|
  {
    if LiveFor(s, s.rows[r].key) then [ReapFind(r)]
    else if s.rows[r].key !in s.registry then [ReapFind(r), ReapMark(r)]
    else [ReapFind(r), ReapFree, ReapDrop, ReapMark(r)]
  }

  predicate AllRows(s: State, rs: seq<nat>) {
    forall r :: r in rs ==> r < |s.rows|
  }

  function VisitAll(s: State, rs: seq<nat>): State
    requires AllRows(s, rs)
    decreases |rs|
  {
    if rs == [] then s
    else
      assert rs[0] in rs && forall r :: r in rs[1..] ==> r in rs;
      VisitAll(Visit(s, rs[0]), rs[1..])
  }

  function VisitAllSteps(s: State, rs: seq<nat>): seq<Step>
    requires AllRows(s, rs)
    decreases |rs|
  {
    if rs == [] then []
    else
      assert rs[0] in rs && forall r :: r in rs[1..] ==> r in rs;
      VisitSteps(s, rs[0]) + VisitAllSteps(Visit(s, rs[0]), rs[1..])
  }

  function Reads(rs: seq<nat>): seq<Step> {
    if rs == [] then [] else [ReapRead(rs[0])] + Reads(rs[1..])
  }

  /** Of these rows those whose key has no live thread. */
  function OrphanRows(s: State, rs: seq<nat>): seq<nat>
    requires AllRows(s, rs)
  {
    if rs == [] then []
    else
      assert rs[0] in rs && forall r :: r in rs[1..] ==> r in rs;
      (if LiveFor(s, s.rows[rs[0]].key) then [] else [rs[0]]) + OrphanRows(s, rs[1..])
  }

  /** The reaper's steps with the registry lock. */
  lemma {:induction false} VisitIsRun(s: State, r: nat, p: multiset<nat>)
    requires Inv(s) && s.reaper.Idle? && s.marks == multiset{} && r < |s.rows|
    ensures Run(s.(pending := p + multiset{r}), VisitSteps(s, r)) == Visit(s, r).(pending := p)
  {
    hide Conserved, JobSane, RowsSane, RegistrySane, ReaperSane, Run, ReleaseSlot;
    var a := s.(pending := p + multiset{r});
    assert p + multiset{r} - multiset{r} == p;
    if LiveFor(s, s.rows[r].key) {
      RunOne(a, ReapFind(r), []);
      RunNothing(Next(a, ReapFind(r)));
      assert [ReapFind(r)] + [] == [ReapFind(r)];
    } else if s.rows[r].key !in s.registry {
      RunTwo(a, ReapFind(r), ReapMark(r));
      assert multiset{} + multiset{r} - multiset{r} == multiset{};
    } else {
      VisitLocked(s, r, p);
    }
  }

  lemma {:induction false} VisitLocked(s: State, r: nat, p: multiset<nat>)
    requires Inv(s) && s.reaper.Idle? && s.marks == multiset{} && r < |s.rows|
    requires !LiveFor(s, s.rows[r].key) && s.rows[r].key in s.registry
    ensures Run(s.(pending := p + multiset{r}), [ReapFind(r), ReapFree, ReapDrop, ReapMark(r)])
      == Visit(s, r).(pending := p)
  {
    hide Inv, Next, Enabled, LiveFor, Run, ReleaseSlot;
    var key := s.rows[r].key;
    var j := s.registry[key];
    RegistryInRange(s);
    var a := s.(pending := p + multiset{r});
    FindsIt(s, r, p);
    var b := Next(a, ReapFind(r));
    FreesIt(s, b, r);
    var c := Next(b, ReapFree);
    DropsIt(c, r);
    ReleaseFrame(s, j);
    RunTwo(a, ReapFind(r), ReapFree);
    RunTwo(c, ReapDrop, ReapMark(r));
    RunAppend(a, [ReapFind(r), ReapFree], [ReapDrop, ReapMark(r)]);
    assert [ReapFind(r), ReapFree] + [ReapDrop, ReapMark(r)] == [ReapFind(r), ReapFree, ReapDrop, ReapMark(r)];
  }

  lemma {:induction false} FindsIt(s: State, r: nat, p: multiset<nat>)
    requires s.reaper.Idle? && r < |s.rows| && !LiveFor(s, s.rows[r].key) && s.rows[r].key in s.registry
    ensures var a, key := s.(pending := p + multiset{r}), s.rows[r].key;
      && Enabled(a, ReapFind(r))
      && Next(a, ReapFind(r)) == s.(pending := p, reaper := Found(r, key, s.registry[key]))
  {
    assert p + multiset{r} - multiset{r} == p;
  }

  lemma {:induction false} FreesIt(s: State, b: State, r: nat)
    requires b.reaper.Found? && b.reaper.row == r && b.reaper.job < |s.jobs|
    requires b == s.(pending := b.pending, reaper := b.reaper)
    ensures Enabled(b, ReapFree)
    ensures Next(b, ReapFree)
      == ReleaseSlot(s, b.reaper.job).(pending := b.pending, reaper := Freed(r, b.reaper.key, b.reaper.job))
    ensures ReleaseSlot(s, b.reaper.job).marks == s.marks && ReleaseSlot(s, b.reaper.job).rows == s.rows
  {
    ReleaseElsewhere(s, b, b.reaper.job);
    ReleaseFrame(s, b.reaper.job);
  }

  lemma {:induction false} DropsIt(c: State, r: nat)
    requires c.reaper.Freed? && c.reaper.row == r && c.marks == multiset{} && r < |c.rows|
    ensures Enabled(c, ReapDrop) && Enabled(Next(c, ReapDrop), ReapMark(r))
    ensures Next(Next(c, ReapDrop), ReapMark(r))
      == WithStatus(c.(registry := c.registry - {c.reaper.key}, reaper := Idle), r, Failed)
  {
    assert multiset{} + multiset{r} - multiset{r} == multiset{};
  }

  lemma {:induction false} ReleaseFrame(s: State, j: nat)
    requires j < |s.jobs|
    ensures var n := ReleaseSlot(s, j);
      && n.limit == s.limit && n.registry == s.registry && n.reaper == s.reaper
      && n.rows == s.rows && n.pending == s.pending && n.marks == s.marks
      && |n.jobs| == |s.jobs| && forall i :: 0 <= i < |s.jobs| ==>
           && n.jobs[i].key == s.jobs[i].key && n.jobs[i].row == s.jobs[i].row && n.jobs[i].alive == s.jobs[i].alive
           && n.jobs[i].phase == s.jobs[i].phase && (n.jobs[i].held ==> s.jobs[i].held)
           && (i != j ==> n.jobs[i] == s.jobs[i])
  {
  }

  /** What a release does rests on jobs, slots and permits only. */
  lemma {:induction false} ReleaseElsewhere(s: State, s': State, j: nat)
    requires j < |s.jobs| && s' == s.(pending := s'.pending, reaper := s'.reaper)
    ensures ReleaseSlot(s', j) == ReleaseSlot(s, j).(pending := s'.pending, reaper := s'.reaper)
  {
  }

  lemma {:induction false} VisitKeeps(s: State, r: nat)
    requires Inv(s) && s.reaper.Idle? && s.marks == multiset{} && r < |s.rows|
    ensures Inv(Visit(s, r)) && Visit(s, r).reaper.Idle? && Visit(s, r).marks == multiset{}
    ensures |Visit(s, r).rows| == |s.rows| && Visit(s, r).pending == s.pending
  {
    hide Inv, Run, Next, Enabled;
    VisitIsRun(s, r, s.pending);
    PendingKeepsInv(s, s.pending + multiset{r});
    RunKeepsInv(s.(pending := s.pending + multiset{r}), VisitSteps(s, r));
  }

  lemma {:induction false} PendingKeepsInv(s: State, p: multiset<nat>)
    requires Inv(s)
    ensures Inv(s.(pending := p))
  {
  }

  lemma {:induction false} VisitAllIsRun(s: State, rs: seq<nat>, p: multiset<nat>)
    requires Inv(s) && s.reaper.Idle? && s.marks == multiset{} && AllRows(s, rs)
    ensures Run(s.(pending := p + multiset(rs)), VisitAllSteps(s, rs)) == VisitAll(s, rs).(pending := p)
    ensures forall t :: t in VisitAllSteps(s, rs) ==> IsReap(t)
    decreases |rs|
  {
    hide Inv, Run, Next, Enabled, Visit, VisitSteps;
    if rs == [] {
      RunNothing(s.(pending := p));
      assert p + multiset(rs) == p;
    } else {
      var r, rest := rs[0], rs[1..];
      assert rs == [r] + rest && r in rs && forall q :: q in rest ==> q in rs;
      var more := p + multiset(rest);
      assert p + multiset(rs) == more + multiset{r};
      VisitIsRun(s, r, more);
      VisitKeeps(s, r);
      VisitStepsReap(s, r);
      VisitAllIsRun(Visit(s, r), rest, p);
      RunAppend(s.(pending := p + multiset(rs)), VisitSteps(s, r), VisitAllSteps(Visit(s, r), rest));
    }
  }

  lemma {:induction false} VisitStepsReap(s: State, r: nat)
    requires r < |s.rows|
    ensures forall t :: t in VisitSteps(s, r) ==> IsReap(t)
  {
  }

  lemma {:induction false} ReadsAreRun(s: State, rs: seq<nat>)
    requires forall r :: r in rs ==> r < |s.rows| && Due(s.rows[r])
    ensures Run(s, Reads(rs)) == s.(pending := s.pending + multiset(rs))
    ensures forall t :: t in Reads(rs) ==> IsReap(t)
    decreases |rs|
  {
    hide Run;
    if rs == [] {
      RunNothing(s);
      assert s.pending + multiset(rs) == s.pending;
    } else {
      assert rs == [rs[0]] + rs[1..] && rs[0] in rs && forall q :: q in rs[1..] ==> q in rs;
      var a := Next(s, ReapRead(rs[0]));
      RunOne(s, ReapRead(rs[0]), Reads(rs[1..]));
      ReadsAreRun(a, rs[1..]);
      assert s.pending + multiset(rs) == a.pending + multiset(rs[1..]);
    }
  }

  /** A whole pass of the reaper, its reads and then its visits, is a run of reaping steps, so everything said of runs
      holds of it. */
  lemma {:induction false} PassIsRun(s: State, rs: seq<nat>)
    requires Inv(s) && s.reaper.Idle? && s.marks == multiset{} && s.pending == multiset{}
    requires forall r :: r in rs ==> r < |s.rows| && Due(s.rows[r])
    ensures VisitAll(s, rs) == Run(s, Reads(rs) + VisitAllSteps(s, rs)) && Inv(VisitAll(s, rs))
    ensures forall t :: t in Reads(rs) + VisitAllSteps(s, rs) ==> IsReap(t)
  {
    hide Inv, Run, Due, VisitAll;
    ReadsAreRun(s, rs);
    VisitAllIsRun(s, rs, multiset{});
    RunAppend(s, Reads(rs), VisitAllSteps(s, rs));
    RunKeepsInv(s, Reads(rs) + VisitAllSteps(s, rs));
    VisitAllKeepsPending(s, rs);
  }

  lemma {:induction false} VisitAllKeepsPending(s: State, rs: seq<nat>)
    requires AllRows(s, rs)
    ensures VisitAll(s, rs).pending == s.pending
    decreases |rs|
  {
    if rs != [] {
      assert rs[0] in rs && forall r :: r in rs[1..] ==> r in rs;
      VisitAllKeepsPending(Visit(s, rs[0]), rs[1..]);
    }
  }

  /** Visiting some rows changes neither which keys have a live thread nor the key of any row. */
  lemma {:induction false} VisitKeepsLive(s: State, r: nat, other: Key)
    requires r < |s.rows|
    ensures LiveFor(Visit(s, r), other) == LiveFor(s, other)
    ensures |Visit(s, r).rows| == |s.rows|
    ensures forall q :: 0 <= q < |s.rows| ==> Visit(s, r).rows[q].key == s.rows[q].key
  {
  }

  lemma {:induction false} OrphansStaySo(s: State, r: nat, rs: seq<nat>)
    requires r < |s.rows| && AllRows(s, rs)
    ensures AllRows(Visit(s, r), rs) && OrphanRows(Visit(s, r), rs) == OrphanRows(s, rs)
  {
    hide LiveFor, Visit;
    VisitKeepsLive(s, r, "");
    if rs != [] {
      assert rs[0] in rs && forall q :: q in rs[1..] ==> q in rs;
      VisitKeepsLive(s, r, s.rows[rs[0]].key);
      OrphansStaySo(s, r, rs[1..]);
    }
  }

  // ----- what a pass does -----

  /** A visited row shows that no thread is live for the key. */
  ghost predicate GivesUp(s: State, rs: seq<nat>, key: Key)
    requires AllRows(s, rs)
  {
    !LiveFor(s, key) && exists r :: r in rs && s.rows[r].key == key
  }

  /** The job is the one registered for such a key. */
  ghost predicate GivenUp(s: State, rs: seq<nat>, j: nat)
    requires AllRows(s, rs) && j < |s.jobs|
  {
    s.jobs[j].key in s.registry && s.registry[s.jobs[j].key] == j && GivesUp(s, rs, s.jobs[j].key)
  }

  ghost predicate RowsDone(s: State, t: State, rs: seq<nat>) {
    && |t.rows| == |s.rows|
    && forall r: nat :: r < |s.rows| ==>
         t.rows[r] == if r in rs && !LiveFor(s, s.rows[r].key) then s.rows[r].(status := Failed) else s.rows[r]
  }

  ghost predicate RegistryDone(s: State, t: State, rs: seq<nat>)
    requires AllRows(s, rs)
  {
    && (forall k :: k in t.registry <==> k in s.registry && !GivesUp(s, rs, k))
    && forall k :: k in t.registry ==> t.registry[k] == s.registry[k]
  }

  ghost predicate JobsDone(s: State, t: State, rs: seq<nat>)
    requires AllRows(s, rs)
  {
    && |t.jobs| == |s.jobs|
    && (forall j: nat :: j < |s.jobs| ==>
          t.jobs[j] == if GivenUp(s, rs, j) && s.jobs[j].held
                       then s.jobs[j].(held := false, freed := s.jobs[j].freed + 1) else s.jobs[j])
    && forall k :: k in t.slotsHeld <==>
         && k in s.slotsHeld
         && !(GivesUp(s, rs, k) && k in s.registry && s.registry[k] < |s.jobs| && s.jobs[s.registry[k]].held)
  }

  /** What a pass over these rows does.  The rows without a live thread for their key are marked failed; the jobs
      registered for these keys leave the registry, and those of them that hold a slot give it back, once.  Nothing else
      changes. */
  ghost predicate PassDid(s: State, t: State, rs: seq<nat>)
    requires AllRows(s, rs)
  {
    RowsDone(s, t, rs) && RegistryDone(s, t, rs) && JobsDone(s, t, rs)
  }

  ghost predicate KeysMatch(s: State) {
    forall k :: k in s.registry ==> s.registry[k] < |s.jobs| && s.jobs[s.registry[k]].key == k
  }

  lemma {:induction false} VisitDid(s: State, r: nat)
    requires r < |s.rows| && KeysMatch(s)
    ensures PassDid(s, Visit(s, r), [r]) && KeysMatch(Visit(s, r))
  {
    GivesUpOne(s, r);
    VisitRegistry(s, r);
    VisitJobs(s, r);
  }

  lemma {:induction false} GivesUpOne(s: State, r: nat)
    requires r < |s.rows|
    ensures AllRows(s, [r])
    ensures forall k :: GivesUp(s, [r], k) <==> !LiveFor(s, s.rows[r].key) && k == s.rows[r].key
  {
    hide LiveFor;
    var rs := [r];
    assert forall x :: x in rs <==> x == r;
  }

  lemma {:induction false} VisitRegistry(s: State, r: nat)
    requires r < |s.rows| && AllRows(s, [r]) && KeysMatch(s)
    requires forall k :: GivesUp(s, [r], k) <==> !LiveFor(s, s.rows[r].key) && k == s.rows[r].key
    ensures RowsDone(s, Visit(s, r), [r]) && RegistryDone(s, Visit(s, r), [r]) && KeysMatch(Visit(s, r))
  {
    hide GivesUp;
    var rs := [r];
    assert forall x :: x in rs <==> x == r;
  }

  lemma {:induction false} VisitJobs(s: State, r: nat)
    requires r < |s.rows| && AllRows(s, [r]) && KeysMatch(s)
    requires forall k :: GivesUp(s, [r], k) <==> !LiveFor(s, s.rows[r].key) && k == s.rows[r].key
    ensures JobsDone(s, Visit(s, r), [r])
  {
    hide GivesUp;
  }

  lemma {:induction false} PassOneMore(s: State, t: State, u: State, r: nat, rest: seq<nat>)
    requires r < |s.rows| && AllRows(s, rest) && KeysMatch(s) && t == Visit(s, r)
    requires PassDid(s, t, [r]) && AllRows(t, rest) && PassDid(t, u, rest)
    ensures AllRows(s, [r] + rest) && PassDid(s, u, [r] + rest)
  {
    hide Visit, PassDid;
    var rs := [r] + rest;
    assert forall x :: x in rs <==> x == r || x in rest;
    forall k ensures LiveFor(t, k) == LiveFor(s, k) { VisitKeepsLive(s, r, k); }
    assert forall x :: x in [r] <==> x == r;
    PassParts(s, t, [r]);
    PassParts(t, u, rest);
    MoreGiveUp(s, t, r, rest);
    assert RowsDone(s, u, rs);
    assert RegistryDone(s, u, rs) by { hide LiveFor, GivesUp, JobsDone, RowsDone; }
    MoreJobsDone(s, t, u, r, rest);
    PassWhole(s, u, rs);
  }

  lemma {:induction false} PassParts(s: State, t: State, rs: seq<nat>)
    requires AllRows(s, rs) && PassDid(s, t, rs)
    ensures RowsDone(s, t, rs) && RegistryDone(s, t, rs) && JobsDone(s, t, rs)
  {
  }

  lemma {:induction false} PassWhole(s: State, t: State, rs: seq<nat>)
    requires AllRows(s, rs) && RowsDone(s, t, rs) && RegistryDone(s, t, rs) && JobsDone(s, t, rs)
    ensures PassDid(s, t, rs)
  {
  }

  lemma {:induction false} MoreGiveUp(s: State, t: State, r: nat, rest: seq<nat>)
    requires r < |s.rows| && AllRows(s, rest) && AllRows(t, rest) && AllRows(s, [r] + rest)
    requires RowsDone(s, t, [r]) && forall k :: LiveFor(t, k) == LiveFor(s, k)
    ensures forall k :: GivesUp(s, [r] + rest, k) <==> GivesUp(s, [r], k) || GivesUp(t, rest, k)
  {
    hide LiveFor;
    var rs := [r] + rest;
    assert forall x :: x in rs <==> x == r || x in rest;
    assert forall x :: x in [r] <==> x == r;
    forall x | 0 <= x < |s.rows| ensures t.rows[x].key == s.rows[x].key { }
    forall k ensures GivesUp(s, rs, k) <==> GivesUp(s, [r], k) || GivesUp(t, rest, k) {
      if x :| x in rs && s.rows[x].key == k { assert x == r || (x in rest && t.rows[x].key == k); }
      if x :| x in rest && t.rows[x].key == k { assert x in rs && s.rows[x].key == k; }
    }
  }

  lemma {:induction false} MoreJobsDone(s: State, t: State, u: State, r: nat, rest: seq<nat>)
    requires r < |s.rows| && AllRows(s, rest) && AllRows(t, rest) && AllRows(s, [r] + rest) && KeysMatch(s)
    requires RegistryDone(s, t, [r]) && JobsDone(s, t, [r]) && JobsDone(t, u, rest)
    requires forall k :: GivesUp(s, [r] + rest, k) <==> GivesUp(s, [r], k) || GivesUp(t, rest, k)
    ensures JobsDone(s, u, [r] + rest)
  {
    hide GivesUp, LiveFor, AllRows;
    var rs := [r] + rest;
    forall j: nat | j < |s.jobs|
      ensures u.jobs[j] == if GivenUp(s, rs, j) && s.jobs[j].held
                           then s.jobs[j].(held := false, freed := s.jobs[j].freed + 1) else s.jobs[j]
    {
      assert t.jobs[j].key == s.jobs[j].key;
    }
    forall k
      ensures k in u.slotsHeld <==>
        && k in s.slotsHeld
        && !(GivesUp(s, rs, k) && k in s.registry && s.registry[k] < |s.jobs| && s.jobs[s.registry[k]].held)
    {
      if k in s.registry { assert t.jobs[s.registry[k]].key == k; }
    }
  }

  lemma {:induction false} VisitAllDid(s: State, rs: seq<nat>)
    requires AllRows(s, rs) && KeysMatch(s)
    ensures PassDid(s, VisitAll(s, rs), rs)
    decreases |rs|
  {
    hide Visit, PassDid, KeysMatch;
    if rs == [] {
      NothingDone(s);
    } else {
      var r, rest := rs[0], rs[1..];
      assert r in rs && (forall q :: q in rest ==> q in rs) && rs == [r] + rest;
      VisitDid(s, r);
      VisitKeepsLive(s, r, "");
      VisitAllDid(Visit(s, r), rest);
      PassOneMore(s, Visit(s, r), VisitAll(Visit(s, r), rest), r, rest);
    }
  }

  lemma {:induction false} NothingDone(s: State)
    ensures PassDid(s, s, [])
  {
  }

  /** The row is running, its age is known and beyond the ceiling, and no thread is live for its key. */
  ghost predicate Orphaned(s: State, ages: seq<Option<int>>, ceiling: int, r: nat) {
    && r < |s.rows| && s.rows[r].status == StillRunning
    && r < |ages| && (exists age :: ages[r] == Some(age) && age > ceiling)
    && forall j: nat :: s.rows[r].key in s.registry && s.registry[s.rows[r].key] == j && j < |s.jobs| ==>
         !s.jobs[j].alive
  }

  ghost predicate InRowOrder(rs: seq<nat>) {
    forall x, y :: 0 <= x < y < |rs| ==> rs[x] < rs[y]
  }

  lemma {:induction false} RunningRowsAre(rows: seq<JobRow>, n: nat)
    requires n <= |rows|
    ensures forall r: nat :: r in RunningRows(rows, n) <==> r < n && rows[r].status == StillRunning
    ensures InRowOrder(RunningRows(rows, n))
  {
    if n > 0 {
      RunningRowsAre(rows, n - 1);
      var front := RunningRows(rows, n - 1);
      assert forall x :: 0 <= x < |front| ==> front[x] in front;
    }
  }

  lemma {:induction false} StaleRowsAre(rs: seq<nat>, ages: seq<Option<int>>, ceiling: int)
    requires InRowOrder(rs)
    ensures forall r: nat :: r in StaleRows(rs, ages, ceiling) <==> r in rs && Stale(ages, r, ceiling)
    ensures InRowOrder(StaleRows(rs, ages, ceiling))
  {
    hide InRowOrder, Stale;
    if rs == [] {
      NoRowsInOrder();
    } else {
      var rest := StaleRows(rs[1..], ages, ceiling);
      FirstOfRest(rs);
      StaleRowsAre(rs[1..], ages, ceiling);
      OneMoreRow(rs[0], rs[1..], rest);
      assert [] + rest == rest && rs == [rs[0]] + rs[1..];
    }
  }

  lemma {:induction false} NoRowsInOrder()
    ensures InRowOrder([])
  {
  }

  /** A row before rows of a list goes in front of them. */
  lemma {:induction false} OneMoreRow(r: nat, list: seq<nat>, rest: seq<nat>)
    requires InRowOrder(rest) && (forall x :: x in rest ==> x in list) && forall x :: x in list ==> r < x
    ensures InRowOrder([r] + rest)
  {
    assert forall x :: 0 <= x < |rest| ==> rest[x] in rest;
  }

  lemma {:induction false} FirstOfRest(rs: seq<nat>)
    requires InRowOrder(rs) && rs != []
    ensures InRowOrder(rs[1..]) && forall r :: r in rs[1..] ==> rs[0] < r
  {
    forall r | r in rs[1..] ensures rs[0] < r {
      var x :| 0 <= x < |rs[1..]| && rs[1..][x] == r;
      assert rs[x + 1] == r;
    }
  }

  lemma {:induction false} OrphanRowsAre(s: State, rs: seq<nat>)
    requires AllRows(s, rs) && InRowOrder(rs)
    ensures forall r: nat :: r in OrphanRows(s, rs) <==> r in rs && !LiveFor(s, s.rows[r].key)
    ensures InRowOrder(OrphanRows(s, rs))
  {
    hide LiveFor, InRowOrder;
    if rs == [] {
      NoRowsInOrder();
    } else {
      FirstOfRest(rs);
      assert rs[0] in rs && forall r :: r in rs[1..] ==> r in rs;
      var rest := OrphanRows(s, rs[1..]);
      OrphanRowsAre(s, rs[1..]);
      OneMoreRow(rs[0], rs[1..], rest);
      assert [] + rest == rest && rs == [rs[0]] + rs[1..];
    }
  }

  /** Over the rows that are due, the pass returns exactly the orphaned rows, in order, and does its work for them. */
  lemma {:induction false} PassReaps(s: State, ages: seq<Option<int>>, ceiling: int, due: seq<nat>)
    requires KeysMatch(s) && due == StaleRows(RunningRows(s.rows, |s.rows|), ages, ceiling)
    ensures AllRows(s, due)
    ensures InRowOrder(OrphanRows(s, due))
    ensures forall r: nat :: r in OrphanRows(s, due) <==> Orphaned(s, ages, ceiling, r)
    ensures PassDid(s, VisitAll(s, due), due) && AllRows(s, OrphanRows(s, due))
    ensures PassDid(s, VisitAll(s, due), OrphanRows(s, due))
  {
    hide PassDid, VisitAll, OrphanRows, StaleRows, RunningRows;
    RunningRowsAre(s.rows, |s.rows|);
    StaleRowsAre(RunningRows(s.rows, |s.rows|), ages, ceiling);
    OrphanRowsAre(s, due);
    VisitAllDid(s, due);
    OnlyOrphansMatter(s, VisitAll(s, due), due, OrphanRows(s, due));
  }

  lemma {:induction false} OnlyOrphansMatter(s: State, t: State, rs: seq<nat>, qs: seq<nat>)
    requires AllRows(s, rs) && AllRows(s, qs) && PassDid(s, t, rs)
    requires forall r: nat :: r in qs <==> r in rs && !LiveFor(s, s.rows[r].key)
    ensures PassDid(s, t, qs)
  {
    hide LiveFor;
    forall k ensures GivesUp(s, qs, k) <==> GivesUp(s, rs, k) {
      if r :| r in qs && s.rows[r].key == k { assert r in rs; }
      if r :| r in rs && s.rows[r].key == k { assert !LiveFor(s, k) ==> r in qs; }
    }
    assert forall j: nat :: j < |s.jobs| ==> (GivenUp(s, qs, j) <==> GivenUp(s, rs, j));
  }

  class JobRegistry {
    const limit: nat
    var inflight: int
    var jobs: seq<Job>
    var registry: map<Key, nat>
    var held: set<Key>
    var raised: bool
    var rows: seq<JobRow>

    ghost function Contents(): State
      reads this
    {
      State(limit, inflight, jobs, registry, held, Idle, raised, rows, multiset{}, multiset{})
    }

    constructor (maxInflight: nat, table: seq<JobRow>)
      ensures Contents() == Initial(maxInflight, table)
    {
      limit, inflight, jobs, registry, held, raised := maxInflight, maxInflight, [], map[], {}, false;
      rows := table;
    }

    /** Waits for a slot (the caller has found one free), then marks it held. */
    method AcquireSlot(j: nat)
      requires Running(Contents(), j, New) && inflight > 0
      modifies this
      ensures var s := Next(old(Contents()), Acquire(j)); Enabled(s, Mark(j)) && Contents() == Next(s, Mark(j))
    {
      jobs := jobs[j := jobs[j].(phase := Acquired)];
      inflight := inflight - 1;
      jobs := jobs[j := jobs[j].(phase := Marked, held := true)];
      held := held + {jobs[j].key};
    }

    /** Gives the slot back once. */
    method Release(j: nat)
      requires j < |jobs|
      modifies this
      ensures Contents() == ReleaseSlot(old(Contents()), j)
    {
      var job := jobs[j];
      if !job.held { return; }
      jobs := jobs[j := job.(held := false, freed := job.freed + 1)];
      held := held - {job.key};
      if inflight >= limit {
        raised := true;
      }
      inflight := inflight + 1;
    }

    /** The rows that are running. */
    method ReadRunning() returns (found: seq<nat>)
      ensures found == RunningRows(rows, |rows|)
    {
      found := [];
      for n := 0 to |rows|
        invariant found == RunningRows(rows, n)
      {
        if rows[n].status.StillRunning? {
          found := found + [n];
        }
      }
    }

    /** The visit of one row: frees its key's slot and marks the row failed, unless a thread is live. */
    method VisitRow(r: nat) returns (orphan: bool)
      requires r < |rows| && forall k :: k in registry ==> registry[k] < |jobs|
      modifies this
      ensures Contents() == Visit(old(Contents()), r)
      ensures orphan <==> !LiveFor(old(Contents()), old(rows)[r].key)
      ensures |rows| == |old(rows)| && forall k :: k in registry ==> registry[k] < |jobs|
    {
      var key := rows[r].key;
      var live := key in registry && jobs[registry[key]].alive;
      if live { return false; }
      if key in registry {
        Release(registry[key]);
        registry := registry - {key};
      }
      rows := rows[r := rows[r].(status := Failed)];
      return true;
    }

    /** Frees the slots of the running rows that went stale without a live thread, marks exactly these rows failed,
        and returns them.  The pass is a run of the reaper's steps. */
    method ReapStaleJobs(ages: seq<Option<int>>, ceiling: int) returns (reaped: seq<nat>)
      requires Inv(Contents())
      requires |ages| == |rows| && forall r :: 0 <= r < |rows| ==> (ages[r].Some? <==> rows[r].known)
      modifies this
      ensures var s, due := old(Contents()), StaleRows(RunningRows(old(rows), |old(rows)|), ages, ceiling);
        && (forall r :: r in due ==> r < |old(rows)| && Due(old(rows)[r]))
        && Contents() == VisitAll(s, due) == Run(s, Reads(due) + VisitAllSteps(s, due)) && Inv(Contents())
        && reaped == OrphanRows(s, due)
      ensures forall r: nat :: r in reaped <==> Orphaned(old(Contents()), ages, ceiling, r)
      ensures InRowOrder(reaped) && AllRows(old(Contents()), reaped)
      ensures PassDid(old(Contents()), Contents(), reaped)
    {
      hide Inv, Run, Visit, LiveFor, Reads, VisitAllSteps, VisitAll, OrphanRows, StaleRows, RunningRows, Due, PassDid,
           Orphaned, KeysMatch, InRowOrder;
      var found := ReadRunning();
      ghost var s, due := Contents(), StaleRows(found, ages, ceiling);
      StaleAreDue(rows, found, ages, ceiling);
      PassIsRun(s, due);
      RegistryInRange(s);
      PassReaps(s, ages, ceiling, due);
      reaped := [];
      NothingToVisit(Contents());
      assert found[0..] == found && [] + OrphanRows(s, due) == OrphanRows(s, due);
      for n := 0 to |found|
        invariant |rows| == |s.rows| && forall k :: k in registry ==> registry[k] < |jobs|
        invariant forall r :: r in found ==> r < |rows|
        invariant AllRows(Contents(), StaleRows(found[n..], ages, ceiling))
        invariant VisitAll(Contents(), StaleRows(found[n..], ages, ceiling)) == VisitAll(s, due)
        invariant reaped + OrphanRows(Contents(), StaleRows(found[n..], ages, ceiling)) == OrphanRows(s, due)
      {
        var r := found[n];
        assert r in found;
        ghost var rest := StaleRows(found[n + 1..], ages, ceiling);
        StaleStep(found, n, ages, ceiling);
        if ages[r].None? || ages[r].value <= ceiling {
          assert !Stale(ages, r, ceiling);
          continue;
        }
        ghost var before := Contents();
        var orphan := VisitRow(r);
        VisitOneMore(before, r, rest);
        Assoc(reaped, if orphan then [r] else [], OrphanRows(Contents(), rest));
        if orphan {
          reaped := reaped + [r];
        } else {
          assert reaped + [] == reaped;
        }
      }
      NothingStale(found[|found|..], ages, ceiling);
      NothingToVisit(Contents());
      assert reaped + [] == reaped;
    }
  }

  lemma {:induction false} NothingStale(rs: seq<nat>, ages: seq<Option<int>>, ceiling: int)
    requires rs == []
    ensures StaleRows(rs, ages, ceiling) == []
  {
  }

  lemma {:induction false} NothingToVisit(s: State)
    ensures VisitAll(s, []) == s && OrphanRows(s, []) == []
  {
  }

  lemma {:induction false} VisitOneMore(s: State, r: nat, rest: seq<nat>)
    requires AllRows(s, [r] + rest)
    ensures r < |s.rows| && AllRows(s, rest) && AllRows(Visit(s, r), rest)
    ensures VisitAll(s, [r] + rest) == VisitAll(Visit(s, r), rest)
    ensures OrphanRows(s, [r] + rest)
      == (if LiveFor(s, s.rows[r].key) then [] else [r]) + OrphanRows(Visit(s, r), rest)
  {
    hide LiveFor, Visit;
    var rs := [r] + rest;
    assert rs[1..] == rest && r in rs && forall q :: q in rest ==> q in rs;
    OrphansStaySo(s, r, rest);
  }

  lemma {:induction false} StaleStep(found: seq<nat>, n: nat, ages: seq<Option<int>>, ceiling: int)
    requires n < |found|
    ensures var rest := StaleRows(found[n + 1..], ages, ceiling);
      StaleRows(found[n..], ages, ceiling) == if Stale(ages, found[n], ceiling) then [found[n]] + rest else rest
  {
    assert found[n..][1..] == found[n + 1..];
  }

  lemma {:induction false} StaleAreDue(rows: seq<JobRow>, rs: seq<nat>, ages: seq<Option<int>>, ceiling: int)
    requires |ages| == |rows| && forall r :: 0 <= r < |rows| ==> (ages[r].Some? <==> rows[r].known)
    requires forall r :: r in rs ==> r < |rows| && rows[r].status.StillRunning?
    ensures forall r :: r in StaleRows(rs, ages, ceiling) ==> r < |rows| && Due(rows[r])
  {
    if rs != [] {
      assert rs[0] in rs && forall r :: r in rs[1..] ==> r in rs;
      StaleAreDue(rows, rs[1..], ages, ceiling);
    }
  }

  lemma {:induction false} RegistryInRange(s: State)
    requires Inv(s)
    ensures forall k :: k in s.registry ==> s.registry[k] < |s.jobs|
    ensures KeysMatch(s)
  {
  }
}
