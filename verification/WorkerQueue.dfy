/** The worker queue as a step protocol: any number of workers, each inside at most one open
    transaction, over a table whose committed rows are what everyone else sees. A claim takes a pending
    row that nobody has locked (SELECT ... FOR UPDATE SKIP LOCKED) and writes "running" inside the open
    transaction; a crash or an exception rolls the transaction back. The scan goes by age, but an older row
    may be unlocked or inserted behind it, so a claim may take any such row. */
module WorkerQueue {

  type JobId = nat
  type Worker = nat

  datatype Kind = Ingest | Purge | Unknown
  datatype Status = Pending | Running | Done | Failed
  datatype Job = Job(kind: Kind, status: Status, createdAt: int)

  datatype Phase =
    | Idle
    | Polling                               // an idle poll found no active purge, nothing inserted yet
    | Holding(job: JobId)                   // claimed: row lock held, "running" not committed
    | Detached(job: JobId)                  // the purge body committed "running": lock released
    | Finishing(job: JobId, result: Status) // terminal status flushed, not committed
    | Notifying(job: JobId)                 // terminal status committed, callback still to come

  /** `jobs` holds committed rows only; `locks` names the owner of each locked row; `callbacks`
      records every callback attempted. */
  datatype System = System(jobs: map<JobId, Job>, locks: map<JobId, Worker>, phases: map<Worker, Phase>,
                           callbacks: seq<JobId>)

  datatype Event =
    | Enqueue(id: JobId, kind: Kind, at: int)        // POST /ingestions
    | IdleRead(worker: Worker)                       // maybe_enqueue_purge: no active purge, one is due
    | IdlePurge(worker: Worker, id: JobId, at: int)  // maybe_enqueue_purge: the new row, committed
    | Claim(worker: Worker, id: JobId)               // claim_next_job
    | BodyCommit(worker: Worker, followUp: set<JobId>, at: int) // run_purge commits a chunk
    | Finish(worker: Worker, ok: bool)               // status done / failed flushed
    | Commit(worker: Worker)                         // db.commit()
    | Callback(worker: Worker)                       // maybe_deliver_ingest_callback
    | Crash(worker: Worker)                          // process death or rollback

  function PhaseOf(s: System, w: Worker): Phase { if w in s.phases then s.phases[w] else Idle }

  predicate Terminal(st: Status) { st == Done || st == Failed }

  predicate Claimable(s: System, j: JobId) { j in s.jobs && s.jobs[j].status == Pending && j !in s.locks }

  /** `active_purge_job_statement`: a purge row is pending or running. */
  predicate PurgeActive(s: System) {
    exists j :: j in s.jobs && s.jobs[j].kind == Purge && !Terminal(s.jobs[j].status)
  }

  predicate Enabled(s: System, e: Event) {
    match e
    case Enqueue(id, _, _) => id !in s.jobs
    case IdleRead(w) => PhaseOf(s, w).Idle? && !PurgeActive(s)
    case IdlePurge(w, id, _) => PhaseOf(s, w).Polling? && id !in s.jobs
    case Claim(w, id) => PhaseOf(s, w).Idle? && Claimable(s, id)
    case BodyCommit(w, followUp, _) =>
      var p := PhaseOf(s, w);
      (p.Holding? || p.Detached?) && p.job in s.jobs && s.jobs[p.job].kind == Purge && followUp !! s.jobs.Keys
    case Finish(w, ok) =>
      var p := PhaseOf(s, w);
      (p.Holding? || p.Detached?) && p.job in s.jobs && (s.jobs[p.job].kind == Unknown ==> !ok)
    case Commit(w) => PhaseOf(s, w).Finishing? && PhaseOf(s, w).job in s.jobs
    case Callback(w) => PhaseOf(s, w).Notifying?
    case Crash(_) => true
  }

  function SetStatus(s: System, j: JobId, st: Status): map<JobId, Job>
    requires j in s.jobs
  {
    s.jobs[j := s.jobs[j].(status := st)]
  }

  function Release(locks: map<JobId, Worker>, w: Worker): map<JobId, Worker> {
    map j | j in locks && locks[j] != w :: locks[j]
  }

  function Apply(s: System, e: Event): System
    requires Enabled(s, e)
  {
    match e
    case Enqueue(id, kind, at) => s.(jobs := s.jobs[id := Job(kind, Pending, at)])
    case IdleRead(w) => s.(phases := s.phases[w := Polling])
    case IdlePurge(w, id, at) => s.(jobs := s.jobs[id := Job(Purge, Pending, at)], phases := s.phases[w := Idle])
    case Claim(w, id) => s.(locks := s.locks[id := w], phases := s.phases[w := Holding(id)])
    case BodyCommit(w, followUp, at) =>
      var j := PhaseOf(s, w).job;
      s.(jobs := SetStatus(s, j, Running) + map k | k in followUp :: Job(Purge, Pending, at),
         locks := Release(s.locks, w), phases := s.phases[w := Detached(j)])
    case Finish(w, ok) =>
      var j := PhaseOf(s, w).job;
      s.(locks := s.locks[j := w], phases := s.phases[w := Finishing(j, if ok then Done else Failed)])
    case Commit(w) =>
      var p := PhaseOf(s, w);
      s.(jobs := SetStatus(s, p.job, p.result), locks := Release(s.locks, w),
         phases := s.phases[w := if s.jobs[p.job].kind == Ingest then Notifying(p.job) else Idle])
    case Callback(w) => s.(callbacks := s.callbacks + [PhaseOf(s, w).job], phases := s.phases[w := Idle])
    case Crash(w) => s.(locks := Release(s.locks, w), phases := s.phases[w := Idle])
  }

  // ---- The invariant ----

  predicate Works(p: Phase) { !p.Idle? && !p.Polling? }

  /** The worker has the job: it works on it, or has still to announce it. */
  predicate Has(s: System, w: Worker, j: JobId) {
    var p := PhaseOf(s, w); Works(p) && p.job == j
  }

  predicate Locks(p: Phase) { p.Holding? || p.Finishing? }

  /** What a worker's phase says about the committed row of its job. */
  predicate RowFits(s: System, p: Phase) {
    Works(p) ==>
      && p.job in s.jobs
      && var row := s.jobs[p.job];
         match p
         case Holding(_) => row.status == Pending
         case Detached(_) => row.status == Running
         case Finishing(_, r) => !Terminal(row.status) && Terminal(r) && (row.kind == Unknown ==> r == Failed)
         case Notifying(j) => Terminal(row.status) && row.kind == Ingest && j !in s.callbacks
  }

  ghost predicate Exclusive(s: System) {
    forall w, v, j :: Has(s, w, j) && Has(s, v, j) ==> w == v
  }

  ghost predicate LocksFit(s: System) {
    && (forall j :: j in s.locks ==> Locks(PhaseOf(s, s.locks[j])) && Has(s, s.locks[j], j))
    && (forall w, j :: Has(s, w, j) && Locks(PhaseOf(s, w)) ==> j in s.locks)
  }

  /** Only a purge is ever committed as running, and a job of unknown type is never done. */
  ghost predicate KindsFit(s: System) {
    forall j :: j in s.jobs ==>
      (s.jobs[j].status == Running ==> s.jobs[j].kind == Purge) && (s.jobs[j].status == Done ==>
        s.jobs[j].kind != Unknown)
  }

  ghost predicate CallbacksFit(s: System) {
    && (forall j :: j in s.callbacks ==> j in s.jobs && s.jobs[j].kind == Ingest && Terminal(s.jobs[j].status))
    && (forall i, k :: 0 <= i < k < |s.callbacks| ==> s.callbacks[i] != s.callbacks[k])
  }

  ghost predicate Inv(s: System) {
    && (forall w :: w in s.phases ==> RowFits(s, s.phases[w]))
    && Exclusive(s) && LocksFit(s) && KindsFit(s) && CallbacksFit(s)
  }

  predicate Initial(s: System) {
    s.locks == map[] && s.phases == map[] && s.callbacks == []
    && forall j :: j in s.jobs ==> s.jobs[j].status == Pending
  }

  predicate HasActor(e: Event) { !e.Enqueue? }

  lemma OthersRowFits(s: System, e: Event, w: Worker)
    requires Inv(s) && Enabled(s, e) && w in s.phases && !(HasActor(e) && e.worker == w)
    ensures w in Apply(s, e).phases && RowFits(Apply(s, e), Apply(s, e).phases[w])
  {
    hide LocksFit, KindsFit, CallbacksFit;
    assert RowFits(s, s.phases[w]);
    if Works(s.phases[w]) {
      assert Has(s, w, s.phases[w].job);
    }
    if HasActor(e) && Works(PhaseOf(s, e.worker)) {
      assert RowFits(s, s.phases[e.worker]);
      assert Has(s, e.worker, PhaseOf(s, e.worker).job);
    }
  }

  lemma ActorsRowFits(s: System, e: Event)
    requires Inv(s) && Enabled(s, e) && HasActor(e)
    ensures e.worker in Apply(s, e).phases && RowFits(Apply(s, e), Apply(s, e).phases[e.worker])
  {
    hide LocksFit, KindsFit, Exclusive;
    if Works(PhaseOf(s, e.worker)) {
      assert RowFits(s, s.phases[e.worker]);
    }
  }

  lemma PhasesAfter(s: System, e: Event)
    requires Enabled(s, e)
    ensures forall w :: w in Apply(s, e).phases ==> w in s.phases || (HasActor(e) && e.worker == w)
  {
  }

  lemma StepKeepsRows(s: System, e: Event)
    requires Inv(s) && Enabled(s, e)
    ensures var t := Apply(s, e); forall w :: w in t.phases ==> RowFits(t, t.phases[w])
  {
    hide Apply, Enabled, RowFits, Inv;
    PhasesAfter(s, e);
    forall w | w in Apply(s, e).phases ensures RowFits(Apply(s, e), Apply(s, e).phases[w]) {
      if HasActor(e) && e.worker == w { ActorsRowFits(s, e); } else { OthersRowFits(s, e, w); }
    }
  }

  /** Only a claim gives a worker a job it did not have. */
  lemma HadBefore(s: System, e: Event, w: Worker, j: JobId)
    requires Enabled(s, e) && Has(Apply(s, e), w, j)
    ensures Has(s, w, j) || e == Claim(w, j)
  {
  }

  lemma StepKeepsExclusive(s: System, e: Event)
    requires Inv(s) && Enabled(s, e)
    ensures Exclusive(Apply(s, e))
  {
    forall w, v, j | Has(Apply(s, e), w, j) && Has(Apply(s, e), v, j) ensures w == v {
      HadBefore(s, e, w, j);
      HadBefore(s, e, v, j);
      assert Has(s, w, j) ==> RowFits(s, s.phases[w]);
      assert Has(s, v, j) ==> RowFits(s, s.phases[v]);
    }
  }

  lemma StepKeepsLocks(s: System, e: Event)
    requires Inv(s) && Enabled(s, e)
    ensures LocksFit(Apply(s, e))
  {
    var t := Apply(s, e);
    if HasActor(e) && Works(PhaseOf(s, e.worker)) {
      assert Has(s, e.worker, PhaseOf(s, e.worker).job);
    }
    forall j | j in t.locks ensures Locks(PhaseOf(t, t.locks[j])) && Has(t, t.locks[j], j) {
      if j in s.locks { assert Has(s, s.locks[j], j); }
    }
    forall w, j | Has(t, w, j) && Locks(PhaseOf(t, w)) ensures j in t.locks {
      HadBefore(s, e, w, j);
      if j in s.locks { assert Has(s, s.locks[j], j); }
    }
  }

  lemma StepKeepsInv(s: System, e: Event)
    requires Inv(s) && Enabled(s, e)
    ensures Inv(Apply(s, e))
  {
    StepKeepsRows(s, e);
    StepKeepsExclusive(s, e);
    StepKeepsLocks(s, e);
  }

  // ---- Runs: every interleaving of every number of workers ----

  ghost predicate StepAt(ss: seq<System>, es: seq<Event>, i: nat)
    requires i < |es| && |ss| == |es| + 1
  {
    Enabled(ss[i], es[i]) && ss[i + 1] == Apply(ss[i], es[i])
  }

  ghost predicate Run(ss: seq<System>, es: seq<Event>) {
    && |ss| == |es| + 1 && Initial(ss[0])
    && forall i :: 0 <= i < |es| ==> StepAt(ss, es, i)
  }

  lemma {:induction false} InvHolds(ss: seq<System>, es: seq<Event>, i: nat)
    requires Run(ss, es) && i < |ss|
    ensures Inv(ss[i])
  {
    if i > 0 {
      InvHolds(ss, es, i - 1);
      assert StepAt(ss, es, i - 1);
      StepKeepsInv(ss[i - 1], es[i - 1]);
    }
  }

  /** No two live workers have the same job; a job claimed and not yet committed still reads
      "pending" to everybody else; and only a purge is ever seen "running". */
  lemma NoDoubleClaim(ss: seq<System>, es: seq<Event>, i: nat, w: Worker, v: Worker, j: JobId)
    requires Run(ss, es) && i < |ss| && Has(ss[i], w, j)
    ensures Has(ss[i], v, j) ==> w == v
    ensures j in ss[i].jobs && (PhaseOf(ss[i], w).Holding? ==>
      ss[i].jobs[j].status == Pending && j in ss[i].locks && ss[i].locks[j] == w)
    ensures (ss[i].jobs[j].status == Running ==> ss[i].jobs[j].kind == Purge)
  {
    InvHolds(ss, es, i);
    assert RowFits(ss[i], ss[i].phases[w]);
    if j in ss[i].locks {
      assert Has(ss[i], ss[i].locks[j], j);
    }
  }

  function Level(st: Status): nat {
    match st
    case Pending => 0
    case Running => 1
    case Done => 2
    case Failed => 2
  }

  /** How one step may change a committed row: never backwards, never out of a terminal status. */
  lemma StepForward(s: System, e: Event, j: JobId)
    requires Inv(s) && Enabled(s, e) && j in s.jobs
    ensures var t := Apply(s, e);
      && j in t.jobs && t.jobs[j].kind == s.jobs[j].kind && t.jobs[j].createdAt == s.jobs[j].createdAt
      && Level(s.jobs[j].status) <= Level(t.jobs[j].status)
      && (Terminal(s.jobs[j].status) ==> t.jobs[j] == s.jobs[j])
      && (t.jobs[j] != s.jobs[j] ==> HasActor(e) && Has(s, e.worker, j) && (e.BodyCommit? || e.Commit?))
  {
    if HasActor(e) && Works(PhaseOf(s, e.worker)) {
      assert RowFits(s, s.phases[e.worker]);
    }
  }

  /** Over any stretch of any run a job is never lost, its status only moves forward, and once done
      or failed it never changes again. */
  lemma {:induction false} StatusOnlyMovesForward(ss: seq<System>, es: seq<Event>, i: nat, k: nat, j: JobId)
    requires Run(ss, es) && i <= k < |ss| && j in ss[i].jobs
    ensures j in ss[k].jobs && ss[k].jobs[j].kind == ss[i].jobs[j].kind
    ensures ss[k].jobs[j].createdAt == ss[i].jobs[j].createdAt
    ensures Level(ss[i].jobs[j].status) <= Level(ss[k].jobs[j].status)
    ensures Terminal(ss[i].jobs[j].status) ==> ss[k].jobs[j] == ss[i].jobs[j]
    decreases k - i
  {
    if i < k {
      StatusOnlyMovesForward(ss, es, i, k - 1, j);
      InvHolds(ss, es, k - 1);
      assert StepAt(ss, es, k - 1);
      StepForward(ss[k - 1], es[k - 1], j);
    }
  }

  ghost predicate CommitsAt(ss: seq<System>, es: seq<Event>, i: nat, j: JobId) {
    i < |es| && i < |ss| && es[i].Commit? && Has(ss[i], es[i].worker, j)
  }

  /** A job's terminal status is committed at most once in a run. */
  lemma CommittedOnce(ss: seq<System>, es: seq<Event>, i: nat, k: nat, j: JobId)
    requires Run(ss, es) && CommitsAt(ss, es, i, j) && CommitsAt(ss, es, k, j)
    ensures i == k
  {
    var a, b := if i < k then i else k, if i < k then k else i;
    InvHolds(ss, es, a);
    InvHolds(ss, es, b);
    assert StepAt(ss, es, a);
    assert RowFits(ss[a], ss[a].phases[es[a].worker]);
    assert StepAt(ss, es, b);
    assert RowFits(ss[b], ss[b].phases[es[b].worker]);
    if a < b {
      StatusOnlyMovesForward(ss, es, a + 1, b, j);
    }
  }

  /** A callback is attempted only for an ingest job whose terminal status is already committed,
      and never twice for the same job. */
  lemma CallbackAfterCommit(ss: seq<System>, es: seq<Event>, i: nat, j: JobId)
    requires Run(ss, es) && i < |es| && es[i].Callback? && Has(ss[i], es[i].worker, j)
    ensures j in ss[i].jobs && ss[i].jobs[j].kind == Ingest && Terminal(ss[i].jobs[j].status)
    ensures j !in ss[i].callbacks && ss[i + 1].callbacks == ss[i].callbacks + [j]
    ensures exists m: nat :: m < i && CommitsAt(ss, es, m, j)
  {
    InvHolds(ss, es, i);
    assert StepAt(ss, es, i);
    assert RowFits(ss[i], ss[i].phases[es[i].worker]);
    TerminalWasCommitted(ss, es, i, j);
  }

  lemma {:induction false} TerminalWasCommitted(ss: seq<System>, es: seq<Event>, i: nat, j: JobId)
    requires Run(ss, es) && i < |ss| && j in ss[i].jobs && Terminal(ss[i].jobs[j].status)
    ensures exists m: nat :: m < i && CommitsAt(ss, es, m, j)
  {
    if i > 0 {
      InvHolds(ss, es, i - 1);
      assert StepAt(ss, es, i - 1);
      if j in ss[i - 1].jobs {
        StepForward(ss[i - 1], es[i - 1], j);
        if Terminal(ss[i - 1].jobs[j].status) {
          TerminalWasCommitted(ss, es, i - 1, j);
        } else {
          assert CommitsAt(ss, es, i - 1, j);
        }
      }
    }
  }

  /** A job whose type the worker does not know ends failed, if it ends at all. */
  lemma UnknownTypeNeverDone(ss: seq<System>, es: seq<Event>, i: nat, j: JobId)
    requires Run(ss, es) && i < |ss| && j in ss[i].jobs && ss[i].jobs[j].kind == Unknown
    ensures ss[i].jobs[j].status == Pending || ss[i].jobs[j].status == Failed
  {
    InvHolds(ss, es, i);
  }

  // ---- Crashes ----

  /** A crash leaves the job of a working transaction claimable again exactly when the body had not
      committed "running" on the way, that is, when the committed row still reads pending. */
  lemma CrashLeavesClaimable(s: System, w: Worker, j: JobId)
    requires Inv(s) && Has(s, w, j) && !PhaseOf(s, w).Notifying?
    ensures Claimable(Apply(s, Crash(w)), j) <==> s.jobs[j].status == Pending
    ensures s.jobs[j].kind != Purge ==> Claimable(Apply(s, Crash(w)), j)
  {
    assert RowFits(s, s.phases[w]);
    if j in s.locks {
      assert Has(s, s.locks[j], j);
    }
  }

  /** A committed "running" row that no worker has. */
  ghost predicate Orphaned(s: System, j: JobId) {
    j in s.jobs && s.jobs[j].status == Running && forall w :: !Has(s, w, j)
  }

  lemma OrphanStays(s: System, e: Event, j: JobId)
    requires Inv(s) && Enabled(s, e) && Orphaned(s, j)
    ensures Orphaned(Apply(s, e), j)
  {
    StepForward(s, e, j);
    forall w ensures !Has(Apply(s, e), w, j) {
      if Has(Apply(s, e), w, j) { HadBefore(s, e, w, j); }
    }
  }

  /** An orphaned job is stuck for the rest of every run: never claimed, never finished, and no idle poll
      that reads while it exists schedules another purge. */
  lemma {:induction false} OrphanIsForever(ss: seq<System>, es: seq<Event>, i: nat, k: nat, j: JobId)
    requires Run(ss, es) && i <= k < |ss| && Orphaned(ss[i], j)
    ensures Orphaned(ss[k], j) && !Claimable(ss[k], j)
    ensures k < |es| ==> !es[k].IdleRead?
    decreases k - i
  {
    InvHolds(ss, es, k);
    if i < k {
      OrphanIsForever(ss, es, i, k - 1, j);
      InvHolds(ss, es, k - 1);
      assert StepAt(ss, es, k - 1);
      OrphanStays(ss[k - 1], es[k - 1], j);
    }
    if k < |es| {
      assert StepAt(ss, es, k);
    }
  }

  /** A purge that is scheduled after a job was orphaned comes from a poll that had read before, and is
      the last one its worker schedules: the worker has been between reading and inserting all along. */
  lemma {:induction false} LatePurgeReadBefore(ss: seq<System>, es: seq<Event>, i: nat, k: nat, n: nat, j: JobId,
                                               w: Worker)
    requires Run(ss, es) && i <= n <= k < |ss| && Orphaned(ss[i], j) && PhaseOf(ss[k], w).Polling?
    ensures PhaseOf(ss[n], w).Polling?
    decreases k - n
  {
    if n < k {
      OrphanIsForever(ss, es, i, k - 1, j);
      assert StepAt(ss, es, k - 1);
      LatePurgeReadBefore(ss, es, i, k - 1, n, j, w);
    }
  }

  /** The only way to become orphaned: the worker of a purge dies after the body has committed. */
  lemma OrphanedOnlyByCrash(s: System, e: Event, j: JobId)
    requires Inv(s) && Enabled(s, e) && !Orphaned(s, j) && Orphaned(Apply(s, e), j)
    ensures e.Crash? && Has(s, e.worker, j) && s.jobs[j].status == Running && s.jobs[j].kind == Purge
  {
    var t := Apply(s, e);
    if HasActor(e) && Works(PhaseOf(s, e.worker)) {
      assert RowFits(s, s.phases[e.worker]);
    }
    if j in s.jobs {
      StepForward(s, e, j);
      if w :| Has(s, w, j) {
        assert !Has(t, w, j);
        assert RowFits(s, s.phases[w]);
      }
    }
  }

  /** Two claims of one job are separated by a crash of the first claimant. */
  lemma ReclaimNeedsCrash(ss: seq<System>, es: seq<Event>, i: nat, k: nat, w: Worker, v: Worker, j: JobId)
    requires Run(ss, es) && i < k < |es| && es[i] == Claim(w, j) && es[k] == Claim(v, j)
    ensures exists m :: i < m < k && es[m] == Crash(w)
  {
    InvHolds(ss, es, i);
    assert StepAt(ss, es, i);
    assert Has(ss[i + 1], w, j);
    InvHolds(ss, es, k);
    assert StepAt(ss, es, k);
    if !(exists m :: i < m < k && es[m] == Crash(w)) {
      KeepsUnlessCrash(ss, es, i, k, w, j);
    }
  }

  lemma {:induction false} KeepsUnlessCrash(ss: seq<System>, es: seq<Event>, i: nat, k: nat, w: Worker, j: JobId)
    requires Run(ss, es) && i < k < |ss| && es[i] == Claim(w, j)
    requires forall m :: i < m < k ==> es[m] != Crash(w)
    ensures Has(ss[k], w, j) || (j in ss[k].jobs && Terminal(ss[k].jobs[j].status))
    decreases k - i
  {
    InvHolds(ss, es, k - 1);
    assert StepAt(ss, es, k - 1);
    if i + 1 < k {
      KeepsUnlessCrash(ss, es, i, k - 1, w, j);
      if Has(ss[k - 1], w, j) {
        assert RowFits(ss[k - 1], ss[k - 1].phases[w]);
      } else {
        StepForward(ss[k - 1], es[k - 1], j);
      }
    }
  }

  /** Every job is in exactly one place: claimable, in the hands of exactly one worker, finished
      with nobody left to announce it, or orphaned; and one of unknown type is never done. */
  lemma EveryJobIsSomewhere(ss: seq<System>, es: seq<Event>, i: nat, j: JobId)
    requires Run(ss, es) && i < |ss| && j in ss[i].jobs
    ensures var s := ss[i]; var held := exists w :: Has(s, w, j);
      var finished := Terminal(s.jobs[j].status) && !held;
      && (Claimable(s, j) || held || finished || Orphaned(s, j))
      && !(Claimable(s, j) && (held || finished || Orphaned(s, j)))
      && !(Orphaned(s, j) && (held || finished))
      && (s.jobs[j].kind == Unknown ==> s.jobs[j].status == Pending || s.jobs[j].status == Failed)
  {
    var s := ss[i];
    InvHolds(ss, es, i);
    if s.jobs[j].kind == Unknown { UnknownTypeNeverDone(ss, es, i, j); }
    if j in s.locks {
      assert Has(s, s.locks[j], j);
    }
    if w :| Has(s, w, j) {
      assert RowFits(s, s.phases[w]);
    }
  }

  const PENDING_PURGE := map[0 := Job(Purge, Pending, 0)]
  const RUNNING_PURGE := map[0 := Job(Purge, Running, 0)]

  lemma ExampleCrash()
    ensures var s := System(RUNNING_PURGE, map[], map[7 := Detached(0)], []);
      Enabled(s, Crash(7)) && Apply(s, Crash(7)) == System(RUNNING_PURGE, map[], map[7 := Idle], [])
  {
  }

  lemma ExampleOrphan()
    ensures Orphaned(System(RUNNING_PURGE, map[], map[7 := Idle], []), 0)
  {
  }

  /** A crash after a purge body has committed: the row stays "running" for ever. */
  lemma PurgeCrashExample() returns (ss: seq<System>, es: seq<Event>)
    ensures Run(ss, es) && |es| > 0 && es[|es| - 1].Crash? && Orphaned(ss[|es|], 0)
  {
    var s0, s1 := System(PENDING_PURGE, map[], map[], []), System(PENDING_PURGE, map[0 := 7], map[7 := Holding(0)], []);
    var s2 := System(RUNNING_PURGE, map[], map[7 := Detached(0)], []);
    var s3 := System(RUNNING_PURGE, map[], map[7 := Idle], []);
    assert Initial(s0);
    hide Apply, Enabled, Orphaned, Run, Initial;
    ss, es := [s0, s1, s2, s3], [Claim(7, 0), BodyCommit(7, {}, 0), Crash(7)];
    ExampleCrash();
    ExampleOrphan();
  }
}
