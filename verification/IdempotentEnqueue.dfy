/** POST /ingestions with an Idempotency-Key, as a step protocol: any number of concurrent requests,
    each one transaction, over committed key and job tables. Statements see committed rows only
    (READ COMMITTED). The only synchronisation is the primary key of the key table: an INSERT, or a
    DELETE of the committed row, waits while another open transaction has inserted or deleted it. */
module IdempotentEnqueue {
  import opened Sequences

  type Key = string
  type Scope = string
  type JobId = nat
  type RequestId = nat

  datatype Request = Request(key: Option<Key>, scope: Scope, tail: bool)

  /** A key row: the job it is bound to and when the binding expires. */
  datatype Row = Row(job: JobId, expires: int)

  /** A committed job: who created it, under which key and scope, and its binding window. */
  datatype Job = Job(creator: RequestId, key: Option<Key>, scope: Scope, tail: bool, boundAt: int, expires: int)

  datatype Response =
    | Accepted(job: JobId, tail: bool)  // 202
    | ScopeConflict                     // 409 IDEMPOTENCY_SCOPE_CONFLICT
    | QueueFull                         // 429 INGEST_QUEUE_FULL
    | ServerError                       // 500

  datatype Phase =
    | Fresh
    | Looked                                          // replay check found no active row
    | Admitted                                        // the queue had room
    | Added(job: JobId)                               // own job flushed, not committed
    | Stale(job: JobId, read: Row, now: int)          // an expired row was read, to be deleted
    | Deleting(job: JobId, read: Row, target: Row, now: int) // DELETE issued, aiming at this row
    | Inserting(job: JobId, now: int, owns: bool)     // INSERT comes next; owns: the DELETE removed a row
    | Beaten(job: JobId, now: int)                    // the INSERT violated the primary key
    | Bound(job: JobId, boundAt: int)                 // key inserted (or no key), not committed
    | Losing(answer: Response)                        // own job deleted again, not committed
    | Decided(response: Response)                     // transaction over, response not sent
    | Answered(response: Response)
    | Dead                                            // the process died: no response was sent

  /** `keys` and `jobs` are the committed tables; `holders` names the open transaction that has
      inserted or deleted a key; `used` are the job ids generated so far. */
  datatype System = System(requests: map<RequestId, Request>, phases: map<RequestId, Phase>,
                           keys: map<Key, Row>, jobs: map<JobId, Job>, holders: map<Key, RequestId>,
                           used: set<JobId>, ttl: nat)

  datatype Event =
    | Arrive(r: RequestId, request: Request)
    | Lookup(r: RequestId, now: int)       // _replay_if_active
    | QueueCheck(r: RequestId, full: bool) // _reject_if_queue_full
    | AddJob(r: RequestId, id: JobId)      // db.add(job); db.flush()
    | ReadKey(r: RequestId, now: int)      // store_idempotency_key: get_idempotency_row
    | StartDelete(r: RequestId)            // DELETE by key: the row committed now is its target
    | FinishDelete(r: RequestId)           // nobody holds the key: the target goes if it is still there
    | InsertKey(r: RequestId)              // INSERT of the new row
    | ReadWinner(r: RequestId)             // after a violation: get_idempotency_row
    | Commit(r: RequestId)                 // get_db: session.commit()
    | Reply(r: RequestId)
    | Crash(r: RequestId)                  // process death; rolls back whatever is open

  predicate In(s: System, r: RequestId) { r in s.requests && r in s.phases }

  predicate Active(row: Row, now: int) { row.expires > now }

  predicate HasRow(s: System, key: Option<Key>) { key.Some? && key.value in s.keys }

  predicate HasActiveRow(s: System, key: Option<Key>, now: int) { HasRow(s, key) && Active(s.keys[key.value], now) }

  /** Nobody has the key in an open transaction. */
  predicate Unheld(s: System, key: Option<Key>) { key.Some? && key.value !in s.holders }

  predicate Over(p: Phase) { p.Answered? || p.Dead? }

  function ScopeOf(s: System, row: Row): Scope { if row.job in s.jobs then s.jobs[row.job].scope else "default" }

  function ModeOf(s: System, row: Row): bool { row.job in s.jobs && s.jobs[row.job].tail }

  /** The answer for a key that is already bound: the original job in its own scope, a conflict
      (without the job) in any other. */
  function Replay(s: System, row: Row, scope: Scope): Response {
    if ScopeOf(s, row) == scope then Accepted(row.job, ModeOf(s, row)) else ScopeConflict
  }

  predicate Enabled(s: System, e: Event) {
    if e.Arrive? then e.r !in s.requests && e.r !in s.phases
    else
      && In(s, e.r)
      && var q, p := s.requests[e.r], s.phases[e.r];
         match e
         case Arrive(_, _) => false
         case Lookup(_, _) => p.Fresh?
         case QueueCheck(_, _) => p.Looked?
         case AddJob(_, id) => p.Admitted? && id !in s.used
         case ReadKey(_, _) => p.Added?
         case StartDelete(_) => p.Stale? && HasRow(s, q.key)
         case FinishDelete(_) => p.Deleting? && HasRow(s, q.key) && Unheld(s, q.key)
         case InsertKey(_) => p.Inserting? && q.key.Some? && (p.owns || Unheld(s, q.key))
         case ReadWinner(_) => p.Beaten? && HasRow(s, q.key)
         case Commit(_) => p.Bound? || p.Losing?
         case Reply(_) => p.Decided?
         case Crash(_) => !Over(p)
  }

  function Free(holders: map<Key, RequestId>, r: RequestId): map<Key, RequestId> {
    map k | k in holders && holders[k] != r :: holders[k]
  }

  /** The phase that a step which only reads leads to. */
  function Next(s: System, e: Event): Phase
    requires Enabled(s, e)
  {
    match e
    case Arrive(_, _) => Fresh
    case Lookup(r, now) =>
      var q := s.requests[r];
      if HasActiveRow(s, q.key, now) then Decided(Replay(s, s.keys[q.key.value], q.scope)) else Looked
    case QueueCheck(r, full) => if full then Decided(QueueFull) else Admitted
    case AddJob(r, id) => Added(id)
    case ReadKey(r, now) =>
      var q, id := s.requests[r], s.phases[r].job;
      if q.key.None? then Bound(id, now)
      else if !HasRow(s, q.key) then Inserting(id, now, false)
      else if Active(s.keys[q.key.value], now) then Losing(Replay(s, s.keys[q.key.value], q.scope))
      else Stale(id, s.keys[q.key.value], now)
    case StartDelete(r) =>
      var p := s.phases[r]; Deleting(p.job, p.read, s.keys[s.requests[r].key.value], p.now)
    case FinishDelete(r) =>
      var p := s.phases[r]; Inserting(p.job, p.now, s.keys[s.requests[r].key.value] == p.target)
    case InsertKey(r) =>
      var p := s.phases[r];
      if p.owns || !HasRow(s, s.requests[r].key) then Bound(p.job, p.now) else Beaten(p.job, p.now)
    case ReadWinner(r) =>
      var q, p := s.requests[r], s.phases[r];
      if HasActiveRow(s, q.key, p.now) then Losing(Replay(s, s.keys[q.key.value], q.scope)) else Answered(ServerError)
    case Commit(r) =>
      var p := s.phases[r];
      if p.Bound? then Decided(Accepted(p.job, s.requests[r].tail)) else Decided(p.answer)
    case Reply(r) => Answered(s.phases[r].response)
    case Crash(_) => Dead
  }

  /** The holders after a step: a DELETE that removes the row and an INSERT take the key, the end of
      the transaction gives it back. */
  function HoldersAfter(s: System, e: Event): map<Key, RequestId>
    requires Enabled(s, e)
  {
    var p := Next(s, e);
    if (e.FinishDelete? && p.owns) || (e.InsertKey? && p.Bound?) then s.holders[s.requests[e.r].key.value := e.r]
    else if e.Commit? || e.Crash? then Free(s.holders, e.r)
    else s.holders
  }

  /** The only step that changes the committed tables. */
  predicate Binds(s: System, e: Event) { e.Commit? && In(s, e.r) && s.phases[e.r].Bound? }

  function BoundJob(s: System, r: RequestId): Job
    requires In(s, r) && s.phases[r].Bound?
  {
    var q, at := s.requests[r], s.phases[r].boundAt; Job(r, q.key, q.scope, q.tail, at, at + s.ttl)
  }

  function Apply(s: System, e: Event): System
    requires Enabled(s, e)
  {
    var t := s.(phases := s.phases[e.r := Next(s, e)], holders := HoldersAfter(s, e));
    if e.Arrive? then t.(requests := s.requests[e.r := e.request])
    else if e.AddJob? then t.(used := s.used + {e.id})
    else if Binds(s, e) then
      var key, id, job := s.requests[e.r].key, s.phases[e.r].job, BoundJob(s, e.r);
      t.(jobs := s.jobs[id := job], keys := if key.Some? then s.keys[key.value := Row(id, job.expires)] else s.keys)
    else t
  }

  // ---- The invariant ----

  function OwnJob(p: Phase): Option<JobId> {
    match p
    case Added(j) => Some(j)
    case Stale(j, _, _) => Some(j)
    case Deleting(j, _, _, _) => Some(j)
    case Inserting(j, _, _) => Some(j)
    case Beaten(j, _) => Some(j)
    case Bound(j, _) => Some(j)
    case _ => None
  }

  /** The transaction has inserted or deleted its key. */
  predicate Holds(p: Phase) { p.Bound? || (p.Inserting? && p.owns) }

  /** A 202 names a committed job created under the request's key and scope. */
  ghost predicate AnswerFits(s: System, q: Request, answer: Response) {
    answer.Accepted? ==>
      && answer.job in s.jobs && s.jobs[answer.job].scope == q.scope && s.jobs[answer.job].key == q.key
      && answer.tail == s.jobs[answer.job].tail
  }

  ghost predicate PhaseFits(s: System, r: RequestId)
    requires In(s, r)
  {
    var q, p := s.requests[r], s.phases[r];
    && (OwnJob(p).Some? ==> OwnJob(p).value in s.used && OwnJob(p).value !in s.jobs)
    && (p.Losing? ==> AnswerFits(s, q, p.answer) && (p.answer.Accepted? || p.answer.ScopeConflict?))
    && (p.Decided? || p.Answered? ==> AnswerFits(s, q, p.response))
    && (p.Stale? || p.Deleting? ==> HasRow(s, q.key) && p.read.expires <= p.now)
    && (p.Beaten? ==> HasRow(s, q.key))
    && (p.Inserting? ==> q.key.Some? && (p.owns ==> q.key.value in s.keys))
    && (Holds(p) && q.key.Some? ==> q.key.value in s.holders && s.holders[q.key.value] == r)
  }

  ghost predicate OwnJobsDiffer(s: System) {
    forall r, u :: r in s.phases && u in s.phases && r != u && OwnJob(s.phases[r]).Some? ==>
      OwnJob(s.phases[r]) != OwnJob(s.phases[u])
  }

  /** What its creator knows of a committed job: it is about to be told, was told, or died. */
  predicate KnownTo(p: Phase, j: JobId, tail: bool) {
    p == Decided(Accepted(j, tail)) || p == Answered(Accepted(j, tail)) || p == Dead
  }

  ghost predicate JobFits(s: System, j: JobId)
    requires j in s.jobs
  {
    var job := s.jobs[j];
    && j in s.used && job.creator in s.phases && KnownTo(s.phases[job.creator], j, job.tail)
    && job.expires == job.boundAt + s.ttl
    && (job.key.Some? ==> job.key.value in s.keys)
  }

  ghost predicate CreatorsDiffer(s: System) {
    forall a, b :: a in s.jobs && b in s.jobs && s.jobs[a].creator == s.jobs[b].creator ==> a == b
  }

  ghost predicate KeyFits(s: System, k: Key)
    requires k in s.keys
  {
    var row := s.keys[k];
    row.job in s.jobs && s.jobs[row.job].key == Some(k) && s.jobs[row.job].expires == row.expires
  }

  ghost predicate HolderFits(s: System, k: Key)
    requires k in s.holders
  {
    var r := s.holders[k]; In(s, r) && Holds(s.phases[r]) && s.requests[r].key == Some(k)
  }

  ghost predicate Inv(s: System) {
    && s.requests.Keys == s.phases.Keys
    && (forall r :: r in s.phases ==> PhaseFits(s, r))
    && (forall j :: j in s.jobs ==> JobFits(s, j))
    && (forall k :: k in s.keys ==> KeyFits(s, k))
    && (forall k :: k in s.holders ==> HolderFits(s, k))
    && OwnJobsDiffer(s) && CreatorsDiffer(s)
  }

  predicate Initial(s: System) {
    s.requests == map[] && s.phases == map[] && s.keys == map[] && s.jobs == map[] && s.holders == map[] && s.used == {}
  }

  // ---- What a step changes ----

  /** Other requests and, unless it commits a binding, the tables are left alone. */
  lemma StepFrame(s: System, e: Event)
    requires Enabled(s, e)
    ensures var t := Apply(s, e);
      && t.ttl == s.ttl && s.used <= t.used && t.holders == HoldersAfter(s, e)
      && t.phases == s.phases[e.r := Next(s, e)]
      && t.requests.Keys == s.requests.Keys + {e.r} && (forall u :: u in s.requests ==> t.requests[u] == s.requests[u])
      && (!Binds(s, e) ==> t.jobs == s.jobs && t.keys == s.keys)
  {
    hide Next, HoldersAfter;
  }

  lemma BindFrame(s: System, e: Event)
    requires Enabled(s, e) && Binds(s, e)
    ensures var t, key, id, job := Apply(s, e), s.requests[e.r].key, s.phases[e.r].job, BoundJob(s, e.r);
      && t.jobs == s.jobs[id := job]
      && t.keys == (if key.Some? then s.keys[key.value := Row(id, job.expires)] else s.keys)
      && t.phases[e.r] == Decided(Accepted(id, job.tail)) && t.used == s.used && t.requests == s.requests
  {
    hide HoldersAfter;
  }

  /** Keys change hands only through the request that takes the step. */
  lemma HolderFrame(s: System, e: Event)
    requires Inv(s) && Enabled(s, e)
    ensures var t := HoldersAfter(s, e);
      && (forall k :: k in t ==> t[k] == e.r || (k in s.holders && t[k] == s.holders[k]))
      && (forall k :: k in s.holders && s.holders[k] != e.r ==> k in t && t[k] == s.holders[k])
      && (e.Commit? || e.Crash? ==> forall k :: k in t ==> t[k] != e.r)
  {
    hide Next, JobFits, KeyFits, HolderFits, OwnJobsDiffer, CreatorsDiffer, AnswerFits, Binds;
    if e.InsertKey? {
      assert PhaseFits(s, e.r);
    }
  }

  /** The tables only grow: a job, once committed, stays as it is, and a key keeps having a row. */
  lemma TablesGrow(s: System, e: Event)
    requires Inv(s) && Enabled(s, e)
    ensures forall j :: j in s.jobs ==> j in Apply(s, e).jobs && Apply(s, e).jobs[j] == s.jobs[j]
    ensures s.keys.Keys <= Apply(s, e).keys.Keys
  {
    hide Apply, Enabled, JobFits, KeyFits, HolderFits, OwnJobsDiffer, CreatorsDiffer, Next, HoldersAfter;
    StepFrame(s, e);
    if Binds(s, e) {
      BindFrame(s, e);
      assert PhaseFits(s, e.r);
    }
  }

  // ---- Every step keeps the invariant ----

  lemma ReplayFits(s: System, q: Request)
    requires Inv(s) && HasRow(s, q.key)
    ensures AnswerFits(s, q, Replay(s, s.keys[q.key.value], q.scope))
    ensures var a := Replay(s, s.keys[q.key.value], q.scope); a.Accepted? || a.ScopeConflict?
  {
    assert KeyFits(s, q.key.value);
  }

  /** What a phase says stays true while the tables grow and the request keeps what it holds. */
  lemma PhaseStays(s: System, t: System, r: RequestId)
    requires In(s, r) && In(t, r) && PhaseFits(s, r)
    requires t.requests[r] == s.requests[r] && t.phases[r] == s.phases[r] && s.used <= t.used
    requires forall j :: j in s.jobs ==> j in t.jobs && t.jobs[j] == s.jobs[j]
    requires s.keys.Keys <= t.keys.Keys
    requires forall k :: k in s.holders && s.holders[k] == r ==> k in t.holders && t.holders[k] == r
    requires OwnJob(s.phases[r]).Some? ==> OwnJob(s.phases[r]).value !in t.jobs
    ensures PhaseFits(t, r)
  {
  }

  lemma OwnJobUntouched(s: System, e: Event, r: RequestId)
    requires Inv(s) && Enabled(s, e) && r in s.phases && r != e.r && OwnJob(s.phases[r]).Some?
    ensures OwnJob(s.phases[r]).value !in Apply(s, e).jobs
  {
    hide Apply, Enabled, JobFits, KeyFits, HolderFits, CreatorsDiffer, Next, HoldersAfter, AnswerFits;
    StepFrame(s, e);
    assert PhaseFits(s, r);
    if Binds(s, e) {
      BindFrame(s, e);
    }
  }

  lemma OtherPhaseKept(s: System, e: Event, r: RequestId)
    requires Inv(s) && Enabled(s, e) && r in s.phases && r != e.r
    ensures In(Apply(s, e), r) && PhaseFits(Apply(s, e), r)
  {
    hide Apply, Enabled, JobFits, KeyFits, HolderFits, OwnJobsDiffer, CreatorsDiffer, Next, HoldersAfter, PhaseFits;
    StepFrame(s, e);
    TablesGrow(s, e);
    HolderFrame(s, e);
    if OwnJob(s.phases[r]).Some? {
      OwnJobUntouched(s, e, r);
    }
    PhaseStays(s, Apply(s, e), r);
  }

  lemma ActorStarts(s: System, e: Event)
    requires Inv(s) && Enabled(s, e) && (e.Arrive? || e.QueueCheck? || e.Reply? || e.Crash?)
    ensures In(Apply(s, e), e.r) && PhaseFits(Apply(s, e), e.r)
  {
    hide KeyFits, HolderFits, OwnJobsDiffer, CreatorsDiffer, JobFits, HoldersAfter;
    assert !e.Arrive? ==> PhaseFits(s, e.r);
  }

  lemma ActorAdds(s: System, e: Event)
    requires Inv(s) && Enabled(s, e) && e.AddJob?
    ensures In(Apply(s, e), e.r) && PhaseFits(Apply(s, e), e.r)
  {
    hide KeyFits, HolderFits, OwnJobsDiffer, CreatorsDiffer, HoldersAfter;
    assert e.id in s.jobs ==> JobFits(s, e.id);
  }

  lemma AnswersStay(s: System, t: System, q: Request)
    requires s.jobs == t.jobs
    ensures forall a :: AnswerFits(s, q, a) || !a.Accepted? ==> AnswerFits(t, q, a)
  {
  }

  lemma ActorLooks(s: System, e: Event)
    requires Inv(s) && Enabled(s, e) && e.Lookup?
    ensures In(Apply(s, e), e.r) && PhaseFits(Apply(s, e), e.r)
  {
    hide JobFits, KeyFits, HolderFits, OwnJobsDiffer, CreatorsDiffer, Replay, AnswerFits;
    assert PhaseFits(s, e.r);
    var q := s.requests[e.r];
    if HasRow(s, q.key) {
      ReplayFits(s, q);
    }
    assert Apply(s, e).jobs == s.jobs;
    AnswersStay(s, Apply(s, e), q);
  }

  lemma ActorReadsKey(s: System, e: Event)
    requires Inv(s) && Enabled(s, e) && e.ReadKey?
    ensures In(Apply(s, e), e.r) && PhaseFits(Apply(s, e), e.r)
  {
    hide JobFits, KeyFits, HolderFits, OwnJobsDiffer, CreatorsDiffer, Replay, AnswerFits;
    assert PhaseFits(s, e.r);
    var q := s.requests[e.r];
    if HasRow(s, q.key) {
      ReplayFits(s, q);
    }
    assert Apply(s, e).jobs == s.jobs;
    AnswersStay(s, Apply(s, e), q);
  }

  lemma ActorReadsWinner(s: System, e: Event)
    requires Inv(s) && Enabled(s, e) && e.ReadWinner?
    ensures In(Apply(s, e), e.r) && PhaseFits(Apply(s, e), e.r)
  {
    hide JobFits, KeyFits, HolderFits, OwnJobsDiffer, CreatorsDiffer, Replay, AnswerFits;
    assert PhaseFits(s, e.r);
    var q := s.requests[e.r];
    if HasRow(s, q.key) {
      ReplayFits(s, q);
    }
    assert Apply(s, e).jobs == s.jobs;
    AnswersStay(s, Apply(s, e), q);
  }

  lemma ActorWrites(s: System, e: Event)
    requires Inv(s) && Enabled(s, e) && (e.StartDelete? || e.FinishDelete? || e.InsertKey?)
    ensures In(Apply(s, e), e.r) && PhaseFits(Apply(s, e), e.r)
  {
    hide JobFits, KeyFits, HolderFits, OwnJobsDiffer, CreatorsDiffer, Replay, AnswerFits;
    assert PhaseFits(s, e.r);
  }

  lemma ToldFits(t: System, r: RequestId, j: JobId)
    requires In(t, r) && j in t.jobs && t.phases[r] == Decided(Accepted(j, t.jobs[j].tail))
    requires t.jobs[j].scope == t.requests[r].scope && t.jobs[j].key == t.requests[r].key
    ensures PhaseFits(t, r)
  {
  }

  lemma ActorBinds(s: System, e: Event)
    requires Inv(s) && Enabled(s, e) && Binds(s, e)
    ensures In(Apply(s, e), e.r) && PhaseFits(Apply(s, e), e.r)
  {
    hide Inv, Enabled, Apply, Next, HoldersAfter, PhaseFits;
    StepFrame(s, e);
    BindFrame(s, e);
    ToldFits(Apply(s, e), e.r, s.phases[e.r].job);
  }

  lemma ActorLoses(s: System, e: Event)
    requires Inv(s) && Enabled(s, e) && e.Commit? && !Binds(s, e)
    ensures In(Apply(s, e), e.r) && PhaseFits(Apply(s, e), e.r)
  {
    hide JobFits, KeyFits, HolderFits, OwnJobsDiffer, CreatorsDiffer, Replay, HoldersAfter, AnswerFits;
    assert PhaseFits(s, e.r);
    AnswersStay(s, Apply(s, e), s.requests[e.r]);
  }

  lemma ActorPhaseFits(s: System, e: Event)
    requires Inv(s) && Enabled(s, e)
    ensures In(Apply(s, e), e.r) && PhaseFits(Apply(s, e), e.r)
  {
    hide Apply, Enabled, PhaseFits, Inv;
    match e
    case Lookup(_, _) => ActorLooks(s, e);
    case ReadKey(_, _) => ActorReadsKey(s, e);
    case ReadWinner(_) => ActorReadsWinner(s, e);
    case StartDelete(_) => ActorWrites(s, e);
    case FinishDelete(_) => ActorWrites(s, e);
    case InsertKey(_) => ActorWrites(s, e);
    case AddJob(_, _) => ActorAdds(s, e);
    case Commit(_) => if Binds(s, e) { ActorBinds(s, e); } else { ActorLoses(s, e); }
    case _ => ActorStarts(s, e);
  }

  lemma StepKeepsPhases(s: System, e: Event)
    requires Inv(s) && Enabled(s, e)
    ensures var t := Apply(s, e); t.requests.Keys == t.phases.Keys && forall r :: r in t.phases ==> PhaseFits(t, r)
  {
    hide PhaseFits, Apply, Enabled, JobFits, KeyFits, HolderFits, OwnJobsDiffer, CreatorsDiffer, Next, HoldersAfter;
    StepFrame(s, e);
    forall r | r in Apply(s, e).phases ensures PhaseFits(Apply(s, e), r) {
      if r == e.r { ActorPhaseFits(s, e); } else { OtherPhaseKept(s, e, r); }
    }
  }

  /** A request that knows of its job goes on knowing of it. */
  lemma KnownStays(s: System, e: Event, j: JobId, tail: bool)
    requires Enabled(s, e) && e.r in s.phases && KnownTo(s.phases[e.r], j, tail)
    ensures KnownTo(Next(s, e), j, tail)
  {
  }

  /** While its request is still at work, no job of it has been committed. */
  lemma BinderIsNew(s: System, r: RequestId, j: JobId)
    requires Inv(s) && r in s.phases && s.phases[r].Bound? && j in s.jobs
    ensures s.jobs[j].creator != r
  {
    hide PhaseFits, KeyFits, HolderFits, OwnJobsDiffer, CreatorsDiffer;
    assert JobFits(s, j);
  }

  lemma OldJobFits(s: System, e: Event, j: JobId)
    requires Inv(s) && Enabled(s, e) && j in s.jobs
    ensures j in Apply(s, e).jobs && JobFits(Apply(s, e), j)
  {
    hide Apply, Enabled, PhaseFits, KeyFits, HolderFits, OwnJobsDiffer, CreatorsDiffer, Next, HoldersAfter, KnownTo;
    StepFrame(s, e);
    TablesGrow(s, e);
    assert JobFits(s, j);
    if s.jobs[j].creator == e.r {
      KnownStays(s, e, j, s.jobs[j].tail);
    }
  }

  lemma BoundJobFits(s: System, e: Event)
    requires Inv(s) && Enabled(s, e) && Binds(s, e)
    ensures var id := s.phases[e.r].job; id in Apply(s, e).jobs && JobFits(Apply(s, e), id)
  {
    hide Apply, Enabled, HolderFits, OwnJobsDiffer, CreatorsDiffer, KeyFits, JobFits, Next, HoldersAfter, AnswerFits;
    StepFrame(s, e);
    BindFrame(s, e);
    assert PhaseFits(s, e.r);
    var t, id := Apply(s, e), s.phases[e.r].job;
    assert t.jobs[id] == BoundJob(s, e.r);
    JobFitsWhen(t, id);
  }

  lemma JobFitsWhen(t: System, j: JobId)
    requires j in t.jobs && j in t.used && t.jobs[j].creator in t.phases
    requires t.phases[t.jobs[j].creator] == Decided(Accepted(j, t.jobs[j].tail))
    requires t.jobs[j].expires == t.jobs[j].boundAt + t.ttl
    requires t.jobs[j].key.Some? ==> t.jobs[j].key.value in t.keys
    ensures JobFits(t, j)
  {
  }

  lemma StepKeepsJobs(s: System, e: Event)
    requires Inv(s) && Enabled(s, e)
    ensures var t := Apply(s, e); forall j :: j in t.jobs ==> JobFits(t, j)
  {
    hide Apply, Enabled, JobFits, Inv, Next, HoldersAfter;
    StepFrame(s, e);
    if Binds(s, e) {
      BindFrame(s, e);
      BoundJobFits(s, e);
    }
    forall j | j in Apply(s, e).jobs ensures JobFits(Apply(s, e), j) {
      if j in s.jobs { OldJobFits(s, e, j); }
    }
  }

  lemma StepKeepsCreators(s: System, e: Event)
    requires Inv(s) && Enabled(s, e)
    ensures CreatorsDiffer(Apply(s, e))
  {
    hide Apply, Enabled, JobFits, KeyFits, HolderFits, PhaseFits, OwnJobsDiffer, Next, HoldersAfter;
    StepFrame(s, e);
    if Binds(s, e) {
      BindFrame(s, e);
      forall j | j in s.jobs ensures s.jobs[j].creator != e.r { BinderIsNew(s, e.r, j); }
    }
  }

  lemma StepKeepsKeys(s: System, e: Event)
    requires Inv(s) && Enabled(s, e)
    ensures var t := Apply(s, e); forall k :: k in t.keys ==> KeyFits(t, k)
  {
    hide Apply, Enabled, HolderFits, OwnJobsDiffer, CreatorsDiffer, JobFits, PhaseFits, Next, HoldersAfter;
    var t := Apply(s, e);
    StepFrame(s, e);
    TablesGrow(s, e);
    if Binds(s, e) {
      BindFrame(s, e);
    }
    forall k | k in t.keys ensures KeyFits(t, k) {
      if k in s.keys {
        assert KeyFits(s, k);
      }
    }
  }

  lemma ActorHolds(s: System, e: Event, k: Key)
    requires Inv(s) && Enabled(s, e) && k in HoldersAfter(s, e) && HoldersAfter(s, e)[k] == e.r
    ensures In(s, e.r) && s.requests[e.r].key == Some(k) && Holds(Next(s, e))
  {
    hide JobFits, KeyFits, OwnJobsDiffer, CreatorsDiffer, Replay, HasActiveRow, PhaseFits;
    if k in s.holders {
      assert HolderFits(s, k);
    }
  }

  lemma StepKeepsHolders(s: System, e: Event)
    requires Inv(s) && Enabled(s, e)
    ensures var t := Apply(s, e); forall k :: k in t.holders ==> HolderFits(t, k)
  {
    hide Apply, Enabled, PhaseFits, JobFits, KeyFits, OwnJobsDiffer, CreatorsDiffer, Next, HoldersAfter;
    var t := Apply(s, e);
    StepFrame(s, e);
    HolderFrame(s, e);
    forall k | k in t.holders ensures HolderFits(t, k) {
      if t.holders[k] == e.r {
        ActorHolds(s, e, k);
      } else {
        assert HolderFits(s, k);
      }
    }
  }

  lemma ActorOwnJob(s: System, e: Event)
    requires Enabled(s, e)
    ensures var own := OwnJob(Next(s, e));
      own.None? || (e.r in s.phases && own == OwnJob(s.phases[e.r])) || own.value !in s.used
  {
    hide Replay, HasActiveRow;
  }

  lemma StepKeepsOwnJobs(s: System, e: Event)
    requires Inv(s) && Enabled(s, e)
    ensures OwnJobsDiffer(Apply(s, e))
  {
    hide Apply, Enabled, JobFits, KeyFits, HolderFits, CreatorsDiffer, Next, HoldersAfter, AnswerFits;
    var t := Apply(s, e);
    StepFrame(s, e);
    ActorOwnJob(s, e);
    forall u | u in t.phases && u != e.r && OwnJob(t.phases[e.r]).Some?
      ensures OwnJob(t.phases[e.r]) != OwnJob(t.phases[u])
    {
      assert PhaseFits(s, u);
    }
  }

  lemma StepKeepsInv(s: System, e: Event)
    requires Inv(s) && Enabled(s, e)
    ensures Inv(Apply(s, e))
  {
    hide Apply, PhaseFits, JobFits, KeyFits, HolderFits, OwnJobsDiffer, CreatorsDiffer, Enabled;
    StepKeepsPhases(s, e);
    StepKeepsJobs(s, e);
    StepKeepsKeys(s, e);
    StepKeepsHolders(s, e);
    StepKeepsOwnJobs(s, e);
    StepKeepsCreators(s, e);
  }

  // ---- Runs ----

  ghost predicate StepAt(ss: seq<System>, es: seq<Event>, i: nat)
    requires i < |es| && |ss| == |es| + 1
  {
    Enabled(ss[i], es[i]) && ss[i + 1] == Apply(ss[i], es[i])
  }

  /** Every interleaving of any number of requests. */
  ghost predicate Run(ss: seq<System>, es: seq<Event>) {
    && |ss| == |es| + 1 && Initial(ss[0])
    && forall i :: 0 <= i < |es| ==> StepAt(ss, es, i)
  }

  lemma {:induction false} InvHolds(ss: seq<System>, es: seq<Event>, i: nat)
    requires Run(ss, es) && i < |ss|
    ensures Inv(ss[i])
  {
    if i == 0 {
    } else {
      hide Inv, Enabled, Apply, Initial;
      InvHolds(ss, es, i - 1);
      assert StepAt(ss, es, i - 1);
      StepKeepsInv(ss[i - 1], es[i - 1]);
    }
  }

  /** A committed job never changes and never disappears. */
  lemma {:induction false} JobsPersist(ss: seq<System>, es: seq<Event>, i: nat, m: nat, j: JobId)
    requires Run(ss, es) && i <= m < |ss| && j in ss[i].jobs
    ensures j in ss[m].jobs && ss[m].jobs[j] == ss[i].jobs[j]
    decreases m - i
  {
    if i < m {
      hide Inv, Enabled, Apply, Initial;
      JobsPersist(ss, es, i, m - 1, j);
      InvHolds(ss, es, m - 1);
      assert StepAt(ss, es, m - 1);
      TablesGrow(ss[m - 1], es[m - 1]);
    }
  }
}
