/** What requests with an Idempotency-Key are told, over every run of the enqueue protocol. */
module IdempotentAnswers {
  import opened Sequences
  import opened IdempotentEnqueue
  import opened IdempotencyWindows

  predicate Tells(p: Phase, response: Response) { p == Decided(response) || p == Answered(response) }

  /** A 202 names a surviving job created under the request's own key and scope: a request in
      another scope is never given the job. */
  lemma AcceptedNamesOwnJob(ss: seq<System>, es: seq<Event>, i: nat, r: RequestId, j: JobId, tail: bool)
    requires Run(ss, es) && i < |ss| && In(ss[i], r) && Tells(ss[i].phases[r], Accepted(j, tail))
    ensures var s := ss[i];
      && j in s.jobs && s.jobs[j].tail == tail
      && s.jobs[j].scope == s.requests[r].scope && s.jobs[j].key == s.requests[r].key
  {
    InvHolds(ss, es, i);
    hide JobFits, KeyFits, HolderFits, OwnJobsDiffer, CreatorsDiffer;
    assert PhaseFits(ss[i], r);
  }

  /** While no DELETE that goes on to commit removes an active row, all 202 answers for one key agree, or
      belong to windows that do not overlap. */
  lemma AnswersAgree(ss: seq<System>, es: seq<Event>, i: nat, k: Key, r: RequestId, u: RequestId,
                     a: JobId, b: JobId, ta: bool, tb: bool)
    requires Run(ss, es) && Careful(ss, es, k) && i < |ss| && In(ss[i], r) && In(ss[i], u)
    requires ss[i].requests[r].key == Some(k) == ss[i].requests[u].key
    requires Tells(ss[i].phases[r], Accepted(a, ta)) && Tells(ss[i].phases[u], Accepted(b, tb))
    ensures a in ss[i].jobs && b in ss[i].jobs && (a == b || Apart(ss[i].jobs[a], ss[i].jobs[b]))
  {
    hide Run, Careful, Apart, Tells;
    AcceptedNamesOwnJob(ss, es, i, r, a, ta);
    AcceptedNamesOwnJob(ss, es, i, u, b, tb);
    if a != b {
      WindowsApart(ss, es, i, k, a, b);
    }
  }

  /** No stray job survives: every committed job has one creator of its own, which has been or is about
      to be told of it, or has died since. A request that was told anything else left no job behind. */
  lemma EveryJobWasAnnounced(ss: seq<System>, es: seq<Event>, i: nat, j: JobId)
    requires Run(ss, es) && i < |ss| && j in ss[i].jobs
    ensures var s := ss[i]; var r := s.jobs[j].creator;
      && In(s, r) && (Tells(s.phases[r], Accepted(j, s.jobs[j].tail)) || s.phases[r].Dead?)
      && forall m :: m in s.jobs && s.jobs[m].creator == r ==> m == j
  {
    InvHolds(ss, es, i);
    hide PhaseFits, KeyFits, HolderFits, OwnJobsDiffer;
    assert JobFits(ss[i], j);
  }

  /** A lookup of a key with an active row answers at once, whatever the queue: with the job in its
      scope, with a conflict in any other, never with a refusal. */
  lemma LiveKeyIsReplayed(s: System, r: RequestId, now: int)
    requires Inv(s) && Enabled(s, Lookup(r, now)) && HasActiveRow(s, s.requests[r].key, now)
    ensures var q := s.requests[r]; var j := s.keys[q.key.value].job;
      && j in s.jobs && now < s.jobs[j].expires
      && Apply(s, Lookup(r, now)).phases ==
           s.phases[r := Decided(if s.jobs[j].scope == q.scope then Accepted(j, s.jobs[j].tail) else ScopeConflict)]
  {
    hide PhaseFits, HolderFits, OwnJobsDiffer, CreatorsDiffer, JobFits;
    assert KeyFits(s, s.requests[r].key.value);
  }

  /** The retry promise. Once a job is committed under a key, whether or not its creator lived to hear of it,
      and while no DELETE that goes on to commit removes an active row, every later lookup of the key before
      the job expires is answered at once: with the bound job in its scope and with a conflict in any other.
      The bound job is that job, or, if the looking request's clock lags, one bound after it expired. */
  lemma RetryIsAnswered(ss: seq<System>, es: seq<Event>, i: nat, m: nat, k: Key, j: JobId, r: RequestId, now: int)
    requires Run(ss, es) && Careful(ss, es, k) && i <= m < |es| && es[m] == Lookup(r, now)
    requires Under(ss[i], j, k) && In(ss[m], r) && ss[m].requests[r].key == Some(k) && now < ss[i].jobs[j].expires
    ensures k in ss[m].keys && ss[m].keys[k].job in ss[m].jobs && r in ss[m + 1].phases
    ensures var b := ss[m].keys[k].job; var job := ss[m].jobs[b];
      && ss[m + 1].phases[r] ==
           Decided(if job.scope == ss[m].requests[r].scope then Accepted(b, job.tail) else ScopeConflict)
      && (job.boundAt <= now ==> b == j)
  {
    hide Inv, Enabled, Apply, Run, Careful, NoneReplaced;
    RunLength(ss, es);
    CarefulIff(ss, es, k);
    JobsPersist(ss, es, i, m, j);
    OneStep(ss, es, m);
    RowIsLast(ss, es, m, k, j);
    RowMeans(ss[m], k);
    LiveKeyIsReplayed(ss[m], r, now);
  }

  /** Request `r` looked its key up at step `m` and found no live binding. */
  ghost predicate MissedAt(ss: seq<System>, es: seq<Event>, m: nat, r: RequestId, now: int) {
    && m < |es| && m < |ss| && es[m] == Lookup(r, now) && In(ss[m], r)
    && !HasActiveRow(ss[m], ss[m].requests[r].key, now)
  }

  predicate Refused(p: Phase) { p.Looked? || Tells(p, QueueFull) }

  lemma LoserIsAnswered(s: System, r: RequestId)
    requires Inv(s) && In(s, r) && s.phases[r].Losing?
    ensures s.phases[r].answer != QueueFull && s.phases[r].answer != ServerError
  {
    hide JobFits, KeyFits, HolderFits, OwnJobsDiffer, CreatorsDiffer, AnswerFits;
    assert PhaseFits(s, r);
  }

  lemma RefusedNext(s: System, e: Event)
    requires Enabled(s, e) && Refused(Next(s, e))
    requires In(s, e.r) && s.phases[e.r].Losing? ==> s.phases[e.r].answer != QueueFull
    ensures In(s, e.r)
    ensures Refused(s.phases[e.r]) || (e.Lookup? && !HasActiveRow(s, s.requests[e.r].key, e.now))
  {
    hide Active;
  }

  lemma StepRefuses(s: System, e: Event, r: RequestId)
    requires Inv(s) && Enabled(s, e) && r in Apply(s, e).phases && Refused(Apply(s, e).phases[r])
    ensures (r in s.phases && Refused(s.phases[r]))
      || (In(s, r) && e.Lookup? && e.r == r && !HasActiveRow(s, s.requests[r].key, e.now))
  {
    hide Inv, Enabled, Apply, Next, HoldersAfter, Refused, HasActiveRow;
    StepFrame(s, e);
    if r == e.r {
      if In(s, r) && s.phases[r].Losing? { LoserIsAnswered(s, r); }
      RefusedNext(s, e);
    }
  }

  /** A request is refused for a full queue only after a lookup that found no live binding. */
  lemma {:induction false} RefusedOnlyUnbound(ss: seq<System>, es: seq<Event>, i: nat, r: RequestId)
    requires Run(ss, es) && i < |ss| && r in ss[i].phases && Refused(ss[i].phases[r])
    ensures exists m: nat, now :: m < i && MissedAt(ss, es, m, r, now)
  {
    if i > 0 {
      hide Inv, Enabled, Apply, Refused, HasActiveRow;
      OneStep(ss, es, i - 1);
      StepRefuses(ss[i - 1], es[i - 1], r);
      if r in ss[i - 1].phases && Refused(ss[i - 1].phases[r]) {
        RefusedOnlyUnbound(ss, es, i - 1, r);
      } else {
        assert MissedAt(ss, es, i - 1, r, es[i - 1].now);
      }
    }
  }

  // ---- What each request is told, from the tables and the steps ----

  /** In this step the request reads a row of its key that is active at its clock reading. */
  predicate MeetsActive(s: System, e: Event, r: RequestId, k: Key) {
    && In(s, r) && e.r == r && s.requests[r].key == Some(k) && k in s.keys
    && match e
       case Lookup(_, now) => s.phases[r].Fresh? && s.keys[k].expires > now
       case ReadKey(_, now) => s.phases[r].Added? && s.keys[k].expires > now
       case ReadWinner(_) => s.phases[r].Beaten? && s.keys[k].expires > s.phases[r].now
       case _ => false
  }

  /** On the way to telling this, telling it, or dead. */
  predicate OnlyTells(p: Phase, a: Response) {
    p == Losing(a) || p == Decided(a) || p == Answered(a) || p == Dead
  }

  lemma NextOnlyTells(s: System, e: Event, a: Response)
    requires Enabled(s, e) && In(s, e.r) && OnlyTells(s.phases[e.r], a)
    ensures OnlyTells(Next(s, e), a)
  {
  }

  lemma OnlyTellsStays(s: System, e: Event, r: RequestId, a: Response)
    requires Enabled(s, e) && In(s, r) && OnlyTells(s.phases[r], a)
    ensures In(Apply(s, e), r) && OnlyTells(Apply(s, e).phases[r], a)
  {
    hide Apply, HoldersAfter, Next, Enabled, OnlyTells;
    StepFrame(s, e);
    if r == e.r { NextOnlyTells(s, e, a); }
  }

  lemma {:induction false} OnlyTellsFromThen(ss: seq<System>, es: seq<Event>, m: nat, i: nat, r: RequestId, a: Response)
    requires Run(ss, es) && m <= i < |ss| && In(ss[m], r) && OnlyTells(ss[m].phases[r], a)
    ensures In(ss[i], r) && OnlyTells(ss[i].phases[r], a)
    decreases i
  {
    hide Inv, Enabled, Apply, Run, OnlyTells;
    RunLength(ss, es);
    if m < i {
      OnlyTellsFromThen(ss, es, m, i - 1, r, a);
      OneStep(ss, es, i - 1);
      OnlyTellsStays(ss[i - 1], es[i - 1], r, a);
    }
  }

  /** What is due to a request in this scope from a key that is bound to job `j`. */
  function Due(jobs: map<JobId, Job>, j: JobId, scope: Scope): Response
    requires j in jobs
  {
    if jobs[j].scope == scope then Accepted(j, jobs[j].tail) else ScopeConflict
  }

  lemma NextMeets(s: System, e: Event, k: Key)
    requires Enabled(s, e) && MeetsActive(s, e, e.r, k) && s.keys[k].job in s.jobs
    ensures OnlyTells(Next(s, e), Due(s.jobs, s.keys[k].job, s.requests[e.r].scope))
  {
  }

  lemma MeetingDecides(s: System, e: Event, r: RequestId, k: Key)
    requires Inv(s) && Enabled(s, e) && MeetsActive(s, e, r, k)
    ensures s.keys[k].job in s.jobs && In(Apply(s, e), r)
    ensures OnlyTells(Apply(s, e).phases[r], Due(s.jobs, s.keys[k].job, s.requests[r].scope))
  {
    hide Apply, HoldersAfter, Inv, Next, Enabled, OnlyTells, Due;
    StepFrame(s, e);
    RowMeans(s, k);
    NextMeets(s, e, k);
  }

  /** A request that meets an active row of its key, whether before it adds a job, after it, or as the loser
      of the race, is told for the rest of every run, unless it dies, the row's job with its mode if that job
      has its scope, and a conflict otherwise. */
  lemma MeetingIsAnswered(ss: seq<System>, es: seq<Event>, m: nat, i: nat, r: RequestId, k: Key)
    requires Run(ss, es) && m < |es| && m < i < |ss| && |ss| == |es| + 1 && MeetsActive(ss[m], es[m], r, k)
    ensures ss[m].keys[k].job in ss[m].jobs && In(ss[i], r)
    ensures OnlyTells(ss[i].phases[r], Due(ss[m].jobs, ss[m].keys[k].job, ss[m].requests[r].scope))
  {
    hide Inv, Enabled, Apply, Run, OnlyTells, Due;
    OneStep(ss, es, m);
    MeetingDecides(ss[m], es[m], r, k);
    OnlyTellsFromThen(ss, es, m + 1, i, r, Due(ss[m].jobs, ss[m].keys[k].job, ss[m].requests[r].scope));
  }

  predicate Conflicted(p: Phase) { p == Losing(ScopeConflict) || Tells(p, ScopeConflict) }

  /** The request met a row of its key whose job has another scope. */
  ghost predicate MetOtherScope(ss: seq<System>, es: seq<Event>, m: nat, r: RequestId, k: Key) {
    && m < |es| && m < |ss| && MeetsActive(ss[m], es[m], r, k)
    && ss[m].keys[k].job in ss[m].jobs && ss[m].jobs[ss[m].keys[k].job].scope != ss[m].requests[r].scope
  }

  lemma NextConflicts(s: System, e: Event) returns (k: Key)
    requires Enabled(s, e) && Conflicted(Next(s, e))
    requires In(s, e.r) ==> !Conflicted(s.phases[e.r])
    ensures MeetsActive(s, e, e.r, k)
    ensures s.keys[k].job in s.jobs ==> s.jobs[s.keys[k].job].scope != s.requests[e.r].scope
  {
    assert In(s, e.r) && s.requests[e.r].key.Some?;
    k := s.requests[e.r].key.value;
  }

  lemma StepConflicts(s: System, e: Event, r: RequestId) returns (k: Key)
    requires Inv(s) && Enabled(s, e) && In(Apply(s, e), r) && Conflicted(Apply(s, e).phases[r])
    requires !(In(s, r) && Conflicted(s.phases[r]))
    ensures MeetsActive(s, e, r, k)
    ensures s.keys[k].job in s.jobs && s.jobs[s.keys[k].job].scope != s.requests[r].scope
  {
    SameKeys(s);
    hide Apply, HoldersAfter, Inv, Next, Enabled, Conflicted;
    StepFrame(s, e);
    k := NextConflicts(s, e);
    RowMeans(s, k);
  }

  lemma SameKeys(s: System)
    requires Inv(s)
    ensures s.requests.Keys == s.phases.Keys
  {
  }

  /** Nobody is told of a conflict unless the job its key was bound to has another scope than the request. */
  lemma {:induction false} ConflictMeansOtherScope(ss: seq<System>, es: seq<Event>, i: nat, r: RequestId)
    requires Run(ss, es) && i < |ss| && In(ss[i], r) && Conflicted(ss[i].phases[r])
    ensures exists m: nat, k :: m < i && MetOtherScope(ss, es, m, r, k)
  {
    hide Inv, Enabled, Apply, Run, Conflicted, MeetsActive;
    RunLength(ss, es);
    if i > 0 {
      OneStep(ss, es, i - 1);
      if In(ss[i - 1], r) && Conflicted(ss[i - 1].phases[r]) {
        ConflictMeansOtherScope(ss, es, i - 1, r);
      } else {
        var k := StepConflicts(ss[i - 1], es[i - 1], r);
        assert MetOtherScope(ss, es, i - 1, r, k);
      }
    } else {
      NobodyInAtFirst(ss, es, r);
    }
  }

  lemma NobodyInAtFirst(ss: seq<System>, es: seq<Event>, r: RequestId)
    requires Run(ss, es)
    ensures !In(ss[0], r)
  {
  }

  /** A full queue refuses: a request that finds the queue full is told so, unless it dies, for the rest of
      every run; and a request is told so only if it found the queue full. */
  lemma FullIsRefused(ss: seq<System>, es: seq<Event>, m: nat, i: nat, r: RequestId)
    requires Run(ss, es) && m < |es| && m < i < |ss| && |ss| == |es| + 1 && es[m] == QueueCheck(r, true)
    ensures In(ss[i], r) && OnlyTells(ss[i].phases[r], QueueFull)
  {
    hide Inv, Run;
    OneStep(ss, es, m);
    StepFrame(ss[m], es[m]);
    hide Apply, HoldersAfter;
    OnlyTellsFromThen(ss, es, m + 1, i, r, QueueFull);
  }

  lemma NextFillsUp(s: System, e: Event)
    requires Enabled(s, e) && Tells(Next(s, e), QueueFull)
    requires In(s, e.r) && s.phases[e.r].Losing? ==> s.phases[e.r].answer != QueueFull
    ensures (In(s, e.r) && Tells(s.phases[e.r], QueueFull)) || e == QueueCheck(e.r, true)
  {
  }

  lemma StepFillsUp(s: System, e: Event, r: RequestId)
    requires Inv(s) && Enabled(s, e) && In(Apply(s, e), r) && Tells(Apply(s, e).phases[r], QueueFull)
    ensures (In(s, r) && Tells(s.phases[r], QueueFull)) || e == QueueCheck(r, true)
  {
    SameKeys(s);
    hide Apply, HoldersAfter, Inv, Next, Enabled, Tells;
    StepFrame(s, e);
    if r == e.r {
      if In(s, r) && s.phases[r].Losing? { LoserIsAnswered(s, r); }
      NextFillsUp(s, e);
    }
  }

  lemma {:induction false} RefusedWasFull(ss: seq<System>, es: seq<Event>, i: nat, r: RequestId)
    requires Run(ss, es) && i < |ss| && In(ss[i], r) && Tells(ss[i].phases[r], QueueFull)
    ensures exists n: nat :: n < i && n < |es| && es[n] == QueueCheck(r, true)
  {
    hide Inv, Enabled, Apply, Run, Tells;
    RunLength(ss, es);
    if i > 0 {
      OneStep(ss, es, i - 1);
      StepFillsUp(ss[i - 1], es[i - 1], r);
      if In(ss[i - 1], r) && Tells(ss[i - 1].phases[r], QueueFull) {
        RefusedWasFull(ss, es, i - 1, r);
      }
    } else {
      NobodyInAtFirst(ss, es, r);
    }
  }

  // ---- Failures ----

  /** The INSERT of this request met a row of its key. */
  ghost predicate InsertMetRow(ss: seq<System>, es: seq<Event>, n: nat, r: RequestId) {
    && n < |es| && n < |ss| && es[n] == InsertKey(r) && In(ss[n], r)
    && ss[n].requests[r].key.Some? && ss[n].requests[r].key.value in ss[n].keys
  }

  /** The loser of a race finds the winner's row expired at its own clock reading. */
  predicate WinnerExpired(s: System, e: Event, r: RequestId) {
    && In(s, r) && e == ReadWinner(r) && s.phases[r].Beaten? && s.requests[r].key.Some?
    && var k := s.requests[r].key.value; k in s.keys && s.keys[k].expires <= s.phases[r].now
  }

  lemma NextFails(s: System, e: Event)
    requires Enabled(s, e) && Tells(Next(s, e), ServerError)
    requires In(s, e.r) && s.phases[e.r].Losing? ==> s.phases[e.r].answer != ServerError
    ensures (In(s, e.r) && Tells(s.phases[e.r], ServerError)) || WinnerExpired(s, e, e.r)
  {
  }

  lemma StepFails(s: System, e: Event, r: RequestId)
    requires Inv(s) && Enabled(s, e) && In(Apply(s, e), r) && Tells(Apply(s, e).phases[r], ServerError)
    ensures (In(s, r) && Tells(s.phases[r], ServerError)) || WinnerExpired(s, e, r)
  {
    SameKeys(s);
    hide Apply, HoldersAfter, Inv, Next, Enabled, Tells, WinnerExpired;
    StepFrame(s, e);
    if r == e.r {
      if In(s, r) && s.phases[r].Losing? { LoserIsAnswered(s, r); }
      NextFails(s, e);
    }
  }

  predicate LostTheRace(p: Phase) { p.Beaten? }

  lemma NextBeaten(s: System, e: Event)
    requires Enabled(s, e) && LostTheRace(Next(s, e))
    ensures e == InsertKey(e.r) && In(s, e.r) && HasRow(s, s.requests[e.r].key)
  {
  }

  lemma StepBeaten(s: System, e: Event, r: RequestId)
    requires Inv(s) && Enabled(s, e) && In(Apply(s, e), r) && LostTheRace(Apply(s, e).phases[r])
    ensures In(s, r) && (LostTheRace(s.phases[r]) || (e == InsertKey(r) && HasRow(s, s.requests[r].key)))
  {
    SameKeys(s);
    hide Apply, HoldersAfter, Inv, Next, Enabled, HasRow, LostTheRace;
    StepFrame(s, e);
    if r == e.r { NextBeaten(s, e); }
  }

  lemma InsertMeets(ss: seq<System>, es: seq<Event>, n: nat, r: RequestId)
    requires n < |es| && n < |ss| && es[n] == InsertKey(r) && In(ss[n], r) && HasRow(ss[n], ss[n].requests[r].key)
    ensures InsertMetRow(ss, es, n, r)
  {
  }

  lemma {:induction false} BeatenByRow(ss: seq<System>, es: seq<Event>, i: nat, r: RequestId)
    requires Run(ss, es) && i < |ss| && In(ss[i], r) && LostTheRace(ss[i].phases[r])
    ensures exists n: nat :: n < i && InsertMetRow(ss, es, n, r)
  {
    hide Inv, Enabled, Apply, Run, InsertMetRow, HasRow, LostTheRace;
    RunLength(ss, es);
    if i > 0 {
      OneStep(ss, es, i - 1);
      StepBeaten(ss[i - 1], es[i - 1], r);
      if LostTheRace(ss[i - 1].phases[r]) {
        BeatenByRow(ss, es, i - 1, r);
      } else {
        InsertMeets(ss, es, i - 1, r);
      }
    } else {
      NobodyInAtFirst(ss, es, r);
    }
  }

  /** A request fails only as the loser of a race whose prize is no longer worth having: its INSERT met
      another row of the key, and when it read that key again the row there had expired. */
  lemma {:induction false} FailureWasLostRace(ss: seq<System>, es: seq<Event>, i: nat, r: RequestId)
    requires Run(ss, es) && i < |ss| && In(ss[i], r) && Tells(ss[i].phases[r], ServerError)
    ensures exists n: nat, m: nat ::
      n < m < i && m < |es| && InsertMetRow(ss, es, n, r) && WinnerExpired(ss[m], es[m], r)
  {
    hide Inv, Enabled, Apply, Run, Tells;
    RunLength(ss, es);
    if i > 0 {
      OneStep(ss, es, i - 1);
      StepFails(ss[i - 1], es[i - 1], r);
      if In(ss[i - 1], r) && Tells(ss[i - 1].phases[r], ServerError) {
        FailureWasLostRace(ss, es, i - 1, r);
      } else {
        BeatenByRow(ss, es, i - 1, r);
      }
    } else {
      NobodyInAtFirst(ss, es, r);
    }
  }

  // ---- Where a committed job comes from ----

  /** The clock reading a request works with since it read its key. */
  predicate WorksWith(p: Phase, now: int) {
    match p
    case Stale(_, _, t) => t == now
    case Deleting(_, _, _, t) => t == now
    case Inserting(_, t, _) => t == now
    case Beaten(_, t) => t == now
    case Bound(_, t) => t == now
    case _ => false
  }

  ghost predicate ReadAt(es: seq<Event>, n: nat, r: RequestId, now: int) { n < |es| && es[n] == ReadKey(r, now) }

  lemma NextWorksWith(s: System, e: Event, now: int)
    requires Enabled(s, e) && WorksWith(Next(s, e), now)
    ensures (In(s, e.r) && WorksWith(s.phases[e.r], now)) || e == ReadKey(e.r, now)
  {
    hide Replay;
  }

  lemma StepWorksWith(s: System, e: Event, r: RequestId, now: int)
    requires Inv(s) && Enabled(s, e) && In(Apply(s, e), r) && WorksWith(Apply(s, e).phases[r], now)
    ensures (In(s, r) && WorksWith(s.phases[r], now)) || e == ReadKey(r, now)
  {
    SameKeys(s);
    hide Apply, HoldersAfter, Inv, Next, Enabled, WorksWith;
    StepFrame(s, e);
    if r == e.r { NextWorksWith(s, e, now); }
  }

  lemma {:induction false} WorksWithReading(ss: seq<System>, es: seq<Event>, i: nat, r: RequestId, now: int)
    requires Run(ss, es) && i < |ss| && In(ss[i], r) && WorksWith(ss[i].phases[r], now)
    ensures exists n: nat :: n < i && ReadAt(es, n, r, now)
  {
    hide Inv, Enabled, Apply, Run, WorksWith;
    RunLength(ss, es);
    if i > 0 {
      OneStep(ss, es, i - 1);
      StepWorksWith(ss[i - 1], es[i - 1], r, now);
      if In(ss[i - 1], r) && WorksWith(ss[i - 1].phases[r], now) {
        WorksWithReading(ss, es, i - 1, r, now);
      } else {
        assert ReadAt(es, i - 1, r, now);
      }
    } else {
      NobodyInAtFirst(ss, es, r);
    }
  }

  /** A committed job has the key, scope and mode its creator asked for, and its window begins at the clock
      reading with which the creator read the key and lasts for the configured lifetime. */
  lemma {:induction false} JobIsAsRequested(ss: seq<System>, es: seq<Event>, i: nat, j: JobId)
    requires Run(ss, es) && i < |ss| && j in ss[i].jobs
    ensures var job := ss[i].jobs[j];
      && In(ss[i], job.creator) && ss[i].requests[job.creator] == Request(job.key, job.scope, job.tail)
      && job.expires == job.boundAt + ss[i].ttl
      && exists n: nat :: n < i && ReadAt(es, n, job.creator, job.boundAt)
  {
    hide Inv, Enabled, Apply, Run;
    RunLength(ss, es);
    if i == 0 {
      NothingAtFirst(ss, es, j);
    } else {
      OneStep(ss, es, i - 1);
      StepFrame(ss[i - 1], es[i - 1]);
      TablesGrow(ss[i - 1], es[i - 1]);
      if j in ss[i - 1].jobs {
        JobIsAsRequested(ss, es, i - 1, j);
      } else {
        NewJob(ss[i - 1], es[i - 1], j);
        var r := es[i - 1].r;
        WorksWithReading(ss, es, i - 1, r, ss[i - 1].phases[r].boundAt);
      }
    }
  }
}
