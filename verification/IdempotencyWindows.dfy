/** What concurrent POSTs with one Idempotency-Key can rely on, over every run of the enqueue protocol:
    when the binding windows of its jobs follow one another, and what a retry is told. */
module IdempotencyWindows {
  import opened Sequences
  import opened IdempotentEnqueue

  // ---- What a run binds ----

  ghost predicate BindsAt(ss: seq<System>, es: seq<Event>, n: nat, k: Key) {
    n < |es| && n < |ss| && Binds(ss[n], es[n]) && ss[n].requests[es[n].r].key == Some(k)
  }

  /** The DELETE that completes in this step removes a row that is active at its request's clock reading:
      the code tests this of the row it read, not of the row it removes. */
  predicate RemovesActive(s: System, e: Event, k: Key) {
    && e.FinishDelete? && In(s, e.r) && s.requests[e.r].key == Some(k) && s.phases[e.r].Deleting?
    && k in s.keys && s.keys[k] == s.phases[e.r].target && Active(s.keys[k], s.phases[e.r].now)
  }

  /** The request of step `n` commits later in the run. */
  ghost predicate GoesOnToCommit(es: seq<Event>, n: nat) {
    exists m :: n < m < |es| && n < |es| && es[m] == Commit(es[n].r)
  }

  /** No DELETE that goes on to commit removes an active row. */
  ghost predicate Careful(ss: seq<System>, es: seq<Event>, k: Key) {
    forall n :: 0 <= n < |es| && n < |ss| && RemovesActive(ss[n], es[n], k) ==> !GoesOnToCommit(es, n)
  }

  /** The commit at step `n` replaces a row that is still active at the clock reading of the request that
      replaces it. */
  ghost predicate ReplacesActive(ss: seq<System>, es: seq<Event>, n: nat, k: Key) {
    BindsAt(ss, es, n, k) && k in ss[n].keys && Active(ss[n].keys[k], ss[n].phases[es[n].r].boundAt)
  }

  ghost predicate NoneReplaced(ss: seq<System>, es: seq<Event>, k: Key) {
    forall n: nat :: !ReplacesActive(ss, es, n, k)
  }

  predicate Under(s: System, j: JobId, k: Key) { j in s.jobs && s.jobs[j].key == Some(k) }

  ghost predicate Earlier(ss: seq<System>, m: nat, a: JobId, b: JobId) {
    m < |ss| && a in ss[m].jobs && b !in ss[m].jobs
  }

  /** Of any two jobs of the key, the one committed first expires before the other is bound. */
  ghost predicate InOrder(ss: seq<System>, k: Key)
    requires ss != []
  {
    var s := ss[|ss| - 1];
    forall a, b, m :: Under(s, a, k) && Under(s, b, k) && Earlier(ss, m, a, b) ==>
      s.jobs[a].expires <= s.jobs[b].boundAt
  }

  predicate Apart(a: Job, b: Job) { a.expires <= b.boundAt || b.expires <= a.boundAt }

  ghost predicate AllApart(s: System, k: Key) {
    forall a, b :: Under(s, a, k) && Under(s, b, k) && a != b ==> Apart(s.jobs[a], s.jobs[b])
  }

  lemma OneStep(ss: seq<System>, es: seq<Event>, i: nat)
    requires Run(ss, es) && i < |es|
    ensures Inv(ss[i]) && Enabled(ss[i], es[i]) && ss[i + 1] == Apply(ss[i], es[i])
  {
    hide Inv, Enabled, Apply, Initial;
    InvHolds(ss, es, i);
    assert StepAt(ss, es, i);
  }

  /** A job that is there after a step and was not before has just been bound. */
  lemma NewJob(s: System, e: Event, j: JobId)
    requires Inv(s) && Enabled(s, e) && j in Apply(s, e).jobs && j !in s.jobs
    ensures Binds(s, e) && j == s.phases[e.r].job && Apply(s, e).jobs[j] == BoundJob(s, e.r)
  {
    hide Apply, Enabled, Inv, Next, HoldersAfter;
    StepFrame(s, e);
    if Binds(s, e) { BindFrame(s, e); }
  }

  /** The row after a step: that of the job just bound, or the one before. */
  lemma NewRow(s: System, e: Event, k: Key)
    requires Inv(s) && Enabled(s, e)
    ensures var t := Apply(s, e);
      if Binds(s, e) && s.requests[e.r].key == Some(k) then
        && k in t.keys && t.keys[k].job == s.phases[e.r].job && t.keys[k].job !in s.jobs && t.keys[k].job in t.jobs
        && t.jobs[t.keys[k].job] == BoundJob(s, e.r)
      else (k in t.keys <==> k in s.keys) && (k in s.keys ==> t.keys[k] == s.keys[k])
  {
    hide Apply, Enabled, Next, HoldersAfter, JobFits, KeyFits, HolderFits, OwnJobsDiffer, CreatorsDiffer, AnswerFits;
    StepFrame(s, e);
    if Binds(s, e) {
      BindFrame(s, e);
      assert PhaseFits(s, e.r);
    }
  }

  // ---- From the DELETE to the commit ----

  ghost function ClockOf(p: Phase): int
    requires Holds(p)
  {
    if p.Bound? then p.boundAt else p.now
  }

  /** The row that an open transaction has removed, if the key has one. */
  ghost predicate HoldsExpired(s: System, r: RequestId, k: Key) {
    In(s, r) && s.requests[r].key == Some(k) && Holds(s.phases[r]) && k in s.keys ==>
      !Active(s.keys[k], ClockOf(s.phases[r]))
  }

  lemma OneHolder(s: System, r: RequestId, u: RequestId, k: Key)
    requires Inv(s) && In(s, r) && In(s, u) && s.requests[r].key == Some(k) == s.requests[u].key
    requires Holds(s.phases[r]) && Holds(s.phases[u])
    ensures r == u
  {
    hide JobFits, KeyFits, HolderFits, OwnJobsDiffer, CreatorsDiffer, AnswerFits;
    assert PhaseFits(s, r) && PhaseFits(s, u);
  }

  /** Nobody else replaces the row of a key that a request holds. */
  lemma HeldRowStays(s: System, e: Event, r: RequestId, k: Key)
    requires Inv(s) && Enabled(s, e) && In(s, r) && r != e.r && s.requests[r].key == Some(k) && Holds(s.phases[r])
    ensures var t := Apply(s, e); (k in t.keys <==> k in s.keys) && (k in s.keys ==> t.keys[k] == s.keys[k])
  {
    hide Inv, Enabled, Apply;
    NewRow(s, e, k);
    if Binds(s, e) && s.requests[e.r].key == Some(k) {
      OneHolder(s, r, e.r, k);
    }
  }

  /** How a request comes to hold its key. */
  lemma HoldsAfter(s: System, e: Event)
    requires Inv(s) && Enabled(s, e) && In(s, e.r) && Holds(Next(s, e))
    ensures var p, key, next := s.phases[e.r], s.requests[e.r].key, Next(s, e);
      || (Holds(p) && ClockOf(next) == ClockOf(p))
      || (e.ReadKey? && key.None?) || (e.InsertKey? && !HasRow(s, key))
      || (e.FinishDelete? && p.Deleting? && HasRow(s, key) && s.keys[key.value] == p.target && ClockOf(next) == p.now)
    ensures !e.Commit?
  {
    hide Inv, Replay, Active;
  }

  lemma ActorIs(s: System, e: Event)
    requires Enabled(s, e)
    ensures In(s, e.r) || Next(s, e) == Fresh
    ensures Binds(s, e) ==> Next(s, e).Decided?
  {
  }

  lemma OtherHoldsExpired(s: System, e: Event, r: RequestId, k: Key)
    requires Inv(s) && Enabled(s, e) && HoldsExpired(s, r, k) && r != e.r
    ensures HoldsExpired(Apply(s, e), r, k)
  {
    hide Inv, Enabled, Apply, Next, HoldersAfter, Active;
    StepFrame(s, e);
    if In(s, r) && s.requests[r].key == Some(k) && Holds(s.phases[r]) {
      HeldRowStays(s, e, r, k);
    }
  }

  lemma ActorHoldsExpired(s: System, e: Event, k: Key)
    requires Inv(s) && Enabled(s, e) && HoldsExpired(s, e.r, k) && !RemovesActive(s, e, k)
    ensures HoldsExpired(Apply(s, e), e.r, k)
  {
    hide Inv, Enabled, Apply, Next, HoldersAfter, Active;
    StepFrame(s, e);
    NewRow(s, e, k);
    ActorIs(s, e);
    if In(s, e.r) && Holds(Next(s, e)) {
      HoldsAfter(s, e);
    }
  }

  /** A row that a request holds and that is active was active when the request's DELETE removed it. */
  lemma {:induction false} HeldRowExpired(ss: seq<System>, es: seq<Event>, i: nat, r: RequestId, k: Key)
    requires Run(ss, es) && i < |ss| && |ss| == |es| + 1
    requires forall n :: 0 <= n < i && es[n].r == r ==> !RemovesActive(ss[n], es[n], k)
    ensures HoldsExpired(ss[i], r, k)
  {
    hide *;
    if i == 0 {
      NothingHeldAtFirst(ss, es, r, k);
    } else {
      OneStep(ss, es, i - 1);
      HeldRowExpired(ss, es, i - 1, r, k);
      if r == es[i - 1].r {
        ActorHoldsExpired(ss[i - 1], es[i - 1], k);
      } else {
        OtherHoldsExpired(ss[i - 1], es[i - 1], r, k);
      }
    }
  }

  lemma NothingHeldAtFirst(ss: seq<System>, es: seq<Event>, r: RequestId, k: Key)
    requires Run(ss, es)
    ensures HoldsExpired(ss[0], r, k)
  {
  }

  /** The request holds its key, having removed this row, with this clock reading. */
  ghost predicate StillHolds(s: System, r: RequestId, k: Key, row: Row, now: int) {
    && In(s, r) && s.requests[r].key == Some(k) && Holds(s.phases[r]) && ClockOf(s.phases[r]) == now
    && k in s.keys && s.keys[k] == row
  }

  /** The transaction is over. */
  predicate Finished(s: System, r: RequestId) {
    In(s, r) && (s.phases[r].Decided? || s.phases[r].Answered? || s.phases[r].Dead?)
  }

  lemma HolderMoves(s: System, e: Event)
    requires Inv(s) && Enabled(s, e) && In(s, e.r) && Holds(s.phases[e.r])
    requires s.requests[e.r].key.Some? && HasRow(s, s.requests[e.r].key)
    ensures var p, next := s.phases[e.r], Next(s, e);
      || (Holds(next) && ClockOf(next) == ClockOf(p) && !Binds(s, e)) || next.Decided? || next.Dead?
  {
    hide Inv;
  }

  lemma StepStillHolds(s: System, e: Event, r: RequestId, k: Key, row: Row, now: int)
    requires Inv(s) && Enabled(s, e) && StillHolds(s, r, k, row, now)
    ensures StillHolds(Apply(s, e), r, k, row, now) || Finished(Apply(s, e), r)
  {
    hide Inv, Enabled, Apply, Next, HoldersAfter;
    StepFrame(s, e);
    if r == e.r {
      HolderMoves(s, e);
    } else {
      HeldRowStays(s, e, r, k);
    }
  }

  lemma StepStaysFinished(s: System, e: Event, r: RequestId)
    requires Enabled(s, e) && Finished(s, r)
    ensures Finished(Apply(s, e), r) && e != Commit(r)
  {
    StepFrame(s, e);
    hide Apply, HoldersAfter;
  }

  lemma DeleteTakesKey(s: System, e: Event, k: Key)
    requires Enabled(s, e) && RemovesActive(s, e, k)
    ensures StillHolds(Apply(s, e), e.r, k, s.keys[k], s.phases[e.r].now)
  {
    StepFrame(s, e);
    hide Apply, HoldersAfter, Active;
  }

  /** A request that has removed a row holds the key, and the row stands, until its transaction is over. */
  lemma {:induction false} HeldUntilFinished(ss: seq<System>, es: seq<Event>, n: nat, i: nat, k: Key)
    requires Run(ss, es) && |ss| == |es| + 1 && n < i < |ss| && RemovesActive(ss[n], es[n], k)
    ensures StillHolds(ss[i], es[n].r, k, ss[n].keys[k], ss[n].phases[es[n].r].now) || Finished(ss[i], es[n].r)
    decreases i
  {
    hide Run, Inv, Enabled, Apply, StillHolds, Finished, Active;
    OneStep(ss, es, i - 1);
    if i == n + 1 {
      DeleteTakesKey(ss[n], es[n], k);
    } else {
      HeldUntilFinished(ss, es, n, i - 1, k);
      if Finished(ss[i - 1], es[n].r) {
        StepStaysFinished(ss[i - 1], es[i - 1], es[n].r);
      } else {
        StepStillHolds(ss[i - 1], es[i - 1], es[n].r, k, ss[n].keys[k], ss[n].phases[es[n].r].now);
      }
    }
  }

  /** A held key whose request commits is bound by that commit. */
  lemma HolderBinds(s: System, r: RequestId, k: Key, row: Row, now: int)
    requires Enabled(s, Commit(r)) && StillHolds(s, r, k, row, now)
    ensures Binds(s, Commit(r)) && s.phases[r].boundAt == now
  {
  }

  lemma RemovedIsReplaced(ss: seq<System>, es: seq<Event>, n: nat, m: nat, k: Key)
    requires Run(ss, es) && |ss| == |es| + 1 && n < m < |es| && RemovesActive(ss[n], es[n], k)
    requires es[m] == Commit(es[n].r)
    ensures ReplacesActive(ss, es, m, k)
  {
    hide Run, Inv, Enabled, Apply, Binds, Active, Finished;
    var r := es[n].r;
    HeldUntilFinished(ss, es, n, m, k);
    OneStep(ss, es, m);
    if Finished(ss[m], r) {
      StepStaysFinished(ss[m], es[m], r);
    } else {
      HolderBinds(ss[m], r, k, ss[n].keys[k], ss[n].phases[r].now);
    }
  }

  lemma ReplacedWasRemoved(ss: seq<System>, es: seq<Event>, m: nat, k: Key) returns (n: nat)
    requires Run(ss, es) && |ss| == |es| + 1 && ReplacesActive(ss, es, m, k)
    ensures n < m < |es| && RemovesActive(ss[n], es[n], k) && es[m] == Commit(es[n].r)
  {
    hide Run, RemovesActive, Active;
    var r := es[m].r;
    if forall n :: 0 <= n < m && es[n].r == r ==> !RemovesActive(ss[n], es[n], k) {
      HeldRowExpired(ss, es, m, r, k);
      assert false;
    } else {
      n :| 0 <= n < m && es[n].r == r && RemovesActive(ss[n], es[n], k);
    }
  }

  /** Both readings of the condition agree: a commit replaces an active row exactly when the same request's
      DELETE had removed one. */
  lemma CarefulIff(ss: seq<System>, es: seq<Event>, k: Key)
    requires Run(ss, es)
    ensures Careful(ss, es, k) <==> NoneReplaced(ss, es, k)
  {
    RunLength(ss, es);
    hide Run, RemovesActive, ReplacesActive;
    if m: nat :| ReplacesActive(ss, es, m, k) {
      var n := ReplacedWasRemoved(ss, es, m, k);
      assert GoesOnToCommit(es, n);
    }
    if n :| 0 <= n < |es| && RemovesActive(ss[n], es[n], k) && GoesOnToCommit(es, n) {
      var m :| n < m < |es| && es[m] == Commit(es[n].r);
      RemovedIsReplaced(ss, es, n, m, k);
    }
  }

  lemma RunLength(ss: seq<System>, es: seq<Event>)
    requires Run(ss, es)
    ensures |ss| == |es| + 1
  {
  }

  // ---- The order of the windows ----

  /** While no active row is replaced, the row of a key belongs to the job whose window comes last. */
  lemma {:induction false} RowIsLast(ss: seq<System>, es: seq<Event>, i: nat, k: Key, a: JobId)
    requires Run(ss, es) && NoneReplaced(ss, es, k) && i < |ss| && Under(ss[i], a, k)
    ensures k in ss[i].keys && ss[i].keys[k].job in ss[i].jobs
    ensures var last := ss[i].keys[k].job; a == last || ss[i].jobs[a].expires <= ss[i].jobs[last].boundAt
  {
    hide Inv, Enabled, Apply, Run;
    RunLength(ss, es);
    if i == 0 {
      NothingAtFirst(ss, es, a);
    } else {
      var s, e, t := ss[i - 1], es[i - 1], ss[i];
      OneStep(ss, es, i - 1);
      NewRow(s, e, k);
      TablesGrow(s, e);
      if a !in s.jobs {
        NewJob(s, e, a);
      } else {
        RowIsLast(ss, es, i - 1, k, a);
        RowMeans(s, k);
        assert !ReplacesActive(ss, es, i - 1, k);
      }
    }
  }

  lemma NothingAtFirst(ss: seq<System>, es: seq<Event>, a: JobId)
    requires Run(ss, es)
    ensures a !in ss[0].jobs
  {
  }

  lemma RowMeans(s: System, k: Key)
    requires Inv(s) && k in s.keys
    ensures var row := s.keys[k]; Under(s, row.job, k) && s.jobs[row.job].expires == row.expires
    ensures s.jobs[s.keys[k].job].boundAt == s.keys[k].expires - s.ttl
  {
    hide PhaseFits, HolderFits, OwnJobsDiffer, CreatorsDiffer;
    assert KeyFits(s, k);
    assert JobFits(s, s.keys[k].job);
  }

  lemma {:induction false} CarefulKeepsOrder(ss: seq<System>, es: seq<Event>, i: nat, k: Key, a: JobId, b: JobId,
                                             m: nat)
    requires Run(ss, es) && NoneReplaced(ss, es, k) && i < |ss| && Under(ss[i], a, k) && Under(ss[i], b, k)
    requires m <= i && Earlier(ss, m, a, b)
    ensures ss[i].jobs[a].expires <= ss[i].jobs[b].boundAt
  {
    hide Inv, Enabled, Apply, Run, NoneReplaced;
    RunLength(ss, es);
    if m < i {
      OneStep(ss, es, i - 1);
      TablesGrow(ss[i - 1], es[i - 1]);
      JobsPersist(ss, es, m, i - 1, a);
      if b in ss[i - 1].jobs {
        CarefulKeepsOrder(ss, es, i - 1, k, a, b, m);
      } else {
        NewJob(ss[i - 1], es[i - 1], b);
        NewRow(ss[i - 1], es[i - 1], k);
        RowIsLast(ss, es, i, k, a);
      }
    }
  }

  /** The job whose row a commit replaces is there before the new one, and both stay. */
  lemma ReplacedIsEarlier(ss: seq<System>, es: seq<Event>, n: nat, k: Key) returns (a: JobId, b: JobId)
    requires Run(ss, es) && BindsAt(ss, es, n, k) && k in ss[n].keys
    ensures var s := ss[|es|];
      && Earlier(ss, n, a, b) && Under(s, a, k) && Under(s, b, k) && s.jobs[a].expires == ss[n].keys[k].expires
      && s.jobs[b].boundAt == ss[n].phases[es[n].r].boundAt
      && s.jobs[a].boundAt == s.jobs[a].expires - ss[n].ttl && s.jobs[b].expires == s.jobs[b].boundAt + ss[n].ttl
  {
    hide Inv, Enabled, Apply, Initial;
    OneStep(ss, es, n);
    NewRow(ss[n], es[n], k);
    RowMeans(ss[n], k);
    a, b := ss[n].keys[k].job, ss[n + 1].keys[k].job;
    JobsPersist(ss, es, n, |es|, a);
    JobsPersist(ss, es, n + 1, |es|, b);
  }

  lemma OrderIsCareful(ss: seq<System>, es: seq<Event>, k: Key)
    requires Run(ss, es) && InOrder(ss, k)
    ensures NoneReplaced(ss, es, k)
  {
    hide Run, Inv, Enabled, Apply;
    RunLength(ss, es);
    forall n: nat | BindsAt(ss, es, n, k) && k in ss[n].keys ensures !ReplacesActive(ss, es, n, k) {
      var a, b := ReplacedIsEarlier(ss, es, n, k);
    }
  }

  lemma InOrderIff(ss: seq<System>, es: seq<Event>, k: Key)
    requires Run(ss, es)
    ensures InOrder(ss, k) <==> NoneReplaced(ss, es, k)
  {
    hide Run, NoneReplaced, Earlier;
    RunLength(ss, es);
    if InOrder(ss, k) {
      OrderIsCareful(ss, es, k);
    }
    if NoneReplaced(ss, es, k) {
      var s := ss[|ss| - 1];
      forall a, b, m | Under(s, a, k) && Under(s, b, k) && Earlier(ss, m, a, b)
        ensures s.jobs[a].expires <= s.jobs[b].boundAt
      {
        EarlierIsInside(ss, m, a, b);
        CarefulKeepsOrder(ss, es, |ss| - 1, k, a, b, m);
      }
    }
  }

  /** In every run the windows of a key's jobs follow one another in the order of their commits exactly when
      no DELETE that goes on to commit removes a row still active at its request's clock reading. */
  lemma WindowsFollowIff(ss: seq<System>, es: seq<Event>, k: Key)
    requires Run(ss, es)
    ensures InOrder(ss, k) <==> Careful(ss, es, k)
  {
    hide *;
    RunLength(ss, es);
    InOrderIff(ss, es, k);
    CarefulIff(ss, es, k);
  }

  lemma EarlierIsInside(ss: seq<System>, m: nat, a: JobId, b: JobId)
    requires Earlier(ss, m, a, b)
    ensures m < |ss|
  {
  }

  /** Two jobs cannot have been committed by the same step. */
  lemma {:induction false} OneComesFirst(ss: seq<System>, es: seq<Event>, i: nat, a: JobId, b: JobId) returns (m: nat)
    requires Run(ss, es) && i < |ss| && a in ss[i].jobs && b in ss[i].jobs && a != b
    ensures m <= i && (Earlier(ss, m, a, b) || Earlier(ss, m, b, a))
  {
    hide Inv, Enabled, Apply;
    OneStep(ss, es, i - 1);
    var s, e := ss[i - 1], es[i - 1];
    if a in s.jobs && b in s.jobs {
      m := OneComesFirst(ss, es, i - 1, a, b);
    } else {
      m := i - 1;
      if a !in s.jobs { NewJob(s, e, a); }
      if b !in s.jobs { NewJob(s, e, b); }
    }
  }

  /** While no DELETE that goes on to commit removes an active row, two jobs of one key have windows apart. */
  lemma WindowsApart(ss: seq<System>, es: seq<Event>, i: nat, k: Key, a: JobId, b: JobId)
    requires Run(ss, es) && Careful(ss, es, k) && i < |ss| && Under(ss[i], a, k) && Under(ss[i], b, k) && a != b
    ensures Apart(ss[i].jobs[a], ss[i].jobs[b])
  {
    hide Run, NoneReplaced, Careful, Earlier;
    CarefulIff(ss, es, k);
    var m := OneComesFirst(ss, es, i, a, b);
    if Earlier(ss, m, a, b) {
      CarefulKeepsOrder(ss, es, i, k, a, b, m);
    } else {
      CarefulKeepsOrder(ss, es, i, k, b, a, m);
    }
  }

  /** No request is so slow that the row it replaces was bound a whole lifetime after it read the clock. */
  ghost predicate Prompt(ss: seq<System>, es: seq<Event>, k: Key) {
    forall n: nat :: BindsAt(ss, es, n, k) && k in ss[n].keys ==>
      ss[n].keys[k].expires - ss[n].ttl < ss[n].phases[es[n].r].boundAt + ss[n].ttl
  }

  lemma ApartIsCareful(ss: seq<System>, es: seq<Event>, k: Key)
    requires Run(ss, es) && Prompt(ss, es, k) && AllApart(ss[|es|], k)
    ensures NoneReplaced(ss, es, k)
  {
    hide Run, Inv, Enabled, Apply;
    forall n: nat | BindsAt(ss, es, n, k) && k in ss[n].keys ensures !ReplacesActive(ss, es, n, k) {
      var a, b := ReplacedIsEarlier(ss, es, n, k);
      assert a != b;
    }
  }

  /** Unless a request outlives a whole window, one job per window is exactly what that guard buys: the
      windows of a key's jobs never overlap if and only if no DELETE that goes on to commit removes an active
      row. */
  lemma WindowsDisjointIff(ss: seq<System>, es: seq<Event>, k: Key)
    requires Run(ss, es) && Prompt(ss, es, k)
    ensures AllApart(ss[|es|], k) <==> Careful(ss, es, k)
  {
    hide Run, NoneReplaced, Careful, Prompt, Apart;
    RunLength(ss, es);
    CarefulIff(ss, es, k);
    if AllApart(ss[|es|], k) {
      ApartIsCareful(ss, es, k);
    }
    if NoneReplaced(ss, es, k) {
      var s := ss[|es|];
      forall a, b | Under(s, a, k) && Under(s, b, k) && a != b ensures Apart(s.jobs[a], s.jobs[b]) {
        WindowsApart(ss, es, |es|, k, a, b);
      }
    }
  }

  predicate Live(job: Job, t: int) { job.boundAt <= t < job.expires }

  /** Under the same condition at most one surviving job is bound to a key at any instant. */
  lemma OneLiveJobPerKey(ss: seq<System>, es: seq<Event>, i: nat, k: Key, a: JobId, b: JobId, t: int)
    requires Run(ss, es) && Careful(ss, es, k) && i < |ss| && Under(ss[i], a, k) && Under(ss[i], b, k)
    requires Live(ss[i].jobs[a], t) && Live(ss[i].jobs[b], t)
    ensures a == b
  {
    hide Run, Careful;
    if a != b {
      WindowsApart(ss, es, i, k, a, b);
    }
  }

  // ---- When no active row is removed ----

  /** A DELETE that removes another row than the one its request had read. */
  predicate RemovesOther(s: System, e: Event, k: Key) {
    && e.FinishDelete? && In(s, e.r) && s.requests[e.r].key == Some(k) && s.phases[e.r].Deleting?
    && k in s.keys && s.keys[k] == s.phases[e.r].target != s.phases[e.r].read
  }

  lemma ActiveIsOther(s: System, e: Event, k: Key)
    requires Inv(s) && RemovesActive(s, e, k)
    ensures RemovesOther(s, e, k)
  {
    hide JobFits, KeyFits, HolderFits, OwnJobsDiffer, CreatorsDiffer, AnswerFits;
    assert PhaseFits(s, e.r);
  }

  /** It suffices that every DELETE removes the row its request had read. */
  lemma UndisturbedIsCareful(ss: seq<System>, es: seq<Event>, k: Key)
    requires Run(ss, es) && forall n :: 0 <= n < |es| && n < |ss| ==> !RemovesOther(ss[n], es[n], k)
    ensures Careful(ss, es, k)
  {
    RunLength(ss, es);
    hide Run, Inv, RemovesActive, RemovesOther;
    forall n | 0 <= n < |es| ensures !RemovesActive(ss[n], es[n], k) {
      InvHolds(ss, es, n);
      if RemovesActive(ss[n], es[n], k) { ActiveIsOther(ss[n], es[n], k); }
    }
  }

  /** A request that read an expired row of the key. */
  ghost predicate ReadExpired(ss: seq<System>, es: seq<Event>, n: nat, k: Key) {
    && n < |es| && n < |ss| && es[n].ReadKey? && In(ss[n], es[n].r) && ss[n].requests[es[n].r].key == Some(k)
    && k in ss[n].keys && !Active(ss[n].keys[k], es[n].now)
  }

  /** The request is on its way to replace the row of the key. */
  predicate Replacing(s: System, r: RequestId, k: Key) {
    && In(s, r) && s.requests[r].key == Some(k) && k in s.keys
    && (s.phases[r].Stale? || s.phases[r].Deleting? || Holds(s.phases[r]))
  }

  /** How a request comes to replace the row of its key. */
  lemma ReplacingAfter(s: System, e: Event, k: Key)
    requires Inv(s) && Enabled(s, e) && In(s, e.r) && s.requests[e.r].key == Some(k)
    requires k in s.keys && !Replacing(s, e.r, k)
    requires var next := Next(s, e); next.Stale? || next.Deleting? || Holds(next)
    ensures e.ReadKey? && !Active(s.keys[k], e.now)
  {
    hide Inv, Replay;
  }

  lemma StepReplacing(s: System, e: Event, r: RequestId, k: Key)
    requires Inv(s) && Enabled(s, e) && Replacing(Apply(s, e), r, k) && !Replacing(s, r, k)
    ensures e.ReadKey? && e.r == r && In(s, r) && s.requests[r].key == Some(k)
    ensures k in s.keys && !Active(s.keys[k], e.now)
  {
    hide Inv, Enabled, Apply, Next, HoldersAfter, Active;
    StepFrame(s, e);
    NewRow(s, e, k);
    ActorIs(s, e);
    if r != e.r {
      if Holds(s.phases[r]) {
        HeldRowStays(s, e, r, k);
      } else {
        StaleHasRow(s, r);
      }
    } else {
      ReplacingAfter(s, e, k);
    }
  }

  lemma StaleHasRow(s: System, r: RequestId)
    requires Inv(s) && In(s, r) && (s.phases[r].Stale? || s.phases[r].Deleting?)
    ensures HasRow(s, s.requests[r].key)
  {
    hide JobFits, KeyFits, HolderFits, OwnJobsDiffer, CreatorsDiffer, AnswerFits;
    assert PhaseFits(s, r);
  }

  lemma {:induction false} ReplacingReadExpired(ss: seq<System>, es: seq<Event>, i: nat, r: RequestId, k: Key)
    requires Run(ss, es) && i < |ss| && Replacing(ss[i], r, k)
    ensures exists n: nat :: n < i && ReadExpired(ss, es, n, k)
  {
    hide *;
    RunLength(ss, es);
    NobodyAtFirst(ss, es, r, k);
    OneStep(ss, es, i - 1);
    if Replacing(ss[i - 1], r, k) {
      ReplacingReadExpired(ss, es, i - 1, r, k);
    } else {
      StepReplacing(ss[i - 1], es[i - 1], r, k);
      ReadsExpired(ss, es, i - 1, r, k);
    }
  }

  lemma NobodyAtFirst(ss: seq<System>, es: seq<Event>, r: RequestId, k: Key)
    requires Run(ss, es)
    ensures !Replacing(ss[0], r, k)
  {
  }

  lemma ReadsExpired(ss: seq<System>, es: seq<Event>, n: nat, r: RequestId, k: Key)
    requires n < |es| && n < |ss| && es[n].ReadKey? && es[n].r == r && In(ss[n], r) && ss[n].requests[r].key == Some(k)
    requires k in ss[n].keys && !Active(ss[n].keys[k], es[n].now)
    ensures ReadExpired(ss, es, n, k)
  {
  }

  /** As long as no request finds an expired row of the key, at most one job is ever created under it,
      whatever the interleaving. */
  lemma {:induction false} SecondJobReadExpired(ss: seq<System>, es: seq<Event>, i: nat, k: Key, a: JobId, b: JobId)
    requires Run(ss, es) && i < |ss| && Under(ss[i], a, k) && Under(ss[i], b, k) && a != b
    ensures exists n: nat :: n < i && ReadExpired(ss, es, n, k)
  {
    hide Inv, Apply, Enabled, ReadExpired;
    OneStep(ss, es, i - 1);
    var s, e := ss[i - 1], es[i - 1];
    TablesGrow(s, e);
    if a in s.jobs && b in s.jobs {
      SecondJobReadExpired(ss, es, i - 1, k, a, b);
    } else {
      var first := if a in s.jobs then a else b;
      if a !in s.jobs { NewJob(s, e, a); }
      if b !in s.jobs { NewJob(s, e, b); }
      KeyOfJob(s, first, k);
      ReplacingReadExpired(ss, es, i - 1, e.r, k);
    }
  }

  lemma KeyOfJob(s: System, j: JobId, k: Key)
    requires Inv(s) && Under(s, j, k)
    ensures k in s.keys
  {
    hide PhaseFits, KeyFits, HolderFits, OwnJobsDiffer, CreatorsDiffer;
    assert JobFits(s, j);
  }
}
