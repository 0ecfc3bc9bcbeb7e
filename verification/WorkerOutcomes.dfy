/** What the worker queue's runs amount to for each job: how it came about, which result it ends with, and
    that it is announced. */
module WorkerOutcomes {
  import opened WorkerQueue

  lemma OneStep(ss: seq<System>, es: seq<Event>, i: nat)
    requires Run(ss, es) && i < |es|
    ensures |ss| == |es| + 1 && Inv(ss[i]) && Enabled(ss[i], es[i]) && ss[i + 1] == Apply(ss[i], es[i])
  {
    hide Inv, Enabled, Apply, Initial;
    InvHolds(ss, es, i);
    assert StepAt(ss, es, i);
  }

  lemma RunLength(ss: seq<System>, es: seq<Event>)
    requires Run(ss, es)
    ensures |ss| == |es| + 1
  {
  }

  // ---- How a job comes about ----

  /** A row that appears in a step is the pending one that step asks for. */
  lemma NewRowIs(s: System, e: Event, j: JobId)
    requires Inv(s) && Enabled(s, e) && j !in s.jobs
    ensures j in Apply(s, e).jobs <==>
      match e
      case Enqueue(id, _, _) => j == id
      case IdlePurge(_, id, _) => j == id
      case BodyCommit(_, followUp, _) => j in followUp
      case _ => false
    ensures j in Apply(s, e).jobs ==> Apply(s, e).jobs[j].status == Pending
    ensures j in Apply(s, e).jobs ==>
      match e
      case Enqueue(_, kind, at) => Apply(s, e).jobs[j].kind == kind && Apply(s, e).jobs[j].createdAt == at
      case IdlePurge(_, _, at) => Apply(s, e).jobs[j].kind == Purge && Apply(s, e).jobs[j].createdAt == at
      case BodyCommit(_, _, at) => Apply(s, e).jobs[j].kind == Purge && Apply(s, e).jobs[j].createdAt == at
      case _ => false
  {
    hide Exclusive, LocksFit, KindsFit, CallbacksFit;
    if HasActor(e) && Works(PhaseOf(s, e.worker)) {
      assert RowFits(s, s.phases[e.worker]);
    }
  }

  /** Idle workers schedule a purge only if their poll finds none pending or running, but two polls may come
      before either insert: then both purges are scheduled, and both can be claimed. */
  lemma TwoPollsTwoPurges(s: System, w: Worker, v: Worker, a: JobId, b: JobId, at: int)
    requires Inv(s) && PhaseOf(s, w) == PhaseOf(s, v) == Idle && w != v && a != b && a !in s.jobs && b !in s.jobs
    ensures Enabled(s, IdleRead(w))
      <==> forall j :: j in s.jobs && s.jobs[j].kind == Purge ==> Terminal(s.jobs[j].status)
    ensures Enabled(s, IdleRead(w)) ==>
      var s1 := Apply(s, IdleRead(w));
      Enabled(s1, IdleRead(v)) &&
      var s2 := Apply(s1, IdleRead(v));
      Enabled(s2, IdlePurge(w, a, at)) &&
      var s3 := Apply(s2, IdlePurge(w, a, at));
      Enabled(s3, IdlePurge(v, b, at)) &&
      var s4 := Apply(s3, IdlePurge(v, b, at));
      && s4.jobs == s.jobs[a := Job(Purge, Pending, at)][b := Job(Purge, Pending, at)]
      && PhaseOf(s4, w) == PhaseOf(s4, v) == Idle && Claimable(s4, a) && Claimable(s4, b)
  {
    if a in s.locks { LockedExists(s, a); }
    if b in s.locks { LockedExists(s, b); }
    hide Inv;
  }

  lemma LockedExists(s: System, j: JobId)
    requires Inv(s) && j in s.locks
    ensures j in s.jobs
  {
    assert Has(s, s.locks[j], j);
  }

  // ---- Which result a job ends with ----

  /** The worker reached this result for the job at step `f`, and has not died since. */
  ghost predicate Reached(ss: seq<System>, es: seq<Event>, f: nat, i: nat, w: Worker, j: JobId, result: Status) {
    && f < i <= |es| && |es| < |ss| && Has(ss[f], w, j)
    && (es[f] == Finish(w, true) || es[f] == Finish(w, false))
    && (result == Done <==> es[f] == Finish(w, true)) && (result == Failed <==> es[f] == Finish(w, false))
    && forall n :: f < n < i ==> es[n] != Crash(w)
  }

  /** How a worker comes to have a result. */
  lemma StepFinishes(s: System, e: Event, w: Worker, j: JobId, result: Status)
    requires Enabled(s, e) && PhaseOf(Apply(s, e), w) == Finishing(j, result)
    ensures e != Crash(w)
    ensures PhaseOf(s, w) == Finishing(j, result)
      || (Has(s, w, j) && ((e == Finish(w, true) && result == Done) || (e == Finish(w, false) && result == Failed)))
  {
  }

  lemma {:induction false} ResultWasReached(ss: seq<System>, es: seq<Event>, i: nat, w: Worker, j: JobId,
                                            result: Status)
    requires Run(ss, es) && i < |ss| && PhaseOf(ss[i], w) == Finishing(j, result)
    ensures exists f: nat :: Reached(ss, es, f, i, w, j, result)
  {
    RunLength(ss, es);
    if i == 0 {
      AllIdleAtFirst(ss, es, w);
    } else {
      hide Inv, Enabled, Apply, Initial, Run, Has;
      OneStep(ss, es, i - 1);
      StepFinishes(ss[i - 1], es[i - 1], w, j, result);
      if PhaseOf(ss[i - 1], w) == Finishing(j, result) {
        ResultWasReached(ss, es, i - 1, w, j, result);
        var f: nat :| Reached(ss, es, f, i - 1, w, j, result);
        assert Reached(ss, es, f, i, w, j, result);
      } else {
        assert Reached(ss, es, i - 1, i, w, j, result);
      }
    }
  }

  lemma AllIdleAtFirst(ss: seq<System>, es: seq<Event>, w: Worker)
    requires Run(ss, es)
    ensures PhaseOf(ss[0], w) == Idle
  {
  }

  /** The status with which a commit leaves the job. */
  lemma CommitWrites(s: System, w: Worker, j: JobId)
    requires Inv(s) && Enabled(s, Commit(w)) && Has(s, w, j)
    ensures PhaseOf(s, w).Finishing? && PhaseOf(s, w).job == j && j in s.jobs
    ensures var t := Apply(s, Commit(w)); j in t.jobs && t.jobs[j].status == PhaseOf(s, w).result
  {
  }

  /** A row that reads done or failed goes back to a commit by a worker that had the job and, before it, to
      the end of the job's body in that worker's hands, with no crash in between: done exactly when the body
      ended well. */
  lemma EndedAsReached(ss: seq<System>, es: seq<Event>, i: nat, j: JobId)
    requires Run(ss, es) && i < |ss| && j in ss[i].jobs && Terminal(ss[i].jobs[j].status)
    ensures exists f: nat, c: nat ::
      f < c < i && CommitsAt(ss, es, c, j) && Reached(ss, es, f, c, es[c].worker, j, ss[i].jobs[j].status)
  {
    RunLength(ss, es);
    hide Inv, Enabled, Apply, Run, Reached;
    TerminalWasCommitted(ss, es, i, j);
    var c: nat :| c < i && CommitsAt(ss, es, c, j);
    var w := es[c].worker;
    OneStep(ss, es, c);
    CommitWrites(ss[c], w, j);
    var result := PhaseOf(ss[c], w).result;
    ResultWasReached(ss, es, c, w, j, result);
    var f: nat :| Reached(ss, es, f, c, w, j, result);
    ReachedEarlier(ss, es, f, c, w, j, result);
    StatusOnlyMovesForward(ss, es, c + 1, i, j);
  }

  lemma ReachedEarlier(ss: seq<System>, es: seq<Event>, f: nat, i: nat, w: Worker, j: JobId, result: Status)
    requires Reached(ss, es, f, i, w, j, result)
    ensures f < i && (result == Done || result == Failed)
  {
  }

  // ---- Every job can be brought to an end ----

  lemma HeldRow(s: System, w: Worker)
    requires Inv(s) && (PhaseOf(s, w).Holding? || PhaseOf(s, w).Detached?)
    ensures PhaseOf(s, w).job in s.jobs
  {
    assert RowFits(s, s.phases[w]);
  }

  /** Whoever has claimed a job, whether or not its body has committed on its way, can end it: the job is
      committed with the result of its body, unlocked, and announced if it is an ingest job. */
  lemma ClaimedJobCanEnd(s: System, w: Worker, ok: bool)
    requires Inv(s) && (PhaseOf(s, w).Holding? || PhaseOf(s, w).Detached?)
    requires var j := PhaseOf(s, w).job; ok ==> j in s.jobs && s.jobs[j].kind != Unknown
    ensures Enabled(s, Finish(w, ok)) && Enabled(Apply(s, Finish(w, ok)), Commit(w))
    ensures var j, u := PhaseOf(s, w).job, Apply(Apply(s, Finish(w, ok)), Commit(w));
      && j in s.jobs && u.jobs == s.jobs[j := s.jobs[j].(status := if ok then Done else Failed)] && j !in u.locks
      && if s.jobs[j].kind == Ingest then
           Enabled(u, Callback(w)) && Apply(u, Callback(w)).callbacks == s.callbacks + [j]
         else PhaseOf(u, w) == Idle
  {
    HeldRow(s, w);
    hide Inv;
  }

  /** A claimed purge can commit on its way as often as it likes, with new purges for what is left; its row
      then reads "running" and is nobody's lock. */
  lemma PurgeCanCommitOnItsWay(s: System, w: Worker, followUp: set<JobId>, at: int)
    requires Inv(s) && (PhaseOf(s, w).Holding? || PhaseOf(s, w).Detached?) && followUp !! s.jobs.Keys
    requires var j := PhaseOf(s, w).job; j in s.jobs && s.jobs[j].kind == Purge
    ensures Enabled(s, BodyCommit(w, followUp, at))
    ensures var j, t := PhaseOf(s, w).job, Apply(s, BodyCommit(w, followUp, at));
      && PhaseOf(t, w) == Detached(j) && j !in t.locks && t.jobs.Keys == s.jobs.Keys + followUp
      && t.jobs[j].status == Running
  {
    HeldRow(s, w);
    LockedByOne(s, w);
    hide Inv;
  }

  lemma LockedByOne(s: System, w: Worker)
    requires Inv(s) && (PhaseOf(s, w).Holding? || PhaseOf(s, w).Detached?)
    ensures var j := PhaseOf(s, w).job; j in s.locks ==> s.locks[j] == w
  {
    assert Has(s, w, PhaseOf(s, w).job);
  }

  // ---- Announcements ----

  /** Some worker has committed the job and is about to announce it, or died before it could. */
  ghost predicate OnItsWay(ss: seq<System>, es: seq<Event>, i: nat, j: JobId) {
    exists w :: i < |ss| && PhaseOf(ss[i], w) == Notifying(j)
  }

  ghost predicate DiedOnTheWay(ss: seq<System>, es: seq<Event>, i: nat, j: JobId) {
    exists x: nat :: x < i && x < |es| && x < |ss| && es[x].Crash? && PhaseOf(ss[x], es[x].worker) == Notifying(j)
  }

  lemma NotifyingGoesOn(s: System, e: Event, w: Worker, j: JobId)
    requires Enabled(s, e) && PhaseOf(s, w) == Notifying(j)
    ensures PhaseOf(Apply(s, e), w) == Notifying(j) || j in Apply(s, e).callbacks || e == Crash(w)
  {
  }

  lemma CallbacksStay(s: System, e: Event, j: JobId)
    requires Enabled(s, e) && j in s.callbacks
    ensures j in Apply(s, e).callbacks
  {
  }

  /** A row that becomes terminal in a step is that of the committing worker, which goes on to announce it. */
  lemma CommitNotifies(s: System, e: Event, j: JobId)
    requires Inv(s) && Enabled(s, e) && j in Apply(s, e).jobs && Terminal(Apply(s, e).jobs[j].status)
    requires Apply(s, e).jobs[j].kind == Ingest && !(j in s.jobs && Terminal(s.jobs[j].status))
    ensures e.Commit? && PhaseOf(Apply(s, e), e.worker) == Notifying(j)
  {
    hide Exclusive, LocksFit, KindsFit, CallbacksFit;
    if j !in s.jobs {
      NewRowIs(s, e, j);
    } else {
      StepForward(s, e, j);
    }
  }

  /** Every finished ingest job has been announced or is about to be, unless its worker died between the
      commit and the announcement. */
  lemma {:induction false} FinishedIsAnnounced(ss: seq<System>, es: seq<Event>, i: nat, j: JobId)
    requires Run(ss, es) && i < |ss| && j in ss[i].jobs
    requires ss[i].jobs[j].kind == Ingest && Terminal(ss[i].jobs[j].status)
    ensures j in ss[i].callbacks || OnItsWay(ss, es, i, j) || DiedOnTheWay(ss, es, i, j)
  {
    RunLength(ss, es);
    if i == 0 {
      AllPendingAtFirst(ss, es, j);
    } else {
      hide Inv, Enabled, Apply, Run;
      var s, e := ss[i - 1], es[i - 1];
      OneStep(ss, es, i - 1);
      if j in s.jobs && Terminal(s.jobs[j].status) {
        StepForward(s, e, j);
        FinishedIsAnnounced(ss, es, i - 1, j);
        if j in s.callbacks {
          CallbacksStay(s, e, j);
        } else if OnItsWay(ss, es, i - 1, j) {
          var w :| PhaseOf(s, w) == Notifying(j);
          NotifyingGoesOn(s, e, w, j);
        }
      } else {
        CommitNotifies(s, e, j);
      }
    }
  }

  lemma AllPendingAtFirst(ss: seq<System>, es: seq<Event>, j: JobId)
    requires Run(ss, es) && j in ss[0].jobs
    ensures ss[0].jobs[j].status == Pending
  {
  }
}
