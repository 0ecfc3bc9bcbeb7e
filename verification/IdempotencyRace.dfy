/** A run in which one Idempotency-Key ends up bound to two live jobs at once: two requests read the same
    expired row, and the second one deletes the row the first has just committed. */
module IdempotencyRace {
  import opened Sequences
  import opened IdempotentEnqueue
  import opened IdempotencyWindows

  ghost predicate Reachable(s: System) { exists ss, es :: Run(ss, es) && ss[|es|] == s }

  lemma ReachStep(s: System, e: Event)
    requires Reachable(s) && Enabled(s, e)
    ensures Reachable(Apply(s, e))
  {
    hide Enabled, Apply, Initial;
    var ss, es :| Run(ss, es) && ss[|es|] == s;
    var ss', es' := ss + [Apply(s, e)], es + [e];
    forall i | 0 <= i < |es'| ensures StepAt(ss', es', i) {
      assert i < |es| ==> StepAt(ss, es, i);
    }
    assert Run(ss', es') && ss'[|es'|] == Apply(s, e);
  }

  /** A step that moves one request to its next phase and changes nothing else. */
  lemma ReachPhase(s: System, e: Event, p: Phase)
    requires Reachable(s) && Enabled(s, e) && Next(s, e) == p
    requires e.Lookup? || e.QueueCheck? || e.ReadKey? || e.StartDelete? || e.Reply?
    ensures Reachable(s.(phases := s.phases[e.r := p]))
  {
    hide Next, Enabled, Reachable;
    ReachStep(s, e);
  }

  lemma ArriveIs(s: System, r: RequestId, q: Request)
    requires r !in s.requests && r !in s.phases
    ensures Enabled(s, Arrive(r, q))
    ensures Apply(s, Arrive(r, q)) == s.(requests := s.requests[r := q], phases := s.phases[r := Fresh])
  {
  }

  lemma AddIs(s: System, r: RequestId, id: JobId)
    requires In(s, r) && s.phases[r].Admitted? && id !in s.used
    ensures Enabled(s, AddJob(r, id))
    ensures Apply(s, AddJob(r, id)) == s.(phases := s.phases[r := Added(id)], used := s.used + {id})
  {
  }

  /** A new request with a queue that has room comes as far as flushing its own job. */
  lemma ReachAdded(s: System, r: RequestId, q: Request, now: int, id: JobId)
    requires Reachable(s) && r !in s.requests && r !in s.phases && id !in s.used && !HasActiveRow(s, q.key, now)
    ensures Reachable(s.(requests := s.requests[r := q], phases := s.phases[r := Added(id)], used := s.used + {id}))
  {
    hide Reachable, Apply;
    var s1 := s.(requests := s.requests[r := q], phases := s.phases[r := Fresh]);
    ArriveIs(s, r, q);
    ReachStep(s, Arrive(r, q));
    ReachPhase(s1, Lookup(r, now), Looked);
    var s2 := s1.(phases := s1.phases[r := Looked]);
    ReachPhase(s2, QueueCheck(r, false), Admitted);
    var s3 := s2.(phases := s2.phases[r := Admitted]);
    AddIs(s3, r, id);
    ReachStep(s3, AddJob(r, id));
    assert s3.phases[r := Added(id)] == s.phases[r := Added(id)];
  }

  /** Such a request goes on to read an expired row. */
  lemma ReachStale(s: System, r: RequestId, q: Request, now: int, id: JobId)
    requires Reachable(s) && r !in s.requests && r !in s.phases && id !in s.used
    requires HasRow(s, q.key) && !HasActiveRow(s, q.key, now)
    ensures Reachable(s.(requests := s.requests[r := q], used := s.used + {id},
                         phases := s.phases[r := Stale(id, s.keys[q.key.value], now)]))
  {
    hide Reachable;
    ReachAdded(s, r, q, now, id);
    var t := s.(requests := s.requests[r := q], phases := s.phases[r := Added(id)], used := s.used + {id});
    ReachPhase(t, ReadKey(r, now), Stale(id, s.keys[q.key.value], now));
    assert t.phases[r := Stale(id, s.keys[q.key.value], now)] == s.phases[r := Stale(id, s.keys[q.key.value], now)];
  }

  /** What is left of a system with nothing held after a request has bound its key and answered. */
  function AfterBinding(s: System, r: RequestId, id: JobId, k: Key, at: int): System
    requires In(s, r)
  {
    var q := s.requests[r];
    s.(phases := s.phases[r := Answered(Accepted(id, q.tail))], keys := s.keys[k := Row(id, at + s.ttl)],
       jobs := s.jobs[id := Job(r, q.key, q.scope, q.tail, at, at + s.ttl)])
  }

  lemma CommitBound(t: System, u: System, r: RequestId, id: JobId, k: Key, at: int)
    requires In(t, r) && t.requests[r].key == Some(k) && t.phases[r] == Bound(id, at) && t.holders == map[k := r]
    requires var q := t.requests[r];
      u == t.(phases := t.phases[r := Decided(Accepted(id, q.tail))], keys := t.keys[k := Row(id, at + t.ttl)],
              jobs := t.jobs[id := Job(r, q.key, q.scope, q.tail, at, at + t.ttl)], holders := map[])
    ensures Enabled(t, Commit(r)) && Apply(t, Commit(r)) == u
  {
    assert Free(t.holders, r) == map[];
  }

  lemma ReachBound(s: System, r: RequestId, id: JobId, k: Key, at: int)
    requires In(s, r) && s.holders == map[] && s.requests[r].key == Some(k)
    requires Reachable(s.(phases := s.phases[r := Bound(id, at)], holders := map[k := r]))
    ensures Reachable(AfterBinding(s, r, id, k, at))
  {
    hide Reachable;
    var t := s.(phases := s.phases[r := Bound(id, at)], holders := map[k := r]);
    var u := AfterBinding(s, r, id, k, at).(phases := s.phases[r := Decided(Accepted(id, s.requests[r].tail))]);
    CommitBound(t, u, r, id, k, at);
    ReachStep(t, Commit(r));
    hide Apply;
    ReachPhase(u, Reply(r), Answered(Accepted(id, s.requests[r].tail)));
    assert u.phases[r := Answered(Accepted(id, s.requests[r].tail))] == AfterBinding(s, r, id, k, at).phases;
  }

  /** The first request for a key binds it. */
  lemma ReachFirst(s: System, r: RequestId, q: Request, k: Key, now: int, id: JobId)
    requires Reachable(s) && r !in s.requests && r !in s.phases && id !in s.used
    requires q.key == Some(k) && k !in s.keys && s.holders == map[]
    ensures Reachable(AfterBinding(s.(requests := s.requests[r := q], used := s.used + {id},
                                      phases := s.phases[r := Inserting(id, now, false)]), r, id, k, now))
  {
    hide Reachable;
    ReachAdded(s, r, q, now, id);
    var t := s.(requests := s.requests[r := q], phases := s.phases[r := Added(id)], used := s.used + {id});
    ReachPhase(t, ReadKey(r, now), Inserting(id, now, false));
    var u := t.(phases := s.phases[r := Inserting(id, now, false)]);
    assert t.phases[r := Inserting(id, now, false)] == u.phases;
    ReachStep(u, InsertKey(r));
    assert Apply(u, InsertKey(r)) == u.(phases := u.phases[r := Bound(id, now)], holders := map[k := r]);
    ReachBound(u, r, id, k, now);
  }

  /** A request that has read an expired row replaces whatever row the key has by now. */
  lemma ReachReplaced(s: System, r: RequestId, id: JobId, k: Key)
    requires Reachable(s) && In(s, r) && s.requests[r].key == Some(k) && k in s.keys && s.holders == map[]
    requires s.phases[r].Stale? && s.phases[r].job == id
    ensures Reachable(AfterBinding(s, r, id, k, s.phases[r].now))
  {
    hide Reachable;
    var read, now, row := s.phases[r].read, s.phases[r].now, s.keys[k];
    ReachPhase(s, StartDelete(r), Deleting(id, read, row, now));
    var t := s.(phases := s.phases[r := Deleting(id, read, row, now)]);
    ReachStep(t, FinishDelete(r));
    var u := s.(phases := s.phases[r := Inserting(id, now, true)], holders := map[k := r]);
    assert Apply(t, FinishDelete(r)) == u by {
      assert t.phases[r := Inserting(id, now, true)] == u.phases;
    }
    ReachStep(u, InsertKey(r));
    assert Apply(u, InsertKey(r)) == s.(phases := s.phases[r := Bound(id, now)], holders := map[k := r]) by {
      assert u.phases[r := Bound(id, now)] == s.phases[r := Bound(id, now)];
      assert u.holders[k := r] == map[k := r];
    }
    ReachBound(s, r, id, k, now);
  }

  /** Whenever two requests have read an expired row of one key and nobody holds it, the protocol can go on
      so that both answer 202, with two different jobs bound over windows that overlap if their clock
      readings are less than a lifetime apart. */
  lemma BothCanBind(s: System, r: RequestId, u: RequestId, k: Key)
    requires Reachable(s) && In(s, r) && In(s, u) && r != u && k in s.keys && s.holders == map[]
    requires s.requests[r].key == Some(k) == s.requests[u].key && s.phases[r].Stale? && s.phases[u].Stale?
    requires s.phases[r].job != s.phases[u].job
    requires s.phases[r].now < s.phases[u].now + s.ttl && s.phases[u].now < s.phases[r].now + s.ttl
    ensures var a, b := s.phases[r].job, s.phases[u].job;
      exists t :: Reachable(t) && Under(t, a, k) && Under(t, b, k) && !Apart(t.jobs[a], t.jobs[b])
        && In(t, r) && t.phases[r] == Answered(Accepted(a, t.jobs[a].tail))
        && In(t, u) && t.phases[u] == Answered(Accepted(b, t.jobs[b].tail))
  {
    hide Reachable;
    var a, b := s.phases[r].job, s.phases[u].job;
    ReachReplaced(s, r, a, k);
    var t := AfterBinding(s, r, a, k, s.phases[r].now);
    ReachReplaced(t, u, b, k);
    var v := AfterBinding(t, u, b, k, t.phases[u].now);
    assert Under(v, a, k) && Under(v, b, k);
  }

  const KEY: Key := "k"
  const POST := Request(Some(KEY), "default", false)

  /** The job bound at time 0 has expired when requests 1 and 2 read the key at time 20. */
  lemma ReachTwoReaders() returns (s: System)
    ensures Reachable(s) && In(s, 1) && In(s, 2) && KEY in s.keys && s.holders == map[] && s.ttl == 10
    ensures s.requests[1] == s.requests[2] == POST
    ensures s.phases[1] == Stale(1, Row(0, 10), 20) && s.phases[2] == Stale(2, Row(0, 10), 20)
  {
    var s0 := System(map[], map[], map[], map[], map[], {}, 10);
    var ss: seq<System>, es: seq<Event> := [s0], [];
    assert Run(ss, es) && ss[|es|] == s0;
    hide Reachable;
    ReachFirst(s0, 0, POST, KEY, 0, 0);
    var begun := System(map[0 := POST], map[0 := Inserting(0, 0, false)], map[], map[], map[], {0}, 10);
    var s1 := AfterBinding(begun, 0, 0, KEY, 0);
    assert s0.(requests := s0.requests[0 := POST], used := s0.used + {0},
               phases := s0.phases[0 := Inserting(0, 0, false)]) == begun;
    ReachStale(s1, 1, POST, 20, 1);
    var s2 := s1.(requests := s1.requests[1 := POST], used := s1.used + {1},
                  phases := s1.phases[1 := Stale(1, Row(0, 10), 20)]);
    ReachStale(s2, 2, POST, 20, 2);
    s := s2.(requests := s2.requests[2 := POST], used := s2.used + {2},
             phases := s2.phases[2 := Stale(2, Row(0, 10), 20)]);
  }

  ghost predicate BoundTwice(s: System) {
    && Under(s, 1, KEY) && Under(s, 2, KEY) && Live(s.jobs[1], 25) && Live(s.jobs[2], 25)
    && s.jobs[1].creator == 1 && s.jobs[2].creator == 2 && In(s, 1) && In(s, 2)
    && s.phases[1] == Answered(Accepted(1, false)) && s.phases[2] == Answered(Accepted(2, false))
  }

  /** Two live jobs under one key: both windows are [20, 30), and both requests were answered 202. */
  lemma TwoLiveJobs()
    ensures exists s :: Reachable(s) && BoundTwice(s)
  {
    hide Reachable;
    var s := ReachTwoReaders();
    ReachReplaced(s, 1, 1, KEY);
    var t := AfterBinding(s, 1, 1, KEY, 20);
    ReachReplaced(t, 2, 2, KEY);
    var v := AfterBinding(t, 2, 2, KEY, 20);
    assert BoundTwice(v);
  }
}
