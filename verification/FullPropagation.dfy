/** What the resolver concludes about a fault whose symptoms have reached every service they can
    reach: which hypotheses survive, and when the true one is the only one left. */
module FullPropagation {
  import opened Sequences
  import opened CallGraph
  import opened Identifiability
  import opened Resolver

  /** Every service shows exactly the symptoms the hypothesis allows it. */
  ghost predicate FullyShown(h: Hypothesis, c: Case)
    requires WellFormed(c)
  {
    forall v, d :: v in c.services ==> (d in c.o[v].present <==> Expects(Predicted(h, c.edges, c.services)[v], d))
  }

  ghost predicate AllPresenceUsable(c: Case) { forall d :: Pres(d) in c.usable }

  ghost predicate NoOnsetUsable(c: Case) { forall src :: Onset(src) !in c.usable }

  /** Each of two services lies above the other: they are on a common call cycle. */
  ghost predicate Entangled(g: Callers, s: Service, v: Service) { s != v && Above(g, s, v) && Above(g, v, s) }

  /** The mode in which another service on the cycle would look the same. */
  function Loud(m: Mode): Mode { if m == Latency then Latency else Error }

  /** The alternatives that full propagation cannot rule out. */
  ghost predicate Rival(a: Hypothesis, h: Hypothesis, c: Case) {
    Entangled(CallerIndex(c.edges), h.service, a.service) && a.mode == Loud(h.mode)
  }

  lemma {:induction false} ReachesTransitive(g: Callers, s: Service, u: Service, v: Service, j: nat, k: nat)
    requires Reaches(g, s, u, j) && Reaches(g, u, v, k)
    ensures Reaches(g, s, v, j + k)
    decreases k
  {
    if k > 0 {
      var w :| Reaches(g, u, w, k - 1) && v in CallersOf(g, w);
      ReachesTransitive(g, s, u, w, j, k - 1);
      ReachesOneMore(g, s, w, v, j + k - 1);
    }
  }

  lemma HopsMeans(g: Callers, s: Service, v: Service)
    ensures Hops(g, s, v).Some? <==> s == v || Above(g, s, v)
  {
    assert Reaches(g, s, s, 0);
    if Hops(g, s, v).Some? {
      assert Reaches(g, s, v, Hops(g, s, v).value);
    }
  }

  /** Entangled services have the same callers above them. */
  lemma SameReach(g: Callers, s: Service, u: Service, v: Service)
    requires Entangled(g, s, u)
    ensures Hops(g, s, v).Some? ==> Hops(g, u, v).Some?
  {
    if Hops(g, s, v).Some? {
      var j: nat :| j >= 1 && Reaches(g, u, s, j);
      ReachesTransitive(g, u, s, v, j, Hops(g, s, v).value);
    }
  }

  // ---- What survives ----

  ghost function At(h: Hypothesis, c: Case, v: Service): Forecast {
    ForecastFor(h, v, Hops(CallerIndex(c.edges), h.service, v))
  }

  /** What a survivor insists on is what the true hypothesis has brought about. */
  lemma SurvivorAgrees(a: Hypothesis, h: Hypothesis, c: Case, v: Service, d: Presence)
    requires WellFormed(c) && v in c.services && FullyShown(h, c) && AllPresenceUsable(c) && Survives(a, c)
    ensures At(a, c, v).cell.At(d) == PresentHard ==> Expects(At(h, c, v), d)
    ensures At(a, c, v).cell.At(d) == AbsentHard ==> !Expects(At(h, c, v), d)
  {
    hide ForecastFor, Hops, Ranks, OrderOk;
    assert Pres(d) in c.usable;
    assert HardOk(Predicted(a, c.edges, c.services)[v], c.o[v], d);
  }

  /** The cause of a survivor shows its symptom, so it lies above the true cause, in a mode that fits. */
  lemma SurvivorIsReached(a: Hypothesis, h: Hypothesis, c: Case)
    requires WellFormed(c) && a.service in c.services && h.service in c.services
    requires FullyShown(h, c) && AllPresenceUsable(c) && Survives(a, c)
    ensures a == h
      || (a.service != h.service && Above(CallerIndex(c.edges), h.service, a.service) && a.mode == Loud(h.mode))
  {
    hide Hops, Above, CallerIndex, Survives, FullyShown, AllPresenceUsable, WellFormed;
    var v := a.service;
    HopsZero(CallerIndex(c.edges), v, v);
    HopsMeans(CallerIndex(c.edges), h.service, v);
    SurvivorAgrees(a, h, c, v, ErrLog);
    SurvivorAgrees(a, h, c, v, ErrSpan);
    SurvivorAgrees(a, h, c, v, Lat);
  }

  /** The true cause shows its own symptom, so it lies above the cause of any survivor. */
  lemma CauseIsReached(a: Hypothesis, h: Hypothesis, c: Case)
    requires WellFormed(c) && h.service in c.services && a.service != h.service
    requires FullyShown(h, c) && AllPresenceUsable(c) && Survives(a, c)
    ensures Above(CallerIndex(c.edges), a.service, h.service)
  {
    hide Hops, Above, CallerIndex, Survives, FullyShown, AllPresenceUsable, WellFormed;
    var v := h.service;
    HopsZero(CallerIndex(c.edges), v, v);
    HopsMeans(CallerIndex(c.edges), a.service, v);
    SurvivorAgrees(a, h, c, v, ErrSpan);
    SurvivorAgrees(a, h, c, v, Lat);
  }

  /** Whatever else is usable, only the true hypothesis and its rivals can survive. */
  lemma SurvivorsAreRivals(a: Hypothesis, h: Hypothesis, c: Case)
    requires WellFormed(c) && a.service in c.services && h.service in c.services
    requires FullyShown(h, c) && AllPresenceUsable(c) && Survives(a, c)
    ensures a == h || Rival(a, h, c)
  {
    hide FullyShown, Survives, Above, CallerIndex, WellFormed;
    SurvivorIsReached(a, h, c);
    if a != h {
      CauseIsReached(a, h, c);
    }
  }

  /** A rival's forecast insists on nothing that the true hypothesis does not bring about. */
  lemma RivalCell(a: Hypothesis, h: Hypothesis, v: Service, ha: Option<nat>, hh: Option<nat>, d: Presence)
    requires a == h || (a.service != h.service && a.mode == Loud(h.mode))
    requires ha.Some? <==> hh.Some?
    ensures ForecastFor(a, v, ha).cell.At(d) == PresentHard ==> Expects(ForecastFor(h, v, hh), d)
    ensures ForecastFor(a, v, ha).cell.At(d) == AbsentHard ==> !Expects(ForecastFor(h, v, hh), d)
  {
  }

  lemma RivalFits(a: Hypothesis, h: Hypothesis, c: Case, v: Service, d: Presence)
    requires WellFormed(c) && v in c.services && FullyShown(h, c) && (a == h || Rival(a, h, c))
    ensures HardOk(Predicted(a, c.edges, c.services)[v], c.o[v], d)
  {
    hide ForecastFor, Hops, Above, CallerIndex, Expects;
    var g := CallerIndex(c.edges);
    assert d in c.o[v].present <==> Expects(Predicted(h, c.edges, c.services)[v], d);
    if a != h {
      SameReach(g, h.service, a.service, v);
      SameReach(g, a.service, h.service, v);
    }
    RivalCell(a, h, v, Hops(g, a.service, v), Hops(g, h.service, v), d);
  }

  /** Judged by presence alone, the survivors are exactly the true hypothesis and its rivals. */
  lemma SurvivesIff(a: Hypothesis, h: Hypothesis, c: Case)
    requires WellFormed(c) && a.service in c.services && h.service in c.services
    requires FullyShown(h, c) && AllPresenceUsable(c) && NoOnsetUsable(c)
    ensures Survives(a, c) <==> a == h || Rival(a, h, c)
  {
    if Survives(a, c) {
      SurvivorsAreRivals(a, h, c);
    }
    if a == h || Rival(a, h, c) {
      hide FullyShown, Rival, HardOk, Predicted;
      forall v, d | v in c.services ensures HardOk(Predicted(a, c.edges, c.services)[v], c.o[v], d) {
        RivalFits(a, h, c, v, d);
      }
    }
  }

  // ---- When the true hypothesis is found ----

  ghost predicate OnCycle(s: Service, c: Case) { exists v :: v in c.services && Entangled(CallerIndex(c.edges), s, v) }

  lemma OneSurvivor(h: Hypothesis, c: Case)
    requires WellFormed(c) && h in Survivors(c) && forall a :: a in Survivors(c) ==> a == h
    ensures Survivors(c) == [h] && OutcomeOf(c) == Identified
  {
    hide Survivors, Sign, WellFormed, NoRepeats;
    SurvivorsDistinct(c);
    OnlyMember(Survivors(c), h);
  }

  /** The point of the resolver: once every symptom has spread, presence alone identifies the fault
      exactly when its service shares no call cycle with another one. */
  lemma IdentifiedIff(h: Hypothesis, c: Case)
    requires WellFormed(c) && h.service in c.services
    requires FullyShown(h, c) && AllPresenceUsable(c) && NoOnsetUsable(c)
    ensures h in Survivors(c)
    ensures OutcomeOf(c) == Identified && Survivors(c) == [h] <==> !OnCycle(h.service, c)
  {
    hide Survives, Survivors, FullyShown, AllPresenceUsable, NoOnsetUsable, WellFormed, Entangled, CallerIndex;
    SurvivesIff(h, h, c);
    SurvivorSurvives(h, c);
    if OnCycle(h.service, c) {
      var v :| v in c.services && Entangled(CallerIndex(c.edges), h.service, v);
      var a := Hypothesis(v, Loud(h.mode));
      SurvivesIff(a, h, c);
      SurvivorSurvives(a, c);
      NotEntangledWithItself(CallerIndex(c.edges), h.service);
      assert a in Survivors(c) && a != h;
    } else {
      forall a | a in Survivors(c) ensures a == h {
        SurvivorSurvives(a, c);
        SurvivesIff(a, h, c);
      }
      OneSurvivor(h, c);
    }
  }

  lemma NotEntangledWithItself(g: Callers, s: Service)
    ensures !Entangled(g, s, s)
  {
  }

  /** With onsets usable as well, a true hypothesis that no onset order contradicts is still the only
      survivor off a cycle. */
  lemma IdentifiedWithOnsets(h: Hypothesis, c: Case)
    requires WellFormed(c) && h.service in c.services
    requires FullyShown(h, c) && AllPresenceUsable(c) && Survives(h, c) && !OnCycle(h.service, c)
    ensures OutcomeOf(c) == Identified && Survivors(c) == [h]
  {
    hide Survives, Survivors, FullyShown, AllPresenceUsable, WellFormed, Entangled, CallerIndex;
    forall a | a in Survivors(c) ensures a == h {
      SurvivorSurvives(a, c);
      SurvivorsAreRivals(a, h, c);
    }
    SurvivorSurvives(h, c);
    OneSurvivor(h, c);
  }
}
