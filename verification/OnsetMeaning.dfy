/** What survival means in terms of the call graph and the observations alone: which symptoms and which
    order of onsets eliminate a hypothesis. */
module OnsetMeaning {
  import opened Sequences
  import opened CallGraph
  import opened Identifiability

  // ---- Observed onsets ----

  /** When a service was first seen to fail, in errors or in latency. */
  function OnsetIn(o: Observations, v: Service, src: Source): Option<real> {
    if v !in o then None
    else
      match src
      case OnsetError => o[v].onsetError
      case OnsetLat => o[v].onsetLat
  }

  predicate Observed(o: Observations, services: seq<Service>, src: Source, v: Service) {
    v in services && OnsetIn(o, v, src).Some?
  }

  /** Some onset at or after that of `a` and before that of `b` is followed by silence for longer than the
      tolerance. */
  ghost predicate Parted(o: Observations, services: seq<Service>, src: Source, tol: real, a: Service, b: Service)
    requires Observed(o, services, src, a) && Observed(o, services, src, b)
  {
    exists c :: QuietFrom(o, services, src, tol, c)
      && OnsetIn(o, a, src).value <= OnsetIn(o, c, src).value < OnsetIn(o, b, src).value
  }

  ghost predicate QuietFrom(o: Observations, services: seq<Service>, src: Source, tol: real, c: Service) {
    && Observed(o, services, src, c)
    && forall d :: Observed(o, services, src, d) && OnsetIn(o, d, src).value > OnsetIn(o, c, src).value ==>
         OnsetIn(o, d, src).value > OnsetIn(o, c, src).value + tol
  }

  lemma {:induction false} TimesMeans(o: Observations, services: seq<Service>, src: Source, v: Service, t: real)
    ensures (v, t) in Times(o, services, src) <==> v in services && OnsetIn(o, v, src) == Some(t)
  {
    if services != [] {
      assert services == [services[0]] + services[1..];
      TimesMeans(o, services[1..], src, v, t);
    }
  }

  lemma {:induction false} TimesNoRepeats(o: Observations, services: seq<Service>, src: Source)
    requires NoRepeats(services)
    ensures NoRepeats(Times(o, services, src))
  {
    if services != [] {
      var v, rest := services[0], services[1..];
      assert forall i :: 0 <= i < |rest| ==> rest[i] == services[i + 1];
      TimesNoRepeats(o, rest, src);
      var ts := Times(o, rest, src);
      forall i | 0 <= i < |ts| ensures ts[i].0 != v {
        assert ts[i] in ts;
        TimesMeans(o, rest, src, ts[i].0, ts[i].1);
      }
    }
  }

  lemma ByTimePreorder()
    ensures TotalPreorder(ByTime)
  {
  }

  /** The sorted onsets: each observed service once, by time. */
  lemma OrderedMeans(o: Observations, services: seq<Service>, src: Source)
    requires NoRepeats(services)
    ensures var ord := Ordered(o, services, src);
      && SortedBy(ord, ByTime) && NoRepeats(ord)
      && forall v, t :: (v, t) in ord <==> v in services && OnsetIn(o, v, src) == Some(t)
  {
    hide Sort, Times, OnsetIn;
    var ts, ord := Times(o, services, src), Ordered(o, services, src);
    ByTimePreorder();
    SortSorted(ts, ByTime);
    TimesNoRepeats(o, services, src);
    SameBagNoRepeats(ts, ord);
    forall v, t ensures (v, t) in ord <==> v in services && OnsetIn(o, v, src) == Some(t) {
      TimesMeans(o, services, src, v, t);
      SameBagMember(ts, ord, (v, t));
    }
  }

  lemma SameBagMember<T>(s: seq<T>, t: seq<T>, x: T)
    requires multiset(s) == multiset(t)
    ensures x in s <==> x in t
  {
    assert x in s <==> x in multiset(s);
    assert x in t <==> x in multiset(t);
  }

  lemma SameBagNoRepeats<T>(s: seq<T>, t: seq<T>)
    requires multiset(s) == multiset(t) && NoRepeats(s)
    ensures NoRepeats(t)
  {
    forall i, j | 0 <= i < j < |t| ensures t[i] != t[j] {
      SameBagMember(s, t, t[i]);
      NoRepeatsMultiset(s, t[i]);
      UniqueOccurrence(t, i);
    }
  }

  /** Where a service stands in the sorted onsets. */
  lemma {:induction false} LastIndexIs(ord: seq<(Service, real)>, v: Service, n: nat, i: nat)
    requires n <= |ord| && i < n && ord[i].0 == v
    requires forall k :: 0 <= k < |ord| && k != i ==> ord[k].0 != v
    ensures LastIndex(ord, v, n) == Some(i)
  {
    if i < n - 1 {
      LastIndexIs(ord, v, n - 1, i);
    }
  }

  lemma {:induction false} LastIndexFinds(ord: seq<(Service, real)>, v: Service, n: nat)
    requires n <= |ord| && LastIndex(ord, v, n).Some?
    ensures LastIndex(ord, v, n).value < n && ord[LastIndex(ord, v, n).value].0 == v
  {
    if ord[n - 1].0 != v {
      LastIndexFinds(ord, v, n - 1);
    }
  }

  /** A ranked service has its rank at its place in the order; an observed one has a place. */
  lemma PlaceOf(o: Observations, services: seq<Service>, src: Source, tol: real, v: Service) returns (i: nat)
    requires NoRepeats(services) && Observed(o, services, src, v)
    ensures var ord := Ordered(o, services, src);
      && i < |ord| && ord[i] == (v, OnsetIn(o, v, src).value)
      && v in Ranks(o, services, src, tol) && Ranks(o, services, src, tol)[v] == Rank(ord, tol, i)
  {
    OrderedMeans(o, services, src);
    hide Ordered, Rank, OnsetIn;
    var ord, t := Ordered(o, services, src), OnsetIn(o, v, src).value;
    assert (v, t) in ord;
    i :| 0 <= i < |ord| && ord[i] == (v, t);
    forall k | 0 <= k < |ord| && k != i ensures ord[k].0 != v {
      assert ord[k] in ord && ord[k] == (ord[k].0, ord[k].1);
      assert ord[k] != ord[i];
    }
    LastIndexIs(ord, v, |ord|, i);
    RankMapAt(ord, tol, |ord|, v);
  }

  lemma RankedIsObserved(o: Observations, services: seq<Service>, src: Source, tol: real, v: Service)
    requires NoRepeats(services) && v in Ranks(o, services, src, tol)
    ensures Observed(o, services, src, v)
  {
    OrderedMeans(o, services, src);
    hide Ordered, Rank, OnsetIn;
    var ord := Ordered(o, services, src);
    RankMapAt(ord, tol, |ord|, v);
    LastIndexFinds(ord, v, |ord|);
    var i := LastIndex(ord, v, |ord|).value;
    assert ord[i] in ord && ord[i] == (v, ord[i].1);
  }

  /** A quiet stretch in the order is one among the observations. */
  lemma PartedIff(o: Observations, services: seq<Service>, src: Source, tol: real, a: Service, b: Service)
    requires NoRepeats(services) && Observed(o, services, src, a) && Observed(o, services, src, b)
    ensures var ord := Ordered(o, services, src);
      Parted(o, services, src, tol, a, b)
      <==> exists e: nat ::
             e < |ord| && OnsetIn(o, a, src).value <= ord[e].1 < OnsetIn(o, b, src).value && QuietAfter(ord, tol, e)
  {
    hide Ordered, OnsetIn, NoRepeats, QuietAfter;
    var ord := Ordered(o, services, src);
    if Parted(o, services, src, tol, a, b) {
      var c :| QuietFrom(o, services, src, tol, c)
        && OnsetIn(o, a, src).value <= OnsetIn(o, c, src).value < OnsetIn(o, b, src).value;
      var e := QuietPlace(o, services, src, tol, c);
    }
    if e: nat :|
      e < |ord| && OnsetIn(o, a, src).value <= ord[e].1 < OnsetIn(o, b, src).value && QuietAfter(ord, tol, e)
    {
      QuietService(o, services, src, tol, e);
    }
  }

  lemma QuietPlace(o: Observations, services: seq<Service>, src: Source, tol: real, c: Service) returns (e: nat)
    requires NoRepeats(services) && QuietFrom(o, services, src, tol, c)
    ensures var ord := Ordered(o, services, src);
      Observed(o, services, src, c) && e < |ord| && ord[e].1 == OnsetIn(o, c, src).value && QuietAfter(ord, tol, e)
  {
    OrderedMeans(o, services, src);
    hide Ordered, OnsetIn, SortedBy, NoRepeats, QuietAfter;
    var ord, t := Ordered(o, services, src), OnsetIn(o, c, src).value;
    assert c in services && OnsetIn(o, c, src) == Some(t);
    assert (c, t) in ord;
    e :| e < |ord| && ord[e] == (c, t);
    QuietThere(o, services, src, tol, c, e);
  }

  lemma QuietService(o: Observations, services: seq<Service>, src: Source, tol: real, e: nat)
    requires NoRepeats(services) && e < |Ordered(o, services, src)| && QuietAfter(Ordered(o, services, src), tol, e)
    ensures var entry := Ordered(o, services, src)[e];
      && Observed(o, services, src, entry.0) && entry.1 == OnsetIn(o, entry.0, src).value
      && QuietFrom(o, services, src, tol, entry.0)
  {
    OrderedMeans(o, services, src);
    hide Ordered, OnsetIn, SortedBy, NoRepeats, QuietAfter, QuietFrom;
    var ord := Ordered(o, services, src);
    assert ord[e] in ord && ord[e] == (ord[e].0, ord[e].1);
    QuietThere(o, services, src, tol, ord[e].0, e);
  }

  lemma QuietThere(o: Observations, services: seq<Service>, src: Source, tol: real, c: Service, e: nat)
    requires var ord := Ordered(o, services, src);
      && e < |ord| && Observed(o, services, src, c) && ord[e] == (c, OnsetIn(o, c, src).value)
      && forall v, t :: (v, t) in ord <==> v in services && OnsetIn(o, v, src) == Some(t)
    ensures QuietAfter(Ordered(o, services, src), tol, e) <==> QuietFrom(o, services, src, tol, c)
  {
    hide Ordered, OnsetIn;
    var ord := Ordered(o, services, src);
    if QuietAfter(ord, tol, e) {
      forall d | Observed(o, services, src, d) && OnsetIn(o, d, src).value > OnsetIn(o, c, src).value
        ensures OnsetIn(o, d, src).value > OnsetIn(o, c, src).value + tol
      {
        assert (d, OnsetIn(o, d, src).value) in ord;
        var k :| 0 <= k < |ord| && ord[k] == (d, OnsetIn(o, d, src).value);
      }
    }
    if QuietFrom(o, services, src, tol, c) {
      forall k | 0 <= k < |ord| && ord[k].1 > ord[e].1 ensures ord[k].1 > ord[e].1 + tol {
        assert ord[k] in ord && ord[k] == (ord[k].0, ord[k].1);
        assert Observed(o, services, src, ord[k].0);
      }
    }
  }

  /** What the ranks say of the observations: exactly the services with a known onset of that source have
      one, and one ranks below another exactly when a quiet stretch parts them. */
  lemma RanksMean(o: Observations, services: seq<Service>, src: Source, tol: real, a: Service, b: Service)
    requires NoRepeats(services) && tol >= 0.0
    ensures var ranks := Ranks(o, services, src, tol);
      && (a in ranks <==> Observed(o, services, src, a)) && (b in ranks <==> Observed(o, services, src, b))
      && (a in ranks && b in ranks ==> (ranks[a] < ranks[b] <==> Parted(o, services, src, tol, a, b)))
  {
    hide Ranks, Observed, Parted, OnsetIn;
    if a in Ranks(o, services, src, tol) { RankedIsObserved(o, services, src, tol, a); }
    if b in Ranks(o, services, src, tol) { RankedIsObserved(o, services, src, tol, b); }
    if Observed(o, services, src, a) { var i := PlaceOf(o, services, src, tol, a); }
    if Observed(o, services, src, b) { var j := PlaceOf(o, services, src, tol, b); }
    if Observed(o, services, src, a) && Observed(o, services, src, b) {
      RanksOfTwo(o, services, src, tol, a, b);
    }
  }

  lemma RanksOfTwo(o: Observations, services: seq<Service>, src: Source, tol: real, a: Service, b: Service)
    requires NoRepeats(services) && tol >= 0.0 && Observed(o, services, src, a) && Observed(o, services, src, b)
    ensures var ranks := Ranks(o, services, src, tol);
      a in ranks && b in ranks && (ranks[a] < ranks[b] <==> Parted(o, services, src, tol, a, b))
  {
    hide Ranks, Parted, OnsetIn, Rank, Ordered, QuietAfter;
    var ord := Ordered(o, services, src);
    var i := PlaceOf(o, services, src, tol, a);
    var j := PlaceOf(o, services, src, tol, b);
    OrderedMeans(o, services, src);
    PartedIff(o, services, src, tol, a, b);
    if i < j {
      RankMeans(ord, tol, i, j);
    } else {
      RankShrinks(ord, tol, tol, j, i);
      assert j < i ==> ByTime(ord[j], ord[i]);
    }
  }

  // ---- What survives ----

  /** The symptoms of the faulty service itself, and those its callers may show. */
  function OwnSymptoms(m: Mode): set<Presence> {
    match m
    case Error => {ErrLog, ErrSpan, ErrRate}
    case ErrorSilent => {ErrSpan}
    case Latency => {Lat}
  }

  function SpreadSymptoms(m: Mode): set<Presence> {
    match m
    case Error => {ErrLog, ErrSpan, ErrRate}
    case ErrorSilent => {ErrLog, ErrSpan, ErrRate}
    case Latency => {Lat}
  }

  /** A symptom that is or is not present at a service fits a fault `hops` callers below it: an unreachable
      service shows nothing, the cause exactly its own symptoms, a caller nothing but what may spread. */
  predicate SymptomFits(h: Hypothesis, v: Service, hops: Option<nat>, present: set<Presence>, d: Presence) {
    if hops.None? then d !in present
    else if v == h.service then d in present <==> d in OwnSymptoms(h.mode)
    else d in present ==> d in SpreadSymptoms(h.mode)
  }

  lemma CellMeans(h: Hypothesis, v: Service, hops: Option<nat>, ob: Observation, d: Presence)
    ensures HardOk(ForecastFor(h, v, hops), ob, d) <==> SymptomFits(h, v, hops, ob.present, d)
  {
  }

  function SourceOf(m: Mode): Source {
    match m
    case Error => OnsetError
    case ErrorSilent => OnsetError
    case Latency => OnsetLat
  }

  /** `a` is fewer caller hops above the cause than `b`. */
  ghost predicate Nearer(h: Hypothesis, c: Case, a: Service, b: Service) {
    var ha, hb := Hops(CallerIndex(c.edges), h.service, a), Hops(CallerIndex(c.edges), h.service, b);
    ha.Some? && hb.Some? && ha.value < hb.value
  }

  /** No service nearer to the cause is seen to fail a quiet stretch after one farther away. */
  ghost predicate OrderFits(h: Hypothesis, c: Case) {
    var src := SourceOf(h.mode);
    forall a, b :: Observed(c.o, c.services, src, a) && Observed(c.o, c.services, src, b) && Nearer(h, c, a, b) ==>
      !Parted(c.o, c.services, src, c.tol, b, a)
  }

  ghost predicate SymptomsFit(h: Hypothesis, c: Case)
    requires WellFormed(c)
  {
    forall v, d :: v in c.services && Pres(d) in c.usable ==>
      SymptomFits(h, v, Hops(CallerIndex(c.edges), h.service, v), c.o[v].present, d)
  }

  lemma PredictedAt(h: Hypothesis, c: Case, v: Service)
    requires v in c.services
    ensures var pred := Predicted(h, c.edges, c.services); var hops := Hops(CallerIndex(c.edges), h.service, v);
      v in pred && pred[v] == ForecastFor(h, v, hops) && pred[v].onset == hops
  {
    hide Hops, CallerIndex;
  }

  lemma OrderOkMeans(h: Hypothesis, c: Case, a: Service, b: Service)
    requires WellFormed(c) && c.tol >= 0.0 && a in c.services && b in c.services
    ensures var src, pred := SourceOf(h.mode), Predicted(h, c.edges, c.services);
      && a in pred && b in pred
      && (OrderOk(pred, Ranks(c.o, c.services, src, c.tol), a, b) <==>
            (Observed(c.o, c.services, src, a) && Observed(c.o, c.services, src, b) && Nearer(h, c, a, b) ==>
               !Parted(c.o, c.services, src, c.tol, b, a)))
  {
    hide Hops, CallerIndex, Ranks, Parted, Observed, Predicted;
    PredictedAt(h, c, a);
    PredictedAt(h, c, b);
    RanksMean(c.o, c.services, SourceOf(h.mode), c.tol, b, a);
  }

  /** A hypothesis survives exactly when every usable symptom fits and, if the onsets of its kind are usable,
      their order does. */
  lemma SurvivesMeans(h: Hypothesis, c: Case)
    requires WellFormed(c) && c.tol >= 0.0
    ensures Survives(h, c) <==> SymptomsFit(h, c) && (Onset(SourceOf(h.mode)) in c.usable ==> OrderFits(h, c))
  {
    var src, g := SourceOf(h.mode), CallerIndex(c.edges);
    var pred := Predicted(h, c.edges, c.services);
    var ranks := Ranks(c.o, c.services, src, c.tol);
    assert OnsetSource(h.mode) == src;
    hide Hops, CallerIndex, Ranks, Parted, HardOk, SymptomFits, OrderOk, Predicted, ForecastFor;
    forall v, d | v in c.services ensures v in pred
      && (HardOk(pred[v], c.o[v], d) <==> SymptomFits(h, v, Hops(g, h.service, v), c.o[v].present, d))
    {
      PredictedAt(h, c, v);
      CellMeans(h, v, Hops(g, h.service, v), c.o[v], d);
    }
    OrdersMean(h, c);
  }

  lemma OrdersMean(h: Hypothesis, c: Case)
    requires WellFormed(c) && c.tol >= 0.0
    ensures var pred := Predicted(h, c.edges, c.services);
      && (forall v :: v in c.services ==> v in pred)
      && ((forall a, b :: a in c.services && b in c.services ==>
             OrderOk(pred, Ranks(c.o, c.services, SourceOf(h.mode), c.tol), a, b)) <==> OrderFits(h, c))
  {
    hide Hops, CallerIndex, Ranks, Parted, OrderOk, OnsetIn;
    forall a, b | a in c.services && b in c.services {
      OrderOkMeans(h, c, a, b);
    }
  }
}
