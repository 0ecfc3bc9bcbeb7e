/** Causal hypotheses, what they predict, which of them survive the observations, and which
    coordinates tell two of them apart. */
module Identifiability {
  import opened Sequences
  import opened CallGraph

  datatype Mode = Error | ErrorSilent | Latency
  datatype Presence = ErrLog | ErrSpan | ErrRate | Lat
  datatype Source = OnsetError | OnsetLat
  /** What may or may not have been measured: a presence observable or an onset source. */
  datatype Observable = Pres(dim: Presence) | Onset(source: Source)
  datatype Strength = PresentHard | PresentSoft | AbsentHard
  datatype Hypothesis = Hypothesis(service: Service, mode: Mode)

  datatype Cell = Cell(errLog: Strength, errSpan: Strength, errRate: Strength, lat: Strength) {
    function At(d: Presence): Strength {
      match d
      case ErrLog => errLog
      case ErrSpan => errSpan
      case ErrRate => errRate
      case Lat => lat
    }
  }

  datatype Forecast = Forecast(cell: Cell, onset: Option<nat>)

  type Prediction = map<Service, Forecast>
  type Coord = (Service, Observable)

  const PRESENCE: seq<Presence> := [ErrLog, ErrSpan, ErrRate, Lat]

  function OnsetSource(mode: Mode): Source { if mode == Latency then OnsetLat else OnsetError }

  /** What a hypothesis predicts for a service that lies `hops` callers above its cause. */
  function ForecastFor(h: Hypothesis, v: Service, hops: Option<nat>): Forecast {
    if hops.None? then Forecast(Cell(AbsentHard, AbsentHard, AbsentHard, AbsentHard), None)
    else
      var cell :=
        if v == h.service then
          match h.mode
          case Error => Cell(PresentHard, PresentHard, PresentHard, AbsentHard)
          case ErrorSilent => Cell(AbsentHard, PresentHard, AbsentHard, AbsentHard)
          case Latency => Cell(AbsentHard, AbsentHard, AbsentHard, PresentHard)
        else if h.mode != Latency then Cell(PresentSoft, PresentSoft, PresentSoft, AbsentHard)
        else Cell(AbsentHard, AbsentHard, AbsentHard, PresentSoft);
      Forecast(cell, hops)
  }

  ghost function Predicted(h: Hypothesis, edges: Edges, services: seq<Service>): Prediction {
    map v | v in services :: ForecastFor(h, v, Hops(CallerIndex(edges), h.service, v))
  }

  lemma PredictedSnoc(h: Hypothesis, edges: Edges, services: seq<Service>, v: Service)
    ensures Predicted(h, edges, services + [v])
      == Predicted(h, edges, services)[v := ForecastFor(h, v, Hops(CallerIndex(edges), h.service, v))]
  {
    hide Hops, ForecastFor, CallerIndex;
  }

  /** Reachability, then hop distances, then one forecast per service. */
  method Predict(h: Hypothesis, edges: Edges, services: seq<Service>) returns (pred: Prediction)
    ensures pred == Predicted(h, edges, services)
  {
    var seen, g := TransitiveCallers(h.service, edges);
    var affected := {h.service} + seen;
    var dist := HopDist(h.service, g);
    pred := map[];
    assert pred == Predicted(h, edges, services[..0]);
    hide Predicted, Hops, Above, ForecastFor, CallerIndex, ShortestHops;
    for n := 0 to |services|
      invariant pred == Predicted(h, edges, services[..n])
    {
      var v := services[n];
      HopDomain(g, h.service, dist, v);
      LabelsAreHops(g, h.service, dist, v);
      assert services[..n + 1] == services[..n] + [v];
      PredictedSnoc(h, edges, services[..n], v);
      pred := pred[v := ForecastFor(h, v, if v in affected then Some(dist[v]) else None)];
    }
    assert services[..|services|] == services;
  }

  // ---- Signatures and distinguishers ----

  predicate Expects(f: Forecast, d: Presence) { f.cell.At(d) != AbsentHard }

  function Usable(usable: set<Observable>): Presence -> bool { (d: Presence) => Pres(d) in usable }

  function AvailablePresence(usable: set<Observable>): seq<Presence> { Filter(PRESENCE, Usable(usable)) }

  datatype Part = Row(bits: seq<bool>) | Order(source: Source, onsets: seq<(Service, nat)>)

  type Signature = seq<Part>

  function RowOf(f: Forecast, dims: seq<Presence>): (r: seq<bool>)
    ensures |r| == |dims| && forall i :: 0 <= i < |dims| ==> r[i] == Expects(f, dims[i])
  {
    seq(|dims|, i requires 0 <= i < |dims| => Expects(f, dims[i]))
  }

  function Rows(pred: Prediction, services: seq<Service>, dims: seq<Presence>): (r: seq<Part>)
    requires forall v :: v in services ==> v in pred
    ensures |r| == |services| && forall i :: 0 <= i < |services| ==> r[i] == Row(RowOf(pred[services[i]], dims))
  {
    seq(|services|, i requires 0 <= i < |services| => Row(RowOf(pred[services[i]], dims)))
  }

  function OnsetOrder(pred: Prediction, services: seq<Service>): seq<(Service, nat)>
    requires forall v :: v in services ==> v in pred
  {
    if services == [] then []
    else
      var v := services[0];
      (if pred[v].onset.Some? then [(v, pred[v].onset.value)] else []) + OnsetOrder(pred, services[1..])
  }

  /** The source-tagged onset part, if that source is usable. */
  function Tail(pred: Prediction, services: seq<Service>, usable: set<Observable>, mode: Mode): seq<Part>
    requires forall v :: v in services ==> v in pred
  {
    var src := OnsetSource(mode);
    if Onset(src) in usable then [Order(src, OnsetOrder(pred, services))] else []
  }

  function SignatureOf(pred: Prediction, services: seq<Service>, usable: set<Observable>, mode: Mode): Signature
    requires forall v :: v in services ==> v in pred
  {
    Rows(pred, services, AvailablePresence(usable)) + Tail(pred, services, usable, mode)
  }

  function PresenceDiff(pa: Prediction, pb: Prediction, services: seq<Service>): set<Coord>
    requires forall v :: v in services ==> v in pa && v in pb
  {
    set v, d | v in services && d in PRESENCE && Expects(pa[v], d) != Expects(pb[v], d) :: (v, Pres(d))
  }

  function OnsetDiff(ma: Mode, pa: Prediction, mb: Mode, pb: Prediction, services: seq<Service>): set<Coord>
    requires forall v :: v in services ==> v in pa && v in pb
  {
    var sa, sb := OnsetSource(ma), OnsetSource(mb);
    if sa == sb then
      set v | v in services && pa[v].onset != pb[v].onset :: (v, Onset(sa))
    else
      (set v | v in services && pa[v].onset.Some? :: (v, Onset(sa)))
      + (set v | v in services && pb[v].onset.Some? :: (v, Onset(sb)))
  }

  /** The coordinates at which two hypotheses predict differently, usable or not. */
  function Distinguishers(ma: Mode, pa: Prediction, mb: Mode, pb: Prediction, services: seq<Service>): set<Coord>
    requires forall v :: v in services ==> v in pa && v in pb
  {
    PresenceDiff(pa, pb, services) + OnsetDiff(ma, pa, mb, pb, services)
  }

  ghost predicate NoneUsable(coords: set<Coord>, usable: set<Observable>) {
    forall c :: c in coords ==> c.1 !in usable
  }

  lemma {:induction false} OrderServices(pred: Prediction, services: seq<Service>, k: nat)
    requires forall v :: v in services ==> v in pred
    requires k < |OnsetOrder(pred, services)|
    ensures OnsetOrder(pred, services)[k].0 in services
  {
    if services != [] {
      var head := if pred[services[0]].onset.Some? then 1 else 0;
      if k >= head {
        OrderServices(pred, services[1..], k - head);
      }
    }
  }

  /** Onset lists agree exactly when every service has the same onset in both. */
  lemma {:induction false} SameOrder(pa: Prediction, pb: Prediction, services: seq<Service>)
    requires forall v :: v in services ==> v in pa && v in pb
    requires NoRepeats(services)
    ensures OnsetOrder(pa, services) == OnsetOrder(pb, services)
      <==> forall v :: v in services ==> pa[v].onset == pb[v].onset
  {
    if services != [] {
      var v, rest := services[0], services[1..];
      var a, b := OnsetOrder(pa, services), OnsetOrder(pb, services);
      var a', b' := OnsetOrder(pa, rest), OnsetOrder(pb, rest);
      SameOrder(pa, pb, rest);
      assert v !in rest;
      assert services == [v] + rest;
      forall k | 0 <= k < |a'| ensures a'[k].0 != v { OrderServices(pa, rest, k); }
      forall k | 0 <= k < |b'| ensures b'[k].0 != v { OrderServices(pb, rest, k); }
      assert if pa[v].onset.Some? then a[0] == (v, pa[v].onset.value) && a' == a[1..] else a' == a;
      assert if pb[v].onset.Some? then b[0] == (v, pb[v].onset.value) && b' == b[1..] else b' == b;
    }
  }

  lemma AvailableMeans(usable: set<Observable>, d: Presence)
    ensures d in AvailablePresence(usable) <==> Pres(d) in usable
  {
    assert d in PRESENCE;
    assert Usable(usable)(d) <==> Pres(d) in usable;
  }

  lemma SameRowsUnusable(pa: Prediction, pb: Prediction, services: seq<Service>, usable: set<Observable>)
    requires forall v :: v in services ==> v in pa && v in pb
    requires var dims := AvailablePresence(usable); Rows(pa, services, dims) == Rows(pb, services, dims)
    ensures NoneUsable(PresenceDiff(pa, pb, services), usable)
  {
    hide AvailablePresence, Expects;
    var dims, diff := AvailablePresence(usable), PresenceDiff(pa, pb, services);
    var ra, rb := Rows(pa, services, dims), Rows(pb, services, dims);
    forall c | c in diff ensures c.1 !in usable {
      var i :| 0 <= i < |services| && services[i] == c.0;
      assert ra[i] == rb[i];
      AvailableMeans(usable, c.1.dim);
    }
  }

  lemma IsPresence(d: Presence)
    ensures d in PRESENCE
  {
  }

  lemma UnusableSameRow(pa: Prediction, pb: Prediction, services: seq<Service>, usable: set<Observable>, v: Service)
    requires (forall u :: u in services ==> u in pa && u in pb) && v in services
    requires NoneUsable(PresenceDiff(pa, pb, services), usable)
    ensures RowOf(pa[v], AvailablePresence(usable)) == RowOf(pb[v], AvailablePresence(usable))
  {
    hide AvailablePresence, Expects;
    var dims, diff := AvailablePresence(usable), PresenceDiff(pa, pb, services);
    forall d | d in dims ensures Expects(pa[v], d) == Expects(pb[v], d) {
      AvailableMeans(usable, d);
      IsPresence(d);
      assert Expects(pa[v], d) != Expects(pb[v], d) ==> (v, Pres(d)) in diff;
    }
  }

  /** Rows agree exactly when no presence distinguisher is usable. */
  lemma SameRows(pa: Prediction, pb: Prediction, services: seq<Service>, usable: set<Observable>)
    requires forall v :: v in services ==> v in pa && v in pb
    ensures var dims := AvailablePresence(usable);
      (Rows(pa, services, dims) == Rows(pb, services, dims) <==> NoneUsable(PresenceDiff(pa, pb, services), usable))
  {
    hide AvailablePresence, Expects, PresenceDiff, NoneUsable, RowOf;
    var dims := AvailablePresence(usable);
    var ra, rb := Rows(pa, services, dims), Rows(pb, services, dims);
    if ra == rb {
      SameRowsUnusable(pa, pb, services, usable);
    }
    if NoneUsable(PresenceDiff(pa, pb, services), usable) {
      forall i | 0 <= i < |services| ensures ra[i] == rb[i] {
        UnusableSameRow(pa, pb, services, usable, services[i]);
      }
    }
  }

  /** Onset parts agree exactly when no onset distinguisher is usable. */
  lemma SameTails(ma: Mode, pa: Prediction, mb: Mode, pb: Prediction, services: seq<Service>, usable: set<Observable>)
    requires forall v :: v in services ==> v in pa && v in pb
    requires NoRepeats(services)
    requires (exists v :: v in services && pa[v].onset.Some?) && (exists v :: v in services && pb[v].onset.Some?)
    ensures Tail(pa, services, usable, ma) == Tail(pb, services, usable, mb)
      <==> NoneUsable(OnsetDiff(ma, pa, mb, pb, services), usable)
  {
    hide OnsetOrder;
    var sa, sb, diff := OnsetSource(ma), OnsetSource(mb), OnsetDiff(ma, pa, mb, pb, services);
    var va :| va in services && pa[va].onset.Some?;
    var vb :| vb in services && pb[vb].onset.Some?;
    if sa == sb {
      SameOrder(pa, pb, services);
      if v :| v in services && pa[v].onset != pb[v].onset {
        assert (v, Onset(sa)) in diff;
      }
    } else {
      assert (va, Onset(sa)) in diff && (vb, Onset(sb)) in diff;
    }
  }

  lemma OwnOnset(h: Hypothesis, edges: Edges, services: seq<Service>)
    requires h.service in services
    ensures Predicted(h, edges, services)[h.service].onset == Some(0)
  {
    HopsZero(CallerIndex(edges), h.service, h.service);
  }

  ghost function Signed(h: Hypothesis, edges: Edges, services: seq<Service>, usable: set<Observable>): Signature {
    SignatureOf(Predicted(h, edges, services), services, usable, h.mode)
  }

  ghost function Between(a: Hypothesis, b: Hypothesis, edges: Edges, services: seq<Service>): set<Coord> {
    Distinguishers(a.mode, Predicted(a, edges, services), b.mode, Predicted(b, edges, services), services)
  }

  /** Two hypotheses share a signature exactly when none of their distinguishers is usable. */
  lemma SameSignatureIff(a: Hypothesis, b: Hypothesis, edges: Edges, services: seq<Service>, usable: set<Observable>)
    requires a.service in services && b.service in services && NoRepeats(services)
    ensures Signed(a, edges, services, usable) == Signed(b, edges, services, usable)
      <==> NoneUsable(Between(a, b, edges, services), usable)
  {
    var pa, pb := Predicted(a, edges, services), Predicted(b, edges, services);
    var dims := AvailablePresence(usable);
    var ra, rb := Rows(pa, services, dims), Rows(pb, services, dims);
    var ta, tb := Tail(pa, services, usable, a.mode), Tail(pb, services, usable, b.mode);
    OwnOnset(a, edges, services);
    OwnOnset(b, edges, services);
    SameRows(pa, pb, services, usable);
    SameTails(a.mode, pa, b.mode, pb, services, usable);
    assert ra + ta == rb + tb <==> ra == rb && ta == tb by {
      if ra + ta == rb + tb {
        assert ra == (ra + ta)[..|services|] && rb == (rb + tb)[..|services|];
        assert ta == (ra + ta)[|services|..] && tb == (rb + tb)[|services|..];
      }
    }
  }

  /** Any two different hypotheses differ at some coordinate. */
  lemma DistinctAreDistinguishable(a: Hypothesis, b: Hypothesis, edges: Edges, services: seq<Service>)
    requires a.service in services && b.service in services && a != b
    ensures Between(a, b, edges, services) != {}
  {
    var pa, pb := Predicted(a, edges, services), Predicted(b, edges, services);
    OwnOnset(a, edges, services);
    OwnOnset(b, edges, services);
    if OnsetSource(a.mode) != OnsetSource(b.mode) {
      assert (a.service, Onset(OnsetSource(a.mode))) in Between(a, b, edges, services);
    } else if a.service != b.service {
      HopsZero(CallerIndex(edges), b.service, a.service);
      assert (a.service, Onset(OnsetSource(a.mode))) in Between(a, b, edges, services);
    } else {
      assert ErrLog in PRESENCE && Expects(pa[a.service], ErrLog) != Expects(pb[a.service], ErrLog);
      assert (a.service, Pres(ErrLog)) in Between(a, b, edges, services);
    }
  }

  /** A loud and a silent error of one service differ exactly in its own error log and error rate: spans
      and onsets alone can never tell them apart. */
  lemma SilentVersusLoud(s: Service, edges: Edges, services: seq<Service>)
    requires s in services
    ensures Between(Hypothesis(s, Error), Hypothesis(s, ErrorSilent), edges, services)
      == {(s, Pres(ErrLog)), (s, Pres(ErrRate))}
  {
    var a, b := Hypothesis(s, Error), Hypothesis(s, ErrorSilent);
    var pa, pb := Predicted(a, edges, services), Predicted(b, edges, services);
    OwnOnset(a, edges, services);
    forall v, d | v in services
      ensures Expects(pa[v], d) != Expects(pb[v], d) <==> v == s && (d == ErrLog || d == ErrRate)
      ensures pa[v].onset == pb[v].onset
    {
    }
    assert OnsetDiff(Error, pa, ErrorSilent, pb, services) == {};
    assert ErrLog in PRESENCE && ErrRate in PRESENCE;
    assert PresenceDiff(pa, pb, services) == {(s, Pres(ErrLog)), (s, Pres(ErrRate))};
  }

  // ---- Observations: onset ranks and hard contradictions ----

  datatype Observation = Observation(present: set<Presence>, onsetError: Option<real>, onsetLat: Option<real>) {
    function OnsetOf(src: Source): Option<real> { if src == OnsetError then onsetError else onsetLat }
  }

  type Observations = map<Service, Observation>

  function Times(o: Observations, services: seq<Service>, src: Source): seq<(Service, real)> {
    if services == [] then []
    else
      var v := services[0];
      (if v in o && o[v].OnsetOf(src).Some? then [(v, o[v].OnsetOf(src).value)] else []) + Times(o, services[1..], src)
  }

  predicate ByTime(a: (Service, real), b: (Service, real)) { a.1 <= b.1 }

  function Ordered(o: Observations, services: seq<Service>, src: Source): seq<(Service, real)> {
    Sort(Times(o, services, src), ByTime)
  }

  /** The number of gaps longer than the tolerance up to position `i`. */
  function Rank(ord: seq<(Service, real)>, tol: real, i: nat): nat
    requires i < |ord|
  {
    if i == 0 then 0 else Rank(ord, tol, i - 1) + if ord[i].1 - ord[i - 1].1 > tol then 1 else 0
  }

  function RankMap(ord: seq<(Service, real)>, tol: real, n: nat): map<Service, nat>
    requires n <= |ord|
  {
    if n == 0 then map[] else RankMap(ord, tol, n - 1)[ord[n - 1].0 := Rank(ord, tol, n - 1)]
  }

  function Ranks(o: Observations, services: seq<Service>, src: Source, tol: real): map<Service, nat> {
    var ord := Ordered(o, services, src);
    RankMap(ord, tol, |ord|)
  }

  method ObservedOnsetRanks(o: Observations, services: seq<Service>, src: Source, tol: real)
    returns (ranks: map<Service, nat>)
    ensures ranks == Ranks(o, services, src, tol)
  {
    hide Ordered;
    var ord := Ordered(o, services, src);
    ranks := map[];
    var rank, last: Option<real> := 0, None;
    for n := 0 to |ord|
      invariant ranks == RankMap(ord, tol, n)
      invariant if n == 0 then rank == 0 && last.None? else last == Some(ord[n - 1].1) && rank == Rank(ord, tol, n - 1)
    {
      var (s, t) := ord[n];
      if last.Some? && t - last.value > tol {
        rank := rank + 1;
      }
      ranks := ranks[s := rank];
      last := Some(t);
    }
  }

  /** Position of the last entry for `v`. */
  function LastIndex(ord: seq<(Service, real)>, v: Service, n: nat): Option<nat>
    requires n <= |ord|
  {
    if n == 0 then None else if ord[n - 1].0 == v then Some(n - 1) else LastIndex(ord, v, n - 1)
  }

  lemma {:induction false} RankMapAt(ord: seq<(Service, real)>, tol: real, n: nat, v: Service)
    requires n <= |ord|
    ensures LastIndex(ord, v, n).Some? ==> LastIndex(ord, v, n).value < n
    ensures v in RankMap(ord, tol, n) <==> LastIndex(ord, v, n).Some?
    ensures v in RankMap(ord, tol, n) ==> RankMap(ord, tol, n)[v] == Rank(ord, tol, LastIndex(ord, v, n).value)
  {
    if n > 0 {
      RankMapAt(ord, tol, n - 1, v);
    }
  }

  /** A larger tolerance never widens the distance between two ranks. */
  lemma {:induction false} RankShrinks(ord: seq<(Service, real)>, tol: real, larger: real, i: nat, j: nat)
    requires tol <= larger && i <= j < |ord|
    ensures 0 <= Rank(ord, larger, j) - Rank(ord, larger, i) <= Rank(ord, tol, j) - Rank(ord, tol, i)
    decreases j - i
  {
    if i < j {
      RankShrinks(ord, tol, larger, i, j - 1);
    }
  }

  ghost predicate Gap(ord: seq<(Service, real)>, tol: real, k: nat)
    requires k + 1 < |ord|
  {
    ord[k + 1].1 - ord[k].1 > tol
  }

  lemma {:induction false} RankGap(ord: seq<(Service, real)>, tol: real, i: nat, j: nat)
    requires i <= j < |ord|
    ensures Rank(ord, tol, i) < Rank(ord, tol, j) <==> exists k :: i <= k < j && Gap(ord, tol, k)
    decreases j - i
  {
    if i < j {
      RankGap(ord, tol, i, j - 1);
      RankShrinks(ord, tol, tol, i, j - 1);
      if ord[j].1 - ord[j - 1].1 > tol {
        assert Gap(ord, tol, j - 1);
      }
    }
  }

  /** The onset at position `e` is followed by silence for longer than the tolerance. */
  ghost predicate QuietAfter(ord: seq<(Service, real)>, tol: real, e: nat)
    requires e < |ord|
  {
    forall k :: 0 <= k < |ord| && ord[k].1 > ord[e].1 ==> ord[k].1 > ord[e].1 + tol
  }

  lemma GapIsQuiet(ord: seq<(Service, real)>, tol: real, i: nat, j: nat, k: nat)
    requires SortedBy(ord, ByTime) && tol >= 0.0 && i <= k < j < |ord| && Gap(ord, tol, k)
    ensures ord[i].1 <= ord[k].1 < ord[j].1 && QuietAfter(ord, tol, k)
  {
    assert i < k ==> ByTime(ord[i], ord[k]);
    assert k + 1 < j ==> ByTime(ord[k + 1], ord[j]);
    forall m | 0 <= m < |ord| && ord[m].1 > ord[k].1 ensures ord[m].1 > ord[k].1 + tol {
      assert m < k ==> ByTime(ord[m], ord[k]);
      assert m > k + 1 ==> ByTime(ord[k + 1], ord[m]);
    }
  }

  lemma QuietHasGap(ord: seq<(Service, real)>, tol: real, i: nat, j: nat, e: nat) returns (k: nat)
    requires SortedBy(ord, ByTime) && i < j < |ord| && e < |ord|
    requires ord[i].1 <= ord[e].1 < ord[j].1 && QuietAfter(ord, tol, e)
    ensures i <= k < j && Gap(ord, tol, k)
  {
    k := i;
    while ord[k + 1].1 <= ord[e].1
      invariant i <= k < j && ord[k].1 <= ord[e].1
      decreases j - k
    {
      k := k + 1;
    }
  }

  /** What ranks mean: one onset ranks below another exactly when, at or after the first and before
      the second, some onset is followed by a quiet stretch longer than the tolerance. */
  lemma RankMeans(ord: seq<(Service, real)>, tol: real, i: nat, j: nat)
    requires SortedBy(ord, ByTime) && tol >= 0.0 && i < j < |ord|
    ensures Rank(ord, tol, i) < Rank(ord, tol, j)
      <==> exists e: nat :: e < |ord| && ord[i].1 <= ord[e].1 < ord[j].1 && QuietAfter(ord, tol, e)
  {
    RankGap(ord, tol, i, j);
    if Rank(ord, tol, i) < Rank(ord, tol, j) {
      var k :| i <= k < j && Gap(ord, tol, k);
      GapIsQuiet(ord, tol, i, j, k);
    }
    if e: nat :| e < |ord| && ord[i].1 <= ord[e].1 < ord[j].1 && QuietAfter(ord, tol, e) {
      var k := QuietHasGap(ord, tol, i, j, e);
    }
  }

  predicate HardOk(f: Forecast, ob: Observation, d: Presence) {
    && (f.cell.At(d) == PresentHard ==> d in ob.present)
    && (f.cell.At(d) == AbsentHard ==> d !in ob.present)
  }

  predicate OrderOk(pred: Prediction, ranks: map<Service, nat>, a: Service, b: Service)
    requires a in pred && b in pred
  {
    (pred[a].onset.Some? && pred[b].onset.Some? && pred[a].onset.value < pred[b].onset.value
     && a in ranks && b in ranks)
    ==> ranks[a] <= ranks[b]
  }

  /** No hard prediction is contradicted by a usable observation. */
  ghost predicate Compatible(pred: Prediction, o: Observations, services: seq<Service>, usable: set<Observable>,
                             ranks: map<Service, nat>, onsetUsable: bool)
    requires forall v :: v in services ==> v in pred && v in o
  {
    && (forall v, d :: v in services && Pres(d) in usable ==> HardOk(pred[v], o[v], d))
    && (onsetUsable ==> forall a, b :: a in services && b in services ==> OrderOk(pred, ranks, a, b))
  }

  method CellHolds(f: Forecast, ob: Observation, dims: seq<Presence>) returns (ok: bool)
    ensures ok <==> forall d :: d in dims ==> HardOk(f, ob, d)
  {
    for m := 0 to |dims|
      invariant forall k :: 0 <= k < m ==> HardOk(f, ob, dims[k])
    {
      if !HardOk(f, ob, dims[m]) {
        return false;
      }
    }
    return true;
  }

  method PresenceHolds(pred: Prediction, o: Observations, services: seq<Service>,
                       dims: seq<Presence>) returns (ok: bool)
    requires forall v :: v in services ==> v in pred && v in o
    ensures ok <==> forall v, d :: v in services && d in dims ==> HardOk(pred[v], o[v], d)
  {
    for n := 0 to |services|
      invariant forall i, d :: 0 <= i < n && d in dims ==> HardOk(pred[services[i]], o[services[i]], d)
    {
      var fine := CellHolds(pred[services[n]], o[services[n]], dims);
      if !fine {
        return false;
      }
    }
    return true;
  }

  method OrderHolds(pred: Prediction, services: seq<Service>, ranks: map<Service, nat>) returns (ok: bool)
    requires forall v :: v in services ==> v in pred
    ensures ok <==> forall a, b :: a in services && b in services ==> OrderOk(pred, ranks, a, b)
  {
    for n := 0 to |services|
      invariant forall i, b :: 0 <= i < n && b in services ==> OrderOk(pred, ranks, services[i], b)
    {
      for m := 0 to |services|
        invariant forall k :: 0 <= k < m ==> OrderOk(pred, ranks, services[n], services[k])
      {
        if !OrderOk(pred, ranks, services[n], services[m]) {
          return false;
        }
      }
    }
    return true;
  }

  method Consistent(pred: Prediction, o: Observations, services: seq<Service>, usable: set<Observable>,
                    ranks: map<Service, nat>, onsetUsable: bool) returns (ok: bool)
    requires forall v :: v in services ==> v in pred && v in o
    ensures ok <==> Compatible(pred, o, services, usable, ranks, onsetUsable)
  {
    ok := PresenceHolds(pred, o, services, AvailablePresence(usable));
    forall d ensures d in AvailablePresence(usable) <==> Pres(d) in usable { AvailableMeans(usable, d); }
    if ok && onsetUsable {
      ok := OrderHolds(pred, services, ranks);
    }
  }

  // ---- Survivors ----

  /** One incident: call graph, services and observations, the usable observables and the tolerance. */
  datatype Case = Case(edges: Edges, services: seq<Service>, o: Observations, usable: set<Observable>, tol: real)

  ghost predicate WellFormed(c: Case) {
    NoRepeats(c.services) && forall v :: v in c.services ==> v in c.o
  }

  ghost predicate Survives(h: Hypothesis, c: Case)
    requires WellFormed(c)
  {
    var src := OnsetSource(h.mode);
    Compatible(Predicted(h, c.edges, c.services), c.o, c.services, c.usable,
               Ranks(c.o, c.services, src, c.tol), Onset(src) in c.usable)
  }

  /** Making more observables usable can only eliminate hypotheses. */
  lemma MoreUsableFewerSurvivors(h: Hypothesis, c: Case, more: set<Observable>)
    requires WellFormed(c) && c.usable <= more && Survives(h, c.(usable := more))
    ensures Survives(h, c)
  {
  }

  /** Making more observables usable only splits signature classes. */
  lemma MoreUsableRefines(a: Hypothesis, b: Hypothesis, c: Case, more: set<Observable>)
    requires WellFormed(c) && c.usable <= more && a.service in c.services && b.service in c.services
    requires Signed(a, c.edges, c.services, more) == Signed(b, c.edges, c.services, more)
    ensures Signed(a, c.edges, c.services, c.usable) == Signed(b, c.edges, c.services, c.usable)
  {
    SameSignatureIff(a, b, c.edges, c.services, more);
    SameSignatureIff(a, b, c.edges, c.services, c.usable);
  }

  lemma OrderUnderLargerTolerance(ord: seq<(Service, real)>, tol: real, larger: real, a: Service, b: Service)
    requires tol <= larger
    requires var r := RankMap(ord, tol, |ord|); a in r && b in r ==> r[a] <= r[b]
    ensures var r := RankMap(ord, larger, |ord|); a in r && b in r ==> r[a] <= r[b]
  {
    RankMapAt(ord, tol, |ord|, a);
    RankMapAt(ord, tol, |ord|, b);
    RankMapAt(ord, larger, |ord|, a);
    RankMapAt(ord, larger, |ord|, b);
    var ia, ib := LastIndex(ord, a, |ord|), LastIndex(ord, b, |ord|);
    if ia.Some? && ib.Some? {
      if ia.value <= ib.value {
        RankShrinks(ord, tol, larger, ia.value, ib.value);
      } else {
        RankShrinks(ord, tol, larger, ib.value, ia.value);
      }
    }
  }

  /** Growing the onset tolerance only adds survivors. */
  lemma LargerToleranceMoreSurvivors(h: Hypothesis, c: Case, larger: real)
    requires WellFormed(c) && c.tol <= larger && Survives(h, c)
    ensures Survives(h, c.(tol := larger))
  {
    var src, pred := OnsetSource(h.mode), Predicted(h, c.edges, c.services);
    var ord := Ordered(c.o, c.services, src);
    if Onset(src) in c.usable {
      forall a, b | a in c.services && b in c.services
        ensures OrderOk(pred, Ranks(c.o, c.services, src, larger), a, b)
      {
        assert OrderOk(pred, Ranks(c.o, c.services, src, c.tol), a, b);
        if pred[a].onset.Some? && pred[b].onset.Some? && pred[a].onset.value < pred[b].onset.value {
          RankMapAt(ord, c.tol, |ord|, a);
          RankMapAt(ord, c.tol, |ord|, b);
          RankMapAt(ord, larger, |ord|, a);
          RankMapAt(ord, larger, |ord|, b);
          OrderUnderLargerTolerance(ord, c.tol, larger, a, b);
        }
      }
    }
  }
}
