/** The resolver: keep the hypotheses no usable observation contradicts, group them by signature,
    and name the outcome. */
module Resolver {
  import opened Sequences
  import opened CallGraph
  import opened Identifiability

  datatype Outcome = NoneLeft | Uncertain | Identified | NonIdentifiable

  function Hypotheses(services: seq<Service>): (hs: seq<Hypothesis>)
    ensures forall h :: h in hs <==> h.service in services
  {
    if services == [] then []
    else
      var s := services[|services| - 1];
      assert services == services[..|services| - 1] + [s];
      assert forall h: Hypothesis :: h.service == s ==> h.mode == Error || h.mode == ErrorSilent || h.mode == Latency;
      Hypotheses(services[..|services| - 1])
        + [Hypothesis(s, Error), Hypothesis(s, ErrorSilent), Hypothesis(s, Latency)]
  }

  ghost function Keeps(c: Case): Hypothesis -> bool
    requires WellFormed(c)
  {
    (h: Hypothesis) => Survives(h, c)
  }

  ghost function Survivors(c: Case): seq<Hypothesis>
    requires WellFormed(c)
  {
    Filter(Hypotheses(c.services), Keeps(c))
  }

  ghost function Sign(h: Hypothesis, c: Case): Signature { Signed(h, c.edges, c.services, c.usable) }

  ghost predicate AllAlike(hs: seq<Hypothesis>, c: Case) {
    forall a, b :: a in hs && b in hs ==> Sign(a, c) == Sign(b, c)
  }

  ghost function OutcomeOf(c: Case): Outcome
    requires WellFormed(c)
  {
    var hs := Survivors(c);
    if hs == [] then NoneLeft
    else if !AllAlike(hs, c) then Uncertain
    else if |hs| == 1 then Identified
    else NonIdentifiable
  }

  /** The distinguishers of some two members that were not usable. */
  ghost function Missing(hs: seq<Hypothesis>, c: Case): set<Coord> {
    set i, j, d | 0 <= i < j < |hs| && d in Unusable(hs[i], hs[j], c) :: d
  }

  ghost predicate PredictsAll(preds: map<Hypothesis, Prediction>, hs: seq<Hypothesis>, c: Case) {
    forall h :: h in hs ==> h in preds && preds[h] == Predicted(h, c.edges, c.services)
  }

  method RanksBySource(c: Case) returns (ranks: map<Source, map<Service, nat>>)
    ensures forall src: Source :: src in ranks <==> Onset(src) in c.usable
    ensures forall src :: src in ranks ==> ranks[src] == Ranks(c.o, c.services, src, c.tol)
  {
    ranks := map[];
    if Onset(OnsetError) in c.usable {
      var r := ObservedOnsetRanks(c.o, c.services, OnsetError, c.tol);
      ranks := ranks[OnsetError := r];
    }
    if Onset(OnsetLat) in c.usable {
      var r := ObservedOnsetRanks(c.o, c.services, OnsetLat, c.tol);
      ranks := ranks[OnsetLat := r];
    }
    forall src: Source ensures src in ranks <==> Onset(src) in c.usable {
      assert src == OnsetError || src == OnsetLat;
    }
  }

  method Judge(h: Hypothesis, c: Case, ranks: map<Source, map<Service, nat>>) returns (pred: Prediction,
               sig: Signature, ok: bool)
    requires WellFormed(c)
    requires forall src: Source :: src in ranks <==> Onset(src) in c.usable
    requires forall src :: src in ranks ==> ranks[src] == Ranks(c.o, c.services, src, c.tol)
    ensures pred == Predicted(h, c.edges, c.services)
    ensures sig == Sign(h, c)
    ensures ok <==> Survives(h, c)
  {
    pred := Predict(h, c.edges, c.services);
    sig := SignatureOf(pred, c.services, c.usable, h.mode);
    var src := OnsetSource(h.mode);
    ok := Consistent(pred, c.o, c.services, c.usable, if src in ranks then ranks[src] else map[], src in ranks);
  }

  /** Survivors, their signatures and all predictions, for the hypotheses judged so far. */
  ghost predicate Judged(done: seq<Hypothesis>, c: Case, hs: seq<Hypothesis>, sigs: seq<Signature>,
                         preds: map<Hypothesis, Prediction>)
    requires WellFormed(c)
  {
    && hs == Filter(done, Keeps(c))
    && |sigs| == |hs| && (forall i :: 0 <= i < |hs| ==> sigs[i] == Sign(hs[i], c))
    && PredictsAll(preds, done, c)
  }

  lemma JudgedNone(c: Case)
    requires WellFormed(c)
    ensures Judged([], c, [], [], map[])
  {
  }

  lemma JudgedStep(done: seq<Hypothesis>, c: Case, hs: seq<Hypothesis>, sigs: seq<Signature>,
                   preds: map<Hypothesis, Prediction>, h: Hypothesis)
    requires WellFormed(c) && Judged(done, c, hs, sigs, preds)
    ensures var p := preds[h := Predicted(h, c.edges, c.services)];
      if Survives(h, c) then Judged(done + [h], c, hs + [h], sigs + [Sign(h, c)], p)
      else Judged(done + [h], c, hs, sigs, p)
  {
    hide Survives, Sign, Predicted, Filter;
    FilterSnoc(done, h, Keeps(c));
  }

  method CollectSurvivors(c: Case) returns (hs: seq<Hypothesis>, sigs: seq<Signature>,
                          preds: map<Hypothesis, Prediction>)
    requires WellFormed(c)
    ensures Judged(Hypotheses(c.services), c, hs, sigs, preds)
  {
    hide *;
    var ranks := RanksBySource(c);
    hs, sigs, preds := [], [], map[];
    var all := Hypotheses(c.services);
    JudgedNone(c);
    assert all[..0] == [];
    for n := 0 to |all|
      invariant Judged(all[..n], c, hs, sigs, preds)
    {
      var h := all[n];
      JudgedStep(all[..n], c, hs, sigs, preds, h);
      var pred, sig, ok := Judge(h, c, ranks);
      preds := preds[h := pred];
      if ok {
        hs, sigs := hs + [h], sigs + [sig];
      }
      assert all[..n + 1] == all[..n] + [h];
    }
    assert all[..|all|] == all;
  }

  ghost function Unusable(a: Hypothesis, b: Hypothesis, c: Case): set<Coord> {
    set d | d in Between(a, b, c.edges, c.services) && d.1 !in c.usable
  }

  method UnusableDistinguishers(a: Hypothesis, b: Hypothesis, preds: map<Hypothesis, Prediction>, c: Case)
    returns (ds: set<Coord>)
    requires PredictsAll(preds, [a, b], c)
    ensures ds == Unusable(a, b, c)
  {
    assert a in [a, b] && b in [a, b];
    var diff := Distinguishers(a.mode, preds[a], b.mode, preds[b], c.services);
    ds := set d | d in diff && d.1 !in c.usable;
  }

  method MissingDistinguishers(hs: seq<Hypothesis>, preds: map<Hypothesis, Prediction>,
                               c: Case) returns (missing: set<Coord>)
    requires PredictsAll(preds, hs, c)
    ensures missing == Missing(hs, c)
  {
    hide Predicted, Unusable;
    missing := {};
    for i := 0 to |hs|
      invariant missing == set k, j, d | 0 <= k < i && k < j < |hs| && d in Unusable(hs[k], hs[j], c) :: d
    {
      ghost var before := missing;
      for j := i + 1 to |hs|
        invariant missing == before + set l, d | i < l < j && d in Unusable(hs[i], hs[l], c) :: d
      {
        var ds := UnusableDistinguishers(hs[i], hs[j], preds, c);
        missing := missing + ds;
      }
    }
  }

  function Listed(sigs: seq<Signature>): set<Signature> { set i | 0 <= i < |sigs| :: sigs[i] }

  ghost predicate Constant(sigs: seq<Signature>) {
    forall i, j :: 0 <= i < |sigs| && 0 <= j < |sigs| ==> sigs[i] == sigs[j]
  }

  /** The hypotheses that carry one signature, in order. */
  function Bearers(hs: seq<Hypothesis>, sigs: seq<Signature>, sig: Signature): seq<Hypothesis>
    requires |hs| == |sigs|
  {
    if hs == [] then []
    else
      var n := |hs| - 1;
      Bearers(hs[..n], sigs[..n], sig) + if sigs[n] == sig then [hs[n]] else []
  }

  lemma BearersSnoc(hs: seq<Hypothesis>, sigs: seq<Signature>, n: nat, sig: Signature)
    requires |hs| == |sigs| && n < |hs|
    ensures Bearers(hs[..n + 1], sigs[..n + 1], sig) == Bearers(hs[..n], sigs[..n], sig) + if sigs[n]
      == sig then [hs[n]] else []
  {
    assert hs[..n + 1][..n] == hs[..n] && sigs[..n + 1][..n] == sigs[..n];
  }

  lemma {:induction false} OneClassHoldsAll(hs: seq<Hypothesis>, sigs: seq<Signature>, sig: Signature)
    requires |hs| == |sigs| && Constant(sigs) && sig in Listed(sigs)
    ensures Bearers(hs, sigs, sig) == hs
  {
    var n := |hs| - 1;
    assert sigs[n] == sig;
    if n > 0 {
      assert sigs[..n][0] in Listed(sigs[..n]);
      OneClassHoldsAll(hs[..n], sigs[..n], sig);
    }
  }

  lemma ListedSnoc(sigs: seq<Signature>, n: nat)
    requires n < |sigs|
    ensures Listed(sigs[..n + 1]) == Listed(sigs[..n]) + {sigs[n]}
  {
    assert forall i :: 0 <= i < n ==> sigs[..n + 1][i] == sigs[..n][i];
    assert sigs[..n + 1][n] == sigs[n];
  }

  /** The class a signature has so far. */
  function ClassOf(classes: map<Signature, seq<Hypothesis>>, sig: Signature): seq<Hypothesis> {
    if sig in classes then classes[sig] else []
  }

  /** `classes[sig].append(hyp)`: every hypothesis filed under its signature, in order. */
  method Classes(hs: seq<Hypothesis>, sigs: seq<Signature>) returns (classes: map<Signature, seq<Hypothesis>>)
    requires |hs| == |sigs|
    ensures classes.Keys == Listed(sigs)
    ensures forall sig :: ClassOf(classes, sig) == Bearers(hs, sigs, sig)
  {
    classes := map[];
    assert Listed(sigs[..0]) == {};
    hide Listed;
    for n := 0 to |hs|
      invariant classes.Keys == Listed(sigs[..n])
      invariant forall sig :: ClassOf(classes, sig) == Bearers(hs[..n], sigs[..n], sig)
    {
      ListedSnoc(sigs, n);
      ghost var before := classes;
      classes := classes[sigs[n] := ClassOf(classes, sigs[n]) + [hs[n]]];
      forall sig ensures ClassOf(classes, sig) == Bearers(hs[..n + 1], sigs[..n + 1], sig) {
        assert ClassOf(before, sig) == Bearers(hs[..n], sigs[..n], sig);
        BearersSnoc(hs, sigs, n, sig);
      }
    }
    assert sigs[..|hs|] == sigs && hs[..|hs|] == hs;
  }

  lemma ClassCount(sigs: seq<Signature>)
    ensures |Listed(sigs)| >= 2 <==> !Constant(sigs)
  {
    var keys := Listed(sigs);
    if |keys| >= 2 {
      var k :| k in keys;
      assert |keys - {k}| >= 1;
      var l :| l in keys - {k};
    }
    if i, j :| 0 <= i < |sigs| && 0 <= j < |sigs| && sigs[i] != sigs[j] {
      assert {sigs[i], sigs[j]} <= keys;
      SubsetSize({sigs[i], sigs[j]}, keys);
    }
  }

  lemma {:induction false} SubsetSize<T>(a: set<T>, b: set<T>)
    requires a <= b
    ensures |a| <= |b|
  {
    if a != {} {
      var x :| x in a;
      SubsetSize(a - {x}, b - {x});
    }
  }

  method Resolve(c: Case) returns (outcome: Outcome, hs: seq<Hypothesis>, missing: set<Coord>)
    requires WellFormed(c)
    ensures hs == Survivors(c)
    ensures outcome == OutcomeOf(c)
    ensures missing == if outcome == NonIdentifiable then Missing(hs, c) else {}
  {
    var sigs, preds;
    hs, sigs, preds := CollectSurvivors(c);
    JudgedMeans(c, hs, sigs, preds);
    hide Survivors, AllAlike, Judged, Missing, PredictsAll, Constant, Listed, WellFormed;
    var classes := Classes(hs, sigs);
    missing := {};
    ClassCount(sigs);
    if hs == [] {
      outcome := NoneLeft;
    } else if |classes| >= 2 {
      outcome := Uncertain;
    } else if |hs| == 1 {
      outcome := Identified;
    } else {
      outcome := NonIdentifiable;
      var key :| key in classes.Keys;
      OneClassHoldsAll(hs, sigs, key);
      missing := MissingDistinguishers(classes[key], preds, c);
    }
  }

  lemma JudgedMeans(c: Case, hs: seq<Hypothesis>, sigs: seq<Signature>, preds: map<Hypothesis, Prediction>)
    requires WellFormed(c) && Judged(Hypotheses(c.services), c, hs, sigs, preds)
    ensures hs == Survivors(c) && |sigs| == |hs| && PredictsAll(preds, hs, c)
    ensures Constant(sigs) <==> AllAlike(hs, c)
    ensures hs != [] ==> Listed(sigs) != {}
  {
    hide Sign, Predicted, Survives, AllAlike, Constant;
    SignaturesConstant(hs, sigs, c);
    assert hs != [] ==> sigs[0] in Listed(sigs);
  }

  lemma SignaturesConstant(hs: seq<Hypothesis>, sigs: seq<Signature>, c: Case)
    requires |hs| == |sigs| && (forall i :: 0 <= i < |hs| ==> sigs[i] == Sign(hs[i], c))
    ensures Constant(sigs) <==> AllAlike(hs, c)
  {
    hide Sign;
    forall a, b | a in hs && b in hs && Constant(sigs) ensures Sign(a, c) == Sign(b, c) {
      var i :| 0 <= i < |hs| && hs[i] == a;
      var j :| 0 <= j < |hs| && hs[j] == b;
      assert sigs[i] == sigs[j];
    }
    forall i, j | 0 <= i < |sigs| && 0 <= j < |sigs| && AllAlike(hs, c) ensures sigs[i] == sigs[j] {
      assert hs[i] in hs && hs[j] in hs;
    }
  }

  // ---- What the outcomes mean ----

  /** Two hypotheses differ at a coordinate that was measured. */
  ghost predicate Separable(a: Hypothesis, b: Hypothesis, c: Case) {
    !NoneUsable(Between(a, b, c.edges, c.services), c.usable)
  }

  lemma SignsDifferIff(a: Hypothesis, b: Hypothesis, c: Case)
    requires WellFormed(c) && a.service in c.services && b.service in c.services
    ensures Sign(a, c) != Sign(b, c) <==> Separable(a, b, c)
  {
    SameSignatureIff(a, b, c.edges, c.services, c.usable);
  }

  lemma SurvivorService(h: Hypothesis, c: Case)
    requires WellFormed(c) && h in Survivors(c)
    ensures h.service in c.services
  {
    assert h in Hypotheses(c.services);
  }

  lemma AlikeIff(hs: seq<Hypothesis>, c: Case)
    requires WellFormed(c) && forall h :: h in hs ==> h.service in c.services
    ensures !AllAlike(hs, c) <==> exists a, b :: a in hs && b in hs && Separable(a, b, c)
  {
    hide Sign, Separable, WellFormed;
    forall a, b | a in hs && b in hs ensures Sign(a, c) != Sign(b, c) <==> Separable(a, b, c) {
      SignsDifferIff(a, b, c);
    }
  }

  /** UNCERTAIN exactly when two survivors differ at a usable coordinate. */
  lemma UncertainIff(c: Case)
    requires WellFormed(c)
    ensures OutcomeOf(c) == Uncertain <==> exists a, b :: a in Survivors(c) && b in Survivors(c) && Separable(a, b, c)
  {
    hide AllAlike, Separable, Survivors, WellFormed;
    forall h | h in Survivors(c) ensures h.service in c.services { SurvivorService(h, c); }
    AlikeIff(Survivors(c), c);
  }

  lemma {:induction false} HypothesesDistinct(services: seq<Service>)
    requires NoRepeats(services)
    ensures NoRepeats(Hypotheses(services))
  {
    if services != [] {
      var front, s := services[..|services| - 1], services[|services| - 1];
      HypothesesDistinct(front);
      assert s !in front;
    }
  }

  lemma SurvivorsDistinct(c: Case)
    requires WellFormed(c)
    ensures NoRepeats(Survivors(c))
  {
    assert NoRepeats(c.services);
    hide Keeps, Hypotheses, NoRepeats, WellFormed;
    HypothesesDistinct(c.services);
    FilterNoRepeats(Hypotheses(c.services), Keeps(c));
  }

  /** Two different members of one signature class differ only where nothing was measured. */
  lemma MembersDifferOutside(a: Hypothesis, b: Hypothesis, c: Case)
    requires WellFormed(c) && a.service in c.services && b.service in c.services && a != b
    requires Sign(a, c) == Sign(b, c)
    ensures Between(a, b, c.edges, c.services) != {}
    ensures NoneUsable(Between(a, b, c.edges, c.services), c.usable)
  {
    SameSignatureIff(a, b, c.edges, c.services, c.usable);
    DistinctAreDistinguishable(a, b, c.edges, c.services);
  }

  lemma MissingCovers(hs: seq<Hypothesis>, c: Case, i: nat, j: nat)
    requires WellFormed(c) && NoRepeats(hs) && AllAlike(hs, c) && i < j < |hs|
    requires forall h :: h in hs ==> h.service in c.services
    ensures var diff := Between(hs[i], hs[j], c.edges, c.services); diff != {} && diff <= Missing(hs, c)
  {
    hide Sign, Between, WellFormed;
    assert hs[i] in hs && hs[j] in hs;
    MembersDifferOutside(hs[i], hs[j], c);
    var diff := Between(hs[i], hs[j], c.edges, c.services);
    assert diff == Unusable(hs[i], hs[j], c);
    forall d | d in diff ensures d in Missing(hs, c) { assert d in Unusable(hs[i], hs[j], c); }
  }

  /** A NON_IDENTIFIABLE outcome always names something to measure: the missing distinguishers are
      not empty, none of them is usable, and every distinguisher of any two members is among them. */
  lemma NonIdentifiableNamesWhatIsMissing(c: Case)
    requires WellFormed(c) && OutcomeOf(c) == NonIdentifiable
    ensures var hs := Survivors(c); var missing := Missing(hs, c);
      && |hs| >= 2
      && missing != {} && NoneUsable(missing, c.usable)
      && forall i, j :: 0 <= i < j < |hs| ==> Between(hs[i], hs[j], c.edges, c.services) <= missing
  {
    hide AllAlike, Between, Survivors, WellFormed;
    var hs := Survivors(c);
    SurvivorsDistinct(c);
    forall h | h in hs ensures h.service in c.services { SurvivorService(h, c); }
    forall i, j | 0 <= i < j < |hs| ensures Between(hs[i], hs[j], c.edges, c.services) <= Missing(hs, c) {
      MissingCovers(hs, c, i, j);
    }
    MissingCovers(hs, c, 0, 1);
  }

  /** With every observable usable the outcome is never NON_IDENTIFIABLE. */
  lemma EverythingUsableIdentifies(c: Case)
    requires WellFormed(c) && forall x: Observable :: x in c.usable
    ensures OutcomeOf(c) != NonIdentifiable
  {
    hide Survivors, Sign, Between;
    if OutcomeOf(c) == NonIdentifiable {
      NonIdentifiableNamesWhatIsMissing(c);
    }
  }

  lemma OnlyMember(hs: seq<Hypothesis>, h: Hypothesis)
    requires NoRepeats(hs) && h in hs && forall a :: a in hs ==> a == h
    ensures hs == [h]
  {
    assert |hs| <= 1 || hs[0] != hs[1];
    forall j | 0 <= j < |hs| ensures hs[j] == h {
      assert hs[j] in hs;
    }
  }

  lemma SurvivorSurvives(a: Hypothesis, c: Case)
    requires WellFormed(c)
    ensures a in Survivors(c) <==> a.service in c.services && Survives(a, c)
  {
    assert a in Hypotheses(c.services) <==> a.service in c.services;
    assert Keeps(c)(a) <==> Survives(a, c);
    hide Survives, WellFormed;
  }

  lemma FewerSurvivors(c: Case, more: set<Observable>, h: Hypothesis)
    requires WellFormed(c) && c.usable <= more && h in Survivors(c.(usable := more))
    ensures h in Survivors(c)
  {
    hide Survives, Survivors, WellFormed;
    var d := c.(usable := more);
    StillWellFormed(c, more);
    SurvivorSurvives(h, d);
    SurvivorSurvives(h, c);
    MoreUsableFewerSurvivors(h, c, more);
  }

  lemma StillWellFormed(c: Case, more: set<Observable>)
    requires WellFormed(c)
    ensures WellFormed(c.(usable := more))
  {
  }

  /** Measuring more never reopens a case: only survivors survive, a case with none keeps none, and one that
      was identified stays so with the same hypothesis, unless that is eliminated too. */
  lemma MoreUsableOnlyNarrows(c: Case, more: set<Observable>)
    requires WellFormed(c) && c.usable <= more
    ensures WellFormed(c.(usable := more))
    ensures var d := c.(usable := more);
      && (forall h :: h in Survivors(d) ==> h in Survivors(c))
      && (OutcomeOf(c) == NoneLeft ==> OutcomeOf(d) == NoneLeft)
      && (OutcomeOf(c) == Identified ==>
            OutcomeOf(d) == NoneLeft || (OutcomeOf(d) == Identified && Survivors(d) == Survivors(c)))
  {
    hide *;
    StillWellFormed(c, more);
    var d := c.(usable := more);
    forall h | h in Survivors(d) ensures h in Survivors(c) { FewerSurvivors(c, more, h); }
    OutcomeOfFew(c);
    OutcomeOfFew(d);
    SurvivorsDistinct(d);
    SomeMember(Survivors(d));
    if OutcomeOf(c) == Identified && Survivors(d) != [] {
      var h := Survivors(c)[0];
      assert Survivors(c) == [h];
      OnlyMember(Survivors(d), h);
    }
  }

  lemma OutcomeOfFew(c: Case)
    requires WellFormed(c)
    ensures OutcomeOf(c) == NoneLeft <==> Survivors(c) == []
    ensures OutcomeOf(c) == Identified <==> |Survivors(c)| == 1
  {
    hide Survivors, WellFormed, Sign;
    if |Survivors(c)| == 1 {
      assert Survivors(c) == [Survivors(c)[0]];
    }
  }
}
