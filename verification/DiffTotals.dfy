/** What the five lists of a comparison add up to: which clusters the comparison drops, and when none. */
module DiffTotals {
  import opened Sequences
  import opened Clusters
  import opened WindowDiff

  function AllDiffs(ls: Lists): seq<Diff>
    requires forall dir: Direction :: dir in ls
  {
    ls[New] + ls[Disappeared] + ls[Increased] + ls[Decreased] + ls[Stable]
  }

  function DiffOr(a: ByFingerprint, b: ByFingerprint): string -> Diff {
    (fp: string) => if fp in a || fp in b then DiffFor(a, b, fp) else Diff(fp, "", {}, None, None)
  }

  lemma CountInAll(ls: Lists, d: Diff, home: Option<Direction>)
    requires forall dir: Direction :: dir in ls && multiset(ls[dir])[d] == if home == Some(dir) then 1 else 0
    ensures multiset(AllDiffs(ls))[d] == if home.Some? then 1 else 0
  {
    var two := ls[New] + ls[Disappeared];
    var three := two + ls[Increased];
    var four := three + ls[Decreased];
    assert multiset(AllDiffs(ls)) == multiset(four) + multiset(ls[Stable]);
    assert multiset(four) == multiset(three) + multiset(ls[Decreased]);
    assert multiset(three) == multiset(two) + multiset(ls[Increased]);
    assert multiset(two) == multiset(ls[New]) + multiset(ls[Disappeared]);
    if home.Some? {
      var dir := home.value;
      assert dir.New? || dir.Disappeared? || dir.Increased? || dir.Decreased? || dir.Stable?;
    }
  }

  lemma ListedOnce(a: ByFingerprint, b: ByFingerprint, order: seq<string>, d: Diff)
    requires NoRepeats(order) && (forall fp :: fp in order <==> fp in a || fp in b)
    ensures multiset(Map(order, DiffOr(a, b)))[d] ==
      if (d.fingerprint in a || d.fingerprint in b) && d == DiffFor(a, b, d.fingerprint) then 1 else 0
  {
    var listed, fp := Map(order, DiffOr(a, b)), d.fingerprint;
    assert NoRepeats(listed) by {
      assert forall i :: 0 <= i < |listed| ==> listed[i].fingerprint == order[i];
    }
    NoRepeatsMultiset(listed, d);
    if (fp in a || fp in b) && d == DiffFor(a, b, fp) {
      var i :| 0 <= i < |order| && order[i] == fp;
      assert listed[i] == d;
    } else {
    }
  }

  lemma AllDiffsListed(ls: Lists, a: ByFingerprint, b: ByFingerprint, order: seq<string>, d: Diff)
    requires Filed(ls, a, b, a.Keys + b.Keys) && NoRepeats(order) && (forall fp :: fp in order <==> fp in a || fp in b)
    ensures multiset(AllDiffs(ls))[d] == multiset(Map(order, DiffOr(a, b)))[d]
  {
    var fp := d.fingerprint;
    ListedOnce(a, b, order, d);
    assert forall dir: Direction :: dir in ls;
    hide DiffFor, DirectionIn, Filed, AllDiffs, DiffOr, NoRepeats;
    if (fp in a || fp in b) && d == DiffFor(a, b, fp) {
      forall dir: Direction ensures multiset(ls[dir])[d] == if DirectionIn(a, b, fp) == dir then 1 else 0 {
        EveryFingerprintOnce(ls, a, b, fp, dir);
      }
      CountInAll(ls, d, Some(DirectionIn(a, b, fp)));
    } else {
      forall dir: Direction ensures multiset(ls[dir])[d] == 0 {}
      CountInAll(ls, d, None);
    }
  }

  lemma SameBag(ls: Lists, a: ByFingerprint, b: ByFingerprint, order: seq<string>)
    requires Filed(ls, a, b, a.Keys + b.Keys) && NoRepeats(order) && (forall fp :: fp in order <==> fp in a || fp in b)
    ensures multiset(AllDiffs(ls)) == multiset(Map(order, DiffOr(a, b)))
  {
    var all, listed := multiset(AllDiffs(ls)), multiset(Map(order, DiffOr(a, b)));
    forall d ensures all[d] == listed[d] { hide *; AllDiffsListed(ls, a, b, order, d); }
  }

  lemma ListedTotal(a: ByFingerprint, b: ByFingerprint, order: seq<string>, f: Diff -> nat, g: string -> nat)
    requires forall fp :: fp in order ==> fp in a || fp in b
    requires forall fp :: fp in a || fp in b ==> f(DiffFor(a, b, fp)) == g(fp)
    ensures Total(Map(order, DiffOr(a, b)), f) == Total(order, g)
  {
    hide Total, DiffFor;
    var listed := Map(order, DiffOr(a, b));
    forall k | 0 <= k < |order| ensures f(listed[k]) == g(order[k]) {
      assert order[k] in order;
    }
    TotalPointwise(listed, f, order, g);
  }

  /** Summing over the five lists is summing over the fingerprints. */
  lemma SumOverLists(ls: Lists, a: ByFingerprint, b: ByFingerprint, order: seq<string>, f: Diff -> nat,
                     g: string -> nat)
    requires Filed(ls, a, b, a.Keys + b.Keys) && NoRepeats(order) && (forall fp :: fp in order <==> fp in a || fp in b)
    requires forall fp :: fp in a || fp in b ==> f(DiffFor(a, b, fp)) == g(fp)
    ensures Total(AllDiffs(ls), f) == Total(order, g)
  {
    assert forall dir: Direction :: dir in ls;
    hide *;
    SameBag(ls, a, b, order);
    ListedTotal(a, b, order, f, g);
    TotalPermutation(AllDiffs(ls), Map(order, DiffOr(a, b)), f);
  }

  // ---- Which clusters the dictionary keeps ----

  function Other(fp: string): ClusterData -> bool { (c: ClusterData) => c.fingerprint != fp }
  function Same(fp: string): ClusterData -> bool { (c: ClusterData) => c.fingerprint == fp }

  /** The clusters that are in the dictionary at the end. */
  function Kept(cs: seq<ClusterData>): seq<ClusterData> {
    if cs == [] then []
    else var last := cs[|cs| - 1]; Filter(Kept(cs[..|cs| - 1]), Other(last.fingerprint)) + [last]
  }

  /** The lines of clusters that a later cluster with the same fingerprint replaced. */
  function Shadowed(cs: seq<ClusterData>): nat {
    if cs == [] then 0
    else
      var front, last := cs[..|cs| - 1], cs[|cs| - 1];
      Shadowed(front) + Total(Filter(Kept(front), Same(last.fingerprint)), Count)
  }

  lemma {:induction false} SplitByFingerprint(cs: seq<ClusterData>, fp: string)
    ensures Total(cs, Count) == Total(Filter(cs, Other(fp)), Count) + Total(Filter(cs, Same(fp)), Count)
  {
    if cs != [] {
      SplitByFingerprint(cs[1..], fp);
      TotalConcat(if cs[0].fingerprint != fp then [cs[0]] else [], Filter(cs[1..], Other(fp)), Count);
      TotalConcat(if cs[0].fingerprint == fp then [cs[0]] else [], Filter(cs[1..], Same(fp)), Count);
    }
  }

  lemma KeptSnoc(front: seq<ClusterData>, last: ClusterData)
    ensures Kept(front + [last]) == Filter(Kept(front), Other(last.fingerprint)) + [last]
    ensures Shadowed(front + [last]) == Shadowed(front) + Total(Filter(Kept(front), Same(last.fingerprint)), Count)
  {
    assert (front + [last])[..|front|] == front;
  }

  lemma KeptPlusOne(front: seq<ClusterData>, last: ClusterData)
    requires Total(front, Count) == Total(Kept(front), Count) + Shadowed(front)
    ensures Total(front + [last], Count) == Total(Kept(front + [last]), Count) + Shadowed(front + [last])
  {
    hide Filter, Total, Kept, Shadowed;
    KeptSnoc(front, last);
    SplitByFingerprint(Kept(front), last.fingerprint);
    TotalSnoc(Filter(Kept(front), Other(last.fingerprint)), last, Count);
    TotalSnoc(front, last, Count);
  }

  lemma NoneKept()
    ensures Total([], Count) == Total(Kept([]), Count) + Shadowed([])
  {
  }

  lemma {:induction false} KeptPlusShadowed(cs: seq<ClusterData>)
    ensures Total(cs, Count) == Total(Kept(cs), Count) + Shadowed(cs)
  {
    hide *;
    if cs == [] {
      NoneKept();
    } else {
      var front, last := cs[..|cs| - 1], cs[|cs| - 1];
      KeptPlusShadowed(front);
      KeptPlusOne(front, last);
      assert cs == front + [last];
    }
  }

  ghost predicate IsIndex(kept: seq<ClusterData>, m: ByFingerprint) {
    && DistinctFingerprints(kept)
    && (forall c :: c in kept ==> c.fingerprint in m && m[c.fingerprint] == c)
    && (forall fp :: fp in m ==> m[fp] in kept && m[fp].fingerprint == fp)
  }

  lemma IsIndexStep(kept: seq<ClusterData>, m: ByFingerprint, last: ClusterData)
    requires IsIndex(kept, m)
    ensures IsIndex(Filter(kept, Other(last.fingerprint)) + [last], m[last.fingerprint := last])
  {
    hide Filter;
    var rest := Filter(kept, Other(last.fingerprint));
    KeepsDistinct(kept, Other(last.fingerprint));
    forall j | 0 <= j < |rest| ensures rest[j].fingerprint != last.fingerprint {
      assert rest[j] in rest;
    }
  }

  lemma NoneIsIndex()
    ensures IsIndex(Kept([]), Index([]))
  {
  }

  lemma IndexSnoc(front: seq<ClusterData>, last: ClusterData)
    ensures Index(front + [last]) == Index(front)[last.fingerprint := last]
  {
    assert (front + [last])[..|front|] == front;
  }

  /** The kept clusters are the dictionary, each fingerprint once. */
  lemma {:induction false} KeptIsIndex(cs: seq<ClusterData>)
    ensures IsIndex(Kept(cs), Index(cs))
  {
    hide *;
    if cs == [] {
      NoneIsIndex();
    } else {
      var front, last := cs[..|cs| - 1], cs[|cs| - 1];
      assert cs == front + [last];
      KeptIsIndex(front);
      KeptSnoc(front, last);
      IndexSnoc(front, last);
      IsIndexStep(Kept(front), Index(front), last);
    }
  }

  /** The number of lines one window contributes under a fingerprint. */
  function LinesIn(m: ByFingerprint): string -> nat { (fp: string) => if fp in m then m[fp].count else 0 }

  /** All fingerprints of two windows, those of the first one first. */
  ghost function Order(ca: seq<ClusterData>, cb: seq<ClusterData>): seq<string> {
    Map(Kept(ca), Fingerprint) + Map(Filter(Kept(cb), NotIn(Index(ca))), Fingerprint)
  }

  function NotIn(m: ByFingerprint): ClusterData -> bool { (c: ClusterData) => c.fingerprint !in m }

  /** Two lists of clusters with no fingerprint in common, each without repeats. */
  lemma FingerprintsOnce(ka: seq<ClusterData>, kb: seq<ClusterData>)
    requires DistinctFingerprints(ka) && DistinctFingerprints(kb)
    requires forall c, d :: c in ka && d in kb ==> c.fingerprint != d.fingerprint
    ensures NoRepeats(Map(ka, Fingerprint) + Map(kb, Fingerprint))
  {
    var order := Map(ka, Fingerprint) + Map(kb, Fingerprint);
    forall i, j | 0 <= i < j < |order| ensures order[i] != order[j] {
      if i < |ka| && j >= |ka| {
        assert ka[i] in ka && kb[j - |ka|] in kb;
      }
    }
  }

  lemma KeepsDistinct(cs: seq<ClusterData>, keep: ClusterData -> bool)
    requires DistinctFingerprints(cs)
    ensures DistinctFingerprints(Filter(cs, keep))
  {
    hide Filter;
    FilterDistinctBy(cs, keep, Fingerprint);
  }

  lemma OrderNoRepeats(ca: seq<ClusterData>, cb: seq<ClusterData>)
    ensures NoRepeats(Order(ca, cb))
  {
    hide Kept, Index, Filter, DistinctFingerprints;
    KeptIsIndex(ca);
    KeptIsIndex(cb);
    KeepsDistinct(Kept(cb), NotIn(Index(ca)));
    FingerprintsOnce(Kept(ca), Filter(Kept(cb), NotIn(Index(ca))));
  }

  lemma OrderIsUnion(ca: seq<ClusterData>, cb: seq<ClusterData>)
    ensures NoRepeats(Order(ca, cb))
    ensures forall fp :: fp in Order(ca, cb) <==> fp in Index(ca) || fp in Index(cb)
  {
    hide *;
    OrderNoRepeats(ca, cb);
    forall fp ensures fp in Order(ca, cb) <==> fp in Index(ca) || fp in Index(cb) {
      OrderHas(ca, cb, fp);
    }
  }

  lemma InKept(cs: seq<ClusterData>, fp: string)
    ensures fp in Map(Kept(cs), Fingerprint) <==> fp in Index(cs)
  {
    var kept := Kept(cs);
    var fps := Map(kept, Fingerprint);
    KeptIsIndex(cs);
    hide Kept, Index;
    if fp in fps {
      var i :| 0 <= i < |fps| && fps[i] == fp;
      assert kept[i] in kept;
    }
    if fp in Index(cs) {
      var i :| 0 <= i < |kept| && kept[i] == Index(cs)[fp];
      assert fps[i] == fp;
    }
  }

  lemma InRest(cs: seq<ClusterData>, m: ByFingerprint, fp: string)
    ensures fp in Map(Filter(Kept(cs), NotIn(m)), Fingerprint) <==> fp in Index(cs) && fp !in m
  {
    var rest := Filter(Kept(cs), NotIn(m));
    var fps := Map(rest, Fingerprint);
    KeptIsIndex(cs);
    hide Kept, Index;
    if fp in fps {
      var i :| 0 <= i < |fps| && fps[i] == fp;
      assert rest[i] in rest;
    }
    if fp in Index(cs) && fp !in m {
      assert Index(cs)[fp] in rest;
      var i :| 0 <= i < |rest| && rest[i] == Index(cs)[fp];
      assert fps[i] == fp;
    }
  }

  lemma OrderHas(ca: seq<ClusterData>, cb: seq<ClusterData>, fp: string)
    ensures fp in Order(ca, cb) <==> fp in Index(ca) || fp in Index(cb)
  {
    hide Kept, Index, Filter, Map;
    InKept(ca, fp);
    InRest(cb, Index(ca), fp);
  }

  lemma {:induction false} NoLines(cs: seq<ClusterData>, m: ByFingerprint)
    requires forall c :: c in cs ==> c.fingerprint !in m
    ensures Total(Map(cs, Fingerprint), LinesIn(m)) == 0
  {
    if cs != [] {
      assert Map(cs, Fingerprint)[1..] == Map(cs[1..], Fingerprint);
      NoLines(cs[1..], m);
    }
  }

  lemma OrderTotal(ca: seq<ClusterData>, cb: seq<ClusterData>)
    ensures Total(Order(ca, cb), LinesIn(Index(ca))) == Total(Kept(ca), Count)
  {
    var a, ka, kb := Index(ca), Kept(ca), Filter(Kept(cb), NotIn(Index(ca)));
    KeptIsIndex(ca);
    NoLines(kb, a);
    hide Kept, Index, Filter, Total;
    TotalConcat(Map(ka, Fingerprint), Map(kb, Fingerprint), LinesIn(a));
    forall k | 0 <= k < |ka| ensures LinesIn(a)(Map(ka, Fingerprint)[k]) == Count(ka[k]) {
      assert ka[k] in ka;
    }
    TotalPointwise(Map(ka, Fingerprint), LinesIn(a), ka, Count);
  }

  /** The counts in the five lists add up to the lines of each window, less those of clusters that
      shared a fingerprint with a later one. */
  lemma DiffConservesCounts(clustersA: seq<ClusterData>, clustersB: seq<ClusterData>, ps: Patterns, ls: Lists)
    requires var a, b := Index(Collapsed(clustersA, ps)), Index(Collapsed(clustersB, ps));
      Filed(ls, a, b, a.Keys + b.Keys)
    ensures Total(AllDiffs(ls), CountA) + Shadowed(Collapsed(clustersA, ps)) == Total(clustersA, Count)
    ensures Total(AllDiffs(ls), CountB) + Shadowed(Collapsed(clustersB, ps)) == Total(clustersB, Count)
  {
    var ca, cb := Collapsed(clustersA, ps), Collapsed(clustersB, ps);
    CollapseConserves(clustersA, ps, "");
    CollapseConserves(clustersB, ps, "");
    KeptPlusShadowed(ca);
    KeptPlusShadowed(cb);
    hide Collapsed, Kept, Shadowed, Order, Total, Index;
    ListsTotalA(ca, cb, ls);
    ListsTotalB(ca, cb, ls);
  }

  lemma ListsTotalA(ca: seq<ClusterData>, cb: seq<ClusterData>, ls: Lists)
    requires Filed(ls, Index(ca), Index(cb), Index(ca).Keys + Index(cb).Keys)
    ensures Total(AllDiffs(ls), CountA) == Total(Kept(ca), Count)
  {
    hide Kept, Order, Total, Index, Filed, AllDiffs, NoRepeats;
    OrderIsUnion(ca, cb);
    OrderTotal(ca, cb);
    SumOverLists(ls, Index(ca), Index(cb), Order(ca, cb), CountA, LinesIn(Index(ca)));
  }

  lemma ListsTotalB(ca: seq<ClusterData>, cb: seq<ClusterData>, ls: Lists)
    requires Filed(ls, Index(ca), Index(cb), Index(ca).Keys + Index(cb).Keys)
    ensures Total(AllDiffs(ls), CountB) == Total(Kept(cb), Count)
  {
    hide Kept, Order, Total, Index, Filed, AllDiffs, NoRepeats;
    OrderIsUnion(cb, ca);
    OrderTotal(cb, ca);
    SumOverLists(ls, Index(ca), Index(cb), Order(cb, ca), CountB, LinesIn(Index(cb)));
  }

  lemma DistinctFront(front: seq<ClusterData>, last: ClusterData)
    requires DistinctFingerprints(front + [last])
    ensures DistinctFingerprints(front) && forall c :: c in front ==> Other(last.fingerprint)(c)
  {
    var cs := front + [last];
    assert forall i :: 0 <= i < |front| ==> cs[i] == front[i];
    assert cs[|front|] == last;
  }

  lemma NothingKept()
    ensures Kept([]) == []
  {
  }

  lemma {:induction false} DistinctKept(cs: seq<ClusterData>)
    requires DistinctFingerprints(cs)
    ensures Kept(cs) == cs
  {
    hide *;
    if cs == [] {
      NothingKept();
    } else {
      var front, last := cs[..|cs| - 1], cs[|cs| - 1];
      assert cs == front + [last];
      DistinctFront(front, last);
      DistinctKept(front);
      FilterAll(front, Other(last.fingerprint));
      KeptSnoc(front, last);
    }
  }

  /** Distinct fingerprints replace nothing. */
  lemma DistinctKeepsAll(cs: seq<ClusterData>)
    requires DistinctFingerprints(cs)
    ensures Kept(cs) == cs && Shadowed(cs) == 0
  {
    hide Kept, Shadowed;
    DistinctKept(cs);
    NothingShadowedIff(cs);
  }

  lemma {:induction false} FilterAll(cs: seq<ClusterData>, keep: ClusterData -> bool)
    requires forall c :: c in cs ==> keep(c)
    ensures Filter(cs, keep) == cs
  {
    if cs != [] {
      FilterAll(cs[1..], keep);
    }
  }

  /** Every cluster that a later one with its fingerprint replaces is empty. */
  ghost predicate Harmless(cs: seq<ClusterData>) {
    forall i, j :: 0 <= i < j < |cs| && cs[i].fingerprint == cs[j].fingerprint ==> cs[i].count == 0
  }

  lemma HarmlessSnoc(front: seq<ClusterData>, last: ClusterData)
    ensures Harmless(front + [last])
      <==> Harmless(front) && forall c :: c in front && c.fingerprint == last.fingerprint ==> c.count == 0
  {
    var cs := front + [last];
    assert forall i :: 0 <= i < |front| ==> cs[i] == front[i];
    if Harmless(cs) {
      forall c | c in front && c.fingerprint == last.fingerprint ensures c.count == 0 {
        var i :| 0 <= i < |front| && front[i] == c;
        assert cs[i].fingerprint == cs[|front|].fingerprint;
      }
    }
  }

  lemma HarmlessCons(first: ClusterData, rest: seq<ClusterData>)
    ensures Harmless([first] + rest)
      <==> Harmless(rest) && ((exists c :: c in rest && c.fingerprint == first.fingerprint) ==> first.count == 0)
  {
    var cs := [first] + rest;
    assert forall i :: 1 <= i < |cs| ==> cs[i] == rest[i - 1] && cs[i] in rest;
    if Harmless(cs) {
      forall i, j | 0 <= i < j < |rest| && rest[i].fingerprint == rest[j].fingerprint ensures rest[i].count == 0 {
        assert cs[i + 1].fingerprint == cs[j + 1].fingerprint;
      }
      forall j | 0 <= j < |rest| && rest[j].fingerprint == first.fingerprint ensures first.count == 0 {
        assert cs[0].fingerprint == cs[j + 1].fingerprint;
      }
    }
  }

  lemma {:induction false} KeptAreThere(cs: seq<ClusterData>, c: ClusterData)
    requires c in Kept(cs)
    ensures c in cs
  {
    var front, last := cs[..|cs| - 1], cs[|cs| - 1];
    if c != last {
      KeptAreThere(front, c);
    }
  }

  lemma {:induction false} KeptOrReplaced(cs: seq<ClusterData>, i: nat)
    requires i < |cs|
    ensures cs[i] in Kept(cs) || exists j :: i < j < |cs| && cs[j].fingerprint == cs[i].fingerprint
  {
    var n := |cs| - 1;
    if i < n {
      KeptOrReplaced(cs[..n], i);
      assert forall j :: 0 <= j < n ==> cs[..n][j] == cs[j];
    }
  }

  lemma {:induction false} EmptyTotal(cs: seq<ClusterData>)
    requires forall c :: c in cs ==> c.count == 0
    ensures Total(cs, Count) == 0
  {
    if cs != [] {
      EmptyTotal(cs[1..]);
    }
  }

  /** What the last cluster replaces is empty exactly when all clusters with its fingerprint are. */
  lemma ReplacedIsEmptyIff(front: seq<ClusterData>, last: ClusterData)
    requires Harmless(front)
    ensures Total(Filter(Kept(front), Same(last.fingerprint)), Count) == 0
      <==> forall c :: c in front && c.fingerprint == last.fingerprint ==> c.count == 0
  {
    hide Kept, Total, Filter;
    var replaced := Filter(Kept(front), Same(last.fingerprint));
    if Total(replaced, Count) == 0 {
      forall i | 0 <= i < |front| && front[i].fingerprint == last.fingerprint ensures front[i].count == 0 {
        KeptOrReplaced(front, i);
        if front[i] in Kept(front) { TotalBounds(replaced, Count, front[i]); }
      }
    }
    if forall c :: c in front && c.fingerprint == last.fingerprint ==> c.count == 0 {
      forall c | c in replaced ensures c.count == 0 { KeptAreThere(front, c); }
      EmptyTotal(replaced);
    }
  }

  lemma NoneShadowed()
    ensures Shadowed([]) == 0
  {
  }

  /** The dictionary loses no line exactly when it replaces empty clusters only; without empty clusters,
      exactly when all fingerprints differ. */
  lemma NothingShadowedIff(cs: seq<ClusterData>)
    ensures Shadowed(cs) == 0 <==> Harmless(cs)
    ensures (forall c :: c in cs ==> c.count >= 1) ==> (Shadowed(cs) == 0 <==> DistinctFingerprints(cs))
  {
    hide Shadowed;
    ShadowedIff(cs);
    if forall c :: c in cs ==> c.count >= 1 {
      assert forall i :: 0 <= i < |cs| ==> cs[i] in cs;
    }
  }

  lemma ShadowedStep(front: seq<ClusterData>, last: ClusterData)
    requires Shadowed(front) == 0 <==> Harmless(front)
    ensures Shadowed(front + [last]) == 0 <==> Harmless(front + [last])
  {
    hide *;
    KeptSnoc(front, last);
    HarmlessSnoc(front, last);
    if Harmless(front) { ReplacedIsEmptyIff(front, last); }
  }

  lemma {:induction false} ShadowedIff(cs: seq<ClusterData>)
    ensures Shadowed(cs) == 0 <==> Harmless(cs)
  {
    hide *;
    if cs == [] {
      NoneShadowed();
      NoneHarmless();
    } else {
      ShadowedIff(cs[..|cs| - 1]);
      assert cs == cs[..|cs| - 1] + [cs[|cs| - 1]];
      ShadowedStep(cs[..|cs| - 1], cs[|cs| - 1]);
    }
  }

  lemma NoneHarmless()
    ensures Harmless([])
  {
  }

  // ---- When the sums are the totals of the arguments ----

  /** No normal cluster with lines has the label of a group that collapsing creates. */
  ghost predicate LabelFree(cs: seq<ClusterData>, ps: Patterns, noise: Noise, key: string) {
    (exists g :: g in cs && Is(noise, ps)(g)) ==>
      forall c :: c in cs && Is(Normal, ps)(c) && c.fingerprint == key ==> c.count == 0
  }

  ghost predicate HarmlessAmong(cs: seq<ClusterData>, keep: ClusterData -> bool) {
    forall i, j :: 0 <= i < j < |cs| && keep(cs[i]) && keep(cs[j]) && cs[i].fingerprint == cs[j].fingerprint ==>
      cs[i].count == 0
  }

  /** A condition on the clusters of one window: among the normal ones, a cluster that shares its
      fingerprint with a later one is empty, and so is one that carries the label of a collapsed group. */
  ghost predicate LosesNothing(cs: seq<ClusterData>, ps: Patterns) {
    HarmlessAmong(cs, Is(Normal, ps)) && LabelFree(cs, ps, Retry, RETRIES) && LabelFree(cs, ps, Queue, QUEUE_GROWTH)
  }

  lemma HarmlessAmongCons(first: ClusterData, rest: seq<ClusterData>, keep: ClusterData -> bool)
    ensures HarmlessAmong([first] + rest, keep) <==>
      && HarmlessAmong(rest, keep)
      && (keep(first) && (exists c :: c in rest && keep(c) && c.fingerprint == first.fingerprint) ==> first.count == 0)
  {
    var cs := [first] + rest;
    assert forall i :: 1 <= i < |cs| ==> cs[i] == rest[i - 1] && cs[i] in rest;
    if HarmlessAmong(cs, keep) {
      forall i, j | 0 <= i < j < |rest| && keep(rest[i]) && keep(rest[j]) && rest[i].fingerprint == rest[j].fingerprint
        ensures rest[i].count == 0
      {
        assert keep(cs[i + 1]) && keep(cs[j + 1]);
      }
      forall j | 0 <= j < |rest| && keep(first) && keep(rest[j]) && rest[j].fingerprint == first.fingerprint
        ensures first.count == 0
      {
        assert keep(cs[0]) && keep(cs[j + 1]);
      }
    }
  }

  lemma FilterCons(first: ClusterData, rest: seq<ClusterData>, keep: ClusterData -> bool)
    ensures Filter([first] + rest, keep) == if keep(first) then [first] + Filter(rest, keep) else Filter(rest, keep)
  {
    assert ([first] + rest)[1..] == rest;
  }

  lemma HarmlessFilterStep(first: ClusterData, rest: seq<ClusterData>, keep: ClusterData -> bool)
    requires Harmless(Filter(rest, keep)) <==> HarmlessAmong(rest, keep)
    ensures Harmless(Filter([first] + rest, keep)) <==> HarmlessAmong([first] + rest, keep)
  {
    hide HarmlessAmong, Harmless, Filter;
    FilterCons(first, rest, keep);
    HarmlessAmongCons(first, rest, keep);
    HarmlessCons(first, Filter(rest, keep));
  }

  lemma HarmlessFilterNone(keep: ClusterData -> bool)
    ensures Harmless(Filter([], keep)) && HarmlessAmong([], keep)
  {
  }

  lemma {:induction false} HarmlessFilter(cs: seq<ClusterData>, keep: ClusterData -> bool)
    ensures Harmless(Filter(cs, keep)) <==> HarmlessAmong(cs, keep)
  {
    hide *;
    if cs == [] {
      HarmlessFilterNone(keep);
    } else {
      HarmlessFilter(cs[1..], keep);
      assert [cs[0]] + cs[1..] == cs;
      HarmlessFilterStep(cs[0], cs[1..], keep);
    }
  }

  lemma HarmlessWithGroup(front: seq<ClusterData>, group: seq<ClusterData>, message: string, key: string)
    ensures Harmless(front + AsList(group, message, key))
      <==> Harmless(front) && (group != [] ==> forall c :: c in front && c.fingerprint == key ==> c.count == 0)
  {
    hide Harmless;
    if group == [] {
      assert front + AsList(group, message, key) == front;
    } else {
      HarmlessSnoc(front, MergeGroup(group, message, key));
    }
  }

  lemma LabelFreeIff(cs: seq<ClusterData>, ps: Patterns, noise: Noise, key: string)
    ensures LabelFree(cs, ps, noise, key) <==>
      (Filter(cs, Is(noise, ps)) != [] ==>
        forall c :: c in Filter(cs, Is(Normal, ps)) && c.fingerprint == key ==> c.count == 0)
  {
    hide Filter;
    var group := Filter(cs, Is(noise, ps));
    if group != [] { assert group[0] in group; }
  }

  lemma CollapsedHarmlessIff(cs: seq<ClusterData>, ps: Patterns)
    ensures Harmless(Collapsed(cs, ps)) <==> LosesNothing(cs, ps)
  {
    hide Filter, Harmless, HarmlessAmong, LabelFree;
    var normal, retries, queue := Filter(cs, Is(Normal, ps)), Filter(cs, Is(Retry, ps)), Filter(cs, Is(Queue, ps));
    var text := RetryLabel(retries, ps);
    HarmlessFilter(cs, Is(Normal, ps));
    HarmlessWithGroup(normal, retries, text, RETRIES);
    HarmlessWithGroup(normal + AsList(retries, text, RETRIES), queue, "Queue growth", QUEUE_GROWTH);
    LabelFreeIff(cs, ps, Retry, RETRIES);
    LabelFreeIff(cs, ps, Queue, QUEUE_GROWTH);
    assert forall c :: c in normal + AsList(retries, text, RETRIES) && c.fingerprint == QUEUE_GROWTH <==>
      c in normal && c.fingerprint == QUEUE_GROWTH;
  }

  /** The counts in the five lists add up to the lines of a window exactly when that window loses nothing. */
  lemma SumsAreTotalsIff(clustersA: seq<ClusterData>, clustersB: seq<ClusterData>, ps: Patterns, ls: Lists)
    requires var a, b := Index(Collapsed(clustersA, ps)), Index(Collapsed(clustersB, ps));
      Filed(ls, a, b, a.Keys + b.Keys)
    ensures Total(AllDiffs(ls), CountA) == Total(clustersA, Count) <==> LosesNothing(clustersA, ps)
    ensures Total(AllDiffs(ls), CountB) == Total(clustersB, Count) <==> LosesNothing(clustersB, ps)
  {
    DiffConservesCounts(clustersA, clustersB, ps, ls);
    hide Collapsed, Shadowed, Total, Index, LosesNothing, Harmless, AllDiffs;
    NothingShadowedIff(Collapsed(clustersA, ps));
    NothingShadowedIff(Collapsed(clustersB, ps));
    CollapsedHarmlessIff(clustersA, ps);
    CollapsedHarmlessIff(clustersB, ps);
  }
}
