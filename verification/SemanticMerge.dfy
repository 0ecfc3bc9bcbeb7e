/** Semantic merge of fingerprint clusters: union-find over the similar pairs, then one cluster per
    connected component. */
module SemanticMerge {
  import opened Sequences
  import opened Clusters
  import opened DisjointSets

  // ---- Collapsing one component ----

  /** The strict order of `min(members, key=(-importance, -count, fingerprint))`. */
  predicate Precedes(a: ClusterData, b: ClusterData) {
    || a.importance > b.importance
    || (a.importance == b.importance
        && (a.count > b.count || (a.count == b.count && StrLess(a.fingerprint, b.fingerprint))))
  }

  /** Position of the canonical member: the first minimum. */
  function CanonicalIndex(ms: seq<ClusterData>): (k: nat)
    requires ms != []
    ensures k < |ms|
  {
    if |ms| == 1 then 0 else
      var last := |ms| - 1;
      var k := CanonicalIndex(ms[..last]);
      if Precedes(ms[last], ms[k]) then last else k
  }

  lemma PrecedesTransitive(a: ClusterData, b: ClusterData, c: ClusterData)
    requires Precedes(a, b) && !Precedes(c, b)
    ensures Precedes(a, c)
  {
    StrTrichotomy(c.fingerprint, b.fingerprint);
    if StrLess(a.fingerprint, b.fingerprint) && StrLess(b.fingerprint, c.fingerprint) {
      StrTransitive(a.fingerprint, b.fingerprint, c.fingerprint);
    }
  }

  /** No member comes before the canonical one, and every earlier member comes strictly after it. */
  lemma {:induction false} CanonicalIsFirstMinimum(ms: seq<ClusterData>)
    requires ms != []
    ensures forall j :: 0 <= j < |ms| ==> !Precedes(ms[j], ms[CanonicalIndex(ms)])
    ensures forall j :: 0 <= j < CanonicalIndex(ms) ==> Precedes(ms[CanonicalIndex(ms)], ms[j])
  {
    var last := |ms| - 1;
    StrTrichotomy(ms[last].fingerprint, ms[last].fingerprint);
    if last > 0 {
      var front := ms[..last];
      CanonicalIsFirstMinimum(front);
      var k := CanonicalIndex(front);
      if Precedes(ms[last], ms[k]) {
        forall j | 0 <= j < last ensures Precedes(ms[last], ms[j]) && !Precedes(ms[j], ms[last]) {
          assert !Precedes(front[j], front[k]);
          PrecedesTransitive(ms[last], ms[k], ms[j]);
          if Precedes(ms[j], ms[last]) {
            StrTrichotomy(ms[j].fingerprint, ms[last].fingerprint);
          }
        }
      }
    }
  }

  function Differs(fp: string): string -> bool { (x: string) => x != fp }

  function AnyTrigger(ms: seq<ClusterData>): bool { exists m :: m in ms && m.isTrigger }

  /** The cluster that replaces a component with these members. */
  function MergedCluster(ms: seq<ClusterData>, hooks: Hooks): ClusterData
    requires ms != []
  {
    var k := CanonicalIndex(ms);
    var canonical := ms[k];
    var count := Total(ms, Count);
    var baseline := Total(ms, Baseline);
    var services := CountTotals(Map(ms, Services));
    var levels := CountTotals(Map(ms, Levels));
    var trigger := AnyTrigger(ms) || hooks.triggerMessage(canonical.message);
    var ratio := ChangeRatio(count, baseline);
    ClusterData(
      canonical.fingerprint, canonical.message, count, services, levels,
      MinSeen(Map(ms, FirstSeen)), MaxSeen(Map(ms, LastSeen)), baseline, ratio,
      hooks.score(count, levels, ratio, |services|, trigger), trigger,
      canonical.logEntryIds + Flatten(Map(Without(ms, k), Ids)),
      Sort(Filter(Map(ms, Fingerprint), Differs(canonical.fingerprint)), StrLe),
      CountTotals(Map(ms, ErrorServices)))
  }

  lemma IdsGrow(ms: seq<ClusterData>, m: nat)
    requires m < |ms|
    ensures Flatten(Map(ms[..m + 1], Ids)) == Flatten(Map(ms[..m], Ids)) + ms[m].logEntryIds
  {
    var one: seq<seq<int>> := [ms[m].logEntryIds];
    assert Map(ms[..m + 1], Ids) == Map(ms[..m], Ids) + one;
    FlattenConcat(Map(ms[..m], Ids), one);
    assert one[1..] == [];
  }

  /** The canonical member's ids, then the other members' ids in member order. */
  method CollectIds(ms: seq<ClusterData>, k: nat) returns (ids: seq<int>)
    requires k < |ms|
    ensures ids == ms[k].logEntryIds + Flatten(Map(Without(ms, k), Ids))
  {
    ids := ms[k].logEntryIds;
    ghost var others := Without(ms, k);
    for n := 0 to |ms|
      invariant ids == ms[k].logEntryIds + Flatten(Map(others[..if n <= k then n else n - 1], Ids))
    {
      if n != k {
        hide Flatten;
        ghost var m := if n < k then n else n - 1;
        assert others[m] == ms[n];
        IdsGrow(others, m);
        ids := ids + ms[n].logEntryIds;
      }
    }
    assert others[..|ms| - 1] == others;
  }

  method MergeComponent(ms: seq<ClusterData>, hooks: Hooks) returns (c: ClusterData)
    requires ms != []
    ensures c == MergedCluster(ms, hooks)
  {
    var k := CanonicalIndex(ms);
    var canonical := ms[k];
    var count, baseline := Total(ms, Count), Total(ms, Baseline);
    var services := SumCounts(Map(ms, Services));
    var levels := SumCounts(Map(ms, Levels));
    var errors := SumCounts(Map(ms, ErrorServices));
    var ids := CollectIds(ms, k);
    var trigger := AnyTrigger(ms) || hooks.triggerMessage(canonical.message);
    var ratio := ChangeRatio(count, baseline);
    c := ClusterData(
      canonical.fingerprint, canonical.message, count, services, levels,
      MinSeen(Map(ms, FirstSeen)), MaxSeen(Map(ms, LastSeen)), baseline, ratio,
      hooks.score(count, levels, ratio, |services|, trigger), trigger, ids,
      Sort(Filter(Map(ms, Fingerprint), Differs(canonical.fingerprint)), StrLe), errors);
  }

  /** Member `k` speaks for the component before member `j`: it is more important, or as important and more
      frequent, or equal in both with the smaller fingerprint, or equal in all three and earlier. */
  ghost predicate Outranked(ms: seq<ClusterData>, j: nat, k: nat)
    requires j < |ms| && k < |ms|
  {
    var a, b := ms[k], ms[j];
    && a.importance >= b.importance && (a.importance == b.importance ==> a.count >= b.count)
    && (a.importance == b.importance && a.count == b.count ==>
          StrLess(a.fingerprint, b.fingerprint) || (a.fingerprint == b.fingerprint && k < j))
  }

  lemma CanonicalOutranks(ms: seq<ClusterData>)
    requires ms != []
    ensures forall j :: 0 <= j < |ms| && j != CanonicalIndex(ms) ==> Outranked(ms, j, CanonicalIndex(ms))
  {
    CanonicalIsFirstMinimum(ms);
    hide CanonicalIndex, StrLess;
    var k := CanonicalIndex(ms);
    forall j | 0 <= j < |ms| && j != k ensures Outranked(ms, j, k) {
      StrTrichotomy(ms[j].fingerprint, ms[k].fingerprint);
    }
  }

  /** Who a merged cluster speaks for: its fingerprint, message and leading ids are those of the first
      member that no other member outranks; it is a trigger exactly when a member is one or that
      message reads like one. */
  lemma MergedClusterIdentity(ms: seq<ClusterData>, hooks: Hooks) returns (k: nat)
    requires ms != []
    ensures k < |ms| && forall j :: 0 <= j < |ms| && j != k ==> Outranked(ms, j, k)
    ensures var c := MergedCluster(ms, hooks);
      && c.fingerprint == ms[k].fingerprint && c.message == ms[k].message && ms[k].logEntryIds <= c.logEntryIds
      && (c.isTrigger <==> hooks.triggerMessage(c.message) || exists m :: m in ms && m.isTrigger)
      && SortedBy(c.mergedFingerprints, StrLe)
  {
    k := CanonicalIndex(ms);
    hide CanonicalIndex, Precedes, Outranked, Sort, Filter, Total, CountTotals, Flatten, Differs, SortedBy, MinSeen,
      MaxSeen, StrLess;
    CanonicalOutranks(ms);
    StrLeTotalPreorder();
    SortSorted(Filter(Map(ms, Fingerprint), Differs(ms[k].fingerprint)), StrLe);
  }

  /** Ratio and importance of a merged cluster are those of its own counts, levels and services. */
  lemma MergedClusterScore(ms: seq<ClusterData>, hooks: Hooks)
    requires ms != []
    ensures var c := MergedCluster(ms, hooks);
      && c.changeRatio == (c.count + 1) as real / (c.baselineCount + 1) as real
      && c.importance == hooks.score(c.count, c.levels, c.changeRatio, |c.services|, c.isTrigger)
  {
    hide Total, CountTotals, Sort, Filter, Flatten, MinSeen, MaxSeen, Precedes, CanonicalIndex, AnyTrigger;
  }

  // ---- What collapsing conserves ----

  lemma {:induction false} CountTotalsConserves(ms: seq<ClusterData>, part: ClusterData -> Counts,
                                                f: ClusterData -> nat, k: string)
    requires forall m :: f(m) == Get(part(m), k)
    ensures Get(CountTotals(Map(ms, part)), k) == Total(ms, f)
  {
    CountTotalsGet(Map(ms, part), k);
    TotalPointwise(Map(ms, part), At(k), ms, f);
  }

  lemma {:induction false} FlattenedIds(ms: seq<ClusterData>, id: int)
    ensures multiset(Flatten(Map(ms, Ids)))[id] == Total(ms, IdCount(id))
  {
    if ms != [] {
      assert Map(ms, Ids)[1..] == Map(ms[1..], Ids);
      FlattenedIds(ms[1..], id);
    }
  }

  lemma IdsConserved(ms: seq<ClusterData>, hooks: Hooks, id: int)
    requires ms != []
    ensures IdCount(id)(MergedCluster(ms, hooks)) == Total(ms, IdCount(id))
  {
    var k := CanonicalIndex(ms);
    FlattenedIds(Without(ms, k), id);
    RemoveOneTotal(ms, k, IdCount(id));
  }

  /** Every summable part of a merged cluster is the sum over its members. */
  lemma MergedClusterConserves(ms: seq<ClusterData>, hooks: Hooks, key: string, id: int)
    requires ms != []
    ensures var c := MergedCluster(ms, hooks);
      && Count(c) == Total(ms, Count)
      && Baseline(c) == Total(ms, Baseline)
      && ServiceCount(key)(c) == Total(ms, ServiceCount(key))
      && LevelCount(key)(c) == Total(ms, LevelCount(key))
      && ErrorCount(key)(c) == Total(ms, ErrorCount(key))
      && IdCount(id)(c) == Total(ms, IdCount(id))
  {
    CountTotalsConserves(ms, Services, ServiceCount(key), key);
    CountTotalsConserves(ms, Levels, LevelCount(key), key);
    CountTotalsConserves(ms, ErrorServices, ErrorCount(key), key);
    IdsConserved(ms, hooks, id);
  }

  ghost predicate IsEarliest(t: Option<int>, ms: seq<ClusterData>, seen: ClusterData -> Option<int>) {
    && (t.None? <==> forall m :: m in ms ==> seen(m).None?)
    && (t.Some? ==> exists m :: m in ms && seen(m) == t)
    && (forall m :: m in ms && seen(m).Some? ==> t.Some? && t.value <= seen(m).value)
  }

  ghost predicate IsLatest(t: Option<int>, ms: seq<ClusterData>, seen: ClusterData -> Option<int>) {
    && (t.None? <==> forall m :: m in ms ==> seen(m).None?)
    && (t.Some? ==> exists m :: m in ms && seen(m) == t)
    && (forall m :: m in ms && seen(m).Some? ==> t.Some? && seen(m).value <= t.value)
  }

  lemma HullOf(ms: seq<ClusterData>, seen: ClusterData -> Option<int>)
    ensures IsEarliest(MinSeen(Map(ms, seen)), ms, seen)
    ensures IsLatest(MaxSeen(Map(ms, seen)), ms, seen)
  {
    var ts := Map(ms, seen);
    SeenIsHull(ts);
    forall t | t in ts ensures exists m :: m in ms && seen(m) == t {
      var i :| 0 <= i < |ts| && ts[i] == t;
      assert ms[i] in ms;
    }
    forall m | m in ms ensures seen(m) in ts {
      var i :| 0 <= i < |ms| && ms[i] == m;
      assert ts[i] == seen(m);
    }
  }

  /** First and last seen are the exact hull of what the members report. */
  lemma MergedClusterHull(ms: seq<ClusterData>, hooks: Hooks)
    requires ms != []
    ensures IsEarliest(MergedCluster(ms, hooks).firstSeen, ms, FirstSeen)
    ensures IsLatest(MergedCluster(ms, hooks).lastSeen, ms, LastSeen)
  {
    HullOf(ms, FirstSeen);
    HullOf(ms, LastSeen);
  }

  lemma {:induction false} FilterDiffers(fps: seq<string>, fp: string, x: string)
    ensures multiset(Filter(fps, Differs(fp)))[x] == if x == fp then 0 else multiset(fps)[x]
  {
    if fps != [] {
      assert fps == [fps[0]] + fps[1..];
      FilterDiffers(fps[1..], fp, x);
    }
  }

  lemma PutBackOne<T>(rest: multiset<T>, bag: multiset<T>, x: T)
    requires rest == bag[x := 0]
    ensures multiset{x} + rest == bag <==> bag[x] == 1
  {
    assert (multiset{x} + rest)[x] == 1;
    if bag[x] == 1 {
      assert forall y :: (multiset{x} + rest)[y] == bag[y];
    }
  }

  lemma RecoveredBag(fps: seq<string>, fp: string)
    ensures var merged := Sort(Filter(fps, Differs(fp)), StrLe);
      (multiset([fp] + merged) == multiset(fps) <==> multiset(fps)[fp] == 1)
  {
    var merged, bag := Sort(Filter(fps, Differs(fp)), StrLe), multiset(fps);
    assert multiset(merged) == bag[fp := 0] by {
      forall x ensures multiset(merged)[x] == bag[fp := 0][x] {
        FilterDiffers(fps, fp, x);
      }
    }
    assert multiset([fp] + merged) == multiset{fp} + multiset(merged);
    PutBackOne(multiset(merged), bag, fp);
  }

  lemma MergedFields(ms: seq<ClusterData>, hooks: Hooks)
    requires ms != []
    ensures var c, fps := MergedCluster(ms, hooks), Map(ms, Fingerprint);
      && c.fingerprint == fps[CanonicalIndex(ms)]
      && c.mergedFingerprints == Sort(Filter(fps, Differs(c.fingerprint)), StrLe)
  {
    hide Total, CountTotals, Flatten, MinSeen, MaxSeen, Sort, Filter, CanonicalIndex;
  }

  /** The fingerprint and the merged fingerprints recover the members' fingerprints exactly when
      the canonical member is the only one with its fingerprint. */
  lemma FingerprintsRecovered(ms: seq<ClusterData>, hooks: Hooks)
    requires ms != []
    ensures var c := MergedCluster(ms, hooks); var fps := Map(ms, Fingerprint);
      (multiset([c.fingerprint] + c.mergedFingerprints) == multiset(fps)
       <==> forall j :: 0 <= j < |fps| && j != CanonicalIndex(ms) ==> fps[j] != c.fingerprint)
  {
    MergedFields(ms, hooks);
    hide MergedCluster, Sort, Filter, CanonicalIndex;
    var k, fps := CanonicalIndex(ms), Map(ms, Fingerprint);
    UniqueOccurrence(fps, k);
    RecoveredBag(fps, fps[k]);
  }

  // ---- The similarity graph and its components ----

  predicate Eligible(c: ClusterData, embedding: seq<real>, minCount: int, hooks: Hooks) {
    c.count >= minCount && !hooks.blank(c.message) && exists v :: v in embedding && v != 0.0
  }

  /** The pairs the merge links: both ends eligible and similar enough. */
  ghost function SimilarPairs(clusters: seq<ClusterData>, embeddings: seq<seq<real>>, sim: (nat, nat) -> real,
                              threshold: real, minCount: int, hooks: Hooks): set<(nat, nat)>
    requires |embeddings| == |clusters|
  {
    set i: nat, j: nat | 0 <= i < j < |clusters|
      && Eligible(clusters[i], embeddings[i], minCount, hooks)
      && Eligible(clusters[j], embeddings[j], minCount, hooks) && sim(i, j) >= threshold :: (i, j)
  }

  /** The pairs already visited when the loops stand at `(i, j)`. */
  ghost function Visited(edges: set<(nat, nat)>, i: nat, j: nat): set<(nat, nat)> {
    set e | e in edges && (e.0 < i || (e.0 == i && e.1 < j))
  }

  lemma VisitedSteps(edges: set<(nat, nat)>, i: nat, j: nat)
    ensures Visited(edges, i, j + 1) ==
      if (i, j) in edges then Visited(edges, i, j) + {(i, j)} else Visited(edges, i, j)
  {
  }

  lemma RowVisited(edges: set<(nat, nat)>, i: nat, n: nat)
    requires InRange(edges, n) && forall e :: e in edges ==> e.0 < e.1
    ensures Visited(edges, i, i + 1) == Visited(edges, i, 0)
    ensures Visited(edges, i, n) == Visited(edges, i + 1, 0)
    ensures Visited(edges, n, 0) == edges && Visited(edges, 0, 0) == {}
    ensures (forall j :: (i, j) !in edges) ==> Visited(edges, i, 0) == Visited(edges, i + 1, 0)
  {
  }

  lemma VisitedInRange(edges: set<(nat, nat)>, i: nat, j: nat, n: nat)
    requires InRange(edges, n)
    ensures InRange(Visited(edges, i, j), n)
  {
  }

  ghost predicate Untouched(f: Forest) { forall x :: 0 <= x < |f.rep| ==> f.rep[x] == x }

  /** One visit of the inner loop. */
  method VisitPair(parent: array<nat>, ghost f0: Forest, ghost edges: set<(nat, nat)>, i: nat, j: nat, similar: bool)
    returns (linked: bool, ghost f: Forest)
    requires Represents(parent[..], f0) && i < parent.Length && j < parent.Length && InRange(edges, parent.Length)
    requires Classifies(f0.rep, Visited(edges, i, j)) && (similar <==> (i, j) in edges)
    modifies parent
    ensures Represents(parent[..], f) && Classifies(f.rep, Visited(edges, i, j + 1))
    ensures !linked ==> f.rep == f0.rep
  {
    VisitedSteps(edges, i, j);
    VisitedInRange(edges, i, j, parent.Length);
    assert |f0.rep| == parent.Length;
    hide *;
    linked, f := false, f0;
    if similar {
      AddEdge(f0.rep, Visited(edges, i, j), i, j);
      linked, f := Union(parent, f0, i, j);
      assert !linked ==> f.rep == f0.rep by { JoinedSame(f0.rep, i, j); }
    }
  }

  lemma JoinedSame(rep: seq<nat>, a: nat, b: nat)
    requires a < |rep| && b < |rep|
    ensures rep[a] == rep[b] ==> Joined(rep, a, b) == rep
  {
  }

  lemma EdgesOrdered(clusters: seq<ClusterData>, embeddings: seq<seq<real>>, sim: (nat, nat) -> real,
                     threshold: real, minCount: int, hooks: Hooks)
    requires |embeddings| == |clusters|
    ensures var edges := SimilarPairs(clusters, embeddings, sim, threshold, minCount, hooks);
      InRange(edges, |clusters|) && forall e :: e in edges ==> e.0 < e.1
  {
  }

  lemma EdgesOfRow(clusters: seq<ClusterData>, embeddings: seq<seq<real>>, sim: (nat, nat) -> real,
                   threshold: real, minCount: int, hooks: Hooks, i: nat)
    requires |embeddings| == |clusters| && i < |clusters|
    ensures forall j :: i < j < |clusters| ==>
      ((i, j) in SimilarPairs(clusters, embeddings, sim, threshold, minCount, hooks)
       <==> Eligible(clusters[i], embeddings[i], minCount, hooks)
            && Eligible(clusters[j], embeddings[j], minCount, hooks) && sim(i, j) >= threshold)
    ensures !Eligible(clusters[i], embeddings[i], minCount, hooks) ==>
      forall j :: (i, j) !in SimilarPairs(clusters, embeddings, sim, threshold, minCount, hooks)
  {
    hide Eligible;
  }

  /** The pair loops: afterwards two indices share a root exactly when a chain of similar pairs
      joins them, and nothing was linked if the flag is down. */
  method LinkSimilar(parent: array<nat>, clusters: seq<ClusterData>, embeddings: seq<seq<real>>,
                     sim: (nat, nat) -> real, threshold: real, minCount: int, hooks: Hooks)
    returns (mergedAny: bool, ghost f: Forest)
    requires |embeddings| == |clusters| == parent.Length
    requires forall x :: 0 <= x < parent.Length ==> parent[x] == x
    modifies parent
    ensures Represents(parent[..], f)
    ensures Classifies(f.rep, SimilarPairs(clusters, embeddings, sim, threshold, minCount, hooks))
    ensures !mergedAny ==> Untouched(f)
  {
    var n := |clusters|;
    ghost var edges := SimilarPairs(clusters, embeddings, sim, threshold, minCount, hooks);
    f := Forest(Range(n), seq(n, _ => 0), 0);
    mergedAny := false;
    EmptyClassifies(f.rep);
    EdgesOrdered(clusters, embeddings, sim, threshold, minCount, hooks);
    RowVisited(edges, 0, n);
    assert Represents(parent[..], f);
    hide *;
    for i := 0 to n
      invariant Represents(parent[..], f) && Classifies(f.rep, Visited(edges, i, 0))
      invariant !mergedAny ==> Untouched(f)
    {
      RowVisited(edges, i, n);
      EdgesOfRow(clusters, embeddings, sim, threshold, minCount, hooks, i);
      if Eligible(clusters[i], embeddings[i], minCount, hooks) {
        for j := i + 1 to n
          invariant Represents(parent[..], f) && Classifies(f.rep, Visited(edges, i, j))
          invariant !mergedAny ==> Untouched(f)
        {
          var linked;
          linked, f := VisitPair(parent, f, edges, i, j,
            Eligible(clusters[j], embeddings[j], minCount, hooks) && sim(i, j) >= threshold);
          mergedAny := mergedAny || linked;
        }
      }
    }
    RowVisited(edges, n, n);
  }

  ghost predicate Ascending(s: seq<nat>) { forall i, j :: 0 <= i < j < |s| ==> s[i] < s[j] }

  /** `comps` lists every index below `n` exactly once, in non-empty ascending parts ordered by
      their smallest member. */
  ghost predicate Lists(comps: seq<seq<nat>>, n: nat) {
    && (forall k :: 0 <= k < |comps| ==> comps[k] != [] && Ascending(comps[k]))
    && (forall k, l :: 0 <= k < l < |comps| ==> comps[k][0] < comps[l][0])
    && multiset(Flatten(comps)) == multiset(Range(n))
    && (forall k, i :: 0 <= k < |comps| && i in comps[k] ==> i < n)
  }

  /** Each part is one class of equal roots. */
  ghost predicate Partition(comps: seq<seq<nat>>, root: seq<nat>) {
    && Lists(comps, |root|)
    && (forall k, l, i, j :: 0 <= k < |comps| && 0 <= l < |comps| && i in comps[k] && j in comps[l] ==>
          (k == l <==> root[i] == root[j]))
  }

  /** Each part is one connected component: two indices lie in the same part exactly when a chain
      of edges joins them. */
  ghost predicate AreComponents(comps: seq<seq<nat>>, n: nat, edges: set<(nat, nat)>) {
    && Lists(comps, n)
    && (forall k, l, i, j :: 0 <= k < |comps| && 0 <= l < |comps| && i in comps[k] && j in comps[l] ==>
          (k == l <==> Chained(edges, i, j)))
  }

  lemma ClassesAreComponents(comps: seq<seq<nat>>, root: seq<nat>, edges: set<(nat, nat)>)
    requires Partition(comps, root) && Classifies(root, edges)
    ensures AreComponents(comps, |root|, edges)
  {
  }

  function Smallest(s: seq<nat>): nat {
    if s == [] then 0 else if |s| == 1 then s[0]
    else var r := Smallest(s[1..]); if s[0] <= r then s[0] else r
  }

  lemma {:induction false} SmallestOfAscending(s: seq<nat>)
    requires s != [] && Ascending(s)
    ensures Smallest(s) == s[0]
  {
    if |s| > 1 {
      SmallestOfAscending(s[1..]);
    }
  }

  function BySmallest(m: map<nat, seq<nat>>): (nat, nat) -> bool {
    (a: nat, b: nat) => a in m && b in m ==> Smallest(m[a]) <= Smallest(m[b])
  }

  ghost predicate IsClass(part: seq<nat>, r: nat, root: seq<nat>, n: nat)
    requires n <= |root|
  {
    part != [] && Ascending(part) && forall i :: i in part ==> i < n && root[i] == r
  }

  /** State of the component dictionary after the indices below `n`: `order` is its insertion
      order, and the entry of `r` holds indices below `n` whose root is `r`. */
  ghost predicate Shape(m: map<nat, seq<nat>>, order: seq<nat>, root: seq<nat>, n: nat) {
    && n <= |root| && NoRepeats(order)
    && (forall r :: r in order <==> r in m)
    && (forall r :: r in m ==> IsClass(m[r], r, root, n))
    && (forall k, l :: 0 <= k < l < |order| ==> m[order[k]][0] < m[order[l]][0])
  }

  ghost predicate Grouped(m: map<nat, seq<nat>>, order: seq<nat>, root: seq<nat>, n: nat) {
    Shape(m, order, root, n) && multiset(Flatten(Entries(m, order))) == multiset(Range(n))
  }

  ghost function Entries(m: map<nat, seq<nat>>, order: seq<nat>): (es: seq<seq<nat>>)
    requires forall r :: r in order ==> r in m
    ensures |es| == |order| && forall k :: 0 <= k < |order| ==> es[k] == m[order[k]]
  {
    seq(|order|, k requires 0 <= k < |order| => m[order[k]])
  }

  lemma GroupedNone(root: seq<nat>)
    ensures Grouped(map[], [], root, 0)
  {
  }

  lemma AppendCovers(m: map<nat, seq<nat>>, order: seq<nat>, k: nat, n: nat)
    requires (forall r :: r in order ==> r in m) && NoRepeats(order) && k < |order|
    requires multiset(Flatten(Entries(m, order))) == multiset(Range(n))
    ensures var m' := m[order[k] := m[order[k]] + [n]]; multiset(Flatten(Entries(m', order))) == multiset(Range(n + 1))
  {
    hide Flatten, Range;
    var es, m' := Entries(m, order), m[order[k] := m[order[k]] + [n]];
    assert Entries(m', order) == es[k := es[k] + [n]];
    FlattenAppendAt(es, k, n);
    assert Range(n + 1) == Range(n) + [n];
  }

  lemma AppendShape(m: map<nat, seq<nat>>, order: seq<nat>, root: seq<nat>, n: nat)
    requires Shape(m, order, root, n) && n < |root| && root[n] in m
    ensures Shape(m[root[n] := m[root[n]] + [n]], order, root, n + 1)
  {
    var m' := m[root[n] := m[root[n]] + [n]];
    forall q | q in m' ensures IsClass(m'[q], q, root, n + 1) {
      assert IsClass(m[q], q, root, n);
      assert forall i :: 0 <= i < |m[q]| ==> m[q][i] in m[q];
    }
    assert forall q :: q in m ==> m'[q][0] == m[q][0];
  }

  lemma AppendToEntry(m: map<nat, seq<nat>>, order: seq<nat>, root: seq<nat>, n: nat)
    requires Grouped(m, order, root, n) && n < |root| && root[n] in m
    ensures Grouped(m[root[n] := m[root[n]] + [n]], order, root, n + 1)
  {
    AppendShape(m, order, root, n);
    var k :| 0 <= k < |order| && order[k] == root[n];
    AppendCovers(m, order, k, n);
  }

  lemma NewShape(m: map<nat, seq<nat>>, order: seq<nat>, root: seq<nat>, n: nat)
    requires Shape(m, order, root, n) && n < |root| && root[n] !in m
    ensures Shape(m[root[n] := [n]], order + [root[n]], root, n + 1)
  {
    var r := root[n];
    var m', order' := m[r := [n]], order + [r];
    forall q | q in m' ensures IsClass(m'[q], q, root, n + 1) {
      if q != r { assert IsClass(m[q], q, root, n); }
    }
    forall k | 0 <= k < |order| ensures m'[order'[k]] == m[order[k]] && m[order[k]][0] < n {
      assert order[k] in m && IsClass(m[order[k]], order[k], root, n);
      assert m[order[k]][0] in m[order[k]];
    }
  }

  lemma FlattenOne(n: nat)
    ensures Flatten([[n]]) == [n]
  {
    assert [[n]][1..] == [];
  }

  lemma NewCovers(m: map<nat, seq<nat>>, order: seq<nat>, r: nat, n: nat)
    requires (forall q :: q in order ==>
      q in m) && r !in m && multiset(Flatten(Entries(m, order))) == multiset(Range(n))
    ensures multiset(Flatten(Entries(m[r := [n]], order + [r]))) == multiset(Range(n + 1))
  {
    hide Flatten, Range;
    var es, one: seq<seq<nat>> := Entries(m, order), [[n]];
    assert Entries(m[r := [n]], order + [r]) == es + one;
    FlattenConcat(es, one);
    FlattenOne(n);
    assert Range(n + 1) == Range(n) + [n];
  }

  lemma NewEntry(m: map<nat, seq<nat>>, order: seq<nat>, root: seq<nat>, n: nat)
    requires Grouped(m, order, root, n) && n < |root| && root[n] !in m
    ensures Grouped(m[root[n] := [n]], order + [root[n]], root, n + 1)
  {
    assert root[n] !in order;
    NewShape(m, order, root, n);
    hide Shape;
    NewCovers(m, order, root[n], n);
  }

  lemma SortKeepsOrder(m: map<nat, seq<nat>>, order: seq<nat>, root: seq<nat>, n: nat)
    requires Shape(m, order, root, n)
    ensures Sort(order, BySmallest(m)) == order
  {
    forall k | 0 <= k < |order| ensures Smallest(m[order[k]]) == m[order[k]][0] {
      assert order[k] in m && IsClass(m[order[k]], order[k], root, n);
      SmallestOfAscending(m[order[k]]);
    }
    SortFixed(order, BySmallest(m));
  }

  lemma GroupedIsPartition(m: map<nat, seq<nat>>, order: seq<nat>, root: seq<nat>)
    requires Grouped(m, order, root, |root|)
    ensures Partition(Entries(m, order), root)
  {
    var es := Entries(m, order);
    forall k | 0 <= k < |es| ensures IsClass(es[k], order[k], root, |root|) {
      assert order[k] in m;
    }
  }

  lemma GroupedKeys(m: map<nat, seq<nat>>, order: seq<nat>, root: seq<nat>, n: nat)
    requires Grouped(m, order, root, n)
    ensures Shape(m, order, root, n) && forall r :: r in order ==> r in m
  {
  }

  /** `components[find(i)].append(i)` for every index, keeping the dictionary's insertion order. */
  method GroupByRoot(parent: array<nat>, ghost f: Forest) returns (m: map<nat, seq<nat>>, order: seq<nat>)
    requires Represents(parent[..], f)
    modifies parent
    ensures Grouped(m, order, f.rep, |f.rep|)
  {
    assert |f.rep| == parent.Length;
    hide *;
    m, order := map[], [];
    GroupedNone(f.rep);
    for i := 0 to parent.Length
      invariant Represents(parent[..], f)
      invariant Grouped(m, order, f.rep, i)
    {
      var r := Find(parent, f, i);
      if r in m {
        AppendToEntry(m, order, f.rep, i);
        m := m[r := m[r] + [i]];
      } else {
        NewEntry(m, order, f.rep, i);
        m, order := m[r := [i]], order + [r];
      }
    }
  }

  method Components(parent: array<nat>, ghost f: Forest) returns (comps: seq<seq<nat>>)
    requires Represents(parent[..], f)
    modifies parent
    ensures Partition(comps, f.rep)
  {
    hide *;
    var m, order := GroupByRoot(parent, f);
    GroupedKeys(m, order, f.rep, |f.rep|);
    SortKeepsOrder(m, order, f.rep, |f.rep|);
    GroupedIsPartition(m, order, f.rep);
    order := Sort(order, BySmallest(m));
    comps := seq(|order|, k requires 0 <= k < |order| => if order[k] in m then m[order[k]] else []);
    assert comps == Entries(m, order);
  }

  // ---- The whole pass ----

  datatype MergeResult = Merged(clusters: seq<ClusterData>) | ValueError

  predicate InBounds(comp: seq<nat>, n: nat) { forall k :: 0 <= k < |comp| ==> comp[k] < n }

  function Pick(clusters: seq<ClusterData>, comp: seq<nat>): (ms: seq<ClusterData>)
    requires InBounds(comp, |clusters|)
    ensures |ms| == |comp| && forall k :: 0 <= k < |comp| ==> ms[k] == clusters[comp[k]]
  {
    seq(|comp|, k requires 0 <= k < |comp| => clusters[comp[k]])
  }

  /** What a component becomes: a lone cluster is kept as it is. */
  function Collapsed(ms: seq<ClusterData>, hooks: Hooks): ClusterData
    requires ms != []
  {
    if |ms| == 1 then ms[0] else MergedCluster(ms, hooks)
  }

  ghost predicate Members(comps: seq<seq<nat>>, n: nat) {
    forall k :: 0 <= k < |comps| ==> comps[k] != [] && InBounds(comps[k], n)
  }

  /** The output has one cluster per component, in component order. */
  ghost predicate CollapsesTo(clusters: seq<ClusterData>, comps: seq<seq<nat>>, hooks: Hooks, out: seq<ClusterData>) {
    && Members(comps, |clusters|) && |out| == |comps|
    && forall k :: 0 <= k < |comps| ==> out[k] == Collapsed(Pick(clusters, comps[k]), hooks)
  }

  predicate Ragged(embeddings: seq<seq<real>>) {
    embeddings != [] && (embeddings[0] == [] || exists e :: e in embeddings && |e| != |embeddings[0]|)
  }

  /** All embeddings have the same positive number of components. */
  ghost predicate OneDimension(embeddings: seq<seq<real>>) {
    && (forall i :: 0 <= i < |embeddings| ==> embeddings[i] != [])
    && (forall i, j :: 0 <= i < j < |embeddings| ==> |embeddings[i]| == |embeddings[j]|)
  }

  lemma RaggedIff(embeddings: seq<seq<real>>)
    ensures Ragged(embeddings) <==> !OneDimension(embeddings)
  {
    if !Ragged(embeddings) {
      forall i | 0 <= i < |embeddings| ensures |embeddings[i]| == |embeddings[0]| {
        assert embeddings[i] in embeddings;
      }
    } else if e :| e in embeddings && |e| != |embeddings[0]| {
      var i :| 0 <= i < |embeddings| && embeddings[i] == e;
      assert i > 0;
    }
  }

  ghost function Singletons(n: nat): (comps: seq<seq<nat>>)
    ensures |comps| == n && forall i :: 0 <= i < n ==> comps[i] == [i]
  {
    seq(n, i => [i])
  }

  lemma {:induction false} FlattenSingletons(n: nat)
    ensures Flatten(Singletons(n)) == Range(n)
  {
    if n > 0 {
      var last: seq<seq<nat>> := [[n - 1]];
      FlattenSingletons(n - 1);
      assert Singletons(n) == Singletons(n - 1) + last;
      FlattenConcat(Singletons(n - 1), last);
      assert Flatten(last) == [n - 1] && Range(n) == Range(n - 1) + [n - 1];
    }
  }

  lemma SingletonsPartition(root: seq<nat>)
    requires forall x :: 0 <= x < |root| ==> root[x] == x
    ensures Partition(Singletons(|root|), root)
  {
    hide Flatten;
    FlattenSingletons(|root|);
  }

  lemma SingletonsCollapse(clusters: seq<ClusterData>, hooks: Hooks)
    ensures CollapsesTo(clusters, Singletons(|clusters|), hooks, clusters)
  {
  }

  lemma NoEdges(n: nat)
    ensures AreComponents(Singletons(n), n, {})
  {
    EmptyClassifies(Range(n));
    SingletonsPartition(Range(n));
    ClassesAreComponents(Singletons(n), Range(n), {});
  }

  lemma ListsInBounds(comps: seq<seq<nat>>, n: nat)
    requires Lists(comps, n)
    ensures Members(comps, n)
  {
    forall k, i | 0 <= k < |comps| && 0 <= i < |comps[k]| ensures comps[k][i] < n {
      assert comps[k][i] in comps[k];
    }
  }

  method CollapseParts(clusters: seq<ClusterData>, parts: seq<seq<nat>>, hooks: Hooks) returns (out: seq<ClusterData>)
    requires Members(parts, |clusters|)
    ensures CollapsesTo(clusters, parts, hooks, out)
  {
    hide MergedCluster;
    out := [];
    for k := 0 to |parts|
      invariant |out| == k
      invariant forall l :: 0 <= l < k ==> out[l] == Collapsed(Pick(clusters, parts[l]), hooks)
    {
      var ms := Pick(clusters, parts[k]);
      if |ms| == 1 {
        out := out + [ms[0]];
      } else {
        var c := MergeComponent(ms, hooks);
        out := out + [c];
      }
    }
  }

  method MergeSemanticClusters(clusters: seq<ClusterData>, embeddings: seq<seq<real>>, sim: (nat, nat) -> real,
                               threshold: real, minCount: int, hooks: Hooks)
    returns (r: MergeResult, ghost comps: seq<seq<nat>>)
    ensures r.ValueError? <==> |clusters| >= 2 && !(|embeddings| == |clusters| && OneDimension(embeddings))
    ensures r.Merged? ==> CollapsesTo(clusters, comps, hooks, r.clusters) && Lists(comps, |clusters|)
    ensures |clusters| < 2 ==> r == Merged(clusters)
    ensures r.Merged? && |embeddings| == |clusters| ==>
      AreComponents(comps, |clusters|, SimilarPairs(clusters, embeddings, sim, threshold, minCount, hooks))
  {
    comps := Singletons(|clusters|);
    SingletonsCollapse(clusters, hooks);
    RaggedIff(embeddings);
    hide OneDimension;
    if |clusters| < 2 {
      NoEdges(|clusters|);
      assert |embeddings| == |clusters| ==> SimilarPairs(clusters, embeddings, sim, threshold, minCount, hooks) == {};
      return Merged(clusters), comps;
    }
    if |embeddings| != |clusters| || Ragged(embeddings) {
      return ValueError, comps;
    }
    ghost var edges := SimilarPairs(clusters, embeddings, sim, threshold, minCount, hooks);
    var parent := new nat[|clusters|](i => i);
    var mergedAny; ghost var f;
    mergedAny, f := LinkSimilar(parent, clusters, embeddings, sim, threshold, minCount, hooks);
    if !mergedAny {
      SingletonsPartition(f.rep);
      ClassesAreComponents(comps, f.rep, edges);
      return Merged(clusters), comps;
    }
    var parts := Components(parent, f);
    comps := parts;
    ClassesAreComponents(parts, f.rep, edges);
    ListsInBounds(parts, |clusters|);
    var out := CollapseParts(clusters, parts, hooks);
    r := Merged(out);
  }

  // ---- Who is merged ----

  /** Two clusters that belong together: each is frequent enough, has a message that is not blank and an
      embedding that is not all zero, and their embeddings are similar enough. */
  ghost predicate Belong(clusters: seq<ClusterData>, embeddings: seq<seq<real>>, sim: (nat, nat) -> real,
                         threshold: real, minCount: int, hooks: Hooks, i: nat, j: nat)
    requires |embeddings| == |clusters| && i < |clusters| && j < |clusters|
  {
    && clusters[i].count >= minCount && clusters[j].count >= minCount
    && !hooks.blank(clusters[i].message) && !hooks.blank(clusters[j].message)
    && (exists a :: 0 <= a < |embeddings[i]| && embeddings[i][a] != 0.0)
    && (exists b :: 0 <= b < |embeddings[j]| && embeddings[j][b] != 0.0)
    && (if i < j then sim(i, j) else sim(j, i)) >= threshold
  }

  lemma EligibleIff(c: ClusterData, embedding: seq<real>, minCount: int, hooks: Hooks)
    ensures Eligible(c, embedding, minCount, hooks) <==>
      c.count >= minCount && !hooks.blank(c.message)
      && exists a :: 0 <= a < |embedding| && embedding[a] != 0.0
  {
    if a :| 0 <= a < |embedding| && embedding[a] != 0.0 {
      assert embedding[a] in embedding;
    }
  }

  lemma BelongIff(clusters: seq<ClusterData>, embeddings: seq<seq<real>>, sim: (nat, nat) -> real,
                  threshold: real, minCount: int, hooks: Hooks, i: nat, j: nat)
    requires |embeddings| == |clusters| && i < |clusters| && j < |clusters|
    ensures i != j && Belong(clusters, embeddings, sim, threshold, minCount, hooks, i, j)
      <==> Adjacent(SimilarPairs(clusters, embeddings, sim, threshold, minCount, hooks), i, j)
  {
    EligibleIff(clusters[i], embeddings[i], minCount, hooks);
    EligibleIff(clusters[j], embeddings[j], minCount, hooks);
    hide Eligible;
  }

  /** A chain between two different indices leaves the first one by an edge. */
  lemma ChainLeaves(edges: set<(nat, nat)>, i: nat, j: nat) returns (m: nat)
    requires Chained(edges, i, j) && i != j
    ensures Adjacent(edges, i, m)
  {
    var p :| Connects(edges, p, i, j);
    assert Adjacent(edges, p[0], p[0 + 1]);
    m := p[1];
  }

  lemma {:induction false} FlattenHas(parts: seq<seq<nat>>, i: nat) returns (k: nat)
    requires i in Flatten(parts)
    ensures k < |parts| && i in parts[k]
  {
    if i in parts[0] {
      k := 0;
    } else {
      k := FlattenHas(parts[1..], i);
      k := k + 1;
    }
  }

  lemma PartOf(comps: seq<seq<nat>>, n: nat, i: nat) returns (k: nat)
    requires Lists(comps, n) && i < n
    ensures k < |comps| && i in comps[k]
  {
    assert Range(n)[i] == i;
    assert i in multiset(Range(n));
    k := FlattenHas(comps, i);
  }

  lemma SomeOther(part: seq<nat>, i: nat) returns (j: nat)
    requires |part| > 1 && Ascending(part) && i in part
    ensures j in part && j != i
  {
    j := if part[0] != i then part[0] else part[1];
  }

  lemma NeighbourChained(edges: set<(nat, nat)>, i: nat, j: nat)
    requires Adjacent(edges, i, j)
    ensures Chained(edges, i, j)
  {
    assert Connects(edges, [i, j], i, j);
  }

  /** A cluster ends up merged exactly when it belongs together with another one. */
  lemma MergedIffSimilar(clusters: seq<ClusterData>, embeddings: seq<seq<real>>, sim: (nat, nat) -> real,
                         threshold: real, minCount: int, hooks: Hooks, comps: seq<seq<nat>>, k: nat, i: nat)
    requires |embeddings| == |clusters| && k < |comps| && i < |clusters| && i in comps[k]
    requires AreComponents(comps, |clusters|, SimilarPairs(clusters, embeddings, sim, threshold, minCount, hooks))
    ensures |comps[k]| > 1 <==> exists j: nat ::
      j < |clusters| && j != i && Belong(clusters, embeddings, sim, threshold, minCount, hooks, i, j)
  {
    var edges := SimilarPairs(clusters, embeddings, sim, threshold, minCount, hooks);
    assert InRange(edges, |clusters|);
    hide SimilarPairs, Belong, Adjacent;
    if |comps[k]| > 1 {
      var other := SomeOther(comps[k], i);
      var j := ChainLeaves(edges, i, other);
      NeighbourInRange(edges, |clusters|, i, j);
      BelongIff(clusters, embeddings, sim, threshold, minCount, hooks, i, j);
    }
    if j: nat :| j < |clusters| && j != i && Belong(clusters, embeddings, sim, threshold, minCount, hooks, i, j) {
      BelongIff(clusters, embeddings, sim, threshold, minCount, hooks, i, j);
      NeighbourChained(edges, i, j);
      var l := PartOf(comps, |clusters|, j);
      assert k == l;
      assert |comps[k]| > 1 by { TwoMembers(comps[k], i, j); }
    }
  }

  lemma NeighbourInRange(edges: set<(nat, nat)>, n: nat, i: nat, j: nat)
    requires InRange(edges, n) && Adjacent(edges, i, j)
    ensures j < n
  {
  }

  lemma TwoMembers(part: seq<nat>, i: nat, j: nat)
    requires i in part && j in part && i != j
    ensures |part| > 1
  {
  }

  // ---- Conservation over the whole list ----

  function Indexed(clusters: seq<ClusterData>, f: ClusterData -> nat): nat -> nat {
    (i: nat) => if i < |clusters| then f(clusters[i]) else 0
  }

  function PartTotal(f: nat -> nat): seq<nat> -> nat { (p: seq<nat>) => Total(p, f) }

  lemma TotalOverParts(comps: seq<seq<nat>>, f: nat -> nat)
    ensures Total(Flatten(comps), f) == Total(comps, PartTotal(f))
  {
    TotalOfParts(comps, f);
    TotalPointwise(comps, (s: seq<nat>) => Total(s, f), comps, PartTotal(f));
  }

  /** A measure that every component conserves is conserved by the whole list. */
  lemma MeasureConserved(clusters: seq<ClusterData>, comps: seq<seq<nat>>, hooks: Hooks,
                         out: seq<ClusterData>, f: ClusterData -> nat)
    requires CollapsesTo(clusters, comps, hooks, out) && Lists(comps, |clusters|)
    requires forall k :: 0 <= k < |comps| ==> f(out[k]) == Total(Pick(clusters, comps[k]), f)
    ensures Total(out, f) == Total(clusters, f)
  {
    var g := Indexed(clusters, f);
    forall k | 0 <= k < |comps| ensures f(out[k]) == PartTotal(g)(comps[k]) {
      TotalPointwise(Pick(clusters, comps[k]), f, comps[k], g);
    }
    TotalPointwise(out, f, comps, PartTotal(g));
    TotalOverParts(comps, g);
    TotalPermutation(Flatten(comps), Range(|clusters|), g);
    TotalPointwise(Range(|clusters|), g, clusters, f);
  }

  /** Merging loses and invents nothing: total count, baseline count, every per-service, per-level
      and per-service-error count, and the multiplicity of every log id are those of the input. */
  lemma MergeConserves(clusters: seq<ClusterData>, comps: seq<seq<nat>>, hooks: Hooks, out: seq<ClusterData>,
                       key: string, id: int)
    requires CollapsesTo(clusters, comps, hooks, out) && Lists(comps, |clusters|)
    ensures Total(out, Count) == Total(clusters, Count)
    ensures Total(out, Baseline) == Total(clusters, Baseline)
    ensures Total(out, ServiceCount(key)) == Total(clusters, ServiceCount(key))
    ensures Total(out, LevelCount(key)) == Total(clusters, LevelCount(key))
    ensures Total(out, ErrorCount(key)) == Total(clusters, ErrorCount(key))
    ensures Total(out, IdCount(id)) == Total(clusters, IdCount(id))
  {
    forall k | 0 <= k < |comps|
      ensures var ms := Pick(clusters, comps[k]);
        && Count(out[k]) == Total(ms, Count) && Baseline(out[k]) == Total(ms, Baseline)
        && ServiceCount(key)(out[k]) == Total(ms, ServiceCount(key))
        && LevelCount(key)(out[k]) == Total(ms, LevelCount(key))
        && ErrorCount(key)(out[k]) == Total(ms, ErrorCount(key))
        && IdCount(id)(out[k]) == Total(ms, IdCount(id))
    {
      var ms := Pick(clusters, comps[k]);
      if |ms| == 1 {
        assert ms == [out[k]];
      } else {
        MergedClusterConserves(ms, hooks, key, id);
      }
    }
    MeasureConserved(clusters, comps, hooks, out, Count);
    MeasureConserved(clusters, comps, hooks, out, Baseline);
    MeasureConserved(clusters, comps, hooks, out, ServiceCount(key));
    MeasureConserved(clusters, comps, hooks, out, LevelCount(key));
    MeasureConserved(clusters, comps, hooks, out, ErrorCount(key));
    MeasureConserved(clusters, comps, hooks, out, IdCount(id));
  }

  lemma {:induction false} UnmergedFingerprints(ms: seq<ClusterData>, fp: string)
    requires forall m :: m in ms ==> m.mergedFingerprints == []
    ensures multiset(Map(ms, Fingerprint))[fp] == Total(ms, FingerprintCount(fp))
  {
    if ms != [] {
      assert Map(ms, Fingerprint) == [ms[0].fingerprint] + Map(ms[1..], Fingerprint);
      UnmergedFingerprints(ms[1..], fp);
    }
  }

  ghost predicate FreshFingerprints(cs: seq<ClusterData>) {
    && (forall c :: c in cs ==> c.mergedFingerprints == [])
    && DistinctFingerprints(cs)
  }

  lemma MergedKeepsFingerprints(ms: seq<ClusterData>, hooks: Hooks, fp: string)
    requires ms != [] && FreshFingerprints(ms)
    ensures FingerprintCount(fp)(MergedCluster(ms, hooks)) == Total(ms, FingerprintCount(fp))
  {
    var c, fps := MergedCluster(ms, hooks), Map(ms, Fingerprint);
    FingerprintsRecovered(ms, hooks);
    assert multiset([c.fingerprint] + c.mergedFingerprints) == multiset(fps);
    UnmergedFingerprints(ms, fp);
  }

  lemma ComponentKeepsFingerprints(ms: seq<ClusterData>, hooks: Hooks, fp: string)
    requires ms != [] && FreshFingerprints(ms)
    ensures FingerprintCount(fp)(Collapsed(ms, hooks)) == Total(ms, FingerprintCount(fp))
  {
    hide Total, MergedCluster, FreshFingerprints;
    if |ms| == 1 {
      LoneTotal(ms, FingerprintCount(fp));
    } else {
      MergedKeepsFingerprints(ms, hooks, fp);
    }
  }

  lemma LoneTotal(ms: seq<ClusterData>, f: ClusterData -> nat)
    requires |ms| == 1
    ensures Total(ms, f) == f(ms[0])
  {
    assert Total(ms[1..], f) == 0;
  }

  lemma PickFresh(clusters: seq<ClusterData>, comp: seq<nat>)
    requires FreshFingerprints(clusters) && InBounds(comp, |clusters|) && Ascending(comp)
    ensures FreshFingerprints(Pick(clusters, comp))
  {
    var ms := Pick(clusters, comp);
    forall i, j | 0 <= i < j < |ms| ensures ms[i].fingerprint != ms[j].fingerprint {
      assert comp[i] < comp[j];
    }
  }

  /** With distinct, not yet merged fingerprints, the fingerprints the output carries (its own and
      those merged into it) are exactly the input fingerprints. */
  lemma MergeKeepsFingerprints(clusters: seq<ClusterData>, comps: seq<seq<nat>>, hooks: Hooks,
                               out: seq<ClusterData>, fp: string)
    requires CollapsesTo(clusters, comps, hooks, out) && Lists(comps, |clusters|)
    requires FreshFingerprints(clusters)
    ensures Total(out, FingerprintCount(fp)) == Total(clusters, FingerprintCount(fp))
  {
    forall k | 0 <= k < |comps|
      ensures FingerprintCount(fp)(out[k]) == Total(Pick(clusters, comps[k]), FingerprintCount(fp))
    {
      PickFresh(clusters, comps[k]);
      ComponentKeepsFingerprints(Pick(clusters, comps[k]), hooks, fp);
    }
    MeasureConserved(clusters, comps, hooks, out, FingerprintCount(fp));
  }
}
