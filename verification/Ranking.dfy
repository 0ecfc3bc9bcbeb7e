/** Ranking clusters by importance and capping the list without losing the strongest error group. */
module Ranking {
  import opened Sequences
  import opened Clusters

  predicate ByImportance(a: ClusterData, b: ClusterData) { a.importance >= b.importance }

  /** The largest value of a dictionary, 0 when it is empty. */
  ghost function Peak(m: Counts): (p: nat)
    ensures forall k :: k in m ==> m[k] <= p
    ensures p == 0 || exists k :: k in m && m[k] == p
    decreases |m|
  {
    if m == map[] then 0 else
      var k :| k in m;
      var rest := m - {k};
      assert forall q :: q in m && q != k ==> q in rest && rest[q] == m[q];
      var p := Peak(rest);
      if p <= m[k] then m[k] else assert exists q :: q in m && m[q] == p; p
  }

  ghost function PeakError(c: ClusterData): nat { Peak(c.errorServices) }

  /** The largest single-service error count in a list. */
  ghost function PeakOver(cs: seq<ClusterData>): nat {
    if cs == [] then 0 else MaxNat(PeakError(cs[0]), PeakOver(cs[1..]))
  }

  method PeakOf(m: Counts) returns (p: nat)
    ensures p == Peak(m)
  {
    p := 0;
    var todo := m.Keys;
    while todo != {}
      invariant todo <= m.Keys
      invariant forall k :: k in m.Keys - todo ==> m[k] <= p
      invariant p == 0 || exists k :: k in m && m[k] == p
    {
      var k :| k in todo;
      if m[k] > p { p := m[k]; }
      todo := todo - {k};
    }
  }

  /** `key=(max error count, count)`. */
  predicate Outranks(pa: nat, a: ClusterData, pb: nat, b: ClusterData) {
    pa > pb || (pa == pb && a.count > b.count)
  }

  /** The first cluster with the largest single-service error count and, among those, the largest count. */
  ghost predicate Strongest(cs: seq<ClusterData>, k: nat) {
    && k < |cs|
    && (forall i :: 0 <= i < |cs| ==>
          PeakError(cs[i]) < PeakError(cs[k]) || (PeakError(cs[i]) == PeakError(cs[k]) && cs[i].count <= cs[k].count))
    && (forall i :: 0 <= i < k ==>
          PeakError(cs[i]) < PeakError(cs[k]) || (PeakError(cs[i]) == PeakError(cs[k]) && cs[i].count < cs[k].count))
  }

  method Candidate(cs: seq<ClusterData>) returns (k: nat, peak: nat)
    requires cs != []
    ensures Strongest(cs, k) && peak == PeakError(cs[k])
  {
    hide PeakError;
    k := 0;
    peak := PeakOf(cs[0].errorServices);
    PeakErrorIs(cs[0]);
    for n := 1 to |cs|
      invariant k < n && peak == PeakError(cs[k])
      invariant forall i :: 0 <= i < n ==> !Outranks(PeakError(cs[i]), cs[i], peak, cs[k])
      invariant forall i :: 0 <= i < k ==> Outranks(peak, cs[k], PeakError(cs[i]), cs[i])
    {
      var p := PeakOf(cs[n].errorServices);
      PeakErrorIs(cs[n]);
      if Outranks(p, cs[n], peak, cs[k]) {
        k, peak := n, p;
      }
    }
  }

  lemma PeakErrorIs(c: ClusterData)
    ensures PeakError(c) == Peak(c.errorServices)
  {
  }

  lemma {:induction false} PeakOverIs(cs: seq<ClusterData>, p: nat)
    requires forall i :: 0 <= i < |cs| ==> PeakError(cs[i]) <= p
    requires p == 0 || exists i :: 0 <= i < |cs| && PeakError(cs[i]) == p
    ensures PeakOver(cs) == p
  {
    if cs != [] {
      var rest := cs[1..];
      assert forall i :: 0 <= i < |rest| ==> rest[i] == cs[i + 1];
      if p == 0 || exists i :: 0 <= i < |rest| && PeakError(rest[i]) == p {
        PeakOverIs(rest, p);
      } else {
        assert PeakError(cs[0]) == p;
        PeakOverBound(rest, p);
      }
    }
  }

  lemma {:induction false} PeakOverBound(cs: seq<ClusterData>, p: nat)
    requires forall i :: 0 <= i < |cs| ==> PeakError(cs[i]) <= p
    ensures PeakOver(cs) <= p
  {
    if cs != [] {
      PeakOverBound(cs[1..], p);
    }
  }

  lemma {:induction false} PeakOverAttained(cs: seq<ClusterData>)
    ensures forall i :: 0 <= i < |cs| ==> PeakError(cs[i]) <= PeakOver(cs)
    ensures PeakOver(cs) == 0 || exists i :: 0 <= i < |cs| && PeakError(cs[i]) == PeakOver(cs)
  {
    if cs != [] {
      var rest := cs[1..];
      PeakOverAttained(rest);
      assert forall i :: 1 <= i < |cs| ==> cs[i] == rest[i - 1];
      if i :| 0 <= i < |rest| && PeakError(rest[i]) == PeakOver(rest) {
        assert cs[i + 1] == rest[i];
      }
    }
  }

  lemma PeakOverPermutation(cs: seq<ClusterData>, ds: seq<ClusterData>)
    requires multiset(cs) == multiset(ds)
    ensures PeakOver(cs) == PeakOver(ds)
  {
    PeakOverAttained(cs);
    hide PeakOver, PeakError;
    forall i | 0 <= i < |ds| ensures PeakError(ds[i]) <= PeakOver(cs) {
      assert ds[i] in multiset(cs);
    }
    if i :| 0 <= i < |cs| && PeakError(cs[i]) == PeakOver(cs) {
      assert cs[i] in multiset(ds);
      var j :| 0 <= j < |ds| && ds[j] == cs[i];
    }
    PeakOverIs(ds, PeakOver(cs));
  }

  /** The first `n`, and behind them the strongest error group `k` if it was cut off and has errors at all. */
  ghost predicate CapsWith(top: seq<ClusterData>, ranked: seq<ClusterData>, n: nat, k: nat) {
    && n < |ranked| && Strongest(ranked, k)
    && top == ranked[..n] + if k >= n && PeakError(ranked[k]) > 0 then [ranked[k]] else []
  }

  ghost predicate IsCapped(top: seq<ClusterData>, ranked: seq<ClusterData>, n: nat) {
    if n == |ranked| then top == ranked else exists k: nat :: CapsWith(top, ranked, n, k)
  }

  method Cap(ranked: seq<ClusterData>, n: nat) returns (top: seq<ClusterData>)
    requires n <= |ranked|
    ensures IsCapped(top, ranked, n)
  {
    hide PeakOver, PeakError, Strongest;
    top := ranked[..n];
    if n < |ranked| {
      var k, peak := Candidate(ranked);
      StrongestIsThere(ranked, k);
      if peak > 0 && k >= n {
        top := top + [ranked[k]];
      }
      assert CapsWith(top, ranked, n, k);
    } else {
      assert top == ranked;
    }
  }

  lemma StrongestIsThere(cs: seq<ClusterData>, k: nat)
    requires Strongest(cs, k)
    ensures k < |cs|
  {
  }

  lemma StrongestPeak(cs: seq<ClusterData>, k: nat)
    requires Strongest(cs, k)
    ensures PeakOver(cs) == PeakError(cs[k])
  {
    hide PeakOver, PeakError;
    PeakOverIs(cs, PeakError(cs[k]));
  }

  lemma CappedStructure(top: seq<ClusterData>, ranked: seq<ClusterData>, n: nat, k: nat)
    requires CapsWith(top, ranked, n, k)
    ensures n <= |top| <= n + 1 && top[..n] == ranked[..n]
    ensures forall i :: n <= i < |top| ==> top[i] in ranked[n..]
    ensures forall i :: 0 <= i < |top| ==> PeakError(top[i]) <= PeakError(ranked[k])
    ensures PeakError(ranked[k]) > 0 ==> exists i :: 0 <= i < |top| && PeakError(top[i]) == PeakError(ranked[k])
  {
    hide PeakOver, PeakError;
    if k >= n {
      assert ranked[n..][k - n] == ranked[k];
      if PeakError(ranked[k]) > 0 { assert top[n] == ranked[k]; }
    } else {
      assert top[k] == ranked[k];
    }
  }

  /** Capping keeps the largest single-service error count of the whole list. */
  lemma CappedPeak(top: seq<ClusterData>, ranked: seq<ClusterData>, n: nat)
    requires n <= |ranked| && IsCapped(top, ranked, n)
    ensures n <= |top| <= n + 1 && top[..n] == ranked[..n] && PeakOver(top) == PeakOver(ranked)
    ensures forall i :: n <= i < |top| ==> top[i] in ranked[n..]
  {
    hide PeakOver, PeakError, Strongest;
    if n < |ranked| {
      var k: nat :| CapsWith(top, ranked, n, k);
      StrongestIsThere(ranked, k);
      StrongestPeak(ranked, k);
      CappedStructure(top, ranked, n, k);
      PeakOverIs(top, PeakError(ranked[k]));
    }
  }

  function OfImportance(v: real): ClusterData -> bool { (c: ClusterData) => c.importance == v }

  /** The list a reader is shown: the most important clusters, and behind them at most one more, so
      that the strongest error group of the whole list is always among them. */
  method RankAndCap(merged: seq<ClusterData>, maxClusters: nat) returns (ranked: seq<ClusterData>,
                    top: seq<ClusterData>)
    ensures multiset(ranked) == multiset(merged)
    ensures forall i, j :: 0 <= i < j < |ranked| ==> ranked[i].importance >= ranked[j].importance
    ensures forall v :: Filter(ranked, OfImportance(v)) == Filter(merged, OfImportance(v))
    ensures IsCapped(top, ranked, if maxClusters < |ranked| then maxClusters else |ranked|)
    ensures |top| <= maxClusters + 1
    ensures var n := if maxClusters < |ranked| then maxClusters else |ranked|;
      n <= |top| && top[..n] == ranked[..n] && forall i :: n <= i < |top| ==> top[i] in ranked[n..]
    ensures PeakOver(top) == PeakOver(merged)
  {
    ranked := Sort(merged, ByImportance);
    SortSorted(merged, ByImportance);
    hide Sort, PeakOver;
    forall i, j | 0 <= i < j < |ranked| ensures ranked[i].importance >= ranked[j].importance {
      assert ByImportance(ranked[i], ranked[j]);
    }
    forall v ensures Filter(ranked, OfImportance(v)) == Filter(merged, OfImportance(v)) {
      SortStable(merged, ByImportance, OfImportance(v));
    }
    PeakOverPermutation(ranked, merged);
    var n := if maxClusters < |ranked| then maxClusters else |ranked|;
    top := Cap(ranked, n);
    CappedPeak(top, ranked, n);
  }
}
