/** From groups to cluster records: both ways of grouping build the same clusters. */
module ClusterBuilder {
  import opened Sequences
  import opened Clusters
  import opened Clusterer

  predicate LeInt(a: int, b: int) { a <= b }

  function FirstOf(ts: seq<int>): Option<int> { var s := Sort(ts, LeInt); if s == [] then None else Some(s[0]) }
  function LastOf(ts: seq<int>): Option<int> { var s := Sort(ts, LeInt); if s == [] then None else Some(s[|s| - 1]) }

  function Times(ms: seq<string>, m: string): nat { multiset(ms)[m] }

  /** The first of the most frequent messages among the first `n` positions. */
  function Leader(ms: seq<string>, n: nat): string
    requires 1 <= n <= |ms|
  {
    if n == 1 then ms[0]
    else var l := Leader(ms, n - 1); if Times(ms, ms[n - 1]) > Times(ms, l) then ms[n - 1] else l
  }

  function Representative(ms: seq<string>): string { if ms == [] then "" else Leader(ms, |ms|) }

  function BuildClusterData(fp: string, g: Group, baseline: Counts, hooks: Hooks): ClusterData {
    var count := if g.count.Some? then g.count.value else |g.ids|;
    var baselineCount := Get(baseline, fp);
    var ratio := ChangeRatio(count, baselineCount);
    var message := Representative(g.messages);
    var trigger := hooks.triggerMessage(message);
    ClusterData(fp, message, count, g.services, g.levels, FirstOf(g.timestamps), LastOf(g.timestamps), baselineCount,
                ratio, hooks.score(count, g.levels, ratio, |g.services|, trigger), trigger, g.ids, [], g.errors)
  }

  // ---- Both paths build the same clusters ----

  lemma {:induction false} LeaderIsMostFrequent(ms: seq<string>, n: nat)
    requires 1 <= n <= |ms|
    ensures Leader(ms, n) in ms && forall i :: 0 <= i < n ==> Times(ms, ms[i]) <= Times(ms, Leader(ms, n))
  {
    if n > 1 {
      LeaderIsMostFrequent(ms, n - 1);
    }
  }

  lemma {:induction false} CollectedOccurs(rs: seq<Row>, m: string)
    ensures Times(Collect(rs, MessageKey), m) == Occurs(rs, MessageKey, m)
  {
    if rs != [] {
      CollectedOccurs(rs[..|rs| - 1], m);
    }
  }

  lemma ScanPicksMostCommon(rs: seq<Row>)
    ensures var ms := Collect(rs, MessageKey);
      if KeysIn(rs, MessageKey) == {} then ms == [] else ms != [] && IsMostCommon(rs, Representative(ms))
  {
    var ms := Collect(rs, MessageKey);
    hide Collect, Occurs;
    forall m ensures Times(ms, m) == Occurs(rs, MessageKey, m) && (m in ms <==> m in KeysIn(rs, MessageKey)) {
      CollectedOccurs(rs, m);
      OccursIff(rs, MessageKey, m);
      assert m in ms <==> m in multiset(ms);
    }
    if ms != [] {
      assert ms[0] in ms;
      LeaderIsMostFrequent(ms, |ms|);
      var l := Leader(ms, |ms|);
      forall k ensures Occurs(rs, MessageKey, k) <= Occurs(rs, MessageKey, l) {
        if k in ms {
          var i :| 0 <= i < |ms| && ms[i] == k;
        } else {
          assert Times(ms, k) == 0;
        }
      }
      assert Times(ms, l) > 0;
    }
  }

  lemma LeIntPreorder()
    ensures TotalPreorder(LeInt)
  {
  }

  lemma SortMembers(ts: seq<int>, t: int)
    ensures t in ts <==> t in Sort(ts, LeInt)
  {
    hide Sort;
    assert t in ts <==> t in multiset(ts);
    assert t in Sort(ts, LeInt) <==> t in multiset(Sort(ts, LeInt));
  }

  lemma EndsOfSorted(s: seq<int>, t: int)
    requires SortedBy(s, LeInt) && t in s
    ensures s[0] <= t <= s[|s| - 1]
  {
    var i :| 0 <= i < |s| && s[i] == t;
    assert i == 0 || LeInt(s[0], s[i]);
    assert i == |s| - 1 || LeInt(s[i], s[|s| - 1]);
  }

  lemma SortedEnds(ts: seq<int>)
    ensures FirstOf(ts).None? <==> ts == []
    ensures LastOf(ts).None? <==> ts == []
    ensures ts != [] ==> FirstOf(ts).value in ts && LastOf(ts).value in ts
    ensures forall t :: t in ts ==>
      FirstOf(ts).Some? && LastOf(ts).Some? && FirstOf(ts).value <= t <= LastOf(ts).value
  {
    hide Sort, LeInt, SortedBy;
    var s := Sort(ts, LeInt);
    LeIntPreorder();
    SortSorted(ts, LeInt);
    forall t | t in ts ensures s != [] && s[0] <= t <= s[|s| - 1] {
      SortMembers(ts, t);
      EndsOfSorted(s, t);
    }
    if ts != [] {
      SortMembers(ts, s[0]);
      SortMembers(ts, s[|s| - 1]);
    }
  }

  lemma {:induction false} CollectedTimes(rs: seq<Row>, t: int)
    ensures t in Collect(rs, TimeOf) <==> Some(t) in Map(rs, TimeOf)
  {
    if rs != [] {
      var n := |rs| - 1;
      CollectedTimes(rs[..n], t);
      assert Map(rs, TimeOf) == Map(rs[..n], TimeOf) + [TimeOf(rs[n])];
    }
  }

  /** A list of times with the same members as the known ones has their bounds as its ends. */
  lemma EndsAreBounds(ts: seq<int>, seen: seq<Option<int>>)
    requires forall t :: t in ts ==> Some(t) in seen
    requires MinSeen(seen).Some? ==> MinSeen(seen).value in ts
    requires MaxSeen(seen).Some? ==> MaxSeen(seen).value in ts
    ensures FirstOf(ts) == MinSeen(seen) && LastOf(ts) == MaxSeen(seen)
  {
    SortedEnds(ts);
    SeenIsHull(seen);
    hide FirstOf, LastOf, MinSeen, MaxSeen;
    forall t | t in ts
      ensures MinSeen(seen).Some? && MaxSeen(seen).Some? && MinSeen(seen).value <= t <= MaxSeen(seen).value
    {
      var i :| 0 <= i < |seen| && seen[i] == Some(t);
    }
    if ts != [] {
      assert FirstOf(ts).value in ts && LastOf(ts).value in ts;
    }
  }

  lemma SameEnds(rs: seq<Row>)
    ensures var seen := Map(rs, TimeOf); var pair := Known([MinSeen(seen), MaxSeen(seen)]);
      FirstOf(Collect(rs, TimeOf)) == FirstOf(pair) && LastOf(Collect(rs, TimeOf)) == LastOf(pair)
  {
    var seen := Map(rs, TimeOf);
    var lo, hi := MinSeen(seen), MaxSeen(seen);
    var pair, all := Known([lo, hi]), Collect(rs, TimeOf);
    SeenIsHull(seen);
    assert [lo, hi][1..] == [hi] && [hi][1..] == [];
    assert Known([hi]) == if hi.Some? then [hi.value] else [];
    assert pair == if lo.Some? then [lo.value, hi.value] else [];
    forall t ensures t in all <==> Some(t) in seen { CollectedTimes(rs, t); }
    hide Collect, FirstOf, LastOf, MinSeen, MaxSeen, Known;
    EndsAreBounds(all, seen);
    EndsAreBounds(pair, seen);
  }

  /** Server-side aggregation refines the row scan: from the same rows both paths build clusters that
      agree on every count, on both seen bounds and on baseline and change ratio; both choose a most
      common message; the aggregated ids are a capped sample of the full membership. */
  lemma AggregationRefinesScan(fp: string, rs: seq<Row>, g: Group, baseline: Counts, hooks: Hooks,
                               isError: string -> bool)
    requires IsAggregate(g, rs, isError)
    ensures var a := BuildClusterData(fp, g, baseline, hooks);
      var b := BuildClusterData(fp, Scanned(rs, isError), baseline, hooks);
      && a.fingerprint == b.fingerprint && a.count == b.count == |rs|
      && a.services == b.services && a.levels == b.levels && a.errorServices == b.errorServices
      && a.firstSeen == b.firstSeen && a.lastSeen == b.lastSeen
      && a.baselineCount == b.baselineCount && a.changeRatio == b.changeRatio
      && IsSample(a.logEntryIds, b.logEntryIds)
      && (if KeysIn(rs, MessageKey) == {} then a.message == b.message == ""
          else IsMostCommon(rs, a.message) && IsMostCommon(rs, b.message))
      && (a.message == b.message ==> a == b.(logEntryIds := a.logEntryIds))
  {
    hide CountBy, Collect, FirstOf, LastOf, Known, MinSeen, MaxSeen, KeysIn, IsMostCommon, IsSample;
    SameEnds(rs);
    ScanPicksMostCommon(rs);
    if KeysIn(rs, MessageKey) != {} {
      assert Leader(g.messages, 1) == g.messages[0];
    }
  }

  /** When one message is strictly the most common, both paths choose it, and the clusters differ
      only in the id sample. */
  lemma UniqueMessageAgrees(fp: string, rs: seq<Row>, g: Group, baseline: Counts, hooks: Hooks,
                            isError: string -> bool, m: string)
    requires IsAggregate(g, rs, isError)
    requires forall k :: k != m ==> Occurs(rs, MessageKey, k) < Occurs(rs, MessageKey, m)
    ensures var a := BuildClusterData(fp, g, baseline, hooks);
      var b := BuildClusterData(fp, Scanned(rs, isError), baseline, hooks);
      a.message == m && a == b.(logEntryIds := a.logEntryIds)
  {
    hide IsAggregate, BuildClusterData, Scanned, Occurs, KeysIn;
    OccursIff(rs, MessageKey, m);
    assert Occurs(rs, MessageKey, m + "!") < Occurs(rs, MessageKey, m);
    AggregationRefinesScan(fp, rs, g, baseline, hooks, isError);
    var a, b := BuildClusterData(fp, g, baseline, hooks), BuildClusterData(fp, Scanned(rs, isError), baseline, hooks);
  }
}
