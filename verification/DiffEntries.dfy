/** What the entries of a comparison's lists say, in counts and in the clusters they come from. */
module DiffEntries {
  import opened Sequences
  import opened Clusters
  import opened WindowDiff

  // ---- Which list an entry is in ----

  function AtLeastOneLine(n: nat): nat { if n == 0 then 1 else n }

  /** The list an entry with these counts belongs in. */
  lemma DirectionMeans(a: Option<nat>, b: Option<nat>)
    requires a.Some? || b.Some?
    ensures DirectionOf(a, b) == New <==> a.Some? && b.None?
    ensures DirectionOf(a, b) == Disappeared <==> a.None? && b.Some?
    ensures a.Some? && b.Some? ==> (DirectionOf(a, b) == Increased <==> 2 * a.value >= 3 * AtLeastOneLine(b.value))
    ensures a.Some? && b.Some? ==> (DirectionOf(a, b) == Decreased <==> 3 * a.value <= 2 * AtLeastOneLine(b.value))
    ensures DirectionOf(a, b) in {Increased, Decreased, Stable} ==> a.Some? && b.Some?
  {
    if a.Some? && b.Some? {
      RatioExact(a.value, AtLeastOne(b.value));
    }
  }

  /** An entry of some list. */
  predicate Listed(ls: Lists, d: Diff) { exists dir :: dir in ls && d in ls[dir] }

  lemma ListedIs(ls: Lists, a: ByFingerprint, b: ByFingerprint, d: Diff, dir: Direction)
    requires Filed(ls, a, b, a.Keys + b.Keys)
    ensures dir in ls
    ensures d in ls[dir] <==>
      (d.fingerprint in a || d.fingerprint in b) && d == DiffFor(a, b, d.fingerprint)
      && DirectionOf(d.countA, d.countB) == dir
  {
    assert multiset(ls[dir]) == multiset(Belong(a, b, a.Keys + b.Keys, dir));
    ListedSet(ls[dir], Belong(a, b, a.Keys + b.Keys, dir));
    hide DirectionOf;
    if (d.fingerprint in a || d.fingerprint in b) && d == DiffFor(a, b, d.fingerprint) {
      assert DirectionIn(a, b, d.fingerprint) == DirectionOf(d.countA, d.countB);
    }
  }

  /** The five lists, by the counts of their entries: new ones have none in B, disappeared ones none in A, and
      of those in both windows the increased have at least three lines in A to two in B, the decreased at most
      two to three, and the stable are the rest. A window without lines counts as one. */
  lemma ListsByCounts(ls: Lists, a: ByFingerprint, b: ByFingerprint, d: Diff)
    requires Filed(ls, a, b, a.Keys + b.Keys) && Listed(ls, d)
    ensures forall dir: Direction :: dir in ls
    ensures d in ls[New] <==> d.countA.Some? && d.countB.None?
    ensures d in ls[Disappeared] <==> d.countA.None? && d.countB.Some?
    ensures d in ls[Increased] <==>
      d.countA.Some? && d.countB.Some? && 2 * d.countA.value >= 3 * AtLeastOneLine(d.countB.value)
    ensures d in ls[Decreased] <==>
      d.countA.Some? && d.countB.Some? && 3 * d.countA.value <= 2 * AtLeastOneLine(d.countB.value)
    ensures d in ls[Stable] <==>
      && d.countA.Some? && d.countB.Some?
      && 2 * d.countA.value < 3 * AtLeastOneLine(d.countB.value)
      && 3 * d.countA.value > 2 * AtLeastOneLine(d.countB.value)
  {
    var home :| home in ls && d in ls[home];
    ListedIs(ls, a, b, d, home);
    EntryPresent(a, b, d);
    forall dir: Direction ensures dir in ls && (d in ls[dir] <==> DirectionOf(d.countA, d.countB) == dir) {
      ListedIs(ls, a, b, d, dir);
    }
    hide DirectionOf, DiffFor, Filed;
    DirectionMeans(d.countA, d.countB);
  }

  lemma EntryPresent(a: ByFingerprint, b: ByFingerprint, d: Diff)
    requires (d.fingerprint in a || d.fingerprint in b) && d == DiffFor(a, b, d.fingerprint)
    ensures d.countA.Some? || d.countB.Some?
  {
  }

  /** An entry has the counts its fingerprint has in either window, and takes its message and services from
      the cluster of window A if there is one, else from that of window B. */
  lemma EntryMeans(ls: Lists, a: ByFingerprint, b: ByFingerprint, d: Diff)
    requires Filed(ls, a, b, a.Keys + b.Keys) && Listed(ls, d)
    ensures var fp := d.fingerprint;
      && d.countA == (if fp in a then Some(a[fp].count) else None)
      && d.countB == (if fp in b then Some(b[fp].count) else None)
      && (fp in a ==> d.message == a[fp].message && d.services == a[fp].services.Keys)
      && (fp !in a ==> fp in b && d.message == b[fp].message && d.services == b[fp].services.Keys)
  {
    var home :| home in ls && d in ls[home];
    ListedIs(ls, a, b, d, home);
  }

  /** Every fingerprint of either window has an entry. */
  lemma EveryFingerprintListed(ls: Lists, a: ByFingerprint, b: ByFingerprint, fp: string)
    requires Filed(ls, a, b, a.Keys + b.Keys) && (fp in a || fp in b)
    ensures exists d :: Listed(ls, d) && d.fingerprint == fp
  {
    var d := DiffFor(a, b, fp);
    ListedIs(ls, a, b, d, DirectionOf(d.countA, d.countB));
    assert Listed(ls, d);
  }

  function LinesA(d: Diff): nat { if d.countA.None? then 0 else d.countA.value }
  function LinesB(d: Diff): nat { if d.countB.None? then 0 else d.countB.value }

  /** The order in which the lists are shown: most lines first, or greatest change first. */
  lemma ShownByLines(ls: Lists, i: nat, j: nat)
    requires InDisplayOrder(ls) && i < j
    ensures j < |ls[New]| ==> LinesA(ls[New][i]) >= LinesA(ls[New][j])
    ensures j < |ls[Disappeared]| ==> LinesB(ls[Disappeared][i]) >= LinesB(ls[Disappeared][j])
    ensures j < |ls[Increased]| ==>
      var x, y := ls[Increased][i], ls[Increased][j]; LinesA(x) - LinesB(x) >= LinesA(y) - LinesB(y)
    ensures j < |ls[Decreased]| ==>
      var x, y := ls[Decreased][i], ls[Decreased][j]; LinesB(x) - LinesA(x) >= LinesB(y) - LinesA(y)
  {
    assert j < |ls[New]| ==> MoreA(ls[New][i], ls[New][j]);
    assert j < |ls[Disappeared]| ==> MoreB(ls[Disappeared][i], ls[Disappeared][j]);
    assert j < |ls[Increased]| ==> Grew(ls[Increased][i], ls[Increased][j]);
    assert j < |ls[Decreased]| ==> Shrank(ls[Decreased][i], ls[Decreased][j]);
  }

  /** Position `i` holds the last cluster with the fingerprint. */
  ghost predicate LastWith(cs: seq<ClusterData>, fp: string, i: nat) {
    i < |cs| && cs[i].fingerprint == fp && forall j :: i < j < |cs| ==> cs[j].fingerprint != fp
  }

  lemma IndexStep(cs: seq<ClusterData>, fp: string)
    requires cs != []
    ensures var n := |cs| - 1; var front := cs[..n];
      if cs[n].fingerprint == fp then fp in Index(cs) && Index(cs)[fp] == cs[n]
      else (fp in Index(cs) <==> fp in Index(front)) && (fp in Index(front) ==> Index(cs)[fp] == Index(front)[fp])
  {
  }

  lemma LastWithSnoc(cs: seq<ClusterData>, fp: string, i: nat)
    requires cs != [] && cs[|cs| - 1].fingerprint != fp && LastWith(cs[..|cs| - 1], fp, i)
    ensures LastWith(cs, fp, i)
  {
    var front := cs[..|cs| - 1];
    assert forall j :: 0 <= j < |front| ==> front[j] == cs[j];
  }

  lemma {:induction false} LastOccurrence(cs: seq<ClusterData>, fp: string)
    ensures fp in Index(cs) ==> exists i: nat :: LastWith(cs, fp, i) && cs[i] == Index(cs)[fp]
  {
    if cs != [] {
      var n := |cs| - 1;
      IndexStep(cs, fp);
      hide Index;
      if cs[n].fingerprint == fp {
        assert LastWith(cs, fp, n);
      } else {
        hide LastWith;
        LastOccurrence(cs[..n], fp);
        if fp in Index(cs) {
          var i: nat :| LastWith(cs[..n], fp, i) && cs[..n][i] == Index(cs[..n])[fp];
          LastWithSnoc(cs, fp, i);
        }
      }
    }
  }

  lemma {:induction false} IndexHas(cs: seq<ClusterData>, fp: string)
    requires exists i :: 0 <= i < |cs| && cs[i].fingerprint == fp
    ensures fp in Index(cs)
  {
    var n := |cs| - 1;
    IndexStep(cs, fp);
    if cs[n].fingerprint != fp {
      var i :| 0 <= i < |cs| && cs[i].fingerprint == fp;
      assert cs[..n][i].fingerprint == fp;
      IndexHas(cs[..n], fp);
    }
  }

  /** The dictionary holds, for each fingerprint that occurs, the last cluster that has it. */
  lemma IndexMeans(cs: seq<ClusterData>, fp: string)
    ensures fp in Index(cs) <==> exists i :: 0 <= i < |cs| && cs[i].fingerprint == fp
    ensures fp in Index(cs) ==> exists i: nat :: LastWith(cs, fp, i) && cs[i] == Index(cs)[fp]
  {
    hide Index;
    LastOccurrence(cs, fp);
    if exists i :: 0 <= i < |cs| && cs[i].fingerprint == fp { IndexHas(cs, fp); }
  }

  // ---- Collapsing ----

  function Retries(cs: seq<ClusterData>, ps: Patterns): seq<ClusterData> {
    Filter(cs, (c: ClusterData) => ps.isRetry(c.message))
  }

  function Queued(cs: seq<ClusterData>, ps: Patterns): seq<ClusterData> {
    Filter(cs, (c: ClusterData) => !ps.isRetry(c.message) && ps.isQueueGrowth(c.message))
  }

  function Others(cs: seq<ClusterData>, ps: Patterns): seq<ClusterData> {
    Filter(cs, (c: ClusterData) => !ps.isRetry(c.message) && !ps.isQueueGrowth(c.message))
  }

  /** A cluster that stands for a group: summed counts, the hull of the times, ratio and importance equal to
      the count, and nothing else. */
  ghost predicate StandsFor(c: ClusterData, group: seq<ClusterData>, fingerprint: string, message: string) {
    && c.fingerprint == fingerprint && c.message == message
    && c.count == Total(group, (m: ClusterData) => m.count)
    && (forall k :: Get(c.services, k) == Total(group, (m: ClusterData) => Get(m.services, k)))
    && (forall k :: k in c.services <==> exists m :: m in group && k in m.services)
    && c.levels == map[] && c.baselineCount == 0 && c.errorServices == map[]
    && c.changeRatio == c.count as real && c.importance == c.count as real
    && !c.isTrigger && c.logEntryIds == [] && c.mergedFingerprints == []
    && SpansTimes(c, group)
  }

  /** First and last seen are the hull of the known times of the group. */
  ghost predicate SpansTimes(c: ClusterData, group: seq<ClusterData>) {
    && (c.firstSeen.None? <==> forall m :: m in group ==> m.firstSeen.None?)
    && (c.lastSeen.None? <==> forall m :: m in group ==> m.lastSeen.None?)
    && (c.firstSeen.Some? ==> exists m :: m in group && m.firstSeen == c.firstSeen)
    && (c.lastSeen.Some? ==> exists m :: m in group && m.lastSeen == c.lastSeen)
    && (forall m :: m in group && m.firstSeen.Some? ==> c.firstSeen.Some? && c.firstSeen.value <= m.firstSeen.value)
    && (forall m :: m in group && m.lastSeen.Some? ==> c.lastSeen.Some? && c.lastSeen.value >= m.lastSeen.value)
  }

  lemma {:induction false} SameFilter(cs: seq<ClusterData>, f: ClusterData -> bool, g: ClusterData -> bool)
    requires forall c :: f(c) <==> g(c)
    ensures Filter(cs, f) == Filter(cs, g)
  {
    if cs != [] {
      SameFilter(cs[1..], f, g);
    }
  }

  lemma ClassesAre(cs: seq<ClusterData>, ps: Patterns)
    ensures Filter(cs, Is(Retry, ps)) == Retries(cs, ps)
    ensures Filter(cs, Is(Queue, ps)) == Queued(cs, ps)
    ensures Filter(cs, Is(Normal, ps)) == Others(cs, ps)
  {
    hide Filter;
    SameFilter(cs, Is(Retry, ps), (c: ClusterData) => ps.isRetry(c.message));
    SameFilter(cs, Is(Queue, ps), (c: ClusterData) => !ps.isRetry(c.message) && ps.isQueueGrowth(c.message));
    SameFilter(cs, Is(Normal, ps), (c: ClusterData) => !ps.isRetry(c.message) && !ps.isQueueGrowth(c.message));
  }

  lemma HullOfGroup(group: seq<ClusterData>, seen: ClusterData -> Option<int>)
    ensures var ts := Map(group, seen);
      && (MinSeen(ts).None? <==> forall m :: m in group ==> seen(m).None?)
      && (MaxSeen(ts).None? <==> forall m :: m in group ==> seen(m).None?)
      && (MinSeen(ts).Some? ==> exists m :: m in group && seen(m) == MinSeen(ts))
      && (MaxSeen(ts).Some? ==> exists m :: m in group && seen(m) == MaxSeen(ts))
      && (forall m :: m in group && seen(m).Some? ==> MinSeen(ts).Some? && MinSeen(ts).value <= seen(m).value)
      && (forall m :: m in group && seen(m).Some? ==> MaxSeen(ts).Some? && MaxSeen(ts).value >= seen(m).value)
  {
    var ts := Map(group, seen);
    SeenIsHull(ts);
    hide MinSeen, MaxSeen;
    forall t | t in ts ensures exists m :: m in group && seen(m) == t {
      var i :| 0 <= i < |ts| && ts[i] == t;
      assert group[i] in group;
    }
    forall m | m in group ensures seen(m) in ts {
      var i :| 0 <= i < |group| && group[i] == m;
      assert ts[i] == seen(m);
    }
  }

  lemma ServicesOfGroup(group: seq<ClusterData>, k: string)
    ensures var m := CountTotals(Map(group, Services));
      && Get(m, k) == Total(group, (c: ClusterData) => Get(c.services, k))
      && (k in m <==> exists c :: c in group && k in c.services)
  {
    var ds := Map(group, Services);
    CountTotalsGet(ds, k);
    TotalPointwise(ds, At(k), group, (c: ClusterData) => Get(c.services, k));
    if i :| 0 <= i < |ds| && k in ds[i] { assert group[i] in group; }
    if c :| c in group && k in c.services {
      var i :| 0 <= i < |group| && group[i] == c;
      assert k in ds[i];
    }
  }

  lemma GroupSpans(group: seq<ClusterData>, message: string, key: string)
    ensures SpansTimes(MergeGroup(group, message, key), group)
  {
    hide MinSeen, MaxSeen, CountTotals, Total;
    HullOfGroup(group, FirstSeen);
    HullOfGroup(group, LastSeen);
  }

  lemma GroupStands(group: seq<ClusterData>, message: string, key: string)
    ensures StandsFor(MergeGroup(group, message, key), group, key, message)
  {
    hide MinSeen, MaxSeen, CountTotals, Total, Get, SpansTimes;
    GroupSpans(group, message, key);
    forall k { ServicesOfGroup(group, k); }
    TotalPointwise(group, Count, group, (m: ClusterData) => m.count);
  }

  /** Collapsing leaves every cluster whose message is neither of a retry nor of a growing queue, in order;
      behind them it puts one cluster for the retries, if there are any, and one for the growing queues. */
  lemma CollapsedMeans(cs: seq<ClusterData>, ps: Patterns)
    ensures var out, retries, queued := Collapsed(cs, ps), Retries(cs, ps), Queued(cs, ps);
      var n, r := |Others(cs, ps)|, if retries == [] then 0 else 1;
      && |out| == n + r + (if queued == [] then 0 else 1)
      && out[..n] == Others(cs, ps)
      && (retries != [] ==> StandsFor(out[n], retries, "__collapsed_retries__",
                                      ps.retryLabel(|retries|, Total(retries, (c: ClusterData) => c.count))))
      && (queued != [] ==> StandsFor(out[n + r], queued, "__collapsed_queue_growth__", "Queue growth"))
  {
    ClassesAre(cs, ps);
    hide Filter, MergeGroup, StandsFor, Total;
    var retries, queued := Retries(cs, ps), Queued(cs, ps);
    TotalPointwise(retries, Count, retries, (c: ClusterData) => c.count);
    GroupStands(retries, RetryLabel(retries, ps), RETRIES);
    GroupStands(queued, "Queue growth", QUEUE_GROWTH);
  }
}
