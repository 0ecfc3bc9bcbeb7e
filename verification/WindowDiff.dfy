/** Comparing two windows by their clusters: collapse the noisy ones, diff by fingerprint, and sort
    every fingerprint into one of five lists. */
module WindowDiff {
  import opened Sequences
  import opened Clusters
  import opened Reals

  /** Message patterns and the label of the retry group, taken as given. */
  datatype Patterns = Patterns(isRetry: string -> bool, isQueueGrowth: string -> bool, retryLabel: (nat, nat) -> string)

  const RETRIES := "__collapsed_retries__"
  const QUEUE_GROWTH := "__collapsed_queue_growth__"

  // ---- Collapsing ----

  datatype Noise = Normal | Retry | Queue

  function NoiseOf(c: ClusterData, ps: Patterns): Noise {
    if ps.isRetry(c.message) then Retry else if ps.isQueueGrowth(c.message) then Queue else Normal
  }

  function Is(n: Noise, ps: Patterns): ClusterData -> bool { (c: ClusterData) => NoiseOf(c, ps) == n }

  function MergeGroup(group: seq<ClusterData>, message: string, key: string): ClusterData {
    var total := Total(group, Count);
    ClusterData(key, message, total, CountTotals(Map(group, Services)), map[], MinSeen(Map(group, FirstSeen)),
                MaxSeen(Map(group, LastSeen)), 0, total as real, total as real, false, [], [], map[])
  }

  /** What a noise class becomes: nothing if it is empty, else one cluster. */
  function AsList(group: seq<ClusterData>, message: string, key: string): seq<ClusterData> {
    if group == [] then [] else [MergeGroup(group, message, key)]
  }

  function RetryLabel(retries: seq<ClusterData>, ps: Patterns): string {
    ps.retryLabel(|retries|, Total(retries, Count))
  }

  function Collapsed(cs: seq<ClusterData>, ps: Patterns): seq<ClusterData> {
    var retries, queue := Filter(cs, Is(Retry, ps)), Filter(cs, Is(Queue, ps));
    Filter(cs, Is(Normal, ps))
      + AsList(retries, RetryLabel(retries, ps), RETRIES) + AsList(queue, "Queue growth", QUEUE_GROWTH)
  }

  lemma SplitOne(front: seq<ClusterData>, c: ClusterData, ps: Patterns, noise: Noise)
    ensures Filter(front + [c], Is(noise, ps))
      == if NoiseOf(c, ps) == noise then Filter(front, Is(noise, ps)) + [c] else Filter(front, Is(noise, ps))
  {
    hide Filter;
    FilterSnoc(front, c, Is(noise, ps));
  }

  /** One pass that files every cluster under its noise class. */
  method SplitNoise(cs: seq<ClusterData>, ps: Patterns)
    returns (normal: seq<ClusterData>, retries: seq<ClusterData>, queue: seq<ClusterData>)
    ensures normal == Filter(cs, Is(Normal, ps))
    ensures retries == Filter(cs, Is(Retry, ps)) && queue == Filter(cs, Is(Queue, ps))
  {
    normal, retries, queue := [], [], [];
    assert forall noise :: Filter(cs[..0], Is(noise, ps)) == [];
    hide Filter, Is, NoiseOf;
    for n := 0 to |cs|
      invariant normal == Filter(cs[..n], Is(Normal, ps))
      invariant retries == Filter(cs[..n], Is(Retry, ps))
      invariant queue == Filter(cs[..n], Is(Queue, ps))
    {
      var c := cs[n];
      assert cs[..n + 1] == cs[..n] + [c];
      SplitOne(cs[..n], c, ps, Normal);
      SplitOne(cs[..n], c, ps, Retry);
      SplitOne(cs[..n], c, ps, Queue);
      match NoiseOf(c, ps)
      case Retry => retries := retries + [c];
      case Queue => queue := queue + [c];
      case Normal => normal := normal + [c];
    }
    assert cs[..|cs|] == cs;
  }

  method CollapseClusters(cs: seq<ClusterData>, ps: Patterns) returns (out: seq<ClusterData>)
    ensures out == Collapsed(cs, ps)
  {
    hide Filter, MergeGroup, Is;
    var normal, retries, queue := SplitNoise(cs, ps);
    out := normal;
    if retries != [] {
      out := out + [MergeGroup(retries, RetryLabel(retries, ps), RETRIES)];
    }
    if queue != [] {
      out := out + [MergeGroup(queue, "Queue growth", QUEUE_GROWTH)];
    }
  }

  lemma {:induction false} ThreeWaySplit(cs: seq<ClusterData>, ps: Patterns, f: ClusterData -> nat)
    ensures Total(cs, f)
      == Total(Filter(cs, Is(Normal, ps)), f) + Total(Filter(cs, Is(Retry, ps)), f)
         + Total(Filter(cs, Is(Queue, ps)), f)
  {
    if cs != [] {
      ThreeWaySplit(cs[1..], ps, f);
      var c := cs[0];
      forall n: Noise
        ensures Total(Filter(cs, Is(n, ps)), f)
          == (if NoiseOf(c, ps) == n then f(c) else 0) + Total(Filter(cs[1..], Is(n, ps)), f)
      {
        TotalConcat(if Is(n, ps)(c) then [c] else [], Filter(cs[1..], Is(n, ps)), f);
      }
    }
  }

  lemma GroupConserves(group: seq<ClusterData>, message: string, key: string, svc: string)
    ensures var c := MergeGroup(group, message, key);
      c.count == Total(group, Count) && ServiceCount(svc)(c) == Total(group, ServiceCount(svc))
  {
    CountTotalsGet(Map(group, Services), svc);
    TotalPointwise(Map(group, Services), At(svc), group, ServiceCount(svc));
  }

  lemma ListConserves(group: seq<ClusterData>, message: string, key: string, svc: string)
    ensures Total(AsList(group, message, key), Count) == Total(group, Count)
    ensures Total(AsList(group, message, key), ServiceCount(svc)) == Total(group, ServiceCount(svc))
  {
    GroupConserves(group, message, key, svc);
    var list := AsList(group, message, key);
    hide MergeGroup;
    if group != [] {
      assert list == [] + [MergeGroup(group, message, key)];
      TotalSnoc([], MergeGroup(group, message, key), Count);
      TotalSnoc([], MergeGroup(group, message, key), ServiceCount(svc));
    }
  }

  lemma CollapseKeeps(cs: seq<ClusterData>, ps: Patterns, r: seq<ClusterData>, q: seq<ClusterData>,
                      f: ClusterData -> nat)
    requires Total(r, f) == Total(Filter(cs, Is(Retry, ps)), f) && Total(q, f) == Total(Filter(cs, Is(Queue, ps)), f)
    ensures Total(Filter(cs, Is(Normal, ps)) + r + q, f) == Total(cs, f)
  {
    hide Filter, Total;
    ThreeWaySplit(cs, ps, f);
    TotalConcat(Filter(cs, Is(Normal, ps)) + r, q, f);
    TotalConcat(Filter(cs, Is(Normal, ps)), r, f);
  }

  /** Collapsing keeps the total count and every per-service count. */
  lemma CollapseConserves(cs: seq<ClusterData>, ps: Patterns, svc: string)
    ensures Total(Collapsed(cs, ps), Count) == Total(cs, Count)
    ensures Total(Collapsed(cs, ps), ServiceCount(svc)) == Total(cs, ServiceCount(svc))
  {
    hide Filter, MergeGroup, Total;
    var retries, queue := Filter(cs, Is(Retry, ps)), Filter(cs, Is(Queue, ps));
    var text := RetryLabel(retries, ps);
    var r, q := AsList(retries, text, RETRIES), AsList(queue, "Queue growth", QUEUE_GROWTH);
    ListConserves(retries, text, RETRIES, svc);
    ListConserves(queue, "Queue growth", QUEUE_GROWTH, svc);
    CollapseKeeps(cs, ps, r, q, Count);
    CollapseKeeps(cs, ps, r, q, ServiceCount(svc));
  }

  // ---- Direction ----

  datatype Direction = New | Disappeared | Increased | Decreased | Stable

  const CHANGE_THRESHOLD: real := 1.5

  function AtLeastOne(n: nat): nat { if n < 1 then 1 else n }

  function DirectionOf(a: Option<nat>, b: Option<nat>): Direction {
    if a.None? then Disappeared
    else if b.None? then New
    else
      var ratio := a.value as real / AtLeastOne(b.value) as real;
      if ratio >= CHANGE_THRESHOLD then Increased
      else if ratio <= 1.0 / CHANGE_THRESHOLD then Decreased
      else Stable
  }

  function Flip(d: Direction): Direction {
    match d
    case New => Disappeared
    case Disappeared => New
    case Increased => Decreased
    case Decreased => Increased
    case Stable => Stable
  }

  lemma TwoThirds(k: real, y: real)
    requires 3.0 * k == 2.0
    ensures 3.0 * (k * y) == 2.0 * y
  {
    Reassociate(3.0, k, y);
  }

  lemma RatioExact(a: nat, b: nat)
    requires b >= 1
    ensures a as real / b as real >= CHANGE_THRESHOLD <==> 2 * a >= 3 * b
    ensures a as real / b as real <= 1.0 / CHANGE_THRESHOLD <==> 3 * a <= 2 * b
  {
    var k := 1.0 / CHANGE_THRESHOLD;
    QuotientAtLeast(a as real, b as real, 1.5);
    QuotientAtMost(a as real, b as real, k);
    TwoThirds(k, b as real);
  }

  /** Swapping the windows mirrors the direction unless both windows have the fingerprint and hold at
      most one line of it together: then, and only then, the guard against division by zero shows. */
  lemma MirrorIff(a: Option<nat>, b: Option<nat>)
    requires a.Some? || b.Some?
    ensures DirectionOf(b, a) == Flip(DirectionOf(a, b)) <==> a.None? || b.None? || a.value + b.value >= 2
  {
    if a.Some? && b.Some? {
      RatioExact(a.value, AtLeastOne(b.value));
      RatioExact(b.value, AtLeastOne(a.value));
    }
  }

  // ---- The diff ----

  datatype Diff = Diff(fingerprint: string, message: string, services: set<string>, countA: Option<nat>,
                       countB: Option<nat>)

  function CountA(d: Diff): nat { if d.countA.Some? then d.countA.value else 0 }
  function CountB(d: Diff): nat { if d.countB.Some? then d.countB.value else 0 }

  type ByFingerprint = map<string, ClusterData>

  /** `{c.fingerprint: c for c in cs}`: the last cluster with a fingerprint wins. */
  function Index(cs: seq<ClusterData>): ByFingerprint {
    if cs == [] then map[] else Index(cs[..|cs| - 1])[cs[|cs| - 1].fingerprint := cs[|cs| - 1]]
  }

  function CountIn(m: ByFingerprint, fp: string): Option<nat> { if fp in m then Some(m[fp].count) else None }

  function DiffFor(a: ByFingerprint, b: ByFingerprint, fp: string): Diff
    requires fp in a || fp in b
  {
    var c := if fp in a then a[fp] else b[fp];
    Diff(fp, c.message, c.services.Keys, CountIn(a, fp), CountIn(b, fp))
  }

  function DirectionIn(a: ByFingerprint, b: ByFingerprint, fp: string): Direction {
    DirectionOf(CountIn(a, fp), CountIn(b, fp))
  }

  /** The diffs that belong in one list. */
  ghost function Belong(a: ByFingerprint, b: ByFingerprint, fps: set<string>, dir: Direction): set<Diff>
    requires fps <= a.Keys + b.Keys
  {
    set fp | fp in fps && DirectionIn(a, b, fp) == dir :: DiffFor(a, b, fp)
  }

  type Lists = map<Direction, seq<Diff>>

  ghost predicate Filed(ls: Lists, a: ByFingerprint, b: ByFingerprint, fps: set<string>)
    requires fps <= a.Keys + b.Keys
  {
    forall dir: Direction :: dir in ls && multiset(ls[dir]) == multiset(Belong(a, b, fps, dir))
  }

  const NO_DIFFS: Lists := map[New := [], Disappeared := [], Increased := [], Decreased := [], Stable := []]

  lemma BelongGrows(a: ByFingerprint, b: ByFingerprint, fps: set<string>, fp: string, dir: Direction)
    requires fps <= a.Keys + b.Keys && fp !in fps && (fp in a || fp in b)
    ensures var d := DiffFor(a, b, fp);
      if dir == DirectionIn(a, b, fp) then
        Belong(a, b, fps + {fp}, dir) == Belong(a, b, fps, dir) + {d} && d !in Belong(a, b, fps, dir)
      else Belong(a, b, fps + {fp}, dir) == Belong(a, b, fps, dir)
  {
    FingerprintTells(a, b, fps, fp, dir);
    hide DirectionIn, DiffFor;
  }

  lemma FileOne(ls: Lists, a: ByFingerprint, b: ByFingerprint, fps: set<string>, fp: string)
    requires fps <= a.Keys + b.Keys && Filed(ls, a, b, fps) && fp !in fps && (fp in a || fp in b)
    ensures var dir := DirectionIn(a, b, fp); Filed(ls[dir := ls[dir] + [DiffFor(a, b, fp)]], a, b, fps + {fp})
  {
    hide DirectionIn, DiffFor, Belong;
    forall dir: Direction
      ensures multiset(Belong(a, b, fps + {fp}, dir)) == multiset(Belong(a, b, fps, dir))
        + (if dir == DirectionIn(a, b, fp) then multiset{DiffFor(a, b, fp)} else multiset{})
    {
      BelongGrows(a, b, fps, fp, dir);
    }
  }

  lemma FingerprintTells(a: ByFingerprint, b: ByFingerprint, fps: set<string>, fp: string, dir: Direction)
    requires fps <= a.Keys + b.Keys && fp !in fps && (fp in a || fp in b)
    ensures DiffFor(a, b, fp) !in Belong(a, b, fps, dir)
  {
  }

  predicate MoreA(x: Diff, y: Diff) { CountA(x) >= CountA(y) }
  predicate MoreB(x: Diff, y: Diff) { CountB(x) >= CountB(y) }
  predicate Grew(x: Diff, y: Diff) { CountA(x) - CountB(x) >= CountA(y) - CountB(y) }
  predicate Shrank(x: Diff, y: Diff) { CountB(x) - CountA(x) >= CountB(y) - CountA(y) }

  ghost predicate InDisplayOrder(ls: Lists) {
    && (forall dir: Direction :: dir in ls)
    && SortedBy(ls[New], MoreA) && SortedBy(ls[Disappeared], MoreB)
    && SortedBy(ls[Increased], Grew) && SortedBy(ls[Decreased], Shrank)
  }

  method CompareWindows(clustersA: seq<ClusterData>, clustersB: seq<ClusterData>, ps: Patterns) returns (ls: Lists)
    ensures var a, b := Index(Collapsed(clustersA, ps)), Index(Collapsed(clustersB, ps));
      Filed(ls, a, b, a.Keys + b.Keys)
    ensures InDisplayOrder(ls)
  {
    hide Collapsed, Index;
    var collapsedA := CollapseClusters(clustersA, ps);
    var collapsedB := CollapseClusters(clustersB, ps);
    var a, b := Index(collapsedA), Index(collapsedB);
    ls := FileAll(a, b);
    ls := SortLists(ls);
  }

  method FileAll(a: ByFingerprint, b: ByFingerprint) returns (ls: Lists)
    ensures Filed(ls, a, b, a.Keys + b.Keys)
  {
    var all := a.Keys + b.Keys;
    var todo := all;
    ls := NO_DIFFS;
    assert Filed(ls, a, b, all - todo) by {
      forall dir: Direction ensures dir in ls && ls[dir] == [] {
        assert dir.New? || dir.Disappeared? || dir.Increased? || dir.Decreased? || dir.Stable?;
      }
      assert forall dir: Direction :: Belong(a, b, {}, dir) == {};
      assert all - todo == {};
    }
    while todo != {}
      invariant todo <= all && Filed(ls, a, b, all - todo)
    {
      var fp :| fp in todo;
      FileOne(ls, a, b, all - todo, fp);
      assert (all - todo) + {fp} == all - (todo - {fp});
      hide Filed;
      var dir := DirectionIn(a, b, fp);
      ls := ls[dir := (if dir in ls then ls[dir] else []) + [DiffFor(a, b, fp)]];
      todo := todo - {fp};
    }
    assert all - todo == all;
  }

  method SortLists(ls0: Lists) returns (ls: Lists)
    requires forall dir: Direction :: dir in ls0
    ensures forall dir: Direction :: dir in ls && multiset(ls[dir]) == multiset(ls0[dir])
    ensures InDisplayOrder(ls)
  {
    SortSorted(ls0[New], MoreA);
    SortSorted(ls0[Disappeared], MoreB);
    SortSorted(ls0[Increased], Grew);
    SortSorted(ls0[Decreased], Shrank);
    hide Sort;
    ls := ls0[New := Sort(ls0[New], MoreA)][Disappeared := Sort(ls0[Disappeared], MoreB)]
          [Increased := Sort(ls0[Increased], Grew)][Decreased := Sort(ls0[Decreased], Shrank)];
  }

  /** Every fingerprint of either window lies in exactly one list, exactly once. */
  lemma EveryFingerprintOnce(ls: Lists, a: ByFingerprint, b: ByFingerprint, fp: string, dir: Direction)
    requires Filed(ls, a, b, a.Keys + b.Keys) && (fp in a || fp in b)
    ensures dir in ls && multiset(ls[dir])[DiffFor(a, b, fp)] == if DirectionIn(a, b, fp) == dir then 1 else 0
    ensures forall d :: d in ls[dir] ==> (d.fingerprint in a || d.fingerprint in b) && d == DiffFor(a, b, d.fingerprint)
  {
    var belong := Belong(a, b, a.Keys + b.Keys, dir);
    assert multiset(ls[dir]) == multiset(belong);
    forall d | d in ls[dir] ensures (d.fingerprint in a || d.fingerprint in b) && d == DiffFor(a, b, d.fingerprint) {
      assert d in multiset(ls[dir]) && d in belong;
    }
    if DirectionIn(a, b, fp) == dir {
      assert DiffFor(a, b, fp) in belong;
    } else {
      assert DiffFor(a, b, fp) !in belong;
    }
  }
}
