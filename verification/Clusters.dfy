/** Cluster records and the operations on them that several passes share. */
module Clusters {
  import opened Sequences

  type Counts = map<string, nat>

  datatype ClusterData = ClusterData(
    fingerprint: string,
    message: string,
    count: nat,
    services: Counts,
    levels: Counts,
    firstSeen: Option<int>,
    lastSeen: Option<int>,
    baselineCount: nat,
    changeRatio: real,
    importance: real,
    isTrigger: bool,
    logEntryIds: seq<int>,
    mergedFingerprints: seq<string>,
    errorServices: Counts)

  /** Library functions taken as given: the importance formula (logarithms), the trigger-message
      pattern, and whether a message is blank once stripped. */
  datatype Hooks = Hooks(
    score: (nat, Counts, real, nat, bool) -> real,
    triggerMessage: string -> bool,
    blank: string -> bool)

  function ChangeRatio(current: nat, baseline: nat): real {
    (current + 1) as real / (baseline + 1) as real
  }

  function Get(m: Counts, k: string): nat { if k in m then m[k] else 0 }

  // ---- Measures: one number per cluster, to be summed over a list ----

  function At(k: string): Counts -> nat { m => Get(m, k) }
  function Count(c: ClusterData): nat { c.count }
  function Baseline(c: ClusterData): nat { c.baselineCount }
  function ServiceCount(k: string): ClusterData -> nat { (c: ClusterData) => Get(c.services, k) }
  function LevelCount(k: string): ClusterData -> nat { (c: ClusterData) => Get(c.levels, k) }
  function ErrorCount(k: string): ClusterData -> nat { (c: ClusterData) => Get(c.errorServices, k) }
  function IdCount(id: int): ClusterData -> nat { (c: ClusterData) => multiset(c.logEntryIds)[id] }
  /** How often a cluster carries a fingerprint, as its own or as one merged into it. */
  function FingerprintCount(fp: string): ClusterData -> nat {
    (c: ClusterData) => multiset([c.fingerprint] + c.mergedFingerprints)[fp]
  }

  function Services(c: ClusterData): Counts { c.services }
  function Levels(c: ClusterData): Counts { c.levels }
  function ErrorServices(c: ClusterData): Counts { c.errorServices }
  function Ids(c: ClusterData): seq<int> { c.logEntryIds }
  function Fingerprint(c: ClusterData): string { c.fingerprint }
  ghost predicate DistinctFingerprints(cs: seq<ClusterData>) {
    forall i, j :: 0 <= i < j < |cs| ==> cs[i].fingerprint != cs[j].fingerprint
  }

  function FirstSeen(c: ClusterData): Option<int> { c.firstSeen }
  function LastSeen(c: ClusterData): Option<int> { c.lastSeen }

  // ---- Summing dictionaries of counts ----

  function KeysOf(ds: seq<Counts>): (ks: set<string>)
    ensures forall k :: k in ks <==> exists i :: 0 <= i < |ds| && k in ds[i]
  {
    set i, k | 0 <= i < |ds| && k in ds[i] :: k
  }

  /** Key by key, the sum over all the dictionaries. */
  function CountTotals(ds: seq<Counts>): Counts {
    map k | k in KeysOf(ds) :: Total(ds, At(k))
  }

  lemma KeysOfSnoc(ds: seq<Counts>, d: Counts)
    ensures KeysOf(ds + [d]) == KeysOf(ds) + d.Keys
  {
    var es := ds + [d];
    forall k ensures k in KeysOf(es) <==> k in KeysOf(ds) || k in d {
      if k in d { assert k in es[|ds|]; }
      if i :| 0 <= i < |ds| && k in ds[i] { assert k in es[i]; }
    }
  }

  lemma {:induction false} AbsentTotal(ds: seq<Counts>, k: string)
    requires k !in KeysOf(ds)
    ensures Total(ds, At(k)) == 0
  {
    if ds != [] {
      assert k !in ds[0];
      forall i | 0 <= i < |ds[1..]| ensures k !in ds[1..][i] {
        assert ds[1..][i] == ds[i + 1];
      }
      AbsentTotal(ds[1..], k);
    }
  }

  lemma CountTotalsGet(ds: seq<Counts>, k: string)
    ensures Get(CountTotals(ds), k) == Total(ds, At(k))
  {
    if k !in KeysOf(ds) {
      AbsentTotal(ds, k);
    }
  }

  function Plus(a: Counts, b: Counts): Counts {
    map k | k in a.Keys + b.Keys :: Get(a, k) + Get(b, k)
  }

  lemma TotalAtSnoc(ds: seq<Counts>, d: Counts, k: string)
    ensures Get(CountTotals(ds + [d]), k) == Get(CountTotals(ds), k) + Get(d, k)
  {
    CountTotalsGet(ds, k);
    CountTotalsGet(ds + [d], k);
    TotalSnoc(ds, d, At(k));
  }

  lemma CountTotalsSnoc(ds: seq<Counts>, d: Counts)
    ensures CountTotals(ds + [d]) == Plus(CountTotals(ds), d)
  {
    hide Total, KeysOf;
    KeysOfSnoc(ds, d);
    var big, plus := CountTotals(ds + [d]), Plus(CountTotals(ds), d);
    assert big.Keys == plus.Keys;
    forall k | k in big ensures big[k] == plus[k] {
      TotalAtSnoc(ds, d, k);
    }
  }

  /** Adds the items of one dictionary to the running totals, in any order. */
  method AddItems(start: Counts, d: Counts) returns (totals: Counts)
    ensures totals == Plus(start, d)
  {
    totals := start;
    var todo := d.Keys;
    while todo != {}
      invariant todo <= d.Keys
      invariant totals.Keys == start.Keys + (d.Keys - todo)
      invariant forall k :: k in totals ==>
        totals[k] == Get(start, k) + (if k in todo then 0 else Get(d, k))
    {
      var k :| k in todo;
      totals := totals[k := Get(totals, k) + d[k]];
      todo := todo - {k};
    }
  }

  /** The accumulation loop over all items of all dictionaries. */
  method SumCounts(ds: seq<Counts>) returns (totals: Counts)
    ensures totals == CountTotals(ds)
  {
    totals := map[];
    for n := 0 to |ds|
      invariant totals == CountTotals(ds[..n])
    {
      CountTotalsSnoc(ds[..n], ds[n]);
      assert ds[..n + 1] == ds[..n] + [ds[n]];
      totals := AddItems(totals, ds[n]);
    }
    assert ds[..|ds|] == ds;
  }

  // ---- Seen-ranges ----

  function MinSeen(ts: seq<Option<int>>): Option<int> {
    if ts == [] then None
    else match (ts[0], MinSeen(ts[1..]))
      case (None, r) => r
      case (Some(t), None) => Some(t)
      case (Some(t), Some(u)) => Some(if u < t then u else t)
  }

  function MaxSeen(ts: seq<Option<int>>): Option<int> {
    if ts == [] then None
    else match (ts[0], MaxSeen(ts[1..]))
      case (None, r) => r
      case (Some(t), None) => Some(t)
      case (Some(t), Some(u)) => Some(if u > t then u else t)
  }

  /** The bounds are attained, nothing known lies outside them, and they are absent only when
      nothing is known. */
  lemma {:induction false} SeenIsHull(ts: seq<Option<int>>)
    ensures MinSeen(ts).None? <==> forall i :: 0 <= i < |ts| ==> ts[i].None?
    ensures MaxSeen(ts).None? <==> MinSeen(ts).None?
    ensures MinSeen(ts).Some? ==> MinSeen(ts) in ts && MaxSeen(ts) in ts
    ensures forall i :: 0 <= i < |ts| && ts[i].Some? ==>
      MinSeen(ts).Some? && MaxSeen(ts).Some? && MinSeen(ts).value <= ts[i].value <= MaxSeen(ts).value
  {
    if ts != [] {
      SeenIsHull(ts[1..]);
      assert forall i :: 0 < i < |ts| ==> ts[i] == ts[1..][i - 1];
      assert forall i :: 0 <= i < |ts[1..]| ==> ts[1..][i] == ts[i + 1];
    }
  }

  // ---- The order of strings ----

  predicate StrLess(a: string, b: string) {
    b != [] && (a == [] || a[0] < b[0] || (a[0] == b[0] && StrLess(a[1..], b[1..])))
  }

  predicate StrLe(a: string, b: string) { !StrLess(b, a) }

  lemma {:induction false} StrTrichotomy(a: string, b: string)
    ensures !(StrLess(a, b) && StrLess(b, a))
    ensures StrLess(a, b) || StrLess(b, a) || a == b
    ensures !StrLess(a, a)
  {
    if a != [] {
      StrTrichotomy(a[1..], a[1..]);
      if b != [] {
        StrTrichotomy(a[1..], b[1..]);
        assert a[0] == b[0] && a[1..] == b[1..] ==> a == [a[0]] + a[1..] && b == [b[0]] + b[1..];
      }
    }
  }

  lemma {:induction false} StrTransitive(a: string, b: string, c: string)
    requires StrLess(a, b) && StrLess(b, c)
    ensures StrLess(a, c)
  {
    if a != [] && a[0] == b[0] && b[0] == c[0] {
      StrTransitive(a[1..], b[1..], c[1..]);
    }
  }

  /** The strings agree up to `k`, and there the first one ends or has the smaller character. */
  ghost predicate DifferAt(a: string, b: string, k: nat) {
    && k <= |a| && k < |b| && a[..k] == b[..k] && (k == |a| || a[k] < b[k])
  }

  /** One string comes before another exactly if, where they first differ, it ends or has the smaller
      character. */
  lemma {:induction false} StrLessIff(a: string, b: string)
    ensures StrLess(a, b) <==> exists k: nat :: DifferAt(a, b, k)
  {
    if b != [] && (a == [] || a[0] < b[0]) {
      assert DifferAt(a, b, 0);
    } else if a != [] && b != [] {
      StrLessIff(a[1..], b[1..]);
      if a[0] == b[0] && StrLess(a[1..], b[1..]) {
        var k: nat :| DifferAt(a[1..], b[1..], k);
        assert a[..k + 1] == [a[0]] + a[1..][..k] && b[..k + 1] == [b[0]] + b[1..][..k];
        assert DifferAt(a, b, k + 1);
      }
      if k: nat :| DifferAt(a, b, k) {
        assert k > 0 ==> a[..k][0] == b[..k][0];
        assert k > 0 ==> a[1..][..k - 1] == a[..k][1..] && b[1..][..k - 1] == b[..k][1..];
        assert k > 0 ==> DifferAt(a[1..], b[1..], k - 1);
      }
    }
  }

  lemma StrLeTotalPreorder()
    ensures TotalPreorder(StrLe)
  {
    forall x, y ensures StrLe(x, y) || StrLe(y, x) { StrTrichotomy(x, y); }
    forall x, y, z | StrLe(x, y) && StrLe(y, z) ensures StrLe(x, z) {
      StrTrichotomy(x, y);
      StrTrichotomy(y, z);
      StrTrichotomy(x, z);
      if StrLess(z, x) {
        if x != y { StrTransitive(z, x, y); }
        StrTrichotomy(z, y);
      }
    }
  }
}
