/** Who a fault can reach: the transitive callers of a service and their distance in caller hops. */
module CallGraph {
  import opened Sequences

  type Service = string

  /** `(caller, callee)` pairs. */
  type Edges = seq<(Service, Service)>

  type Callers = map<Service, set<Service>>

  function CallersOf(g: Callers, s: Service): set<Service> { if s in g then g[s] else {} }

  /** The caller relation of the edges as a dictionary. */
  function CallerIndex(edges: Edges): Callers {
    if edges == [] then map[]
    else
      var (caller, callee) := edges[|edges| - 1];
      var g := CallerIndex(edges[..|edges| - 1]);
      g[callee := CallersOf(g, callee) + {caller}]
  }

  lemma {:induction false} CallerIndexMeans(edges: Edges, s: Service, c: Service)
    ensures c in CallersOf(CallerIndex(edges), s) <==> (c, s) in edges
  {
    if edges != [] {
      var front, last := edges[..|edges| - 1], edges[|edges| - 1];
      CallerIndexMeans(front, s, c);
      assert edges == front + [last];
      assert (c, s) in edges <==> (c, s) in front || (c, s) == last;
    }
  }

  method IndexCallers(edges: Edges) returns (g: Callers)
    ensures g == CallerIndex(edges)
  {
    g := map[];
    for n := 0 to |edges|
      invariant g == CallerIndex(edges[..n])
    {
      var (caller, callee) := edges[n];
      assert edges[..n + 1][..n] == edges[..n];
      g := g[callee := CallersOf(g, callee) + {caller}];
    }
    assert edges[..|edges|] == edges;
  }

  /** A chain of `k` caller hops leads from `s` to `v`. */
  ghost predicate Reaches(g: Callers, s: Service, v: Service, k: nat)
    decreases k
  {
    if k == 0 then s == v else exists u :: Reaches(g, s, u, k - 1) && v in CallersOf(g, u)
  }

  /** `v` is at least one caller hop above `s`; on a cycle that includes `s` itself. */
  ghost predicate Above(g: Callers, s: Service, v: Service) {
    exists k: nat :: k >= 1 && Reaches(g, s, v, k)
  }

  /** All services the graph mentions as callers. */
  function AllCallers(g: Callers): (r: set<Service>)
    ensures forall u :: CallersOf(g, u) <= r
  {
    set u, c | u in g && c in g[u] :: c
  }

  lemma ReachesOneMore(g: Callers, s: Service, u: Service, v: Service, k: nat)
    requires Reaches(g, s, u, k) && v in CallersOf(g, u)
    ensures Reaches(g, s, v, k + 1)
  {
  }

  /** Worklist reachability: exactly the services at least one caller hop away. */
  method TransitiveCallers(s: Service, edges: Edges) returns (seen: set<Service>, g: Callers)
    ensures g == CallerIndex(edges)
    ensures forall v :: v in seen <==> Above(g, s, v)
  {
    g := IndexCallers(edges);
    seen := {};
    var frontier := [s];
    while frontier != []
      invariant seen <= AllCallers(g)
      invariant forall v :: v in seen ==> Above(g, s, v)
      invariant forall v :: v in frontier ==> v == s || v in seen
      invariant forall v :: v == s || v in seen ==> v in frontier || CallersOf(g, v) <= seen
      decreases AllCallers(g) - seen, |frontier|
    {
      var cur := frontier[|frontier| - 1];
      frontier := frontier[..|frontier| - 1];
      seen, frontier := Expand(g, s, cur, seen, frontier);
    }
    forall v | Above(g, s, v) ensures v in seen {
      var k: nat :| k >= 1 && Reaches(g, s, v, k);
      ClosedUnderReach(g, s, seen, v, k);
    }
  }

  lemma {:induction false} ClosedUnderReach(g: Callers, s: Service, seen: set<Service>, v: Service, k: nat)
    requires k >= 1 && Reaches(g, s, v, k)
    requires forall u :: u == s || u in seen ==> CallersOf(g, u) <= seen
    ensures v in seen
    decreases k
  {
    var u :| Reaches(g, s, u, k - 1) && v in CallersOf(g, u);
    if k > 1 {
      ClosedUnderReach(g, s, seen, u, k - 1);
    }
  }

  /** The body of the worklist loop: every unseen caller of `cur` is marked and pushed. */
  method Expand(g: Callers, ghost s: Service, cur: Service, seen0: set<Service>, frontier0: seq<Service>)
    returns (seen: set<Service>, frontier: seq<Service>)
    requires cur == s || Above(g, s, cur)
    requires seen0 <= AllCallers(g)
    requires forall v :: v in seen0 ==> Above(g, s, v)
    ensures seen == seen0 + CallersOf(g, cur)
    ensures frontier0 <= frontier
    ensures forall v :: v in frontier <==> v in frontier0 || v in seen - seen0
    ensures forall v :: v in seen ==> Above(g, s, v)
    ensures seen == seen0 ==> frontier == frontier0
  {
    seen, frontier := seen0, frontier0;
    var todo := CallersOf(g, cur);
    ghost var k0: nat := 0;
    if cur != s {
      k0 :| k0 >= 1 && Reaches(g, s, cur, k0);
    }
    assert Reaches(g, s, cur, k0);
    while todo != {}
      invariant todo <= CallersOf(g, cur)
      invariant seen == seen0 + (CallersOf(g, cur) - todo)
      invariant frontier0 <= frontier
      invariant forall v :: v in frontier <==> v in frontier0 || v in seen - seen0
      invariant forall v :: v in seen ==> Above(g, s, v)
      invariant seen == seen0 ==> frontier == frontier0
    {
      var c :| c in todo;
      todo := todo - {c};
      ReachesOneMore(g, s, cur, c, k0);
      if c !in seen {
        seen := seen + {c};
        frontier := frontier + [c];
      }
    }
  }

  // ---- Hop distances ----

  type Labels = map<Service, nat>

  function Lower(d: Labels, v: Service, x: nat): nat {
    if v in d && d[v] <= x then d[v] else x
  }

  ghost predicate Relaxed(g: Callers, d: Labels, u: Service)
    requires u in d
  {
    forall c :: c in CallersOf(g, u) ==> c in d && d[c] <= d[u] + 1
  }

  /** The label of `e` is new in `d`. */
  predicate Changed(d0: Labels, d: Labels, e: (Service, nat)) {
    e.0 in d && e.1 == d[e.0] && !(e.0 in d0 && d0[e.0] == d[e.0])
  }

  lemma PushOne(d0: Labels, d: Labels, pushed: seq<(Service, nat)>, c: Service, x: nat)
    requires forall e :: e in pushed <==> Changed(d0, d, e)
    requires (c in d ==> c in d0 && d[c] == d0[c]) && !(c in d0 && d0[c] == x)
    ensures forall e :: e in pushed + [(c, x)] <==> Changed(d0, d[c := x], e)
  {
    forall e ensures e in pushed + [(c, x)] <==> Changed(d0, d[c := x], e) {
      assert e in pushed + [(c, x)] <==> e in pushed || e == (c, x);
    }
  }

  /** The body of the search loop: every caller of `cur` is offered the label `hops + 1`, and pushed
      when the offer lowers its label. */
  method Relax(g: Callers, cur: Service, hops: nat, d0: Labels, frontier0: seq<(Service, nat)>)
    returns (d: Labels, frontier: seq<(Service, nat)>)
    ensures d.Keys == d0.Keys + CallersOf(g, cur)
    ensures forall v :: v in d ==> d[v] == if v in CallersOf(g, cur) then Lower(d0, v, hops + 1) else d0[v]
    ensures frontier0 <= frontier
    ensures forall e :: e in frontier[|frontier0|..] <==> Changed(d0, d, e)
  {
    hide CallersOf;
    d, frontier := d0, frontier0;
    var todo := CallersOf(g, cur);
    while todo != {}
      invariant todo <= CallersOf(g, cur)
      invariant d.Keys == d0.Keys + (CallersOf(g, cur) - todo)
      invariant forall v :: v in d ==>
        d[v] == if v in CallersOf(g, cur) - todo then Lower(d0, v, hops + 1) else d0[v]
      invariant frontier0 <= frontier
      invariant forall e :: e in frontier[|frontier0|..] <==> Changed(d0, d, e)
    {
      hide Changed;
      var c :| c in todo;
      todo := todo - {c};
      if c !in d || d[c] > hops + 1 {
        PushOne(d0, d, frontier[|frontier0|..], c, hops + 1);
        d := d[c := hops + 1];
        assert (frontier + [(c, hops + 1)])[|frontier0|..] == frontier[|frontier0|..] + [(c, hops + 1)];
        frontier := frontier + [(c, hops + 1)];
      }
    }
  }

  /** What the search needs to know of the entries pushed. */
  lemma PushedMeans(g: Callers, cur: Service, hops: nat, d0: Labels, frontier0: seq<(Service, nat)>,
                    d: Labels, frontier: seq<(Service, nat)>)
    requires d.Keys == d0.Keys + CallersOf(g, cur)
    requires forall v :: v in d ==> d[v] == if v in CallersOf(g, cur) then Lower(d0, v, hops + 1) else d0[v]
    requires frontier0 <= frontier && forall e :: e in frontier[|frontier0|..] <==> Changed(d0, d, e)
    ensures forall e :: e in frontier ==> e in frontier0 || (e.0 in CallersOf(g, cur) && e.1 == hops + 1)
    ensures forall e :: e in frontier0 ==> e in frontier
    ensures forall v :: v in d && !(v in d0 && d[v] == d0[v]) ==> (v, d[v]) in frontier
    ensures d == d0 ==> frontier == frontier0
  {
    hide CallersOf;
    var pushed := frontier[|frontier0|..];
    assert frontier == frontier0 + pushed;
    forall v | v in d && !(v in d0 && d[v] == d0[v]) ensures (v, d[v]) in frontier {
      assert Changed(d0, d, (v, d[v]));
    }
    if d == d0 {
      assert forall e :: e !in pushed;
      SomeMember(pushed);
    }
  }

  ghost function PickOne(vs: set<Service>): Service
    requires vs != {}
  {
    var v :| v in vs; v
  }

  ghost function LabelSum(vs: set<Service>, d: Labels): nat {
    if vs == {} then 0
    else var v := PickOne(vs); (if v in d then d[v] else 0) + LabelSum(vs - {v}, d)
  }

  lemma {:induction false} LabelSumDrops(vs: set<Service>, d0: Labels, d: Labels)
    requires d.Keys == d0.Keys && forall v :: v in d ==> d[v] <= d0[v]
    ensures LabelSum(vs, d) <= LabelSum(vs, d0)
    ensures (exists v :: v in vs && v in d && d[v] < d0[v]) ==> LabelSum(vs, d) < LabelSum(vs, d0)
  {
    if vs != {} {
      LabelSumDrops(vs - {PickOne(vs)}, d0, d);
      if u :| u in vs && u in d && d[u] < d0[u] {
        assert u == PickOne(vs) || u in vs - {PickOne(vs)};
      }
    }
  }

  ghost predicate EntryOk(g: Callers, s: Service, d: Labels, e: (Service, nat)) {
    e.0 in d && d[e.0] <= e.1 && Reaches(g, s, e.0, e.1)
  }

  /** Every label is the length of a real chain; every stacked entry carries a label that was
      offered; and each label is either still to be propagated or already respected by its callers. */
  ghost predicate SearchInv(g: Callers, s: Service, d: Labels, frontier: seq<(Service, nat)>) {
    && s in d && d[s] == 0 && d.Keys <= AllCallers(g) + {s}
    && (forall v :: v in d ==> Reaches(g, s, v, d[v]))
    && (forall e :: e in frontier ==> EntryOk(g, s, d, e))
    && (forall u :: u in d ==> (u, d[u]) in frontier || Relaxed(g, d, u))
  }

  lemma RelaxKeepsInv(g: Callers, s: Service, cur: Service, hops: nat, d0: Labels, frontier0: seq<(Service, nat)>,
                      d: Labels, frontier: seq<(Service, nat)>)
    requires SearchInv(g, s, d0, frontier0 + [(cur, hops)])
    requires d.Keys == d0.Keys + CallersOf(g, cur)
    requires forall v :: v in d ==> d[v] == if v in CallersOf(g, cur) then Lower(d0, v, hops + 1) else d0[v]
    requires forall e :: e in frontier ==> e in frontier0 || (e.0 in CallersOf(g, cur) && e.1 == hops + 1)
    requires forall e :: e in frontier0 ==> e in frontier
    requires forall v :: v in d && !(v in d0 && d[v] == d0[v]) ==> (v, d[v]) in frontier
    ensures SearchInv(g, s, d, frontier)
  {
    hide Reaches, AllCallers;
    assert EntryOk(g, s, d0, (cur, hops)) by {
      assert (cur, hops) in frontier0 + [(cur, hops)];
    }
    forall c | c in CallersOf(g, cur) ensures Reaches(g, s, c, hops + 1) {
      ReachesOneMore(g, s, cur, c, hops);
    }
    forall e | e in frontier ensures EntryOk(g, s, d, e) {
      if e in frontier0 {
        assert e in frontier0 + [(cur, hops)];
        assert EntryOk(g, s, d0, e);
      }
    }
    forall u | u in d ensures (u, d[u]) in frontier || Relaxed(g, d, u) {
      if u in d0 && d[u] == d0[u] && (u, d0[u]) !in frontier0 {
        assert (u, d0[u]) in frontier0 + [(cur, hops)] ==> u == cur && d0[u] == hops;
      }
    }
  }

  /** Progress: a new service is labelled, or a label drops, or the stack shrinks. */
  ghost predicate Progress(g: Callers, s: Service, d0: Labels, n0: nat, d: Labels, n: nat) {
    var all := AllCallers(g) + {s};
    || d0.Keys < d.Keys
    || (d.Keys == d0.Keys && LabelSum(all, d) < LabelSum(all, d0))
    || (d == d0 && n < n0)
  }

  lemma RelaxProgress(g: Callers, s: Service, d0: Labels, d: Labels, n0: nat, n: nat)
    requires d0.Keys <= d.Keys <= AllCallers(g) + {s}
    requires forall v :: v in d0 ==> d[v] <= d0[v]
    requires d == d0 ==> n < n0
    ensures Progress(g, s, d0, n0, d, n)
  {
    if d.Keys == d0.Keys && d != d0 {
      LabelSumDrops(AllCallers(g) + {s}, d0, d);
      var v :| v in d && d[v] != d0[v];
    }
  }

  method SearchStep(ghost s: Service, g: Callers, d0: Labels, frontier0: seq<(Service, nat)>)
    returns (d: Labels, frontier: seq<(Service, nat)>)
    requires frontier0 != [] && SearchInv(g, s, d0, frontier0)
    ensures SearchInv(g, s, d, frontier)
    ensures Progress(g, s, d0, |frontier0|, d, |frontier|)
  {
    var (cur, hops) := frontier0[|frontier0| - 1];
    var rest := frontier0[..|frontier0| - 1];
    assert frontier0 == rest + [(cur, hops)];
    d, frontier := Relax(g, cur, hops, d0, rest);
    PushedMeans(g, cur, hops, d0, rest, d, frontier);
    RelaxKeepsInv(g, s, cur, hops, d0, rest, d, frontier);
    RelaxProgress(g, s, d0, d, |frontier0|, |frontier|);
  }

  /** Exactly the services some chain reaches, each with the length of a shortest chain. */
  ghost predicate ShortestHops(g: Callers, s: Service, d: Labels) {
    && (forall v :: v in d ==> Reaches(g, s, v, d[v]))
    && (forall v, k: nat :: Reaches(g, s, v, k) ==> v in d && d[v] <= k)
  }

  /** Label-correcting search with a last-in first-out stack. */
  method HopDist(s: Service, g: Callers) returns (d: Labels)
    ensures ShortestHops(g, s, d)
  {
    d := map[s := 0];
    var frontier := [(s, 0)];
    while frontier != []
      invariant SearchInv(g, s, d, frontier)
      decreases AllCallers(g) + {s} - d.Keys, LabelSum(AllCallers(g) + {s}, d), |frontier|
    {
      d, frontier := SearchStep(s, g, d, frontier);
    }
    forall v, k: nat | Reaches(g, s, v, k) ensures v in d && d[v] <= k {
      LabelsAreMinimal(g, s, d, v, k);
    }
  }

  /** The labelled services are the start and its transitive callers. */
  lemma HopDomain(g: Callers, s: Service, d: Labels, v: Service)
    requires ShortestHops(g, s, d)
    ensures v in d <==> v == s || Above(g, s, v)
    ensures v in d ==> (d[v] == 0 <==> v == s)
  {
    assert Reaches(g, s, s, 0);
    if v in d {
      assert Reaches(g, s, v, d[v]);
    }
  }

  lemma {:induction false} LabelsAreMinimal(g: Callers, s: Service, d: Labels, v: Service, k: nat)
    requires s in d && d[s] == 0 && (forall u :: u in d ==> Relaxed(g, d, u))
    requires Reaches(g, s, v, k)
    ensures v in d && d[v] <= k
    decreases k
  {
    if k > 0 {
      var u :| Reaches(g, s, u, k - 1) && v in CallersOf(g, u);
      LabelsAreMinimal(g, s, d, u, k - 1);
    }
  }

  /** The least number of caller hops from `s` up to `v`, if `v` is reachable at all. */
  ghost function Hops(g: Callers, s: Service, v: Service): (r: Option<nat>)
    ensures r.Some? <==> exists k: nat :: Reaches(g, s, v, k)
    ensures r.Some? ==> Reaches(g, s, v, r.value) && forall k: nat :: Reaches(g, s, v, k) ==> r.value <= k
  {
    if k: nat :| Reaches(g, s, v, k) then
      var least := Least(g, s, v, k);
      assert Reaches(g, s, v, least);
      Some(least)
    else None
  }

  ghost function Least(g: Callers, s: Service, v: Service, k: nat): (r: nat)
    requires Reaches(g, s, v, k)
    ensures Reaches(g, s, v, r) && forall j: nat :: Reaches(g, s, v, j) ==> r <= j
  {
    if j: nat :| j < k && Reaches(g, s, v, j) then Least(g, s, v, j) else k
  }

  lemma LabelsAreHops(g: Callers, s: Service, d: Labels, v: Service)
    requires ShortestHops(g, s, d)
    ensures Hops(g, s, v) == if v in d then Some(d[v]) else None
  {
    if v in d {
      assert Reaches(g, s, v, d[v]);
    }
  }

  lemma HopsZero(g: Callers, s: Service, v: Service)
    ensures Hops(g, s, v) == Some(0) <==> v == s
  {
    assert Reaches(g, s, s, 0);
  }
}
