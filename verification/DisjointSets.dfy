/** Union-find with path halving and unranked linking, as the semantic merge uses it.

    The parent array is described by a ghost `Forest`: `rep[x]` is the root that `x` hangs under,
    and `rank` strictly increases along every parent link, so that chasing parents terminates
    although linking is not monotone in the index. */
module DisjointSets {
  import opened Sequences

  datatype Forest = Forest(rep: seq<nat>, rank: seq<nat>, height: nat)

  ghost predicate Shaped(p: seq<nat>, f: Forest) {
    && |p| == |f.rep| == |f.rank|
    && forall x :: 0 <= x < |p| ==> p[x] < |p| && f.rep[x] < |p|
  }

  ghost predicate NodeOk(p: seq<nat>, f: Forest, x: nat)
    requires Shaped(p, f) && x < |p|
  {
    && f.rank[x] <= f.height
    && p[f.rep[x]] == f.rep[x] && f.rep[p[x]] == f.rep[x]
    && (p[x] == x ==> f.rep[x] == x)
    && (p[x] != x ==> f.rank[x] < f.rank[p[x]])
  }

  ghost predicate Represents(p: seq<nat>, f: Forest) {
    && Shaped(p, f)
    && forall x :: 0 <= x < |p| ==> NodeOk(p, f, x)
  }

  /** The root reached by following parent links only, with no halving. */
  ghost function Chase(p: seq<nat>, f: Forest, x: nat): nat
    requires Represents(p, f) && x < |p|
    decreases f.height - f.rank[x]
  {
    assert NodeOk(p, f, x) && NodeOk(p, f, p[x]);
    if p[x] == x then x else Chase(p, f, p[x])
  }

  /** `rep` names exactly the root that the parent links lead to. */
  lemma {:induction false} ChaseIsRep(p: seq<nat>, f: Forest, x: nat)
    requires Represents(p, f) && x < |p|
    ensures Chase(p, f, x) == f.rep[x] && p[f.rep[x]] == f.rep[x]
    decreases f.height - f.rank[x]
  {
    assert NodeOk(p, f, x) && NodeOk(p, f, p[x]);
    if p[x] != x {
      ChaseIsRep(p, f, p[x]);
    }
  }

  /** Following the links of any array the forest describes leads every node to the same root:
      halving may rewrite parents at will as long as the forest still describes them. */
  lemma HalvingKeepsRoots(p: seq<nat>, q: seq<nat>, f: Forest, x: nat)
    requires Represents(p, f) && Represents(q, f) && x < |p|
    ensures Chase(p, f, x) == Chase(q, f, x)
  {
    ChaseIsRep(p, f, x);
    ChaseIsRep(q, f, x);
  }

  lemma HalvingStep(p: seq<nat>, f: Forest, x: nat)
    requires Represents(p, f) && x < |p|
    ensures p[x] < |p| && p[p[x]] < |p|
    ensures Represents(p[x := p[p[x]]], f)
  {
    var y := p[x];
    assert NodeOk(p, f, x) && NodeOk(p, f, y) && NodeOk(p, f, p[y]);
    var q := p[x := p[y]];
    forall z | 0 <= z < |q| ensures NodeOk(q, f, z) {
      assert NodeOk(p, f, z) && NodeOk(p, f, f.rep[z]);
    }
  }

  method Find(parent: array<nat>, ghost f: Forest, start: nat) returns (root: nat)
    requires Represents(parent[..], f) && start < parent.Length
    modifies parent
    ensures Represents(parent[..], f)
    ensures root == f.rep[start] == Chase(parent[..], f, start)
    ensures root < parent.Length && parent[root] == root
  {
    var x: nat := start;
    assert NodeOk(parent[..], f, x);
    while parent[x] != x
      invariant x < parent.Length && Represents(parent[..], f)
      invariant f.rep[x] == f.rep[start]
      decreases f.height - f.rank[x]
    {
      assert NodeOk(parent[..], f, x) && NodeOk(parent[..], f, parent[x]);
      HalvingStep(parent[..], f, x);
      ghost var p := parent[..];
      parent[x] := parent[parent[x]];
      assert parent[..] == p[x := p[p[x]]];
      assert NodeOk(parent[..], f, x);
      x := parent[x];
    }
    assert NodeOk(parent[..], f, x);
    ChaseIsRep(parent[..], f, start);
    root := x;
  }

  /** The representatives after everything under `b`'s root moves under `a`'s root. */
  ghost function Joined(rep: seq<nat>, a: nat, b: nat): (r: seq<nat>)
    requires a < |rep| && b < |rep|
    ensures |r| == |rep|
  {
    seq(|rep|, z requires 0 <= z < |rep| => if rep[z] == rep[b] then rep[a] else rep[z])
  }

  lemma LinkStep(p: seq<nat>, f: Forest, a: nat, b: nat, g: Forest)
    requires Represents(p, f) && a < |p| && b < |p| && f.rep[a] != f.rep[b]
    requires g == Forest(Joined(f.rep, a, b),
                         f.rank[f.rep[a] := MaxNat(f.rank[f.rep[a]], f.rank[f.rep[b]] + 1)], f.height + 1)
    ensures Represents(p[f.rep[b] := f.rep[a]], g)
  {
    var ra, rb := f.rep[a], f.rep[b];
    assert NodeOk(p, f, a) && NodeOk(p, f, b) && NodeOk(p, f, ra) && NodeOk(p, f, rb);
    var q := p[rb := ra];
    forall z | 0 <= z < |q| ensures NodeOk(q, g, z) {
      assert NodeOk(p, f, z) && NodeOk(p, f, p[z]) && NodeOk(p, f, f.rep[z]);
    }
  }

  method Union(parent: array<nat>, ghost f: Forest, a: nat, b: nat) returns (linked: bool, ghost g: Forest)
    requires Represents(parent[..], f) && a < parent.Length && b < parent.Length
    modifies parent
    ensures Represents(parent[..], g)
    ensures linked <==> f.rep[a] != f.rep[b]
    ensures g.rep == Joined(f.rep, a, b)
  {
    var ra := Find(parent, f, a);
    var rb := Find(parent, f, b);
    if ra == rb {
      assert Joined(f.rep, a, b) == f.rep;
      return false, f;
    }
    g := Forest(Joined(f.rep, a, b), f.rank[ra := MaxNat(f.rank[ra], f.rank[rb] + 1)], f.height + 1);
    LinkStep(parent[..], f, a, b, g);
    ghost var p := parent[..];
    parent[rb] := ra;
    assert parent[..] == p[rb := ra];
    linked := true;
  }

  // ---- What the classes mean: chains of edges ----

  ghost predicate Adjacent(edges: set<(nat, nat)>, u: nat, v: nat) {
    (u, v) in edges || (v, u) in edges
  }

  ghost predicate Path(edges: set<(nat, nat)>, p: seq<nat>) {
    |p| > 0 && forall k :: 0 <= k < |p| - 1 ==> Adjacent(edges, p[k], p[k + 1])
  }

  ghost predicate Connects(edges: set<(nat, nat)>, p: seq<nat>, u: nat, v: nat) {
    Path(edges, p) && p[0] == u && p[|p| - 1] == v
  }

  /** `u` and `v` are joined by a chain of edges, of any length including none. */
  ghost predicate Chained(edges: set<(nat, nat)>, u: nat, v: nat) {
    exists p :: Connects(edges, p, u, v)
  }

  /** Two indices share a representative exactly when a chain joins them. */
  ghost predicate Classifies(rep: seq<nat>, edges: set<(nat, nat)>) {
    forall i, j :: 0 <= i < |rep| && 0 <= j < |rep| ==> (rep[i] == rep[j] <==> Chained(edges, i, j))
  }

  lemma ChainTransitive(edges: set<(nat, nat)>, u: nat, v: nat, w: nat)
    requires Chained(edges, u, v) && Chained(edges, v, w)
    ensures Chained(edges, u, w)
  {
    var p :| Connects(edges, p, u, v);
    var q :| Connects(edges, q, v, w);
    var r := p + q[1..];
    forall k | 0 <= k < |r| - 1 ensures Adjacent(edges, r[k], r[k + 1]) {
      if k >= |p| - 1 {
        assert Adjacent(edges, q[k - (|p| - 1)], q[k - (|p| - 1) + 1]);
      }
    }
    assert Connects(edges, r, u, w);
  }

  lemma ChainGrows(edges: set<(nat, nat)>, more: set<(nat, nat)>, u: nat, v: nat)
    requires Chained(edges, u, v) && edges <= more
    ensures Chained(more, u, v)
  {
    var p :| Connects(edges, p, u, v);
    forall k | 0 <= k < |p| - 1 ensures Adjacent(more, p[k], p[k + 1]) {
      assert Adjacent(edges, p[k], p[k + 1]);
    }
    assert Connects(more, p, u, v);
  }

  ghost predicate InRange(edges: set<(nat, nat)>, n: nat) {
    forall e :: e in edges ==> e.0 < n && e.1 < n
  }

  /** Any colouring that is constant along edges is constant along chains. */
  lemma {:induction false} ConstantAlongPath(colour: seq<nat>, edges: set<(nat, nat)>, p: seq<nat>)
    requires Path(edges, p) && p[0] < |colour| && InRange(edges, |colour|)
    requires forall e :: e in edges ==> colour[e.0] == colour[e.1]
    ensures p[|p| - 1] < |colour| && colour[p[0]] == colour[p[|p| - 1]]
    decreases |p|
  {
    if |p| > 1 {
      assert Adjacent(edges, p[0], p[1]);
      forall k | 0 <= k < |p[1..]| - 1 ensures Adjacent(edges, p[1..][k], p[1..][k + 1]) {
        assert Adjacent(edges, p[k + 1], p[k + 1 + 1]);
      }
      ConstantAlongPath(colour, edges, p[1..]);
    }
  }

  lemma EmptyClassifies(rep: seq<nat>)
    requires forall x :: 0 <= x < |rep| ==> rep[x] == x
    ensures Classifies(rep, {})
  {
    forall i, j | 0 <= i < |rep| && 0 <= j < |rep|
      ensures rep[i] == rep[j] <==> Chained({}, i, j)
    {
      assert Connects({}, [i], i, i);
      if Chained({}, i, j) {
        var p :| Connects({}, p, i, j);
        assert |p| > 1 ==> Adjacent({}, p[0], p[0 + 1]);
      }
    }
  }

  lemma AddEdgeForward(rep: seq<nat>, edges: set<(nat, nat)>, a: nat, b: nat, i: nat, j: nat)
    requires Classifies(rep, edges) && a < |rep| && b < |rep| && i < |rep| && j < |rep|
    requires Joined(rep, a, b)[i] == Joined(rep, a, b)[j]
    ensures Chained(edges + {(a, b)}, i, j)
  {
    var more := edges + {(a, b)};
    if rep[i] == rep[j] {
      ChainGrows(edges, more, i, j);
    } else {
      var u, v := if rep[i] == rep[b] then b else a, if rep[i] == rep[b] then a else b;
      assert rep[i] == rep[u] && rep[v] == rep[j];
      ChainGrows(edges, more, i, u);
      ChainGrows(edges, more, v, j);
      assert Adjacent(more, u, v);
      assert Connects(more, [u, v], u, v);
      ChainTransitive(more, i, u, v);
      ChainTransitive(more, i, v, j);
    }
  }

  /** Linking `a` and `b` turns the classes of a graph into the classes of the graph with that edge. */
  lemma AddEdge(rep: seq<nat>, edges: set<(nat, nat)>, a: nat, b: nat)
    requires Classifies(rep, edges) && a < |rep| && b < |rep| && InRange(edges, |rep|)
    ensures Classifies(Joined(rep, a, b), edges + {(a, b)})
  {
    var more, r := edges + {(a, b)}, Joined(rep, a, b);
    forall i, j | 0 <= i < |r| && 0 <= j < |r|
      ensures r[i] == r[j] <==> Chained(more, i, j)
    {
      if r[i] == r[j] {
        AddEdgeForward(rep, edges, a, b, i, j);
      }
      if Chained(more, i, j) {
        var p :| Connects(more, p, i, j);
        forall e | e in more ensures r[e.0] == r[e.1] {
          if e in edges {
            assert Adjacent(edges, e.0, e.1);
            assert Connects(edges, [e.0, e.1], e.0, e.1);
          }
        }
        ConstantAlongPath(r, more, p);
      }
    }
  }
}
