/** The disjoint-set forest inside `minhash.group_signatures`: an array of parents, a `find` that
    halves paths in place, and unions that hang one root under another. */
module UnionFind {

  // ---- connectivity, independently of any forest ----

  type Edges = set<(nat, nat)>

  predicate Linked(edges: Edges, a: nat, b: nat) {
    (a, b) in edges || (b, a) in edges
  }

  predicate IsPath(edges: Edges, p: seq<nat>) {
    p != [] && forall i :: 0 <= i < |p| - 1 ==> Linked(edges, p[i], p[i + 1])
  }

  predicate Joins(edges: Edges, p: seq<nat>, a: nat, b: nat) {
    IsPath(edges, p) && p[0] == a && p[|p| - 1] == b
  }

  /** Some path of edges, walked in either direction, leads from a to b. */
  ghost predicate Connected(edges: Edges, a: nat, b: nat) {
    exists p :: Joins(edges, p, a, b)
  }

  lemma ConnectedReflexive(edges: Edges, a: nat)
    ensures Connected(edges, a, a)
  {
    assert Joins(edges, [a], a, a);
  }

  lemma ConnectedEdge(edges: Edges, a: nat, b: nat)
    requires Linked(edges, a, b)
    ensures Connected(edges, a, b)
  {
    assert Joins(edges, [a, b], a, b);
  }

  lemma ConnectedTransitive(edges: Edges, a: nat, b: nat, c: nat)
    requires Connected(edges, a, b) && Connected(edges, b, c)
    ensures Connected(edges, a, c)
  {
    var p :| Joins(edges, p, a, b);
    var q :| Joins(edges, q, b, c);
    hide Linked;
    var r := p + q[1..];
    forall i | 0 <= i < |r| - 1 ensures Linked(edges, r[i], r[i + 1]) {
      if i < |p| - 1 {
        assert r[i] == p[i] && r[i + 1] == p[i + 1];
      } else {
        assert r[i] == q[i - (|p| - 1)] && r[i + 1] == q[i - (|p| - 1) + 1];
      }
    }
    assert Joins(edges, r, a, c);
  }

  lemma ConnectedSymmetric(edges: Edges, a: nat, b: nat)
    requires Connected(edges, a, b)
    ensures Connected(edges, b, a)
  {
    var p :| Joins(edges, p, a, b);
    var r := seq(|p|, i requires 0 <= i < |p| => p[|p| - 1 - i]);
    forall i | 0 <= i < |r| - 1 ensures Linked(edges, r[i], r[i + 1]) {
      var k := |p| - 2 - i;
      assert Linked(edges, p[k], p[k + 1]);
    }
    assert Joins(edges, r, b, a);
  }

  lemma ConnectedMonotone(edges: Edges, more: Edges, a: nat, b: nat)
    requires Connected(edges, a, b) && edges <= more
    ensures Connected(more, a, b)
  {
    var p :| Joins(edges, p, a, b);
    forall i | 0 <= i < |p| - 1 ensures Linked(more, p[i], p[i + 1]) {
      assert Linked(edges, p[i], p[i + 1]);
    }
    assert Joins(more, p, a, b);
  }

  // ---- forests ----

  /** A parent list whose links strictly descend in `depth`, hence without cycles. */
  ghost predicate Forest(parent: seq<nat>, depth: seq<nat>) {
    && |depth| == |parent|
    && forall x :: 0 <= x < |parent| ==>
         parent[x] < |parent| && (parent[x] != x ==> depth[parent[x]] < depth[x])
  }

  ghost function Root(parent: seq<nat>, depth: seq<nat>, x: nat): (r: nat)
    requires Forest(parent, depth) && x < |parent|
    ensures r < |parent| && parent[r] == r
    decreases depth[x]
  {
    if parent[x] == x then x else Root(parent, depth, parent[x])
  }

  /** Halving one step of a path keeps the forest, at the same depths, and every root. */
  lemma {:induction false} HalvingKeepsRoot(parent: seq<nat>, depth: seq<nat>, x: nat, y: nat)
    requires Forest(parent, depth) && x < |parent| && y < |parent|
    ensures Forest(parent[x := parent[parent[x]]], depth)
    ensures Root(parent[x := parent[parent[x]]], depth, y) == Root(parent, depth, y)
    decreases depth[y]
  {
    var halved := parent[x := parent[parent[x]]];
    if parent[y] != y {
      HalvingKeepsRoot(parent, depth, x, parent[y]);
      if y == x {
        var g := parent[parent[x]];
        if g != parent[x] {
          HalvingKeepsRoot(parent, depth, x, g);
        }
        if g == x { assert depth[g] < depth[x]; }
      }
    }
  }

  /** The depths after hanging the root a under the root b. */
  ghost function Deepened(parent: seq<nat>, depth: seq<nat>, a: nat, b: nat): (d: seq<nat>)
    requires Forest(parent, depth) && a < |parent| && b < |parent|
    ensures |d| == |depth|
  {
    seq(|depth|, y requires 0 <= y < |depth| =>
      if Root(parent, depth, y) == a then depth[y] + depth[b] + 1 else depth[y])
  }

  lemma UnionKeepsForest(parent: seq<nat>, depth: seq<nat>, a: nat, b: nat)
    requires Forest(parent, depth) && a < |parent| && b < |parent|
    requires parent[a] == a && parent[b] == b && a != b
    ensures Forest(parent[a := b], Deepened(parent, depth, a, b))
  {
    var p, d := parent[a := b], Deepened(parent, depth, a, b);
    forall x | 0 <= x < |p| ensures p[x] < |p| && (p[x] != x ==> d[p[x]] < d[x]) {
      if x != a && parent[x] != x {
        assert Root(parent, depth, x) == Root(parent, depth, parent[x]);
      }
    }
  }

  /** Exactly the nodes of a's tree change their root, to b. */
  lemma {:induction false} UnionRoots(parent: seq<nat>, depth: seq<nat>, a: nat, b: nat, y: nat)
    requires Forest(parent, depth) && a < |parent| && b < |parent| && y < |parent|
    requires parent[a] == a && parent[b] == b && a != b
    requires Forest(parent[a := b], Deepened(parent, depth, a, b))
    ensures Root(parent[a := b], Deepened(parent, depth, a, b), y) ==
            if Root(parent, depth, y) == a then b else Root(parent, depth, y)
    decreases depth[y]
  {
    hide Deepened;
    if parent[y] != y {
      UnionRoots(parent, depth, a, b, parent[y]);
    }
  }

  /** The forest's trees are the components of the edges. */
  ghost predicate Represents(parent: seq<nat>, depth: seq<nat>, edges: Edges) {
    && Forest(parent, depth)
    && (forall e :: e in edges ==> e.0 < |parent| && e.1 < |parent| && Root(parent, depth, e.0) == Root(parent, depth, e.1))
    && forall x :: 0 <= x < |parent| ==> Connected(edges, x, Root(parent, depth, x))
  }

  lemma {:induction false} PathKeepsRoot(parent: seq<nat>, depth: seq<nat>, edges: Edges, p: seq<nat>)
    requires Represents(parent, depth, edges) && IsPath(edges, p) && p[0] < |parent|
    ensures p[|p| - 1] < |parent| && Root(parent, depth, p[|p| - 1]) == Root(parent, depth, p[0])
    decreases |p|
  {
    hide Connected;
    if |p| > 1 {
      assert Linked(edges, p[0], p[1]);
      assert (p[0], p[1]) in edges || (p[1], p[0]) in edges;
      assert IsPath(edges, p[1..]) by {
        forall i | 0 <= i < |p[1..]| - 1 ensures Linked(edges, p[1..][i], p[1..][i + 1]) {
          assert Linked(edges, p[i + 1], p[i + 2]);
        }
      }
      PathKeepsRoot(parent, depth, edges, p[1..]);
    }
  }

  /** Two nodes have one root exactly when they are connected. */
  lemma SameRootIffConnected(parent: seq<nat>, depth: seq<nat>, edges: Edges, a: nat, b: nat)
    requires Represents(parent, depth, edges) && a < |parent| && b < |parent|
    ensures Root(parent, depth, a) == Root(parent, depth, b) <==> Connected(edges, a, b)
  {
    hide IsPath;
    if Root(parent, depth, a) == Root(parent, depth, b) {
      hide Connected;
      ConnectedSymmetric(edges, b, Root(parent, depth, b));
      ConnectedTransitive(edges, a, Root(parent, depth, a), b);
    } else if Connected(edges, a, b) {
      var p :| Joins(edges, p, a, b);
      PathKeepsRoot(parent, depth, edges, p);
      assert false;
    }
  }

  lemma SameComponentsRepresent(parent: seq<nat>, parent': seq<nat>, depth: seq<nat>, edges: Edges)
    requires Represents(parent, depth, edges) && Forest(parent', depth) && |parent'| == |parent|
    requires forall y :: 0 <= y < |parent| ==> Root(parent', depth, y) == Root(parent, depth, y)
    ensures Represents(parent', depth, edges)
  {
    hide Connected, Root;
  }

  /** Joining the trees of an edge's ends represents the edges with that edge. */
  lemma UnionRepresents(parent: seq<nat>, depth: seq<nat>, edges: Edges, u: nat, v: nat)
    requires Represents(parent, depth, edges) && u < |parent| && v < |parent|
    requires Root(parent, depth, u) != Root(parent, depth, v)
    ensures var a, b := Root(parent, depth, u), Root(parent, depth, v);
            Represents(parent[a := b], Deepened(parent, depth, a, b), edges + {(u, v)})
  {
    var a, b := Root(parent, depth, u), Root(parent, depth, v);
    var p, d, all := parent[a := b], Deepened(parent, depth, a, b), edges + {(u, v)};
    UnionKeepsForest(parent, depth, a, b);
    hide Deepened, Connected;
    forall y | 0 <= y < |parent|
      ensures Root(p, d, y) == (if Root(parent, depth, y) == a then b else Root(parent, depth, y))
    {
      UnionRoots(parent, depth, a, b, y);
    }
    hide Root;
    forall x | 0 <= x < |p| ensures Connected(all, x, Root(p, d, x)) {
      ConnectedMonotone(edges, all, x, Root(parent, depth, x));
      if Root(parent, depth, x) == a {
        ConnectedMonotone(edges, all, u, a);
        ConnectedMonotone(edges, all, v, b);
        ConnectedSymmetric(all, u, a);
        ConnectedEdge(all, u, v);
        ConnectedTransitive(all, x, a, u);
        ConnectedTransitive(all, x, u, v);
        ConnectedTransitive(all, x, v, b);
      }
    }
  }

  /** An edge inside one tree changes nothing. */
  lemma RedundantEdge(parent: seq<nat>, depth: seq<nat>, edges: Edges, u: nat, v: nat)
    requires Represents(parent, depth, edges) && u < |parent| && v < |parent|
    requires Root(parent, depth, u) == Root(parent, depth, v)
    ensures Represents(parent, depth, edges + {(u, v)})
  {
    hide Root, Connected;
    forall x | 0 <= x < |parent| ensures Connected(edges + {(u, v)}, x, Root(parent, depth, x)) {
      ConnectedMonotone(edges, edges + {(u, v)}, x, Root(parent, depth, x));
    }
  }

  // ---- the code ----

  /** `find`: climb to the root, halving the path on the way. */
  method Find(parent: array<nat>, start: nat, ghost depth: seq<nat>) returns (x: nat)
    requires Forest(parent[..], depth) && start < parent.Length
    modifies parent
    ensures Forest(parent[..], depth)
    ensures x == Root(old(parent[..]), depth, start)
    ensures forall y :: 0 <= y < parent.Length ==> Root(parent[..], depth, y) == Root(old(parent[..]), depth, y)
  {
    x := start;
    while parent[x] != x
      invariant x < parent.Length && Forest(parent[..], depth)
      invariant Root(parent[..], depth, x) == Root(old(parent[..]), depth, start)
      invariant forall y :: 0 <= y < parent.Length ==> Root(parent[..], depth, y) == Root(old(parent[..]), depth, y)
      decreases depth[x]
    {
      ghost var before := parent[..];
      forall y | 0 <= y < parent.Length
        ensures Forest(before[x := before[before[x]]], depth)
        ensures Root(before[x := before[before[x]]], depth, y) == Root(before, depth, y)
      {
        HalvingKeepsRoot(before, depth, x, y);
      }
      parent[x] := parent[parent[x]];
      assert parent[..] == before[x := before[before[x]]];
      x := parent[x];
    }
  }
}
