/** Field spreading over a graph: `spread_graph` of `propagation.py`, with floats read as reals.

    A visit of the search is identified with the walk it arrived by, so the list of visits is the
    whole history: the queue is its tail, `seen` its nearest arrivals and `fired` a sum over it. */
module Propagation {
  import opened Outcomes


  /** The caller's node keys. */
  type Node = string

  /** An edge as the caller's `neighbours` yields it; infinities and NaN are not finite. */
  datatype Edge = NotFinite | Finite(length: real)

  /** `reach`: past it the search prunes. */
  datatype Horizon = Unbounded | Within(limit: real)

  /** `max_steps`. */
  datatype StepCap = NoCap | Cap(steps: int)

  datatype Hop = Hop(to: Node, length: real)

  /** The neighbour lists of the finitely many nodes that have any. */
  type Graph = map<Node, seq<(Node, Edge)>>

  type Walk = seq<Hop>

  datatype Entry = Entry(node: Node, dist: real, steps: nat)

  function Neighbours(g: Graph, n: Node): seq<(Node, Edge)> {
    if n in g then g[n] else []
  }

  predicate Usable(edge: Edge) {
    edge.Finite? && edge.length >= 0.0
  }

  predicate Past(d: real, reach: Horizon) {
    reach.Within? && d > reach.limit
  }

  predicate Capped(steps: int, cap: StepCap) {
    cap.Cap? && steps >= cap.steps
  }

  // ---- walks ----

  ghost predicate HasEdge(g: Graph, n: Node, h: Hop) {
    h.length >= 0.0 && (h.to, Finite(h.length)) in Neighbours(g, n)
  }

  function End(s: Node, w: Walk): Node {
    if w == [] then s else w[|w| - 1].to
  }

  function Length(w: Walk): real {
    if w == [] then 0.0 else Length(w[..|w| - 1]) + w[|w| - 1].length
  }

  ghost predicate IsWalk(g: Graph, s: Node, w: Walk) {
    w != [] ==> IsWalk(g, s, w[..|w| - 1]) && HasEdge(g, End(s, w[..|w| - 1]), w[|w| - 1])
  }

  /** A walk from s to v that the hop cap and the horizon allow; standing still is always allowed. */
  ghost predicate Allowed(g: Graph, s: Node, reach: Horizon, cap: StepCap, w: Walk, v: Node) {
    && IsWalk(g, s, w) && End(s, w) == v
    && (w != [] ==> !Capped(|w| - 1, cap) && !Past(Length(w), reach))
  }

  /** `seen` holds exactly the nodes an allowed walk reaches, each at the least length of such a walk. */
  ghost predicate Nearest(g: Graph, s: Node, reach: Horizon, cap: StepCap, seen: map<Node, real>) {
    && (forall v :: v in seen ==> exists w :: Allowed(g, s, reach, cap, w, v) && Length(w) == seen[v])
    && (forall v, w :: Allowed(g, s, reach, cap, w, v) ==> v in seen && seen[v] <= Length(w))
  }

  // ---- simple walks, of which there are finitely many ----

  function Nodes(s: Node, w: Walk): set<Node> {
    if w == [] then {s} else Nodes(s, w[..|w| - 1]) + {w[|w| - 1].to}
  }

  predicate Simple(s: Node, w: Walk) {
    w != [] ==> Simple(s, w[..|w| - 1]) && w[|w| - 1].to !in Nodes(s, w[..|w| - 1])
  }

  ghost function Hops(g: Graph): set<Hop> {
    set n, e | n in g && e in g[n] && e.1.Finite? :: Hop(e.0, e.1.length)
  }

  ghost function Targets(s: Node, g: Graph): set<Node> {
    {s} + set h | h in Hops(g) :: h.to
  }

  /** All hop sequences of length at most n over the graph's edges. */
  ghost function WalksUpTo(g: Graph, n: nat): set<Walk> {
    if n == 0 then {[]}
    else WalksUpTo(g, n - 1) + set w, h | w in WalksUpTo(g, n - 1) && h in Hops(g) :: w + [h]
  }

  /** The set of hop sequences that holds every simple walk. */
  ghost function Bound(g: Graph, s: Node): set<Walk> {
    WalksUpTo(g, |Targets(s, g)|)
  }

  lemma {:induction false} WalkIsBounded(g: Graph, s: Node, w: Walk, n: nat)
    requires IsWalk(g, s, w) && |w| <= n
    ensures w in WalksUpTo(g, n)
  {
    if w == [] {
      if n > 0 { WalkIsBounded(g, s, w, n - 1); }
    } else {
      var p, h := w[..|w| - 1], w[|w| - 1];
      WalkIsBounded(g, s, p, n - 1);
      assert w == p + [h];
      assert h in Hops(g) by { assert (h.to, Finite(h.length)) in g[End(s, p)]; }
    }
  }

  lemma {:induction false} SimpleNodes(g: Graph, s: Node, w: Walk)
    requires IsWalk(g, s, w) && Simple(s, w)
    ensures |Nodes(s, w)| == |w| + 1 && Nodes(s, w) <= Targets(s, g)
  {
    if w != [] {
      var p, h := w[..|w| - 1], w[|w| - 1];
      SimpleNodes(g, s, p);
      assert h in Hops(g) by { assert (h.to, Finite(h.length)) in g[End(s, p)]; }
    }
  }

  lemma SubsetSize<T>(a: set<T>, b: set<T>)
    requires a <= b
    ensures |a| <= |b|
  {
    assert b == a + (b - a);
  }

  lemma SimpleIsBounded(g: Graph, s: Node, w: Walk)
    requires IsWalk(g, s, w) && Simple(s, w)
    ensures w in Bound(g, s)
  {
    SimpleNodes(g, s, w);
    SubsetSize(Nodes(s, w), Targets(s, g));
    WalkIsBounded(g, s, w, |Targets(s, g)|);
  }

  // ---- the order in which walks are found ----

  /** The first place of a hop in a neighbour list; the length of the list when it is not there. */
  function Place(edges: seq<(Node, Edge)>, h: Hop): (k: nat)
    ensures k <= |edges| && (k < |edges| ==> edges[k] == (h.to, Finite(h.length)))
    ensures forall j :: 0 <= j < k ==> edges[j] != (h.to, Finite(h.length))
  {
    if edges == [] || edges[0] == (h.to, Finite(h.length)) then 0 else 1 + Place(edges[1..], h)
  }

  /** Equally many hops, and at the first hop where they part v takes the earlier neighbour. */
  ghost predicate Before(g: Graph, s: Node, v: Walk, w: Walk)
    decreases |v|
  {
    && |v| == |w| && v != []
    && var p, q := v[..|v| - 1], w[..|w| - 1];
       || Before(g, s, p, q)
       || (p == q && Place(Neighbours(g, End(s, p)), v[|v| - 1]) < Place(Neighbours(g, End(s, p)), w[|w| - 1]))
  }

  /** Fewer hops, or equally many and before in neighbour order. */
  ghost predicate Earlier(g: Graph, s: Node, v: Walk, w: Walk) {
    |v| < |w| || Before(g, s, v, w)
  }

  lemma {:induction false} BeforeIrreflexive(g: Graph, s: Node, w: Walk)
    ensures !Before(g, s, w, w)
    decreases |w|
  {
    if w != [] { BeforeIrreflexive(g, s, w[..|w| - 1]); }
  }

  lemma {:induction false} BeforeTransitive(g: Graph, s: Node, u: Walk, v: Walk, w: Walk)
    requires Before(g, s, u, v) && Before(g, s, v, w)
    ensures Before(g, s, u, w)
    decreases |u|
  {
    var p, q, r := u[..|u| - 1], v[..|v| - 1], w[..|w| - 1];
    if Before(g, s, p, q) && Before(g, s, q, r) { BeforeTransitive(g, s, p, q, r); }
  }

  lemma EarlierTransitive(g: Graph, s: Node, u: Walk, v: Walk, w: Walk)
    requires u == v || Earlier(g, s, u, v)
    requires v == w || Earlier(g, s, v, w)
    ensures u == w || Earlier(g, s, u, w)
  {
    if Before(g, s, u, v) && Before(g, s, v, w) { BeforeTransitive(g, s, u, v, w); }
  }

  /** No two walks are each earlier than the other. */
  lemma EarlierAsymmetric(g: Graph, s: Node, v: Walk, w: Walk)
    requires Earlier(g, s, v, w)
    ensures !Earlier(g, s, w, v)
  {
    BeforeIrreflexive(g, s, v);
    if Before(g, s, w, v) { BeforeTransitive(g, s, v, w, v); }
  }

  lemma EarlierIrreflexive(g: Graph, s: Node, w: Walk)
    ensures !Earlier(g, s, w, w)
  {
    BeforeIrreflexive(g, s, w);
  }

  lemma EarlierExtends(g: Graph, s: Node, v: Walk, w: Walk, h: Hop, h': Hop)
    requires Earlier(g, s, v, w)
    ensures Earlier(g, s, v + [h], w + [h'])
  {
    assert (v + [h])[..|v|] == v && (w + [h'])[..|w|] == w;
  }

  lemma PlaceOrders(g: Graph, s: Node, w: Walk, h: Hop, h': Hop)
    requires Place(Neighbours(g, End(s, w)), h) < Place(Neighbours(g, End(s, w)), h')
    ensures Earlier(g, s, w + [h], w + [h'])
  {
    assert (w + [h])[..|w|] == w && (w + [h'])[..|w|] == w;
  }

  /** The first fewest-hop allowed walk to v in neighbour order. */
  ghost predicate FirstFewest(g: Graph, s: Node, reach: Horizon, cap: StepCap, f: Walk, v: Node) {
    Allowed(g, s, reach, cap, f, v) && forall w :: Allowed(g, s, reach, cap, w, v) ==> f == w || Earlier(g, s, f, w)
  }

  /** No allowed walk to v is shorter than w. */
  ghost predicate Shortest(g: Graph, s: Node, reach: Horizon, cap: StepCap, w: Walk, v: Node) {
    Allowed(g, s, reach, cap, w, v) && forall u :: Allowed(g, s, reach, cap, u, v) ==> Length(w) <= Length(u)
  }

  // ---- the first-in first-out search, as a function of its input ----

  /** Some visit has reached v at most this far. */
  ghost predicate Reached(s: Node, visits: seq<Walk>, v: Node, dist: real) {
    exists i :: 0 <= i < |visits| && End(s, visits[i]) == v && Length(visits[i]) <= dist
  }

  /** An edge the search looks at: a usable length that stays within the horizon. */
  predicate Open(reach: Horizon, w: Walk, e: (Node, Edge)) {
    Usable(e.1) && !Past(Length(w) + e.1.length, reach)
  }

  function Arrival(w: Walk, e: (Node, Edge)): Walk
    requires Usable(e.1)
  {
    w + [Hop(e.0, e.1.length)]
  }

  /** One edge out of the end of w: an arrival unless its node was reached at most as far before. */
  ghost function Arrive(s: Node, reach: Horizon, visits: seq<Walk>, w: Walk, e: (Node, Edge)): seq<Walk> {
    if Open(reach, w, e) && !Reached(s, visits, e.0, Length(w) + e.1.length) then visits + [Arrival(w, e)] else visits
  }

  /** The first n edges out of the end of w, in neighbour order. */
  ghost function Arrivals(g: Graph, s: Node, reach: Horizon, visits: seq<Walk>, w: Walk, n: nat): seq<Walk>
    requires n <= |Neighbours(g, End(s, w))|
  {
    if n == 0 then visits
    else Arrive(s, reach, Arrivals(g, s, reach, visits, w, n - 1), w, Neighbours(g, End(s, w))[n - 1])
  }

  ghost function Pop(g: Graph, s: Node, reach: Horizon, cap: StepCap, visits: seq<Walk>, head: nat): seq<Walk> {
    if head < |visits| && !Capped(|visits[head]|, cap)
    then Arrivals(g, s, reach, visits, visits[head], |Neighbours(g, End(s, visits[head]))|)
    else visits
  }

  /** The visits after n entries have been taken from the queue. */
  ghost function Pops(g: Graph, s: Node, reach: Horizon, cap: StepCap, n: nat): seq<Walk> {
    if n == 0 then [[]] else Pop(g, s, reach, cap, Pops(g, s, reach, cap, n - 1), n - 1)
  }

  /** All visits of one seed's search: there are no more of them than simple walks (`PopsSettle`). */
  ghost function FifoVisits(g: Graph, s: Node, reach: Horizon, cap: StepCap): seq<Walk> {
    Pops(g, s, reach, cap, |Bound(g, s)|)
  }

  // ---- what a history of visits satisfies ----

  /** The visit w comes after v: later in the order of walks, and strictly nearer when the node is the same. */
  ghost predicate After(g: Graph, s: Node, v: Walk, w: Walk) {
    Earlier(g, s, v, w) && (End(s, v) == End(s, w) ==> Length(w) < Length(v))
  }

  ghost predicate Ordered(g: Graph, s: Node, visits: seq<Walk>) {
    forall i, j :: 0 <= i < j < |visits| ==> After(g, s, visits[i], visits[j])
  }

  ghost predicate GoodVisit(g: Graph, s: Node, reach: Horizon, cap: StepCap, w: Walk) {
    Allowed(g, s, reach, cap, w, End(s, w)) && Simple(s, w)
  }

  predicate Extends(v: Walk, w: Walk) {
    w != [] && w[..|w| - 1] == v
  }

  /** Every visit is an allowed simple walk. */
  ghost predicate Genuine(g: Graph, s: Node, reach: Horizon, cap: StepCap, visits: seq<Walk>) {
    && 0 < |visits| && visits[0] == []
    && (forall i :: 0 <= i < |visits| ==> GoodVisit(g, s, reach, cap, visits[i]))
  }

  /** Every visit but the first extends, by one hop, a visit already taken from the queue. */
  ghost predicate FromPopped(visits: seq<Walk>, head: nat) {
    forall i :: 0 < i < |visits| ==> exists p :: 0 <= p < head && p < |visits| && Extends(visits[p], visits[i])
  }

  /** Some visit reaches the end of w no farther than w does, and is w or earlier. */
  ghost predicate Dominated(g: Graph, s: Node, visits: seq<Walk>, w: Walk) {
    exists j :: 0 <= j < |visits| && Dominates(g, s, visits[j], w)
  }

  ghost predicate Dominates(g: Graph, s: Node, v: Walk, w: Walk) {
    End(s, v) == End(s, w) && Length(v) <= Length(w) && (v == w || Earlier(g, s, v, w))
  }

  /** Every allowed walk is dominated by a visit to the same node. */
  ghost predicate Complete(g: Graph, s: Node, reach: Horizon, cap: StepCap, visits: seq<Walk>) {
    forall w, v :: Allowed(g, s, reach, cap, w, v) ==> Dominated(g, s, visits, w)
  }

  /** The first n edges out of the end of w lead nowhere that is not dominated. */
  ghost predicate Expanded(g: Graph, s: Node, reach: Horizon, visits: seq<Walk>, w: Walk, n: int) {
    forall k :: 0 <= k < n && k < |Neighbours(g, End(s, w))| ==>
      var e := Neighbours(g, End(s, w))[k];
      Open(reach, w, e) ==> Dominated(g, s, visits, Arrival(w, e))
  }

  /** Every visit before `head` that is below the cap has all its edges expanded. */
  ghost predicate AllExpanded(g: Graph, s: Node, reach: Horizon, cap: StepCap, visits: seq<Walk>, head: nat)
    requires head <= |visits|
  {
    forall i :: 0 <= i < head && !Capped(|visits[i]|, cap) ==>
      Expanded(g, s, reach, visits, visits[i], |Neighbours(g, End(s, visits[i]))|)
  }

  ghost predicate History(g: Graph, s: Node, reach: Horizon, cap: StepCap, visits: seq<Walk>, head: nat) {
    && head <= |visits| && Genuine(g, s, reach, cap, visits)
    && Ordered(g, s, visits) && FromPopped(visits, head)
  }

  /** The visits that extend w took one of the first k places in its neighbour list. */
  ghost predicate Taken(g: Graph, s: Node, visits: seq<Walk>, w: Walk, k: int) {
    forall i :: 0 <= i < |visits| && Extends(w, visits[i]) ==>
      Place(Neighbours(g, End(s, w)), visits[i][|visits[i]| - 1]) < k
  }

  /** What holds while the popped visit w is being expanded and k of its edges are done. */
  ghost predicate Expanding(g: Graph, s: Node, reach: Horizon, cap: StepCap, visits: seq<Walk>, head: nat, k: nat) {
    && 0 < head && History(g, s, reach, cap, visits, head)
    && !Capped(|visits[head - 1]|, cap)
    && Expanded(g, s, reach, visits, visits[head - 1], k)
    && Taken(g, s, visits, visits[head - 1], k)
  }

  // ---- one edge ----

  lemma VisitIsGood(g: Graph, s: Node, reach: Horizon, cap: StepCap, visits: seq<Walk>, i: nat)
    requires Genuine(g, s, reach, cap, visits) && i < |visits|
    ensures GoodVisit(g, s, reach, cap, visits[i])
  {
    hide GoodVisit;
  }

  lemma ArrivalEnds(s: Node, w: Walk, e: (Node, Edge))
    requires Usable(e.1)
    ensures var a := Arrival(w, e); a[..|w|] == w && End(s, a) == e.0 && Length(a) == Length(w) + e.1.length
  {}

  /** A node on a visit's own walk was reached earlier on it, and no farther. */
  lemma {:induction false} OnWalkMeansNear(g: Graph, s: Node, reach: Horizon, cap: StepCap,
                                           visits: seq<Walk>, head: nat, i: nat, v: Node)
    requires History(g, s, reach, cap, visits, head) && i < |visits| && v in Nodes(s, visits[i])
    ensures Reached(s, visits, v, Length(visits[i]))
    decreases |visits[i]|
  {
    hide GoodVisit, Ordered, Length, Nodes, End;
    var w := visits[i];
    VisitIsGood(g, s, reach, cap, visits, i);
    if v != End(s, w) {
      NodesOfExtension(s, w, v);
      var p :| 0 <= p < head && p < |visits| && Extends(visits[p], visits[i]);
      OnWalkMeansNear(g, s, reach, cap, visits, head, p, v);
      LastHopIsLength(g, s, reach, cap, w);
    }
  }

  lemma NodesOfExtension(s: Node, w: Walk, v: Node)
    requires v in Nodes(s, w) && v != End(s, w)
    ensures w != [] && v in Nodes(s, w[..|w| - 1])
  {}

  lemma LastHopIsLength(g: Graph, s: Node, reach: Horizon, cap: StepCap, w: Walk)
    requires GoodVisit(g, s, reach, cap, w) && w != []
    ensures Length(w[..|w| - 1]) <= Length(w)
  {
    assert HasEdge(g, End(s, w[..|w| - 1]), w[|w| - 1]);
  }

  /** An unpruned edge leads off the walk it extends, so every visit is a simple walk. */
  lemma UnprunedLeavesWalk(g: Graph, s: Node, reach: Horizon, cap: StepCap, visits: seq<Walk>, head: nat, i: nat, h: Hop)
    requires History(g, s, reach, cap, visits, head) && i < |visits| && h.length >= 0.0
    requires !Reached(s, visits, h.to, Length(visits[i]) + h.length)
    ensures h.to !in Nodes(s, visits[i])
  {
    hide History;
    if h.to in Nodes(s, visits[i]) {
      OnWalkMeansNear(g, s, reach, cap, visits, head, i, h.to);
    }
  }

  lemma ExtendWalk(g: Graph, s: Node, reach: Horizon, cap: StepCap, w: Walk, h: Hop)
    requires GoodVisit(g, s, reach, cap, w) && HasEdge(g, End(s, w), h)
    requires !Capped(|w|, cap) && !Past(Length(w) + h.length, reach) && h.to !in Nodes(s, w)
    ensures GoodVisit(g, s, reach, cap, w + [h])
  {
    hide HasEdge;
    assert (w + [h])[..|w|] == w;
  }

  lemma ExtensionBefore(g: Graph, s: Node, v: Walk, x: Walk, w: Walk, h: Hop)
    requires Extends(v, x) && (v == w || Earlier(g, s, v, w))
    requires v == w ==> Place(Neighbours(g, End(s, w)), x[|x| - 1]) < Place(Neighbours(g, End(s, w)), h)
    ensures Earlier(g, s, x, w + [h])
  {
    hide Earlier, End;
    var last := x[|x| - 1];
    assert x == v + [last];
    if v == w { PlaceOrders(g, s, w, last, h); } else { EarlierExtends(g, s, v, w, last, h); }
  }

  /** Every visit is earlier than an arrival whose place is not yet taken. */
  lemma VisitsBeforeArrival(g: Graph, s: Node, visits: seq<Walk>, head: nat, h: Hop, k: nat)
    requires 0 < head <= |visits| && visits[0] == [] && Ordered(g, s, visits) && FromPopped(visits, head)
    requires Taken(g, s, visits, visits[head - 1], k) && k <= Place(Neighbours(g, End(s, visits[head - 1])), h)
    ensures forall i :: 0 <= i < |visits| ==> Earlier(g, s, visits[i], visits[head - 1] + [h])
  {
    hide Earlier, End, Length;
    var w := visits[head - 1];
    forall i | 0 <= i < |visits| ensures Earlier(g, s, visits[i], w + [h]) {
      if i == 0 {
        FewerIsEarlier(g, s, visits[i], w + [h]);
      } else {
        var p :| 0 <= p < head && p < |visits| && Extends(visits[p], visits[i]);
        if p < head - 1 { assert After(g, s, visits[p], w); }
        ExtensionBefore(g, s, visits[p], visits[i], w, h);
      }
    }
  }

  lemma FewerIsEarlier(g: Graph, s: Node, v: Walk, w: Walk)
    requires |v| < |w|
    ensures Earlier(g, s, v, w)
  {}

  lemma DominatedMonotone(g: Graph, s: Node, visits: seq<Walk>, more: seq<Walk>, w: Walk)
    requires Dominated(g, s, visits, w)
    ensures Dominated(g, s, visits + more, w)
  {
    hide Dominates;
    var j :| 0 <= j < |visits| && Dominates(g, s, visits[j], w);
    assert (visits + more)[j] == visits[j];
  }

  lemma ExpandedMonotone(g: Graph, s: Node, reach: Horizon, visits: seq<Walk>, more: seq<Walk>, w: Walk, n: int)
    requires Expanded(g, s, reach, visits, w, n)
    ensures Expanded(g, s, reach, visits + more, w, n)
  {
    hide Dominated;
    var edges := Neighbours(g, End(s, w));
    forall k | 0 <= k < n && k < |edges| && Open(reach, w, edges[k])
      ensures Dominated(g, s, visits + more, Arrival(w, edges[k]))
    {
      DominatedMonotone(g, s, visits, more, Arrival(w, edges[k]));
    }
  }

  lemma AllExpandedMonotone(g: Graph, s: Node, reach: Horizon, cap: StepCap, visits: seq<Walk>, more: seq<Walk>, head: nat)
    requires head <= |visits| && AllExpanded(g, s, reach, cap, visits, head)
    ensures AllExpanded(g, s, reach, cap, visits + more, head)
  {
    hide Expanded;
    forall i | 0 <= i < head && !Capped(|visits[i]|, cap)
      ensures Expanded(g, s, reach, visits + more, (visits + more)[i], |Neighbours(g, End(s, (visits + more)[i]))|)
    {
      assert (visits + more)[i] == visits[i];
      ExpandedMonotone(g, s, reach, visits, more, visits[i], |Neighbours(g, End(s, visits[i]))|);
    }
  }

  /** An edge that the seen-guard prunes leads to a dominated arrival, thanks to the queue order. */
  lemma PrunedIsDominated(g: Graph, s: Node, reach: Horizon, cap: StepCap, visits: seq<Walk>, head: nat, k: nat)
    requires Expanding(g, s, reach, cap, visits, head, k) && k < |Neighbours(g, End(s, visits[head - 1]))|
    requires var w, e := visits[head - 1], Neighbours(g, End(s, visits[head - 1]))[k];
             Open(reach, w, e) && Reached(s, visits, e.0, Length(w) + e.1.length)
    ensures Dominated(g, s, visits, Arrival(visits[head - 1], Neighbours(g, End(s, visits[head - 1]))[k]))
  {
    hide Genuine, Ordered, FromPopped, Expanded, Taken, Open;
    var w, edges := visits[head - 1], Neighbours(g, End(s, visits[head - 1]));
    var e := edges[k];
    OpenIsUsable(reach, w, e);
    var h := Hop(e.0, e.1.length);
    ArrivalEnds(s, w, e);
    var i :| 0 <= i < |visits| && End(s, visits[i]) == e.0 && Length(visits[i]) <= Length(w) + e.1.length;
    if Place(edges, h) < k {
      EarlierPlaceIsDominated(g, s, reach, visits, w, k);
    } else {
      hide End, Length;
      HistoryStarts(g, s, reach, cap, visits);
      VisitsBeforeArrival(g, s, visits, head, h, k);
      assert Dominates(g, s, visits[i], Arrival(w, e));
    }
  }

  lemma OpenIsUsable(reach: Horizon, w: Walk, e: (Node, Edge))
    requires Open(reach, w, e)
    ensures Usable(e.1) && !Past(Length(w) + e.1.length, reach)
  {}

  lemma HistoryStarts(g: Graph, s: Node, reach: Horizon, cap: StepCap, visits: seq<Walk>)
    requires Genuine(g, s, reach, cap, visits)
    ensures 0 < |visits| && visits[0] == []
  {}

  lemma EarlierPlaceIsDominated(g: Graph, s: Node, reach: Horizon, visits: seq<Walk>, w: Walk, k: nat)
    requires k < |Neighbours(g, End(s, w))| && Expanded(g, s, reach, visits, w, k)
    requires var e := Neighbours(g, End(s, w))[k];
             Open(reach, w, e) && Place(Neighbours(g, End(s, w)), Hop(e.0, e.1.length)) < k
    ensures Dominated(g, s, visits, Arrival(w, Neighbours(g, End(s, w))[k]))
  {
    hide Dominated, End, Length;
  }

  lemma DominatedIsReached(g: Graph, s: Node, visits: seq<Walk>, w: Walk)
    requires Dominated(g, s, visits, w)
    ensures Reached(s, visits, End(s, w), Length(w))
  {
    hide End, Length, Earlier;
  }

  /** An accepted arrival: a good walk, after every visit before it, in a place not taken before. */
  lemma AcceptedFacts(g: Graph, s: Node, reach: Horizon, cap: StepCap, visits: seq<Walk>, head: nat, k: nat)
    requires Expanding(g, s, reach, cap, visits, head, k) && k < |Neighbours(g, End(s, visits[head - 1]))|
    requires var w, e := visits[head - 1], Neighbours(g, End(s, visits[head - 1]))[k];
             Open(reach, w, e) && !Reached(s, visits, e.0, Length(w) + e.1.length)
    ensures var w, e := visits[head - 1], Neighbours(g, End(s, visits[head - 1]))[k];
            && GoodVisit(g, s, reach, cap, Arrival(w, e))
            && Place(Neighbours(g, End(s, w)), Hop(e.0, e.1.length)) == k
            && forall i :: 0 <= i < |visits| ==> After(g, s, visits[i], Arrival(w, e))
  {
    hide Genuine, Ordered, FromPopped, Expanded, Taken, Length, End, GoodVisit, Nodes, Reached, Earlier;
    var w, edges := visits[head - 1], Neighbours(g, End(s, visits[head - 1]));
    var e := edges[k];
    var h := Hop(e.0, e.1.length);
    ArrivalEnds(s, w, e);
    if Place(edges, h) < k {
      EarlierPlaceIsDominated(g, s, reach, visits, w, k);
      DominatedIsReached(g, s, visits, Arrival(w, e));
    }
    assert HasEdge(g, End(s, w), h) by { OpenIsUsable(reach, w, e); }
    UnprunedLeavesWalk(g, s, reach, cap, visits, head, head - 1, h);
    VisitIsGood(g, s, reach, cap, visits, head - 1);
    ExtendWalk(g, s, reach, cap, w, h);
    HistoryStarts(g, s, reach, cap, visits);
    VisitsBeforeArrival(g, s, visits, head, h, k);
    forall i | 0 <= i < |visits| ensures After(g, s, visits[i], Arrival(w, e)) {
      UnreachedIsFarther(s, visits, e.0, Length(w) + e.1.length, i);
    }
  }

  lemma UnreachedIsFarther(s: Node, visits: seq<Walk>, v: Node, dist: real, i: nat)
    requires !Reached(s, visits, v, dist) && i < |visits|
    ensures End(s, visits[i]) == v ==> dist < Length(visits[i])
  {
    hide End, Length;
  }

  lemma AppendKeepsHistory(g: Graph, s: Node, reach: Horizon, cap: StepCap, visits: seq<Walk>, head: nat, a: Walk)
    requires History(g, s, reach, cap, visits, head) && GoodVisit(g, s, reach, cap, a)
    requires 0 < head && Extends(visits[head - 1], a)
    requires forall i :: 0 <= i < |visits| ==> After(g, s, visits[i], a)
    ensures History(g, s, reach, cap, visits + [a], head)
  {
    hide GoodVisit, After;
    var all := visits + [a];
    forall i | 0 < i < |all| ensures exists p :: 0 <= p < head && p < |all| && Extends(all[p], all[i]) {
      if i == |visits| {
        assert Extends(all[head - 1], all[i]);
      } else {
        var p :| 0 <= p < head && p < |visits| && Extends(visits[p], visits[i]);
        assert Extends(all[p], all[i]);
      }
    }
  }

  lemma ExpandOne(g: Graph, s: Node, reach: Horizon, visits: seq<Walk>, w: Walk, k: nat)
    requires k < |Neighbours(g, End(s, w))| && Expanded(g, s, reach, visits, w, k)
    requires var e := Neighbours(g, End(s, w))[k]; Open(reach, w, e) ==> Dominated(g, s, visits, Arrival(w, e))
    ensures Expanded(g, s, reach, visits, w, k + 1)
  {
    hide Dominated, Length, End;
  }

  lemma TakenAppend(g: Graph, s: Node, visits: seq<Walk>, w: Walk, a: Walk, k: nat)
    requires Taken(g, s, visits, w, k) && Extends(w, a)
    requires Place(Neighbours(g, End(s, w)), a[|a| - 1]) <= k
    ensures Taken(g, s, visits + [a], w, k + 1)
  {
    hide End;
  }

  lemma TakenMonotone(g: Graph, s: Node, visits: seq<Walk>, w: Walk, k: nat)
    requires Taken(g, s, visits, w, k)
    ensures Taken(g, s, visits, w, k + 1)
  {
    hide End;
  }

  /** One edge: the history stays one, and one more edge is expanded. */
  lemma ArriveKeeps(g: Graph, s: Node, reach: Horizon, cap: StepCap, visits: seq<Walk>, head: nat, k: nat)
    requires Expanding(g, s, reach, cap, visits, head, k) && k < |Neighbours(g, End(s, visits[head - 1]))|
    ensures var e := Neighbours(g, End(s, visits[head - 1]))[k];
            var after := Arrive(s, reach, visits, visits[head - 1], e);
            visits <= after && Expanding(g, s, reach, cap, after, head, k + 1)
  {
    hide Expanded, Taken, Length, End, GoodVisit, Reached, After, Genuine, Ordered, FromPopped, Dominated, Open, Extends;
    var w, e := visits[head - 1], Neighbours(g, End(s, visits[head - 1]))[k];
    var after := Arrive(s, reach, visits, w, e);
    if after == visits {
      if Open(reach, w, e) { PrunedIsDominated(g, s, reach, cap, visits, head, k); }
      ExpandOne(g, s, reach, visits, w, k);
      TakenMonotone(g, s, visits, w, k);
    } else {
      OpenIsUsable(reach, w, e);
      var a := Arrival(w, e);
      AcceptedFacts(g, s, reach, cap, visits, head, k);
      ArrivalExtends(w, e);
      AppendKeepsHistory(g, s, reach, cap, visits, head, a);
      TakenAppend(g, s, visits, w, a, k);
      ExpandedMonotone(g, s, reach, visits, [a], w, k);
      LastDominatesItself(g, s, visits, a);
      ExpandOne(g, s, reach, after, w, k);
    }
  }

  lemma ArrivalExtends(w: Walk, e: (Node, Edge))
    requires Usable(e.1)
    ensures Extends(w, Arrival(w, e))
  {
    assert Arrival(w, e)[..|w|] == w;
  }

  lemma LastDominatesItself(g: Graph, s: Node, visits: seq<Walk>, a: Walk)
    ensures Dominated(g, s, visits + [a], a)
  {
    assert (visits + [a])[|visits|] == a;
    assert Dominates(g, s, a, a);
  }

  lemma {:induction false} ArrivalsKeep(g: Graph, s: Node, reach: Horizon, cap: StepCap, visits: seq<Walk>, head: nat, n: nat)
    requires Expanding(g, s, reach, cap, visits, head, 0) && n <= |Neighbours(g, End(s, visits[head - 1]))|
    ensures var after := Arrivals(g, s, reach, visits, visits[head - 1], n);
            visits <= after && Expanding(g, s, reach, cap, after, head, n)
  {
    hide Expanding, End, Arrive;
    if n > 0 {
      ArrivalsKeep(g, s, reach, cap, visits, head, n - 1);
      ExpandingHead(g, s, reach, cap, visits, head, 0);
      var mid := Arrivals(g, s, reach, visits, visits[head - 1], n - 1);
      assert mid[head - 1] == visits[head - 1];
      ArriveKeeps(g, s, reach, cap, mid, head, n - 1);
    }
  }

  lemma ExpandingHead(g: Graph, s: Node, reach: Horizon, cap: StepCap, visits: seq<Walk>, head: nat, k: nat)
    requires Expanding(g, s, reach, cap, visits, head, k)
    ensures 0 < head <= |visits|
  {}

  // ---- one popped entry, and all of them ----

  lemma FromPoppedMonotone(visits: seq<Walk>, head: nat)
    requires FromPopped(visits, head)
    ensures FromPopped(visits, head + 1)
  {
    forall i | 0 < i < |visits| ensures exists p :: 0 <= p < head + 1 && p < |visits| && Extends(visits[p], visits[i]) {
      var p :| 0 <= p < head && p < |visits| && Extends(visits[p], visits[i]);
      assert Extends(visits[p], visits[i]);
    }
    assert forall i :: 0 < i < |visits| ==> exists p :: 0 <= p < head + 1 && p < |visits| && Extends(visits[p], visits[i]);
  }

  /** Nothing extends a visit before it is taken from the queue. */
  lemma NothingTaken(g: Graph, s: Node, visits: seq<Walk>, head: nat)
    requires head < |visits| && visits[0] == [] && Ordered(g, s, visits) && FromPopped(visits, head)
    ensures Taken(g, s, visits, visits[head], 0)
  {
    hide Earlier, End, Length;
    forall i | 0 <= i < |visits| ensures !Extends(visits[head], visits[i]) {
      if i > 0 {
        var p :| 0 <= p < head && p < |visits| && Extends(visits[p], visits[i]);
        assert After(g, s, visits[p], visits[head]);
        EarlierAsymmetric(g, s, visits[p], visits[head]);
      }
    }
  }

  lemma PopKeeps(g: Graph, s: Node, reach: Horizon, cap: StepCap, visits: seq<Walk>, head: nat)
    requires head < |visits| && History(g, s, reach, cap, visits, head) && AllExpanded(g, s, reach, cap, visits, head)
    ensures var after := Pop(g, s, reach, cap, visits, head);
            && visits <= after && History(g, s, reach, cap, after, head + 1)
            && AllExpanded(g, s, reach, cap, after, head + 1)
  {
    hide Expanded, Taken, Length, End, Genuine, Ordered, FromPopped, AllExpanded, Arrivals;
    var w := visits[head];
    FromPoppedMonotone(visits, head);
    if Capped(|w|, cap) {
      ExpandedAll(g, s, reach, cap, visits, head + 1);
    } else {
      HistoryStarts(g, s, reach, cap, visits);
      NothingTaken(g, s, visits, head);
      NothingExpanded(g, s, reach, visits, w);
      var n := |Neighbours(g, End(s, w))|;
      ArrivalsKeep(g, s, reach, cap, visits, head + 1, n);
      var after := Arrivals(g, s, reach, visits, w, n);
      AllExpandedMonotone(g, s, reach, cap, visits, after[|visits|..], head);
      assert visits + after[|visits|..] == after;
      ExpandedAll(g, s, reach, cap, after, head + 1);
    }
  }

  lemma NothingExpanded(g: Graph, s: Node, reach: Horizon, visits: seq<Walk>, w: Walk)
    ensures Expanded(g, s, reach, visits, w, 0)
  {}

  lemma ExpandedAll(g: Graph, s: Node, reach: Horizon, cap: StepCap, visits: seq<Walk>, head: nat)
    requires 0 < head <= |visits| && AllExpanded(g, s, reach, cap, visits, head - 1)
    requires !Capped(|visits[head - 1]|, cap) ==>
               Expanded(g, s, reach, visits, visits[head - 1], |Neighbours(g, End(s, visits[head - 1]))|)
    ensures AllExpanded(g, s, reach, cap, visits, head)
  {
    hide Expanded, End;
  }

  /** How many entries n pops have taken: the queue may run empty before. */
  function PoppedOf(n: nat, visits: seq<Walk>): nat {
    if n < |visits| then n else |visits|
  }

  lemma {:induction false} PopsKeep(g: Graph, s: Node, reach: Horizon, cap: StepCap, n: nat)
    ensures var visits := Pops(g, s, reach, cap, n);
            && History(g, s, reach, cap, visits, PoppedOf(n, visits))
            && AllExpanded(g, s, reach, cap, visits, PoppedOf(n, visits))
  {
    hide History, AllExpanded, Pop;
    if n == 0 {
      StartHistory(g, s, reach, cap);
    } else {
      PopsKeep(g, s, reach, cap, n - 1);
      var visits := Pops(g, s, reach, cap, n - 1);
      if n - 1 < |visits| {
        PopKeeps(g, s, reach, cap, visits, n - 1);
        HistoryHead(g, s, reach, cap, Pop(g, s, reach, cap, visits, n - 1), n);
      } else {
        PopNothing(g, s, reach, cap, visits, n - 1);
      }
    }
  }

  lemma HistoryHead(g: Graph, s: Node, reach: Horizon, cap: StepCap, visits: seq<Walk>, head: nat)
    requires History(g, s, reach, cap, visits, head)
    ensures head <= |visits|
  {}

  lemma PopNothing(g: Graph, s: Node, reach: Horizon, cap: StepCap, visits: seq<Walk>, head: nat)
    requires |visits| <= head
    ensures Pop(g, s, reach, cap, visits, head) == visits
  {}

  lemma StartHistory(g: Graph, s: Node, reach: Horizon, cap: StepCap)
    ensures History(g, s, reach, cap, [[]], 0) && AllExpanded(g, s, reach, cap, [[]], 0)
  {
    assert GoodVisit(g, s, reach, cap, []);
  }

  ghost function Members(visits: seq<Walk>): set<Walk> {
    set w | w in visits
  }

  lemma {:induction false} DistinctMembers(visits: seq<Walk>)
    requires forall i, j :: 0 <= i < j < |visits| ==> visits[i] != visits[j]
    ensures |Members(visits)| == |visits|
  {
    if visits != [] {
      var init, w := visits[..|visits| - 1], visits[|visits| - 1];
      DistinctMembers(init);
      assert Members(visits) == Members(init) + {w};
    }
  }

  /** The visits are distinct simple walks, so they number at most the bound. */
  lemma VisitsAreBounded(g: Graph, s: Node, reach: Horizon, cap: StepCap, visits: seq<Walk>, head: nat)
    requires History(g, s, reach, cap, visits, head)
    ensures |visits| <= |Bound(g, s)|
  {
    hide Bound, Earlier, Simple, IsWalk, Length, End;
    forall i, j | 0 <= i < j < |visits| ensures visits[i] != visits[j] {
      assert After(g, s, visits[i], visits[j]);
      EarlierAsymmetric(g, s, visits[i], visits[j]);
    }
    DistinctMembers(visits);
    forall w | w in Members(visits) ensures w in Bound(g, s) {
      var i :| 0 <= i < |visits| && visits[i] == w;
      VisitIsGood(g, s, reach, cap, visits, i);
      SimpleIsBounded(g, s, w);
    }
    SubsetSize(Members(visits), Bound(g, s));
  }

  /** Once the queue is empty, further pops change nothing. */
  lemma {:induction false} PopsStay(g: Graph, s: Node, reach: Horizon, cap: StepCap, n: nat, m: nat)
    requires |Pops(g, s, reach, cap, n)| <= n <= m
    ensures Pops(g, s, reach, cap, m) == Pops(g, s, reach, cap, n)
  {
    hide Pop;
    if n < m {
      PopsStay(g, s, reach, cap, n, m - 1);
      PopNothing(g, s, reach, cap, Pops(g, s, reach, cap, n), m - 1);
    }
  }

  /** The search ends with the queue empty, and any run of pops that empties it is the whole history. */
  lemma PopsSettle(g: Graph, s: Node, reach: Horizon, cap: StepCap, n: nat)
    ensures |FifoVisits(g, s, reach, cap)| <= |Bound(g, s)|
    ensures |Pops(g, s, reach, cap, n)| <= n ==> Pops(g, s, reach, cap, n) == FifoVisits(g, s, reach, cap)
  {
    hide Pops, Bound, History, AllExpanded;
    var most := |Bound(g, s)|;
    PopsKeep(g, s, reach, cap, most);
    VisitsAreBounded(g, s, reach, cap, Pops(g, s, reach, cap, most), PoppedOf(most, Pops(g, s, reach, cap, most)));
    if |Pops(g, s, reach, cap, n)| <= n {
      if n <= most { PopsStay(g, s, reach, cap, n, most); } else { PopsStay(g, s, reach, cap, most, n); }
    }
  }

  /** First in, first out keeps the queued hop counts within one of each other. */
  lemma QueueStepsOrdered(g: Graph, s: Node, reach: Horizon, cap: StepCap, n: nat, i: nat)
    requires n < |Pops(g, s, reach, cap, n)| && i < |Pops(g, s, reach, cap, n)|
    ensures |Pops(g, s, reach, cap, n)[i]| <= |Pops(g, s, reach, cap, n)[n]| + 1
  {
    hide Pops, AllExpanded, Genuine, Length, End;
    var visits := Pops(g, s, reach, cap, n);
    PopsKeep(g, s, reach, cap, n);
    HistoryStarts(g, s, reach, cap, visits);
    if i > 0 {
      var p :| 0 <= p < n && p < |visits| && Extends(visits[p], visits[i]);
      assert After(g, s, visits[p], visits[n]);
    }
  }

  // ---- what a finished search guarantees ----

  ghost predicate Searched(g: Graph, s: Node, reach: Horizon, cap: StepCap, visits: seq<Walk>) {
    Genuine(g, s, reach, cap, visits) && Ordered(g, s, visits) && Complete(g, s, reach, cap, visits)
  }

  /** An allowed walk stays allowed when its last hop is dropped. */
  lemma DropLastHop(g: Graph, s: Node, reach: Horizon, cap: StepCap, w: Walk, v: Node)
    requires w != [] && Allowed(g, s, reach, cap, w, v)
    ensures Allowed(g, s, reach, cap, w[..|w| - 1], End(s, w[..|w| - 1]))
    ensures HasEdge(g, End(s, w[..|w| - 1]), w[|w| - 1]) && End(s, w) == v
    ensures !Capped(|w| - 1, cap) && !Past(Length(w[..|w| - 1]) + w[|w| - 1].length, reach)
  {}

  /** What dominates a walk, extended by one hop, dominates the walk extended by that hop. */
  lemma DominatesExtends(g: Graph, s: Node, v: Walk, w: Walk, e: (Node, Edge))
    requires Dominates(g, s, v, w) && Usable(e.1)
    ensures Dominates(g, s, Arrival(v, e), Arrival(w, e))
  {
    ArrivalEnds(s, v, e);
    ArrivalEnds(s, w, e);
    hide End, Length;
    if v != w { EarlierExtends(g, s, v, w, Hop(e.0, e.1.length), Hop(e.0, e.1.length)); }
  }

  lemma DominatesTransitive(g: Graph, s: Node, u: Walk, v: Walk, w: Walk)
    requires Dominates(g, s, u, v) && Dominates(g, s, v, w)
    ensures Dominates(g, s, u, w)
  {
    hide End, Length;
    EarlierTransitive(g, s, u, v, w);
  }

  /** Expanding every visit below the cap makes the history complete. */
  lemma {:induction false} ExpandedIsComplete(g: Graph, s: Node, reach: Horizon, cap: StepCap,
                                              visits: seq<Walk>, w: Walk, v: Node)
    requires Genuine(g, s, reach, cap, visits)
    requires AllExpanded(g, s, reach, cap, visits, |visits|)
    requires Allowed(g, s, reach, cap, w, v)
    ensures Dominated(g, s, visits, w)
    decreases |w|
  {
    hide Dominates, Genuine, Allowed, End, Length, Expanded;
    if w == [] {
      HistoryStarts(g, s, reach, cap, visits);
      EmptyDominatesItself(g, s);
    } else {
      var p, h := w[..|w| - 1], w[|w| - 1];
      DropLastHop(g, s, reach, cap, w, v);
      ExpandedIsComplete(g, s, reach, cap, visits, p, End(s, p));
      var i :| 0 <= i < |visits| && Dominates(g, s, visits[i], p);
      var e := (h.to, Finite(h.length));
      DominatorIsNear(g, s, visits[i], p);
      assert Arrival(p, e) == w;
      DominatesExtends(g, s, visits[i], p, e);
      var j := ExpandedEdge(g, s, reach, visits, visits[i], e);
      DominatesTransitive(g, s, visits[j], Arrival(visits[i], e), w);
    }
  }

  lemma EmptyDominatesItself(g: Graph, s: Node)
    ensures Dominates(g, s, [], [])
  {}

  lemma DominatorIsNear(g: Graph, s: Node, v: Walk, w: Walk)
    requires Dominates(g, s, v, w)
    ensures End(s, v) == End(s, w) && Length(v) <= Length(w) && |v| <= |w|
  {}

  lemma ExpandedEdge(g: Graph, s: Node, reach: Horizon, visits: seq<Walk>, w: Walk, e: (Node, Edge)) returns (j: nat)
    requires e in Neighbours(g, End(s, w)) && Open(reach, w, e)
    requires Expanded(g, s, reach, visits, w, |Neighbours(g, End(s, w))|)
    ensures j < |visits| && Dominates(g, s, visits[j], Arrival(w, e))
  {
    hide Dominates, End, Length;
    var k :| 0 <= k < |Neighbours(g, End(s, w))| && Neighbours(g, End(s, w))[k] == e;
    j :| 0 <= j < |visits| && Dominates(g, s, visits[j], Arrival(w, e));
  }

  lemma FifoSearched(g: Graph, s: Node, reach: Horizon, cap: StepCap)
    ensures Searched(g, s, reach, cap, FifoVisits(g, s, reach, cap))
  {
    hide Pops, Bound, AllExpanded, Genuine, Ordered, FromPopped, Allowed, Dominated;
    var visits := FifoVisits(g, s, reach, cap);
    PopsKeep(g, s, reach, cap, |Bound(g, s)|);
    PopsSettle(g, s, reach, cap, 0);
    forall w, v | Allowed(g, s, reach, cap, w, v) ensures Dominated(g, s, visits, w) {
      ExpandedIsComplete(g, s, reach, cap, visits, w, v);
    }
  }

  /** `seen` is the last, hence nearest, visit of every node. */
  ghost predicate SeenIs(s: Node, visits: seq<Walk>, seen: map<Node, real>) {
    && (forall i :: 0 <= i < |visits| ==> End(s, visits[i]) in seen && seen[End(s, visits[i])] <= Length(visits[i]))
    && (forall v :: v in seen ==> exists i :: 0 <= i < |visits| && End(s, visits[i]) == v && Length(visits[i]) == seen[v])
  }

  /** The outcome for `seen`, from what the search keeps. */
  lemma HistoryIsNearest(g: Graph, s: Node, reach: Horizon, cap: StepCap, visits: seq<Walk>, seen: map<Node, real>)
    requires Searched(g, s, reach, cap, visits) && SeenIs(s, visits, seen)
    ensures Nearest(g, s, reach, cap, seen)
  {
    hide Searched, Length, End, Allowed;
    forall v, w | Allowed(g, s, reach, cap, w, v) ensures v in seen && seen[v] <= Length(w) {
      var j := VisitOf(g, s, reach, cap, visits, w, v);
    }
    forall v | v in seen ensures exists w :: Allowed(g, s, reach, cap, w, v) && Length(w) == seen[v] {
      var i :| 0 <= i < |visits| && End(s, visits[i]) == v && Length(visits[i]) == seen[v];
      VisitIsAllowed(g, s, reach, cap, visits, i);
    }
  }

  lemma VisitIsAllowed(g: Graph, s: Node, reach: Horizon, cap: StepCap, visits: seq<Walk>, i: nat)
    requires Searched(g, s, reach, cap, visits) && i < |visits|
    ensures Allowed(g, s, reach, cap, visits[i], End(s, visits[i]))
  {
    hide Ordered, Complete, Allowed, Simple;
    VisitIsGood(g, s, reach, cap, visits, i);
  }

  lemma AllowedEnds(g: Graph, s: Node, reach: Horizon, cap: StepCap, w: Walk, v: Node)
    requires Allowed(g, s, reach, cap, w, v)
    ensures End(s, w) == v
  {}

  lemma VisitedIffReached(g: Graph, s: Node, reach: Horizon, cap: StepCap, v: Node)
    ensures (exists i :: 0 <= i < |FifoVisits(g, s, reach, cap)| && End(s, FifoVisits(g, s, reach, cap)[i]) == v) <==>
            exists w :: Allowed(g, s, reach, cap, w, v)
  {
    hide FifoVisits, Searched, Length, End, Allowed;
    var visits := FifoVisits(g, s, reach, cap);
    FifoSearched(g, s, reach, cap);
    if i :| 0 <= i < |visits| && End(s, visits[i]) == v {
      VisitIsAllowed(g, s, reach, cap, visits, i);
    }
    if w :| Allowed(g, s, reach, cap, w, v) {
      var j := VisitOf(g, s, reach, cap, visits, w, v);
    }
  }

  // ---- when a node is visited once ----

  /** The first visit of a node is the first fewest-hop allowed walk to it in neighbour order. */
  lemma FirstVisit(g: Graph, s: Node, reach: Horizon, cap: StepCap, i: nat)
    requires i < |FifoVisits(g, s, reach, cap)|
    requires var visits := FifoVisits(g, s, reach, cap);
             forall j :: 0 <= j < i ==> End(s, visits[j]) != End(s, visits[i])
    ensures var f := FifoVisits(g, s, reach, cap)[i]; FirstFewest(g, s, reach, cap, f, End(s, f))
  {
    hide FifoVisits, Earlier, Length, Genuine, End, Allowed;
    var visits := FifoVisits(g, s, reach, cap);
    FifoSearched(g, s, reach, cap);
    var f, v := visits[i], End(s, visits[i]);
    VisitIsGood(g, s, reach, cap, visits, i);
    forall w | Allowed(g, s, reach, cap, w, v) ensures f == w || Earlier(g, s, f, w) {
      assert Dominated(g, s, visits, w);
      var j :| 0 <= j < |visits| && Dominates(g, s, visits[j], w);
      AllowedEnds(g, s, reach, cap, w, v);
      if i < j { assert After(g, s, f, visits[j]); }
      EarlierTransitive(g, s, f, visits[j], w);
    }
  }

  lemma FirstFewestUnique(g: Graph, s: Node, reach: Horizon, cap: StepCap, e: Walk, f: Walk, v: Node)
    requires FirstFewest(g, s, reach, cap, e, v) && FirstFewest(g, s, reach, cap, f, v)
    ensures e == f
  {
    hide Earlier, Allowed;
    if e != f { EarlierAsymmetric(g, s, e, f); }
  }

  /** The least index of a visit to v. */
  lemma {:induction false} LeastVisit(s: Node, visits: seq<Walk>, v: Node, j: nat) returns (i: nat)
    requires j < |visits| && End(s, visits[j]) == v
    ensures i <= j && End(s, visits[i]) == v && forall k :: 0 <= k < i ==> End(s, visits[k]) != v
  {
    hide End;
    if k :| 0 <= k < j && End(s, visits[k]) == v { i := LeastVisit(s, visits, v, k); } else { i := j; }
  }

  /** The search visits v exactly once. */
  ghost predicate VisitedOnce(g: Graph, s: Node, reach: Horizon, cap: StepCap, v: Node) {
    var visits := FifoVisits(g, s, reach, cap);
    exists i :: 0 <= i < |visits| && End(s, visits[i]) == v && forall j :: 0 <= j < |visits| && End(s, visits[j]) == v ==> j == i
  }

  /** The first fewest-hop allowed walk is the first visit of its node. */
  lemma FirstIsVisited(g: Graph, s: Node, reach: Horizon, cap: StepCap, v: Node, f: Walk) returns (i: nat)
    requires FirstFewest(g, s, reach, cap, f, v)
    ensures i < |FifoVisits(g, s, reach, cap)| && FifoVisits(g, s, reach, cap)[i] == f && End(s, f) == v
    ensures forall k :: 0 <= k < i ==> End(s, FifoVisits(g, s, reach, cap)[k]) != v
  {
    hide FifoVisits, Earlier, Length, End, Allowed, Searched;
    var visits := FifoVisits(g, s, reach, cap);
    FifoSearched(g, s, reach, cap);
    var j := VisitOf(g, s, reach, cap, visits, f, v);
    i := LeastVisit(s, visits, v, j);
    FirstVisit(g, s, reach, cap, i);
    FirstFewestUnique(g, s, reach, cap, f, visits[i], v);
  }

  /** A reached node is visited exactly once if and only if the first fewest-hop allowed walk to it is a
      shortest one. */
  lemma OnceIffFirstShortest(g: Graph, s: Node, reach: Horizon, cap: StepCap, v: Node, f: Walk)
    requires FirstFewest(g, s, reach, cap, f, v)
    ensures VisitedOnce(g, s, reach, cap, v) <==> Shortest(g, s, reach, cap, f, v)
  {
    hide FifoVisits, Length, End, Allowed, Searched, FirstFewest;
    var visits := FifoVisits(g, s, reach, cap);
    FifoSearched(g, s, reach, cap);
    var i := FirstIsVisited(g, s, reach, cap, v, f);
    VisitIsAllowed(g, s, reach, cap, visits, i);
    if VisitedOnce(g, s, reach, cap, v) {
      forall u | Allowed(g, s, reach, cap, u, v) ensures Length(f) <= Length(u) {
        var k := VisitOf(g, s, reach, cap, visits, u, v);
      }
    }
    if Shortest(g, s, reach, cap, f, v) {
      forall k | 0 <= k < |visits| && End(s, visits[k]) == v ensures k == i {
        VisitIsAllowed(g, s, reach, cap, visits, k);
        if i < k { LaterIsNearer(g, s, reach, cap, visits, i, k); }
      }
    }
  }

  lemma LaterIsNearer(g: Graph, s: Node, reach: Horizon, cap: StepCap, visits: seq<Walk>, i: nat, k: nat)
    requires Searched(g, s, reach, cap, visits) && i < k < |visits| && End(s, visits[i]) == End(s, visits[k])
    ensures Length(visits[k]) < Length(visits[i])
  {
    hide Earlier, Length, End, Genuine, Complete;
    assert After(g, s, visits[i], visits[k]);
  }

  lemma VisitOf(g: Graph, s: Node, reach: Horizon, cap: StepCap, visits: seq<Walk>, w: Walk, v: Node) returns (j: nat)
    requires Searched(g, s, reach, cap, visits) && Allowed(g, s, reach, cap, w, v)
    ensures j < |visits| && End(s, visits[j]) == v && Length(visits[j]) <= Length(w)
  {
    hide Earlier, Length, End, Genuine, Ordered;
    assert Dominated(g, s, visits, w);
    AllowedEnds(g, s, reach, cap, w, v);
    j :| 0 <= j < |visits| && Dominates(g, s, visits[j], w);
  }

  /** Every reached node has a first fewest-hop allowed walk. */
  lemma FirstFewestExists(g: Graph, s: Node, reach: Horizon, cap: StepCap, w: Walk, v: Node) returns (f: Walk)
    requires Allowed(g, s, reach, cap, w, v)
    ensures FirstFewest(g, s, reach, cap, f, v)
  {
    hide FifoVisits, Searched, FirstFewest, End, Allowed;
    var visits := FifoVisits(g, s, reach, cap);
    FifoSearched(g, s, reach, cap);
    var j := VisitOf(g, s, reach, cap, visits, w, v);
    var i := LeastVisit(s, visits, v, j);
    FirstVisit(g, s, reach, cap, i);
    f := visits[i];
  }

  /** Every reached node is visited exactly once if and only if, for every reached node, the first
      fewest-hop allowed walk in neighbour order is a shortest allowed walk. */
  lemma EachOnceIff(g: Graph, s: Node, reach: Horizon, cap: StepCap)
    ensures (forall v, w :: Allowed(g, s, reach, cap, w, v) ==> VisitedOnce(g, s, reach, cap, v)) <==>
            (forall v, f :: FirstFewest(g, s, reach, cap, f, v) ==> Shortest(g, s, reach, cap, f, v))
  {
    hide VisitedOnce, Shortest, Allowed;
    forall v, f | FirstFewest(g, s, reach, cap, f, v)
      ensures VisitedOnce(g, s, reach, cap, v) <==> Shortest(g, s, reach, cap, f, v)
    {
      OnceIffFirstShortest(g, s, reach, cap, v, f);
    }
    if forall v, f :: FirstFewest(g, s, reach, cap, f, v) ==> Shortest(g, s, reach, cap, f, v) {
      forall v, w | Allowed(g, s, reach, cap, w, v) ensures VisitedOnce(g, s, reach, cap, v) {
        var f := FirstFewestExists(g, s, reach, cap, w, v);
      }
    }
  }

  function Times(c: real, n: nat): real {
    c * n as real
  }

  lemma {:induction false} EqualHopsLength(g: Graph, s: Node, c: real, w: Walk)
    requires IsWalk(g, s, w) && forall n, e :: n in g && e in g[n] && Usable(e.1) ==> e.1.length == c
    ensures Length(w) == Times(c, |w|)
  {
    if w != [] {
      var p, h := w[..|w| - 1], w[|w| - 1];
      EqualHopsLength(g, s, c, p);
      assert (h.to, Finite(h.length)) in g[End(s, p)];
    }
  }

  lemma Scaled(c: real, m: nat, n: nat)
    requires c >= 0.0 && m <= n
    ensures Times(c, m) <= Times(c, n)
  {}

  /** With edges of one length every reached node is visited exactly once. */
  lemma EqualEdgesOnce(g: Graph, s: Node, reach: Horizon, cap: StepCap, c: real, w: Walk, v: Node)
    requires c >= 0.0 && forall n, e :: n in g && e in g[n] && Usable(e.1) ==> e.1.length == c
    requires Allowed(g, s, reach, cap, w, v)
    ensures VisitedOnce(g, s, reach, cap, v)
  {
    hide VisitedOnce, Length, IsWalk, End, Place, Times;
    var f := FirstFewestExists(g, s, reach, cap, w, v);
    EqualHopsLength(g, s, c, f);
    forall u | Allowed(g, s, reach, cap, u, v) ensures Length(f) <= Length(u) {
      EqualHopsLength(g, s, c, u);
      Scaled(c, |f|, |u|);
    }
    OnceIffFirstShortest(g, s, reach, cap, v, f);
  }

  /** A walk is visited exactly when it is allowed and no allowed walk to its node is both earlier and at
      most as long. With `Ordered` this gives the whole list of visits without the search. */
  lemma VisitIff(g: Graph, s: Node, reach: Horizon, cap: StepCap, w: Walk, v: Node)
    requires End(s, w) == v
    ensures w in FifoVisits(g, s, reach, cap) <==>
            && Allowed(g, s, reach, cap, w, v)
            && !exists u :: Allowed(g, s, reach, cap, u, v) && Earlier(g, s, u, w) && Length(u) <= Length(w)
  {
    hide FifoVisits, Earlier, Length, Genuine, End, Allowed;
    var visits := FifoVisits(g, s, reach, cap);
    FifoSearched(g, s, reach, cap);
    if i :| 0 <= i < |visits| && visits[i] == w {
      VisitIsAllowed(g, s, reach, cap, visits, i);
      forall u | Allowed(g, s, reach, cap, u, v) && Earlier(g, s, u, w) ensures Length(w) < Length(u) {
        VisitBeatsEarlier(g, s, reach, cap, visits, i, u);
      }
    }
    if Allowed(g, s, reach, cap, w, v) && w !in visits {
      assert Dominated(g, s, visits, w);
      var j :| 0 <= j < |visits| && Dominates(g, s, visits[j], w);
      VisitIsAllowed(g, s, reach, cap, visits, j);
    }
  }

  lemma VisitBeatsEarlier(g: Graph, s: Node, reach: Horizon, cap: StepCap, visits: seq<Walk>, i: nat, u: Walk)
    requires Searched(g, s, reach, cap, visits) && i < |visits|
    requires Allowed(g, s, reach, cap, u, End(s, visits[i])) && Earlier(g, s, u, visits[i])
    ensures Length(visits[i]) < Length(u)
  {
    hide Earlier, Length, Genuine, End, Allowed;
    var w := visits[i];
    AllowedEnds(g, s, reach, cap, u, End(s, w));
    assert Dominated(g, s, visits, u);
    var j :| 0 <= j < |visits| && Dominates(g, s, visits[j], u);
    EarlierTransitive(g, s, visits[j], u, w);
    EarlierIrreflexive(g, s, u);
    if visits[j] == w {
      EarlierAsymmetric(g, s, u, w);
    } else if i < j {
      assert After(g, s, w, visits[j]);
      EarlierAsymmetric(g, s, w, visits[j]);
    } else {
      LaterIsNearer(g, s, reach, cap, visits, j, i);
    }
  }

  // ---- the field ----

  function At(fired: map<Node, real>, v: Node): real {
    if v in fired then fired[v] else 0.0
  }

  /** What one visit deposits: the raw energy at the seed, the screened energy anywhere else. */
  function Amount(energy: real, kernel: real -> real, w: Walk): real {
    if w == [] then energy else energy * kernel(Length(w))
  }

  /** The field after the visits of one seed have each made their deposit, in order. */
  function FiredAfter(fired: map<Node, real>, s: Node, energy: real, kernel: real -> real, visits: seq<Walk>): map<Node, real>
  {
    if visits == [] then fired
    else
      var before := FiredAfter(fired, s, energy, kernel, visits[..|visits| - 1]);
      var w := visits[|visits| - 1];
      before[End(s, w) := At(before, End(s, w)) + Amount(energy, kernel, w)]
  }

  /** The deposits of one seed's visits at the node v, summed. */
  function Received(s: Node, energy: real, kernel: real -> real, visits: seq<Walk>, v: Node): real {
    if visits == [] then 0.0
    else
      var w := visits[|visits| - 1];
      Received(s, energy, kernel, visits[..|visits| - 1], v) + if End(s, w) == v then Amount(energy, kernel, w) else 0.0
  }

  lemma FiredAppend(fired: map<Node, real>, s: Node, energy: real, kernel: real -> real, visits: seq<Walk>, w: Walk)
    ensures FiredAfter(fired, s, energy, kernel, visits + [w]) ==
            var before := FiredAfter(fired, s, energy, kernel, visits);
            before[End(s, w) := At(before, End(s, w)) + Amount(energy, kernel, w)]
  {
    assert (visits + [w])[..|visits|] == visits;
  }

  lemma {:induction false} FiredIsReceived(fired: map<Node, real>, s: Node, energy: real, kernel: real -> real,
                                           visits: seq<Walk>, v: Node)
    ensures At(FiredAfter(fired, s, energy, kernel, visits), v) == At(fired, v) + Received(s, energy, kernel, visits, v)
    ensures v in FiredAfter(fired, s, energy, kernel, visits) <==>
            v in fired || exists i :: 0 <= i < |visits| && End(s, visits[i]) == v
  {
    hide Length, End, Amount;
    if visits != [] {
      var init, w := visits[..|visits| - 1], visits[|visits| - 1];
      FiredIsReceived(fired, s, energy, kernel, init, v);
      if End(s, w) == v {
        assert visits[|visits| - 1] == w;
      } else if i :| 0 <= i < |visits| && End(s, visits[i]) == v {
        assert init[i] == visits[i];
      }
    }
  }

  /** What a search deposits at a node it visits once: the energy screened over a shortest allowed walk. */
  lemma OnceReceives(g: Graph, s: Node, energy: real, kernel: real -> real, reach: Horizon, cap: StepCap, f: Walk, v: Node)
    requires FirstFewest(g, s, reach, cap, f, v) && Shortest(g, s, reach, cap, f, v)
    ensures Received(s, energy, kernel, FifoVisits(g, s, reach, cap), v) ==
            if |f| == 0 then energy else energy * kernel(Length(f))
  {
    hide FifoVisits, Earlier, Length, End, Allowed, Received;
    var visits := FifoVisits(g, s, reach, cap);
    OnceIffFirstShortest(g, s, reach, cap, v, f);
    var i := FirstIsVisited(g, s, reach, cap, v, f);
    OneDeposit(s, energy, kernel, visits, v, i);
  }

  lemma {:induction false} OneDeposit(s: Node, energy: real, kernel: real -> real, visits: seq<Walk>, v: Node, i: nat)
    requires i < |visits| && End(s, visits[i]) == v
    requires forall j :: 0 <= j < |visits| && End(s, visits[j]) == v ==> j == i
    ensures Received(s, energy, kernel, visits, v) == Amount(energy, kernel, visits[i])
  {
    hide Length, End, Amount;
    var init := visits[..|visits| - 1];
    if i == |visits| - 1 { NoDeposit(s, energy, kernel, init, v); } else { OneDeposit(s, energy, kernel, init, v, i); }
  }

  lemma {:induction false} NoDeposit(s: Node, energy: real, kernel: real -> real, visits: seq<Walk>, v: Node)
    requires forall j :: 0 <= j < |visits| ==> End(s, visits[j]) != v
    ensures Received(s, energy, kernel, visits, v) == 0.0
  {
    hide Length, End, Amount;
    if visits != [] { NoDeposit(s, energy, kernel, visits[..|visits| - 1], v); }
  }

  // ---- the loops ----

  ghost predicate QueueIs(s: Node, visits: seq<Walk>, head: nat, queue: seq<Entry>) {
    && head + |queue| == |visits|
    && forall i :: 0 <= i < |queue| ==>
         queue[i] == Entry(End(s, visits[head + i]), Length(visits[head + i]), |visits[head + i]|)
  }

  lemma QueueAppend(s: Node, visits: seq<Walk>, head: nat, queue: seq<Entry>, w: Walk)
    requires QueueIs(s, visits, head, queue)
    ensures QueueIs(s, visits + [w], head, queue + [Entry(End(s, w), Length(w), |w|)])
  {
    hide Length, End;
  }

  /** The guard on `seen` asks whether a visit has reached the node at most this far. */
  lemma SeenGuard(s: Node, visits: seq<Walk>, seen: map<Node, real>, v: Node, d: real)
    requires SeenIs(s, visits, seen)
    ensures (v in seen && seen[v] <= d) <==> Reached(s, visits, v, d)
  {
    hide Length, End;
  }

  lemma SeenAppend(s: Node, visits: seq<Walk>, seen: map<Node, real>, w: Walk)
    requires SeenIs(s, visits, seen) && (End(s, w) in seen ==> Length(w) <= seen[End(s, w)])
    ensures SeenIs(s, visits + [w], seen[End(s, w) := Length(w)])
  {
    hide Length, End;
    var all, now := visits + [w], seen[End(s, w) := Length(w)];
    forall v | v in now ensures exists i :: 0 <= i < |all| && End(s, all[i]) == v && Length(all[i]) == now[v] {
      if v == End(s, w) {
        assert all[|visits|] == w;
      } else {
        var i :| 0 <= i < |visits| && End(s, visits[i]) == v && Length(visits[i]) == seen[v];
        assert all[i] == visits[i];
      }
    }
  }

  /** Expand one popped entry along all the edges out of its node: exactly the open edges that reach their
      node nearer than any visit so far are visited, in neighbour order. */
  method Expand(s: Node, energy: real, g: Graph, kernel: real -> real, reach: Horizon,
                entry: Entry, fired0: map<Node, real>, seen0: map<Node, real>, queue0: seq<Entry>,
                ghost before: map<Node, real>, ghost visits0: seq<Walk>, ghost head: nat)
    returns (fired: map<Node, real>, seen: map<Node, real>, queue: seq<Entry>)
    requires 0 < head <= |visits0| && QueueIs(s, visits0, head, queue0) && SeenIs(s, visits0, seen0)
    requires entry == Entry(End(s, visits0[head - 1]), Length(visits0[head - 1]), |visits0[head - 1]|)
    requires fired0 == FiredAfter(before, s, energy, kernel, visits0)
    ensures var visits := Arrivals(g, s, reach, visits0, visits0[head - 1], |Neighbours(g, End(s, visits0[head - 1]))|);
            && QueueIs(s, visits, head, queue) && SeenIs(s, visits, seen)
            && fired == FiredAfter(before, s, energy, kernel, visits)
  {
    hide FiredAfter, Length, End, Reached, SeenIs, QueueIs, Amount;
    fired, seen, queue := fired0, seen0, queue0;
    ghost var visits, w := visits0, visits0[head - 1];
    var edges := Neighbours(g, entry.node);
    for k := 0 to |edges|
      invariant visits == Arrivals(g, s, reach, visits0, w, k)
      invariant QueueIs(s, visits, head, queue) && SeenIs(s, visits, seen)
      invariant fired == FiredAfter(before, s, energy, kernel, visits)
    {
      var nb, edge := edges[k].0, edges[k].1;
      if Usable(edge) {
        var d := entry.dist + edge.length;
        if !Past(d, reach) {
          SeenGuard(s, visits, seen, nb, d);
          if nb in seen && seen[nb] <= d {
            assert visits == Arrivals(g, s, reach, visits0, w, k + 1);
          } else {
            ghost var a := Arrival(w, edges[k]);
            ArrivalEnds(s, w, edges[k]);
            ArrivalAmount(energy, kernel, a, d);
            FiredAppend(before, s, energy, kernel, visits, a);
            QueueAppend(s, visits, head, queue, a);
            SeenAppend(s, visits, seen, a);
            seen := seen[nb := d];
            fired := fired[nb := At(fired, nb) + energy * kernel(d)];
            queue := queue + [Entry(nb, d, entry.steps + 1)];
            visits := visits + [a];
          }
        }
      }
    }
  }

  lemma ArrivalAmount(energy: real, kernel: real -> real, w: Walk, d: real)
    requires w != [] && Length(w) == d
    ensures Amount(energy, kernel, w) == energy * kernel(d)
  {}

  /** The search of one seed: a first-in first-out queue of arrivals. */
  method Search(s: Node, energy: real, g: Graph, kernel: real -> real, reach: Horizon, cap: StepCap, before: map<Node, real>)
    returns (fired: map<Node, real>, seen: map<Node, real>)
    ensures fired == FiredAfter(before, s, energy, kernel, FifoVisits(g, s, reach, cap))
    ensures Nearest(g, s, reach, cap, seen)
  {
    hide Bound, Arrivals, SeenIs, FifoVisits, Nearest, Pops, Pop, QueueIs, FiredAfter;
    fired := before[s := At(before, s) + energy];
    seen := map[s := 0.0];
    var queue := [Entry(s, 0.0, 0)];
    ghost var visits: seq<Walk>, head: nat := [[]], 0;
    SeenStart(s);
    FiredAppend(before, s, energy, kernel, [], []);
    assert [] + [[]] == visits;
    PopsStart(g, s, reach, cap, before, energy, kernel);
    hide Length, End;
    while queue != []
      invariant visits == Pops(g, s, reach, cap, head)
      invariant QueueIs(s, visits, head, queue) && SeenIs(s, visits, seen)
      invariant fired == FiredAfter(before, s, energy, kernel, visits)
      decreases |Bound(g, s)| - head
    {
      VisitsFit(g, s, reach, cap, head);
      QueueNext(s, visits, head, queue);
      PopsNext(g, s, reach, cap, head);
      var entry := queue[0];
      queue := queue[1..];
      head := head + 1;
      if !Capped(entry.steps, cap) {
        fired, seen, queue := Expand(s, energy, g, kernel, reach, entry, fired, seen, queue, before, visits, head);
        visits := Arrivals(g, s, reach, visits, visits[head - 1], |Neighbours(g, End(s, visits[head - 1]))|);
      }
    }
    SearchEnds(g, s, reach, cap, head, seen, queue);
  }

  lemma PopsStart(g: Graph, s: Node, reach: Horizon, cap: StepCap, before: map<Node, real>, energy: real, kernel: real -> real)
    ensures Pops(g, s, reach, cap, 0) == [[]] && FiredAfter(before, s, energy, kernel, []) == before
    ensures End(s, []) == s && Amount(energy, kernel, []) == energy
  {}

  lemma QueueNext(s: Node, visits: seq<Walk>, head: nat, queue: seq<Entry>)
    requires QueueIs(s, visits, head, queue) && queue != []
    ensures head < |visits| && queue[0] == Entry(End(s, visits[head]), Length(visits[head]), |visits[head]|)
    ensures QueueIs(s, visits, head + 1, queue[1..])
  {
    hide Length, End;
  }

  lemma PopsNext(g: Graph, s: Node, reach: Horizon, cap: StepCap, head: nat)
    requires head < |Pops(g, s, reach, cap, head)|
    ensures var visits := Pops(g, s, reach, cap, head);
            Pops(g, s, reach, cap, head + 1) ==
            if Capped(|visits[head]|, cap) then visits
            else Arrivals(g, s, reach, visits, visits[head], |Neighbours(g, End(s, visits[head]))|)
  {
    hide Arrivals, End;
  }

  lemma SearchEnds(g: Graph, s: Node, reach: Horizon, cap: StepCap, head: nat, seen: map<Node, real>, queue: seq<Entry>)
    requires SeenIs(s, Pops(g, s, reach, cap, head), seen)
    requires QueueIs(s, Pops(g, s, reach, cap, head), head, queue) && queue == []
    ensures Pops(g, s, reach, cap, head) == FifoVisits(g, s, reach, cap) && Nearest(g, s, reach, cap, seen)
  {
    hide FifoVisits, Pops, SeenIs, Searched, Nearest;
    PopsSettle(g, s, reach, cap, head);
    FifoSearched(g, s, reach, cap);
    HistoryIsNearest(g, s, reach, cap, FifoVisits(g, s, reach, cap), seen);
  }

  lemma SeenStart(s: Node)
    ensures SeenIs(s, [[]], map[s := 0.0])
    ensures QueueIs(s, [[]], 0, [Entry(s, 0.0, 0)])
  {
    assert End(s, [[]][0]) == s && Length([[]][0]) == 0.0;
  }

  lemma VisitsFit(g: Graph, s: Node, reach: Horizon, cap: StepCap, n: nat)
    ensures |Pops(g, s, reach, cap, n)| <= |Bound(g, s)|
  {
    hide Pops, Bound, History, AllExpanded;
    PopsKeep(g, s, reach, cap, n);
    VisitsAreBounded(g, s, reach, cap, Pops(g, s, reach, cap, n), PoppedOf(n, Pops(g, s, reach, cap, n)));
  }

  // ---- all seeds ----

  /** The field after the first n seeds have each made the deposits of all their visits. */
  ghost function Field(seeds: seq<(Node, real)>, g: Graph, kernel: real -> real, reach: Horizon, cap: StepCap, n: nat): map<Node, real>
    requires n <= |seeds|
  {
    if n == 0 then map[]
    else
      var (s, energy) := seeds[n - 1];
      FiredAfter(Field(seeds, g, kernel, reach, cap, n - 1), s, energy, kernel, FifoVisits(g, s, reach, cap))
  }

  method SpreadGraph(seeds: seq<(Node, real)>, g: Graph, kernel: real -> real, reach: Horizon, cap: StepCap)
    returns (fired: map<Node, real>)
    ensures fired == Field(seeds, g, kernel, reach, cap, |seeds|)
    ensures forall v :: v in fired <==> Lit(seeds, g, reach, cap, v)
  {
    hide FifoVisits, FiredAfter;
    fired := map[];
    for i := 0 to |seeds|
      invariant fired == Field(seeds, g, kernel, reach, cap, i)
    {
      var seen;
      fired, seen := Search(seeds[i].0, seeds[i].1, g, kernel, reach, cap, fired);
    }
    hide Field, Lit;
    forall v ensures v in fired <==> Lit(seeds, g, reach, cap, v) { FiredIffLit(seeds, g, kernel, reach, cap, v); }
  }

  // ---- which nodes are fired ----

  /** A journey of usable edges from s to v, read off the neighbour lists. */
  ghost predicate Travels(g: Graph, s: Node, w: Walk, v: Node) {
    w != [] && w[|w| - 1].to == v && forall i :: 0 <= i < |w| ==> IsHop(g, s, w, i)
  }

  /** Hop i of a walk from s is a usable edge of the node it sets out from. */
  predicate IsHop(g: Graph, s: Node, w: Walk, i: nat)
    requires i < |w|
  {
    var from := if i == 0 then s else w[i - 1].to;
    w[i].length >= 0.0 && from in g && (w[i].to, Finite(w[i].length)) in g[from]
  }

  /** The node is a seed, or a journey from a seed ends there that is no longer than the horizon and has no
      more hops than the cap. */
  ghost predicate Lit(seeds: seq<(Node, real)>, g: Graph, reach: Horizon, cap: StepCap, v: Node) {
    exists i :: 0 <= i < |seeds| && (seeds[i].0 == v || Arrives(g, seeds[i].0, reach, cap, v))
  }

  ghost predicate Arrives(g: Graph, s: Node, reach: Horizon, cap: StepCap, v: Node) {
    exists w :: Travels(g, s, w, v) && (reach.Within? ==> Length(w) <= reach.limit) && (cap.Cap? ==> |w| <= cap.steps)
  }

  lemma {:induction false} WalkTravels(g: Graph, s: Node, w: Walk)
    requires w != []
    ensures IsWalk(g, s, w) <==> Travels(g, s, w, End(s, w))
    decreases |w|
  {
    var p := w[..|w| - 1];
    LastIsHop(g, s, w);
    forall i | 0 <= i < |p| ensures IsHop(g, s, p, i) <==> IsHop(g, s, w, i) {}
    hide IsHop, HasEdge, End;
    if p == [] {
      NoHopsIsWalk(g, s, p);
    } else {
      WalkTravels(g, s, p);
      EndIsLast(s, p);
    }
    EndIsLast(s, w);
  }

  lemma NoHopsIsWalk(g: Graph, s: Node, w: Walk)
    requires w == []
    ensures IsWalk(g, s, w)
  {}

  lemma EndIsLast(s: Node, w: Walk)
    requires w != []
    ensures End(s, w) == w[|w| - 1].to
  {}

  lemma LastIsHop(g: Graph, s: Node, w: Walk)
    requires w != []
    ensures IsHop(g, s, w, |w| - 1) <==> HasEdge(g, End(s, w[..|w| - 1]), w[|w| - 1])
  {}

  lemma AllowedArrives(g: Graph, s: Node, reach: Horizon, cap: StepCap, v: Node)
    ensures (exists w :: Allowed(g, s, reach, cap, w, v)) <==> s == v || Arrives(g, s, reach, cap, v)
  {
    hide IsWalk, Travels, Length;
    if w :| Allowed(g, s, reach, cap, w, v) && w != [] {
      WalkTravels(g, s, w);
      assert Travels(g, s, w, v);
    }
    if s == v { StandsStill(g, s, reach, cap); }
    if w :| Travels(g, s, w, v) && (reach.Within? ==> Length(w) <= reach.limit) && (cap.Cap? ==> |w| <= cap.steps) {
      TravelsEnds(g, s, w, v);
      WalkTravels(g, s, w);
      assert Allowed(g, s, reach, cap, w, v);
    }
  }

  lemma StandsStill(g: Graph, s: Node, reach: Horizon, cap: StepCap)
    ensures Allowed(g, s, reach, cap, [], s)
  {}

  lemma TravelsEnds(g: Graph, s: Node, w: Walk, v: Node)
    requires Travels(g, s, w, v)
    ensures w != [] && End(s, w) == v
  {}

  /** Exactly the seeds and the nodes within horizon and cap are fired. */
  lemma FiredIffLit(seeds: seq<(Node, real)>, g: Graph, kernel: real -> real, reach: Horizon, cap: StepCap, v: Node)
    ensures v in Field(seeds, g, kernel, reach, cap, |seeds|) <==> Lit(seeds, g, reach, cap, v)
  {
    FieldIsTotal(seeds, g, kernel, reach, cap, |seeds|, v);
    hide Field, TotalReceived, Allowed, Arrives;
    forall i | 0 <= i < |seeds|
      ensures (exists w :: Allowed(g, seeds[i].0, reach, cap, w, v)) <==>
              seeds[i].0 == v || Arrives(g, seeds[i].0, reach, cap, v)
    {
      AllowedArrives(g, seeds[i].0, reach, cap, v);
    }
  }

  // ---- what the field is ----

  /** The sum over the first n seeds of what each one's visits deposit at v. */
  ghost function TotalReceived(seeds: seq<(Node, real)>, g: Graph, kernel: real -> real, reach: Horizon, cap: StepCap,
                               n: nat, v: Node): real
    requires n <= |seeds|
  {
    if n == 0 then 0.0
    else
      var (s, energy) := seeds[n - 1];
      TotalReceived(seeds, g, kernel, reach, cap, n - 1, v) + Received(s, energy, kernel, FifoVisits(g, s, reach, cap), v)
  }

  /** The field at v is, seed by seed, the energy of every visit to v screened over the walk it came by
      (`VisitIff` says which walks those are); and exactly the nodes an allowed walk reaches from some seed
      are fired. */
  lemma {:induction false} FieldIsTotal(seeds: seq<(Node, real)>, g: Graph, kernel: real -> real, reach: Horizon,
                                        cap: StepCap, n: nat, v: Node)
    requires n <= |seeds|
    ensures At(Field(seeds, g, kernel, reach, cap, n), v) == TotalReceived(seeds, g, kernel, reach, cap, n, v)
    ensures v in Field(seeds, g, kernel, reach, cap, n) <==>
            exists i, w :: 0 <= i < n && Allowed(g, seeds[i].0, reach, cap, w, v)
  {
    hide FifoVisits, FiredAfter, Received, Allowed, End;
    if n > 0 {
      var (s, energy) := seeds[n - 1];
      FieldIsTotal(seeds, g, kernel, reach, cap, n - 1, v);
      FiredIsReceived(Field(seeds, g, kernel, reach, cap, n - 1), s, energy, kernel, FifoVisits(g, s, reach, cap), v);
      VisitedIffReached(g, s, reach, cap, v);
    }
  }

  /** What a list of routes to one node brings it, seed by seed: the seed's own energy when the route is no
      hop at all, its energy screened over the route's length otherwise, and nothing without a route. */
  function Brought(seeds: seq<(Node, real)>, kernel: real -> real, routes: seq<Option<Walk>>): real
    requires |routes| == |seeds|
  {
    if seeds == [] then 0.0
    else
      var (energy, route) := (seeds[0].1, routes[0]);
      (match route
       case None => 0.0
       case Some(w) => if |w| == 0 then energy else energy * kernel(Length(w)))
      + Brought(seeds[1..], kernel, routes[1..])
  }

  /** The route by which a seed reaches v: the first fewest-hop allowed walk, which is a shortest one, or
      none because there is no allowed walk. */
  ghost predicate NearestRoute(g: Graph, s: Node, reach: Horizon, cap: StepCap, route: Option<Walk>, v: Node) {
    match route
    case None => !exists w :: Allowed(g, s, reach, cap, w, v)
    case Some(f) => FirstFewest(g, s, reach, cap, f, v) && Shortest(g, s, reach, cap, f, v)
  }

  lemma {:induction false} BroughtLast(seeds: seq<(Node, real)>, kernel: real -> real, routes: seq<Option<Walk>>)
    requires |routes| == |seeds| > 0
    ensures var n := |seeds| - 1;
            Brought(seeds, kernel, routes) == Brought(seeds[..n], kernel, routes[..n]) + Brought(seeds[n..], kernel, routes[n..])
  {
    var n := |seeds| - 1;
    hide Length;
    if n == 0 {
      assert seeds[0..] == seeds && routes[0..] == routes;
    } else {
      BroughtLast(seeds[1..], kernel, routes[1..]);
      assert seeds[1..][..n - 1] == seeds[..n][1..] && routes[1..][..n - 1] == routes[..n][1..];
      assert seeds[1..][n - 1..] == seeds[n..] && routes[1..][n - 1..] == routes[n..];
    }
  }

  lemma RouteBrings(g: Graph, seed: (Node, real), kernel: real -> real, reach: Horizon, cap: StepCap, route: Option<Walk>, v: Node)
    requires NearestRoute(g, seed.0, reach, cap, route, v)
    ensures Received(seed.0, seed.1, kernel, FifoVisits(g, seed.0, reach, cap), v) == Brought([seed], kernel, [route])
  {
    hide FifoVisits, Length, End, FirstFewest, Shortest, Allowed, Received;
    assert [seed][1..] == [] && [route][1..] == [];
    match route
    case Some(f) => OnceReceives(g, seed.0, seed.1, kernel, reach, cap, f, v);
    case None =>
      VisitedIffReached(g, seed.0, reach, cap, v);
      NoDeposit(seed.0, seed.1, kernel, FifoVisits(g, seed.0, reach, cap), v);
  }

  /** A node that every seed reaches, if at all, by a first route that is also shortest holds the sum of the
      seeds' energies screened over those shortest routes. */
  lemma {:induction false} FieldOfNearest(seeds: seq<(Node, real)>, g: Graph, kernel: real -> real, reach: Horizon,
                                          cap: StepCap, routes: seq<Option<Walk>>, n: nat, v: Node)
    requires n <= |seeds| == |routes|
    requires forall i :: 0 <= i < |seeds| ==> NearestRoute(g, seeds[i].0, reach, cap, routes[i], v)
    ensures At(Field(seeds, g, kernel, reach, cap, n), v) == Brought(seeds[..n], kernel, routes[..n])
  {
    hide FifoVisits, NearestRoute, Field, Received, FiredAfter, Brought;
    FieldIsTotal(seeds, g, kernel, reach, cap, n, v);
    if n == 0 {
      NothingBrought(kernel, seeds[..0], routes[..0]);
    } else {
      FieldOfNearest(seeds, g, kernel, reach, cap, routes, n - 1, v);
      FieldIsTotal(seeds, g, kernel, reach, cap, n - 1, v);
      RouteBrings(g, seeds[n - 1], kernel, reach, cap, routes[n - 1], v);
      BroughtLast(seeds[..n], kernel, routes[..n]);
      assert seeds[..n][..n - 1] == seeds[..n - 1] && routes[..n][..n - 1] == routes[..n - 1];
      assert seeds[..n][n - 1..] == [seeds[n - 1]] && routes[..n][n - 1..] == [routes[n - 1]];
    }
  }

  lemma NothingBrought(kernel: real -> real, seeds: seq<(Node, real)>, routes: seq<Option<Walk>>)
    requires |seeds| == |routes| == 0
    ensures Brought(seeds, kernel, routes) == 0.0
  {}

  // ---- one node, two edges ----

  /** The graph of two edges from a to b, the given lengths in that order. */
  function TwoEdges(x: real, y: real): Graph {
    map["a" := [("b", Finite(x)), ("b", Finite(y))]]
  }

  lemma TwoEdgesVisits(x: real, y: real)
    requires x >= 0.0 && y >= 0.0
    ensures FifoVisits(TwoEdges(x, y), "a", Unbounded, NoCap) ==
            if y < x then [[], [Hop("b", x)], [Hop("b", y)]] else [[], [Hop("b", x)]]
  {
    var g := TwoEdges(x, y);
    var w1, w2 := [Hop("b", x)], [Hop("b", y)];
    var one, all := [[], w1], if y < x then [[], w1, w2] else [[], w1];
    WalkOfOne("a", Hop("b", x));
    WalkOfOne("a", Hop("b", y));
    assert Arrive("a", Unbounded, [[]], [], ("b", Finite(x))) == one by {
      assert [] + w1 == w1;
      assert !Reached("a", [[]], "b", x);
    }
    assert Arrive("a", Unbounded, one, [], ("b", Finite(y))) == all by {
      assert [] + w2 == w2;
      if x <= y { assert one[1] == w1; } else { assert !Reached("a", one, "b", y); }
    }
    hide Length, Reached, Arrive;
    assert Arrivals(g, "a", Unbounded, [[]], [], 0) == [[]];
    assert Arrivals(g, "a", Unbounded, [[]], [], 1) == one;
    assert Arrivals(g, "a", Unbounded, [[]], [], 2) == all;
    assert Pops(g, "a", Unbounded, NoCap, 0) == [[]];
    assert Pops(g, "a", Unbounded, NoCap, 1) == all;
    hide Arrivals, Pop;
    NoEdgesPop(g, all, 1);
    NoEdgesPop(g, all, 2);
    assert Pops(g, "a", Unbounded, NoCap, 2) == all;
    assert Pops(g, "a", Unbounded, NoCap, 3) == all;
    hide Pops, FifoVisits;
    PopsSettle(g, "a", Unbounded, NoCap, 3);
  }

  lemma NoEdgesPop(g: Graph, visits: seq<Walk>, head: nat)
    requires head < |visits| ==> Neighbours(g, End("a", visits[head])) == []
    ensures Pop(g, "a", Unbounded, NoCap, visits, head) == visits
  {}

  lemma WalkOfOne(s: Node, h: Hop)
    ensures End(s, [h]) == h.to && Length([h]) == h.length && End(s, []) == s && Length([]) == 0.0
  {
    assert [h][..0] == [];
  }

  /** With the longer edge first b takes two deposits, with the shorter first only one. */
  lemma LongerEdgeFirst(energy: real, kernel: real -> real)
    ensures At(Field([("a", energy)], TwoEdges(5.0, 3.0), kernel, Unbounded, NoCap, 1), "b") ==
            energy * kernel(5.0) + energy * kernel(3.0)
    ensures At(Field([("a", energy)], TwoEdges(3.0, 5.0), kernel, Unbounded, NoCap, 1), "b") == energy * kernel(3.0)
  {
    hide FifoVisits, FiredAfter, Received;
    TwoEdgesField(5.0, 3.0, energy, kernel);
    TwoEdgesField(3.0, 5.0, energy, kernel);
  }

  lemma TwoEdgesField(x: real, y: real, energy: real, kernel: real -> real)
    requires x >= 0.0 && y >= 0.0
    ensures At(Field([("a", energy)], TwoEdges(x, y), kernel, Unbounded, NoCap, 1), "b") ==
            energy * kernel(x) + if y < x then energy * kernel(y) else 0.0
  {
    TwoEdgesVisits(x, y);
    TwoEdgesReceived(x, y, energy, kernel);
    hide FifoVisits, FiredAfter, Received, End, Length;
    FieldIsTotal([("a", energy)], TwoEdges(x, y), kernel, Unbounded, NoCap, 1, "b");
    assert TotalReceived([("a", energy)], TwoEdges(x, y), kernel, Unbounded, NoCap, 0, "b") == 0.0;
  }

  lemma TwoEdgesReceived(x: real, y: real, energy: real, kernel: real -> real)
    ensures Received("a", energy, kernel, [[], [Hop("b", x)]], "b") == energy * kernel(x)
    ensures Received("a", energy, kernel, [[], [Hop("b", x)], [Hop("b", y)]], "b") == energy * kernel(x) + energy * kernel(y)
  {
    var w1, w2 := [Hop("b", x)], [Hop("b", y)];
    WalkOfOne("a", Hop("b", x));
    WalkOfOne("a", Hop("b", y));
    hide End, Length;
    var w0: Walk := [];
    assert [w0][..0] == [] && [w0, w1][..1] == [w0] && [w0, w1, w2][..2] == [w0, w1];
    assert Received("a", energy, kernel, [], "b") == 0.0;
    assert Received("a", energy, kernel, [[]], "b") == 0.0;
    assert Received("a", energy, kernel, [[], w1], "b") == energy * kernel(x);
  }
}
