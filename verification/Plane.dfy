/** The communication plane of `plane.py`: light-cones, anti-entropy over several carriers, and what a
    principal receives. */
module Planes {
  import opened Carriers
  import opened Leaves
  import opened Outcomes
  import opened Sorting
  import opened Text

  // ---- light-cones ----

  /** The names that belong to each name. */
  type Groups = map<Label, set<Label>>

  /** Containment: the collections directly inside a group. */
  function Kids(contains: Groups, g: Label): set<Label> {
    if g in contains then contains[g] else {}
  }

  /** Each of the nodes after the first is inside the one before it. */
  ghost predicate Descent(contains: Groups, path: seq<Label>) {
    path != [] && forall i :: 0 < i < |path| ==> path[i] in Kids(contains, path[i - 1])
  }

  /** x is one of the groups or lies inside one, along a descent that enters no node of `walls`. */
  ghost predicate Reaches(contains: Groups, groups: set<Label>, walls: set<Label>, x: Label) {
    exists path :: Descent(contains, path) && path[0] in groups && path[|path| - 1] == x
                   && forall i :: 0 <= i < |path| - 1 ==> path[i] !in walls
  }

  lemma ReachesGroup(contains: Groups, groups: set<Label>, walls: set<Label>, g: Label)
    requires g in groups
    ensures Reaches(contains, groups, walls, g)
  {
    assert Descent(contains, [g]) && [g][0] in groups;
  }

  lemma ReachesKid(contains: Groups, groups: set<Label>, walls: set<Label>, g: Label, kid: Label)
    requires Reaches(contains, groups, walls, g) && g !in walls && kid in Kids(contains, g)
    ensures Reaches(contains, groups, walls, kid)
  {
    var path :| Descent(contains, path) && path[0] in groups && path[|path| - 1] == g
                && forall i :: 0 <= i < |path| - 1 ==> path[i] !in walls;
    var longer := path + [kid];
    assert Descent(contains, longer);
    assert forall i :: 0 <= i < |longer| - 1 ==> longer[i] == path[i];
  }

  /** A set that holds the groups and is closed outside the walls holds everything reached. */
  lemma {:induction false} ClosedHoldsPath(contains: Groups, walls: set<Label>, closed: set<Label>, path: seq<Label>)
    requires Descent(contains, path) && path[0] in closed && forall i :: 0 <= i < |path| - 1 ==> path[i] !in walls
    requires forall g, kid :: g in closed && g !in walls && kid in Kids(contains, g) ==> kid in closed
    ensures path[|path| - 1] in closed
    decreases |path|
  {
    if |path| > 1 {
      var init := path[..|path| - 1];
      assert forall i :: 0 <= i < |init| ==> init[i] == path[i];
      ClosedHoldsPath(contains, walls, closed, init);
    }
  }

  /** The principal is marked seen from the start, so unless it is itself a granted group its own
      contents are never expanded. */
  function Walls(memberOf: set<Label>, principal: Label): set<Label> {
    if principal in memberOf then {} else {principal}
  }

  ghost predicate IsCone(contains: Groups, memberOf: set<Label>, principal: Label, cone: set<Label>) {
    forall x :: x in cone <==> x == principal || Reaches(contains, memberOf, Walls(memberOf, principal), x)
  }

  ghost predicate ConeSound(contains: Groups, groups: set<Label>, walls: set<Label>, principal: Label, seen: set<Label>) {
    forall x :: x in seen ==> x == principal || Reaches(contains, groups, walls, x)
  }

  /** Everything seen, outside the walls and off the frontier, has been expanded. */
  ghost predicate ConeClosed(contains: Groups, walls: set<Label>, seen: set<Label>, frontier: set<Label>) {
    forall g, kid :: g in seen && g !in walls && g !in frontier && kid in Kids(contains, g) ==> kid in seen
  }

  lemma ExpandClosed(contains: Groups, walls: set<Label>, seen: set<Label>, frontier: set<Label>, g: Label)
    requires ConeClosed(contains, walls, seen, frontier) && g in frontier
    ensures var found := Kids(contains, g) - seen; ConeClosed(contains, walls, seen + found, frontier - {g} + found)
  {}

  lemma ExpandSound(contains: Groups, groups: set<Label>, walls: set<Label>, principal: Label, seen: set<Label>, g: Label)
    requires ConeSound(contains, groups, walls, principal, seen) && g in seen && g !in walls
    requires g == principal ==> Reaches(contains, groups, walls, g)
    ensures ConeSound(contains, groups, walls, principal, seen + Kids(contains, g))
  {
    forall kid | kid in Kids(contains, g) ensures Reaches(contains, groups, walls, kid) {
      ReachesKid(contains, groups, walls, g, kid);
    }
  }

  lemma ClosedIsCone(contains: Groups, groups: set<Label>, principal: Label, seen: set<Label>)
    requires groups + {principal} <= seen
    requires ConeSound(contains, groups, Walls(groups, principal), principal, seen)
    requires ConeClosed(contains, Walls(groups, principal), seen, {})
    ensures IsCone(contains, groups, principal, seen)
  {
    var walls := Walls(groups, principal);
    forall x | Reaches(contains, groups, walls, x) ensures x in seen {
      var path :| Descent(contains, path) && path[0] in groups && path[|path| - 1] == x
                  && forall i :: 0 <= i < |path| - 1 ==> path[i] !in walls;
      ClosedHoldsPath(contains, walls, seen, path);
    }
  }

  function AllKids(contains: Groups): set<Label> {
    set g, kid | g in contains && kid in contains[g] :: kid
  }

  lemma ExpandShrinks(all: set<Label>, seen: set<Label>, frontier: set<Label>, found: set<Label>, g: Label)
    requires seen <= all && found <= all && found !! seen && g in frontier
    ensures found != {} ==> all - (seen + found) < all - seen
    ensures found == {} ==> all - (seen + found) == all - seen && frontier - {g} + found < frontier
  {
    if kid :| kid in found { assert kid in all - seen; }
  }

  class Lightcone {
    var memberOf: Groups
    var contains: Groups

    constructor ()
      ensures memberOf == map[] && contains == map[]
    {
      memberOf := map[];
      contains := map[];
    }

    method DefineGroup(group: Label, kids: set<Label>)
      modifies this`contains
      ensures Kids(contains, group) == old(Kids(contains, group)) + kids
      ensures forall g :: g != group ==> Kids(contains, g) == old(Kids(contains, g))
    {
      contains := contains[group := Kids(contains, group) + kids];
    }

    method Join(principal: Label, group: Label)
      modifies this
      ensures Kids(memberOf, principal) == old(Kids(memberOf, principal)) + {group}
      ensures forall p :: p != principal ==> Kids(memberOf, p) == old(Kids(memberOf, p))
      ensures forall g :: Kids(contains, g) == old(Kids(contains, g))
    {
      memberOf := memberOf[principal := Kids(memberOf, principal) + {group}];
      if group !in contains {
        contains := contains[group := {}];
      }
    }

    /** The artifacts whose messages a principal receives. */
    method Cone(principal: Label) returns (seen: set<Label>)
      ensures IsCone(contains, Kids(memberOf, principal), principal, seen)
    {
      hide Reaches, ConeSound, ConeClosed, IsCone;
      ghost var groups := Kids(memberOf, principal);
      ghost var walls := Walls(groups, principal);
      ghost var all := groups + {principal} + AllKids(contains);
      seen := Kids(memberOf, principal) + {principal};
      var frontier := Kids(memberOf, principal);
      StartCone(contains, groups, principal);
      while frontier != {}
        invariant frontier <= seen <= all && groups + {principal} <= seen && frontier !! walls
        invariant ConeSound(contains, groups, walls, principal, seen)
        invariant ConeClosed(contains, walls, seen, frontier)
        decreases all - seen, frontier
      {
        var g :| g in frontier;
        var found := Kids(contains, g) - seen;
        ExpandClosed(contains, walls, seen, frontier, g);
        PrincipalOnFrontier(contains, groups, principal, g);
        ExpandSound(contains, groups, walls, principal, seen, g);
        ExpandShrinks(all, seen, frontier, found, g);
        assert seen + found == seen + Kids(contains, g);
        seen := seen + found;
        frontier := frontier - {g} + found;
      }
      ClosedIsCone(contains, groups, principal, seen);
    }
  }

  lemma StartCone(contains: Groups, groups: set<Label>, principal: Label)
    ensures ConeSound(contains, groups, Walls(groups, principal), principal, groups + {principal})
    ensures ConeClosed(contains, Walls(groups, principal), groups + {principal}, groups)
  {
    forall g | g in groups ensures Reaches(contains, groups, Walls(groups, principal), g) {
      ReachesGroup(contains, groups, Walls(groups, principal), g);
    }
  }

  lemma PrincipalOnFrontier(contains: Groups, groups: set<Label>, principal: Label, g: Label)
    requires g !in Walls(groups, principal)
    ensures g == principal ==> Reaches(contains, groups, Walls(groups, principal), g)
  {
    if g == principal { ReachesGroup(contains, groups, Walls(groups, principal), g); }
  }

  // ---- when the light-cone is the whole descent closure ----

  /** The principal, its groups, and everything inside them at any depth. */
  ghost predicate IsClosure(contains: Groups, groups: set<Label>, principal: Label, cone: set<Label>) {
    forall x :: x in cone <==> x == principal || Reaches(contains, groups, {}, x)
  }

  lemma FewerWalls(contains: Groups, groups: set<Label>, walls: set<Label>, x: Label)
    requires Reaches(contains, groups, walls, x)
    ensures Reaches(contains, groups, {}, x)
  {
    var path :| Descent(contains, path) && path[0] in groups && path[|path| - 1] == x
                && forall i :: 0 <= i < |path| - 1 ==> path[i] !in walls;
    assert forall i :: 0 <= i < |path| - 1 ==> path[i] !in {};
  }

  /** A descent either avoids a node or reaches it. */
  lemma AvoidsOrReaches(contains: Groups, groups: set<Label>, p: Label, x: Label)
    requires Reaches(contains, groups, {}, x)
    ensures Reaches(contains, groups, {p}, x) || Reaches(contains, groups, {}, p)
  {
    var path :| Descent(contains, path) && path[0] in groups && path[|path| - 1] == x
                && forall i :: 0 <= i < |path| - 1 ==> path[i] !in {};
    if i :| 0 <= i < |path| - 1 && path[i] == p {
      var prefix := path[..i + 1];
      assert Descent(contains, prefix) && prefix[0] == path[0] && prefix[|prefix| - 1] == p;
    }
  }

  lemma ConeExpands(contains: Groups, groups: set<Label>, principal: Label, cone: set<Label>, g: Label, kid: Label)
    requires IsCone(contains, groups, principal, cone) && g in cone && g != principal && kid in Kids(contains, g)
    ensures kid in cone
  {
    ReachesKid(contains, groups, Walls(groups, principal), g, kid);
  }

  lemma OpenedIsClosure(contains: Groups, groups: set<Label>, principal: Label, cone: set<Label>, x: Label)
    requires IsCone(contains, groups, principal, cone) && Kids(contains, principal) <= cone
    requires Reaches(contains, groups, {}, x)
    ensures x in cone
  {
    var path :| Descent(contains, path) && path[0] in groups && path[|path| - 1] == x
                && forall i :: 0 <= i < |path| - 1 ==> path[i] !in {};
    ReachesGroup(contains, groups, Walls(groups, principal), path[0]);
    forall g, kid | g in cone && kid in Kids(contains, g) ensures kid in cone {
      if g != principal { ConeExpands(contains, groups, principal, cone, g, kid); }
    }
    ClosedHoldsPath(contains, {}, cone, path);
  }

  /** The light-cone is the whole descent closure exactly when the principal was granted itself, or lies
      inside none of its groups, or its groups reach whatever it directly contains without passing it. */
  lemma ConeIsClosure(contains: Groups, groups: set<Label>, principal: Label, cone: set<Label>)
    requires IsCone(contains, groups, principal, cone)
    ensures IsClosure(contains, groups, principal, cone) <==>
            || principal in groups
            || !Reaches(contains, groups, {}, principal)
            || forall kid :: kid in Kids(contains, principal) ==> kid == principal || Reaches(contains, groups, {principal}, kid)
  {
    hide Reaches;
    if principal !in groups {
      forall kid ensures kid in cone <==> kid == principal || Reaches(contains, groups, {principal}, kid) {}
    }
    forall x | x in cone && x != principal ensures Reaches(contains, groups, {}, x) {
      FewerWalls(contains, groups, Walls(groups, principal), x);
    }
    if principal !in groups && Reaches(contains, groups, {}, principal) {
      forall kid | kid in Kids(contains, principal) ensures Reaches(contains, groups, {}, kid) {
        ReachesKid(contains, groups, {}, principal, kid);
      }
    }
    if principal !in groups && !Reaches(contains, groups, {}, principal) {
      forall x | Reaches(contains, groups, {}, x) ensures x in cone { AvoidsOrReaches(contains, groups, principal, x); }
    }
    if Kids(contains, principal) <= cone {
      forall x | Reaches(contains, groups, {}, x) ensures x in cone {
        OpenedIsClosure(contains, groups, principal, cone, x);
      }
    }
  }

  /** A principal that is a container inside its own group: what it contains is left out. */
  lemma PrincipalContainerNotExpanded(g: Label, p: Label, x: Label, cone: set<Label>)
    requires g != p && p != x && g != x
    requires IsCone(map[g := {p}, p := {x}], {g}, p, cone)
    ensures x !in cone && Reaches(map[g := {p}, p := {x}], {g}, {}, x)
  {
    var contains := map[g := {p}, p := {x}];
    ReachesGroup(contains, {g}, {}, g);
    ReachesKid(contains, {g}, {}, g, p);
    ReachesKid(contains, {g}, {}, p, x);
    forall path | Descent(contains, path) && path[0] in {g} && forall i :: 0 <= i < |path| - 1 ==> path[i] !in {p}
      ensures path[|path| - 1] in {g, p}
    {
      ClosedHoldsPath(contains, {p}, {g, p}, path);
    }
  }

  // ---- anti-entropy over several carriers ----

  type Stock = map<Label, Leaf>

  /** Carrier 0 after it has met carriers 1, ..., i - 1, each keeping its own leaf for a shared id. */
  function Hub(stocks: seq<Stock>, i: nat): Stock
    requires 0 < i <= |stocks|
  {
    if i == 1 then stocks[0] else stocks[i - 1] + Hub(stocks, i - 1)
  }

  /** Carrier i after its turn. */
  function Spoke(stocks: seq<Stock>, i: nat): Stock
    requires 0 < i < |stocks|
  {
    Hub(stocks, i) + stocks[i]
  }

  /** What every carrier holds after one pass. */
  function AfterPass(stocks: seq<Stock>): (after: seq<Stock>)
    ensures |after| == |stocks|
  {
    seq(|stocks|, i requires 0 <= i < |stocks| => if i == 0 then Hub(stocks, |stocks|) else Spoke(stocks, i))
  }

  /** How many leaves a pass has moved once carriers 1, ..., i - 1 are done. */
  function Moved(stocks: seq<Stock>, i: nat): nat
    requires 0 < i <= |stocks|
  {
    if i == 1 then 0
    else
      Moved(stocks, i - 1) + Gap(Hub(stocks, i - 1), stocks[i - 1])
  }

  /** What the carriers hold after the first has met the i-th. */
  function Met(stocks: seq<Stock>, i: nat): (met: seq<Stock>)
    requires 0 < i < |stocks|
    ensures |met| == |stocks|
  {
    stocks[0 := stocks[i] + stocks[0]][i := stocks[0] + stocks[i]]
  }

  /** How many leaves one of two carriers has and the other lacks. */
  function Gap(a: Stock, b: Stock): nat {
    |a.Keys - b.Keys| + |b.Keys - a.Keys|
  }

  /** What the carriers hold once the first has met carriers 1, ..., i - 1. */
  function MidPass(stocks: seq<Stock>, i: nat): (mid: seq<Stock>)
    requires 0 < i <= |stocks|
    ensures |mid| == |stocks|
  {
    seq(|stocks|, j requires 0 <= j < |stocks| =>
          if j == 0 then Hub(stocks, i) else if j < i then Spoke(stocks, j) else stocks[j])
  }

  lemma PassBegins(stocks: seq<Stock>)
    requires stocks != []
    ensures MidPass(stocks, 1) == stocks
  {
    assert Hub(stocks, 1) == stocks[0];
  }

  lemma PassContinues(stocks: seq<Stock>, i: nat)
    requires 0 < i < |stocks|
    ensures Met(MidPass(stocks, i), i) == MidPass(stocks, i + 1)
    ensures Moved(stocks, i + 1) == Moved(stocks, i) + Gap(MidPass(stocks, i)[0], MidPass(stocks, i)[i])
  {
    HubContinues(stocks, i);
    MidPassAt(stocks, i, 0);
    MidPassAt(stocks, i, i);
    hide Hub, Gap, MidPass, Met;
    forall j | 0 <= j < |stocks| ensures Met(MidPass(stocks, i), i)[j] == MidPass(stocks, i + 1)[j] {
      MetAt(MidPass(stocks, i), i, j);
      MidPassAt(stocks, i, j);
      MidPassAt(stocks, i + 1, j);
    }
  }

  lemma HubContinues(stocks: seq<Stock>, i: nat)
    requires 0 < i < |stocks|
    ensures Hub(stocks, i + 1) == stocks[i] + Hub(stocks, i) && Spoke(stocks, i) == Hub(stocks, i) + stocks[i]
    ensures Moved(stocks, i + 1) == Moved(stocks, i) + Gap(Hub(stocks, i), stocks[i])
  {
    hide Gap;
  }

  lemma MidPassAt(stocks: seq<Stock>, i: nat, j: nat)
    requires 0 < i <= |stocks| && j < |stocks|
    ensures MidPass(stocks, i)[j] == if j == 0 then Hub(stocks, i) else if j < i then Spoke(stocks, j) else stocks[j]
  {
    hide Hub, Spoke;
  }

  lemma MetAt(stocks: seq<Stock>, i: nat, j: nat)
    requires 0 < i < |stocks| && j < |stocks|
    ensures Met(stocks, i)[j] == if j == 0 then stocks[i] + stocks[0] else if j == i then stocks[0] + stocks[i] else stocks[j]
  {}

  lemma PassEnds(stocks: seq<Stock>)
    requires stocks != []
    ensures MidPass(stocks, |stocks|) == AfterPass(stocks)
  {}

  /** The leaves one pass moves. */
  function PassCount(stocks: seq<Stock>): nat {
    if stocks == [] then 0 else Moved(stocks, |stocks|)
  }

  /** Equal ids carry equal leaves. */
  ghost predicate Agree(stocks: seq<Stock>) {
    forall i, j, k :: 0 <= i < |stocks| && 0 <= j < |stocks| && k in stocks[i] && k in stocks[j] ==> stocks[i][k] == stocks[j][k]
  }

  /** One of the first n carriers holds the id. */
  ghost predicate Held(stocks: seq<Stock>, n: nat, k: Label)
    requires n <= |stocks|
  {
    exists i :: 0 <= i < n && k in stocks[i]
  }

  /** A stock's leaves are those of the carriers. */
  ghost predicate Faithful(stocks: seq<Stock>, stock: Stock) {
    forall i, k :: 0 <= i < |stocks| && k in stocks[i] && k in stock ==> stock[k] == stocks[i][k]
  }

  /** Everything that one of the first n carriers holds. */
  ghost predicate IsUnionOf(stocks: seq<Stock>, n: nat, all: Stock)
    requires n <= |stocks|
  {
    Faithful(stocks, all) && forall k :: k in all <==> Held(stocks, n, k)
  }

  ghost predicate IsUnion(stocks: seq<Stock>, all: Stock) {
    IsUnionOf(stocks, |stocks|, all)
  }

  lemma {:induction false} HubIsUnion(stocks: seq<Stock>, i: nat)
    requires 0 < i <= |stocks| && Agree(stocks)
    ensures IsUnionOf(stocks, i, Hub(stocks, i))
  {
    if i > 1 {
      HubIsUnion(stocks, i - 1);
      forall k ensures k in Hub(stocks, i) <==> Held(stocks, i, k) {
        if k in stocks[i - 1] { assert Held(stocks, i, k); }
        if Held(stocks, i - 1, k) {
          var j :| 0 <= j < i - 1 && k in stocks[j];
          assert Held(stocks, i, k);
        }
      }
    } else {
      forall k ensures k in stocks[0] <==> Held(stocks, 1, k) {}
    }
  }

  lemma UnionUnique(stocks: seq<Stock>, a: Stock, b: Stock)
    requires IsUnion(stocks, a) && IsUnion(stocks, b)
    ensures a == b
  {
    forall k | k in a ensures k in b && a[k] == b[k] {
      var i :| 0 <= i < |stocks| && k in stocks[i];
    }
  }

  /** One pass leaves the first carrier with the union, and carrier i with that of carriers 0, ..., i. */
  lemma FirstPass(stocks: seq<Stock>, i: nat)
    requires Agree(stocks) && i < |stocks|
    ensures IsUnionOf(stocks, if i == 0 then |stocks| else i + 1, AfterPass(stocks)[i])
  {
    if i == 0 {
      HubIsUnion(stocks, |stocks|);
    } else {
      HubIsUnion(stocks, i);
      var stock := Hub(stocks, i) + stocks[i];
      assert AfterPass(stocks)[i] == stock;
      hide Hub, AfterPass;
      forall k ensures k in stock <==> Held(stocks, i + 1, k) {
        if k in stocks[i] { assert Held(stocks, i + 1, k); }
        if Held(stocks, i, k) {
          var j :| 0 <= j < i && k in stocks[j];
          assert Held(stocks, i + 1, k);
        }
      }
    }
  }

  /** Every carrier holds a part of the first one's stock, with its leaves. */
  ghost predicate HubHoldsAll(stocks: seq<Stock>) {
    stocks != [] && forall i, k :: 0 <= i < |stocks| && k in stocks[i] ==> k in stocks[0] && stocks[0][k] == stocks[i][k]
  }

  lemma FirstPassFillsHub(stocks: seq<Stock>, all: Stock)
    requires Agree(stocks) && stocks != [] && IsUnion(stocks, all)
    ensures AfterPass(stocks)[0] == all && HubHoldsAll(AfterPass(stocks))
  {
    FirstPass(stocks, 0);
    UnionUnique(stocks, all, AfterPass(stocks)[0]);
    forall i, k | 0 <= i < |stocks| && k in AfterPass(stocks)[i] ensures k in all && all[k] == AfterPass(stocks)[i][k] {
      FirstPass(stocks, i);
      hide AfterPass;
      PartOfUnion(stocks, if i == 0 then |stocks| else i + 1, AfterPass(stocks)[i], all, k);
    }
  }

  lemma PartOfUnion(stocks: seq<Stock>, n: nat, part: Stock, all: Stock, k: Label)
    requires n <= |stocks| && IsUnionOf(stocks, n, part) && IsUnion(stocks, all) && k in part
    ensures k in all && all[k] == part[k]
  {
    var i :| 0 <= i < n && k in stocks[i];
    assert Held(stocks, |stocks|, k);
  }

  lemma {:induction false} FullHub(stocks: seq<Stock>, i: nat)
    requires HubHoldsAll(stocks) && 0 < i <= |stocks|
    ensures Hub(stocks, i) == stocks[0]
  {
    if i > 1 { FullHub(stocks, i - 1); }
  }

  /** With the first carrier full, a pass fills every other. */
  lemma SecondPass(stocks: seq<Stock>, i: nat)
    requires HubHoldsAll(stocks) && i < |stocks|
    ensures AfterPass(stocks)[i] == stocks[0]
  {
    FullHub(stocks, |stocks|);
    if i > 0 { FullHub(stocks, i); }
  }

  lemma {:induction false} NothingToMove(stocks: seq<Stock>, i: nat)
    requires 0 < i <= |stocks| && forall j :: 0 <= j < |stocks| ==> stocks[j] == stocks[0]
    ensures Hub(stocks, i) == stocks[0] && Moved(stocks, i) == 0
  {
    if i > 1 {
      NothingToMove(stocks, i - 1);
      assert Hub(stocks, i - 1).Keys - stocks[i - 1].Keys == {} && stocks[i - 1].Keys - Hub(stocks, i - 1).Keys == {};
    }
  }

  /** One pass leaves the first carrier holding the union, a second leaves every carrier holding it, and
      a third moves nothing. */
  lemma ThreePasses(stocks: seq<Stock>, all: Stock)
    requires stocks != [] && Agree(stocks) && IsUnion(stocks, all)
    ensures var once := AfterPass(stocks); var twice := AfterPass(once);
            && once[0] == all
            && (forall i :: 0 <= i < |stocks| ==> twice[i] == all)
            && PassCount(twice) == 0 && AfterPass(twice) == twice
  {
    hide Hub, Moved, Agree, IsUnion, HubHoldsAll;
    var once := AfterPass(stocks);
    var twice := AfterPass(once);
    FirstPassFillsHub(stocks, all);
    forall i | 0 <= i < |stocks| ensures twice[i] == all { SecondPass(once, i); }
    NothingToMove(twice, |stocks|);
    SameStocks(twice, all);
    forall i | 0 <= i < |stocks| ensures AfterPass(twice)[i] == twice[i] { SecondPass(twice, i); }
  }

  lemma SameStocks(stocks: seq<Stock>, all: Stock)
    requires stocks != [] && forall i :: 0 <= i < |stocks| ==> stocks[i] == all
    ensures HubHoldsAll(stocks)
  {}

  /** A pass loses nothing and invents nothing. */
  lemma PassKeepsUnion(stocks: seq<Stock>, all: Stock)
    requires Agree(stocks) && IsUnion(stocks, all)
    ensures Agree(AfterPass(stocks)) && IsUnion(AfterPass(stocks), all)
  {
    if stocks != [] {
      FirstPassFillsHub(stocks, all);
      var once := AfterPass(stocks);
      hide AfterPass, IsUnionOf;
      assert Faithful(once, all);
      FilledIsUnion(once);
    }
  }

  lemma FilledIsUnion(stocks: seq<Stock>)
    requires HubHoldsAll(stocks)
    ensures Agree(stocks) && IsUnion(stocks, stocks[0])
  {
    forall k ensures k in stocks[0] <==> Held(stocks, |stocks|, k) {}
    assert Faithful(stocks, stocks[0]);
  }

  /** How many leaves the carriers hold, a leaf on two of them twice. */
  function Total(stocks: seq<Stock>): nat {
    if stocks == [] then 0 else Total(stocks[..|stocks| - 1]) + |stocks[|stocks| - 1].Keys|
  }

  lemma {:induction false} TotalUpdated(stocks: seq<Stock>, i: nat, stock: Stock)
    requires i < |stocks|
    ensures Total(stocks[i := stock]) == Total(stocks) - |stocks[i].Keys| + |stock.Keys|
  {
    var n := |stocks| - 1;
    var after := stocks[i := stock];
    if i == n {
      assert after[..n] == stocks[..n];
    } else {
      TotalUpdated(stocks[..n], i, stock);
      assert after[..n] == stocks[..n][i := stock];
    }
  }

  lemma KeysGrow(a: Stock, b: Stock)
    ensures |(a + b).Keys| == |b.Keys| + |a.Keys - b.Keys|
  {
    assert (a + b).Keys == b.Keys + (a.Keys - b.Keys);
  }

  lemma MetGains(stocks: seq<Stock>, i: nat)
    requires 0 < i < |stocks|
    ensures Total(Met(stocks, i)) == Total(stocks) + Gap(stocks[0], stocks[i])
  {
    TotalUpdated(stocks, 0, stocks[i] + stocks[0]);
    TotalUpdated(stocks[0 := stocks[i] + stocks[0]], i, stocks[0] + stocks[i]);
    KeysGrow(stocks[i], stocks[0]);
    KeysGrow(stocks[0], stocks[i]);
    hide Total;
  }

  lemma {:induction false} MidPassGains(stocks: seq<Stock>, i: nat)
    requires 0 < i <= |stocks|
    ensures Total(MidPass(stocks, i)) == Total(stocks) + Moved(stocks, i)
  {
    hide Total, MidPass, Met, Gap;
    if i == 1 {
      PassBegins(stocks);
    } else {
      MidPassGains(stocks, i - 1);
      PassContinues(stocks, i - 1);
      MetGains(MidPass(stocks, i - 1), i - 1);
    }
    hide Moved;
  }

  /** A pass counts every leaf that some carrier gains, and no other. */
  lemma MovedAreGained(stocks: seq<Stock>)
    ensures Total(AfterPass(stocks)) == Total(stocks) + PassCount(stocks)
  {
    if stocks != [] {
      hide Total, MidPass, AfterPass, Moved;
      MidPassGains(stocks, |stocks|);
      PassEnds(stocks);
    } else {
      assert AfterPass(stocks) == [];
    }
  }

  // ---- what a principal receives ----

  /** A leaf as its reader sees it; the reader's keys are those of the groups it reaches. */
  function Opened(leaf: Leaf, cone: set<Label>): Option<Message> {
    if leaf.to !in cone then None
    else
      match OpenSealed(leaf.blob, cone, leaf.to)
      case None => None
      case Some(sig) => Some(Message(leaf.id, leaf.to, leaf.frm, leaf.hlc, sig))
  }

  /** Leaves are stored under their ids. */
  ghost predicate Keyed(stock: Stock) {
    forall k :: k in stock ==> stock[k].id == k
  }

  ghost predicate IsReadable(stock: Stock, cone: set<Label>, m: Message) {
    exists k :: k in stock && Opened(stock[k], cone) == Some(m)
  }

  /** Each readable message once, in `(hlc, id)` order. */
  ghost predicate Delivered(stock: Stock, cone: set<Label>, out: seq<Message>) {
    && Sorted(MessageLeq, out) && NoRepeats(out)
    && forall m :: m in out <==> IsReadable(stock, cone, m)
  }

  lemma SameIdSameMessage(stock: Stock, cone: set<Label>, a: Message, b: Message)
    requires Keyed(stock) && IsReadable(stock, cone, a) && IsReadable(stock, cone, b) && a.id == b.id
    ensures a == b
  {
    var j :| j in stock && Opened(stock[j], cone) == Some(a);
    var k :| k in stock && Opened(stock[k], cone) == Some(b);
    assert j == a.id == b.id == k;
  }

  lemma ReadableAntisymmetric(stock: Stock, cone: set<Label>, out: seq<Message>)
    requires Keyed(stock) && forall m :: m in out ==> IsReadable(stock, cone, m)
    ensures Antisymmetric(MessageLeq, out)
  {
    hide StampLeq, IsReadable, Keyed;
    forall a, b | a in out && b in out && MessageLeq(a, b) && MessageLeq(b, a) ensures a == b {
      StampAntisymmetric(a.hlc, a.id, b.hlc, b.id);
      SameIdSameMessage(stock, cone, a, b);
    }
  }

  /** A delivery is determined by what is stored and who reads. */
  lemma DeliveryUnique(stock: Stock, cone: set<Label>, out: seq<Message>, out': seq<Message>)
    requires Keyed(stock) && Delivered(stock, cone, out) && Delivered(stock, cone, out')
    ensures out == out'
  {
    hide IsReadable;
    SameMembersPermute(out, out');
    ReadableAntisymmetric(stock, cone, out);
    OneSortedOrder(MessageLeq, out, out');
  }

  /** A delivery, in plain terms: one message for every leaf on a carrier whose target the reader reaches and
      whose blob is sealed for that target, or a Fernet token for any, under the key of a group it reaches. */
  lemma DeliveredIff(stock: Stock, cone: set<Label>, out: seq<Message>, m: Message)
    requires Delivered(stock, cone, out)
    ensures m in out <==>
            exists leaf ::
              && leaf in stock.Values && leaf.to in cone
              && leaf.id == m.id && leaf.to == m.to && leaf.frm == m.frm && leaf.hlc == m.hlc
              && match leaf.blob
                 case Gcm(key, aad, plain) => key in cone && aad == leaf.to && plain == m.sig
                 case Fernet(key, plain) => key in cone && plain == m.sig
                 case Garbage => false
  {
    hide Sorted, MessageLeq, NoRepeats;
    assert m in out <==> IsReadable(stock, cone, m);
    if m in out {
      var k :| k in stock && Opened(stock[k], cone) == Some(m);
      assert stock[k] in stock.Values;
    }
    if leaf :|
         && leaf in stock.Values && leaf.to in cone
         && leaf.id == m.id && leaf.to == m.to && leaf.frm == m.frm && leaf.hlc == m.hlc
         && match leaf.blob
            case Gcm(key, aad, plain) => key in cone && aad == leaf.to && plain == m.sig
            case Fernet(key, plain) => key in cone && plain == m.sig
            case Garbage => false
    {
      var k :| k in stock && stock[k] == leaf;
      assert Opened(stock[k], cone) == Some(m);
    }
  }

  /** A sealed signal reaches exactly the principals whose light-cone reaches its target. */
  lemma SentIsReceived(stock: Stock, cone: set<Label>, out: seq<Message>, leaf: Leaf, sig: Signal)
    requires Delivered(stock, cone, out) && leaf.id in stock && stock[leaf.id] == leaf
    requires leaf.blob == Seal(sig, leaf.to, leaf.to)
    ensures Message(leaf.id, leaf.to, leaf.frm, leaf.hlc, sig) in out <==> leaf.to in cone
  {
    var m := Message(leaf.id, leaf.to, leaf.frm, leaf.hlc, sig);
    if leaf.to in cone {
      assert Opened(stock[leaf.id], cone) == Some(m);
      assert IsReadable(stock, cone, m);
    }
    if m in out { assert IsReadable(stock, cone, m); }
  }

  /** The carriers of a node merged, the first one's leaf winning. */
  function Merged(stocks: seq<Stock>): Stock {
    if stocks == [] then map[] else Hub(stocks, |stocks|)
  }

  lemma {:induction false} HubKeepsFirst(stocks: seq<Stock>, n: nat, k: Label)
    requires 0 < n <= |stocks|
    ensures k in Hub(stocks, n) <==> Held(stocks, n, k)
    ensures forall i :: 0 <= i < n && k in stocks[i] && (forall j :: 0 <= j < i ==> k !in stocks[j]) ==>
              Hub(stocks, n)[k] == stocks[i][k]
  {
    if n > 1 {
      HubKeepsFirst(stocks, n - 1, k);
      assert Held(stocks, n, k) <==> Held(stocks, n - 1, k) || k in stocks[n - 1] by {
        if k in stocks[n - 1] { assert Held(stocks, n, k); }
        if j :| 0 <= j < n - 1 && k in stocks[j] { assert Held(stocks, n, k); }
      }
    } else {
      assert Held(stocks, 1, k) <==> k in stocks[0];
    }
  }

  /** Where carriers disagree about an id, the first that holds it says which leaf is read. */
  lemma FirstCarrierWins(stocks: seq<Stock>, i: nat, k: Label)
    requires i < |stocks| && k in stocks[i] && forall j :: 0 <= j < i ==> k !in stocks[j]
    ensures k in Merged(stocks) && Merged(stocks)[k] == stocks[i][k]
  {
    HubKeepsFirst(stocks, |stocks|, k);
    hide Hub;
  }

  lemma MergedIsUnion(stocks: seq<Stock>)
    requires Agree(stocks)
    ensures IsUnion(stocks, Merged(stocks))
  {
    if stocks != [] { HubIsUnion(stocks, |stocks|); }
  }

  lemma UnionKeyed(stocks: seq<Stock>, all: Stock)
    requires IsUnion(stocks, all) && forall i :: 0 <= i < |stocks| ==> Keyed(stocks[i])
    ensures Keyed(all)
  {
    forall k | k in all ensures all[k].id == k {
      var i :| 0 <= i < |stocks| && k in stocks[i];
    }
  }

  lemma SomeHeld(stocks: seq<Stock>, stock: Stock, k: Label)
    requires stock in stocks && k in stock
    ensures Held(stocks, |stocks|, k)
  {
    var i :| 0 <= i < |stocks| && stocks[i] == stock;
  }

  lemma FaithfulTo(stocks: seq<Stock>, all: Stock, stock: Stock, k: Label)
    requires Faithful(stocks, all) && stock in stocks && k in stock && k in all
    ensures all[k] == stock[k]
  {
    var i :| 0 <= i < |stocks| && stocks[i] == stock;
  }

  lemma AgreeOn(stocks: seq<Stock>, a: Stock, b: Stock, k: Label)
    requires Agree(stocks) && a in stocks && b in stocks && k in a && k in b
    ensures a[k] == b[k]
  {
    var i :| 0 <= i < |stocks| && stocks[i] == a;
    var j :| 0 <= j < |stocks| && stocks[j] == b;
  }

  lemma HeldElsewhere(stocks: seq<Stock>, stocks': seq<Stock>, k: Label)
    requires Held(stocks, |stocks|, k) && forall s :: s in stocks ==> s in stocks'
    ensures Held(stocks', |stocks'|, k)
  {
    var i :| 0 <= i < |stocks| && k in stocks[i];
    SomeHeld(stocks', stocks[i], k);
  }

  lemma SameUnion(stocks: seq<Stock>, stocks': seq<Stock>, all: Stock)
    requires IsUnion(stocks, all) && Agree(stocks) && multiset(stocks) == multiset(stocks')
    ensures IsUnion(stocks', all) && Agree(stocks')
  {
    SameElements(stocks, stocks');
    assert Faithful(stocks, all);
    assert forall k :: k in all <==> Held(stocks, |stocks|, k);
    hide Agree, Faithful, Held;
    forall k ensures Held(stocks', |stocks'|, k) <==> Held(stocks, |stocks|, k) {
      if Held(stocks, |stocks|, k) { HeldElsewhere(stocks, stocks', k); }
      if Held(stocks', |stocks'|, k) { HeldElsewhere(stocks', stocks, k); }
    }
    assert Agree(stocks') by { SameAgree(stocks, stocks'); }
    assert Faithful(stocks', all) by { SameFaithful(stocks, stocks', all); }
  }

  lemma SameAgree(stocks: seq<Stock>, stocks': seq<Stock>)
    requires Agree(stocks) && forall s :: s in stocks' ==> s in stocks
    ensures Agree(stocks')
  {
    forall i, j, k | 0 <= i < |stocks'| && 0 <= j < |stocks'| && k in stocks'[i] && k in stocks'[j]
      ensures stocks'[i][k] == stocks'[j][k]
    {
      hide Agree;
      AgreeOn(stocks, stocks'[i], stocks'[j], k);
    }
  }

  lemma SameFaithful(stocks: seq<Stock>, stocks': seq<Stock>, all: Stock)
    requires Faithful(stocks, all) && forall s :: s in stocks' ==> s in stocks
    ensures Faithful(stocks', all)
  {
    forall i, k | 0 <= i < |stocks'| && k in stocks'[i] && k in all ensures all[k] == stocks'[i][k] {
      hide Faithful;
      FaithfulTo(stocks, all, stocks'[i], k);
    }
  }

  /** A principal receives the same list before, between and after any passes, and from the carriers in
      any order. */
  lemma ReceptionStable(stocks: seq<Stock>, shuffled: seq<Stock>, cone: set<Label>, out: seq<Message>, out': seq<Message>)
    requires Agree(stocks) && forall i :: 0 <= i < |stocks| ==> Keyed(stocks[i])
    requires multiset(shuffled) == multiset(stocks) || multiset(shuffled) == multiset(AfterPass(stocks))
             || multiset(shuffled) == multiset(AfterPass(AfterPass(stocks)))
    requires Delivered(Merged(stocks), cone, out) && Delivered(Merged(shuffled), cone, out')
    ensures out == out'
  {
    hide Agree, IsUnion, Keyed, AfterPass, Delivered, Merged;
    var all := Merged(stocks);
    MergedIsUnion(stocks);
    UnionKeyed(stocks, all);
    PassKeepsUnion(stocks, all);
    PassKeepsUnion(AfterPass(stocks), all);
    if multiset(shuffled) == multiset(stocks) {
      SameUnion(stocks, shuffled, all);
    } else if multiset(shuffled) == multiset(AfterPass(stocks)) {
      SameUnion(AfterPass(stocks), shuffled, all);
    } else {
      SameUnion(AfterPass(AfterPass(stocks)), shuffled, all);
    }
    MergedIsUnion(shuffled);
    UnionUnique(shuffled, all, Merged(shuffled));
    DeliveryUnique(all, cone, out, out');
  }

  /** The carriers once a leaf with a new id has been put on the i-th. */
  function PutOn(stocks: seq<Stock>, i: nat, leaf: Leaf): (after: seq<Stock>)
    requires i < |stocks|
    ensures |after| == |stocks|
  {
    var stock: Stock := stocks[i][leaf.id := leaf];
    stocks[i := stock]
  }

  lemma PutOnHeld(stocks: seq<Stock>, i: nat, leaf: Leaf, k: Label)
    requires i < |stocks|
    ensures Held(PutOn(stocks, i, leaf), |stocks|, k) <==> Held(stocks, |stocks|, k) || k == leaf.id
  {
    var now := PutOn(stocks, i, leaf);
    if j :| 0 <= j < |stocks| && k in stocks[j] { assert k in now[j]; }
    if k == leaf.id { assert k in now[i]; }
    if j :| 0 <= j < |now| && k in now[j] && k != leaf.id { assert k in stocks[j]; }
  }

  lemma PutOnAt(stocks: seq<Stock>, i: nat, leaf: Leaf, j: nat, k: Label)
    requires i < |stocks| && !Held(stocks, |stocks|, leaf.id) && j < |stocks| && k in PutOn(stocks, i, leaf)[j]
    ensures PutOn(stocks, i, leaf)[j][k] == if k == leaf.id then leaf else if k in stocks[j] then stocks[j][k] else leaf
    ensures k == leaf.id || k in stocks[j]
  {
    if k == leaf.id { assert k !in stocks[j]; }
  }

  lemma PutOnUnion(stocks: seq<Stock>, i: nat, leaf: Leaf, all: Stock)
    requires i < |stocks| && !Held(stocks, |stocks|, leaf.id) && Agree(stocks) && IsUnion(stocks, all)
    ensures Agree(PutOn(stocks, i, leaf)) && IsUnion(PutOn(stocks, i, leaf), all[leaf.id := leaf])
  {
    hide PutOn;
    var now: seq<Stock>, more: Stock := PutOn(stocks, i, leaf), all[leaf.id := leaf];
    forall k ensures k in more <==> Held(now, |now|, k) {
      hide Held;
      PutOnHeld(stocks, i, leaf, k);
    }
    hide Held;
    forall j, k | 0 <= j < |now| && k in now[j] && k in more ensures more[k] == now[j][k] { PutOnAt(stocks, i, leaf, j, k); }
    forall a, b, k | 0 <= a < |now| && 0 <= b < |now| && k in now[a] && k in now[b] ensures now[a][k] == now[b][k] {
      PutOnAt(stocks, i, leaf, a, k);
      PutOnAt(stocks, i, leaf, b, k);
    }
  }

  lemma ReadableAfterPut(stock: Stock, cone: set<Label>, leaf: Leaf, m: Message)
    requires leaf.id !in stock
    ensures IsReadable(stock[leaf.id := leaf], cone, m) <==> IsReadable(stock, cone, m) || Opened(leaf, cone) == Some(m)
  {
    hide Opened;
    var more: Stock := stock[leaf.id := leaf];
    if k :| k in stock && Opened(stock[k], cone) == Some(m) { assert more[k] == stock[k]; }
    if Opened(leaf, cone) == Some(m) { assert more[leaf.id] == leaf; }
  }

  /** A leaf with a new id, put on any carrier, adds to what a principal receives the message it opens to,
      once, and changes nothing for a principal that cannot open it. */
  lemma PutIsReceived(stocks: seq<Stock>, i: nat, leaf: Leaf, cone: set<Label>, out: seq<Message>, out': seq<Message>)
    requires Agree(stocks) && (forall j :: 0 <= j < |stocks| ==> Keyed(stocks[j]))
    requires i < |stocks| && !Held(stocks, |stocks|, leaf.id)
    requires Delivered(Merged(stocks), cone, out) && Delivered(Merged(PutOn(stocks, i, leaf)), cone, out')
    ensures Opened(leaf, cone).None? ==> out' == out
    ensures Opened(leaf, cone).Some? ==> multiset(out') == multiset(out) + multiset{Opened(leaf, cone).value}
  {
    hide Agree, Keyed, Merged, Opened, IsUnionOf, Held, MessageLeq, IsReadable;
    var all, m := Merged(stocks), Opened(leaf, cone);
    var more: Stock := all[leaf.id := leaf];
    MergedIsUnion(stocks);
    UnionKeyed(stocks, all);
    PutOnUnion(stocks, i, leaf, all);
    MergedIsUnion(PutOn(stocks, i, leaf));
    UnionUnique(PutOn(stocks, i, leaf), more, Merged(PutOn(stocks, i, leaf)));
    assert leaf.id !in all by { NotHeldNotInUnion(stocks, all, leaf.id); }
    forall x ensures IsReadable(more, cone, x) <==> IsReadable(all, cone, x) || m == Some(x) {
      ReadableAfterPut(all, cone, leaf, x);
    }
    if m.None? {
      KeyedAfterPut(all, leaf);
      assert Delivered(more, cone, out);
      DeliveryUnique(more, cone, out, out');
    } else {
      NewIsUnread(all, cone, leaf, m.value);
      AppendedOnce(out, m.value);
      SameMembersPermute(out', out + [m.value]);
    }
  }

  lemma NotHeldNotInUnion(stocks: seq<Stock>, all: Stock, k: Label)
    requires IsUnion(stocks, all) && !Held(stocks, |stocks|, k)
    ensures k !in all
  {
    hide Held;
  }

  lemma KeyedAfterPut(stock: Stock, leaf: Leaf)
    requires Keyed(stock)
    ensures Keyed(stock[leaf.id := leaf])
  {}

  lemma NewIsUnread(stock: Stock, cone: set<Label>, leaf: Leaf, m: Message)
    requires Keyed(stock) && leaf.id !in stock && Opened(leaf, cone) == Some(m)
    ensures !IsReadable(stock, cone, m)
  {
    forall k | k in stock ensures Opened(stock[k], cone) != Some(m) { assert stock[k].id == k; }
  }

  lemma AppendedOnce(out: seq<Message>, m: Message)
    requires NoRepeats(out) && m !in out
    ensures NoRepeats(out + [m]) && forall x :: x in out + [m] <==> x in out || x == m
  {}

  /** A send adds its message, once, to what every principal receives whose light-cone holds the target,
      and changes nothing for anyone else. */
  lemma SendReachesExactly(stocks: seq<Stock>, i: nat, leaf: Leaf, sig: Signal, cone: set<Label>,
                           out: seq<Message>, out': seq<Message>)
    requires Agree(stocks) && (forall j :: 0 <= j < |stocks| ==> Keyed(stocks[j]))
    requires i < |stocks| && !Held(stocks, |stocks|, leaf.id) && leaf.blob == Seal(sig, leaf.to, leaf.to)
    requires Delivered(Merged(stocks), cone, out) && Delivered(Merged(PutOn(stocks, i, leaf)), cone, out')
    ensures multiset(out') == multiset(out) +
                              if leaf.to in cone then multiset{Message(leaf.id, leaf.to, leaf.frm, leaf.hlc, sig)} else multiset{}
  {
    hide Agree, Keyed, Merged, Held, Delivered;
    PutIsReceived(stocks, i, leaf, cone, out, out');
  }

  /** The blob was sealed for another target than the leaf names. */
  predicate Lifted(leaf: Leaf) {
    leaf.blob.Gcm? && leaf.blob.aad != leaf.to
  }

  /** A stock without its lifted leaves. */
  function Purged(stock: Stock): Stock {
    map k | k in stock && !Lifted(stock[k]) :: stock[k]
  }

  function PurgedAll(stocks: seq<Stock>): (purged: seq<Stock>)
    ensures |purged| == |stocks|
  {
    seq(|stocks|, i requires 0 <= i < |stocks| => Purged(stocks[i]))
  }

  lemma PurgedHeld(stocks: seq<Stock>, all: Stock, k: Label)
    requires IsUnion(stocks, all)
    ensures Held(PurgedAll(stocks), |stocks|, k) <==> k in Purged(all)
  {
    var purged := PurgedAll(stocks);
    if k in Purged(all) {
      var j :| 0 <= j < |stocks| && k in stocks[j];
      assert k in purged[j];
    }
    if j :| 0 <= j < |purged| && k in purged[j] {
      assert k in stocks[j];
      assert Held(stocks, |stocks|, k);
    }
  }

  lemma PurgedUnion(stocks: seq<Stock>, all: Stock)
    requires Agree(stocks) && IsUnion(stocks, all)
    ensures Agree(PurgedAll(stocks)) && IsUnion(PurgedAll(stocks), Purged(all))
  {
    forall k ensures k in Purged(all) <==> Held(PurgedAll(stocks), |stocks|, k) {
      hide Held, Purged, Agree;
      PurgedHeld(stocks, all, k);
    }
    hide Held, Lifted, IsUnionOf;
    assert Faithful(stocks, all) by { UnionFaithful(stocks, all); }
    forall j, k | 0 <= j < |stocks| && k in PurgedAll(stocks)[j] && k in Purged(all)
      ensures Purged(all)[k] == PurgedAll(stocks)[j][k] {}
    assert Faithful(PurgedAll(stocks), Purged(all));
    assert IsUnion(PurgedAll(stocks), Purged(all)) by { UnionIs(PurgedAll(stocks), Purged(all)); }
  }

  lemma UnionFaithful(stocks: seq<Stock>, all: Stock)
    requires IsUnion(stocks, all)
    ensures Faithful(stocks, all)
  {}

  lemma UnionIs(stocks: seq<Stock>, all: Stock)
    requires Faithful(stocks, all) && forall k :: k in all <==> Held(stocks, |stocks|, k)
    ensures IsUnion(stocks, all)
  {}

  lemma PurgedReadable(stock: Stock, cone: set<Label>, m: Message)
    ensures IsReadable(Purged(stock), cone, m) <==> IsReadable(stock, cone, m)
  {
    if k :| k in stock && Opened(stock[k], cone) == Some(m) { assert Purged(stock)[k] == stock[k]; }
  }

  /** Lifting a blob onto a leaf with another target tells nobody anything: whoever reads, the carriers
      deliver the same list as they would without any of their lifted leaves. */
  lemma LiftedChangesNothing(stocks: seq<Stock>, cone: set<Label>, out: seq<Message>, out': seq<Message>)
    requires Agree(stocks) && forall j :: 0 <= j < |stocks| ==> Keyed(stocks[j])
    requires Delivered(Merged(stocks), cone, out) && Delivered(Merged(PurgedAll(stocks)), cone, out')
    ensures out == out'
  {
    hide Agree, Keyed, Merged, IsUnionOf, MessageLeq, IsReadable, PurgedAll, Purged;
    var all := Merged(stocks);
    MergedIsUnion(stocks);
    UnionKeyed(stocks, all);
    PurgedUnion(stocks, all);
    MergedIsUnion(PurgedAll(stocks));
    UnionUnique(PurgedAll(stocks), Purged(all), Merged(PurgedAll(stocks)));
    forall m ensures IsReadable(Purged(all), cone, m) <==> IsReadable(all, cone, m) { PurgedReadable(all, cone, m); }
    DeliveryUnique(all, cone, out, out');
  }

  // ---- the plane ----

  type Carrier = InMemoryCarrier<Label, Leaf>

  function LeafId(leaf: Leaf): Label {
    leaf.id
  }

  /** `receive`: poll, open what the principal's keys cover, and sort. */
  method Receive(carrier: Carrier, principal: Label, lightcone: Lightcone) returns (out: seq<Message>)
    requires carrier.Valid() && carrier.idOf == LeafId
    ensures forall cone :: IsCone(lightcone.contains, Kids(lightcone.memberOf, principal), principal, cone) ==>
              Delivered(carrier.byId, cone, out)
    ensures forall i, j :: 0 <= i < j < |out| ==>
              Less(out[i].hlc, out[j].hlc) || (out[i].hlc == out[j].hlc && Leq(out[i].id, out[j].id))
  {
    hide IsCone;
    var cone := lightcone.Cone(principal);
    var polled := carrier.Poll();
    PolledAreStocked(carrier, polled);
    var letters: map<Label, Message> := map[];
    hide InMemoryCarrier.Valid, InMemoryCarrier.Log;
    hide Lists, Delivered, MessageLeq;
    for i := 0 to |polled|
      invariant OpenedSoFar(polled, i, cone, letters)
    {
      hide OpenedSoFar, Opened;
      OpenNext(polled, i, cone, letters);
      var leaf := polled[i];
      var m := Opened(leaf, cone);
      if m.Some? {
        letters := letters[leaf.id := m.value];
      }
    }
    forall j, k | j in letters && k in letters && j != k ensures letters[j] != letters[k] {
      assert letters[j].id == j && letters[k].id == k;
    }
    var listed := Listing(letters);
    out := Sort(MessageLeq, listed);
    ListedDelivered(carrier.byId, polled, cone, letters, listed);
    DeliveredAscends(carrier.byId, cone, out);
    forall other | IsCone(lightcone.contains, Kids(lightcone.memberOf, principal), principal, other) ensures other == cone {
      ConeUnique(lightcone.contains, Kids(lightcone.memberOf, principal), principal, cone, other);
    }
  }

  /** The readable messages among the first n leaves polled, each under its id. */
  ghost predicate OpenedSoFar(polled: seq<Leaf>, n: nat, cone: set<Label>, letters: map<Label, Message>)
    requires n <= |polled|
  {
    && (forall i :: 0 <= i < n && Opened(polled[i], cone).Some? ==>
          polled[i].id in letters && letters[polled[i].id].id == polled[i].id)
    && (forall k :: k in letters ==> letters[k].id == k && exists i :: 0 <= i < n && Opened(polled[i], cone) == Some(letters[k]))
  }

  ghost predicate Lists(stock: Stock, polled: seq<Leaf>) {
    Keyed(stock) && forall l :: l in polled <==> l in stock.Values
  }

  lemma PolledAreStocked(carrier: Carrier, polled: seq<Leaf>)
    requires carrier.Valid() && carrier.idOf == LeafId && polled == carrier.Log()
    ensures Lists(carrier.byId, polled)
  {
    forall l | l in carrier.byId.Values ensures l in polled {
      var k :| k in carrier.byId && carrier.byId[k] == l;
      var i :| 0 <= i < |carrier.order| && carrier.order[i] == k;
      assert polled[i] == l;
    }
    forall l | l in polled ensures l in carrier.byId.Values {
      var i :| 0 <= i < |polled| && polled[i] == l;
      assert carrier.order[i] in carrier.byId;
    }
  }

  lemma ConeUnique(contains: Groups, groups: set<Label>, principal: Label, a: set<Label>, b: set<Label>)
    requires IsCone(contains, groups, principal, a) && IsCone(contains, groups, principal, b)
    ensures a == b
  {
    hide Reaches;
  }

  lemma OpenedIsReadable(stock: Stock, polled: seq<Leaf>, cone: set<Label>, letters: map<Label, Message>, k: Label)
    requires Lists(stock, polled) && OpenedSoFar(polled, |polled|, cone, letters) && k in letters
    ensures k in stock && Opened(stock[k], cone) == Some(letters[k])
  {
    var i :| 0 <= i < |polled| && Opened(polled[i], cone) == Some(letters[k]);
    assert polled[i] in polled;
    var j :| j in stock && stock[j] == polled[i];
    assert j == polled[i].id == letters[k].id == k;
  }

  lemma ReadableIsOpened(stock: Stock, polled: seq<Leaf>, cone: set<Label>, letters: map<Label, Message>, k: Label)
    requires Lists(stock, polled) && OpenedSoFar(polled, |polled|, cone, letters)
    requires k in stock && Opened(stock[k], cone).Some?
    ensures k in letters
  {
    assert stock[k] in stock.Values;
    var i :| 0 <= i < |polled| && polled[i] == stock[k];
  }

  lemma OpenedAreReadable(stock: Stock, polled: seq<Leaf>, cone: set<Label>, letters: map<Label, Message>, m: Message)
    requires Lists(stock, polled) && OpenedSoFar(polled, |polled|, cone, letters)
    ensures m in letters.Values <==> IsReadable(stock, cone, m)
  {
    hide OpenedSoFar, Lists, Opened;
    if k :| k in letters && letters[k] == m {
      OpenedIsReadable(stock, polled, cone, letters, k);
    }
    if IsReadable(stock, cone, m) {
      var k :| k in stock && Opened(stock[k], cone) == Some(m);
      ReadableIsOpened(stock, polled, cone, letters, k);
      OpenedIsReadable(stock, polled, cone, letters, k);
    }
  }

  lemma OpenNext(polled: seq<Leaf>, n: nat, cone: set<Label>, letters: map<Label, Message>)
    requires n < |polled| && OpenedSoFar(polled, n, cone, letters)
    ensures OpenedSoFar(polled, n + 1, cone,
                        match Opened(polled[n], cone) case None => letters case Some(m) => letters[polled[n].id := m])
  {}

  lemma ListedDelivered(stock: Stock, polled: seq<Leaf>, cone: set<Label>, letters: map<Label, Message>, listed: seq<Message>)
    requires Lists(stock, polled) && OpenedSoFar(polled, |polled|, cone, letters)
    requires NoRepeats(listed) && forall m :: m in listed <==> m in letters.Values
    ensures Delivered(stock, cone, Sort(MessageLeq, listed))
  {
    hide IsReadable, OpenedSoFar, Lists;
    MessageOrder();
    SortSorted(MessageLeq, listed);
    var out := Sort(MessageLeq, listed);
    SameElements(out, listed);
    forall i, j | 0 <= i < j < |out| ensures out[i] != out[j] { DistinctSurvives(listed, out, i, j); }
    forall m ensures m in out <==> IsReadable(stock, cone, m) { OpenedAreReadable(stock, polled, cone, letters, m); }
  }

  /** A delivered list is in the order of its stamps, and of its ids within one stamp. */
  lemma DeliveredAscends(stock: Stock, cone: set<Label>, out: seq<Message>)
    requires Delivered(stock, cone, out)
    ensures forall i, j :: 0 <= i < j < |out| ==>
              Less(out[i].hlc, out[j].hlc) || (out[i].hlc == out[j].hlc && Leq(out[i].id, out[j].id))
  {
    hide MessageLeq, IsReadable;
    SortedMessagesAscend(out);
  }

  lemma PutGains(held: Stock, before: Stock, moved: set<Label>, leaf: Leaf)
    requires leaf.id in held && held[leaf.id] == leaf
    ensures var now := Gained(held, before, moved);
            Gained(held, before, moved + {leaf.id}) == if leaf.id in now then now else now[leaf.id := leaf]
  {}

  lemma PutAll(held: Stock, before: Stock, moved: set<Label>)
    requires held.Keys <= moved
    ensures Gained(held, before, moved) == held + before
  {}

  lemma NoneGained(held: Stock, before: Stock)
    ensures Gained(held, before, {}) == before
  {}

  /** `into` has gained the first n leaves that `from` listed. */
  ghost predicate MidPut(into: Carrier, held: Stock, before: Stock, polled: seq<Leaf>, n: nat)
    requires n <= |polled|
    reads into
  {
    into.Valid() && into.idOf == LeafId && into.byId == Gained(held, before, PolledIds(polled, n))
  }

  method PutOne(into: Carrier, ghost held: Stock, ghost before: Stock, polled: seq<Leaf>, n: nat)
    requires n < |polled| && Lists(held, polled) && MidPut(into, held, before, polled, n)
    modifies into`byId, into`order
    ensures MidPut(into, held, before, polled, n + 1)
  {
    hide InMemoryCarrier.Valid, InMemoryCarrier.Log, Gained, Lists;
    ghost var moved := PolledIds(polled, n);
    PolledHeld(held, polled, n);
    PutGains(held, before, moved, polled[n]);
    into.Put(polled[n]);
    assert PolledIds(polled, n + 1) == moved + {polled[n].id};
  }

  /** Put every leaf of one carrier into another, which keeps what it has. */
  method PutPolled(from: Carrier, into: Carrier)
    requires from != into && from.Valid() && from.idOf == LeafId && into.Valid() && into.idOf == LeafId
    modifies into`byId, into`order
    ensures into.Valid() && into.byId == from.byId + old(into.byId)
  {
    var polled := from.Poll();
    PolledAreStocked(from, polled);
    ghost var held, before := from.byId, into.byId;
    NoneGained(held, before);
    AllPolled(held, polled);
    hide InMemoryCarrier.Valid, InMemoryCarrier.Log, Gained, Lists;
    assert MidPut(into, held, before, polled, 0);
    PutAll(held, before, PolledIds(polled, |polled|));
    for i := 0 to |polled|
      invariant MidPut(into, held, before, polled, i)
    {
      hide MidPut;
      PutOne(into, held, before, polled, i);
    }
  }

  lemma PolledHeld(held: Stock, polled: seq<Leaf>, i: nat)
    requires Lists(held, polled) && i < |polled|
    ensures polled[i].id in held && held[polled[i].id] == polled[i]
  {
    assert polled[i] in polled;
    var k :| k in held && held[k] == polled[i];
  }

  lemma AllPolled(held: Stock, polled: seq<Leaf>)
    requires Lists(held, polled)
    ensures held.Keys <= PolledIds(polled, |polled|)
  {
    forall k | k in held ensures k in PolledIds(polled, |polled|) {
      assert held[k] in held.Values;
      var j :| 0 <= j < |polled| && polled[j] == held[k];
      PolledId(polled, |polled|, j);
    }
  }

  function PolledIds(polled: seq<Leaf>, n: nat): set<Label>
    requires n <= |polled|
  {
    if n == 0 then {} else PolledIds(polled, n - 1) + {polled[n - 1].id}
  }

  lemma {:induction false} PolledId(polled: seq<Leaf>, n: nat, j: nat)
    requires j < n <= |polled|
    ensures polled[j].id in PolledIds(polled, n)
  {
    if j < n - 1 { PolledId(polled, n - 1, j); }
  }

  class Plane {
    const node: Label
    const lightcone: Lightcone
    const carriers: seq<Carrier>

    ghost predicate Valid()
      reads carriers
    {
      && (forall i :: 0 <= i < |carriers| ==> carriers[i].Valid() && carriers[i].idOf == LeafId)
      && forall i, j :: 0 <= i < j < |carriers| ==> carriers[i] != carriers[j]
    }

    /** What the carriers hold, in order. */
    ghost function Stocks(): (stocks: seq<Stock>)
      reads carriers
      ensures |stocks| == |carriers| && forall i :: 0 <= i < |stocks| ==> stocks[i] == carriers[i].byId
    {
      seq(|carriers|, i requires 0 <= i < |carriers| reads carriers => carriers[i].byId)
    }

    constructor (node: Label, lightcone: Lightcone, carriers: seq<Carrier>)
      requires forall i :: 0 <= i < |carriers| ==> carriers[i].Valid() && carriers[i].idOf == LeafId
      requires forall i, j :: 0 <= i < j < |carriers| ==> carriers[i] != carriers[j]
      ensures Valid() && this.node == node && this.lightcone == lightcone && this.carriers == carriers
    {
      this.node, this.lightcone, this.carriers := node, lightcone, carriers;
    }

    /** `send`: one sealed leaf on the first carrier. The stamp and the content address are parameters. */
    method Send(to: Label, sig: Signal, frm: Option<Label>, hlc: Label, address: (Label, Label, Label, Signal) -> Label)
      returns (leaf: Leaf)
      requires Valid() && carriers != []
      modifies carriers[0]
      ensures Valid()
      ensures leaf == (var from := if frm.Some? && frm.value != [] then frm.value else node;
                       Leaf(address(from, to, hlc, sig), to, from, hlc, Seal(sig, to, to)))
      ensures Stocks() == if leaf.id in old(Stocks())[0] then old(Stocks()) else PutOn(old(Stocks()), 0, leaf)
    {
      var from := if frm.Some? && frm.value != [] then frm.value else node;
      leaf := Leaf(address(from, to, hlc, sig), to, from, hlc, Seal(sig, to, to));
      carriers[0].Put(leaf);
    }

    method ReconcileOne(i: nat) returns (n: nat)
      requires Valid() && 0 < i < |carriers|
      modifies carriers
      ensures Valid() && Stocks() == old(Met(Stocks(), i)) && n == old(Gap(Stocks()[0], Stocks()[i]))
    {
      hide InMemoryCarrier.Valid, InMemoryCarrier.Log;
      n := Carriers.Reconcile(carriers[0], carriers[i]);
      assert forall j :: 0 < j < |carriers| && j != i ==> carriers[j].byId == old(carriers[j].byId);
    }

    /** Anti-entropy of the first carrier with each of the others, in turn. */
    method Reconcile() returns (n: nat)
      requires Valid()
      modifies carriers
      ensures Valid() && Stocks() == AfterPass(old(Stocks())) && n == PassCount(old(Stocks()))
    {
      n := 0;
      if carriers == [] {
        return;
      }
      ghost var start := Stocks();
      PassBegins(start);
      hide Moved, AfterPass, MidPass, Met, Gap, Plane.Valid;
      for i := 1 to |carriers|
        invariant Valid() && Stocks() == MidPass(start, i) && n == Moved(start, i)
      {
        PassContinues(start, i);
        var moved := ReconcileOne(i);
        n := n + moved;
      }
      PassEnds(start);
    }

    /** Merge all carriers and open what the principal's keys cover. */
    method ReceiveAll(principal: Label) returns (out: seq<Message>)
      requires Valid()
      ensures forall cone :: IsCone(lightcone.contains, Kids(lightcone.memberOf, principal), principal, cone) ==>
                Delivered(Merged(Stocks()), cone, out)
      ensures forall i, j :: 0 <= i < j < |out| ==>
                Less(out[i].hlc, out[j].hlc) || (out[i].hlc == out[j].hlc && Leq(out[i].id, out[j].id))
    {
      hide InMemoryCarrier.Valid, InMemoryCarrier.Log, Delivered, IsCone, Hub, Less;
      var merged: Carrier := new InMemoryCarrier(LeafId);
      EmptyHolds(merged);
      for i := 0 to |carriers|
        invariant merged.Valid() && merged.idOf == LeafId && fresh(merged)
        invariant merged.byId == if i == 0 then map[] else Hub(Stocks(), i)
      {
        HubStep(Stocks(), i);
        PutPolled(carriers[i], merged);
      }
      out := Receive(merged, principal, lightcone);
    }
  }

  lemma EmptyHolds(carrier: Carrier)
    requires carrier.Valid() && carrier.Log() == []
    ensures carrier.byId == map[]
  {
    assert carrier.order == [];
    assert forall k :: k !in carrier.byId;
  }

  lemma HubStep(stocks: seq<Stock>, i: nat)
    requires i < |stocks|
    ensures Hub(stocks, i + 1) == stocks[i] + if i == 0 then map[] else Hub(stocks, i)
  {}
}
