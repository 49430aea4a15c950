/** Inheritance resolution of `schema.py` (`effective_fields`): a depth-first walk that a cycle cannot
    trap, and whose result a subtype overrides. */
module Schema {
  import opened Sorting

  type Name = nat
  type Spec = nat

  /** The part of a type definition that resolution reads; a missing list or map is an empty one. */
  datatype TypeDef = TypeDef(inherits: seq<Name>, fields: map<Name, Spec>)

  /** What `lookup` answers; a type it does not know is not in the map. */
  type Registry = map<Name, TypeDef>

  function Parents(reg: Registry, ct: Name): seq<Name> {
    if ct in reg then reg[ct].inherits else []
  }

  function Fields(reg: Registry, ct: Name): map<Name, Spec> {
    if ct in reg then reg[ct].fields else map[]
  }

  /** Every name the registry mentions, and one more. */
  function Universe(reg: Registry, ct: Name): set<Name> {
    {ct} + reg.Keys + set t, p | t in reg && p in reg[t].inherits :: p
  }

  ghost predicate Closed(reg: Registry, names: set<Name>) {
    forall x, p :: x in names && p in Parents(reg, x) ==> p in names
  }

  function Elements(order: seq<Name>): set<Name> {
    set x | x in order
  }

  // ---- the walk ----

  /** The types finished after walking ct, when `gray` are being walked and `order` are finished. */
  ghost function Walk(reg: Registry, names: set<Name>, gray: set<Name>, order: seq<Name>, ct: Name): (r: seq<Name>)
    requires Closed(reg, names) && ct in names
    ensures order <= r
    decreases names - gray - Elements(order), 0
  {
    if ct in gray || ct in order then order
    else
      assert ct in names - gray - Elements(order);
      WalkAll(reg, names, gray + {ct}, order, Parents(reg, ct)) + [ct]
  }

  ghost function WalkAll(reg: Registry, names: set<Name>, gray: set<Name>, order: seq<Name>, cts: seq<Name>): (r: seq<Name>)
    requires Closed(reg, names) && forall ct :: ct in cts ==> ct in names
    ensures order <= r
    decreases names - gray - Elements(order), |cts|
  {
    if cts == [] then order
    else
      var next := Walk(reg, names, gray, order, cts[0]);
      assert forall x :: x in order ==> x in next;
      WalkAll(reg, names, gray, next, cts[1..])
  }

  /** The types in the order `effective_fields` applies them. */
  ghost function Applied(reg: Registry, ct: Name): seq<Name> {
    UniverseClosed(reg, ct);
    Walk(reg, Universe(reg, ct), {}, [], ct)
  }

  lemma UniverseClosed(reg: Registry, ct: Name)
    ensures Closed(reg, Universe(reg, ct)) && ct in Universe(reg, ct)
  {}

  /** `dict.update` with each type's fields in turn. */
  function Fold(reg: Registry, order: seq<Name>): map<Name, Spec> {
    if order == [] then map[] else Fold(reg, order[..|order| - 1]) + Fields(reg, order[|order| - 1])
  }

  // ---- inheritance ----

  /** x inherits y along the path, directly or not. */
  ghost predicate Lineage(reg: Registry, path: seq<Name>, x: Name, y: Name) {
    && path != [] && path[0] == x && path[|path| - 1] == y
    && forall i :: 0 < i < |path| ==> path[i] in Parents(reg, path[i - 1])
  }

  /** y is x or one of its ancestors. */
  ghost predicate Reachable(reg: Registry, x: Name, y: Name) {
    exists path :: Lineage(reg, path, x, y)
  }

  /** y is an ancestor of x, directly or not. */
  ghost predicate Inherits(reg: Registry, x: Name, y: Name) {
    exists p :: p in Parents(reg, x) && Reachable(reg, p, y)
  }

  lemma ReachableSelf(reg: Registry, x: Name)
    ensures Reachable(reg, x, x)
  {
    assert Lineage(reg, [x], x, x);
  }

  lemma ReachableStep(reg: Registry, x: Name, y: Name, p: Name)
    requires Reachable(reg, x, y) && p in Parents(reg, y)
    ensures Reachable(reg, x, p)
  {
    var path :| Lineage(reg, path, x, y);
    assert Lineage(reg, path + [p], x, p);
  }

  lemma InheritsStep(reg: Registry, x: Name, y: Name, p: Name)
    requires Inherits(reg, x, y) && p in Parents(reg, y)
    ensures Inherits(reg, x, p)
  {
    var q :| q in Parents(reg, x) && Reachable(reg, q, y);
    ReachableStep(reg, q, y, p);
  }

  lemma InheritsParent(reg: Registry, x: Name, p: Name)
    requires p in Parents(reg, x)
    ensures Inherits(reg, x, p)
  {
    ReachableSelf(reg, p);
  }

  /** What is reachable stays in any set closed under parents. */
  lemma {:induction false} ClosedHolds(reg: Registry, names: set<Name>, path: seq<Name>, x: Name, y: Name)
    requires Closed(reg, names) && x in names && Lineage(reg, path, x, y)
    ensures y in names
    decreases |path|
  {
    if |path| > 1 {
      var init := path[..|path| - 1];
      assert Lineage(reg, init, x, init[|init| - 1]);
      ClosedHolds(reg, names, init, x, init[|init| - 1]);
    }
  }

  // ---- what the walk keeps ----

  /** Finished types have their parents finished or being walked; no type is finished twice or while
      it is being walked. */
  ghost predicate WalkGood(reg: Registry, gray: set<Name>, order: seq<Name>) {
    && NoRepeats(order)
    && (forall x :: x in order ==> x !in gray)
    && forall x, p :: x in order && p in Parents(reg, x) ==> p in order || p in gray
  }

  lemma {:induction false} WalkKeepsGood(reg: Registry, names: set<Name>, gray: set<Name>, order: seq<Name>, ct: Name)
    requires Closed(reg, names) && ct in names && WalkGood(reg, gray, order)
    ensures var r := Walk(reg, names, gray, order, ct); WalkGood(reg, gray, r) && (ct in r || ct in gray)
    decreases names - gray - Elements(order), 0
  {
    if ct !in gray && ct !in order {
      assert ct in names - gray - Elements(order);
      assert WalkGood(reg, gray + {ct}, order);
      WalkAllKeepsGood(reg, names, gray + {ct}, order, Parents(reg, ct));
      FinishGood(reg, gray, WalkAll(reg, names, gray + {ct}, order, Parents(reg, ct)), ct);
    }
  }

  lemma FinishGood(reg: Registry, gray: set<Name>, order: seq<Name>, ct: Name)
    requires WalkGood(reg, gray + {ct}, order) && ct !in gray
    requires forall p :: p in Parents(reg, ct) ==> p in order || p in gray + {ct}
    ensures WalkGood(reg, gray, order + [ct])
  {
    AppendDistinct(order, ct);
  }

  lemma {:induction false} WalkAllKeepsGood(reg: Registry, names: set<Name>, gray: set<Name>, order: seq<Name>, cts: seq<Name>)
    requires Closed(reg, names) && (forall ct :: ct in cts ==> ct in names) && WalkGood(reg, gray, order)
    ensures var r := WalkAll(reg, names, gray, order, cts);
            WalkGood(reg, gray, r) && forall ct :: ct in cts ==> ct in r || ct in gray
    decreases names - gray - Elements(order), |cts|
  {
    hide WalkGood;
    if cts != [] {
      var next := Walk(reg, names, gray, order, cts[0]);
      assert forall x :: x in order ==> x in next;
      WalkKeepsGood(reg, names, gray, order, cts[0]);
      WalkAllKeepsGood(reg, names, gray, next, cts[1..]);
      forall ct | ct in cts ensures ct in WalkAll(reg, names, gray, next, cts[1..]) || ct in gray {
        assert ct == cts[0] || ct in cts[1..];
      }
    }
  }

  /** Only what the walked type reaches is added. */
  lemma {:induction false} WalkAddsReachable(reg: Registry, names: set<Name>, gray: set<Name>, order: seq<Name>,
                           ct: Name, x: Name)
    requires Closed(reg, names) && ct in names && x in Walk(reg, names, gray, order, ct)
    ensures x in order || Reachable(reg, ct, x)
    decreases names - gray - Elements(order), 0
  {
    hide Reachable;
    if ct !in gray && ct !in order {
      assert ct in names - gray - Elements(order);
      if x == ct {
        ReachableSelf(reg, ct);
      } else {
        WalkAllAddsReachable(reg, names, gray + {ct}, order, Parents(reg, ct), x);
        if p :| p in Parents(reg, ct) && Reachable(reg, p, x) { ReachableFrom(reg, ct, p, x); }
      }
    }
  }

  lemma ReachableFrom(reg: Registry, x: Name, p: Name, y: Name)
    requires p in Parents(reg, x) && Reachable(reg, p, y)
    ensures Reachable(reg, x, y)
  {
    var path :| Lineage(reg, path, p, y);
    assert Lineage(reg, [x] + path, x, y);
  }

  lemma {:induction false} WalkAllAddsReachable(reg: Registry, names: set<Name>, gray: set<Name>, order: seq<Name>,
                           cts: seq<Name>, x: Name)
    requires Closed(reg, names) && (forall ct :: ct in cts ==> ct in names) && x in WalkAll(reg, names, gray, order, cts)
    ensures x in order || exists p :: p in cts && Reachable(reg, p, x)
    decreases names - gray - Elements(order), |cts|
  {
    hide Reachable;
    if cts != [] {
      var next := Walk(reg, names, gray, order, cts[0]);
      assert forall y :: y in order ==> y in next;
      WalkAllAddsReachable(reg, names, gray, next, cts[1..], x);
      if x in next { WalkAddsReachable(reg, names, gray, order, cts[0], x); }
      if p :| p in cts[1..] && Reachable(reg, p, x) { assert p in cts; }
    }
  }

  /** The walk ends, cycles included, having applied exactly the types the asked one reaches, each once. */
  lemma AppliedAreReachable(reg: Registry, ct: Name, x: Name)
    ensures x in Applied(reg, ct) <==> Reachable(reg, ct, x)
    ensures NoRepeats(Applied(reg, ct))
  {
    UniverseClosed(reg, ct);
    var names, order := Universe(reg, ct), Applied(reg, ct);
    WalkKeepsGood(reg, names, {}, [], ct);
    if x in order { WalkAddsReachable(reg, names, {}, [], ct, x); }
    if Reachable(reg, ct, x) {
      var path :| Lineage(reg, path, ct, x);
      assert Closed(reg, Elements(order));
      ClosedHolds(reg, Elements(order), path, ct, x);
    }
  }

  // ---- which type supplies a field ----

  /** order[i] is the last type to declare the field. */
  ghost predicate Supplies(reg: Registry, order: seq<Name>, i: nat, f: Name) {
    i < |order| && f in Fields(reg, order[i]) && forall j :: i < j < |order| ==> f !in Fields(reg, order[j])
  }

  lemma {:induction false} FoldSupplied(reg: Registry, order: seq<Name>, f: Name) returns (i: nat)
    ensures f in Fold(reg, order) <==> exists x :: x in order && f in Fields(reg, x)
    ensures f in Fold(reg, order) ==> Supplies(reg, order, i, f) && Fold(reg, order)[f] == Fields(reg, order[i])[f]
  {
    i := 0;
    if order != [] {
      var init, last := order[..|order| - 1], order[|order| - 1];
      assert order == init + [last];
      i := FoldSupplied(reg, init, f);
      if f in Fields(reg, last) {
        i := |order| - 1;
      } else if f in Fold(reg, init) {
        assert Supplies(reg, order, i, f);
      }
    }
  }

  /** The result has exactly the fields that the types reached declare, and the asked type's own win. */
  lemma EffectiveFieldsAre(reg: Registry, ct: Name, f: Name)
    ensures f in Fold(reg, Applied(reg, ct)) <==> exists x :: Reachable(reg, ct, x) && f in Fields(reg, x)
    ensures f in Fields(reg, ct) ==> f in Fold(reg, Applied(reg, ct)) && Fold(reg, Applied(reg, ct))[f] == Fields(reg, ct)[f]
  {
    UniverseClosed(reg, ct);
    var order := Applied(reg, ct);
    assert order[|order| - 1] == ct;
    hide Reachable, Applied;
    var _ := FoldSupplied(reg, order, f);
    if x :| x in order && f in Fields(reg, x) { AppliedAreReachable(reg, ct, x); }
    if x :| Reachable(reg, ct, x) && f in Fields(reg, x) { AppliedAreReachable(reg, ct, x); }
  }

  // ---- a subtype overrides its ancestors exactly when no two types reached inherit each other ----

  /** Every type is applied after all its other parents. */
  ghost predicate ParentsFirst(reg: Registry, order: seq<Name>) {
    forall i, p :: 0 <= i < |order| && p in Parents(reg, order[i]) ==> p == order[i] || p in order[..i]
  }

  /** No cycle of two or more types is reached; a type may list itself, which the walk skips. */
  ghost predicate Untangled(reg: Registry, ct: Name) {
    forall x, y :: Reachable(reg, ct, x) && x != y && Inherits(reg, x, y) ==> !Inherits(reg, y, x)
  }

  /** Everything being walked inherits ct. */
  ghost predicate GrayAbove(reg: Registry, gray: set<Name>, ct: Name) {
    forall g :: g in gray ==> Inherits(reg, g, ct)
  }

  lemma GrayAboveParent(reg: Registry, gray: set<Name>, ct: Name, p: Name)
    requires GrayAbove(reg, gray, ct) && p in Parents(reg, ct)
    ensures GrayAbove(reg, gray + {ct}, p)
  {
    hide Inherits;
    forall g | g in gray + {ct} ensures Inherits(reg, g, p) {
      if g == ct { InheritsParent(reg, ct, p); } else { InheritsStep(reg, g, ct, p); }
    }
  }

  lemma ParentsFirstAppend(reg: Registry, order: seq<Name>, ct: Name)
    requires ParentsFirst(reg, order) && forall p :: p in Parents(reg, ct) ==> p == ct || p in order
    ensures ParentsFirst(reg, order + [ct])
  {
    var r := order + [ct];
    forall i, p | 0 <= i < |r| && p in Parents(reg, r[i]) ensures p == r[i] || p in r[..i] {
      if i < |order| { assert r[..i] == order[..i]; } else { assert r[..i] == order; }
    }
  }

  lemma {:induction false} WalkParentsFirst(reg: Registry, names: set<Name>, gray: set<Name>, order: seq<Name>,
                           root: Name, ct: Name)
    requires Closed(reg, names) && ct in names && WalkGood(reg, gray, order) && ParentsFirst(reg, order)
    requires GrayAbove(reg, gray, ct) && Untangled(reg, root) && Reachable(reg, root, ct)
    ensures ParentsFirst(reg, Walk(reg, names, gray, order, ct))
    decreases names - gray - Elements(order), 0
  {
    if ct !in gray && ct !in order {
      assert ct in names - gray - Elements(order);
      var gray' := gray + {ct};
      assert WalkGood(reg, gray', order);
      forall p | p in Parents(reg, ct) ensures GrayAbove(reg, gray', p) && Reachable(reg, root, p) {
        GrayAboveParent(reg, gray, ct, p);
        ReachableStep(reg, root, ct, p);
      }
      hide WalkGood, ParentsFirst, GrayAbove, Untangled, Reachable;
      WalkAllParentsFirst(reg, names, gray', order, root, Parents(reg, ct));
      var o := WalkAll(reg, names, gray', order, Parents(reg, ct));
      WalkAllKeepsGood(reg, names, gray', order, Parents(reg, ct));
      forall p | p in Parents(reg, ct) ensures p == ct || p in o {
        NotGray(reg, gray, root, ct, p);
      }
      ParentsFirstAppend(reg, o, ct);
    }
  }

  lemma NotGray(reg: Registry, gray: set<Name>, root: Name, ct: Name, p: Name)
    requires GrayAbove(reg, gray, ct) && Untangled(reg, root) && Reachable(reg, root, ct)
    requires p in Parents(reg, ct)
    ensures p == ct || p !in gray
  {
    hide Inherits, Reachable;
    InheritsParent(reg, ct, p);
  }

  lemma {:induction false} WalkAllParentsFirst(reg: Registry, names: set<Name>, gray: set<Name>, order: seq<Name>,
                           root: Name, cts: seq<Name>)
    requires Closed(reg, names) && (forall ct :: ct in cts ==> ct in names)
    requires WalkGood(reg, gray, order) && ParentsFirst(reg, order)
    requires Untangled(reg, root) && forall ct :: ct in cts ==> GrayAbove(reg, gray, ct) && Reachable(reg, root, ct)
    ensures ParentsFirst(reg, WalkAll(reg, names, gray, order, cts))
    decreases names - gray - Elements(order), |cts|
  {
    hide WalkGood, ParentsFirst, GrayAbove, Untangled, Reachable;
    if cts != [] {
      var next := Walk(reg, names, gray, order, cts[0]);
      assert forall x :: x in order ==> x in next;
      WalkKeepsGood(reg, names, gray, order, cts[0]);
      WalkParentsFirst(reg, names, gray, order, root, cts[0]);
      WalkAllParentsFirst(reg, names, gray, next, root, cts[1..]);
    }
  }

  /** With parents first, ancestors come first too. */
  lemma {:induction false} AncestorsFirst(reg: Registry, order: seq<Name>, i: nat, path: seq<Name>, p: Name, y: Name)
    requires ParentsFirst(reg, order) && i < |order| && p in Parents(reg, order[i]) && Lineage(reg, path, p, y)
    ensures y == order[i] || y in order[..i]
    decreases |path|
  {
    if |path| > 1 {
      assert Lineage(reg, path[1..], path[1], y);
      if p == order[i] {
        AncestorsFirst(reg, order, i, path[1..], path[1], y);
      } else {
        var j :| 0 <= j < i && order[j] == p;
        AncestorsFirst(reg, order, j, path[1..], path[1], y);
        assert order[..j] <= order[..i];
      }
    }
  }

  lemma InheritedFirst(reg: Registry, order: seq<Name>, i: nat, y: Name)
    requires ParentsFirst(reg, order) && i < |order| && Inherits(reg, order[i], y)
    ensures y == order[i] || y in order[..i]
  {
    var p :| p in Parents(reg, order[i]) && Reachable(reg, p, y);
    var path :| Lineage(reg, path, p, y);
    AncestorsFirst(reg, order, i, path, p, y);
  }

  /** Every type is applied after all its other parents exactly when the asked type reaches no two types
      that inherit each other. */
  lemma ParentsFirstIffUntangled(reg: Registry, ct: Name)
    ensures ParentsFirst(reg, Applied(reg, ct)) <==> Untangled(reg, ct)
  {
    UniverseClosed(reg, ct);
    var order := Applied(reg, ct);
    if Untangled(reg, ct) {
      ReachableSelf(reg, ct);
      WalkParentsFirst(reg, Universe(reg, ct), {}, [], ct, ct);
    }
    hide Applied, ParentsFirst, Inherits, Reachable;
    if ParentsFirst(reg, order) {
      forall x, y | Reachable(reg, ct, x) && x != y && Inherits(reg, x, y) ensures !Inherits(reg, y, x) {
        AppliedAreReachable(reg, ct, x);
        var i :| 0 <= i < |order| && order[i] == x;
        InheritedFirst(reg, order, i, y);
        var j :| 0 <= j < i && order[j] == y;
        if Inherits(reg, y, x) {
          InheritedFirst(reg, order, j, x);
        }
      }
    }
  }

  /** No type reached inherits itself. */
  ghost predicate Acyclic(reg: Registry, ct: Name) {
    forall x :: Reachable(reg, ct, x) ==> !Inherits(reg, x, x)
  }

  /** Every type is applied after all its parents. */
  ghost predicate AllParentsFirst(reg: Registry, order: seq<Name>) {
    forall i, p :: 0 <= i < |order| && p in Parents(reg, order[i]) ==> p in order[..i]
  }

  lemma ReachableInherits(reg: Registry, x: Name, y: Name)
    requires Reachable(reg, x, y) && x != y
    ensures Inherits(reg, x, y)
  {
    var path :| Lineage(reg, path, x, y);
    assert Lineage(reg, path[1..], path[1], y);
  }

  lemma InheritsThrough(reg: Registry, x: Name, y: Name, z: Name)
    requires Inherits(reg, x, y) && Inherits(reg, y, z)
    ensures Inherits(reg, x, z)
  {
    var p :| p in Parents(reg, x) && Reachable(reg, p, y);
    var q :| q in Parents(reg, y) && Reachable(reg, q, z);
    var p1 :| Lineage(reg, p1, p, y);
    var p2 :| Lineage(reg, p2, q, z);
    assert Lineage(reg, p1 + p2, p, z);
  }

  lemma AcyclicIs(reg: Registry, ct: Name)
    ensures Acyclic(reg, ct) <==> Untangled(reg, ct) && forall x :: Reachable(reg, ct, x) ==> x !in Parents(reg, x)
  {
    hide Reachable, Inherits;
    if Acyclic(reg, ct) {
      forall x, y | Reachable(reg, ct, x) && Inherits(reg, x, y) ensures !Inherits(reg, y, x) {
        if Inherits(reg, y, x) { InheritsThrough(reg, x, y, x); }
      }
      forall x | Reachable(reg, ct, x) ensures x !in Parents(reg, x) {
        if x in Parents(reg, x) { InheritsParent(reg, x, x); }
      }
    }
    if Untangled(reg, ct) && forall x :: Reachable(reg, ct, x) ==> x !in Parents(reg, x) {
      forall x | Reachable(reg, ct, x) ensures !Inherits(reg, x, x) {
        if Inherits(reg, x, x) { SelfInherits(reg, x); }
      }
    }
  }

  /** A type that inherits itself lists itself or shares a cycle with another type. */
  lemma SelfInherits(reg: Registry, x: Name)
    requires Inherits(reg, x, x)
    ensures x in Parents(reg, x) || exists p :: p != x && Inherits(reg, x, p) && Inherits(reg, p, x)
  {
    hide Reachable;
    var p :| p in Parents(reg, x) && Reachable(reg, p, x);
    if p != x {
      InheritsParent(reg, x, p);
      ReachableInherits(reg, p, x);
    }
  }

  /** Every type is applied after all its parents exactly when the asked type reaches no cycle. */
  lemma ParentsFirstIffAcyclic(reg: Registry, ct: Name)
    ensures AllParentsFirst(reg, Applied(reg, ct)) <==> Acyclic(reg, ct)
  {
    var order := Applied(reg, ct);
    ParentsFirstIffUntangled(reg, ct);
    AcyclicIs(reg, ct);
    hide Applied, Reachable, Inherits, Acyclic, Untangled;
    forall x ensures x in order <==> Reachable(reg, ct, x) { AppliedAreReachable(reg, ct, x); }
    AppliedAreReachable(reg, ct, ct);
    FirstIsOnce(reg, order);
  }

  lemma FirstIsOnce(reg: Registry, order: seq<Name>)
    requires NoRepeats(order)
    ensures AllParentsFirst(reg, order) <==> ParentsFirst(reg, order) && forall x :: x in order ==> x !in Parents(reg, x)
  {
    if AllParentsFirst(reg, order) {
      forall x | x in order ensures x !in Parents(reg, x) {
        var i :| 0 <= i < |order| && order[i] == x;
        assert x !in order[..i];
      }
    }
  }

  /** s supplies the field, and no other type that inherits s declares it. */
  ghost predicate Supplier(reg: Registry, ct: Name, f: Name, s: Name) {
    && Reachable(reg, ct, s) && f in Fields(reg, s)
    && f in Fold(reg, Applied(reg, ct)) && Fold(reg, Applied(reg, ct))[f] == Fields(reg, s)[f]
    && forall x :: Reachable(reg, ct, x) && x != s && Inherits(reg, x, s) ==> f !in Fields(reg, x)
  }

  /** Where no two types reached inherit each other, a field never comes from a type when another type
      that inherits it, directly or not, also declares the field. */
  lemma SubtypeWins(reg: Registry, ct: Name, f: Name) returns (supplier: Name)
    requires Untangled(reg, ct) && f in Fold(reg, Applied(reg, ct))
    ensures Supplier(reg, ct, f, supplier)
  {
    var order := Applied(reg, ct);
    ParentsFirstIffUntangled(reg, ct);
    hide Untangled, Applied, ParentsFirst, Inherits, Reachable;
    var i := FoldSupplied(reg, order, f);
    supplier := order[i];
    AppliedAreReachable(reg, ct, supplier);
    forall x | Reachable(reg, ct, x) && x != supplier && Inherits(reg, x, supplier) ensures f !in Fields(reg, x) {
      AppliedAreReachable(reg, ct, x);
      var k :| 0 <= k < |order| && order[k] == x;
      InheritedFirst(reg, order, k, supplier);
      var j :| 0 <= j < k && order[j] == supplier;
      assert i == j;
    }
  }

  /** The subtype wins every field. */
  ghost predicate SubtypesWin(reg: Registry, ct: Name) {
    forall f :: f in Fold(reg, Applied(reg, ct)) ==> exists s :: Supplier(reg, ct, f, s)
  }

  /** The same types inheriting the same, whatever fields they declare. */
  ghost predicate SameInherits(reg: Registry, reg': Registry) {
    reg.Keys == reg'.Keys && forall t :: t in reg ==> reg[t].inherits == reg'[t].inherits
  }

  lemma SameReachable(reg: Registry, reg': Registry, x: Name, y: Name)
    requires SameInherits(reg, reg')
    ensures Reachable(reg, x, y) <==> Reachable(reg', x, y)
    ensures Inherits(reg, x, y) <==> Inherits(reg', x, y)
  {
    SameLineage(reg, reg', y);
    SameLineage(reg', reg, y);
  }

  lemma SameLineage(reg: Registry, reg': Registry, y: Name)
    requires SameInherits(reg, reg')
    ensures forall x :: Reachable(reg, x, y) ==> Reachable(reg', x, y)
  {
    forall x | Reachable(reg, x, y) ensures Reachable(reg', x, y) {
      var path :| Lineage(reg, path, x, y);
      assert Lineage(reg', path, x, y);
    }
  }

  lemma SameUntangled(reg: Registry, reg': Registry, ct: Name)
    requires SameInherits(reg, reg') && Untangled(reg, ct)
    ensures Untangled(reg', ct)
  {
    hide Reachable, Inherits, SameInherits;
    forall x, y | Reachable(reg', ct, x) && x != y && Inherits(reg', x, y) ensures !Inherits(reg', y, x) {
      SameReachable(reg, reg', ct, x);
      SameReachable(reg, reg', x, y);
      SameReachable(reg, reg', y, x);
    }
  }

  /** The types x and y declare one field, differently, and nothing else is declared. */
  function Contest(reg: Registry, x: Name, y: Name): Registry {
    map t | t in reg :: TypeDef(reg[t].inherits, if t == x then map[0 := 1] else if t == y then map[0 := 2] else map[])
  }

  /** Of two types that inherit each other, the one applied last beats the other, which inherits it. */
  lemma ContestIsLost(reg: Registry, ct: Name, x: Name, y: Name)
    requires Reachable(reg, ct, x) && x != y && Inherits(reg, x, y) && Inherits(reg, y, x)
    ensures SameInherits(reg, Contest(reg, x, y)) && !SubtypesWin(Contest(reg, x, y), ct)
  {
    var reg' := Contest(reg, x, y);
    InheritsReaches(reg, ct, x, y);
    SameReachable(reg, reg', ct, x);
    SameReachable(reg, reg', ct, y);
    SameReachable(reg, reg', x, y);
    SameReachable(reg, reg', y, x);
    assert x in reg && y in reg;
    hide Applied, Fold, Reachable, Inherits;
    EffectiveFieldsAre(reg', ct, 0);
    assert 0 in Fields(reg', x) && 0 in Fields(reg', y);
    assert 0 in Fold(reg', Applied(reg', ct));
    forall s ensures !Supplier(reg', ct, 0, s) {
      if 0 in Fields(reg', s) { assert s == x || s == y; }
    }
  }

  lemma InheritsReaches(reg: Registry, ct: Name, x: Name, y: Name)
    requires Reachable(reg, ct, x) && Inherits(reg, x, y)
    ensures Reachable(reg, ct, y)
  {
    var p :| p in Parents(reg, x) && Reachable(reg, p, y);
    var p1 :| Lineage(reg, p1, ct, x);
    var p2 :| Lineage(reg, p2, p, y);
    assert Lineage(reg, p1 + p2, ct, y);
  }

  /** Whatever fields the types declare the subtype wins, exactly when the asked type reaches no two types
      that inherit each other. */
  lemma SubtypesWinIff(reg: Registry, ct: Name)
    ensures Untangled(reg, ct) <==> forall reg' :: SameInherits(reg, reg') ==> SubtypesWin(reg', ct)
  {
    hide Reachable, Inherits, Supplier, SameInherits;
    if Untangled(reg, ct) {
      forall reg' | SameInherits(reg, reg') ensures SubtypesWin(reg', ct) {
        SameUntangled(reg, reg', ct);
        forall f | f in Fold(reg', Applied(reg', ct)) ensures exists s :: Supplier(reg', ct, f, s) {
          var s := SubtypeWins(reg', ct, f);
        }
      }
    } else {
      hide SubtypesWin;
      var x, y :| Reachable(reg, ct, x) && x != y && Inherits(reg, x, y) && Inherits(reg, y, x);
      ContestIsLost(reg, ct, x, y);
    }
  }

  /** Around a cycle the subtype does not always win: each of two types inherits the other, and the
      asked one supplies the field although the other inherits it and declares it too. */
  lemma CycleBeatsSubtype(f: Name, own: Spec, other: Spec)
    ensures var reg := map[0 := TypeDef([1], map[f := own]), 1 := TypeDef([0], map[f := other])];
            f in Fold(reg, Applied(reg, 0)) && Fold(reg, Applied(reg, 0))[f] == own
            && Reachable(reg, 0, 1) && Inherits(reg, 1, 0) && f in Fields(reg, 1)
  {
    var reg := map[0 := TypeDef([1], map[f := own]), 1 := TypeDef([0], map[f := other])];
    hide Applied, Fold, Reachable, Inherits;
    EffectiveFieldsAre(reg, 0, f);
    ReachableSelf(reg, 0);
    ReachableStep(reg, 0, 0, 1);
    InheritsParent(reg, 1, 0);
  }

  // ---- parents are applied in the order they are listed ----

  lemma {:induction false} WalkAllSplits(reg: Registry, names: set<Name>, gray: set<Name>, order: seq<Name>,
                                         first: seq<Name>, rest: seq<Name>)
    requires Closed(reg, names) && forall ct :: ct in first + rest ==> ct in names
    ensures (forall ct :: ct in first ==> ct in names) && (forall ct :: ct in rest ==> ct in names)
    ensures WalkAll(reg, names, gray, order, first + rest)
            == WalkAll(reg, names, gray, WalkAll(reg, names, gray, order, first), rest)
    decreases |first|
  {
    assert forall ct :: ct in first || ct in rest ==> ct in first + rest;
    if first == [] {
      assert first + rest == rest;
    } else {
      assert (first + rest)[0] == first[0] && (first + rest)[1..] == first[1..] + rest;
      WalkAllSplits(reg, names, gray, Walk(reg, names, gray, order, first[0]), first[1..], rest);
    }
  }

  /** The asked type's first parents are applied, with all they reach, before anything else. */
  lemma FirstParentsApplied(reg: Registry, ct: Name, i: nat) returns (done: seq<Name>)
    requires i < |Parents(reg, ct)|
    ensures done <= Applied(reg, ct)
    ensures forall x, path :: Lineage(reg, path, Parents(reg, ct)[i], x) && ct !in path ==> x in done
    ensures forall y :: y in done ==> exists k :: 0 <= k <= i && Reachable(reg, Parents(reg, ct)[k], y)
  {
    UniverseClosed(reg, ct);
    var names, parents := Universe(reg, ct), Parents(reg, ct);
    assert parents == parents[..i + 1] + parents[i + 1..];
    WalkAllSplits(reg, names, {ct}, [], parents[..i + 1], parents[i + 1..]);
    assert {} + {ct} == {ct};
    done := WalkAll(reg, names, {ct}, [], parents[..i + 1]);
    WalkAllKeepsGood(reg, names, {ct}, [], parents[..i + 1]);
    forall x, path | Lineage(reg, path, parents[i], x) && ct !in path ensures x in done {
      assert parents[..i + 1][i] == parents[i];
      AvoidingHolds(reg, ct, done, path, x);
    }
    hide Reachable;
    forall y | y in done ensures exists k :: 0 <= k <= i && Reachable(reg, parents[k], y) {
      WalkAllAddsReachable(reg, names, {ct}, [], parents[..i + 1], y);
      var p :| p in parents[..i + 1] && Reachable(reg, p, y);
      var k :| 0 <= k < i + 1 && parents[..i + 1][k] == p;
    }
  }

  lemma {:induction false} AvoidingHolds(reg: Registry, ct: Name, order: seq<Name>, path: seq<Name>, x: Name)
    requires WalkGood(reg, {ct}, order) && path != [] && path[0] in order && ct !in path
    requires Lineage(reg, path, path[0], x)
    ensures x in order
    decreases |path|
  {
    if |path| > 1 {
      assert path[1] in Parents(reg, path[0]) && path[1] in path;
      assert Lineage(reg, path[1..], path[1], x);
      AvoidingHolds(reg, ct, order, path[1..], x);
    }
  }

  /** order applies x before y. */
  ghost predicate AppliedBefore(order: seq<Name>, x: Name, y: Name) {
    exists a, b :: 0 <= a < b < |order| && order[a] == x && order[b] == y
  }

  /** What a parent reaches, other than through the asked type, is applied before whatever neither it nor an
      earlier parent reaches. */
  lemma EarlierParentFirst(reg: Registry, ct: Name, i: nat, path: seq<Name>, x: Name, y: Name)
    requires i < |Parents(reg, ct)| && Lineage(reg, path, Parents(reg, ct)[i], x) && ct !in path
    requires Reachable(reg, ct, y) && forall k :: 0 <= k <= i ==> !Reachable(reg, Parents(reg, ct)[k], y)
    ensures AppliedBefore(Applied(reg, ct), x, y)
  {
    var done := FirstParentsApplied(reg, ct, i);
    var order := Applied(reg, ct);
    AppliedAreReachable(reg, ct, y);
    hide Applied, Reachable;
    assert x in done && y !in done;
    var a :| 0 <= a < |done| && done[a] == x;
    var b :| 0 <= b < |order| && order[b] == y;
    assert forall c :: 0 <= c < |done| ==> order[c] == done[c];
  }

  lemma SupplierIsLast(reg: Registry, order: seq<Name>, i: nat, f: Name, y: Name)
    requires Supplies(reg, order, i, f) && NoRepeats(order) && f in Fields(reg, y)
    ensures !AppliedBefore(order, order[i], y)
  {}

  /** A field does not come from a type that a parent reaches, other than through the asked type, when a type
      that neither it nor an earlier parent reaches declares the field too: of two parents the later wins. */
  lemma LaterParentWins(reg: Registry, ct: Name, i: nat, y: Name, f: Name) returns (supplier: Name)
    requires i < |Parents(reg, ct)| && f in Fields(reg, y)
    requires Reachable(reg, ct, y) && forall k :: 0 <= k <= i ==> !Reachable(reg, Parents(reg, ct)[k], y)
    ensures f in Fold(reg, Applied(reg, ct)) && f in Fields(reg, supplier)
    ensures Fold(reg, Applied(reg, ct))[f] == Fields(reg, supplier)[f]
    ensures forall path :: Lineage(reg, path, Parents(reg, ct)[i], supplier) ==> ct in path
  {
    var order := Applied(reg, ct);
    EffectiveFieldsAre(reg, ct, f);
    AppliedAreReachable(reg, ct, y);
    hide Applied, Reachable, Lineage;
    var s := FoldSupplied(reg, order, f);
    supplier := order[s];
    forall path | Lineage(reg, path, Parents(reg, ct)[i], supplier) ensures ct in path {
      if ct !in path {
        EarlierParentFirst(reg, ct, i, path, supplier, y);
        SupplierIsLast(reg, order, s, f, y);
      }
    }
  }

  // ---- the source's walk, which updates two shared collections ----

  class Resolver {
    const reg: Registry
    ghost const names: set<Name>
    var resolved: map<Name, Spec>
    var seen: set<Name>
    /** The finished types, in order. */
    ghost var order: seq<Name>

    ghost predicate Valid(gray: set<Name>)
      reads this
    {
      Closed(reg, names) && resolved == Fold(reg, order) && seen == gray + Elements(order)
    }

    constructor (reg: Registry, ct: Name)
      ensures Valid({}) && order == [] && seen == {} && this.reg == reg && names == Universe(reg, ct)
    {
      this.reg := reg;
      names := Universe(reg, ct);
      resolved, seen, order := map[], {}, [];
      new;
      UniverseClosed(reg, ct);
    }

    method WalkType(ct: Name, ghost gray: set<Name>)
      requires Valid(gray) && ct in names
      modifies this
      ensures Valid(gray) && order == Walk(reg, names, gray, old(order), ct)
      decreases names - seen
    {
      if ct in seen {
        return;
      }
      ghost var gray' := gray + {ct};
      assert ct in names - seen;
      seen := seen + {ct};
      var parents := Parents(reg, ct);
      ghost var start := order;
      assert parents[0..] == parents;
      for i := 0 to |parents|
        invariant Valid(gray') && old(seen) + {ct} <= seen
        invariant start <= order && WalkAll(reg, names, gray', order, parents[i..]) == WalkAll(reg, names, gray', start, parents)
      {
        assert parents[i..][0] == parents[i] && parents[i..][1..] == parents[i + 1..];
        ghost var before := order;
        WalkType(parents[i], gray');
        assert forall x :: x in before ==> x in order;
      }
      assert parents[|parents|..] == [];
      Finish(order, ct);
      resolved := resolved + Fields(reg, ct);
      order := order + [ct];
    }
  }

  lemma Finish(order: seq<Name>, ct: Name)
    ensures Elements(order + [ct]) == Elements(order) + {ct}
    ensures (order + [ct])[..|order|] == order
  {}

  method EffectiveFields(reg: Registry, ct: Name) returns (fields: map<Name, Spec>)
    ensures fields == Fold(reg, Applied(reg, ct))
  {
    var resolver := new Resolver(reg, ct);
    resolver.WalkType(ct, {});
    fields := resolver.resolved;
  }
}
