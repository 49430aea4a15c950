/** The loopback carrier of `carriers.py`: an append-only leaf log, deduplicated by leaf id. */
module Carriers {
  import opened Outcomes

  /** A log holds no two leaves with one id. */
  ghost predicate UniqueIds<K, L(!new)>(idOf: L -> K, log: seq<L>) {
    forall i, j :: 0 <= i < j < |log| ==> idOf(log[i]) != idOf(log[j])
  }

  predicate HasId<K(==), L>(idOf: L -> K, log: seq<L>, id: K) {
    exists i :: 0 <= i < |log| && idOf(log[i]) == id
  }

  /** The log after a put: appended, unless its id is already there. */
  function Stored<K(==), L>(idOf: L -> K, log: seq<L>, leaf: L): seq<L> {
    if HasId(idOf, log, idOf(leaf)) then log else log + [leaf]
  }

  lemma StoredKeepsUnique<K, L(!new)>(idOf: L -> K, log: seq<L>, leaf: L)
    requires UniqueIds(idOf, log)
    ensures UniqueIds(idOf, Stored(idOf, log, leaf))
    ensures log <= Stored(idOf, log, leaf) && HasId(idOf, Stored(idOf, log, leaf), idOf(leaf))
  {
    if !HasId(idOf, log, idOf(leaf)) {
      assert (log + [leaf])[|log|] == leaf;
    }
  }

  class InMemoryCarrier<K(==,!new), L(!new)> {
    const idOf: L -> K
    var byId: map<K, L>
    var order: seq<K>

    ghost predicate Valid()
      reads this
    {
      && (forall k :: k in byId <==> k in order)
      && (forall i, j :: 0 <= i < j < |order| ==> order[i] != order[j])
      && (forall k :: k in byId ==> idOf(byId[k]) == k)
    }

    /** The log: the stored leaves in insertion order. */
    ghost function Log(): (log: seq<L>)
      requires Valid()
      reads this
      ensures |log| == |order| && forall i :: 0 <= i < |log| ==> log[i] == byId[order[i]] && idOf(log[i]) == order[i]
      ensures UniqueIds(idOf, log)
    {
      var m, o := byId, order;
      assert forall i :: 0 <= i < |o| ==> o[i] in m;
      seq(|o|, i requires 0 <= i < |o| && o[i] in m => m[o[i]])
    }

    constructor (idOf: L -> K)
      ensures Valid() && Log() == [] && this.idOf == idOf
    {
      this.idOf := idOf;
      byId := map[];
      order := [];
    }

    method Put(leaf: L)
      requires Valid()
      modifies this`byId, this`order
      ensures Valid() && Log() == Stored(idOf, old(Log()), leaf)
      ensures byId == old(if idOf(leaf) in byId then byId else byId[idOf(leaf) := leaf])
    {
      var i := idOf(leaf);
      ghost var before := Log();
      assert HasId(idOf, before, i) <==> i in byId by {
        if i in byId {
          var j :| 0 <= j < |order| && order[j] == i;
          assert idOf(before[j]) == i;
        }
        if j :| 0 <= j < |before| && idOf(before[j]) == i { assert order[j] in order; }
      }
      if i !in byId {
        byId := byId[i := leaf];
        order := order + [i];
        assert Log() == before + [leaf];
      }
    }

    method Poll() returns (leaves: seq<L>)
      requires Valid()
      ensures leaves == Log()
    {
      leaves := [];
      for i := 0 to |order|
        invariant leaves == Log()[..i]
      {
        assert order[i] in order;
        leaves := leaves + [byId[order[i]]];
      }
      assert Log()[..|order|] == Log();
    }

    method Ids() returns (ids: set<K>)
      ensures ids == byId.Keys
    {
      ids := byId.Keys;
    }

    method Get(id: K) returns (leaf: Option<L>)
      ensures leaf == if id in byId then Some(byId[id]) else None
    {
      leaf := if id in byId then Some(byId[id]) else None;
    }
  }

  /** What a carrier holds after gaining the leaves of some ids. */
  function Gained<K(!new), L>(held: map<K, L>, before: map<K, L>, moved: set<K>): map<K, L> {
    (map k | k in moved && k in held :: held[k]) + before
  }

  lemma GainOne<K(!new), L>(held: map<K, L>, before: map<K, L>, moved: set<K>, i: K)
    requires i in held && i !in before && i !in moved
    ensures i !in Gained(held, before, moved)
    ensures Gained(held, before, moved + {i}) == Gained(held, before, moved)[i := held[i]]
  {}

  lemma GainAll<K(!new), L>(held: map<K, L>, before: map<K, L>)
    ensures Gained(held, before, {}) == before
    ensures Gained(held, before, held.Keys - before.Keys) == held + before
  {}

  /** Gaining from a carrier that has itself gained, but none of the ids in question, is the same. */
  lemma GainLess<K(!new), L>(held: map<K, L>, before: map<K, L>, moved: set<K>, held': map<K, L>)
    requires forall k :: k in moved ==> (k in held <==> k in held') && (k in held ==> held[k] == held'[k])
    ensures Gained(held', before, moved) == Gained(held, before, moved)
  {}

  lemma StoredExtends<K, L>(idOf: L -> K, log: seq<L>, leaf: L)
    ensures log <= Stored(idOf, log, leaf)
  {}

  lemma MoveOne<K(!new)>(all: set<K>, left: set<K>, i: K)
    requires left <= all && i in left
    ensures i !in all - left && all - (left - {i}) == (all - left) + {i} && |left - {i}| == |left| - 1
  {}

  /** `put` everything `from` holds that was missing in `to`. */
  method Transfer<K(!new), L(!new)>(from: InMemoryCarrier<K, L>, to: InMemoryCarrier<K, L>, missing: set<K>) returns (n: nat)
    requires from.Valid() && to.Valid() && from.idOf == to.idOf && from != to
    requires missing <= from.byId.Keys && missing !! to.byId.Keys
    modifies to`byId, to`order
    ensures to.Valid() && n == |missing| && old(to.Log()) <= to.Log()
    ensures to.byId == old(Gained(from.byId, to.byId, missing))
  {
    ghost var held, before := from.byId, to.byId;
    assert forall k :: k in held ==> from.idOf(held[k]) == k;
    hide InMemoryCarrier.Valid, InMemoryCarrier.Log, Stored, Gained;
    n := 0;
    var left := missing;
    GainAll(held, before);
    assert missing - left == {};
    while left != {}
      invariant left <= missing && n == |missing| - |left| && to.Valid() && old(to.Log()) <= to.Log()
      invariant to.byId == Gained(held, before, missing - left)
      decreases left
    {
      var i :| i in left;
      MoveOne(missing, left, i);
      GainOne(held, before, missing - left, i);
      var leaf := from.Get(i);
      StoredExtends(to.idOf, to.Log(), leaf.value);
      if leaf.Some? {
        to.Put(leaf.value);
        n := n + 1;
      }
      left := left - {i};
    }
    assert missing - left == missing;
  }

  /** Anti-entropy: both carriers end with the union, keeping what they had, and the count is of the
      leaves transferred. */
  method Reconcile<K(!new), L(!new)>(a: InMemoryCarrier<K, L>, b: InMemoryCarrier<K, L>) returns (n: nat)
    requires a.Valid() && b.Valid() && a.idOf == b.idOf
    modifies a`byId, a`order, b`byId, b`order
    ensures a.Valid() && b.Valid() && old(a.Log()) <= a.Log() && old(b.Log()) <= b.Log()
    ensures a.byId == old(b.byId + a.byId) && b.byId == old(a.byId + b.byId)
    ensures n == |old(a.byId.Keys - b.byId.Keys)| + |old(b.byId.Keys - a.byId.Keys)|
  {
    hide InMemoryCarrier.Valid, InMemoryCarrier.Log;
    var ai := a.Ids();
    var bi := b.Ids();
    n := 0;
    if a != b {
      GainAll(a.byId, b.byId);
      GainAll(b.byId, a.byId);
      hide Gained;
      var toB := Transfer(a, b, ai - bi);
      var toA := Transfer(b, a, bi - ai);
      n := toB + toA;
      GainLess(old(b.byId), old(a.byId), bi - ai, b.byId);
    }
  }
}
