/** Carried leaves and their order: `_leaf_order` of `carriers.py`, sealing of `plane.py`. */
module Leaves {
  import opened Outcomes
  import opened Sorting
  import opened Text

  /** Text that UTF-8 can encode. */
  type Label = s: String | Encodable(s) witness []

  /** A signal is opaque to the plane. */
  type Signal = nat

  /** What `open_sealed` can be handed: an AES-GCM blob bound to its target, a Fernet token, or neither.
      A group's key is known by the group's name: derivation is injective. */
  datatype Sealed =
    | Gcm(key: Label, aad: Label, plain: Signal)
    | Fernet(key: Label, plain: Signal)
    | Garbage

  datatype Leaf = Leaf(id: Label, to: Label, frm: Label, hlc: Label, blob: Sealed)

  datatype Message = Message(id: Label, to: Label, frm: Label, hlc: Label, sig: Signal)

  function Seal(sig: Signal, key: Label, aad: Label): Sealed {
    Gcm(key, aad, sig)
  }

  function OpenSealed(blob: Sealed, keys: set<Label>, aad: Label): Option<Signal> {
    match blob
    case Gcm(key, bound, plain) => if key in keys && bound == aad then Some(plain) else None
    case Fernet(key, plain) => if key in keys then Some(plain) else None
    case Garbage => None
  }

  // ---- the order ----

  /** `(hlc, id)` compared as UTF-8 bytes. */
  predicate StampLeq(h1: Label, i1: Label, h2: Label, i2: Label) {
    Less(Utf8(h1), Utf8(h2)) || (Utf8(h1) == Utf8(h2) && Leq(Utf8(i1), Utf8(i2)))
  }

  predicate LeafLeq(a: Leaf, b: Leaf) {
    StampLeq(a.hlc, a.id, b.hlc, b.id)
  }

  predicate MessageLeq(a: Message, b: Message) {
    StampLeq(a.hlc, a.id, b.hlc, b.id)
  }

  lemma Utf8Injective(s: String, t: String)
    requires Utf8(s) == Utf8(t)
    ensures s == t
  {
    Utf8RoundTrip(s);
    Utf8RoundTrip(t);
  }

  /** Byte order is code point order, so encoding first changes no output. */
  lemma StampOrderIsCodePoints(h1: Label, i1: Label, h2: Label, i2: Label)
    ensures StampLeq(h1, i1, h2, i2) <==> Less(h1, h2) || (h1 == h2 && Leq(i1, i2))
  {
    hide Less, Utf8;
    Utf8Order(h1, h2);
    Utf8Order(i1, i2);
    if Utf8(h1) == Utf8(h2) { Utf8Injective(h1, h2); }
    if Utf8(i1) == Utf8(i2) { Utf8Injective(i1, i2); }
  }

  /** The earlier stamp comes first; within one stamp, the smaller id. */
  lemma StampSortsFirst(h1: Label, i1: Label, h2: Label, i2: Label)
    requires Less(h1, h2) || (h1 == h2 && Less(i1, i2))
    ensures StampLeq(h1, i1, h2, i2) && !StampLeq(h2, i2, h1, i1)
  {
    hide Less, Utf8;
    StampOrderIsCodePoints(h1, i1, h2, i2);
    if StampLeq(h2, i2, h1, i1) {
      StampAntisymmetric(h1, i1, h2, i2);
      LessIrreflexive(h1);
      LessIrreflexive(i1);
    }
  }

  /** Leaves sorted as `poll` sorts them are in stamp order. */
  lemma SortedLeavesAscend(leaves: seq<Leaf>)
    requires Sorted(LeafLeq, leaves)
    ensures forall i, j :: 0 <= i < j < |leaves| ==>
              Less(leaves[i].hlc, leaves[j].hlc) || (leaves[i].hlc == leaves[j].hlc && Leq(leaves[i].id, leaves[j].id))
  {
    hide StampLeq;
    forall i, j | 0 <= i < j < |leaves|
      ensures Less(leaves[i].hlc, leaves[j].hlc) || (leaves[i].hlc == leaves[j].hlc && Leq(leaves[i].id, leaves[j].id))
    {
      assert LeafLeq(leaves[i], leaves[j]);
      StampOrderIsCodePoints(leaves[i].hlc, leaves[i].id, leaves[j].hlc, leaves[j].id);
    }
  }

  /** And so are messages sorted as `receive` sorts them. */
  lemma SortedMessagesAscend(out: seq<Message>)
    requires Sorted(MessageLeq, out)
    ensures forall i, j :: 0 <= i < j < |out| ==>
              Less(out[i].hlc, out[j].hlc) || (out[i].hlc == out[j].hlc && Leq(out[i].id, out[j].id))
  {
    hide StampLeq;
    forall i, j | 0 <= i < j < |out|
      ensures Less(out[i].hlc, out[j].hlc) || (out[i].hlc == out[j].hlc && Leq(out[i].id, out[j].id))
    {
      assert MessageLeq(out[i], out[j]);
      StampOrderIsCodePoints(out[i].hlc, out[i].id, out[j].hlc, out[j].id);
    }
  }

  lemma StampTotal(h1: Label, i1: Label, h2: Label, i2: Label)
    ensures StampLeq(h1, i1, h2, i2) || StampLeq(h2, i2, h1, i1)
  {
    hide Less, Utf8;
    LessTotal(Utf8(h1), Utf8(h2));
    LessTotal(Utf8(i1), Utf8(i2));
  }

  lemma StampTransitive(h1: Label, i1: Label, h2: Label, i2: Label, h3: Label, i3: Label)
    requires StampLeq(h1, i1, h2, i2) && StampLeq(h2, i2, h3, i3)
    ensures StampLeq(h1, i1, h3, i3)
  {
    hide Less, Utf8;
    if Less(Utf8(h1), Utf8(h2)) && Less(Utf8(h2), Utf8(h3)) { LessTransitive(Utf8(h1), Utf8(h2), Utf8(h3)); }
    if Leq(Utf8(i1), Utf8(i2)) && Leq(Utf8(i2), Utf8(i3)) { LeqTransitive(Utf8(i1), Utf8(i2), Utf8(i3)); }
  }

  /** Only leaves of one id sort alike. */
  lemma StampAntisymmetric(h1: Label, i1: Label, h2: Label, i2: Label)
    requires StampLeq(h1, i1, h2, i2) && StampLeq(h2, i2, h1, i1)
    ensures h1 == h2 && i1 == i2
  {
    hide Less, Utf8;
    if Less(Utf8(h1), Utf8(h2)) {
      LeqAntisymmetric(Utf8(h1), Utf8(h2));
      LessIrreflexive(Utf8(h1));
    }
    if Less(Utf8(h2), Utf8(h1)) {
      LeqAntisymmetric(Utf8(h1), Utf8(h2));
      LessIrreflexive(Utf8(h1));
    }
    Utf8Injective(h1, h2);
    LeqAntisymmetric(Utf8(i1), Utf8(i2));
    Utf8Injective(i1, i2);
  }

  lemma LeafOrder()
    ensures TotalOrder(LeafLeq)
  {
    hide StampLeq;
    forall a, b ensures LeafLeq(a, b) || LeafLeq(b, a) {
      StampTotal(a.hlc, a.id, b.hlc, b.id);
    }
    forall a, b, c | LeafLeq(a, b) && LeafLeq(b, c) ensures LeafLeq(a, c) {
      StampTransitive(a.hlc, a.id, b.hlc, b.id, c.hlc, c.id);
    }
  }

  lemma MessageOrder()
    ensures TotalOrder(MessageLeq)
  {
    hide StampLeq;
    forall a, b ensures MessageLeq(a, b) || MessageLeq(b, a) {
      StampTotal(a.hlc, a.id, b.hlc, b.id);
    }
    forall a, b, c | MessageLeq(a, b) && MessageLeq(b, c) ensures MessageLeq(a, c) {
      StampTransitive(a.hlc, a.id, b.hlc, b.id, c.hlc, c.id);
    }
  }
}
