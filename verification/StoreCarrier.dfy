/** The store-backed carrier of `carriers.py`: its watermark poll returns what a full read returns.

    `ArtifactStore` stands for the lattice store, which this package does not define: an append-only
    list of rows whose `_seq` grows, read back by pages of any size. */
module StoreCarriers {
  import opened Leaves
  import opened Outcomes
  import opened Sorting
  import opened Text

  /** An artifact row: `carried` says that its content type is the carrier's, `leaf` is its document's
      leaf, missing from a malformed row. */
  datatype Row = Row(seqNo: nat, id: Label, carried: bool, leaf: Option<Leaf>)

  /** A row as a page returns it; a store without sequence numbers stamps nothing. */
  datatype PageRow = PageRow(stamp: Option<nat>, leaf: Option<Leaf>)

  /** The greatest sequence number so far. */
  function Top(rows: seq<Row>): nat {
    if rows == [] then 0 else rows[|rows| - 1].seqNo
  }

  /** Sequence numbers are positive and grow, ids are unique, and a leaf is stored under its own id. */
  ghost predicate RowsGood(rows: seq<Row>) {
    && (forall i, j :: 0 <= i < j < |rows| ==> rows[i].seqNo < rows[j].seqNo)
    && (forall i, j :: 0 <= i < j < |rows| ==> rows[i].id != rows[j].id)
    && (forall r :: r in rows ==> 0 < r.seqNo && (r.leaf.Some? ==> r.leaf.value.id == r.id))
  }

  lemma AppendedGood(rows: seq<Row>, r: Row)
    requires RowsGood(rows) && Top(rows) < r.seqNo && (r.leaf.Some? ==> r.leaf.value.id == r.id)
    requires forall q :: q in rows ==> q.id != r.id
    ensures RowsGood(rows + [r])
  {}

  lemma TopIsGreatest(rows: seq<Row>, r: Row)
    requires RowsGood(rows) && r in rows
    ensures r.seqNo <= Top(rows)
  {
    var i :| 0 <= i < |rows| && rows[i] == r;
    if i < |rows| - 1 { assert rows[i].seqNo < rows[|rows| - 1].seqNo; }
  }

  /** The carrier's rows past a sequence number, in order. */
  function Past(rows: seq<Row>, after: nat): (past: seq<Row>)
    ensures forall r :: r in past <==> r in rows && r.carried && r.seqNo > after
  {
    if rows == [] then []
    else
      var init, last := rows[..|rows| - 1], rows[|rows| - 1];
      assert rows == init + [last];
      assert forall r :: r in rows <==> r in init || r == last;
      Past(init, after) + (if last.carried && last.seqNo > after then [last] else [])
  }

  lemma GoodPrefix(rows: seq<Row>)
    requires RowsGood(rows) && rows != []
    ensures RowsGood(rows[..|rows| - 1])
    ensures forall r :: r in rows[..|rows| - 1] ==> r.seqNo < Top(rows) && r.id != rows[|rows| - 1].id
  {
    var init := rows[..|rows| - 1];
    forall r | r in init ensures r in rows && r.seqNo < Top(rows) && r.id != rows[|rows| - 1].id {
      var i :| 0 <= i < |init| && init[i] == r;
      assert rows[i] == r;
    }
  }

  ghost predicate Ordered(rows: seq<Row>) {
    forall i, j :: 0 <= i < j < |rows| ==> rows[i].seqNo < rows[j].seqNo
  }

  lemma OrderedAppend(rows: seq<Row>, r: Row)
    requires Ordered(rows) && forall q :: q in rows ==> q.seqNo < r.seqNo
    ensures Ordered(rows + [r])
  {}

  lemma {:induction false} PastOrdered(rows: seq<Row>, after: nat)
    requires RowsGood(rows)
    ensures Ordered(Past(rows, after))
  {
    if rows != [] {
      var init := rows[..|rows| - 1];
      GoodPrefix(rows);
      PastOrdered(init, after);
      hide RowsGood, Ordered;
      OrderedAppend(Past(init, after), rows[|rows| - 1]);
    } else {
      assert Past(rows, after) == [];
    }
  }

  // ---- the plain read ----

  /** The leaves of the carrier's rows. */
  function LeavesOf(rows: seq<Row>): (leaves: seq<Leaf>)
    ensures forall l :: l in leaves <==> exists r :: r in rows && r.carried && r.leaf == Some(l)
  {
    if rows == [] then []
    else
      var init, last := rows[..|rows| - 1], rows[|rows| - 1];
      assert rows == init + [last];
      assert forall r :: r in rows <==> r in init || r == last;
      LeavesOf(init) + (if last.carried && last.leaf.Some? then [last.leaf.value] else [])
  }

  lemma LastLeafFresh(rows: seq<Row>)
    requires RowsGood(rows) && rows != []
    ensures rows[|rows| - 1].leaf.Some? ==> rows[|rows| - 1].leaf.value !in LeavesOf(rows[..|rows| - 1])
  {
    var init, last := rows[..|rows| - 1], rows[|rows| - 1];
    GoodPrefix(rows);
    hide RowsGood;
    forall l | l in LeavesOf(init) ensures last.leaf != Some(l) {
      var r :| r in init && r.carried && r.leaf == Some(l);
      assert r in rows;
      LeafUnderOwnId(rows, r);
      if last.leaf.Some? { LeafUnderOwnId(rows, last); }
    }
  }

  lemma {:induction false} LeavesDistinct(rows: seq<Row>)
    requires RowsGood(rows)
    ensures NoRepeats(LeavesOf(rows))
  {
    if rows != [] {
      var init, last := rows[..|rows| - 1], rows[|rows| - 1];
      GoodPrefix(rows);
      LastLeafFresh(rows);
      LeavesDistinct(init);
      hide RowsGood, NoRepeats;
      if last.leaf.Some? { AppendDistinct(LeavesOf(init), last.leaf.value); }
    }
  }

  lemma LeafUnderOwnId(rows: seq<Row>, r: Row)
    requires RowsGood(rows) && r in rows && r.leaf.Some?
    ensures r.leaf.value.id == r.id
  {}

  /** Every leaf on the plane, `(hlc, id)`-ordered. */
  function FullRead(rows: seq<Row>): seq<Leaf> {
    Sort(LeafLeq, LeavesOf(rows))
  }

  lemma LeavesAntisymmetric(rows: seq<Row>)
    requires RowsGood(rows)
    ensures Antisymmetric(LeafLeq, LeavesOf(rows))
  {
    hide StampLeq;
    var leaves := LeavesOf(rows);
    forall a, b | a in leaves && b in leaves && LeafLeq(a, b) && LeafLeq(b, a) ensures a == b {
      StampAntisymmetric(a.hlc, a.id, b.hlc, b.id);
      SameIdSameLeaf(rows, a, b);
    }
  }

  lemma SameIdSameLeaf(rows: seq<Row>, a: Leaf, b: Leaf)
    requires RowsGood(rows) && a in LeavesOf(rows) && b in LeavesOf(rows) && a.id == b.id
    ensures a == b
  {
    var r :| r in rows && r.carried && r.leaf == Some(a);
    var q :| q in rows && q.carried && q.leaf == Some(b);
    var i :| 0 <= i < |rows| && rows[i] == r;
    var j :| 0 <= j < |rows| && rows[j] == q;
    assert i == j;
  }

  /** Any listing of the plane's leaves sorts to the full read. */
  lemma ListingSorts(rows: seq<Row>, leaves: seq<Leaf>)
    requires RowsGood(rows) && NoRepeats(leaves) && forall l :: l in leaves <==> l in LeavesOf(rows)
    ensures Sort(LeafLeq, leaves) == FullRead(rows)
  {
    LeavesDistinct(rows);
    SameMembersPermute(leaves, LeavesOf(rows));
    LeafOrder();
    LeavesAntisymmetric(rows);
    SortIgnoresOrder(LeafLeq, LeavesOf(rows), leaves);
  }

  // ---- the watermark ----

  lemma SortLeaves(leaves: seq<Leaf>)
    requires NoRepeats(leaves)
    ensures var r := Sort(LeafLeq, leaves);
            && NoRepeats(r) && (forall l :: l in r <==> l in leaves)
            && forall i, j :: 0 <= i < j < |r| ==>
                 Less(r[i].hlc, r[j].hlc) || (r[i].hlc == r[j].hlc && Leq(r[i].id, r[j].id))
  {
    hide LeafLeq, Sort, Less;
    LeafOrder();
    SortSorted(LeafLeq, leaves);
    SortedLeavesAscend(Sort(LeafLeq, leaves));
    SameElements(Sort(LeafLeq, leaves), leaves);
    forall i, j | 0 <= i < j < |leaves| ensures Sort(LeafLeq, leaves)[i] != Sort(LeafLeq, leaves)[j] {
      DistinctSurvives(leaves, Sort(LeafLeq, leaves), i, j);
    }
  }

  /** The full read holds exactly the leaves of the carrier's rows. */
  lemma FullReadHolds(rows: seq<Row>)
    ensures forall l :: l in FullRead(rows) <==> exists r :: r in rows && r.carried && r.leaf == Some(l)
  {
    SameElements(FullRead(rows), LeavesOf(rows));
  }

  /** No leaf at or below the cursor is missing from the index. */
  ghost predicate Covers(rows: seq<Row>, cursor: nat, index: map<Label, Leaf>) {
    forall r :: r in rows && r.carried && r.leaf.Some? && r.seqNo <= cursor ==> r.id in index && index[r.id] == r.leaf.value
  }

  /** The index holds every leaf at or below the cursor, and no other. */
  ghost predicate Folded(rows: seq<Row>, cursor: nat, index: map<Label, Leaf>) {
    && Covers(rows, cursor, index)
    && Sound(rows, index)
    && cursor <= Top(rows)
  }

  /** The index holds leaves of the plane, each under its id. */
  ghost predicate Sound(rows: seq<Row>, index: map<Label, Leaf>) {
    forall k :: k in index ==> index[k] in LeavesOf(rows) && index[k].id == k
  }

  /** Rows written behind the carrier's back cannot slip under its cursor. */
  lemma GrowthKeepsFolded(rows: seq<Row>, r: Row, cursor: nat, index: map<Label, Leaf>)
    requires Folded(rows, cursor, index) && Top(rows) < r.seqNo
    ensures Folded(rows + [r], cursor, index)
  {
    assert forall q :: q in rows + [r] <==> q in rows || q == r;
    forall k | k in index ensures index[k] in LeavesOf(rows + [r]) {
      var q :| q in rows && q.carried && q.leaf == Some(index[k]);
      assert q in rows + [r];
    }
  }

  /** With no row past the cursor, the index is the whole plane. */
  lemma NothingPast(rows: seq<Row>, cursor: nat, index: map<Label, Leaf>)
    requires RowsGood(rows) && Folded(rows, cursor, index) && Past(rows, cursor) == []
    ensures forall l :: l in index.Values <==> l in LeavesOf(rows)
  {
    forall l | l in LeavesOf(rows) ensures l in index.Values {
      var r :| r in rows && r.carried && r.leaf == Some(l);
      assert r !in Past(rows, cursor);
      assert index[r.id] == l;
    }
  }

  function Stamped(r: Row): PageRow {
    PageRow(Some(r.seqNo), r.leaf)
  }

  function StampedAll(rows: seq<Row>): (page: seq<PageRow>)
    ensures |page| == |rows| && forall i :: 0 <= i < |page| ==> page[i] == Stamped(rows[i])
  {
    seq(|rows|, i requires 0 <= i < |rows| => Stamped(rows[i]))
  }

  /** A page is a prefix of what lies past the cursor, empty only when nothing does. */
  ghost predicate PrefixPage(past: seq<Row>, page: seq<PageRow>) {
    && |page| <= |past| && (page == [] ==> past == [])
    && forall i :: 0 <= i < |page| ==> page[i] == Stamped(past[i])
  }

  /** The index after a row is folded in. */
  function FoldedIn(index: map<Label, Leaf>, leaf: Option<Leaf>): map<Label, Leaf> {
    if leaf.Some? then index[leaf.value.id := leaf.value] else index
  }

  lemma FoldKeepsSound(rows: seq<Row>, index: map<Label, Leaf>, leaf: Option<Leaf>)
    requires Sound(rows, index) && (leaf.Some? ==> leaf.value in LeavesOf(rows))
    ensures Sound(rows, FoldedIn(index, leaf))
  {}

  /** In an ordered list, an element no later than the i-th and other than it comes before it. */
  lemma Before(past: seq<Row>, i: nat, q: Row)
    requires Ordered(past) && i < |past| && q in past && q != past[i] && q.seqNo <= past[i].seqNo
    ensures i > 0 && q.seqNo <= past[i - 1].seqNo
  {
    var k :| 0 <= k < |past| && past[k] == q;
    assert k < i;
  }

  lemma CoversNext(rows: seq<Row>, cursor: nat, r: Row, index: map<Label, Leaf>)
    requires RowsGood(rows) && r in rows && Covers(rows, cursor, index)
    requires forall q :: q in rows && q.carried && q.seqNo <= r.seqNo && q != r ==> q.seqNo <= cursor
    ensures Covers(rows, r.seqNo, FoldedIn(index, r.leaf))
  {
    if r.leaf.Some? { LeafUnderOwnId(rows, r); }
    forall q | q in rows && q.carried && q.leaf.Some? && q.seqNo <= r.seqNo
      ensures q.id in FoldedIn(index, r.leaf) && FoldedIn(index, r.leaf)[q.id] == q.leaf.value
    {
      if q != r { UniqueRow(rows, q, r); }
      hide RowsGood;
    }
  }

  /** Folding the next row of a page keeps the index complete up to the new cursor. */
  lemma FoldRow(rows: seq<Row>, start: nat, i: nat, cursor: nat, index: map<Label, Leaf>)
    requires RowsGood(rows) && i < |Past(rows, start)|
    requires cursor == (if i == 0 then start else Past(rows, start)[i - 1].seqNo) && Folded(rows, cursor, index)
    ensures var r := Past(rows, start)[i]; cursor < r.seqNo && Folded(rows, r.seqNo, FoldedIn(index, r.leaf))
  {
    var past := Past(rows, start);
    var r := past[i];
    PastOrdered(rows, start);
    assert r in past && r in rows && r.carried && r.seqNo > start;
    if i > 0 { OrderedLess(past, i - 1, i); }
    TopIsGreatest(rows, r);
    FoldKeepsSound(rows, index, r.leaf);
    hide Sound, RowsGood, Past, LeavesOf, Covers, Ordered;
    forall q | q in rows && q.carried && q.seqNo <= r.seqNo && q != r ensures q.seqNo <= cursor {
      if q.seqNo > start { Before(past, i, q); }
    }
    CoversNext(rows, cursor, r, index);
  }

  lemma OrderedLess(rows: seq<Row>, k: nat, i: nat)
    requires Ordered(rows) && k < i < |rows|
    ensures rows[k].seqNo < rows[i].seqNo
  {}

  lemma UniqueRow(rows: seq<Row>, q: Row, r: Row)
    requires RowsGood(rows) && q in rows && r in rows && q != r
    ensures q.id != r.id
  {
    var i :| 0 <= i < |rows| && rows[i] == q;
    var j :| 0 <= j < |rows| && rows[j] == r;
  }

  // ---- every run: rows written between any two pages ----

  datatype State = State(rows: seq<Row>, cursor: nat, index: map<Label, Leaf>)

  /** A row is written by anyone, or the carrier reads a page of n rows past its cursor. */
  datatype Step = Write(row: Row) | Page(n: nat)

  ghost predicate Enabled(s: State, step: Step) {
    match step
    case Write(r) => RowsGood(s.rows + [r])
    case Page(n) => n <= |Past(s.rows, s.cursor)|
  }

  /** The index after the first n rows of a page. */
  function FoldPage(index: map<Label, Leaf>, page: seq<Row>, n: nat): map<Label, Leaf>
    requires n <= |page|
  {
    if n == 0 then index else FoldedIn(FoldPage(index, page, n - 1), page[n - 1].leaf)
  }

  function CursorAfter(cursor: nat, page: seq<Row>, n: nat): nat
    requires n <= |page|
  {
    if n == 0 then cursor else page[n - 1].seqNo
  }

  ghost function Apply(s: State, step: Step): State
    requires Enabled(s, step)
  {
    match step
    case Write(r) => s.(rows := s.rows + [r])
    case Page(n) =>
      var past := Past(s.rows, s.cursor);
      State(s.rows, CursorAfter(s.cursor, past, n), FoldPage(s.index, past, n))
  }

  ghost predicate Run(s: State, steps: seq<Step>, end: State)
    decreases |steps|
  {
    if steps == [] then s == end else Enabled(s, steps[0]) && Run(Apply(s, steps[0]), steps[1..], end)
  }

  ghost predicate Good(s: State) {
    RowsGood(s.rows) && Folded(s.rows, s.cursor, s.index)
  }

  lemma {:induction false} PageFolds(rows: seq<Row>, cursor: nat, index: map<Label, Leaf>, n: nat)
    requires RowsGood(rows) && Folded(rows, cursor, index) && n <= |Past(rows, cursor)|
    ensures var past := Past(rows, cursor); Folded(rows, CursorAfter(cursor, past, n), FoldPage(index, past, n))
  {
    hide Folded, RowsGood, Past;
    var past := Past(rows, cursor);
    if n > 0 {
      PageFolds(rows, cursor, index, n - 1);
      FoldRow(rows, cursor, n - 1, CursorAfter(cursor, past, n - 1), FoldPage(index, past, n - 1));
    }
  }

  lemma WrittenAbove(rows: seq<Row>, r: Row)
    requires RowsGood(rows + [r])
    ensures Top(rows) < r.seqNo
  {
    var all := rows + [r];
    assert r in all && 0 < r.seqNo;
    if rows != [] { assert all[|rows| - 1].seqNo < all[|rows|].seqNo; }
  }

  lemma StepKeepsGood(s: State, step: Step)
    requires Good(s) && Enabled(s, step)
    ensures Good(Apply(s, step))
  {
    hide RowsGood, Folded, FoldPage, CursorAfter, Past;
    match step
    case Write(r) =>
      WrittenAbove(s.rows, r);
      GrowthKeepsFolded(s.rows, r, s.cursor, s.index);
    case Page(n) => PageFolds(s.rows, s.cursor, s.index, n);
  }

  /** Over every interleaving of writes and pages the cursor never skips a leaf, and whenever nothing is
      left past it, any listing of the index sorts to the full read. */
  lemma {:induction false} EveryRun(s: State, steps: seq<Step>, end: State, listing: seq<Leaf>)
    requires Good(s) && Run(s, steps, end)
    ensures Good(end)
    ensures Past(end.rows, end.cursor) == [] && NoRepeats(listing) && (forall l :: l in listing <==> l in end.index.Values) ==>
              Sort(LeafLeq, listing) == FullRead(end.rows)
    decreases |steps|
  {
    if steps == [] {
      if Past(end.rows, end.cursor) == [] && NoRepeats(listing) && forall l :: l in listing <==> l in end.index.Values {
        NothingPast(end.rows, end.cursor, end.index);
        ListingSorts(end.rows, listing);
      }
    } else {
      hide Good, Past, Enabled;
      StepKeepsGood(s, steps[0]);
      EveryRun(Apply(s, steps[0]), steps[1..], end, listing);
    }
  }

  /** A carrier starts with nothing read, whatever the store already holds. */
  lemma StartIsGood(rows: seq<Row>)
    requires RowsGood(rows)
    ensures Good(State(rows, 0, map[]))
  {
    forall r | r in rows ensures 0 < r.seqNo {}
  }

  // ---- the store and the carrier ----

  class ArtifactStore {
    const stamped: bool
    var rows: seq<Row>

    ghost predicate Valid()
      reads this
    {
      RowsGood(rows)
    }

    constructor (stamped: bool)
      ensures Valid() && rows == [] && this.stamped == stamped
    {
      this.stamped := stamped;
      rows := [];
    }

    method GetArtifact(id: Label) returns (r: Option<Row>)
      ensures r.Some? ==> r.value in rows && r.value.id == id
      ensures r.None? ==> forall q :: q in rows ==> q.id != id
    {
      for i := 0 to |rows|
        invariant forall k :: 0 <= k < i ==> rows[k].id != id
      {
        if rows[i].id == id {
          return Some(rows[i]);
        }
      }
      return None;
    }

    method PutArtifact(id: Label, carried: bool, leaf: Option<Leaf>)
      requires Valid() && (leaf.Some? ==> leaf.value.id == id) && forall q :: q in rows ==> q.id != id
      modifies this`rows
      ensures Valid() && |rows| == |old(rows)| + 1 && rows[..|old(rows)|] == old(rows)
      ensures var r := rows[|old(rows)|]; r.id == id && r.carried == carried && r.leaf == leaf && Top(old(rows)) < r.seqNo
    {
      var stamp: nat :| stamp > Top(rows);
      AppendedGood(rows, Row(stamp, id, carried, leaf));
      rows := rows + [Row(stamp, id, carried, leaf)];
    }

    /** The carrier's rows, in some order. */
    method ListArtifacts() returns (docs: seq<Row>)
      requires Valid()
      ensures NoRepeats(docs) && forall r :: r in docs <==> r in rows && r.carried
    {
      docs := Past(rows, 0);
      PastOrdered(rows, 0);
    }

    /** A page of any size past a sequence number; a store that stamps nothing returns what it likes. */
    method PageByCt(after: nat) returns (page: seq<PageRow>)
      requires Valid()
      ensures stamped ==> PrefixPage(Past(rows, after), page)
      ensures !stamped ==> forall p :: p in page ==> p.stamp.None? && (p.leaf.Some? ==> p.leaf.value in LeavesOf(rows))
    {
      var past := Past(rows, if stamped then after else 0);
      if past == [] {
        return [];
      }
      var n :| 0 < n <= |past|;
      if stamped {
        page := StampedAll(past[..n]);
      } else {
        page := seq(n, i requires 0 <= i < n <= |past| => PageRow(None, past[i].leaf));
        forall p | p in page && p.leaf.Some? ensures p.leaf.value in LeavesOf(rows) {
          var i :| 0 <= i < n && page[i] == p;
          assert past[i] in past;
        }
      }
    }
  }

  class StoreCarrier {
    const arts: ArtifactStore
    const bounded: bool
    var cursor: nat
    var index: map<Label, Leaf>

    ghost predicate Valid()
      reads this, arts
    {
      arts.Valid() && Sound(arts.rows, index) && (arts.stamped ==> Folded(arts.rows, cursor, index))
    }

    constructor (arts: ArtifactStore, pageable: bool)
      requires arts.Valid()
      ensures Valid() && this.arts == arts && bounded == pageable && cursor == 0 && index == map[]
    {
      this.arts := arts;
      bounded := pageable;
      cursor := 0;
      index := map[];
      new;
      StartIsGood(arts.rows);
    }

    method Put(leaf: Leaf)
      requires Valid()
      modifies arts`rows
      ensures Valid()
      ensures (exists q :: q in old(arts.rows) && q.id == leaf.id) ==> arts.rows == old(arts.rows)
      ensures (forall q :: q in old(arts.rows) ==> q.id != leaf.id) ==>
                |arts.rows| == |old(arts.rows)| + 1 && arts.rows[..|old(arts.rows)|] == old(arts.rows)
                && var r := arts.rows[|old(arts.rows)|]; r.id == leaf.id && r.carried && r.leaf == Some(leaf)
    {
      var found := arts.GetArtifact(leaf.id);
      if found.None? {
        ghost var before := arts.rows;
        arts.PutArtifact(leaf.id, true, Some(leaf));
        GrowthKeepsValid(before);
      }
    }

    /** A write by anyone keeps every carrier over the store valid. */
    lemma GrowthKeepsValid(before: seq<Row>)
      requires arts.Valid() && |arts.rows| == |before| + 1 && arts.rows[..|before|] == before
      requires Top(before) < arts.rows[|before|].seqNo
      requires Sound(before, index) && (arts.stamped ==> Folded(before, cursor, index))
      ensures Valid()
    {
      var r := arts.rows[|before|];
      assert arts.rows == before + [r];
      GrowthKeepsSound(before, r, index);
      hide Folded, RowsGood, Sound, Top;
      if arts.stamped { GrowthKeepsFolded(before, r, cursor, index); }
    }

    /** Every leaf on the plane, ordered, on every call; over a store that stamps nothing, a poll still ends. */
    method Poll() returns (leaves: seq<Leaf>)
      requires Valid()
      modifies this`cursor, this`index
      ensures Valid()
      ensures !bounded || arts.stamped ==> leaves == FullRead(arts.rows)
      ensures !bounded || arts.stamped ==>
                forall l :: l in leaves <==> exists r :: r in arts.rows && r.carried && r.leaf == Some(l)
      ensures NoRepeats(leaves)
      ensures forall i, j :: 0 <= i < j < |leaves| ==>
                Less(leaves[i].hlc, leaves[j].hlc) || (leaves[i].hlc == leaves[j].hlc && Leq(leaves[i].id, leaves[j].id))
      ensures bounded ==> forall l :: l in leaves <==> l in index.Values
      ensures bounded ==> old(index.Keys) <= index.Keys
      ensures !bounded ==> index == old(index) && cursor == old(cursor)
    {
      if !bounded {
        var docs := arts.ListArtifacts();
        leaves := Leaves(docs);
        hide FullRead, RowsGood;
        ListingSorts(arts.rows, leaves);
        FullReadHolds(arts.rows);
        SortLeaves(leaves);
        leaves := Sort(LeafLeq, leaves);
        return;
      }
      ReadPages();
      forall j, k | j in index && k in index && j != k ensures index[j] != index[k] { DistinctValues(arts.rows, index, j, k); }
      leaves := Listing(index);
      assert arts.stamped ==> Sort(LeafLeq, leaves) == FullRead(arts.rows) by {
        if arts.stamped {
          NothingPast(arts.rows, cursor, index);
          ListingSorts(arts.rows, leaves);
        }
      }
      SortLeaves(leaves);
      FullReadHolds(arts.rows);
      leaves := Sort(LeafLeq, leaves);
    }

    method Leaves(docs: seq<Row>) returns (leaves: seq<Leaf>)
      requires arts.Valid() && NoRepeats(docs) && forall r :: r in docs <==> r in arts.rows && r.carried
      ensures NoRepeats(leaves) && forall l :: l in leaves <==> l in LeavesOf(arts.rows)
    {
      leaves := [];
      for i := 0 to |docs|
        invariant NoRepeats(leaves)
        invariant forall l :: l in leaves <==> exists k :: 0 <= k < i && docs[k].leaf == Some(l)
      {
        if docs[i].leaf.Some? {
          assert docs[i].leaf.value !in leaves by {
            if docs[i].leaf.value in leaves {
              var k :| 0 <= k < i && docs[k].leaf == docs[i].leaf;
              assert docs[k] in docs && docs[i] in docs;
              SameLeafSameRow(arts.rows, docs[k], docs[i]);
            }
          }
          leaves := leaves + [docs[i].leaf.value];
        }
      }
    }

    /** The page loop: fold what the store has gained. */
    method ReadPages()
      requires Valid()
      modifies this`cursor, this`index
      ensures Valid() && old(index.Keys) <= index.Keys && old(cursor) <= cursor
      ensures arts.stamped ==> Past(arts.rows, cursor) == []
    {
      while true
        invariant Valid() && old(index.Keys) <= index.Keys && old(cursor) <= cursor
        invariant !arts.stamped ==> cursor == old(cursor)
        decreases Top(arts.rows) - cursor
      {
        var page := arts.PageByCt(cursor);
        if page == [] {
          break;
        }
        var start := cursor;
        FoldRows(page, start);
        if cursor <= start {
          break;
        }
      }
    }

    method FoldRows(page: seq<PageRow>, start: nat)
      requires Valid() && start == cursor
      requires arts.stamped ==> PrefixPage(Past(arts.rows, start), page)
      requires !arts.stamped ==> forall p :: p in page ==> p.stamp.None? && (p.leaf.Some? ==> p.leaf.value in LeavesOf(arts.rows))
      modifies this`cursor, this`index
      ensures Valid() && old(index.Keys) <= index.Keys
      ensures !arts.stamped ==> cursor == start
      ensures arts.stamped ==> cursor == CursorAfter(start, Past(arts.rows, start), |page|)
      ensures arts.stamped ==> start <= cursor && (page != [] ==> start < cursor)
    {
      hide Folded, RowsGood, Sound, Past, LeavesOf;
      ghost var past := Past(arts.rows, start);
      for i := 0 to |page|
        invariant Valid() && old(index.Keys) <= index.Keys && start <= cursor
        invariant arts.stamped ==> i <= |past| && cursor == CursorAfter(start, past, i) && (i > 0 ==> start < cursor)
        invariant !arts.stamped ==> cursor == start
      {
        var row := page[i];
        assert row in page;
        ghost var before := index;
        if arts.stamped {
          assert i < |past| && row == Stamped(past[i]);
          FoldRow(arts.rows, start, i, cursor, index);
        } else {
          FoldKeepsSound(arts.rows, index, row.leaf);
        }
        if row.leaf.Some? {
          index := index[row.leaf.value.id := row.leaf.value];
        }
        assert index == FoldedIn(before, row.leaf);
        assert arts.stamped ==> Sound(arts.rows, index) by { if arts.stamped { FoldedSound(arts.rows, past[i].seqNo, index); } }
        if row.stamp.Some? && row.stamp.value > cursor {
          cursor := row.stamp.value;
        }
      }
    }

    method Ids() returns (ids: set<Label>)
      requires Valid()
      ensures forall id :: id in ids <==> exists l :: l in LeavesOf(arts.rows) && l.id == id
    {
      var docs := arts.ListArtifacts();
      var leaves := Leaves(docs);
      ids := set l | l in leaves :: l.id;
    }

    method Get(id: Label) returns (leaf: Option<Leaf>)
      requires Valid()
      ensures leaf.Some? ==> leaf.value in LeavesOf(arts.rows) && leaf.value.id == id
      ensures leaf.None? ==> forall l :: l in LeavesOf(arts.rows) ==> l.id != id
    {
      var doc := arts.GetArtifact(id);
      if doc.None? || !doc.value.carried {
        OnlyItsRow(arts.rows, id, doc);
        return None;
      }
      OnlyItsRow(arts.rows, id, doc);
      leaf := doc.value.leaf;
    }
  }

  lemma FoldedSound(rows: seq<Row>, cursor: nat, index: map<Label, Leaf>)
    requires Folded(rows, cursor, index)
    ensures Sound(rows, index)
  {}

  lemma DistinctValues(rows: seq<Row>, index: map<Label, Leaf>, j: Label, k: Label)
    requires Sound(rows, index) && j in index && k in index && j != k
    ensures index[j] != index[k]
  {}

  lemma GrowthKeepsSound(rows: seq<Row>, r: Row, index: map<Label, Leaf>)
    requires Sound(rows, index)
    ensures Sound(rows + [r], index)
  {
    forall k | k in index ensures index[k] in LeavesOf(rows + [r]) {
      var q :| q in rows && q.carried && q.leaf == Some(index[k]);
      assert q in rows + [r];
    }
  }

  lemma SameLeafSameRow(rows: seq<Row>, q: Row, r: Row)
    requires RowsGood(rows) && q in rows && r in rows && q.leaf.Some? && q.leaf == r.leaf
    ensures q == r
  {
    LeafUnderOwnId(rows, q);
    LeafUnderOwnId(rows, r);
    if q != r { UniqueRow(rows, q, r); }
  }

  lemma OnlyItsRow(rows: seq<Row>, id: Label, doc: Option<Row>)
    requires RowsGood(rows)
    requires doc.Some? ==> doc.value in rows && doc.value.id == id
    requires doc.None? ==> forall q :: q in rows ==> q.id != id
    ensures forall l :: l in LeavesOf(rows) && l.id == id ==> doc.Some? && doc.value.carried && doc.value.leaf == Some(l)
    ensures doc.Some? && doc.value.leaf.Some? ==> doc.value.leaf.value.id == id
  {
    if doc.Some? && doc.value.leaf.Some? { LeafUnderOwnId(rows, doc.value); }
    forall l | l in LeavesOf(rows) && l.id == id ensures doc.Some? && doc.value.carried && doc.value.leaf == Some(l) {
      var r :| r in rows && r.carried && r.leaf == Some(l);
      LeafUnderOwnId(rows, r);
      if doc.Some? && doc.value != r { UniqueRow(rows, doc.value, r); }
    }
  }
}
