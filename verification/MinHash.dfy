/** Near-duplicate grouping of `minhash.py`: LSH buckets over band digests, verification of every
    bucket's first member against the others, and union-find over the verified pairs. */
module MinHash {
  import opened Outcomes
  import opened Text
  import opened UnionFind

  /** Signature values fit the eight bytes that `_band_bytes` writes for each. */
  type Word = x: int | 0 <= x < 0x1_0000_0000_0000_0000

  type Signature = seq<Word>

  /** The bucket digest: any function of a band's bytes. */
  type Digest = Bytes -> Bytes

  datatype Error = DivisionByZero

  type Result<+T> = Outcome<T, Error>

  // ---- signatures ----

  predicate IsDegenerate(sig: Signature) {
    forall i :: 0 <= i < |sig| ==> sig[i] == 0
  }

  /** The number of positions at which two signatures agree. */
  function Matches(s: Signature, t: Signature): (m: nat)
    requires |s| == |t|
    ensures m <= |s|
  {
    if s == [] then 0 else (if s[0] == t[0] then 1 else 0) + Matches(s[1..], t[1..])
  }

  function EstimatedJaccard(s: Signature, t: Signature): real {
    if IsDegenerate(s) || IsDegenerate(t) || |s| != |t| then 0.0
    else Matches(s, t) as real / |s| as real
  }

  function MergeBoundary(numHashes: nat): real {
    var k := if numHashes == 0 then 1 else numHashes;
    1.0 - 1.0 / (k as real + 1.0)
  }

  /** An estimate's one-sigma band reaches 1 exactly from the merge boundary upwards: with
      se(j)^2 = j(1 - j)/k, the distance 1 - j is within se(j) if and only if j is at or above it. */
  lemma BoundaryIsResolution(k: nat, j: real)
    requires k > 0 && 0.0 <= j <= 1.0
    ensures (1.0 - j) * (1.0 - j) <= j * (1.0 - j) / k as real <==> j >= MergeBoundary(k)
  {
    var r := k as real;
    assert 1.0 / (r + 1.0) > 0.0;
    if j < 1.0 {
      BoundaryOfRatio(r, j, MergeBoundary(k), j * (1.0 - j) / r);
    } else {
      var z := 1.0 - j;
      assert z == 0.0 && z * z == 0.0 && j * z == 0.0 && 0.0 / r == 0.0;
    }
  }

  lemma BoundaryOfRatio(r: real, j: real, b: real, q: real)
    requires r > 0.0 && 0.0 <= j < 1.0 && (r + 1.0) * b == r && r * q == j * (1.0 - j)
    ensures (1.0 - j) * (1.0 - j) <= q <==> j >= b
  {
    var d := 1.0 - j;
    DivideOut(r, d * d, q);
    ShuffleProduct(r, d);
    assert d * d <= q <==> d * (r * d) <= d * j;
    DivideOut(d, r * d, j);
    assert d * d <= q <==> r - r * j <= j;
    assert (r + 1.0) * j == r * j + j;
    DivideOut(r + 1.0, b, j);
  }

  lemma ShuffleProduct(r: real, d: real)
    ensures r * (d * d) == d * (r * d)
  {}

  lemma DivideOut(c: real, x: real, y: real)
    requires c > 0.0
    ensures c * x <= c * y <==> x <= y
  {}

  lemma {:induction false} AllMatch(s: Signature, t: Signature)
    requires |s| == |t|
    ensures Matches(s, t) == |s| <==> s == t
  {
    if s != [] {
      AllMatch(s[1..], t[1..]);
      assert s == [s[0]] + s[1..] && t == [t[0]] + t[1..];
    }
  }

  /** The estimate is the share of positions that agree, and nothing without a measurement on both sides:
      signatures that are empty, all zero or of different lengths score zero. */
  lemma EstimateIsShare(s: Signature, t: Signature)
    ensures EstimatedJaccard(s, t) ==
            if |s| == |t| && (exists i :: 0 <= i < |s| && s[i] != 0) && (exists i :: 0 <= i < |t| && t[i] != 0)
            then |Agreements(s, t)| as real / |s| as real else 0.0
  {
    if |s| == |t| { MatchesAreAgreements(s, t); }
    hide Matches;
  }

  /** The positions at which two signatures agree. */
  ghost function Agreements(s: Signature, t: Signature): set<nat> {
    set i: nat | i < |s| && i < |t| && s[i] == t[i]
  }

  lemma AgreesAt(s: Signature, t: Signature, i: nat)
    ensures i in Agreements(s, t) <==> i < |s| && i < |t| && s[i] == t[i]
  {}

  lemma FirstAndRest(s: Signature, t: Signature)
    requires |s| == |t| > 0
    ensures Agreements(s, t) == Shifted(Agreements(s[1..], t[1..])) + if s[0] == t[0] then {0} else {}
  {
    hide Agreements, Shifted;
    forall i: nat
      ensures i in Agreements(s, t) <==> i in Shifted(Agreements(s[1..], t[1..])) + if s[0] == t[0] then {0} else {}
    {
      AgreesAt(s, t, i);
      ShiftedIs(Agreements(s[1..], t[1..]), i);
      if i > 0 { AgreesAt(s[1..], t[1..], i - 1); }
    }
  }

  lemma {:induction false} MatchesAreAgreements(s: Signature, t: Signature)
    requires |s| == |t|
    ensures Matches(s, t) == |Agreements(s, t)|
  {
    if s != [] {
      FirstAndRest(s, t);
      hide Agreements, Shifted;
      MatchesAreAgreements(s[1..], t[1..]);
      ShiftSize(Agreements(s[1..], t[1..]));
    } else {
      assert Agreements(s, t) == {};
    }
  }

  ghost function Shifted(xs: set<nat>): set<nat> {
    set i | i in xs :: i + 1
  }

  lemma {:induction false} ShiftSize(xs: set<nat>)
    ensures |Shifted(xs)| == |xs| && 0 !in Shifted(xs)
    decreases |xs|
  {
    if xs == {} {
      assert Shifted(xs) == {};
    } else {
      var x :| x in xs;
      ShiftSize(xs - {x});
      forall i: nat ensures i in Shifted(xs) <==> i in Shifted(xs - {x}) + {x + 1} {
        ShiftedIs(xs, i);
        ShiftedIs(xs - {x}, i);
      }
      ShiftedIs(xs - {x}, x + 1);
      assert Shifted(xs) == Shifted(xs - {x}) + {x + 1};
    }
  }

  lemma ShiftedIs(xs: set<nat>, i: nat)
    ensures i in Shifted(xs) <==> i > 0 && i - 1 in xs
  {
    if i > 0 && i - 1 in xs { assert (i - 1) + 1 in Shifted(xs); }
  }

  // ---- buckets ----

  function BandBytes(chunk: Signature): Bytes {
    if chunk == [] then [] else BigEndian(chunk[0], 8) + BandBytes(chunk[1..])
  }

  /** The fixed width makes the bytes of a band determine its values. */
  lemma {:induction false} BandBytesInjective(s: Signature, t: Signature)
    requires BandBytes(s) == BandBytes(t)
    ensures s == t
  {
    if s != [] && t != [] {
      var a, b := BandBytes(s), BandBytes(t);
      assert a[..8] == BigEndian(s[0], 8) && b[..8] == BigEndian(t[0], 8);
      assert a[8..] == BandBytes(s[1..]) && b[8..] == BandBytes(t[1..]);
      assert Pow256(8) == 0x1_0000_0000_0000_0000 by {
        assert Pow256(4) == 0x1_0000_0000 by { assert Pow256(2) == 0x10000; }
        assert Pow256(6) == 0x1_0000_0000_0000;
      }
      BigEndianValue(s[0], 8);
      BigEndianValue(t[0], 8);
      BandBytesInjective(s[1..], t[1..]);
      assert s == [s[0]] + s[1..] && t == [t[0]] + t[1..];
    }
  }

  function Clamp(i: nat, n: nat): (c: nat)
    ensures c <= n
  {
    if i <= n then i else n
  }

  /** `sig[band * rows:(band + 1) * rows]`. */
  function Chunk(sig: Signature, rows: nat, band: nat): Signature {
    var from, to := Clamp(band * rows, |sig|), Clamp((band + 1) * rows, |sig|);
    if from <= to then sig[from..to] else []
  }

  /** Band r holds the values r * rows, ..., r * rows + rows - 1 of the signature, as far as it goes. */
  lemma ChunkIs(sig: Signature, rows: nat, band: nat)
    ensures var chunk := Chunk(sig, rows, band);
            && |chunk| <= rows
            && (forall i :: 0 <= i < |chunk| ==> band * rows + i < |sig| && chunk[i] == sig[band * rows + i])
            && (|chunk| < rows ==> |chunk| == 0 || band * rows + |chunk| == |sig|)
            && (|chunk| == 0 && rows > 0 ==> |sig| <= band * rows)
  {
    assert (band + 1) * rows == band * rows + rows;
  }

  datatype Key = Key(band: nat, digest: Bytes)

  /** How buckets are keyed: the rows of a band, the number of bands, and the digest. */
  datatype Banding = Banding(rows: nat, bands: int, digest: Digest)

  function KeyOf(b: Banding, sig: Signature, band: nat): Key {
    Key(band, b.digest(BandBytes(Chunk(sig, b.rows, band))))
  }

  predicate InBucket(b: Banding, sigs: seq<Signature>, key: Key, i: nat) {
    && i < |sigs| && !IsDegenerate(sigs[i])
    && key.band < b.bands && KeyOf(b, sigs[i], key.band) == key
  }

  /** The first member of a bucket, against another of its members. */
  predicate Candidates(b: Banding, sigs: seq<Signature>, key: Key, first: nat, other: nat) {
    && first < other && InBucket(b, sigs, key, first) && InBucket(b, sigs, key, other)
    && forall c: nat :: c < first ==> !InBucket(b, sigs, key, c)
  }

  ghost predicate Merged(b: Banding, sigs: seq<Signature>, threshold: real, first: nat, other: nat) {
    && first < |sigs| && other < |sigs|
    && EstimatedJaccard(sigs[first], sigs[other]) >= threshold
    && exists key :: Candidates(b, sigs, key, first, other)
  }

  /** A verified pair, in plain terms: both hold some value other than zero, some band puts them into one
      bucket, the first of the pair is the first in that bucket, and they agree on enough of their values. */
  lemma MergedIff(b: Banding, sigs: seq<Signature>, threshold: real, first: nat, other: nat)
    requires first < |sigs| && other < |sigs|
    ensures Merged(b, sigs, threshold, first, other) <==>
            && EstimatedJaccard(sigs[first], sigs[other]) >= threshold
            && exists band: nat, bytes: Bytes ::
                 && band < b.bands && first < other
                 && Holds(b, sigs, band, bytes, first) && Holds(b, sigs, band, bytes, other)
                 && forall c: nat :: c < first ==> !Holds(b, sigs, band, bytes, c)
  {
    if key :| Candidates(b, sigs, key, first, other) {
      forall c: nat | c < |sigs| ensures InBucket(b, sigs, key, c) <==> Holds(b, sigs, key.band, key.digest, c) {}
    }
    if band: nat, bytes: Bytes :|
      && band < b.bands && first < other
      && Holds(b, sigs, band, bytes, first) && Holds(b, sigs, band, bytes, other)
      && forall c: nat :: c < first ==> !Holds(b, sigs, band, bytes, c)
    {
      var key := Key(band, bytes);
      forall c: nat | c < |sigs| ensures InBucket(b, sigs, key, c) <==> Holds(b, sigs, band, bytes, c) {}
      assert Candidates(b, sigs, key, first, other);
    }
  }

  /** The band of signature i digests to these bytes, and the signature is a measurement. */
  predicate Holds(b: Banding, sigs: seq<Signature>, band: nat, bytes: Bytes, i: nat) {
    && i < |sigs| && (exists k :: 0 <= k < |sigs[i]| && sigs[i][k] != 0)
    && b.digest(BandBytes(Chunk(sigs[i], b.rows, band))) == bytes
  }

  /** The verified candidate pairs. */
  ghost function MergeEdges(b: Banding, sigs: seq<Signature>, threshold: real): Edges {
    set i, j | 0 <= i < |sigs| && 0 <= j < |sigs| && Merged(b, sigs, threshold, i, j) :: (i, j)
  }

  predicate Ascending(s: seq<nat>) {
    forall i, j :: 0 <= i < j < |s| ==> s[i] < s[j]
  }

  /** The buckets, in the order their keys were first met. */
  datatype Buckets = Buckets(order: seq<Key>, members: map<Key, seq<nat>>)

  /** Before index `i`, and before band `band` of index i, has been placed. */
  predicate Placed(i: nat, band: nat, idx: nat, key: Key) {
    idx < i || (idx == i && key.band < band)
  }

  ghost predicate BucketsUpTo(b: Banding, sigs: seq<Signature>, t: Buckets, i: nat, band: nat) {
    && (forall key :: key in t.order <==> key in t.members)
    && (forall k, l :: 0 <= k < l < |t.order| ==> t.order[k] != t.order[l])
    && (forall key :: key in t.members ==> t.members[key] != [] && Ascending(t.members[key]))
    && (forall key, idx :: key in t.members && idx in t.members[key] ==> InBucket(b, sigs, key, idx) && Placed(i, band, idx, key))
    && (forall key, idx :: InBucket(b, sigs, key, idx) && Placed(i, band, idx, key) ==> key in t.members && idx in t.members[key])
  }

  lemma AscendingAppend(s: seq<nat>, x: nat)
    requires Ascending(s) && forall y :: y in s ==> y < x
    ensures Ascending(s + [x])
  {
    assert forall i :: 0 <= i < |s| ==> s[i] in s;
  }

  /** `buckets.setdefault(key, []).append(idx)`. */
  function Append(t: Buckets, key: Key, idx: nat): Buckets {
    if key in t.members then t.(members := t.members[key := t.members[key] + [idx]])
    else Buckets(t.order + [key], t.members[key := [idx]])
  }

  lemma AppendKeepsBuckets(b: Banding, sigs: seq<Signature>, t: Buckets, i: nat, band: nat)
    requires BucketsUpTo(b, sigs, t, i, band) && i < |sigs| && !IsDegenerate(sigs[i]) && band < b.bands
    ensures BucketsUpTo(b, sigs, Append(t, KeyOf(b, sigs[i], band), i), i, band + 1)
  {
    var key := KeyOf(b, sigs[i], band);
    var t' := Append(t, key, i);
    assert key.band == band;
    hide KeyOf, IsDegenerate;
    if key in t.members {
      forall y | y in t.members[key] ensures y < i {}
      AscendingAppend(t.members[key], i);
    } else {
      SingletonAscending(i);
    }
    forall key' | key' in t'.members ensures t'.members[key'] != [] && Ascending(t'.members[key']) {
      if key' != key { assert key' in t.members && t'.members[key'] == t.members[key']; }
    }
    forall key', idx | key' in t'.members && idx in t'.members[key']
      ensures InBucket(b, sigs, key', idx) && Placed(i, band + 1, idx, key')
    {
      if !(key' == key && idx == i) { assert key' in t.members && idx in t.members[key']; }
    }
    forall key', idx | InBucket(b, sigs, key', idx) && Placed(i, band + 1, idx, key')
      ensures key' in t'.members && idx in t'.members[key']
    {
      if !Placed(i, band, idx, key') {
        assert idx == i && key' == key;
      }
    }
  }

  lemma SingletonAscending(x: nat)
    ensures Ascending([x])
  {}

  /** The bucket loops. */
  method FillBuckets(b: Banding, sigs: seq<Signature>) returns (t: Buckets)
    ensures BucketsUpTo(b, sigs, t, |sigs|, 0)
  {
    t := Buckets([], map[]);
    for i := 0 to |sigs|
      invariant BucketsUpTo(b, sigs, t, i, 0)
    {
      hide BucketsUpTo, Append;
      if IsDegenerate(sigs[i]) || b.bands <= 0 {
        SkipIndex(b, sigs, t, i);
      } else {
        for band := 0 to b.bands
          invariant BucketsUpTo(b, sigs, t, i, band)
        {
          AppendKeepsBuckets(b, sigs, t, i, band);
          t := Append(t, KeyOf(b, sigs[i], band), i);
        }
        NextIndex(b, sigs, t, i);
      }
    }
  }

  lemma SkipIndex(b: Banding, sigs: seq<Signature>, t: Buckets, i: nat)
    requires BucketsUpTo(b, sigs, t, i, 0) && i < |sigs| && (IsDegenerate(sigs[i]) || b.bands <= 0)
    ensures BucketsUpTo(b, sigs, t, i + 1, 0)
  {
    hide IsDegenerate, KeyOf, Ascending;
  }

  lemma NextIndex(b: Banding, sigs: seq<Signature>, t: Buckets, i: nat)
    requires b.bands > 0 && BucketsUpTo(b, sigs, t, i, b.bands)
    ensures BucketsUpTo(b, sigs, t, i + 1, 0)
  {
    hide IsDegenerate, KeyOf, Ascending;
  }

  // ---- verification and union ----

  /** The verified pairs among the first k members of a bucket. */
  ghost predicate Verified(sigs: seq<Signature>, threshold: real, edges: Edges, members: seq<nat>, k: int)
    requires members != [] && forall m :: 0 <= m < |members| ==> members[m] < |sigs|
  {
    forall m :: 1 <= m < k && m < |members| && EstimatedJaccard(sigs[members[0]], sigs[members[m]]) >= threshold
                ==> (members[0], members[m]) in edges
  }

  /** The loop over one bucket: its first member against every other. */
  method JoinBucket(b: Banding, sigs: seq<Signature>, threshold: real, key: Key, members: seq<nat>,
                    parent: array<nat>, ghost depth0: seq<nat>, ghost edges0: Edges)
    returns (ghost depth: seq<nat>, ghost edges: Edges)
    requires parent.Length == |sigs| && members != [] && Ascending(members)
    requires forall m :: m in members <==> InBucket(b, sigs, key, m)
    requires Represents(parent[..], depth0, edges0) && edges0 <= MergeEdges(b, sigs, threshold)
    modifies parent
    ensures Represents(parent[..], depth, edges) && edges0 <= edges <= MergeEdges(b, sigs, threshold)
    ensures forall m :: 0 <= m < |members| ==> members[m] < |sigs|
    ensures Verified(sigs, threshold, edges, members, |members|)
  {
    depth, edges := depth0, edges0;
    MembersInRange(b, sigs, key, members);
    hide InBucket, Connected, Root, EstimatedJaccard, Verified, MergeEdges;
    VerifiedNone(sigs, threshold, edges, members);
    var base := members[0];
    for k := 1 to |members|
      invariant Represents(parent[..], depth, edges)
      invariant edges0 <= edges <= MergeEdges(b, sigs, threshold)
      invariant Verified(sigs, threshold, edges, members, k)
    {
      var other := members[k];
      VerifiedPairIsEdge(b, sigs, threshold, key, members, k);
      var joined := FindBoth(parent, base, other, depth, edges);
      ghost var verified := EstimatedJaccard(sigs[base], sigs[other]) >= threshold;
      ghost var edges' := if verified then edges + {(base, other)} else edges;
      VerifiedOneMore(sigs, threshold, edges, members, k);
      if joined {
        if verified { RedundantEdge(parent[..], depth, edges, base, other); }
      } else if EstimatedJaccard(sigs[base], sigs[other]) >= threshold {
        depth := Unite(parent, base, other, depth, edges);
      }
      edges := edges';
    }
  }

  /** `find(base) == find(other)`. */
  method FindBoth(parent: array<nat>, u: nat, v: nat, ghost depth: seq<nat>, ghost edges: Edges) returns (joined: bool)
    requires Represents(parent[..], depth, edges) && u < parent.Length && v < parent.Length
    modifies parent
    ensures Represents(parent[..], depth, edges)
    ensures joined <==> Root(parent[..], depth, u) == Root(parent[..], depth, v)
  {
    hide Connected, Root;
    ghost var before := parent[..];
    var ru := Find(parent, u, depth);
    SameComponentsRepresent(before, parent[..], depth, edges);
    ghost var between := parent[..];
    var rv := Find(parent, v, depth);
    SameComponentsRepresent(between, parent[..], depth, edges);
    joined := ru == rv;
  }

  /** `parent[find(base)] = find(other)`, for two different trees. */
  method Unite(parent: array<nat>, u: nat, v: nat, ghost depth0: seq<nat>, ghost edges: Edges) returns (ghost depth: seq<nat>)
    requires Represents(parent[..], depth0, edges) && u < parent.Length && v < parent.Length
    requires Root(parent[..], depth0, u) != Root(parent[..], depth0, v)
    modifies parent
    ensures Represents(parent[..], depth, edges + {(u, v)})
  {
    hide Connected;
    ghost var before := parent[..];
    var rv := Find(parent, v, depth0);
    SameComponentsRepresent(before, parent[..], depth0, edges);
    ghost var between := parent[..];
    var ru := Find(parent, u, depth0);
    SameComponentsRepresent(between, parent[..], depth0, edges);
    ghost var last := parent[..];
    assert ru == Root(last, depth0, u) && rv == Root(last, depth0, v);
    UnionRepresents(last, depth0, edges, u, v);
    depth := Deepened(last, depth0, ru, rv);
    parent[ru] := rv;
    assert parent[..] == last[ru := rv];
  }

  lemma MembersInRange(b: Banding, sigs: seq<Signature>, key: Key, members: seq<nat>)
    requires forall m :: m in members <==> InBucket(b, sigs, key, m)
    ensures forall m :: 0 <= m < |members| ==> members[m] < |sigs|
  {
    hide KeyOf, IsDegenerate;
    forall m | 0 <= m < |members| ensures members[m] < |sigs| { assert members[m] in members; }
  }

  lemma VerifiedNone(sigs: seq<Signature>, threshold: real, edges: Edges, members: seq<nat>)
    requires members != [] && forall m :: 0 <= m < |members| ==> members[m] < |sigs|
    ensures Verified(sigs, threshold, edges, members, 1)
  {}

  lemma VerifiedOneMore(sigs: seq<Signature>, threshold: real, edges: Edges, members: seq<nat>, k: nat)
    requires k < |members| && forall m :: 0 <= m < |members| ==> members[m] < |sigs|
    requires Verified(sigs, threshold, edges, members, k)
    ensures var verified := EstimatedJaccard(sigs[members[0]], sigs[members[k]]) >= threshold;
            Verified(sigs, threshold, if verified then edges + {(members[0], members[k])} else edges, members, k + 1)
  {
    hide EstimatedJaccard;
  }

  lemma VerifiedPairIsEdge(b: Banding, sigs: seq<Signature>, threshold: real, key: Key, members: seq<nat>, k: nat)
    requires 1 <= k < |members| && Ascending(members)
    requires forall m :: m in members <==> InBucket(b, sigs, key, m)
    requires members[0] < |sigs| && members[k] < |sigs|
    ensures EstimatedJaccard(sigs[members[0]], sigs[members[k]]) >= threshold ==>
              (members[0], members[k]) in MergeEdges(b, sigs, threshold)
  {
    FirstIsCandidate(b, sigs, key, members, k);
    hide EstimatedJaccard, Candidates, InBucket;
  }

  lemma FirstIsCandidate(b: Banding, sigs: seq<Signature>, key: Key, members: seq<nat>, k: nat)
    requires 1 <= k < |members| && Ascending(members)
    requires forall m :: m in members <==> InBucket(b, sigs, key, m)
    ensures Candidates(b, sigs, key, members[0], members[k])
  {
    hide KeyOf, IsDegenerate;
    assert members[0] in members && members[k] in members;
    assert forall i :: 0 <= i < |members| ==> members[0] <= members[i];
    assert forall c: nat :: c < members[0] ==> c !in members;
  }

  /** The loop over all buckets, in the order their keys were met. */
  method JoinBuckets(b: Banding, sigs: seq<Signature>, threshold: real, t: Buckets, parent: array<nat>)
    returns (ghost depth: seq<nat>)
    requires BucketsUpTo(b, sigs, t, |sigs|, 0)
    requires parent.Length == |sigs| && forall x :: 0 <= x < |sigs| ==> parent[x] == x
    modifies parent
    ensures Represents(parent[..], depth, MergeEdges(b, sigs, threshold))
  {
    ghost var edges: Edges := {};
    depth := seq(|sigs|, _ => 0);
    Singletons(parent[..], depth);
    for k := 0 to |t.order|
      invariant Represents(parent[..], depth, edges) && edges <= MergeEdges(b, sigs, threshold)
      invariant forall l :: 0 <= l < k ==> BucketVerified(sigs, threshold, edges, t, t.order[l])
    {
      hide Represents, MergeEdges, Verified, InBucket, Ascending;
      var key := t.order[k];
      assert key in t.order;
      BucketMembers(b, sigs, t, key);
      var members := t.members[key];
      ghost var before := edges;
      if |members| < 2 {
        ShortBucketVerified(sigs, threshold, edges, t, key);
      } else {
        depth, edges := JoinBucket(b, sigs, threshold, key, members, parent, depth, edges);
      }
      forall l | 0 <= l < k ensures BucketVerified(sigs, threshold, edges, t, t.order[l]) {
        VerifiedMonotone(sigs, threshold, before, edges, t, t.order[l]);
      }
    }
    AllVerified(b, sigs, threshold, t, edges);
  }

  lemma Singletons(parent: seq<nat>, depth: seq<nat>)
    requires |depth| == |parent| && forall x :: 0 <= x < |parent| ==> parent[x] == x
    ensures Represents(parent, depth, {})
  {
    forall x | 0 <= x < |parent| ensures Connected({}, x, Root(parent, depth, x)) {
      ConnectedReflexive({}, x);
    }
  }

  ghost predicate BucketVerified(sigs: seq<Signature>, threshold: real, edges: Edges, t: Buckets, key: Key) {
    && key in t.members && t.members[key] != []
    && (forall m :: 0 <= m < |t.members[key]| ==> t.members[key][m] < |sigs|)
    && Verified(sigs, threshold, edges, t.members[key], |t.members[key]|)
  }

  lemma VerifiedMonotone(sigs: seq<Signature>, threshold: real, edges: Edges, more: Edges, t: Buckets, key: Key)
    requires BucketVerified(sigs, threshold, edges, t, key) && edges <= more
    ensures BucketVerified(sigs, threshold, more, t, key)
  {
    hide EstimatedJaccard;
  }

  lemma ShortBucketVerified(sigs: seq<Signature>, threshold: real, edges: Edges, t: Buckets, key: Key)
    requires key in t.members && |t.members[key]| == 1 && t.members[key][0] < |sigs|
    ensures BucketVerified(sigs, threshold, edges, t, key)
  {
    hide EstimatedJaccard;
  }

  lemma BucketMembers(b: Banding, sigs: seq<Signature>, t: Buckets, key: Key)
    requires BucketsUpTo(b, sigs, t, |sigs|, 0) && key in t.order
    ensures key in t.members && t.members[key] != [] && Ascending(t.members[key])
    ensures forall m :: m in t.members[key] <==> InBucket(b, sigs, key, m)
    ensures forall m :: 0 <= m < |t.members[key]| ==> t.members[key][m] < |sigs|
  {
    hide KeyOf, IsDegenerate, Ascending;
    forall m | InBucket(b, sigs, key, m) ensures m in t.members[key] {
      assert Placed(|sigs|, 0, m, key);
    }
    MembersInRange(b, sigs, key, t.members[key]);
  }

  /** Every verified candidate pair has been seen once every bucket has. */
  lemma AllVerified(b: Banding, sigs: seq<Signature>, threshold: real, t: Buckets, edges: Edges)
    requires BucketsUpTo(b, sigs, t, |sigs|, 0) && edges <= MergeEdges(b, sigs, threshold)
    requires forall l :: 0 <= l < |t.order| ==> BucketVerified(sigs, threshold, edges, t, t.order[l])
    ensures edges == MergeEdges(b, sigs, threshold)
  {
    hide EstimatedJaccard, KeyOf, IsDegenerate;
    forall e | e in MergeEdges(b, sigs, threshold) ensures e in edges {
      assert Merged(b, sigs, threshold, e.0, e.1);
      var key :| Candidates(b, sigs, key, e.0, e.1);
      PairVerified(b, sigs, threshold, t, edges, key, e.0, e.1);
    }
  }

  lemma PairVerified(b: Banding, sigs: seq<Signature>, threshold: real, t: Buckets, edges: Edges, key: Key, i: nat, j: nat)
    requires BucketsUpTo(b, sigs, t, |sigs|, 0)
    requires forall l :: 0 <= l < |t.order| ==> BucketVerified(sigs, threshold, edges, t, t.order[l])
    requires Candidates(b, sigs, key, i, j) && EstimatedJaccard(sigs[i], sigs[j]) >= threshold
    ensures (i, j) in edges
  {
    hide EstimatedJaccard, KeyOf, IsDegenerate;
    assert InBucket(b, sigs, key, i) && Placed(|sigs|, 0, i, key);
    assert key in t.order;
    var l :| 0 <= l < |t.order| && t.order[l] == key;
    BucketMembers(b, sigs, t, key);
    var members := t.members[key];
    assert i in members && j in members;
    var ki :| 0 <= ki < |members| && members[ki] == i;
    var kj :| 0 <= kj < |members| && members[kj] == j;
    assert members[0] in members;
    assert members[0] == i;
    assert BucketVerified(sigs, threshold, edges, t, key);
  }

  // ---- the groups ----

  /** `groups`, keyed by root, with the roots in the order they were first met. */
  datatype Groups = Groups(order: seq<nat>, lists: map<nat, seq<nat>>)

  /** A list of indices below i, all with the root r. */
  ghost predicate ListGood(roots: seq<nat>, list: seq<nat>, r: nat, i: nat) {
    list != [] && Ascending(list) && forall x :: x in list ==> x < i && x < |roots| && roots[x] == r
  }

  ghost predicate GroupsUpTo(roots: seq<nat>, t: Groups, i: nat) {
    && (forall r :: r in t.order <==> r in t.lists)
    && (forall r :: r in t.lists ==> ListGood(roots, t.lists[r], r, i))
    && (forall x :: 0 <= x < i && x < |roots| ==> roots[x] in t.lists && x in t.lists[roots[x]])
    && (forall k, l :: 0 <= k < l < |t.order| ==> FirstBefore(t, t.order[k], t.order[l]))
  }

  predicate FirstBefore(t: Groups, r: nat, q: nat) {
    r in t.lists && q in t.lists && t.lists[r] != [] && t.lists[q] != [] && t.lists[r][0] < t.lists[q][0]
  }

  /** `groups.setdefault(r, []).append(x)`. */
  function AddTo(t: Groups, r: nat, x: nat): Groups {
    if r in t.lists then t.(lists := t.lists[r := t.lists[r] + [x]])
    else Groups(t.order + [r], t.lists[r := [x]])
  }

  lemma AddKeepsGroups(roots: seq<nat>, t: Groups, i: nat)
    requires i < |roots| && GroupsUpTo(roots, t, i)
    ensures GroupsUpTo(roots, AddTo(t, roots[i], i), i + 1)
  {
    var r := roots[i];
    var t' := AddTo(t, r, i);
    if r in t.lists {
      assert ListGood(roots, t.lists[r], r, i);
      AscendingAppend(t.lists[r], i);
    } else {
      SingletonAscending(i);
    }
    forall q | q in t'.lists ensures ListGood(roots, t'.lists[q], q, i + 1) {
      if q in t.lists { assert ListGood(roots, t.lists[q], q, i); }
    }
    hide Ascending;
    forall k, l | 0 <= k < l < |t'.order| ensures FirstBefore(t', t'.order[k], t'.order[l]) {
      assert t'.order[k] == t.order[k] && t.order[k] in t.order;
      if l < |t.order| {
        assert FirstBefore(t, t.order[k], t.order[l]);
        assert t.order[l] in t.order;
      } else {
        var list := t.lists[t.order[k]];
        assert t.order[k] != r && t'.lists[t.order[k]] == list;
        assert ListGood(roots, list, t.order[k], i) && list[0] in list;
      }
    }
  }

  /** The components of the edges among 0..n that have more than one node: every group is one, every
      one is a group, and groups come in the order of their first members. */
  ghost predicate AreComponents(n: nat, edges: Edges, groups: seq<seq<nat>>) {
    && (forall g :: g in groups ==> |g| > 1 && Ascending(g) && IsComponent(n, edges, g))
    && (forall i, j :: 0 <= i < j < n && Connected(edges, i, j) ==> exists g :: g in groups && i in g && j in g)
    && (forall k, l :: 0 <= k < l < |groups| ==> groups[k] != [] && groups[l] != [] && groups[k][0] < groups[l][0])
  }

  /** The members of g are exactly the nodes connected to any one of them. */
  ghost predicate IsComponent(n: nat, edges: Edges, g: seq<nat>) {
    && (forall i :: i in g ==> i < n)
    && forall i, j :: i in g && 0 <= j < n ==> (j in g <==> Connected(edges, i, j))
  }

  method CollectGroups(parent: array<nat>, ghost depth: seq<nat>, ghost edges: Edges) returns (groups: seq<seq<nat>>)
    requires Represents(parent[..], depth, edges)
    modifies parent
    ensures AreComponents(parent.Length, edges, groups)
  {
    hide Connected, Root;
    ghost var start := parent[..];
    ghost var roots := seq(parent.Length, x requires 0 <= x < |start| => Root(start, depth, x));
    var t := Groups([], map[]);
    for i := 0 to parent.Length
      invariant Forest(parent[..], depth)
      invariant forall y :: 0 <= y < parent.Length ==> Root(parent[..], depth, y) == roots[y]
      invariant GroupsUpTo(roots, t, i)
    {
      hide GroupsUpTo, AddTo;
      AddKeepsGroups(roots, t, i);
      var r := Find(parent, i, depth);
      t := AddTo(t, r, i);
    }
    assert Represents(start, depth, edges);
    groups := [];
    ghost var kept: seq<nat> := [];
    for k := 0 to |t.order|
      invariant KeptUpTo(t, groups, kept, k)
    {
      ListOf(roots, t, k);
      hide GroupsUpTo, KeptUpTo;
      var list := t.lists[t.order[k]];
      KeepOneMore(t, groups, kept, k);
      if |list| > 1 {
        groups := groups + [list];
        kept := kept + [k];
      }
    }
    KeptAreComponents(start, depth, edges, roots, t, groups, kept);
  }

  /** groups are the lists longer than one among the first k, in order; kept are their positions. */
  ghost predicate KeptUpTo(t: Groups, groups: seq<seq<nat>>, kept: seq<nat>, k: nat) {
    && k <= |t.order| && |kept| == |groups| && Ascending(kept)
    && (forall m :: 0 <= m < |kept| ==>
          kept[m] < k && t.order[kept[m]] in t.lists && groups[m] == t.lists[t.order[kept[m]]] && |groups[m]| > 1)
    && (forall l :: 0 <= l < k && t.order[l] in t.lists && |t.lists[t.order[l]]| > 1 ==> l in kept)
  }

  lemma KeepOneMore(t: Groups, groups: seq<seq<nat>>, kept: seq<nat>, k: nat)
    requires KeptUpTo(t, groups, kept, k) && k < |t.order| && t.order[k] in t.lists
    ensures var list := t.lists[t.order[k]];
            if |list| > 1 then KeptUpTo(t, groups + [list], kept + [k], k + 1) else KeptUpTo(t, groups, kept, k + 1)
  {
    assert forall l :: 0 <= l < |kept| ==> kept[l] in kept;
    AscendingAppend(kept, k);
    hide Ascending;
  }

  lemma ListOf(roots: seq<nat>, t: Groups, k: nat)
    requires GroupsUpTo(roots, t, |roots|) && k < |t.order|
    ensures t.order[k] in t.lists
  {
    assert t.order[k] in t.order;
  }

  /** A list of equal roots is a component. */
  lemma ListIsComponent(parent: seq<nat>, depth: seq<nat>, edges: Edges, roots: seq<nat>, t: Groups, r: nat)
    requires Represents(parent, depth, edges) && GroupsUpTo(roots, t, |roots|) && r in t.lists
    requires |roots| == |parent| && forall x :: 0 <= x < |parent| ==> roots[x] == Root(parent, depth, x)
    ensures IsComponent(|parent|, edges, t.lists[r])
  {
    hide Connected, Represents, Root, Ascending;
    assert ListGood(roots, t.lists[r], r, |roots|);
    forall i, j | i in t.lists[r] && 0 <= j < |parent|
      ensures (j in t.lists[r] <==> Connected(edges, i, j))
    {
      SameRootIffConnected(parent, depth, edges, i, j);
    }
  }

  lemma KeptAreComponents(parent: seq<nat>, depth: seq<nat>, edges: Edges, roots: seq<nat>, t: Groups,
                          groups: seq<seq<nat>>, kept: seq<nat>)
    requires Represents(parent, depth, edges) && GroupsUpTo(roots, t, |roots|)
    requires |roots| == |parent| && forall x :: 0 <= x < |parent| ==> roots[x] == Root(parent, depth, x)
    requires KeptUpTo(t, groups, kept, |t.order|)
    ensures AreComponents(|parent|, edges, groups)
  {
    hide Connected, Represents, Root, Ascending, IsComponent;
    forall g | g in groups ensures |g| > 1 && Ascending(g) && IsComponent(|parent|, edges, g) {
      var m :| 0 <= m < |groups| && groups[m] == g;
      ListIsComponent(parent, depth, edges, roots, t, t.order[kept[m]]);
      assert ListGood(roots, g, t.order[kept[m]], |roots|);
    }
    forall i, j | 0 <= i < j < |parent| && Connected(edges, i, j) ensures exists g :: g in groups && i in g && j in g {
      SameRootIffConnected(parent, depth, edges, i, j);
      var r := roots[i];
      var list := t.lists[r];
      assert i in list && j in list;
      assert r in t.order;
      var l :| 0 <= l < |t.order| && t.order[l] == r;
      TwoMembers(list, i, j);
      assert l in kept;
      var m :| 0 <= m < |kept| && kept[m] == l;
      assert groups[m] == list;
    }
    forall k, l | 0 <= k < l < |groups| ensures groups[k] != [] && groups[l] != [] && groups[k][0] < groups[l][0] {
      KeptAscending(kept, k, l);
      assert FirstBefore(t, t.order[kept[k]], t.order[kept[l]]);
    }
  }

  lemma KeptAscending(kept: seq<nat>, k: nat, l: nat)
    requires Ascending(kept) && k < l < |kept|
    ensures kept[k] < kept[l]
  {}

  lemma TwoMembers(list: seq<nat>, i: nat, j: nat)
    requires i in list && j in list && i != j
    ensures |list| > 1
  {
    var a :| 0 <= a < |list| && list[a] == i;
    var b :| 0 <= b < |list| && list[b] == j;
    assert a != b;
  }

  // ---- group_signatures ----

  function ThresholdOf(threshold: Option<real>, sigs: seq<Signature>): real
    requires sigs != []
  {
    match threshold
    case Some(t) => t
    case None => MergeBoundary(if |sigs[0]| == 0 then 128 else |sigs[0]|)
  }

  function BandingOf(sigs: seq<Signature>, bands: int, digest: Digest): Banding
    requires sigs != []
  {
    Banding(if bands > 0 then |sigs[0]| / bands else 0, bands, digest)
  }

  /** What an absent threshold and the number of bands stand for: the merge boundary k/(k + 1) of signatures
      of k values, 128 when the first signature is empty, and as many rows a band as fit its length. */
  lemma DefaultsAre(sigs: seq<Signature>, bands: int, digest: Digest)
    requires sigs != []
    ensures var k := if |sigs[0]| == 0 then 128 else |sigs[0]|;
            ThresholdOf(None, sigs) * (k + 1) as real == k as real
    ensures forall t :: ThresholdOf(Some(t), sigs) == t
    ensures var b := BandingOf(sigs, bands, digest);
            && b.bands == bands && b.digest == digest
            && (bands > 0 ==> b.rows * bands <= |sigs[0]| < (b.rows + 1) * bands)
  {
    var k := if |sigs[0]| == 0 then 128 else |sigs[0]|;
    var r := k as real;
    assert (k + 1) as real == r + 1.0 && 1.0 / (r + 1.0) * (r + 1.0) == 1.0;
  }

  method GroupSignatures(sigs: seq<Signature>, threshold: Option<real>, bands: int, digest: Digest)
    returns (r: Result<seq<seq<nat>>>)
    ensures |sigs| < 2 ==> r == Ok([])
    ensures |sigs| >= 2 && bands == 0 ==> r == Err(DivisionByZero)
    ensures |sigs| >= 2 && bands != 0 ==>
              r.Ok?
              && AreComponents(|sigs|, MergeEdges(BandingOf(sigs, bands, digest), sigs, ThresholdOf(threshold, sigs)), r.value)
  {
    if |sigs| < 2 {
      return Ok([]);
    }
    if bands == 0 {
      return Err(DivisionByZero);
    }
    hide AreComponents, MergeEdges, Represents, BucketsUpTo;
    var b := BandingOf(sigs, bands, digest);
    var t := FillBuckets(b, sigs);
    var parent := new nat[|sigs|](i => i);
    ghost var depth := JoinBuckets(b, sigs, ThresholdOf(threshold, sigs), t, parent);
    var groups := CollectGroups(parent, depth, MergeEdges(b, sigs, ThresholdOf(threshold, sigs)));
    r := Ok(groups);
  }

  // ---- what the groups promise ----

  /** Two items share a group exactly when a chain of verified pairs joins them; a group holds more than one
      item, none twice, in ascending order, and groups come in the order of their first items. */
  lemma GroupedIff(n: nat, edges: Edges, groups: seq<seq<nat>>, i: nat, j: nat)
    requires AreComponents(n, edges, groups) && i < n && j < n && i != j
    ensures (exists g :: g in groups && i in g && j in g) <==> Connected(edges, i, j)
    ensures forall g, k, l :: g in groups && 0 <= k < l < |g| ==> g[k] < g[l]
    ensures forall g :: g in groups ==> |g| > 1
    ensures forall k, l :: 0 <= k < l < |groups| ==> groups[k][0] < groups[l][0]
  {
    hide Connected;
    if g :| g in groups && i in g && j in g { assert IsComponent(n, edges, g) && Connected(edges, i, j); }
    if Connected(edges, i, j) {
      if i < j {
        assert exists g :: g in groups && i in g && j in g;
      } else {
        ConnectedSymmetric(edges, i, j);
        assert exists g :: g in groups && j in g && i in g;
      }
    }
  }

  /** A degenerate signature is connected to nothing, so it is in no group. */
  lemma DegenerateUngrouped(b: Banding, sigs: seq<Signature>, threshold: real, groups: seq<seq<nat>>, g: seq<nat>, i: nat)
    requires AreComponents(|sigs|, MergeEdges(b, sigs, threshold), groups) && g in groups && i in g
    ensures i < |sigs| && !IsDegenerate(sigs[i])
  {
    hide IsDegenerate, EstimatedJaccard, KeyOf, MergeEdges;
    var edges := MergeEdges(b, sigs, threshold);
    assert IsComponent(|sigs|, edges, g);
    var j := if g[0] == i then g[1] else g[0];
    assert g[0] < g[1] && j in g && j != i && Connected(edges, i, j);
    var p :| Joins(edges, p, i, j);
    assert Linked(edges, p[0], p[1]);
    EdgeIsMerged(b, sigs, threshold, p[0], p[1]);
  }

  lemma EdgeIsMerged(b: Banding, sigs: seq<Signature>, threshold: real, i: nat, j: nat)
    requires Linked(MergeEdges(b, sigs, threshold), i, j)
    ensures i < |sigs| && j < |sigs| && !IsDegenerate(sigs[i]) && !IsDegenerate(sigs[j])
    ensures EstimatedJaccard(sigs[i], sigs[j]) >= threshold || EstimatedJaccard(sigs[j], sigs[i]) >= threshold
  {
    hide EstimatedJaccard, KeyOf, IsDegenerate;
    if (i, j) in MergeEdges(b, sigs, threshold) {
      assert Merged(b, sigs, threshold, i, j);
    } else {
      assert Merged(b, sigs, threshold, j, i);
    }
  }

  /** At the default boundary only equal signatures of the declared length pass. */
  lemma BoundaryMeansEqual(s: Signature, t: Signature)
    requires |s| == |t| > 0 && !IsDegenerate(s) && !IsDegenerate(t)
    requires EstimatedJaccard(s, t) >= MergeBoundary(|s|)
    ensures s == t
  {
    hide IsDegenerate;
    BoundaryForcesAll(Matches(s, t), |s|);
    AllMatch(s, t);
  }

  lemma BoundaryForcesAll(m: nat, k: nat)
    requires m <= k && k > 0 && m as real / k as real >= 1.0 - 1.0 / (k as real + 1.0)
    ensures m == k
  {
    var x, r := m as real, k as real;
    var q, c := x / r, 1.0 / (r + 1.0);
    assert q * r == x && c * (r + 1.0) == 1.0;
    DivideOut(r, 1.0 - c, q);
    assert r * (1.0 - c) == r - r * c && r * q == x;
    assert r * c == 1.0 - c && c > 0.0;
    assert x > r - 1.0;
  }

  lemma {:induction false} PathMeansEqual(b: Banding, sigs: seq<Signature>, length: nat, p: seq<nat>)
    requires length > 0 && forall i :: 0 <= i < |sigs| ==> |sigs[i]| == length
    requires IsPath(MergeEdges(b, sigs, MergeBoundary(length)), p) && p[0] < |sigs|
    ensures p[|p| - 1] < |sigs| && sigs[p[|p| - 1]] == sigs[p[0]]
    decreases |p|
  {
    hide EstimatedJaccard, KeyOf, MergeEdges, MergeBoundary;
    if |p| > 1 {
      var edges := MergeEdges(b, sigs, MergeBoundary(length));
      assert Linked(edges, p[0], p[1]);
      EdgeIsMerged(b, sigs, MergeBoundary(length), p[0], p[1]);
      if EstimatedJaccard(sigs[p[0]], sigs[p[1]]) >= MergeBoundary(length) {
        BoundaryMeansEqual(sigs[p[0]], sigs[p[1]]);
      } else {
        BoundaryMeansEqual(sigs[p[1]], sigs[p[0]]);
      }
      forall i | 0 <= i < |p[1..]| - 1 ensures Linked(edges, p[1..][i], p[1..][i + 1]) {
        assert Linked(edges, p[i + 1], p[i + 2]);
      }
      PathMeansEqual(b, sigs, length, p[1..]);
    }
  }

  /** With the default threshold, the members of a group have equal signatures. */
  lemma DefaultGroupsAreEqual(sigs: seq<Signature>, length: nat, bands: int, digest: Digest,
                              groups: seq<seq<nat>>, g: seq<nat>, i: nat, j: nat)
    requires |sigs| >= 2 && forall k :: 0 <= k < |sigs| ==> |sigs[k]| == length
    requires AreComponents(|sigs|, MergeEdges(BandingOf(sigs, bands, digest), sigs, ThresholdOf(None, sigs)), groups)
    requires g in groups && i in g && j in g
    ensures i < |sigs| && j < |sigs| && sigs[i] == sigs[j]
  {
    var b := BandingOf(sigs, bands, digest);
    DegenerateUngrouped(b, sigs, ThresholdOf(None, sigs), groups, g, i);
    DegenerateUngrouped(b, sigs, ThresholdOf(None, sigs), groups, g, j);
    assert length > 0;
    var edges := MergeEdges(b, sigs, MergeBoundary(length));
    hide MergeEdges, IsDegenerate, EstimatedJaccard, MergeBoundary;
    assert IsComponent(|sigs|, edges, g);
    assert Connected(edges, i, j);
    var p :| Joins(edges, p, i, j);
    PathMeansEqual(b, sigs, length, p);
  }
}
