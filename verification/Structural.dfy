/** The structural content address of `structural.py`: deterministic CBOR (RFC 8949).

    `Encode` says which bytes, or which error, every value gets.  The decoder is this project's own;
    the theorems at the end are that it undoes the encoder up to one normalisation, that no encoding
    is a proper prefix of another, and that the insertion order of a map never matters. */
module Structural {
  import opened Floats
  import opened Outcomes
  import opened Sorting
  import opened Text

  // ---- values ----

  /** What a caller may hand to the encoder; `Unsupported` stands for sets, dates and other objects. */
  datatype Value =
    | Null
    | Bool(b: bool)
    | Int(i: int)
    | Float(d: Float64)
    | Str(s: String)
    | Raw(bs: Bytes)
    | List(items: seq<Value>)
    | Tuple(items: seq<Value>)
    | Map(entries: seq<Entry>)
    | Unsupported

  /** One item of a dictionary; its entries are listed in insertion order. */
  datatype Entry = Entry(key: Value, value: Value)

  datatype Error = Unaddressable | NonFinite | BadText

  type Result<+T> = Outcome<T, Error>

  // ---- heads and numbers ----

  /** `_head` for a value that fits: the shortest of the five forms. */
  function HeadBytes(major: nat, n: nat): Bytes
    requires major < 8 && n < TWO64
  {
    if n < 24 then [32 * major + n]
    else if n < 0x100 then [32 * major + 24, n]
    else if n < 0x10000 then [32 * major + 25] + BigEndian(n, 2)
    else if n < 0x1_0000_0000 then [32 * major + 26] + BigEndian(n, 4)
    else [32 * major + 27] + BigEndian(n, 8)
  }

  function Head(major: nat, n: nat): Result<Bytes>
    requires major < 8
  {
    if n >= TWO64 then Err(Unaddressable) else Ok(HeadBytes(major, n))
  }

  function BitLength(n: nat): nat {
    if n == 0 then 0 else 1 + BitLength(n / 2)
  }

  /** `lstrip` of zero bytes. */
  function Strip(bs: Bytes): Bytes {
    if bs != [] && bs[0] == 0 then Strip(bs[1..]) else bs
  }

  /** The bignum magnitude: big-endian, no leading zero byte, never empty. */
  function Magnitude(n: nat): Bytes {
    var width := (BitLength(n) + 7) / 8;
    var raw := Strip(BigEndian(n, if width == 0 then 1 else width));
    if raw == [] then [0] else raw
  }

  function EncodeBignum(x: int): Result<Bytes> {
    var tag := if x >= 0 then 2 else 3;
    var raw := Magnitude(if x >= 0 then x else -1 - x);
    var head :- Head(2, |raw|);
    Ok([0xC0 + tag] + head + raw)
  }

  function EncodeInt(x: int): Result<Bytes> {
    if 0 <= x < TWO64 then Head(0, x)
    else if -TWO64 <= x < 0 then Head(1, -1 - x)
    else EncodeBignum(x)
  }

  function EncodeFloat(d: Float64): Result<Bytes> {
    if !Finite(d) then Err(NonFinite)
    else if Integral(d) then EncodeInt(ToInt(d))
    else Ok([0xFB] + BigEndian(Bits(d), 8))
  }

  function EncodeText(s: String): Result<Bytes> {
    if !Encodable(s) then Err(BadText)
    else
      var head :- Head(3, |Utf8(s)|);
      Ok(head + Utf8(s))
  }

  // ---- maps ----

  /** The bytes a map entry sorts by. */
  function KeyBytes(e: Entry): Bytes {
    if e.key.Str? && EncodeText(e.key.s).Ok? then EncodeText(e.key.s).value else []
  }

  /** Keys are checked and encoded in insertion order, before anything else of the map. */
  function CheckKeys(entries: seq<Entry>): Result<()> {
    if entries == [] then Ok(())
    else if !entries[0].key.Str? then Err(Unaddressable)
    else
      var _ :- EncodeText(entries[0].key.s);
      CheckKeys(entries[1..])
  }

  predicate InOrder(a: Entry, b: Entry) {
    Leq(KeyBytes(a), KeyBytes(b))
  }

  /** `sorted` by the encoded key. */
  function ByKey(entries: seq<Entry>): (r: seq<Entry>)
    ensures multiset(r) == multiset(entries) && |r| == |entries|
  {
    Sort(InOrder, entries)
  }

  predicate Among(some: seq<Entry>, all: seq<Entry>) {
    forall e :: e in some ==> e in all
  }

  lemma SortAmong(entries: seq<Entry>)
    ensures Among(ByKey(entries), entries)
  {
    forall e | e in ByKey(entries) ensures e in entries {
      assert e in multiset(ByKey(entries));
    }
  }

  lemma EntryIsSmaller(all: seq<Entry>, e: Entry)
    requires e in all
    ensures (all decreases to e.value)
  {
    var k :| 0 <= k < |all| && all[k] == e;
    assert (all decreases to all[k]);
    assert (e decreases to e.value);
  }

  // ---- the encoder ----

  function Encode(v: Value): Result<Bytes>
    decreases v, 0
  {
    match v
    case Null => Ok([0xF6])
    case Bool(b) => Ok([if b then 0xF5 else 0xF4])
    case Int(i) => EncodeInt(i)
    case Float(d) => EncodeFloat(d)
    case Str(s) => EncodeText(s)
    case Raw(bs) =>
      var head :- Head(2, |bs|);
      Ok(head + bs)
    case List(items) => EncodeArray(items)
    case Tuple(items) => EncodeArray(items)
    case Map(entries) =>
      var _ :- CheckKeys(entries);
      var head :- Head(5, |entries|);
      SortAmong(entries);
      var body :- EncodeEntries(entries, ByKey(entries));
      Ok(head + body)
    case Unsupported => Err(Unaddressable)
  }

  function EncodeArray(items: seq<Value>): Result<Bytes>
    decreases items, |items| + 1
  {
    var head :- Head(4, |items|);
    var body :- EncodeItems(items);
    Ok(head + body)
  }

  function EncodeItems(items: seq<Value>): Result<Bytes>
    decreases items, |items|
  {
    if items == [] then Ok([])
    else
      var first :- Encode(items[0]);
      var rest :- EncodeItems(items[1..]);
      Ok(first + rest)
  }

  /** The entries of `some`, which all occur in `all`, key before value. */
  function EncodeEntries(all: seq<Entry>, some: seq<Entry>): Result<Bytes>
    requires Among(some, all)
    decreases all, |some|
  {
    if some == [] then Ok([])
    else
      EntryIsSmaller(all, some[0]);
      var value :- Encode(some[0].value);
      assert Among(some[1..], all);
      var rest :- EncodeEntries(all, some[1..]);
      Ok(KeyBytes(some[0]) + value + rest)
  }

  // ---- the one normalisation ----

  /** Integral floats become integers, tuples lists, and map entries sort by their encoded keys. */
  function Normalize(v: Value): Value
    decreases v, 0
  {
    match v
    case Float(d) => if Finite(d) && Integral(d) then Int(ToInt(d)) else v
    case List(items) => List(NormalizeItems(items))
    case Tuple(items) => List(NormalizeItems(items))
    case Map(entries) =>
      SortAmong(entries);
      Map(NormalizeEntries(entries, ByKey(entries)))
    case _ => v
  }

  function NormalizeItems(items: seq<Value>): (r: seq<Value>)
    ensures |r| == |items|
    decreases items, |items|
  {
    if items == [] then [] else [Normalize(items[0])] + NormalizeItems(items[1..])
  }

  function NormalizeEntries(all: seq<Entry>, some: seq<Entry>): (r: seq<Entry>)
    requires Among(some, all)
    ensures |r| == |some|
    decreases all, |some|
  {
    if some == [] then []
    else
      EntryIsSmaller(all, some[0]);
      assert Among(some[1..], all);
      [Entry(some[0].key, Normalize(some[0].value))] + NormalizeEntries(all, some[1..])
  }

  // ---- the decoder ----

  /** Major type, additional information, argument, and the bytes after the head. */
  function DecodeHead(bs: Bytes): (r: Option<(nat, nat, nat, Bytes)>)
    ensures r.Some? ==> |r.value.3| < |bs| && r.value.0 < 8 && r.value.2 < TWO64
  {
    if bs == [] then None
    else
      var info := bs[0] % 32;
      var width := if info < 24 then 0 else if info == 24 then 1 else if info == 25 then 2
                   else if info == 26 then 4 else 8;
      if info > 27 || |bs| < 1 + width then None
      else
        ArgumentBound(bs[1..1 + width]);
        Some((bs[0] / 32, info, if info < 24 then info else FromBigEndian(bs[1..1 + width]), bs[1 + width..]))
  }

  lemma ArgumentBound(bs: Bytes)
    requires |bs| in {0, 1, 2, 4, 8}
    ensures FromBigEndian(bs) < TWO64
  {
    Pow256Small();
    FromBigEndianBound(bs);
    hide Pow256, FromBigEndian;
  }

  lemma Pow256Small()
    ensures Pow256(0) == 1 && Pow256(1) == 0x100 && Pow256(2) == 0x10000
    ensures Pow256(4) == 0x1_0000_0000 && Pow256(8) == TWO64
  {
    assert Pow256(3) == 0x1000000 && Pow256(5) == 0x100_0000_0000 && Pow256(6) == 0x1_0000_0000_0000;
    assert Pow256(7) == 0x100_0000_0000_0000;
  }

  function Decode(bs: Bytes): (r: Option<(Value, Bytes)>)
    ensures r.Some? ==> |r.value.1| < |bs|
    decreases |bs|, 0
  {
    match DecodeHead(bs)
    case None => None
    case Some((major, info, n, rest)) =>
      if major == 0 then Some((Int(n), rest))
      else if major == 1 then Some((Int(-1 - n), rest))
      else if major == 2 then
        if |rest| < n then None else Some((Raw(rest[..n]), rest[n..]))
      else if major == 3 then
        if |rest| < n then None
        else (match Utf8Decode(rest[..n]) case None => None case Some(s) => Some((Str(s), rest[n..])))
      else if major == 4 then
        (match DecodeItems(rest, n) case None => None case Some((items, after)) => Some((List(items), after)))
      else if major == 5 then
        (match DecodeEntries(rest, n) case None => None case Some((entries, after)) => Some((Map(entries), after)))
      else if major == 6 then
        (match DecodeHead(rest)
         case None => None
         case Some((major', _, len, raw)) =>
           if major' != 2 || |raw| < len then None
           else if n == 2 then Some((Int(FromBigEndian(raw[..len])), raw[len..]))
           else if n == 3 then Some((Int(-1 - FromBigEndian(raw[..len])), raw[len..]))
           else None)
      else if info == 20 then Some((Bool(false), rest))
      else if info == 21 then Some((Bool(true), rest))
      else if info == 22 then Some((Null, rest))
      else if info == 27 then Some((Float(FromBits(n)), rest))
      else None
  }

  function DecodeItems(bs: Bytes, n: nat): (r: Option<(seq<Value>, Bytes)>)
    ensures r.Some? ==> |r.value.1| <= |bs|
    decreases |bs|, 1
  {
    if n == 0 then Some(([], bs))
    else match Decode(bs)
      case None => None
      case Some((v, rest)) =>
        match DecodeItems(rest, n - 1)
        case None => None
        case Some((items, after)) => Some(([v] + items, after))
  }

  function DecodeEntries(bs: Bytes, n: nat): (r: Option<(seq<Entry>, Bytes)>)
    ensures r.Some? ==> |r.value.1| <= |bs|
    decreases |bs|, 1
  {
    if n == 0 then Some(([], bs))
    else match Decode(bs)
      case None => None
      case Some((key, rest)) =>
        match Decode(rest)
        case None => None
        case Some((value, rest')) =>
          match DecodeEntries(rest', n - 1)
          case None => None
          case Some((entries, after)) => Some(([Entry(key, value)] + entries, after))
  }

  // ---- heads and magnitudes decode ----

  /** A head whose argument follows in 2^(info - 24) bytes. */
  lemma WideHead(major: nat, info: nat, width: nat, n: nat, rest: Bytes)
    requires major < 8 && n < Pow256(width)
    requires (info, width) in {(24, 1), (25, 2), (26, 4), (27, 8)}
    ensures var r := DecodeHead([32 * major + info] + BigEndian(n, width) + rest);
            r.Some? && r.value.0 == major && r.value.2 == n && r.value.3 == rest
  {
    var bs := [32 * major + info] + BigEndian(n, width) + rest;
    assert bs[0] == 32 * major + info && bs[0] % 32 == info && bs[0] / 32 == major;
    assert bs[1..1 + width] == BigEndian(n, width) && bs[1 + width..] == rest;
    hide BigEndian, FromBigEndian;
    BigEndianValue(n, width);
  }

  lemma HeadRoundTrip(major: nat, n: nat, rest: Bytes)
    requires major < 8 && n < TWO64
    ensures var r := DecodeHead(HeadBytes(major, n) + rest);
            r.Some? && r.value.0 == major && r.value.2 == n && r.value.3 == rest
  {
    Pow256Small();
    hide FromBigEndian, Pow256;
    if n < 24 {
      var bs := [32 * major + n] + rest;
      assert bs[0] == 32 * major + n && bs[1..] == rest;
    } else {
      hide DecodeHead;
      if n < 0x100 {
        assert BigEndian(n, 1) == [n] by { assert BigEndian(n / 256, 0) == []; }
        assert [32 * major + 24] + BigEndian(n, 1) == HeadBytes(major, n);
        WideHead(major, 24, 1, n, rest);
      } else if n < 0x10000 {
        WideHead(major, 25, 2, n, rest);
      } else if n < 0x1_0000_0000 {
        WideHead(major, 26, 4, n, rest);
      } else {
        WideHead(major, 27, 8, n, rest);
      }
    }
  }

  /** The head is the shortest of all byte strings that decode to its major type and argument. */
  lemma HeadIsShortest(major: nat, n: nat, other: Bytes)
    requires major < 8 && n < TWO64
    requires DecodeHead(other).Some? && DecodeHead(other).value.0 == major && DecodeHead(other).value.2 == n
    ensures |HeadBytes(major, n)| <= |other|
  {
    Pow256Small();
    var info := other[0] % 32;
    if info == 24 { FromBigEndianBound(other[1..2]); }
    if info == 25 { FromBigEndianBound(other[1..3]); }
    if info == 26 { FromBigEndianBound(other[1..5]); }
  }

  lemma {:induction false} StripValue(bs: Bytes)
    ensures FromBigEndian(Strip(bs)) == FromBigEndian(bs)
    ensures Strip(bs) != [] ==> Strip(bs)[0] != 0
    ensures FromBigEndian(bs) > 0 ==> Strip(bs) != []
  {
    if bs != [] && bs[0] == 0 {
      StripValue(bs[1..]);
      LeadingZero(bs);
    }
  }

  lemma {:induction false} LeadingZero(bs: Bytes)
    requires bs != [] && bs[0] == 0
    ensures FromBigEndian(bs) == FromBigEndian(bs[1..])
  {
    if |bs| > 1 {
      var init := bs[..|bs| - 1];
      LeadingZero(init);
      assert init[1..] == bs[1..][..|bs| - 2];
    }
  }

  lemma {:induction false} BitLengthBound(n: nat)
    ensures n < Pow2(BitLength(n))
  {
    if n > 0 { BitLengthBound(n / 2); }
  }

  lemma {:induction false} Pow2Monotone(j: nat, k: nat)
    requires j <= k
    ensures Pow2(j) <= Pow2(k)
  {
    if j < k { Pow2Monotone(j, k - 1); }
  }

  lemma {:induction false} Pow256IsPow2(k: nat)
    ensures Pow256(k) == Pow2(8 * k)
  {
    if k > 0 {
      Pow256IsPow2(k - 1);
      var j := 8 * (k - 1);
      assert Pow2(j + 4) == 16 * Pow2(j) by { assert Pow2(j + 2) == 4 * Pow2(j); }
      assert Pow2(j + 8) == 16 * Pow2(j + 4) by { assert Pow2(j + 6) == 4 * Pow2(j + 4); }
    }
  }

  /** The magnitude denotes the number and, unless it is zero, carries no leading zero byte. */
  lemma MagnitudeValue(n: nat)
    ensures FromBigEndian(Magnitude(n)) == n && Magnitude(n) != []
    ensures n > 0 ==> Magnitude(n)[0] != 0
  {
    var width := (BitLength(n) + 7) / 8;
    var k := if width == 0 then 1 else width;
    BitLengthBound(n);
    Pow2Monotone(BitLength(n), 8 * k);
    Pow256IsPow2(k);
    BigEndianValue(n, k);
    StripValue(BigEndian(n, k));
  }

  // ---- the decoder undoes the encoder ----

  lemma TagHead(tag: nat, tail: Bytes)
    requires tag < 24
    ensures DecodeHead([0xC0 + tag] + tail) == Some((6, tag, tag, tail))
  {
    var bs := [0xC0 + tag] + tail;
    assert bs[0] == 0xC0 + tag && bs[1..] == tail;
  }

  lemma BignumRoundTrip(x: int, rest: Bytes)
    requires EncodeBignum(x).Ok?
    ensures Decode(EncodeBignum(x).value + rest) == Some((Int(x), rest))
  {
    hide Magnitude, HeadBytes, BigEndian, DecodeHead;
    var n: nat, tag := if x >= 0 then x else -1 - x, if x >= 0 then 2 else 3;
    MagnitudeValue(n);
    var raw := Magnitude(n);
    var tail := HeadBytes(2, |raw|) + (raw + rest);
    assert EncodeBignum(x).value + rest == [0xC0 + tag] + tail;
    TagHead(tag, tail);
    HeadRoundTrip(2, |raw|, raw + rest);
    assert (raw + rest)[..|raw|] == raw && (raw + rest)[|raw|..] == rest;
  }

  lemma IntRoundTrip(x: int, rest: Bytes)
    requires EncodeInt(x).Ok?
    ensures Decode(EncodeInt(x).value + rest) == Some((Int(x), rest))
  {
    hide HeadBytes, DecodeHead, EncodeBignum;
    if 0 <= x < TWO64 {
      HeadRoundTrip(0, x, rest);
    } else if -TWO64 <= x < 0 {
      HeadRoundTrip(1, -1 - x, rest);
    } else {
      BignumRoundTrip(x, rest);
    }
  }

  lemma FloatRoundTrip(d: Float64, rest: Bytes)
    requires EncodeFloat(d).Ok?
    ensures Decode(EncodeFloat(d).value + rest) == Some((Normalize(Float(d)), rest))
  {
    if Integral(d) {
      IntRoundTrip(ToInt(d), rest);
    } else {
      var raw := BigEndian(Bits(d), 8);
      var bs := [0xFB] + raw + rest;
      assert bs[0] == 0xFB && bs[1..9] == raw && bs[9..] == rest;
      Pow256Small();
      BigEndianValue(Bits(d), 8);
      BitsRoundTrip(d);
    }
  }

  lemma TextRoundTrip(s: String, rest: Bytes)
    requires EncodeText(s).Ok?
    ensures Decode(EncodeText(s).value + rest) == Some((Str(s), rest))
  {
    var u := Utf8(s);
    HeadRoundTrip(3, |u|, u + rest);
    assert EncodeText(s).value + rest == HeadBytes(3, |u|) + (u + rest);
    assert (u + rest)[..|u|] == u && (u + rest)[|u|..] == rest;
    Utf8RoundTrip(s);
  }

  lemma SimpleRoundTrip(b: Octet, rest: Bytes)
    requires b in {0xF4, 0xF5, 0xF6}
    ensures Decode([b] + rest) == Some((if b == 0xF6 then Null else Bool(b == 0xF5), rest))
  {
    var bs := [b] + rest;
    assert bs[0] == b && bs[1..] == rest;
  }

  lemma {:induction false} RoundTrip(v: Value, rest: Bytes)
    requires Encode(v).Ok?
    ensures Decode(Encode(v).value + rest) == Some((Normalize(v), rest))
    decreases v, 0
  {
    hide Decode, EncodeInt, EncodeFloat, EncodeText, EncodeEntries, ByKey;
    match v
    case Null => SimpleRoundTrip(0xF6, rest);
    case Bool(b) => SimpleRoundTrip(if b then 0xF5 else 0xF4, rest);
    case Int(i) => IntRoundTrip(i, rest);
    case Float(d) => FloatRoundTrip(d, rest);
    case Str(s) => TextRoundTrip(s, rest);
    case Raw(raw) => RawRoundTrip(raw, rest);
    case List(items) => ArrayRoundTrip(items, rest);
    case Tuple(items) => ArrayRoundTrip(items, rest);
    case Map(entries) => MapRoundTrip(entries, rest);
  }

  lemma RawRoundTrip(raw: Bytes, rest: Bytes)
    requires Encode(Raw(raw)).Ok?
    ensures Decode(Encode(Raw(raw)).value + rest) == Some((Raw(raw), rest))
  {
    hide HeadBytes, DecodeHead;
    HeadRoundTrip(2, |raw|, raw + rest);
    assert Encode(Raw(raw)).value + rest == HeadBytes(2, |raw|) + (raw + rest);
    assert (raw + rest)[..|raw|] == raw && (raw + rest)[|raw|..] == rest;
  }

  lemma {:induction false} MapRoundTrip(entries: seq<Entry>, rest: Bytes)
    requires Encode(Map(entries)).Ok?
    ensures Decode(Encode(Map(entries)).value + rest) == Some((Normalize(Map(entries)), rest))
    decreases entries, |entries| + 1
  {
    hide HeadBytes, DecodeHead, EncodeEntries, NormalizeEntries, ByKey, DecodeEntries, CheckKeys, Utf8Decode, DecodeItems;
    SortAmong(entries);
    CheckedKeysGood(entries);
    var some := ByKey(entries);
    var body := EncodeEntries(entries, some).value;
    EntriesRoundTrip(entries, some, rest);
    HeadRoundTrip(5, |entries|, body + rest);
    assert Encode(Map(entries)).value + rest == HeadBytes(5, |entries|) + (body + rest);
  }

  lemma {:induction false} ArrayRoundTrip(items: seq<Value>, rest: Bytes)
    requires EncodeArray(items).Ok?
    ensures Decode(EncodeArray(items).value + rest) == Some((List(NormalizeItems(items)), rest))
    decreases items, |items| + 1
  {
    var body := EncodeItems(items).value;
    ItemsRoundTrip(items, rest);
    HeadRoundTrip(4, |items|, body + rest);
    assert EncodeArray(items).value + rest == HeadBytes(4, |items|) + (body + rest);
  }

  lemma {:induction false} ItemsRoundTrip(items: seq<Value>, rest: Bytes)
    requires EncodeItems(items).Ok?
    ensures DecodeItems(EncodeItems(items).value + rest, |items|) == Some((NormalizeItems(items), rest))
    decreases items, |items|
  {
    hide Encode, Normalize, Decode;
    if items == [] {
      assert EncodeItems(items).value + rest == rest;
    } else {
      var first, tail := Encode(items[0]).value, EncodeItems(items[1..]).value;
      RoundTrip(items[0], tail + rest);
      ItemsRoundTrip(items[1..], rest);
      assert EncodeItems(items).value + rest == first + (tail + rest);
    }
  }

  ghost predicate KeysGood(some: seq<Entry>) {
    forall e :: e in some ==> e.key.Str? && EncodeText(e.key.s).Ok?
  }

  lemma {:induction false} CheckedKeysGood(entries: seq<Entry>)
    ensures CheckKeys(entries).Ok? <==> KeysGood(entries)
  {
    if entries != [] {
      CheckedKeysGood(entries[1..]);
      assert entries == [entries[0]] + entries[1..];
      assert forall e :: e in entries <==> e == entries[0] || e in entries[1..];
      if KeysGood(entries) { assert entries[0] in entries; }
    }
  }

  lemma KeyDecodes(all: seq<Entry>, e: Entry, rest: Bytes)
    requires KeysGood(all) && e in all
    ensures Decode(KeyBytes(e) + rest) == Some((e.key, rest))
  {
    hide Decode, EncodeText;
    TextRoundTrip(e.key.s, rest);
  }

  lemma FirstEntry(all: seq<Entry>, some: seq<Entry>)
    requires Among(some, all) && some != [] && EncodeEntries(all, some).Ok?
    ensures some[0] in all && Among(some[1..], all)
    ensures Encode(some[0].value).Ok? && EncodeEntries(all, some[1..]).Ok?
    ensures EncodeEntries(all, some).value ==
            KeyBytes(some[0]) + Encode(some[0].value).value + EncodeEntries(all, some[1..]).value
    ensures NormalizeEntries(all, some) ==
            [Entry(some[0].key, Normalize(some[0].value))] + NormalizeEntries(all, some[1..])
  {
    hide Encode, Normalize, KeyBytes;
    EntryIsSmaller(all, some[0]);
  }

  lemma NoEntries(all: seq<Entry>, rest: Bytes)
    ensures EncodeEntries(all, []) == Ok([]) && NormalizeEntries(all, []) == [] && DecodeEntries(rest, 0) == Some(([], rest))
    ensures [] + rest == rest
  {
    hide Encode, Normalize, Decode;
  }

  lemma FirstDecoded(bs: Bytes, n: nat, key: Value, value: Value, rest: Bytes, rest': Bytes, entries: seq<Entry>, after: Bytes)
    requires n > 0 && Decode(bs) == Some((key, rest)) && Decode(rest) == Some((value, rest'))
    requires DecodeEntries(rest', n - 1) == Some((entries, after))
    ensures DecodeEntries(bs, n) == Some(([Entry(key, value)] + entries, after))
  {
    hide Decode;
  }

  lemma {:induction false} EntriesRoundTrip(all: seq<Entry>, some: seq<Entry>, rest: Bytes)
    requires Among(some, all) && KeysGood(all) && EncodeEntries(all, some).Ok?
    ensures DecodeEntries(EncodeEntries(all, some).value + rest, |some|) == Some((NormalizeEntries(all, some), rest))
    decreases all, |some|
  {
    hide Encode, Normalize, Decode, EncodeEntries, NormalizeEntries, DecodeEntries, KeyBytes, KeysGood;
    if some == [] {
      NoEntries(all, rest);
    } else {
      var e, some' := some[0], some[1..];
      EntryIsSmaller(all, e);
      FirstEntry(all, some);
      var value, tail := Encode(e.value).value, EncodeEntries(all, some').value;
      var bs := EncodeEntries(all, some).value + rest;
      assert bs == KeyBytes(e) + (value + (tail + rest));
      KeyDecodes(all, e, value + (tail + rest));
      RoundTrip(e.value, tail + rest);
      EntriesRoundTrip(all, some', rest);
      FirstDecoded(bs, |some|, e.key, Normalize(e.value), value + (tail + rest), tail + rest, NormalizeEntries(all, some'), rest);
    }
  }

  // ---- sorting ----

  lemma KeyOrder()
    ensures TotalOrder(InOrder)
  {
    hide KeyBytes, Less;
    forall a, b ensures InOrder(a, b) || InOrder(b, a) {
      LessTotal(KeyBytes(a), KeyBytes(b));
    }
    forall a, b, c | InOrder(a, b) && InOrder(b, c) ensures InOrder(a, c) {
      LeqTransitive(KeyBytes(a), KeyBytes(b), KeyBytes(c));
    }
  }

  lemma SortIsSorted(es: seq<Entry>)
    ensures Sorted(InOrder, ByKey(es))
  {
    KeyOrder();
    SortSorted(InOrder, es);
  }

  lemma SortOfSortedEntries(es: seq<Entry>)
    requires Sorted(InOrder, es)
    ensures ByKey(es) == es
  {
    SortOfSorted(InOrder, es);
  }

  /** The keys of a dictionary are distinct. */
  ghost predicate DistinctKeys(es: seq<Entry>) {
    forall i, j :: 0 <= i < j < |es| ==> es[i].key != es[j].key
  }

  lemma KeyBytesInjective(a: Entry, b: Entry)
    requires KeysGood([a, b]) && KeyBytes(a) == KeyBytes(b)
    ensures a.key == b.key
  {
    assert a in [a, b] && b in [a, b];
    TextRoundTrip(a.key.s, []);
    TextRoundTrip(b.key.s, []);
  }

  lemma {:induction false} EncodeEntriesIgnoresContext(all: seq<Entry>, all': seq<Entry>, some: seq<Entry>)
    requires Among(some, all) && Among(some, all')
    ensures EncodeEntries(all, some) == EncodeEntries(all', some)
    decreases |some|
  {
    if some != [] {
      assert Among(some[1..], all) && Among(some[1..], all');
      EncodeEntriesIgnoresContext(all, all', some[1..]);
    }
  }

  lemma KeysAntisymmetric(es: seq<Entry>)
    requires DistinctKeys(es) && KeysGood(es)
    ensures Antisymmetric(InOrder, es)
  {
    hide KeyBytes, Less, EncodeText;
    forall a, b | a in es && b in es && InOrder(a, b) && InOrder(b, a) ensures a == b {
      LeqAntisymmetric(KeyBytes(a), KeyBytes(b));
      KeyBytesInjective(a, b);
    }
  }

  lemma SameSorted(e1: seq<Entry>, e2: seq<Entry>)
    requires multiset(e1) == multiset(e2) && DistinctKeys(e1) && KeysGood(e1)
    ensures ByKey(e1) == ByKey(e2)
  {
    hide InOrder, KeysGood;
    KeyOrder();
    KeysAntisymmetric(e1);
    SortIgnoresOrder(InOrder, e1, e2);
  }

  /** The outermost dictionary alone: the same items in any order have the same address. */
  lemma TopOrderIrrelevant(e1: seq<Entry>, e2: seq<Entry>)
    requires multiset(e1) == multiset(e2) && DistinctKeys(e1)
    requires Encode(Map(e1)).Ok?
    ensures Encode(Map(e2)) == Encode(Map(e1))
  {
    hide ByKey, KeyBytes, EncodeEntries;
    CheckedKeysGood(e1);
    CheckedKeysGood(e2);
    SameElements(e1, e2);
    SameSorted(e1, e2);
    SortAmong(e1);
    SortAmong(e2);
    EncodeEntriesIgnoresContext(e1, e2, ByKey(e1));
  }

  // ---- insertion order at every depth ----

  /** Equal values, dictionaries at every depth being equal whatever their insertion order: their keys
      are distinct and pair off, with values that are alike. */
  ghost predicate Alike(v: Value, w: Value)
    decreases v, 0
  {
    match (v, w)
    case (List(xs), List(ys)) => AlikeItems(xs, ys)
    case (Tuple(xs), Tuple(ys)) => AlikeItems(xs, ys)
    case (Map(es), Map(fs)) => AlikeMaps(es, fs)
    case _ => v == w
  }

  ghost predicate AlikeMaps(es: seq<Entry>, fs: seq<Entry>)
    decreases es, 1
  {
    && DistinctKeys(es) && DistinctKeys(fs)
    && (forall i :: 0 <= i < |es| ==> HasMate(es[i], fs))
    && (forall f :: f in fs ==> HasKey(es, f.key))
  }

  ghost predicate HasMate(e: Entry, fs: seq<Entry>)
    decreases e, 2
  {
    exists f :: f in fs && Mates(e, f)
  }

  ghost predicate HasKey(es: seq<Entry>, key: Value) {
    exists e :: e in es && e.key == key
  }

  ghost predicate Mates(e: Entry, f: Entry)
    decreases e, 1
  {
    e.key == f.key && Alike(e.value, f.value)
  }

  ghost predicate AlikeItems(xs: seq<Value>, ys: seq<Value>)
    decreases xs, 1
  {
    |xs| == |ys| && forall i :: 0 <= i < |xs| ==> Alike(xs[i], ys[i])
  }

  /** Every key of every dictionary inside the value is encodable text. */
  ghost predicate TextKeys(v: Value)
    decreases v, 0
  {
    match v
    case List(items) => forall i :: 0 <= i < |items| ==> TextKeys(items[i])
    case Tuple(items) => forall i :: 0 <= i < |items| ==> TextKeys(items[i])
    case Map(es) => KeysGood(es) && forall i :: 0 <= i < |es| ==> TextKeys(es[i].value)
    case _ => true
  }

  /** Both succeed with the same result or both fail, and, if `exact`, with the same error. */
  ghost predicate Agree<T(!new)>(a: Result<T>, b: Result<T>, exact: bool) {
    (a.Ok? <==> b.Ok?) && (a.Ok? || exact ==> a == b)
  }

  /** `some` and `others` pair off in order: equal keys, alike values. */
  ghost predicate Paired(some: seq<Entry>, others: seq<Entry>) {
    |some| == |others| && forall k :: 0 <= k < |some| ==> Mates(some[k], others[k])
  }

  lemma SameKeySameEntry(es: seq<Entry>, a: Entry, b: Entry)
    requires DistinctKeys(es) && a in es && b in es && a.key == b.key
    ensures a == b
  {}

  /** The partners, in a dictionary that is alike, of some entries. */
  lemma {:induction false} Partners(some: seq<Entry>, es: seq<Entry>, fs: seq<Entry>) returns (others: seq<Entry>)
    requires Among(some, es) && AlikeMaps(es, fs)
    ensures Among(others, fs) && Paired(some, others)
  {
    hide AlikeMaps, Mates;
    if some == [] {
      others := [];
    } else {
      var f := MateOf(es, fs, some[0]);
      assert Among(some[1..], es);
      var rest := Partners(some[1..], es, fs);
      others := [f] + rest;
      forall k | 0 <= k < |some| ensures Mates(some[k], others[k]) {
        if k > 0 { assert some[k] == some[1..][k - 1] && others[k] == rest[k - 1]; }
      }
    }
  }

  lemma SortedKeysDistinct(es: seq<Entry>)
    requires DistinctKeys(es)
    ensures DistinctKeys(ByKey(es))
  {
    SameElements(ByKey(es), es);
    forall i, j | 0 <= i < j < |es| ensures ByKey(es)[i].key != ByKey(es)[j].key {
      DistinctSurvives(es, ByKey(es), i, j);
      hide ByKey;
      if ByKey(es)[i].key == ByKey(es)[j].key { SameKeySameEntry(es, ByKey(es)[i], ByKey(es)[j]); }
    }
  }

  lemma MateOf(es: seq<Entry>, fs: seq<Entry>, e: Entry) returns (f: Entry)
    requires AlikeMaps(es, fs) && e in es
    ensures f in fs && Mates(e, f) && f.key == e.key
  {
    f := MateIn(e, fs) by {
      hide HasMate, HasKey, DistinctKeys;
      var i :| 0 <= i < |es| && es[i] == e;
      assert HasMate(es[i], fs);
    }
  }

  lemma MateIn(e: Entry, fs: seq<Entry>) returns (f: Entry)
    requires HasMate(e, fs)
    ensures f in fs && Mates(e, f) && f.key == e.key
  {
    hide Alike;
    f :| f in fs && Mates(e, f);
  }

  lemma KeyedAlike(es: seq<Entry>, fs: seq<Entry>, f: Entry) returns (e: Entry)
    requires AlikeMaps(es, fs) && f in fs
    ensures e in es && e.key == f.key
  {
    hide HasMate, DistinctKeys;
    assert HasKey(es, f.key);
    e :| e in es && e.key == f.key;
  }

  lemma AlikeKeysGood(es: seq<Entry>, fs: seq<Entry>)
    requires AlikeMaps(es, fs)
    ensures KeysGood(es) <==> KeysGood(fs)
  {
    hide AlikeMaps, Mates, EncodeText;
    if KeysGood(es) {
      forall f | f in fs ensures f.key.Str? && EncodeText(f.key.s).Ok? { var e := KeyedAlike(es, fs, f); }
    }
    if KeysGood(fs) {
      forall e | e in es ensures e.key.Str? && EncodeText(e.key.s).Ok? { var f := MateOf(es, fs, e); }
    }
  }

  lemma AlikeDistinct(es: seq<Entry>, fs: seq<Entry>)
    requires AlikeMaps(es, fs)
    ensures DistinctKeys(es) && DistinctKeys(fs)
  {
    hide HasMate, HasKey;
  }

  lemma MatesShareKey(e: Entry, f: Entry)
    requires Mates(e, f)
    ensures e.key == f.key && Alike(e.value, f.value)
  {
    hide Alike;
  }

  lemma DistinctKeysNoRepeats(es: seq<Entry>)
    requires DistinctKeys(es)
    ensures NoRepeats(es)
  {}

  lemma AlignedNoRepeats(some: seq<Entry>, others: seq<Entry>)
    requires |some| == |others| && DistinctKeys(some) && forall k :: 0 <= k < |some| ==> some[k].key == others[k].key
    ensures NoRepeats(others)
  {}

  lemma OrderOfKeys(a: Entry, b: Entry, c: Entry, d: Entry)
    requires a.key == c.key && b.key == d.key
    ensures InOrder(a, b) <==> InOrder(c, d)
  {
    hide KeyBytes, Less;
    KeyBytesOfKey(a, c);
    KeyBytesOfKey(b, d);
  }

  /** Dictionaries that are alike list alike entries under equal keys once sorted. */
  lemma AlikeSorted(es: seq<Entry>, fs: seq<Entry>)
    requires AlikeMaps(es, fs) && KeysGood(es)
    ensures Paired(ByKey(es), ByKey(fs)) && |es| == |fs|
  {
    hide AlikeMaps, Mates, KeysGood, KeyBytes, ByKey, DistinctKeys, InOrder;
    AlikeDistinct(es, fs);
    AlikeKeysGood(es, fs);
    SortAmong(es);
    SortedKeysDistinct(es);
    var some := ByKey(es);
    var others := Partners(some, es, fs);
    forall k | 0 <= k < |some| ensures some[k].key == others[k].key { MatesShareKey(some[k], others[k]); }
    forall f | f in fs ensures f in others {
      var e := KeyedAlike(es, fs, f);
      SameElements(ByKey(es), es);
      var k :| 0 <= k < |some| && some[k] == e;
      SameKeySameEntry(fs, others[k], f);
    }
    DistinctKeysNoRepeats(fs);
    AlignedNoRepeats(some, others);
    SameMembersPermute(others, fs);
    SameSorted(fs, others);
    SortIsSorted(es);
    forall i, j | 0 <= i < j < |others| ensures InOrder(others[i], others[j]) {
      OrderOfKeys(some[i], some[j], others[i], others[j]);
    }
    SortOfSortedEntries(others);
    SameElements(others, fs);
  }

  lemma {:induction false} AlikeEncode(v: Value, w: Value)
    requires Alike(v, w)
    ensures Agree(Encode(v), Encode(w), TextKeys(v))
    decreases v, 0
  {
    match v
    case List(xs) => AlikeArrays(xs, w.items);
    case Tuple(xs) => AlikeArrays(xs, w.items);
    case Map(es) => AlikeEncodeMaps(es, w.entries);
    case _ =>
  }

  lemma {:induction false} AlikeArrays(xs: seq<Value>, ys: seq<Value>)
    requires AlikeItems(xs, ys)
    ensures Agree(EncodeArray(xs), EncodeArray(ys), forall i :: 0 <= i < |xs| ==> TextKeys(xs[i]))
    decreases xs, |xs| + 1
  {
    AlikeEncodeItems(xs, ys);
    hide Head, EncodeItems, TextKeys, AlikeItems;
  }

  lemma {:induction false} AlikeEncodeItems(xs: seq<Value>, ys: seq<Value>)
    requires AlikeItems(xs, ys)
    ensures |xs| == |ys| && Agree(EncodeItems(xs), EncodeItems(ys), forall i :: 0 <= i < |xs| ==> TextKeys(xs[i]))
    decreases xs, |xs|
  {
    hide Encode, TextKeys, Alike;
    if xs != [] {
      AlikeEncode(xs[0], ys[0]);
      AlikeEncodeItems(xs[1..], ys[1..]);
    }
  }

  lemma {:induction false} AlikeEncodeMaps(es: seq<Entry>, fs: seq<Entry>)
    requires AlikeMaps(es, fs)
    ensures Agree(Encode(Map(es)), Encode(Map(fs)), TextKeys(Map(es)))
    decreases es, |es| + 1
  {
    hide Encode, KeysGood, ByKey, EncodeEntries, AlikeMaps, WithHead, TextKeys, Paired, Among;
    AlikeKeysGood(es, fs);
    MapEncoding(es);
    MapEncoding(fs);
    if TextKeys(Map(es)) { TextKeysInside(es); }
    if KeysGood(es) {
      AlikeSorted(es, fs);
      AlikeEntries(es, fs, ByKey(es), ByKey(fs));
      HeadAgrees(|es|, EncodeEntries(es, ByKey(es)), EncodeEntries(fs, ByKey(fs)), TextKeys(Map(es)));
    }
  }

  /** A map's head and then its body. */
  function WithHead(n: nat, body: Result<Bytes>): Result<Bytes> {
    var head :- Head(5, n);
    var bytes :- body;
    Ok(head + bytes)
  }

  lemma HeadAgrees(n: nat, a: Result<Bytes>, b: Result<Bytes>, exact: bool)
    requires Agree(a, b, exact)
    ensures Agree(WithHead(n, a), WithHead(n, b), exact)
  {}

  lemma MapEncoding(es: seq<Entry>)
    ensures Among(ByKey(es), es)
    ensures if KeysGood(es) then Encode(Map(es)) == WithHead(|es|, EncodeEntries(es, ByKey(es))) else Encode(Map(es)).Err?
  {
    SortAmong(es);
    CheckedKeysGood(es);
    hide KeysGood, ByKey, CheckKeys, EncodeEntries, Head;
  }

  lemma TextKeysInside(es: seq<Entry>)
    requires TextKeys(Map(es))
    ensures KeysGood(es) && forall e :: e in es ==> TextKeys(e.value)
  {
    hide EncodeText;
    forall e | e in es ensures TextKeys(e.value) {
      var i :| 0 <= i < |es| && es[i] == e;
      assert TextKeys(es[i].value);
    }
  }

  lemma {:induction false} AlikeEntries(es: seq<Entry>, fs: seq<Entry>, some: seq<Entry>, others: seq<Entry>)
    requires Among(some, es) && Among(others, fs) && Paired(some, others)
    ensures Agree(EncodeEntries(es, some), EncodeEntries(fs, others), forall e :: e in es ==> TextKeys(e.value))
    decreases es, |some|
  {
    hide Encode, KeyBytes, TextKeys, Alike, Mates;
    if some != [] {
      EntryIsSmaller(es, some[0]);
      EntryIsSmaller(fs, others[0]);
      MatesShareKey(some[0], others[0]);
      AlikeEncode(some[0].value, others[0].value);
      KeyBytesOfKey(some[0], others[0]);
      assert Among(some[1..], es) && Among(others[1..], fs);
      AlikeEntries(es, fs, some[1..], others[1..]);
    }
  }

  /** The insertion order of dictionaries, at every depth, never matters: values that differ in it alone
      are addressable together and have the same bytes; and where all keys are encodable text, a failure
      is the same failure. */
  lemma InsertionOrderIrrelevant(v: Value, w: Value)
    requires Alike(v, w)
    ensures Encode(v).Ok? <==> Encode(w).Ok?
    ensures Encode(v).Ok? || TextKeys(v) ==> Encode(v) == Encode(w)
  {
    hide Encode, TextKeys, Alike;
    AlikeEncode(v, w);
  }

  /** Two keys that are both refused are refused in insertion order, so the errors may differ. */
  lemma FirstBadKeyIsReported()
    ensures var a, b := Entry(Int(5), Null), Entry(Str([0xD800]), Null);
            && Alike(Map([a, b]), Map([b, a]))
            && Encode(Map([a, b])) == Err(Unaddressable) && Encode(Map([b, a])) == Err(BadText)
  {
    hide AlikeMaps, Encode;
    TwoKeysAlike(Entry(Int(5), Null), Entry(Str([0xD800]), Null));
    BadKeyFirst(Entry(Int(5), Null), Entry(Str([0xD800]), Null));
  }

  lemma TwoKeysAlike(a: Entry, b: Entry)
    requires a.key != b.key && a.value == Null && b.value == Null
    ensures AlikeMaps([a, b], [b, a])
  {
    var es, fs := [a, b], [b, a];
    assert b in es && a in es && a in fs && b in fs;
    assert Mates(a, a) && Mates(b, b);
    hide Mates;
    assert HasMate(es[0], fs) && HasMate(es[1], fs) && HasKey(es, a.key) && HasKey(es, b.key);
  }

  lemma BadKeyFirst(a: Entry, b: Entry)
    requires a.key == Int(5) && b.key == Str([0xD800])
    ensures Encode(Map([a, b])) == Err(Unaddressable) && Encode(Map([b, a])) == Err(BadText)
  {
    assert [0xD800][0] == 0xD800 && !Encodable([0xD800]);
    hide ByKey, EncodeEntries, Head;
  }

  // ---- normal forms and encodings determine each other ----

  lemma {:induction false} NormalizedEntriesAgree(all: seq<Entry>, some: seq<Entry>)
    requires Among(some, all)
    ensures var n := NormalizeEntries(all, some);
            forall i :: 0 <= i < |some| ==> n[i].key == some[i].key && KeyBytes(n[i]) == KeyBytes(some[i])
    decreases |some|
  {
    hide KeyBytes;
    if some != [] {
      assert Among(some[1..], all);
      NormalizedEntriesAgree(all, some[1..]);
      KeyBytesOfKey(some[0], NormalizeEntries(all, some)[0]);
    }
  }

  lemma KeyBytesOfKey(a: Entry, b: Entry)
    requires a.key == b.key
    ensures KeyBytes(a) == KeyBytes(b)
  {}

  /** A normal form has the encoding of the value it came from. */
  lemma {:induction false} EncodeNormalized(v: Value)
    requires Encode(v).Ok?
    ensures Encode(Normalize(v)) == Encode(v)
    decreases v, 0
  {
    hide EncodeInt, EncodeText, EncodeEntries, ByKey;
    match v
    case List(items) => EncodeNormalizedItems(items);
    case Tuple(items) => EncodeNormalizedItems(items);
    case Map(entries) => EncodeNormalizedMap(entries);
    case _ =>
  }

  lemma {:induction false} EncodeNormalizedItems(items: seq<Value>)
    requires EncodeItems(items).Ok?
    ensures EncodeItems(NormalizeItems(items)) == EncodeItems(items)
    decreases items, |items|
  {
    hide Encode, Normalize;
    if items != [] {
      EncodeNormalized(items[0]);
      EncodeNormalizedItems(items[1..]);
      var n := NormalizeItems(items);
      assert n[0] == Normalize(items[0]) && n[1..] == NormalizeItems(items[1..]);
    }
  }

  lemma {:induction false} EncodeNormalizedMap(entries: seq<Entry>)
    requires Encode(Map(entries)).Ok?
    ensures Encode(Normalize(Map(entries))) == Encode(Map(entries))
    decreases entries, |entries| + 1
  {
    hide KeyBytes, EncodeEntries, NormalizeEntries, ByKey, CheckKeys, HeadBytes;
    SortAmong(entries);
    CheckedKeysGood(entries);
    var some := ByKey(entries);
    var n := NormalizeEntries(entries, some);
    EncodeNormalizedEntries(entries, some, n);
    NormalizedEntriesAgree(entries, some);
    SortIsSorted(entries);
    forall i, j | 0 <= i < j < |n| ensures InOrder(n[i], n[j]) { assert InOrder(some[i], some[j]); }
    SortOfSortedEntries(n);
    forall e | e in n ensures e.key.Str? && EncodeText(e.key.s).Ok? {
      var i :| 0 <= i < |n| && n[i] == e;
      assert some[i] in entries;
    }
    CheckedKeysGood(n);
  }

  lemma {:induction false} EncodeNormalizedEntries(all: seq<Entry>, some: seq<Entry>, within: seq<Entry>)
    requires Among(some, all) && EncodeEntries(all, some).Ok? && Among(NormalizeEntries(all, some), within)
    ensures EncodeEntries(within, NormalizeEntries(all, some)) == EncodeEntries(all, some)
    decreases all, |some|
  {
    hide Encode, Normalize, KeyBytes;
    if some != [] {
      EntryIsSmaller(all, some[0]);
      var n := NormalizeEntries(all, some);
      assert n[0] == Entry(some[0].key, Normalize(some[0].value)) && n[1..] == NormalizeEntries(all, some[1..]);
      assert Among(n[1..], within);
      KeyBytesOfKey(some[0], n[0]);
      EncodeNormalized(some[0].value);
      EncodeNormalizedEntries(all, some[1..], within);
    }
  }

  /** Two addressable values have the same bytes exactly when they have the same normal form. */
  lemma SameBytesIffSameNormalForm(v: Value, w: Value)
    requires Encode(v).Ok? && Encode(w).Ok?
    ensures Encode(v) == Encode(w) <==> Normalize(v) == Normalize(w)
  {
    hide Encode, Normalize, Decode;
    RoundTrip(v, []);
    RoundTrip(w, []);
    EncodeNormalized(v);
    EncodeNormalized(w);
  }

  /** No encoding is a proper prefix of another. */
  lemma PrefixFree(v: Value, w: Value, rest: Bytes)
    requires Encode(v).Ok? && Encode(w).Ok? && Encode(v).value + rest == Encode(w).value
    ensures rest == [] && Normalize(v) == Normalize(w)
  {
    hide Encode, Normalize, Decode;
    RoundTrip(v, rest);
    RoundTrip(w, []);
    assert Encode(w).value + [] == Encode(w).value;
  }

  /** A float whose value is an integer has the bytes of that integer. */
  lemma IntegralFloatIsInt(d: Float64, i: int)
    requires Finite(d) && Exact(d) == i as real
    ensures Encode(Float(d)) == Encode(Int(i))
  {
    IntegralIff(d);
    FloorOf(i);
    ToIntIsExact(d);
    SameInt(ToInt(d), i);
    hide Exact, Integral, ToInt, EncodeInt;
  }

  lemma SameInt(i: int, j: int)
    requires i as real == j as real
    ensures i == j
  {}

  /** How the encoding of each kind of value begins (section 3.1 of RFC 8949): the major type in the top
      three bits, the two bignum tags, the simple values and the float64 head. */
  lemma InitialByte(v: Value)
    requires Encode(v).Ok?
    ensures var bytes := Encode(v).value;
            && bytes != []
            && match v
               case Null => bytes == [0xF6]
               case Bool(b) => bytes == [if b then 0xF5 else 0xF4]
               case Int(i) =>
                 if i >= 0x1_0000_0000_0000_0000 then bytes[0] == 0xC2
                 else if i < -0x1_0000_0000_0000_0000 then bytes[0] == 0xC3
                 else bytes[0] / 32 == if i < 0 then 1 else 0
               case Float(d) => Exact(d) != Exact(d).Floor as real ==> bytes[0] == 0xFB && |bytes| == 9
               case Str(_) => bytes[0] / 32 == 3
               case Raw(_) => bytes[0] / 32 == 2
               case List(_) => bytes[0] / 32 == 4
               case Tuple(_) => bytes[0] / 32 == 4
               case Map(_) => bytes[0] / 32 == 5
               case Unsupported => false
  {
    hide EncodeInt, EncodeFloat, EncodeText, EncodeArray, EncodeEntries, CheckKeys, ByKey, Head, Exact;
    match v
    case Float(d) => FloatBegins(d);
    case Int(i) => IntBegins(i);
    case Str(s) => TextBegins(s);
    case Raw(bs) => HeadBegins(2, |bs|);
    case List(items) => ArrayBegins(items);
    case Tuple(items) => ArrayBegins(items);
    case Map(es) => HeadBegins(5, |es|);
    case _ =>
  }

  lemma FloatBegins(d: Float64)
    requires EncodeFloat(d).Ok?
    ensures var bytes := EncodeFloat(d).value;
            bytes != [] && (Exact(d) != Exact(d).Floor as real ==> bytes[0] == 0xFB && |bytes| == 9)
  {
    hide EncodeInt, Exact, Integral, ToInt;
    IntegralIff(d);
    if Integral(d) { IntBegins(ToInt(d)); }
  }

  lemma TextBegins(s: String)
    requires EncodeText(s).Ok?
    ensures EncodeText(s).value != [] && EncodeText(s).value[0] / 32 == 3
  {
    HeadBegins(3, |Utf8(s)|);
    hide Head;
  }

  lemma ArrayBegins(items: seq<Value>)
    requires EncodeArray(items).Ok?
    ensures EncodeArray(items).value != [] && EncodeArray(items).value[0] / 32 == 4
  {
    HeadBegins(4, |items|);
    hide Head, EncodeItems;
  }

  lemma HeadBegins(major: nat, n: nat)
    requires major < 8
    ensures Head(major, n).Ok? ==> Head(major, n).value != [] && Head(major, n).value[0] / 32 == major
  {}

  lemma IntBegins(i: int)
    requires EncodeInt(i).Ok?
    ensures var bytes := EncodeInt(i).value;
            && bytes != []
            && if i >= 0x1_0000_0000_0000_0000 then bytes[0] == 0xC2
               else if i < -0x1_0000_0000_0000_0000 then bytes[0] == 0xC3
               else bytes[0] / 32 == if i < 0 then 1 else 0
  {
    hide Magnitude;
    if 0 <= i { HeadBegins(0, i); } else { HeadBegins(1, -1 - i); }
  }

  // ---- what has no address, and why ----

  /** Fewer than 2^64 bytes hold n. */
  ghost predicate Storable(n: nat) {
    exists width: nat :: width < 0x1_0000_0000_0000_0000 && n < Pow256(width)
  }

  ghost predicate TextFault(s: String, e: Error) {
    if exists i :: 0 <= i < |s| && 0xD800 <= s[i] <= 0xDFFF then e == BadText
    else e == Unaddressable && |Utf8(s)| >= 0x1_0000_0000_0000_0000
  }

  /** A part of the value, at some depth, has no encoding for this reason: a number that is not finite, text
      with a surrogate, a key that is not text, an unsupported object, or a length that no head holds. */
  ghost predicate Fault(v: Value, e: Error)
    decreases v
  {
    match v
    case Int(i) => e == Unaddressable && !Storable(if i >= 0 then i else -1 - i)
    case Float(d) => e == NonFinite && d.exponent == 2047
    case Str(s) => TextFault(s, e)
    case Raw(bs) => e == Unaddressable && |bs| >= 0x1_0000_0000_0000_0000
    case List(items) =>
      (e == Unaddressable && |items| >= 0x1_0000_0000_0000_0000) || exists i :: 0 <= i < |items| && Fault(items[i], e)
    case Tuple(items) =>
      (e == Unaddressable && |items| >= 0x1_0000_0000_0000_0000) || exists i :: 0 <= i < |items| && Fault(items[i], e)
    case Map(es) =>
      || (e == Unaddressable && |es| >= 0x1_0000_0000_0000_0000)
      || (exists i :: 0 <= i < |es| && if es[i].key.Str? then TextFault(es[i].key.s, e) else e == Unaddressable)
      || exists i :: 0 <= i < |es| && Fault(es[i].value, e)
    case Unsupported => e == Unaddressable
    case _ => false
  }

  lemma {:induction false} FromBigEndianAtLeast(bs: Bytes)
    requires bs != [] && bs[0] != 0
    ensures FromBigEndian(bs) >= Pow256(|bs| - 1)
  {
    if |bs| > 1 {
      FromBigEndianAtLeast(bs[..|bs| - 1]);
    } else {
      assert bs[..0] == [] && FromBigEndian(bs) == bs[0];
    }
  }

  lemma Pow256Monotone(j: nat, k: nat)
    requires j <= k
    ensures Pow256(j) <= Pow256(k)
  {
    Pow256IsPow2(j);
    Pow256IsPow2(k);
    Pow2Monotone(8 * j, 8 * k);
  }

  lemma StorableIff(n: nat)
    ensures Storable(n) <==> |Magnitude(n)| < 0x1_0000_0000_0000_0000
  {
    MagnitudeValue(n);
    var raw := Magnitude(n);
    hide Magnitude, Pow256, FromBigEndian;
    FromBigEndianBound(raw);
    if width: nat :| width < 0x1_0000_0000_0000_0000 && n < Pow256(width) {
      if n > 0 {
        FromBigEndianAtLeast(raw);
        if width < |raw| { Pow256Monotone(width, |raw| - 1); }
      } else {
        ZeroMagnitude();
      }
    }
  }

  lemma ZeroMagnitude()
    ensures Magnitude(0) == [0]
  {
    assert BitLength(0) == 0 && BigEndian(0, 1) == BigEndian(0, 0) + [0] == [0];
    assert Strip([0]) == Strip([0][1..]) == [];
  }

  lemma SmallIsStorable(n: nat)
    requires n < 0x1_0000_0000_0000_0000
    ensures Storable(n)
  {
    Pow256Small();
    hide Pow256;
    var width := 8;
    assert n < Pow256(width);
  }

  lemma {:induction false} Pow2Adds(j: nat, k: nat)
    ensures Pow2(j) * Pow2(k) == Pow2(j + k)
  {
    if j > 0 {
      Pow2Adds(j - 1, k);
      TwiceProduct(Pow2(j - 1), Pow2(k));
    }
  }

  lemma TwiceProduct(x: nat, y: nat)
    ensures 2 * x * y == 2 * (x * y)
  {}

  lemma ProductGrows(x: nat, y: nat, z: nat)
    requires x <= y && z > 0
    ensures x * z <= y * z && (x - 1) * z < x * z
  {}

  lemma QuotientShrinks(x: nat, y: nat)
    requires y > 0
    ensures 0 <= x / y <= x
  {
    var q, r := x / y, x % y;
    assert x == q * y + r;
    if q > 0 { ProductGrows(1, y, q); }
  }

  /** No finite double is too large: its integer is below 2^1024. */
  lemma DoubleIsStorable(d: Float64)
    requires Finite(d) && Integral(d)
    ensures Storable(if ToInt(d) >= 0 then ToInt(d) else -1 - ToInt(d))
  {
    var m, k, width := Significand(d), Abs(Scale(d)), 128;
    SignificandBound(d);
    hide Pow2, Pow256, Significand;
    var n: nat := if ToInt(d) >= 0 then ToInt(d) else -1 - ToInt(d);
    Pow256IsPow2(width);
    if Scale(d) >= 0 {
      ProductBound(m, 53, k);
      Pow2Monotone(53 + k, 1024);
    } else {
      QuotientShrinks(m, Pow2(k));
      Pow2Monotone(53, 1024);
    }
    assert n < Pow256(width);
  }

  lemma SignificandBound(d: Float64)
    ensures Significand(d) < Pow2(53)
  {
    assert Pow2(13) == 0x2000;
    assert Pow2(20) == 0x100000 by { Pow2Adds(10, 10); }
    Pow2Adds(20, 20);
    Pow2Adds(13, 40);
  }

  lemma ProductBound(m: nat, j: nat, k: nat)
    requires m < Pow2(j)
    ensures m * Pow2(k) < Pow2(j + k)
  {
    Pow2Adds(j, k);
    hide Pow2;
    ProductGrows(m + 1, Pow2(j), Pow2(k));
  }

  lemma IntFault(i: int)
    ensures EncodeInt(i) == Err(Unaddressable) || EncodeInt(i).Ok?
    ensures EncodeInt(i).Ok? <==> Storable(if i >= 0 then i else -1 - i)
  {
    var n: nat := if i >= 0 then i else -1 - i;
    StorableIff(n);
    if n < TWO64 { SmallIsStorable(n); }
    hide Magnitude, HeadBytes, Storable;
  }

  lemma FloatFault(d: Float64)
    ensures EncodeFloat(d).Err? ==> Fault(Float(d), EncodeFloat(d).error)
    ensures EncodeFloat(d).Ok? ==> forall e :: !Fault(Float(d), e)
  {
    hide Integral, ToInt, Storable, EncodeInt;
    if Finite(d) && Integral(d) {
      DoubleIsStorable(d);
      IntFault(ToInt(d));
    }
  }

  lemma TextFaulty(s: String)
    ensures EncodeText(s).Err? ==> TextFault(s, EncodeText(s).error)
    ensures EncodeText(s).Ok? ==> forall e :: !TextFault(s, e)
  {
    hide Utf8, HeadBytes;
    if i :| 0 <= i < |s| && 0xD800 <= s[i] <= 0xDFFF { assert IsSurrogate(s[i]); }
  }

  /** A value has an address exactly when no part of it has a fault, and a failure names the fault of a part. */
  lemma {:induction false} AddressableIff(v: Value)
    ensures Encode(v).Err? ==> Fault(v, Encode(v).error)
    ensures Encode(v).Ok? ==> forall e :: !Fault(v, e)
    decreases v, 0
  {
    hide EncodeInt, EncodeFloat, EncodeText, TextFault, Storable, CheckKeys, EncodeEntries, ByKey, HeadBytes;
    match v
    case Int(i) => IntFault(i);
    case Float(d) => FloatFault(d);
    case Str(s) => TextFaulty(s);
    case List(items) => ArrayFault(items);
    case Tuple(items) => ArrayFault(items);
    case Map(es) => MapFault(es);
    case _ =>
  }

  ghost predicate ItemFault(items: seq<Value>, e: Error) {
    exists i :: 0 <= i < |items| && Fault(items[i], e)
  }

  ghost predicate ValueFault(es: seq<Entry>, e: Error) {
    exists i :: 0 <= i < |es| && Fault(es[i].value, e)
  }

  ghost predicate KeyFault(es: seq<Entry>, e: Error) {
    exists i :: 0 <= i < |es| && if es[i].key.Str? then TextFault(es[i].key.s, e) else e == Unaddressable
  }

  lemma {:induction false} ArrayFault(items: seq<Value>)
    ensures EncodeArray(items).Err? ==> Fault(List(items), EncodeArray(items).error)
    ensures EncodeArray(items).Ok? ==> forall e :: !Fault(List(items), e)
    ensures EncodeArray(items).Err? ==> Fault(Tuple(items), EncodeArray(items).error)
    ensures EncodeArray(items).Ok? ==> forall e :: !Fault(Tuple(items), e)
    decreases items, |items| + 1
  {
    ItemsFault(items);
    hide Fault, EncodeItems, HeadBytes;
    forall e ensures Fault(List(items), e) <==> Fault(Tuple(items), e) {
      ArrayFaultIs(items, e);
    }
    forall e ensures Fault(List(items), e) <==> (e == Unaddressable && |items| >= TWO64) || ItemFault(items, e) {
      ArrayFaultIs(items, e);
    }
    hide ItemFault;
  }

  lemma ArrayFaultIs(items: seq<Value>, e: Error)
    ensures Fault(List(items), e) <==> (e == Unaddressable && |items| >= TWO64) || ItemFault(items, e)
    ensures Fault(Tuple(items), e) <==> (e == Unaddressable && |items| >= TWO64) || ItemFault(items, e)
  {}

  lemma MapFaultIs(es: seq<Entry>, e: Error)
    ensures Fault(Map(es), e) <==>
            (e == Unaddressable && |es| >= TWO64) || KeyFault(es, e) || ValueFault(es, e)
  {
    hide TextFault;
  }

  lemma {:induction false} ItemsFault(items: seq<Value>)
    ensures EncodeItems(items).Err? ==> ItemFault(items, EncodeItems(items).error)
    ensures EncodeItems(items).Ok? ==> forall e :: !ItemFault(items, e)
    decreases items, |items|
  {
    hide Encode, Fault;
    if items != [] {
      AddressableIff(items[0]);
      ItemsFault(items[1..]);
      forall e ensures ItemFault(items, e) <==> Fault(items[0], e) || ItemFault(items[1..], e) {
        if i :| 0 <= i < |items[1..]| && Fault(items[1..][i], e) { assert Fault(items[i + 1], e); }
        if i :| 0 <= i < |items| && Fault(items[i], e) { assert i > 0 ==> Fault(items[1..][i - 1], e); }
      }
    }
  }

  lemma {:induction false} KeysFault(es: seq<Entry>)
    ensures match CheckKeys(es) case Err(e) => KeyFault(es, e) case Ok(_) => forall e :: !KeyFault(es, e)
    decreases |es|
  {
    hide EncodeText, TextFault;
    if es != [] {
      var k := es[0].key;
      if k.Str? { TextFaulty(k.s); }
      KeysFault(es[1..]);
      forall e ensures KeyFault(es, e) <==> (if k.Str? then TextFault(k.s, e) else e == Unaddressable) || KeyFault(es[1..], e) {
        if KeyFault(es[1..], e) {
          var i :| 0 <= i < |es[1..]| && if es[1..][i].key.Str? then TextFault(es[1..][i].key.s, e) else e == Unaddressable;
          assert es[1..][i] == es[i + 1];
        }
        if KeyFault(es, e) {
          var i :| 0 <= i < |es| && if es[i].key.Str? then TextFault(es[i].key.s, e) else e == Unaddressable;
          assert i > 0 ==> es[1..][i - 1] == es[i];
        }
      }
    }
  }

  /** The values of some of a map's entries have this fault. */
  ghost predicate SomeFault(some: seq<Entry>, e: Error) {
    exists x :: x in some && Fault(x.value, e)
  }

  lemma SomeFaultIs(es: seq<Entry>, e: Error)
    ensures SomeFault(ByKey(es), e) <==> ValueFault(es, e)
  {
    assert forall x :: x in ByKey(es) <==> x in multiset(ByKey(es));
    hide Fault, ByKey;
    if x :| x in ByKey(es) && Fault(x.value, e) {
      assert x in multiset(es);
      var i :| 0 <= i < |es| && es[i] == x;
      assert Fault(es[i].value, e);
    }
    if i :| 0 <= i < |es| && Fault(es[i].value, e) {
      assert es[i] in multiset(ByKey(es));
    }
  }

  lemma {:induction false} EntriesFault(all: seq<Entry>, some: seq<Entry>)
    requires Among(some, all)
    ensures EncodeEntries(all, some).Err? ==> SomeFault(some, EncodeEntries(all, some).error)
    ensures EncodeEntries(all, some).Ok? ==> forall e :: !SomeFault(some, e)
    decreases all, |some|
  {
    hide Encode, Fault, KeyBytes;
    if some != [] {
      EntryIsSmaller(all, some[0]);
      assert Among(some[1..], all);
      AddressableIff(some[0].value);
      EntriesFault(all, some[1..]);
      forall e ensures SomeFault(some, e) <==> Fault(some[0].value, e) || SomeFault(some[1..], e) {
        if x :| x in some && Fault(x.value, e) { assert x == some[0] || x in some[1..]; }
        if x :| x in some[1..] && Fault(x.value, e) { assert x in some; }
      }
    }
  }

  lemma MapOutcome(es: seq<Entry>)
    ensures Among(ByKey(es), es)
    ensures Encode(Map(es)) == if CheckKeys(es).Err? then Err(CheckKeys(es).error)
                               else WithHead(|es|, EncodeEntries(es, ByKey(es)))
  {
    SortAmong(es);
    hide ByKey, CheckKeys, EncodeEntries, Head;
  }

  lemma SortedFaultIs(es: seq<Entry>, e: Error)
    ensures Fault(Map(es), e) <==> (e == Unaddressable && |es| >= TWO64) || KeyFault(es, e) || SomeFault(ByKey(es), e)
  {
    hide *;
    MapFaultIs(es, e);
    SomeFaultIs(es, e);
  }

  lemma {:induction false} MapFault(es: seq<Entry>)
    ensures Encode(Map(es)).Err? ==> Fault(Map(es), Encode(Map(es)).error)
    ensures Encode(Map(es)).Ok? ==> forall e :: !Fault(Map(es), e)
    decreases es, |es| + 1
  {
    hide Fault, Encode, EncodeEntries, ByKey, CheckKeys, KeyFault, ValueFault, SomeFault, HeadBytes, Among;
    MapOutcome(es);
    KeysFault(es);
    EntriesFault(es, ByKey(es));
    forall e ensures Fault(Map(es), e) <==> (e == Unaddressable && |es| >= TWO64) || KeyFault(es, e) || SomeFault(ByKey(es), e) {
      SortedFaultIs(es, e);
    }
  }

  lemma {:induction false} ItemsStopAt(items: seq<Value>, i: nat)
    requires i < |items| && Encode(items[i]).Err? && forall j :: 0 <= j < i ==> Encode(items[j]).Ok?
    ensures EncodeItems(items) == Encode(items[i])
    decreases i
  {
    hide Encode;
    if i > 0 { ItemsStopAt(items[1..], i - 1); }
  }

  /** Of a list's items, the first to fail is reported. */
  lemma FirstItemIsReported(items: seq<Value>, i: nat)
    requires |items| < 0x1_0000_0000_0000_0000
    requires i < |items| && Encode(items[i]).Err? && forall j :: 0 <= j < i ==> Encode(items[j]).Ok?
    ensures Encode(List(items)) == Encode(items[i]) == Encode(Tuple(items))
  {
    ItemsStopAt(items, i);
    ArraysEncode(items);
    hide Encode, HeadBytes, EncodeItems;
  }

  lemma ArraysEncode(items: seq<Value>)
    ensures Encode(List(items)) == EncodeArray(items) == Encode(Tuple(items))
  {
    hide EncodeArray;
  }

  /** What a key alone is refused for. */
  function KeyOutcome(key: Value): Result<Bytes> {
    if key.Str? then Encode(key) else Err(Unaddressable)
  }

  lemma {:induction false} KeysStopAt(es: seq<Entry>, i: nat)
    requires i < |es| && KeyOutcome(es[i].key).Err? && forall j :: 0 <= j < i ==> KeyOutcome(es[j].key).Ok?
    ensures CheckKeys(es).Err? && CheckKeys(es).error == KeyOutcome(es[i].key).error
    decreases i
  {
    hide EncodeText;
    if i > 0 { KeysStopAt(es[1..], i - 1); }
  }

  /** A dictionary's keys are checked in insertion order before its length and its values. */
  lemma FirstKeyIsReported(es: seq<Entry>, i: nat)
    requires i < |es| && KeyOutcome(es[i].key).Err? && forall j :: 0 <= j < i ==> KeyOutcome(es[j].key).Ok?
    ensures Encode(Map(es)) == KeyOutcome(es[i].key)
  {
    KeysStopAt(es, i);
    hide KeyOutcome, CheckKeys, ByKey, EncodeEntries, HeadBytes;
  }

  // ---- the order of keys ----

  /** The dictionaries inside a value have distinct keys. */
  ghost predicate DistinctThroughout(v: Value)
    decreases v, 0
  {
    match v
    case List(items) => forall i :: 0 <= i < |items| ==> DistinctThroughout(items[i])
    case Tuple(items) => forall i :: 0 <= i < |items| ==> DistinctThroughout(items[i])
    case Map(es) => DistinctKeys(es) && forall i :: 0 <= i < |es| ==> DistinctThroughout(es[i].value)
    case _ => true
  }

  /** The key's own encoding, if it is text that has one. */
  function KeyCode(key: Value): Option<Bytes> {
    if key.Str? && EncodeText(key.s).Ok? then Some(EncodeText(key.s).value) else None
  }

  ghost predicate Increases(a: Option<Bytes>, b: Option<Bytes>) {
    a.Some? && b.Some? && Less(a.value, b.value)
  }

  /** In every map, at every depth, the encoded keys strictly increase. */
  ghost predicate Ascending(v: Value)
    decreases v, 0
  {
    match v
    case List(items) => forall i :: 0 <= i < |items| ==> Ascending(items[i])
    case Tuple(items) => forall i :: 0 <= i < |items| ==> Ascending(items[i])
    case Map(es) =>
      && (forall i, j :: 0 <= i < j < |es| ==> Increases(KeyCode(es[i].key), KeyCode(es[j].key)))
      && forall i :: 0 <= i < |es| ==> Ascending(es[i].value)
    case _ => true
  }

  lemma {:induction false} NormalAscends(v: Value)
    requires Encode(v).Ok? && DistinctThroughout(v)
    ensures Ascending(Normalize(v))
    decreases v, 0
  {
    hide EncodeInt, EncodeFloat, EncodeText, EncodeEntries, ByKey, CheckKeys, Head;
    match v
    case List(items) => NormalItemsAscend(items);
    case Tuple(items) => NormalItemsAscend(items);
    case Map(es) => NormalMapAscends(es);
    case _ =>
  }

  lemma {:induction false} NormalItemsAscend(items: seq<Value>)
    requires EncodeItems(items).Ok? && forall i :: 0 <= i < |items| ==> DistinctThroughout(items[i])
    ensures forall i :: 0 <= i < |items| ==> Ascending(NormalizeItems(items)[i])
    decreases items, |items|
  {
    hide Encode, Normalize, Ascending, DistinctThroughout;
    if items != [] {
      NormalAscends(items[0]);
      NormalItemsAscend(items[1..]);
    }
  }

  lemma {:induction false} NormalEntriesAscend(all: seq<Entry>, some: seq<Entry>)
    requires Among(some, all) && EncodeEntries(all, some).Ok? && forall e :: e in all ==> DistinctThroughout(e.value)
    ensures forall i :: 0 <= i < |some| ==> Ascending(NormalizeEntries(all, some)[i].value)
    decreases all, |some|
  {
    hide Encode, Normalize, Ascending, DistinctThroughout, KeyBytes;
    if some != [] {
      EntryIsSmaller(all, some[0]);
      assert Among(some[1..], all);
      NormalAscends(some[0].value);
      NormalEntriesAscend(all, some[1..]);
    }
  }

  lemma {:induction false} NormalMapAscends(es: seq<Entry>)
    requires Encode(Map(es)).Ok? && DistinctThroughout(Map(es))
    ensures Ascending(Normalize(Map(es)))
    decreases es, |es| + 1
  {
    MapEncoding(es);
    DistinctInside(es);
    hide Encode, KeysGood, ByKey, EncodeEntries, NormalizeEntries, WithHead, DistinctThroughout, Ascending, KeyBytes;
    var some := ByKey(es);
    var n := NormalizeEntries(es, some);
    assert EncodeEntries(es, some).Ok? by { HeadNeedsBody(|es|, EncodeEntries(es, some)); }
    NormalEntriesAscend(es, some);
    NormalizedEntriesAgree(es, some);
    forall i, j | 0 <= i < j < |n| ensures Increases(KeyCode(n[i].key), KeyCode(n[j].key)) {
      SortedKeysIncrease(es, i, j);
    }
    MapAscends(n);
  }

  lemma MapAscends(es: seq<Entry>)
    requires forall i, j :: 0 <= i < j < |es| ==> Increases(KeyCode(es[i].key), KeyCode(es[j].key))
    requires forall i :: 0 <= i < |es| ==> Ascending(es[i].value)
    ensures Ascending(Map(es))
  {
    hide Increases, KeyCode;
  }

  lemma HeadNeedsBody(n: nat, body: Result<Bytes>)
    requires WithHead(n, body).Ok?
    ensures body.Ok?
  {}

  lemma DistinctInside(es: seq<Entry>)
    requires DistinctThroughout(Map(es))
    ensures DistinctKeys(es) && forall e :: e in es ==> DistinctThroughout(e.value)
  {
    forall e | e in es ensures DistinctThroughout(e.value) {
      var i :| 0 <= i < |es| && es[i] == e;
      assert DistinctThroughout(es[i].value);
    }
  }

  /** Once sorted, the encoded keys of a dictionary strictly increase. */
  lemma SortedKeysIncrease(es: seq<Entry>, i: nat, j: nat)
    requires DistinctKeys(es) && KeysGood(es) && i < j < |es|
    ensures Increases(KeyCode(ByKey(es)[i].key), KeyCode(ByKey(es)[j].key))
  {
    SortIsSorted(es);
    SortedKeysDistinct(es);
    SortAmong(es);
    var a, b := ByKey(es)[i], ByKey(es)[j];
    assert InOrder(a, b) && a.key != b.key && a in es && b in es;
    hide ByKey, Less, EncodeText;
    if KeyBytes(a) == KeyBytes(b) { KeyBytesInjective(a, b); }
  }

  /** What the encoding of a value with distinct keys decodes to lists, in every map at every depth, keys
      whose encodings strictly increase in byte order (section 4.2.1 of RFC 8949). */
  lemma KeysAscend(v: Value)
    requires Encode(v).Ok? && DistinctThroughout(v)
    ensures Decode(Encode(v).value).Some? && Ascending(Decode(Encode(v).value).value.0)
  {
    hide Encode, Normalize, Decode, Ascending, DistinctThroughout;
    RoundTrip(v, []);
    assert Encode(v).value + [] == Encode(v).value;
    NormalAscends(v);
  }

  // ---- the source's emitters, which append to one shared list ----

  /** What a call that emits `encoded` does: append those bytes, or report that error. */
  ghost predicate Emitted(before: Bytes, after: Bytes, encoded: Result<Bytes>, outcome: Result<()>) {
    match encoded
    case Ok(bs) => outcome == Ok(()) && after == before + bs
    case Err(e) => outcome == Err(e) && before <= after
  }

  /** The `out` list that every emitter appends to, joined. */
  class Output {
    var bytes: Bytes

    constructor ()
      ensures bytes == []
    {
      bytes := [];
    }

    method EmitHead(major: nat, n: nat) returns (outcome: Result<()>)
      requires major < 8
      modifies this
      ensures Emitted(old(bytes), bytes, Head(major, n), outcome)
    {
      var mt := 32 * major;
      if n >= TWO64 {
        return Err(Unaddressable);
      }
      if n < 24 {
        bytes := bytes + [mt + n];
      } else if n < 0x100 {
        bytes := bytes + [mt + 24, n];
      } else if n < 0x10000 {
        bytes := bytes + ([mt + 25] + BigEndian(n, 2));
      } else if n < 0x1_0000_0000 {
        bytes := bytes + ([mt + 26] + BigEndian(n, 4));
      } else {
        bytes := bytes + ([mt + 27] + BigEndian(n, 8));
      }
      return Ok(());
    }

    method EmitBignum(x: int) returns (outcome: Result<()>)
      modifies this
      ensures Emitted(old(bytes), bytes, EncodeBignum(x), outcome)
    {
      hide HeadBytes, BigEndian;
      var tag, mag: nat := 3, 0;
      if x >= 0 {
        tag, mag := 2, x;
      } else {
        mag := -1 - x;
      }
      var raw := Magnitude(mag);
      bytes := bytes + [0xC0 + tag];
      outcome := EmitHead(2, |raw|);
      if outcome.Ok? {
        bytes := bytes + raw;
        assert bytes == old(bytes) + ([0xC0 + tag] + HeadBytes(2, |raw|) + raw);
      }
    }

    method EmitInt(x: int) returns (outcome: Result<()>)
      modifies this
      ensures Emitted(old(bytes), bytes, EncodeInt(x), outcome)
    {
      hide HeadBytes, EncodeBignum;
      if 0 <= x < TWO64 {
        outcome := EmitHead(0, x);
      } else if -TWO64 <= x < 0 {
        outcome := EmitHead(1, -1 - x);
      } else {
        outcome := EmitBignum(x);
      }
    }

    method EmitFloat(d: Float64) returns (outcome: Result<()>)
      modifies this
      ensures Emitted(old(bytes), bytes, EncodeFloat(d), outcome)
    {
      if !Finite(d) {
        return Err(NonFinite);
      }
      if Integral(d) {
        outcome := EmitInt(ToInt(d));
        return;
      }
      bytes := bytes + ([0xFB] + BigEndian(Bits(d), 8));
      return Ok(());
    }

    method EmitText(s: String) returns (outcome: Result<()>)
      modifies this
      ensures Emitted(old(bytes), bytes, EncodeText(s), outcome)
    {
      hide HeadBytes;
      if !Encodable(s) {
        return Err(BadText);
      }
      var b := Utf8(s);
      outcome := EmitHead(3, |b|);
      if outcome.Ok? {
        bytes := bytes + b;
        assert bytes == old(bytes) + (HeadBytes(3, |b|) + b);
      }
    }

    method EmitArray(items: seq<Value>) returns (outcome: Result<()>)
      modifies this
      ensures Emitted(old(bytes), bytes, EncodeArray(items), outcome)
      decreases items, |items| + 1
    {
      hide HeadBytes, Encode;
      outcome := EmitHead(4, |items|);
      if outcome.Err? {
        return;
      }
      ghost var start := bytes;
      assert start == old(bytes) + HeadBytes(4, |items|);
      assert items[0..] == items;
      for i := 0 to |items|
        invariant outcome == Ok(())
        invariant old(bytes) <= start <= bytes
        invariant match EncodeItems(items[i..])
                  case Ok(tail) => EncodeItems(items).Ok? && start + EncodeItems(items).value == bytes + tail
                  case Err(e) => EncodeItems(items) == Err(e)
      {
        assert items[i..][0] == items[i] && items[i..][1..] == items[i + 1..];
        outcome := Emit(items[i]);
        if outcome.Err? {
          return;
        }
      }
      assert items[|items|..] == [];
      assert start + EncodeItems(items).value == bytes + [] == bytes;
      assert bytes == old(bytes) + (HeadBytes(4, |items|) + EncodeItems(items).value);
    }

    method EmitRaw(bs: Bytes) returns (outcome: Result<()>)
      modifies this
      ensures Emitted(old(bytes), bytes, Encode(Raw(bs)), outcome)
    {
      hide HeadBytes;
      outcome := EmitHead(2, |bs|);
      if outcome.Ok? {
        bytes := bytes + bs;
        assert bytes == old(bytes) + (HeadBytes(2, |bs|) + bs);
      }
    }

    /** Keys first, in insertion order, each into a list of its own; then the items in key order. */
    method EmitMap(entries: seq<Entry>) returns (outcome: Result<()>)
      modifies this
      ensures Emitted(old(bytes), bytes, Encode(Map(entries)), outcome)
      decreases entries, |entries| + 1
    {
      hide HeadBytes, EncodeText, ByKey;
      assert entries[0..] == entries;
      for i := 0 to |entries|
        invariant bytes == old(bytes)
        invariant CheckKeys(entries) == CheckKeys(entries[i..])
      {
        assert entries[i..][0] == entries[i] && entries[i..][1..] == entries[i + 1..];
        var key := entries[i].key;
        if !key.Str? {
          return Err(Unaddressable);
        }
        var kb := new Output();
        outcome := kb.EmitText(key.s);
        if outcome.Err? {
          return;
        }
      }
      assert CheckKeys(entries) == Ok(());
      var items := ByKey(entries);
      SortAmong(entries);
      outcome := EmitHead(5, |items|);
      if outcome.Ok? {
        ghost var start := bytes;
        outcome := EmitEntries(entries, items);
        if outcome.Ok? {
          assert bytes == old(bytes) + (HeadBytes(5, |entries|) + EncodeEntries(entries, items).value);
        }
      }
    }

    /** The loop over the sorted items of a map. */
    method EmitEntries(entries: seq<Entry>, items: seq<Entry>) returns (outcome: Result<()>)
      requires Among(items, entries)
      modifies this
      ensures Emitted(old(bytes), bytes, EncodeEntries(entries, items), outcome)
      decreases entries, |entries|
    {
      hide Encode, KeyBytes;
      outcome := Ok(());
      assert items[0..] == items;
      for i := 0 to |items|
        invariant outcome == Ok(())
        invariant old(bytes) <= bytes
        invariant Among(items[i..], entries)
        invariant match EncodeEntries(entries, items[i..])
                  case Ok(tail) => EncodeEntries(entries, items).Ok?
                                   && old(bytes) + EncodeEntries(entries, items).value == bytes + tail
                  case Err(e) => EncodeEntries(entries, items) == Err(e)
      {
        assert items[i..][0] == items[i] && items[i..][1..] == items[i + 1..];
        EntryIsSmaller(entries, items[i]);
        bytes := bytes + KeyBytes(items[i]);
        outcome := Emit(items[i].value);
        if outcome.Err? {
          return;
        }
      }
      assert items[|items|..] == [];
    }

    method Emit(v: Value) returns (outcome: Result<()>)
      modifies this
      ensures Emitted(old(bytes), bytes, Encode(v), outcome)
      decreases v, 0
    {
      outcome := Ok(());
      match v
      case Null => bytes := bytes + [0xF6];
      case Bool(b) => bytes := bytes + [if b then 0xF5 else 0xF4];
      case Int(i) => outcome := EmitInt(i);
      case Float(d) => outcome := EmitFloat(d);
      case Str(s) => outcome := EmitText(s);
      case Raw(bs) => outcome := EmitRaw(bs);
      case List(items) => outcome := EmitArray(items);
      case Tuple(items) => outcome := EmitArray(items);
      case Map(entries) => outcome := EmitMap(entries);
      case Unsupported => outcome := Err(Unaddressable);
    }
  }

  method StructuralEncode(v: Value) returns (r: Result<Bytes>)
    ensures r == Encode(v)
  {
    var out := new Output();
    var outcome := out.Emit(v);
    assert Encode(v).Ok? ==> [] + Encode(v).value == Encode(v).value;
    r := if outcome.Ok? then Ok(out.bytes) else Err(outcome.error);
  }
}
