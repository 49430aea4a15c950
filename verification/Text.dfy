/** Byte strings in lexicographic order, and the two encodings of text whose byte order the source
    sorts by: UTF-8 for leaves and structural map keys, UTF-16BE for canonical JSON keys. */
module Text {
  import opened Outcomes

  type Octet = x: int | 0 <= x < 256
  type CodePoint = x: int | 0 <= x < 0x110000
  type Bytes = seq<Octet>
  type String = seq<CodePoint>

  // ---- lexicographic order ----

  predicate Less(a: seq<int>, b: seq<int>) {
    b != [] && (a == [] || a[0] < b[0] || (a[0] == b[0] && Less(a[1..], b[1..])))
  }

  predicate Leq(a: seq<int>, b: seq<int>) {
    a == b || Less(a, b)
  }

  lemma {:induction false} LessIrreflexive(a: seq<int>)
    ensures !Less(a, a)
  {
    if a != [] { LessIrreflexive(a[1..]); }
  }

  lemma {:induction false} LessTransitive(a: seq<int>, b: seq<int>, c: seq<int>)
    requires Less(a, b) && Less(b, c)
    ensures Less(a, c)
  {
    if a != [] && a[0] == b[0] == c[0] { LessTransitive(a[1..], b[1..], c[1..]); }
  }

  lemma {:induction false} LessTotal(a: seq<int>, b: seq<int>)
    ensures Less(a, b) || a == b || Less(b, a)
  {
    if a != [] && b != [] && a[0] == b[0] {
      LessTotal(a[1..], b[1..]);
      if a[1..] == b[1..] { assert a == [a[0]] + a[1..] && b == [b[0]] + b[1..]; }
    }
  }

  lemma {:induction false} LessPrefix(p: seq<int>, a: seq<int>, b: seq<int>)
    ensures Less(p + a, p + b) <==> Less(a, b)
  {
    if p == [] {
      assert p + a == a && p + b == b;
    } else {
      LessPrefix(p[1..], a, b);
      assert (p + a)[1..] == p[1..] + a && (p + b)[1..] == p[1..] + b;
    }
  }

  lemma LeqTransitive(a: seq<int>, b: seq<int>, c: seq<int>)
    requires Leq(a, b) && Leq(b, c)
    ensures Leq(a, c)
  {
    if Less(a, b) && Less(b, c) { LessTransitive(a, b, c); }
  }

  lemma LeqAntisymmetric(a: seq<int>, b: seq<int>)
    requires Leq(a, b) && Leq(b, a)
    ensures a == b
  {
    if a != b {
      LessTransitive(a, b, a);
      LessIrreflexive(a);
    }
  }

  // ---- big-endian numbers ----

  function Pow256(k: nat): nat {
    if k == 0 then 1 else 256 * Pow256(k - 1)
  }

  function BigEndian(n: nat, k: nat): (bs: Bytes)
    ensures |bs| == k
  {
    if k == 0 then [] else BigEndian(n / 256, k - 1) + [n % 256]
  }

  function FromBigEndian(bs: Bytes): nat {
    if bs == [] then 0 else 256 * FromBigEndian(bs[..|bs| - 1]) + bs[|bs| - 1]
  }

  lemma {:induction false} BigEndianValue(n: nat, k: nat)
    requires n < Pow256(k)
    ensures FromBigEndian(BigEndian(n, k)) == n
  {
    if k > 0 {
      BigEndianValue(n / 256, k - 1);
      var bs := BigEndian(n, k);
      assert bs[..k - 1] == BigEndian(n / 256, k - 1) && bs[k - 1] == n % 256;
    }
  }

  lemma {:induction false} FromBigEndianBound(bs: Bytes)
    ensures FromBigEndian(bs) < Pow256(|bs|)
  {
    if bs != [] { FromBigEndianBound(bs[..|bs| - 1]); }
  }

  lemma {:induction false} LessAppended(a: seq<int>, b: seq<int>, x: int, y: int)
    requires |a| == |b|
    ensures Less(a + [x], b + [y]) <==> Less(a, b) || (a == b && x < y)
  {
    if a != [] {
      assert (a + [x])[1..] == a[1..] + [x] && (b + [y])[1..] == b[1..] + [y];
      assert a == [a[0]] + a[1..] && b == [b[0]] + b[1..];
      LessAppended(a[1..], b[1..], x, y);
    }
  }

  /** Numbers of one width are ordered as their bytes are, which fixes the big-endian bytes of each. */
  lemma {:induction false} BigEndianOrder(m: nat, n: nat, k: nat)
    requires m < Pow256(k) && n < Pow256(k)
    ensures Less(BigEndian(m, k), BigEndian(n, k)) <==> m < n
  {
    if k > 0 {
      var m', n' := m / 256, n / 256;
      BigEndianOrder(m', n', k - 1);
      BigEndianValue(m', k - 1);
      BigEndianValue(n', k - 1);
      var a, b := BigEndian(m', k - 1), BigEndian(n', k - 1);
      assert BigEndian(m, k) == a + [m % 256] && BigEndian(n, k) == b + [n % 256];
      hide BigEndian, Less, FromBigEndian;
      LessAppended(a, b, m % 256, n % 256);
    }
  }

  // ---- UTF-8 ----

  predicate IsSurrogate(c: CodePoint) {
    0xD800 <= c < 0xE000
  }

  predicate Encodable(s: String) {
    forall i :: 0 <= i < |s| ==> !IsSurrogate(s[i])
  }

  /** A continuation byte holding the low six bits of n. */
  function Tail(n: nat): (b: Octet)
    ensures 0x80 <= b < 0xC0
  {
    0x80 + n % 64
  }

  function Utf8Char(c: CodePoint): (bs: Bytes)
    ensures 1 <= |bs| <= 4
  {
    if c < 0x80 then [c]
    else if c < 0x800 then [0xC0 + c / 64, Tail(c)]
    else if c < 0x10000 then [0xE0 + c / 64 / 64, Tail(c / 64), Tail(c)]
    else [0xF0 + c / 64 / 64 / 64, Tail(c / 64 / 64), Tail(c / 64), Tail(c)]
  }

  /** `str.encode("utf-8")` of text without surrogates. */
  function Utf8(s: String): Bytes {
    if s == [] then [] else Utf8Char(s[0]) + Utf8(s[1..])
  }

  /** The code point at the head of the bytes, and how many bytes it takes. */
  function DecodeChar(bs: Bytes): (r: Option<(CodePoint, nat)>)
    ensures r.Some? ==> 0 < r.value.1 <= |bs|
  {
    if |bs| >= 1 && bs[0] < 0x80 then Some((bs[0], 1))
    else if |bs| >= 2 && 0xC0 <= bs[0] < 0xE0 && bs[1] >= 0x80 then
      CheckedChar(Join(bs[0] - 0xC0, bs[1]), 2)
    else if |bs| >= 3 && 0xE0 <= bs[0] < 0xF0 && bs[1] >= 0x80 && bs[2] >= 0x80 then
      CheckedChar(Join(Join(bs[0] - 0xE0, bs[1]), bs[2]), 3)
    else if |bs| >= 4 && bs[0] >= 0xF0 && bs[1] >= 0x80 && bs[2] >= 0x80 && bs[3] >= 0x80 then
      CheckedChar(Join(Join(Join(bs[0] - 0xF0, bs[1]), bs[2]), bs[3]), 4)
    else None
  }

  function Join(n: nat, b: Octet): nat
    requires b >= 0x80
  {
    n * 64 + (b - 0x80)
  }

  lemma JoinTail(n: nat)
    ensures Join(n / 64, Tail(n)) == n
  {}

  function CheckedChar(c: int, n: nat): (r: Option<(CodePoint, nat)>)
    requires c >= 0
    ensures r.Some? ==> r.value.1 == n
  {
    if c < 0x110000 then Some((c, n)) else None
  }

  function Utf8Decode(bs: Bytes): Option<String> {
    if bs == [] then Some([])
    else match DecodeChar(bs)
      case None => None
      case Some((c, n)) =>
        match Utf8Decode(bs[n..])
        case None => None
        case Some(s) => Some([c] + s)
  }

  lemma DecodeEncodedChar(c: CodePoint, rest: Bytes)
    ensures DecodeChar(Utf8Char(c) + rest) == Some((c, |Utf8Char(c)|))
  {
    var bs := Utf8Char(c) + rest;
    assert bs[0] == Utf8Char(c)[0];
    if c >= 0x80 { assert bs[1] == Utf8Char(c)[1]; }
    if c >= 0x800 { assert bs[2] == Utf8Char(c)[2]; }
    if c >= 0x10000 { assert bs[3] == Utf8Char(c)[3]; }
    JoinTail(c);
    JoinTail(c / 64);
    JoinTail(c / 64 / 64);
    hide Join, Tail;
  }

  /** Decoding undoes encoding. */
  lemma {:induction false} Utf8RoundTrip(s: String)
    ensures Utf8Decode(Utf8(s)) == Some(s)
  {
    if s != [] {
      var rest := Utf8(s[1..]);
      DecodeEncodedChar(s[0], rest);
      Utf8RoundTrip(s[1..]);
      assert Utf8(s) == Utf8Char(s[0]) + rest;
      assert Utf8(s)[|Utf8Char(s[0])|..] == rest;
      assert [s[0]] + s[1..] == s;
    }
  }

  lemma LeadLess(c: CodePoint, d: CodePoint)
    requires c < d && |Utf8Char(c)| == |Utf8Char(d)|
    ensures Less(Utf8Char(c), Utf8Char(d))
  {
    TailLess(c, d);
    TailLess(c / 64, d / 64);
    TailLess(c / 64 / 64, d / 64 / 64);
    hide Tail;
    var a, b := Utf8Char(c), Utf8Char(d);
    if a[0] == b[0] && |a| > 2 && a[1] == b[1] {
      assert a[1..][1..] == a[2..] && b[1..][1..] == b[2..];
      assert Less(a[2..], b[2..]) by { if |a| == 4 { assert a[2..][1..] == [a[3]] && b[2..][1..] == [b[3]]; } }
      assert Less(a[1..], b[1..]);
    }
  }

  lemma TailLess(m: nat, n: nat)
    requires m <= n
    ensures m / 64 < n / 64 || (m / 64 == n / 64 && (m < n ==> Tail(m) < Tail(n)) && (m == n ==> Tail(m) == Tail(n)))
  {}

  lemma Utf8CharLess(c: CodePoint, d: CodePoint, r: Bytes, t: Bytes)
    requires c < d
    ensures Less(Utf8Char(c) + r, Utf8Char(d) + t)
  {
    var a, b := Utf8Char(c) + r, Utf8Char(d) + t;
    assert a[0] == Utf8Char(c)[0] && b[0] == Utf8Char(d)[0];
    if |Utf8Char(c)| == |Utf8Char(d)| {
      LeadLess(c, d);
      LessByTail(Utf8Char(c), Utf8Char(d), r, t);
    } else {
      hide Tail;
      assert a[0] < b[0];
    }
  }

  /** Equally long encodings that share a first byte compare by their tails. */
  lemma LessByTail(a: Bytes, b: Bytes, r: Bytes, t: Bytes)
    requires |a| == |b| && 1 <= |a| <= 4 && Less(a, b)
    ensures Less(a + r, b + t)
    decreases |a|
  {
    if a[0] == b[0] {
      assert (a + r)[1..] == a[1..] + r && (b + t)[1..] == b[1..] + t;
      if |a| > 1 { LessByTail(a[1..], b[1..], r, t); }
    }
  }

  /** UTF-8 byte order is code point order. */
  lemma {:induction false} Utf8Order(s: String, t: String)
    ensures Less(Utf8(s), Utf8(t)) <==> Less(s, t)
  {
    if s == [] || t == [] {
    } else if s[0] == t[0] {
      Utf8Order(s[1..], t[1..]);
      LessPrefix(Utf8Char(s[0]), Utf8(s[1..]), Utf8(t[1..]));
    } else if s[0] < t[0] {
      Utf8CharLess(s[0], t[0], Utf8(s[1..]), Utf8(t[1..]));
    } else {
      Utf8CharLess(t[0], s[0], Utf8(t[1..]), Utf8(s[1..]));
      if Less(Utf8(s), Utf8(t)) {
        LessTransitive(Utf8(s), Utf8(t), Utf8(s));
        LessIrreflexive(Utf8(s));
      }
    }
  }

  // ---- UTF-16, big-endian ----

  /** The UTF-16 code units of one code point. */
  function Units(c: CodePoint): (us: seq<int>)
    ensures 1 <= |us| <= 2 && forall i :: 0 <= i < |us| ==> 0 <= us[i] < 0x10000
  {
    if c < 0x10000 then [c]
    else [0xD800 + (c - 0x10000) / 1024, 0xDC00 + (c - 0x10000) % 1024]
  }

  function CodeUnits(s: String): (us: seq<int>)
    ensures forall i :: 0 <= i < |us| ==> 0 <= us[i] < 0x10000
  {
    if s == [] then [] else Units(s[0]) + CodeUnits(s[1..])
  }

  function UnitBytes(us: seq<int>): Bytes
    requires forall i :: 0 <= i < |us| ==> 0 <= us[i] < 0x10000
  {
    if us == [] then [] else [us[0] / 256, us[0] % 256] + UnitBytes(us[1..])
  }

  /** `str.encode("utf-16-be")` of text without surrogates. */
  function Utf16BE(s: String): Bytes {
    UnitBytes(CodeUnits(s))
  }

  lemma {:induction false} UnitBytesOrder(us: seq<int>, vs: seq<int>)
    requires forall i :: 0 <= i < |us| ==> 0 <= us[i] < 0x10000
    requires forall i :: 0 <= i < |vs| ==> 0 <= vs[i] < 0x10000
    ensures Less(UnitBytes(us), UnitBytes(vs)) <==> Less(us, vs)
  {
    if us != [] && vs != [] {
      UnitBytesOrder(us[1..], vs[1..]);
      var a, b := UnitBytes(us), UnitBytes(vs);
      assert a[1..][1..] == UnitBytes(us[1..]) && b[1..][1..] == UnitBytes(vs[1..]);
      assert Less(a, b) <==> a[0] < b[0] || (a[0] == b[0] && Less(a[1..], b[1..]));
      assert Less(a[1..], b[1..]) <==> a[1] < b[1] || (a[1] == b[1] && Less(a[1..][1..], b[1..][1..]));
    }
  }

  lemma UnitsInjective(c: CodePoint, d: CodePoint, r: String, t: String)
    requires !IsSurrogate(c) && !IsSurrogate(d)
    requires Units(c) + CodeUnits(r) == Units(d) + CodeUnits(t)
    ensures c == d && CodeUnits(r) == CodeUnits(t)
  {
    var a, b := Units(c) + CodeUnits(r), Units(d) + CodeUnits(t);
    assert a[0] == Units(c)[0] && b[0] == Units(d)[0];
    assert |Units(c)| == |Units(d)|;
    if c >= 0x10000 { assert a[1] == Units(c)[1] && b[1] == Units(d)[1]; }
    assert a[|Units(c)|..] == CodeUnits(r) && b[|Units(d)|..] == CodeUnits(t);
  }

  lemma {:induction false} CodeUnitsInjective(s: String, t: String)
    requires Encodable(s) && Encodable(t) && CodeUnits(s) == CodeUnits(t)
    ensures s == t
  {
    if s != [] && t != [] {
      UnitsInjective(s[0], t[0], s[1..], t[1..]);
      CodeUnitsInjective(s[1..], t[1..]);
      assert s == [s[0]] + s[1..] && t == [t[0]] + t[1..];
    }
  }

  /** Sorting by UTF-16BE bytes is the UTF-16 code-unit order, and it is total on encodable text. */
  lemma Utf16Order(s: String, t: String)
    requires Encodable(s) && Encodable(t)
    ensures Less(Utf16BE(s), Utf16BE(t)) <==> Less(CodeUnits(s), CodeUnits(t))
    ensures s == t || Less(Utf16BE(s), Utf16BE(t)) || Less(Utf16BE(t), Utf16BE(s))
  {
    UnitBytesOrder(CodeUnits(s), CodeUnits(t));
    UnitBytesOrder(CodeUnits(t), CodeUnits(s));
    LessTotal(CodeUnits(s), CodeUnits(t));
    if CodeUnits(s) == CodeUnits(t) { CodeUnitsInjective(s, t); }
  }

  /** The code-unit order and the code-point order of two characters disagree exactly when one is
      beyond the basic plane and the other lies above the surrogates within it. */
  lemma OrdersDisagree(c: CodePoint, d: CodePoint)
    requires !IsSurrogate(c) && !IsSurrogate(d) && c < d
    ensures !Less(Utf16BE([c]), Utf16BE([d])) <==> 0xE000 <= c < 0x10000 <= d
  {
    UnitBytesOrder(CodeUnits([c]), CodeUnits([d]));
    assert CodeUnits([c]) == Units(c) && CodeUnits([d]) == Units(d);
    if d >= 0x10000 && c >= 0x10000 {
      assert Units(c)[1..] == [Units(c)[1]] && Units(d)[1..] == [Units(d)[1]];
    }
  }
}
