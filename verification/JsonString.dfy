/** JSON string literals as `json.dumps(..., ensure_ascii=False)` writes them, and their parser. */
module JsonString {
  import opened Outcomes
  import opened Text

  /** One hexadecimal digit in lower case. */
  function Hex(n: nat): CodePoint
    requires n < 16
  {
    if n < 10 then 48 + n else 87 + n
  }

  function HexValue(c: int): Option<nat> {
    if 48 <= c < 58 then Some(c - 48)
    else if 97 <= c < 103 then Some(c - 87)
    else if 65 <= c < 71 then Some(c - 55)
    else None
  }

  /** The character of a two-character escape, and back: quote, backslash, \b, \t, \n, \f, \r. */
  function Short(c: CodePoint): Option<CodePoint> {
    if c == 34 || c == 92 then Some(c)
    else if c == 8 then Some(98)
    else if c == 9 then Some(116)
    else if c == 10 then Some(110)
    else if c == 12 then Some(102)
    else if c == 13 then Some(114)
    else None
  }

  function Unshort(c: CodePoint): Option<CodePoint> {
    if c == 34 || c == 92 || c == 47 then Some(c)
    else if c == 98 then Some(8)
    else if c == 116 then Some(9)
    else if c == 110 then Some(10)
    else if c == 102 then Some(12)
    else if c == 114 then Some(13)
    else None
  }

  function Escape(c: CodePoint): (s: String)
    ensures s != []
  {
    if Short(c).Some? then [92, Short(c).value]
    else if c < 32 then [92, 117, 48, 48, Hex(c / 16), Hex(c % 16)]
    else [c]
  }

  function Escaped(s: String): String {
    if s == [] then [] else Escape(s[0]) + Escaped(s[1..])
  }

  function Quoted(s: String): String {
    [34] + (Escaped(s) + [34])
  }

  // ---- the parser ----

  /** One character of a literal, and the text after it. */
  function ParseChar(s: String): (r: Option<(CodePoint, String)>)
    ensures r.Some? ==> |r.value.1| < |s|
  {
    if s == [] || s[0] < 32 || s[0] == 34 then None
    else if s[0] != 92 then Some((s[0], s[1..]))
    else if |s| >= 2 && s[1] != 117 then
      (match Unshort(s[1])
       case None => None
       case Some(c) => Some((c, s[2..])))
    else if |s| >= 6 && HexValue(s[2]).Some? && HexValue(s[3]).Some? && HexValue(s[4]).Some? && HexValue(s[5]).Some? then
      var c := ((HexValue(s[2]).value * 16 + HexValue(s[3]).value) * 16 + HexValue(s[4]).value) * 16 + HexValue(s[5]).value;
      Some((c, s[6..]))
    else None
  }

  /** The characters up to the closing quote, and the text after it. */
  function ParseChars(s: String): (r: Option<(String, String)>)
    ensures r.Some? ==> |r.value.1| < |s|
    decreases |s|
  {
    if s != [] && s[0] == 34 then Some(([], s[1..]))
    else
      match ParseChar(s)
      case None => None
      case Some((c, rest)) =>
        match ParseChars(rest)
        case None => None
        case Some((cs, after)) => Some(([c] + cs, after))
  }

  function ParseQuoted(s: String): (r: Option<(String, String)>)
    ensures r.Some? ==> |r.value.1| < |s|
  {
    if s == [] || s[0] != 34 then None else ParseChars(s[1..])
  }

  lemma CharParses(c: CodePoint, rest: String)
    ensures ParseChar(Escape(c) + rest) == Some((c, rest))
    ensures (Escape(c) + rest)[0] != 34
  {
    var s := Escape(c) + rest;
    assert s[0] == Escape(c)[0];
    assert s[|Escape(c)|..] == rest;
    if Short(c).Some? {
      assert s[1] == Escape(c)[1];
    } else if c < 32 {
      assert s[1] == 117 && s[2] == 48 && s[3] == 48 && s[4] == Hex(c / 16) && s[5] == Hex(c % 16);
    }
  }

  lemma {:induction false} CharsParse(s: String, rest: String)
    ensures ParseChars(Escaped(s) + ([34] + rest)) == Some((s, rest))
  {
    hide Escape, ParseChar;
    if s == [] {
      var t := Escaped(s) + ([34] + rest);
      assert t == [34] + rest && t[1..] == rest;
    } else {
      var tail := Escaped(s[1..]) + ([34] + rest);
      assert Escaped(s) + ([34] + rest) == Escape(s[0]) + tail;
      CharParses(s[0], tail);
      CharsParse(s[1..], rest);
      assert [s[0]] + s[1..] == s;
    }
  }

  /** The parser undoes quoting, for every text. */
  lemma QuotedParses(s: String, rest: String)
    ensures ParseQuoted(Quoted(s) + rest) == Some((s, rest))
  {
    hide Escaped, ParseChars;
    CharsParse(s, rest);
    var t := Quoted(s) + rest;
    assert t[0] == 34;
    assert t[1..] == Escaped(s) + ([34] + rest);
  }

  // ---- of all literals of a text, the one that is written ----

  lemma {:induction false} LessExtends(u: seq<int>, v: seq<int>, a: seq<int>, b: seq<int>)
    requires |u| == |v| && Less(u, v)
    ensures Less(u + a, v + b)
  {
    assert (u + a)[1..] == u[1..] + a && (v + b)[1..] == v[1..] + b;
    if u[0] == v[0] { LessExtends(u[1..], v[1..], a, b); }
  }

  /** No way to write a character is shorter than its escape; one as short is the escape or sorts before it. */
  lemma CharMinimal(s: String, c: CodePoint, rest: String)
    requires ParseChar(s) == Some((c, rest))
    ensures var k := |s| - |rest|;
            && 0 < k && s == s[..k] + rest && |Escape(c)| <= k
            && (k == |Escape(c)| ==> s[..k] == Escape(c) || Less(s[..k], Escape(c)))
  {
    var k := |s| - |rest|;
    if s[0] == 92 && |s| >= 2 && s[1] != 117 {
      assert s[..2] == [92, s[1]];
    } else if s[0] == 92 {
      CodeMinimal(s, c);
    }
  }

  lemma CodeMinimal(s: String, c: CodePoint)
    requires |s| >= 6 && s[0] == 92 && s[1] == 117
    requires HexValue(s[2]).Some? && HexValue(s[3]).Some? && HexValue(s[4]).Some? && HexValue(s[5]).Some?
    requires c == ((HexValue(s[2]).value * 16 + HexValue(s[3]).value) * 16 + HexValue(s[4]).value) * 16 + HexValue(s[5]).value
    ensures |Escape(c)| <= 6
    ensures |Escape(c)| == 6 ==> s[..6] == Escape(c) || Less(s[..6], Escape(c))
  {
    if |Escape(c)| == 6 {
      assert HexValue(s[2]).value == 0 && HexValue(s[3]).value == 0;
      assert HexValue(s[4]).value == c / 16 && HexValue(s[5]).value == c % 16;
      var head := [92, 117, 48, 48, s[4]];
      assert s[4] == Hex(c / 16);
      assert s[..6] == head + [s[5]] && Escape(c) == head + [Hex(c % 16)];
      LessPrefix(head, [s[5]], [Hex(c % 16)]);
    }
  }

  lemma {:induction false} CharsMinimal(t: String, s: String)
    requires ParseChars(t) == Some((s, []))
    ensures |Escaped(s)| + 1 <= |t|
    ensures |Escaped(s)| + 1 == |t| ==> t == Escaped(s) + [34] || Less(t, Escaped(s) + [34])
    decreases |t|
  {
    hide ParseChar, Escape, Less;
    if t[0] == 34 {
      assert t == [34];
    } else {
      var (c, rest) := ParseChar(t).value;
      CharMinimal(t, c, rest);
      CharsMinimal(rest, s[1..]);
      assert s[0] == c;
      var k := |t| - |rest|;
      var u, v := t[..k], Escape(c);
      var tail := Escaped(s[1..]) + [34];
      assert Escaped(s) + [34] == v + tail;
      if |Escaped(s)| + 1 == |t| {
        if u == v { LessPrefix(v, rest, tail); } else { LessExtends(u, v, rest, tail); }
      }
    }
  }

  /** Of all literals that read as a text, the one written is the shortest; and of the shortest it is the
      last in code point order, as lower-case hexadecimal digits make it. That leaves no other. */
  lemma QuotedIsOnly(s: String, literal: String)
    requires ParseQuoted(literal) == Some((s, []))
    ensures |Quoted(s)| <= |literal|
    ensures |Quoted(s)| == |literal| ==> literal == Quoted(s) || Less(literal, Quoted(s))
  {
    hide ParseChars, Escaped, Less;
    CharsMinimal(literal[1..], s);
    assert literal == [34] + literal[1..];
    LessPrefix([34], literal[1..], Escaped(s) + [34]);
  }
}
