/** Canonical JSON (`canonical.py`, RFC 8785): what text every value gets, a JSON parser, and the
    theorems that the parser undoes the printer and that two values get one text exactly when they
    say the same JSON. */
module Canonical {
  import opened Decimal
  import opened Floats
  import opened JsonNumber
  import opened JsonString
  import opened Outcomes
  import opened Sorting
  import opened Text

  /** What a caller may hand to the printer: numbers are already floats (`float(x)`), a tuple is a
      list, and `Other` is any further object with its `str`. */
  datatype Content =
    | Null
    | Bool(b: bool)
    | Number(f: Float64)
    | Str(s: String)
    | Map(entries: seq<Entry>)
    | List(items: seq<Content>)
    | Other(shown: String)

  /** One item of a dictionary, its key as `str(key)`; entries are listed in insertion order. */
  datatype Entry = Entry(key: String, value: Content)

  datatype Error = NonFinite | BadText

  type Result<+T> = Outcome<T, Error>

  // ---- the printer ----

  predicate InOrder(a: Entry, b: Entry) {
    Leq(Utf16BE(a.key), Utf16BE(b.key))
  }

  /** `sorted` by the key's UTF-16BE bytes. */
  function ByKey(entries: seq<Entry>): (r: seq<Entry>)
    ensures multiset(r) == multiset(entries) && |r| == |entries|
  {
    Sort(InOrder, entries)
  }

  /** Every key can be encoded, as sorting requires. */
  predicate KeysGood(entries: seq<Entry>) {
    forall e :: e in entries ==> Encodable(e.key)
  }

  predicate Among(some: seq<Entry>, all: seq<Entry>) {
    forall e :: e in some ==> e in all
  }

  lemma SortedAmong(entries: seq<Entry>)
    ensures Among(ByKey(entries), entries)
  {
    SameElements(ByKey(entries), entries);
  }

  lemma EntryIsSmaller(all: seq<Entry>, e: Entry)
    requires e in all
    ensures (all decreases to e.value)
  {
    var k :| 0 <= k < |all| && all[k] == e;
    assert (all decreases to all[k]);
    assert (e decreases to e.value);
  }

  function JcsNumber(f: Float64, repr: Repr): Result<String> {
    if !Finite(f) then Err(NonFinite) else Ok(NumberText(f, repr))
  }

  function Canonical(v: Content, repr: Repr): Result<String>
    decreases v, 0
  {
    match v
    case Null => Ok([110, 117, 108, 108])
    case Bool(b) => Ok(if b then [116, 114, 117, 101] else [102, 97, 108, 115, 101])
    case Number(f) => JcsNumber(f, repr)
    case Str(s) => Ok(Quoted(s))
    case Other(shown) => Ok(Quoted(shown))
    case List(items) =>
      var body :- CanonicalItems(items, repr);
      Ok([91] + (body + [93]))
    case Map(entries) =>
      if !KeysGood(entries) then Err(BadText)
      else
        SortedAmong(entries);
        var body :- CanonicalMembers(entries, ByKey(entries), repr);
        Ok([123] + (body + [125]))
  }

  function CanonicalItems(items: seq<Content>, repr: Repr): Result<String>
    decreases items, |items|
  {
    if items == [] then Ok([])
    else
      var first :- Canonical(items[0], repr);
      var rest :- CanonicalItems(items[1..], repr);
      Ok(first + Continued(|items| > 1, rest))
  }

  /** The entries of `some`, which all occur in `all`. */
  function CanonicalMembers(all: seq<Entry>, some: seq<Entry>, repr: Repr): Result<String>
    requires Among(some, all)
    decreases all, |some|
  {
    if some == [] then Ok([])
    else
      EntryIsSmaller(all, some[0]);
      var value :- Canonical(some[0].value, repr);
      assert Among(some[1..], all);
      var rest :- CanonicalMembers(all, some[1..], repr);
      Ok(Quoted(some[0].key) + ([58] + (value + Continued(|some| > 1, rest))))
  }

  /** A comma before what follows, if anything does. */
  function Continued(more: bool, rest: String): String {
    if more then [44] + rest else rest
  }

  /** `canonical_json`. */
  function CanonicalBytes(v: Content, repr: Repr): Result<Bytes> {
    var text :- Canonical(v, repr);
    if Encodable(text) then Ok(Utf8(text)) else Err(BadText)
  }

  // ---- what a text says ----

  datatype Json =
    | JNull
    | JBool(b: bool)
    | JNumber(d: Decimal)
    | JString(s: String)
    | JArray(items: seq<Json>)
    | JObject(members: seq<(String, Json)>)

  /** What the text of a value is to say: numbers as the decimals they denote, members in key order. */
  function Said(v: Content, repr: Repr): Json
    decreases v, 0
  {
    match v
    case Null => JNull
    case Bool(b) => JBool(b)
    case Number(f) => JNumber(Denoted(f, repr))
    case Str(s) => JString(s)
    case Other(shown) => JString(shown)
    case List(items) => JArray(SaidItems(items, repr))
    case Map(entries) =>
      SortedAmong(entries);
      JObject(SaidMembers(entries, ByKey(entries), repr))
  }

  function SaidItems(items: seq<Content>, repr: Repr): (r: seq<Json>)
    ensures |r| == |items|
    decreases items, |items|
  {
    if items == [] then [] else [Said(items[0], repr)] + SaidItems(items[1..], repr)
  }

  function SaidMembers(all: seq<Entry>, some: seq<Entry>, repr: Repr): (r: seq<(String, Json)>)
    requires Among(some, all)
    ensures |r| == |some|
    decreases all, |some|
  {
    if some == [] then []
    else
      EntryIsSmaller(all, some[0]);
      assert Among(some[1..], all);
      [(some[0].key, Said(some[0].value, repr))] + SaidMembers(all, some[1..], repr)
  }

  // ---- the parser (RFC 8259 without white space) ----

  function ParseWord(s: String, word: String, j: Json): (r: Option<(Json, String)>)
    requires word != []
    ensures r.Some? ==> |r.value.1| < |s|
  {
    if word <= s then Some((j, s[|word|..])) else None
  }

  function ParseValue(s: String): (r: Option<(Json, String)>)
    ensures r.Some? ==> |r.value.1| < |s|
    decreases |s|, 0
  {
    if s == [] then None
    else if s[0] == 110 then ParseWord(s, [110, 117, 108, 108], JNull)
    else if s[0] == 116 then ParseWord(s, [116, 114, 117, 101], JBool(true))
    else if s[0] == 102 then ParseWord(s, [102, 97, 108, 115, 101], JBool(false))
    else if s[0] == 34 then
      (match ParseQuoted(s)
       case None => None
       case Some((t, rest)) => Some((JString(t), rest)))
    else if s[0] == 91 then
      (match ParseArray(s[1..])
       case None => None
       case Some((items, rest)) => Some((JArray(items), rest)))
    else if s[0] == 123 then
      (match ParseObject(s[1..])
       case None => None
       case Some((members, rest)) => Some((JObject(members), rest)))
    else
      match ParseNumber(s)
      case None => None
      case Some((d, rest)) => Some((JNumber(d), rest))
  }

  /** The rest of an array after its bracket. */
  function ParseArray(s: String): (r: Option<(seq<Json>, String)>)
    ensures r.Some? ==> |r.value.1| < |s|
    decreases |s|, 2
  {
    if s != [] && s[0] == 93 then Some(([], s[1..])) else ParseItems(s)
  }

  function ParseItems(s: String): (r: Option<(seq<Json>, String)>)
    ensures r.Some? ==> |r.value.1| < |s|
    decreases |s|, 1
  {
    match ParseValue(s)
    case None => None
    case Some((j, rest)) =>
      if rest != [] && rest[0] == 93 then Some(([j], rest[1..]))
      else if rest != [] && rest[0] == 44 then
        (match ParseItems(rest[1..])
         case None => None
         case Some((js, after)) => Some(([j] + js, after)))
      else None
  }

  /** The rest of an object after its brace. */
  function ParseObject(s: String): (r: Option<(seq<(String, Json)>, String)>)
    ensures r.Some? ==> |r.value.1| < |s|
    decreases |s|, 3
  {
    if s != [] && s[0] == 125 then Some(([], s[1..])) else ParseMembers(s)
  }

  /** A quoted key, a colon and a value. */
  function ParseMember(s: String): (r: Option<((String, Json), String)>)
    ensures r.Some? ==> |r.value.1| < |s|
    decreases |s|, 1
  {
    match ParseQuoted(s)
    case None => None
    case Some((key, rest)) =>
      if rest == [] || rest[0] != 58 then None
      else
        match ParseValue(rest[1..])
        case None => None
        case Some((j, after)) => Some(((key, j), after))
  }

  function ParseMembers(s: String): (r: Option<(seq<(String, Json)>, String)>)
    ensures r.Some? ==> |r.value.1| < |s|
    decreases |s|, 2
  {
    match ParseMember(s)
    case None => None
    case Some((member, rest)) =>
      if rest != [] && rest[0] == 125 then Some(([member], rest[1..]))
      else if rest != [] && rest[0] == 44 then
        (match ParseMembers(rest[1..])
         case None => None
         case Some((members, after)) => Some(([member] + members, after)))
      else None
  }

  // ---- the parser undoes the printer ----

  lemma WordParses(word: String, j: Json, rest: String)
    requires word != []
    ensures ParseWord(word + rest, word, j) == Some((j, rest))
  {
    assert (word + rest)[|word|..] == rest;
  }

  lemma ConstantParses(v: Content, repr: Repr, rest: String)
    requires v.Null? || v.Bool?
    ensures ParseValue(Canonical(v, repr).value + rest) == Some((Said(v, repr), rest))
  {
    var word := Canonical(v, repr).value;
    WordParses(word, Said(v, repr), rest);
    assert (word + rest)[0] == word[0];
  }

  lemma StringParses(s: String, rest: String)
    ensures ParseValue(Quoted(s) + rest) == Some((JString(s), rest))
  {
    QuotedParses(s, rest);
    assert (Quoted(s) + rest)[0] == 34;
    hide ParseQuoted, Quoted;
  }

  lemma NumberDispatch(s: String)
    requires s != [] && (s[0] == 45 || IsDigit(s[0]))
    ensures ParseValue(s) == match ParseNumber(s) case None => None case Some((d, rest)) => Some((JNumber(d), rest))
  {
    hide ParseNumber;
  }

  lemma NumberValueParses(f: Float64, repr: Repr, rest: String)
    requires Delimited(rest)
    ensures ParseValue(NumberText(f, repr) + rest) == Some((JNumber(Denoted(f, repr)), rest))
  {
    hide ParseNumber, NumberText, Denoted, ParseValue;
    NumberParses(f, repr, rest);
    NumberStart(f, repr);
    assert (NumberText(f, repr) + rest)[0] == NumberText(f, repr)[0];
    NumberDispatch(NumberText(f, repr) + rest);
  }

  /** A number's text starts with a minus sign or a digit. */
  lemma NumberStart(f: Float64, repr: Repr)
    ensures var t := NumberText(f, repr); t != [] && (t[0] == 45 || IsDigit(t[0]))
  {
    hide Layout, OfInt, IntText, Denoted;
    NumberParses(f, repr, []);
    assert NumberText(f, repr) + [] == NumberText(f, repr);
    NumberStarts(NumberText(f, repr));
  }

  lemma NumberStarts(s: String)
    requires ParseNumber(s).Some?
    ensures s != [] && (s[0] == 45 || IsDigit(s[0]))
  {}

  lemma {:induction false} Parses(v: Content, repr: Repr, rest: String)
    requires Canonical(v, repr).Ok? && Delimited(rest)
    ensures ParseValue(Canonical(v, repr).value + rest) == Some((Said(v, repr), rest))
    decreases v, 0
  {
    hide ParseValue, Quoted, NumberText, Denoted;
    match v
    case Null => ConstantParses(v, repr, rest);
    case Bool(_) => ConstantParses(v, repr, rest);
    case Number(f) => NumberValueParses(f, repr, rest);
    case Str(s) => StringParses(s, rest);
    case Other(shown) => StringParses(shown, rest);
    case List(items) => ListParses(items, repr, rest);
    case Map(entries) => MapParses(entries, repr, rest);
  }

  lemma ArrayDispatch(t: String)
    ensures ParseValue([91] + t) == match ParseArray(t) case None => None case Some((items, rest)) => Some((JArray(items), rest))
  {
    var s := [91] + t;
    assert s[0] == 91 && s[1..] == t;
    hide ParseArray;
  }

  lemma ObjectDispatch(t: String)
    ensures ParseValue([123] + t) == match ParseObject(t) case None => None case Some((ms, rest)) => Some((JObject(ms), rest))
  {
    var s := [123] + t;
    assert s[0] == 123 && s[1..] == t;
    hide ParseObject;
  }

  lemma {:induction false} ListParses(items: seq<Content>, repr: Repr, rest: String)
    requires Canonical(List(items), repr).Ok?
    ensures ParseValue(Canonical(List(items), repr).value + rest) == Some((JArray(SaidItems(items, repr)), rest))
    decreases items, |items| + 1
  {
    hide ParseItems, ParseValue;
    var body := CanonicalItems(items, repr).value;
    var t := body + ([93] + rest);
    assert Canonical(List(items), repr).value + rest == [91] + t;
    ArrayDispatch(t);
    if items == [] {
      assert t == [93] + rest && t[1..] == rest;
    } else {
      hide Canonical;
      ItemsParse(items, repr, rest);
    }
  }

  lemma LastItem(s: String, j: Json, rest: String)
    requires ParseValue(s) == Some((j, [93] + rest))
    ensures ParseItems(s) == Some(([j], rest))
  {
    hide ParseValue;
    assert ([93] + rest)[1..] == rest;
  }

  lemma NextItem(s: String, j: Json, tail: String, js: seq<Json>, rest: String)
    requires ParseValue(s) == Some((j, [44] + tail)) && ParseItems(tail) == Some((js, rest))
    ensures ParseItems(s) == Some(([j] + js, rest))
  {
    hide ParseValue;
    assert ([44] + tail)[1..] == tail;
  }

  lemma {:induction false} ItemsParse(items: seq<Content>, repr: Repr, rest: String)
    requires items != [] && CanonicalItems(items, repr).Ok?
    ensures var s := CanonicalItems(items, repr).value + ([93] + rest);
            s != [] && s[0] != 93 && ParseItems(s) == Some((SaidItems(items, repr), rest))
    decreases items, |items|
  {
    hide Canonical, Said, ParseValue, ParseItems;
    var first := Canonical(items[0], repr).value;
    var more := CanonicalItems(items[1..], repr).value;
    var s := CanonicalItems(items, repr).value + ([93] + rest);
    var j := Said(items[0], repr);
    if |items| > 1 {
      var tail := more + ([93] + rest);
      assert s == first + ([44] + tail);
      Parses(items[0], repr, [44] + tail);
      ItemsParse(items[1..], repr, rest);
      NextItem(s, j, tail, SaidItems(items[1..], repr), rest);
    } else {
      assert items[1..] == [];
      assert s == first + ([93] + rest);
      Parses(items[0], repr, [93] + rest);
      LastItem(s, j, rest);
      assert SaidItems(items, repr) == [j];
    }
    ValueStart(s);
  }

  /** No value starts with a closing bracket or brace. */
  lemma ValueStart(s: String)
    requires ParseValue(s).Some?
    ensures s != [] && s[0] != 93 && s[0] != 125
  {
    if s != [] && (s[0] == 93 || s[0] == 125) { hide ParseNumber; NotNumber(s); }
  }

  lemma NotNumber(s: String)
    requires s != [] && (s[0] == 93 || s[0] == 125)
    ensures ParseNumber(s).None?
  {}

  lemma {:induction false} MapParses(entries: seq<Entry>, repr: Repr, rest: String)
    requires Canonical(Map(entries), repr).Ok?
    ensures ParseValue(Canonical(Map(entries), repr).value + rest) == Some((Said(Map(entries), repr), rest))
    decreases entries, |entries| + 1
  {
    hide ByKey, ParseMembers, ParseValue, KeysGood;
    SortedAmong(entries);
    var some := ByKey(entries);
    var body := CanonicalMembers(entries, some, repr).value;
    var t := body + ([125] + rest);
    assert Canonical(Map(entries), repr).value + rest == [123] + t;
    ObjectDispatch(t);
    if some == [] {
      assert t == [125] + rest && t[1..] == rest;
    } else {
      hide Canonical, CanonicalMembers, SaidMembers;
      MembersParse(entries, some, repr, rest);
    }
  }

  lemma {:induction false} MemberParses(e: Entry, repr: Repr, after: String)
    requires Canonical(e.value, repr).Ok? && Delimited(after)
    ensures ParseMember(Quoted(e.key) + ([58] + (Canonical(e.value, repr).value + after)))
         == Some(((e.key, Said(e.value, repr)), after))
    decreases e, 1
  {
    hide Canonical, Said, ParseValue, Quoted, ParseQuoted;
    var text := Canonical(e.value, repr).value;
    var rest := [58] + (text + after);
    QuotedParses(e.key, rest);
    assert rest[1..] == text + after;
    Parses(e.value, repr, after);
  }

  lemma LastMember(s: String, m: (String, Json), rest: String)
    requires ParseMember(s) == Some((m, [125] + rest))
    ensures ParseMembers(s) == Some(([m], rest))
  {
    hide ParseMember;
    assert ([125] + rest)[1..] == rest;
  }

  lemma NextMember(s: String, m: (String, Json), tail: String, ms: seq<(String, Json)>, rest: String)
    requires ParseMember(s) == Some((m, [44] + tail)) && ParseMembers(tail) == Some((ms, rest))
    ensures ParseMembers(s) == Some(([m] + ms, rest))
  {
    hide ParseMember;
    assert ([44] + tail)[1..] == tail;
  }

  lemma MemberStart(s: String)
    requires ParseMember(s).Some?
    ensures s != [] && s[0] != 125
  {
    hide ParseValue, ParseChars;
  }

  lemma {:induction false} MembersParse(all: seq<Entry>, some: seq<Entry>, repr: Repr, rest: String)
    requires Among(some, all) && some != [] && CanonicalMembers(all, some, repr).Ok?
    ensures var s := CanonicalMembers(all, some, repr).value + ([125] + rest);
            s != [] && s[0] != 125 && ParseMembers(s) == Some((SaidMembers(all, some, repr), rest))
    decreases all, |some|
  {
    hide Canonical, Said, ParseMember, ParseMembers, Quoted;
    var e := some[0];
    EntryIsSmaller(all, e);
    EntryIsLess(all, e);
    assert Among(some[1..], all);
    var value := Canonical(e.value, repr).value;
    var more := CanonicalMembers(all, some[1..], repr).value;
    var s := CanonicalMembers(all, some, repr).value + ([125] + rest);
    var m := (e.key, Said(e.value, repr));
    if |some| > 1 {
      var tail := more + ([125] + rest);
      assert s == Quoted(e.key) + ([58] + (value + ([44] + tail)));
      MemberParses(e, repr, [44] + tail);
      MembersParse(all, some[1..], repr, rest);
      NextMember(s, m, tail, SaidMembers(all, some[1..], repr), rest);
    } else {
      assert some[1..] == [];
      assert s == Quoted(e.key) + ([58] + (value + ([125] + rest)));
      MemberParses(e, repr, [125] + rest);
      LastMember(s, m, rest);
      assert SaidMembers(all, some, repr) == [m];
    }
    MemberStart(s);
  }

  lemma EntryIsLess(all: seq<Entry>, e: Entry)
    requires e in all
    ensures (all decreases to e)
  {
    var k :| 0 <= k < |all| && all[k] == e;
    assert (all decreases to all[k]);
  }

  /** The parser reads the canonical text back as what it is to say. */
  lemma CanonicalParses(v: Content, repr: Repr)
    requires Canonical(v, repr).Ok?
    ensures ParseValue(Canonical(v, repr).value) == Some((Said(v, repr), []))
  {
    hide Canonical, Said, ParseValue;
    Parses(v, repr, []);
    assert Canonical(v, repr).value + [] == Canonical(v, repr).value;
  }

  // ---- one JSON, one text ----

  /** The canonical text of what a value says. */
  predicate Printable(j: Json) {
    match j
    case JNumber(d) => Normal(d)
    case JArray(items) => forall i :: 0 <= i < |items| ==> Printable(items[i])
    case JObject(members) => forall i :: 0 <= i < |members| ==> Printable(members[i].1)
    case _ => true
  }

  function Print(j: Json): String
    requires Printable(j)
    decreases j, 0
  {
    match j
    case JNull => [110, 117, 108, 108]
    case JBool(b) => if b then [116, 114, 117, 101] else [102, 97, 108, 115, 101]
    case JNumber(d) => DecimalText(d)
    case JString(s) => Quoted(s)
    case JArray(items) => [91] + (PrintItems(items) + [93])
    case JObject(members) => [123] + (PrintMembers(members) + [125])
  }

  function PrintItems(items: seq<Json>): String
    requires forall i :: 0 <= i < |items| ==> Printable(items[i])
    decreases items, |items|
  {
    if items == [] then [] else Print(items[0]) + Continued(|items| > 1, PrintItems(items[1..]))
  }

  function PrintMembers(members: seq<(String, Json)>): String
    requires forall i :: 0 <= i < |members| ==> Printable(members[i].1)
    decreases members, |members|
  {
    if members == [] then []
    else
      assert (members decreases to members[0]);
      Quoted(members[0].0) + ([58] + (Print(members[0].1) + Continued(|members| > 1, PrintMembers(members[1..]))))
  }

  lemma {:induction false} CanonicalIsPrint(v: Content, repr: Repr)
    requires Canonical(v, repr).Ok?
    ensures Printable(Said(v, repr)) && Canonical(v, repr).value == Print(Said(v, repr))
    decreases v, 0
  {
    hide Quoted, NumberText, Denoted, DecimalText, ByKey;
    match v
    case Number(f) => NumberTextIsDecimalText(f, repr);
    case List(items) => ItemsArePrinted(items, repr);
    case Map(entries) =>
      SortedAmong(entries);
      MembersArePrinted(entries, ByKey(entries), repr);
    case _ =>
  }

  lemma {:induction false} ItemsArePrinted(items: seq<Content>, repr: Repr)
    requires CanonicalItems(items, repr).Ok?
    ensures var js := SaidItems(items, repr);
            (forall i :: 0 <= i < |js| ==> Printable(js[i])) && CanonicalItems(items, repr).value == PrintItems(js)
    decreases items, |items|
  {
    hide Canonical, Said, Print, Printable;
    if items != [] {
      CanonicalIsPrint(items[0], repr);
      ItemsArePrinted(items[1..], repr);
      var js := SaidItems(items, repr);
      assert js[1..] == SaidItems(items[1..], repr);
      assert forall i :: 0 < i < |js| ==> js[i] == js[1..][i - 1];
    }
  }

  lemma {:induction false} MembersArePrinted(all: seq<Entry>, some: seq<Entry>, repr: Repr)
    requires Among(some, all) && CanonicalMembers(all, some, repr).Ok?
    ensures var js := SaidMembers(all, some, repr);
            (forall i :: 0 <= i < |js| ==> Printable(js[i].1)) && CanonicalMembers(all, some, repr).value == PrintMembers(js)
    decreases all, |some|
  {
    hide Canonical, Said, Print, Printable, Quoted;
    if some != [] {
      EntryIsSmaller(all, some[0]);
      assert Among(some[1..], all);
      CanonicalIsPrint(some[0].value, repr);
      MembersArePrinted(all, some[1..], repr);
      var js := SaidMembers(all, some, repr);
      assert js[1..] == SaidMembers(all, some[1..], repr);
      assert forall i :: 0 < i < |js| ==> js[i] == js[1..][i - 1];
    }
  }

  /** Two values get one text exactly when they say the same JSON. */
  lemma SameTextIffSameJson(v: Content, w: Content, repr: Repr)
    requires Canonical(v, repr).Ok? && Canonical(w, repr).Ok?
    ensures Canonical(v, repr) == Canonical(w, repr) <==> Said(v, repr) == Said(w, repr)
  {
    hide Canonical, Said, ParseValue, Print, Printable;
    CanonicalParses(v, repr);
    CanonicalParses(w, repr);
    CanonicalIsPrint(v, repr);
    CanonicalIsPrint(w, repr);
  }

  /** And the same holds of the bytes a content address is taken over. */
  lemma SameBytesIffSameJson(v: Content, w: Content, repr: Repr)
    requires CanonicalBytes(v, repr).Ok? && CanonicalBytes(w, repr).Ok?
    ensures CanonicalBytes(v, repr) == CanonicalBytes(w, repr) <==> Said(v, repr) == Said(w, repr)
  {
    hide Canonical, Said, Utf8, Utf8Decode;
    SameTextIffSameJson(v, w, repr);
    Utf8RoundTrip(Canonical(v, repr).value);
    Utf8RoundTrip(Canonical(w, repr).value);
  }

  // ---- one text, one content ----

  /** A value without what canonical JSON forgets: the order of members, the sign of zero, and whether a
      string was the `str` of another object. */
  datatype Meaning =
    | MNull
    | MBool(b: bool)
    | MNumber(f: Float64)
    | MString(s: String)
    | MArray(items: seq<Meaning>)
    | MObject(members: seq<(String, Meaning)>)

  /** One zero. */
  function Unsigned(f: Float64): Float64 {
    if Significand(f) == 0 then Double(false, 0, 0) else f
  }

  function Meant(v: Content): Meaning
    decreases v, 0
  {
    match v
    case Null => MNull
    case Bool(b) => MBool(b)
    case Number(f) => MNumber(Unsigned(f))
    case Str(s) => MString(s)
    case Other(shown) => MString(shown)
    case List(items) => MArray(MeantItems(items))
    case Map(entries) =>
      SortedAmong(entries);
      MObject(MeantMembers(entries, ByKey(entries)))
  }

  function MeantItems(items: seq<Content>): (r: seq<Meaning>)
    ensures |r| == |items|
    decreases items, |items|
  {
    if items == [] then [] else [Meant(items[0])] + MeantItems(items[1..])
  }

  function MeantMembers(all: seq<Entry>, some: seq<Entry>): (r: seq<(String, Meaning)>)
    requires Among(some, all)
    ensures |r| == |some|
    decreases all, |some|
  {
    if some == [] then []
    else
      EntryIsSmaller(all, some[0]);
      assert Among(some[1..], all);
      [(some[0].key, Meant(some[0].value))] + MeantMembers(all, some[1..])
  }

  /** A JSON with its numbers read. */
  function Understood(j: Json, read: Decimal -> Float64): Meaning
    decreases j, 0
  {
    match j
    case JNull => MNull
    case JBool(b) => MBool(b)
    case JNumber(d) => MNumber(if d.digits == [] then Double(false, 0, 0) else read(d))
    case JString(s) => MString(s)
    case JArray(items) => MArray(UnderstoodItems(items, read))
    case JObject(members) => MObject(UnderstoodMembers(members, read))
  }

  function UnderstoodItems(items: seq<Json>, read: Decimal -> Float64): seq<Meaning>
    decreases items, |items|
  {
    if items == [] then [] else [Understood(items[0], read)] + UnderstoodItems(items[1..], read)
  }

  function UnderstoodMembers(members: seq<(String, Json)>, read: Decimal -> Float64): seq<(String, Meaning)>
    decreases members, |members|
  {
    if members == [] then []
    else
      assert (members decreases to members[0]);
      [(members[0].0, Understood(members[0].1, read))] + UnderstoodMembers(members[1..], read)
  }

  /** What a meaning says. */
  function Saying(m: Meaning, repr: Repr): Json
    decreases m, 0
  {
    match m
    case MNull => JNull
    case MBool(b) => JBool(b)
    case MNumber(f) => JNumber(Denoted(f, repr))
    case MString(s) => JString(s)
    case MArray(items) => JArray(SayingItems(items, repr))
    case MObject(members) => JObject(SayingMembers(members, repr))
  }

  function SayingItems(items: seq<Meaning>, repr: Repr): seq<Json>
    decreases items, |items|
  {
    if items == [] then [] else [Saying(items[0], repr)] + SayingItems(items[1..], repr)
  }

  function SayingMembers(members: seq<(String, Meaning)>, repr: Repr): seq<(String, Json)>
    decreases members, |members|
  {
    if members == [] then []
    else
      assert (members decreases to members[0]);
      [(members[0].0, Saying(members[0].1, repr))] + SayingMembers(members[1..], repr)
  }

  /** What a value says is a function of what it means. */
  lemma {:induction false} SaidIsSaying(v: Content, repr: Repr)
    ensures Said(v, repr) == Saying(Meant(v), repr)
    decreases v, 0
  {
    hide ByKey, Denoted;
    match v
    case Number(f) => UnsignedDenotes(f, repr);
    case List(items) => SaidItemsAreSaying(items, repr);
    case Map(entries) =>
      SortedAmong(entries);
      SaidMembersAreSaying(entries, ByKey(entries), repr);
    case _ =>
  }

  lemma UnsignedDenotes(f: Float64, repr: Repr)
    ensures Denoted(Unsigned(f), repr) == Denoted(f, repr)
  {
    hide Whole, OfInt;
  }

  lemma {:induction false} SaidItemsAreSaying(items: seq<Content>, repr: Repr)
    ensures SaidItems(items, repr) == SayingItems(MeantItems(items), repr)
    decreases items, |items|
  {
    hide Said, Meant, Saying;
    if items != [] {
      SaidIsSaying(items[0], repr);
      SaidItemsAreSaying(items[1..], repr);
      var ms := MeantItems(items);
      assert ms[0] == Meant(items[0]) && ms[1..] == MeantItems(items[1..]);
    }
  }

  lemma {:induction false} SaidMembersAreSaying(all: seq<Entry>, some: seq<Entry>, repr: Repr)
    requires Among(some, all)
    ensures SaidMembers(all, some, repr) == SayingMembers(MeantMembers(all, some), repr)
    decreases all, |some|
  {
    hide Said, Meant, Saying;
    if some != [] {
      EntryIsSmaller(all, some[0]);
      assert Among(some[1..], all);
      SaidIsSaying(some[0].value, repr);
      SaidMembersAreSaying(all, some[1..], repr);
      var ms := MeantMembers(all, some);
      assert ms[0] == (some[0].key, Meant(some[0].value)) && ms[1..] == MeantMembers(all, some[1..]);
    }
  }

  /** With its numbers read, what the text of a value says is what the value means. */
  lemma {:induction false} SaidIsUnderstood(v: Content, repr: Repr, read: Decimal -> Float64)
    requires ReadsBack(read, repr) && Canonical(v, repr).Ok?
    ensures Understood(Said(v, repr), read) == Meant(v)
    decreases v, 0
  {
    hide ByKey, Denoted, ReadsBack, NumberText, Quoted;
    match v
    case Number(f) => NumberIsUnderstood(f, repr, read);
    case List(items) => ItemsAreUnderstood(items, repr, read);
    case Map(entries) =>
      SortedAmong(entries);
      MembersAreUnderstood(entries, ByKey(entries), repr, read);
    case _ =>
  }

  lemma NumberIsUnderstood(f: Float64, repr: Repr, read: Decimal -> Float64)
    requires ReadsBack(read, repr) && Finite(f)
    ensures var d := Denoted(f, repr); Unsigned(f) == if d.digits == [] then Double(false, 0, 0) else read(d)
  {
    hide ReadsBack, Whole, OfInt;
    if Significand(f) != 0 { DenotedReads(f, repr, read); }
  }

  lemma {:induction false} ItemsAreUnderstood(items: seq<Content>, repr: Repr, read: Decimal -> Float64)
    requires ReadsBack(read, repr) && CanonicalItems(items, repr).Ok?
    ensures UnderstoodItems(SaidItems(items, repr), read) == MeantItems(items)
    decreases items, |items|
  {
    hide Said, Meant, Understood, Canonical, ReadsBack;
    if items != [] {
      SaidIsUnderstood(items[0], repr, read);
      ItemsAreUnderstood(items[1..], repr, read);
      var js := SaidItems(items, repr);
      assert js[0] == Said(items[0], repr) && js[1..] == SaidItems(items[1..], repr);
    }
  }

  lemma {:induction false} MembersAreUnderstood(all: seq<Entry>, some: seq<Entry>, repr: Repr, read: Decimal -> Float64)
    requires ReadsBack(read, repr) && Among(some, all) && CanonicalMembers(all, some, repr).Ok?
    ensures UnderstoodMembers(SaidMembers(all, some, repr), read) == MeantMembers(all, some)
    decreases all, |some|
  {
    hide Said, Meant, Understood, Canonical, ReadsBack, Quoted;
    if some != [] {
      EntryIsSmaller(all, some[0]);
      assert Among(some[1..], all);
      SaidIsUnderstood(some[0].value, repr, read);
      MembersAreUnderstood(all, some[1..], repr, read);
      var js := SaidMembers(all, some, repr);
      assert js[0] == (some[0].key, Said(some[0].value, repr)) && js[1..] == SaidMembers(all, some[1..], repr);
    }
  }

  /** Two values have one text exactly when they mean the same: the same members, items, strings and
      floats, zeros aside. */
  lemma SameTextIffSameMeaning(v: Content, w: Content, repr: Repr, read: Decimal -> Float64)
    requires ReadsBack(read, repr) && Canonical(v, repr).Ok? && Canonical(w, repr).Ok?
    ensures Canonical(v, repr) == Canonical(w, repr) <==> Meant(v) == Meant(w)
  {
    hide Canonical, Said, Meant, Understood, Saying, ReadsBack;
    SameTextIffSameJson(v, w, repr);
    SaidIsSaying(v, repr);
    SaidIsSaying(w, repr);
    SaidIsUnderstood(v, repr, read);
    SaidIsUnderstood(w, repr, read);
  }

  // ---- insertion order ----

  ghost predicate DistinctKeys(es: seq<Entry>) {
    forall i, j :: 0 <= i < j < |es| ==> es[i].key != es[j].key
  }

  lemma KeyOrder()
    ensures TotalOrder(InOrder)
  {
    hide Utf16BE, Less;
    forall a, b ensures InOrder(a, b) || InOrder(b, a) {
      LessTotal(Utf16BE(a.key), Utf16BE(b.key));
    }
    forall a, b, c | InOrder(a, b) && InOrder(b, c) ensures InOrder(a, c) {
      LeqTransitive(Utf16BE(a.key), Utf16BE(b.key), Utf16BE(c.key));
    }
  }

  lemma KeysAntisymmetric(es: seq<Entry>)
    requires DistinctKeys(es) && KeysGood(es)
    ensures Antisymmetric(InOrder, es)
  {
    hide Utf16BE, Less, Encodable;
    forall a, b | a in es && b in es && InOrder(a, b) && InOrder(b, a) ensures a == b {
      LeqAntisymmetric(Utf16BE(a.key), Utf16BE(b.key));
      Utf16Order(a.key, b.key);
      LessIrreflexive(Utf16BE(a.key));
    }
  }

  lemma SameSorted(e1: seq<Entry>, e2: seq<Entry>)
    requires multiset(e1) == multiset(e2) && DistinctKeys(e1) && KeysGood(e1)
    ensures ByKey(e1) == ByKey(e2)
  {
    hide InOrder, KeysGood;
    KeyOrder();
    KeysAntisymmetric(e1);
    SortIgnoresOrder(InOrder, e1, e2);
  }

  lemma {:induction false} ContextIrrelevant(all: seq<Entry>, all': seq<Entry>, some: seq<Entry>, repr: Repr)
    requires Among(some, all) && Among(some, all')
    ensures CanonicalMembers(all, some, repr) == CanonicalMembers(all', some, repr)
    decreases |some|
  {
    hide Canonical, Quoted;
    if some != [] {
      assert Among(some[1..], all) && Among(some[1..], all');
      ContextIrrelevant(all, all', some[1..], repr);
    }
  }

  /** The outermost dictionary alone: the same items in any order get the same text, or the same error. */
  lemma TopOrderIrrelevant(e1: seq<Entry>, e2: seq<Entry>, repr: Repr)
    requires multiset(e1) == multiset(e2) && DistinctKeys(e1)
    ensures Canonical(Map(e1), repr) == Canonical(Map(e2), repr)
  {
    hide ByKey, CanonicalMembers, Encodable;
    SameElements(e1, e2);
    if KeysGood(e1) {
      SameSorted(e1, e2);
      SortedAmong(e1);
      SortedAmong(e2);
      ContextIrrelevant(e1, e2, ByKey(e1), repr);
    }
  }

  // ---- insertion order at every depth ----

  /** Equal values, dictionaries at every depth being equal whatever their insertion order: their keys
      are distinct as text and pair off, with values that are alike. */
  ghost predicate Alike(v: Content, w: Content)
    decreases v, 0
  {
    match (v, w)
    case (List(xs), List(ys)) => AlikeItems(xs, ys)
    case (Map(es), Map(fs)) => AlikeMaps(es, fs)
    case _ => v == w
  }

  ghost predicate AlikeItems(xs: seq<Content>, ys: seq<Content>)
    decreases xs, 1
  {
    |xs| == |ys| && forall i :: 0 <= i < |xs| ==> Alike(xs[i], ys[i])
  }

  ghost predicate AlikeMaps(es: seq<Entry>, fs: seq<Entry>)
    decreases es, 1
  {
    && DistinctKeys(es) && DistinctKeys(fs)
    && (forall i :: 0 <= i < |es| ==> HasMate(es[i], fs))
    && (forall f :: f in fs ==> HasKey(es, f.key))
  }

  ghost predicate HasMate(e: Entry, fs: seq<Entry>)
    decreases e, 2
  {
    exists f :: f in fs && Mates(e, f)
  }

  ghost predicate HasKey(es: seq<Entry>, key: String) {
    exists e :: e in es && e.key == key
  }

  ghost predicate Mates(e: Entry, f: Entry)
    decreases e, 1
  {
    e.key == f.key && Alike(e.value, f.value)
  }

  /** `some` and `others` pair off in order. */
  ghost predicate Paired(some: seq<Entry>, others: seq<Entry>) {
    |some| == |others| && forall k :: 0 <= k < |some| ==> Mates(some[k], others[k])
  }

  lemma MateIn(e: Entry, fs: seq<Entry>) returns (f: Entry)
    requires HasMate(e, fs)
    ensures f in fs && Mates(e, f) && f.key == e.key
  {
    hide Alike;
    f :| f in fs && Mates(e, f);
  }

  lemma MateOf(es: seq<Entry>, fs: seq<Entry>, e: Entry) returns (f: Entry)
    requires AlikeMaps(es, fs) && e in es
    ensures f in fs && Mates(e, f) && f.key == e.key
  {
    f := MateIn(e, fs) by {
      hide HasMate, HasKey, DistinctKeys;
      var i :| 0 <= i < |es| && es[i] == e;
      assert HasMate(es[i], fs);
    }
  }

  lemma KeyedAlike(es: seq<Entry>, fs: seq<Entry>, f: Entry) returns (e: Entry)
    requires AlikeMaps(es, fs) && f in fs
    ensures e in es && e.key == f.key
  {
    hide HasMate, DistinctKeys;
    assert HasKey(es, f.key);
    e :| e in es && e.key == f.key;
  }

  lemma AlikeDistinct(es: seq<Entry>, fs: seq<Entry>)
    requires AlikeMaps(es, fs)
    ensures DistinctKeys(es) && DistinctKeys(fs)
  {
    hide HasMate, HasKey;
  }

  lemma MatesShareKey(e: Entry, f: Entry)
    requires Mates(e, f)
    ensures e.key == f.key && Alike(e.value, f.value)
  {
    hide Alike;
  }

  lemma AlikeKeysGood(es: seq<Entry>, fs: seq<Entry>)
    requires AlikeMaps(es, fs)
    ensures KeysGood(es) <==> KeysGood(fs)
  {
    hide AlikeMaps, Mates, Encodable;
    if KeysGood(es) {
      forall f | f in fs ensures Encodable(f.key) { var e := KeyedAlike(es, fs, f); }
    }
    if KeysGood(fs) {
      forall e | e in es ensures Encodable(e.key) { var f := MateOf(es, fs, e); }
    }
  }

  lemma SameKeySameEntry(es: seq<Entry>, a: Entry, b: Entry)
    requires DistinctKeys(es) && a in es && b in es && a.key == b.key
    ensures a == b
  {}

  /** The partners, in a dictionary that is alike, of some entries. */
  lemma {:induction false} Partners(some: seq<Entry>, es: seq<Entry>, fs: seq<Entry>) returns (others: seq<Entry>)
    requires Among(some, es) && AlikeMaps(es, fs)
    ensures Among(others, fs) && Paired(some, others)
  {
    hide AlikeMaps, Mates;
    if some == [] {
      others := [];
    } else {
      var f := MateOf(es, fs, some[0]);
      assert Among(some[1..], es);
      var rest := Partners(some[1..], es, fs);
      others := [f] + rest;
      forall k | 0 <= k < |some| ensures Mates(some[k], others[k]) {
        if k > 0 { assert some[k] == some[1..][k - 1] && others[k] == rest[k - 1]; }
      }
    }
  }

  lemma DistinctKeysNoRepeats(es: seq<Entry>)
    requires DistinctKeys(es)
    ensures NoRepeats(es)
  {}

  lemma AlignedNoRepeats(some: seq<Entry>, others: seq<Entry>)
    requires |some| == |others| && DistinctKeys(some) && forall k :: 0 <= k < |some| ==> some[k].key == others[k].key
    ensures NoRepeats(others)
  {}

  lemma OrderOfKeys(a: Entry, b: Entry, c: Entry, d: Entry)
    requires a.key == c.key && b.key == d.key
    ensures InOrder(a, b) <==> InOrder(c, d)
  {
    hide Utf16BE, Less;
  }

  lemma SortedKeysDistinct(es: seq<Entry>)
    requires DistinctKeys(es)
    ensures DistinctKeys(ByKey(es))
  {
    hide ByKey;
    forall i, j | 0 <= i < j < |es| ensures ByKey(es)[i].key != ByKey(es)[j].key { SortedDistinct(es, i, j); }
  }

  /** Dictionaries that are alike list alike entries under equal keys once sorted. */
  lemma AlikeSorted(es: seq<Entry>, fs: seq<Entry>)
    requires AlikeMaps(es, fs) && KeysGood(es)
    ensures Paired(ByKey(es), ByKey(fs)) && |es| == |fs|
  {
    hide AlikeMaps, Mates, KeysGood, ByKey, DistinctKeys, InOrder;
    AlikeDistinct(es, fs);
    AlikeKeysGood(es, fs);
    SortedAmong(es);
    SortedKeysDistinct(es);
    var some := ByKey(es);
    var others := Partners(some, es, fs);
    forall k | 0 <= k < |some| ensures some[k].key == others[k].key { MatesShareKey(some[k], others[k]); }
    forall f | f in fs ensures f in others {
      var e := KeyedAlike(es, fs, f);
      SameElements(ByKey(es), es);
      var k :| 0 <= k < |some| && some[k] == e;
      SameKeySameEntry(fs, others[k], f);
    }
    DistinctKeysNoRepeats(fs);
    AlignedNoRepeats(some, others);
    SameMembersPermute(others, fs);
    SameSorted(fs, others);
    SortIsSorted(es);
    forall i, j | 0 <= i < j < |others| ensures InOrder(others[i], others[j]) {
      OrderOfKeys(some[i], some[j], others[i], others[j]);
    }
    SortOfSortedEntries(others);
    SameElements(others, fs);
  }

  lemma SortIsSorted(es: seq<Entry>)
    ensures Sorted(InOrder, ByKey(es))
  {
    KeyOrder();
    SortSorted(InOrder, es);
  }

  lemma SortOfSortedEntries(es: seq<Entry>)
    requires Sorted(InOrder, es)
    ensures ByKey(es) == es
  {
    SortOfSorted(InOrder, es);
  }

  /** The insertion order of dictionaries, at every depth, never matters: values that differ in it alone
      get the same text, or the same error. */
  lemma {:induction false} InsertionOrderIrrelevant(v: Content, w: Content, repr: Repr)
    requires Alike(v, w)
    ensures Canonical(v, repr) == Canonical(w, repr)
    decreases v, 0
  {
    match v
    case List(xs) => AlikeTexts(xs, w.items, repr);
    case Map(es) => AlikeMapTexts(es, w.entries, repr);
    case _ =>
  }

  lemma {:induction false} AlikeTexts(xs: seq<Content>, ys: seq<Content>, repr: Repr)
    requires AlikeItems(xs, ys)
    ensures CanonicalItems(xs, repr) == CanonicalItems(ys, repr)
    decreases xs, |xs|
  {
    hide Canonical, Alike;
    if xs != [] {
      InsertionOrderIrrelevant(xs[0], ys[0], repr);
      AlikeTexts(xs[1..], ys[1..], repr);
    }
  }

  lemma {:induction false} AlikeMapTexts(es: seq<Entry>, fs: seq<Entry>, repr: Repr)
    requires AlikeMaps(es, fs)
    ensures Canonical(Map(es), repr) == Canonical(Map(fs), repr)
    decreases es, |es| + 1
  {
    hide KeysGood, ByKey, CanonicalMembers, AlikeMaps, Paired, Among;
    AlikeKeysGood(es, fs);
    SortedAmong(es);
    SortedAmong(fs);
    if KeysGood(es) {
      AlikeSorted(es, fs);
      AlikeMembers(es, fs, ByKey(es), ByKey(fs), repr);
    }
  }

  lemma {:induction false} AlikeMembers(es: seq<Entry>, fs: seq<Entry>, some: seq<Entry>, others: seq<Entry>, repr: Repr)
    requires Among(some, es) && Among(others, fs) && Paired(some, others)
    ensures CanonicalMembers(es, some, repr) == CanonicalMembers(fs, others, repr)
    decreases es, |some|
  {
    hide Canonical, Quoted, Alike, Mates;
    if some != [] {
      EntryIsSmaller(es, some[0]);
      EntryIsSmaller(fs, others[0]);
      MatesShareKey(some[0], others[0]);
      InsertionOrderIrrelevant(some[0].value, others[0].value, repr);
      assert Among(some[1..], es) && Among(others[1..], fs);
      AlikeMembers(es, fs, some[1..], others[1..], repr);
    }
  }

  // ---- keys that are one text ----

  /** The keys of some entries, in order. */
  function Keys(es: seq<Entry>): (ks: seq<String>)
    ensures |ks| == |es| && forall i :: 0 <= i < |es| ==> ks[i] == es[i].key
  {
    seq(|es|, i requires 0 <= i < |es| => es[i].key)
  }

  function Without<T>(xs: seq<T>, i: nat): (rest: seq<T>)
    requires i < |xs|
    ensures |rest| == |xs| - 1
  {
    xs[..i] + xs[i + 1..]
  }

  lemma WithoutOne<T>(xs: seq<T>, i: nat)
    requires i < |xs|
    ensures multiset(xs) == multiset(Without(xs, i)) + multiset{xs[i]}
  {
    assert xs == xs[..i] + [xs[i]] + xs[i + 1..];
  }

  lemma KeysWithout(es: seq<Entry>, i: nat)
    requires i < |es|
    ensures multiset(Keys(es)) == multiset(Keys(Without(es, i))) + multiset{es[i].key}
  {
    assert Keys(Without(es, i)) == Without(Keys(es), i);
    hide Keys;
    WithoutOne(Keys(es), i);
  }

  lemma {:induction false} KeysPermute(es: seq<Entry>, fs: seq<Entry>)
    requires multiset(es) == multiset(fs)
    ensures multiset(Keys(es)) == multiset(Keys(fs))
    decreases |es|
  {
    hide Keys, Without;
    SameElements(es, fs);
    if es == [] {
      assert fs == [];
    } else {
      assert es[0] in es;
      var i :| 0 <= i < |fs| && fs[i] == es[0];
      WithoutOne(es, 0);
      WithoutOne(fs, i);
      CancelOne(multiset(Without(es, 0)), multiset(Without(fs, i)), es[0]);
      KeysPermute(Without(es, 0), Without(fs, i));
      KeysWithout(es, 0);
      KeysWithout(fs, i);
    }
  }

  lemma CancelOne<T>(xs: multiset<T>, ys: multiset<T>, x: T)
    requires xs + multiset{x} == ys + multiset{x}
    ensures xs == ys
  {
    assert xs == (xs + multiset{x}) - multiset{x};
    assert ys == (ys + multiset{x}) - multiset{x};
  }

  predicate KeyLeq(s: String, t: String) {
    Leq(Utf16BE(s), Utf16BE(t))
  }

  lemma SortedKeys(es: seq<Entry>)
    ensures Sorted(KeyLeq, Keys(ByKey(es)))
  {
    SortIsSorted(es);
    hide ByKey, Utf16BE, Less;
    forall i, j | 0 <= i < j < |es| ensures KeyLeq(Keys(ByKey(es))[i], Keys(ByKey(es))[j]) {
      assert InOrder(ByKey(es)[i], ByKey(es)[j]);
    }
  }

  lemma KeysSeparate(es: seq<Entry>)
    requires KeysGood(es)
    ensures Antisymmetric(KeyLeq, Keys(es))
  {
    hide Utf16BE, Less, Encodable;
    forall a, b | a in Keys(es) && b in Keys(es) && KeyLeq(a, b) && KeyLeq(b, a) ensures a == b {
      var i :| 0 <= i < |es| && Keys(es)[i] == a;
      var j :| 0 <= j < |es| && Keys(es)[j] == b;
      assert es[i] in es && es[j] in es;
      LeqAntisymmetric(Utf16BE(a), Utf16BE(b));
      Utf16Order(a, b);
      LessIrreflexive(Utf16BE(a));
    }
  }

  /** Sorted, two orders of one dictionary's items list the same keys. */
  lemma SameKeysSorted(es: seq<Entry>, fs: seq<Entry>)
    requires multiset(es) == multiset(fs) && KeysGood(es)
    ensures Keys(ByKey(es)) == Keys(ByKey(fs))
  {
    SortedAmong(es);
    hide ByKey, Encodable;
    KeysPermute(ByKey(es), ByKey(fs));
    SortedKeys(es);
    SortedKeys(fs);
    KeysSeparate(ByKey(es));
    hide KeyLeq;
    OneSortedOrder(KeyLeq, Keys(ByKey(es)), Keys(ByKey(fs)));
  }

  /** Entries under one key have one text. */
  ghost predicate OneTextPerKey(es: seq<Entry>, repr: Repr) {
    forall a, b :: a in es && b in es && a.key == b.key ==> Canonical(a.value, repr) == Canonical(b.value, repr)
  }

  lemma {:induction false} AlignedMembers(es: seq<Entry>, fs: seq<Entry>, some: seq<Entry>, others: seq<Entry>, repr: Repr)
    requires Among(some, es) && Among(others, fs) && |some| == |others|
    requires forall k :: 0 <= k < |some| ==>
               some[k].key == others[k].key && Canonical(some[k].value, repr) == Canonical(others[k].value, repr)
    ensures CanonicalMembers(es, some, repr) == CanonicalMembers(fs, others, repr)
    decreases |some|
  {
    hide Canonical, Quoted;
    if some != [] {
      assert Among(some[1..], es) && Among(others[1..], fs);
      AlignedMembers(es, fs, some[1..], others[1..], repr);
    }
  }

  function Braced(body: Result<String>): Result<String> {
    if body.Err? then body else Ok([123] + (body.value + [125]))
  }

  lemma BracedText(es: seq<Entry>, repr: Repr)
    requires KeysGood(es)
    ensures Among(ByKey(es), es) && Canonical(Map(es), repr) == Braced(CanonicalMembers(es, ByKey(es), repr))
  {
    SortedAmong(es);
    hide ByKey, CanonicalMembers, KeysGood;
  }

  lemma SameTextAnyOrder(es: seq<Entry>, fs: seq<Entry>, repr: Repr)
    requires multiset(es) == multiset(fs) && KeysGood(es) && OneTextPerKey(es, repr)
    ensures Canonical(Map(es), repr) == Canonical(Map(fs), repr)
  {
    hide ByKey, CanonicalMembers, Encodable, Canonical, Braced;
    SameElements(es, fs);
    SortedAmong(es);
    SortedAmong(fs);
    BracedText(es, repr);
    BracedText(fs, repr);
    SameKeysSorted(es, fs);
    var some, others := ByKey(es), ByKey(fs);
    forall k | 0 <= k < |some|
      ensures some[k].key == others[k].key && Canonical(some[k].value, repr) == Canonical(others[k].value, repr)
    {
      assert Keys(some)[k] == Keys(others)[k];
      assert some[k] in es && others[k] in es;
    }
    AlignedMembers(es, fs, some, others, repr);
  }

  /** The first entry of its key, in a list. */
  predicate FirstOfKey(es: seq<Entry>, i: nat, e: Entry) {
    i < |es| && es[i] == e && forall j :: 0 <= j < i ==> es[j].key != e.key
  }

  lemma {:induction false} InsertedFirst(x: Entry, es: seq<Entry>) returns (i: nat)
    ensures FirstOfKey(Insert(InOrder, x, es), i, x)
  {
    if es == [] || InOrder(x, es[0]) {
      i := 0;
    } else {
      NotBefore(x, es[0]);
      var tail := Insert(InOrder, x, es[1..]);
      assert Insert(InOrder, x, es) == [es[0]] + tail;
      hide InOrder, Insert, FirstOfKey;
      var k := InsertedFirst(x, es[1..]);
      i := k + 1;
      FirstBehind(es[0], tail, k, x);
    }
  }

  lemma FirstBehind(y: Entry, es: seq<Entry>, i: nat, x: Entry)
    requires FirstOfKey(es, i, x) && x.key != y.key
    ensures FirstOfKey([y] + es, i + 1, x)
  {}

  lemma NotBefore(x: Entry, y: Entry)
    requires !InOrder(x, y)
    ensures x.key != y.key
  {
    hide Utf16BE, Less;
  }

  /** Sorting is stable: of the entries under one key the first stays first. */
  lemma SortKeepsFirst(x: Entry, es: seq<Entry>) returns (i: nat)
    ensures FirstOfKey(ByKey([x] + es), i, x)
  {
    assert ([x] + es)[0] == x && ([x] + es)[1..] == es;
    i := InsertedFirst(x, Sort(InOrder, es));
  }

  lemma {:induction false} SaidMembersAt(all: seq<Entry>, some: seq<Entry>, repr: Repr, i: nat)
    requires Among(some, all) && i < |some|
    ensures SaidMembers(all, some, repr)[i] == (some[i].key, Said(some[i].value, repr))
    decreases |some|
  {
    hide Said;
    assert Among(some[1..], all);
    if i > 0 { SaidMembersAt(all, some[1..], repr, i - 1); }
  }

  /** If two orders, each with its own first entry of a key, say the same, so do those entries. */
  lemma FirstsAgree(es: seq<Entry>, fs: seq<Entry>, a: Entry, b: Entry, i: nat, j: nat, repr: Repr)
    requires FirstOfKey(ByKey(es), i, a) && FirstOfKey(ByKey(fs), j, b) && a.key == b.key
    requires Said(Map(es), repr) == Said(Map(fs), repr)
    ensures Said(a.value, repr) == Said(b.value, repr)
  {
    SortedAmong(es);
    SortedAmong(fs);
    var some, others := ByKey(es), ByKey(fs);
    assert SaidMembers(es, some, repr) == SaidMembers(fs, others, repr);
    hide ByKey, Said, SaidMembers;
    assert |es| == |fs|;
    SaidMembersAt(es, some, repr, i);
    SaidMembersAt(fs, others, repr, j);
    if i < j { SaidMembersAt(fs, others, repr, i); }
    if j < i { SaidMembersAt(es, some, repr, j); }
  }

  lemma {:induction false} MembersAreOk(all: seq<Entry>, some: seq<Entry>, repr: Repr)
    requires Among(some, all) && forall e :: e in some ==> Canonical(e.value, repr).Ok?
    ensures CanonicalMembers(all, some, repr).Ok?
    decreases |some|
  {
    hide Canonical, Quoted;
    if some != [] {
      assert Among(some[1..], all) && some[0] in some;
      MembersAreOk(all, some[1..], repr);
    }
  }

  lemma DictionaryIsOk(es: seq<Entry>, repr: Repr)
    requires KeysGood(es) && forall e :: e in es ==> Canonical(e.value, repr).Ok?
    ensures Canonical(Map(es), repr).Ok?
  {
    SortedAmong(es);
    MembersAreOk(es, ByKey(es), repr);
    hide ByKey, CanonicalMembers, KeysGood;
  }

  lemma MoveToFront(es: seq<Entry>, a: Entry, b: Entry) returns (rest: seq<Entry>)
    requires a in es && b in es && a != b
    ensures multiset([a] + ([b] + rest)) == multiset(es)
  {
    hide Without;
    assert b in multiset(es);
    var i :| 0 <= i < |es| && es[i] == a;
    var others := Without(es, i);
    WithoutOne(es, i);
    assert b in multiset(others);
    var j :| 0 <= j < |others| && others[j] == b;
    rest := Without(others, j);
    WithoutOne(others, j);
  }

  // ---- what has no text, and why ----

  /** A part of the value, at some depth, is refused for this reason: a number that is not finite, or a
      dictionary key with a surrogate, which no sorting key encodes. */
  ghost predicate Fault(v: Content, e: Error)
    decreases v
  {
    match v
    case Number(f) => e == NonFinite && f.exponent == 2047
    case List(items) => exists i :: 0 <= i < |items| && Fault(items[i], e)
    case Map(es) =>
      || (e == BadText && exists i, j :: 0 <= i < |es| && 0 <= j < |es[i].key| && 0xD800 <= es[i].key[j] <= 0xDFFF)
      || exists i :: 0 <= i < |es| && Fault(es[i].value, e)
    case _ => false
  }

  ghost predicate ItemFault(items: seq<Content>, e: Error) {
    exists i :: 0 <= i < |items| && Fault(items[i], e)
  }

  /** The values of some of a dictionary's items have this fault. */
  ghost predicate SomeFault(some: seq<Entry>, e: Error) {
    exists x :: x in some && Fault(x.value, e)
  }

  /** A value has a text exactly when no part of it has a fault, and a failure names the fault of a part. */
  lemma {:induction false} PrintableIff(v: Content, repr: Repr)
    ensures Canonical(v, repr).Err? ==> Fault(v, Canonical(v, repr).error)
    ensures Canonical(v, repr).Ok? ==> forall e :: !Fault(v, e)
    decreases v, 0
  {
    match v
    case List(items) =>
      ListFault(items, repr);
    case Map(es) =>
      MapFault(es, repr);
    case _ =>
      hide NumberText, Quoted;
  }

  lemma {:induction false} ListFault(items: seq<Content>, repr: Repr)
    ensures Canonical(List(items), repr).Err? ==> Fault(List(items), Canonical(List(items), repr).error)
    ensures Canonical(List(items), repr).Ok? ==> forall e :: !Fault(List(items), e)
    decreases items, |items| + 1
  {
    ItemsFault(items, repr);
    ListText(items, repr);
    forall e ensures Fault(List(items), e) <==> ItemFault(items, e) {}
    hide Canonical, CanonicalItems, Fault, ItemFault;
  }

  lemma {:induction false} ItemsFault(items: seq<Content>, repr: Repr)
    ensures CanonicalItems(items, repr).Err? ==> ItemFault(items, CanonicalItems(items, repr).error)
    ensures CanonicalItems(items, repr).Ok? ==> forall e :: !ItemFault(items, e)
    decreases items, |items|
  {
    hide Canonical, Fault;
    if items != [] {
      PrintableIff(items[0], repr);
      ItemsFault(items[1..], repr);
      forall e ensures ItemFault(items, e) <==> Fault(items[0], e) || ItemFault(items[1..], e) {
        if i :| 0 <= i < |items[1..]| && Fault(items[1..][i], e) { assert Fault(items[i + 1], e); }
        if i :| 0 <= i < |items| && Fault(items[i], e) { assert i > 0 ==> Fault(items[1..][i - 1], e); }
      }
    }
  }

  lemma {:induction false} MembersFault(all: seq<Entry>, some: seq<Entry>, repr: Repr)
    requires Among(some, all)
    ensures CanonicalMembers(all, some, repr).Err? ==> SomeFault(some, CanonicalMembers(all, some, repr).error)
    ensures CanonicalMembers(all, some, repr).Ok? ==> forall e :: !SomeFault(some, e)
    decreases all, |some|
  {
    hide Canonical, Fault, Quoted;
    if some != [] {
      EntryIsSmaller(all, some[0]);
      assert Among(some[1..], all);
      PrintableIff(some[0].value, repr);
      MembersFault(all, some[1..], repr);
      forall e ensures SomeFault(some, e) <==> Fault(some[0].value, e) || SomeFault(some[1..], e) {
        if x :| x in some && Fault(x.value, e) { assert x == some[0] || x in some[1..]; }
        if x :| x in some[1..] && Fault(x.value, e) { assert x in some; }
      }
    }
  }

  lemma MapFaultIs(es: seq<Entry>, e: Error)
    ensures Fault(Map(es), e) <==> (e == BadText && !KeysGood(es)) || SomeFault(ByKey(es), e)
  {
    SameElements(ByKey(es), es);
    hide ByKey;
    if i, j :| 0 <= i < |es| && 0 <= j < |es[i].key| && 0xD800 <= es[i].key[j] <= 0xDFFF {
      assert es[i] in es && IsSurrogate(es[i].key[j]);
    }
    if x :| x in ByKey(es) && Fault(x.value, e) {
      var i :| 0 <= i < |es| && es[i] == x;
      assert Fault(es[i].value, e);
    }
    if i :| 0 <= i < |es| && Fault(es[i].value, e) { assert es[i] in ByKey(es); }
  }

  lemma {:induction false} MapFault(es: seq<Entry>, repr: Repr)
    ensures Canonical(Map(es), repr).Err? ==> Fault(Map(es), Canonical(Map(es), repr).error)
    ensures Canonical(Map(es), repr).Ok? ==> forall e :: !Fault(Map(es), e)
    decreases es, |es| + 1
  {
    SortedAmong(es);
    hide Canonical, CanonicalMembers, Fault, SomeFault, ByKey, KeysGood, Among;
    MembersFault(es, ByKey(es), repr);
    MapText(es, repr);
    forall e ensures Fault(Map(es), e) <==> (e == BadText && !KeysGood(es)) || SomeFault(ByKey(es), e) {
      MapFaultIs(es, e);
    }
  }

  /** Sorting comes first: with a key that cannot be encoded, nothing else of the dictionary is looked at. */
  lemma KeysAreSortedFirst(es: seq<Entry>, repr: Repr, i: nat, j: nat)
    requires i < |es| && j < |es[i].key| && 0xD800 <= es[i].key[j] <= 0xDFFF
    ensures Canonical(Map(es), repr) == Err(BadText)
  {
    SortedAmong(es);
    MapText(es, repr);
    assert es[i] in es && IsSurrogate(es[i].key[j]);
  }

  /** In any order of the items, entries of one key come first in turn; one text means they say the same. */
  lemma OrderShowsTexts(es: seq<Entry>, a: Entry, b: Entry, repr: Repr)
    requires KeysGood(es) && forall e :: e in es ==> Canonical(e.value, repr).Ok?
    requires forall fs :: multiset(fs) == multiset(es) ==> Canonical(Map(fs), repr) == Canonical(Map(es), repr)
    requires a in es && b in es && a.key == b.key
    ensures Canonical(a.value, repr) == Canonical(b.value, repr)
  {
    hide Canonical, Said, ByKey, KeysGood;
    if a != b {
      var rest := MoveToFront(es, a, b);
      var first, second := [a] + ([b] + rest), [b] + ([a] + rest);
      assert multiset(second) == multiset(first);
      DictionaryIsOk(es, repr);
      SameTextIffSameJson(Map(first), Map(second), repr);
      var i := SortKeepsFirst(a, [b] + rest);
      var j := SortKeepsFirst(b, [a] + rest);
      FirstsAgree(first, second, a, b, i, j, repr);
      SameTextIffSameJson(a.value, b.value, repr);
    }
  }

  /** Keys are told apart by their `str` alone, so 1 and "1" are one key here. A dictionary whose values can
      be printed has one text in every insertion order exactly when its entries under one key have one. */
  lemma OrderIrrelevantIff(es: seq<Entry>, repr: Repr)
    requires KeysGood(es) && forall e :: e in es ==> Canonical(e.value, repr).Ok?
    ensures (forall fs :: multiset(fs) == multiset(es) ==> Canonical(Map(fs), repr) == Canonical(Map(es), repr)) <==>
            OneTextPerKey(es, repr)
  {
    hide Canonical, KeysGood;
    if OneTextPerKey(es, repr) {
      forall fs | multiset(fs) == multiset(es) ensures Canonical(Map(fs), repr) == Canonical(Map(es), repr) {
        SameTextAnyOrder(es, fs, repr);
      }
    }
    if forall fs :: multiset(fs) == multiset(es) ==> Canonical(Map(fs), repr) == Canonical(Map(es), repr) {
      forall a, b | a in es && b in es && a.key == b.key ensures Canonical(a.value, repr) == Canonical(b.value, repr) {
        OrderShowsTexts(es, a, b, repr);
      }
    }
  }

  /** The members of a dictionary are printed in the UTF-16 code-unit order of their keys
      (section 3.2.3 of RFC 8785). */
  lemma KeysInCodeUnitOrder(es: seq<Entry>, i: nat, j: nat)
    requires DistinctKeys(es) && KeysGood(es) && i < j < |es|
    ensures Less(CodeUnits(ByKey(es)[i].key), CodeUnits(ByKey(es)[j].key))
  {
    KeyOrder();
    SortSorted(InOrder, es);
    var a, b := ByKey(es)[i], ByKey(es)[j];
    assert InOrder(a, b);
    SortedAmong(es);
    assert a in es && b in es;
    SortedDistinct(es, i, j);
    assert Encodable(a.key) && Encodable(b.key);
    hide Utf16BE, CodeUnits, Less, ByKey, KeysGood, DistinctKeys, Encodable;
    Utf16Order(a.key, b.key);
    LeqBytes(a.key, b.key);
  }

  lemma LeqBytes(s: String, t: String)
    requires Encodable(s) && Encodable(t) && s != t && Leq(Utf16BE(s), Utf16BE(t))
    ensures Less(Utf16BE(s), Utf16BE(t))
  {
    hide Less, Utf16BE, Encodable;
    Utf16Order(s, t);
    LessIrreflexive(Utf16BE(s));
  }

  lemma SortedDistinct(es: seq<Entry>, i: nat, j: nat)
    requires DistinctKeys(es) && i < j < |es|
    ensures ByKey(es)[i].key != ByKey(es)[j].key
  {
    SameElements(ByKey(es), es);
    DistinctSurvives(es, ByKey(es), i, j);
    hide ByKey;
    var a, b := ByKey(es)[i], ByKey(es)[j];
    assert a in es && b in es && a != b;
  }

  // ---- the source's emitter, which appends to one shared list ----

  /** `"".join(buf)`. */
  function Joined(buf: seq<String>): String {
    if buf == [] then [] else Joined(buf[..|buf| - 1]) + buf[|buf| - 1]
  }

  lemma JoinedAppend(buf: seq<String>, s: String)
    ensures Joined(buf + [s]) == Joined(buf) + s
  {
    assert (buf + [s])[..|buf|] == buf;
  }

  /** What a call that emits `text` does: append that text, or report that error. */
  ghost predicate Emitted(before: String, after: String, text: Result<String>, outcome: Result<()>) {
    match text
    case Ok(t) => outcome == Ok(()) && after == before + t
    case Err(e) => outcome == Err(e) && before <= after
  }

  /** What is left to emit of a bracketed list after `done` of its `n` parts. */
  ghost predicate Remaining(start: String, now: String, whole: Result<String>, rest: Result<String>, comma: bool) {
    && start <= now
    && match rest
       case Ok(tail) => whole.Ok? && start + whole.value == now + Continued(comma, tail)
       case Err(e) => whole == Err(e)
  }

  lemma NextPart(start: String, now: String, whole: Result<String>, rest: Result<String>, part: String,
                 tail: Result<String>, comma: bool, more: bool)
    requires Remaining(start, now, whole, rest, comma)
    requires rest == if tail.Err? then tail else Ok(part + Continued(more, tail.value))
    ensures Remaining(start, now + Continued(comma, part), whole, tail, more)
  {
    if tail.Ok? {
      assert now + Continued(comma, part + Continued(more, tail.value))
          == now + Continued(comma, part) + Continued(more, tail.value);
    }
  }

  lemma NoPart(start: String, now: String, whole: Result<String>, rest: Result<String>, comma: bool)
    requires Remaining(start, now, whole, rest, comma) && rest.Err?
    ensures whole == rest && start <= now
  {}

  lemma LastPart(start: String, now: String, whole: Result<String>)
    requires Remaining(start, now, whole, Ok([]), false)
    ensures whole.Ok? && now == start + whole.value
  {
    assert now + Continued(false, []) == now;
  }

  lemma FirstPart(start: String, whole: Result<String>)
    ensures Remaining(start, start, whole, whole, false)
  {}

  lemma ItemsFrom(items: seq<Content>, i: nat, repr: Repr)
    requires i < |items|
    ensures CanonicalItems(items[i..], repr)
         == match Canonical(items[i], repr)
            case Err(e) => Err(e)
            case Ok(first) =>
              var tail := CanonicalItems(items[i + 1..], repr);
              if tail.Err? then tail else Ok(first + Continued(i + 1 < |items|, tail.value))
  {
    hide Canonical;
    assert items[i..][0] == items[i] && items[i..][1..] == items[i + 1..];
  }

  /** A key, a colon and a value. */
  function MemberText(e: Entry, repr: Repr): Result<String> {
    var value :- Canonical(e.value, repr);
    Ok(Quoted(e.key) + [58] + value)
  }

  lemma MembersFrom(all: seq<Entry>, some: seq<Entry>, i: nat, repr: Repr)
    requires Among(some, all) && i < |some|
    ensures Among(some[i..], all) && Among(some[i + 1..], all)
    ensures CanonicalMembers(all, some[i..], repr)
         == match MemberText(some[i], repr)
            case Err(e) => Err(e)
            case Ok(first) =>
              var tail := CanonicalMembers(all, some[i + 1..], repr);
              if tail.Err? then tail else Ok(first + Continued(i + 1 < |some|, tail.value))
  {
    hide Canonical, Quoted;
    assert some[i..][0] == some[i] && some[i..][1..] == some[i + 1..];
    assert Among(some[i..], all) && Among(some[i + 1..], all);
    if Canonical(some[i].value, repr).Ok? && CanonicalMembers(all, some[i + 1..], repr).Ok? {
      var key, value := Quoted(some[i].key), Canonical(some[i].value, repr).value;
      var more := Continued(i + 1 < |some|, CanonicalMembers(all, some[i + 1..], repr).value);
      assert key + ([58] + (value + more)) == key + [58] + value + more;
    }
  }

  class Buffer {
    var buf: seq<String>

    ghost function Text(): String
      reads this
    {
      Joined(buf)
    }

    constructor ()
      ensures Text() == []
    {
      buf := [];
    }

    method Append(s: String)
      modifies this
      ensures Text() == old(Text()) + s
    {
      JoinedAppend(buf, s);
      buf := buf + [s];
    }

    method EmitList(items: seq<Content>, repr: Repr) returns (outcome: Result<()>)
      modifies this
      ensures Emitted(old(Text()), Text(), Canonical(List(items), repr), outcome)
      decreases items, |items| + 1
    {
      hide Canonical, Joined, Remaining, CanonicalItems;
      ListText(items, repr);
      Append([91]);
      outcome := Ok(());
      ghost var start := Text();
      ghost var whole := CanonicalItems(items, repr);
      FirstPart(start, whole);
      assert items[0..] == items;
      for i := 0 to |items|
        invariant outcome == Ok(()) && old(Text()) <= start
        invariant Remaining(start, Text(), whole, CanonicalItems(items[i..], repr), 0 < i < |items|)
      {
        ItemsFrom(items, i, repr);
        ghost var before := Text();
        if i > 0 {
          Append([44]);
        }
        outcome := Emit(items[i], repr);
        if outcome.Err? {
          NoPart(start, before, whole, CanonicalItems(items[i..], repr), 0 < i);
          return;
        }
        ghost var part := Canonical(items[i], repr).value;
        assert Text() == before + Continued(0 < i, part);
        NextPart(start, before, whole, CanonicalItems(items[i..], repr), part,
                 CanonicalItems(items[i + 1..], repr), 0 < i, i + 1 < |items|);
      }
      NoItems(repr);
      assert items[|items|..] == [];
      LastPart(start, Text(), whole);
      Append([93]);
    }

    method EmitMember(e: Entry, repr: Repr) returns (outcome: Result<()>)
      modifies this
      ensures Emitted(old(Text()), Text(), MemberText(e, repr), outcome)
      decreases e, 1
    {
      hide Canonical, Joined, Quoted;
      Append(Quoted(e.key));
      Append([58]);
      outcome := Emit(e.value, repr);
      if outcome.Ok? {
        var value := Canonical(e.value, repr).value;
        assert old(Text()) + Quoted(e.key) + [58] + value == old(Text()) + (Quoted(e.key) + [58] + value);
      }
    }

    /** The items in key order. */
    method EmitMap(entries: seq<Entry>, repr: Repr) returns (outcome: Result<()>)
      modifies this
      ensures Emitted(old(Text()), Text(), Canonical(Map(entries), repr), outcome)
      decreases entries, |entries| + 1
    {
      hide Canonical, Joined, MemberText, ByKey, Remaining, CanonicalMembers, Encodable;
      SortedAmong(entries);
      MapText(entries, repr);
      if !KeysGood(entries) {
        return Err(BadText);
      }
      var items := ByKey(entries);
      Append([123]);
      outcome := Ok(());
      ghost var start := Text();
      ghost var whole := CanonicalMembers(entries, items, repr);
      FirstPart(start, whole);
      assert items[0..] == items;
      for i := 0 to |items|
        invariant outcome == Ok(()) && old(Text()) <= start
        invariant Among(items[i..], entries)
        invariant Remaining(start, Text(), whole, CanonicalMembers(entries, items[i..], repr), 0 < i < |items|)
      {
        MembersFrom(entries, items, i, repr);
        EntryIsSmaller(entries, items[i]);
        EntryIsLess(entries, items[i]);
        ghost var before := Text();
        if i > 0 {
          Append([44]);
        }
        outcome := EmitMember(items[i], repr);
        if outcome.Err? {
          NoPart(start, before, whole, CanonicalMembers(entries, items[i..], repr), 0 < i);
          return;
        }
        ghost var part := MemberText(items[i], repr).value;
        assert Text() == before + Continued(0 < i, part);
        NextPart(start, before, whole, CanonicalMembers(entries, items[i..], repr), part,
                 CanonicalMembers(entries, items[i + 1..], repr), 0 < i, i + 1 < |items|);
      }
      NoMembers(entries, repr);
      assert items[|items|..] == [];
      LastPart(start, Text(), whole);
      Append([125]);
    }

    method Emit(v: Content, repr: Repr) returns (outcome: Result<()>)
      modifies this
      ensures Emitted(old(Text()), Text(), Canonical(v, repr), outcome)
      decreases v, 0
    {
      hide Joined, Quoted;
      outcome := Ok(());
      match v
      case Null => Append([110, 117, 108, 108]);
      case Bool(b) =>
        if b {
          Append([116, 114, 117, 101]);
        } else {
          Append([102, 97, 108, 115, 101]);
        }
      case Str(s) => Append(Quoted(s));
      case Number(f) =>
        var text := JcsNumber(f, repr);
        if text.Err? {
          return Err(text.error);
        }
        Append(text.value);
      case Map(entries) => outcome := EmitMap(entries, repr);
      case List(items) => outcome := EmitList(items, repr);
      case Other(shown) => Append(Quoted(shown));
    }
  }

  lemma NoItems(repr: Repr)
    ensures CanonicalItems([], repr) == Ok([])
  {}

  lemma NoMembers(all: seq<Entry>, repr: Repr)
    ensures CanonicalMembers(all, [], repr) == Ok([])
  {}

  lemma ListText(items: seq<Content>, repr: Repr)
    ensures Canonical(List(items), repr)
         == match CanonicalItems(items, repr) case Ok(body) => Ok([91] + (body + [93])) case Err(e) => Err(e)
  {}

  lemma MapText(entries: seq<Entry>, repr: Repr)
    requires Among(ByKey(entries), entries)
    ensures !KeysGood(entries) ==> Canonical(Map(entries), repr) == Err(BadText)
    ensures KeysGood(entries) ==>
              Canonical(Map(entries), repr) == (match CanonicalMembers(entries, ByKey(entries), repr)
                                                case Ok(body) => Ok([123] + (body + [125]))
                                                case Err(e) => Err(e))
  {
    hide ByKey, KeysGood;
  }

  method CanonicalString(v: Content, repr: Repr) returns (r: Result<String>)
    ensures r == Canonical(v, repr)
  {
    var out := new Buffer();
    var outcome := out.Emit(v, repr);
    assert Canonical(v, repr).Ok? ==> [] + Canonical(v, repr).value == Canonical(v, repr).value;
    hide Canonical;
    if outcome.Err? {
      return Err(outcome.error);
    }
    var text := Join(out.buf);
    r := Ok(text);
  }

  method Join(buf: seq<String>) returns (text: String)
    ensures text == Joined(buf)
  {
    text := [];
    assert buf[..|buf|] == buf;
    for i := 0 to |buf|
      invariant text == Joined(buf[..i])
    {
      assert buf[..i + 1][..i] == buf[..i];
      text := text + buf[i];
    }
  }
}
