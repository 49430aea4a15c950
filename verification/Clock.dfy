/** The hybrid logical clock of `plane.py`, and when its text stamps sort as the clock runs. */
module Clock {
  import opened Decimal
  import opened Text

  /** The clock's two counters. */
  datatype Hlc = Hlc(last: int, ctr: nat)

  /** `HLC.tick`: jump to a later wall reading, or count within the old one. */
  function Tick(h: Hlc, wall: int): Hlc {
    if wall > h.last then Hlc(wall, 0) else Hlc(h.last, h.ctr + 1)
  }

  predicate Earlier(a: Hlc, b: Hlc) {
    a.last < b.last || (a.last == b.last && a.ctr < b.ctr)
  }

  /** The reading after a run of ticks. */
  function After(h: Hlc, walls: seq<int>): Hlc {
    if walls == [] then h else Tick(After(h, walls[..|walls| - 1]), walls[|walls| - 1])
  }

  lemma AfterStep(h: Hlc, walls: seq<int>, k: nat)
    requires k < |walls|
    ensures After(h, walls[..k + 1]) == Tick(After(h, walls[..k]), walls[k])
  {
    assert walls[..k + 1][..k] == walls[..k];
  }

  /** Every tick is later than all before it, however the wall clock jumps. */
  lemma {:induction false} TickIsLater(h: Hlc, walls: seq<int>, i: nat, j: nat)
    requires i < j <= |walls|
    ensures Earlier(After(h, walls[..i]), After(h, walls[..j]))
    decreases j
  {
    AfterStep(h, walls, j - 1);
    hide After;
    if i < j - 1 { TickIsLater(h, walls, i, j - 1); }
  }

  /** last is the greatest of h's reading and the first k walls. */
  ghost predicate Peak(last: int, h: Hlc, walls: seq<int>, k: nat)
    requires k <= |walls|
  {
    && h.last <= last && (forall i :: 0 <= i < k ==> walls[i] <= last)
    && (last == h.last || exists i :: 0 <= i < k && walls[i] == last)
  }

  /** What a run of ticks reads: the greatest wall so far, and the ticks since that was first reached. */
  lemma {:induction false} AfterReads(h: Hlc, walls: seq<int>, k: nat)
    requires k <= |walls|
    ensures Peak(After(h, walls[..k]).last, h, walls, k)
    ensures After(h, walls[..k]).last == h.last ==> After(h, walls[..k]).ctr == h.ctr + k
    ensures After(h, walls[..k]).last > h.last ==>
              exists first :: 0 <= first < k && walls[first] == After(h, walls[..k]).last
                && (forall i :: 0 <= i < first ==> walls[i] < walls[first]) && After(h, walls[..k]).ctr == k - 1 - first
  {
    if k == 0 {
      assert walls[..0] == [];
    } else {
      AfterReads(h, walls, k - 1);
      AfterStep(h, walls, k - 1);
    }
    hide After;
  }

  class HybridClock {
    const node: String
    var last: int
    var ctr: nat

    function Reading(): Hlc
      reads this
    {
      Hlc(last, ctr)
    }

    constructor (node: String)
      ensures Reading() == Hlc(0, 0) && this.node == node
    {
      this.node := node;
      last, ctr := 0, 0;
    }

    method TickAt(wall: int) returns (stamp: Hlc)
      modifies this
      ensures Reading() == Tick(old(Reading()), wall) && stamp == Reading()
      ensures wall > old(last) ==> last == wall && ctr == 0
      ensures wall <= old(last) ==> last == old(last) && ctr == old(ctr) + 1
      ensures Earlier(old(Reading()), stamp)
    {
      if wall > last {
        last, ctr := wall, 0;
      } else {
        ctr := ctr + 1;
      }
      stamp := Hlc(last, ctr);
    }
  }

  // ---- stamps as text: "%020d.%06d.%s" ----

  /** `%0<width>d` of a non-negative number. */
  function Padded(n: nat, width: nat): String {
    seq(if |Digits(n)| < width then width - |Digits(n)| else 0, _ => 48) + Digits(n)
  }

  function Stamp(h: Hlc, node: String): String
    requires h.last >= 0
  {
    Padded(h.last, 20) + [46] + Padded(h.ctr, 6) + [46] + node
  }

  /** Exactly k digits of n, most significant first. */
  function Fixed(n: nat, k: nat): (ds: String)
    ensures |ds| == k
  {
    if k == 0 then [] else Fixed(n / 10, k - 1) + [48 + n % 10]
  }

  lemma {:induction false} FixedZero(k: nat)
    ensures Fixed(0, k) == seq(k, _ => 48)
  {
    if k > 0 { FixedZero(k - 1); }
  }

  lemma {:induction false} PaddedIsFixed(n: nat, k: nat)
    requires n < Pow10(k) && k > 0
    ensures Padded(n, k) == Fixed(n, k)
  {
    if n < 10 {
      FixedZero(k - 1);
    } else {
      PaddedIsFixed(n / 10, k - 1);
    }
  }

  lemma {:induction false} FixedOrder(m: nat, n: nat, k: nat, r: seq<int>, t: seq<int>)
    requires m < n < Pow10(k)
    ensures Less(Fixed(m, k) + r, Fixed(n, k) + t)
  {
    var a, b := [48 + m % 10] + r, [48 + n % 10] + t;
    assert Fixed(m, k) + r == Fixed(m / 10, k - 1) + a;
    assert Fixed(n, k) + t == Fixed(n / 10, k - 1) + b;
    if m / 10 < n / 10 {
      FixedOrder(m / 10, n / 10, k - 1, a, b);
    } else {
      LessPrefix(Fixed(m / 10, k - 1), a, b);
    }
  }

  /** Text order is clock order, whatever the nodes: between wall readings that fit twenty digits, and
      within one wall reading while the counter fits six. */
  lemma StampOrder(a: Hlc, b: Hlc, m: String, n: String)
    requires 0 <= a.last && Earlier(a, b)
    requires if a.last < b.last then b.last < Pow10(20) else b.ctr < Pow10(6)
    ensures Less(Stamp(a, m), Stamp(b, n))
  {
    if a.last < b.last {
      PaddedIsFixed(a.last, 20);
      PaddedIsFixed(b.last, 20);
    } else {
      PaddedIsFixed(a.ctr, 6);
      PaddedIsFixed(b.ctr, 6);
    }
    hide Stamp, Padded, Fixed, Digits, Less, Pow10;
    StampText(a, m);
    StampText(b, n);
    if a.last < b.last {
      FixedOrder(a.last, b.last, 20, CounterText(a, m), CounterText(b, n));
    } else {
      FixedOrder(a.ctr, b.ctr, 6, [46] + m, [46] + n);
      LessPrefix([46], Padded(a.ctr, 6) + ([46] + m), Padded(b.ctr, 6) + ([46] + n));
      LessPrefix(Padded(a.last, 20), CounterText(a, m), CounterText(b, n));
    }
  }

  /** A stamp after its wall reading. */
  function CounterText(h: Hlc, node: String): String {
    [46] + (Padded(h.ctr, 6) + ([46] + node))
  }

  lemma StampText(h: Hlc, node: String)
    requires h.last >= 0
    ensures Stamp(h, node) == Padded(h.last, 20) + CounterText(h, node)
  {}

  lemma {:induction false} NatOfFixed(n: nat, k: nat)
    requires n < Pow10(k)
    ensures Numeral(Fixed(n, k)) && NatOf(Fixed(n, k)) == n
  {
    if k > 0 { NatOfFixed(n / 10, k - 1); }
  }

  /** A stamp, in plain terms: the wall reading in twenty digits, a point, the counter in six, a point, and
      the node, as long as both numbers fit. */
  lemma StampReads(h: Hlc, node: String)
    requires 0 <= h.last < Pow10(20) && h.ctr < 1_000_000
    ensures var s := Stamp(h, node);
            && |s| == 28 + |node| && s[20] == 46 && s[27] == 46 && s[28..] == node
            && Numeral(s[..20]) && NatOf(s[..20]) == h.last
            && Numeral(s[21..27]) && NatOf(s[21..27]) == h.ctr
  {
    assert Pow10(6) == 1_000_000;
    PaddedIsFixed(h.last, 20);
    PaddedIsFixed(h.ctr, 6);
    NatOfFixed(h.last, 20);
    NatOfFixed(h.ctr, 6);
    hide Padded, Fixed, Pow10, NatOf, Numeral;
    var s := Stamp(h, node);
    assert s[..20] == Padded(h.last, 20) && s[21..27] == Padded(h.ctr, 6);
  }

  lemma {:induction false} DigitsAreFixed(n: nat)
    ensures n < Pow10(|Digits(n)|) && Digits(n) == Fixed(n, |Digits(n)|)
  {
    if n >= 10 {
      DigitsAreFixed(n / 10);
    } else {
      assert Fixed(n / 10, 0) == [];
    }
  }

  lemma {:induction false} FirstDigits(n: nat)
    ensures |Digits(n)| <= |Digits(n + 1)| <= |Digits(n)| + 1
    ensures |Digits(n)| < |Digits(n + 1)| ==> Digits(n)[0] == 57 && Digits(n + 1)[0] == 49
  {
    if n >= 10 {
      FirstDigits(n / 10);
      assert (n + 1) / 10 == n / 10 || (n + 1) / 10 == n / 10 + 1;
    }
  }

  lemma {:induction false} Pow10Monotone(j: nat, k: nat)
    requires j <= k
    ensures Pow10(j) <= Pow10(k)
  {
    if j < k { Pow10Monotone(j, k - 1); }
  }

  lemma CounterIsFixed(n: nat)
    ensures |Padded(n, 6)| >= 6
    ensures n < Pow10(|Padded(n, 6)|) && Padded(n, 6) == Fixed(n, |Padded(n, 6)|)
    ensures |Padded(n, 6)| == if |Digits(n)| < 6 then 6 else |Digits(n)|
  {
    DigitsAreFixed(n);
    if |Digits(n)| < 6 {
      Pow10Monotone(|Digits(n)|, 6);
      PaddedIsFixed(n, 6);
    }
  }

  lemma CounterLengths(n: nat)
    ensures |Padded(n, 6)| <= |Padded(n + 1, 6)|
    ensures |Padded(n, 6)| < |Padded(n + 1, 6)| ==> Padded(n, 6)[0] == 57 && Padded(n + 1, 6)[0] == 49
  {
    CounterIsFixed(n);
    CounterIsFixed(n + 1);
    FirstDigits(n);
    hide Fixed, Digits;
    if |Padded(n, 6)| < |Padded(n + 1, 6)| {
      assert Padded(n, 6) == Digits(n) && Padded(n + 1, 6) == Digits(n + 1);
    }
  }

  /** Counting within one wall reading, the next stamp sorts later exactly when it is no longer than
      this one. */
  lemma NextStampSortsLater(h: Hlc, node: String)
    requires h.last >= 0
    ensures Less(Stamp(h, node), Stamp(Tick(h, h.last), node)) <==> |Padded(h.ctr, 6)| == |Padded(h.ctr + 1, 6)|
  {
    hide Stamp, Fixed, Pow10, Padded, Digits;
    var next := Tick(h, h.last);
    CounterIsFixed(h.ctr);
    CounterIsFixed(h.ctr + 1);
    CounterLengths(h.ctr);
    var a, b := Padded(h.ctr, 6) + ([46] + node), Padded(h.ctr + 1, 6) + ([46] + node);
    StampText(h, node);
    StampText(next, node);
    LessPrefix([46], a, b);
    LessPrefix(Padded(h.last, 20), CounterText(h, node), CounterText(next, node));
    if |Padded(h.ctr, 6)| == |Padded(h.ctr + 1, 6)| {
      hide Less;
      FixedOrder(h.ctr, h.ctr + 1, |Padded(h.ctr, 6)|, [46] + node, [46] + node);
    } else {
      assert a[0] == 57 && b[0] == 49;
    }
  }

  /** The stamp of counter 1000000 does not sort after that of 999999. */
  lemma StampOverflow(last: nat, node: String)
    ensures !Less(Stamp(Hlc(last, 999_999), node), Stamp(Hlc(last, 1_000_000), node))
  {
    DigitsLength(999_999, 6);
    DigitsLength(1_000_000, 7);
    CounterIsFixed(999_999);
    CounterIsFixed(1_000_000);
    hide Less, Stamp, Padded, Digits;
    NextStampSortsLater(Hlc(last, 999_999), node);
  }

  /** The stamps of counters 0, ..., c within one wall reading sort in clock order exactly when c is below
      a million. */
  lemma RunSortsIff(last: nat, node: String, c: nat)
    ensures (forall i, j :: 0 <= i < j <= c ==> Less(Stamp(Hlc(last, i), node), Stamp(Hlc(last, j), node))) <==>
            c < 1_000_000
  {
    assert Pow10(6) == 1_000_000;
    hide Less, Stamp, Pow10;
    if c < 1_000_000 {
      forall i, j | 0 <= i < j <= c ensures Less(Stamp(Hlc(last, i), node), Stamp(Hlc(last, j), node)) {
        StampOrder(Hlc(last, i), Hlc(last, j), node, node);
      }
    } else {
      StampOverflow(last, node);
    }
  }

  lemma {:induction false} RunBounds(walls: seq<int>, k: nat)
    requires k <= |walls| && forall w :: w in walls ==> w < Pow10(20)
    ensures 0 <= After(Hlc(0, 0), walls[..k]).last < Pow10(20)
  {
    hide Pow10;
    if k == 0 {
      assert walls[..0] == [];
    } else {
      RunBounds(walls, k - 1);
      AfterStep(Hlc(0, 0), walls, k - 1);
      assert walls[k - 1] in walls;
    }
  }

  /** A counter of a million has a tick before it with one less, in the same wall reading. */
  lemma {:induction false} CountsUp(walls: seq<int>, k: nat) returns (j: nat)
    requires k <= |walls| && After(Hlc(0, 0), walls[..k]).ctr >= 1_000_000
    ensures 0 < j < k && After(Hlc(0, 0), walls[..j]).ctr == 999_999
    ensures After(Hlc(0, 0), walls[..j + 1]) == Hlc(After(Hlc(0, 0), walls[..j]).last, 1_000_000)
  {
    AfterStep(Hlc(0, 0), walls, k - 1);
    if After(Hlc(0, 0), walls[..k - 1]).ctr >= 1_000_000 {
      j := CountsUp(walls, k - 1);
    } else {
      j := k - 1;
    }
  }

  /** Over any run of ticks of a fresh clock, however its wall readings jump, the stamps sort in the order
      they were drawn exactly when no counter reaches a million. */
  lemma TicksSortIff(walls: seq<int>, node: String)
    requires forall w :: w in walls ==> w < Pow10(20)
    ensures forall k :: 0 <= k <= |walls| ==> After(Hlc(0, 0), walls[..k]).last >= 0
    ensures (forall i, j :: 0 < i < j <= |walls| ==>
               Less(Stamp(After(Hlc(0, 0), walls[..i]), node), Stamp(After(Hlc(0, 0), walls[..j]), node))) <==>
            (forall k :: 0 <= k <= |walls| ==> After(Hlc(0, 0), walls[..k]).ctr < 1_000_000)
  {
    assert Pow10(6) == 1_000_000;
    hide After, Less, Stamp, Pow10;
    forall k | 0 <= k <= |walls| ensures 0 <= After(Hlc(0, 0), walls[..k]).last < Pow10(20) { RunBounds(walls, k); }
    if forall k :: 0 <= k <= |walls| ==> After(Hlc(0, 0), walls[..k]).ctr < 1_000_000 {
      forall i, j | 0 < i < j <= |walls|
        ensures Less(Stamp(After(Hlc(0, 0), walls[..i]), node), Stamp(After(Hlc(0, 0), walls[..j]), node))
      {
        TickIsLater(Hlc(0, 0), walls, i, j);
        StampOrder(After(Hlc(0, 0), walls[..i]), After(Hlc(0, 0), walls[..j]), node, node);
      }
    } else {
      var k :| 0 <= k <= |walls| && After(Hlc(0, 0), walls[..k]).ctr >= 1_000_000;
      var j := CountsUp(walls, k);
      StampOverflow(After(Hlc(0, 0), walls[..j]).last, node);
    }
  }

  lemma {:induction false} DigitsLength(n: nat, k: nat)
    requires k > 0 && n < Pow10(k) && (k > 1 ==> Pow10(k - 1) <= n)
    ensures |Digits(n)| == k
  {
    if k > 1 {
      Pow10Monotone(1, k - 1);
      DigitsLength(n / 10, k - 1);
    }
  }
}
