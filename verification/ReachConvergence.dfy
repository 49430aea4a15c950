/** `PumpLoop.tick` over one carrier: driven with no new reaches, the reactors come to rest. */
module ReachConvergence {
  import opened Carriers
  import opened Clock
  import opened Reach

  // ---- one tick: every reactor pumps its providers, then absorbs ----

  function PumpSteps(c: nat, i: nat, n: nat): seq<Step> {
    if n == 0 then [] else PumpSteps(c, i, n - 1) + [Pump(c, i, n - 1)]
  }

  function TickSteps(cfg: Config, c: nat, n: nat): seq<Step>
    requires n <= |cfg|
  {
    if n == 0 then []
    else TickSteps(cfg, c, n - 1) + PumpSteps(c, n - 1, |cfg[n - 1].providers|) + [Absorb(c, n - 1)]
  }

  /** Steps of a tick over carrier c. */
  predicate OfTick(cfg: Config, c: nat, step: Step) {
    match step
    case Pump(d, i, j) => d == c && i < |cfg| && j < |cfg[i].providers|
    case Absorb(d, i) => d == c && i < |cfg|
    case _ => false
  }

  ghost function Execute(cfg: Config, handlers: Handlers, s: State, c: nat, steps: seq<Step>): (s': State)
    requires WellShaped(cfg, s) && c < |s.logs| && forall k :: 0 <= k < |steps| ==> OfTick(cfg, c, steps[k])
    ensures WellShaped(cfg, s') && |s'.logs| == |s.logs|
  {
    if steps == [] then s
    else
      assert OfTick(cfg, c, steps[|steps| - 1]);
      Apply(cfg, handlers, Execute(cfg, handlers, s, c, steps[..|steps| - 1]), steps[|steps| - 1])
  }

  lemma {:induction false} PumpStepsOfTick(cfg: Config, c: nat, i: nat, n: nat)
    requires i < |cfg| && n <= |cfg[i].providers|
    ensures forall k :: 0 <= k < |PumpSteps(c, i, n)| ==> OfTick(cfg, c, PumpSteps(c, i, n)[k])
    ensures forall j :: 0 <= j < n ==> Pump(c, i, j) in PumpSteps(c, i, n)
  {
    if n > 0 { PumpStepsOfTick(cfg, c, i, n - 1); }
  }

  lemma {:induction false} TickStepsOfTick(cfg: Config, c: nat, n: nat)
    requires n <= |cfg|
    ensures forall k :: 0 <= k < |TickSteps(cfg, c, n)| ==> OfTick(cfg, c, TickSteps(cfg, c, n)[k])
    ensures forall i, j :: 0 <= i < n && 0 <= j < |cfg[i].providers| ==> Pump(c, i, j) in TickSteps(cfg, c, n)
    ensures forall i :: 0 <= i < n ==> Absorb(c, i) in TickSteps(cfg, c, n)
  {
    if n > 0 {
      TickStepsOfTick(cfg, c, n - 1);
      PumpStepsOfTick(cfg, c, n - 1, |cfg[n - 1].providers|);
      AbsorbOfTick(cfg, c, n - 1);
      TickStepsLast(cfg, c, n);
      hide OfTick, TickSteps, PumpSteps;
      Joined(TickSteps(cfg, c, n - 1), PumpSteps(c, n - 1, |cfg[n - 1].providers|), Absorb(c, n - 1));
    }
  }

  lemma Joined(a: seq<Step>, b: seq<Step>, last: Step)
    ensures forall step :: step in a + b + [last] <==> step in a || step in b || step == last
  {}

  lemma TickStepsLast(cfg: Config, c: nat, n: nat)
    requires 0 < n <= |cfg|
    ensures TickSteps(cfg, c, n) ==
            TickSteps(cfg, c, n - 1) + PumpSteps(c, n - 1, |cfg[n - 1].providers|) + [Absorb(c, n - 1)]
  {}

  lemma AbsorbOfTick(cfg: Config, c: nat, i: nat)
    requires i < |cfg|
    ensures OfTick(cfg, c, Absorb(c, i))
  {}

  function ReactorOf(step: Step): nat {
    match step
    case PlaceNeed(_, i, _, _, _) => i
    case Pump(_, i, _) => i
    case Absorb(_, i) => i
    case Reconcile(_, _, _, _) => 0
  }

  /** An earlier reactor's step comes first, an earlier provider's pump, and every pump before the absorb. */
  predicate Before(a: Step, b: Step) {
    || ReactorOf(a) < ReactorOf(b)
    || (ReactorOf(a) == ReactorOf(b) && a.Pump? && (b.Absorb? || (b.Pump? && a.provider < b.provider)))
  }

  lemma {:induction false} PumpStepsAre(c: nat, i: nat, n: nat)
    ensures |PumpSteps(c, i, n)| == n && forall k :: 0 <= k < n ==> PumpSteps(c, i, n)[k] == Pump(c, i, k)
  {
    if n > 0 { PumpStepsAre(c, i, n - 1); }
  }

  /** A tick drives the reactors in the order they were added, each pumping its providers in theirs and then
      absorbing. */
  lemma {:induction false} TickInOrder(cfg: Config, c: nat, n: nat)
    requires n <= |cfg|
    ensures forall k :: 0 <= k < |TickSteps(cfg, c, n)| ==> ReactorOf(TickSteps(cfg, c, n)[k]) < n
    ensures forall k, l :: 0 <= k < l < |TickSteps(cfg, c, n)| ==> Before(TickSteps(cfg, c, n)[k], TickSteps(cfg, c, n)[l])
  {
    if n > 0 {
      TickInOrder(cfg, c, n - 1);
      PumpStepsAre(c, n - 1, |cfg[n - 1].providers|);
      TickStepsLast(cfg, c, n);
      hide TickSteps, PumpSteps;
    }
  }

  /** `PumpLoop.tick`. */
  ghost function TickOnce(cfg: Config, handlers: Handlers, s: State, c: nat): (s': State)
    requires WellShaped(cfg, s) && c < |s.logs|
    ensures WellShaped(cfg, s') && |s'.logs| == |s.logs|
  {
    TickStepsOfTick(cfg, c, |cfg|);
    Execute(cfg, handlers, s, c, TickSteps(cfg, c, |cfg|))
  }

  ghost function Ticks(cfg: Config, handlers: Handlers, s: State, c: nat, n: nat): (s': State)
    requires WellShaped(cfg, s) && c < |s.logs|
    ensures WellShaped(cfg, s') && |s'.logs| == |s.logs|
  {
    if n == 0 then s else TickOnce(cfg, handlers, Ticks(cfg, handlers, s, c, n - 1), c)
  }

  // ---- what one pump does to pending needs ----

  lemma OnLeafEffect(c: ProviderConfig, node: Name, p: ProviderState, h: Hlc, leaf: Leaf, handler: Handler, length: nat)
    requires leaf.Need? && Accepts(c, p, leaf) ==> |leaf.path| >= length
    ensures var (p', _, out) := OnLeaf(c, node, p, h, leaf, handler);
            && !Accepts(c, p', leaf) && p.seen <= p'.seen
            && forall x :: x in out && x.Need? ==> |x.path| > length
  {}

  lemma {:induction false} StoreAllNew(log: Log, leaves: seq<Leaf>)
    ensures forall x :: x in StoreAll(log, leaves) ==> x in log || x in leaves
    decreases |leaves|
  {
    if leaves != [] { StoreAllNew(Stored(LeafId, log, leaves[0]), leaves[1..]); }
  }

  lemma SeenMonotone(c: ProviderConfig, p: ProviderState, p': ProviderState, leaf: Leaf)
    requires p.seen <= p'.seen && Accepts(c, p', leaf)
    ensures Accepts(c, p, leaf)
  {}

  /** After a pump nothing polled is pending, and every new need has a path longer than the handled ones. */
  lemma {:induction false} PumpEffect(c: ProviderConfig, node: Name, p: ProviderState, h: Hlc, log: Log,
                                      polled: seq<Leaf>, handler: Handler, length: nat)
    requires forall l :: l in polled && l.Need? && Accepts(c, p, l) ==> |l.path| >= length
    ensures var (p', _, log') := PumpLeaves(c, node, p, h, log, polled, handler);
            && p.seen <= p'.seen
            && (forall l :: l in polled ==> !Accepts(c, p', l))
            && (forall x :: x in log' ==> x in log || (x.Need? ==> |x.path| > length))
    decreases |polled|
  {
    hide Accepts, OnLeaf, StoreAll;
    if polled != [] {
      var (p1, h1, out) := OnLeaf(c, node, p, h, polled[0], handler);
      OnLeafEffect(c, node, p, h, polled[0], handler, length);
      StoreAllNew(log, out);
      forall l | l in polled[1..] && l.Need? && Accepts(c, p1, l) ensures |l.path| >= length {
        SeenMonotone(c, p, p1, l);
      }
      PumpEffect(c, node, p1, h1, StoreAll(log, out), polled[1..], handler, length);
      var (p', _, _) := PumpLeaves(c, node, p1, h1, StoreAll(log, out), polled[1..], handler);
      forall l | l in polled ensures !Accepts(c, p', l) {
        if l == polled[0] {
          if Accepts(c, p', l) { SeenMonotone(c, p1, p', l); }
        } else {
          assert l in polled[1..];
        }
      }
    }
  }

  /** A pump that finds nothing to accept changes nothing. */
  lemma {:induction false} PumpIdle(c: ProviderConfig, node: Name, p: ProviderState, h: Hlc, log: Log,
                                    polled: seq<Leaf>, handler: Handler)
    requires forall l :: l in polled ==> !Accepts(c, p, l)
    ensures PumpLeaves(c, node, p, h, log, polled, handler) == (p, h, log)
    decreases |polled|
  {
    hide Accepts;
    if polled != [] { PumpIdle(c, node, p, h, log, polled[1..], handler); }
  }

  // ---- pending needs ----

  /** The need n waits on carrier c for provider j of reactor i. */
  ghost predicate Pending(cfg: Config, s: State, c: nat, i: nat, j: nat, n: Leaf)
    requires WellShaped(cfg, s) && c < |s.logs| && i < |cfg| && j < |cfg[i].providers|
  {
    n in s.logs[c] && Accepts(cfg[i].providers[j], s.reactors[i].providers[j], n)
  }

  /** No pending need has a path shorter than this. */
  ghost predicate PendingAtLeast(cfg: Config, s: State, c: nat, length: nat)
    requires WellShaped(cfg, s) && c < |s.logs|
  {
    forall i, j, n :: 0 <= i < |cfg| && 0 <= j < |cfg[i].providers| && Pending(cfg, s, c, i, j, n) ==> |n.path| >= length
  }

  /** Within a tick that started from `start`: new needs are longer, and a provider pumped already has
      only new needs pending. */
  ghost predicate MidTick(cfg: Config, s: State, c: nat, start: Log, length: nat, done: set<Step>)
    requires WellShaped(cfg, s) && c < |s.logs|
  {
    && (forall l :: l in start ==> l in s.logs[c])
    && (forall n :: n in s.logs[c] && n !in start && n.Need? ==> |n.path| > length)
    && PendingAtLeast(cfg, s, c, length)
    && forall i, j, n ::
         0 <= i < |cfg| && 0 <= j < |cfg[i].providers| && Pending(cfg, s, c, i, j, n) && Pump(c, i, j) in done
         ==> n !in start
  }

  lemma PumpLog(cfg: Config, handlers: Handlers, s: State, c: nat, i: nat, j: nat)
    requires Inv(cfg, s) && c < |s.logs| && i < |cfg| && j < |cfg[i].providers|
    ensures s.logs[c] <= Apply(cfg, handlers, s, Pump(c, i, j)).logs[c]
  {
    LogIsGood(cfg, s, c);
    ProvidersGood(cfg, s, i);
    ServedContains(cfg, i, j);
    hide Served, ProviderGood, LogGood, Inv, PumpLeaves;
    PumpKeepsLog(s.logs[c], cfg[i].providers[j], cfg[i].principal, s.reactors[i].providers[j],
                 s.reactors[i].hlc, Served(cfg), s.logs[c], handlers(i, j));
  }

  lemma PumpKeepsMidTick(cfg: Config, handlers: Handlers, s: State, c: nat, start: Log, length: nat, done: set<Step>,
                         i: nat, j: nat)
    requires Inv(cfg, s) && c < |s.logs| && i < |cfg| && j < |cfg[i].providers|
    requires MidTick(cfg, s, c, start, length, done)
    ensures MidTick(cfg, Apply(cfg, handlers, s, Pump(c, i, j)), c, start, length, done + {Pump(c, i, j)})
  {
    var s' := Apply(cfg, handlers, s, Pump(c, i, j));
    var pc, p := cfg[i].providers[j], s.reactors[i].providers[j];
    PumpLog(cfg, handlers, s, c, i, j);
    hide Inv, Accepts, PumpLeaves;
    forall l | l in s.logs[c] && l.Need? && Accepts(pc, p, l) ensures |l.path| >= length {
      assert Pending(cfg, s, c, i, j, l);
    }
    PumpEffect(pc, cfg[i].principal, p, s.reactors[i].hlc, s.logs[c], s.logs[c], handlers(i, j), length);
    forall i', j', n | 0 <= i' < |cfg| && 0 <= j' < |cfg[i'].providers| && Pending(cfg, s', c, i', j', n)
      ensures |n.path| >= length && (Pump(c, i', j') in done + {Pump(c, i, j)} ==> n !in start)
    {
      AcceptedIsNeed(cfg[i'].providers[j'], s'.reactors[i'].providers[j'], n);
      if n in s.logs[c] {
        assert !(i' == i && j' == j);
        assert Pending(cfg, s, c, i', j', n);
      }
    }
  }

  lemma AcceptedIsNeed(c: ProviderConfig, p: ProviderState, leaf: Leaf)
    requires Accepts(c, p, leaf)
    ensures leaf.Need? && leaf.to == c.capability
  {}

  lemma AbsorbKeepsMidTick(cfg: Config, handlers: Handlers, s: State, c: nat, start: Log, length: nat, done: set<Step>, i: nat)
    requires WellShaped(cfg, s) && c < |s.logs| && i < |cfg| && MidTick(cfg, s, c, start, length, done)
    ensures MidTick(cfg, Apply(cfg, handlers, s, Absorb(c, i)), c, start, length, done + {Absorb(c, i)})
  {
    var s' := Apply(cfg, handlers, s, Absorb(c, i));
    hide Accepts, AbsorbLeaves;
    assert s'.logs == s.logs;
    forall i', j', n | 0 <= i' < |cfg| && 0 <= j' < |cfg[i'].providers| && Pending(cfg, s', c, i', j', n)
      ensures Pending(cfg, s, c, i', j', n)
    {
      assert s'.reactors[i'].providers == s.reactors[i'].providers;
    }
  }

  lemma TickStepKeepsMidTick(cfg: Config, handlers: Handlers, s: State, c: nat, start: Log, length: nat,
                             done: set<Step>, step: Step)
    requires Inv(cfg, s) && c < |s.logs| && OfTick(cfg, c, step)
    requires MidTick(cfg, s, c, start, length, done)
    ensures var s' := Apply(cfg, handlers, s, step);
            Inv(cfg, s') && MidTick(cfg, s', c, start, length, done + {step})
  {
    StepKeepsInv(cfg, handlers, s, step);
    assert WellShaped(cfg, s);
    hide Inv, Apply, MidTick;
    match step
    case Pump(_, i, j) => PumpKeepsMidTick(cfg, handlers, s, c, start, length, done, i, j);
    case Absorb(_, i) => AbsorbKeepsMidTick(cfg, handlers, s, c, start, length, done, i);
  }

  lemma StartMidTick(cfg: Config, s: State, c: nat, length: nat)
    requires WellShaped(cfg, s) && c < |s.logs| && PendingAtLeast(cfg, s, c, length)
    ensures MidTick(cfg, s, c, s.logs[c], length, {})
  {
    hide Accepts;
  }

  lemma {:induction false} ExecuteKeepsMidTick(cfg: Config, handlers: Handlers, s: State, c: nat, steps: seq<Step>, length: nat)
    requires Inv(cfg, s) && c < |s.logs| && PendingAtLeast(cfg, s, c, length)
    requires forall k :: 0 <= k < |steps| ==> OfTick(cfg, c, steps[k])
    ensures var s' := Execute(cfg, handlers, s, c, steps);
            Inv(cfg, s') && MidTick(cfg, s', c, s.logs[c], length, set step | step in steps)
    decreases |steps|
  {
    assert WellShaped(cfg, s);
    hide Inv, Apply, OfTick, MidTick;
    if steps == [] {
      StartMidTick(cfg, s, c, length);
      assert (set step: Step | step in steps) == {};
    } else {
      var init, step := steps[..|steps| - 1], steps[|steps| - 1];
      ExecuteKeepsMidTick(cfg, handlers, s, c, init, length);
      var s1 := Execute(cfg, handlers, s, c, init);
      var done := set t | t in init;
      assert (set t | t in steps) == done + {step} by { assert steps == init + [step]; }
      TickStepKeepsMidTick(cfg, handlers, s1, c, s.logs[c], length, done, step);
    }
  }

  /** One tick lengthens every pending path. */
  lemma TickLengthens(cfg: Config, handlers: Handlers, s: State, c: nat, length: nat)
    requires Inv(cfg, s) && c < |s.logs| && PendingAtLeast(cfg, s, c, length)
    ensures Inv(cfg, TickOnce(cfg, handlers, s, c))
    ensures PendingAtLeast(cfg, TickOnce(cfg, handlers, s, c), c, length + 1)
  {
    var steps := TickSteps(cfg, c, |cfg|);
    TickStepsOfTick(cfg, c, |cfg|);
    ExecuteKeepsMidTick(cfg, handlers, s, c, steps, length);
    var s' := TickOnce(cfg, handlers, s, c);
    hide Inv, Execute, TickSteps, Accepts;
    forall i, j, n | 0 <= i < |cfg| && 0 <= j < |cfg[i].providers| && Pending(cfg, s', c, i, j, n)
      ensures |n.path| >= length + 1
    {
      assert Pump(c, i, j) in steps;
      AcceptedIsNeed(cfg[i].providers[j], s'.reactors[i].providers[j], n);
    }
  }

  lemma PendingNonEmpty(cfg: Config, s: State, c: nat)
    requires Inv(cfg, s) && c < |s.logs|
    ensures PendingAtLeast(cfg, s, c, 1)
  {
    LogIsGood(cfg, s, c);
    hide Inv, Accepts;
    forall i, j, n | 0 <= i < |cfg| && 0 <= j < |cfg[i].providers| && Pending(cfg, s, c, i, j, n)
      ensures n.Need? && |n.path| >= 1
    {
      AcceptedIsNeed(cfg[i].providers[j], s.reactors[i].providers[j], n);
      assert LeafGood(s.logs[c], Served(cfg), n);
    }
  }

  lemma {:induction false} TicksLengthen(cfg: Config, handlers: Handlers, s: State, c: nat, n: nat)
    requires Inv(cfg, s) && c < |s.logs|
    ensures Inv(cfg, Ticks(cfg, handlers, s, c, n))
    ensures PendingAtLeast(cfg, Ticks(cfg, handlers, s, c, n), c, n + 1)
  {
    assert WellShaped(cfg, s);
    hide Inv, TickOnce, PendingAtLeast;
    if n == 0 {
      PendingNonEmpty(cfg, s, c);
    } else {
      TicksLengthen(cfg, handlers, s, c, n - 1);
      TickLengthens(cfg, handlers, Ticks(cfg, handlers, s, c, n - 1), c, n);
    }
  }

  // ---- a pending path is no longer than the number of served capabilities ----

  lemma {:induction false} NoRepeatBound(s: seq<Name>, within: set<Name>)
    requires NoRepeat(s) && forall k :: 0 <= k < |s| ==> s[k] in within
    ensures |s| <= |within|
    decreases |s|
  {
    if s != [] {
      var last := s[|s| - 1];
      NoRepeatBound(s[..|s| - 1], within - {last});
    }
  }

  lemma PendingBound(cfg: Config, s: State, c: nat, i: nat, j: nat, n: Leaf)
    requires Inv(cfg, s) && c < |s.logs| && i < |cfg| && j < |cfg[i].providers| && Pending(cfg, s, c, i, j, n)
    ensures |n.path| <= |Served(cfg)|
  {
    ServedContains(cfg, i, j);
    var log := s.logs[c];
    LogIsGood(cfg, s, c);
    AcceptedIsNeed(cfg[i].providers[j], s.reactors[i].providers[j], n);
    hide Inv, Accepts, Served;
    var f := TraceToRoot(log, Served(cfg), n);
    assert LeafGood(log, Served(cfg), n);
    assert n.path[|n.path| - 1] == n.to;
    NoRepeatBound(n.path, Served(cfg));
  }

  /** Nothing is pending. */
  ghost predicate Quiet(cfg: Config, s: State, c: nat)
    requires WellShaped(cfg, s) && c < |s.logs|
  {
    forall i, j, n :: 0 <= i < |cfg| && 0 <= j < |cfg[i].providers| ==> !Pending(cfg, s, c, i, j, n)
  }

  lemma TicksQuiet(cfg: Config, handlers: Handlers, s: State, c: nat)
    requires Inv(cfg, s) && c < |s.logs|
    ensures Inv(cfg, Ticks(cfg, handlers, s, c, |Served(cfg)|))
    ensures Quiet(cfg, Ticks(cfg, handlers, s, c, |Served(cfg)|), c)
  {
    var k := |Served(cfg)|;
    TicksLengthen(cfg, handlers, s, c, k);
    var s' := Ticks(cfg, handlers, s, c, k);
    hide Inv, Served, Ticks, Pending;
    forall i, j, n | 0 <= i < |cfg| && 0 <= j < |cfg[i].providers| ensures !Pending(cfg, s', c, i, j, n) {
      if Pending(cfg, s', c, i, j, n) { PendingBound(cfg, s', c, i, j, n); }
    }
  }

  // ---- at rest ----

  /** The inbox of reactor i has absorbed all it can from carrier c. */
  ghost predicate Absorbed(cfg: Config, s: State, c: nat, i: nat)
    requires WellShaped(cfg, s) && c < |s.logs| && i < |cfg|
  {
    forall l :: l in s.logs[c] ==> !InboxAccepts(cfg[i].reach, s.reactors[i].inbox, l)
  }

  lemma {:induction false} AbsorbTakesAll(reach: set<Name>, box: Inbox, polled: seq<Leaf>)
    ensures var box' := AbsorbLeaves(reach, box, polled);
            box.seen <= box'.seen && forall l :: l in polled ==> !InboxAccepts(reach, box', l)
  {
    if polled != [] {
      var init, last := polled[..|polled| - 1], polled[|polled| - 1];
      AbsorbTakesAll(reach, box, init);
      var box1 := AbsorbLeaves(reach, box, init);
      assert box1.seen <= AbsorbLeaf(reach, box1, last).seen;
      forall l | l in polled ensures !InboxAccepts(reach, AbsorbLeaf(reach, box1, last), l) {
        if l != last { assert l in init; }
      }
    }
  }

  lemma {:induction false} AbsorbIdle(reach: set<Name>, box: Inbox, polled: seq<Leaf>)
    requires forall l :: l in polled ==> !InboxAccepts(reach, box, l)
    ensures AbsorbLeaves(reach, box, polled) == box
  {
    if polled != [] { AbsorbIdle(reach, box, polled[..|polled| - 1]); }
  }

  lemma QuietPump(cfg: Config, handlers: Handlers, s: State, c: nat, i: nat, j: nat)
    requires WellShaped(cfg, s) && c < |s.logs| && i < |cfg| && j < |cfg[i].providers| && Quiet(cfg, s, c)
    ensures Apply(cfg, handlers, s, Pump(c, i, j)) == s
  {
    hide Accepts, PumpLeaves;
    forall l | l in s.logs[c] ensures !Accepts(cfg[i].providers[j], s.reactors[i].providers[j], l) {
      assert !Pending(cfg, s, c, i, j, l);
    }
    PumpIdle(cfg[i].providers[j], cfg[i].principal, s.reactors[i].providers[j], s.reactors[i].hlc,
             s.logs[c], s.logs[c], handlers(i, j));
    var r := s.reactors[i];
    assert r.providers[j := r.providers[j]] == r.providers;
    assert s.logs[c := s.logs[c]] == s.logs && s.reactors[i := r] == s.reactors;
  }

  /** On a quiet carrier an absorb changes one inbox, which then has nothing left to absorb. */
  lemma QuietAbsorb(cfg: Config, handlers: Handlers, s: State, c: nat, i: nat)
    requires WellShaped(cfg, s) && c < |s.logs| && i < |cfg| && Quiet(cfg, s, c)
    ensures var s' := Apply(cfg, handlers, s, Absorb(c, i));
            && Quiet(cfg, s', c) && Absorbed(cfg, s', c, i)
            && forall k :: 0 <= k < |cfg| && Absorbed(cfg, s, c, k) ==> Absorbed(cfg, s', c, k)
    ensures Absorbed(cfg, s, c, i) ==> Apply(cfg, handlers, s, Absorb(c, i)) == s
  {
    var s' := Apply(cfg, handlers, s, Absorb(c, i));
    hide Accepts, InboxAccepts, AbsorbLeaves;
    AbsorbTakesAll(cfg[i].reach, s.reactors[i].inbox, s.logs[c]);
    forall i', j', n | 0 <= i' < |cfg| && 0 <= j' < |cfg[i'].providers| ensures !Pending(cfg, s', c, i', j', n) {
      assert !Pending(cfg, s, c, i', j', n);
      assert s'.reactors[i'].providers == s.reactors[i'].providers;
    }
    if Absorbed(cfg, s, c, i) {
      AbsorbIdle(cfg[i].reach, s.reactors[i].inbox, s.logs[c]);
      assert s.reactors[i := s.reactors[i]] == s.reactors;
    }
  }

  lemma {:induction false} QuietExecute(cfg: Config, handlers: Handlers, s: State, c: nat, steps: seq<Step>)
    requires WellShaped(cfg, s) && c < |s.logs| && Quiet(cfg, s, c)
    requires forall k :: 0 <= k < |steps| ==> OfTick(cfg, c, steps[k])
    ensures var s' := Execute(cfg, handlers, s, c, steps);
            && Quiet(cfg, s', c)
            && (forall i :: 0 <= i < |cfg| && Absorb(c, i) in steps ==> Absorbed(cfg, s', c, i))
            && ((forall i :: 0 <= i < |cfg| ==> Absorbed(cfg, s, c, i)) ==> s' == s)
    decreases |steps|
  {
    hide Apply, Quiet, Absorbed;
    if steps != [] {
      var init, step := steps[..|steps| - 1], steps[|steps| - 1];
      assert OfTick(cfg, c, step);
      QuietExecute(cfg, handlers, s, c, init);
      var s1 := Execute(cfg, handlers, s, c, init);
      assert forall i :: Absorb(c, i) in steps ==> Absorb(c, i) in init || Absorb(c, i) == step;
      match step
      case Pump(_, i, j) => QuietPump(cfg, handlers, s1, c, i, j);
      case Absorb(_, i) => QuietAbsorb(cfg, handlers, s1, c, i);
    }
  }

  /** Whatever the handlers answer and whichever next hops they pick, one tick more than the number of
      distinct served capabilities brings the carrier and every reactor to a fixed point: the next tick
      adds no leaf and changes no seen-set, clock or inbox, nor does any later one. */
  lemma FixedPoint(cfg: Config, handlers: Handlers, s: State, c: nat)
    requires Inv(cfg, s) && c < |s.logs|
    ensures var rest := Ticks(cfg, handlers, s, c, |Served(cfg)| + 1);
            TickOnce(cfg, handlers, rest, c) == rest
  {
    var k := |Served(cfg)|;
    TicksQuiet(cfg, handlers, s, c);
    var quiet := Ticks(cfg, handlers, s, c, k);
    var rest := Ticks(cfg, handlers, s, c, k + 1);
    var steps := TickSteps(cfg, c, |cfg|);
    TickStepsOfTick(cfg, c, |cfg|);
    hide Inv, Served, Ticks, Quiet, Absorbed, Execute, TickSteps;
    assert rest == TickOnce(cfg, handlers, quiet, c) by { TicksStep(cfg, handlers, s, c, k); }
    QuietExecute(cfg, handlers, quiet, c, steps);
    assert forall i :: 0 <= i < |cfg| ==> Absorb(c, i) in steps;
    QuietExecute(cfg, handlers, rest, c, steps);
  }

  lemma TicksNone(cfg: Config, handlers: Handlers, s: State, c: nat)
    requires WellShaped(cfg, s) && c < |s.logs|
    ensures Ticks(cfg, handlers, s, c, 0) == s
  {}

  lemma TicksStep(cfg: Config, handlers: Handlers, s: State, c: nat, n: nat)
    requires WellShaped(cfg, s) && c < |s.logs|
    ensures Ticks(cfg, handlers, s, c, n + 1) == TickOnce(cfg, handlers, Ticks(cfg, handlers, s, c, n), c)
  {}

  lemma {:induction false} AtRestForEver(cfg: Config, handlers: Handlers, s: State, c: nat, n: nat)
    requires Inv(cfg, s) && c < |s.logs| && n > |Served(cfg)|
    ensures Ticks(cfg, handlers, s, c, n) == Ticks(cfg, handlers, s, c, |Served(cfg)| + 1)
    decreases n
  {
    hide Inv, Served, TickOnce;
    if n > |Served(cfg)| + 1 {
      AtRestForEver(cfg, handlers, s, c, n - 1);
      FixedPoint(cfg, handlers, s, c);
    }
  }
}
