/** `resolve` over one carrier: a pending need that its provider's handler absorbs is answered within
    two ticks, in every inbox that reaches the provider's ground. */
module ReachLiveness {
  import opened Carriers
  import opened Clock
  import opened Outcomes
  import opened Reach
  import opened ReachConvergence

  /** Evidence for the root is in the i-th reactor's inbox. */
  predicate Answered(s: State, i: nat, root: Id)
    requires i < |s.reactors|
  {
    var bands := s.reactors[i].inbox.bands;
    root in bands && bands[root] != []
  }

  /** e was discharged for the need n onto the ground. */
  predicate IsEvidence(e: Leaf, n: Leaf, ground: Name)
    requires n.Need?
  {
    e.Evidence? && e.inReplyTo == n.id && e.root == n.root && e.to == ground
  }

  ghost predicate Evidenced(log: Log, n: Leaf, ground: Name)
    requires n.Need?
  {
    exists e :: e in log && IsEvidence(e, n, ground)
  }

  /** The guards of `on_leaf` other than the one on seen ids. */
  predicate Suits(c: ProviderConfig, n: Leaf) {
    Accepts(c, EMPTY_PROVIDER, n)
  }

  lemma SuitsUnlessSeen(c: ProviderConfig, p: ProviderState, n: Leaf)
    ensures Accepts(c, p, n) <==> Suits(c, n) && n.id !in p.seen
  {}

  // ---- the provider's half ----

  /** Handling a need whose handler absorbs puts its evidence on the carrier. */
  lemma HandledIsEvidenced(log: Log, c: ProviderConfig, node: Name, h: Hlc, served: set<Name>, n: Leaf, reply: Reply)
    requires LogGood(log, served) && n in log && n.Need? && n.to == c.capability && c.capability in served
    requires reply.absorbed.Some?
    ensures Evidenced(StoreAll(log, Emitted(c, node, h, n, reply).1), n, c.ground)
  {
    HandleKeepsLog(log, c, node, h, served, n, reply);
    var out := Emitted(c, node, h, n, reply).1;
    hide LogGood, StoreAll;
    assert IsEvidence(out[0], n, c.ground) && out[0] in out;
  }

  lemma EvidencedMonotone(log: Log, log': Log, n: Leaf, ground: Name)
    requires n.Need? && Evidenced(log, n, ground) && log <= log'
    ensures Evidenced(log', n, ground)
  {
    hide IsEvidence;
  }

  lemma SameIdOnLog(log: Log, served: set<Name>, a: Leaf, b: Leaf)
    requires LogGood(log, served) && a in log && b in log && a.id == b.id
    ensures a == b
  {
    hide LeafGood;
  }

  /** One polled leaf: the need n stays evidenced once it is seen. */
  lemma OnLeafHears(log: Log, c: ProviderConfig, node: Name, p: ProviderState, h: Hlc, served: set<Name>, leaf: Leaf,
                    handler: Handler, n: Leaf)
    requires LogGood(log, served) && leaf in log && n in log && c.capability in served
    requires n.Need? && n.sealed.body.NeedBody? && handler(n.id, n.sealed.body.need).absorbed.Some?
    requires n.id in p.seen ==> Evidenced(log, n, c.ground)
    ensures var (p', h', out) := OnLeaf(c, node, p, h, leaf, handler);
            var log' := StoreAll(log, out);
            && log <= log' && LogGood(log', served)
            && (n.id in p'.seen ==> Evidenced(log', n, c.ground))
  {
    hide LogGood, Extends, Emitted, StoreAll, Evidenced;
    OnLeafKeepsLog(log, c, node, p, h, served, leaf, handler);
    var (p', h', out) := OnLeaf(c, node, p, h, leaf, handler);
    ExtendsGood(log, node, h, h', served, out);
    if n.id in p.seen {
      EvidencedMonotone(log, StoreAll(log, out), n, c.ground);
    } else if n.id in p'.seen {
      SameIdOnLog(log, served, leaf, n);
      HandledIsEvidenced(log, c, node, h, served, n, handler(n.id, n.sealed.body.need));
    }
  }

  lemma {:induction false} PumpHears(log: Log, c: ProviderConfig, node: Name, p: ProviderState, h: Hlc,
                                     served: set<Name>, polled: seq<Leaf>, handler: Handler, n: Leaf)
    requires LogGood(log, served) && n in log && c.capability in served && forall l :: l in polled ==> l in log
    requires n.Need? && n.sealed.body.NeedBody? && handler(n.id, n.sealed.body.need).absorbed.Some?
    requires n.id in p.seen ==> Evidenced(log, n, c.ground)
    ensures var (p', h', log') := PumpLeaves(c, node, p, h, log, polled, handler);
            log <= log' && (n.id in p'.seen ==> Evidenced(log', n, c.ground))
    decreases |polled|
  {
    hide OnLeaf, StoreAll, LogGood, Evidenced;
    if polled != [] {
      var (p1, h1, out) := OnLeaf(c, node, p, h, polled[0], handler);
      OnLeafHears(log, c, node, p, h, served, polled[0], handler, n);
      var log1 := StoreAll(log, out);
      forall l | l in polled[1..] ensures l in log1 { assert l in log; }
      PumpHears(log1, c, node, p1, h1, served, polled[1..], handler, n);
    }
  }

  /** The need n is on the carrier, and if provider j of reactor a has seen it, so is its evidence. */
  ghost predicate Heard(cfg: Config, s: State, c: nat, a: nat, j: nat, n: Leaf)
    requires WellShaped(cfg, s) && c < |s.logs| && a < |cfg| && j < |cfg[a].providers| && n.Need?
  {
    n in s.logs[c] && (n.id in s.reactors[a].providers[j].seen ==> Evidenced(s.logs[c], n, cfg[a].providers[j].ground))
  }

  predicate HandlerAbsorbs(handlers: Handlers, a: nat, j: nat, n: Leaf) {
    n.Need? && n.sealed.body.NeedBody? && handlers(a, j)(n.id, n.sealed.body.need).absorbed.Some?
  }

  lemma PumpStepHears(cfg: Config, handlers: Handlers, s: State, c: nat, a: nat, j: nat, n: Leaf)
    requires Inv(cfg, s) && c < |s.logs| && a < |cfg| && j < |cfg[a].providers|
    requires HandlerAbsorbs(handlers, a, j, n) && Suits(cfg[a].providers[j], n) && Heard(cfg, s, c, a, j, n)
    ensures var s' := Apply(cfg, handlers, s, Pump(c, a, j));
            Heard(cfg, s', c, a, j, n) && n.id in s'.reactors[a].providers[j].seen
  {
    var pc, p, r := cfg[a].providers[j], s.reactors[a].providers[j], s.reactors[a];
    LogIsGood(cfg, s, c);
    ServedContains(cfg, a, j);
    hide Inv, Served, LogGood, Evidenced, PumpLeaves, Suits, Accepts;
    PumpHears(s.logs[c], pc, cfg[a].principal, p, r.hlc, Served(cfg), s.logs[c], handlers(a, j), n);
    PumpEffect(pc, cfg[a].principal, p, r.hlc, s.logs[c], s.logs[c], handlers(a, j), 0);
    SuitsUnlessSeen(pc, Apply(cfg, handlers, s, Pump(c, a, j)).reactors[a].providers[j], n);
  }

  lemma OtherPumpHears(cfg: Config, handlers: Handlers, s: State, c: nat, a: nat, j: nat, n: Leaf, i: nat, k: nat)
    requires Inv(cfg, s) && c < |s.logs| && a < |cfg| && j < |cfg[a].providers| && n.Need?
    requires i < |cfg| && k < |cfg[i].providers| && (i, k) != (a, j) && Heard(cfg, s, c, a, j, n)
    ensures Heard(cfg, Apply(cfg, handlers, s, Pump(c, i, k)), c, a, j, n)
    ensures Apply(cfg, handlers, s, Pump(c, i, k)).reactors[a].providers[j] == s.reactors[a].providers[j]
  {
    PumpLog(cfg, handlers, s, c, i, k);
    hide Inv, Evidenced, PumpLeaves;
    var s' := Apply(cfg, handlers, s, Pump(c, i, k));
    if n.id in s.reactors[a].providers[j].seen {
      EvidencedMonotone(s.logs[c], s'.logs[c], n, cfg[a].providers[j].ground);
    }
  }

  lemma TickStepHears(cfg: Config, handlers: Handlers, s: State, c: nat, a: nat, j: nat, n: Leaf, step: Step)
    requires Inv(cfg, s) && c < |s.logs| && a < |cfg| && j < |cfg[a].providers| && OfTick(cfg, c, step)
    requires HandlerAbsorbs(handlers, a, j, n) && Suits(cfg[a].providers[j], n) && Heard(cfg, s, c, a, j, n)
    ensures var s' := Apply(cfg, handlers, s, step);
            && Inv(cfg, s') && Heard(cfg, s', c, a, j, n)
            && (step == Pump(c, a, j) || n.id in s.reactors[a].providers[j].seen ==> n.id in s'.reactors[a].providers[j].seen)
  {
    StepKeepsInv(cfg, handlers, s, step);
    assert WellShaped(cfg, s);
    hide Inv, Suits, Evidenced, PumpLeaves;
    match step
    case Pump(_, i, k) =>
      if (i, k) == (a, j) {
        hide Apply, Heard;
        PumpStepHears(cfg, handlers, s, c, a, j, n);
      } else {
        hide Apply, Heard;
        OtherPumpHears(cfg, handlers, s, c, a, j, n, i, k);
      }
    case Absorb(_, i) =>
      assert Apply(cfg, handlers, s, step).reactors[a].providers == s.reactors[a].providers;
  }

  lemma {:induction false} ExecuteHears(cfg: Config, handlers: Handlers, s: State, c: nat, steps: seq<Step>,
                                        a: nat, j: nat, n: Leaf)
    requires Inv(cfg, s) && c < |s.logs| && a < |cfg| && j < |cfg[a].providers|
    requires forall k :: 0 <= k < |steps| ==> OfTick(cfg, c, steps[k])
    requires HandlerAbsorbs(handlers, a, j, n) && Suits(cfg[a].providers[j], n) && Heard(cfg, s, c, a, j, n)
    ensures var s' := Execute(cfg, handlers, s, c, steps);
            && Inv(cfg, s') && Heard(cfg, s', c, a, j, n)
            && (Pump(c, a, j) in steps ==> n.id in s'.reactors[a].providers[j].seen)
    decreases |steps|
  {
    assert WellShaped(cfg, s);
    hide Inv, Apply, OfTick, Heard, Suits, HandlerAbsorbs;
    if steps != [] {
      var init, step := steps[..|steps| - 1], steps[|steps| - 1];
      assert steps == init + [step];
      ExecuteHears(cfg, handlers, s, c, init, a, j, n);
      TickStepHears(cfg, handlers, Execute(cfg, handlers, s, c, init), c, a, j, n, step);
    }
  }

  // ---- the requester's half ----

  lemma GoodEvidenceOpens(log: Log, served: set<Name>, reach: set<Name>, box: Inbox, e: Leaf)
    requires LogGood(log, served) && e in log && e.Evidence? && e.to in reach
    ensures InboxAccepts(reach, box, e) <==> e.id !in box.seen
  {
    assert LeafGood(log, served, e);
    hide LogGood;
  }

  lemma StepCollects(cfg: Config, handlers: Handlers, s: State, c: nat, i: nat, e: Leaf, step: Step)
    requires Inv(cfg, s) && c < |s.logs| && i < |cfg| && OfTick(cfg, c, step)
    requires e in s.logs[c] && e.Evidence? && e.to in cfg[i].reach
    ensures var s' := Apply(cfg, handlers, s, step);
            && Inv(cfg, s') && e in s'.logs[c]
            && (step == Absorb(c, i) || e.id in s.reactors[i].inbox.seen ==> e.id in s'.reactors[i].inbox.seen)
  {
    StepKeepsInv(cfg, handlers, s, step);
    LogIsGood(cfg, s, c);
    assert WellShaped(cfg, s);
    hide Inv, PumpLeaves, AbsorbLeaves, LogGood, Served, InboxAccepts;
    match step
    case Pump(_, a, j) => PumpLog(cfg, handlers, s, c, a, j);
    case Absorb(_, k) =>
      AbsorbTakesAll(cfg[k].reach, s.reactors[k].inbox, s.logs[c]);
      if k == i {
        GoodEvidenceOpens(s.logs[c], Served(cfg), cfg[i].reach, AbsorbLeaves(cfg[i].reach, s.reactors[i].inbox, s.logs[c]), e);
      }
  }

  lemma {:induction false} ExecuteCollects(cfg: Config, handlers: Handlers, s: State, c: nat, steps: seq<Step>, i: nat, e: Leaf)
    requires Inv(cfg, s) && c < |s.logs| && i < |cfg|
    requires forall k :: 0 <= k < |steps| ==> OfTick(cfg, c, steps[k])
    requires e in s.logs[c] && e.Evidence? && e.to in cfg[i].reach
    ensures var s' := Execute(cfg, handlers, s, c, steps);
            && Inv(cfg, s') && e in s'.logs[c]
            && (Absorb(c, i) in steps ==> e.id in s'.reactors[i].inbox.seen)
    decreases |steps|
  {
    assert WellShaped(cfg, s);
    hide Inv, Apply, OfTick;
    if steps != [] {
      var init, step := steps[..|steps| - 1], steps[|steps| - 1];
      assert steps == init + [step];
      ExecuteCollects(cfg, handlers, s, c, init, i, e);
      StepCollects(cfg, handlers, Execute(cfg, handlers, s, c, init), c, i, e, step);
    }
  }

  /** Evidence that an inbox has seen is filed under its root. */
  lemma SeenIsAnswered(cfg: Config, s: State, c: nat, i: nat, e: Leaf)
    requires Inv(cfg, s) && c < |s.logs| && i < |cfg| && e in s.logs[c] && e.Evidence?
    requires e.id in s.reactors[i].inbox.seen
    ensures Answered(s, i, e.root)
  {
    WorldContains(s.logs, c);
    InboxIsGood(cfg, s, i);
    hide Inv, World, RecordOf;
    var world, box := World(s.logs), s.reactors[i].inbox;
    var root, k :| root in box.prov && 0 <= k < |box.prov[root]| && box.prov[root][k].evidenceId == e.id;
    assert FiledGood(world, box.seen, box.prov[root], box.bands[root], root);
    assert BackedBy(world, box.prov[root][k], box.bands[root][k], root);
    var e' :| e' in world && e'.Evidence? && e'.root == root && RecordOf(e') == box.prov[root][k];
    RecordNames(e');
    IdsNameLeaves(cfg, s, e, e');
  }

  lemma RecordNames(e: Leaf)
    requires e.Evidence?
    ensures RecordOf(e).evidenceId == e.id
  {}

  lemma InboxIsGood(cfg: Config, s: State, i: nat)
    requires Inv(cfg, s) && i < |cfg|
    ensures InboxGood(World(s.logs), s.reactors[i].inbox)
  {
    hide World, LogGood, AllStamped, ProviderGood, InboxGood;
  }

  // ---- both halves ----

  lemma TickCollects(cfg: Config, handlers: Handlers, s: State, c: nat, i: nat, n: Leaf, ground: Name)
    requires Inv(cfg, s) && c < |s.logs| && i < |cfg|
    requires n.Need? && Evidenced(s.logs[c], n, ground) && ground in cfg[i].reach
    ensures var s' := TickOnce(cfg, handlers, s, c);
            Inv(cfg, s') && Evidenced(s'.logs[c], n, ground) && Answered(s', i, n.root)
  {
    var steps := TickSteps(cfg, c, |cfg|);
    TickStepsOfTick(cfg, c, |cfg|);
    var e :| e in s.logs[c] && IsEvidence(e, n, ground);
    hide Inv, Execute, TickSteps, Answered;
    ExecuteCollects(cfg, handlers, s, c, steps, i, e);
    SeenIsAnswered(cfg, TickOnce(cfg, handlers, s, c), c, i, e);
  }

  lemma TickHears(cfg: Config, handlers: Handlers, s: State, c: nat, a: nat, j: nat, n: Leaf)
    requires Inv(cfg, s) && c < |s.logs| && a < |cfg| && j < |cfg[a].providers|
    requires HandlerAbsorbs(handlers, a, j, n) && Pending(cfg, s, c, a, j, n)
    ensures var s' := TickOnce(cfg, handlers, s, c);
            Inv(cfg, s') && Evidenced(s'.logs[c], n, cfg[a].providers[j].ground)
  {
    var steps := TickSteps(cfg, c, |cfg|);
    TickStepsOfTick(cfg, c, |cfg|);
    SuitsUnlessSeen(cfg[a].providers[j], s.reactors[a].providers[j], n);
    hide Inv, Execute, TickSteps, Accepts, Suits, Evidenced, HandlerAbsorbs;
    ExecuteHears(cfg, handlers, s, c, steps, a, j, n);
  }

  /** A pending need that its provider's handler absorbs is answered from the second tick on, in every
      inbox that reaches the provider's ground. */
  lemma {:induction false} PendingIsAnswered(cfg: Config, handlers: Handlers, s: State, c: nat, a: nat, j: nat,
                                             n: Leaf, i: nat, m: nat)
    requires Inv(cfg, s) && c < |s.logs| && a < |cfg| && j < |cfg[a].providers| && i < |cfg| && m > 0
    requires Pending(cfg, s, c, a, j, n) && HandlerAbsorbs(handlers, a, j, n)
    requires cfg[a].providers[j].ground in cfg[i].reach
    ensures var s' := Ticks(cfg, handlers, s, c, m);
            && Inv(cfg, s') && Evidenced(s'.logs[c], n, cfg[a].providers[j].ground)
            && (m >= 2 ==> Answered(s', i, n.root))
    decreases m
  {
    assert WellShaped(cfg, s);
    hide Inv, TickOnce, Pending, Evidenced, Answered;
    TicksStep(cfg, handlers, s, c, m - 1);
    if m == 1 {
      TickHears(cfg, handlers, s, c, a, j, n);
    } else {
      PendingIsAnswered(cfg, handlers, s, c, a, j, n, i, m - 1);
      TickCollects(cfg, handlers, Ticks(cfg, handlers, s, c, m - 1), c, i, n, cfg[a].providers[j].ground);
    }
  }

  /** The inbox of reactor i has taken in the evidence for the need n. */
  ghost predicate Collected(s: State, c: nat, i: nat, n: Leaf, ground: Name)
    requires c < |s.logs| && i < |s.reactors| && n.Need?
  {
    exists e :: e in s.logs[c] && IsEvidence(e, n, ground) && e.id in s.reactors[i].inbox.seen
  }

  lemma StepKeepsCollected(cfg: Config, handlers: Handlers, s: State, c: nat, i: nat, n: Leaf, ground: Name, step: Step)
    requires WellShaped(cfg, s) && Inv(cfg, s) && c < |s.logs| && i < |cfg| && OfTick(cfg, c, step)
    requires n.Need? && ground in cfg[i].reach
    requires if step == Absorb(c, i) then Evidenced(s.logs[c], n, ground) else Collected(s, c, i, n, ground)
    ensures Collected(Apply(cfg, handlers, s, step), c, i, n, ground)
  {
    assert Evidenced(s.logs[c], n, ground);
    var e :| e in s.logs[c] && IsEvidence(e, n, ground) && (step == Absorb(c, i) || e.id in s.reactors[i].inbox.seen);
    hide Inv, Apply;
    StepCollects(cfg, handlers, s, c, i, e, step);
  }

  /** Pumped at x, absorbed at y: the evidence is taken in by the end. */
  lemma {:induction false} ExecuteAnswers(cfg: Config, handlers: Handlers, s: State, c: nat, steps: seq<Step>,
                                          a: nat, j: nat, n: Leaf, i: nat, x: nat, y: nat)
    requires Inv(cfg, s) && c < |s.logs| && a < |cfg| && j < |cfg[a].providers| && i < |cfg|
    requires forall k :: 0 <= k < |steps| ==> OfTick(cfg, c, steps[k])
    requires HandlerAbsorbs(handlers, a, j, n) && Suits(cfg[a].providers[j], n) && Heard(cfg, s, c, a, j, n)
    requires cfg[a].providers[j].ground in cfg[i].reach
    requires x < y < |steps| && steps[x] == Pump(c, a, j) && steps[y] == Absorb(c, i)
    ensures var s' := Execute(cfg, handlers, s, c, steps);
            Inv(cfg, s') && Collected(s', c, i, n, cfg[a].providers[j].ground)
    decreases |steps|
  {
    assert WellShaped(cfg, s);
    hide Inv, Apply, OfTick, Suits, HandlerAbsorbs, Collected, Evidenced;
    var init, step := steps[..|steps| - 1], steps[|steps| - 1];
    assert steps == init + [step];
    ExecuteHears(cfg, handlers, s, c, init, a, j, n);
    var mid := Execute(cfg, handlers, s, c, init);
    TickStepHears(cfg, handlers, mid, c, a, j, n, step);
    if y == |init| {
      assert init[x] == Pump(c, a, j);
    } else {
      ExecuteAnswers(cfg, handlers, s, c, init, a, j, n, i, x, y);
      CollectedIsEvidenced(mid, c, i, n, cfg[a].providers[j].ground);
    }
    StepKeepsCollected(cfg, handlers, mid, c, i, n, cfg[a].providers[j].ground, step);
  }

  lemma CollectedIsEvidenced(s: State, c: nat, i: nat, n: Leaf, ground: Name)
    requires c < |s.logs| && i < |s.reactors| && n.Need? && Collected(s, c, i, n, ground)
    ensures Evidenced(s.logs[c], n, ground)
  {}

  lemma CollectedIsAnswered(cfg: Config, s: State, c: nat, i: nat, n: Leaf, ground: Name)
    requires Inv(cfg, s) && c < |s.logs| && i < |cfg| && n.Need? && Collected(s, c, i, n, ground)
    ensures Answered(s, i, n.root)
  {
    var e :| e in s.logs[c] && IsEvidence(e, n, ground) && e.id in s.reactors[i].inbox.seen;
    SeenIsAnswered(cfg, s, c, i, e);
    hide Inv, Answered;
  }

  lemma PumpBeforeAbsorb(cfg: Config, c: nat, a: nat, j: nat, i: nat) returns (x: nat, y: nat)
    requires a <= i < |cfg| && j < |cfg[a].providers|
    ensures var steps := TickSteps(cfg, c, |cfg|);
            x < y < |steps| && steps[x] == Pump(c, a, j) && steps[y] == Absorb(c, i)
  {
    var steps := TickSteps(cfg, c, |cfg|);
    TickStepsOfTick(cfg, c, |cfg|);
    TickInOrder(cfg, c, |cfg|);
    hide TickSteps;
    x :| 0 <= x < |steps| && steps[x] == Pump(c, a, j);
    y :| 0 <= y < |steps| && steps[y] == Absorb(c, i);
    assert !Before(steps[y], steps[x]);
  }

  lemma PendingIsHeard(cfg: Config, s: State, c: nat, a: nat, j: nat, n: Leaf)
    requires WellShaped(cfg, s) && c < |s.logs| && a < |cfg| && j < |cfg[a].providers| && Pending(cfg, s, c, a, j, n)
    ensures n.Need? && Suits(cfg[a].providers[j], n) && Heard(cfg, s, c, a, j, n)
  {
    SuitsUnlessSeen(cfg[a].providers[j], s.reactors[a].providers[j], n);
  }

  /** Where the provider's reactor is the asking one or was added before it, one tick is enough. */
  lemma PendingIsAnsweredAtOnce(cfg: Config, handlers: Handlers, s: State, c: nat, a: nat, j: nat, n: Leaf, i: nat)
    requires WellShaped(cfg, s) && Inv(cfg, s) && c < |s.logs| && a < |cfg| && j < |cfg[a].providers|
    requires i < |cfg| && a <= i
    requires Pending(cfg, s, c, a, j, n) && HandlerAbsorbs(handlers, a, j, n)
    requires cfg[a].providers[j].ground in cfg[i].reach
    ensures Answered(TickOnce(cfg, handlers, s, c), i, n.root)
  {
    var steps := TickSteps(cfg, c, |cfg|);
    TickStepsOfTick(cfg, c, |cfg|);
    var x, y := PumpBeforeAbsorb(cfg, c, a, j, i);
    PendingIsHeard(cfg, s, c, a, j, n);
    hide Inv, Execute, TickSteps, Pending, Heard, Suits, HandlerAbsorbs, Collected, Answered;
    ExecuteAnswers(cfg, handlers, s, c, steps, a, j, n, i, x, y);
    CollectedIsAnswered(cfg, TickOnce(cfg, handlers, s, c), c, i, n, cfg[a].providers[j].ground);
  }

  /** A need placed for a capability is answered from the second tick on, when a provider of it reaches
      it, has not seen its id and absorbs it, and the requester reaches that provider's ground. */
  lemma PlacedIsAnswered(cfg: Config, handlers: Handlers, s: State, c: nat, i: nat, to: Name, need: Payload, draw: Draw,
                         a: nat, j: nat, m: nat)
    requires Inv(cfg, s) && c < |s.logs| && i < |cfg| && a < |cfg| && j < |cfg[a].providers| && m >= 2
    requires var pc := cfg[a].providers[j];
             pc.capability == to && to in pc.reach && pc.ground in cfg[i].reach
    requires var n := NeedArtifact(to, cfg[i].principal, Tick(s.reactors[i].hlc, draw.wall), draw.nonce, need, None, None, [to]);
             n.id !in s.reactors[a].providers[j].seen && handlers(a, j)(n.id, need).absorbed.Some?
    ensures var placed := Apply(cfg, handlers, s, PlaceNeed(c, i, to, need, draw));
            var n := NeedArtifact(to, cfg[i].principal, Tick(s.reactors[i].hlc, draw.wall), draw.nonce, need, None, None, [to]);
            Answered(Ticks(cfg, handlers, placed, c, m), i, n.id)
  {
    var step := PlaceNeed(c, i, to, need, draw);
    var n := NeedArtifact(to, cfg[i].principal, Tick(s.reactors[i].hlc, draw.wall), draw.nonce, need, None, None, [to]);
    StepKeepsInv(cfg, handlers, s, step);
    LogIsGood(cfg, s, c);
    assert LeafGood(s.logs[c], Served(cfg), n);
    assert WellShaped(cfg, s);
    hide Inv, Served, LogGood, LeafGood, Stored, Ticks, Answered;
    AddLeaf(s.logs[c], Served(cfg), n);
    var placed := Apply(cfg, handlers, s, step);
    assert placed.reactors[a].providers == s.reactors[a].providers;
    assert Pending(cfg, placed, c, a, j, n);
    PendingIsAnswered(cfg, handlers, placed, c, a, j, n, i, m);
  }
}
