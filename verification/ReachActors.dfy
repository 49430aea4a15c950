/** The objects of `reach.py` and `pump.py`, whose methods update their fields, proved against the
    state machine of `Reach`. */
module ReachActors {
  import opened Carriers
  import opened Clock
  import opened Outcomes
  import opened Reach
  import opened ReachConvergence
  import opened ReachHops
  import opened ReachLiveness

  type Carrier = InMemoryCarrier<Id, Leaf>

  /** Handling the leaf discharges evidence: it is accepted, and the handler absorbs a band. */
  predicate Discharges(c: ProviderConfig, p: ProviderState, leaf: Leaf, handler: Handler) {
    Accepts(c, p, leaf) && handler(leaf.id, leaf.sealed.body.need).absorbed.Some?
  }

  /** How many of the polled leaves discharge evidence when they are handled in turn. */
  function DischargeCount(c: ProviderConfig, node: Name, p: ProviderState, h: Hlc, polled: seq<Leaf>, handler: Handler): nat
    decreases |polled|
  {
    if polled == [] then 0
    else
      var (p1, h1, _) := Reach.OnLeaf(c, node, p, h, polled[0], handler);
      (if Discharges(c, p, polled[0], handler) then 1 else 0) + DischargeCount(c, node, p1, h1, polled[1..], handler)
  }

  /** The needs handled between two states of a provider that absorbed a band. */
  ghost function Absorbing(p: ProviderState, p': ProviderState): set<Id> {
    set id | id in p'.handled && id !in p.seen && p'.handled[id].Some?
  }

  lemma {:induction false} PumpKeepsHandled(c: ProviderConfig, node: Name, p: ProviderState, h: Hlc, log: Log,
                                            polled: seq<Leaf>, handler: Handler)
    requires p.handled.Keys == p.seen
    ensures var (p', _, _) := PumpLeaves(c, node, p, h, log, polled, handler);
            && p'.handled.Keys == p'.seen && p.seen <= p'.seen
            && forall id :: id in p.seen ==> p'.handled[id] == p.handled[id]
    decreases |polled|
  {
    hide StoreAll, Emitted;
    if polled != [] {
      var (p1, h1, out) := Reach.OnLeaf(c, node, p, h, polled[0], handler);
      PumpKeepsHandled(c, node, p1, h1, StoreAll(log, out), polled[1..], handler);
    }
  }

  lemma LeafAbsorbs(c: ProviderConfig, node: Name, p: ProviderState, h: Hlc, leaf: Leaf, handler: Handler, p': ProviderState)
    requires p.handled.Keys == p.seen && p'.handled.Keys == p'.seen
    requires var (p1, _, _) := Reach.OnLeaf(c, node, p, h, leaf, handler);
             p1.seen <= p'.seen && forall id :: id in p1.seen ==> id in p'.seen && p'.handled[id] == p1.handled[id]
    ensures var (p1, _, _) := Reach.OnLeaf(c, node, p, h, leaf, handler);
            && p1.handled.Keys == p1.seen
            && |Absorbing(p, p')| == (if Discharges(c, p, leaf, handler) then 1 else 0) + |Absorbing(p1, p')|
  {
    hide Emitted;
    var (p1, _, _) := Reach.OnLeaf(c, node, p, h, leaf, handler);
    if Discharges(c, p, leaf, handler) {
      assert Absorbing(p, p') == Absorbing(p1, p') + {leaf.id} && leaf.id !in Absorbing(p1, p');
    } else {
      assert Absorbing(p, p') == Absorbing(p1, p');
    }
  }

  lemma HandledWithSeen(c: ProviderConfig, node: Name, p: ProviderState, h: Hlc, leaf: Leaf, handler: Handler)
    requires p.handled.Keys == p.seen
    ensures Reach.OnLeaf(c, node, p, h, leaf, handler).0.handled.Keys == Reach.OnLeaf(c, node, p, h, leaf, handler).0.seen
  {
    hide Emitted, Accepts;
  }

  /** What `pump` counts is the number of needs it handled with evidence, each counted once. */
  lemma {:induction false} CountIsAbsorbing(c: ProviderConfig, node: Name, p: ProviderState, h: Hlc, log: Log,
                                            polled: seq<Leaf>, handler: Handler)
    requires p.handled.Keys == p.seen
    ensures var (p', _, _) := PumpLeaves(c, node, p, h, log, polled, handler);
            DischargeCount(c, node, p, h, polled, handler) == |Absorbing(p, p')|
    decreases |polled|
  {
    if polled == [] {
      assert Absorbing(p, p) == {};
    } else {
      var (p1, h1, out) := Reach.OnLeaf(c, node, p, h, polled[0], handler);
      var log1 := StoreAll(log, out);
      HandledWithSeen(c, node, p, h, polled[0], handler);
      hide Reach.OnLeaf, StoreAll, Absorbing, Discharges;
      CountIsAbsorbing(c, node, p1, h1, log1, polled[1..], handler);
      PumpKeepsHandled(c, node, p1, h1, log1, polled[1..], handler);
      var (p', _, _) := PumpLeaves(c, node, p1, h1, log1, polled[1..], handler);
      LeafAbsorbs(c, node, p, h, polled[0], handler, p');
    }
  }

  class Provider {
    const config: ProviderConfig
    const node: Name
    const handler: Handler
    const clock: HybridClock
    var seen: set<Id>
    var handled: map<Id, Option<Payload>>
    ghost var calls: seq<Id>

    ghost function State(): ProviderState
      reads this
    {
      ProviderState(seen, calls, handled)
    }

    constructor (config: ProviderConfig, node: Name, handler: Handler, clock: HybridClock)
      ensures State() == EMPTY_PROVIDER
      ensures this.config == config && this.node == node && this.handler == handler && this.clock == clock
    {
      this.config, this.node, this.handler, this.clock := config, node, handler, clock;
      seen, handled, calls := {}, map[], [];
    }

    /** Absorb: discharge the evidence onto the ground. */
    method Discharge(leaf: Leaf, reply: Reply, out: Carrier)
      requires leaf.Need? && out.Valid() && out.idOf == LeafId
      modifies clock, out`byId, out`order
      ensures out.Valid()
      ensures var (h, leaves) := Discharged(config, node, old(clock.Reading()), leaf, reply);
              clock.Reading() == h && out.Log() == StoreAll(old(out.Log()), leaves)
    {
      hide Stored;
      if reply.absorbed.Some? {
        var h := clock.TickAt(reply.evidenceDraw.wall);
        var ev := EvidenceArtifact(config.ground, node, h, reply.evidenceDraw.nonce, reply.absorbed.value, leaf.id, leaf.root,
                                   config.capability);
        StoreOne(out.Log(), ev);
        out.Put(ev);
      }
    }

    /** Transmit: the residual keeps propagating, unless its next hop is on the path. */
    method Transmit(leaf: Leaf, reply: Reply, out: Carrier)
      requires leaf.Need? && out.Valid() && out.idOf == LeafId
      modifies clock, out`byId, out`order
      ensures out.Valid()
      ensures var (h, leaves) := Transmitted(node, old(clock.Reading()), leaf, reply);
              clock.Reading() == h && out.Log() == StoreAll(old(out.Log()), leaves)
    {
      hide Stored;
      if reply.residual.Some? && reply.to.Some? && reply.to.value !in leaf.path {
        var h := clock.TickAt(reply.needDraw.wall);
        var next := NeedArtifact(reply.to.value, node, h, reply.needDraw.nonce, reply.residual.value, Some(leaf.root), Some(leaf.id),
                                 leaf.path + [reply.to.value]);
        StoreOne(out.Log(), next);
        out.Put(next);
      }
    }

    /** `on_leaf` with an outbound carrier; the result says whether evidence was discharged. */
    method OnLeaf(leaf: Leaf, out: Carrier) returns (discharged: bool)
      requires out.Valid() && out.idOf == LeafId
      modifies this, clock, out`byId, out`order
      ensures out.Valid()
      ensures var (p, h, leaves) := Reach.OnLeaf(config, node, old(State()), old(clock.Reading()), leaf, handler);
              State() == p && clock.Reading() == h && out.Log() == StoreAll(old(out.Log()), leaves)
      ensures discharged <==> Discharges(config, old(State()), leaf, handler)
    {
      hide Discharged, Transmitted, InMemoryCarrier.Valid, InMemoryCarrier.Log;
      ghost var before, h0 := out.Log(), clock.Reading();
      assert StoreAll(before, []) == before;
      hide StoreAll;
      if !Accepts(config, ProviderState(seen, [], handled), leaf) {
        return false;
      }
      seen := seen + {leaf.id};
      calls := calls + [leaf.id];
      var reply := handler(leaf.id, leaf.sealed.body.need);
      handled := handled[leaf.id := reply.absorbed];
      Discharge(leaf, reply, out);
      ghost var evidence := Discharged(config, node, h0, leaf, reply).1;
      ghost var onward := Transmitted(node, clock.Reading(), leaf, reply).1;
      Transmit(leaf, reply, out);
      StoreConcat(before, evidence, onward);
      discharged := reply.absorbed.Some?;
    }

    /** `pump`: handle what `carrier` lists and discharge onto `out`, which may be the same carrier. The
        result is how many needs were discharged. */
    method Pump(carrier: Carrier, out: Carrier) returns (n: nat)
      requires carrier.Valid() && out.Valid() && out.idOf == LeafId
      modifies this, clock, out`byId, out`order
      ensures out.Valid()
      ensures n == DischargeCount(config, node, old(State()), old(clock.Reading()), old(carrier.Log()), handler)
      ensures (State(), clock.Reading(), out.Log()) ==
              PumpLeaves(config, node, old(State()), old(clock.Reading()), old(out.Log()), old(carrier.Log()), handler)
    {
      hide Reach.OnLeaf, StoreAll, Discharges;
      n := 0;
      var polled := carrier.Poll();
      assert polled[0..] == polled;
      for i := 0 to |polled|
        invariant out.Valid()
        invariant PumpLeaves(config, node, old(State()), old(clock.Reading()), old(out.Log()), polled, handler)
               == PumpLeaves(config, node, State(), clock.Reading(), out.Log(), polled[i..], handler)
        invariant DischargeCount(config, node, old(State()), old(clock.Reading()), polled, handler)
               == n + DischargeCount(config, node, State(), clock.Reading(), polled[i..], handler)
      {
        assert polled[i..][0] == polled[i] && polled[i..][1..] == polled[i + 1..];
        var discharged := OnLeaf(polled[i], out);
        if discharged {
          n := n + 1;
        }
      }
    }
  }

  class Requester {
    const reach: set<Name>
    var seen: set<Id>
    var bands: map<Id, seq<(Hlc, Payload)>>
    var prov: map<Id, seq<Record>>

    function State(): Inbox
      reads this
    {
      Inbox(seen, bands, prov)
    }

    constructor (reach: set<Name>)
      ensures State() == EMPTY_INBOX && this.reach == reach
    {
      this.reach := reach;
      seen, bands, prov := {}, map[], map[];
    }

    method OnLeaf(leaf: Leaf)
      modifies this
      ensures State() == AbsorbLeaf(reach, old(State()), leaf)
      ensures !MayFile(reach, leaf) || leaf.id in old(seen) ==> State() == old(State())
      ensures MayFile(reach, leaf) && leaf.id !in old(seen) ==>
                && seen == old(seen) + {leaf.id}
                && leaf.root in bands && leaf.root in prov
                && bands[leaf.root] == (if leaf.root in old(bands) then old(bands)[leaf.root] else [])
                                       + [(leaf.hlc, leaf.sealed.body.evidence)]
                && prov[leaf.root] == (if leaf.root in old(prov) then old(prov)[leaf.root] else [])
                                      + [Record(leaf.hlc, leaf.id, leaf.inReplyTo, leaf.root, leaf.origin, leaf.cap)]
                && bands - {leaf.root} == old(bands) - {leaf.root} && prov - {leaf.root} == old(prov) - {leaf.root}
    {
      if !InboxAccepts(reach, State(), leaf) {
        return;
      }
      seen := seen + {leaf.id};
      bands := Filed(bands, leaf.root, (leaf.hlc, leaf.sealed.body.evidence));
      prov := Filed(prov, leaf.root, RecordOf(leaf));
    }

    method Absorb(carrier: Carrier)
      requires carrier.Valid()
      modifies this
      ensures State() == AbsorbLeaves(reach, old(State()), carrier.Log())
    {
      hide AbsorbLeaf;
      var polled := carrier.Poll();
      for i := 0 to |polled|
        invariant State() == AbsorbLeaves(reach, old(State()), polled[..i])
      {
        assert polled[..i + 1][..i] == polled[..i];
        OnLeaf(polled[i]);
      }
      assert polled[..|polled|] == polled;
    }
  }

  /** The providers of one reactor, pumped in order. */
  ghost function PumpedProviders(rc: ReactorConfig, handlers: nat -> Handler, r: ReactorState, log: Log, n: nat)
    : (result: (ReactorState, Log))
    requires |r.providers| == |rc.providers| && n <= |rc.providers|
    ensures |result.0.providers| == |rc.providers| && result.0.inbox == r.inbox
  {
    if n == 0 then (r, log)
    else
      var (r1, log1) := PumpedProviders(rc, handlers, r, log, n - 1);
      var (p, h, log2) := PumpLeaves(rc.providers[n - 1], rc.principal, r1.providers[n - 1], r1.hlc, log1, log1, handlers(n - 1));
      (r1.(hlc := h, providers := r1.providers[n - 1 := p]), log2)
  }

  /** One reactor's pump: its providers in order, then its inbox. */
  ghost function PumpedReactor(rc: ReactorConfig, handlers: nat -> Handler, r: ReactorState, log: Log)
    : (result: (ReactorState, Log))
    requires |r.providers| == |rc.providers|
    ensures |result.0.providers| == |rc.providers|
  {
    var (r1, log1) := PumpedProviders(rc, handlers, r, log, |rc.providers|);
    (r1.(inbox := AbsorbLeaves(rc.reach, r1.inbox, log1)), log1)
  }

  class Reactor {
    const principal: Name
    const clock: HybridClock
    const inbox: Requester
    var providers: seq<Provider>

    /** The objects that a pump changes. */
    ghost function Parts(): set<object>
      reads this
    {
      {clock, inbox} + set p | p in providers
    }

    ghost predicate Valid()
      reads this, Parts()
    {
      && this !in Parts()
      && (forall j :: 0 <= j < |providers| ==> providers[j].clock == clock && providers[j].node == principal)
      && forall j, k :: 0 <= j < k < |providers| ==> providers[j] != providers[k]
    }

    ghost function Config(): (rc: ReactorConfig)
      reads this
      ensures |rc.providers| == |providers|
    {
      ReactorConfig(principal, seq(|providers|, j requires 0 <= j < |providers| reads this => providers[j].config), inbox.reach)
    }

    ghost function State(): (r: ReactorState)
      reads this, Parts()
      ensures |r.providers| == |providers|
    {
      ReactorState(clock.Reading(),
                   seq(|providers|, j requires 0 <= j < |providers| reads this, Parts() => providers[j].State()),
                   inbox.State())
    }

    constructor (principal: Name, reach: set<Name>, clock: HybridClock)
      ensures Valid() && State() == ReactorState(clock.Reading(), [], EMPTY_INBOX)
      ensures Config() == ReactorConfig(principal, [], reach) && this.clock == clock
      ensures fresh(this) && fresh(inbox) && providers == []
    {
      this.principal, this.clock := principal, clock;
      inbox := new Requester(reach);
      providers := [];
      new;
      assert State().providers == [];
      assert Config().providers == [];
    }

    method Serve(config: ProviderConfig, handler: Handler)
      requires Valid()
      modifies this
      ensures Valid()
      ensures |providers| == old(|providers|) + 1 && providers[..old(|providers|)] == old(providers)
      ensures fresh(providers[old(|providers|)]) && providers[old(|providers|)].handler == handler
      ensures State() == old(State()).(providers := old(State().providers) + [EMPTY_PROVIDER])
      ensures Config() == old(Config()).(providers := old(Config().providers) + [config])
    {
      var prov := new Provider(config, principal, handler, clock);
      providers := providers + [prov];
      assert State().providers == old(State().providers) + [EMPTY_PROVIDER];
      assert Config().providers == old(Config().providers) + [config];
    }

    /** `Reactor.reach` over a carrier: place a need and return its handle. */
    method Place(carrier: Carrier, need: Payload, to: Name, draw: Draw) returns (handle: Id)
      requires Valid() && carrier.Valid() && carrier.idOf == LeafId
      modifies clock, carrier`byId, carrier`order
      ensures Valid() && carrier.Valid()
      ensures State() == old(State()).(hlc := Tick(old(clock.Reading()), draw.wall))
      ensures var leaf := NeedArtifact(to, principal, Tick(old(clock.Reading()), draw.wall), draw.nonce, need, None, None, [to]);
              handle == leaf.id && carrier.Log() == Stored(LeafId, old(carrier.Log()), leaf)
    {
      ghost var before := State();
      var h := clock.TickAt(draw.wall);
      var leaf := NeedArtifact(to, principal, h, draw.nonce, need, None, None, [to]);
      carrier.Put(leaf);
      assert State().providers == before.providers;
      handle := leaf.id;
    }

    /** One provider's part of a pump. */
    method PumpProvider(j: nat, carrier: Carrier, ghost handlers: nat -> Handler)
      requires Valid() && carrier.Valid() && carrier.idOf == LeafId && j < |providers| && handlers(j) == providers[j].handler
      modifies clock, providers, carrier`byId, carrier`order
      ensures Valid() && carrier.Valid()
      ensures var (p, h, log) := PumpLeaves(Config().providers[j], Config().principal, old(State()).providers[j],
                                            old(State()).hlc, old(carrier.Log()), old(carrier.Log()), handlers(j));
              State() == old(State()).(hlc := h, providers := old(State()).providers[j := p]) && carrier.Log() == log
    {
      hide InMemoryCarrier.Valid, InMemoryCarrier.Log, PumpLeaves, Provider.State, HybridClock.Reading;
      ghost var before := State();
      var n := providers[j].Pump(carrier, carrier);
      assert State().providers == before.providers[j := providers[j].State()];
    }

    /** The loop over the providers. */
    method PumpProviders(carrier: Carrier, ghost handlers: nat -> Handler)
      requires Valid() && carrier.Valid() && carrier.idOf == LeafId
      requires forall j: nat :: j < |providers| ==> handlers(j) == providers[j].handler
      modifies clock, providers, carrier`byId, carrier`order
      ensures Valid() && carrier.Valid()
      ensures (State(), carrier.Log()) ==
              PumpedProviders(Config(), handlers, old(State()), old(carrier.Log()), |providers|)
    {
      hide InMemoryCarrier.Valid, InMemoryCarrier.Log, PumpLeaves, Reactor.State, Reactor.Valid;
      ghost var rc, start, log0 := Config(), State(), carrier.Log();
      for j := 0 to |providers|
        invariant Valid() && carrier.Valid()
        invariant (State(), carrier.Log()) == PumpedProviders(rc, handlers, start, log0, j)
      {
        PumpProvider(j, carrier, handlers);
      }
    }

    method Pump(carrier: Carrier, ghost handlers: nat -> Handler)
      requires Valid() && carrier.Valid() && carrier.idOf == LeafId
      requires forall j: nat :: j < |providers| ==> handlers(j) == providers[j].handler
      modifies clock, inbox, providers, carrier`byId, carrier`order
      ensures Valid() && carrier.Valid()
      ensures (State(), carrier.Log()) == PumpedReactor(Config(), handlers, old(State()), old(carrier.Log()))
    {
      hide InMemoryCarrier.Valid, InMemoryCarrier.Log, PumpedProviders, AbsorbLeaves;
      PumpProviders(carrier, handlers);
      ghost var after := State();
      inbox.Absorb(carrier);
      assert State().providers == after.providers;
    }
  }

  // ---- the pump loop ----

  function HandlersOf(handlers: Handlers, i: nat): nat -> Handler {
    (j: nat) => handlers(i, j)
  }

  lemma {:induction false} ExecuteConcat(cfg: Config, handlers: Handlers, s: State, c: nat, a: seq<Step>, b: seq<Step>)
    requires WellShaped(cfg, s) && c < |s.logs|
    requires forall k :: 0 <= k < |a| ==> OfTick(cfg, c, a[k])
    requires forall k :: 0 <= k < |b| ==> OfTick(cfg, c, b[k])
    ensures forall k :: 0 <= k < |a + b| ==> OfTick(cfg, c, (a + b)[k])
    ensures Execute(cfg, handlers, s, c, a + b) == Execute(cfg, handlers, Execute(cfg, handlers, s, c, a), c, b)
    decreases |b|
  {
    hide Apply, OfTick;
    if b == [] {
      assert a + b == a;
    } else {
      var init, last := b[..|b| - 1], b[|b| - 1];
      ExecuteConcat(cfg, handlers, s, c, a, init);
      assert (a + b)[..|a + b| - 1] == a + init && (a + b)[|a + b| - 1] == last;
    }
  }

  /** One more pump of a reactor whose first providers were pumped. */
  lemma PumpIsApplied(cfg: Config, handlers: Handlers, s: State, s1: State, i: nat, n: nat)
    requires WellShaped(cfg, s) && |s.logs| == 1 && i < |cfg| && n < |cfg[i].providers|
    requires var (r, log) := PumpedProviders(cfg[i], HandlersOf(handlers, i), s.reactors[i], s.logs[0], n);
             s1 == State([log], s.reactors[i := r]) && WellShaped(cfg, s1)
    ensures var (r, log) := PumpedProviders(cfg[i], HandlersOf(handlers, i), s.reactors[i], s.logs[0], n + 1);
            Apply(cfg, handlers, s1, Pump(0, i, n)) == State([log], s.reactors[i := r])
  {
    hide PumpLeaves;
    assert s1.logs[0 := Apply(cfg, handlers, s1, Pump(0, i, n)).logs[0]] == [Apply(cfg, handlers, s1, Pump(0, i, n)).logs[0]];
  }

  /** The steps of one reactor's pumps amount to `PumpedProviders`. */
  lemma {:induction false} PumpedIsExecuted(cfg: Config, handlers: Handlers, s: State, i: nat, n: nat)
    requires WellShaped(cfg, s) && |s.logs| == 1 && i < |cfg| && n <= |cfg[i].providers|
    requires forall k :: 0 <= k < |PumpSteps(0, i, n)| ==> OfTick(cfg, 0, PumpSteps(0, i, n)[k])
    ensures var (r, log) := PumpedProviders(cfg[i], HandlersOf(handlers, i), s.reactors[i], s.logs[0], n);
            Execute(cfg, handlers, s, 0, PumpSteps(0, i, n)) == State([log], s.reactors[i := r])
  {
    hide PumpLeaves, Apply;
    if n == 0 {
      assert s.reactors[i := s.reactors[i]] == s.reactors && [s.logs[0]] == s.logs;
    } else {
      var steps := PumpSteps(0, i, n);
      assert steps[..|steps| - 1] == PumpSteps(0, i, n - 1);
      assert forall k :: 0 <= k < |steps| - 1 ==> PumpSteps(0, i, n - 1)[k] == steps[k];
      PumpedIsExecuted(cfg, handlers, s, i, n - 1);
      hide PumpedProviders;
      PumpIsApplied(cfg, handlers, s, Execute(cfg, handlers, s, 0, PumpSteps(0, i, n - 1)), i, n - 1);
    }
  }

  /** s is what the first i reactors' part of a tick makes of start. */
  ghost predicate TickedSoFar(cfg: Config, handlers: Handlers, start: State, s: State, i: nat)
    requires WellShaped(cfg, start) && |start.logs| == 1 && i <= |cfg|
  {
    TickStepsOfTick(cfg, 0, i);
    s == Execute(cfg, handlers, start, 0, TickSteps(cfg, 0, i))
  }

  lemma AllTicked(cfg: Config, handlers: Handlers, start: State, s: State)
    requires WellShaped(cfg, start) && |start.logs| == 1 && TickedSoFar(cfg, handlers, start, s, |cfg|)
    ensures s == TickOnce(cfg, handlers, start, 0)
  {}

  /** One reactor's pump is its part of a tick. */
  lemma ReactorTicks(cfg: Config, handlers: Handlers, start: State, s: State, i: nat)
    requires WellShaped(cfg, start) && |start.logs| == 1 && WellShaped(cfg, s) && |s.logs| == 1 && i < |cfg|
    requires TickedSoFar(cfg, handlers, start, s, i)
    ensures var (r, log) := PumpedReactor(cfg[i], HandlersOf(handlers, i), s.reactors[i], s.logs[0]);
            TickedSoFar(cfg, handlers, start, State([log], s.reactors[i := r]), i + 1)
  {
    var n := |cfg[i].providers|;
    var pumps, absorb := PumpSteps(0, i, n), [Absorb(0, i)];
    TickStepsOfTick(cfg, 0, i);
    TickStepsOfTick(cfg, 0, i + 1);
    PumpStepsOfTick(cfg, 0, i, n);
    AbsorbOfTick(cfg, 0, i);
    TickStepsLast(cfg, 0, i + 1);
    PumpedIsExecuted(cfg, handlers, s, i, n);
    hide OfTick, TickSteps, PumpSteps, PumpedProviders, AbsorbLeaves;
    ExecuteConcat(cfg, handlers, start, 0, TickSteps(cfg, 0, i), pumps);
    ExecuteConcat(cfg, handlers, start, 0, TickSteps(cfg, 0, i) + pumps, absorb);
    OneExecuted(cfg, handlers, Execute(cfg, handlers, s, 0, pumps), Absorb(0, i));
    hide Execute;
  }

  lemma OneExecuted(cfg: Config, handlers: Handlers, s: State, step: Step)
    requires WellShaped(cfg, s) && |s.logs| == 1 && OfTick(cfg, 0, step)
    ensures Execute(cfg, handlers, s, 0, [step]) == Apply(cfg, handlers, s, step)
  {
    hide Apply;
    assert [step][..0] == [];
    assert Execute(cfg, handlers, s, 0, []) == s;
  }

  class PumpLoop {
    const carrier: Carrier
    var reactors: seq<Reactor>
    /** The carrier and all parts of every reactor. */
    ghost var repr: set<object>

    ghost predicate Valid()
      reads this, reactors, repr
    {
      && this !in repr && carrier in repr && carrier.Valid() && carrier.idOf == LeafId
      && (forall i :: 0 <= i < |reactors| ==> reactors[i] !in repr && reactors[i].Parts() <= repr && reactors[i].Valid())
      && forall i, k :: 0 <= i < k < |reactors| ==> reactors[i].Parts() !! reactors[k].Parts()
    }

    ghost function Config(): (cfg: Config)
      reads this, reactors
      ensures |cfg| == |reactors|
    {
      seq(|reactors|, i requires 0 <= i < |reactors| reads this, reactors => reactors[i].Config())
    }

    ghost function System(): (s: State)
      requires Valid()
      reads this, reactors, repr
      ensures WellShaped(Config(), s) && |s.logs| == 1
    {
      State([carrier.Log()],
            seq(|reactors|, i requires 0 <= i < |reactors| && reactors[i].Parts() <= repr
                              reads this, reactors, repr => reactors[i].State()))
    }

    /** The handlers of the state machine are those of the objects. */
    ghost predicate Serves(handlers: Handlers)
      reads this, reactors
    {
      forall i: nat, j: nat :: i < |reactors| && j < |reactors[i].providers| ==>
        handlers(i, j) == reactors[i].providers[j].handler
    }

    constructor (carrier: Carrier)
      requires carrier.Valid() && carrier.idOf == LeafId
      ensures Valid() && this.carrier == carrier && reactors == []
    {
      this.carrier := carrier;
      reactors := [];
      repr := {carrier};
    }

    method Append(reactor: Reactor)
      requires Valid() && reactor.Valid() && reactor !in repr
      requires this !in reactor.Parts() && forall i :: 0 <= i < |reactors| ==>
                 reactors[i] !in reactor.Parts() && reactors[i].Parts() !! reactor.Parts()
      modifies this
      ensures Valid() && reactors == old(reactors) + [reactor]
    {
      hide InMemoryCarrier.Valid, InMemoryCarrier.Log;
      reactors := reactors + [reactor];
      repr := repr + reactor.Parts();
    }

    /** Register another reactor to drive. */
    method Add(reactor: Reactor)
      requires Valid() && reactor.Valid() && reactor !in repr
      requires this !in reactor.Parts() && forall i :: 0 <= i < |reactors| ==>
                 reactors[i] !in reactor.Parts() && reactors[i].Parts() !! reactor.Parts()
      modifies this
      ensures Valid() && reactors == old(reactors) + [reactor]
      ensures System().reactors == old(System().reactors) + [reactor.State()] && System().logs == old(System().logs)
      ensures Config() == old(Config()) + [reactor.Config()]
    {
      hide InMemoryCarrier.Valid, InMemoryCarrier.Log, Reactor.Valid;
      Append(reactor);
      assert forall k :: 0 <= k < |old(reactors)| ==> reactors[k].State() == old(reactors[k].State());
    }

    /** Drive one reactor; the others are untouched. */
    method PumpOne(i: nat, ghost handlers: Handlers)
      requires Valid() && i < |reactors|
      requires forall j: nat :: j < |reactors[i].providers| ==> handlers(i, j) == reactors[i].providers[j].handler
      modifies repr
      ensures Valid()
      ensures forall k :: 0 <= k < |reactors| && k != i ==> reactors[k].State() == old(reactors[k].State())
      ensures (reactors[i].State(), carrier.Log()) ==
              PumpedReactor(reactors[i].Config(), HandlersOf(handlers, i), old(reactors[i].State()), old(carrier.Log()))
    {
      hide PumpedReactor, Reactor.Valid, Reactor.State, Reactor.Config, InMemoryCarrier.Valid, InMemoryCarrier.Log;
      var r := reactors[i];
      assert forall p :: p in r.providers ==> p in r.Parts();
      r.Pump(carrier, HandlersOf(handlers, i));
    }

    /** One reactor's part of a tick that began in `start`. */
    method TickReactor(i: nat, ghost handlers: Handlers, ghost cfg: Config, ghost start: State)
      requires Valid() && i < |reactors| && Config() == cfg && WellShaped(cfg, start) && |start.logs| == 1
      requires forall j: nat :: j < |reactors[i].providers| ==> handlers(i, j) == reactors[i].providers[j].handler
      requires TickedSoFar(cfg, handlers, start, System(), i)
      modifies repr
      ensures Valid() && Config() == cfg
      ensures TickedSoFar(cfg, handlers, start, System(), i + 1)
    {
      hide TickOnce, PumpedReactor, Reactor.Valid, Reactor.State, Reactor.Config, HandlersOf, TickedSoFar;
      hide InMemoryCarrier.Valid, InMemoryCarrier.Log;
      ghost var before := System();
      assert before.reactors[i] == reactors[i].State() && cfg[i] == reactors[i].Config();
      PumpOne(i, handlers);
      assert System().reactors == before.reactors[i := reactors[i].State()];
      ReactorTicks(cfg, handlers, start, before, i);
    }

    /** One cadence pass: what it does to the carrier and every reactor is exactly one tick of the
        state machine. */
    method Tick(ghost handlers: Handlers) returns (pumped: nat)
      requires Valid() && Serves(handlers)
      modifies repr
      ensures Valid() && Config() == old(Config()) && pumped == |reactors|
      ensures System() == TickOnce(Config(), handlers, old(System()), 0)
    {
      hide TickOnce, Reactor.Valid, Reactor.State, Reactor.Config, HandlersOf;
      hide InMemoryCarrier.Valid, InMemoryCarrier.Log;
      ghost var cfg, start := Config(), System();
      pumped := 0;
      for i := 0 to |reactors|
        invariant Valid() && Config() == cfg && pumped == i
        invariant TickedSoFar(cfg, handlers, start, System(), i)
      {
        hide TickedSoFar, PumpLoop.System;
        TickReactor(i, handlers, cfg, start);
        pumped := pumped + 1;
      }
      AllTicked(cfg, handlers, start, System());
    }

    method PlaceOne(i: nat, need: Payload, to: Name, draw: Draw) returns (handle: Id)
      requires Valid() && i < |reactors|
      modifies repr
      ensures Valid()
      ensures forall k :: 0 <= k < |reactors| && k != i ==> reactors[k].State() == old(reactors[k].State())
      ensures reactors[i].State() == old(reactors[i].State()).(hlc := Clock.Tick(old(reactors[i].State()).hlc, draw.wall))
      ensures var stamp := Clock.Tick(old(reactors[i].State()).hlc, draw.wall);
              var leaf := NeedArtifact(to, reactors[i].Config().principal, stamp, draw.nonce, need, None, None, [to]);
              handle == leaf.id && carrier.Log() == Stored(LeafId, old(carrier.Log()), leaf)
    {
      hide InMemoryCarrier.Valid, InMemoryCarrier.Log, Reactor.Valid, Stored;
      handle := reactors[i].Place(carrier, need, to, draw);
    }

    /** `Reactor.reach` of one of the loop's reactors, over the shared carrier. */
    method PlaceAt(i: nat, need: Payload, to: Name, draw: Draw, ghost handlers: Handlers) returns (handle: Id)
      requires Valid() && i < |reactors|
      modifies repr
      ensures Valid() && Config() == old(Config()) && (old(Serves(handlers)) ==> Serves(handlers))
      ensures repr == old(repr) && reactors == old(reactors)
      ensures System() == Apply(Config(), handlers, old(System()), PlaceNeed(0, i, to, need, draw))
      ensures var stamp := Clock.Tick(old(System()).reactors[i].hlc, draw.wall);
              handle == NeedArtifact(to, Config()[i].principal, stamp, draw.nonce, need, None, None, [to]).id
    {
      hide InMemoryCarrier.Valid, InMemoryCarrier.Log, Reactor.Valid, Reactor.State, Reactor.Config, Stored;
      ghost var before := System();
      handle := PlaceOne(i, need, to, draw);
      assert System().reactors == before.reactors[i := reactors[i].State()];
      assert before.logs[0 := carrier.Log()] == [carrier.Log()];
    }

    /** One round of `resolve`'s loop: a tick, and a look into the inbox. */
    method TickAndLook(i: nat, handle: Id, ghost handlers: Handlers) returns (found: bool)
      requires Valid() && i < |reactors| && Serves(handlers)
      modifies repr
      ensures Valid() && Config() == old(Config()) && Serves(handlers)
      ensures repr == old(repr) && reactors == old(reactors)
      ensures System() == TickOnce(Config(), handlers, old(System()), 0)
      ensures found <==> Answered(System(), i, handle)
    {
      hide PumpLoop.System, PumpLoop.Config, Answered, Reactor.Valid, InMemoryCarrier.Valid, InMemoryCarrier.Log, TickOnce;
      var _ := Tick(handlers);
      found := HasEvidence(i, handle);
    }

    /** The loop of `resolve`. */
    method TickUntil(i: nat, handle: Id, maxTicks: int, ghost handlers: Handlers, ghost cfg: Config, ghost placed: State)
      returns (found: bool, ghost ticks: nat)
      requires WellShaped(cfg, placed) && |placed.logs| == 1 && i < |cfg|
      requires Valid() && Config() == cfg && System() == placed && Serves(handlers)
      modifies repr
      ensures Valid() && Config() == cfg && System() == Ticks(cfg, handlers, placed, 0, ticks)
      ensures 0 < ticks <= Tries(maxTicks) && (found || ticks == Tries(maxTicks))
      ensures found <==> Answered(Ticks(cfg, handlers, placed, 0, ticks), i, handle)
      ensures SilentBefore(cfg, handlers, placed, i, handle, ticks)
    {
      hide *;
      ticks := 0;
      found := false;
      TicksNone(cfg, handlers, placed, 0);
      SilentFromStart(cfg, handlers, placed, i, handle);
      for k := 0 to Tries(maxTicks)
        invariant Valid() && Config() == cfg && Serves(handlers) && repr == old(repr)
        invariant ticks == k && !found
        invariant System() == Ticks(cfg, handlers, placed, 0, k)
        invariant SilentBefore(cfg, handlers, placed, i, handle, k + 1)
      {
        TicksStep(cfg, handlers, placed, 0, k);
        found := TickAndLook(i, handle, handlers);
        ticks := ticks + 1;
        if found {
          return;
        }
        SilentLonger(cfg, handlers, placed, i, handle, k + 1);
      }
      SilentShorter(cfg, handlers, placed, i, handle, ticks);
    }

    /** `resolve`: place a need and tick until evidence for it returns, at most `maxTicks` times. */
    method Resolve(i: nat, need: Payload, to: Name, draw: Draw, maxTicks: int, ghost handlers: Handlers)
      returns (handle: Id, found: bool, ghost ticks: nat)
      requires Valid() && i < |reactors|
      requires Serves(handlers)
      modifies repr
      ensures Valid() && Config() == old(Config())
      ensures var stamp := Clock.Tick(old(System()).reactors[i].hlc, draw.wall);
              handle == NeedArtifact(to, Config()[i].principal, stamp, draw.nonce, need, None, None, [to]).id
      ensures var placed := Apply(Config(), handlers, old(System()), PlaceNeed(0, i, to, need, draw));
              System() == Ticks(Config(), handlers, placed, 0, ticks)
              && SilentBefore(Config(), handlers, placed, i, handle, ticks)
      ensures 0 < ticks && (ticks <= maxTicks || ticks == 1)
      ensures found || ticks == if maxTicks > 1 then maxTicks else 1
      ensures found <==> Answered(System(), i, handle)
    {
      hide PumpLoop.System, PumpLoop.Config, PumpLoop.Valid, PumpLoop.Serves, Apply, Ticks, SilentBefore, Answered;
      handle := PlaceAt(i, need, to, draw, handlers);
      found, ticks := TickUntil(i, handle, maxTicks, handlers, Config(), System());
    }

    method HasEvidence(i: nat, handle: Id) returns (found: bool)
      requires Valid() && i < |reactors|
      ensures found <==> Answered(System(), i, handle)
    {
      hide InMemoryCarrier.Valid, InMemoryCarrier.Log, Reactor.Valid;
      var bands := reactors[i].inbox.bands;
      found := handle in bands && bands[handle] != [];
    }
  }

  /** `max(1, max_ticks)`. */
  function Tries(maxTicks: int): (n: nat)
    ensures n >= 1
  {
    if maxTicks > 1 then maxTicks else 1
  }

  /** No tick from the first up to, not including, the n-th has answered. */
  ghost predicate SilentBefore(cfg: Config, handlers: Handlers, placed: State, i: nat, handle: Id, n: nat)
    requires WellShaped(cfg, placed) && 0 < |placed.logs| && i < |cfg|
  {
    forall m :: 0 < m < n ==> !Answered(Ticks(cfg, handlers, placed, 0, m), i, handle)
  }

  lemma SilentFromStart(cfg: Config, handlers: Handlers, placed: State, i: nat, handle: Id)
    requires WellShaped(cfg, placed) && 0 < |placed.logs| && i < |cfg|
    ensures SilentBefore(cfg, handlers, placed, i, handle, 1)
  {}

  lemma SilentLonger(cfg: Config, handlers: Handlers, placed: State, i: nat, handle: Id, n: nat)
    requires WellShaped(cfg, placed) && 0 < |placed.logs| && i < |cfg|
    requires SilentBefore(cfg, handlers, placed, i, handle, n)
    requires !Answered(Ticks(cfg, handlers, placed, 0, n), i, handle)
    ensures SilentBefore(cfg, handlers, placed, i, handle, n + 1)
  {
    hide Ticks, Answered;
  }

  lemma SilentShorter(cfg: Config, handlers: Handlers, placed: State, i: nat, handle: Id, n: nat)
    requires WellShaped(cfg, placed) && 0 < |placed.logs| && i < |cfg|
    requires SilentBefore(cfg, handlers, placed, i, handle, n + 1)
    ensures SilentBefore(cfg, handlers, placed, i, handle, n)
    ensures n > 0 ==> !Answered(Ticks(cfg, handlers, placed, 0, n), i, handle)
  {
    hide Ticks, Answered;
  }

  /** What `Resolve` ensures of its ticks, when a provider of the capability reaches it, has not seen the
      need's id and absorbs it, and the requester reaches that provider's ground, means that the evidence
      is found, and within two ticks. */
  lemma ResolveFinds(cfg: Config, handlers: Handlers, s: State, i: nat, to: Name, need: Payload, draw: Draw,
                     a: nat, j: nat, maxTicks: int, ticks: nat)
    requires Inv(cfg, s) && 0 < |s.logs| && i < |cfg| && a < |cfg| && j < |cfg[a].providers| && maxTicks >= 2
    requires var pc := cfg[a].providers[j];
             pc.capability == to && to in pc.reach && pc.ground in cfg[i].reach
    requires var n := NeedArtifact(to, cfg[i].principal, Clock.Tick(s.reactors[i].hlc, draw.wall), draw.nonce, need, None, None, [to]);
             var placed := Apply(cfg, handlers, s, PlaceNeed(0, i, to, need, draw));
             && n.id !in s.reactors[a].providers[j].seen && handlers(a, j)(n.id, need).absorbed.Some?
             && (Answered(Ticks(cfg, handlers, placed, 0, ticks), i, n.id) || ticks == Tries(maxTicks))
             && SilentBefore(cfg, handlers, placed, i, n.id, ticks)
    ensures var n := NeedArtifact(to, cfg[i].principal, Clock.Tick(s.reactors[i].hlc, draw.wall), draw.nonce, need, None, None, [to]);
            var placed := Apply(cfg, handlers, s, PlaceNeed(0, i, to, need, draw));
            Answered(Ticks(cfg, handlers, placed, 0, ticks), i, n.id) && ticks <= 2
  {
    hide Inv, Ticks, Answered, Apply;
    PlacedIsAnswered(cfg, handlers, s, 0, i, to, need, draw, a, j, 2);
  }

  /** And through any chain of providers that hand the residual on, the last of them absorbing it, the
      evidence is found within one tick more than the chain is long. */
  lemma ResolveFindsThroughChain(cfg: Config, handlers: Handlers, s: State, i: nat, to: Name, need: Payload, draw: Draw,
                                 hops: seq<(nat, nat)>, maxTicks: int, ticks: nat)
    requires WellShaped(cfg, s) && Inv(cfg, s) && |s.logs| == 1 && Consequent(cfg, handlers, s) && i < |cfg|
    requires Chain(cfg, handlers, i, hops, [to], need) && maxTicks > |hops|
    requires var n := NeedArtifact(to, cfg[i].principal, Clock.Tick(s.reactors[i].hlc, draw.wall), draw.nonce, need, None, None, [to]);
             var placed := Apply(cfg, handlers, s, PlaceNeed(0, i, to, need, draw));
             && (Answered(Ticks(cfg, handlers, placed, 0, ticks), i, n.id) || ticks == Tries(maxTicks))
             && SilentBefore(cfg, handlers, placed, i, n.id, ticks)
    ensures var n := NeedArtifact(to, cfg[i].principal, Clock.Tick(s.reactors[i].hlc, draw.wall), draw.nonce, need, None, None, [to]);
            var placed := Apply(cfg, handlers, s, PlaceNeed(0, i, to, need, draw));
            Answered(Ticks(cfg, handlers, placed, 0, ticks), i, n.id) && ticks <= |hops| + 1
  {
    hide Inv, Consequent, Ticks, Answered, Apply, Chain;
    PlacedChainAnswers(cfg, handlers, s, i, to, need, draw, hops, |hops| + 1);
  }

  /** A resolve that stays silent for more ticks than there are distinct served capabilities is silent
      for ever. */
  lemma SilenceIsFinal(cfg: Config, handlers: Handlers, placed: State, i: nat, handle: Id, ticks: nat, n: nat)
    requires Inv(cfg, placed) && 0 < |placed.logs| && i < |cfg| && ticks > |Served(cfg)|
    requires !Answered(Ticks(cfg, handlers, placed, 0, ticks), i, handle)
    requires n >= ticks
    ensures !Answered(Ticks(cfg, handlers, placed, 0, n), i, handle)
  {
    hide Inv, Served, Ticks;
    AtRestForEver(cfg, handlers, placed, 0, ticks);
    AtRestForEver(cfg, handlers, placed, 0, n);
  }
}
