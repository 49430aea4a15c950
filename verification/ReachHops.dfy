/** What handling puts on a carrier, and that is all it puts: the evidence of every absorbed band, and
    every residual as a need one hop on. So a signal travels any chain of providers to its answer. */
module ReachHops {
  import opened Carriers
  import opened Clock
  import opened Outcomes
  import opened Reach
  import opened ReachConvergence
  import opened ReachLiveness

  // ---- what a reply calls for ----

  /** e is the evidence that the reply to the need n calls for. */
  predicate EvidenceOf(e: Leaf, c: ProviderConfig, node: Name, n: Leaf, reply: Reply) {
    && n.Need? && e.Evidence? && reply.absorbed.Some?
    && e.origin == node && e.to == c.ground && e.cap == c.capability && e.inReplyTo == n.id && e.root == n.root
    && e.sealed.key == c.ground && e.sealed.aad == c.ground
    && e.sealed.body == EvidenceBody(n.id, n.root, reply.absorbed.value)
  }

  /** The reply hands on a residual, to a capability the need has not been at. */
  predicate GoesOn(n: Leaf, reply: Reply) {
    n.Need? && reply.residual.Some? && reply.to.Some? && reply.to.value !in n.path
  }

  /** x is the need that carries the residual of n one hop on. */
  predicate ResidualOf(x: Leaf, node: Name, n: Leaf, reply: Reply) {
    && GoesOn(n, reply) && x.Need?
    && x.origin == node && x.to == reply.to.value && x.cap == x.to && x.root == n.root
    && x.derivedFrom == Some(n.id) && x.path == n.path + [reply.to.value]
    && x.sealed.key == x.to && x.sealed.aad == x.to
    && x.sealed.body == NeedBody(Some(n.id), x.to, reply.residual.value)
  }

  /** All that the reply calls for is on the log. */
  ghost predicate FollowedUp(log: Log, c: ProviderConfig, node: Name, n: Leaf, reply: Reply) {
    && (reply.absorbed.Some? ==> exists e :: e in log && EvidenceOf(e, c, node, n, reply))
    && (GoesOn(n, reply) ==> exists x :: x in log && ResidualOf(x, node, n, reply))
  }

  predicate IsNeed(n: Leaf) {
    n.Need? && n.sealed.body.NeedBody?
  }

  /** What the handler answers to a need. */
  function ReplyTo(handler: Handler, n: Leaf): Reply
    requires IsNeed(n)
  {
    handler(n.id, n.sealed.body.need)
  }

  /** The need of this id was handled, as its handler answered, and followed up. */
  ghost predicate Settled(log: Log, c: ProviderConfig, node: Name, handler: Handler, p: ProviderState, n: Leaf) {
    && IsNeed(n) && n.id in p.handled && p.handled[n.id] == ReplyTo(handler, n).absorbed
    && FollowedUp(log, c, node, n, ReplyTo(handler, n))
  }

  /** The leaf x is what the handling of n called for. */
  predicate CalledFor(x: Leaf, c: ProviderConfig, node: Name, handler: Handler, n: Leaf) {
    IsNeed(n) && (EvidenceOf(x, c, node, n, ReplyTo(handler, n)) || ResidualOf(x, node, n, ReplyTo(handler, n)))
  }

  // ---- one leaf ----

  lemma FollowedUpMonotone(log: Log, log': Log, c: ProviderConfig, node: Name, n: Leaf, reply: Reply)
    requires FollowedUp(log, c, node, n, reply) && log <= log'
    ensures FollowedUp(log', c, node, n, reply)
  {
    hide EvidenceOf, ResidualOf, GoesOn;
  }

  lemma EmittedIsCalledFor(c: ProviderConfig, node: Name, h: Hlc, n: Leaf, reply: Reply)
    requires n.Need? && n.to == c.capability
    ensures var out := Emitted(c, node, h, n, reply).1;
            && FollowedUp(out, c, node, n, reply)
            && forall x :: x in out ==> EvidenceOf(x, c, node, n, reply) || ResidualOf(x, node, n, reply)
  {
    var (h1, evidence) := Discharged(c, node, h, n, reply);
    var (h2, onward) := Transmitted(node, h1, n, reply);
    var out := evidence + onward;
    if reply.absorbed.Some? { assert EvidenceOf(evidence[0], c, node, n, reply) && evidence[0] in out; }
    if GoesOn(n, reply) { assert ResidualOf(onward[0], node, n, reply) && onward[0] in out; }
  }

  lemma FollowedUpWithin(log: Log, log': Log, c: ProviderConfig, node: Name, n: Leaf, reply: Reply)
    requires FollowedUp(log, c, node, n, reply) && forall x :: x in log ==> x in log'
    ensures FollowedUp(log', c, node, n, reply)
  {
    hide EvidenceOf, ResidualOf, GoesOn;
  }

  /** One polled leaf: if it is accepted it is settled, and only what it calls for is added. */
  lemma OnLeafSettles(log: Log, c: ProviderConfig, node: Name, p: ProviderState, h: Hlc, served: set<Name>, leaf: Leaf,
                      handler: Handler)
    requires LogGood(log, served) && leaf in log && c.capability in served
    ensures var (p', h', out) := OnLeaf(c, node, p, h, leaf, handler);
            var log' := StoreAll(log, out);
            && log <= log' && LogGood(log', served)
            && (Accepts(c, p, leaf) ==> Settled(log', c, node, handler, p', leaf))
            && (forall x :: x in log' && x !in log ==> Accepts(c, p, leaf) && CalledFor(x, c, node, handler, leaf))
            && (p.handled.Keys == p.seen ==> p'.handled.Keys == p'.seen)
            && (forall id :: id in p'.seen <==> id in p.seen || (Accepts(c, p, leaf) && id == leaf.id))
            && (forall id :: id in p.handled && id in p.seen ==> id in p'.handled && p'.handled[id] == p.handled[id])
  {
    var (p', h', out) := OnLeaf(c, node, p, h, leaf, handler);
    if Accepts(c, p, leaf) {
      AcceptedIsOpen(c, p, leaf);
      var reply := handler(leaf.id, leaf.sealed.body.need);
      HandleKeepsLog(log, c, node, h, served, leaf, reply);
      EmittedIsCalledFor(c, node, h, leaf, reply);
      hide LogGood, Emitted, StoreAll, FollowedUp, EvidenceOf, ResidualOf, Accepts;
      FollowedUpWithin(out, StoreAll(log, out), c, node, leaf, reply);
    } else {
      assert StoreAll(log, []) == log;
    }
  }

  lemma AcceptedIsOpen(c: ProviderConfig, p: ProviderState, n: Leaf)
    requires Accepts(c, p, n)
    ensures IsNeed(n) && n.to == c.capability && n.id !in p.seen
  {}

  // ---- one pump ----

  /** What a pump did: it settled needs it polled, and added nothing but what they called for. */
  ghost predicate Pumped(c: ProviderConfig, node: Name, handler: Handler, p: ProviderState, p': ProviderState,
                         log: Log, log': Log, polled: seq<Leaf>)
  {
    && log <= log' && p.seen <= p'.seen && p'.handled.Keys == p'.seen
    && (forall id :: id in p.handled ==> id in p'.handled && p'.handled[id] == p.handled[id])
    && (forall n :: n in polled && Accepts(c, p, n) ==> n.id in p'.seen)
    && (forall id :: id in p'.seen && id !in p.seen ==>
          exists n :: n in polled && n.id == id && Accepts(c, p, n) && Settled(log', c, node, handler, p', n))
    && (forall x :: x in log' && x !in log ==>
          exists n :: n in polled && Accepts(c, p, n) && CalledFor(x, c, node, handler, n))
  }

  lemma {:induction false} PumpSettles(log: Log, c: ProviderConfig, node: Name, p: ProviderState, h: Hlc, served: set<Name>,
                                       polled: seq<Leaf>, handler: Handler)
    requires LogGood(log, served) && c.capability in served && forall l :: l in polled ==> l in log
    requires p.handled.Keys == p.seen
    ensures var (p', _, log') := PumpLeaves(c, node, p, h, log, polled, handler);
            Pumped(c, node, handler, p, p', log, log', polled)
    decreases |polled|
  {
    hide OnLeaf, StoreAll, LogGood, Accepts, Settled, CalledFor;
    if polled != [] {
      var (p1, h1, out) := OnLeaf(c, node, p, h, polled[0], handler);
      var log1 := StoreAll(log, out);
      OnLeafSettles(log, c, node, p, h, served, polled[0], handler);
      forall l | l in polled[1..] ensures l in log1 { assert l in log; }
      hide Pumped;
      PumpSettles(log1, c, node, p1, h1, served, polled[1..], handler);
      var (p', h', log') := PumpLeaves(c, node, p1, h1, log1, polled[1..], handler);
      hide PumpLeaves;
      PumpedThen(c, node, handler, p, p1, p', log, log1, log', polled);
    }
  }

  /** The first leaf and then the others. */
  lemma PumpedThen(c: ProviderConfig, node: Name, handler: Handler, p: ProviderState, p1: ProviderState, p': ProviderState,
                   log: Log, log1: Log, log': Log, polled: seq<Leaf>)
    requires polled != [] && p.handled.Keys == p.seen && log <= log1
    requires Accepts(c, p, polled[0]) ==> Settled(log1, c, node, handler, p1, polled[0])
    requires forall x :: x in log1 && x !in log ==> Accepts(c, p, polled[0]) && CalledFor(x, c, node, handler, polled[0])
    requires forall id :: id in p1.seen <==> id in p.seen || (Accepts(c, p, polled[0]) && id == polled[0].id)
    requires p1.handled.Keys == p1.seen && forall id :: id in p.seen ==> p1.handled[id] == p.handled[id]
    requires Pumped(c, node, handler, p1, p', log1, log', polled[1..])
    ensures Pumped(c, node, handler, p, p', log, log', polled)
  {
    var first, others := polled[0], polled[1..];
    assert polled == [first] + others;
    hide Accepts, Settled, CalledFor;
    forall n | n in others && Accepts(c, p1, n) ensures n in polled && Accepts(c, p, n) { SeenMonotone(c, p, p1, n); }
    forall n | n in polled && Accepts(c, p, n) ensures n.id in p'.seen {
      if n != first && n.id !in p1.seen { StillAccepted(c, p, p1, n); }
    }
    forall id | id in p'.seen && id !in p.seen
      ensures exists n :: n in polled && n.id == id && Accepts(c, p, n) && Settled(log', c, node, handler, p', n)
    {
      if id in p1.seen {
        SettledLater(log1, log', c, node, handler, p1, p', first);
      } else {
        var n :| n in others && n.id == id && Accepts(c, p1, n) && Settled(log', c, node, handler, p', n);
      }
    }
    forall x | x in log' && x !in log ensures exists n :: n in polled && Accepts(c, p, n) && CalledFor(x, c, node, handler, n) {
      if x !in log1 {
        var n :| n in others && Accepts(c, p1, n) && CalledFor(x, c, node, handler, n);
      }
    }
  }

  lemma StillAccepted(c: ProviderConfig, p: ProviderState, p': ProviderState, n: Leaf)
    requires Accepts(c, p, n) && n.id !in p'.seen
    ensures Accepts(c, p', n)
  {}

  lemma SettledLater(log: Log, log': Log, c: ProviderConfig, node: Name, handler: Handler, p: ProviderState, p': ProviderState,
                     n: Leaf)
    requires Settled(log, c, node, handler, p, n) && log <= log'
    requires n.id in p'.handled && p'.handled[n.id] == p.handled[n.id]
    ensures Settled(log', c, node, handler, p', n)
  {
    hide FollowedUp;
    FollowedUpMonotone(log, log', c, node, n, ReplyTo(handler, n));
  }

  /** The provider may handle the need: it is addressed to the provider's capability, which the provider's
      light-cone reaches, its seal opens with a key of that light-cone under the need's own target, and the
      capability and the parent on the envelope are those under the seal. */
  predicate Opens(c: ProviderConfig, n: Leaf) {
    && n.Need? && n.to == c.capability && n.to in c.reach
    && n.sealed.key in c.reach && n.sealed.aad == n.to
    && n.sealed.body.NeedBody? && n.sealed.body.cap == n.cap && n.sealed.body.derivedFrom == n.derivedFrom
  }

  lemma AcceptsIffOpens(c: ProviderConfig, p: ProviderState, n: Leaf)
    ensures Accepts(c, p, n) <==> Opens(c, n) && n.id !in p.seen
  {}

  /** A provider's pump of a carrier, in any state: every need there that the provider may handle and has not
      handled is called once, answered by its handler, and followed up on the carrier; nothing else is
      called, and every new leaf is called for by one of those needs. */
  lemma PumpPropagates(cfg: Config, handlers: Handlers, s: State, c: nat, i: nat, j: nat)
    requires Inv(cfg, s) && c < |s.logs| && i < |cfg| && j < |cfg[i].providers|
    ensures var s' := Apply(cfg, handlers, s, Pump(c, i, j));
            var (pc, node, handler) := (cfg[i].providers[j], cfg[i].principal, handlers(i, j));
            var (p, p') := (s.reactors[i].providers[j], s'.reactors[i].providers[j]);
            && NoRepeat(p'.calls)
            && (forall n :: n in s.logs[c] && Opens(pc, n) && n.id !in p.calls ==>
                  n.id in p'.calls && Settled(s'.logs[c], pc, node, handler, p', n))
            && (forall id :: id in p'.calls && id !in p.calls ==>
                  exists n: Leaf :: n in s.logs[c] && n.id == id && Opens(pc, n))
            && (forall x :: x in s'.logs[c] && x !in s.logs[c] ==>
                  exists n: Leaf :: n in s.logs[c] && Opens(pc, n) && n.id !in p.calls && CalledFor(x, pc, node, handler, n))
  {
    var s' := Apply(cfg, handlers, s, Pump(c, i, j));
    var (pc, node, handler) := (cfg[i].providers[j], cfg[i].principal, handlers(i, j));
    var (p, p') := (s.reactors[i].providers[j], s'.reactors[i].providers[j]);
    LogIsGood(cfg, s, c);
    ProvidersGood(cfg, s, i);
    ServedContains(cfg, i, j);
    PumpKeepsLog(s.logs[c], pc, node, p, s.reactors[i].hlc, Served(cfg), s.logs[c], handler);
    PumpSettles(s.logs[c], pc, node, p, s.reactors[i].hlc, Served(cfg), s.logs[c], handler);
    CallsAreSeen(p);
    CallsAreSeen(p');
    hide Inv, LogGood, Served, PumpLeaves, Accepts, Opens, Settled, CalledFor, ProviderGood;
    assert Pumped(pc, node, handler, p, p', s.logs[c], s'.logs[c], s.logs[c]);
    forall n | n in s.logs[c] ensures Accepts(pc, p, n) <==> Opens(pc, n) && n.id !in p.seen { AcceptsIffOpens(pc, p, n); }
    forall n | n in s.logs[c] && Opens(pc, n) && n.id !in p.calls
      ensures n.id in p'.calls && Settled(s'.logs[c], pc, node, handler, p', n)
    {
      var m :| m in s.logs[c] && m.id == n.id && Accepts(pc, p, m) && Settled(s'.logs[c], pc, node, handler, p', m);
      SameIdOnLog(s.logs[c], Served(cfg), m, n);
    }
  }

  lemma CallsAreSeen(p: ProviderState)
    requires ProviderGood(p)
    ensures (forall id :: id in p.calls <==> id in p.seen) && p.handled.Keys == p.seen && NoRepeat(p.calls)
  {}

  /** The requester may file the evidence: it is on a ground that its light-cone reaches, its seal opens with a
      key of that light-cone under that ground, and need and root on the envelope are those under the seal. */
  predicate MayFile(reach: set<Name>, e: Leaf) {
    && e.Evidence? && e.to in reach && e.sealed.key in reach && e.sealed.aad == e.to
    && e.sealed.body.EvidenceBody? && e.sealed.body.inReplyTo == e.inReplyTo && e.sealed.body.root == e.root
  }

  lemma {:induction false} AbsorbSees(reach: set<Name>, box: Inbox, polled: seq<Leaf>, id: Id)
    ensures id in AbsorbLeaves(reach, box, polled).seen <==>
            id in box.seen || exists e :: e in polled && e.id == id && MayFile(reach, e)
  {
    if polled != [] {
      var init, last := polled[..|polled| - 1], polled[|polled| - 1];
      AbsorbSees(reach, box, init, id);
      assert polled == init + [last];
      hide AbsorbLeaves;
      if e :| e in polled && e.id == id && MayFile(reach, e) && e != last { assert e in init; }
    }
  }

  /** What an inbox sees of a carrier, in any state: exactly the evidence there that it may file, and all of it
      answers its root. */
  lemma AbsorbCollects(cfg: Config, handlers: Handlers, s: State, c: nat, i: nat)
    requires Inv(cfg, s) && c < |s.logs| && i < |cfg|
    ensures var s' := Apply(cfg, handlers, s, Absorb(c, i));
            var (box, box') := (s.reactors[i].inbox, s'.reactors[i].inbox);
            && (forall id :: id in box'.seen <==>
                  id in box.seen || exists e :: e in s.logs[c] && e.id == id && MayFile(cfg[i].reach, e))
            && (forall e :: e in s.logs[c] && MayFile(cfg[i].reach, e) ==> Answered(s', i, e.root))
  {
    var s' := Apply(cfg, handlers, s, Absorb(c, i));
    StepKeepsInv(cfg, handlers, s, Absorb(c, i));
    assert WellShaped(cfg, s);
    hide Inv, AbsorbLeaves, MayFile, Answered;
    forall id
      ensures id in s'.reactors[i].inbox.seen <==>
              id in s.reactors[i].inbox.seen || exists e :: e in s.logs[c] && e.id == id && MayFile(cfg[i].reach, e)
    {
      AbsorbSees(cfg[i].reach, s.reactors[i].inbox, s.logs[c], id);
    }
    forall e | e in s.logs[c] && MayFile(cfg[i].reach, e) ensures Answered(s', i, e.root) {
      FiledIsEvidence(cfg[i].reach, e);
      SeenIsAnswered(cfg, s', c, i, e);
    }
  }

  lemma FiledIsEvidence(reach: set<Name>, e: Leaf)
    requires MayFile(reach, e)
    ensures e.Evidence?
  {}

  // ---- every run on one carrier ----

  /** The need of this id is on the log, settled by the provider. */
  ghost predicate SettledId(log: Log, c: ProviderConfig, node: Name, handler: Handler, p: ProviderState, id: Id) {
    exists n :: n in log && n.id == id && Settled(log, c, node, handler, p, n)
  }

  /** x was called for by a need on the log that the provider has seen. */
  ghost predicate CalledForBy(log: Log, x: Leaf, c: ProviderConfig, node: Name, handler: Handler, p: ProviderState) {
    exists n :: n in log && n.id in p.seen && CalledFor(x, c, node, handler, n)
  }

  /** A need that a requester placed, or a leaf that some handling called for. */
  ghost predicate HasCause(cfg: Config, handlers: Handlers, s: State, x: Leaf)
    requires WellShaped(cfg, s) && |s.logs| == 1
  {
    || (x.Need? && x.derivedFrom.None?)
    || exists a: nat, j: nat :: a < |cfg| && j < |cfg[a].providers| &&
         CalledForBy(s.logs[0], x, cfg[a].providers[j], cfg[a].principal, handlers(a, j), s.reactors[a].providers[j])
  }

  /** Every handled need is settled, and every leaf has its cause. */
  ghost predicate Consequent(cfg: Config, handlers: Handlers, s: State)
    requires WellShaped(cfg, s) && |s.logs| == 1
  {
    && (forall a: nat, j: nat, id :: a < |cfg| && j < |cfg[a].providers| && id in s.reactors[a].providers[j].seen ==>
          SettledId(s.logs[0], cfg[a].providers[j], cfg[a].principal, handlers(a, j), s.reactors[a].providers[j], id))
    && forall x :: x in s.logs[0] ==> HasCause(cfg, handlers, s, x)
  }

  lemma SettledIdMonotone(log: Log, log': Log, c: ProviderConfig, node: Name, handler: Handler, p: ProviderState,
                          p': ProviderState, id: Id)
    requires SettledId(log, c, node, handler, p, id) && log <= log'
    requires forall id :: id in p.handled ==> id in p'.handled && p'.handled[id] == p.handled[id]
    ensures SettledId(log', c, node, handler, p', id)
  {
    var n :| n in log && n.id == id && Settled(log, c, node, handler, p, n);
    SettledHandled(log, c, node, handler, p, n);
    SettledLater(log, log', c, node, handler, p, p', n);
    hide Settled;
  }

  lemma SettledHandled(log: Log, c: ProviderConfig, node: Name, handler: Handler, p: ProviderState, n: Leaf)
    requires Settled(log, c, node, handler, p, n)
    ensures n.id in p.handled
  {
    hide FollowedUp;
  }

  lemma CalledForByMonotone(log: Log, log': Log, x: Leaf, c: ProviderConfig, node: Name, handler: Handler,
                            p: ProviderState, p': ProviderState)
    requires CalledForBy(log, x, c, node, handler, p) && log <= log' && p.seen <= p'.seen
    ensures CalledForBy(log', x, c, node, handler, p')
  {
    hide CalledFor;
  }

  /** Provider j of reactor i is at work; the other providers are as they were. */
  ghost predicate AtWork(cfg: Config, s: State, s': State, i: nat, j: nat)
    requires WellShaped(cfg, s) && WellShaped(cfg, s') && |s.logs| == 1 && |s'.logs| == 1
    requires i < |cfg| && j < |cfg[i].providers|
  {
    && s.logs[0] <= s'.logs[0]
    && forall a: nat, k: nat :: a < |cfg| && k < |cfg[a].providers| && (a, k) != (i, j) ==>
         s'.reactors[a].providers[k] == s.reactors[a].providers[k]
  }

  lemma CauseStays(cfg: Config, handlers: Handlers, s: State, s': State, x: Leaf)
    requires WellShaped(cfg, s) && WellShaped(cfg, s') && |s.logs| == 1 && |s'.logs| == 1
    requires HasCause(cfg, handlers, s, x) && s.logs[0] <= s'.logs[0]
    requires forall a: nat, k: nat :: a < |cfg| && k < |cfg[a].providers| ==>
               s.reactors[a].providers[k].seen <= s'.reactors[a].providers[k].seen
    ensures HasCause(cfg, handlers, s', x)
  {
    hide CalledForBy;
    if !(x.Need? && x.derivedFrom.None?) {
      var a: nat, j: nat :| a < |cfg| && j < |cfg[a].providers| &&
        CalledForBy(s.logs[0], x, cfg[a].providers[j], cfg[a].principal, handlers(a, j), s.reactors[a].providers[j]);
      CalledForByMonotone(s.logs[0], s'.logs[0], x, cfg[a].providers[j], cfg[a].principal, handlers(a, j),
                          s.reactors[a].providers[j], s'.reactors[a].providers[j]);
    }
  }

  lemma ConsequentParts(cfg: Config, handlers: Handlers, s: State, a: nat, j: nat, id: Id)
    requires WellShaped(cfg, s) && |s.logs| == 1 && Consequent(cfg, handlers, s)
    requires a < |cfg| && j < |cfg[a].providers| && id in s.reactors[a].providers[j].seen
    ensures SettledId(s.logs[0], cfg[a].providers[j], cfg[a].principal, handlers(a, j), s.reactors[a].providers[j], id)
  {
    hide SettledId, HasCause;
  }

  lemma ConsequentCauses(cfg: Config, handlers: Handlers, s: State, x: Leaf)
    requires WellShaped(cfg, s) && |s.logs| == 1 && Consequent(cfg, handlers, s) && x in s.logs[0]
    ensures HasCause(cfg, handlers, s, x)
  {
    hide SettledId, HasCause;
  }

  lemma PumpKeepsConsequent(cfg: Config, handlers: Handlers, s: State, s': State, i: nat, j: nat)
    requires WellShaped(cfg, s) && WellShaped(cfg, s') && |s.logs| == 1 && |s'.logs| == 1
    requires i < |cfg| && j < |cfg[i].providers| && Consequent(cfg, handlers, s) && AtWork(cfg, s, s', i, j)
    requires s.reactors[i].providers[j].handled.Keys == s.reactors[i].providers[j].seen
    requires Pumped(cfg[i].providers[j], cfg[i].principal, handlers(i, j), s.reactors[i].providers[j],
                    s'.reactors[i].providers[j], s.logs[0], s'.logs[0], s.logs[0])
    ensures Consequent(cfg, handlers, s')
  {
    var (pc, node, handler) := (cfg[i].providers[j], cfg[i].principal, handlers(i, j));
    var (p, p') := (s.reactors[i].providers[j], s'.reactors[i].providers[j]);
    hide Consequent, Settled, CalledFor, Accepts, HasCause, SettledId;
    forall a: nat, k: nat, id | a < |cfg| && k < |cfg[a].providers| && id in s'.reactors[a].providers[k].seen
      ensures SettledId(s'.logs[0], cfg[a].providers[k], cfg[a].principal, handlers(a, k), s'.reactors[a].providers[k], id)
    {
      if id in s.reactors[a].providers[k].seen {
        ConsequentParts(cfg, handlers, s, a, k, id);
        SettledIdMonotone(s.logs[0], s'.logs[0], cfg[a].providers[k], cfg[a].principal, handlers(a, k),
                          s.reactors[a].providers[k], s'.reactors[a].providers[k], id);
      } else {
        var n :| n in s.logs[0] && n.id == id && Accepts(pc, p, n) && Settled(s'.logs[0], pc, node, handler, p', n);
        SettledIs(s'.logs[0], pc, node, handler, p', n);
      }
    }
    forall x | x in s'.logs[0] ensures HasCause(cfg, handlers, s', x) {
      if x in s.logs[0] {
        ConsequentCauses(cfg, handlers, s, x);
        CauseStays(cfg, handlers, s, s', x);
      } else {
        var n :| n in s.logs[0] && Accepts(pc, p, n) && CalledFor(x, pc, node, handler, n);
        CauseIs(cfg, handlers, s', i, j, x, n);
      }
    }
    ConsequentIs(cfg, handlers, s');
  }

  lemma ConsequentIs(cfg: Config, handlers: Handlers, s: State)
    requires WellShaped(cfg, s) && |s.logs| == 1
    requires forall a: nat, j: nat, id :: a < |cfg| && j < |cfg[a].providers| && id in s.reactors[a].providers[j].seen ==>
               SettledId(s.logs[0], cfg[a].providers[j], cfg[a].principal, handlers(a, j), s.reactors[a].providers[j], id)
    requires forall x :: x in s.logs[0] ==> HasCause(cfg, handlers, s, x)
    ensures Consequent(cfg, handlers, s)
  {
    hide SettledId, HasCause;
  }

  lemma SettledIs(log: Log, c: ProviderConfig, node: Name, handler: Handler, p: ProviderState, n: Leaf)
    requires n in log && Settled(log, c, node, handler, p, n)
    ensures SettledId(log, c, node, handler, p, n.id)
  {
    hide Settled;
  }

  lemma CauseIs(cfg: Config, handlers: Handlers, s: State, i: nat, j: nat, x: Leaf, n: Leaf)
    requires WellShaped(cfg, s) && |s.logs| == 1 && i < |cfg| && j < |cfg[i].providers|
    requires n in s.logs[0] && n.id in s.reactors[i].providers[j].seen
    requires CalledFor(x, cfg[i].providers[j], cfg[i].principal, handlers(i, j), n)
    ensures HasCause(cfg, handlers, s, x)
  {
    hide CalledFor;
    assert CalledForBy(s.logs[0], x, cfg[i].providers[j], cfg[i].principal, handlers(i, j), s.reactors[i].providers[j]);
  }

  /** A step that leaves the providers alone and adds only needs that someone placed. */
  lemma IdleKeepsConsequent(cfg: Config, handlers: Handlers, s: State, s': State)
    requires WellShaped(cfg, s) && WellShaped(cfg, s') && |s.logs| == 1 && |s'.logs| == 1 && Consequent(cfg, handlers, s)
    requires forall a :: 0 <= a < |cfg| ==> s'.reactors[a].providers == s.reactors[a].providers
    requires s.logs[0] <= s'.logs[0] && forall x :: x in s'.logs[0] ==> x in s.logs[0] || (x.Need? && x.derivedFrom.None?)
    ensures Consequent(cfg, handlers, s')
  {
    hide Consequent, SettledId, HasCause;
    forall a: nat, k: nat, id | a < |cfg| && k < |cfg[a].providers| && id in s'.reactors[a].providers[k].seen
      ensures SettledId(s'.logs[0], cfg[a].providers[k], cfg[a].principal, handlers(a, k), s'.reactors[a].providers[k], id)
    {
      ConsequentParts(cfg, handlers, s, a, k, id);
      SettledIdMonotone(s.logs[0], s'.logs[0], cfg[a].providers[k], cfg[a].principal, handlers(a, k),
                        s.reactors[a].providers[k], s'.reactors[a].providers[k], id);
    }
    forall x | x in s'.logs[0] ensures HasCause(cfg, handlers, s', x) {
      if x in s.logs[0] {
        ConsequentCauses(cfg, handlers, s, x);
        CauseStays(cfg, handlers, s, s', x);
      } else {
        PlacedHasCause(cfg, handlers, s', x);
      }
    }
    ConsequentIs(cfg, handlers, s');
  }

  lemma PlacedHasCause(cfg: Config, handlers: Handlers, s: State, x: Leaf)
    requires WellShaped(cfg, s) && |s.logs| == 1 && x.Need? && x.derivedFrom.None?
    ensures HasCause(cfg, handlers, s, x)
  {}

  lemma PumpedStep(cfg: Config, handlers: Handlers, s: State, i: nat, j: nat)
    requires WellShaped(cfg, s) && Inv(cfg, s) && |s.logs| == 1 && i < |cfg| && j < |cfg[i].providers|
    ensures var s' := Apply(cfg, handlers, s, Pump(0, i, j));
            && AtWork(cfg, s, s', i, j)
            && s.reactors[i].providers[j].handled.Keys == s.reactors[i].providers[j].seen
            && Pumped(cfg[i].providers[j], cfg[i].principal, handlers(i, j), s.reactors[i].providers[j],
                      s'.reactors[i].providers[j], s.logs[0], s'.logs[0], s.logs[0])
  {
    LogIsGood(cfg, s, 0);
    ProvidersGood(cfg, s, i);
    ServedContains(cfg, i, j);
    CallsAreSeen(s.reactors[i].providers[j]);
    PumpLog(cfg, handlers, s, 0, i, j);
    hide Inv, LogGood, Served, PumpLeaves, Pumped, ProviderGood;
    PumpSettles(s.logs[0], cfg[i].providers[j], cfg[i].principal, s.reactors[i].providers[j], s.reactors[i].hlc,
                Served(cfg), s.logs[0], handlers(i, j));
  }

  lemma StepKeepsConsequent(cfg: Config, handlers: Handlers, s: State, step: Step)
    requires WellShaped(cfg, s) && Inv(cfg, s) && |s.logs| == 1 && Enabled(cfg, s, step) && Consequent(cfg, handlers, s)
    ensures Consequent(cfg, handlers, Apply(cfg, handlers, s, step))
  {
    var s' := Apply(cfg, handlers, s, step);
    hide Inv, Consequent, PumpLeaves, AbsorbLeaves, Missing, Pumped, AtWork;
    match step
    case PlaceNeed(_, i, to, need, draw) => IdleKeepsConsequent(cfg, handlers, s, s');
    case Absorb(_, i) => IdleKeepsConsequent(cfg, handlers, s, s');
    case Pump(_, i, j) =>
      PumpedStep(cfg, handlers, s, i, j);
      PumpKeepsConsequent(cfg, handlers, s, s', i, j);
    case Reconcile(a, b, _, _) =>
  }

  /** In every state of every run on one carrier: whatever a provider handled is settled and followed up on
      the carrier, and every leaf there was placed by a requester or called for by a handled need. */
  lemma {:induction false} RunsAreConsequent(cfg: Config, handlers: Handlers, states: seq<State>, steps: seq<Step>, k: nat)
    requires IsRun(cfg, handlers, states, steps) && Initial(cfg, states[0]) && |states[0].logs| == 1 && k < |states|
    ensures Inv(cfg, states[k]) && |states[k].logs| == 1 && Consequent(cfg, handlers, states[k])
  {
    Safety(cfg, handlers, states, steps, k);
    assert WellShaped(cfg, states[k]);
    if k == 0 {
      hide Inv;
    } else {
      RunsAreConsequent(cfg, handlers, states, steps, k - 1);
      assert states[k] == Apply(cfg, handlers, states[k - 1], steps[k - 1]);
      assert Enabled(cfg, states[k - 1], steps[k - 1]);
      assert WellShaped(cfg, states[k - 1]);
      hide Inv, Consequent, Apply, Initial, IsRun;
      StepKeepsConsequent(cfg, handlers, states[k - 1], steps[k - 1]);
    }
  }

  // ---- a signal through a chain of providers ----

  /** The providers answer in turn, whatever ids the needs get: each opens what is addressed to it, all but
      the last hand on a residual to the capability of the next, which the signal has not been at, and the
      last absorbs a band for a ground that reactor i reaches. */
  ghost predicate Chain(cfg: Config, handlers: Handlers, i: nat, hops: seq<(nat, nat)>, path: seq<Name>, need: Payload)
    requires i < |cfg|
    decreases |hops|
  {
    && hops != [] && hops[0].0 < |cfg| && hops[0].1 < |cfg[hops[0].0].providers|
    && var (c, handler) := (cfg[hops[0].0].providers[hops[0].1], handlers(hops[0].0, hops[0].1));
       && path != [] && path[|path| - 1] == c.capability && c.capability in c.reach
       && (|hops| == 1 ==> c.ground in cfg[i].reach && forall id :: handler(id, need).absorbed.Some?)
       && (|hops| > 1 ==>
             forall id ::
               var reply := handler(id, need);
               && reply.residual.Some? && reply.to.Some? && reply.to.value !in path
               && Chain(cfg, handlers, i, hops[1..], path + [reply.to.value], reply.residual.value))
  }

  /** A need of the protocol: on its path's last capability, and sealed as its envelope says. */
  predicate Addressed(n: Leaf) {
    && IsNeed(n) && n.path != [] && n.path[|n.path| - 1] == n.to && n.cap == n.to
    && n.sealed.key == n.to && n.sealed.aad == n.to && n.sealed.body.cap == n.to && n.sealed.body.derivedFrom == n.derivedFrom
  }

  lemma GoodNeedIsAddressed(log: Log, served: set<Name>, n: Leaf)
    requires LogGood(log, served) && n in log && n.Need?
    ensures Addressed(n)
  {
    assert LeafGood(log, served, n);
    hide LogGood, NoRepeat;
  }

  lemma AddressedSuits(c: ProviderConfig, n: Leaf)
    requires Addressed(n) && n.to == c.capability && c.capability in c.reach
    ensures Suits(c, n)
  {}

  /** A tick keeps the carrier's leaves. */
  lemma TickGrows(cfg: Config, handlers: Handlers, s: State, c: nat, l: Leaf)
    requires Inv(cfg, s) && c < |s.logs| && l in s.logs[c]
    ensures Inv(cfg, TickOnce(cfg, handlers, s, c)) && l in TickOnce(cfg, handlers, s, c).logs[c]
  {
    PendingNonEmpty(cfg, s, c);
    TickStepsOfTick(cfg, c, |cfg|);
    hide Inv, Execute, TickSteps, PendingAtLeast;
    ExecuteKeepsMidTick(cfg, handlers, s, c, TickSteps(cfg, c, |cfg|), 1);
  }

  /** After a tick a provider has seen every need on the carrier that suits it. */
  lemma TickSees(cfg: Config, handlers: Handlers, s: State, c: nat, a: nat, j: nat, n: Leaf)
    requires Inv(cfg, s) && c < |s.logs| && a < |cfg| && j < |cfg[a].providers| && n in s.logs[c]
    requires Suits(cfg[a].providers[j], n)
    ensures n.id in TickOnce(cfg, handlers, s, c).reactors[a].providers[j].seen
  {
    var steps := TickSteps(cfg, c, |cfg|);
    var s' := TickOnce(cfg, handlers, s, c);
    PendingNonEmpty(cfg, s, c);
    TickStepsOfTick(cfg, c, |cfg|);
    SuitsUnlessSeen(cfg[a].providers[j], s'.reactors[a].providers[j], n);
    hide Inv, Execute, TickSteps, PendingAtLeast, Accepts, Suits;
    ExecuteKeepsMidTick(cfg, handlers, s, c, steps, 1);
    assert Pump(c, a, j) in steps;
    assert !Pending(cfg, s', c, a, j, n);
  }

  lemma {:induction false} ExecuteKeepsConsequent(cfg: Config, handlers: Handlers, s: State, steps: seq<Step>)
    requires WellShaped(cfg, s) && Inv(cfg, s) && |s.logs| == 1 && Consequent(cfg, handlers, s)
    requires forall k :: 0 <= k < |steps| ==> OfTick(cfg, 0, steps[k])
    ensures var s' := Execute(cfg, handlers, s, 0, steps); Inv(cfg, s') && Consequent(cfg, handlers, s')
    decreases |steps|
  {
    hide Inv, Apply, Consequent;
    if steps != [] {
      var init, step := steps[..|steps| - 1], steps[|steps| - 1];
      ExecuteKeepsConsequent(cfg, handlers, s, init);
      assert OfTick(cfg, 0, step);
      StepKeepsInv(cfg, handlers, Execute(cfg, handlers, s, 0, init), step);
      StepKeepsConsequent(cfg, handlers, Execute(cfg, handlers, s, 0, init), step);
    }
  }

  lemma TickKeepsConsequent(cfg: Config, handlers: Handlers, s: State)
    requires WellShaped(cfg, s) && Inv(cfg, s) && |s.logs| == 1 && Consequent(cfg, handlers, s)
    ensures var s' := TickOnce(cfg, handlers, s, 0); Inv(cfg, s') && Consequent(cfg, handlers, s')
  {
    hide Inv, Consequent, Execute, TickSteps, WellShaped, OfTick;
    TickStepsOfTick(cfg, 0, |cfg|);
    ExecuteKeepsConsequent(cfg, handlers, s, TickSteps(cfg, 0, |cfg|));
  }

  /** After a tick, a need that suits a provider is settled by it. */
  lemma TickSettles(cfg: Config, handlers: Handlers, s: State, a: nat, j: nat, n: Leaf)
    requires WellShaped(cfg, s) && Inv(cfg, s) && |s.logs| == 1 && Consequent(cfg, handlers, s)
    requires a < |cfg| && j < |cfg[a].providers| && n in s.logs[0] && Suits(cfg[a].providers[j], n)
    ensures var s' := TickOnce(cfg, handlers, s, 0);
            && Inv(cfg, s') && Consequent(cfg, handlers, s') && n in s'.logs[0]
            && Settled(s'.logs[0], cfg[a].providers[j], cfg[a].principal, handlers(a, j), s'.reactors[a].providers[j], n)
  {
    var s' := TickOnce(cfg, handlers, s, 0);
    hide Inv, Consequent, Suits, Settled, WellShaped, TickOnce;
    TickKeepsConsequent(cfg, handlers, s);
    TickGrows(cfg, handlers, s, 0, n);
    TickSees(cfg, handlers, s, 0, a, j, n);
    ConsequentParts(cfg, handlers, s', a, j, n.id);
    LogIsGood(cfg, s', 0);
    var m :| m in s'.logs[0] && m.id == n.id
             && Settled(s'.logs[0], cfg[a].providers[j], cfg[a].principal, handlers(a, j), s'.reactors[a].providers[j], m);
    SameIdOnLog(s'.logs[0], Served(cfg), m, n);
  }

  lemma SettledEvidence(log: Log, c: ProviderConfig, node: Name, handler: Handler, p: ProviderState, n: Leaf)
    requires Settled(log, c, node, handler, p, n) && ReplyTo(handler, n).absorbed.Some?
    ensures Evidenced(log, n, c.ground)
  {
    hide Settled;
    assert FollowedUp(log, c, node, n, ReplyTo(handler, n)) by { SettledFollowedUp(log, c, node, handler, p, n); }
    var e :| e in log && EvidenceOf(e, c, node, n, ReplyTo(handler, n));
    assert IsEvidence(e, n, c.ground);
  }

  lemma SettledFollowedUp(log: Log, c: ProviderConfig, node: Name, handler: Handler, p: ProviderState, n: Leaf)
    requires Settled(log, c, node, handler, p, n)
    ensures IsNeed(n) && FollowedUp(log, c, node, n, ReplyTo(handler, n))
  {
    hide FollowedUp;
  }

  lemma SettledResidual(log: Log, c: ProviderConfig, node: Name, handler: Handler, p: ProviderState, n: Leaf) returns (x: Leaf)
    requires Settled(log, c, node, handler, p, n) && GoesOn(n, ReplyTo(handler, n))
    ensures x in log && ResidualOf(x, node, n, ReplyTo(handler, n))
  {
    SettledFollowedUp(log, c, node, handler, p, n);
    hide Settled, GoesOn, ResidualOf, EvidenceOf;
    x :| x in log && ResidualOf(x, node, n, ReplyTo(handler, n));
  }

  /** Evidence on the carrier is in every inbox that reaches its ground, from the next tick on. */
  lemma {:induction false} EvidencedIsAnswered(cfg: Config, handlers: Handlers, s: State, i: nat, n: Leaf, ground: Name, m: nat)
    requires WellShaped(cfg, s) && Inv(cfg, s) && |s.logs| == 1 && i < |cfg|
    requires n.Need? && Evidenced(s.logs[0], n, ground) && ground in cfg[i].reach
    ensures var s' := Ticks(cfg, handlers, s, 0, m);
            Inv(cfg, s') && Evidenced(s'.logs[0], n, ground) && (m > 0 ==> Answered(s', i, n.root))
    decreases m
  {
    hide Inv, Ticks, TickOnce, Evidenced, Answered;
    if m == 0 {
      TicksNone(cfg, handlers, s, 0);
    } else {
      TicksStep(cfg, handlers, s, 0, m - 1);
      EvidencedIsAnswered(cfg, handlers, s, i, n, ground, m - 1);
      TickCollects(cfg, handlers, Ticks(cfg, handlers, s, 0, m - 1), 0, i, n, ground);
    }
  }

  lemma {:induction false} TicksShift(cfg: Config, handlers: Handlers, s: State, m: nat)
    requires WellShaped(cfg, s) && 0 < |s.logs|
    ensures Ticks(cfg, handlers, s, 0, m + 1) == Ticks(cfg, handlers, TickOnce(cfg, handlers, s, 0), 0, m)
    decreases m
  {
    hide TickOnce;
    if m > 0 { TicksShift(cfg, handlers, s, m - 1); } else { assert Ticks(cfg, handlers, s, 0, 0) == s; }
  }

  lemma ChainHead(cfg: Config, handlers: Handlers, i: nat, hops: seq<(nat, nat)>, path: seq<Name>, need: Payload, id: Id)
    requires i < |cfg| && Chain(cfg, handlers, i, hops, path, need)
    ensures hops != [] && hops[0].0 < |cfg| && hops[0].1 < |cfg[hops[0].0].providers|
    ensures var (c, handler) := (cfg[hops[0].0].providers[hops[0].1], handlers(hops[0].0, hops[0].1));
            && path != [] && path[|path| - 1] == c.capability && c.capability in c.reach
            && (|hops| == 1 ==> c.ground in cfg[i].reach && handler(id, need).absorbed.Some?)
            && (|hops| > 1 ==>
                  var reply := handler(id, need);
                  && reply.residual.Some? && reply.to.Some? && reply.to.value !in path
                  && Chain(cfg, handlers, i, hops[1..], path + [reply.to.value], reply.residual.value))
  {}

  /** A need at the head of a chain of providers is answered, under its root, from one tick past the length
      of the chain on. */
  lemma {:induction false} ChainAnswers(cfg: Config, handlers: Handlers, s: State, i: nat, hops: seq<(nat, nat)>, n: Leaf, m: nat)
    requires WellShaped(cfg, s) && Inv(cfg, s) && |s.logs| == 1 && Consequent(cfg, handlers, s) && i < |cfg|
    requires n in s.logs[0] && IsNeed(n) && Chain(cfg, handlers, i, hops, n.path, n.sealed.body.need)
    requires m > |hops|
    ensures Answered(Ticks(cfg, handlers, s, 0, m), i, n.root)
    decreases |hops|
  {
    hide Inv, Consequent, TickOnce, Ticks, Answered, Settled, Suits, Chain, LogGood, Served, Evidenced;
    ChainHead(cfg, handlers, i, hops, n.path, n.sealed.body.need, n.id);
    var (a, j) := hops[0];
    var (c, handler) := (cfg[a].providers[j], handlers(a, j));
    LogIsGood(cfg, s, 0);
    GoodNeedIsAddressed(s.logs[0], Served(cfg), n);
    AddressedSuits(c, n);
    TickSettles(cfg, handlers, s, a, j, n);
    TicksShift(cfg, handlers, s, m - 1);
    var s1 := TickOnce(cfg, handlers, s, 0);
    var p := s1.reactors[a].providers[j];
    if |hops| == 1 {
      SettledEvidence(s1.logs[0], c, cfg[a].principal, handler, p, n);
      EvidencedIsAnswered(cfg, handlers, s1, i, n, c.ground, m - 1);
    } else {
      var x := SettledResidual(s1.logs[0], c, cfg[a].principal, handler, p, n);
      ChainAnswers(cfg, handlers, s1, i, hops[1..], x, m - 1);
    }
  }

  /** A need placed for the first capability of a chain is answered from one tick past its length on. */
  lemma PlacedChainAnswers(cfg: Config, handlers: Handlers, s: State, i: nat, to: Name, need: Payload, draw: Draw,
                           hops: seq<(nat, nat)>, m: nat)
    requires WellShaped(cfg, s) && Inv(cfg, s) && |s.logs| == 1 && Consequent(cfg, handlers, s) && i < |cfg|
    requires Chain(cfg, handlers, i, hops, [to], need) && m > |hops|
    ensures var placed := Apply(cfg, handlers, s, PlaceNeed(0, i, to, need, draw));
            var n := NeedArtifact(to, cfg[i].principal, Tick(s.reactors[i].hlc, draw.wall), draw.nonce, need, None, None, [to]);
            Answered(Ticks(cfg, handlers, placed, 0, m), i, n.id)
  {
    var step := PlaceNeed(0, i, to, need, draw);
    var n := NeedArtifact(to, cfg[i].principal, Tick(s.reactors[i].hlc, draw.wall), draw.nonce, need, None, None, [to]);
    StepKeepsInv(cfg, handlers, s, step);
    StepKeepsConsequent(cfg, handlers, s, step);
    LogIsGood(cfg, s, 0);
    assert LeafGood(s.logs[0], Served(cfg), n);
    hide Inv, Served, LogGood, LeafGood, Stored, Ticks, Answered, Consequent, Chain;
    AddLeaf(s.logs[0], Served(cfg), n);
    ChainAnswers(cfg, handlers, Apply(cfg, handlers, s, step), i, hops, n, m);
  }
}
