/** The reach protocol of `reach.py`: needs and evidence as leaves on shared append-only carriers.

    This module is the protocol as a state machine over values.  Sealing is symbolic (a sealed body
    opens with the same key and the same associated data only) and an artifact id is the tuple its
    digest is taken over.  The nonce of every seal is arbitrary, even repeated: that two good leaves
    of one id are one leaf is proved from their provenance. */
module Reach {
  import opened Carriers
  import opened Clock
  import opened Outcomes

  type Name = string
  type Payload = string

  // ---- artifacts ----

  datatype Kind = NeedKind | EvidenceKind

  /** `_artifact_id`: a content address, here its own preimage. */
  datatype Id = Id(origin: Name, to: Name, hlc: Hlc, kind: Kind, sealed: Sealed)

  /** `seal(body, group_key(key), aad=aad)`. */
  datatype Sealed = Sealed(key: Name, aad: Name, nonce: nat, body: Body)

  datatype Body =
    | NeedBody(derivedFrom: Option<Id>, cap: Name, need: Payload)
    | EvidenceBody(inReplyTo: Id, root: Id, evidence: Payload)

  datatype Leaf =
    | Need(id: Id, to: Name, origin: Name, hlc: Hlc, root: Id, derivedFrom: Option<Id>, cap: Name,
           path: seq<Name>, sealed: Sealed)
    | Evidence(id: Id, to: Name, origin: Name, hlc: Hlc, inReplyTo: Id, root: Id, cap: Name, sealed: Sealed)

  type Log = seq<Leaf>

  function LeafId(l: Leaf): Id { l.id }

  /** `open_sealed` under the keys of the groups a principal reaches. */
  function OpenSealed(s: Sealed, keys: set<Name>, aad: Name): Option<Body> {
    if s.key in keys && s.aad == aad then Some(s.body) else None
  }

  /** What placing an artifact draws from outside: the wall reading and the nonce of its seal. */
  datatype Draw = Draw(wall: int, nonce: nat)

  function NeedArtifact(to: Name, origin: Name, hlc: Hlc, nonce: nat, need: Payload, root: Option<Id>,
                        derivedFrom: Option<Id>, path: seq<Name>): Leaf
  {
    var sealed := Sealed(to, to, nonce, NeedBody(derivedFrom, to, need));
    var id := Id(origin, to, hlc, NeedKind, sealed);
    Need(id, to, origin, hlc, if root.Some? then root.value else id, derivedFrom, to,
         if path == [] then [to] else path, sealed)
  }

  function EvidenceArtifact(ground: Name, origin: Name, hlc: Hlc, nonce: nat, evidence: Payload, inReplyTo: Id,
                            root: Id, cap: Name): Leaf
  {
    var sealed := Sealed(ground, ground, nonce, EvidenceBody(inReplyTo, root, evidence));
    Evidence(Id(origin, ground, hlc, EvidenceKind, sealed), ground, origin, hlc, inReplyTo, root, cap, sealed)
  }

  // ---- who takes part ----

  /** What a provider is built with: its capability, the light-cone of its principal, its ground. */
  datatype ProviderConfig = ProviderConfig(capability: Name, reach: set<Name>, ground: Name)

  datatype ReactorConfig = ReactorConfig(principal: Name, providers: seq<ProviderConfig>, reach: set<Name>)

  type Config = seq<ReactorConfig>

  /** `calls` is the history of needs the handler was called with, in order. */
  datatype ProviderState = ProviderState(seen: set<Id>, calls: seq<Id>, handled: map<Id, Option<Payload>>)

  datatype Record = Record(hlc: Hlc, evidenceId: Id, inReplyTo: Id, root: Id, origin: Name, cap: Name)

  datatype Inbox = Inbox(seen: set<Id>, bands: map<Id, seq<(Hlc, Payload)>>, prov: map<Id, seq<Record>>)

  datatype ReactorState = ReactorState(hlc: Hlc, providers: seq<ProviderState>, inbox: Inbox)

  datatype State = State(logs: seq<Log>, reactors: seq<ReactorState>)

  /** What a handler answers, and what routing makes of it: the absorbed band, the residual and its
      next hop, with what the artifacts that follow draw.  A handler is any function of the
      provider, the need's id and its payload; each is called at most once, so any run of any
      stateful handler and any measured routing is covered. */
  datatype Reply = Reply(absorbed: Option<Payload>, residual: Option<Payload>, to: Option<Name>,
                         evidenceDraw: Draw, needDraw: Draw)

  type Handler = (Id, Payload) -> Reply
  type Handlers = (nat, nat) -> Handler

  // ---- the provider ----

  /** The guards of `Provider.on_leaf`, in its order. */
  predicate Accepts(c: ProviderConfig, p: ProviderState, leaf: Leaf) {
    && leaf.Need?
    && leaf.to == c.capability
    && leaf.to in c.reach
    && leaf.id !in p.seen
    && match OpenSealed(leaf.sealed, c.reach, leaf.to)
       case Some(NeedBody(derivedFrom, cap, _)) => cap == leaf.cap && derivedFrom == leaf.derivedFrom
       case _ => false
  }

  /** Absorb: the evidence that handling a need discharges, and the clock after its stamp. */
  function Discharged(c: ProviderConfig, node: Name, h: Hlc, leaf: Leaf, reply: Reply): (Hlc, seq<Leaf>)
    requires leaf.Need?
  {
    if reply.absorbed.None? then (h, [])
    else
      var h' := Tick(h, reply.evidenceDraw.wall);
      (h', [EvidenceArtifact(c.ground, node, h', reply.evidenceDraw.nonce, reply.absorbed.value, leaf.id, leaf.root,
                             c.capability)])
  }

  /** Transmit: the residual's need, unless its next hop is on the path already. */
  function Transmitted(node: Name, h: Hlc, leaf: Leaf, reply: Reply): (Hlc, seq<Leaf>)
    requires leaf.Need?
  {
    if reply.residual.None? || reply.to.None? || reply.to.value in leaf.path then (h, [])
    else
      var h' := Tick(h, reply.needDraw.wall);
      (h', [NeedArtifact(reply.to.value, node, h', reply.needDraw.nonce, reply.residual.value, Some(leaf.root), Some(leaf.id),
                         leaf.path + [reply.to.value])])
  }

  /** The leaves that handling a need puts on the carrier, and the clock after their stamps. */
  function Emitted(c: ProviderConfig, node: Name, h: Hlc, leaf: Leaf, reply: Reply): (Hlc, seq<Leaf>)
    requires leaf.Need?
  {
    var (h1, evidence) := Discharged(c, node, h, leaf, reply);
    var (h2, onward) := Transmitted(node, h1, leaf, reply);
    (h2, evidence + onward)
  }

  function OnLeaf(c: ProviderConfig, node: Name, p: ProviderState, h: Hlc, leaf: Leaf, handler: Handler)
    : (ProviderState, Hlc, seq<Leaf>)
  {
    if !Accepts(c, p, leaf) then (p, h, [])
    else
      var reply := handler(leaf.id, leaf.sealed.body.need);
      var (h', out) := Emitted(c, node, h, leaf, reply);
      (ProviderState(p.seen + {leaf.id}, p.calls + [leaf.id], p.handled[leaf.id := reply.absorbed]), h', out)
  }

  function StoreAll(log: Log, leaves: seq<Leaf>): Log
    decreases |leaves|
  {
    if leaves == [] then log else StoreAll(Stored(LeafId, log, leaves[0]), leaves[1..])
  }

  /** The loop of `Provider.pump` over the leaves that were polled. */
  function PumpLeaves(c: ProviderConfig, node: Name, p: ProviderState, h: Hlc, log: Log, polled: seq<Leaf>, handler: Handler)
    : (ProviderState, Hlc, Log)
    decreases |polled|
  {
    if polled == [] then (p, h, log)
    else
      var (p1, h1, out) := OnLeaf(c, node, p, h, polled[0], handler);
      PumpLeaves(c, node, p1, h1, StoreAll(log, out), polled[1..], handler)
  }

  // ---- the requester ----

  predicate InboxAccepts(reach: set<Name>, box: Inbox, leaf: Leaf) {
    && leaf.Evidence?
    && leaf.to in reach
    && leaf.id !in box.seen
    && match OpenSealed(leaf.sealed, reach, leaf.to)
       case Some(EvidenceBody(inReplyTo, root, _)) => inReplyTo == leaf.inReplyTo && root == leaf.root
       case _ => false
  }

  function Filed<T>(m: map<Id, seq<T>>, root: Id, item: T): map<Id, seq<T>> {
    m[root := (if root in m then m[root] else []) + [item]]
  }

  function RecordOf(leaf: Leaf): Record
    requires leaf.Evidence?
  {
    Record(leaf.hlc, leaf.id, leaf.inReplyTo, leaf.root, leaf.origin, leaf.cap)
  }

  function AbsorbLeaf(reach: set<Name>, box: Inbox, leaf: Leaf): Inbox {
    if !InboxAccepts(reach, box, leaf) then box
    else Inbox(box.seen + {leaf.id},
               Filed(box.bands, leaf.root, (leaf.hlc, leaf.sealed.body.evidence)),
               Filed(box.prov, leaf.root, RecordOf(leaf)))
  }

  function AbsorbLeaves(reach: set<Name>, box: Inbox, polled: seq<Leaf>): Inbox {
    if polled == [] then box
    else AbsorbLeaf(reach, AbsorbLeaves(reach, box, polled[..|polled| - 1]), polled[|polled| - 1])
  }

  // ---- steps and runs ----

  datatype Step =
    | PlaceNeed(carrier: nat, reactor: nat, to: Name, need: Payload, draw: Draw)
    | Pump(carrier: nat, reactor: nat, provider: nat)
    | Absorb(carrier: nat, reactor: nat)
    | Reconcile(a: nat, b: nat, fromA: seq<Leaf>, fromB: seq<Leaf>)

  predicate WellShaped(cfg: Config, s: State) {
    && |s.reactors| == |cfg|
    && forall i :: 0 <= i < |cfg| ==> |s.reactors[i].providers| == |cfg[i].providers|
  }

  /** `missing` lists, in any order, the leaves of `from` whose ids `into` lacks. */
  ghost predicate Missing(from: Log, into: Log, missing: seq<Leaf>) {
    && (forall l :: l in missing <==> l in from && !HasId(LeafId, into, l.id))
    && (forall i, j :: 0 <= i < j < |missing| ==> missing[i] != missing[j])
  }

  ghost predicate Enabled(cfg: Config, s: State, step: Step) {
    match step
    case PlaceNeed(c, i, _, _, _) => c < |s.logs| && i < |cfg|
    case Pump(c, i, j) => c < |s.logs| && i < |cfg| && j < |cfg[i].providers|
    case Absorb(c, i) => c < |s.logs| && i < |cfg|
    case Reconcile(a, b, fromA, fromB) =>
      && a < |s.logs| && b < |s.logs| && a != b
      && Missing(s.logs[a], s.logs[b], fromA) && Missing(s.logs[b], s.logs[a], fromB)
  }

  ghost function Apply(cfg: Config, handlers: Handlers, s: State, step: Step): (s': State)
    requires WellShaped(cfg, s) && Enabled(cfg, s, step)
    ensures WellShaped(cfg, s') && |s'.logs| == |s.logs|
  {
    match step
    case PlaceNeed(c, i, to, need, draw) =>
      var r := s.reactors[i];
      var h := Tick(r.hlc, draw.wall);
      var leaf := NeedArtifact(to, cfg[i].principal, h, draw.nonce, need, None, None, [to]);
      State(s.logs[c := Stored(LeafId, s.logs[c], leaf)], s.reactors[i := r.(hlc := h)])
    case Pump(c, i, j) =>
      var r := s.reactors[i];
      var (p, h, log) := PumpLeaves(cfg[i].providers[j], cfg[i].principal, r.providers[j], r.hlc,
                                    s.logs[c], s.logs[c], handlers(i, j));
      State(s.logs[c := log], s.reactors[i := r.(hlc := h, providers := r.providers[j := p])])
    case Absorb(c, i) =>
      var r := s.reactors[i];
      s.(reactors := s.reactors[i := r.(inbox := AbsorbLeaves(cfg[i].reach, r.inbox, s.logs[c]))])
    case Reconcile(a, b, fromA, fromB) =>
      s.(logs := s.logs[a := StoreAll(s.logs[a], fromB)][b := StoreAll(s.logs[b], fromA)])
  }

  const EMPTY_PROVIDER := ProviderState({}, [], map[])
  const EMPTY_INBOX := Inbox({}, map[], map[])

  /** Fresh reactors over empty carriers. */
  predicate Initial(cfg: Config, s: State) {
    && WellShaped(cfg, s)
    && (forall c :: 0 <= c < |s.logs| ==> s.logs[c] == [])
    && forall i :: 0 <= i < |s.reactors| ==>
         s.reactors[i].hlc == Hlc(0, 0) && s.reactors[i].inbox == EMPTY_INBOX
         && forall j :: 0 <= j < |s.reactors[i].providers| ==> s.reactors[i].providers[j] == EMPTY_PROVIDER
  }

  /** A run: states joined by enabled steps. */
  ghost predicate IsRun(cfg: Config, handlers: Handlers, states: seq<State>, steps: seq<Step>) {
    && |states| == |steps| + 1
    && (forall k :: 0 <= k < |states| ==> WellShaped(cfg, states[k]))
    && forall k :: 0 <= k < |steps| ==>
         Enabled(cfg, states[k], steps[k]) && states[k + 1] == Apply(cfg, handlers, states[k], steps[k])
  }

  // ---- what every reachable state keeps ----

  ghost predicate NoRepeat<T(!new)>(s: seq<T>) {
    forall i, j :: 0 <= i < j < |s| ==> s[i] != s[j]
  }

  ghost function Served(cfg: Config): set<Name> {
    set r, p | r in cfg && p in r.providers :: p.capability
  }

  predicate WellAddressed(l: Leaf) {
    l.id == Id(l.origin, l.to, l.hlc, if l.Need? then NeedKind else EvidenceKind, l.sealed)
  }

  /** n is the residual that handling m transmitted. */
  predicate ParentOf(m: Leaf, n: Leaf) {
    m.Need? && n.Need? && n.derivedFrom == Some(m.id) && m.root == n.root && n.path == m.path + [n.to]
  }

  /** e is evidence discharged for m. */
  predicate Answers(e: Leaf, m: Leaf) {
    m.Need? && e.Evidence? && m.id == e.inReplyTo && m.root == e.root && e.cap == m.to
  }

  ghost predicate NeedGood(log: Log, served: set<Name>, n: Leaf)
    requires n.Need?
  {
    && n.path != [] && NoRepeat(n.path) && n.path[|n.path| - 1] == n.to
    && n.cap == n.to && n.sealed.key == n.to && n.sealed.aad == n.to
    && n.sealed.body.NeedBody? && n.sealed.body.derivedFrom == n.derivedFrom && n.sealed.body.cap == n.to
    && (n.derivedFrom.None? ==> n.root == n.id && n.path == [n.to])
    && (n.derivedFrom.Some? ==> exists m :: m in log && ParentOf(m, n) && m.to in served)
  }

  ghost predicate EvidenceGood(log: Log, served: set<Name>, e: Leaf)
    requires e.Evidence?
  {
    && e.sealed.key == e.to && e.sealed.aad == e.to
    && e.sealed.body.EvidenceBody? && e.sealed.body.inReplyTo == e.inReplyTo && e.sealed.body.root == e.root
    && exists m :: m in log && Answers(e, m) && m.to in served
  }

  ghost predicate LeafGood(log: Log, served: set<Name>, l: Leaf) {
    WellAddressed(l) && (if l.Need? then NeedGood(log, served, l) else EvidenceGood(log, served, l))
  }

  ghost predicate LogGood(log: Log, served: set<Name>) {
    UniqueIds(LeafId, log) && forall l :: l in log ==> LeafGood(log, served, l)
  }

  ghost predicate ProviderGood(p: ProviderState) {
    NoRepeat(p.calls) && (forall id :: id in p.calls <==> id in p.seen) && p.handled.Keys == p.seen
  }

  ghost function World(logs: seq<Log>): set<Leaf> {
    set c, l | 0 <= c < |logs| && l in logs[c] :: l
  }

  /** A filed record and band come from one evidence leaf of that root. */
  ghost predicate BackedBy(world: set<Leaf>, rec: Record, band: (Hlc, Payload), root: Id) {
    exists e :: e in world && e.Evidence? && e.sealed.body.EvidenceBody? && e.root == root
                && RecordOf(e) == rec && band == (e.hlc, e.sealed.body.evidence)
  }

  /** What is filed under one root: distinct evidence of that root, all of it marked seen. */
  ghost predicate FiledGood(world: set<Leaf>, seen: set<Id>, recs: seq<Record>, bands: seq<(Hlc, Payload)>, root: Id) {
    && |bands| == |recs|
    && (forall k :: 0 <= k < |recs| ==> BackedBy(world, recs[k], bands[k], root) && recs[k].evidenceId in seen)
    && forall k, k' :: 0 <= k < k' < |recs| ==> recs[k].evidenceId != recs[k'].evidenceId
  }

  /** A record of this evidence is filed. */
  ghost predicate Filing(prov: map<Id, seq<Record>>, id: Id) {
    exists root, k :: root in prov && 0 <= k < |prov[root]| && prov[root][k].evidenceId == id
  }

  ghost predicate InboxGood(world: set<Leaf>, box: Inbox) {
    && box.bands.Keys == box.prov.Keys
    && (forall id :: id in box.seen ==> Filing(box.prov, id))
    && forall root :: root in box.prov ==> FiledGood(world, box.seen, box.prov[root], box.bands[root], root)
  }

  ghost predicate Elements(world: set<Leaf>, log: Log) {
    forall l :: l in log ==> l in world
  }

  /** The leaf comes from a reactor whose clock has not been behind its stamp since. */
  ghost predicate StampedBy(cfg: Config, s: State, i: nat, l: Leaf)
    requires WellShaped(cfg, s) && i < |cfg|
  {
    cfg[i].principal == l.origin && !Earlier(s.reactors[i].hlc, l.hlc)
  }

  ghost predicate AllStamped(cfg: Config, s: State)
    requires WellShaped(cfg, s)
  {
    forall l :: l in World(s.logs) ==> exists i :: 0 <= i < |cfg| && StampedBy(cfg, s, i, l)
  }

  ghost predicate Inv(cfg: Config, s: State) {
    && WellShaped(cfg, s)
    && (forall c :: 0 <= c < |s.logs| ==> LogGood(s.logs[c], Served(cfg)))
    && AllStamped(cfg, s)
    && (forall i :: 0 <= i < |cfg| ==> InboxGood(World(s.logs), s.reactors[i].inbox))
    && forall i, j :: 0 <= i < |cfg| && 0 <= j < |cfg[i].providers| ==> ProviderGood(s.reactors[i].providers[j])
  }

  // ---- ids name leaves ----

  lemma ParentOfGood(log: Log, served: set<Name>, n: Leaf) returns (m: Leaf)
    requires LogGood(log, served) && n.Need? && LeafGood(log, served, n) && n.derivedFrom.Some?
    ensures m in log && ParentOf(m, n) && LeafGood(log, served, m)
  {
    m :| m in log && ParentOf(m, n) && m.to in served;
  }

  lemma AnsweredGood(log: Log, served: set<Name>, e: Leaf) returns (m: Leaf)
    requires LogGood(log, served) && e.Evidence? && LeafGood(log, served, e)
    ensures m in log && Answers(e, m) && LeafGood(log, served, m)
  {
    m :| m in log && Answers(e, m) && m.to in served;
  }

  /** Two good leaves of one id are equal, on whichever carriers: the id fixes origin, target, stamp and
      body, the body fixes the parent's id, and the parent fixes root and path. */
  lemma {:induction false} SameIdSameLeaf(log1: Log, log2: Log, served: set<Name>, a: Leaf, b: Leaf)
    requires LogGood(log1, served) && LogGood(log2, served)
    requires LeafGood(log1, served, a) && LeafGood(log2, served, b) && a.id == b.id
    ensures a == b
    decreases a.id
  {
    hide LogGood, NoRepeat;
    assert WellAddressed(a) && WellAddressed(b);
    if a.Need? {
      assert NeedGood(log1, served, a) && NeedGood(log2, served, b);
      if a.derivedFrom.Some? {
        hide LeafGood, NeedGood;
        var m := ParentOfGood(log1, served, a);
        var n := ParentOfGood(log2, served, b);
        assert a.id.sealed.body.derivedFrom.value == m.id == n.id;
        SameIdSameLeaf(log1, log2, served, m, n);
      }
    } else {
      assert EvidenceGood(log1, served, a) && EvidenceGood(log2, served, b);
      hide LeafGood, EvidenceGood;
      var m := AnsweredGood(log1, served, a);
      var n := AnsweredGood(log2, served, b);
      assert m.id == n.id;
      AddressFixesTarget(log1, log2, served, m, n);
    }
  }

  lemma AddressFixesTarget(log1: Log, log2: Log, served: set<Name>, m: Leaf, n: Leaf)
    requires LeafGood(log1, served, m) && LeafGood(log2, served, n) && m.id == n.id
    ensures m.to == n.to
  {
    hide NeedGood, EvidenceGood;
  }

  /** Across all carriers of a reachable state, equal ids mean equal leaves. */
  lemma IdsNameLeaves(cfg: Config, s: State, l: Leaf, m: Leaf)
    requires Inv(cfg, s) && l in World(s.logs) && m in World(s.logs) && l.id == m.id
    ensures l == m
  {
    hide LogGood, InboxGood, ProviderGood, AllStamped;
    var c :| 0 <= c < |s.logs| && l in s.logs[c];
    var d :| 0 <= d < |s.logs| && m in s.logs[d];
    SameOnCarriers(s.logs[c], s.logs[d], Served(cfg), l, m);
  }

  lemma SameOnCarriers(log1: Log, log2: Log, served: set<Name>, a: Leaf, b: Leaf)
    requires LogGood(log1, served) && LogGood(log2, served) && a in log1 && b in log2 && a.id == b.id
    ensures a == b
  {
    assert LeafGood(log1, served, a) && LeafGood(log2, served, b);
    hide LogGood, LeafGood;
    SameIdSameLeaf(log1, log2, served, a, b);
  }

  // ---- one node at work on one carrier ----

  /** A leaf good for a log is good for any log with all the leaves of it. */
  lemma LeafGoodWithin(log: Log, within: Log, served: set<Name>, l: Leaf)
    requires LeafGood(log, served, l) && forall m :: m in log ==> m in within
    ensures LeafGood(within, served, l)
  {
    hide WellAddressed, NoRepeat;
  }

  lemma LeafGoodMonotone(log: Log, more: Log, served: set<Name>, l: Leaf)
    requires LeafGood(log, served, l)
    ensures LeafGood(log + more, served, l)
  {
    LeafGoodWithin(log, log + more, served, l);
  }

  /** Putting a good leaf keeps a good log good and adds that leaf and no other, whether or not its id
      was there. */
  lemma AddLeaf(log: Log, served: set<Name>, x: Leaf)
    requires LogGood(log, served) && LeafGood(log, served, x)
    ensures var log' := Stored(LeafId, log, x);
            && log <= log' && LogGood(log', served)
            && forall l :: l in log' <==> l in log || l == x
  {
    if HasId(LeafId, log, x.id) {
      var k :| 0 <= k < |log| && LeafId(log[k]) == x.id;
      assert log[k] in log && LeafGood(log, served, log[k]);
      hide LogGood, LeafGood;
      SameIdSameLeaf(log, log, served, log[k], x);
    } else {
      StoredKeepsUnique(LeafId, log, x);
      hide LeafGood;
      forall l | l in log + [x] ensures LeafGood(log + [x], served, l) {
        LeafGoodMonotone(log, [x], served, l);
      }
    }
  }

  ghost function Members(log: Log): set<Leaf> {
    set l | l in log
  }

  lemma StoreOne(log: Log, x: Leaf)
    ensures StoreAll(log, [x]) == Stored(LeafId, log, x)
  {
    assert [x][1..] == [];
    assert StoreAll(Stored(LeafId, log, x), []) == Stored(LeafId, log, x);
  }

  lemma {:induction false} StoreConcat(log: Log, xs: seq<Leaf>, ys: seq<Leaf>)
    ensures StoreAll(log, xs + ys) == StoreAll(StoreAll(log, xs), ys)
    decreases |xs|
  {
    hide Stored;
    if xs == [] {
      assert xs + ys == ys;
    } else {
      assert (xs + ys)[0] == xs[0] && (xs + ys)[1..] == xs[1..] + ys;
      StoreConcat(Stored(LeafId, log, xs[0]), xs[1..], ys);
    }
  }

  lemma EvidenceIsGood(c: ProviderConfig, node: Name, h: Hlc, nonce: nat, log: Log, served: set<Name>, leaf: Leaf,
                       band: Payload)
    requires leaf in log && leaf.Need? && leaf.to == c.capability && c.capability in served
    ensures LeafGood(log, served, EvidenceArtifact(c.ground, node, h, nonce, band, leaf.id, leaf.root, c.capability))
  {
    assert Answers(EvidenceArtifact(c.ground, node, h, nonce, band, leaf.id, leaf.root, c.capability), leaf);
  }

  lemma ResidualIsGood(node: Name, h: Hlc, nonce: nat, log: Log, served: set<Name>, leaf: Leaf, to: Name,
                       residual: Payload)
    requires leaf in log && leaf.Need? && leaf.to in served && NeedGood(log, served, leaf) && to !in leaf.path
    ensures LeafGood(log, served, NeedArtifact(to, node, h, nonce, residual, Some(leaf.root), Some(leaf.id), leaf.path + [to]))
  {
    var x := NeedArtifact(to, node, h, nonce, residual, Some(leaf.root), Some(leaf.id), leaf.path + [to]);
    assert ParentOf(leaf, x);
    assert NoRepeat(x.path);
  }

  /** Storing node's leaves `out`, stamped up to its clock h', keeps everything and adds exactly them. */
  ghost predicate Extends(log: Log, node: Name, h: Hlc, h': Hlc, served: set<Name>, out: seq<Leaf>) {
    var log' := StoreAll(log, out);
    && log <= log' && LogGood(log', served) && !Earlier(h', h)
    && (forall x :: x in log' <==> x in log || x in out)
    && forall x :: x in out ==> x.origin == node && !Earlier(h', x.hlc)
  }

  lemma ExtendsNothing(log: Log, node: Name, h: Hlc, served: set<Name>)
    requires LogGood(log, served)
    ensures Extends(log, node, h, h, served, [])
  {}

  lemma ExtendsByOne(log: Log, node: Name, h: Hlc, wall: int, served: set<Name>, x: Leaf)
    requires LogGood(log, served) && LeafGood(log, served, x) && x.origin == node && x.hlc == Tick(h, wall)
    ensures Extends(log, node, h, Tick(h, wall), served, [x])
  {
    AddLeaf(log, served, x);
    StoreOne(log, x);
    hide LogGood, LeafGood, Stored, StoreAll;
  }

  lemma ExtendsConcat(log: Log, node: Name, h: Hlc, h1: Hlc, h2: Hlc, served: set<Name>, xs: seq<Leaf>, ys: seq<Leaf>)
    requires Extends(log, node, h, h1, served, xs) && Extends(StoreAll(log, xs), node, h1, h2, served, ys)
    ensures Extends(log, node, h, h2, served, xs + ys)
  {
    hide LogGood, StoreAll;
    StoreConcat(log, xs, ys);
    assert log <= StoreAll(log, xs) <= StoreAll(log, xs + ys);
  }

  lemma ExtendsGood(log: Log, node: Name, h: Hlc, h': Hlc, served: set<Name>, out: seq<Leaf>)
    requires Extends(log, node, h, h', served, out)
    ensures log <= StoreAll(log, out) && LogGood(StoreAll(log, out), served)
  {
    hide LogGood;
  }

  /** Handling one accepted need: what it emits is stored, and everything stays good. */
  lemma HandleKeepsLog(log: Log, c: ProviderConfig, node: Name, h: Hlc, served: set<Name>, leaf: Leaf, reply: Reply)
    requires LogGood(log, served)
    requires leaf in log && leaf.Need? && leaf.to == c.capability && c.capability in served
    ensures var (h', out) := Emitted(c, node, h, leaf, reply);
            Extends(log, node, h, h', served, out)
  {
    var (h1, evidence) := Discharged(c, node, h, leaf, reply);
    var (h2, onward) := Transmitted(node, h1, leaf, reply);
    assert LeafGood(log, served, leaf);
    hide LogGood, LeafGood, Extends, StoreAll;
    if evidence == [] {
      ExtendsNothing(log, node, h, served);
    } else {
      EvidenceIsGood(c, node, h1, reply.evidenceDraw.nonce, log, served, leaf, reply.absorbed.value);
      ExtendsByOne(log, node, h, reply.evidenceDraw.wall, served, evidence[0]);
    }
    ExtendsGood(log, node, h, h1, served, evidence);
    var log1 := StoreAll(log, evidence);
    if onward == [] {
      ExtendsNothing(log1, node, h1, served);
    } else {
      GoodLeaf(log, served, leaf);
      ResidualIsGood(node, h2, reply.needDraw.nonce, log, served, leaf, reply.to.value, reply.residual.value);
      LeafGoodWithin(log, log1, served, onward[0]);
      ExtendsByOne(log1, node, h1, reply.needDraw.wall, served, onward[0]);
    }
    ExtendsConcat(log, node, h, h1, h2, served, evidence, onward);
  }

  lemma GoodLeaf(log: Log, served: set<Name>, leaf: Leaf)
    requires LeafGood(log, served, leaf) && leaf.Need?
    ensures NeedGood(log, served, leaf)
  {}

  lemma OnLeafKeepsProvider(c: ProviderConfig, node: Name, p: ProviderState, h: Hlc, leaf: Leaf, handler: Handler)
    requires ProviderGood(p)
    ensures ProviderGood(OnLeaf(c, node, p, h, leaf, handler).0)
    ensures p.seen <= OnLeaf(c, node, p, h, leaf, handler).0.seen
  {
    hide Emitted;
    if Accepts(c, p, leaf) {
      var calls := p.calls + [leaf.id];
      forall i, j | 0 <= i < j < |calls| ensures calls[i] != calls[j] {
        if j == |p.calls| { assert p.calls[i] in p.calls; }
      }
    }
  }

  lemma OnLeafKeepsLog(log: Log, c: ProviderConfig, node: Name, p: ProviderState, h: Hlc, served: set<Name>, leaf: Leaf,
                       handler: Handler)
    requires LogGood(log, served) && leaf in log && c.capability in served
    ensures var (_, h', out) := OnLeaf(c, node, p, h, leaf, handler);
            Extends(log, node, h, h', served, out)
  {
    hide LogGood, Extends, Emitted;
    if Accepts(c, p, leaf) {
      HandleKeepsLog(log, c, node, h, served, leaf, handler(leaf.id, leaf.sealed.body.need));
    } else {
      ExtendsNothing(log, node, h, served);
    }
  }

  /** log' extends log by leaves of node, stamped no later than its clock h'. */
  ghost predicate Grown(log: Log, log': Log, node: Name, h: Hlc, h': Hlc) {
    && log <= log' && !Earlier(h', h)
    && forall x :: x in log' ==> x in log || (x.origin == node && !Earlier(h', x.hlc))
  }

  lemma GrownTwice(log: Log, log1: Log, log2: Log, node: Name, h: Hlc, h1: Hlc, h2: Hlc)
    requires Grown(log, log1, node, h, h1) && Grown(log1, log2, node, h1, h2)
    ensures Grown(log, log2, node, h, h2)
  {}

  lemma ExtendsGrows(log: Log, node: Name, h: Hlc, h': Hlc, served: set<Name>, out: seq<Leaf>)
    requires Extends(log, node, h, h', served, out)
    ensures Grown(log, StoreAll(log, out), node, h, h') && LogGood(StoreAll(log, out), served)
  {
    hide LogGood, StoreAll;
  }

  lemma {:induction false} PumpKeepsLog(log: Log, c: ProviderConfig, node: Name, p: ProviderState, h: Hlc,
                                        served: set<Name>, polled: seq<Leaf>, handler: Handler)
    requires LogGood(log, served) && c.capability in served && ProviderGood(p)
    requires forall l :: l in polled ==> l in log
    ensures var (p', h', log') := PumpLeaves(c, node, p, h, log, polled, handler);
            && ProviderGood(p') && p.seen <= p'.seen
            && LogGood(log', served) && Grown(log, log', node, h, h')
    decreases |polled|
  {
    hide OnLeaf, ProviderGood, StoreAll, LogGood, Extends;
    if polled != [] {
      var (p1, h1, out) := OnLeaf(c, node, p, h, polled[0], handler);
      OnLeafKeepsLog(log, c, node, p, h, served, polled[0], handler);
      OnLeafKeepsProvider(c, node, p, h, polled[0], handler);
      ExtendsGrows(log, node, h, h1, served, out);
      var log1 := StoreAll(log, out);
      forall l | l in polled[1..] ensures l in log1 { assert l in log; }
      PumpKeepsLog(log1, c, node, p1, h1, served, polled[1..], handler);
      var (p', h', log') := PumpLeaves(c, node, p1, h1, log1, polled[1..], handler);
      hide PumpLeaves, Grown;
      GrownTwice(log, log1, log', node, h, h1, h');
    }
  }

  // ---- every step keeps the invariant ----

  lemma WorldContains(logs: seq<Log>, c: nat)
    requires c < |logs|
    ensures Elements(World(logs), logs[c])
  {}

  lemma WorldUpdated(logs: seq<Log>, c: nat, log': Log)
    requires c < |logs| && logs[c] <= log'
    ensures World(logs[c := log']) == World(logs) + Members(log')
  {
    var now := logs[c := log'];
    forall l ensures l in World(now) <==> l in World(logs) + Members(log') {
      if l in World(now) {
        var d :| 0 <= d < |now| && l in now[d];
        if d != c { assert l in logs[d]; }
      }
      if l in World(logs) {
        var d :| 0 <= d < |logs| && l in logs[d];
        if d == c { assert l in now[c]; } else { assert l in now[d]; }
      }
      if l in log' { assert l in now[c]; }
    }
  }

  lemma FiledGoodMonotone(world: set<Leaf>, more: set<Leaf>, seen: set<Id>, seen': set<Id>, recs: seq<Record>,
                          bands: seq<(Hlc, Payload)>, root: Id)
    requires FiledGood(world, seen, recs, bands, root) && seen <= seen'
    ensures FiledGood(world + more, seen', recs, bands, root)
  {
    hide RecordOf;
    forall k | 0 <= k < |recs| ensures BackedBy(world + more, recs[k], bands[k], root) {
      assert BackedBy(world, recs[k], bands[k], root);
    }
  }

  lemma InboxGoodMonotone(world: set<Leaf>, more: set<Leaf>, box: Inbox)
    requires InboxGood(world, box)
    ensures InboxGood(world + more, box)
  {
    hide FiledGood, Filing;
    forall root | root in box.prov ensures FiledGood(world + more, box.seen, box.prov[root], box.bands[root], root) {
      FiledGoodMonotone(world, more, box.seen, box.seen, box.prov[root], box.bands[root], root);
    }
  }

  /** A reactor's clock moves on and its new leaves are stamped by it: every leaf stays stamped. */
  lemma WorkStamps(cfg: Config, s: State, s': State, c: nat, i: nat)
    requires WellShaped(cfg, s) && WellShaped(cfg, s') && AllStamped(cfg, s)
    requires |s'.logs| == |s.logs| && |s'.reactors| == |s.reactors| && c < |s.logs| && i < |cfg|
    requires World(s'.logs) == World(s.logs) + Members(s'.logs[c]) && s'.reactors == s.reactors[i := s'.reactors[i]]
    requires Grown(s.logs[c], s'.logs[c], cfg[i].principal, s.reactors[i].hlc, s'.reactors[i].hlc)
    ensures AllStamped(cfg, s')
  {
    WorldContains(s.logs, c);
    hide World;
    forall l | l in World(s'.logs) ensures exists k :: 0 <= k < |cfg| && StampedBy(cfg, s', k, l) {
      if l in World(s.logs) {
        var k :| 0 <= k < |cfg| && StampedBy(cfg, s, k, l);
        assert StampedBy(cfg, s', k, l);
      } else {
        assert StampedBy(cfg, s', i, l);
      }
    }
  }

  /** What one node's work on one carrier means for the whole state. */
  lemma WorkIntoInv(cfg: Config, s: State, s': State, c: nat, i: nat)
    requires Inv(cfg, s) && WellShaped(cfg, s')
    requires |s'.logs| == |s.logs| && c < |s.logs| && i < |cfg|
    requires s'.logs == s.logs[c := s'.logs[c]] && LogGood(s'.logs[c], Served(cfg))
    requires |s'.reactors| == |s.reactors| && s'.reactors == s.reactors[i := s'.reactors[i]]
    requires s'.reactors[i].inbox == s.reactors[i].inbox
    requires Grown(s.logs[c], s'.logs[c], cfg[i].principal, s.reactors[i].hlc, s'.reactors[i].hlc)
    requires forall j :: 0 <= j < |cfg[i].providers| ==> ProviderGood(s'.reactors[i].providers[j])
    ensures Inv(cfg, s')
  {
    var world, more := World(s.logs), Members(s'.logs[c]);
    WorldUpdated(s.logs, c, s'.logs[c]);
    hide World, Members, LogGood, Grown, InboxGood, ProviderGood, AllStamped;
    WorkStamps(cfg, s, s', c, i);
    forall k | 0 <= k < |cfg| ensures InboxGood(world + more, s'.reactors[k].inbox) {
      InboxGoodMonotone(world, more, s.reactors[k].inbox);
    }
  }

  lemma LogIsGood(cfg: Config, s: State, c: nat)
    requires Inv(cfg, s) && c < |s.logs|
    ensures LogGood(s.logs[c], Served(cfg))
  {
    hide LogGood, AllStamped, InboxGood, ProviderGood;
  }

  lemma PlaceNeedKeepsInv(cfg: Config, handlers: Handlers, s: State, step: Step)
    requires Inv(cfg, s) && step.PlaceNeed? && Enabled(cfg, s, step)
    ensures Inv(cfg, Apply(cfg, handlers, s, step))
  {
    var PlaceNeed(c, i, to, need, draw) := step;
    var h := s.reactors[i].hlc;
    var leaf := NeedArtifact(to, cfg[i].principal, Tick(h, draw.wall), draw.nonce, need, None, None, [to]);
    assert LeafGood(s.logs[c], Served(cfg), leaf);
    LogIsGood(cfg, s, c);
    ProvidersGood(cfg, s, i);
    var s' := Apply(cfg, handlers, s, step);
    hide LogGood, LeafGood, Served, ProviderGood, Stored, Inv;
    AddLeaf(s.logs[c], Served(cfg), leaf);
    WorkIntoInv(cfg, s, s', c, i);
  }

  lemma ProvidersGood(cfg: Config, s: State, i: nat)
    requires Inv(cfg, s) && i < |cfg|
    ensures forall j :: 0 <= j < |cfg[i].providers| ==> ProviderGood(s.reactors[i].providers[j])
  {
    hide World, LogGood, AllStamped, ProviderGood, InboxGood;
  }

  lemma ServedContains(cfg: Config, i: nat, j: nat)
    requires i < |cfg| && j < |cfg[i].providers|
    ensures cfg[i].providers[j].capability in Served(cfg)
  {
    assert cfg[i] in cfg && cfg[i].providers[j] in cfg[i].providers;
  }

  lemma PumpKeepsInv(cfg: Config, handlers: Handlers, s: State, step: Step)
    requires Inv(cfg, s) && step.Pump? && Enabled(cfg, s, step)
    ensures Inv(cfg, Apply(cfg, handlers, s, step))
  {
    var Pump(c, i, j) := step;
    var s' := Apply(cfg, handlers, s, step);
    LogIsGood(cfg, s, c);
    ProvidersGood(cfg, s, i);
    ServedContains(cfg, i, j);
    hide Served, ProviderGood, LogGood, Inv, PumpLeaves;
    PumpKeepsLog(s.logs[c], cfg[i].providers[j], cfg[i].principal, s.reactors[i].providers[j],
                 s.reactors[i].hlc, Served(cfg), s.logs[c], handlers(i, j));
    WorkIntoInv(cfg, s, s', c, i);
  }

  lemma FileOne(world: set<Leaf>, seen: set<Id>, recs: seq<Record>, bands: seq<(Hlc, Payload)>, leaf: Leaf)
    requires FiledGood(world, seen, recs, bands, leaf.root) && leaf in world && leaf.id !in seen
    requires leaf.Evidence? && leaf.sealed.body.EvidenceBody?
    ensures FiledGood(world, seen + {leaf.id}, recs + [RecordOf(leaf)],
                      bands + [(leaf.hlc, leaf.sealed.body.evidence)], leaf.root)
  {
    assert BackedBy(world, RecordOf(leaf), (leaf.hlc, leaf.sealed.body.evidence), leaf.root);
    hide BackedBy;
  }

  lemma AbsorbLeafGood(world: set<Leaf>, reach: set<Name>, box: Inbox, leaf: Leaf)
    requires InboxGood(world, box) && leaf in world
    ensures InboxGood(world, AbsorbLeaf(reach, box, leaf))
  {
    hide FiledGood, Filing;
    if InboxAccepts(reach, box, leaf) {
      var box' := AbsorbLeaf(reach, box, leaf);
      forall id | id in box'.seen ensures Filing(box'.prov, id) {
        FilingAfter(box.prov, leaf.root, RecordOf(leaf), id);
      }
      if leaf.root !in box.prov { NothingFiled(world, box.seen, leaf.root); }
      FileOne(world, box.seen, if leaf.root in box.prov then box.prov[leaf.root] else [],
              if leaf.root in box.prov then box.bands[leaf.root] else [], leaf);
      hide InboxAccepts, RecordOf;
      forall root | root in box'.prov ensures FiledGood(world, box'.seen, box'.prov[root], box'.bands[root], root) {
        if root != leaf.root {
          FiledGoodMonotone(world, {}, box.seen, box'.seen, box.prov[root], box.bands[root], root);
          assert world + {} == world;
        }
      }
    }
  }

  lemma FilingAfter(prov: map<Id, seq<Record>>, root: Id, rec: Record, id: Id)
    requires Filing(prov, id) || id == rec.evidenceId
    ensures Filing(Filed(prov, root, rec), id)
  {
    var prov' := Filed(prov, root, rec);
    if id == rec.evidenceId {
      assert prov'[root][|prov'[root]| - 1] == rec;
    } else {
      var r, k :| r in prov && 0 <= k < |prov[r]| && prov[r][k].evidenceId == id;
      assert prov'[r][k] == prov[r][k];
    }
  }

  lemma NothingFiled(world: set<Leaf>, seen: set<Id>, root: Id)
    ensures FiledGood(world, seen, [], [], root)
  {}

  lemma {:induction false} AbsorbLeavesGood(world: set<Leaf>, reach: set<Name>, box: Inbox, polled: seq<Leaf>)
    requires InboxGood(world, box) && Elements(world, polled)
    ensures InboxGood(world, AbsorbLeaves(reach, box, polled))
  {
    hide InboxGood, AbsorbLeaf;
    if polled != [] {
      AbsorbLeavesGood(world, reach, box, polled[..|polled| - 1]);
      AbsorbLeafGood(world, reach, AbsorbLeaves(reach, box, polled[..|polled| - 1]), polled[|polled| - 1]);
    }
  }

  lemma AbsorbKeepsInv(cfg: Config, handlers: Handlers, s: State, step: Step)
    requires Inv(cfg, s) && step.Absorb? && Enabled(cfg, s, step)
    ensures Inv(cfg, Apply(cfg, handlers, s, step))
  {
    var Absorb(c, i) := step;
    var s' := Apply(cfg, handlers, s, step);
    WorldContains(s.logs, c);
    hide World, LogGood, InboxGood, ProviderGood;
    AbsorbLeavesGood(World(s.logs), cfg[i].reach, s.reactors[i].inbox, s.logs[c]);
    SameClocksStamp(cfg, s, s');
  }

  lemma SameClocksStamp(cfg: Config, s: State, s': State)
    requires WellShaped(cfg, s) && WellShaped(cfg, s') && AllStamped(cfg, s) && World(s'.logs) == World(s.logs)
    requires forall i :: 0 <= i < |cfg| ==> s'.reactors[i].hlc == s.reactors[i].hlc
    ensures AllStamped(cfg, s')
  {
    hide World;
    forall l | l in World(s'.logs) ensures exists k :: 0 <= k < |cfg| && StampedBy(cfg, s', k, l) {
      var k :| 0 <= k < |cfg| && StampedBy(cfg, s, k, l);
      assert StampedBy(cfg, s', k, l);
    }
  }

  lemma {:induction false} StoreAllFacts(log: Log, leaves: seq<Leaf>)
    requires UniqueIds(LeafId, log)
    ensures var all := StoreAll(log, leaves);
            && UniqueIds(LeafId, all) && log <= all
            && (forall x :: x in all ==> x in log || x in leaves)
            && (forall x :: x in leaves ==> HasId(LeafId, all, x.id))
    decreases |leaves|
  {
    if leaves != [] {
      var log1 := Stored(LeafId, log, leaves[0]);
      StoredKeepsUnique(LeafId, log, leaves[0]);
      StoreAllFacts(log1, leaves[1..]);
      var all := StoreAll(log, leaves);
      assert leaves == [leaves[0]] + leaves[1..];
      hide UniqueIds, StoreAll;
      assert forall x :: x in log1 ==> x in log || x == leaves[0];
      assert HasId(LeafId, all, leaves[0].id) by {
        var k :| 0 <= k < |log1| && LeafId(log1[k]) == leaves[0].id;
        assert all[k] == log1[k];
      }
    }
  }

  /** Anti-entropy into one log: it becomes the union, and stays good. */
  lemma MergedLogGood(into: Log, from: Log, missing: seq<Leaf>, served: set<Name>)
    requires LogGood(into, served) && LogGood(from, served) && Missing(from, into, missing)
    ensures LogGood(StoreAll(into, missing), served)
    ensures forall x :: x in StoreAll(into, missing) <==> x in into || x in from
  {
    var all := StoreAll(into, missing);
    StoreAllFacts(into, missing);
    forall x | x in into ensures x in all {}
    forall x | x in from ensures x in all {
      var k :| 0 <= k < |all| && LeafId(all[k]) == x.id by {
        if HasId(LeafId, into, x.id) {
          var k :| 0 <= k < |into| && LeafId(into[k]) == x.id;
          assert all[k] == into[k];
        }
      }
      assert all[k] in all;
      if all[k] in into {
        SameOnCarriers(into, from, served, all[k], x);
      } else {
        SameOnCarriers(from, from, served, all[k], x);
      }
    }
    hide LeafGood, UniqueIds;
    forall x | x in all ensures LeafGood(all, served, x) {
      if x in into {
        LeafGoodWithin(into, all, served, x);
      } else {
        LeafGoodWithin(from, all, served, x);
      }
    }
  }

  /** Reconciling two carriers leaves both with the union, and the union good. */
  lemma ReconcileMerges(cfg: Config, handlers: Handlers, s: State, step: Step)
    requires Inv(cfg, s) && step.Reconcile? && Enabled(cfg, s, step)
    ensures var s' := Apply(cfg, handlers, s, step);
            && LogGood(s'.logs[step.a], Served(cfg)) && LogGood(s'.logs[step.b], Served(cfg))
            && World(s'.logs) == World(s.logs)
            && forall x :: (x in s'.logs[step.a] <==> x in s'.logs[step.b])
                           && (x in s'.logs[step.a] <==> x in s.logs[step.a] || x in s.logs[step.b])
  {
    var Reconcile(a, b, fromA, fromB) := step;
    var s' := Apply(cfg, handlers, s, step);
    hide Missing, StoreAll, LogGood, World, Served, AllStamped, InboxGood, ProviderGood;
    MergedLogGood(s.logs[a], s.logs[b], fromB, Served(cfg));
    MergedLogGood(s.logs[b], s.logs[a], fromA, Served(cfg));
    assert s'.logs[a] == StoreAll(s.logs[a], fromB) && s'.logs[b] == StoreAll(s.logs[b], fromA);
    WorldMerged(s.logs, s'.logs, a, b);
  }

  lemma ReconcileKeepsInv(cfg: Config, handlers: Handlers, s: State, step: Step)
    requires Inv(cfg, s) && step.Reconcile? && Enabled(cfg, s, step)
    ensures Inv(cfg, Apply(cfg, handlers, s, step))
  {
    ReconcileMerges(cfg, handlers, s, step);
    var s' := Apply(cfg, handlers, s, step);
    assert s'.reactors == s.reactors;
    hide World, LogGood, InboxGood, ProviderGood, Missing, StoreAll, Served;
    SameClocksStamp(cfg, s, s');
    forall c | 0 <= c < |s'.logs| ensures LogGood(s'.logs[c], Served(cfg)) {
      if c != step.a && c != step.b { assert s'.logs[c] == s.logs[c]; }
    }
  }

  lemma WorldMerged(logs: seq<Log>, logs': seq<Log>, a: nat, b: nat)
    requires |logs| == |logs'| && a < |logs| && b < |logs| && a != b
    requires logs' == logs[a := logs'[a]][b := logs'[b]]
    requires forall x :: x in logs'[a] <==> x in logs[a] || x in logs[b]
    requires forall x :: x in logs'[b] <==> x in logs[b] || x in logs[a]
    ensures World(logs') == World(logs)
  {
    forall l ensures l in World(logs') <==> l in World(logs) {
      if l in World(logs') {
        var d :| 0 <= d < |logs'| && l in logs'[d];
        if d != a && d != b { assert l in logs[d]; }
      }
      if l in World(logs) {
        var d :| 0 <= d < |logs| && l in logs[d];
        assert l in logs'[d];
      }
    }
  }

  lemma StepKeepsInv(cfg: Config, handlers: Handlers, s: State, step: Step)
    requires Inv(cfg, s) && Enabled(cfg, s, step)
    ensures Inv(cfg, Apply(cfg, handlers, s, step))
  {
    hide Inv, Enabled, Apply;
    match step
    case PlaceNeed(_, _, _, _, _) => PlaceNeedKeepsInv(cfg, handlers, s, step);
    case Pump(_, _, _) => PumpKeepsInv(cfg, handlers, s, step);
    case Absorb(_, _) => AbsorbKeepsInv(cfg, handlers, s, step);
    case Reconcile(_, _, _, _) => ReconcileKeepsInv(cfg, handlers, s, step);
  }

  lemma InitialInv(cfg: Config, s: State)
    requires Initial(cfg, s)
    ensures Inv(cfg, s)
  {}

  /** Every state of every run of honest steps satisfies the invariant. */
  lemma {:induction false} Safety(cfg: Config, handlers: Handlers, states: seq<State>, steps: seq<Step>, k: nat)
    requires IsRun(cfg, handlers, states, steps) && Initial(cfg, states[0])
    requires k < |states|
    ensures Inv(cfg, states[k])
  {
    hide Inv, Enabled, Apply, Initial;
    if k == 0 {
      InitialInv(cfg, states[0]);
    } else {
      Safety(cfg, handlers, states, steps, k - 1);
      StepKeepsInv(cfg, handlers, states[k - 1], steps[k - 1]);
    }
  }

  // ---- provenance: every answer leads back to the need that asked ----

  ghost predicate FreshNeed(f: Leaf) {
    f.Need? && f.derivedFrom.None? && f.root == f.id && f.path == [f.to]
  }

  /** The chain of a need: back to the fresh need its root names, through served capabilities only. */
  lemma {:induction false} TraceToRoot(log: Log, served: set<Name>, n: Leaf) returns (f: Leaf)
    requires LogGood(log, served) && n in log && n.Need?
    ensures f in log && FreshNeed(f) && f.id == n.root && n.path != [] && n.path[0] == f.to
    ensures forall k :: 0 <= k < |n.path| - 1 ==> n.path[k] in served
    decreases |n.path|
  {
    assert LeafGood(log, served, n);
    if n.derivedFrom.None? {
      f := n;
    } else {
      var m :| m in log && ParentOf(m, n) && m.to in served;
      f := TraceToRoot(log, served, m);
      assert LeafGood(log, served, m);
      forall k | 0 <= k < |n.path| - 1 ensures n.path[k] in served {
        assert n.path[k] == m.path[k];
      }
    }
  }

  /** Whatever an inbox filed under a handle was discharged, on some carrier, for a need on that
      carrier whose chain starts at the need the handle names. */
  lemma EvidenceAnswersHandle(cfg: Config, s: State, i: nat, handle: Id, k: nat) returns (c: nat, e: Leaf, m: Leaf, f: Leaf)
    requires Inv(cfg, s) && i < |cfg| && handle in s.reactors[i].inbox.prov && k < |s.reactors[i].inbox.prov[handle]|
    ensures c < |s.logs| && e in s.logs[c] && m in s.logs[c] && f in s.logs[c]
    ensures e.Evidence? && RecordOf(e) == s.reactors[i].inbox.prov[handle][k] && Answers(e, m)
    ensures FreshNeed(f) && f.id == handle && m.root == handle
  {
    var box := s.reactors[i].inbox;
    assert FiledGood(World(s.logs), box.seen, box.prov[handle], box.bands[handle], handle);
    assert BackedBy(World(s.logs), box.prov[handle][k], box.bands[handle][k], handle);
    e :| e in World(s.logs) && e.Evidence? && e.root == handle && RecordOf(e) == box.prov[handle][k];
    c :| 0 <= c < |s.logs| && e in s.logs[c];
    assert LeafGood(s.logs[c], Served(cfg), e);
    m :| m in s.logs[c] && Answers(e, m);
    f := TraceToRoot(s.logs[c], Served(cfg), m);
  }
}
