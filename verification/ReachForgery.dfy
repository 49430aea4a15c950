/** The reach protocol with a forger on the carriers: one who holds no key, but puts sealed bodies that
    are there already under envelopes of its own making. What the seals still guarantee, and which
    fields of an envelope they do not cover. */
module ReachForgery {
  import opened Carriers
  import opened Clock
  import opened Outcomes
  import opened Reach
  import opened ReachConvergence

  // ---- runs with a forger ----

  datatype Move = Honest(step: Step) | Forge(carrier: nat, leaf: Leaf)

  ghost predicate MoveEnabled(cfg: Config, s: State, move: Move) {
    match move
    case Honest(step) => Enabled(cfg, s, step)
    case Forge(c, leaf) => c < |s.logs| && exists m :: m in World(s.logs) && m.sealed == leaf.sealed
  }

  ghost function Moved(cfg: Config, handlers: Handlers, s: State, move: Move): (s': State)
    requires WellShaped(cfg, s) && MoveEnabled(cfg, s, move)
    ensures WellShaped(cfg, s') && |s'.logs| == |s.logs|
  {
    match move
    case Honest(step) => Apply(cfg, handlers, s, step)
    case Forge(c, leaf) => s.(logs := s.logs[c := Stored(LeafId, s.logs[c], leaf)])
  }

  ghost predicate IsForgedRun(cfg: Config, handlers: Handlers, states: seq<State>, moves: seq<Move>) {
    && |states| == |moves| + 1
    && (forall k :: 0 <= k < |states| ==> WellShaped(cfg, states[k]))
    && forall k :: 0 <= k < |moves| ==>
         MoveEnabled(cfg, states[k], moves[k]) && states[k + 1] == Moved(cfg, handlers, states[k], moves[k])
  }

  // ---- what the seals keep ----

  /** The fields of a need's envelope that its seal binds agree with the seal. */
  predicate SealedNeed(n: Leaf) {
    && n.Need? && n.sealed.key == n.to && n.sealed.aad == n.to && n.sealed.body.NeedBody?
    && n.sealed.body.cap == n.cap && n.cap == n.to && n.sealed.body.derivedFrom == n.derivedFrom
  }

  predicate SealedEvidence(e: Leaf) {
    && e.Evidence? && e.sealed.key == e.to && e.sealed.aad == e.to && e.sealed.body.EvidenceBody?
    && e.sealed.body.inReplyTo == e.inReplyTo && e.sealed.body.root == e.root
  }

  /** Somewhere there is a need of this id, to a served capability, whose seal is its own. */
  ghost predicate Asked(world: set<Leaf>, served: set<Name>, id: Id) {
    exists n :: n in world && SealedNeed(n) && n.id == id && n.to in served
  }

  ghost predicate AskedUnder(world: set<Leaf>, served: set<Name>, id: Id, root: Id) {
    exists n :: n in world && SealedNeed(n) && n.id == id && n.root == root && n.to in served
  }

  /** A sealed body names its own key; what it derives from was asked, and what it replies to was asked
      under its root. */
  ghost predicate SealGood(world: set<Leaf>, served: set<Name>, b: Sealed) {
    && b.key == b.aad
    && match b.body
       case NeedBody(derivedFrom, cap, _) => cap == b.key && (derivedFrom.Some? ==> Asked(world, served, derivedFrom.value))
       case EvidenceBody(inReplyTo, root, _) => AskedUnder(world, served, inReplyTo, root)
  }

  ghost predicate SealsGood(world: set<Leaf>, served: set<Name>) {
    forall l :: l in world ==> SealGood(world, served, l.sealed)
  }

  ghost predicate SealedBacks(world: set<Leaf>, rec: Record, band: (Hlc, Payload), root: Id) {
    exists e :: e in world && SealedEvidence(e) && e.root == root
                && RecordOf(e) == rec && band == (e.hlc, e.sealed.body.evidence)
  }

  ghost predicate FiledUnder(world: set<Leaf>, recs: seq<Record>, bands: seq<(Hlc, Payload)>, root: Id) {
    |bands| == |recs| && forall k :: 0 <= k < |recs| ==> SealedBacks(world, recs[k], bands[k], root)
  }

  ghost predicate BoxGood(world: set<Leaf>, box: Inbox) {
    && box.bands.Keys == box.prov.Keys
    && forall root :: root in box.prov ==> FiledUnder(world, box.prov[root], box.bands[root], root)
  }

  ghost predicate Contained(cfg: Config, s: State) {
    && WellShaped(cfg, s)
    && SealsGood(World(s.logs), Served(cfg))
    && (forall i :: 0 <= i < |cfg| ==> BoxGood(World(s.logs), s.reactors[i].inbox))
    && forall i, j :: 0 <= i < |cfg| && 0 <= j < |cfg[i].providers| ==> ProviderGood(s.reactors[i].providers[j])
  }

  // ---- larger worlds ----

  lemma SealGoodMonotone(world: set<Leaf>, more: set<Leaf>, served: set<Name>, b: Sealed)
    requires SealGood(world, served, b) && world <= more
    ensures SealGood(more, served, b)
  {
    hide SealedNeed;
  }

  lemma BoxGoodMonotone(world: set<Leaf>, more: set<Leaf>, box: Inbox)
    requires BoxGood(world, box) && world <= more
    ensures BoxGood(more, box)
  {
    hide SealedEvidence, RecordOf;
    forall root | root in box.prov ensures FiledUnder(more, box.prov[root], box.bands[root], root) {
      forall k | 0 <= k < |box.prov[root]| ensures SealedBacks(more, box.prov[root][k], box.bands[root][k], root) {
        assert SealedBacks(world, box.prov[root][k], box.bands[root][k], root);
      }
    }
  }

  /** Leaves with good seals may join a world. */
  lemma JoinWorld(world: set<Leaf>, more: set<Leaf>, served: set<Name>)
    requires SealsGood(world, served) && world <= more
    requires forall l :: l in more && l !in world ==> SealGood(more, served, l.sealed)
    ensures SealsGood(more, served)
  {
    hide SealGood;
    forall l | l in world ensures SealGood(more, served, l.sealed) { SealGoodMonotone(world, more, served, l.sealed); }
  }

  // ---- a provider at work ----

  /** What a provider accepts is addressed, capability and parent, as it was sealed. */
  lemma AcceptedIsSealed(world: set<Leaf>, served: set<Name>, c: ProviderConfig, p: ProviderState, n: Leaf)
    requires SealGood(world, served, n.sealed) && Accepts(c, p, n)
    ensures SealedNeed(n) && n.to == c.capability
    ensures n.derivedFrom.Some? ==> Asked(world, served, n.derivedFrom.value)
  {
    hide Asked, AskedUnder;
  }

  lemma EmittedSealsGood(world: set<Leaf>, served: set<Name>, c: ProviderConfig, node: Name, h: Hlc, n: Leaf, reply: Reply, x: Leaf)
    requires n in world && SealedNeed(n) && n.to in served && x in Emitted(c, node, h, n, reply).1
    ensures SealGood(world, served, x.sealed)
  {
    assert Asked(world, served, n.id) && AskedUnder(world, served, n.id, n.root);
    hide Asked, AskedUnder;
  }

  /** The pump's log, seals good among the leaves of the world and of the log. */
  lemma {:induction false} PumpKeepsSeals(world: set<Leaf>, served: set<Name>, c: ProviderConfig, node: Name, p: ProviderState,
                                          h: Hlc, log: Log, polled: seq<Leaf>, handler: Handler)
    requires SealsGood(world + Members(log), served) && c.capability in served && ProviderGood(p)
    requires forall l :: l in polled ==> l in world
    ensures var (p', _, log') := PumpLeaves(c, node, p, h, log, polled, handler);
            log <= log' && SealsGood(world + Members(log'), served) && ProviderGood(p')
    decreases |polled|
  {
    hide SealsGood, OnLeaf, StoreAll, ProviderGood;
    if polled != [] {
      var (p1, h1, out) := OnLeaf(c, node, p, h, polled[0], handler);
      OnLeafKeepsProvider(c, node, p, h, polled[0], handler);
      OnLeafKeepsSeals(world, served, c, node, p, h, log, polled[0], handler);
      PumpKeepsSeals(world, served, c, node, p1, h1, StoreAll(log, out), polled[1..], handler);
    }
  }

  lemma OnLeafKeepsSeals(world: set<Leaf>, served: set<Name>, c: ProviderConfig, node: Name, p: ProviderState, h: Hlc,
                         log: Log, leaf: Leaf, handler: Handler)
    requires SealsGood(world + Members(log), served) && c.capability in served && leaf in world
    ensures var (_, _, out) := OnLeaf(c, node, p, h, leaf, handler);
            log <= StoreAll(log, out) && SealsGood(world + Members(StoreAll(log, out)), served)
  {
    var (_, _, out) := OnLeaf(c, node, p, h, leaf, handler);
    StoreAllNew(log, out);
    StoreAllGrows(log, out);
    var before, after := world + Members(log), world + Members(StoreAll(log, out));
    hide SealGood, Accepts, Emitted, StoreAll;
    forall l | l in after && l !in before ensures SealGood(after, served, l.sealed) {
      SealsAt(before, served, leaf);
      AcceptedIsSealed(before, served, c, p, leaf);
      EmittedSealsGood(after, served, c, node, h, leaf, handler(leaf.id, leaf.sealed.body.need), l);
    }
    JoinWorld(before, after, served);
  }

  lemma SealsAt(world: set<Leaf>, served: set<Name>, l: Leaf)
    requires SealsGood(world, served) && l in world
    ensures SealGood(world, served, l.sealed)
  {
    hide SealGood;
  }

  lemma {:induction false} StoreAllGrows(log: Log, leaves: seq<Leaf>)
    ensures log <= StoreAll(log, leaves)
    decreases |leaves|
  {
    if leaves != [] { StoreAllGrows(Stored(LeafId, log, leaves[0]), leaves[1..]); }
  }

  // ---- every move ----

  /** A carrier has grown; what it gained has good seals. */
  lemma GrownWorld(cfg: Config, s: State, s': State, c: nat)
    requires Contained(cfg, s) && WellShaped(cfg, s') && |s'.logs| == |s.logs| && c < |s.logs|
    requires s'.logs == s.logs[c := s'.logs[c]] && s.logs[c] <= s'.logs[c]
    requires SealsGood(World(s.logs) + Members(s'.logs[c]), Served(cfg))
    requires forall i :: 0 <= i < |cfg| ==> s'.reactors[i].inbox == s.reactors[i].inbox
    requires forall i, j :: 0 <= i < |cfg| && 0 <= j < |cfg[i].providers| ==> ProviderGood(s'.reactors[i].providers[j])
    ensures Contained(cfg, s')
  {
    WorldUpdated(s.logs, c, s'.logs[c]);
    hide World, SealsGood, BoxGood, ProviderGood, Served, Members;
    forall i | 0 <= i < |cfg| ensures BoxGood(World(s'.logs), s'.reactors[i].inbox) {
      BoxGoodMonotone(World(s.logs), World(s'.logs), s.reactors[i].inbox);
    }
  }

  lemma ContainedParts(cfg: Config, s: State)
    requires Contained(cfg, s)
    ensures WellShaped(cfg, s) && SealsGood(World(s.logs), Served(cfg))
    ensures forall i :: 0 <= i < |cfg| ==> BoxGood(World(s.logs), s.reactors[i].inbox)
    ensures forall i, j :: 0 <= i < |cfg| && 0 <= j < |cfg[i].providers| ==> ProviderGood(s.reactors[i].providers[j])
  {
    hide World, SealsGood, BoxGood, ProviderGood, Served;
  }

  /** One more leaf, whose seal is good, on a carrier. */
  lemma PutKeepsSeals(world: set<Leaf>, served: set<Name>, log: Log, leaf: Leaf)
    requires SealsGood(world, served) && Members(log) <= world && SealGood(world, served, leaf.sealed)
    ensures log <= Stored(LeafId, log, leaf) && SealsGood(world + Members(Stored(LeafId, log, leaf)), served)
  {
    var more := world + Members(Stored(LeafId, log, leaf));
    hide SealGood;
    forall l | l in more && l !in world ensures SealGood(more, served, l.sealed) {
      SealGoodMonotone(world, more, served, leaf.sealed);
    }
    JoinWorld(world, more, served);
  }

  lemma LogInWorld(logs: seq<Log>, c: nat)
    requires c < |logs|
    ensures Members(logs[c]) <= World(logs) && World(logs) + Members(logs[c]) == World(logs)
  {
    WorldContains(logs, c);
    hide World;
  }

  lemma PlaceNeedContained(cfg: Config, handlers: Handlers, s: State, step: Step)
    requires Contained(cfg, s) && step.PlaceNeed? && Enabled(cfg, s, step)
    ensures Contained(cfg, Apply(cfg, handlers, s, step))
  {
    var PlaceNeed(c, i, to, need, draw) := step;
    var leaf := NeedArtifact(to, cfg[i].principal, Tick(s.reactors[i].hlc, draw.wall), draw.nonce, need, None, None, [to]);
    ContainedParts(cfg, s);
    LogInWorld(s.logs, c);
    assert SealGood(World(s.logs), Served(cfg), leaf.sealed);
    hide Contained, SealGood, World, SealsGood, Members, Served, Stored, ProviderGood, BoxGood;
    PutKeepsSeals(World(s.logs), Served(cfg), s.logs[c], leaf);
    GrownWorld(cfg, s, Apply(cfg, handlers, s, step), c);
  }

  lemma PumpContained(cfg: Config, handlers: Handlers, s: State, step: Step)
    requires Contained(cfg, s) && step.Pump? && Enabled(cfg, s, step)
    ensures Contained(cfg, Apply(cfg, handlers, s, step))
  {
    var Pump(c, i, j) := step;
    ContainedParts(cfg, s);
    LogInWorld(s.logs, c);
    WorldContains(s.logs, c);
    ServedContains(cfg, i, j);
    hide Contained, World, SealsGood, Members, Served, PumpLeaves, ProviderGood, BoxGood;
    PumpKeepsSeals(World(s.logs), Served(cfg), cfg[i].providers[j], cfg[i].principal, s.reactors[i].providers[j],
                   s.reactors[i].hlc, s.logs[c], s.logs[c], handlers(i, j));
    GrownWorld(cfg, s, Apply(cfg, handlers, s, step), c);
  }

  lemma ForgeContained(cfg: Config, handlers: Handlers, s: State, c: nat, leaf: Leaf)
    requires Contained(cfg, s) && MoveEnabled(cfg, s, Forge(c, leaf))
    ensures Contained(cfg, Moved(cfg, handlers, s, Forge(c, leaf)))
  {
    ContainedParts(cfg, s);
    LogInWorld(s.logs, c);
    hide Contained, World, SealsGood, SealGood, Members, Served, Stored, ProviderGood, BoxGood;
    var m :| m in World(s.logs) && m.sealed == leaf.sealed;
    SealsAt(World(s.logs), Served(cfg), m);
    PutKeepsSeals(World(s.logs), Served(cfg), s.logs[c], leaf);
    GrownWorld(cfg, s, Moved(cfg, handlers, s, Forge(c, leaf)), c);
  }

  /** What an inbox accepts is, target, need and root, as it was sealed. */
  lemma AbsorbedIsSealed(world: set<Leaf>, served: set<Name>, reach: set<Name>, box: Inbox, e: Leaf)
    requires SealGood(world, served, e.sealed) && InboxAccepts(reach, box, e)
    ensures SealedEvidence(e) && AskedUnder(world, served, e.inReplyTo, e.root)
  {
    hide Asked, AskedUnder;
  }

  lemma AbsorbOneContained(world: set<Leaf>, served: set<Name>, reach: set<Name>, box: Inbox, leaf: Leaf)
    requires SealsGood(world, served) && BoxGood(world, box) && leaf in world
    ensures BoxGood(world, AbsorbLeaf(reach, box, leaf))
  {
    hide SealsGood, SealGood, SealedBacks, RecordOf;
    if InboxAccepts(reach, box, leaf) {
      SealsAt(world, served, leaf);
      AbsorbedIsSealed(world, served, reach, box, leaf);
      assert SealedBacks(world, RecordOf(leaf), (leaf.hlc, leaf.sealed.body.evidence), leaf.root) by {
        Backs(world, leaf);
      }
    }
  }

  lemma Backs(world: set<Leaf>, e: Leaf)
    requires e in world && SealedEvidence(e)
    ensures SealedBacks(world, RecordOf(e), (e.hlc, e.sealed.body.evidence), e.root)
  {}

  lemma {:induction false} AbsorbAllContained(world: set<Leaf>, served: set<Name>, reach: set<Name>, box: Inbox, polled: seq<Leaf>)
    requires SealsGood(world, served) && BoxGood(world, box) && forall l :: l in polled ==> l in world
    ensures BoxGood(world, AbsorbLeaves(reach, box, polled))
  {
    hide SealsGood, BoxGood, AbsorbLeaf;
    if polled != [] {
      AbsorbAllContained(world, served, reach, box, polled[..|polled| - 1]);
      AbsorbOneContained(world, served, reach, AbsorbLeaves(reach, box, polled[..|polled| - 1]), polled[|polled| - 1]);
    }
  }

  lemma AbsorbContained(cfg: Config, handlers: Handlers, s: State, step: Step)
    requires Contained(cfg, s) && step.Absorb? && Enabled(cfg, s, step)
    ensures Contained(cfg, Apply(cfg, handlers, s, step))
  {
    var Absorb(c, i) := step;
    WorldContains(s.logs, c);
    hide World, SealsGood, BoxGood, Served, ProviderGood;
    AbsorbAllContained(World(s.logs), Served(cfg), cfg[i].reach, s.reactors[i].inbox, s.logs[c]);
  }

  lemma ReconcileContained(cfg: Config, handlers: Handlers, s: State, step: Step)
    requires Contained(cfg, s) && step.Reconcile? && Enabled(cfg, s, step)
    ensures Contained(cfg, Apply(cfg, handlers, s, step))
  {
    var Reconcile(a, b, fromA, fromB) := step;
    var s' := Apply(cfg, handlers, s, step);
    StoreAllNew(s.logs[a], fromB);
    StoreAllNew(s.logs[b], fromA);
    StoreAllGrows(s.logs[a], fromB);
    StoreAllGrows(s.logs[b], fromA);
    assert s'.logs[a] == StoreAll(s.logs[a], fromB) && s'.logs[b] == StoreAll(s.logs[b], fromA);
    hide StoreAll, Served, SealsGood, BoxGood, ProviderGood;
    SameWorld(s.logs, s'.logs, a, b);
  }

  lemma SameWorld(logs: seq<Log>, logs': seq<Log>, a: nat, b: nat)
    requires |logs| == |logs'| && a < |logs| && b < |logs| && a != b
    requires forall d :: 0 <= d < |logs| && d != a && d != b ==> logs'[d] == logs[d]
    requires logs[a] <= logs'[a] && logs[b] <= logs'[b]
    requires forall x :: x in logs'[a] || x in logs'[b] ==> x in logs[a] || x in logs[b]
    ensures World(logs') == World(logs)
  {
    forall l ensures l in World(logs') <==> l in World(logs) {
      if l in World(logs') {
        var d :| 0 <= d < |logs'| && l in logs'[d];
        if d != a && d != b { assert l in logs[d]; }
      }
      if l in World(logs) {
        var d :| 0 <= d < |logs| && l in logs[d];
        assert l in logs'[d];
      }
    }
  }

  lemma MoveContained(cfg: Config, handlers: Handlers, s: State, move: Move)
    requires Contained(cfg, s) && MoveEnabled(cfg, s, move)
    ensures Contained(cfg, Moved(cfg, handlers, s, move))
  {
    hide Contained, Enabled, Apply;
    match move
    case Forge(c, leaf) => ForgeContained(cfg, handlers, s, c, leaf);
    case Honest(step) =>
      match step
      case PlaceNeed(_, _, _, _, _) => PlaceNeedContained(cfg, handlers, s, step);
      case Pump(_, _, _) => PumpContained(cfg, handlers, s, step);
      case Absorb(_, _) => AbsorbContained(cfg, handlers, s, step);
      case Reconcile(_, _, _, _) => ReconcileContained(cfg, handlers, s, step);
  }

  /** In every state of every run with a forger: the seals of all leaves are good, every filed band is that
      of evidence whose seal binds its target, the need it replies to and its root, and no provider has
      handled an id twice. */
  lemma {:induction false} ForgeryContained(cfg: Config, handlers: Handlers, states: seq<State>, moves: seq<Move>, k: nat)
    requires IsForgedRun(cfg, handlers, states, moves) && Initial(cfg, states[0]) && k < |states|
    ensures Contained(cfg, states[k])
  {
    hide Contained, MoveEnabled, Moved, Initial;
    if k == 0 {
      StartContained(cfg, states[0]);
    } else {
      ForgeryContained(cfg, handlers, states, moves, k - 1);
      MoveContained(cfg, handlers, states[k - 1], moves[k - 1]);
    }
  }

  lemma StartContained(cfg: Config, s: State)
    requires Initial(cfg, s)
    ensures Contained(cfg, s)
  {}

  /** Whatever an inbox filed under a root, forger or not: the seal holds the band, the need it replies to
      and the root; and a need of that id and root, sealed for a served capability as its envelope says,
      is on a carrier. */
  lemma FiledWasAsked(cfg: Config, s: State, i: nat, root: Id, k: nat) returns (e: Leaf, n: Leaf)
    requires Contained(cfg, s) && i < |cfg| && root in s.reactors[i].inbox.prov && k < |s.reactors[i].inbox.prov[root]|
    ensures e in World(s.logs) && SealedEvidence(e) && e.root == root && RecordOf(e) == s.reactors[i].inbox.prov[root][k]
    ensures k < |s.reactors[i].inbox.bands[root]| && s.reactors[i].inbox.bands[root][k] == (e.hlc, e.sealed.body.evidence)
    ensures n in World(s.logs) && SealedNeed(n) && n.id == e.inReplyTo && n.root == root && n.to in Served(cfg)
  {
    ContainedParts(cfg, s);
    hide Contained, World, SealsGood, Served, RecordOf;
    var box := s.reactors[i].inbox;
    assert FiledUnder(World(s.logs), box.prov[root], box.bands[root], root);
    assert SealedBacks(World(s.logs), box.prov[root][k], box.bands[root][k], root);
    e :| e in World(s.logs) && SealedEvidence(e) && e.root == root && RecordOf(e) == box.prov[root][k]
         && box.bands[root][k] == (e.hlc, e.sealed.body.evidence);
    SealsAt(World(s.logs), Served(cfg), e);
    n :| n in World(s.logs) && SealedNeed(n) && n.id == e.inReplyTo && n.root == root && n.to in Served(cfg);
  }

  /** Whatever a provider accepts, forger or not: payload, target, capability and parent are as sealed, and
      the parent was asked of a served capability. */
  lemma AcceptedWasSealed(cfg: Config, s: State, i: nat, j: nat, n: Leaf)
    requires Contained(cfg, s) && i < |cfg| && j < |cfg[i].providers| && n in World(s.logs)
    requires Accepts(cfg[i].providers[j], s.reactors[i].providers[j], n)
    ensures SealedNeed(n) && n.to == cfg[i].providers[j].capability
    ensures n.derivedFrom.Some? ==> Asked(World(s.logs), Served(cfg), n.derivedFrom.value)
  {
    ContainedParts(cfg, s);
    hide Contained, World, SealsGood, SealGood, Served, Accepts;
    SealsAt(World(s.logs), Served(cfg), n);
    AcceptedIsSealed(World(s.logs), Served(cfg), cfg[i].providers[j], s.reactors[i].providers[j], n);
  }

  // ---- which fields the seals bind ----

  /** A copied need is accepted exactly when its target, capability and parent are copied too and its id is
      new: id, root, path, origin and stamp are the forger's to choose. */
  lemma NeedFieldsBound(c: ProviderConfig, p: ProviderState, n: Leaf, f: Leaf)
    requires Accepts(c, p, n) && f.Need? && f.sealed == n.sealed
    ensures Accepts(c, p, f) <==> f.to == n.to && f.cap == n.cap && f.derivedFrom == n.derivedFrom && f.id !in p.seen
  {}

  /** Copied evidence is filed exactly when its target, the need it replies to and its root are copied too
      and its id is new: id, origin, capability and stamp are the forger's to choose. */
  lemma EvidenceFieldsBound(reach: set<Name>, box: Inbox, e: Leaf, f: Leaf)
    requires InboxAccepts(reach, box, e) && f.Evidence? && f.sealed == e.sealed
    ensures InboxAccepts(reach, box, f) <==>
            f.to == e.to && f.inReplyTo == e.inReplyTo && f.root == e.root && f.id !in box.seen
  {}

  /** So a need copied under a root of the forger's choice is answered under that root: its band reaches
      every inbox on the ground, filed under the forged handle. */
  lemma ForgedRootIsFiled(c: ProviderConfig, node: Name, p: ProviderState, h: Hlc, n: Leaf, f: Leaf, handler: Handler,
                          reach: set<Name>, box: Inbox)
    requires Accepts(c, p, n) && f.Need? && f == n.(id := f.id, root := f.root, path := f.path, origin := f.origin, hlc := f.hlc)
    requires f.id !in p.seen && handler(f.id, n.sealed.body.need).absorbed.Some? && c.ground in reach
    ensures var out := OnLeaf(c, node, p, h, f, handler).2;
            && out != [] && out[0].Evidence? && out[0].root == f.root
            && (out[0].id !in box.seen ==>
                  var box' := AbsorbLeaf(reach, box, out[0]);
                  f.root in box'.bands && box'.bands[f.root] != []
                  && box'.bands[f.root][|box'.bands[f.root]| - 1].1 == handler(f.id, n.sealed.body.need).absorbed.value)
  {
    NeedFieldsBound(c, p, n, f);
  }
}
