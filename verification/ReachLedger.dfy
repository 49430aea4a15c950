/** What an inbox holds at rest on one carrier: for every need handled with a band, its evidence, and no
    more of it than there were handlings. */
module ReachLedger {
  import opened Carriers
  import opened Clock
  import opened Outcomes
  import opened Reach
  import opened ReachConvergence
  import opened ReachLiveness

  // ---- evidence and handlings ----

  /** The evidence on the log that answers a need onto one of these grounds. */
  ghost function Evidences(log: Log, grounds: set<Name>, need: Id): set<Leaf> {
    set e | e in log && e.Evidence? && e.inReplyTo == need && e.to in grounds
  }

  /** The provider handled the need and absorbed a band. */
  predicate AbsorbedBand(p: ProviderState, need: Id) {
    need in p.handled && p.handled[need].Some?
  }

  /** The providers, as places in the configuration, that handled a need with a band for these grounds. */
  ghost function Handlings(cfg: Config, s: State, grounds: set<Name>, need: Id): set<(nat, nat)>
    requires WellShaped(cfg, s)
  {
    set a: nat, j: nat | a < |cfg| && j < |cfg[a].providers| && Handles(cfg, s, grounds, need, a, j) :: (a, j)
  }

  predicate Handles(cfg: Config, s: State, grounds: set<Name>, need: Id, a: nat, j: nat)
    requires WellShaped(cfg, s) && a < |cfg| && j < |cfg[a].providers|
  {
    cfg[a].providers[j].ground in grounds && AbsorbedBand(s.reactors[a].providers[j], need)
  }

  /** The evidence of this band, for this need, on this ground. */
  predicate IsBand(e: Leaf, need: Id, ground: Name, band: Payload) {
    e.Evidence? && e.inReplyTo == need && e.to == ground && e.sealed.body.EvidenceBody? && e.sealed.body.evidence == band
  }

  ghost predicate BandFiled(log: Log, need: Id, ground: Name, band: Payload) {
    exists e :: e in log && IsBand(e, need, ground, band)
  }

  /** Every band a provider absorbed was of a need addressed to it, and is on the carrier in evidence for
      that need. */
  ghost predicate BandsFiled(log: Log, c: ProviderConfig, p: ProviderState) {
    forall need :: AbsorbedBand(p, need) ==>
      need.to == c.capability && BandFiled(log, need, c.ground, p.handled[need].value)
  }

  /** There is no more evidence for a need than providers that absorbed a band of it. */
  ghost predicate Tallied(cfg: Config, s: State, grounds: set<Name>, need: Id)
    requires WellShaped(cfg, s) && |s.logs| == 1
  {
    |Evidences(s.logs[0], grounds, need)| <= |Handlings(cfg, s, grounds, need)|
  }

  /** Every id an inbox has seen names a ground that its light-cone reaches. */
  predicate InReach(rc: ReactorConfig, box: Inbox) {
    forall id :: id in box.seen ==> id.to in rc.reach
  }

  ghost predicate Ledger(cfg: Config, s: State)
    requires WellShaped(cfg, s) && |s.logs| == 1
  {
    && (forall a, j :: 0 <= a < |cfg| && 0 <= j < |cfg[a].providers| ==>
          BandsFiled(s.logs[0], cfg[a].providers[j], s.reactors[a].providers[j]))
    && (forall i :: 0 <= i < |cfg| ==> InReach(cfg[i], s.reactors[i].inbox))
    && forall grounds, need :: Tallied(cfg, s, grounds, need)
  }

  // ---- one leaf ----

  lemma BandFiledMonotone(log: Log, log': Log, need: Id, ground: Name, band: Payload)
    requires BandFiled(log, need, ground, band) && log <= log'
    ensures BandFiled(log', need, ground, band)
  {
    hide IsBand;
  }

  lemma HandledIsFiled(log: Log, c: ProviderConfig, node: Name, h: Hlc, served: set<Name>, n: Leaf, reply: Reply)
    requires LogGood(log, served) && n in log && n.Need? && n.to == c.capability && c.capability in served
    requires reply.absorbed.Some?
    ensures BandFiled(StoreAll(log, Emitted(c, node, h, n, reply).1), n.id, c.ground, reply.absorbed.value)
  {
    HandleKeepsLog(log, c, node, h, served, n, reply);
    var out := Emitted(c, node, h, n, reply).1;
    hide LogGood, StoreAll;
    assert IsBand(out[0], n.id, c.ground, reply.absorbed.value) && out[0] in out;
  }

  lemma AddressOfLeaf(log: Log, served: set<Name>, leaf: Leaf)
    requires LogGood(log, served) && leaf in log
    ensures leaf.id.to == leaf.to
  {
    assert LeafGood(log, served, leaf);
  }

  /** One polled leaf keeps the absorbed bands on the carrier. */
  lemma OnLeafFiles(log: Log, c: ProviderConfig, node: Name, p: ProviderState, h: Hlc, served: set<Name>, leaf: Leaf,
                    handler: Handler)
    requires LogGood(log, served) && leaf in log && c.capability in served
    requires p.handled.Keys == p.seen && BandsFiled(log, c, p)
    ensures var (p', h', out) := OnLeaf(c, node, p, h, leaf, handler);
            var log' := StoreAll(log, out);
            && log <= log' && LogGood(log', served) && p'.handled.Keys == p'.seen && BandsFiled(log', c, p')
  {
    hide LogGood, Extends, Emitted, StoreAll, BandFiled;
    OnLeafKeepsLog(log, c, node, p, h, served, leaf, handler);
    var (p', h', out) := OnLeaf(c, node, p, h, leaf, handler);
    ExtendsGood(log, node, h, h', served, out);
    var log' := StoreAll(log, out);
    forall need | AbsorbedBand(p', need)
      ensures need.to == c.capability && BandFiled(log', need, c.ground, p'.handled[need].value)
    {
      if need in p.seen {
        BandFiledMonotone(log, log', need, c.ground, p'.handled[need].value);
      } else {
        AddressOfLeaf(log, served, leaf);
        HandledIsFiled(log, c, node, h, served, leaf, handler(leaf.id, leaf.sealed.body.need));
      }
    }
  }

  /** What the one provider at work adds to the count of handlings. */
  predicate Counts(c: ProviderConfig, p: ProviderState, grounds: set<Name>, need: Id) {
    c.ground in grounds && AbsorbedBand(p, need)
  }

  lemma OnlyOneMore<T>(xs: set<T>, ys: set<T>, y: T)
    requires xs <= ys + {y}
    ensures |xs| <= |ys| + 1
  {
    assert |xs - {y}| <= |ys| by { SubsetSize(xs - {y}, ys); }
    if y in xs { assert xs == (xs - {y}) + {y}; } else { assert xs == xs - {y}; }
  }

  lemma SubsetSize<T>(xs: set<T>, ys: set<T>)
    requires xs <= ys
    ensures |xs| <= |ys|
  {
    assert ys == xs + (ys - xs);
  }

  /** One polled leaf adds evidence for a need only together with a handling of it. */
  lemma OnLeafTallies(log: Log, c: ProviderConfig, node: Name, p: ProviderState, h: Hlc, leaf: Leaf, handler: Handler,
                      others: nat, grounds: set<Name>, need: Id)
    requires p.handled.Keys == p.seen
    requires |Evidences(log, grounds, need)| <= others + if Counts(c, p, grounds, need) then 1 else 0
    ensures var (p', _, out) := OnLeaf(c, node, p, h, leaf, handler);
            |Evidences(StoreAll(log, out), grounds, need)| <= others + if Counts(c, p', grounds, need) then 1 else 0
  {
    var (p', _, out) := OnLeaf(c, node, p, h, leaf, handler);
    StoreAllNew(log, out);
    var before, after := Evidences(log, grounds, need), Evidences(StoreAll(log, out), grounds, need);
    if Accepts(c, p, leaf) {
      var reply := handler(leaf.id, leaf.sealed.body.need);
      EmittedEvidence(c, node, h, leaf, reply);
      hide Accepts, Emitted, StoreAll;
      if reply.absorbed.Some? && leaf.id == need && c.ground in grounds {
        OnlyOneMore(after, before, out[0]);
      } else {
        SubsetSize(after, before);
      }
    } else {
      SubsetSize(after, before);
    }
  }

  /** Handling emits at most one piece of evidence, first, and for that need and ground. */
  lemma EmittedEvidence(c: ProviderConfig, node: Name, h: Hlc, leaf: Leaf, reply: Reply)
    requires leaf.Need?
    ensures var out := Emitted(c, node, h, leaf, reply).1;
            && (reply.absorbed.Some? ==> out != [])
            && forall e :: e in out && e.Evidence? ==>
                 reply.absorbed.Some? && e == out[0] && e.inReplyTo == leaf.id && e.to == c.ground
  {}

  // ---- one pump ----

  lemma {:induction false} PumpFiles(log: Log, c: ProviderConfig, node: Name, p: ProviderState, h: Hlc, served: set<Name>,
                                     polled: seq<Leaf>, handler: Handler)
    requires LogGood(log, served) && c.capability in served && forall l :: l in polled ==> l in log
    requires p.handled.Keys == p.seen && BandsFiled(log, c, p)
    ensures var (p', _, log') := PumpLeaves(c, node, p, h, log, polled, handler);
            log <= log' && BandsFiled(log', c, p')
    decreases |polled|
  {
    hide OnLeaf, StoreAll, LogGood, BandsFiled;
    if polled != [] {
      var (p1, h1, out) := OnLeaf(c, node, p, h, polled[0], handler);
      OnLeafFiles(log, c, node, p, h, served, polled[0], handler);
      var log1 := StoreAll(log, out);
      forall l | l in polled[1..] ensures l in log1 { assert l in log; }
      PumpFiles(log1, c, node, p1, h1, served, polled[1..], handler);
    }
  }

  lemma OnLeafKeepsHandled(c: ProviderConfig, node: Name, p: ProviderState, h: Hlc, leaf: Leaf, handler: Handler)
    requires p.handled.Keys == p.seen
    ensures var (p', _, _) := OnLeaf(c, node, p, h, leaf, handler); p'.handled.Keys == p'.seen
  {
    hide Emitted;
  }

  lemma {:induction false} PumpTallies(log: Log, c: ProviderConfig, node: Name, p: ProviderState, h: Hlc,
                                       polled: seq<Leaf>, handler: Handler, others: nat, grounds: set<Name>, need: Id)
    requires p.handled.Keys == p.seen
    requires |Evidences(log, grounds, need)| <= others + if Counts(c, p, grounds, need) then 1 else 0
    ensures var (p', _, log') := PumpLeaves(c, node, p, h, log, polled, handler);
            |Evidences(log', grounds, need)| <= others + if Counts(c, p', grounds, need) then 1 else 0
    decreases |polled|
  {
    hide OnLeaf, StoreAll, Evidences, Counts;
    if polled != [] {
      var (p1, h1, out) := OnLeaf(c, node, p, h, polled[0], handler);
      OnLeafTallies(log, c, node, p, h, polled[0], handler, others, grounds, need);
      OnLeafKeepsHandled(c, node, p, h, polled[0], handler);
      PumpTallies(StoreAll(log, out), c, node, p1, h1, polled[1..], handler, others, grounds, need);
    }
  }

  /** The handlings by the other providers, and by the one at work. */
  lemma HandlingsSplit(cfg: Config, s: State, s': State, i: nat, j: nat, grounds: set<Name>, need: Id)
    requires WellShaped(cfg, s) && WellShaped(cfg, s') && i < |cfg| && j < |cfg[i].providers|
    requires s'.reactors == s.reactors[i := s'.reactors[i]]
    requires s'.reactors[i].providers == s.reactors[i].providers[j := s'.reactors[i].providers[j]]
    ensures Handlings(cfg, s', grounds, need) - {(i, j)} == Handlings(cfg, s, grounds, need) - {(i, j)}
    ensures (i, j) in Handlings(cfg, s', grounds, need) <==>
            Counts(cfg[i].providers[j], s'.reactors[i].providers[j], grounds, need)
    ensures |Handlings(cfg, s', grounds, need)| == |Handlings(cfg, s', grounds, need) - {(i, j)}|
            + if Counts(cfg[i].providers[j], s'.reactors[i].providers[j], grounds, need) then 1 else 0
  {
    SizeWithout(Handlings(cfg, s', grounds, need), (i, j));
    HandlingsHold(cfg, s', i, j, grounds, need);
    OtherHandlings(cfg, s, s', i, j, grounds, need);
    hide Handlings, AbsorbedBand;
  }

  lemma HandlingsHold(cfg: Config, s: State, a: nat, k: nat, grounds: set<Name>, need: Id)
    requires WellShaped(cfg, s) && a < |cfg| && k < |cfg[a].providers|
    ensures (a, k) in Handlings(cfg, s, grounds, need) <==> Handles(cfg, s, grounds, need, a, k)
  {
    hide Handles;
  }

  lemma OtherHandlings(cfg: Config, s: State, s': State, i: nat, j: nat, grounds: set<Name>, need: Id)
    requires WellShaped(cfg, s) && WellShaped(cfg, s') && i < |cfg| && j < |cfg[i].providers|
    requires s'.reactors == s.reactors[i := s'.reactors[i]]
    requires s'.reactors[i].providers == s.reactors[i].providers[j := s'.reactors[i].providers[j]]
    ensures Handlings(cfg, s', grounds, need) - {(i, j)} == Handlings(cfg, s, grounds, need) - {(i, j)}
  {
    forall a: nat, k: nat | a < |cfg| && k < |cfg[a].providers| && (a, k) != (i, j)
      ensures Handles(cfg, s', grounds, need, a, k) <==> Handles(cfg, s, grounds, need, a, k)
    {
      OtherHandles(cfg, s, s', i, j, grounds, need, a, k);
    }
    hide Handles, WellShaped;
  }

  lemma OtherHandles(cfg: Config, s: State, s': State, i: nat, j: nat, grounds: set<Name>, need: Id, a: nat, k: nat)
    requires WellShaped(cfg, s) && WellShaped(cfg, s') && i < |cfg| && j < |cfg[i].providers|
    requires s'.reactors == s.reactors[i := s'.reactors[i]]
    requires s'.reactors[i].providers == s.reactors[i].providers[j := s'.reactors[i].providers[j]]
    requires a < |cfg| && k < |cfg[a].providers| && (a, k) != (i, j)
    ensures Handles(cfg, s', grounds, need, a, k) <==> Handles(cfg, s, grounds, need, a, k)
  {
    hide AbsorbedBand;
    assert s'.reactors[a].providers[k] == s.reactors[a].providers[k];
  }

  lemma SizeWithout<T>(xs: set<T>, x: T)
    ensures |xs| == |xs - {x}| + if x in xs then 1 else 0
  {
    if x in xs { assert xs == (xs - {x}) + {x}; } else { assert xs == xs - {x}; }
  }

  lemma PumpKeepsTally(cfg: Config, handlers: Handlers, s: State, i: nat, j: nat, grounds: set<Name>, need: Id)
    requires Inv(cfg, s) && |s.logs| == 1 && i < |cfg| && j < |cfg[i].providers| && Tallied(cfg, s, grounds, need)
    ensures Tallied(cfg, Apply(cfg, handlers, s, Pump(0, i, j)), grounds, need)
  {
    var pc, p, r := cfg[i].providers[j], s.reactors[i].providers[j], s.reactors[i];
    var s' := Apply(cfg, handlers, s, Pump(0, i, j));
    ProvidersGood(cfg, s, i);
    assert s.reactors[i].providers[j := p] == s.reactors[i].providers && s.reactors[i := r] == s.reactors;
    hide Inv, PumpLeaves, Handlings, Evidences, Counts;
    HandlingsSplit(cfg, s, s, i, j, grounds, need);
    HandlingsSplit(cfg, s, s', i, j, grounds, need);
    PumpTallies(s.logs[0], pc, cfg[i].principal, p, r.hlc, s.logs[0], handlers(i, j),
                |Handlings(cfg, s, grounds, need) - {(i, j)}|, grounds, need);
  }

  lemma PumpKeepsLedger(cfg: Config, handlers: Handlers, s: State, i: nat, j: nat)
    requires Inv(cfg, s) && |s.logs| == 1 && i < |cfg| && j < |cfg[i].providers| && Ledger(cfg, s)
    ensures Ledger(cfg, Apply(cfg, handlers, s, Pump(0, i, j)))
  {
    var s' := Apply(cfg, handlers, s, Pump(0, i, j));
    LogIsGood(cfg, s, 0);
    ProvidersGood(cfg, s, i);
    ServedContains(cfg, i, j);
    hide Inv, Served, LogGood, BandsFiled, Tallied, PumpLeaves;
    PumpFiles(s.logs[0], cfg[i].providers[j], cfg[i].principal, s.reactors[i].providers[j], s.reactors[i].hlc,
              Served(cfg), s.logs[0], handlers(i, j));
    forall a, k | 0 <= a < |cfg| && 0 <= k < |cfg[a].providers|
      ensures BandsFiled(s'.logs[0], cfg[a].providers[k], s'.reactors[a].providers[k])
    {
      if (a, k) != (i, j) { BandsFiledMonotone(s.logs[0], s'.logs[0], cfg[a].providers[k], s.reactors[a].providers[k]); }
    }
    forall grounds, need ensures Tallied(cfg, s', grounds, need) {
      PumpKeepsTally(cfg, handlers, s, i, j, grounds, need);
    }
  }

  lemma BandsFiledMonotone(log: Log, log': Log, c: ProviderConfig, p: ProviderState)
    requires BandsFiled(log, c, p) && log <= log'
    ensures BandsFiled(log', c, p)
  {
    hide BandFiled;
    forall need | AbsorbedBand(p, need)
      ensures need.to == c.capability && BandFiled(log', need, c.ground, p.handled[need].value)
    {
      BandFiledMonotone(log, log', need, c.ground, p.handled[need].value);
    }
  }

  // ---- every step ----

  /** A step that leaves the providers alone and adds no evidence. */
  lemma IdleKeepsLedger(cfg: Config, s: State, s': State)
    requires WellShaped(cfg, s) && WellShaped(cfg, s') && |s.logs| == |s'.logs| == 1 && Ledger(cfg, s)
    requires forall a :: 0 <= a < |cfg| ==> s'.reactors[a].providers == s.reactors[a].providers
    requires forall a :: 0 <= a < |cfg| ==> InReach(cfg[a], s'.reactors[a].inbox)
    requires s.logs[0] <= s'.logs[0] && forall l :: l in s'.logs[0] ==> l in s.logs[0] || l.Need?
    ensures Ledger(cfg, s')
  {
    hide BandsFiled;
    forall a, k | 0 <= a < |cfg| && 0 <= k < |cfg[a].providers|
      ensures BandsFiled(s'.logs[0], cfg[a].providers[k], s'.reactors[a].providers[k])
    {
      BandsFiledMonotone(s.logs[0], s'.logs[0], cfg[a].providers[k], s.reactors[a].providers[k]);
    }
    forall grounds, need ensures Tallied(cfg, s', grounds, need) {
      assert Tallied(cfg, s, grounds, need);
      assert Handlings(cfg, s', grounds, need) == Handlings(cfg, s, grounds, need);
      SubsetSize(Evidences(s'.logs[0], grounds, need), Evidences(s.logs[0], grounds, need));
    }
  }

  lemma LedgerReaches(cfg: Config, s: State)
    requires WellShaped(cfg, s) && |s.logs| == 1 && Ledger(cfg, s)
    ensures forall i :: 0 <= i < |cfg| ==> InReach(cfg[i], s.reactors[i].inbox)
  {
    hide BandsFiled, Tallied, InReach;
  }

  lemma {:induction false} AbsorbKeepsReach(log: Log, served: set<Name>, rc: ReactorConfig, box: Inbox, polled: seq<Leaf>)
    requires LogGood(log, served) && (forall l :: l in polled ==> l in log) && InReach(rc, box)
    ensures InReach(rc, AbsorbLeaves(rc.reach, box, polled))
  {
    hide LogGood;
    if polled != [] {
      var init, last := polled[..|polled| - 1], polled[|polled| - 1];
      AbsorbKeepsReach(log, served, rc, box, init);
      AddressOfLeaf(log, served, last);
    }
  }

  lemma StepKeepsLedger(cfg: Config, handlers: Handlers, s: State, step: Step)
    requires Inv(cfg, s) && |s.logs| == 1 && Enabled(cfg, s, step) && Ledger(cfg, s)
    ensures Ledger(cfg, Apply(cfg, handlers, s, step))
  {
    var s' := Apply(cfg, handlers, s, step);
    assert WellShaped(cfg, s);
    LedgerReaches(cfg, s);
    LogIsGood(cfg, s, 0);
    hide Inv, Ledger, PumpLeaves, AbsorbLeaves, Missing, InReach, LogGood, Served;
    match step
    case PlaceNeed(_, i, to, need, draw) => IdleKeepsLedger(cfg, s, s');
    case Absorb(_, i) =>
      AbsorbKeepsReach(s.logs[0], Served(cfg), cfg[i], s.reactors[i].inbox, s.logs[0]);
      IdleKeepsLedger(cfg, s, s');
    case Pump(_, i, j) => PumpKeepsLedger(cfg, handlers, s, i, j);
    case Reconcile(a, b, _, _) =>
  }

  lemma StartLedger(cfg: Config, s: State)
    requires Initial(cfg, s) && |s.logs| == 1
    ensures Ledger(cfg, s)
  {
    forall grounds, need ensures Tallied(cfg, s, grounds, need) {
      assert Evidences(s.logs[0], grounds, need) == {};
    }
  }

  /** Every state of every run from fresh reactors on one carrier keeps the ledger. */
  lemma {:induction false} RunsKeepLedger(cfg: Config, handlers: Handlers, states: seq<State>, steps: seq<Step>, k: nat)
    requires IsRun(cfg, handlers, states, steps) && Initial(cfg, states[0]) && |states[0].logs| == 1 && k < |states|
    ensures Inv(cfg, states[k]) && |states[k].logs| == 1 && Ledger(cfg, states[k])
  {
    Safety(cfg, handlers, states, steps, k);
    assert WellShaped(cfg, states[k]);
    if k == 0 {
      hide Inv, Ledger;
      StartLedger(cfg, states[0]);
    } else {
      RunsKeepLedger(cfg, handlers, states, steps, k - 1);
      assert states[k] == Apply(cfg, handlers, states[k - 1], steps[k - 1]);
      assert Enabled(cfg, states[k - 1], steps[k - 1]);
      hide Inv, Ledger, Apply, Initial, IsRun;
      StepKeepsLedger(cfg, handlers, states[k - 1], steps[k - 1]);
    }
  }

  // ---- an inbox that has absorbed the carrier ----

  /** The ids of the records that reply to a need, in filing order. */
  function Replies(recs: seq<Record>, need: Id): seq<Id> {
    if recs == [] then []
    else
      var last := recs[|recs| - 1];
      Replies(recs[..|recs| - 1], need) + if last.inReplyTo == need then [last.evidenceId] else []
  }

  /** What an inbox filed under a root. */
  function RecordsOf(box: Inbox, root: Id): seq<Record> {
    if root in box.prov then box.prov[root] else []
  }

  function BandsOf(box: Inbox, root: Id): seq<(Hlc, Payload)> {
    if root in box.bands then box.bands[root] else []
  }

  lemma {:induction false} RepliesAre(recs: seq<Record>, need: Id)
    requires forall k, k' :: 0 <= k < k' < |recs| ==> recs[k].evidenceId != recs[k'].evidenceId
    ensures forall x :: x in Replies(recs, need) <==>
                        exists k :: 0 <= k < |recs| && recs[k].inReplyTo == need && recs[k].evidenceId == x
    ensures NoRepeat(Replies(recs, need))
  {
    if recs != [] {
      var init, last := recs[..|recs| - 1], recs[|recs| - 1];
      RepliesAre(init, need);
      forall x ensures x in Replies(recs, need) <==>
                       exists k :: 0 <= k < |recs| && recs[k].inReplyTo == need && recs[k].evidenceId == x
      {
        if k :| 0 <= k < |init| && init[k].inReplyTo == need && init[k].evidenceId == x { assert recs[k] == init[k]; }
        if k :| 0 <= k < |recs| && recs[k].inReplyTo == need && recs[k].evidenceId == x && k < |init| {
          assert init[k] == recs[k];
        }
      }
      assert last.evidenceId !in Replies(init, need);
    }
  }

  lemma {:induction false} IdsAreLeaves(ids: seq<Id>, leaves: set<Leaf>)
    requires NoRepeat(ids) && forall x :: x in ids ==> exists e :: e in leaves && e.id == x
    ensures |ids| <= |leaves|
    decreases |ids|
  {
    if ids != [] {
      var init, last := ids[..|ids| - 1], ids[|ids| - 1];
      assert last in ids;
      var e :| e in leaves && e.id == last;
      forall x | x in init ensures exists f :: f in leaves - {e} && f.id == x {
        assert x in ids;
        var f :| f in leaves && f.id == x;
        assert f in leaves - {e};
      }
      IdsAreLeaves(init, leaves - {e});
    }
  }

  /** A filed record stands for evidence on the carrier that the inbox's light-cone reaches. */
  lemma RecordIsEvidence(cfg: Config, s: State, i: nat, root: Id, k: nat) returns (e: Leaf, n: Leaf)
    requires Inv(cfg, s) && |s.logs| == 1 && i < |cfg| && InReach(cfg[i], s.reactors[i].inbox)
    requires k < |RecordsOf(s.reactors[i].inbox, root)|
    ensures k < |BandsOf(s.reactors[i].inbox, root)|
    ensures e in s.logs[0] && e.Evidence? && e.to in cfg[i].reach && e.root == root
    ensures RecordsOf(s.reactors[i].inbox, root)[k] == RecordOf(e)
    ensures e.sealed.body.EvidenceBody? && BandsOf(s.reactors[i].inbox, root)[k] == (e.hlc, e.sealed.body.evidence)
    ensures n in s.logs[0] && n.Need? && n.id == e.inReplyTo && n.root == root
  {
    InboxIsGood(cfg, s, i);
    LogIsGood(cfg, s, 0);
    OneLog(s);
    hide Inv, World, RecordOf, LogGood;
    var box := s.reactors[i].inbox;
    assert FiledGood(World(s.logs), box.seen, box.prov[root], box.bands[root], root);
    assert BackedBy(World(s.logs), box.prov[root][k], box.bands[root][k], root);
    e :| e in s.logs[0] && e.Evidence? && e.sealed.body.EvidenceBody? && e.root == root
         && RecordOf(e) == box.prov[root][k] && box.bands[root][k] == (e.hlc, e.sealed.body.evidence);
    RecordNames(e);
    AddressOfLeaf(s.logs[0], Served(cfg), e);
    assert e.id in box.seen;
    n := EvidenceNeed(s.logs[0], Served(cfg), e);
  }

  lemma OneLog(s: State)
    requires |s.logs| == 1
    ensures forall l :: l in World(s.logs) <==> l in s.logs[0]
  {}

  lemma EvidenceNeed(log: Log, served: set<Name>, e: Leaf) returns (n: Leaf)
    requires LogGood(log, served) && e in log && e.Evidence?
    ensures n in log && n.Need? && n.id == e.inReplyTo && n.root == e.root
  {
    assert LeafGood(log, served, e);
    n := AnsweredGood(log, served, e);
  }

  /** The records under a need's root that reply to it are of as many different leaves on the carrier. */
  lemma RepliesAreEvidence(cfg: Config, s: State, i: nat, root: Id, need: Id)
    requires Inv(cfg, s) && |s.logs| == 1 && i < |cfg| && InReach(cfg[i], s.reactors[i].inbox)
    ensures |Replies(RecordsOf(s.reactors[i].inbox, root), need)| <= |Evidences(s.logs[0], cfg[i].reach, need)|
  {
    var recs, leaves := RecordsOf(s.reactors[i].inbox, root), Evidences(s.logs[0], cfg[i].reach, need);
    RecordsDiffer(cfg, s, i, root);
    RepliesAre(recs, need);
    hide Inv, RecordsOf, InReach;
    forall x | x in Replies(recs, need) ensures exists e :: e in leaves && e.id == x {
      var k :| 0 <= k < |recs| && recs[k].inReplyTo == need && recs[k].evidenceId == x;
      var e, n := RecordIsEvidence(cfg, s, i, root, k);
      assert e in leaves;
    }
    IdsAreLeaves(Replies(recs, need), leaves);
  }

  lemma RecordsDiffer(cfg: Config, s: State, i: nat, root: Id)
    requires Inv(cfg, s) && i < |cfg|
    ensures var recs := RecordsOf(s.reactors[i].inbox, root);
            forall k, k' :: 0 <= k < k' < |recs| ==> recs[k].evidenceId != recs[k'].evidenceId
  {
    InboxIsGood(cfg, s, i);
    hide Inv, World, BackedBy;
    var box := s.reactors[i].inbox;
    if root in box.prov { assert FiledGood(World(s.logs), box.seen, box.prov[root], box.bands[root], root); }
  }

  /** Evidence that an inbox has seen has a record under its root, with its band. */
  lemma SeenIsFiled(cfg: Config, s: State, i: nat, e: Leaf) returns (k: nat)
    requires Inv(cfg, s) && |s.logs| == 1 && i < |cfg| && InReach(cfg[i], s.reactors[i].inbox)
    requires e in s.logs[0] && e.Evidence? && e.id in s.reactors[i].inbox.seen
    ensures k < |RecordsOf(s.reactors[i].inbox, e.root)| && RecordsOf(s.reactors[i].inbox, e.root)[k] == RecordOf(e)
    ensures k < |BandsOf(s.reactors[i].inbox, e.root)| && e.sealed.body.EvidenceBody?
    ensures BandsOf(s.reactors[i].inbox, e.root)[k] == (e.hlc, e.sealed.body.evidence)
  {
    InboxIsGood(cfg, s, i);
    OneLog(s);
    hide Inv, World, RecordOf, FiledGood, InReach;
    var box := s.reactors[i].inbox;
    var root, m :| root in box.prov && 0 <= m < |box.prov[root]| && box.prov[root][m].evidenceId == e.id;
    var e', n := RecordIsEvidence(cfg, s, i, root, m);
    RecordNames(e');
    IdsNameLeaves(cfg, s, e, e');
    k := m;
  }

  /** The band is filed under the root, on a record that replies to the need. */
  ghost predicate Received(box: Inbox, root: Id, need: Id, band: Payload) {
    exists k :: 0 <= k < |RecordsOf(box, root)| && k < |BandsOf(box, root)|
                && RecordsOf(box, root)[k].inReplyTo == need && BandsOf(box, root)[k].1 == band
  }

  /** A band absorbed for a ground that an inbox reaches is in that inbox, once it has absorbed the
      carrier. */
  lemma HandledIsReceived(cfg: Config, s: State, i: nat, a: nat, j: nat, n: Leaf)
    requires Inv(cfg, s) && |s.logs| == 1 && Ledger(cfg, s) && i < |cfg| && Absorbed(cfg, s, 0, i)
    requires a < |cfg| && j < |cfg[a].providers| && cfg[a].providers[j].ground in cfg[i].reach
    requires n in s.logs[0] && n.Need? && AbsorbedBand(s.reactors[a].providers[j], n.id)
    ensures Received(s.reactors[i].inbox, n.root, n.id, s.reactors[a].providers[j].handled[n.id].value)
  {
    var band, ground := s.reactors[a].providers[j].handled[n.id].value, cfg[a].providers[j].ground;
    LedgerReaches(cfg, s);
    LedgerFiles(cfg, s, a, j);
    LogIsGood(cfg, s, 0);
    hide Inv, Ledger, LogGood, Served, InboxAccepts, InReach, RecordsOf, BandsOf;
    var e :| e in s.logs[0] && IsBand(e, n.id, ground, band);
    GoodEvidenceOpens(s.logs[0], Served(cfg), cfg[i].reach, s.reactors[i].inbox, e);
    var k := SeenIsFiled(cfg, s, i, e);
    var m := EvidenceNeed(s.logs[0], Served(cfg), e);
    SameIdOnLog(s.logs[0], Served(cfg), m, n);
  }

  lemma LedgerFiles(cfg: Config, s: State, a: nat, j: nat)
    requires WellShaped(cfg, s) && |s.logs| == 1 && Ledger(cfg, s) && a < |cfg| && j < |cfg[a].providers|
    ensures BandsFiled(s.logs[0], cfg[a].providers[j], s.reactors[a].providers[j])
  {
    hide BandsFiled, Tallied, InReach;
  }

  lemma LedgerTallies(cfg: Config, s: State, grounds: set<Name>, need: Id)
    requires WellShaped(cfg, s) && |s.logs| == 1 && Ledger(cfg, s)
    ensures Tallied(cfg, s, grounds, need)
  {
    hide BandsFiled, Tallied, InReach;
  }

  /** For every need, an inbox that has absorbed the carrier holds a record exactly when some provider on a
      ground it reaches absorbed a band of the need, and no more records than such providers. */
  lemma RecordsMatchHandlings(cfg: Config, s: State, i: nat, n: Leaf)
    requires Inv(cfg, s) && |s.logs| == 1 && Ledger(cfg, s) && i < |cfg| && Absorbed(cfg, s, 0, i)
    requires n in s.logs[0] && n.Need?
    ensures var replies := Replies(RecordsOf(s.reactors[i].inbox, n.root), n.id);
            var handlings := Handlings(cfg, s, cfg[i].reach, n.id);
            |replies| <= |handlings| && (handlings != {} ==> replies != [])
  {
    assert WellShaped(cfg, s);
    hide Inv, Ledger, Absorbed, InReach, RecordsOf, Evidences, Handlings, Replies;
    LedgerReaches(cfg, s);
    LedgerTallies(cfg, s, cfg[i].reach, n.id);
    RepliesAreEvidence(cfg, s, i, n.root, n.id);
    if x :| x in Handlings(cfg, s, cfg[i].reach, n.id) {
      HandlingIs(cfg, s, cfg[i].reach, n.id, x);
      HandledIsReceived(cfg, s, i, x.0, x.1, n);
      RecordsDiffer(cfg, s, i, n.root);
      ReceivedReplies(s.reactors[i].inbox, n.root, n.id, s.reactors[x.0].providers[x.1].handled[n.id].value);
    }
  }

  lemma HandlingIs(cfg: Config, s: State, grounds: set<Name>, need: Id, x: (nat, nat))
    requires WellShaped(cfg, s) && x in Handlings(cfg, s, grounds, need)
    ensures x.0 < |cfg| && x.1 < |cfg[x.0].providers| && cfg[x.0].providers[x.1].ground in grounds
    ensures AbsorbedBand(s.reactors[x.0].providers[x.1], need)
  {
    hide AbsorbedBand;
  }

  lemma ReceivedReplies(box: Inbox, root: Id, need: Id, band: Payload)
    requires Received(box, root, need, band)
    requires var recs := RecordsOf(box, root);
             forall k, k' :: 0 <= k < k' < |recs| ==> recs[k].evidenceId != recs[k'].evidenceId
    ensures Replies(RecordsOf(box, root), need) != []
  {
    var recs := RecordsOf(box, root);
    RepliesAre(recs, need);
    hide RecordsOf, Replies;
    var k :| 0 <= k < |recs| && recs[k].inReplyTo == need;
    assert recs[k].evidenceId in Replies(recs, need);
  }

  /** Every record an inbox files replies to a need of that root which a provider absorbed a band of. */
  lemma RecordIsOfHandling(cfg: Config, s: State, i: nat, root: Id, k: nat) returns (n: Leaf)
    requires Inv(cfg, s) && |s.logs| == 1 && Ledger(cfg, s) && i < |cfg|
    requires k < |RecordsOf(s.reactors[i].inbox, root)|
    ensures n in s.logs[0] && n.Need? && n.root == root && n.id == RecordsOf(s.reactors[i].inbox, root)[k].inReplyTo
    ensures Handlings(cfg, s, cfg[i].reach, n.id) != {}
  {
    LedgerReaches(cfg, s);
    hide Inv, Ledger, InReach, RecordsOf, Handlings;
    var e: Leaf;
    e, n := RecordIsEvidence(cfg, s, i, root, k);
    LedgerTallies(cfg, s, cfg[i].reach, n.id);
    assert e in Evidences(s.logs[0], cfg[i].reach, n.id);
  }

  /** No capability has two providers. */
  predicate SoleProviders(cfg: Config) {
    forall a, j, b, k ::
      (&& 0 <= a < |cfg| && 0 <= j < |cfg[a].providers| && 0 <= b < |cfg| && 0 <= k < |cfg[b].providers|
       && cfg[a].providers[j].capability == cfg[b].providers[k].capability)
      ==> a == b && j == k
  }

  lemma SoleHandling(cfg: Config, s: State, grounds: set<Name>, need: Id)
    requires WellShaped(cfg, s) && |s.logs| == 1 && Ledger(cfg, s) && SoleProviders(cfg)
    ensures |Handlings(cfg, s, grounds, need)| <= 1
  {
    var all := Handlings(cfg, s, grounds, need);
    forall a, j | 0 <= a < |cfg| && 0 <= j < |cfg[a].providers| && AbsorbedBand(s.reactors[a].providers[j], need)
      ensures need.to == cfg[a].providers[j].capability
    {
      LedgerFiles(cfg, s, a, j);
    }
    if x :| x in all {
      hide Ledger;
      assert all <= {x};
      SubsetSize(all, {x});
    }
  }

  // ---- at rest ----

  lemma {:induction false} ExecuteKeepsLedger(cfg: Config, handlers: Handlers, s: State, steps: seq<Step>)
    requires WellShaped(cfg, s) && Inv(cfg, s) && |s.logs| == 1 && Ledger(cfg, s)
    requires forall k :: 0 <= k < |steps| ==> OfTick(cfg, 0, steps[k])
    ensures Inv(cfg, Execute(cfg, handlers, s, 0, steps)) && Ledger(cfg, Execute(cfg, handlers, s, 0, steps))
    decreases |steps|
  {
    hide Inv, Apply, Ledger;
    if steps != [] {
      var init, step := steps[..|steps| - 1], steps[|steps| - 1];
      ExecuteKeepsLedger(cfg, handlers, s, init);
      assert OfTick(cfg, 0, step);
      StepKeepsInv(cfg, handlers, Execute(cfg, handlers, s, 0, init), step);
      StepKeepsLedger(cfg, handlers, Execute(cfg, handlers, s, 0, init), step);
    }
  }

  lemma TickKeepsLedger(cfg: Config, handlers: Handlers, s: State)
    requires WellShaped(cfg, s) && Inv(cfg, s) && |s.logs| == 1 && Ledger(cfg, s)
    ensures var s' := TickOnce(cfg, handlers, s, 0); Inv(cfg, s') && Ledger(cfg, s')
  {
    hide Inv, Ledger, Execute, TickSteps, WellShaped, OfTick;
    TickStepsOfTick(cfg, 0, |cfg|);
    ExecuteKeepsLedger(cfg, handlers, s, TickSteps(cfg, 0, |cfg|));
  }

  lemma {:induction false} TicksKeepLedger(cfg: Config, handlers: Handlers, s: State, n: nat)
    requires WellShaped(cfg, s) && Inv(cfg, s) && |s.logs| == 1 && Ledger(cfg, s)
    ensures var s' := Ticks(cfg, handlers, s, 0, n); Inv(cfg, s') && Ledger(cfg, s')
  {
    hide Inv, Ledger, Ticks, WellShaped;
    if n == 0 {
      TicksNone(cfg, handlers, s, 0);
    } else {
      TicksStep(cfg, handlers, s, 0, n - 1);
      TicksKeepLedger(cfg, handlers, s, n - 1);
      TickKeepsLedger(cfg, handlers, Ticks(cfg, handlers, s, 0, n - 1));
    }
  }

  /** One tick past the number of served capabilities nothing is pending and every inbox has absorbed the
      carrier. */
  lemma AtRest(cfg: Config, handlers: Handlers, s: State, i: nat)
    requires Inv(cfg, s) && 0 < |s.logs| && i < |cfg|
    ensures var rest := Ticks(cfg, handlers, s, 0, |Served(cfg)| + 1);
            Quiet(cfg, rest, 0) && Absorbed(cfg, rest, 0, i)
  {
    var k := |Served(cfg)|;
    TicksQuiet(cfg, handlers, s, 0);
    TickStepsOfTick(cfg, 0, |cfg|);
    hide Inv, Served, Ticks, Quiet, Absorbed, Execute, TickSteps;
    TicksStep(cfg, handlers, s, 0, k);
    QuietExecute(cfg, handlers, Ticks(cfg, handlers, s, 0, k), 0, TickSteps(cfg, 0, |cfg|));
    assert Absorb(0, i) in TickSteps(cfg, 0, |cfg|);
  }

  /** The state ends a run that began with fresh reactors on one carrier. */
  ghost predicate FromFresh(cfg: Config, handlers: Handlers, s: State) {
    exists states: seq<State>, steps: seq<Step> ::
      IsRun(cfg, handlers, states, steps) && Initial(cfg, states[0]) && |states[0].logs| == 1 && states[|steps|] == s
  }

  lemma FreshLedger(cfg: Config, handlers: Handlers, s: State)
    requires FromFresh(cfg, handlers, s)
    ensures Inv(cfg, s) && |s.logs| == 1 && Ledger(cfg, s)
  {
    hide Inv, Ledger, Initial, Apply, Enabled;
    var states: seq<State>, steps: seq<Step> :|
      IsRun(cfg, handlers, states, steps) && Initial(cfg, states[0]) && |states[0].logs| == 1 && states[|steps|] == s;
    RunsKeepLedger(cfg, handlers, states, steps, |steps|);
  }

  /** From fresh reactors on one carrier: once any run has come to rest, an inbox holds records for a need
      exactly when the need was handled with a band on a ground it reaches, all under the need's root, and
      no more than there were such handlings. */
  lemma RestingRecords(cfg: Config, handlers: Handlers, s: State, i: nat, n: Leaf)
    requires FromFresh(cfg, handlers, s) && |s.logs| == 1 && WellShaped(cfg, s) && i < |cfg|
    requires n in Ticks(cfg, handlers, s, 0, |Served(cfg)| + 1).logs[0] && n.Need?
    ensures var rest := Ticks(cfg, handlers, s, 0, |Served(cfg)| + 1);
            var replies := Replies(RecordsOf(rest.reactors[i].inbox, n.root), n.id);
            var handlings := Handlings(cfg, rest, cfg[i].reach, n.id);
            && |replies| <= |handlings| && (replies == [] <==> handlings == {})
            && (SoleProviders(cfg) ==> |replies| == |handlings|)
  {
    hide Inv, Ledger, Ticks, Served, Handlings, SoleProviders, FromFresh, Absorbed, Quiet, RecordsOf, Replies;
    FreshLedger(cfg, handlers, s);
    var rest := Ticks(cfg, handlers, s, 0, |Served(cfg)| + 1);
    TicksKeepLedger(cfg, handlers, s, |Served(cfg)| + 1);
    AtRest(cfg, handlers, s, i);
    RecordsMatchHandlings(cfg, rest, i, n);
    if SoleProviders(cfg) { SoleHandling(cfg, rest, cfg[i].reach, n.id); }
  }
}
