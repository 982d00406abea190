/**
 Hash slot configuration propagation, seen by a master that serves no slot and imports none. Claims
 reach it by the claimants' pings and by UPDATEs that others send about them, any number of times
 and in any order. An UPDATE is believed only while the epoch it brings is news; the header of an
 UPDATE its claimant sent about someone else spends that news without the claim. A slot ends with
 its claimant of greatest epoch exactly when that claim arrives by ping, or by an UPDATE in time.
 */
module SlotConvergence {
  import opened Common
  import opened ClusterView

  /** One node's published configuration. */
  datatype Claim = Claim(currentEpoch: nat, epoch: nat, slots: set<nat>)

  function PingOf(n: NodeId, c: Claim): Header {
    Header(n, c.currentEpoch, c.epoch, c.slots, None)
  }

  /** The observer's view of one slot: who owns it, and every other node's configEpoch. */
  datatype SlotView = SlotView(owner: Option<NodeId>, epochs: map<NodeId, nat>)

  function SlotViewOf(v: View, j: nat): SlotView {
    SlotView(if j in v.owner then Some(v.owner[j]) else None,
             map p | p in v.peers && p != v.me :: v.peers[p].configEpoch)
  }

  /** Whether a claim of the slot by n, at the given epoch, takes it over. */
  predicate Takes(s: SlotView, n: NodeId, epoch: nat) {
    s.owner != Some(n) && (s.owner.Some? ==> s.owner.value in s.epochs && s.epochs[s.owner.value] < epoch)
  }

  /** What hearing node n's claim does to a slot. */
  function Heard(s: SlotView, n: NodeId, epoch: nat, claimed: bool): SlotView
    requires n in s.epochs
  {
    var epochs := s.epochs[n := Max(s.epochs[n], epoch)];
    SlotView(if claimed && Takes(s.(epochs := epochs), n, epoch) then Some(n) else s.owner, epochs)
  }

  // ---------------------------------------------------------------- the ping handler does this

  ghost predicate Observer(v: View) {
    Wf(v) && v.peers[v.me].role == Master && SlotsOf(v, v.me) == {} && v.importing == map[]
  }

  ghost predicate KnownClaimant(v: View, n: NodeId) {
    n in v.peers && n != v.me && !v.peers[n].handshake
  }

  lemma UpdateSlotsOfObserver(v: View, n: NodeId, epoch: nat, slots: set<nat>)
    requires Observer(v) && n in v.peers && n != v.me
    ensures var v' := UpdateSlots(v, n, epoch, slots);
            v' == v.(owner := v.owner + map j | j in Rebound(v, n, epoch, slots) :: n)
            && Observer(v')
  {
    assert forall j :: j in v.owner ==> v.owner[j] != v.me by {
      if j :| j in v.owner && v.owner[j] == v.me {
        assert j in SlotsOf(v, v.me);
      }
    }
  }

  /** After the header and the role switch: still an observer, the claim's epoch noted. */
  lemma ClaimIsNoted(v: View, n: NodeId, c: Claim, j: nat)
    requires Observer(v) && KnownClaimant(v, n)
    ensures var v2 := RoleSwitch(ProcessHeader(v, PingOf(n, c)), PingOf(n, c));
            && Observer(v2) && v2.owner == v.owner && v2.me == v.me && v2.peers[n].role == Master
            && SlotViewOf(v2, j) == SlotViewOf(v, j).(epochs := SlotViewOf(v, j).epochs[n := Max(v.peers[n].configEpoch, c.epoch)])
            && (forall p :: KnownClaimant(v, p) ==> KnownClaimant(v2, p))
  {
    var v1 := ProcessHeader(v, PingOf(n, c));
    assert SlotsOf(v1, v.me) == SlotsOf(v, v.me);
  }

  lemma SlotsAreTaken(v: View, n: NodeId, c: Claim, j: nat)
    requires Observer(v) && KnownClaimant(v, n) && v.peers[n].role == Master && j < CLUSTER_SLOTS
    ensures var v' := PingSlots(v, PingOf(n, c), c.epoch);
            && Observer(v') && v'.me == v.me && v'.peers == v.peers
            && SlotViewOf(v', j).epochs == SlotViewOf(v, j).epochs
            && SlotViewOf(v', j).owner == (if j in c.slots && j !in SlotsOf(v, n) && Rebinds(v, n, c.epoch, j)
                                           then Some(n) else SlotViewOf(v, j).owner)
  {
    UpdateSlotsOfObserver(v, n, c.epoch, c.slots);
  }

  lemma CollisionSparesOthers(v: View, n: NodeId, j: nat)
    requires Observer(v) && n in v.peers
    ensures Observer(HandleCollision(v, n)) && SlotViewOf(HandleCollision(v, n), j) == SlotViewOf(v, j)
    ensures forall p :: KnownClaimant(v, p) ==> KnownClaimant(HandleCollision(v, n), p)
  {
    assert SlotsOf(HandleCollision(v, n), v.me) == SlotsOf(v, v.me);
  }

  lemma RebindsIsTakes(v: View, n: NodeId, epoch: nat, j: nat)
    requires Observer(v)
    ensures j !in SlotsOf(v, n) && Rebinds(v, n, epoch, j) <==> Takes(SlotViewOf(v, j), n, epoch)
  {
    assert j in v.owner && v.owner[j] == v.me ==> j in SlotsOf(v, v.me);
  }

  /** On every slot the whole ping handler acts as Heard, and the observer stays one. */
  lemma PingIsHeard(v: View, n: NodeId, c: Claim, j: nat)
    requires Observer(v) && KnownClaimant(v, n) && j < CLUSTER_SLOTS
    ensures var v' := OnPing(v, PingOf(n, c), None).view;
            && Observer(v') && v'.me == v.me && (forall p :: KnownClaimant(v, p) ==> KnownClaimant(v', p))
            && SlotViewOf(v', j) == Heard(SlotViewOf(v, j), n, c.epoch, j in c.slots)
  {
    var h := PingOf(n, c);
    ClaimIsNoted(v, n, c, j);
    var v2 := RoleSwitch(ProcessHeader(v, h), h);
    SlotsAreTaken(v2, n, c, j);
    RebindsIsTakes(v2, n, c.epoch, j);
    CollisionSparesOthers(PingSlots(v2, h, c.epoch), n, j);
  }

  // ---------------------------------------------------------------- and so does the UPDATE handler

  /** What the header of a packet does to a slot: the sender's epoch is noted. */
  function Noted(s: SlotView, n: NodeId, epoch: nat): SlotView
    requires n in s.epochs
  {
    s.(epochs := s.epochs[n := Max(s.epochs[n], epoch)])
  }

  lemma HeaderIsNoted(v: View, h: Header, j: nat)
    requires Observer(v) && KnownClaimant(v, h.sender)
    ensures var v1 := ProcessHeader(v, h);
            && Observer(v1) && v1.me == v.me && v1.owner == v.owner
            && SlotViewOf(v1, j) == Noted(SlotViewOf(v, j), h.sender, h.configEpoch)
            && (forall p :: KnownClaimant(v, p) ==> KnownClaimant(v1, p))
  {
    assert SlotsOf(ProcessHeader(v, h), v.me) == SlotsOf(v, v.me);
  }

  lemma NewsIsBelieved(v: View, n: NodeId, epoch: nat, j: nat)
    requires Observer(v) && KnownClaimant(v, n) && v.peers[n].configEpoch < epoch
    ensures var v2 := BelieveUpdate(v, n, epoch);
            && Observer(v2) && v2.me == v.me && v2.owner == v.owner
            && SlotViewOf(v2, j) == Noted(SlotViewOf(v, j), n, epoch)
            && (forall p :: KnownClaimant(v, p) ==> KnownClaimant(v2, p))
  {
    hide Observer, SlotViewOf, BelieveUpdate;
    var peer := BelievedEntry(v, n, epoch);
    EntryChanges(v, n, peer, j);
    SeenEpoch(v, n, j);
  }

  lemma BelievedEntry(v: View, n: NodeId, epoch: nat) returns (peer: Peer)
    requires n in v.peers
    ensures BelieveUpdate(v, n, epoch) == v.(peers := v.peers[n := peer])
    ensures peer.configEpoch == epoch && peer.handshake == v.peers[n].handshake
    ensures peer.slaveof == None || peer.slaveof == v.peers[n].slaveof
  {
    peer := BelieveUpdate(v, n, epoch).peers[n];
    assert BelieveUpdate(v, n, epoch).peers == v.peers[n := peer];
  }

  lemma SeenEpoch(v: View, n: NodeId, j: nat)
    requires n in v.peers && n != v.me
    ensures n in SlotViewOf(v, j).epochs && SlotViewOf(v, j).epochs[n] == v.peers[n].configEpoch
  {
  }

  /** Another node's entry changes: its role, its epoch, or that it has no master. */
  lemma EntryChanges(v: View, n: NodeId, peer: Peer, j: nat)
    requires Observer(v) && KnownClaimant(v, n) && !peer.handshake
    requires peer.slaveof == None || peer.slaveof == v.peers[n].slaveof
    ensures var v' := v.(peers := v.peers[n := peer]);
            && Observer(v')
            && SlotViewOf(v', j) == SlotViewOf(v, j).(epochs := SlotViewOf(v, j).epochs[n := peer.configEpoch])
            && (forall p :: KnownClaimant(v, p) ==> KnownClaimant(v', p))
  {
    assert SlotsOf(v.(peers := v.peers[n := peer]), v.me) == SlotsOf(v, v.me);
  }

  /** What an UPDATE about n does to a slot. */
  function Told(s: SlotView, h: Header, n: NodeId, epoch: nat, claimed: bool): SlotView
    requires n in s.epochs && h.sender in s.epochs
  {
    var s1 := Noted(s, h.sender, h.configEpoch);
    if s1.epochs[n] < epoch then Heard(s1, n, epoch, claimed) else s1
  }

  /** On every slot the whole UPDATE handler acts as Told, and the observer stays one. */
  lemma UpdateIsTold(v: View, h: Header, n: NodeId, epoch: nat, slots: set<nat>, j: nat)
    requires Observer(v) && KnownClaimant(v, n) && KnownClaimant(v, h.sender) && j < CLUSTER_SLOTS
    ensures var v' := OnUpdate(v, h, n, epoch, slots).view;
            && Observer(v') && v'.me == v.me && (forall p :: KnownClaimant(v, p) ==> KnownClaimant(v', p))
            && SlotViewOf(v', j) == Told(SlotViewOf(v, j), h, n, epoch, j in slots)
  {
    hide ProcessHeader, BelieveUpdate, UpdateSlots;
    HeaderIsNoted(v, h, j);
    var v1 := ProcessHeader(v, h);
    if v1.peers[n].configEpoch < epoch {
      NewsIsBelieved(v1, n, epoch, j);
      var v2 := BelieveUpdate(v1, n, epoch);
      UpdateSlotsOfObserver(v2, n, epoch, slots);
      RebindsIsTakes(v2, n, epoch, j);
    }
  }

  // ---------------------------------------------------------------- any order, with repeats

  type Claims = map<NodeId, Claim>

  /** How node n's claim is delivered: by n's ping, or by an UPDATE about n with its sender's header. */
  datatype Delivery = ByPing(n: NodeId) | ByUpdate(hdr: Header, n: NodeId)

  /** Who takes part: nodes the observer knows, each with the one configuration it publishes. */
  ghost predicate Delivers(v: View, claims: Claims, d: Delivery) {
    && d.n in claims && KnownClaimant(v, d.n)
    && (d.ByUpdate? ==>
          && KnownClaimant(v, d.hdr.sender)
          && (d.hdr.sender in claims ==> d.hdr.configEpoch == claims[d.hdr.sender].epoch))
  }

  /** The same, for one slot. */
  ghost predicate Fair(s: SlotView, claims: Claims, d: Delivery) {
    && d.n in claims && d.n in s.epochs
    && (d.ByUpdate? ==>
          && d.hdr.sender in s.epochs
          && (d.hdr.sender in claims ==> d.hdr.configEpoch == claims[d.hdr.sender].epoch))
  }

  ghost predicate AllFair(s: SlotView, claims: Claims, ds: seq<Delivery>) {
    forall d :: d in ds ==> Fair(s, claims, d)
  }

  /** What one delivery does to the observer. */
  ghost function Deliver(v: View, claims: Claims, d: Delivery): View
    requires Wf(v) && d.n in claims
  {
    match d
    case ByPing(n) => OnPing(v, PingOf(n, claims[n]), None).view
    case ByUpdate(h, n) => OnUpdate(v, h, n, claims[n].epoch, claims[n].slots).view
  }

  function Step(s: SlotView, claims: Claims, j: nat, d: Delivery): SlotView
    requires d.n in claims && d.n in s.epochs && (d.ByUpdate? ==> d.hdr.sender in s.epochs)
  {
    match d
    case ByPing(n) => Heard(s, n, claims[n].epoch, j in claims[n].slots)
    case ByUpdate(h, n) => Told(s, h, n, claims[n].epoch, j in claims[n].slots)
  }

  lemma DeliverIsStep(v: View, claims: Claims, d: Delivery, j: nat)
    requires Observer(v) && Delivers(v, claims, d) && j < CLUSTER_SLOTS
    ensures Fair(SlotViewOf(v, j), claims, d)
    ensures var v' := Deliver(v, claims, d);
            && Observer(v') && v'.me == v.me && (forall p :: KnownClaimant(v, p) ==> KnownClaimant(v', p))
            && SlotViewOf(v', j) == Step(SlotViewOf(v, j), claims, j, d)
  {
    hide OnPing, OnUpdate;
    var c := claims[d.n];
    if d.ByPing? {
      PingIsHeard(v, d.n, c, j);
    } else {
      UpdateIsTold(v, d.hdr, d.n, c.epoch, c.slots, j);
    }
  }

  /** The observer after the deliveries ds, in that order. */
  ghost function DeliverAll(v: View, claims: Claims, ds: seq<Delivery>): (r: View)
    requires Observer(v) && forall d :: d in ds ==> Delivers(v, claims, d)
    ensures Observer(r) && r.me == v.me && forall p :: KnownClaimant(v, p) ==> KnownClaimant(r, p)
  {
    if ds == [] then v
    else
      var last := |ds| - 1;
      var v' := DeliverAll(v, claims, ds[..last]);
      assert Delivers(v, claims, ds[last]);
      DeliverIsStep(v', claims, ds[last], 0);
      Deliver(v', claims, ds[last])
  }

  function HearAll(s: SlotView, claims: Claims, j: nat, ds: seq<Delivery>): (r: SlotView)
    requires AllFair(s, claims, ds)
    ensures r.epochs.Keys == s.epochs.Keys
  {
    if ds == [] then s
    else
      var last := |ds| - 1;
      assert Fair(s, claims, ds[last]);
      Step(HearAll(s, claims, j, ds[..last]), claims, j, ds[last])
  }

  lemma {:induction false} DeliverAllIsHearAll(v: View, claims: Claims, ds: seq<Delivery>, j: nat)
    requires Observer(v) && j < CLUSTER_SLOTS && forall d :: d in ds ==> Delivers(v, claims, d)
    ensures AllFair(SlotViewOf(v, j), claims, ds)
    ensures SlotViewOf(DeliverAll(v, claims, ds), j) == HearAll(SlotViewOf(v, j), claims, j, ds)
  {
    if ds != [] {
      var last := |ds| - 1;
      DeliverAllIsHearAll(v, claims, ds[..last], j);
      assert Delivers(v, claims, ds[last]);
      DeliverIsStep(DeliverAll(v, claims, ds[..last]), claims, ds[last], j);
    }
  }

  function Claimants(claims: Claims, j: nat): set<NodeId> {
    set n | n in claims && j in claims[n].slots
  }

  /** One claim per node, pairwise distinct epochs, nothing newer heard before. */
  ghost predicate Setting(s: SlotView, claims: Claims) {
    && claims.Keys <= s.epochs.Keys
    && (s.owner.Some? ==> s.owner.value in s.epochs)
    && (forall n :: n in claims ==> s.epochs[n] <= claims[n].epoch)
    && (forall m, n :: m in claims && n in claims && m != n ==> claims[m].epoch != claims[n].epoch)
  }

  ghost predicate IsGreatest(claims: Claims, j: nat, g: NodeId) {
    g in Claimants(claims, j) && forall n :: n in Claimants(claims, j) ==> claims[n].epoch <= claims[g].epoch
  }

  // ---------------------------------------------------------------- which deliveries are effective

  /** The delivery names node n's epoch, as news or in its header. */
  predicate Names(d: Delivery, n: NodeId) {
    d.n == n || (d.ByUpdate? && d.hdr.sender == n)
  }

  /** The epoch of n's claim is known to the observer before delivery i. */
  ghost predicate Known(s: SlotView, claims: Claims, ds: seq<Delivery>, i: nat, n: NodeId)
    requires n in claims && n in s.epochs && i <= |ds|
  {
    s.epochs[n] == claims[n].epoch || exists k :: 0 <= k < i && Names(ds[k], n)
  }

  /** Delivery i brings n's claim: by ping, or by someone else's UPDATE while its epoch is news. */
  ghost predicate Effective(s: SlotView, claims: Claims, ds: seq<Delivery>, i: nat, n: NodeId)
    requires n in claims && n in s.epochs && i < |ds|
  {
    ds[i].n == n && (ds[i].ByPing? || (ds[i].hdr.sender != n && !Known(s, claims, ds, i, n)))
  }

  ghost predicate Arrives(s: SlotView, claims: Claims, ds: seq<Delivery>, n: NodeId)
    requires n in claims && n in s.epochs
  {
    exists i :: 0 <= i < |ds| && Effective(s, claims, ds, i, n)
  }

  /** An owner that claims nothing publishes nothing new either. */
  ghost predicate Quiet(s: SlotView, claims: Claims, ds: seq<Delivery>) {
    forall d :: d in ds && d.ByUpdate? && s.owner == Some(d.hdr.sender) && d.hdr.sender !in claims ==>
      d.hdr.sender in s.epochs && d.hdr.configEpoch <= s.epochs[d.hdr.sender]
  }

  lemma ArrivesLast(s: SlotView, claims: Claims, ds: seq<Delivery>, n: NodeId)
    requires ds != [] && n in claims && n in s.epochs
    ensures var last := |ds| - 1;
      && (Known(s, claims, ds, |ds|, n) <==> Known(s, claims, ds[..last], last, n) || Names(ds[last], n))
      && (Known(s, claims, ds, last, n) <==> Known(s, claims, ds[..last], last, n))
      && (Arrives(s, claims, ds, n) <==> Arrives(s, claims, ds[..last], n) || Effective(s, claims, ds, last, n))
  {
    var last := |ds| - 1;
    var init := ds[..last];
    assert forall k :: 0 <= k < last ==> init[k] == ds[k];
    forall i | 0 <= i < last
      ensures Known(s, claims, ds, i, n) <==> Known(s, claims, init, i, n)
      ensures Effective(s, claims, ds, i, n) <==> Effective(s, claims, init, i, n)
    {
    }
    assert Known(s, claims, ds, last, n) <==> Known(s, claims, init, last, n);
  }

  lemma StepTracked(s: SlotView, claims: Claims, j: nat, d: Delivery)
    requires Setting(s, claims) && Fair(s, claims, d)
    ensures var r := Step(s, claims, j, d);
      && Setting(r, claims) && r.epochs.Keys == s.epochs.Keys
      && (forall n :: n in claims ==> r.epochs[n] == if Names(d, n) then claims[n].epoch else s.epochs[n])
      && (forall m :: m in s.epochs && m !in claims ==>
            r.epochs[m] == if d.ByUpdate? && d.hdr.sender == m then Max(s.epochs[m], d.hdr.configEpoch) else s.epochs[m])
      && (r.owner == s.owner || (r.owner.Some? && r.owner.value in Claimants(claims, j)))
  {
    hide Heard, Noted, Setting;
    var n := d.n;
    SettingKnows(s, claims);
    if d.ByPing? {
      HeardTracked(s, claims, j, n);
    } else {
      var s1 := Noted(s, d.hdr.sender, d.hdr.configEpoch);
      NotedTracked(s, claims, d.hdr.sender, d.hdr.configEpoch);
      HeardTracked(s1, claims, j, n);
      SettingBounds(s1, claims, n);
    }
  }

  lemma SettingBounds(s: SlotView, claims: Claims, n: NodeId)
    requires Setting(s, claims) && n in claims
    ensures n in s.epochs && s.epochs[n] <= claims[n].epoch
  {
  }

  lemma HeardTracked(s: SlotView, claims: Claims, j: nat, n: NodeId)
    requires Setting(s, claims) && n in claims
    ensures n in s.epochs
    ensures var r := Heard(s, n, claims[n].epoch, j in claims[n].slots);
      && Setting(r, claims) && r.epochs == s.epochs[n := claims[n].epoch] && r.epochs.Keys == s.epochs.Keys
      && (r.owner == s.owner || (r.owner.Some? && r.owner.value in Claimants(claims, j)))
  {
  }

  lemma NotedTracked(s: SlotView, claims: Claims, m: NodeId, epoch: nat)
    requires Setting(s, claims) && m in s.epochs && (m in claims ==> epoch == claims[m].epoch)
    ensures var r := Noted(s, m, epoch);
      && Setting(r, claims) && r.owner == s.owner && r.epochs.Keys == s.epochs.Keys
      && r.epochs == s.epochs[m := if m in claims then claims[m].epoch else Max(s.epochs[m], epoch)]
  {
  }


  /** What is known after the deliveries, and that only claimants gain the slot. */
  lemma {:induction false} Tracked(s: SlotView, claims: Claims, j: nat, ds: seq<Delivery>)
    requires Setting(s, claims) && AllFair(s, claims, ds) && Quiet(s, claims, ds)
    ensures var r := HearAll(s, claims, j, ds);
      && Setting(r, claims)
      && (forall n :: n in claims ==> r.epochs[n] == if Known(s, claims, ds, |ds|, n) then claims[n].epoch else s.epochs[n])
      && (s.owner.Some? && s.owner.value !in claims ==> r.epochs[s.owner.value] == s.epochs[s.owner.value])
      && (r.owner == s.owner || (r.owner.Some? && r.owner.value in Claimants(claims, j)))
  {
    hide Step, Setting, Fair, Known;
    if ds == [] {
      NothingKnown(s, claims);
    } else {
      var last := |ds| - 1;
      assert Fair(s, claims, ds[last]) && Fair(HearAll(s, claims, j, ds[..last]), claims, ds[last]) by {
        StaysFair(s, HearAll(s, claims, j, ds[..last]), claims, ds[last]);
      }
      Tracked(s, claims, j, ds[..last]);
      StepTracked(HearAll(s, claims, j, ds[..last]), claims, j, ds[last]);
      SettingKnows(s, claims);
      forall n | n in claims
        ensures HearAll(s, claims, j, ds).epochs[n] == if Known(s, claims, ds, |ds|, n) then claims[n].epoch else s.epochs[n]
      {
        ArrivesLast(s, claims, ds, n);
      }
    }
  }

  lemma StaysFair(s: SlotView, r: SlotView, claims: Claims, d: Delivery)
    requires Fair(s, claims, d) && r.epochs.Keys == s.epochs.Keys
    ensures Fair(r, claims, d)
  {
  }

  lemma SettingKnows(s: SlotView, claims: Claims)
    requires Setting(s, claims)
    ensures claims.Keys <= s.epochs.Keys && (s.owner.Some? ==> s.owner.value in s.epochs)
  {
  }

  lemma NothingKnown(s: SlotView, claims: Claims)
    requires Setting(s, claims)
    ensures claims.Keys <= s.epochs.Keys && (s.owner.Some? ==> s.owner.value in s.epochs)
    ensures forall n :: n in claims ==> s.epochs[n] == if Known(s, claims, [], 0, n) then claims[n].epoch else s.epochs[n]
  {
  }

  // ---------------------------------------------------------------- who owns the slot in the end

  /** A delivery that brings n's claim to an observer in this state. */
  predicate Brings(s: SlotView, claims: Claims, d: Delivery)
    requires d.n in claims && d.n in s.epochs
  {
    d.ByPing? || (d.hdr.sender != d.n && s.epochs[d.n] < claims[d.n].epoch)
  }

  /** Only a claim that is brought changes the owner, and it does unless the owner's epoch is as great. */
  lemma StepOwner(s: SlotView, claims: Claims, j: nat, d: Delivery)
    requires Setting(s, claims) && Fair(s, claims, d)
    ensures var r := Step(s, claims, j, d); var n := d.n;
      r.owner == if Brings(s, claims, d) && j in claims[n].slots
                    && (s.owner.Some? ==> s.owner != Some(n) && r.epochs[s.owner.value] < claims[n].epoch)
                 then Some(n) else s.owner
  {
  }

  lemma BringsIsEffective(s: SlotView, claims: Claims, j: nat, ds: seq<Delivery>)
    requires ds != [] && Setting(s, claims) && AllFair(s, claims, ds) && Quiet(s, claims, ds)
    ensures var last := |ds| - 1; var d, r := ds[last], HearAll(s, claims, j, ds[..last]);
      && Fair(r, claims, d) && Setting(r, claims)
      && (forall n :: n in claims ==> (Effective(s, claims, ds, last, n) <==> d.n == n && Brings(r, claims, d)))
  {
    hide Step, HearAll;
    var last := |ds| - 1;
    var d, r := ds[last], HearAll(s, claims, j, ds[..last]);
    assert Fair(s, claims, d);
    Tracked(s, claims, j, ds[..last]);
    ArrivesLast(s, claims, ds, d.n);
  }

  lemma ArrivedIsKnown(s: SlotView, claims: Claims, ds: seq<Delivery>, n: NodeId)
    requires n in claims && n in s.epochs && Arrives(s, claims, ds, n)
    ensures Known(s, claims, ds, |ds|, n)
  {
    var i :| 0 <= i < |ds| && Effective(s, claims, ds, i, n);
    assert Names(ds[i], n);
  }

  /** Of a free slot: it goes to the claimant of greatest epoch among those whose claim arrives. */
  ghost predicate GreatestArrived(s: SlotView, claims: Claims, j: nat, ds: seq<Delivery>, owner: Option<NodeId>)
    requires claims.Keys <= s.epochs.Keys
  {
    match owner
    case None => forall n :: n in Claimants(claims, j) ==> !Arrives(s, claims, ds, n)
    case Some(w) =>
      && w in Claimants(claims, j) && Arrives(s, claims, ds, w)
      && forall n :: n in Claimants(claims, j) && Arrives(s, claims, ds, n) ==> claims[n].epoch <= claims[w].epoch
  }

  lemma {:induction false} FreeSlotOwner(s: SlotView, claims: Claims, j: nat, ds: seq<Delivery>)
    requires Setting(s, claims) && AllFair(s, claims, ds) && s.owner == None
    ensures GreatestArrived(s, claims, j, ds, HearAll(s, claims, j, ds).owner)
  {
    if ds != [] {
      var last := |ds| - 1;
      var d, r := ds[last], HearAll(s, claims, j, ds[..last]);
      FreeSlotOwner(s, claims, j, ds[..last]);
      BringsIsEffective(s, claims, j, ds);
      Tracked(s, claims, j, ds[..last]);
      StepOwner(r, claims, j, d);
      StepTracked(r, claims, j, d);
      hide Step, HearAll, Effective, Known, Fair, Brings;
      if r.owner.Some? {
        ArrivedIsKnown(s, claims, ds[..last], r.owner.value);
      }
      forall n | n in Claimants(claims, j)
        ensures Arrives(s, claims, ds, n) <==> Arrives(s, claims, ds[..last], n) || (d.n == n && Brings(r, claims, d))
      {
        ArrivesLast(s, claims, ds, n);
      }
      hide Arrives;
    }
  }

  /** The epoch a node will have published once every claim is heard. */
  function Announced(s: SlotView, claims: Claims, n: NodeId): nat
    requires n in s.epochs
  {
    if n in claims then claims[n].epoch else s.epochs[n]
  }

  /** Whatever owner g finds, g's claim beats it: nobody, another claimant, or one that will never
      have published an epoch as great. */
  ghost predicate Beatable(s: SlotView, claims: Claims, j: nat, g: NodeId)
    requires g in claims
  {
    s.owner.Some? ==>
      || s.owner.value in Claimants(claims, j)
      || (s.owner.value in s.epochs && Announced(s, claims, s.owner.value) < claims[g].epoch)
  }

  /** No delivery takes the slot from g: what brings a claim greater than g's epoch as first known
      comes after g's own epoch, or with it. */
  ghost predicate Undisturbed(s: SlotView, claims: Claims, j: nat, ds: seq<Delivery>, g: NodeId)
    requires claims.Keys <= s.epochs.Keys && g in claims
  {
    forall i, n :: 0 <= i < |ds| && n in Claimants(claims, j) && n != g && claims[n].epoch > s.epochs[g] ==>
      (Effective(s, claims, ds, i, n) ==> Known(s, claims, ds, i, g) || Names(ds[i], g))
  }

  lemma UndisturbedLast(s: SlotView, claims: Claims, j: nat, ds: seq<Delivery>, g: NodeId)
    requires ds != [] && claims.Keys <= s.epochs.Keys && g in claims
    ensures var last := |ds| - 1;
      Undisturbed(s, claims, j, ds, g) <==>
        && Undisturbed(s, claims, j, ds[..last], g)
        && (forall n :: n in Claimants(claims, j) && n != g && claims[n].epoch > s.epochs[g] ==>
              (Effective(s, claims, ds, last, n) ==> Known(s, claims, ds, last, g) || Names(ds[last], g)))
  {
    var last := |ds| - 1;
    var init := ds[..last];
    assert forall k :: 0 <= k < last ==> init[k] == ds[k];
    forall i, n | 0 <= i < last && n in claims
      ensures Known(s, claims, ds, i, n) <==> Known(s, claims, init, i, n)
      ensures Effective(s, claims, ds, i, n) <==> Effective(s, claims, init, i, n)
    {
    }
  }

  /** The greatest claimant owns the slot in the end if and only if its claim arrives, or it owned
      the slot before and no claim takes it away first. */
  ghost predicate Prevails(s: SlotView, claims: Claims, j: nat, ds: seq<Delivery>, g: NodeId)
    requires claims.Keys <= s.epochs.Keys && g in claims
  {
    Arrives(s, claims, ds, g) || (s.owner == Some(g) && Undisturbed(s, claims, j, ds, g))
  }

  lemma {:induction false} GreatestPrevailsExactly(s: SlotView, claims: Claims, j: nat, g: NodeId, ds: seq<Delivery>)
    requires Setting(s, claims) && AllFair(s, claims, ds) && Quiet(s, claims, ds)
    requires IsGreatest(claims, j, g) && Beatable(s, claims, j, g)
    ensures HearAll(s, claims, j, ds).owner == Some(g) <==> Prevails(s, claims, j, ds, g)
  {
    if ds != [] {
      var last := |ds| - 1;
      var d, r := ds[last], HearAll(s, claims, j, ds[..last]);
      GreatestPrevailsExactly(s, claims, j, g, ds[..last]);
      BringsIsEffective(s, claims, j, ds);
      Tracked(s, claims, j, ds[..last]);
      Tracked(s, claims, j, ds);
      StepOwner(r, claims, j, d);
      ArrivesLast(s, claims, ds, g);
      UndisturbedLast(s, claims, j, ds, g);
      if Arrives(s, claims, ds[..last], g) {
        ArrivedIsKnown(s, claims, ds[..last], g);
      }
    }
  }

  // ---------------------------------------------------------------- the whole table

  lemma ClaimantStartIsQuiet(s: SlotView, claims: Claims, j: nat, ds: seq<Delivery>)
    requires s.owner.Some? ==> s.owner.value in Claimants(claims, j)
    ensures Quiet(s, claims, ds)
  {
  }

  /** Convergence of the whole table, from an empty one or one whose every binding is claimed by its
      owner: after any deliveries, in any order and with repeats, a slot is bound to its claimant of
      greatest epoch exactly when that claimant prevails; unclaimed slots stay free. */
  lemma TableConverges(v: View, claims: Claims, ds: seq<Delivery>, j: nat)
    requires Observer(v) && j < CLUSTER_SLOTS && Setting(SlotViewOf(v, j), claims)
    requires forall d :: d in ds ==> Delivers(v, claims, d)
    requires j in v.owner ==> v.owner[j] in Claimants(claims, j)
    ensures var final := DeliverAll(v, claims, ds);
      && (Claimants(claims, j) == {} ==> j !in final.owner)
      && forall g :: IsGreatest(claims, j, g) ==>
           (j in final.owner && final.owner[j] == g <==> Prevails(SlotViewOf(v, j), claims, j, ds, g))
  {
    hide DeliverAll, HearAll, Observer, Prevails, Arrives;
    var s := SlotViewOf(v, j);
    DeliverAllIsHearAll(v, claims, ds, j);
    ClaimantStartIsQuiet(s, claims, j, ds);
    if Claimants(claims, j) == {} {
      FreeSlotOwner(s, claims, j, ds);
    }
    forall g: NodeId | IsGreatest(claims, j, g)
      ensures HearAll(s, claims, j, ds).owner == Some(g) <==> Prevails(s, claims, j, ds, g)
    {
      GreatestPrevailsExactly(s, claims, j, g, ds);
    }
  }

  /** From an empty table every slot goes to the greatest of the claimants whose claim arrives. */
  lemma EmptyTableFills(v: View, claims: Claims, ds: seq<Delivery>, j: nat)
    requires Observer(v) && j < CLUSTER_SLOTS && Setting(SlotViewOf(v, j), claims) && j !in v.owner
    requires forall d :: d in ds ==> Delivers(v, claims, d)
    ensures GreatestArrived(SlotViewOf(v, j), claims, j, ds, SlotViewOf(DeliverAll(v, claims, ds), j).owner)
  {
    hide DeliverAll, HearAll, Observer, GreatestArrived;
    DeliverAllIsHearAll(v, claims, ds, j);
    FreeSlotOwner(SlotViewOf(v, j), claims, j, ds);
  }

  /** Pings suffice: whatever UPDATEs come between, if every claimant is heard by ping at least once
      the table converges. */
  lemma PingsConverge(v: View, claims: Claims, ds: seq<Delivery>, j: nat)
    requires Observer(v) && j < CLUSTER_SLOTS && Setting(SlotViewOf(v, j), claims)
    requires forall d :: d in ds ==> Delivers(v, claims, d)
    requires forall n :: n in claims ==> ByPing(n) in ds
    requires j in v.owner ==> v.owner[j] in Claimants(claims, j)
    ensures var final := DeliverAll(v, claims, ds);
      if Claimants(claims, j) == {} then j !in final.owner
      else j in final.owner && IsGreatest(claims, j, final.owner[j])
  {
    hide DeliverAll, Observer, Undisturbed;
    TableConverges(v, claims, ds, j);
    if Claimants(claims, j) != {} {
      var g := GreatestExists(claims, j);
      PingArrives(SlotViewOf(v, j), claims, ds, g);
    }
  }

  lemma PingArrives(s: SlotView, claims: Claims, ds: seq<Delivery>, n: NodeId)
    requires n in claims && n in s.epochs && ByPing(n) in ds
    ensures Arrives(s, claims, ds, n)
  {
    var i :| 0 <= i < |ds| && ds[i] == ByPing(n);
    assert Effective(s, claims, ds, i, n);
  }

  lemma GreatestExists(claims: Claims, j: nat) returns (g: NodeId)
    requires Claimants(claims, j) != {}
    ensures IsGreatest(claims, j, g)
  {
    g := GreatestIn(claims, Claimants(claims, j));
  }

  lemma GreatestIn(claims: Claims, s: set<NodeId>) returns (g: NodeId)
    requires s != {} && s <= claims.Keys
    ensures g in s && forall n :: n in s ==> claims[n].epoch <= claims[g].epoch
    decreases |s|
  {
    var x :| x in s;
    if s == {x} {
      g := x;
    } else {
      assert |s - {x}| < |s|;
      var y := GreatestIn(claims, s - {x});
      g := if claims[y].epoch < claims[x].epoch then x else y;
      assert forall n :: n in s ==> n == x || n in s - {x};
    }
  }

  /** Where UPDATEs diverge: nodes 1 and 2 claim slot 0 at epochs 5 and 3, and tell an observer with
      an empty table of each other. If node 1 speaks first its epoch is spent on its header, the
      UPDATE about it is no news, and slot 0 stays with node 2. */
  lemma UpdatesDiverge() returns (v: View, claims: Claims, first: Delivery, second: Delivery)
    ensures Observer(v) && v.owner == map[] && Setting(SlotViewOf(v, 0), claims)
    ensures Delivers(v, claims, first) && Delivers(v, claims, second) && first.ByUpdate? && second.ByUpdate?
    ensures IsGreatest(claims, 0, 1) && 2 in Claimants(claims, 0)
    ensures SlotViewOf(DeliverAll(v, claims, [first, second]), 0).owner == Some(2)
    ensures SlotViewOf(DeliverAll(v, claims, [second, first]), 0).owner == Some(1)
  {
    hide DeliverAll, HearAll, Observer, Setting, Delivers, Diverging, AllFair;
    v, claims := DivergingStart();
    first, second := ByUpdate(PingOf(1, claims[1]), 2), ByUpdate(PingOf(2, claims[2]), 1);
    DivergingMeets(v, claims, first, second);
    DivergeOnSlot(v, claims, first, second);
    DeliverAllIsHearAll(v, claims, [first, second], 0);
    DeliverAllIsHearAll(v, claims, [second, first], 0);
  }

  ghost predicate Diverging(v: View, claims: Claims) {
    && v.me == 0 && v.owner == map[] && v.importing == map[] && v.peers.Keys == {0, 1, 2}
    && (forall n :: n in v.peers ==> v.peers[n] == Peer(Master, false, false, None, 0))
    && claims == map[1 := Claim(5, 5, {0}), 2 := Claim(5, 3, {0})]
  }

  lemma DivergingStart() returns (v: View, claims: Claims)
    ensures Diverging(v, claims) && v.owner == map[] && claims.Keys == {1, 2}
  {
    var peer := Peer(Master, false, false, None, 0);
    v := View(0, 0, 0, map[0 := peer, 1 := peer, 2 := peer], map[], map[], 0, 0, false, 0);
    claims := map[1 := Claim(5, 5, {0}), 2 := Claim(5, 3, {0})];
  }

  lemma DivergingMeets(v: View, claims: Claims, first: Delivery, second: Delivery)
    requires Diverging(v, claims)
    requires first == ByUpdate(PingOf(1, claims[1]), 2) && second == ByUpdate(PingOf(2, claims[2]), 1)
    ensures Observer(v) && Setting(SlotViewOf(v, 0), claims)
    ensures Delivers(v, claims, first) && Delivers(v, claims, second)
    ensures IsGreatest(claims, 0, 1) && 2 in Claimants(claims, 0)
  {
    assert SlotsOf(v, 0) == {};
  }

  lemma DivergeOnSlot(v: View, claims: Claims, first: Delivery, second: Delivery)
    requires Diverging(v, claims)
    requires first == ByUpdate(PingOf(1, claims[1]), 2) && second == ByUpdate(PingOf(2, claims[2]), 1)
    ensures var s := SlotViewOf(v, 0);
      && AllFair(s, claims, [first, second]) && AllFair(s, claims, [second, first])
      && HearAll(s, claims, 0, [first, second]).owner == Some(2)
      && HearAll(s, claims, 0, [second, first]).owner == Some(1)
  {
    var s := SlotViewOf(v, 0);
    assert Fair(s, claims, first) && Fair(s, claims, second);
    HearTwo(s, claims, 0, first, second);
    HearTwo(s, claims, 0, second, first);
    assert Step(s, claims, 0, first) == SlotView(Some(2), s.epochs[1 := 5][2 := 3]);
    assert Step(s, claims, 0, second) == SlotView(Some(1), s.epochs[2 := 3][1 := 5]);
  }

  lemma HearTwo(s: SlotView, claims: Claims, j: nat, a: Delivery, b: Delivery)
    requires Fair(s, claims, a) && Fair(s, claims, b)
    ensures AllFair(s, claims, [a, b]) && Step(s, claims, j, a).epochs.Keys == s.epochs.Keys
    ensures HearAll(s, claims, j, [a, b]) == Step(Step(s, claims, j, a), claims, j, b)
  {
    assert [a, b][..1] == [a] && [a][..0] == [];
    assert HearAll(s, claims, j, [a]) == Step(s, claims, j, a);
  }

  // ---------------------------------------------------------------- when the order matters

  /** Deliveries by which every claim arrives. */
  ghost predicate Covers(s: SlotView, claims: Claims, ds: seq<Delivery>)
    requires claims.Keys <= s.epochs.Keys
  {
    AllFair(s, claims, ds) && Quiet(s, claims, ds) && forall n :: n in claims ==> Arrives(s, claims, ds, n)
  }

  ghost predicate OrderIndependent(s: SlotView, claims: Claims, j: nat)
    requires claims.Keys <= s.epochs.Keys
  {
    forall ds, es :: Covers(s, claims, ds) && Covers(s, claims, es) ==>
      HearAll(s, claims, j, ds).owner == HearAll(s, claims, j, es).owner
  }

  /** The slot is free, or its owner claims it, or no claimant beats the owner's epoch as known now,
      or some claimant beats even the epoch the owner is about to publish. */
  ghost predicate Decided(s: SlotView, claims: Claims, j: nat)
    requires Setting(s, claims)
  {
    || s.owner == None
    || s.owner.value in Claimants(claims, j)
    || (forall n :: n in Claimants(claims, j) ==> claims[n].epoch <= s.epochs[s.owner.value])
    || (exists n :: n in Claimants(claims, j) && claims[n].epoch > Announced(s, claims, s.owner.value))
  }

  /** An owner no claimant can beat keeps the slot, whatever is heard. */
  lemma {:induction false} UnbeatenStays(s: SlotView, claims: Claims, j: nat, ds: seq<Delivery>)
    requires Setting(s, claims) && AllFair(s, claims, ds) && Quiet(s, claims, ds)
    requires s.owner == None ==> Claimants(claims, j) == {}
    requires s.owner.Some? ==> forall n :: n in Claimants(claims, j) ==> claims[n].epoch <= s.epochs[s.owner.value]
    ensures HearAll(s, claims, j, ds).owner == s.owner
  {
    if ds != [] {
      var last := |ds| - 1;
      var d := ds[last];
      UnbeatenStays(s, claims, j, ds[..last]);
      BringsIsEffective(s, claims, j, ds);
      Tracked(s, claims, j, ds);
      StepOwner(HearAll(s, claims, j, ds[..last]), claims, j, d);
      assert j in claims[d.n].slots ==> d.n in Claimants(claims, j);
    }
  }

  lemma DecidedIsIndependent(s: SlotView, claims: Claims, j: nat, ds: seq<Delivery>, es: seq<Delivery>)
    requires Setting(s, claims) && Decided(s, claims, j) && Covers(s, claims, ds) && Covers(s, claims, es)
    ensures HearAll(s, claims, j, ds).owner == HearAll(s, claims, j, es).owner
  {
    hide HearAll, Arrives, Undisturbed, AllFair, Quiet;
    if Claimants(claims, j) == {} {
      UnbeatenStays(s, claims, j, ds);
      UnbeatenStays(s, claims, j, es);
    } else {
      var g := GreatestExists(claims, j);
      if Beatable(s, claims, j, g) {
        GreatestPrevailsExactly(s, claims, j, g, ds);
        GreatestPrevailsExactly(s, claims, j, g, es);
      } else {
        UnbeatenStays(s, claims, j, ds);
        UnbeatenStays(s, claims, j, es);
      }
    }
  }

  /** A ping of m, then a ping of everyone. */
  function PingsAfter(m: NodeId, ds: seq<NodeId>): seq<Delivery> {
    seq(|ds| + 1, i requires 0 <= i <= |ds| => ByPing(if i == 0 then m else ds[i - 1]))
  }

  lemma PingsCover(s: SlotView, claims: Claims, m: NodeId, ds: seq<NodeId>)
    requires Setting(s, claims) && m in claims && forall n :: n in ds <==> n in claims
    ensures Covers(s, claims, PingsAfter(m, ds))
  {
    var all := PingsAfter(m, ds);
    forall n | n in claims ensures Arrives(s, claims, all, n) {
      var i :| 0 <= i < |ds| && ds[i] == n;
      assert all[i + 1] == ByPing(n);
      PingArrives(s, claims, all, n);
    }
  }

  /** An owner that claims nothing keeps the slot for good once its greater epoch is heard. */
  lemma {:induction false} OwnerFirstKeeps(s: SlotView, claims: Claims, j: nat, m: NodeId, ds: seq<NodeId>)
    requires Setting(s, claims) && s.owner == Some(m) && m in claims && m !in Claimants(claims, j)
    requires forall n :: n in Claimants(claims, j) ==> claims[n].epoch <= claims[m].epoch
    requires forall n :: n in ds ==> n in claims
    ensures AllFair(s, claims, PingsAfter(m, ds)) && HearAll(s, claims, j, PingsAfter(m, ds)).owner == Some(m)
  {
    var all := PingsAfter(m, ds);
    var d := all[|ds|];
    if ds == [] {
      assert all[..0] == [];
      StepOwner(s, claims, j, d);
    } else {
      var init := ds[..|ds| - 1];
      assert all[..|ds|] == PingsAfter(m, init);
      OwnerFirstKeeps(s, claims, j, m, init);
      Tracked(s, claims, j, PingsAfter(m, init));
      assert Names(PingsAfter(m, init)[0], m);
      StepOwner(HearAll(s, claims, j, PingsAfter(m, init)), claims, j, d);
      StepTracked(HearAll(s, claims, j, PingsAfter(m, init)), claims, j, d);
      assert j in claims[d.n].slots ==> d.n in Claimants(claims, j);
    }
  }

  /** It loses the slot for good once a claim greater than its epoch as first known is heard. */
  lemma {:induction false} ClaimantFirstTakes(s: SlotView, claims: Claims, j: nat, m: NodeId, c: NodeId, ds: seq<NodeId>)
    requires Setting(s, claims) && s.owner == Some(m) && m !in Claimants(claims, j)
    requires c in Claimants(claims, j) && claims[c].epoch > s.epochs[m]
    requires forall n :: n in ds ==> n in claims
    ensures AllFair(s, claims, PingsAfter(c, ds)) && HearAll(s, claims, j, PingsAfter(c, ds)).owner != Some(m)
  {
    var all := PingsAfter(c, ds);
    var d := all[|ds|];
    if ds == [] {
      assert all[..0] == [];
      StepOwner(s, claims, j, d);
    } else {
      var init := ds[..|ds| - 1];
      assert all[..|ds|] == PingsAfter(c, init);
      ClaimantFirstTakes(s, claims, j, m, c, init);
      Tracked(s, claims, j, PingsAfter(c, init));
      StepOwner(HearAll(s, claims, j, PingsAfter(c, init)), claims, j, d);
      assert j in claims[d.n].slots ==> d.n in Claimants(claims, j);
    }
  }

  lemma Enumerate(s: set<NodeId>) returns (ds: seq<NodeId>)
    ensures forall n :: n in ds <==> n in s
    decreases |s|
  {
    if s == {} {
      ds := [];
    } else {
      var x :| x in s;
      assert |s - {x}| < |s|;
      var rest := Enumerate(s - {x});
      ds := [x] + rest;
    }
  }

  /** Otherwise a claimant heard first takes the slot for good, and the owner heard first keeps it. */
  lemma UndecidedDepends(s: SlotView, claims: Claims, j: nat) returns (ds: seq<Delivery>, es: seq<Delivery>)
    requires Setting(s, claims) && !Decided(s, claims, j)
    ensures Covers(s, claims, ds) && Covers(s, claims, es)
    ensures HearAll(s, claims, j, ds).owner != HearAll(s, claims, j, es).owner
  {
    hide HearAll, Covers;
    var m := s.owner.value;
    var c :| c in Claimants(claims, j) && claims[c].epoch > s.epochs[m];
    var all := Enumerate(claims.Keys);
    ds, es := PingsAfter(m, all), PingsAfter(c, all);
    PingsCover(s, claims, m, all);
    PingsCover(s, claims, c, all);
    OwnerFirstKeeps(s, claims, j, m, all);
    ClaimantFirstTakes(s, claims, j, m, c, all);
  }

  /** The final owner of a slot is the same for all deliveries by which every claim arrives, exactly
      when it is decided. */
  lemma OrderIndependenceExact(s: SlotView, claims: Claims, j: nat)
    requires Setting(s, claims)
    ensures OrderIndependent(s, claims, j) <==> Decided(s, claims, j)
  {
    if Decided(s, claims, j) {
      forall ds, es | Covers(s, claims, ds) && Covers(s, claims, es)
        ensures HearAll(s, claims, j, ds).owner == HearAll(s, claims, j, es).owner
      {
        DecidedIsIndependent(s, claims, j, ds, es);
      }
    } else {
      var ds, es := UndecidedDepends(s, claims, j);
    }
  }
}
