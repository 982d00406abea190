/**
 The packet handlers of the bus (clusterProcessPacket) on the state in memory. Each does to the view
 exactly what its counterpart in ClusterView does, so that what is proved of all runs of the cluster
 holds of the code that keeps bitmaps, counters and slot arrays.
 */
module ClusterPackets {
  import opened Common
  import opened ClusterView
  import opened ClusterState
  import opened SlotBitmap

  /** A packet header as it is received, with a bitmap of slots. */
  datatype Message = Message(
    sender: NodeId,
    currentEpoch: nat,
    configEpoch: nat,
    slots: Bitmap,
    slaveof: Option<NodeId>)

  function HeaderOf(m: Message): Header {
    Header(m.sender, m.currentEpoch, m.configEpoch, SlotSet(m.slots), m.slaveof)
  }

  // ---------------------------------------------------------------- bitmaps compared byte by byte

  lemma ByteFromBits(x: bv8, y: bv8)
    requires BitOf(x, 0) == BitOf(y, 0) && BitOf(x, 1) == BitOf(y, 1) && BitOf(x, 2) == BitOf(y, 2) && BitOf(x, 3) == BitOf(y, 3)
    requires BitOf(x, 4) == BitOf(y, 4) && BitOf(x, 5) == BitOf(y, 5) && BitOf(x, 6) == BitOf(y, 6) && BitOf(x, 7) == BitOf(y, 7)
    ensures x == y
  {
  }

  /** memcmp tells two bitmaps apart exactly when they hold different slots. */
  lemma SameBitmap(a: Bitmap, b: Bitmap)
    ensures a == b <==> SlotSet(a) == SlotSet(b)
  {
    if SlotSet(a) == SlotSet(b) {
      forall i | 0 <= i < 2048 ensures a[i] == b[i] {
        forall k | 0 <= k < 8 ensures BitOf(a[i], k) == BitOf(b[i], k) {
          SameSlot(a, b, i, k);
        }
        hide BitOf;
        ByteFromBits(a[i], b[i]);
      }
    }
  }

  lemma SameSlot(a: Bitmap, b: Bitmap, i: nat, k: nat)
    requires i < 2048 && k < 8 && SlotSet(a) == SlotSet(b)
    ensures BitOf(a[i], k) == BitOf(b[i], k)
  {
    hide BitOf;
    var j := 8 * i + k;
    assert j / 8 == i && j % 8 == k;
    assert j in SlotSet(a) <==> j in SlotSet(b);
    assert TestBit(a, j) <==> TestBit(b, j);
  }

  // ---------------------------------------------------------------- parts of the handlers

  lemma SameEpoch(v: View, n: NodeId)
    requires n in v.peers
    ensures WithConfigEpoch(v, n, v.peers[n].configEpoch) == v
  {
    assert v.peers[n := v.peers[n].(configEpoch := v.peers[n].configEpoch)] == v.peers;
  }

  /** The view a valid state stands for, known to be well formed. */
  ghost function ViewOf(s: State): (v: View)
    requires s.Valid()
    reads s, s.slots, s.importing
    ensures v == s.Model() && Wf(v)
  {
    s.ModelIsWf();
    s.Model()
  }

  /** The part every packet goes through. */
  method OnHeader(s: State, m: Message)
    requires s.Valid()
    modifies s`nodes, s`currentEpoch
    ensures s.Valid() && s.Model() == ProcessHeader(old(s.Model()), HeaderOf(m))
    ensures s.nodes.Keys == old(s.nodes.Keys)
  {
    assert m.sender in s.nodes <==> m.sender in Peers(s.nodes);
    if m.sender in s.nodes && !s.nodes[m.sender].peer.handshake {
      SameEpoch(s.Model().(currentEpoch := Max(s.currentEpoch, m.currentEpoch)), m.sender);
      if m.currentEpoch > s.currentEpoch {
        s.SetCurrentEpoch(m.currentEpoch);
      }
      if m.configEpoch > s.nodes[m.sender].peer.configEpoch {
        s.SetConfigEpoch(m.sender, m.configEpoch);
      }
    }
  }

  /** The one ping that leaves a node without a role it can play: its own, sent as a replica and read as a
      master that no longer knows the master it names. */
  ghost predicate Orphans(v: View, h: Header)
    requires v.me in v.peers
  {
    h.sender == v.me && v.peers[v.me].role == Master && h.slaveof.Some? && h.slaveof.value !in v.peers
  }

  /** "Check for role switch" */
  method OnRole(s: State, m: Message)
    requires s.Valid() && m.sender in s.nodes && !Orphans(ViewOf(s), HeaderOf(m))
    modifies s`nodes, s.slots
    ensures s.Valid() && s.Model() == RoleSwitch(old(s.Model()), HeaderOf(m))
    ensures s.nodes.Keys == old(s.nodes.Keys)
  {
    s.Entry(m.sender);
    if m.slaveof == None {
      s.SetNodeAsMaster(m.sender);
    } else {
      s.Entry(m.slaveof.value);
      BecomeReplica(s, m.sender, m.slaveof.value);
    }
  }

  /** The sender announced itself as a replica of the master of that name, which may be unknown. */
  method BecomeReplica(s: State, n: NodeId, master: NodeId)
    requires s.Valid() && n in s.nodes
    requires n == s.me && s.nodes[n].peer.role == Master ==> master in s.nodes
    modifies s`nodes, s.slots
    ensures s.Valid() && s.nodes.Keys == old(s.nodes.Keys)
    ensures var v := old(s.Model()); var v1 := if v.peers[n].role == Master then Demoted(v, n) else v;
      s.Model() == if master in v1.peers then v1.(peers := v1.peers[n := v1.peers[n].(slaveof := Some(master))]) else v1
  {
    hide AllAgree, InTable, PeersWf, Peers, Owners, Replica, ClusterView.DelNodeSlots, Demoted;
    ghost var v := s.Model();
    s.Entry(n);
    s.Entry(master);
    ReplicaIs(v, n, master);
    SameKeys(s);
    TableWf(s);
    ReplicaIsWf(s.me, v.peers, n, master);
    var peer, known := s.nodes[n].peer, master in s.nodes;
    if peer.role == Master {
      var deleted := s.DelNodeSlots(n);
      s.Entry(n);
      SameKeys(s);
    }
    s.SetPeer(n, Replica(peer, master, known));
  }

  lemma TableWf(s: State)
    requires s.Valid()
    ensures PeersWf(s.me, s.Model().peers)
  {
  }

  lemma SameKeys(s: State)
    requires s.Valid()
    ensures s.nodes.Keys == s.Model().peers.Keys
  {
  }

  lemma ReplicaIs(v: View, n: NodeId, master: NodeId)
    requires n in v.peers
    ensures ClusterView.DelNodeSlots(v, n).peers == v.peers
    ensures var v1 := if v.peers[n].role == Master then Demoted(v, n) else v;
      var rest := if v.peers[n].role == Master then ClusterView.DelNodeSlots(v, n) else v;
      (if master in v1.peers then v1.(peers := v1.peers[n := v1.peers[n].(slaveof := Some(master))]) else v1)
      == rest.(peers := v.peers[n := Replica(v.peers[n], master, master in v.peers)])
  {
    assert v.peers[n := v.peers[n]] == v.peers;
  }

  function Replica(peer: Peer, master: NodeId, known: bool): Peer {
    peer.(role := if peer.role == Master then Slave else peer.role, slaveof := if known then Some(master) else peer.slaveof)
  }

  lemma ReplicaIsWf(me: NodeId, peers: map<NodeId, Peer>, n: NodeId, master: NodeId)
    requires PeersWf(me, peers) && n in peers && (n == me && peers[n].role == Master ==> master in peers)
    ensures PeersWf(me, peers[n := Replica(peers[n], master, master in peers)])
  {
  }

  /** Whether the slots a ping claims differ from those held for the sender or its master. */
  method IsDirty(s: State, m: Message) returns (dirty: bool)
    requires s.Valid() && m.sender in s.nodes
    ensures m.sender in s.Model().peers && (dirty <==> Dirty(s.Model(), HeaderOf(m)))
  {
    assert m.sender in Peers(s.nodes);
    var node := s.nodes[m.sender].peer;
    var claimant := if node.role == Master then Some(m.sender) else node.slaveof;
    dirty := false;
    s.ModelIsWf();
    if claimant.Some? {
      assert claimant.value in Peers(s.nodes);
      SameBitmap(s.nodes[claimant.value].slots, m.slots);
      dirty := s.nodes[claimant.value].slots != m.slots;
    }
  }

  /** The loop that looks for a slot the sender claims and someone of greater epoch owns. */
  method FirstOutdated(s: State, sender: NodeId, epoch: nat, claimed: Bitmap) returns (slot: Option<nat>)
    requires s.Valid()
    ensures var stale := Outdated(s.Model(), sender, epoch, SlotSet(claimed));
      if slot.Some? then slot.value in stale && (forall j :: j in stale ==> slot.value <= j) else stale == {}
  {
    ghost var stale := Outdated(s.Model(), sender, epoch, SlotSet(claimed));
    for j := 0 to CLUSTER_SLOTS
      invariant forall k :: k in stale ==> j <= k
    {
      if TestBit(claimed, j) && s.slots[j] != Some(sender) && s.slots[j] != None {
        if s.nodes[s.slots[j].value].peer.configEpoch > epoch {
          return Some(j);
        }
      }
    }
    return None;
  }

  // ---------------------------------------------------------------- what a packet does to this node

  /** This node plays the same role, for the same master. */
  ghost predicate SameRole(v: View, v': View)
    requires v.me in v.peers && v.me in v'.peers
  {
    v'.peers[v.me].role == v.peers[v.me].role && v'.peers[v.me].slaveof == v.peers[v.me].slaveof
  }

  /** The slots whose keys go: those this node no longer owns, unless it now replicates their owner. */
  ghost function Lost(v: View, v': View): set<nat>
    requires v.me in v.peers && v.me in v'.peers
  {
    if SameRole(v, v') then SlotsOf(v, v.me) - SlotsOf(v', v.me) else {}
  }

  /** An update of slots changes this node's role, or its master, exactly when it demotes it. */
  lemma DemotionShows(v: View, sender: NodeId, epoch: nat, slots: set<nat>)
    requires Wf(v) && sender != v.me
    ensures SameRole(v, UpdateSlots(v, sender, epoch, slots)) <==> !Demotes(v, sender, epoch, slots)
  {
    hide UpdateSlots;
    UpdateCases(v, sender, epoch, slots);
    if Demotes(v, sender, epoch, slots) && v.peers[v.me].role == Slave {
      assert sender !in SlotOwners(v, Rebound(v, sender, epoch, slots));
      assert MyMaster(v) in SlotOwners(v, Rebound(v, sender, epoch, slots)) by {
        var j :| j in SlotsOf(v, MyMaster(v));
        assert j in Rebound(v, sender, epoch, slots);
      }
    }
  }

  ghost function SlotOwners(v: View, slots: set<nat>): set<NodeId> {
    set j | j in slots && j in v.owner :: v.owner[j]
  }

  /** What comes before the update of slots leaves this node's role and slots alone. */
  lemma RolesKeepMe(v: View, h: Header)
    requires Wf(v) && h.sender in v.peers && h.sender != v.me
    ensures var v2 := RoleSwitch(ProcessHeader(v, h), h);
      SameRole(v, v2) && SlotsOf(v2, v.me) == SlotsOf(v, v.me)
  {
    var v1 := ProcessHeader(v, h);
    HeaderKeepsMe(v, h);
    hide ProcessHeader;
    var v2 := RoleSwitch(v1, h);
    assert v2.peers[v.me] == v1.peers[v.me];
    forall j ensures j in SlotsOf(v2, v.me) <==> j in SlotsOf(v1, v.me) {
    }
  }

  lemma HeaderKeepsMe(v: View, h: Header)
    requires Wf(v)
    ensures SameRole(v, ProcessHeader(v, h)) && ProcessHeader(v, h).owner == v.owner
    ensures Lost(v, ProcessHeader(v, h)) == {}
  {
  }

  /** A ping that would have this node follow the sender while it owns slots stops the server. */
  ghost predicate PingStops(v: View, h: Header)
    requires Wf(v)
  {
    && h.sender in v.peers
    && var v2 := RoleSwitch(ProcessHeader(v, h), h);
       && v2.peers[h.sender].role == Master && Dirty(v2, h)
       && Stops(v2, h.sender, SenderConfigEpoch(v, h), h.slots)
  }

  ghost predicate UpdateStops(v: View, h: Header, about: NodeId, epoch: nat, slots: set<nat>)
    requires Wf(v)
  {
    && h.sender in v.peers && about in v.peers
    && var v1 := ProcessHeader(v, h);
       && v1.peers[about].configEpoch < epoch
       && Stops(BelieveUpdate(v1, about, epoch), about, epoch, slots)
  }

  /** Such a ping: replica 3 of master 1 took slot 5 by CLUSTER ADDSLOTS, and master 2 claims slot 0, the
      only slot of master 1, at a greater epoch. */
  lemma ReplicaWithSlotStops() returns (v: View, h: Header)
    ensures Wf(v) && PingStops(v, h)
    ensures v.peers[v.me].role == Slave && SlotsOf(v, v.me) == {5} && h.slots == {0}
  {
    v := View(3, 2, 0, map[1 := Peer(Master, false, false, None, 1), 2 := Peer(Master, false, false, None, 2),
                           3 := Peer(Slave, false, false, Some(1), 0)],
              map[0 := 1, 5 := 3], map[], 1, 0, false, 0);
    h := Header(2, 2, 2, {0}, None);
    assert RoleSwitch(ProcessHeader(v, h), h) == v by {
      assert v.peers[2 := v.peers[2]] == v.peers;
    }
    ClaimOfLastSlotStops(v, h);
  }

  lemma ClaimOfLastSlotStops(v: View, h: Header)
    requires v.me == 3 && v.peers.Keys == {1, 2, 3} && v.owner == map[0 := 1, 5 := 3] && v.importing == map[]
    requires v.peers[1].configEpoch == 1 && v.peers[3].role == Slave && v.peers[3].slaveof == Some(1)
    requires v.peers[2].role == Master && h.sender == 2 && h.slots == {0}
    ensures SlotsOf(v, 3) == {5} && Dirty(v, h) && Stops(v, 2, 2, {0})
  {
    assert SlotsOf(v, 1) == {0} && SlotsOf(v, 2) == {};
    assert 0 in Rebound(v, 2, 2, {0}) && 5 !in Rebound(v, 2, 2, {0});
  }

  /** A ping in terms of its stages; the reply is made before a collision of epochs is handled. */
  lemma PingStages(v: View, h: Header, slot: Option<nat>)
    requires Wf(v) && h.sender in v.peers
    ensures var epoch := SenderConfigEpoch(v, h);
      var v2 := RoleSwitch(ProcessHeader(v, h), h);
      var v3 := PingSlots(v2, h, epoch);
      && OnPing(v, h, slot).view == (if epoch == MyEpoch(v3) then HandleCollision(v3, h.sender) else v3)
      && OnPing(v, h, slot).out == (if Dirty(v2, h) then PingReply(v3, h, epoch, slot) else {})
      && Lost(v, OnPing(v, h, slot).view) == Lost(v2, v3)
  {
    hide ProcessHeader, RoleSwitch, PingSlots, HandleCollision, Dirty, PingReply, SenderConfigEpoch, SlotsOf;
    var (v2, epoch) := (RoleSwitch(ProcessHeader(v, h), h), SenderConfigEpoch(v, h));
    CollisionKeepsMe(PingSlots(v2, h, epoch), h.sender);
    if h.sender == v.me {
      OwnPing(v, h, epoch);
    } else {
      RolesKeepMe(v, h);
    }
  }

  /** A node's own ping takes no slot of it that it could lose keys of. */
  lemma OwnPing(v: View, h: Header, epoch: nat)
    requires Wf(v) && h.sender == v.me
    ensures var v2 := RoleSwitch(ProcessHeader(v, h), h); PingSlots(v2, h, epoch) == v2 && Lost(v, v2) == {} == Lost(v2, v2)
  {
    HeaderKeepsMe(v, h);
    hide ProcessHeader;
    var v1 := ProcessHeader(v, h);
    var v2 := RoleSwitch(v1, h);
    assert SameRole(v1, v2) ==> v2.owner == v1.owner;
  }

  lemma CollisionKeepsMe(v: View, sender: NodeId)
    requires v.me in v.peers && sender in v.peers
    ensures var r := HandleCollision(v, sender); SameRole(v, r) && SlotsOf(r, v.me) == SlotsOf(v, v.me)
  {
    assert HandleCollision(v, sender).owner == v.owner;
  }

  /** Which slots an UPDATE is sent about. */
  lemma ReplyIsFirst(v: View, h: Header, epoch: nat, slot: Option<nat>)
    requires v.me in v.peers
    requires var stale := Outdated(v, h.sender, epoch, h.slots);
      if slot.Some? then slot.value in stale && (forall j :: j in stale ==> slot.value <= j) else stale == {}
    ensures slot.Some? ==> PingReply(v, h, epoch, slot) != {}
    ensures slot.None? ==> forall j :: PingReply(v, h, epoch, Some(j)) == {}
  {
    hide Outdated, UpdatePacket;
  }

  // ---------------------------------------------------------------- the handlers

  /** The slots of a packet, where v is the view from before it and has the same slots. */
  method TakeClaims(s: State, ghost v: View, about: NodeId, epoch: nat, slots: Bitmap) returns (ok: bool)
    requires s.Valid() && s.db.Valid() && about in s.nodes
    requires v.me == s.me && v.me in v.peers && v.owner == s.Model().owner && (about != v.me ==> SameRole(v, ViewOf(s)))
    modifies s`nodes, s.slots, s.importing, s.db
    ensures s.db.Valid() && (ok <==> !Stops(old(ViewOf(s)), about, epoch, SlotSet(slots)))
    ensures ok ==> s.Valid() && s.Model() == UpdateSlots(old(ViewOf(s)), about, epoch, SlotSet(slots))
    ensures ok ==> s.db.dict == Purged(old(s.db.dict), s.db.slotOf, Lost(v, s.Model()))
    ensures ok ==> s.db.expires == Purged(old(s.db.expires), s.db.slotOf, Lost(v, s.Model()))
  {
    hide UpdateSlots, Demotes, Purged, AllAgree, InTable, PeersWf;
    ghost var v2 := ViewOf(s);
    if about == s.me {
      OwnUpdate(v, v2, epoch, SlotSet(slots));
    } else {
      DemotionShows(v2, about, epoch, SlotSet(slots));
    }
    ok := s.UpdateSlotsConfigWith(about, epoch, slots);
    assert SlotsOf(v, v.me) == SlotsOf(v2, v.me);
  }

  /** The slots part of a ping; false where UpdateSlotsConfigWith stops the server. */
  method OnSlots(s: State, m: Message, epoch: nat, dirty: bool) returns (ok: bool)
    requires s.Valid() && s.db.Valid() && m.sender in s.nodes
    requires m.sender in s.Model().peers && (dirty <==> Dirty(s.Model(), HeaderOf(m)))
    modifies s`nodes, s.slots, s.importing, s.db
    ensures s.db.Valid()
    ensures ok ==> s.Valid() && s.Model() == PingSlots(old(ViewOf(s)), HeaderOf(m), epoch)
    ensures ok <==> !(old(s.Model()).peers[m.sender].role == Master && dirty && Stops(old(s.Model()), m.sender, epoch, SlotSet(m.slots)))
    ensures ok ==> s.db.dict == Purged(old(s.db.dict), s.db.slotOf, Lost(old(ViewOf(s)), s.Model()))
    ensures ok ==> s.db.expires == Purged(old(s.db.expires), s.db.slotOf, Lost(old(ViewOf(s)), s.Model()))
  {
    hide Dirty, UpdateSlots, Demotes, Purged, AllAgree, InTable, PeersWf;
    s.Entry(m.sender);
    ghost var v := ViewOf(s);
    if s.nodes[m.sender].peer.role == Master && dirty {
      ok := TakeClaims(s, v, m.sender, epoch, m.slots);
    } else {
      NothingPurged(s.db.dict, s.db.slotOf);
      NothingPurged(s.db.expires, s.db.slotOf);
      NothingLost(v);
      ok := true;
    }
  }

  /** What follows the header of a ping from a known node. */
  method OnKnownPing(s: State, m: Message, epoch: nat) returns (ok: bool, slot: Option<nat>)
    requires s.Valid() && s.db.Valid() && m.sender in s.nodes && m.sender in ViewOf(s).peers
    requires !Orphans(ViewOf(s), HeaderOf(m))
    modifies s`nodes, s`currentEpoch, s.slots, s.importing, s.db
    ensures s.db.Valid()
    ensures var v2, h := RoleSwitch(old(ViewOf(s)), HeaderOf(m)), HeaderOf(m);
      var v3 := PingSlots(v2, h, epoch);
      && (ok <==> !(v2.peers[m.sender].role == Master && Dirty(v2, h) && Stops(v2, m.sender, epoch, h.slots)))
      && (ok ==>
            && s.Valid() && s.Model() == (if epoch == MyEpoch(v3) then HandleCollision(v3, m.sender) else v3)
            && (slot.Some? ==> Dirty(v2, h) && PingReply(v3, h, epoch, slot) != {})
            && (slot.None? && Dirty(v2, h) ==> forall j :: PingReply(v3, h, epoch, Some(j)) == {})
            && s.db.dict == Purged(old(s.db.dict), s.db.slotOf, Lost(v2, v3))
            && s.db.expires == Purged(old(s.db.expires), s.db.slotOf, Lost(v2, v3)))
  {
    hide RoleSwitch, PingSlots, PingReply, HandleCollision, Dirty, Outdated, Lost, AllAgree, InTable, PeersWf, Purged, Stops;
    OnRole(s, m);
    var dirty := IsDirty(s, m);
    slot := None;
    ok := OnSlots(s, m, epoch, dirty);
    if ok {
      s.Entry(m.sender);
      s.Entry(s.me);
      if dirty {
        slot := FirstOutdated(s, m.sender, epoch, m.slots);
        ReplyIsFirst(s.Model(), HeaderOf(m), epoch, slot);
      }
      if epoch == s.nodes[s.me].peer.configEpoch {
        s.HandleConfigEpochCollision(m.sender);
      }
    }
  }

  /** PING and PONG. `slot` is the slot an UPDATE is sent about, if any. */
  method HandlePing(s: State, m: Message) returns (ok: bool, slot: Option<nat>)
    requires s.Valid() && s.db.Valid() && !Orphans(ViewOf(s), HeaderOf(m))
    modifies s`nodes, s`currentEpoch, s.slots, s.importing, s.db
    ensures s.db.Valid() && (ok <==> !PingStops(old(ViewOf(s)), HeaderOf(m)))
    ensures ok ==> s.Valid() && s.Model() == OnPing(old(ViewOf(s)), HeaderOf(m), slot).view
    ensures ok && slot.Some? ==> OnPing(old(ViewOf(s)), HeaderOf(m), slot).out != {}
    ensures ok && slot.None? ==> forall j :: OnPing(old(ViewOf(s)), HeaderOf(m), Some(j)).out == {}
    ensures ok ==> s.db.dict == Purged(old(s.db.dict), s.db.slotOf, Lost(old(ViewOf(s)), s.Model()))
    ensures ok ==> s.db.expires == Purged(old(s.db.expires), s.db.slotOf, Lost(old(ViewOf(s)), s.Model()))
  {
    hide RoleSwitch, PingSlots, PingReply, HandleCollision, Dirty, Outdated, Lost, AllAgree, InTable, PeersWf, Purged, Stops;
    ghost var v, h := ViewOf(s), HeaderOf(m);
    OnHeader(s, m);
    s.Entry(m.sender);
    if m.sender in s.nodes {
      var epoch := SenderEpoch(s, m, v);
      hide ProcessHeader, SenderConfigEpoch;
      ok, slot := OnKnownPing(s, m, epoch);
      PingStages(v, h, slot);
      forall j ensures OnPing(v, h, Some(j)).out ==
        (var v2 := RoleSwitch(ProcessHeader(v, h), h);
         if Dirty(v2, h) then PingReply(PingSlots(v2, h, epoch), h, epoch, Some(j)) else {})
      {
        PingStages(v, h, Some(j));
      }
      hide OnPing;
    } else {
      ok, slot := true, None;
      NothingLost(v);
      NothingPurged(s.db.dict, s.db.slotOf);
      NothingPurged(s.db.expires, s.db.slotOf);
    }
  }

  lemma NothingLost(v: View)
    requires v.me in v.peers
    ensures Lost(v, v) == {}
  {
  }

  /** The epoch taken from the header: zero unless the sender is past its handshake. */
  method SenderEpoch(s: State, m: Message, ghost v: View) returns (epoch: nat)
    requires s.Valid() && m.sender in s.nodes && s.Model() == ProcessHeader(v, HeaderOf(m))
    ensures epoch == SenderConfigEpoch(v, HeaderOf(m))
  {
    assert m.sender in Peers(s.nodes);
    epoch := if s.nodes[m.sender].peer.handshake then 0 else m.configEpoch;
  }

  /** FAILOVER_AUTH_REQUEST */
  method HandleAuthRequest(s: State, m: Message, forceAck: bool, votedRecently: bool) returns (granted: bool)
    requires s.Valid()
    modifies s`nodes, s`currentEpoch, s`lastVoteEpoch
    ensures s.Valid()
    ensures forall linked :: s.Model() == OnAuthRequest(old(ViewOf(s)), HeaderOf(m), forceAck, votedRecently, linked).view
    ensures granted <==> OnAuthRequest(old(ViewOf(s)), HeaderOf(m), forceAck, votedRecently, true).out != {}
  {
    hide ProcessHeader, AllAgree, InTable, PeersWf;
    ghost var v := ViewOf(s);
    OnHeader(s, m);
    s.Entry(m.sender);
    granted := false;
    if m.sender in s.nodes {
      SameGrant(s.Model(), HeaderOf(m), forceAck, votedRecently);
      hide GrantsVote;
      granted := s.SendFailoverAuthIfNeeded(m.sender, m.currentEpoch, m.configEpoch, m.slots, forceAck, votedRecently);
    }
  }

  /** A vote does not depend on the master the request names. */
  lemma SameGrant(v: View, h: Header, forceAck: bool, votedRecently: bool)
    requires v.me in v.peers && h.sender in v.peers
    ensures GrantsVote(v, h.(slaveof := None), forceAck, votedRecently) <==> GrantsVote(v, h, forceAck, votedRecently)
  {
  }

  /** FAILOVER_AUTH_ACK */
  method HandleAuthAck(s: State, m: Message)
    requires s.Valid()
    modifies s`nodes, s`currentEpoch, s`authCount
    ensures s.Valid() && s.Model() == OnAuthAck(old(s.Model()), HeaderOf(m)).view
  {
    hide ProcessHeader, AllAgree, InTable, PeersWf, CountsVote;
    OnHeader(s, m);
    s.Entry(m.sender);
    if m.sender in s.nodes {
      var counts := VoteCounts(s, m);
      if counts {
        s.CountVote();
      }
    }
  }

  method VoteCounts(s: State, m: Message) returns (counts: bool)
    requires s.Valid() && m.sender in s.nodes
    ensures m.sender in s.Model().peers && (counts <==> CountsVote(s.Model(), HeaderOf(m)))
  {
    s.Entry(m.sender);
    s.ModelIsWf();
    hide AllAgree, InTable, PeersWf, SlotsOf, SlotSet;
    var node := s.nodes[m.sender];
    var senderCurrentEpoch := if node.peer.handshake then 0 else m.currentEpoch;
    counts := node.peer.role == Master && node.numslots > 0 && senderCurrentEpoch >= s.authEpoch;
  }

  /** An UPDATE's word on the role and the epoch of the node it is about. */
  method Believe(s: State, about: NodeId, epoch: nat)
    requires s.Valid() && about in s.nodes && about in s.Model().peers
    modifies s`nodes
    ensures s.Valid() && s.Model() == BelieveUpdate(old(s.Model()), about, epoch) && s.nodes.Keys == old(s.nodes.Keys)
  {
    hide AllAgree, InTable, PeersWf;
    s.Entry(about);
    if s.nodes[about].peer.role == Slave {
      s.SetNodeAsMaster(about);
    }
    s.SetConfigEpoch(about, epoch);
  }

  /** What an UPDATE changes before the slots leaves the slots alone, and this node's role unless it is about it. */
  lemma BeliefKeepsMe(v: View, h: Header, about: NodeId, epoch: nat)
    requires Wf(v) && about in v.peers
    ensures var v2 := BelieveUpdate(ProcessHeader(v, h), about, epoch);
      v2.owner == v.owner && (about != v.me ==> SameRole(v, v2))
  {
    hide ProcessHeader, Wf;
    HeaderKeepsMe(v, h);
  }

  /** Deleting nothing when an UPDATE is about this node itself. */
  lemma OwnUpdate(v: View, v': View, epoch: nat, slots: set<nat>)
    requires v.me in v.peers && v'.me == v.me && v.me in v'.peers && v'.owner == v.owner
    ensures UpdateSlots(v', v.me, epoch, slots) == v' && Lost(v, v') == {}
  {
  }

  /** UPDATE; false where UpdateSlotsConfigWith stops the server. */
  method HandleUpdate(s: State, m: Message, about: NodeId, epoch: nat, slots: Bitmap) returns (ok: bool)
    requires s.Valid() && s.db.Valid()
    modifies s`nodes, s`currentEpoch, s.slots, s.importing, s.db
    ensures s.db.Valid() && (ok <==> !UpdateStops(old(ViewOf(s)), HeaderOf(m), about, epoch, SlotSet(slots)))
    ensures ok ==> s.Valid() && s.Model() == OnUpdate(old(ViewOf(s)), HeaderOf(m), about, epoch, SlotSet(slots)).view
    ensures ok ==> s.db.dict == Purged(old(s.db.dict), s.db.slotOf, Lost(old(ViewOf(s)), s.Model()))
    ensures ok ==> s.db.expires == Purged(old(s.db.expires), s.db.slotOf, Lost(old(ViewOf(s)), s.Model()))
  {
    hide ProcessHeader, BelieveUpdate, UpdateSlots, Demotes, Lost, AllAgree, InTable, PeersWf, Purged;
    ghost var v := ViewOf(s);
    OnHeader(s, m);
    ok := true;
    s.Entry(m.sender);
    s.Entry(about);
    HeaderKeepsMe(v, HeaderOf(m));
    NothingPurged(s.db.dict, s.db.slotOf);
    NothingPurged(s.db.expires, s.db.slotOf);
    if m.sender in s.nodes && about in s.nodes && s.nodes[about].peer.configEpoch < epoch {
      BeliefKeepsMe(v, HeaderOf(m), about, epoch);
      Believe(s, about, epoch);
      ok := TakeClaims(s, v, about, epoch, slots);
    }
  }
}
