/**
 The node's cluster state as it is kept in memory: a table of nodes, each with its bitmap
 of served slots and a count of them, an array from slots to owners, and an array of the
 slots being imported. Every method is tied to what it does to the View it stands for.
 */
module ClusterState {
  import opened Common
  import opened ClusterView
  import opened Keyspace
  import opened SlotBitmap

  datatype Node = Node(peer: Peer, slots: Bitmap, numslots: nat)

  type Table = t: seq<Option<NodeId>> | |t| == CLUSTER_SLOTS witness seq(CLUSTER_SLOTS, _ => None)

  function Peers(nodes: map<NodeId, Node>): map<NodeId, Peer> {
    map n | n in nodes :: nodes[n].peer
  }

  function Owners(t: Table): map<nat, NodeId> {
    map j | 0 <= j < CLUSTER_SLOTS && t[j].Some? :: t[j].value
  }

  /** The slots the table gives to n. */
  function Held(t: Table, n: NodeId): set<nat> {
    set j | 0 <= j < CLUSTER_SLOTS && t[j] == Some(n)
  }

  /** The bitmap, the counter and the table tell the same story about n. */
  ghost predicate Agrees(node: Node, t: Table, n: NodeId) {
    SlotSet(node.slots) == Held(t, n) && node.numslots == |Held(t, n)|
  }

  ghost predicate AllAgree(nodes: map<NodeId, Node>, t: Table) {
    forall n {:trigger nodes[n]} :: n in nodes ==> Agrees(nodes[n], t, n)
  }

  /** What Wf asks of the node table alone. */
  ghost predicate PeersWf(me: NodeId, peers: map<NodeId, Peer>) {
    && me in peers && !peers[me].handshake && peers[me].role != NoRole
    && (peers[me].role == Slave ==> peers[me].slaveof.Some?)
    && (peers[me].role == Master ==> peers[me].slaveof == None)
    && (forall p {:trigger peers[p].slaveof} :: p in peers && peers[p].slaveof.Some? ==> peers[p].slaveof.value in peers)
  }

  ghost predicate InTable(nodes: map<NodeId, Node>, t: Table) {
    forall j :: 0 <= j < CLUSTER_SLOTS && t[j].Some? ==> t[j].value in nodes
  }

  lemma HeldAfterSet(t: Table, j: nat, o: Option<NodeId>, n: NodeId)
    requires j < CLUSTER_SLOTS
    ensures Held(t[j := o], n) == if o == Some(n) then Held(t, n) + {j} else Held(t, n) - {j}
  {
  }

  lemma NoBits(b: Bitmap)
    requires forall i :: 0 <= i < 2048 ==> b[i] == 0
    ensures SlotSet(b) == {}
  {
    forall j: nat | j < CLUSTER_SLOTS ensures !TestBit(b, j) {
      assert b[j / 8] == 0;
    }
  }

  function WithBit(node: Node, j: nat): Node
    requires j < CLUSTER_SLOTS
  {
    node.(slots := SetBit(node.slots, j), numslots := if TestBit(node.slots, j) then node.numslots else node.numslots + 1)
  }

  function WithoutBit(node: Node, j: nat): Node
    requires j < CLUSTER_SLOTS
  {
    node.(slots := ClearBit(node.slots, j),
          numslots := if TestBit(node.slots, j) && node.numslots > 0 then node.numslots - 1 else node.numslots)
  }

  lemma PeersKept(nodes: map<NodeId, Node>, n: NodeId, node: Node)
    requires n in nodes && node.peer == nodes[n].peer
    ensures Peers(nodes[n := node]) == Peers(nodes)
  {
  }

  lemma AgreeAfterAdd(nodes: map<NodeId, Node>, t: Table, n: NodeId, j: nat)
    requires AllAgree(nodes, t) && InTable(nodes, t) && n in nodes && j < CLUSTER_SLOTS && t[j] == None
    ensures AllAgree(nodes[n := WithBit(nodes[n], j)], t[j := Some(n)])
    ensures InTable(nodes[n := WithBit(nodes[n], j)], t[j := Some(n)])
  {
    var nodes' := nodes[n := WithBit(nodes[n], j)];
    forall p | p in nodes' ensures Agrees(nodes'[p], t[j := Some(n)], p) {
      assert Agrees(nodes[p], t, p);
      HeldAfterSet(t, j, Some(n), p);
      SlotSetChanged(nodes[n].slots, j);
      assert j !in Held(t, p);
    }
  }

  lemma AgreeAfterDel(nodes: map<NodeId, Node>, t: Table, n: NodeId, j: nat)
    requires AllAgree(nodes, t) && InTable(nodes, t) && n in nodes && j < CLUSTER_SLOTS && t[j] == Some(n)
    ensures TestBit(nodes[n].slots, j) && nodes[n].numslots > 0
    ensures AllAgree(nodes[n := WithoutBit(nodes[n], j)], t[j := None])
    ensures InTable(nodes[n := WithoutBit(nodes[n], j)], t[j := None])
  {
    assert Agrees(nodes[n], t, n) && j in Held(t, n);
    assert j in SlotSet(nodes[n].slots);
    var nodes' := nodes[n := WithoutBit(nodes[n], j)];
    forall p | p in nodes' ensures Agrees(nodes'[p], t[j := None], p) {
      assert Agrees(nodes[p], t, p);
      HeldAfterSet(t, j, None, p);
      SlotSetChanged(nodes[n].slots, j);
    }
  }

  lemma BitIsOwner(nodes: map<NodeId, Node>, t: Table, n: NodeId, j: nat)
    requires AllAgree(nodes, t) && n in nodes && j < CLUSTER_SLOTS
    ensures TestBit(nodes[n].slots, j) <==> t[j] == Some(n)
  {
    assert Agrees(nodes[n], t, n);
    assert j in SlotSet(nodes[n].slots) <==> j in Held(t, n);
  }

  function Without(t: Table, n: NodeId, upto: nat): Table {
    seq(CLUSTER_SLOTS, j requires 0 <= j < CLUSTER_SLOTS => if j < upto && t[j] == Some(n) then None else t[j])
  }

  function Moved(t: Table, moved: set<nat>, n: NodeId, upto: nat): Table {
    seq(CLUSTER_SLOTS, j requires 0 <= j < CLUSTER_SLOTS => if j < upto && j in moved then Some(n) else t[j])
  }

  lemma NoneGone(t: Table, n: NodeId)
    ensures Without(t, n, 0) == t
  {
  }

  lemma OwnersWithout(v: View, t: Table, n: NodeId)
    requires v.owner == Owners(t)
    ensures v.(owner := Owners(Without(t, n, CLUSTER_SLOTS))) == ClusterView.DelNodeSlots(v, n)
  {
    assert Owners(Without(t, n, CLUSTER_SLOTS)) == ClusterView.DelNodeSlots(v, n).owner;
  }

  lemma OwnersMoved(t: Table, moved: set<nat>, n: NodeId)
    requires forall j :: j in moved ==> j < CLUSTER_SLOTS
    ensures Moved(t, moved, n, 0) == t
    ensures Owners(Moved(t, moved, n, CLUSTER_SLOTS)) == Owners(t) + map j | j in moved :: n
  {
  }

  lemma TakenOwners(v: View, t: Table, prev: NodeId)
    requires v.owner == Owners(t) && v.me in v.peers
    requires v.peers[v.me].role != Master && v.peers[v.me].slaveof == Some(prev)
    ensures ClusterView.SetNodeAsMaster(v, v.me).(owner := Owners(Moved(t, Held(t, prev), v.me, CLUSTER_SLOTS)))
         == ClusterView.ReplaceYourMaster(v)
  {
    assert Owners(Moved(t, Held(t, prev), v.me, CLUSTER_SLOTS)) == ClusterView.ReplaceYourMaster(v).owner;
  }

  lemma WithoutStep(t: Table, n: NodeId, j: nat)
    requires j < CLUSTER_SLOTS
    ensures Without(t, n, j + 1) == if t[j] == Some(n) then Without(t, n, j)[j := None] else Without(t, n, j)
  {
  }

  lemma MovedStep(t: Table, moved: set<nat>, n: NodeId, j: nat)
    requires j < CLUSTER_SLOTS
    ensures Moved(t, moved, n, j + 1) == if j in moved then Moved(t, moved, n, j)[j := Some(n)] else Moved(t, moved, n, j)
  {
  }

  /** The test clusterUpdateSlotsConfigWith makes of slot j. */
  ghost predicate Yields(peers: map<NodeId, Peer>, t: Table, imp: Table, sender: NodeId, epoch: nat, claimed: Bitmap, j: nat)
    requires j < CLUSTER_SLOTS
  {
    && TestBit(claimed, j)
    && t[j] != Some(sender)
    && imp[j] == None
    && (t[j] == None || (t[j].value in peers && peers[t[j].value].configEpoch < epoch))
  }

  /** What the loop of clusterUpdateSlotsConfigWith has to find at slot j. */
  ghost predicate Accounted(t: Table, full: set<nat>, me: NodeId, curmaster: NodeId, moved: set<nat>, lost: set<nat>, dirty: set<nat>, j: nat)
    requires j < CLUSTER_SLOTS
  {
    && (j in lost <==> j in moved && t[j] == Some(curmaster))
    && (j in dirty <==> j in moved && t[j] == Some(me) && j in full)
  }

  lemma YieldsIsRebound(v: View, t: Table, imp: Table, sender: NodeId, epoch: nat, claimed: Bitmap, j: nat)
    requires v.owner == Owners(t) && v.importing == Owners(imp)
    requires j < CLUSTER_SLOTS
    ensures Yields(v.peers, t, imp, sender, epoch, claimed, j) <==> j in Rebound(v, sender, epoch, SlotSet(claimed))
  {
  }

  /** The loop of clusterUpdateSlotsConfigWith in terms of the view: what moves, is lost, and is dirty. */
  lemma ClaimsAccounted(v: View, t: Table, imp: Table, sender: NodeId, epoch: nat, claimed: Bitmap, curmaster: NodeId, full: set<nat>)
    requires v.owner == Owners(t) && v.importing == Owners(imp)
    ensures var moved := Rebound(v, sender, epoch, SlotSet(claimed));
      var (lost, mine) := (moved * Held(t, curmaster), moved * Held(t, v.me) * full);
      && (forall j {:trigger Yields(v.peers, t, imp, sender, epoch, claimed, j)} :: 0 <= j < CLUSTER_SLOTS ==>
            (Yields(v.peers, t, imp, sender, epoch, claimed, j) <==> j in moved))
      && (forall j :: 0 <= j < CLUSTER_SLOTS ==> Accounted(t, full, v.me, curmaster, moved, lost, mine, j))
  {
    forall j | 0 <= j < CLUSTER_SLOTS
      ensures Yields(v.peers, t, imp, sender, epoch, claimed, j) <==> j in Rebound(v, sender, epoch, SlotSet(claimed))
    {
      YieldsIsRebound(v, t, imp, sender, epoch, claimed, j);
    }
  }

  function Append(s: seq<nat>, j: nat): seq<nat> {
    s + [j]
  }

  ghost function Elements(s: seq<nat>): set<nat> {
    set k | k in s
  }

  lemma ElementsAppend(s: seq<nat>, j: nat)
    ensures Elements(Append(s, j)) == Elements(s) + {j}
  {
  }

  ghost function Below(s: set<nat>, j: nat): set<nat> {
    set k | k in s && k < j
  }

  lemma BelowStep(s: set<nat>, j: nat)
    ensures Below(s, 0) == {}
    ensures Below(s, j + 1) == if j in s then Below(s, j) + {j} else Below(s, j)
    ensures (forall k :: k in s ==> k < j) ==> Below(s, j) == s
  {
  }

  /** The message takes every slot of this node's master (or its own), so that it must follow the sender. */
  ghost predicate Demotes(v: View, sender: NodeId, epoch: nat, slots: set<nat>)
    requires v.me in v.peers
  {
    SlotsOf(v, MyMaster(v)) != {} && SlotsOf(v, MyMaster(v)) <= Rebound(v, sender, epoch, slots)
  }

  /** The demotion an assertion of clusterSetMaster refuses: a replica that owns a slot the message leaves it. */
  ghost predicate Stops(v: View, sender: NodeId, epoch: nat, slots: set<nat>)
    requires v.me in v.peers
  {
    && sender != v.me && Demotes(v, sender, epoch, slots)
    && v.peers[v.me].role == Slave && !(SlotsOf(v, v.me) <= Rebound(v, sender, epoch, slots))
  }

  function WithSlots(v: View, moved: set<nat>, n: NodeId): View {
    v.(owner := v.owner + map j | j in moved :: n)
  }

  /** The message takes a slot of n and leaves it none, exactly when it takes them all. */
  lemma TakesAll(v: View, sender: NodeId, epoch: nat, slots: set<nat>, n: NodeId)
    ensures var moved := Rebound(v, sender, epoch, slots);
      && (n != sender ==> SlotsOf(WithSlots(v, moved, sender), n) == SlotsOf(v, n) - moved)
      && (moved * SlotsOf(v, n) != {} && SlotsOf(WithSlots(v, moved, sender), n) == {}
          <==> SlotsOf(v, n) != {} && SlotsOf(v, n) <= moved)
  {
    var moved := Rebound(v, sender, epoch, slots);
    if n == sender {
      assert moved * SlotsOf(v, n) == {};
      assert SlotsOf(v, n) != {} ==> !(SlotsOf(v, n) <= moved);
    } else {
      var (mine, left) := (SlotsOf(v, n), SlotsOf(WithSlots(v, moved, sender), n));
      assert left == mine - moved;
      assert mine <= moved ==> moved * mine == mine;
      assert left == {} ==> mine <= moved by {
        assert forall j :: j in mine && j !in moved ==> j in left;
      }
    }
  }

  lemma UpdateCases(v: View, sender: NodeId, epoch: nat, slots: set<nat>)
    requires v.me in v.peers && sender != v.me
    ensures var v' := v.(owner := v.owner + map j | j in Rebound(v, sender, epoch, slots) :: sender);
      UpdateSlots(v, sender, epoch, slots) == if Demotes(v, sender, epoch, slots) then ClusterView.SetMaster(v', sender) else v'
  {
    hide Rebound;
    var moved := Rebound(v, sender, epoch, slots);
    TakesAll(v, sender, epoch, slots, MyMaster(v));
    assert moved * SlotsOf(v, MyMaster(v)) == set j | j in moved && j in v.owner && v.owner[j] == MyMaster(v);
  }

  /** A node that must follow the sender is left with slots exactly when the server stops. */
  lemma DemotionStops(v: View, sender: NodeId, epoch: nat, slots: set<nat>)
    requires Wf(v) && sender != v.me && Demotes(v, sender, epoch, slots)
    ensures SlotsOf(WithSlots(v, Rebound(v, sender, epoch, slots), sender), v.me) != {} <==> Stops(v, sender, epoch, slots)
  {
    hide Rebound;
    TakesAll(v, sender, epoch, slots, v.me);
  }

  /** Some claimed slot below j is bound to a node with a greater epoch than the request's. */
  ghost predicate Contested(peers: map<NodeId, Peer>, t: Table, claimed: Bitmap, epoch: nat, j: nat)
    requires j < CLUSTER_SLOTS
  {
    TestBit(claimed, j) && t[j].Some? && t[j].value in peers && peers[t[j].value].configEpoch > epoch
  }

  lemma UncontestedIsGrantable(v: View, t: Table, claimed: Bitmap, epoch: nat)
    requires v.owner == Owners(t)
    ensures (forall j :: 0 <= j < CLUSTER_SLOTS ==> !Contested(v.peers, t, claimed, epoch, j)) <==>
      forall j | j in SlotSet(claimed) && j in v.owner && v.owner[j] in v.peers :: v.peers[v.owner[j]].configEpoch <= epoch
  {
    forall j | 0 <= j < CLUSTER_SLOTS
      ensures Contested(v.peers, t, claimed, epoch, j) <==>
        j in SlotSet(claimed) && j in v.owner && v.owner[j] in v.peers && v.peers[v.owner[j]].configEpoch > epoch
    {
    }
  }

  lemma HeldIsSlotsOf(v: View, t: Table, n: NodeId)
    requires v.owner == Owners(t)
    ensures SlotsOf(v, n) == Held(t, n)
  {
  }

  lemma BelowAll(s: set<nat>)
    requires forall k :: k in s ==> k < CLUSTER_SLOTS
    ensures Below(s, CLUSTER_SLOTS) == s
  {
  }

  /** The entries of a dictionary whose keys hash outside the given slots. */
  ghost function Purged<T>(m: map<Key, T>, slotOf: Key -> nat, slots: set<nat>): map<Key, T> {
    map k | k in m && slotOf(k) !in slots :: m[k]
  }

  lemma NothingPurged<T>(m: map<Key, T>, slotOf: Key -> nat)
    ensures Purged(m, slotOf, {}) == m
  {
  }

  lemma LostIsMoved(v: View, sender: NodeId, moved: set<nat>)
    requires sender != v.me
    ensures SlotsOf(v, v.me) - SlotsOf(v.(owner := v.owner + map j | j in moved :: sender), v.me) == moved * SlotsOf(v, v.me)
  {
  }

  lemma PurgedOne<T>(m: map<Key, T>, slotOf: Key -> nat, slots: set<nat>, h: nat, gone: set<Key>)
    requires forall k :: k in m && k !in gone ==> slotOf(k) in slots || slotOf(k) != h
    requires forall k :: k in gone ==> slotOf(k) == h
    ensures Purged(m, slotOf, slots) - gone == Purged(m, slotOf, slots + {h})
  {
  }

  /** freeClusterNode: the entry goes, and the replicas that followed it no longer know their master. */
  function Freed(nodes: map<NodeId, Node>, n: NodeId): map<NodeId, Node> {
    map p | p in nodes && p != n ::
      if nodes[p].peer.slaveof == Some(n) then nodes[p].(peer := nodes[p].peer.(slaveof := None)) else nodes[p]
  }

  lemma FreedIsForget(v: View, nodes: map<NodeId, Node>, t: Table, imp: Table, n: NodeId)
    requires v.peers == Peers(nodes) && v.owner == Owners(t) && v.importing == Owners(imp)
    ensures v.(peers := Peers(Freed(nodes, n)), owner := Owners(Without(t, n, CLUSTER_SLOTS)),
               importing := Owners(Without(imp, n, CLUSTER_SLOTS))) == Forget(v, n)
  {
    assert Peers(Freed(nodes, n)) == Forget(v, n).peers;
    assert Owners(Without(t, n, CLUSTER_SLOTS)) == Forget(v, n).owner;
    assert Owners(Without(imp, n, CLUSTER_SLOTS)) == Forget(v, n).importing;
  }

  lemma FreedWf(me: NodeId, nodes: map<NodeId, Node>, n: NodeId)
    requires PeersWf(me, Peers(nodes)) && n != me && Peers(nodes)[me].slaveof != Some(n)
    ensures PeersWf(me, Peers(Freed(nodes, n)))
  {
    var (peers, freed) := (Peers(nodes), Peers(Freed(nodes, n)));
    assert freed[me] == peers[me];
    forall p | p in freed && freed[p].slaveof.Some? ensures freed[p].slaveof.value in freed {
      assert peers[p].slaveof == freed[p].slaveof;
    }
  }

  lemma FreedAgrees(nodes: map<NodeId, Node>, t: Table, n: NodeId)
    requires AllAgree(nodes, t)
    ensures AllAgree(Freed(nodes, n), t)
  {
    forall p | p in Freed(nodes, n) ensures Agrees(Freed(nodes, n)[p], t, p) {
      assert Agrees(nodes[p], t, p);
    }
  }

  lemma FreedInTable(nodes: map<NodeId, Node>, t: Table, n: NodeId)
    requires InTable(nodes, Without(t, n, CLUSTER_SLOTS))
    ensures InTable(Freed(nodes, n), Without(t, n, CLUSTER_SLOTS))
  {
  }

  class State {
    const me: NodeId
    const db: Database
    var nodes: map<NodeId, Node>
    const slots: array<Option<NodeId>>
    const importing: array<Option<NodeId>>
    var currentEpoch: nat
    var lastVoteEpoch: nat
    var size: nat
    var authCount: nat
    var authSent: bool
    var authEpoch: nat

    ghost predicate Shape() {
      && slots.Length == CLUSTER_SLOTS && importing.Length == CLUSTER_SLOTS && slots != importing
      && db.clusterEnabled
    }

    /** The value-level view this state stands for. */
    ghost function Model(): View
      requires Shape()
      reads this, slots, importing
    {
      View(me, currentEpoch, lastVoteEpoch, Peers(nodes), Owners(slots[..]), Owners(importing[..]),
           size, authCount, authSent, authEpoch)
    }

    ghost predicate Valid()
      reads this, slots, importing
    {
      && Shape()
      && AllAgree(nodes, slots[..]) && InTable(nodes, slots[..]) && InTable(nodes, importing[..])
      && PeersWf(me, Peers(nodes))
    }

    lemma ModelIsWf()
      requires Valid()
      ensures Wf(Model())
      ensures forall n :: n in nodes ==> SlotsOf(Model(), n) == SlotSet(nodes[n].slots) && |SlotsOf(Model(), n)| == nodes[n].numslots
    {
      forall n | n in nodes ensures SlotsOf(Model(), n) == Held(slots[..], n) {
      }
    }

    lemma Entry(n: NodeId)
      requires Valid()
      ensures me in nodes && (n in nodes <==> n in Model().peers)
      ensures n in nodes ==> Model().peers[n] == nodes[n].peer
    {
    }

    /** The state clusterInit starts from when there is no saved configuration. */
    constructor (me: NodeId, db: Database)
      requires db.Valid() && db.clusterEnabled
      ensures Valid() && this.me == me && this.db == db && fresh(slots) && fresh(importing)
      ensures Model() == View(me, 0, 0, map[me := Peer(Master, false, false, None, 0)], map[], map[], 1, 0, false, 0)
    {
      this.me, this.db := me, db;
      var empty := seq(2048, _ => 0);
      nodes := map[me := Node(Peer(Master, false, false, None, 0), empty, 0)];
      slots := new Option<NodeId>[CLUSTER_SLOTS](_ => None);
      importing := new Option<NodeId>[CLUSTER_SLOTS](_ => None);
      currentEpoch, lastVoteEpoch, size, authCount, authSent, authEpoch := 0, 0, 1, 0, false, 0;
      new;
      NoBits(empty);
      assert Held(slots[..], me) == {};
      assert Owners(slots[..]) == map[] && Owners(importing[..]) == map[];
    }

    /** clusterAddSlot */
    method AddSlot(n: NodeId, j: nat) returns (ok: bool)
      requires Valid() && n in nodes && j < CLUSTER_SLOTS
      modifies this`nodes, slots
      ensures Valid() && Peers(nodes) == old(Peers(nodes))
      ensures ok == (old(slots[j]) == None)
      ensures slots[..] == if ok then old(slots[..])[j := Some(n)] else old(slots[..])
    {
      if slots[j] != None { return false; }
      AgreeAfterAdd(nodes, slots[..], n, j);
      PeersKept(nodes, n, WithBit(nodes[n], j));
      nodes := nodes[n := WithBit(nodes[n], j)];
      slots[j] := Some(n);
      assert slots[..] == old(slots[..])[j := Some(n)];
      return true;
    }

    /** clusterDelSlot; its assertion that the owner's bit was set never fires. */
    method DelSlot(j: nat) returns (ok: bool)
      requires Valid() && j < CLUSTER_SLOTS
      modifies this`nodes, slots
      ensures Valid() && Peers(nodes) == old(Peers(nodes))
      ensures ok == (old(slots[j]) != None)
      ensures slots[..] == old(slots[..])[j := None]
    {
      if slots[j] == None {
        assert slots[..] == old(slots[..])[j := None];
        return false;
      }
      var n := slots[j].value;
      AgreeAfterDel(nodes, slots[..], n, j);
      assert TestBit(nodes[n].slots, j);
      PeersKept(nodes, n, WithoutBit(nodes[n], j));
      nodes := nodes[n := WithoutBit(nodes[n], j)];
      slots[j] := None;
      assert slots[..] == old(slots[..])[j := None];
      return true;
    }

    /**
     clusterDelNodeSlots. The value it returns is always the size of the table, not the
     number of slots it took away.
     */
    method DelNodeSlots(n: NodeId) returns (deleted: nat)
      requires Valid() && n in nodes
      modifies this`nodes, slots
      ensures Valid() && Model() == ClusterView.DelNodeSlots(old(Model()), n)
      ensures deleted == CLUSTER_SLOTS
    {
      deleted := 0;
      ghost var t: Table := slots[..];
      NoneGone(t, n);
      for j := 0 to CLUSTER_SLOTS
        invariant Valid() && Peers(nodes) == old(Peers(nodes)) && n in Peers(nodes)
        invariant slots[..] == Without(t, n, j) && deleted == j
      {
        BitIsOwner(nodes, slots[..], n, j);
        WithoutStep(t, n, j);
        if TestBit(nodes[n].slots, j) {
          var ok := DelSlot(j);
        }
        deleted := deleted + 1;
      }
      OwnersWithout(old(Model()), t, n);
    }

    /** clusterGetMaxEpoch */
    method GetMaxEpoch() returns (most: nat)
      requires Valid()
      ensures IsMaxEpoch(Model(), most)
    {
      most := 0;
      var rest := nodes.Keys;
      while rest != {}
        invariant rest <= nodes.Keys
        invariant forall p :: p in nodes && p !in rest ==> nodes[p].peer.configEpoch <= most
        invariant most == 0 || exists p :: p in nodes && Peers(nodes)[p].configEpoch == most
        decreases rest
      {
        var p :| p in rest;
        if nodes[p].peer.configEpoch > most {
          most := nodes[p].peer.configEpoch;
          assert Peers(nodes)[p].configEpoch == most;
        }
        rest := rest - {p};
      }
      if most < currentEpoch { most := currentEpoch; }
    }

    /** clusterSetNodeAsMaster */
    method SetNodeAsMaster(n: NodeId)
      requires Valid() && n in nodes
      modifies this`nodes
      ensures Valid() && Model() == ClusterView.SetNodeAsMaster(old(Model()), n)
      ensures nodes.Keys == old(nodes.Keys)
    {
      if nodes[n].peer.role != Master {
        SetPeer(n, nodes[n].peer.(role := Master, slaveof := None));
      }
    }

    /** Writes the fields of one node other than its slots. */
    method SetPeer(n: NodeId, peer: Peer)
      requires Valid() && n in nodes && PeersWf(me, Peers(nodes)[n := peer])
      modifies this`nodes
      ensures Valid() && Model() == old(Model()).(peers := old(Peers(nodes))[n := peer])
      ensures nodes.Keys == old(nodes.Keys)
    {
      nodes := nodes[n := nodes[n].(peer := peer)];
      assert Peers(nodes) == old(Peers(nodes))[n := peer];
    }

    method SetConfigEpoch(n: NodeId, e: nat)
      requires Valid() && n in nodes
      modifies this`nodes
      ensures Valid() && Model() == WithConfigEpoch(old(Model()), n, e)
      ensures nodes.Keys == old(nodes.Keys)
    {
      assert n in Peers(nodes);
      SetPeer(n, nodes[n].peer.(configEpoch := e));
    }

    /** clusterCloseAllSlots */
    method CloseAllSlots()
      requires Valid()
      modifies importing
      ensures Valid() && Model() == old(Model()).(importing := map[])
    {
      forall j | 0 <= j < CLUSTER_SLOTS {
        importing[j] := None;
      }
      assert slots[..] == old(slots[..]);
      assert Owners(importing[..]) == map[];
    }

    /** clusterSetMaster; its two assertions are the preconditions. */
    method SetMaster(n: NodeId)
      requires Valid() && n in nodes
      requires n != me && nodes[me].numslots == 0
      modifies this`nodes, importing
      ensures Valid() && Model() == ClusterView.SetMaster(old(Model()), n)
    {
      if nodes[me].peer.role == Master {
        CloseAllSlots();
      }
      SetPeer(me, nodes[me].peer.(role := Slave, slaveof := Some(n)));
    }

    /** clusterFailoverReplaceYourMaster: exactly the slots of the old master change hands. */
    method ReplaceYourMaster()
      requires Valid()
      modifies this`nodes, slots
      ensures Valid() && Model() == ClusterView.ReplaceYourMaster(old(Model()))
    {
      var self := nodes[me].peer;
      if self.role == Master || self.slaveof == None { return; }
      var prev := self.slaveof.value;
      assert prev in Peers(nodes);
      SetNodeAsMaster(me);
      TakeSlots(prev);
      TakenOwners(old(Model()), old(slots[..]), prev);
    }

    /** The loop of clusterFailoverReplaceYourMaster. */
    method TakeSlots(prev: NodeId)
      requires Valid() && prev in nodes
      modifies this`nodes, slots
      ensures Valid() && Peers(nodes) == old(Peers(nodes))
      ensures slots[..] == Moved(old(slots[..]), Held(old(slots[..]), prev), me, CLUSTER_SLOTS)
    {
      ghost var t: Table := slots[..];
      ghost var moved := Held(t, prev);
      for j := 0 to CLUSTER_SLOTS
        invariant Valid() && Peers(nodes) == old(Peers(nodes)) && prev in Peers(nodes) && me in Peers(nodes)
        invariant slots[..] == Moved(t, moved, me, j)
      {
        BitIsOwner(nodes, slots[..], prev, j);
        MovedStep(t, moved, me, j);
        if TestBit(nodes[prev].slots, j) {
          Rebind(j, me);
        }
      }
    }

    /** The loop of clusterUpdateSlotsConfigWith. */
    method RebindSlots(sender: NodeId, epoch: nat, claimed: Bitmap, curmaster: NodeId,
                       ghost moved: set<nat>, ghost lost: set<nat>, ghost mine: set<nat>)
      returns (newmaster: bool, dirty: seq<nat>)
      requires Valid() && db.Valid() && sender in nodes && sender != me
      requires forall j {:trigger Yields(Peers(nodes), slots[..], importing[..], sender, epoch, claimed, j)} :: 0 <= j < CLUSTER_SLOTS ==>
        (Yields(Peers(nodes), slots[..], importing[..], sender, epoch, claimed, j) <==> j in moved)
      requires forall j :: 0 <= j < CLUSTER_SLOTS ==> Accounted(slots[..], Full(), me, curmaster, moved, lost, mine, j)
      modifies this`nodes, slots
      ensures Valid() && Peers(nodes) == old(Peers(nodes))
      ensures slots[..] == Moved(old(slots[..]), moved, sender, CLUSTER_SLOTS)
      ensures newmaster <==> Below(lost, CLUSTER_SLOTS) != {}
      ensures Elements(dirty) == Below(mine, CLUSTER_SLOTS)
    {
      newmaster, dirty := false, [];
      ghost var (t: Table, imp: Table) := (slots[..], importing[..]);
      BelowStep(lost, 0);
      BelowStep(mine, 0);
      for j := 0 to CLUSTER_SLOTS
        invariant Valid() && Peers(nodes) == old(Peers(nodes)) && sender in Peers(nodes)
        invariant slots[..] == Moved(t, moved, sender, j)
        invariant newmaster <==> Below(lost, j) != {}
        invariant Elements(dirty) == Below(mine, j)
      {
        MovedStep(t, moved, sender, j);
        BelowStep(lost, j);
        BelowStep(mine, j);
        assert slots[..][j] == t[j];
        assert Accounted(t, Full(), me, curmaster, moved, lost, mine, j);
        assert Yields(Peers(nodes), t, imp, sender, epoch, claimed, j) <==> j in moved;
        var isDirty, wasMasters := ClaimSlot(j, sender, epoch, claimed, curmaster);
        if isDirty {
          ElementsAppend(dirty, j);
          dirty := Append(dirty, j);
        }
        if wasMasters {
          newmaster := true;
        }
      }
    }

    /** One round of that loop: whether a dirty slot, or one of the master's, changed hands. */
    method ClaimSlot(j: nat, sender: NodeId, epoch: nat, claimed: Bitmap, curmaster: NodeId)
      returns (isDirty: bool, wasMasters: bool)
      requires Valid() && db.Valid() && sender in nodes && sender != me && j < CLUSTER_SLOTS
      modifies this`nodes, slots
      ensures Valid() && Peers(nodes) == old(Peers(nodes))
      ensures var taken := old(Yields(Peers(nodes), slots[..], importing[..], sender, epoch, claimed, j));
        && slots[..] == (if taken then old(slots[..])[j := Some(sender)] else old(slots[..]))
        && (isDirty <==> taken && old(slots[j]) == Some(me) && j in Full())
        && (wasMasters <==> taken && old(slots[j]) == Some(curmaster))
    {
      isDirty, wasMasters := false, false;
      if !TestBit(claimed, j) || slots[j] == Some(sender) || importing[j] != None { return; }
      if slots[j] == None || nodes[slots[j].value].peer.configEpoch < epoch {
        var count := db.CountKeysInSlot(j);
        if slots[j] == Some(me) && count != 0 && sender != me {
          isDirty := true;
        }
        if slots[j] == Some(curmaster) {
          wasMasters := true;
        }
        Rebind(j, sender);
      }
    }

    /** The slots some key hashes to. */
    ghost function Full(): set<nat>
      reads db
    {
      set j: nat | j < CLUSTER_SLOTS && db.KeysInSlot(j) != {}
    }

    method Rebind(j: nat, n: NodeId)
      requires Valid() && n in nodes && j < CLUSTER_SLOTS
      modifies this`nodes, slots
      ensures Valid() && Peers(nodes) == old(Peers(nodes)) && slots[..] == old(slots[..])[j := Some(n)]
    {
      assert n in Peers(nodes);
      var deleted := DelSlot(j);
      assert n in Peers(nodes);
      var added := AddSlot(n, j);
    }

    /** Slots that hold no key may be left out of a purge. */
    lemma FullCovers(lost: set<nat>)
      requires Valid() && db.Valid() && forall j :: j in lost ==> j < CLUSTER_SLOTS
      ensures Purged(db.dict, db.slotOf, lost * Full()) == Purged(db.dict, db.slotOf, lost)
      ensures Purged(db.expires, db.slotOf, lost * Full()) == Purged(db.expires, db.slotOf, lost)
    {
      forall k | k in db.dict && db.slotOf(k) in lost ensures db.slotOf(k) in Full() {
        assert k in db.KeysInSlot(db.slotOf(k));
      }
    }

    /** The final loop of clusterUpdateSlotsConfigWith. */
    method DelDirtySlots(dirty: seq<nat>)
      requires Valid() && db.Valid()
      modifies db
      ensures Valid() && db.Valid()
      ensures db.dict == Purged(old(db.dict), db.slotOf, Elements(dirty))
      ensures db.expires == Purged(old(db.expires), db.slotOf, Elements(dirty))
    {
      for i := 0 to |dirty|
        invariant Valid() && db.Valid()
        invariant db.dict == Purged(old(db.dict), db.slotOf, Elements(dirty[..i]))
        invariant db.expires == Purged(old(db.expires), db.slotOf, Elements(dirty[..i]))
      {
        ghost var gone := db.KeysInSlot(dirty[i]);
        PurgedOne(old(db.dict), db.slotOf, Elements(dirty[..i]), dirty[i], gone);
        PurgedOne(old(db.expires), db.slotOf, Elements(dirty[..i]), dirty[i], gone);
        assert dirty[..i + 1] == Append(dirty[..i], dirty[i]);
        ElementsAppend(dirty[..i], dirty[i]);
        var removed := db.DelKeysInSlot(dirty[i]);
      }
      assert dirty[..|dirty|] == dirty;
    }

    /** The first part of clusterUpdateSlotsConfigWith: rebind the slots and see whether the master lost its last one. */
    method RebindClaims(sender: NodeId, epoch: nat, claimed: Bitmap) returns (demoted: bool, dirty: seq<nat>)
      requires Valid() && db.Valid() && sender in nodes && sender != me
      modifies this`nodes, slots
      ensures Valid() && sender in nodes
      ensures var moved := Rebound(old(Model()), sender, epoch, SlotSet(claimed));
        && Model() == old(Model()).(owner := old(Model()).owner + map j | j in moved :: sender)
        && Elements(dirty) == moved * SlotsOf(old(Model()), me) * Full()
      ensures demoted <==> Demotes(old(Model()), sender, epoch, SlotSet(claimed))
    {
      var self := nodes[me].peer;
      var curmaster := if self.role == Master then me else self.slaveof.value;
      ghost var (v, t: Table, imp: Table) := (Model(), slots[..], importing[..]);
      ghost var moved := Rebound(v, sender, epoch, SlotSet(claimed));
      ghost var (lost, mine) := (moved * Held(t, curmaster), moved * Held(t, me) * Full());
      assert curmaster == MyMaster(v) && curmaster in Peers(nodes) && sender in Peers(nodes);
      ClaimsAccounted(v, t, imp, sender, epoch, claimed, curmaster, Full());
      var newmaster;
      newmaster, dirty := RebindSlots(sender, epoch, claimed, curmaster, moved, lost, mine);
      assert curmaster in Peers(nodes) && sender in Peers(nodes);
      BelowAll(lost);
      BelowAll(mine);
      OwnersMoved(t, moved, sender);
      HeldIsSlotsOf(v, t, curmaster);
      HeldIsSlotsOf(v, t, me);
      ModelIsWf();
      TakesAll(v, sender, epoch, SlotSet(claimed), curmaster);
      demoted := newmaster && nodes[curmaster].numslots == 0;
    }

    /**
     clusterUpdateSlotsConfigWith. It returns false where an assertion of clusterSetMaster stops
     the server: a replica that owns slots itself is told to follow a new master.
     */
    method UpdateSlotsConfigWith(sender: NodeId, epoch: nat, claimed: Bitmap) returns (ok: bool)
      requires Valid() && db.Valid() && sender in nodes
      modifies this`nodes, slots, importing, db
      ensures db.Valid() && (ok ==> Valid() && Model() == UpdateSlots(old(Model()), sender, epoch, SlotSet(claimed)))
      ensures ok <==> !Stops(old(Model()), sender, epoch, SlotSet(claimed))
      ensures var kept := sender == me || Demotes(old(Model()), sender, epoch, SlotSet(claimed));
        var lost := if kept then {} else SlotsOf(old(Model()), me) - SlotsOf(Model(), me);
        db.dict == Purged(old(db.dict), db.slotOf, lost) && db.expires == Purged(old(db.expires), db.slotOf, lost)
    {
      NothingPurged(db.dict, db.slotOf);
      NothingPurged(db.expires, db.slotOf);
      if sender == me { return true; }
      ghost var v := Model();
      ModelIsWf();
      UpdateCases(v, sender, epoch, SlotSet(claimed));
      var demoted, dirty := RebindClaims(sender, epoch, claimed);
      if demoted {
        ModelIsWf();
        DemotionStops(v, sender, epoch, SlotSet(claimed));
        ok := nodes[me].numslots == 0;
        if ok {
          SetMaster(sender);
        }
      } else {
        ghost var lost := Rebound(v, sender, epoch, SlotSet(claimed)) * SlotsOf(v, me);
        LostIsMoved(v, sender, Rebound(v, sender, epoch, SlotSet(claimed)));
        FullCovers(lost);
        DelDirtySlots(dirty);
        ok := true;
      }
    }

    /** The loop of clusterSendFailoverAuthIfNeeded: no claimed slot has an owner with a greater epoch. */
    method SlotsUncontested(claimed: Bitmap, epoch: nat) returns (fine: bool)
      requires Valid()
      ensures fine <==> forall j :: 0 <= j < CLUSTER_SLOTS ==> !Contested(Peers(nodes), slots[..], claimed, epoch, j)
    {
      for j := 0 to CLUSTER_SLOTS
        invariant forall k :: 0 <= k < j ==> !Contested(Peers(nodes), slots[..], claimed, epoch, k)
      {
        assert slots[..][j] == slots[j];
        if TestBit(claimed, j) && slots[j] != None && nodes[slots[j].value].peer.configEpoch > epoch {
          assert Contested(Peers(nodes), slots[..], claimed, epoch, j);
          return false;
        }
      }
      return true;
    }

    /** clusterSendFailoverAuthIfNeeded */
    method SendFailoverAuthIfNeeded(sender: NodeId, requestCurrentEpoch: nat, requestConfigEpoch: nat, claimed: Bitmap,
                                    forceAck: bool, votedRecently: bool) returns (granted: bool)
      requires Valid() && sender in nodes
      modifies this`lastVoteEpoch
      ensures Valid()
      ensures granted <==> GrantsVote(old(Model()), Header(sender, requestCurrentEpoch, requestConfigEpoch, SlotSet(claimed), None), forceAck, votedRecently)
      ensures Model() == if granted then old(Model()).(lastVoteEpoch := old(currentEpoch)) else old(Model())
    {
      var master := nodes[sender].peer.slaveof;
      assert sender in Peers(nodes);
      ModelIsWf();
      if nodes[me].peer.role == Slave || nodes[me].numslots == 0 { return false; }
      if requestCurrentEpoch < currentEpoch { return false; }
      if lastVoteEpoch == currentEpoch { return false; }
      if nodes[sender].peer.role == Master || master == None { return false; }
      assert master.value in Peers(nodes);
      if !nodes[master.value].peer.failed && !forceAck { return false; }
      if votedRecently { return false; }
      var fine := SlotsUncontested(claimed, requestConfigEpoch);
      UncontestedIsGrantable(Model(), slots[..], claimed, requestConfigEpoch);
      if !fine { return false; }
      lastVoteEpoch := currentEpoch;
      return true;
    }

    /** clusterBumpConfigEpochWithoutConsensus */
    method BumpConfigEpochWithoutConsensus() returns (bumped: bool, ghost top: nat)
      requires Valid()
      modifies this`nodes, this`currentEpoch
      ensures Valid() && IsMaxEpoch(old(Model()), top) && Model() == BumpEpoch(old(Model()), top)
      ensures bumped <==> MyEpoch(old(Model())) == 0 || MyEpoch(old(Model())) != top
    {
      var maxEpoch := GetMaxEpoch();
      top := maxEpoch;
      bumped := BumpUnless(maxEpoch);
    }

    method BumpUnless(maxEpoch: nat) returns (bumped: bool)
      requires Valid()
      modifies this`nodes, this`currentEpoch
      ensures Valid() && Model() == BumpEpoch(old(Model()), maxEpoch)
      ensures bumped <==> MyEpoch(old(Model())) == 0 || MyEpoch(old(Model())) != maxEpoch
    {
      hide Peers, PeersWf, AllAgree, InTable, Owners;
      Entry(me);
      var myEpoch := nodes[me].peer.configEpoch;
      bumped := myEpoch == 0 || myEpoch != maxEpoch;
      if bumped {
        AdoptNextEpoch();
      }
    }

    /** clusterHandleConfigEpochCollision */
    method HandleConfigEpochCollision(sender: NodeId)
      requires Valid() && sender in nodes
      modifies this`nodes, this`currentEpoch
      ensures Valid() && Model() == HandleCollision(old(Model()), sender)
    {
      hide Peers, PeersWf, AllAgree, InTable, Owners;
      Entry(me);
      Entry(sender);
      var self, node := nodes[me].peer, nodes[sender].peer;
      var collide := node.configEpoch == self.configEpoch && node.role == Master && self.role == Master;
      if collide && sender > me {
        AdoptNextEpoch();
      }
    }

    method SetCurrentEpoch(e: nat)
      requires Valid()
      modifies this`currentEpoch
      ensures Valid() && Model() == old(Model()).(currentEpoch := e)
    {
      currentEpoch := e;
    }

    method AdoptNextEpoch()
      requires Valid()
      modifies this`nodes, this`currentEpoch
      ensures Valid()
      ensures Model() == WithConfigEpoch(old(Model()).(currentEpoch := old(currentEpoch) + 1), me, old(currentEpoch) + 1)
    {
      currentEpoch := currentEpoch + 1;
      SetConfigEpoch(me, currentEpoch);
    }

    /** The last branch of clusterHandleSlaveFailover, once the quorum is reached. */
    method TakeOver()
      requires Valid()
      modifies this`nodes, slots
      ensures Valid() && Model() == WinElection(old(Model()))
    {
      var self := nodes[me].peer;
      SetConfigEpoch(me, if self.configEpoch < authEpoch then authEpoch else self.configEpoch);
      ReplaceYourMaster();
    }

    method CountVote()
      requires Valid()
      modifies this`authCount
      ensures Valid() && Model() == old(Model()).(authCount := old(authCount) + 1)
    {
      authCount := authCount + 1;
    }

    /** Writes the fields of an election. */
    method Ballot(count: nat, sent: bool, epoch: nat, current: nat)
      requires Valid()
      modifies this`currentEpoch, this`authCount, this`authSent, this`authEpoch
      ensures Valid()
      ensures Model() == old(Model()).(currentEpoch := current, authCount := count, authSent := sent, authEpoch := epoch)
    {
      currentEpoch, authCount, authSent, authEpoch := current, count, sent, epoch;
    }

    /** clusterHandleSlaveFailover */
    method HandleSlaveFailover(manual: bool, clock: Clock) returns (step: FailoverStep)
      requires Valid()
      modifies this`nodes, slots, this`currentEpoch, this`authCount, this`authSent, this`authEpoch
      ensures Valid() && step == FailoverBranch(old(Model()), manual, clock)
      ensures Model() == match step
        case Idle => old(Model())
        case Schedule => ScheduleElection(old(Model()))
        case Ask => AskForVotes(old(Model()))
        case Win => WinElection(old(Model()))
    {
      hide AllAgree, InTable, Peers, PeersWf, SlotsOf, SlotSet, Owners, WinElection;
      ModelIsWf();
      Entry(me);
      var neededQuorum := size / 2 + 1;
      var self := nodes[me].peer;
      if self.role == Master || self.slaveof == None { return Idle; }
      Entry(self.slaveof.value);
      var master := nodes[self.slaveof.value];
      if (!master.peer.failed && !manual) || master.numslots == 0 { return Idle; }
      if clock.dataTooOld && !manual { return Idle; }
      if clock.retryElapsed {
        Ballot(0, false, authEpoch, currentEpoch);
        return Schedule;
      }
      if !clock.delayElapsed || clock.expired { return Idle; }
      if !authSent {
        Ballot(authCount, true, currentEpoch + 1, currentEpoch + 1);
        return Ask;
      }
      if authCount >= neededQuorum {
        TakeOver();
        return Win;
      }
      return Idle;
    }

    /** The loop of clusterDelNode. */
    method ClearNodeSlots(n: NodeId)
      requires Valid() && n in nodes
      modifies this`nodes, slots, importing
      ensures Valid() && Peers(nodes) == old(Peers(nodes))
      ensures slots[..] == Without(old(slots[..]), n, CLUSTER_SLOTS)
      ensures importing[..] == Without(old(importing[..]), n, CLUSTER_SLOTS)
    {
      ghost var (t: Table, imp: Table) := (slots[..], importing[..]);
      NoneGone(t, n);
      NoneGone(imp, n);
      for j := 0 to CLUSTER_SLOTS
        invariant Valid() && Peers(nodes) == old(Peers(nodes))
        invariant slots[..] == Without(t, n, j) && importing[..] == Without(imp, n, j)
      {
        WithoutStep(t, n, j);
        WithoutStep(imp, n, j);
        assert importing[..][j] == imp[j] && slots[..][j] == t[j];
        StopImporting(j, n);
        if slots[j] == Some(n) {
          var ok := DelSlot(j);
        }
      }
    }

    method StopImporting(j: nat, n: NodeId)
      requires Valid() && j < CLUSTER_SLOTS
      modifies importing
      ensures Valid()
      ensures importing[..] == if old(importing[j]) == Some(n) then old(importing[..])[j := None] else old(importing[..])
      ensures slots[..] == old(slots[..])
    {
      if importing[j] == Some(n) {
        importing[j] := None;
        assert importing[..] == old(importing[..])[j := None];
      }
      assert slots[..] == old(slots[..]);
    }

    /** clusterDelNode: no reference to the node survives it. */
    method DelNode(n: NodeId)
      requires Valid() && n in nodes && n != me && nodes[me].peer.slaveof != Some(n)
      modifies this`nodes, slots, importing
      ensures Valid() && Model() == Forget(old(Model()), n)
    {
      hide Peers, Freed, PeersWf, AllAgree, InTable, Forget, Owners, Without;
      Entry(me);
      ghost var (v, t, imp) := (Model(), slots[..], importing[..]);
      ClearNodeSlots(n);
      FreedIsForget(v, nodes, t, imp, n);
      FreedWf(me, nodes, n);
      FreedAgrees(nodes, slots[..], n);
      FreedInTable(nodes, t, n);
      FreedInTable(nodes, imp, n);
      nodes := Freed(nodes, n);
    }
  }
}
