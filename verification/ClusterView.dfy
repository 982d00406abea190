/**
 One node's view of the cluster (clusterState and the clusterNode table it holds),
 as a value, and what each packet handler and command does to it.

 A node table entry is a Peer, keyed by node name; names are numbers ordered as memcmp
 orders them. The slot table keeps only assigned slots. Clocks, links and failure
 detection appear as boolean parameters that a step may choose freely.
 */
module ClusterView {
  import opened Common

  const CLUSTER_SLOTS := 16384

  type NodeId = nat

  datatype Role = Master | Slave | NoRole

  datatype Peer = Peer(
    role: Role,
    failed: bool,
    handshake: bool,
    slaveof: Option<NodeId>,
    configEpoch: nat)

  datatype View = View(
    me: NodeId,
    currentEpoch: nat,
    lastVoteEpoch: nat,
    peers: map<NodeId, Peer>,
    owner: map<nat, NodeId>,
    importing: map<nat, NodeId>,
    size: nat,
    authCount: nat,
    authSent: bool,
    authEpoch: nat)

  /** The common header of every bus packet (clusterMsg). */
  datatype Header = Header(
    sender: NodeId,
    currentEpoch: nat,
    configEpoch: nat,
    slots: set<nat>,
    slaveof: Option<NodeId>)

  datatype Body =
    | Ping
    | AuthRequest(forceAck: bool)
    | AuthAck
    | Update(about: NodeId, epoch: nat, slots: set<nat>)

  datatype Packet = Packet(dest: NodeId, hdr: Header, body: Body)

  /** What a handler leaves behind: the new view and the packets it sends. */
  datatype Effect = Effect(view: View, out: set<Packet>)

  // ---------------------------------------------------------------- well-formedness

  /** References stay inside the node table, and a slave knows its master. */
  ghost predicate Wf(v: View) {
    && v.me in v.peers
    && !v.peers[v.me].handshake
    && v.peers[v.me].role != NoRole
    && (v.peers[v.me].role == Slave ==> v.peers[v.me].slaveof.Some?)
    && (v.peers[v.me].role == Master ==> v.peers[v.me].slaveof == None)
    && (forall p {:trigger v.peers[p].slaveof} :: p in v.peers && v.peers[p].slaveof.Some? ==> v.peers[p].slaveof.value in v.peers)
    && (forall j :: j in v.owner ==> j < CLUSTER_SLOTS && v.owner[j] in v.peers)
    && (forall j :: j in v.importing ==> j < CLUSTER_SLOTS && v.importing[j] in v.peers)
  }

  function SlotsOf(v: View, n: NodeId): set<nat> {
    set j | j in v.owner && v.owner[j] == n
  }

  function MyEpoch(v: View): nat
    requires v.me in v.peers
  {
    v.peers[v.me].configEpoch
  }

  /** The fields elections turn on are untouched. */
  ghost predicate SameBallot(v: View, v': View) {
    && v'.lastVoteEpoch == v.lastVoteEpoch
    && v'.authCount == v.authCount && v'.authSent == v.authSent && v'.authEpoch == v.authEpoch
  }

  // ---------------------------------------------------------------- epochs

  function WithConfigEpoch(v: View, n: NodeId, e: nat): View
    requires n in v.peers
  {
    v.(peers := v.peers[n := v.peers[n].(configEpoch := e)])
  }

  /** clusterGetMaxEpoch */
  ghost predicate IsMaxEpoch(v: View, m: nat) {
    && v.currentEpoch <= m
    && (forall p :: p in v.peers ==> v.peers[p].configEpoch <= m)
    && (m == v.currentEpoch || m == 0 || exists p :: p in v.peers && v.peers[p].configEpoch == m)
  }

  /** clusterBumpConfigEpochWithoutConsensus, given the greatest epoch known. */
  function BumpEpoch(v: View, maxEpoch: nat): View
    requires v.me in v.peers
  {
    if MyEpoch(v) == 0 || MyEpoch(v) != maxEpoch then
      WithConfigEpoch(v.(currentEpoch := v.currentEpoch + 1), v.me, v.currentEpoch + 1)
    else v
  }

  /** clusterHandleConfigEpochCollision */
  function HandleCollision(v: View, sender: NodeId): (r: View)
    requires v.me in v.peers && sender in v.peers
    ensures r.me == v.me && r.peers.Keys == v.peers.Keys && SameBallot(v, r)
  {
    if || v.peers[sender].configEpoch != MyEpoch(v)
       || v.peers[sender].role != Master || v.peers[v.me].role != Master
       || sender <= v.me
    then v
    else WithConfigEpoch(v.(currentEpoch := v.currentEpoch + 1), v.me, v.currentEpoch + 1)
  }

  predicate Trusted(v: View, h: Header) {
    h.sender in v.peers && !v.peers[h.sender].handshake
  }

  /** The epochs a handler works with: zero unless the sender is known and past its handshake. */
  function SenderCurrentEpoch(v: View, h: Header): nat {
    if Trusted(v, h) then h.currentEpoch else 0
  }

  function SenderConfigEpoch(v: View, h: Header): nat {
    if Trusted(v, h) then h.configEpoch else 0
  }

  /** The part of clusterProcessPacket every packet type goes through. */
  function ProcessHeader(v: View, h: Header): (r: View)
    ensures r.me == v.me && r.peers.Keys == v.peers.Keys && SameBallot(v, r)
  {
    if Trusted(v, h) then
      WithConfigEpoch(v.(currentEpoch := Max(v.currentEpoch, h.currentEpoch)),
                      h.sender, Max(v.peers[h.sender].configEpoch, h.configEpoch))
    else v
  }

  /** clusterBuildMessageHdr */
  function BuildHeader(v: View): Header
    requires v.me in v.peers
  {
    var self := v.peers[v.me];
    var master := if self.role == Slave && self.slaveof.Some? && self.slaveof.value in v.peers
                  then self.slaveof.value else v.me;
    Header(v.me, v.currentEpoch, v.peers[master].configEpoch, SlotsOf(v, master), self.slaveof)
  }

  // ---------------------------------------------------------------- roles and slots

  /** clusterSetNodeAsMaster */
  function SetNodeAsMaster(v: View, n: NodeId): View
    requires n in v.peers
  {
    if v.peers[n].role == Master then v
    else v.(peers := v.peers[n := v.peers[n].(role := Master, slaveof := None)])
  }

  /** clusterSetMaster: become a replica of n. */
  function SetMaster(v: View, n: NodeId): View
    requires v.me in v.peers
  {
    var self := v.peers[v.me];
    v.(peers := v.peers[v.me := self.(role := Slave, slaveof := Some(n))],
       importing := if self.role == Master then map[] else v.importing)
  }

  /** clusterDelNodeSlots */
  function DelNodeSlots(v: View, n: NodeId): View {
    v.(owner := map j | j in v.owner && v.owner[j] != n :: v.owner[j])
  }

  /** Whether a claim of slot j by sender at the given epoch takes the slot over. */
  predicate Rebinds(v: View, sender: NodeId, epoch: nat, j: nat) {
    && j !in v.importing
    && (j in v.owner ==>
          && v.owner[j] != sender
          && v.owner[j] in v.peers
          && v.peers[v.owner[j]].configEpoch < epoch)
  }

  function Rebound(v: View, sender: NodeId, epoch: nat, slots: set<nat>): set<nat> {
    set j | j in slots && j < CLUSTER_SLOTS && Rebinds(v, sender, epoch, j)
  }

  function MyMaster(v: View): NodeId
    requires v.me in v.peers
  {
    var self := v.peers[v.me];
    if self.role == Slave && self.slaveof.Some? then self.slaveof.value else v.me
  }

  /** clusterUpdateSlotsConfigWith, apart from the deletion of keys. */
  function UpdateSlots(v: View, sender: NodeId, epoch: nat, slots: set<nat>): (r: View)
    requires v.me in v.peers
    ensures r.me == v.me && r.peers.Keys == v.peers.Keys && SameBallot(v, r)
  {
    if sender == v.me then v
    else
      var moved := Rebound(v, sender, epoch, slots);
      var v' := v.(owner := v.owner + map j | j in moved :: sender);
      var lost := set j | j in moved && j in v.owner && v.owner[j] == MyMaster(v);
      if lost != {} && SlotsOf(v', MyMaster(v)) == {} then SetMaster(v', sender) else v'
  }

  // ---------------------------------------------------------------- packet handlers

  /** A master that announced itself as a slave loses its slots. */
  function Demoted(v: View, n: NodeId): View
    requires n in v.peers
  {
    DelNodeSlots(v, n).(peers := v.peers[n := v.peers[n].(role := Slave)])
  }

  /** Role switch announced by a ping (clusterProcessPacket, "Check for role switch"). */
  function RoleSwitch(v: View, h: Header): (r: View)
    requires h.sender in v.peers
    ensures r.me == v.me && r.peers.Keys == v.peers.Keys && SameBallot(v, r)
  {
    if h.slaveof == None then SetNodeAsMaster(v, h.sender)
    else
      var v1 := if v.peers[h.sender].role == Master then Demoted(v, h.sender) else v;
      if h.slaveof.value in v1.peers
      then v1.(peers := v1.peers[h.sender := v1.peers[h.sender].(slaveof := h.slaveof)])
      else v1
  }

  /** Slots the sender claims that this view binds to someone with a greater epoch. */
  function Outdated(v: View, sender: NodeId, epoch: nat, slots: set<nat>): set<nat> {
    set j | j in slots && j in v.owner && v.owner[j] != sender
            && v.owner[j] in v.peers && v.peers[v.owner[j]].configEpoch > epoch
  }

  /** The UPDATE packet clusterSendUpdate builds about the owner of slot j. */
  function UpdatePacket(v: View, dest: NodeId, j: nat): Packet
    requires v.me in v.peers && j in v.owner && v.owner[j] in v.peers
  {
    var n := v.owner[j];
    Packet(dest, BuildHeader(v), Update(n, v.peers[n].configEpoch, SlotsOf(v, n)))
  }

  /** Whether the slots a ping claims differ from those this view gives the sender or its master. */
  predicate Dirty(v: View, h: Header)
    requires h.sender in v.peers
  {
    var claimant := if v.peers[h.sender].role == Master then Some(h.sender) else v.peers[h.sender].slaveof;
    claimant.Some? && SlotsOf(v, claimant.value) != h.slots
  }

  /** The slots part of a ping, after the role switch. */
  function PingSlots(v: View, h: Header, epoch: nat): (r: View)
    requires v.me in v.peers && h.sender in v.peers
    ensures r.me == v.me && r.peers.Keys == v.peers.Keys && SameBallot(v, r)
  {
    if v.peers[h.sender].role == Master && Dirty(v, h) then UpdateSlots(v, h.sender, epoch, h.slots) else v
  }

  /** The UPDATE a ping with outdated claims is answered with; `slot` is the first outdated one. */
  function PingReply(v: View, h: Header, epoch: nat, slot: Option<nat>): (out: set<Packet>)
    requires v.me in v.peers
    ensures forall p :: p in out ==> p.body.Update? && p.dest == h.sender
  {
    var stale := Outdated(v, h.sender, epoch, h.slots);
    if slot.Some? && slot.value in stale && (forall j | j in stale :: slot.value <= j)
    then {UpdatePacket(v, h.sender, slot.value)} else {}
  }

  /** PING and PONG. `slot` is the first outdated slot, when there is one and a link to the sender. */
  function OnPing(v: View, h: Header, slot: Option<nat>): (r: Effect)
    requires Wf(v)
    ensures r.view.me == v.me && r.view.peers.Keys == v.peers.Keys && SameBallot(v, r.view)
    ensures forall p :: p in r.out ==> p.body.Update? && p.dest == h.sender
  {
    var v1 := ProcessHeader(v, h);
    if h.sender !in v.peers then Effect(v1, {})
    else
      var epoch := SenderConfigEpoch(v, h);
      var v2 := RoleSwitch(v1, h);
      var v3 := PingSlots(v2, h, epoch);
      Effect(if epoch == MyEpoch(v3) then HandleCollision(v3, h.sender) else v3,
             if Dirty(v2, h) then PingReply(v3, h, epoch, slot) else {})
  }

  /** Whether clusterSendFailoverAuthIfNeeded grants its vote; v is the view after ProcessHeader. */
  predicate GrantsVote(v: View, h: Header, forceAck: bool, votedRecently: bool)
    requires v.me in v.peers && h.sender in v.peers
  {
    var node := v.peers[h.sender];
    && v.peers[v.me].role != Slave && SlotsOf(v, v.me) != {}
    && h.currentEpoch >= v.currentEpoch
    && v.lastVoteEpoch != v.currentEpoch
    && node.role != Master && node.slaveof.Some? && node.slaveof.value in v.peers
    && (v.peers[node.slaveof.value].failed || forceAck)
    && !votedRecently
    && forall j | j in h.slots && j in v.owner && v.owner[j] in v.peers ::
         v.peers[v.owner[j]].configEpoch <= h.configEpoch
  }

  /** FAILOVER_AUTH_REQUEST */
  function OnAuthRequest(v: View, h: Header, forceAck: bool, votedRecently: bool, linked: bool): Effect
    requires Wf(v)
  {
    var v1 := ProcessHeader(v, h);
    if h.sender in v1.peers && GrantsVote(v1, h, forceAck, votedRecently) then
      Effect(v1.(lastVoteEpoch := v1.currentEpoch),
             if linked then {Packet(h.sender, BuildHeader(v1), AuthAck)} else {})
    else Effect(v1, {})
  }

  predicate CountsVote(v: View, h: Header)
    requires h.sender in v.peers
  {
    && v.peers[h.sender].role == Master
    && SlotsOf(v, h.sender) != {}
    && SenderCurrentEpoch(v, h) >= v.authEpoch
  }

  /** FAILOVER_AUTH_ACK */
  function OnAuthAck(v: View, h: Header): Effect {
    var v1 := ProcessHeader(v, h);
    if h.sender in v1.peers && CountsVote(v1, h)
    then Effect(v1.(authCount := v1.authCount + 1), {})
    else Effect(v1, {})
  }

  /** What an UPDATE changes in the entry it is about. */
  function BelieveUpdate(v: View, about: NodeId, epoch: nat): (r: View)
    requires about in v.peers
    ensures r.me == v.me && r.peers.Keys == v.peers.Keys && SameBallot(v, r)
  {
    WithConfigEpoch(if v.peers[about].role == Slave then SetNodeAsMaster(v, about) else v, about, epoch)
  }

  /** UPDATE */
  function OnUpdate(v: View, h: Header, about: NodeId, epoch: nat, slots: set<nat>): (r: Effect)
    requires Wf(v)
    ensures r.view.me == v.me && r.view.peers.Keys == v.peers.Keys && SameBallot(v, r.view) && r.out == {}
  {
    var v1 := ProcessHeader(v, h);
    if h.sender !in v1.peers || about !in v1.peers || v1.peers[about].configEpoch >= epoch then Effect(v1, {})
    else Effect(UpdateSlots(BelieveUpdate(v1, about, epoch), about, epoch, slots), {})
  }

  // ---------------------------------------------------------------- failover

  /** clusterFailoverReplaceYourMaster */
  function ReplaceYourMaster(v: View): View
    requires v.me in v.peers
  {
    var self := v.peers[v.me];
    if self.role == Master || self.slaveof == None then v
    else
      var prev := self.slaveof.value;
      SetNodeAsMaster(v, v.me).(owner := map j | j in v.owner :: if v.owner[j] == prev then v.me else v.owner[j])
  }

  /** The clock-dependent tests of clusterHandleSlaveFailover. */
  datatype Clock = Clock(dataTooOld: bool, retryElapsed: bool, delayElapsed: bool, expired: bool)

  datatype FailoverStep = Idle | Schedule | Ask | Win

  function NeededQuorum(v: View): nat {
    v.size / 2 + 1
  }

  /** Which branch clusterHandleSlaveFailover takes. */
  function FailoverBranch(v: View, manual: bool, clock: Clock): FailoverStep
    requires v.me in v.peers
  {
    var self := v.peers[v.me];
    if self.role == Master || self.slaveof == None || self.slaveof.value !in v.peers
       || (!v.peers[self.slaveof.value].failed && !manual)
       || SlotsOf(v, self.slaveof.value) == {} then Idle
    else if clock.dataTooOld && !manual then Idle
    else if clock.retryElapsed then Schedule
    else if !clock.delayElapsed || clock.expired then Idle
    else if !v.authSent then Ask
    else if v.authCount >= NeededQuorum(v) then Win
    else Idle
  }

  function ScheduleElection(v: View): View {
    v.(authCount := 0, authSent := false)
  }

  function AskForVotes(v: View): View {
    v.(currentEpoch := v.currentEpoch + 1, authEpoch := v.currentEpoch + 1, authSent := true)
  }

  function WinElection(v: View): View
    requires v.me in v.peers
  {
    ReplaceYourMaster(WithConfigEpoch(v, v.me, Max(MyEpoch(v), v.authEpoch)))
  }

  /** The node table after clusterDelNode(n). */
  function Forget(v: View, n: NodeId): View {
    v.(peers := map p | p in v.peers && p != n ::
                  if v.peers[p].slaveof == Some(n) then v.peers[p].(slaveof := None) else v.peers[p],
       owner := map j | j in v.owner && v.owner[j] != n :: v.owner[j],
       importing := map j | j in v.importing && v.importing[j] != n :: v.importing[j])
  }

  /** The voters a node counts: masters it believes serve at least one slot. */
  function Voters(v: View): set<NodeId> {
    set n | n in v.peers && v.peers[n].role == Master && SlotsOf(v, n) != {}
  }
}
