/**
 The cluster bus as a state machine: every node's view, a bag of packets in flight, and a
 record of the votes granted, the votes counted and the elections won. A packet may be
 delayed or lost, and is delivered at most once.
 */
module ClusterProtocol {
  import opened Common
  import opened ClusterView

  datatype Vote = Vote(voter: NodeId, epoch: nat)

  datatype WinRecord = WinRecord(winner: NodeId, epoch: nat, votes: seq<Vote>, size: nat)

  datatype Cluster = Cluster(
    names: set<NodeId>,               // the nodes that exist
    views: map<NodeId, View>,
    net: multiset<Packet>,
    granted: map<Vote, NodeId>,       // the slave each vote went to
    counted: map<NodeId, seq<Vote>>,  // the acks behind each failover_auth_count
    wins: set<WinRecord>)

  /** Commands and cron work that touch one node and send nothing. */
  datatype Local =
    | Bump(maxEpoch: nat)
    | Takeover(maxEpoch: nat)
    | SetConfigEpoch(epoch: nat)
    | AssignSlot(slot: nat, node: NodeId)
    | UnassignSlot(slot: nat)
    | Import(slot: nat, node: NodeId)
    | Stable(slot: nat)
    | ForgetNode(node: NodeId)
    | Replicate(node: NodeId)
    | BeginHandshake(placeholder: NodeId)
    | EndHandshake(placeholder: NodeId, name: NodeId, role: Role)
    | SetFailed(node: NodeId, failed: bool)
    | UpdateState

  datatype Step =
    | Receive(p: Packet, reply: Option<nat>, votedRecently: bool, linked: bool)
    | Lose(p: Packet)
    | SendPing(n: NodeId, dest: NodeId)
    | Failover(n: NodeId, manual: bool, forceAck: bool, clock: Clock, dests: set<NodeId>)
    | Command(n: NodeId, local: Local)

  // ---------------------------------------------------------------- local steps

  /** `names` are the names of the real nodes; a handshake placeholder is never one of them. */
  ghost predicate LocalEnabled(names: set<NodeId>, v: View, l: Local)
    requires Wf(v)
  {
    match l
    case Bump(m) => IsMaxEpoch(v, m)
    case Takeover(m) => v.peers[v.me].role == Slave && IsMaxEpoch(v, m)
    case SetConfigEpoch(_) => v.peers.Keys == {v.me} && MyEpoch(v) == 0
    case AssignSlot(j, n) => j < CLUSTER_SLOTS && n in v.peers
    case UnassignSlot(j) => true
    case Import(j, n) => j < CLUSTER_SLOTS && n in v.peers
    case Stable(j) => true
    case ForgetNode(n) => n in v.peers && n != v.me && v.peers[v.me].slaveof != Some(n)
    case Replicate(n) => n in v.peers && n != v.me && v.peers[n].role != Slave && SlotsOf(v, v.me) == {}
    case BeginHandshake(p) => p !in v.peers && p !in names
    case EndHandshake(p, n, role) => p in v.peers && v.peers[p].handshake && n !in v.peers
    case SetFailed(n, _) => n in v.peers && n != v.me
    case UpdateState => true
  }

  /** clusterRenameNode keeps the node structure, so every reference to it follows. */
  function Renamed(v: View, from: NodeId, to: NodeId, role: Role): View
    requires from in v.peers
  {
    var peers := map p | p in v.peers && p != from ::
                   if v.peers[p].slaveof == Some(from) then v.peers[p].(slaveof := Some(to)) else v.peers[p];
    var entry := v.peers[from].(handshake := false, role := role);
    v.(peers := peers[to := if entry.slaveof == Some(from) then entry.(slaveof := Some(to)) else entry],
       owner := map j | j in v.owner :: if v.owner[j] == from then to else v.owner[j],
       importing := map j | j in v.importing :: if v.importing[j] == from then to else v.importing[j])
  }

  ghost function DoLocal(names: set<NodeId>, v: View, l: Local): View
    requires Wf(v) && LocalEnabled(names, v, l)
  {
    match l
    case Bump(m) => BumpEpoch(v, m)
    case Takeover(m) => ReplaceYourMaster(BumpEpoch(v, m))
    case SetConfigEpoch(e) => WithConfigEpoch(v.(currentEpoch := Max(v.currentEpoch, e)), v.me, e)
    case AssignSlot(j, n) => v.(owner := v.owner[j := n])
    case UnassignSlot(j) => v.(owner := v.owner - {j})
    case Import(j, n) => v.(importing := v.importing[j := n])
    case Stable(j) => v.(importing := v.importing - {j})
    case ForgetNode(n) => Forget(v, n)
    case Replicate(n) => SetMaster(v, n)
    case BeginHandshake(p) => v.(peers := v.peers[p := Peer(NoRole, false, true, None, 0)])
    case EndHandshake(p, n, role) => Renamed(v, p, n, role)
    case SetFailed(n, f) => v.(peers := v.peers[n := v.peers[n].(failed := f)])
    case UpdateState => v.(size := |Voters(v)|)
  }

  // ---------------------------------------------------------------- global steps

  function OnPacket(v: View, p: Packet, reply: Option<nat>, votedRecently: bool, linked: bool): Effect
    requires Wf(v)
  {
    match p.body
    case Ping => OnPing(v, p.hdr, reply)
    case AuthRequest(force) => OnAuthRequest(v, p.hdr, force, votedRecently, linked)
    case AuthAck => OnAuthAck(v, p.hdr)
    case Update(about, epoch, slots) => OnUpdate(v, p.hdr, about, epoch, slots)
  }

  ghost predicate Enabled(c: Cluster, s: Step) {
    match s
    case Receive(p, _, _, _) => p in c.net && p.dest in c.views && Wf(c.views[p.dest])
    case Lose(p) => p in c.net
    case SendPing(n, dest) => n in c.views && Wf(c.views[n]) && dest != n
    case Failover(n, _, _, _, dests) => n in c.views && Wf(c.views[n]) && n !in dests && n in c.counted
    case Command(n, l) => n in c.views && Wf(c.views[n]) && LocalEnabled(c.names, c.views[n], l)
  }

  function VoteOf(h: Header): Vote {
    Vote(h.sender, h.currentEpoch)
  }

  predicate Counts(v: View, p: Packet) {
    && p.body.AuthAck?
    && p.hdr.sender in ProcessHeader(v, p.hdr).peers
    && CountsVote(ProcessHeader(v, p.hdr), p.hdr)
  }

  predicate Grants(v: View, p: Packet, votedRecently: bool)
    requires Wf(v)
  {
    && p.body.AuthRequest?
    && p.hdr.sender in ProcessHeader(v, p.hdr).peers
    && GrantsVote(ProcessHeader(v, p.hdr), p.hdr, p.body.forceAck, votedRecently)
  }

  function Requests(v: View, dests: set<NodeId>, forceAck: bool): set<Packet>
    requires v.me in v.peers
  {
    set d | d in dests :: Packet(d, BuildHeader(v), AuthRequest(forceAck))
  }

  ghost function Apply(c: Cluster, s: Step): Cluster
    requires Enabled(c, s)
  {
    match s
    case Receive(p, reply, votedRecently, linked) =>
      var v := c.views[p.dest];
      var e := OnPacket(v, p, reply, votedRecently, linked);
      c.(views := c.views[p.dest := e.view],
         net := c.net - multiset{p} + multiset(e.out),
         granted := if Grants(v, p, votedRecently)
                    then c.granted[Vote(p.dest, e.view.lastVoteEpoch) := p.hdr.sender] else c.granted,
         counted := if Counts(v, p) && p.dest in c.counted
                    then c.counted[p.dest := c.counted[p.dest] + [VoteOf(p.hdr)]] else c.counted)
    case Lose(p) => c.(net := c.net - multiset{p})
    case SendPing(n, dest) => c.(net := c.net + multiset{Packet(dest, BuildHeader(c.views[n]), Ping)})
    case Failover(n, manual, forceAck, clock, dests) =>
      var v := c.views[n];
      (match FailoverBranch(v, manual, clock)
       case Idle => c
       case Schedule => c.(views := c.views[n := ScheduleElection(v)], counted := c.counted[n := []])
       case Ask => c.(views := c.views[n := AskForVotes(v)],
                      net := c.net + multiset(Requests(AskForVotes(v), dests, forceAck)))
       case Win => c.(views := c.views[n := WinElection(v)],
                      wins := c.wins + {WinRecord(n, v.authEpoch, c.counted[n], v.size)}))
    case Command(n, l) => c.(views := c.views[n := DoLocal(c.names, c.views[n], l)])
  }

  // ---------------------------------------------------------------- epoch dominance

  /** currentEpoch is at least every epoch the node knows or used. */
  ghost predicate Dominates(v: View) {
    && (forall p {:trigger v.peers[p].configEpoch} :: p in v.peers ==> v.peers[p].configEpoch <= v.currentEpoch)
    && v.lastVoteEpoch <= v.currentEpoch
    && v.authEpoch <= v.currentEpoch
  }

  ghost predicate GoodView(names: set<NodeId>, v: View) {
    && Wf(v) && Dominates(v)
    && v.me in names
    && (forall p {:trigger v.peers[p].handshake} :: p in v.peers && v.peers[p].handshake ==> p !in names)
  }

  ghost predicate GoodHeader(names: set<NodeId>, h: Header) {
    h.sender in names && h.configEpoch <= h.currentEpoch
  }

  ghost predicate GoodPacket(names: set<NodeId>, p: Packet) {
    && GoodHeader(names, p.hdr)
    && p.dest != p.hdr.sender
    && (p.body.Update? ==> p.body.epoch <= p.hdr.currentEpoch)
  }

  ghost predicate GoodNode(c: Cluster, n: NodeId) {
    n in c.views && c.views[n].me == n && GoodView(c.names, c.views[n])
  }

  ghost predicate DominanceInv(c: Cluster) {
    && c.counted.Keys == c.views.Keys == c.names
    && (forall n {:trigger GoodNode(c, n)} :: n in c.names ==> GoodNode(c, n))
    && (forall p {:trigger GoodPacket(c.names, p)} :: p in c.net ==> GoodPacket(c.names, p))
  }

  /** What one node's step must keep: a good view, the same name, an epoch that never falls. */
  ghost predicate KeepsEpochs(names: set<NodeId>, v: View, v': View) {
    GoodView(names, v') && v'.me == v.me && v.currentEpoch <= v'.currentEpoch
  }

  lemma HeaderIsGood(names: set<NodeId>, v: View)
    requires GoodView(names, v)
    ensures GoodHeader(names, BuildHeader(v)) && BuildHeader(v).sender == v.me
    ensures BuildHeader(v).currentEpoch == v.currentEpoch
  {
  }

  lemma ProcessHeaderKeepsEpochs(names: set<NodeId>, v: View, h: Header)
    requires GoodView(names, v) && GoodHeader(names, h)
    ensures KeepsEpochs(names, v, ProcessHeader(v, h))
    ensures h.sender in v.peers ==> h.currentEpoch <= ProcessHeader(v, h).currentEpoch
  {
  }

  lemma DemotedKeepsEpochs(names: set<NodeId>, v: View, n: NodeId)
    requires GoodView(names, v) && n in v.peers && n != v.me
    ensures KeepsEpochs(names, v, Demoted(v, n))
  {
  }

  lemma RoleSwitchKeepsEpochs(names: set<NodeId>, v: View, h: Header)
    requires GoodView(names, v) && h.sender in v.peers && h.sender != v.me
    ensures KeepsEpochs(names, v, RoleSwitch(v, h))
    ensures RoleSwitch(v, h).currentEpoch == v.currentEpoch && h.sender in RoleSwitch(v, h).peers
  {
    DemotedKeepsEpochs(names, v, h.sender);
  }

  lemma UpdateSlotsKeepsEpochs(names: set<NodeId>, v: View, sender: NodeId, epoch: nat, slots: set<nat>)
    requires GoodView(names, v) && sender in v.peers
    ensures KeepsEpochs(names, v, UpdateSlots(v, sender, epoch, slots))
    ensures UpdateSlots(v, sender, epoch, slots).peers.Keys == v.peers.Keys
  {
  }

  lemma PingReplyIsGood(names: set<NodeId>, v: View, h: Header, epoch: nat, slot: Option<nat>)
    requires GoodView(names, v) && h.sender in v.peers && h.sender != v.me
    ensures forall p :: p in PingReply(v, h, epoch, slot) ==> GoodPacket(names, p)
  {
  }

  lemma CollisionKeepsEpochs(names: set<NodeId>, v: View, sender: NodeId)
    requires GoodView(names, v) && sender in v.peers
    ensures KeepsEpochs(names, v, HandleCollision(v, sender))
  {
  }

  lemma PingKeepsEpochs(names: set<NodeId>, v: View, h: Header, slot: Option<nat>)
    requires GoodView(names, v) && GoodHeader(names, h) && h.sender != v.me
    ensures KeepsEpochs(names, v, OnPing(v, h, slot).view)
    ensures forall p :: p in OnPing(v, h, slot).out ==> GoodPacket(names, p)
  {
    hide ProcessHeader, RoleSwitch, HandleCollision, PingReply, UpdateSlots, Dirty, Dominates, Wf, GoodHeader, GoodPacket;
    var v1 := ProcessHeader(v, h);
    ProcessHeaderKeepsEpochs(names, v, h);
    if h.sender in v.peers {
      WellFormedKnowsItself(v);
      var epoch := SenderConfigEpoch(v, h);
      RoleSwitchKeepsEpochs(names, v1, h);
      var v2 := RoleSwitch(v1, h);
      UpdateSlotsKeepsEpochs(names, v2, h.sender, epoch, h.slots);
      var v3 := PingSlots(v2, h, epoch);
      PingReplyIsGood(names, v3, h, epoch, slot);
      CollisionKeepsEpochs(names, v3, h.sender);
    }
  }

  lemma WellFormedKnowsItself(v: View)
    requires Wf(v)
    ensures v.me in v.peers
  {
  }

  lemma BelieveUpdateKeepsEpochs(names: set<NodeId>, v: View, about: NodeId, epoch: nat)
    requires GoodView(names, v) && about in v.peers && epoch <= v.currentEpoch
    ensures KeepsEpochs(names, v, BelieveUpdate(v, about, epoch))
  {
  }

  lemma UpdateKeepsEpochs(names: set<NodeId>, v: View, h: Header, about: NodeId, epoch: nat, slots: set<nat>)
    requires GoodView(names, v) && GoodHeader(names, h) && epoch <= h.currentEpoch
    ensures KeepsEpochs(names, v, OnUpdate(v, h, about, epoch, slots).view)
  {
    ProcessHeaderKeepsEpochs(names, v, h);
    var v1 := ProcessHeader(v, h);
    if h.sender in v1.peers && about in v1.peers && v1.peers[about].configEpoch < epoch {
      BelieveUpdateKeepsEpochs(names, v1, about, epoch);
      UpdateSlotsKeepsEpochs(names, BelieveUpdate(v1, about, epoch), about, epoch, slots);
    }
  }

  lemma ForgetKeepsEpochs(names: set<NodeId>, v: View, n: NodeId)
    requires GoodView(names, v) && n in v.peers && n != v.me && v.peers[v.me].slaveof != Some(n)
    ensures KeepsEpochs(names, v, Forget(v, n))
  {
  }

  lemma RenamedKeepsEpochs(names: set<NodeId>, v: View, from: NodeId, to: NodeId, role: Role)
    requires GoodView(names, v) && from in v.peers && v.peers[from].handshake && to !in v.peers
    ensures KeepsEpochs(names, v, Renamed(v, from, to, role))
  {
  }

  lemma ReplaceKeepsEpochs(names: set<NodeId>, v: View)
    requires GoodView(names, v)
    ensures KeepsEpochs(names, v, ReplaceYourMaster(v))
  {
  }

  lemma EpochCommandKeepsEpochs(names: set<NodeId>, v: View, l: Local)
    requires GoodView(names, v) && LocalEnabled(names, v, l)
    requires l.Bump? || l.Takeover? || l.SetConfigEpoch?
    ensures KeepsEpochs(names, v, DoLocal(names, v, l))
  {
    if l.Takeover? {
      ReplaceKeepsEpochs(names, BumpEpoch(v, l.maxEpoch));
    }
  }

  lemma SlotCommandKeepsEpochs(names: set<NodeId>, v: View, l: Local)
    requires GoodView(names, v) && LocalEnabled(names, v, l)
    requires l.AssignSlot? || l.UnassignSlot? || l.Import? || l.Stable? || l.UpdateState?
    ensures KeepsEpochs(names, v, DoLocal(names, v, l))
  {
  }

  lemma LocalKeepsEpochs(names: set<NodeId>, v: View, l: Local)
    requires GoodView(names, v) && LocalEnabled(names, v, l)
    ensures KeepsEpochs(names, v, DoLocal(names, v, l))
  {
    match l
    case ForgetNode(n) => ForgetKeepsEpochs(names, v, n);
    case EndHandshake(p, n, role) => RenamedKeepsEpochs(names, v, p, n, role);
    case Replicate(_) =>
    case BeginHandshake(_) =>
    case SetFailed(_, _) =>
    case _ =>
      if l.Bump? || l.Takeover? || l.SetConfigEpoch? {
        EpochCommandKeepsEpochs(names, v, l);
      } else {
        SlotCommandKeepsEpochs(names, v, l);
      }
  }

  lemma BallotKeepsEpochs(names: set<NodeId>, v: View, h: Header, force: bool, recent: bool, linked: bool)
    requires GoodView(names, v) && GoodHeader(names, h) && h.sender != v.me
    ensures KeepsEpochs(names, v, OnAuthRequest(v, h, force, recent, linked).view)
    ensures forall q :: q in OnAuthRequest(v, h, force, recent, linked).out ==> GoodPacket(names, q)
    ensures KeepsEpochs(names, v, OnAuthAck(v, h).view) && OnAuthAck(v, h).out == {}
  {
    hide ProcessHeader, GrantsVote, CountsVote;
    ProcessHeaderKeepsEpochs(names, v, h);
    HeaderIsGood(names, ProcessHeader(v, h));
  }

  lemma PacketKeepsEpochs(names: set<NodeId>, v: View, p: Packet, slot: Option<nat>, recent: bool, linked: bool)
    requires GoodView(names, v) && GoodPacket(names, p) && p.dest == v.me
    ensures KeepsEpochs(names, v, OnPacket(v, p, slot, recent, linked).view)
    ensures forall q :: q in OnPacket(v, p, slot, recent, linked).out ==> GoodPacket(names, q)
  {
    hide OnPing, OnUpdate, OnAuthRequest, OnAuthAck, KeepsEpochs, GoodHeader, Dominates, Wf;
    match p.body
    case Ping => PingKeepsEpochs(names, v, p.hdr, slot);
    case Update(about, epoch, slots) => UpdateKeepsEpochs(names, v, p.hdr, about, epoch, slots);
    case AuthRequest(force) => BallotKeepsEpochs(names, v, p.hdr, force, recent, linked);
    case AuthAck => BallotKeepsEpochs(names, v, p.hdr, false, recent, linked);
  }

  lemma FailoverKeepsEpochs(names: set<NodeId>, v: View)
    requires GoodView(names, v)
    ensures KeepsEpochs(names, v, ScheduleElection(v))
    ensures KeepsEpochs(names, v, AskForVotes(v))
    ensures KeepsEpochs(names, v, WinElection(v))
  {
    ReplaceKeepsEpochs(names, WithConfigEpoch(v, v.me, Max(MyEpoch(v), v.authEpoch)));
  }

  /** No step lowers any node's currentEpoch. */
  ghost predicate EpochsRise(c: Cluster, c': Cluster) {
    && c'.names == c.names == c.views.Keys == c'.views.Keys
    && forall n :: n in c.names ==> c.views[n].currentEpoch <= c'.views[n].currentEpoch
  }

  /** A step that gives node n the view v' and adds only good packets keeps the invariant. */
  lemma OneNodeKeepsDominance(c: Cluster, n: NodeId, v': View, c': Cluster)
    requires DominanceInv(c) && n in c.views && KeepsEpochs(c.names, c.views[n], v')
    requires c'.names == c.names && c'.views == c.views[n := v'] && c'.counted.Keys == c.counted.Keys
    requires forall p :: p in c'.net ==> p in c.net || GoodPacket(c.names, p)
    ensures DominanceInv(c') && EpochsRise(c, c')
  {
    forall m | m in c'.names ensures GoodNode(c', m) {
      assert GoodNode(c, m);
    }
    forall p | p in c'.net ensures GoodPacket(c'.names, p) {
      assert p in c.net ==> GoodPacket(c.names, p);
    }
  }

  lemma ReceiveKeepsDominance(c: Cluster, s: Step)
    requires DominanceInv(c) && Enabled(c, s) && s.Receive?
    ensures DominanceInv(Apply(c, s)) && EpochsRise(c, Apply(c, s))
  {
    var p, v, c' := s.p, c.views[s.p.dest], Apply(c, s);
    assert GoodNode(c, p.dest) && GoodPacket(c.names, p);
    PacketKeepsEpochs(c.names, v, p, s.reply, s.votedRecently, s.linked);
    OneNodeKeepsDominance(c, p.dest, c'.views[p.dest], c');
  }

  lemma RequestsAreGood(names: set<NodeId>, v: View, dests: set<NodeId>, forceAck: bool)
    requires GoodView(names, v) && v.me in names && v.me !in dests
    ensures forall p :: p in Requests(v, dests, forceAck) ==> GoodPacket(names, p)
  {
  }

  lemma FailoverStepKeepsDominance(c: Cluster, s: Step)
    requires DominanceInv(c) && Enabled(c, s) && s.Failover?
    ensures DominanceInv(Apply(c, s)) && EpochsRise(c, Apply(c, s))
  {
    var v, c' := c.views[s.n], Apply(c, s);
    assert GoodNode(c, s.n);
    FailoverKeepsEpochs(c.names, v);
    match FailoverBranch(v, s.manual, s.clock)
    case Idle =>
    case Schedule => OneNodeKeepsDominance(c, s.n, ScheduleElection(v), c');
    case Ask =>
      RequestsAreGood(c.names, AskForVotes(v), s.dests, s.forceAck);
      OneNodeKeepsDominance(c, s.n, AskForVotes(v), c');
    case Win => OneNodeKeepsDominance(c, s.n, WinElection(v), c');
  }

  lemma WireKeepsDominance(c: Cluster, s: Step)
    requires DominanceInv(c) && Enabled(c, s) && (s.Lose? || s.SendPing?)
    ensures DominanceInv(Apply(c, s)) && EpochsRise(c, Apply(c, s))
  {
    var c' := Apply(c, s);
    if s.SendPing? {
      assert GoodNode(c, s.n);
      HeaderIsGood(c.names, c.views[s.n]);
    }
    forall m | m in c'.names ensures GoodNode(c', m) {
      assert GoodNode(c, m);
    }
    forall p | p in c'.net ensures GoodPacket(c'.names, p) {
      assert p in c.net ==> GoodPacket(c.names, p);
    }
  }

  lemma CommandKeepsDominance(c: Cluster, s: Step)
    requires DominanceInv(c) && Enabled(c, s) && s.Command?
    ensures DominanceInv(Apply(c, s)) && EpochsRise(c, Apply(c, s))
  {
    assert GoodNode(c, s.n);
    LocalKeepsEpochs(c.names, c.views[s.n], s.local);
    OneNodeKeepsDominance(c, s.n, Apply(c, s).views[s.n], Apply(c, s));
  }

  lemma StepKeepsDominance(c: Cluster, s: Step)
    requires DominanceInv(c) && Enabled(c, s)
    ensures DominanceInv(Apply(c, s)) && EpochsRise(c, Apply(c, s))
  {
    match s
    case Receive(_, _, _, _) => ReceiveKeepsDominance(c, s);
    case Failover(_, _, _, _, _) => FailoverStepKeepsDominance(c, s);
    case Command(_, _) => CommandKeepsDominance(c, s);
    case _ => WireKeepsDominance(c, s);
  }

  // ---------------------------------------------------------------- runs

  /** Nodes started from their saved configuration: nothing in flight, no election under way. */
  ghost predicate Init(c: Cluster) {
    && DominanceInv(c)
    && c.net == multiset{} && c.granted == map[] && c.wins == {}
    && forall n {:trigger c.counted[n]} :: n in c.names ==>
         c.counted[n] == [] && c.views[n].authCount == 0 && !c.views[n].authSent
  }

  ghost predicate IsRun(cs: seq<Cluster>, ss: seq<Step>) {
    && |cs| == |ss| + 1
    && Init(cs[0])
    && forall i :: 0 <= i < |ss| ==> Enabled(cs[i], ss[i]) && cs[i + 1] == Apply(cs[i], ss[i])
  }

  lemma {:induction false} RunKeepsDominance(cs: seq<Cluster>, ss: seq<Step>, i: nat)
    requires IsRun(cs, ss) && i < |cs|
    ensures DominanceInv(cs[i])
  {
    if i > 0 {
      RunKeepsDominance(cs, ss, i - 1);
      StepKeepsDominance(cs[i - 1], ss[i - 1]);
    }
  }

  lemma {:induction false} ChainRises(cs: seq<Cluster>, i: nat, j: nat)
    requires i <= j < |cs| && EpochsRise(cs[i], cs[i])
    requires forall k :: i <= k < j ==> EpochsRise(cs[k], cs[k + 1])
    ensures EpochsRise(cs[i], cs[j])
    decreases j
  {
    if i < j {
      ChainRises(cs, i, j - 1);
      RisesTransitively(cs[i], cs[j - 1], cs[j]);
    }
  }

  /** Over every run no node's currentEpoch decreases. */
  lemma EpochsNeverFall(cs: seq<Cluster>, ss: seq<Step>, i: nat, j: nat)
    requires IsRun(cs, ss) && i <= j < |cs|
    ensures EpochsRise(cs[i], cs[j])
  {
    RunKeepsDominance(cs, ss, i);
    forall k | i <= k < j ensures EpochsRise(cs[k], cs[k + 1]) {
      RunKeepsDominance(cs, ss, k);
      StepKeepsDominance(cs[k], ss[k]);
    }
    ChainRises(cs, i, j);
  }

  lemma RisesTransitively(a: Cluster, b: Cluster, c: Cluster)
    requires EpochsRise(a, b) && EpochsRise(b, c)
    ensures EpochsRise(a, c)
  {
    forall n | n in a.names ensures a.views[n].currentEpoch <= c.views[n].currentEpoch {
      assert n in b.names;
    }
  }

  /** In every run, at every moment, each node's currentEpoch is at least every configEpoch it
      knows and every header in flight has configEpoch <= currentEpoch. */
  lemma EpochDominance(cs: seq<Cluster>, ss: seq<Step>, i: nat)
    requires IsRun(cs, ss) && i < |cs|
    ensures cs[i].names == cs[i].views.Keys
    ensures forall n, p :: n in cs[i].names && p in cs[i].views[n].peers ==>
              cs[i].views[n].peers[p].configEpoch <= cs[i].views[n].currentEpoch
    ensures forall p :: p in cs[i].net ==> p.hdr.configEpoch <= p.hdr.currentEpoch
  {
    RunKeepsDominance(cs, ss, i);
    assert forall n :: n in cs[i].names ==> GoodNode(cs[i], n);
    assert forall p :: p in cs[i].net ==> GoodPacket(cs[i].names, p);
  }

  /** A bump without consensus goes past every epoch the node knows; it is refused exactly when
      the node's own epoch is already the greatest and is not zero. */
  lemma BumpExceedsAllKnown(v: View, m: nat)
    requires Wf(v) && Dominates(v) && IsMaxEpoch(v, m)
    ensures var v' := BumpEpoch(v, m);
            if MyEpoch(v) != 0 && (forall p :: p in v.peers ==> v.peers[p].configEpoch <= MyEpoch(v))
               && MyEpoch(v) == v.currentEpoch
            then v' == v
            else forall p :: p in v.peers ==> v.peers[p].configEpoch < MyEpoch(v')
  {
    assert m == v.currentEpoch;
  }

  /** Rebinding slots, and becoming a replica because of it, leaves every epoch alone. */
  lemma UpdateSlotsKeepsDominance(v: View, sender: NodeId, epoch: nat, slots: set<nat>)
    requires v.me in v.peers
    ensures Dominates(UpdateSlots(v, sender, epoch, slots)) <==> Dominates(v)
  {
    var v' := UpdateSlots(v, sender, epoch, slots);
    assert forall p :: p in v.peers <==> p in v'.peers;
    assert forall p :: p in v.peers ==> v.peers[p].configEpoch == v'.peers[p].configEpoch;
  }

  lemma BelieveUpdateDominance(v: View, about: NodeId, epoch: nat)
    requires Dominates(v) && about in v.peers
    ensures Dominates(BelieveUpdate(v, about, epoch)) <==> epoch <= v.currentEpoch
  {
    assert BelieveUpdate(v, about, epoch).peers[about].configEpoch == epoch;
  }

  lemma ProcessHeaderDominates(v: View, h: Header)
    requires Dominates(v) && h.configEpoch <= h.currentEpoch
    ensures Dominates(ProcessHeader(v, h)) && ProcessHeader(v, h).peers.Keys == v.peers.Keys
    ensures ProcessHeader(v, h).currentEpoch ==
              if Trusted(v, h) then Max(v.currentEpoch, h.currentEpoch) else v.currentEpoch
  {
  }

  /** An UPDATE is the one packet whose epoch is believed from a sender still in handshake, whose
      header epochs are skipped. This is exactly when dominance is lost. */
  lemma UpdateDominanceExact(v: View, h: Header, about: NodeId, epoch: nat, slots: set<nat>)
    requires Wf(v) && Dominates(v) && h.configEpoch <= h.currentEpoch && epoch <= h.currentEpoch
    ensures Dominates(OnUpdate(v, h, about, epoch, slots).view) <==>
              Trusted(v, h) || h.sender !in v.peers || about !in v.peers || epoch <= v.currentEpoch
  {
    var v1 := ProcessHeader(v, h);
    ProcessHeaderDominates(v, h);
    if h.sender in v1.peers && about in v1.peers {
      assert v1.peers[about].configEpoch <= v1.currentEpoch;
      if v1.peers[about].configEpoch < epoch {
        BelieveUpdateDominance(v1, about, epoch);
        UpdateSlotsKeepsDominance(BelieveUpdate(v1, about, epoch), about, epoch, slots);
      }
    }
  }

  /** No genuine packet does this: its sender would have to bear the name of a handshake placeholder. */
  lemma LostDominanceIsNotGenuine(names: set<NodeId>, v: View, h: Header, about: NodeId, epoch: nat, slots: set<nat>)
    requires GoodView(names, v) && h.configEpoch <= h.currentEpoch && epoch <= h.currentEpoch
    requires !Dominates(OnUpdate(v, h, about, epoch, slots).view)
    ensures h.sender in v.peers && v.peers[h.sender].handshake && h.sender !in names
  {
    UpdateDominanceExact(v, h, about, epoch, slots);
    assert v.peers[h.sender].handshake;
  }

  /** Such a packet: node 1 holds the placeholder 2, and an UPDATE under that name brings epoch 5. */
  lemma PlaceholderUpdateLosesDominance() returns (v: View, h: Header)
    ensures GoodView({1}, v) && h.configEpoch <= h.currentEpoch == 5
    ensures !Dominates(OnUpdate(v, h, 2, 5, {}).view)
  {
    v := View(1, 0, 0, map[1 := Peer(Master, false, false, None, 0), 2 := Peer(NoRole, false, true, None, 0)],
              map[], map[], 0, 0, false, 0);
    h := Header(2, 5, 0, {}, None);
    UpdateDominanceExact(v, h, 2, 5, {});
  }
}
