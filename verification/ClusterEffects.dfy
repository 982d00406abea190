/**
 What the operations of a node do, said of the view before and the view after: who speaks for whom in
 a header, when a vote is granted, when the failover cron acts, what a winner ends with, which claims
 take slots, what an announced role means, and who is told of outdated claims.
 */
module ClusterEffects {
  import opened Common
  import opened ClusterView
  import opened ClusterProtocol

  ghost predicate Owns(v: View, n: NodeId, j: nat) {
    j in v.owner && v.owner[j] == n
  }

  // ---------------------------------------------------------------- headers

  /** A slave's header speaks for its master: it carries the master's epoch and slots, under the slave's
      name. A master's carries its own. */
  lemma HeaderSpeaksForMaster(v: View)
    requires Wf(v)
    ensures var (h, self) := (BuildHeader(v), v.peers[v.me]);
      var n := if self.role == Slave then self.slaveof.value else v.me;
      && h.sender == v.me && h.currentEpoch == v.currentEpoch && h.slaveof == self.slaveof
      && n in v.peers && h.configEpoch == v.peers[n].configEpoch
      && (forall j :: j in h.slots <==> Owns(v, n, j))
  {
  }

  /** The header of a packet from a known node past its handshake raises the receiver's currentEpoch and
      the epoch noted for the sender to those it carries. It changes nothing else, and any other header
      changes nothing at all. */
  lemma HeaderNotesEpochs(v: View, h: Header)
    ensures var v' := ProcessHeader(v, h);
      if h.sender !in v.peers || v.peers[h.sender].handshake then v' == v
      else
        && v'.currentEpoch == (if h.currentEpoch > v.currentEpoch then h.currentEpoch else v.currentEpoch)
        && v'.peers.Keys == v.peers.Keys
        && v'.peers[h.sender].configEpoch
           == (if h.configEpoch > v.peers[h.sender].configEpoch then h.configEpoch else v.peers[h.sender].configEpoch)
        && v' == v.(currentEpoch := v'.currentEpoch,
                    peers := v.peers[h.sender := v.peers[h.sender].(configEpoch := v'.peers[h.sender].configEpoch)])
  {
  }

  // ---------------------------------------------------------------- votes

  /** A slot of the claim belongs to a node known at a greater epoch than the claim's. */
  ghost predicate Contested(v: View, h: Header) {
    exists j :: j in h.slots && j in v.owner && v.owner[j] in v.peers
                && v.peers[v.owner[j]].configEpoch > h.configEpoch
  }

  /** What the voter and the slave must be for a vote. */
  ghost predicate Eligible(v: View, h: Header, force: bool)
    requires Wf(v)
  {
    && v.peers[v.me].role == Master && (exists j :: Owns(v, v.me, j))
    && h.sender in v.peers && v.peers[h.sender].role != Master && v.peers[h.sender].slaveof.Some?
    && (v.peers[v.peers[h.sender].slaveof.value].failed || force)
  }

  /** A request is granted exactly when the voter serves slots, the sender is a slave of a failed master
      (or the failover is forced), its epoch is not behind and later than the last vote, no vote for that
      master is recent, and no slot it claims is owned at a greater epoch. */
  lemma VoteExactly(names: set<NodeId>, v: View, h: Header, force: bool, recent: bool)
    requires GoodView(names, v) && GoodHeader(names, h)
    ensures OnAuthRequest(v, h, force, recent, true).out != {} <==>
              && Eligible(v, h, force) && h.currentEpoch >= v.currentEpoch && h.currentEpoch > v.lastVoteEpoch
              && !recent && !Contested(v, h)
    ensures OnAuthRequest(v, h, force, recent, true).out == {} ==>
              OnAuthRequest(v, h, force, recent, true).view == ProcessHeader(v, h)
  {
    var v1 := ProcessHeader(v, h);
    ProcessHeaderKeepsEpochs(names, v, h);
    if h.sender in v.peers {
      assert !v.peers[h.sender].handshake;
      assert SlotsOf(v1, v.me) == SlotsOf(v, v.me);
      assert SlotsOf(v, v.me) != {} <==> exists j :: Owns(v, v.me, j) by {
        assert forall j :: j in SlotsOf(v, v.me) <==> Owns(v, v.me, j);
      }
    }
  }

  // ---------------------------------------------------------------- the failover cron

  /** A reason to fail over: this node is a slave of a master that serves slots and has failed, or the
      failover is manual, and its data is not too old. */
  ghost predicate HasCause(v: View, manual: bool, clock: Clock)
    requires Wf(v)
  {
    && v.peers[v.me].role == Slave
    && (exists j :: Owns(v, v.peers[v.me].slaveof.value, j))
    && (manual || (v.peers[v.peers[v.me].slaveof.value].failed && !clock.dataTooOld))
  }

  lemma BranchExactly(v: View, manual: bool, clock: Clock)
    requires Wf(v)
    ensures FailoverBranch(v, manual, clock) ==
              if !HasCause(v, manual, clock) then Idle
              else if clock.retryElapsed then Schedule
              else if !clock.delayElapsed || clock.expired then Idle
              else if !v.authSent then Ask
              else if v.authCount >= v.size / 2 + 1 then Win else Idle
  {
    if v.peers[v.me].role == Slave {
      var m := v.peers[v.me].slaveof.value;
      assert forall j :: j in SlotsOf(v, m) <==> Owns(v, m, j);
    }
  }

  /** Without a cause the cron changes nothing, and sends nothing: in particular a slave of a healthy
      master stays a slave unless the failover is manual. */
  lemma NoCauseNoFailover(c: Cluster, s: Step)
    requires Enabled(c, s) && s.Failover? && !HasCause(c.views[s.n], s.manual, s.clock)
    ensures Apply(c, s) == c
  {
    BranchExactly(c.views[s.n], s.manual, s.clock);
  }

  lemma HealthyMasterStays(c: Cluster, s: Step)
    requires Enabled(c, s) && s.Failover? && !s.manual
    requires var v := c.views[s.n]; v.peers[v.me].role == Slave ==> !v.peers[v.peers[v.me].slaveof.value].failed
    ensures Apply(c, s) == c
  {
    NoCauseNoFailover(c, s);
  }

  /** A slave with a cause whose delay has elapsed asks once: its epoch becomes the next one, and each
      destination is sent a request of that epoch in its master's name. */
  lemma AskSends(c: Cluster, s: Step)
    requires Enabled(c, s) && s.Failover? && FailoverBranch(c.views[s.n], s.manual, s.clock) == Ask && c.views[s.n].me == s.n
    ensures var (c', v) := (Apply(c, s), c.views[s.n]);
      && c'.views[s.n] == v.(currentEpoch := v.currentEpoch + 1, authEpoch := v.currentEpoch + 1, authSent := true)
      && (forall p :: p in c.net ==> p in c'.net)
      && (forall p :: p in c'.net && p !in c.net ==>
            && p.dest in s.dests && p.body == AuthRequest(s.forceAck) && p.hdr.sender == s.n
            && p.hdr.currentEpoch == v.currentEpoch + 1)
      && (forall d :: d in s.dests ==>
            Packet(d, BuildHeader(v).(currentEpoch := v.currentEpoch + 1), AuthRequest(s.forceAck)) in c'.net)
  {
    var (v, c') := (c.views[s.n], Apply(c, s));
    var sent := Requests(AskForVotes(v), s.dests, s.forceAck);
    assert BuildHeader(AskForVotes(v)) == BuildHeader(v).(currentEpoch := v.currentEpoch + 1) by {
      SameOwners(v, AskForVotes(v));
    }
    hide BuildHeader, FailoverBranch;
    assert c'.net == c.net + multiset(sent);
  }

  lemma SameOwners(v: View, v': View)
    requires v'.owner == v.owner
    ensures forall n :: SlotsOf(v', n) == SlotsOf(v, n)
  {
  }

  // ---------------------------------------------------------------- winning

  /** What a win makes of a slave of master m: a master, at the epoch it won or a greater one of its own,
      that owns what it and m owned. Everything else is as before. */
  ghost predicate TakesOver(v: View, v': View, epoch: nat)
    requires Wf(v) && v.peers[v.me].role == Slave
  {
    var (me, m) := (v.me, v.peers[v.me].slaveof.value);
    && v'.me == me && v'.peers.Keys == v.peers.Keys && v'.currentEpoch == v.currentEpoch
    && v'.peers[me].role == Master && v'.peers[me].slaveof == None
    && v'.peers[me].configEpoch >= epoch
    && (v.peers[me].configEpoch < epoch ==> v'.peers[me].configEpoch == epoch)
    && (v.peers[me].configEpoch >= epoch ==> v'.peers[me].configEpoch == v.peers[me].configEpoch)
    && (forall n :: n in v.peers && n != me ==> v'.peers[n] == v.peers[n])
    && v'.owner.Keys == v.owner.Keys
    && (forall j :: j in v.owner ==> v'.owner[j] == if v.owner[j] == m then me else v.owner[j])
  }

  lemma WinTakesOver(v: View)
    requires Wf(v) && v.peers[v.me].role == Slave
    ensures TakesOver(v, WinElection(v), v.authEpoch)
  {
  }

  /** In every run, whenever a win is recorded the winner was a slave that had asked for the epoch and had
      the votes of a majority, and right after it has taken over from its master at that epoch. */
  lemma WinnerTakesOver(cs: seq<Cluster>, ss: seq<Step>, i: nat, w: WinRecord)
    requires IsRun(cs, ss) && i < |ss| && w in cs[i + 1].wins && w !in cs[i].wins
    ensures w.winner in cs[i].views && w.winner in cs[i + 1].views
    ensures var (v, v') := (cs[i].views[w.winner], cs[i + 1].views[w.winner]);
      && v.me == w.winner && Wf(v) && v.peers[v.me].role == Slave
      && w.epoch == v.authEpoch && v.authSent && v.authCount >= v.size / 2 + 1 && w.size == v.size
      && TakesOver(v, v', w.epoch)
  {
    var (c, s) := (cs[i], ss[i]);
    RunKeepsDominance(cs, ss, i);
    assert Enabled(c, s) && cs[i + 1] == Apply(c, s);
    assert s.Failover? && GoodNode(c, s.n);
    BranchExactly(c.views[s.n], s.manual, s.clock);
    WinTakesOver(c.views[s.n]);
  }

  /** CLUSTER FAILOVER TAKEOVER: the same without votes, at an epoch greater than every one the node
      knows, unless its own was the greatest already. */
  lemma TakeoverTakesOver(names: set<NodeId>, v: View, maxEpoch: nat)
    requires Wf(v) && Dominates(v) && LocalEnabled(names, v, Takeover(maxEpoch))
    ensures var (v', m) := (DoLocal(names, v, Takeover(maxEpoch)), v.peers[v.me].slaveof.value);
      && v.me in v'.peers && v'.peers[v.me].role == Master && v'.peers[v.me].slaveof == None
      && (forall n :: n in v.peers && n != v.me ==> n in v'.peers && v'.peers[n] == v.peers[n])
      && (forall n :: n in v.peers ==> v.peers[n].configEpoch <= v'.peers[v.me].configEpoch)
      && (v'.peers[v.me].configEpoch == v.peers[v.me].configEpoch
          || forall n :: n in v.peers ==> v.peers[n].configEpoch < v'.peers[v.me].configEpoch)
      && v'.owner.Keys == v.owner.Keys
      && (forall j :: j in v.owner ==> v'.owner[j] == if v.owner[j] == m then v.me else v.owner[j])
  {
    BumpExceedsAllKnown(v, maxEpoch);
  }

  // ---------------------------------------------------------------- epochs and sizes

  /** A collision is acted upon exactly when both are masters with the same epoch and the other has the
      greater name; then this node alone moves on, to an epoch greater than every one it knows. */
  lemma CollisionExactly(v: View, n: NodeId)
    requires Wf(v) && n in v.peers && Dominates(v)
    ensures var v' := HandleCollision(v, n);
      if && v.peers[n].role == Master && v.peers[v.me].role == Master && n > v.me
         && v.peers[n].configEpoch == v.peers[v.me].configEpoch
      then
        && (forall p :: p in v.peers && p != v.me ==> p in v'.peers && v'.peers[p] == v.peers[p])
        && (forall p :: p in v.peers ==> v.peers[p].configEpoch < v'.peers[v.me].configEpoch)
        && v'.currentEpoch == v'.peers[v.me].configEpoch && v'.owner == v.owner
      else v' == v
  {
  }

  ghost function ServingMasters(v: View): set<NodeId> {
    set n | n in v.peers && v.peers[n].role == Master && exists j :: Owns(v, n, j)
  }

  /** The cluster size is the number of masters that own a slot. */
  lemma SizeCountsMasters(names: set<NodeId>, v: View)
    requires Wf(v)
    ensures DoLocal(names, v, UpdateState)
         == v.(size := |ServingMasters(v)|)
  {
    forall n ensures SlotsOf(v, n) != {} <==> exists j :: Owns(v, n, j) {
      assert forall j :: j in SlotsOf(v, n) <==> Owns(v, n, j);
    }
    assert Voters(v) == ServingMasters(v);
  }

  // ---------------------------------------------------------------- the node table

  /** CLUSTER FORGET leaves no trace of the node: no entry, no slot, no import, no slave of it. All else stays. */
  lemma ForgetLeavesNoTrace(v: View, n: NodeId)
    ensures var v' := Forget(v, n);
      && v'.peers.Keys == v.peers.Keys - {n}
      && (forall p :: p in v'.peers ==>
            v'.peers[p] == if v.peers[p].slaveof == Some(n) then v.peers[p].(slaveof := None) else v.peers[p])
      && (forall j :: j in v'.owner <==> j in v.owner && !Owns(v, n, j))
      && (forall j :: j in v'.owner ==> v'.owner[j] == v.owner[j])
      && (forall j :: j in v'.importing <==> j in v.importing && v.importing[j] != n)
      && (forall j :: j in v'.importing ==> v'.importing[j] == v.importing[j])
  {
  }

  /** The end of a handshake gives the placeholder its real name everywhere: its entry, slots, imports and
      slaves are found under the new name, and nothing is left under the old one. */
  lemma RenameMovesReferences(v: View, from: NodeId, to: NodeId, role: Role)
    requires from in v.peers && to !in v.peers
    ensures var v' := Renamed(v, from, to, role);
      && v'.peers.Keys == v.peers.Keys - {from} + {to}
      && v'.peers[to].role == role && !v'.peers[to].handshake && v'.peers[to].configEpoch == v.peers[from].configEpoch
      && (forall p :: p in v.peers && p != from ==>
            && v'.peers[p].(slaveof := v.peers[p].slaveof) == v.peers[p]
            && v'.peers[p].slaveof == (if v.peers[p].slaveof == Some(from) then Some(to) else v.peers[p].slaveof))
      && v'.owner.Keys == v.owner.Keys && (forall j :: j in v.owner ==> v'.owner[j] == if Owns(v, from, j) then to else v.owner[j])
      && v'.importing.Keys == v.importing.Keys
      && (forall j :: j in v.importing ==> v'.importing[j] == if v.importing[j] == from then to else v.importing[j])
  {
  }

  /** CLUSTER REPLICATE: this node is a slave of n and imports nothing any more if it was a master. */
  lemma ReplicateFollows(names: set<NodeId>, v: View, n: NodeId)
    requires Wf(v) && LocalEnabled(names, v, Replicate(n))
    ensures var v' := DoLocal(names, v, Replicate(n));
      && v'.peers == v.peers[v.me := v.peers[v.me].(role := Slave, slaveof := Some(n))]
      && v'.owner == v.owner && (v.peers[v.me].role == Master ==> v'.importing == map[]) && Wf(v')
  {
  }

  // ---------------------------------------------------------------- claims

  /** A claim of slot j by n at the given epoch takes it: nobody is importing it, and it is free or owned
      by another node of lesser epoch. */
  ghost predicate TakesSlot(v: View, n: NodeId, epoch: nat, slots: set<nat>, j: nat) {
    && j in slots && j < CLUSTER_SLOTS && j !in v.importing
    && (j !in v.owner || (v.owner[j] != n && v.owner[j] in v.peers && v.peers[v.owner[j]].configEpoch < epoch))
  }

  function CurrentMaster(v: View): NodeId
    requires Wf(v)
  {
    if v.peers[v.me].role == Slave then v.peers[v.me].slaveof.value else v.me
  }

  /** The claim takes all the slots of this node's master, or its own if it is one, and there are some. */
  ghost predicate Follows(v: View, n: NodeId, epoch: nat, slots: set<nat>)
    requires Wf(v)
  {
    var master := CurrentMaster(v);
    (exists j :: Owns(v, master, j)) && forall j :: Owns(v, master, j) ==> TakesSlot(v, n, epoch, slots, j)
  }

  /** A claim of another node changes exactly the slots it takes, and those go to the claimant. This node
      becomes its slave exactly when it follows, and then stops importing if it was a master. */
  lemma ClaimTakesExactly(v: View, n: NodeId, epoch: nat, slots: set<nat>)
    requires Wf(v) && n in v.peers && n != v.me
    ensures var (v', self) := (UpdateSlots(v, n, epoch, slots), v.peers[v.me]);
      && (forall j :: j in v'.owner <==> j in v.owner || TakesSlot(v, n, epoch, slots, j))
      && (forall j :: j in v'.owner ==> v'.owner[j] == if TakesSlot(v, n, epoch, slots, j) then n else v.owner[j])
      && (if Follows(v, n, epoch, slots)
          then v'.peers == v.peers[v.me := self.(role := Slave, slaveof := Some(n))]
               && v'.importing == (if self.role == Master then map[] else v.importing)
          else v'.peers == v.peers && v'.importing == v.importing)
  {
    var moved := Rebound(v, n, epoch, slots);
    assert forall j :: j in moved <==> TakesSlot(v, n, epoch, slots, j);
    ClaimCases(v, n, epoch, slots, moved);
  }

  lemma ClaimCases(v: View, n: NodeId, epoch: nat, slots: set<nat>, moved: set<nat>)
    requires Wf(v) && n in v.peers && n != v.me && moved == Rebound(v, n, epoch, slots)
    requires forall j :: j in moved <==> TakesSlot(v, n, epoch, slots, j)
    ensures var v' := v.(owner := v.owner + map j | j in moved :: n);
      UpdateSlots(v, n, epoch, slots) == if Follows(v, n, epoch, slots) then SetMaster(v', n) else v'
  {
    hide Rebound, Wf;
    var master := CurrentMaster(v);
    assert master == MyMaster(v) by {
      WfMaster(v);
    }
    FollowsExactly(v, n, moved, master);
    var lost := set j | j in moved && j in v.owner && v.owner[j] == master;
    assert lost != {} <==> exists j :: j in moved && Owns(v, master, j) by {
      assert forall j :: j in lost <==> j in moved && Owns(v, master, j);
    }
  }

  lemma WfMaster(v: View)
    requires Wf(v)
    ensures v.me in v.peers && CurrentMaster(v) == MyMaster(v)
  {
  }

  lemma FollowsExactly(v: View, n: NodeId, moved: set<nat>, master: NodeId)
    requires forall j :: j in moved && j in v.owner ==> v.owner[j] != n
    ensures var v' := v.(owner := v.owner + map j | j in moved :: n);
      ((exists j :: j in moved && Owns(v, master, j)) && SlotsOf(v', master) == {} <==>
        (exists j :: Owns(v, master, j)) && forall j :: Owns(v, master, j) ==> j in moved)
  {
    var v' := v.(owner := v.owner + map j | j in moved :: n);
    assert forall j :: j in SlotsOf(v', master) <==> if j in moved then master == n else Owns(v, master, j);
    if j :| j in moved && Owns(v, master, j) {
      assert master != n;
    }
  }

  // ---------------------------------------------------------------- roles

  /** What a ping from another node says of its sender's role: a node that announces no master is a
      master; one that was taken for a master and announces one is a slave without slots, of that master
      if it is known. No ping changes the entry of a third node. */
  lemma AnnouncedRole(v: View, h: Header, slot: Option<nat>)
    requires Wf(v) && h.sender in v.peers && h.sender != v.me
    ensures var (v', n) := (OnPing(v, h, slot).view, h.sender);
      && (h.slaveof == None ==> v'.peers[n].role == Master)
      && (h.slaveof == None && v.peers[n].role != Master ==> v'.peers[n].slaveof == None)
      && (h.slaveof.Some? && v.peers[n].role == Master ==> v'.peers[n].role == Slave && forall j :: !Owns(v', n, j))
      && (h.slaveof.Some? && v.peers[n].role != Master ==> v'.peers[n].role == v.peers[n].role)
      && (h.slaveof.Some? && h.slaveof.value in v.peers ==> v'.peers[n].slaveof == h.slaveof)
      && (forall p :: p in v.peers && p != n && p != v.me ==> v'.peers[p] == v.peers[p])
  {
    hide ProcessHeader, RoleSwitch, PingSlots, HandleCollision, Dirty, PingReply;
    var v1 := ProcessHeader(v, h);
    HeaderKeepsRoles(v, h);
    var v2 := RoleSwitch(v1, h);
    SwitchedRole(v1, h);
    var epoch := SenderConfigEpoch(v, h);
    SlotsKeepRoles(v2, h, epoch);
    CollisionKeepsRoles(PingSlots(v2, h, epoch), h.sender);
    var v' := OnPing(v, h, slot).view;
    assert forall j :: Owns(v', h.sender, j) <==> Owns(PingSlots(v2, h, epoch), h.sender, j);
  }

  /** Two views that differ in epochs only, and in the entry of one node. */
  ghost predicate SameEntries(v: View, v': View, except: NodeId) {
    v'.me == v.me && v'.peers.Keys == v.peers.Keys && forall p :: p in v.peers && p != except ==> v'.peers[p] == v.peers[p]
  }

  lemma HeaderKeepsRoles(v: View, h: Header)
    requires h.sender in v.peers
    ensures var v' := ProcessHeader(v, h);
      && SameEntries(v, v', h.sender) && v'.owner == v.owner
      && v'.peers[h.sender].role == v.peers[h.sender].role && v'.peers[h.sender].slaveof == v.peers[h.sender].slaveof
  {
  }

  lemma SwitchedRole(v: View, h: Header)
    requires h.sender in v.peers
    ensures var (v', n) := (RoleSwitch(v, h), h.sender);
      && SameEntries(v, v', n)
      && (h.slaveof == None ==> v'.peers[n].role == Master)
      && (h.slaveof == None && v.peers[n].role != Master ==> v'.peers[n].slaveof == None)
      && (h.slaveof.Some? && v.peers[n].role == Master ==> v'.peers[n].role == Slave && forall j :: !Owns(v', n, j))
      && (h.slaveof.Some? && v.peers[n].role != Master ==> v'.peers[n].role == v.peers[n].role)
      && (h.slaveof.Some? && h.slaveof.value in v.peers ==> v'.peers[n].slaveof == h.slaveof)
  {
  }

  lemma SlotsKeepRoles(v: View, h: Header, epoch: nat)
    requires v.me in v.peers && h.sender in v.peers && h.sender != v.me
    ensures var v' := PingSlots(v, h, epoch);
      SameEntries(v, v', v.me) && (v.peers[h.sender].role != Master ==> v' == v)
  {
  }

  lemma CollisionKeepsRoles(v: View, sender: NodeId)
    requires v.me in v.peers && sender in v.peers
    ensures SameEntries(v, HandleCollision(v, sender), v.me) && HandleCollision(v, sender).owner == v.owner
  {
  }

  /** An UPDATE is believed exactly when its sender and the node it is about are known and its epoch is
      greater than the one noted, after the header was. Then the node has that epoch, and is a master if
      it was taken for a slave, and its slots are claimed for it; otherwise only the header counts. */
  lemma UpdateBelieved(v: View, h: Header, about: NodeId, epoch: nat, slots: set<nat>)
    requires Wf(v)
    ensures var (v', v1) := (OnUpdate(v, h, about, epoch, slots).view, ProcessHeader(v, h));
      if h.sender !in v.peers || about !in v.peers || epoch <= v1.peers[about].configEpoch then v' == v1
      else
        && v'.peers[about].configEpoch == epoch
        && (if v.peers[about].role == Slave then v'.peers[about].role == Master && v'.peers[about].slaveof == None
            else v'.peers[about].role == v.peers[about].role && v'.peers[about].slaveof == v.peers[about].slaveof)
        && (forall n :: n in v.peers && n != about && n != v.me ==> v'.peers[n] == v1.peers[n])
        && (about == v.me ==> v'.owner == v.owner)
        && (about != v.me ==> forall j :: TakesSlot(BelieveUpdate(v1, about, epoch), about, epoch, slots, j) ==> Owns(v', about, j))
  {
    var v1 := ProcessHeader(v, h);
    if h.sender in v.peers {
      HeaderKeepsRoles(v, h);
    }
    if h.sender in v.peers && about in v.peers && v1.peers[about].configEpoch < epoch {
      hide ProcessHeader, UpdateSlots;
      var v2 := BelieveUpdate(v1, about, epoch);
      ClaimLeavesOthers(v2, about, epoch, slots);
    }
  }

  lemma ClaimLeavesOthers(v: View, n: NodeId, epoch: nat, slots: set<nat>)
    requires v.me in v.peers && n in v.peers
    ensures var v' := UpdateSlots(v, n, epoch, slots);
      && SameEntries(v, v', v.me) && (n == v.me ==> v' == v)
      && (n != v.me ==> forall j :: TakesSlot(v, n, epoch, slots, j) ==> Owns(v', n, j))
  {
    if n != v.me {
      forall j | TakesSlot(v, n, epoch, slots, j) ensures Owns(UpdateSlots(v, n, epoch, slots), n, j) {
        assert j in Rebound(v, n, epoch, slots);
      }
    }
  }

  // ---------------------------------------------------------------- a failover spreads

  lemma ClaimTakesSlot(v: View, h: Header, epoch: nat, j: nat)
    requires v.me in v.peers && h.sender in v.peers && h.sender != v.me && v.peers[h.sender].role == Master
    requires Owns(v, h.sender, j) || TakesSlot(v, h.sender, epoch, h.slots, j)
    ensures Owns(PingSlots(v, h, epoch), h.sender, j)
  {
    if TakesSlot(v, h.sender, epoch, h.slots, j) {
      assert j !in SlotsOf(v, h.sender);
      assert j in Rebound(v, h.sender, epoch, h.slots);
    }
  }

  /** One ping of the winner v' takes every slot of the old master over in the table of any other node,
      the old master among them, that has it free or bound to the old master at an epoch below the one
      won, and is not importing it. */
  lemma FailoverSpreads(v: View, v': View, epoch: nat, o: View, j: nat, slot: Option<nat>)
    requires Wf(v) && v.peers[v.me].role == Slave && TakesOver(v, v', epoch) && Wf(v')
    requires Owns(v, v.peers[v.me].slaveof.value, j) && j < CLUSTER_SLOTS && v.peers[v.me].slaveof.value != v.me
    requires Wf(o) && o.me != v.me && Trusted(o, BuildHeader(v')) && j !in o.importing
    requires j in o.owner ==>
      o.owner[j] == v.peers[v.me].slaveof.value && o.peers[v.peers[v.me].slaveof.value].configEpoch < epoch
    ensures Owns(OnPing(o, BuildHeader(v'), slot).view, v.me, j)
  {
    var h := BuildHeader(v');
    HeaderSpeaksForMaster(v');
    assert Owns(v', v.me, j) && j in h.slots && h.sender == v.me && h.slaveof == None && h.configEpoch >= epoch;
    hide BuildHeader, ProcessHeader, RoleSwitch, PingSlots, HandleCollision, Dirty, PingReply, TakesOver, Wf;
    var o1 := ProcessHeader(o, h);
    var o2 := RoleSwitch(o1, h);
    HeaderKeepsRoles(o, h);
    HeaderKeepsImports(o, h);
    SwitchedRole(o1, h);
    MasterKeepsSlots(o1, h);
    ClaimTakesSlot(o2, h, h.configEpoch, j);
    CollisionKeepsRoles(PingSlots(o2, h, h.configEpoch), h.sender);
  }

  lemma HeaderKeepsImports(v: View, h: Header)
    ensures ProcessHeader(v, h).importing == v.importing
  {
  }

  lemma MasterKeepsSlots(v: View, h: Header)
    requires h.sender in v.peers && h.slaveof == None
    ensures RoleSwitch(v, h).owner == v.owner && RoleSwitch(v, h).importing == v.importing
  {
  }

  // ---------------------------------------------------------------- telling of outdated claims

  /** Every answer to a ping is an UPDATE to its sender, about another node of an epoch greater than the
      sender's, that owns a slot the sender claims; it gives that node's epoch and all its slots. */
  lemma AnswersTellOfOwners(v: View, h: Header, slot: Option<nat>, p: Packet)
    requires Wf(v) && h.sender in v.peers && h.sender != v.me && p in OnPing(v, h, slot).out
    ensures p.dest == h.sender && p.hdr.sender == v.me && p.body.Update?
    ensures var (v', n) := (OnPing(v, h, slot).view, p.body.about);
      && n in v.peers && n != h.sender && p.body.epoch > SenderConfigEpoch(v, h)
      && (n != v.me ==> p.body.epoch == v'.peers[n].configEpoch)
      && (exists j :: j in h.slots && Owns(v', n, j))
      && (forall j :: j in p.body.slots <==> Owns(v', n, j))
  {
    hide ProcessHeader, RoleSwitch, PingSlots, HandleCollision, Dirty;
    var epoch := SenderConfigEpoch(v, h);
    var v2 := RoleSwitch(ProcessHeader(v, h), h);
    var v3 := PingSlots(v2, h, epoch);
    assert p in PingReply(v3, h, epoch, slot);
    CollisionKeepsRoles(v3, h.sender);
    AnswerIs(v3, h, epoch, slot, p);
  }

  lemma AnswerIs(v: View, h: Header, epoch: nat, slot: Option<nat>, p: Packet)
    requires v.me in v.peers && p in PingReply(v, h, epoch, slot)
    ensures p.dest == h.sender && p.hdr.sender == v.me && p.body.Update?
    ensures var n := p.body.about;
      && n in v.peers && n != h.sender && p.body.epoch > epoch && p.body.epoch == v.peers[n].configEpoch
      && (exists j :: j in h.slots && Owns(v, n, j))
      && (forall j :: j in p.body.slots <==> Owns(v, n, j))
  {
    assert slot.Some? && slot.value in Outdated(v, h.sender, epoch, h.slots);
    assert Owns(v, p.body.about, slot.value);
  }

  /** A master whose claim of some slot is outdated, in the view after its ping, is told so: there is a
      slot, the least such, about whose owner an UPDATE is sent. */
  lemma OutdatedMasterIsTold(v: View, h: Header, j: nat)
    requires Wf(v) && h.sender in v.peers && h.sender != v.me && h.slaveof == None && j in h.slots
    requires var v' := OnPing(v, h, None).view;
      && j in v'.owner && v'.owner[j] in v.peers && v'.owner[j] != h.sender && v'.owner[j] != v.me
      && v'.peers[v'.owner[j]].configEpoch > SenderConfigEpoch(v, h)
    ensures exists slot :: OnPing(v, h, Some(slot)).out != {}
  {
    hide ProcessHeader, RoleSwitch, PingSlots, HandleCollision, PingReply;
    var epoch := SenderConfigEpoch(v, h);
    var v1 := ProcessHeader(v, h);
    var v2 := RoleSwitch(v1, h);
    var v3 := PingSlots(v2, h, epoch);
    SwitchedRole(v1, h);
    CollisionKeepsRoles(v3, h.sender);
    SlotsLeaveSender(v2, h, epoch, j);
    var slot := LeastOutdated(v3, h, epoch, j);
    assert OnPing(v, h, Some(slot)).out == PingReply(v3, h, epoch, Some(slot));
  }

  /** A slot its claimant does not own after its ping was not its own before. */
  lemma SlotsLeaveSender(v: View, h: Header, epoch: nat, j: nat)
    requires v.me in v.peers && h.sender in v.peers && h.sender != v.me && v.peers[h.sender].role == Master
    requires j in h.slots && !Owns(PingSlots(v, h, epoch), h.sender, j)
    ensures Dirty(v, h)
  {
    if j in SlotsOf(v, h.sender) {
      assert Owns(PingSlots(v, h, epoch), h.sender, j);
    }
  }

  lemma LeastOutdated(v: View, h: Header, epoch: nat, j: nat) returns (slot: nat)
    requires v.me in v.peers && j in h.slots && j in v.owner && v.owner[j] in v.peers && v.owner[j] != h.sender
    requires v.peers[v.owner[j]].configEpoch > epoch
    ensures PingReply(v, h, epoch, Some(slot)) != {}
  {
    var stale := Outdated(v, h.sender, epoch, h.slots);
    slot := LeastOf(stale, j);
  }

  lemma LeastOf(s: set<nat>, j: nat) returns (least: nat)
    requires j in s
    ensures least in s && forall k :: k in s ==> least <= k
    decreases j
  {
    if k :| k in s && k < j {
      least := LeastOf(s, k);
    } else {
      least := j;
    }
  }
}
