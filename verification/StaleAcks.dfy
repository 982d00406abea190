/**
 Why an attempt must start clean. Three masters and two slaves of the failed first one: acks of
 slave 4's expired attempt arrive after its count was zeroed and before its next epoch is chosen,
 are counted again for the new attempt, and slaves 4 and 5 both win epoch 2. Had the acks arrived in
 time, slave 4 would have won epoch 1 in a clean run.
 */
module StaleAcks {
  import opened Common
  import opened ClusterView
  import opened ClusterProtocol
  import opened Election

  /** What every node knows of the others, and the slot table. */
  datatype Config = Config(peers: map<NodeId, Peer>, owner: map<nat, NodeId>)

  /** The failed master 1 with slaves 4 and 5, and the masters 2 and 3. */
  ghost predicate Setup(k: Config) {
    && k.peers.Keys == {1, 2, 3, 4, 5}
    && k.peers[1] == Peer(Master, true, false, None, 0)
    && k.peers[2] == k.peers[3] == Peer(Master, false, false, None, 0)
    && k.peers[4] == k.peers[5] == Peer(Slave, false, false, Some(1), 0)
    && k.owner == map[0 := 1, 1 := 2, 2 := 3]
  }

  const NOW := Clock(false, false, true, false)
  const RETRY := Clock(false, true, true, false)

  function Member(k: Config, me: NodeId, epoch: nat, voted: nat, count: nat, sent: bool, asked: nat): View {
    View(me, epoch, voted, k.peers, k.owner, map[], 3, count, sent, asked)
  }

  function SlaveHeader(n: NodeId, epoch: nat): Header {
    Header(n, epoch, 0, {0}, Some(1))
  }

  function MasterHeader(n: NodeId, epoch: nat): Header {
    Header(n, epoch, 0, if n == 2 then {1} else {2}, None)
  }

  function Request(n: NodeId, dest: NodeId, epoch: nat): Packet {
    Packet(dest, SlaveHeader(n, epoch), AuthRequest(false))
  }

  function Ack(voter: NodeId, dest: NodeId, epoch: nat): Packet {
    Packet(dest, MasterHeader(voter, epoch), AuthAck)
  }

  lemma SlotsAre(k: Config, v: View)
    requires Setup(k) && v.owner == k.owner
    ensures SlotsOf(v, 1) == {0} && SlotsOf(v, 2) == {1} && SlotsOf(v, 3) == {2}
  {
  }

  lemma HeaderIs(k: Config, me: NodeId, epoch: nat, voted: nat, count: nat, sent: bool, asked: nat)
    requires Setup(k) && 2 <= me <= 5
    ensures BuildHeader(Member(k, me, epoch, voted, count, sent, asked)) ==
              if me <= 3 then MasterHeader(me, epoch) else SlaveHeader(me, epoch)
  {
    SlotsAre(k, Member(k, me, epoch, voted, count, sent, asked));
  }

  lemma Hears(k: Config, me: NodeId, epoch: nat, voted: nat, count: nat, sent: bool, asked: nat, h: Header)
    requires Setup(k) && 1 <= me <= 5 && 2 <= h.sender <= 5 && h.configEpoch == 0
    ensures Wf(Member(k, me, epoch, voted, count, sent, asked))
    ensures ProcessHeader(Member(k, me, epoch, voted, count, sent, asked), h)
            == Member(k, me, Max(epoch, h.currentEpoch), voted, count, sent, asked)
  {
    assert k.peers[h.sender := k.peers[h.sender].(configEpoch := 0)] == k.peers;
  }

  /** Masters 2 and 3 grant the first request of an epoch later than their last vote. */
  lemma Votes(k: Config, me: NodeId, voted: nat, slave: NodeId, e: nat)
    requires Setup(k) && 2 <= me <= 3 && 4 <= slave <= 5 && voted < e
    ensures var v := Member(k, me, voted, voted, 0, false, 0);
            && Wf(v)
            && OnAuthRequest(v, SlaveHeader(slave, e), false, false, true)
               == Effect(Member(k, me, e, e, 0, false, 0), {Ack(me, slave, e)})
            && Grants(v, Request(slave, me, e), false)
  {
    Hears(k, me, voted, voted, 0, false, 0, SlaveHeader(slave, e));
    SlotsAre(k, Member(k, me, e, voted, 0, false, 0));
    HeaderIs(k, me, e, voted, 0, false, 0);
  }

  /** Slave 5 learns the epoch from slave 4's request, and does not vote. */
  lemma Learns(k: Config)
    requires Setup(k)
    ensures var v := Member(k, 5, 0, 0, 0, false, 0);
            && Wf(v)
            && OnAuthRequest(v, SlaveHeader(4, 1), false, false, true) == Effect(Member(k, 5, 1, 0, 0, false, 0), {})
            && !Grants(v, Request(4, 5, 1), false)
  {
    Hears(k, 5, 0, 0, 0, false, 0, SlaveHeader(4, 1));
  }

  /** An ack of the epoch last asked for is counted, whether or not a new attempt is scheduled. */
  lemma CountsAck(k: Config, me: NodeId, count: nat, sent: bool, voter: NodeId, asked: nat)
    requires Setup(k) && 4 <= me <= 5 && 2 <= voter <= 3
    ensures var v := Member(k, me, asked, 0, count, sent, asked);
            && Wf(v)
            && OnAuthAck(v, MasterHeader(voter, asked)) == Effect(Member(k, me, asked, 0, count + 1, sent, asked), {})
            && Counts(v, Ack(voter, me, asked))
  {
    Hears(k, me, asked, 0, count, sent, asked, MasterHeader(voter, asked));
    SlotsAre(k, Member(k, me, asked, 0, count, sent, asked));
  }

  const VOTERS: set<NodeId> := {1, 2, 3}

  lemma VotersAre(k: Config, v: View)
    requires Setup(k) && v.peers == k.peers && v.owner == k.owner
    ensures Voters(v) == VOTERS && |VOTERS| == 3
  {
    SlotsAre(k, v);
    assert SlotsOf(v, 1) != {} && SlotsOf(v, 2) != {} && SlotsOf(v, 3) != {} by {
      assert 0 in SlotsOf(v, 1) && 1 in SlotsOf(v, 2) && 2 in SlotsOf(v, 3);
    }
  }

  lemma Branches(k: Config, me: NodeId, epoch: nat, count: nat, sent: bool, asked: nat, clock: Clock)
    requires Setup(k) && 4 <= me <= 5 && (clock == NOW || clock == RETRY)
    ensures Wf(Member(k, me, epoch, 0, count, sent, asked))
    ensures FailoverBranch(Member(k, me, epoch, 0, count, sent, asked), false, clock) ==
              if clock == RETRY then Schedule else if !sent then Ask else if count >= 2 then Win else Idle
  {
    SlotsAre(k, Member(k, me, epoch, 0, count, sent, asked));
  }

  // ---------------------------------------------------------------- steps of the run

  lemma RequestArrives(c: Cluster, p: Packet, v: View, out: set<Packet>)
    requires p in c.net && p.body.AuthRequest? && p.dest in c.views && Wf(c.views[p.dest])
    requires OnAuthRequest(c.views[p.dest], p.hdr, p.body.forceAck, false, true) == Effect(v, out)
    ensures Enabled(c, Receive(p, None, false, true))
    ensures Apply(c, Receive(p, None, false, true)) ==
              c.(views := c.views[p.dest := v], net := c.net - multiset{p} + multiset(out),
                 granted := if Grants(c.views[p.dest], p, false)
                            then c.granted[Vote(p.dest, v.lastVoteEpoch) := p.hdr.sender] else c.granted)
  {
  }

  lemma AckArrives(c: Cluster, p: Packet, v: View)
    requires p in c.net && p.body.AuthAck? && p.dest in c.views && Wf(c.views[p.dest]) && p.dest in c.counted
    requires OnAuthAck(c.views[p.dest], p.hdr) == Effect(v, {}) && Counts(c.views[p.dest], p)
    ensures Enabled(c, Receive(p, None, false, true))
    ensures Apply(c, Receive(p, None, false, true)) ==
              c.(views := c.views[p.dest := v], net := c.net - multiset{p},
                 counted := c.counted[p.dest := c.counted[p.dest] + [VoteOf(p.hdr)]])
  {
  }

  lemma CronRuns(c: Cluster, n: NodeId, clock: Clock, dests: set<NodeId>)
    requires n in c.views && Wf(c.views[n]) && n !in dests && n in c.counted && c.views[n].me == n
    ensures var s := Failover(n, false, false, clock, dests); var v := c.views[n];
            && Enabled(c, s)
            && match FailoverBranch(v, false, clock)
               case Idle => Apply(c, s) == c
               case Schedule => Apply(c, s) == c.(views := c.views[n := ScheduleElection(v)], counted := c.counted[n := []])
               case Ask => Apply(c, s) == c.(views := c.views[n := AskForVotes(v)],
                                             net := c.net + multiset(Requests(AskForVotes(v), dests, false)))
               case Win => Apply(c, s) == c.(views := c.views[n := WinElection(v)],
                                             wins := c.wins + {WinRecord(n, v.authEpoch, c.counted[n], v.size)})
  {
  }

  /** A run so far. */
  datatype Trace = Trace(cs: seq<Cluster>, ss: seq<Step>)

  ghost predicate Reached(t: Trace, c: Cluster) {
    IsRun(t.cs, t.ss) && c == t.cs[|t.ss|]
  }

  /** A clean step in which slave 4 keeps to the three masters. */
  ghost predicate SoundStep(c: Cluster, s: Step) {
    CleanStep(c, s) && KeepsTo(c, s, 4, VOTERS)
  }

  ghost predicate Sound(t: Trace) {
    |t.cs| == |t.ss| + 1 && forall i :: 0 <= i < |t.ss| ==> SoundStep(t.cs[i], t.ss[i])
  }

  lemma Extend(t: Trace, c: Cluster, s: Step, c': Cluster) returns (t': Trace)
    requires Reached(t, c) && Enabled(c, s) && c' == Apply(c, s)
    ensures Reached(t', c') && t' == Trace(t.cs + [c'], t.ss + [s])
    ensures Sound(t) && SoundStep(c, s) ==> Sound(t')
  {
    hide Init, Enabled, Apply, SoundStep;
    t' := Trace(t.cs + [c'], t.ss + [s]);
    forall i | 0 <= i < |t'.ss|
      ensures Enabled(t'.cs[i], t'.ss[i]) && t'.cs[i + 1] == Apply(t'.cs[i], t'.ss[i])
    {
      if i < |t.ss| {
        assert t'.cs[i] == t.cs[i] && t'.ss[i] == t.ss[i] && t'.cs[i + 1] == t.cs[i + 1];
      }
    }
    if Sound(t) && SoundStep(c, s) {
      forall i | 0 <= i < |t'.ss| ensures SoundStep(t'.cs[i], t'.ss[i]) {
        if i < |t.ss| {
          assert t'.cs[i] == t.cs[i] && t'.ss[i] == t.ss[i];
        }
      }
    }
  }

  // ---------------------------------------------------------------- the run itself

  /** Where the run stands: the voters' last votes, the slaves, the traffic, the counts, the wins. */
  datatype Scene = Scene(voted2: nat, voted3: nat, four: View, five: View, net: multiset<Packet>,
                         tally4: seq<Vote>, tally5: seq<Vote>, wins: set<WinRecord>)

  ghost predicate At(k: Config, c: Cluster, s: Scene) {
    && {2, 3, 4, 5} <= c.views.Keys && {4, 5} <= c.counted.Keys
    && c.views[2] == Member(k, 2, s.voted2, s.voted2, 0, false, 0)
    && c.views[3] == Member(k, 3, s.voted3, s.voted3, 0, false, 0)
    && c.views[4] == s.four && c.views[5] == s.five
    && c.net == s.net && c.counted[4] == s.tally4 && c.counted[5] == s.tally5 && c.wins == s.wins
  }

  ghost predicate Stands(k: Config, t: Trace, s: Scene) {
    IsRun(t.cs, t.ss) && At(k, t.cs[|t.ss|], s)
  }

  lemma GrantVote(k: Config, t: Trace, s: Scene, me: NodeId, slave: NodeId, e: nat) returns (t': Trace)
    requires Setup(k) && Stands(k, t, s) && 2 <= me <= 3 && 4 <= slave <= 5
    requires Request(slave, me, e) in s.net && (if me == 2 then s.voted2 else s.voted3) < e
    ensures Stands(k, t', (if me == 2 then s.(voted2 := e) else s.(voted3 := e))
                          .(net := s.net - multiset{Request(slave, me, e)} + multiset{Ack(me, slave, e)}))
    ensures Sound(t) ==> Sound(t')
  {
    hide Init, Enabled, Apply, OnAuthRequest, Grants;
    var c, p := t.cs[|t.ss|], Request(slave, me, e);
    Votes(k, me, if me == 2 then s.voted2 else s.voted3, slave, e);
    RequestArrives(c, p, Member(k, me, e, e, 0, false, 0), {Ack(me, slave, e)});
    assert multiset({Ack(me, slave, e)}) == multiset{Ack(me, slave, e)};
    t' := Extend(t, c, Receive(p, None, false, true), Apply(c, Receive(p, None, false, true)));
  }

  lemma LearnEpoch(k: Config, t: Trace, s: Scene) returns (t': Trace)
    requires Setup(k) && Stands(k, t, s) && Request(4, 5, 1) in s.net && s.five == Member(k, 5, 0, 0, 0, false, 0)
    ensures Stands(k, t', s.(five := Member(k, 5, 1, 0, 0, false, 0), net := s.net - multiset{Request(4, 5, 1)}))
    ensures Sound(t) ==> Sound(t')
  {
    hide Init, Enabled, Apply, OnAuthRequest, Grants;
    var c, p := t.cs[|t.ss|], Request(4, 5, 1);
    Learns(k);
    RequestArrives(c, p, Member(k, 5, 1, 0, 0, false, 0), {});
    t' := Extend(t, c, Receive(p, None, false, true), Apply(c, Receive(p, None, false, true)));
  }

  lemma CountVote(k: Config, t: Trace, s: Scene, me: NodeId, count: nat, sent: bool, voter: NodeId, asked: nat)
    returns (t': Trace)
    requires Setup(k) && Stands(k, t, s) && 4 <= me <= 5 && 2 <= voter <= 3 && Ack(voter, me, asked) in s.net
    requires (if me == 4 then s.four else s.five) == Member(k, me, asked, 0, count, sent, asked)
    ensures var v := Member(k, me, asked, 0, count + 1, sent, asked);
            Stands(k, t', (if me == 4 then s.(four := v, tally4 := s.tally4 + [Vote(voter, asked)])
                           else s.(five := v, tally5 := s.tally5 + [Vote(voter, asked)]))
                          .(net := s.net - multiset{Ack(voter, me, asked)}))
    ensures Sound(t) ==> Sound(t')
  {
    hide Init, Enabled, Apply, OnAuthAck, Counts, Voters;
    var c, p := t.cs[|t.ss|], Ack(voter, me, asked);
    CountsAck(k, me, count, sent, voter, asked);
    VotersAre(k, c.views[me]);
    AckArrives(c, p, Member(k, me, asked, 0, count + 1, sent, asked));
    t' := Extend(t, c, Receive(p, None, false, true), Apply(c, Receive(p, None, false, true)));
  }

  /** The requests a slave sends for an epoch. */
  function Asked(me: NodeId, dests: set<NodeId>, epoch: nat): multiset<Packet> {
    multiset(set d | d in dests :: Request(me, d, epoch))
  }

  lemma AskedAre(k: Config, me: NodeId, epoch: nat, count: nat, dests: set<NodeId>)
    requires Setup(k) && 4 <= me <= 5
    ensures var v := Member(k, me, epoch, 0, count, true, epoch);
            v.me in v.peers && multiset(Requests(v, dests, false)) == Asked(me, dests, epoch)
  {
    HeaderIs(k, me, epoch, 0, count, true, epoch);
    var v := Member(k, me, epoch, 0, count, true, epoch);
    assert Requests(v, dests, false) == set d | d in dests :: Request(me, d, epoch);
  }

  lemma AskVotes(k: Config, t: Trace, s: Scene, me: NodeId, epoch: nat, count: nat, asked: nat, dests: set<NodeId>)
    returns (t': Trace)
    requires Setup(k) && Stands(k, t, s) && 4 <= me <= 5 && me !in dests
    requires (if me == 4 then s.four else s.five) == Member(k, me, epoch, 0, count, false, asked)
    ensures var v := Member(k, me, epoch + 1, 0, count, true, epoch + 1);
            Stands(k, t', (if me == 4 then s.(four := v) else s.(five := v))
                          .(net := s.net + Asked(me, dests, epoch + 1)))
    ensures Sound(t) ==> Sound(t')
  {
    hide Init, Enabled, Apply, Requests, FailoverBranch;
    var c := t.cs[|t.ss|];
    Branches(k, me, epoch, count, false, asked, NOW);
    AskedAre(k, me, epoch + 1, count, dests);
    CronRuns(c, me, NOW, dests);
    var step := Failover(me, false, false, NOW, dests);
    t' := Extend(t, c, step, Apply(c, step));
  }

  /** An attempt is scheduled, which is clean when nothing is in flight. */
  lemma ScheduleAttempt(k: Config, t: Trace, s: Scene, me: NodeId, epoch: nat, count: nat, sent: bool, asked: nat)
    returns (t': Trace)
    requires Setup(k) && Stands(k, t, s) && 4 <= me <= 5
    requires (if me == 4 then s.four else s.five) == Member(k, me, epoch, 0, count, sent, asked)
    ensures var v := Member(k, me, epoch, 0, 0, false, asked);
            Stands(k, t', if me == 4 then s.(four := v, tally4 := []) else s.(five := v, tally5 := []))
    ensures Sound(t) && s.net == multiset{} ==> Sound(t')
  {
    hide Init, Enabled, Apply, FailoverBranch;
    var c := t.cs[|t.ss|];
    Branches(k, me, epoch, count, sent, asked, RETRY);
    CronRuns(c, me, RETRY, {});
    var step := Failover(me, false, false, RETRY, {});
    t' := Extend(t, c, step, Apply(c, step));
  }

  lemma WinVotes(k: Config, t: Trace, s: Scene, me: NodeId, epoch: nat, count: nat, asked: nat)
    returns (t': Trace, v: View)
    requires Setup(k) && Stands(k, t, s) && 4 <= me <= 5 && count >= 2
    requires (if me == 4 then s.four else s.five) == Member(k, me, epoch, 0, count, true, asked)
    ensures Stands(k, t', (if me == 4 then s.(four := v) else s.(five := v))
                          .(wins := s.wins + {WinRecord(me, asked, if me == 4 then s.tally4 else s.tally5, 3)}))
    ensures Sound(t) ==> Sound(t')
    ensures |t'.ss| == |t.ss| + 1 && Wins(t'.cs[|t.ss|], t'.ss[|t.ss|], me)
    ensures Voters(t'.cs[|t.ss|].views[me]) == VOTERS && t'.cs[|t.ss|].views[me].size == 3
  {
    hide Init, Enabled, Apply, FailoverBranch, Voters, WinElection;
    var c := t.cs[|t.ss|];
    Branches(k, me, epoch, count, true, asked, NOW);
    VotersAre(k, c.views[me]);
    CronRuns(c, me, NOW, {});
    var step := Failover(me, false, false, NOW, {});
    v := WinElection(c.views[me]);
    t' := Extend(t, c, step, Apply(c, step));
  }

  /** Both acks of an epoch arrive at the slave that asked for it. */
  lemma CountBoth(k: Config, t: Trace, s: Scene, me: NodeId, sent: bool, asked: nat) returns (t': Trace)
    requires Setup(k) && Stands(k, t, s) && 4 <= me <= 5
    requires (if me == 4 then s.four else s.five) == Member(k, me, asked, 0, 0, sent, asked)
    requires (if me == 4 then s.tally4 else s.tally5) == []
    requires s.net == multiset{Ack(2, me, asked), Ack(3, me, asked)}
    ensures var v, tally := Member(k, me, asked, 0, 2, sent, asked), [Vote(2, asked), Vote(3, asked)];
            Stands(k, t', (if me == 4 then s.(four := v, tally4 := tally) else s.(five := v, tally5 := tally))
                          .(net := multiset{}))
    ensures Sound(t) ==> Sound(t')
  {
    hide Setup, Stands, Sound, Member, Ack;
    var v1, v2 := Member(k, me, asked, 0, 1, sent, asked), Member(k, me, asked, 0, 2, sent, asked);
    var both := [Vote(2, asked), Vote(3, asked)];
    t' := CountVote(k, t, s, me, 0, sent, 2, asked);
    Replaced(Ack(2, me, asked), Ack(3, me, asked), Ack(2, me, asked));
    assert [] + [Vote(2, asked)] == [Vote(2, asked)] && [Vote(2, asked)] + [Vote(3, asked)] == both;
    var s1 := (if me == 4 then s.(four := v1, tally4 := both[..1]) else s.(five := v1, tally5 := both[..1]))
              .(net := multiset{Ack(3, me, asked)});
    assert both[..1] == [Vote(2, asked)];
    t' := CountVote(k, t', s1, me, 1, sent, 3, asked);
    assert multiset{Ack(3, me, asked)} - multiset{Ack(3, me, asked)} == multiset{};
  }

  lemma StartConfig() returns (k: Config)
    ensures Setup(k)
  {
    k := Config(map[1 := Peer(Master, true, false, None, 0),
                    2 := Peer(Master, false, false, None, 0), 3 := Peer(Master, false, false, None, 0),
                    4 := Peer(Slave, false, false, Some(1), 0), 5 := Peer(Slave, false, false, Some(1), 0)],
                map[0 := 1, 1 := 2, 2 := 3]);
  }

  lemma MemberIsGood(k: Config, n: NodeId)
    requires Setup(k) && 1 <= n <= 5
    ensures GoodView({1, 2, 3, 4, 5}, Member(k, n, 0, 0, 0, false, 0))
  {
  }

  lemma StartIsInit(k: Config, c: Cluster)
    requires Setup(k) && c.names == {1, 2, 3, 4, 5} == c.views.Keys == c.counted.Keys
    requires forall n :: n in c.names ==> c.views[n] == Member(k, n, 0, 0, 0, false, 0) && c.counted[n] == []
    requires c.net == multiset{} && c.granted == map[] && c.wins == {}
    ensures Init(c)
  {
    hide Setup, GoodView, GoodPacket;
    forall n | n in c.names ensures GoodNode(c, n) {
      MemberIsGood(k, n);
    }
  }

  lemma Begin(k: Config) returns (t: Trace)
    requires Setup(k)
    ensures Stands(k, t, Scene(0, 0, Member(k, 4, 0, 0, 0, false, 0), Member(k, 5, 0, 0, 0, false, 0),
                               multiset{}, [], [], {}))
    ensures Sound(t)
  {
    var names := {1, 2, 3, 4, 5};
    var c := Cluster(names, map n | n in names :: Member(k, n, 0, 0, 0, false, 0),
                     multiset{}, map[], map n | n in names :: [], {});
    StartIsInit(k, c);
    t := Trace([c], []);
  }

  lemma Replaced(a: Packet, b: Packet, d: Packet)
    ensures multiset{a, b} - multiset{a} + multiset{d} == multiset{b, d}
    ensures multiset{b, a} - multiset{a} == multiset{b} == multiset{a, b} - multiset{a}
  {
  }

  lemma ThreeRequests()
    ensures multiset{} + Asked(4, {2, 3, 5}, 1) == multiset{Request(4, 2, 1), Request(4, 3, 1)} + multiset{Request(4, 5, 1)}
  {
    assert (set d | d in {2, 3, 5} :: Request(4, d, 1)) == {Request(4, 2, 1), Request(4, 3, 1), Request(4, 5, 1)};
  }

  lemma NoRequests()
    ensures multiset{} + Asked(4, {}, 2) == multiset{}
  {
  }

  lemma TwoRequests()
    ensures multiset{} + Asked(5, {2, 3}, 2) == multiset{Request(5, 2, 2), Request(5, 3, 2)}
  {
    assert (set d | d in {2, 3} :: Request(5, d, 2)) == {Request(5, 2, 2), Request(5, 3, 2)};
  }

  /** Slave 4's first attempt: both masters vote for it in epoch 1. */
  lemma FirstAttempt(k: Config, t: Trace) returns (t': Trace)
    requires Setup(k)
    requires Stands(k, t, Scene(0, 0, Member(k, 4, 0, 0, 0, false, 0), Member(k, 5, 0, 0, 0, false, 0),
                                multiset{}, [], [], {}))
    ensures Stands(k, t', Scene(1, 1, Member(k, 4, 1, 0, 0, true, 1), Member(k, 5, 1, 0, 0, false, 0),
                                multiset{Ack(2, 4, 1), Ack(3, 4, 1)}, [], [], {}))
    ensures Sound(t) ==> Sound(t')
  {
    hide Setup, Stands, Sound, Member, Ack, Request, Asked;
    var four, five := Member(k, 4, 0, 0, 0, false, 0), Member(k, 5, 0, 0, 0, false, 0);
    var r2, r3, r5 := Request(4, 2, 1), Request(4, 3, 1), Request(4, 5, 1);
    t' := ScheduleAttempt(k, t, Scene(0, 0, four, five, multiset{}, [], [], {}), 4, 0, 0, false, 0);
    t' := AskVotes(k, t', Scene(0, 0, four, five, multiset{}, [], [], {}), 4, 0, 0, 0, {2, 3, 5});
    ThreeRequests();
    four := Member(k, 4, 1, 0, 0, true, 1);
    var net := multiset{r2, r3} + multiset{r5};
    t' := LearnEpoch(k, t', Scene(0, 0, four, five, net, [], [], {}));
    five := Member(k, 5, 1, 0, 0, false, 0);
    assert net - multiset{r5} == multiset{r2, r3};
    t' := GrantVote(k, t', Scene(0, 0, four, five, multiset{r2, r3}, [], [], {}), 2, 4, 1);
    Replaced(r2, r3, Ack(2, 4, 1));
    t' := GrantVote(k, t', Scene(1, 0, four, five, multiset{r3, Ack(2, 4, 1)}, [], [], {}), 3, 4, 1);
    Replaced(r3, Ack(2, 4, 1), Ack(3, 4, 1));
  }

  /** Slave 4 schedules its second attempt with those acks in flight, counts them, and wins epoch 2. */
  lemma SecondAttempt(k: Config, t: Trace) returns (t': Trace, four: View)
    requires Setup(k)
    requires Stands(k, t, Scene(1, 1, Member(k, 4, 1, 0, 0, true, 1), Member(k, 5, 1, 0, 0, false, 0),
                                multiset{Ack(2, 4, 1), Ack(3, 4, 1)}, [], [], {}))
    ensures Stands(k, t', Scene(1, 1, four, Member(k, 5, 1, 0, 0, false, 0), multiset{},
                                [Vote(2, 1), Vote(3, 1)], [], {WinRecord(4, 2, [Vote(2, 1), Vote(3, 1)], 3)}))
  {
    hide Setup, Stands, Sound, Member, Ack, Asked;
    var five, tally, net := Member(k, 5, 1, 0, 0, false, 0), [Vote(2, 1), Vote(3, 1)], multiset{Ack(2, 4, 1), Ack(3, 4, 1)};
    t' := ScheduleAttempt(k, t, Scene(1, 1, Member(k, 4, 1, 0, 0, true, 1), five, net, [], [], {}), 4, 1, 0, true, 1);
    t' := CountBoth(k, t', Scene(1, 1, Member(k, 4, 1, 0, 0, false, 1), five, net, [], [], {}), 4, false, 1);
    t' := AskVotes(k, t', Scene(1, 1, Member(k, 4, 1, 0, 2, false, 1), five, multiset{}, tally, [], {}), 4, 1, 2, 1, {});
    NoRequests();
    t', four := WinVotes(k, t', Scene(1, 1, Member(k, 4, 2, 0, 2, true, 2), five, multiset{}, tally, [], {}), 4, 2, 2, 2);
    assert {} + {WinRecord(4, 2, tally, 3)} == {WinRecord(4, 2, tally, 3)};
  }

  /** Slave 5 asks for epoch 2 and gets both votes. */
  lemma RivalAsks(k: Config, t: Trace, four: View, t4: seq<Vote>, won: set<WinRecord>) returns (t': Trace)
    requires Setup(k) && Stands(k, t, Scene(1, 1, four, Member(k, 5, 1, 0, 0, false, 0), multiset{}, t4, [], won))
    ensures Stands(k, t', Scene(2, 2, four, Member(k, 5, 2, 0, 0, true, 2), multiset{Ack(2, 5, 2), Ack(3, 5, 2)}, t4, [], won))
  {
    hide Setup, Stands, Sound, Member, Ack, Request, Asked;
    var five := Member(k, 5, 1, 0, 0, false, 0);
    t' := ScheduleAttempt(k, t, Scene(1, 1, four, five, multiset{}, t4, [], won), 5, 1, 0, false, 0);
    t' := AskVotes(k, t', Scene(1, 1, four, five, multiset{}, t4, [], won), 5, 1, 0, 0, {2, 3});
    TwoRequests();
    five := Member(k, 5, 2, 0, 0, true, 2);
    t' := GrantVote(k, t', Scene(1, 1, four, five, multiset{Request(5, 2, 2), Request(5, 3, 2)}, t4, [], won), 2, 5, 2);
    Replaced(Request(5, 2, 2), Request(5, 3, 2), Ack(2, 5, 2));
    t' := GrantVote(k, t', Scene(2, 1, four, five, multiset{Request(5, 3, 2), Ack(2, 5, 2)}, t4, [], won), 3, 5, 2);
    Replaced(Request(5, 3, 2), Ack(2, 5, 2), Ack(3, 5, 2));
  }

  /** Slave 5 counts them and wins epoch 2 too. */
  lemma RivalWins(k: Config, t: Trace, four: View, t4: seq<Vote>, won: set<WinRecord>) returns (t': Trace)
    requires Setup(k) && Stands(k, t, Scene(1, 1, four, Member(k, 5, 1, 0, 0, false, 0), multiset{}, t4, [], won))
    ensures IsRun(t'.cs, t'.ss) && t'.cs[|t'.ss|].wins == won + {WinRecord(5, 2, [Vote(2, 2), Vote(3, 2)], 3)}
  {
    t' := RivalAsks(k, t, four, t4, won);
    hide Setup, Sound, Member, Ack, IsRun;
    var tally, net := [Vote(2, 2), Vote(3, 2)], multiset{Ack(2, 5, 2), Ack(3, 5, 2)};
    t' := CountBoth(k, t', Scene(2, 2, four, Member(k, 5, 2, 0, 0, true, 2), net, t4, [], won), 5, true, 2);
    var five;
    t', five := WinVotes(k, t', Scene(2, 2, four, Member(k, 5, 2, 0, 2, true, 2), multiset{}, t4, tally, won), 5, 2, 2, 2);
  }

  /** Without clean attempts election safety fails: a run in which two slaves win the same epoch,
      each by a majority of the same three masters. */
  lemma StaleAcksElectTwo() returns (t: Trace, w1: WinRecord, w2: WinRecord)
    ensures IsRun(t.cs, t.ss)
    ensures w1 in t.cs[|t.ss|].wins && w2 in t.cs[|t.ss|].wins
    ensures w1.epoch == w2.epoch && w1.winner != w2.winner
    ensures VotersOf(w1.votes) <= VOTERS && VotersOf(w2.votes) <= VOTERS
    ensures w1.size == w2.size == |VOTERS|
    ensures !OwnEpochOnly(w1) && OwnEpochOnly(w2)
  {
    hide IsRun, Stands, Sound;
    var k := StartConfig();
    t := Begin(k);
    t := FirstAttempt(k, t);
    var four;
    t, four := SecondAttempt(k, t);
    w1 := WinRecord(4, 2, [Vote(2, 1), Vote(3, 1)], 3);
    t := RivalWins(k, t, four, w1.votes, {w1});
    w2 := WinRecord(5, 2, [Vote(2, 2), Vote(3, 2)], 3);
    assert Vote(2, 1) in w1.votes;
    VotersAre(k, Member(k, 4, 0, 0, 0, false, 0));
  }

  /** The conditions of election safety hold of a run with a win: slave 4 wins epoch 1 in a clean
      run, by votes of masters it takes for the voters, with a cluster size that counts them all. */
  lemma CleanRunElects() returns (t: Trace, w: WinRecord)
    ensures IsCleanRun(t.cs, t.ss) && Steady(t.cs, t.ss, w.winner, VOTERS) && w in t.cs[|t.ss|].wins
    ensures VotersOf(w.votes) <= VOTERS && w.size == |VOTERS|
    ensures |t.ss| > 0 && var c := t.cs[|t.ss| - 1];
      Wins(c, t.ss[|t.ss| - 1], w.winner) && c.views[w.winner].size == |Voters(c.views[w.winner])| == w.size
  {
    hide Setup, Member, Ack, Voters, Wins, CleanStep, KeepsTo, Init, Enabled, Apply;
    var k := StartConfig();
    t := Begin(k);
    t := FirstAttempt(k, t);
    var five, tally, net := Member(k, 5, 1, 0, 0, false, 0), [Vote(2, 1), Vote(3, 1)], multiset{Ack(2, 4, 1), Ack(3, 4, 1)};
    t := CountBoth(k, t, Scene(1, 1, Member(k, 4, 1, 0, 0, true, 1), five, net, [], [], {}), 4, true, 1);
    var four;
    t, four := WinVotes(k, t, Scene(1, 1, Member(k, 4, 1, 0, 2, true, 1), five, multiset{}, tally, [], {}), 4, 1, 2, 1);
    w := WinRecord(4, 1, tally, 3);
    assert w in {} + {w};
  }
}
