/**
 The epochs of a cluster of masters that only gossip: pings, the UPDATEs they are answered with, and
 commands that touch no epoch. Its runs project to runs of EpochCollision, so that the bound on
 epoch bumps holds of the whole machine.
 */
module GossipEpochs {
  import opened Common
  import opened ClusterView
  import P = ClusterProtocol
  import E = EpochCollision

  // ---------------------------------------------------------------- gossiping masters

  ghost predicate Gossips(names: set<NodeId>, s: P.Step) {
    match s
    case Receive(_, _, _, _) => true
    case Lose(_) => true
    case SendPing(_, dest) => dest in names
    case Failover(_, _, _, _, _) => false
    case Command(_, l) =>
      l.AssignSlot? || l.UnassignSlot? || l.Import? || l.Stable? || l.SetFailed? || l.UpdateState?
  }

  ghost predicate IsMaster(c: P.Cluster, n: NodeId) {
    && n in c.views && c.views[n].me == n
    && n in c.views[n].peers && c.views[n].peers[n].role == Master
    && c.views[n].peers.Keys == c.names
  }

  /** Every node is a master and knows exactly the others. */
  ghost predicate Masters(c: P.Cluster) {
    c.views.Keys == c.names && forall n {:trigger IsMaster(c, n)} :: n in c.names ==> IsMaster(c, n)
  }

  ghost predicate Underestimates(c: P.Cluster, n: NodeId, p: NodeId) {
    IsMaster(c, n) && IsMaster(c, p) && p in c.views[n].peers && c.views[n].peers[p].configEpoch <= MyEpoch(c.views[p])
  }

  /** No node starts with an overestimate of another's epoch. */
  ghost predicate Honest(c: P.Cluster) {
    forall n, p {:trigger Underestimates(c, n, p)} :: n in c.names && p in c.names ==> Underestimates(c, n, p)
  }

  ghost predicate IsGossip(cs: seq<P.Cluster>, ss: seq<P.Step>) {
    && P.IsRun(cs, ss)
    && (forall i :: 0 <= i < |cs| ==> Masters(cs[i]))
    && Honest(cs[0])
    && (forall i :: 0 <= i < |ss| ==> Gossips(cs[i].names, ss[i]))
  }

  ghost predicate OwnEpochChanges(c: P.Cluster, c': P.Cluster, n: NodeId) {
    && n in c.views && n in c'.views && c.views[n].me in c.views[n].peers && c'.views[n].me in c'.views[n].peers
    && MyEpoch(c'.views[n]) != MyEpoch(c.views[n])
  }

  /** How often node n's own epoch has changed in the first i steps. */
  ghost function BumpsOf(cs: seq<P.Cluster>, i: nat, n: NodeId): nat
    requires i < |cs|
  {
    if i == 0 then 0 else BumpsOf(cs, i - 1, n) + if OwnEpochChanges(cs[i - 1], cs[i], n) then 1 else 0
  }

  // ---------------------------------------------------------------- the projection

  function MailOf(p: Packet): E.Mail {
    E.Mail(p.dest, p.hdr.sender, p.hdr.currentEpoch, p.hdr.configEpoch,
           if p.body.Update? then Some(E.News(p.body.about, p.body.epoch)) else None)
  }

  ghost predicate Carried(m: E.Masters, p: Packet) {
    (p.body.Ping? || p.body.Update?) && p.hdr.slaveof == None && MailOf(p) in m.net
  }

  ghost predicate Shows(c: P.Cluster, m: E.Masters, n: NodeId) {
    n in m.nodes && IsMaster(c, n) && m.nodes[n] == E.EpochsOf(c.views[n])
  }

  ghost predicate Projects(c: P.Cluster, m: E.Masters) {
    && c.views.Keys == m.names == c.names == m.nodes.Keys
    && (forall n {:trigger Shows(c, m, n)} :: n in c.names ==> Shows(c, m, n))
    && (forall p {:trigger Carried(m, p)} :: p in c.net ==> Carried(m, p))
  }

  /** A sequence of events leads from the end of one run to the end of a longer one. */
  datatype Trace = Trace(ms: seq<E.Masters>, es: seq<E.Event>)

  ghost predicate Ends(t: Trace, m: E.Masters) {
    E.IsRun(t.ms, t.es) && t.ms[|t.es|] == m
  }

  lemma Extend(t: Trace, m: E.Masters, e: E.Event) returns (t': Trace, m': E.Masters)
    requires Ends(t, m) && E.Enabled(m, e)
    ensures m' == E.Apply(m, e) && Ends(t', m')
  {
    hide E.Init, E.Enabled, E.Apply;
    m' := E.Apply(m, e);
    t' := Trace(t.ms + [m'], t.es + [e]);
    forall i | 0 <= i < |t'.es|
      ensures E.Enabled(t'.ms[i], t'.es[i]) && t'.ms[i + 1] == E.Apply(t'.ms[i], t'.es[i])
    {
      if i < |t.es| {
        assert t'.ms[i] == t.ms[i] && t'.es[i] == t.es[i] && t'.ms[i + 1] == t.ms[i + 1];
      }
    }
  }

  lemma EndKeepsInv(t: Trace, m: E.Masters)
    requires Ends(t, m)
    ensures E.Inv(m)
  {
    E.RunKeepsInv(t.ms, t.es, |t.es|);
  }

  // ---------------------------------------------------------------- each step is matched

  /** The step from c to c' is matched by events from m to m'. */
  ghost predicate Matches(c: P.Cluster, c': P.Cluster, m: E.Masters, m': E.Masters) {
    && Projects(c', m') && m'.bumps.Keys == m.bumps.Keys == c.names == c'.names
    && forall n :: n in c.names ==> m'.bumps[n] == m.bumps[n] + if OwnEpochChanges(c, c', n) then 1 else 0
  }

  /** One node's view changes, and packets are added or removed. */
  lemma NodeMatches(c: P.Cluster, c': P.Cluster, d: NodeId, v: View, m: E.Masters, m': E.Masters, bumped: nat)
    requires Projects(c, m) && Masters(c') && c'.names == c.names && d in c.names && m.bumps.Keys == c.names
    requires c'.views == c.views[d := v] && v.me in v.peers
    requires m'.names == m.names && m'.nodes == m.nodes[d := E.EpochsOf(v)] && m.net <= m'.net
    requires m'.bumps == m.bumps[d := m.bumps[d] + bumped] && bumped == if OwnEpochChanges(c, c', d) then 1 else 0
    requires forall p :: p in c'.net ==> p in c.net || Carried(m', p)
    ensures Matches(c, c', m, m')
  {
    hide E.EpochsOf, IsMaster, OwnEpochChanges;
    StillCarried(c, c', m, m');
    forall n | n in c.names ensures Shows(c', m', n) {
      assert IsMaster(c', n) && Shows(c, m, n);
    }
    forall n | n in c.names ensures m'.bumps[n] == m.bumps[n] + if OwnEpochChanges(c, c', n) then 1 else 0 {
      if n != d {
        Unchanged(c, c', n);
      }
    }
  }

  lemma StillCarried(c: P.Cluster, c': P.Cluster, m: E.Masters, m': E.Masters)
    requires Projects(c, m) && m.net <= m'.net && forall p :: p in c'.net ==> p in c.net || Carried(m', p)
    ensures forall p :: p in c'.net ==> Carried(m', p)
  {
    hide Shows;
    forall p | p in c'.net ensures Carried(m', p) {
      if p in c.net {
        assert Carried(m, p);
      }
    }
  }

  lemma Unchanged(c: P.Cluster, c': P.Cluster, n: NodeId)
    requires n in c.views && n in c'.views && c'.views[n] == c.views[n]
    ensures !OwnEpochChanges(c, c', n)
  {
  }

  lemma CommandKeepsEpochs(names: set<NodeId>, v: View, l: P.Local)
    requires Wf(v) && P.LocalEnabled(names, v, l) && Gossips(names, P.Command(v.me, l))
    ensures var v' := P.DoLocal(names, v, l); v'.me == v.me && v.me in v'.peers && E.EpochsOf(v') == E.EpochsOf(v)
  {
    E.EpochsSurvive(v, P.DoLocal(names, v, l));
  }

  lemma CommandMatches(c: P.Cluster, s: P.Step, m: E.Masters)
    requires Projects(c, m) && E.Inv(m) && P.Enabled(c, s) && s.Command? && Gossips(c.names, s) && Masters(P.Apply(c, s))
    ensures Matches(c, P.Apply(c, s), m, m)
  {
    hide E.EpochsOf, P.DoLocal, P.LocalEnabled;
    var v, c' := c.views[s.n], P.Apply(c, s);
    assert Shows(c, m, s.n) && IsMaster(c', s.n);
    CommandKeepsEpochs(c.names, v, s.local);
    SameOwnEpoch(v, c'.views[s.n]);
    assert m.nodes[s.n := m.nodes[s.n]] == m.nodes && m.bumps[s.n := m.bumps[s.n]] == m.bumps;
    NodeMatches(c, c', s.n, c'.views[s.n], m, m, 0);
  }

  lemma SameOwnEpoch(v: View, v': View)
    requires v.me in v.peers && v'.me in v'.peers
    ensures E.EpochsOf(v).config == MyEpoch(v) && E.EpochsOf(v') .config == MyEpoch(v')
  {
  }

  lemma LossMatches(c: P.Cluster, s: P.Step, m: E.Masters)
    requires Projects(c, m) && E.Inv(m) && P.Enabled(c, s) && s.Lose?
    ensures Matches(c, P.Apply(c, s), m, m)
  {
    hide E.EpochsOf, E.Knows, E.History, E.TrueMail;
    var c' := P.Apply(c, s);
    forall p | p in c'.net ensures Carried(m, p) {
      assert p in c.net;
    }
    forall n | n in c.names ensures Shows(c', m, n) {
      assert Shows(c, m, n) && IsMaster(c', n);
    }
  }

  lemma MasterHeader(v: View)
    requires Wf(v) && v.peers[v.me].role == Master
    ensures var h := BuildHeader(v);
      h.sender == v.me && h.currentEpoch == v.currentEpoch && h.configEpoch == MyEpoch(v) && h.slaveof == None
  {
  }

  lemma PingMatches(c: P.Cluster, s: P.Step, m: E.Masters)
    requires Projects(c, m) && E.Inv(m) && P.Enabled(c, s) && s.SendPing? && Gossips(c.names, s)
    ensures E.Enabled(m, E.Send(s.n, s.dest)) && Matches(c, P.Apply(c, s), m, E.Apply(m, E.Send(s.n, s.dest)))
  {
    var v, c', m' := c.views[s.n], P.Apply(c, s), E.Apply(m, E.Send(s.n, s.dest));
    assert Shows(c, m, s.n) && IsMaster(c, s.n);
    MasterHeader(v);
    var sent := Packet(s.dest, BuildHeader(v), Ping);
    hide BuildHeader, P.Enabled, E.EpochsOf;
    SameOwnEpoch(v, v);
    assert MailOf(sent) == E.Fresh(m, s.n, s.dest);
    assert m.nodes[s.n := m.nodes[s.n]] == m.nodes && m.bumps[s.n := m.bumps[s.n]] == m.bumps;
    assert c.views[s.n := v] == c.views;
    assert Masters(c') by {
      forall n | n in c.names ensures IsMaster(c', n) {
        assert Shows(c, m, n);
      }
    }
    NodeMatches(c, c', s.n, v, m, m', 0);
  }

  // ---------------------------------------------------------------- receiving

  /** What the receiver of a packet must know: it and the sender are masters that know each other. */
  lemma Receives(c: P.Cluster, m: E.Masters, p: Packet)
    requires P.DominanceInv(c) && Projects(c, m) && p in c.net && p.dest in c.views
    ensures var v := c.views[p.dest];
      && Carried(m, p) && Shows(c, m, p.dest) && P.GoodPacket(c.names, p) && P.GoodView(c.names, v)
      && p.hdr.sender in c.names && p.hdr.sender != p.dest && Trusted(v, p.hdr)
      && p.hdr.sender in m.nodes[p.dest].seen
  {
    assert Carried(m, p) && Shows(c, m, p.dest) && P.GoodPacket(c.names, p) && P.GoodNode(c, p.dest);
  }

  /** The mail of a packet can be delivered, and what that does to its receiver. */
  lemma MailArrives(c: P.Cluster, m: E.Masters, p: Packet)
    requires P.DominanceInv(c) && Projects(c, m) && E.Inv(m) && p in c.net && p.dest in c.views
    requires p.body.Update? ==> p.body.about in c.names
    ensures E.Enabled(m, E.Deliver(MailOf(p)))
    ensures var (e, v) := (E.Deliver(MailOf(p)), c.views[p.dest]);
      && v.me == p.dest && v.me in v.peers && p.hdr.sender in E.EpochsOf(v).seen
      && (p.body.Update? ==> p.body.about == v.me || p.body.about in E.EpochsOf(v).seen)
      && E.Apply(m, e).nodes == m.nodes[p.dest := E.Read(E.EpochsOf(v), MailOf(p))]
  {
    Receives(c, m, p);
  }

  /** The UPDATE that answers a ping tells of epochs as they were before a collision is handled. */
  lemma AnswerIsTrue(v: View, h: Header, slot: Option<nat>, q: Packet)
    requires Wf(v) && v.peers[v.me].role == Master && Trusted(v, h) && h.sender != v.me && h.slaveof == None
    requires OnPing(v, h, slot).view.peers[v.me].role == Master && q in OnPing(v, h, slot).out
    ensures q.dest == h.sender && q.body.Update? && q.hdr.slaveof == None
    ensures q.hdr.sender == v.me && q.hdr.configEpoch == MyEpoch(v) && q.hdr.currentEpoch >= v.currentEpoch
    ensures q.body.about in v.peers && q.body.about != h.sender && q.body.epoch == v.peers[q.body.about].configEpoch
  {
    var v1 := ProcessHeader(v, h);
    var v2 := RoleSwitch(v1, h);
    var v3 := PingSlots(v2, h, h.configEpoch);
    assert v2.peers[v.me] == v.peers[v.me] && v2.currentEpoch >= v.currentEpoch;
    assert forall n :: n in v.peers && n != h.sender ==> v2.peers[n].configEpoch == v.peers[n].configEpoch;
    E.SlotsKeepEpochs(v2, h, h.configEpoch);
    StaysMaster(v2, h, h.configEpoch);
    hide ProcessHeader, RoleSwitch, PingSlots, Dirty;
    assert q in PingReply(v3, h, h.configEpoch, slot);
  }

  lemma StaysMaster(v: View, h: Header, epoch: nat)
    requires v.me in v.peers && h.sender in v.peers && v.peers[v.me].role == Master
    ensures var v' := PingSlots(v, h, epoch);
      && (v'.peers[v.me].role == Master ==> v'.peers[v.me] == v.peers[v.me])
      && (h.sender != v.me ==> HandleCollision(v', h.sender).peers[v.me].role == v'.peers[v.me].role)
  {
  }

  /** The receiver's epochs after any packet of gossip are those of its mail. */
  lemma PacketIsRead(c: P.Cluster, m: E.Masters, s: P.Step)
    requires P.DominanceInv(c) && Projects(c, m) && E.Inv(m) && P.Enabled(c, s) && s.Receive? && Masters(P.Apply(c, s))
    ensures E.Enabled(m, E.Deliver(MailOf(s.p)))
    ensures var (v, v') := (c.views[s.p.dest], P.Apply(c, s).views[s.p.dest]);
      && v'.me in v'.peers
      && E.Apply(m, E.Deliver(MailOf(s.p))).nodes == m.nodes[s.p.dest := E.EpochsOf(v')]
  {
    hide E.Learn, E.Hear, OnPing, OnUpdate, E.EpochsOf;
    var (p, v) := (s.p, c.views[s.p.dest]);
    Receives(c, m, p);
    assert IsMaster(P.Apply(c, s), p.dest);
    assert E.TrueMail(m, MailOf(p));
    MailArrives(c, m, p);
    if p.body.Ping? {
      E.PingIsHear(v, p.hdr, s.reply);
    } else {
      E.UpdateIsLearn(v, p.hdr, p.body.about, p.body.epoch, p.body.slots);
    }
  }

  /** A bump in one machine is a bump in the other. */
  lemma BumpIsBump(c: P.Cluster, m: E.Masters, s: P.Step)
    requires P.DominanceInv(c) && Projects(c, m) && E.Inv(m) && P.Enabled(c, s) && s.Receive? && Masters(P.Apply(c, s))
    ensures E.Enabled(m, E.Deliver(MailOf(s.p))) && s.p.dest in m.bumps
    ensures E.Apply(m, E.Deliver(MailOf(s.p))).bumps
         == m.bumps[s.p.dest := m.bumps[s.p.dest] + if OwnEpochChanges(c, P.Apply(c, s), s.p.dest) then 1 else 0]
  {
    hide E.Read, E.Bumps, E.EpochsOf, P.OnPacket, P.GoodView, P.GoodPacket, E.Knows, E.History, E.TrueMail;
    var (c', d) := (P.Apply(c, s), s.p.dest);
    Receives(c, m, s.p);
    PacketIsRead(c, m, s);
    E.ConfigsRise(m, E.Deliver(MailOf(s.p)));
    assert IsMaster(c', d) && Shows(c, m, d);
    SameOwnEpoch(c.views[d], c'.views[d]);
  }

  lemma AnswerIsTrueMail(c: P.Cluster, m: E.Masters, s: P.Step, q: Packet)
    requires P.DominanceInv(c) && Projects(c, m) && E.Inv(m) && P.Enabled(c, s) && s.Receive? && Masters(P.Apply(c, s))
    requires q in P.OnPacket(c.views[s.p.dest], s.p, s.reply, s.votedRecently, s.linked).out
    ensures E.Enabled(m, E.Deliver(MailOf(s.p))) && q.body.Update? && q.hdr.slaveof == None
    ensures E.TrueMail(E.Apply(m, E.Deliver(MailOf(s.p))), MailOf(q))
  {
    hide OnPing, OnUpdate, P.GoodView, P.DominanceInv, E.Inv, E.Enabled, E.Apply, E.Read, Carried;
    var (d, v) := (s.p.dest, c.views[s.p.dest]);
    Receives(c, m, s.p);
    PacketIsRead(c, m, s);
    assert IsMaster(P.Apply(c, s), d) && IsMaster(c, d) && Carried(m, s.p);
    AnswerIsTrue(v, s.p.hdr, s.reply, q);
    TrueAfterwards(m, MailOf(s.p), MailOf(q));
  }

  /** Mail that tells what its sender knew before a delivery is true after it. */
  lemma TrueAfterwards(m: E.Masters, mail: E.Mail, told: E.Mail)
    requires E.Inv(m) && E.Enabled(m, E.Deliver(mail)) && told.sender == mail.dest && mail.dest in m.names
    requires told.dest in m.names && told.dest != told.sender && told.news.Some?
    requires told.config == m.nodes[told.sender].config && told.current >= m.nodes[told.sender].current
    requires var r, about := m.nodes[told.sender], told.news.value.about;
      about in m.names && if about == told.sender then told.news.value.epoch == r.config
                          else about in r.seen && told.news.value.epoch == r.seen[about]
    ensures E.TrueMail(E.Apply(m, E.Deliver(mail)), told)
  {
    E.ConfigsRise(m, E.Deliver(mail));
    assert E.Knows(m, told.sender) && E.History(m, told.sender);
  }

  /** A packet received is its mail delivered, and then its answer, if any, posted. */
  lemma ReceiveMatches(t: Trace, m: E.Masters, c: P.Cluster, s: P.Step) returns (t': Trace, m': E.Masters)
    requires Ends(t, m) && P.DominanceInv(c) && Projects(c, m) && P.Enabled(c, s) && s.Receive? && Masters(P.Apply(c, s))
    ensures Ends(t', m') && Matches(c, P.Apply(c, s), m, m')
  {
    hide Ends, E.Inv, P.DominanceInv, E.EpochsOf, P.OnPacket, OwnEpochChanges, IsMaster, E.TrueMail, E.Read, E.Bumps;
    var (c', d, deliver) := (P.Apply(c, s), s.p.dest, E.Deliver(MailOf(s.p)));
    var out := P.OnPacket(c.views[d], s.p, s.reply, s.votedRecently, s.linked).out;
    EndKeepsInv(t, m);
    PacketIsRead(c, m, s);
    BumpIsBump(c, m, s);
    InvCounts(m);
    t', m' := Extend(t, m, deliver);
    if q :| q in out {
      OneAnswer(c, s, q);
      AnswerIsTrueMail(c, m, s, q);
      t', m' := Extend(t', m', E.Post(MailOf(q)));
    }
    NodeMatches(c, c', d, c'.views[d], m, m', if OwnEpochChanges(c, c', d) then 1 else 0);
  }

  lemma InvCounts(m: E.Masters)
    requires E.Inv(m)
    ensures m.bumps.Keys == m.names
  {
  }

  lemma OneAnswer(c: P.Cluster, s: P.Step, q: Packet)
    requires P.Enabled(c, s) && s.Receive?
    requires q in P.OnPacket(c.views[s.p.dest], s.p, s.reply, s.votedRecently, s.linked).out
    ensures P.OnPacket(c.views[s.p.dest], s.p, s.reply, s.votedRecently, s.linked).out == {q}
  {
  }

  lemma StepMatches(t: Trace, m: E.Masters, c: P.Cluster, s: P.Step) returns (t': Trace, m': E.Masters)
    requires Ends(t, m) && P.DominanceInv(c) && Projects(c, m) && P.Enabled(c, s)
    requires Gossips(c.names, s) && Masters(P.Apply(c, s))
    ensures Ends(t', m') && Matches(c, P.Apply(c, s), m, m')
  {
    hide Ends, E.Inv, P.DominanceInv, Projects, Matches, P.Apply, P.Enabled, E.Enabled, E.Apply, Masters;
    EndKeepsInv(t, m);
    t', m' := t, m;
    match s
    case Receive(_, _, _, _) => t', m' := ReceiveMatches(t, m, c, s);
    case Lose(_) => LossMatches(c, s, m);
    case Command(_, _) => CommandMatches(c, s, m);
    case SendPing(n, dest) =>
      PingMatches(c, s, m);
      t', m' := Extend(t, m, E.Send(n, dest));
  }

  lemma StepOf(cs: seq<P.Cluster>, ss: seq<P.Step>, i: nat)
    requires IsGossip(cs, ss) && i < |ss|
    ensures P.Enabled(cs[i], ss[i]) && cs[i + 1] == P.Apply(cs[i], ss[i])
    ensures Gossips(cs[i].names, ss[i]) && Masters(cs[i + 1])
  {
    hide P.Apply, P.Enabled, P.Init, Gossips, Masters, Honest;
  }

  /** Every run of gossip among masters projects to a run of the masters' mail, bump for bump. */
  lemma {:induction false} RunProjects(cs: seq<P.Cluster>, ss: seq<P.Step>, i: nat) returns (t: Trace, m: E.Masters)
    requires IsGossip(cs, ss) && i < |cs|
    ensures Ends(t, m) && Projects(cs[i], m) && m.bumps.Keys == m.names
    ensures forall n :: n in cs[i].names ==> m.bumps[n] == BumpsOf(cs, i, n)
  {
    hide P.Apply, P.Enabled, P.Init, P.DominanceInv, Shows, Carried, Ends, OwnEpochChanges, Gossips, Masters, Honest;
    if i == 0 {
      t, m := StartProjects(cs[0]);
    } else {
      t, m := RunProjects(cs, ss, i - 1);
      P.RunKeepsDominance(cs, ss, i - 1);
      StepOf(cs, ss, i - 1);
      t, m := StepMatches(t, m, cs[i - 1], ss[i - 1]);
    }
  }

  lemma StartProjects(c: P.Cluster) returns (t: Trace, m: E.Masters)
    requires P.Init(c) && Masters(c) && Honest(c)
    ensures Ends(t, m) && Projects(c, m) && m.bumps.Keys == m.names && forall n :: n in c.names ==> m.bumps[n] == 0
  {
    hide P.DominanceInv, E.Knows, Honest, Masters, Projection, Shows;
    m := Projection(c);
    ProjectionIs(c);
    forall n | n in c.names ensures E.Knows(m, n) {
      StartKnows(c, m, n);
    }
    t := Trace([m], []);
  }

  lemma ProjectionIs(c: P.Cluster)
    requires Masters(c)
    ensures var m := Projection(c);
      && m.nodes.Keys == m.held.Keys == m.bumps.Keys == m.names == c.names == c.views.Keys && m.net == {}
      && (forall n {:trigger Shows(c, m, n)} :: n in c.names ==> Shows(c, m, n))
      && (forall n {:trigger m.held[n]} :: n in c.names ==> m.held[n] == {m.nodes[n].config} && m.bumps[n] == 0)
  {
    hide E.EpochsOf, IsMaster;
    var m := Projection(c);
    assert forall n :: n in c.names ==> IsMaster(c, n);
    forall n | n in c.names ensures Shows(c, m, n) {
      assert IsMaster(c, n);
    }
  }

  ghost function Projection(c: P.Cluster): E.Masters
    requires Masters(c)
  {
    var nodes := map n | n in c.names && IsMaster(c, n) :: E.EpochsOf(c.views[n]);
    E.Masters(c.names, nodes, {}, map n | n in nodes :: {nodes[n].config}, map n | n in c.names :: 0)
  }

  lemma SeenIs(c: P.Cluster, m: E.Masters, n: NodeId, p: NodeId)
    requires Shows(c, m, n) && Shows(c, m, p) && Underestimates(c, n, p) && n != p
    ensures p in m.nodes[n].seen && m.nodes[n].seen[p] <= m.nodes[p].config
  {
  }

  lemma OwnIs(c: P.Cluster, m: E.Masters, n: NodeId)
    requires Shows(c, m, n) && P.DominanceInv(c) && n in c.names
    ensures m.nodes[n].config <= m.nodes[n].current && m.nodes[n].seen.Keys == c.names - {n}
  {
    assert P.GoodNode(c, n);
  }

  lemma StartKnows(c: P.Cluster, m: E.Masters, n: NodeId)
    requires P.DominanceInv(c) && Honest(c) && n in c.names && m.names == c.names == m.nodes.Keys
    requires forall p {:trigger Shows(c, m, p)} :: p in c.names ==> Shows(c, m, p)
    ensures E.Knows(m, n)
  {
    hide Shows, P.DominanceInv, Underestimates;
    assert Shows(c, m, n);
    OwnIs(c, m, n);
    forall p | p in c.names && p != n ensures p in m.nodes && m.nodes[n].seen[p] <= m.nodes[p].config {
      assert Shows(c, m, p) && Underestimates(c, n, p);
      SeenIs(c, m, n, p);
    }
  }

  /** However long masters gossip, one with k peers of greater name changes its epoch at most k times. */
  lemma GossipBumpBound(cs: seq<P.Cluster>, ss: seq<P.Step>, i: nat, n: NodeId)
    requires IsGossip(cs, ss) && i < |cs| && n in cs[i].names
    ensures BumpsOf(cs, i, n) <= |E.Above(cs[i].names, n)|
  {
    var t, m := RunProjects(cs, ss, i);
    E.BumpBound(t.ms, t.es, |t.es|, n);
  }
}
