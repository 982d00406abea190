/**
 Election safety: one vote per master and epoch, counted at most once, so that two slaves whose
 counts hold only votes of their own epoch cannot both reach a majority of one voter set.
 */
module Election {
  import opened Common
  import opened ClusterView
  import opened ClusterProtocol

  // ---------------------------------------------------------------- the ballot fields

  lemma LocalKeepsBallot(names: set<NodeId>, v: View, l: Local)
    requires Wf(v) && LocalEnabled(names, v, l)
    ensures SameBallot(v, DoLocal(names, v, l))
  {
  }

  // ---------------------------------------------------------------- one vote per epoch

  predicate IsAck(p: Packet) {
    p.body.AuthAck?
  }

  predicate IsBallot(p: Packet) {
    p.body.AuthAck? || p.body.AuthRequest?
  }

  ghost predicate GrantedTo(c: Cluster, k: Vote, n: NodeId) {
    k in c.granted && c.granted[k] == n
  }

  ghost predicate Distinct(votes: seq<Vote>) {
    forall i, j :: 0 <= i < j < |votes| ==> votes[i] != votes[j]
  }

  ghost predicate GrantsInv(c: Cluster) {
    forall k {:trigger k in c.granted} :: k in c.granted ==>
      k.voter in c.names && k.voter in c.views && k.epoch <= c.views[k.voter].lastVoteEpoch
  }

  /** Acks in flight: each carries a vote granted to its addressee, and no vote is in flight twice. */
  ghost predicate AcksInv(c: Cluster) {
    && (forall p :: p in c.net && IsAck(p) ==> c.net[p] == 1 && GrantedTo(c, VoteOf(p.hdr), p.dest))
    && (forall p, q :: p in c.net && q in c.net && IsAck(p) && IsAck(q) && VoteOf(p.hdr) == VoteOf(q.hdr) ==> p == q)
  }

  /** The votes behind one node's count: granted to it, pairwise distinct, none still in flight. */
  ghost predicate Tally(c: Cluster, n: NodeId, votes: seq<Vote>) {
    && (forall k :: k in votes ==> GrantedTo(c, k, n))
    && Distinct(votes)
    && (forall p :: p in c.net && IsAck(p) ==> VoteOf(p.hdr) !in votes)
  }

  ghost predicate CountInv(c: Cluster, n: NodeId) {
    n in c.counted && n in c.views && Tally(c, n, c.counted[n]) && |c.counted[n]| == c.views[n].authCount
  }

  ghost predicate CountsInv(c: Cluster) {
    forall n {:trigger CountInv(c, n)} :: n in c.names ==> CountInv(c, n)
  }

  ghost predicate WinsInv(c: Cluster) {
    forall w :: w in c.wins ==>
      && (forall k :: k in w.votes ==> GrantedTo(c, k, w.winner))
      && Distinct(w.votes)
      && |w.votes| >= w.size / 2 + 1
  }

  ghost predicate VotesInv(c: Cluster) {
    GrantsInv(c) && AcksInv(c) && CountsInv(c) && WinsInv(c)
  }

  /** A step that grants, counts and wins nothing and puts no ack in flight. */
  ghost predicate QuietStep(c: Cluster, c': Cluster) {
    && c'.names == c.names && c'.views.Keys == c.views.Keys
    && c'.granted == c.granted && c'.counted == c.counted && c'.wins == c.wins
    && (forall n {:trigger c'.views[n]} :: n in c.views ==> SameBallot(c.views[n], c'.views[n]))
    && (forall p :: IsBallot(p) ==> c'.net[p] <= c.net[p])
  }

  lemma QuietKeepsVotes(c: Cluster, c': Cluster)
    requires VotesInv(c) && QuietStep(c, c')
    ensures VotesInv(c')
  {
    assert forall p :: p in c'.net && IsAck(p) ==> p in c.net;
    forall n | n in c'.names ensures CountInv(c', n) {
      assert CountInv(c, n);
    }
  }

  /** Everything but requests, acks and the failover cron is quiet. */
  ghost predicate IsQuiet(s: Step) {
    s.SendPing? || s.Lose? || s.Command? || (s.Receive? && (s.p.body.Ping? || s.p.body.Update?))
  }

  lemma CommandIsQuiet(c: Cluster, s: Step)
    requires Enabled(c, s) && s.Command?
    ensures QuietStep(c, Apply(c, s))
  {
    LocalKeepsBallot(c.names, c.views[s.n], s.local);
  }

  lemma GossipIsQuiet(c: Cluster, s: Step)
    requires Enabled(c, s) && s.Receive? && (s.p.body.Ping? || s.p.body.Update?)
    ensures QuietStep(c, Apply(c, s))
  {
  }

  lemma OtherStepsAreQuiet(c: Cluster, s: Step)
    requires Enabled(c, s) && IsQuiet(s)
    ensures QuietStep(c, Apply(c, s))
  {
    if s.Command? {
      CommandIsQuiet(c, s);
    } else if s.Receive? {
      GossipIsQuiet(c, s);
    }
  }

  // ---------------------------------------------------------------- granting a vote

  /** Node n votes for `to` in epoch e, with at most one new ack a on the wire. */
  ghost predicate GrantStep(c: Cluster, c': Cluster, n: NodeId, e: nat, to: NodeId, a: Packet) {
    && n in c.views && c'.names == c.names && c'.views.Keys == c.views.Keys
    && c'.granted == c.granted[Vote(n, e) := to] && c'.counted == c.counted && c'.wins == c.wins
    && (forall m {:trigger c'.views[m]} :: m in c.views && m != n ==> SameBallot(c.views[m], c'.views[m]))
    && c.views[n].lastVoteEpoch < e
    && SameBallot(c.views[n].(lastVoteEpoch := e), c'.views[n])
    && a.body.AuthAck? && VoteOf(a.hdr) == Vote(n, e) && a.dest == to
    && (forall p :: IsBallot(p) && p != a ==> c'.net[p] <= c.net[p])
    && c'.net[a] <= c.net[a] + 1
  }

  lemma GrantIsNew(c: Cluster, c': Cluster, n: NodeId, e: nat, to: NodeId, a: Packet)
    requires GrantsInv(c) && AcksInv(c) && n in c.names && GrantStep(c, c', n, e, to, a)
    ensures Vote(n, e) !in c.granted && a !in c.net
    ensures forall p :: p in c'.net && IsAck(p) ==> p in c.net || p == a
    ensures forall k, m :: GrantedTo(c, k, m) ==> GrantedTo(c', k, m)
    ensures GrantsInv(c')
  {
  }

  lemma GrantKeepsAcks(c: Cluster, c': Cluster, n: NodeId, e: nat, to: NodeId, a: Packet)
    requires GrantsInv(c) && AcksInv(c) && n in c.names && GrantStep(c, c', n, e, to, a)
    ensures AcksInv(c')
  {
    GrantIsNew(c, c', n, e, to, a);
  }

  lemma GrantKeepsVotes(c: Cluster, c': Cluster, n: NodeId, e: nat, to: NodeId, a: Packet)
    requires VotesInv(c) && n in c.names && GrantStep(c, c', n, e, to, a)
    ensures VotesInv(c')
  {
    GrantIsNew(c, c', n, e, to, a);
    GrantKeepsAcks(c, c', n, e, to, a);
    forall m | m in c'.names ensures CountInv(c', m) {
      assert CountInv(c, m);
    }
  }

  /** A granted vote is for exactly the epoch requested, and later than any vote before it. */
  lemma VoteIsForRequestedEpoch(names: set<NodeId>, v: View, h: Header, force: bool, recent: bool, linked: bool)
    requires GoodView(names, v) && GoodHeader(names, h) && h.sender in v.peers
    requires GrantsVote(ProcessHeader(v, h), h, force, recent)
    ensures var r := OnAuthRequest(v, h, force, recent, linked);
            && v.lastVoteEpoch < h.currentEpoch
            && SameBallot(v.(lastVoteEpoch := h.currentEpoch), r.view)
            && r.out <= {Packet(h.sender, BuildHeader(ProcessHeader(v, h)), AuthAck)}
            && VoteOf(BuildHeader(ProcessHeader(v, h))) == Vote(v.me, h.currentEpoch)
  {
    ProcessHeaderKeepsEpochs(names, v, h);
  }

  lemma GrantingIsGrantStep(c: Cluster, s: Step) returns (a: Packet)
    requires Enabled(c, s) && s.Receive? && s.p.body.AuthRequest?
    requires GoodHeader(c.names, s.p.hdr)
    requires c.views[s.p.dest].me == s.p.dest && GoodView(c.names, c.views[s.p.dest])
    requires Grants(c.views[s.p.dest], s.p, s.votedRecently)
    ensures a.hdr.currentEpoch == s.p.hdr.currentEpoch
    ensures GrantStep(c, Apply(c, s), s.p.dest, s.p.hdr.currentEpoch, s.p.hdr.sender, a)
  {
    var v, h := c.views[s.p.dest], s.p.hdr;
    VoteIsForRequestedEpoch(c.names, v, h, s.p.body.forceAck, s.votedRecently, s.linked);
    a := Packet(h.sender, BuildHeader(ProcessHeader(v, h)), AuthAck);
  }

  lemma DenyingIsQuiet(c: Cluster, s: Step)
    requires Enabled(c, s) && s.Receive? && s.p.body.AuthRequest?
    requires !Grants(c.views[s.p.dest], s.p, s.votedRecently)
    ensures QuietStep(c, Apply(c, s))
  {
  }

  // ---------------------------------------------------------------- counting a vote

  /** Node n takes ack a off the wire and counts it. */
  ghost predicate CountStep(c: Cluster, c': Cluster, n: NodeId, a: Packet) {
    && n in c.views && n in c.counted && c'.names == c.names && c'.views.Keys == c.views.Keys
    && c'.granted == c.granted && c'.wins == c.wins
    && c'.counted == c.counted[n := c.counted[n] + [VoteOf(a.hdr)]]
    && (forall m {:trigger c'.views[m]} :: m in c.views && m != n ==> SameBallot(c.views[m], c'.views[m]))
    && SameBallot(c.views[n].(authCount := c.views[n].authCount + 1), c'.views[n])
    && a in c.net && IsAck(a) && a.dest == n
    && (forall p :: IsBallot(p) ==> c'.net[p] <= (c.net - multiset{a})[p])
  }

  lemma CountKeepsTally(c: Cluster, c': Cluster, n: NodeId, a: Packet, m: NodeId)
    requires AcksInv(c) && CountStep(c, c', n, a) && CountInv(c, m)
    requires m == n || CountInv(c, n)
    ensures CountInv(c', m)
  {
    assert forall p :: p in c'.net && IsAck(p) ==> p in c.net && p != a;
    assert forall k, t :: GrantedTo(c, k, t) ==> GrantedTo(c', k, t);
    assert VoteOf(a.hdr) !in c.counted[m];
  }

  lemma CountKeepsVotes(c: Cluster, c': Cluster, n: NodeId, a: Packet)
    requires VotesInv(c) && CountStep(c, c', n, a) && n in c.names
    ensures VotesInv(c')
  {
    assert forall p :: p in c'.net && IsAck(p) ==> p in c.net && p != a;
    assert CountInv(c, n);
    forall m | m in c'.names ensures CountInv(c', m) {
      assert CountInv(c, m);
      CountKeepsTally(c, c', n, a, m);
    }
  }

  lemma CountingIsCountStep(c: Cluster, s: Step)
    requires c.counted.Keys == c.views.Keys && Enabled(c, s) && s.Receive? && s.p.body.AuthAck?
    requires Counts(c.views[s.p.dest], s.p)
    ensures CountStep(c, Apply(c, s), s.p.dest, s.p)
  {
  }

  lemma IgnoringIsQuiet(c: Cluster, s: Step)
    requires Enabled(c, s) && s.Receive? && s.p.body.AuthAck?
    requires !Counts(c.views[s.p.dest], s.p)
    ensures QuietStep(c, Apply(c, s))
  {
  }

  // ---------------------------------------------------------------- the failover cron

  lemma FailoverKeepsBallot(v: View)
    requires v.me in v.peers
    ensures SameBallot(v.(authCount := 0, authSent := false), ScheduleElection(v))
    ensures SameBallot(v.(authSent := true, authEpoch := v.currentEpoch + 1), AskForVotes(v))
    ensures SameBallot(v, WinElection(v))
  {
  }

  lemma ScheduleKeepsVotes(c: Cluster, s: Step)
    requires VotesInv(c) && Enabled(c, s) && s.Failover?
    requires FailoverBranch(c.views[s.n], s.manual, s.clock) == Schedule
    ensures VotesInv(Apply(c, s))
  {
    var c' := Apply(c, s);
    forall m | m in c'.names ensures CountInv(c', m) {
      assert CountInv(c, m);
    }
  }

  lemma AskKeepsVotes(c: Cluster, s: Step)
    requires VotesInv(c) && Enabled(c, s) && s.Failover?
    requires FailoverBranch(c.views[s.n], s.manual, s.clock) == Ask
    ensures VotesInv(Apply(c, s))
  {
    var c' := Apply(c, s);
    assert forall p :: IsAck(p) ==> c'.net[p] == c.net[p];
    assert forall p :: p in c'.net && IsAck(p) ==> p in c.net;
    forall m | m in c'.names ensures CountInv(c', m) {
      assert CountInv(c, m);
    }
  }

  lemma WinKeepsVotes(c: Cluster, s: Step)
    requires VotesInv(c) && Enabled(c, s) && s.Failover? && s.n in c.names
    requires FailoverBranch(c.views[s.n], s.manual, s.clock) == Win
    ensures VotesInv(Apply(c, s))
  {
    var c' := Apply(c, s);
    FailoverKeepsBallot(c.views[s.n]);
    assert CountInv(c, s.n);
    forall m | m in c'.names ensures CountInv(c', m) {
      assert CountInv(c, m);
    }
  }

  lemma ReceiveKeepsVotes(c: Cluster, s: Step)
    requires DominanceInv(c) && VotesInv(c) && Enabled(c, s) && s.Receive?
    ensures VotesInv(Apply(c, s))
  {
    var v := c.views[s.p.dest];
    assert GoodPacket(c.names, s.p) && GoodNode(c, s.p.dest);
    if s.p.body.AuthRequest? && Grants(v, s.p, s.votedRecently) {
      var a := GrantingIsGrantStep(c, s);
      GrantKeepsVotes(c, Apply(c, s), s.p.dest, s.p.hdr.currentEpoch, s.p.hdr.sender, a);
    } else if s.p.body.AuthAck? && Counts(v, s.p) {
      CountingIsCountStep(c, s);
      CountKeepsVotes(c, Apply(c, s), s.p.dest, s.p);
    } else {
      if s.p.body.AuthRequest? {
        DenyingIsQuiet(c, s);
      } else if s.p.body.AuthAck? {
        IgnoringIsQuiet(c, s);
      } else {
        OtherStepsAreQuiet(c, s);
      }
      QuietKeepsVotes(c, Apply(c, s));
    }
  }

  /** Every step keeps the books: one vote per master and epoch, each counted at most once. */
  lemma StepKeepsVotes(c: Cluster, s: Step)
    requires DominanceInv(c) && VotesInv(c) && Enabled(c, s)
    ensures VotesInv(Apply(c, s))
  {
    if s.Receive? {
      ReceiveKeepsVotes(c, s);
    } else if s.Failover? {
      match FailoverBranch(c.views[s.n], s.manual, s.clock)
      case Idle =>
      case Schedule => ScheduleKeepsVotes(c, s);
      case Ask => AskKeepsVotes(c, s);
      case Win => WinKeepsVotes(c, s);
    } else {
      OtherStepsAreQuiet(c, s);
      QuietKeepsVotes(c, Apply(c, s));
    }
  }

  // ---------------------------------------------------------------- requests and acks are of epochs asked for

  /** A request of node n, or an ack on its way to it. */
  predicate BallotOf(p: Packet, n: NodeId) {
    (p.body.AuthRequest? && p.hdr.sender == n) || (p.body.AuthAck? && p.dest == n)
  }

  /** No ballot of node n is of a later epoch than the last one it asked votes for. */
  ghost predicate AskedNode(c: Cluster, n: NodeId) {
    n in c.views && forall p :: p in c.net && BallotOf(p, n) ==> p.hdr.currentEpoch <= c.views[n].authEpoch
  }

  ghost predicate AskedInv(c: Cluster) {
    forall n {:trigger AskedNode(c, n)} :: n in c.names ==> AskedNode(c, n)
  }

  lemma QuietKeepsAsked(c: Cluster, c': Cluster)
    requires AskedInv(c) && QuietStep(c, c')
    ensures AskedInv(c')
  {
    assert forall p :: p in c'.net && IsBallot(p) ==> p in c.net;
    forall n | n in c'.names ensures AskedNode(c', n) {
      assert AskedNode(c, n);
    }
  }

  lemma GrantKeepsAsked(c: Cluster, c': Cluster, n: NodeId, e: nat, to: NodeId, a: Packet, request: Packet)
    requires AskedInv(c) && GrantStep(c, c', n, e, to, a) && to in c.names
    requires request in c.net && request.body.AuthRequest? && request.hdr.sender == to && request.hdr.currentEpoch == e
    ensures AskedInv(c')
  {
    assert AskedNode(c, to) && BallotOf(request, to);
    assert forall p :: p in c'.net && IsBallot(p) ==> p in c.net || p == a;
    forall m | m in c'.names ensures AskedNode(c', m) {
      assert AskedNode(c, m);
    }
  }

  lemma CountKeepsAsked(c: Cluster, c': Cluster, n: NodeId, a: Packet)
    requires AskedInv(c) && CountStep(c, c', n, a)
    ensures AskedInv(c')
  {
    assert forall p :: p in c'.net && IsBallot(p) ==> p in c.net;
    forall m | m in c'.names ensures AskedNode(c', m) {
      assert AskedNode(c, m);
    }
  }

  lemma ReceiveKeepsAsked(c: Cluster, s: Step)
    requires DominanceInv(c) && AskedInv(c) && Enabled(c, s) && s.Receive?
    ensures AskedInv(Apply(c, s))
  {
    var v := c.views[s.p.dest];
    assert GoodPacket(c.names, s.p) && GoodNode(c, s.p.dest);
    hide Apply, AskedInv, GrantStep, CountStep, QuietStep, Grants, Counts;
    if s.p.body.AuthRequest? && Grants(v, s.p, s.votedRecently) {
      var a := GrantingIsGrantStep(c, s);
      GrantKeepsAsked(c, Apply(c, s), s.p.dest, s.p.hdr.currentEpoch, s.p.hdr.sender, a, s.p);
    } else if s.p.body.AuthAck? && Counts(v, s.p) {
      CountingIsCountStep(c, s);
      CountKeepsAsked(c, Apply(c, s), s.p.dest, s.p);
    } else {
      if s.p.body.AuthRequest? {
        DenyingIsQuiet(c, s);
      } else if s.p.body.AuthAck? {
        IgnoringIsQuiet(c, s);
      } else {
        OtherStepsAreQuiet(c, s);
      }
      QuietKeepsAsked(c, Apply(c, s));
    }
  }

  /** The cron adds ballots only when it asks for votes, and then for a later epoch than ever before. */
  lemma FailoverKeepsAsked(c: Cluster, s: Step)
    requires AskedInv(c) && Enabled(c, s) && s.Failover? && GoodNode(c, s.n)
    ensures AskedInv(Apply(c, s))
  {
    var (v, c') := (c.views[s.n], Apply(c, s));
    hide FailoverBranch;
    FailoverKeepsBallot(v);
    assert forall p :: p in c'.net ==> p in c.net || p in Requests(AskForVotes(v), s.dests, s.forceAck);
    forall m | m in c'.names ensures AskedNode(c', m) {
      assert AskedNode(c, m);
    }
  }

  lemma StepKeepsAsked(c: Cluster, s: Step)
    requires DominanceInv(c) && AskedInv(c) && Enabled(c, s)
    ensures AskedInv(Apply(c, s))
  {
    hide Apply, AskedInv, QuietStep;
    if s.Receive? {
      ReceiveKeepsAsked(c, s);
    } else if s.Failover? {
      assert GoodNode(c, s.n);
      FailoverKeepsAsked(c, s);
    } else {
      OtherStepsAreQuiet(c, s);
      QuietKeepsAsked(c, Apply(c, s));
    }
  }

  /** The test on an ack lets exactly the epoch last asked for pass. */
  lemma CountsExactly(c: Cluster, p: Packet)
    requires DominanceInv(c) && AskedInv(c) && p in c.net && p.dest in c.views && p.body.AuthAck?
    ensures var (v, n) := (c.views[p.dest], p.hdr.sender);
      Counts(v, p) <==>
        && n in v.peers && v.peers[n].role == Master && (exists j :: j in v.owner && v.owner[j] == n)
        && p.hdr.currentEpoch == v.authEpoch
  {
    var (v, n) := (c.views[p.dest], p.hdr.sender);
    assert AskedNode(c, p.dest) && BallotOf(p, p.dest) && GoodNode(c, p.dest) && GoodPacket(c.names, p);
    var v1 := ProcessHeader(v, p.hdr);
    assert SlotsOf(v1, n) == SlotsOf(v, n);
    assert forall j :: j in v.owner && v.owner[j] == n ==> j in SlotsOf(v, n);
  }

  // ---------------------------------------------------------------- clean attempts

  /** The count is zeroed when an attempt is scheduled, its epoch is chosen when votes are asked
      for. A step is clean when no request or ack of the last attempt is in flight at the first of
      these two moments. Those of still earlier attempts may be. */
  ghost predicate CleanStep(c: Cluster, s: Step) {
    s.Failover? && Enabled(c, s) && FailoverBranch(c.views[s.n], s.manual, s.clock) == Schedule ==>
      forall p :: p in c.net && BallotOf(p, s.n) ==> p.hdr.currentEpoch != c.views[s.n].authEpoch
  }

  predicate OfAttempt(v: View, epoch: nat) {
    v.authSent && epoch == v.authEpoch
  }

  /** Ballots of the epoch last asked for, and all votes counted, belong to an attempt under way. */
  ghost predicate CleanNode(c: Cluster, n: NodeId) {
    && n in c.views && n in c.counted
    && (forall p :: p in c.net && BallotOf(p, n) && p.hdr.currentEpoch == c.views[n].authEpoch ==> c.views[n].authSent)
    && (forall k :: k in c.counted[n] ==> OfAttempt(c.views[n], k.epoch))
  }

  ghost predicate CleanInv(c: Cluster) {
    && (forall n {:trigger CleanNode(c, n)} :: n in c.names ==> CleanNode(c, n))
    && (forall w :: w in c.wins ==> forall k :: k in w.votes ==> k.epoch == w.epoch)
  }

  lemma QuietKeepsClean(c: Cluster, c': Cluster)
    requires CleanInv(c) && QuietStep(c, c')
    ensures CleanInv(c')
  {
    assert forall p :: p in c'.net && IsBallot(p) ==> p in c.net;
    forall n | n in c'.names ensures CleanNode(c', n) {
      assert CleanNode(c, n);
    }
  }

  lemma GrantKeepsClean(c: Cluster, c': Cluster, n: NodeId, e: nat, to: NodeId, a: Packet, request: Packet)
    requires CleanInv(c) && GrantStep(c, c', n, e, to, a) && to in c.names
    requires request in c.net && request.body.AuthRequest? && request.hdr.sender == to && request.hdr.currentEpoch == e
    ensures CleanInv(c')
  {
    assert CleanNode(c, to) && BallotOf(request, to);
    assert forall p :: p in c'.net && IsBallot(p) ==> p in c.net || p == a;
    forall m | m in c'.names ensures CleanNode(c', m) {
      assert CleanNode(c, m);
    }
  }

  lemma CountKeepsClean(c: Cluster, c': Cluster, n: NodeId, a: Packet)
    requires CleanInv(c) && CountStep(c, c', n, a) && a.hdr.currentEpoch == c.views[n].authEpoch
    ensures CleanInv(c')
  {
    assert BallotOf(a, n);
    assert forall p :: p in c'.net && IsBallot(p) ==> p in c.net;
    forall m | m in c'.names ensures CleanNode(c', m) {
      assert CleanNode(c, m);
    }
  }

  lemma ScheduleKeepsClean(c: Cluster, s: Step)
    requires CleanInv(c) && Enabled(c, s) && s.Failover? && CleanStep(c, s)
    requires FailoverBranch(c.views[s.n], s.manual, s.clock) == Schedule
    ensures CleanInv(Apply(c, s))
  {
    var c' := Apply(c, s);
    forall m | m in c'.names ensures CleanNode(c', m) {
      assert CleanNode(c, m);
    }
  }

  lemma AskKeepsClean(c: Cluster, s: Step)
    requires CleanInv(c) && AskedInv(c) && Enabled(c, s) && s.Failover? && s.n in c.names && GoodNode(c, s.n)
    requires FailoverBranch(c.views[s.n], s.manual, s.clock) == Ask
    ensures CleanInv(Apply(c, s))
  {
    var v, c' := AskForVotes(c.views[s.n]), Apply(c, s);
    assert CleanNode(c, s.n) && AskedNode(c, s.n) && !c.views[s.n].authSent;
    assert forall p :: p in c'.net ==> p in c.net || p in Requests(v, s.dests, s.forceAck);
    forall m | m in c'.names ensures CleanNode(c', m) {
      assert CleanNode(c, m);
    }
  }

  lemma WinKeepsClean(c: Cluster, s: Step)
    requires CleanInv(c) && Enabled(c, s) && s.Failover? && s.n in c.names
    requires FailoverBranch(c.views[s.n], s.manual, s.clock) == Win
    ensures CleanInv(Apply(c, s))
  {
    var c' := Apply(c, s);
    FailoverKeepsBallot(c.views[s.n]);
    assert CleanNode(c, s.n);
    forall m | m in c'.names ensures CleanNode(c', m) {
      assert CleanNode(c, m);
    }
  }

  lemma ReceiveKeepsClean(c: Cluster, s: Step)
    requires DominanceInv(c) && AskedInv(c) && CleanInv(c) && Enabled(c, s) && s.Receive?
    ensures CleanInv(Apply(c, s))
  {
    var v := c.views[s.p.dest];
    assert GoodPacket(c.names, s.p) && GoodNode(c, s.p.dest);
    hide Apply, AskedInv, CleanInv, GrantStep, CountStep, QuietStep, Grants, Counts;
    if s.p.body.AuthRequest? && Grants(v, s.p, s.votedRecently) {
      var a := GrantingIsGrantStep(c, s);
      GrantKeepsClean(c, Apply(c, s), s.p.dest, s.p.hdr.currentEpoch, s.p.hdr.sender, a, s.p);
    } else if s.p.body.AuthAck? && Counts(v, s.p) {
      CountingIsCountStep(c, s);
      CountsExactly(c, s.p);
      CountKeepsClean(c, Apply(c, s), s.p.dest, s.p);
    } else {
      if s.p.body.AuthRequest? {
        DenyingIsQuiet(c, s);
      } else if s.p.body.AuthAck? {
        IgnoringIsQuiet(c, s);
      } else {
        OtherStepsAreQuiet(c, s);
      }
      QuietKeepsClean(c, Apply(c, s));
    }
  }

  lemma StepKeepsClean(c: Cluster, s: Step)
    requires DominanceInv(c) && AskedInv(c) && CleanInv(c) && Enabled(c, s) && CleanStep(c, s)
    ensures CleanInv(Apply(c, s))
  {
    if s.Receive? {
      ReceiveKeepsClean(c, s);
    } else if s.Failover? {
      assert GoodNode(c, s.n);
      match FailoverBranch(c.views[s.n], s.manual, s.clock)
      case Idle =>
      case Schedule => ScheduleKeepsClean(c, s);
      case Ask => AskKeepsClean(c, s);
      case Win => WinKeepsClean(c, s);
    } else {
      OtherStepsAreQuiet(c, s);
      QuietKeepsClean(c, Apply(c, s));
    }
  }

  // ---------------------------------------------------------------- majorities

  function VotersOf(votes: seq<Vote>): set<NodeId> {
    set k | k in votes :: k.voter
  }

  lemma {:induction false} OneVoterPerVote(votes: seq<Vote>, epoch: nat)
    requires Distinct(votes) && forall k :: k in votes ==> k.epoch == epoch
    ensures |VotersOf(votes)| == |votes|
  {
    if votes != [] {
      var rest, last := votes[..|votes| - 1], votes[|votes| - 1];
      OneVoterPerVote(rest, epoch);
      assert VotersOf(votes) == VotersOf(rest) + {last.voter};
    }
  }

  lemma MajoritiesMeet(a: set<NodeId>, b: set<NodeId>, all: set<NodeId>)
    requires a <= all && b <= all && |a| + |b| > |all|
    ensures exists n :: n in a && n in b
  {
    if a * b == {} {
      assert |a + b| == |a| + |b|;
      SubsetSize(a + b, all);
    } else {
      var n :| n in a * b;
    }
  }

  // ---------------------------------------------------------------- the theorems

  lemma InitHoldsNoVotes(c: Cluster)
    requires Init(c)
    ensures VotesInv(c)
  {
    forall n | n in c.names ensures CountInv(c, n) {
      assert c.counted[n] == [];
    }
  }

  lemma {:induction false} RunKeepsVotes(cs: seq<Cluster>, ss: seq<Step>, i: nat)
    requires IsRun(cs, ss) && i < |cs|
    ensures VotesInv(cs[i])
  {
    if i == 0 {
      InitHoldsNoVotes(cs[0]);
    } else {
      RunKeepsVotes(cs, ss, i - 1);
      RunKeepsDominance(cs, ss, i - 1);
      StepKeepsVotes(cs[i - 1], ss[i - 1]);
    }
  }

  lemma {:induction false} RunKeepsAsked(cs: seq<Cluster>, ss: seq<Step>, i: nat)
    requires IsRun(cs, ss) && i < |cs|
    ensures AskedInv(cs[i])
  {
    if i == 0 {
      forall n | n in cs[0].names ensures AskedNode(cs[0], n) {
        assert GoodNode(cs[0], n);
      }
    } else {
      RunKeepsAsked(cs, ss, i - 1);
      RunKeepsDominance(cs, ss, i - 1);
      StepKeepsAsked(cs[i - 1], ss[i - 1]);
    }
  }

  /** In every run whatsoever, an ack adds one to its receiver's count exactly when its sender is a
      master the receiver sees serving slots and it carries the epoch the receiver last asked votes
      for: that of the attempt under way, or of the one before while the next is only scheduled. */
  lemma AckCountsExactly(cs: seq<Cluster>, ss: seq<Step>, i: nat)
    requires IsRun(cs, ss) && i < |ss| && ss[i].Receive? && ss[i].p.body.AuthAck?
    ensures var p := ss[i].p;
      && p.dest in cs[i].views && p.dest in cs[i + 1].views
      && var (v, v') := (cs[i].views[p.dest], cs[i + 1].views[p.dest]);
         v'.authCount == v.authCount
                         + if && p.hdr.sender in v.peers && v.peers[p.hdr.sender].role == Master
                              && (exists j :: j in v.owner && v.owner[j] == p.hdr.sender)
                              && p.hdr.currentEpoch == v.authEpoch then 1 else 0
  {
    RunKeepsDominance(cs, ss, i);
    RunKeepsAsked(cs, ss, i);
    assert Enabled(cs[i], ss[i]) && cs[i + 1] == Apply(cs[i], ss[i]);
    CountsExactly(cs[i], ss[i].p);
    if Counts(cs[i].views[ss[i].p.dest], ss[i].p) {
      CountingIsCountStep(cs[i], ss[i]);
    } else {
      IgnoringIsQuiet(cs[i], ss[i]);
    }
  }

  lemma InitIsClean(c: Cluster)
    requires Init(c)
    ensures CleanInv(c)
  {
    forall n | n in c.names ensures CleanNode(c, n) {
      assert c.counted[n] == [];
    }
  }

  ghost predicate IsCleanRun(cs: seq<Cluster>, ss: seq<Step>) {
    IsRun(cs, ss) && forall i :: 0 <= i < |ss| ==> CleanStep(cs[i], ss[i])
  }

  lemma {:induction false} RunKeepsClean(cs: seq<Cluster>, ss: seq<Step>, i: nat)
    requires IsCleanRun(cs, ss) && i < |cs|
    ensures CleanInv(cs[i])
  {
    if i == 0 {
      InitIsClean(cs[0]);
    } else {
      RunKeepsClean(cs, ss, i - 1);
      RunKeepsAsked(cs, ss, i - 1);
      RunKeepsDominance(cs, ss, i - 1);
      StepKeepsClean(cs[i - 1], ss[i - 1]);
    }
  }

  /** The votes of a win that all carry the election's own epoch. */
  predicate OwnEpochOnly(w: WinRecord) {
    forall k | k in w.votes :: k.epoch == w.epoch
  }

  /** In every run whatsoever, two wins of one epoch whose counts hold only votes of that epoch,
      from voters in one set no larger than either winner's cluster size, are the same node's. */
  lemma OneWinnerPerEpoch(cs: seq<Cluster>, ss: seq<Step>, voters: set<NodeId>, w1: WinRecord, w2: WinRecord)
    requires IsRun(cs, ss) && w1 in cs[|ss|].wins && w2 in cs[|ss|].wins
    requires w1.epoch == w2.epoch && OwnEpochOnly(w1) && OwnEpochOnly(w2)
    requires VotersOf(w1.votes) <= voters && VotersOf(w2.votes) <= voters
    requires |voters| <= w1.size && |voters| <= w2.size
    ensures w1.winner == w2.winner
  {
    var c := cs[|ss|];
    RunKeepsVotes(cs, ss, |ss|);
    OneVoterPerVote(w1.votes, w1.epoch);
    OneVoterPerVote(w2.votes, w2.epoch);
    MajoritiesMeet(VotersOf(w1.votes), VotersOf(w2.votes), voters);
    var n :| n in VotersOf(w1.votes) && n in VotersOf(w2.votes);
    assert Vote(n, w1.epoch) in w1.votes && Vote(n, w1.epoch) in w2.votes;
    assert GrantedTo(c, Vote(n, w1.epoch), w1.winner) && GrantedTo(c, Vote(n, w1.epoch), w2.winner);
  }

  /** Election safety: in every clean run, of two wins of one epoch by votes from one set of voters
      no larger than either winner's cluster size, both are the same node's. */
  lemma ElectionSafety(cs: seq<Cluster>, ss: seq<Step>, voters: set<NodeId>, w1: WinRecord, w2: WinRecord)
    requires IsCleanRun(cs, ss)
    requires w1 in cs[|ss|].wins && w2 in cs[|ss|].wins && w1.epoch == w2.epoch
    requires VotersOf(w1.votes) <= voters && VotersOf(w2.votes) <= voters
    requires |voters| <= w1.size && |voters| <= w2.size
    ensures w1.winner == w2.winner
  {
    RunKeepsClean(cs, ss, |ss|);
    OneWinnerPerEpoch(cs, ss, voters, w1, w2);
  }

  // ---------------------------------------------------------------- nodes that agree on the voters

  ghost predicate Wins(c: Cluster, s: Step, n: NodeId) {
    s.Failover? && s.n == n && Enabled(c, s) && FailoverBranch(c.views[n], s.manual, s.clock) == Win
  }

  /** Node n keeps to a set of voters: when it counts an ack it takes no one else for a voter, and
      when it wins its cluster size is that of the set at least. Afterwards it may well do. */
  ghost predicate KeepsTo(c: Cluster, s: Step, n: NodeId, voters: set<NodeId>) {
    && (s.Receive? && s.p.dest == n && n in c.views && Counts(c.views[n], s.p) ==> Voters(c.views[n]) <= voters)
    && (Wins(c, s, n) ==> |voters| <= c.views[n].size)
  }

  ghost predicate Steady(cs: seq<Cluster>, ss: seq<Step>, n: NodeId, voters: set<NodeId>) {
    |cs| == |ss| + 1 && forall i :: 0 <= i < |ss| ==> KeepsTo(cs[i], ss[i], n, voters)
  }

  /** The votes node n has counted, and those it has won by, come from the voters. */
  ghost predicate BooksWithin(c: Cluster, n: NodeId, voters: set<NodeId>) {
    && (n in c.counted ==> VotersOf(c.counted[n]) <= voters)
    && (forall w :: w in c.wins && w.winner == n ==> VotersOf(w.votes) <= voters && |voters| <= w.size)
  }

  lemma StepKeepsBooks(c: Cluster, s: Step, n: NodeId, voters: set<NodeId>)
    requires Enabled(c, s) && BooksWithin(c, n, voters) && KeepsTo(c, s, n, voters)
    ensures BooksWithin(Apply(c, s), n, voters)
  {
    if s.Receive? && s.p.dest == n && Counts(c.views[n], s.p) {
      CountedIsVoter(c.views[n], s.p);
    }
  }

  lemma CountedIsVoter(v: View, p: Packet)
    requires Counts(v, p)
    ensures p.hdr.sender in Voters(v)
  {
  }

  lemma {:induction false} RunKeepsBooks(cs: seq<Cluster>, ss: seq<Step>, i: nat, n: NodeId, voters: set<NodeId>)
    requires IsRun(cs, ss) && i < |cs| && Steady(cs, ss, n, voters)
    ensures BooksWithin(cs[i], n, voters)
  {
    if i == 0 {
      assert n in cs[0].names ==> cs[0].counted[n] == [];
    } else {
      RunKeepsBooks(cs, ss, i - 1, n, voters);
      StepKeepsBooks(cs[i - 1], ss[i - 1], n, voters);
    }
  }

  /** In every clean run, two nodes that keep to one set of voters do not both win an epoch. */
  lemma SteadyVotersElectOne(cs: seq<Cluster>, ss: seq<Step>, voters: set<NodeId>, w1: WinRecord, w2: WinRecord)
    requires IsCleanRun(cs, ss) && Steady(cs, ss, w1.winner, voters) && Steady(cs, ss, w2.winner, voters)
    requires w1 in cs[|ss|].wins && w2 in cs[|ss|].wins && w1.epoch == w2.epoch
    ensures w1.winner == w2.winner
  {
    RunKeepsBooks(cs, ss, |ss|, w1.winner, voters);
    RunKeepsBooks(cs, ss, |ss|, w2.winner, voters);
    ElectionSafety(cs, ss, voters, w1, w2);
  }
}
