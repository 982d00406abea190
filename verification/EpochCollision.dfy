/**
 configEpoch collision resolution: masters that ping each other and answer with UPDATEs, all of them
 delayed, lost and repeated at will. The master with k peers of greater name bumps its epoch at most
 k times, a state is at rest exactly when all epochs differ, and pings that keep colliding lead there.
 */
module EpochCollision {
  import opened Common
  import opened ClusterView

  /** The epochs of one master: its own two and the ones it has seen its peers publish. */
  datatype Node = Node(current: nat, config: nat, seen: map<NodeId, nat>)

  /** What an UPDATE says of a node. */
  datatype News = News(about: NodeId, epoch: nat)

  /** A ping or an UPDATE on the wire, as far as epochs go. */
  datatype Mail = Mail(dest: NodeId, sender: NodeId, current: nat, config: nat, news: Option<News>)

  predicate Collides(me: NodeId, r: Node, sender: NodeId, config: nat)
    requires sender in r.seen
  {
    config == r.config && Max(r.seen[sender], config) == r.config && sender > me
  }

  /** What a ping between masters does to the receiver's epochs. */
  function Hear(me: NodeId, r: Node, sender: NodeId, current: nat, config: nat): Node
    requires sender in r.seen
  {
    var now := Max(r.current, current);
    var seen := r.seen[sender := Max(r.seen[sender], config)];
    if Collides(me, r, sender, config) then Node(now + 1, now + 1, seen) else Node(now, r.config, seen)
  }

  /** What an UPDATE does to them; it never makes its receiver bump. */
  function Learn(me: NodeId, r: Node, sender: NodeId, current: nat, config: nat, news: News): Node
    requires sender in r.seen && (news.about == me || news.about in r.seen)
  {
    var now := Max(r.current, current);
    var seen := r.seen[sender := Max(r.seen[sender], config)];
    if news.about == me then Node(now, Max(r.config, news.epoch), seen)
    else Node(now, r.config, seen[news.about := Max(seen[news.about], news.epoch)])
  }

  // ---------------------------------------------------------------- the handlers they abstract

  function EpochsOf(v: View): Node
    requires v.me in v.peers
  {
    Node(v.currentEpoch, MyEpoch(v), map p | p in v.peers && p != v.me :: v.peers[p].configEpoch)
  }

  lemma HeaderEpochs(v: View, h: Header)
    requires v.me in v.peers && Trusted(v, h) && h.sender != v.me
    ensures var r := EpochsOf(v);
            EpochsOf(ProcessHeader(v, h)) == Node(Max(r.current, h.currentEpoch), r.config,
                                                  r.seen[h.sender := Max(r.seen[h.sender], h.configEpoch)])
  {
  }

  lemma CollisionEpochs(v: View, sender: NodeId)
    requires v.me in v.peers && sender in v.peers && sender != v.me
    requires v.peers[sender].role == Master && v.peers[v.me].role == Master
    ensures var r := EpochsOf(v);
            EpochsOf(HandleCollision(v, sender)) ==
              if r.seen[sender] == r.config && sender > v.me then r.(current := r.current + 1, config := r.current + 1) else r
  {
  }

  /** Hear is what the whole ping handler does to the epochs, for a ping from a master that leaves
      the receiver a master. */
  lemma PingIsHear(v: View, h: Header, slot: Option<nat>)
    requires Wf(v) && Trusted(v, h) && h.sender != v.me && h.slaveof == None
    requires OnPing(v, h, slot).view.peers[v.me].role == Master
    ensures EpochsOf(OnPing(v, h, slot).view) == Hear(v.me, EpochsOf(v), h.sender, h.currentEpoch, h.configEpoch)
  {
    var v1 := ProcessHeader(v, h);
    var v2 := RoleSwitch(v1, h);
    var v3 := PingSlots(v2, h, h.configEpoch);
    HeaderEpochs(v, h);
    EpochsSurvive(v1, v2);
    SlotsKeepEpochs(v2, h, h.configEpoch);
    EpochsSurvive(v2, v3);
    CollisionEpochs(v3, h.sender);
  }

  lemma BelievedEpochs(v: View, about: NodeId, epoch: nat)
    requires v.me in v.peers && about in v.peers
    ensures var r := EpochsOf(v);
            EpochsOf(BelieveUpdate(v, about, epoch)) ==
              if about == v.me then r.(config := epoch) else r.(seen := r.seen[about := epoch])
  {
  }

  lemma UpdatedSlotsKeepEpochs(v: View, sender: NodeId, epoch: nat, slots: set<nat>)
    requires v.me in v.peers
    ensures EpochsOf(UpdateSlots(v, sender, epoch, slots)) == EpochsOf(v)
  {
    EpochsSurvive(v, UpdateSlots(v, sender, epoch, slots));
  }

  /** Learn is what the whole UPDATE handler does to the epochs. */
  lemma UpdateIsLearn(v: View, h: Header, about: NodeId, epoch: nat, slots: set<nat>)
    requires Wf(v) && Trusted(v, h) && h.sender != v.me && about in v.peers
    ensures EpochsOf(OnUpdate(v, h, about, epoch, slots).view)
         == Learn(v.me, EpochsOf(v), h.sender, h.currentEpoch, h.configEpoch, News(about, epoch))
  {
    hide ProcessHeader, BelieveUpdate, UpdateSlots;
    var v1 := ProcessHeader(v, h);
    HeaderEpochs(v, h);
    BelievedEpochs(v1, about, epoch);
    UpdatedSlotsKeepEpochs(BelieveUpdate(v1, about, epoch), about, epoch, slots);
  }

  /** Views that agree on every epoch have the same epochs. */
  lemma EpochsSurvive(v: View, v': View)
    requires v.me in v.peers && v'.me == v.me && v'.peers.Keys == v.peers.Keys && v'.currentEpoch == v.currentEpoch
    requires forall p :: p in v.peers ==> v'.peers[p].configEpoch == v.peers[p].configEpoch
    ensures EpochsOf(v') == EpochsOf(v)
  {
  }

  lemma SlotsKeepEpochs(v: View, h: Header, epoch: nat)
    requires v.me in v.peers && h.sender in v.peers && h.sender != v.me
    ensures var v' := PingSlots(v, h, epoch);
            && v'.currentEpoch == v.currentEpoch
            && v'.peers[h.sender] == v.peers[h.sender]
            && (forall p :: p in v.peers ==> v'.peers[p].configEpoch == v.peers[p].configEpoch)
  {
  }

  // ---------------------------------------------------------------- the masters and their mail

  datatype Masters = Masters(
    names: set<NodeId>,
    nodes: map<NodeId, Node>,
    net: set<Mail>,
    held: map<NodeId, set<nat>>,  // every configEpoch a node has had
    bumps: map<NodeId, nat>)      // how often it bumped

  /** Post is any mail that is true, such as the UPDATE sent in answer to a ping. */
  datatype Event = Send(src: NodeId, dest: NodeId) | Post(mail: Mail) | Deliver(mail: Mail)

  /** Mail between two masters that tells of an epoch its sender has had, and overestimates no one's. */
  ghost predicate TrueMail(m: Masters, mail: Mail) {
    && mail.dest in m.names && mail.sender in m.names && mail.dest != mail.sender
    && mail.sender in m.held && mail.config in m.held[mail.sender]
    && mail.config <= mail.current
    && (mail.news.Some? ==>
          mail.news.value.about in m.names && mail.news.value.about in m.nodes
          && mail.news.value.epoch <= m.nodes[mail.news.value.about].config)
  }

  ghost predicate Enabled(m: Masters, e: Event) {
    match e
    case Send(src, dest) => src in m.names && dest in m.names && src != dest && src in m.nodes
    case Post(mail) => TrueMail(m, mail)
    case Deliver(mail) =>
      && mail in m.net && mail.dest in m.nodes && mail.dest in m.held && mail.dest in m.bumps
      && mail.sender in m.nodes[mail.dest].seen
      && (mail.news.Some? ==> mail.news.value.about == mail.dest || mail.news.value.about in m.nodes[mail.dest].seen)
  }

  function Fresh(m: Masters, src: NodeId, dest: NodeId): Mail
    requires src in m.nodes
  {
    Mail(dest, src, m.nodes[src].current, m.nodes[src].config, None)
  }

  function Read(r: Node, mail: Mail): Node
    requires mail.sender in r.seen
    requires mail.news.Some? ==> mail.news.value.about == mail.dest || mail.news.value.about in r.seen
  {
    match mail.news
    case None => Hear(mail.dest, r, mail.sender, mail.current, mail.config)
    case Some(news) => Learn(mail.dest, r, mail.sender, mail.current, mail.config, news)
  }

  predicate Bumps(r: Node, mail: Mail)
    requires mail.sender in r.seen
  {
    mail.news == None && Collides(mail.dest, r, mail.sender, mail.config)
  }

  /** Delivered mail stays in `net`, so that it may arrive again; lost mail just never arrives. */
  ghost function Apply(m: Masters, e: Event): Masters
    requires Enabled(m, e)
  {
    match e
    case Send(src, dest) => m.(net := m.net + {Fresh(m, src, dest)})
    case Post(mail) => m.(net := m.net + {mail})
    case Deliver(mail) =>
      var n, r := mail.dest, m.nodes[mail.dest];
      var r' := Read(r, mail);
      m.(nodes := m.nodes[n := r'],
         held := m.held[n := m.held[n] + {r'.config}],
         bumps := m.bumps[n := m.bumps[n] + if Bumps(r, mail) then 1 else 0])
  }

  /** The nodes whose name is greater than n's. */
  function Above(names: set<NodeId>, n: NodeId): set<NodeId> {
    set p | p in names && p > n
  }

  function HeldBy(m: Masters, nodes: set<NodeId>): set<nat> {
    set p, x | p in nodes && p in m.held && x in m.held[p] :: x
  }

  /** What node n knows: every other master, none of their epochs overestimated. */
  ghost predicate Knows(m: Masters, n: NodeId) {
    && n in m.nodes && m.nodes[n].config <= m.nodes[n].current
    && m.nodes[n].seen.Keys == m.names - {n}
    && (forall p {:trigger m.nodes[n].seen[p]} :: p in m.names && p != n ==>
          p in m.nodes && m.nodes[n].seen[p] <= m.nodes[p].config)
  }

  /** The epochs node n has had: its own is the last, each bump added one, and every earlier one was
      had by a node above it, the one it collided with. */
  ghost predicate History(m: Masters, n: NodeId) {
    && n in m.nodes && n in m.held && n in m.bumps
    && m.nodes[n].config in m.held[n]
    && (forall x :: x in m.held[n] ==> x <= m.nodes[n].config)
    && |m.held[n]| == m.bumps[n] + 1
    && m.held[n] - {m.nodes[n].config} <= HeldBy(m, Above(m.names, n))
  }

  ghost predicate Inv(m: Masters) {
    && m.nodes.Keys == m.held.Keys == m.bumps.Keys == m.names
    && (forall n {:trigger Knows(m, n)} :: n in m.names ==> Knows(m, n))
    && (forall n {:trigger History(m, n)} :: n in m.names ==> History(m, n))
    && (forall mail {:trigger TrueMail(m, mail)} :: mail in m.net ==> TrueMail(m, mail))
  }

  lemma DeliverKeepsKnows(m: Masters, e: Event, n: NodeId)
    requires Inv(m) && Enabled(m, e) && e.Deliver? && n in m.names
    ensures Knows(Apply(m, e), n)
  {
    assert TrueMail(m, e.mail) && Knows(m, e.mail.dest) && Knows(m, n) && History(m, e.mail.sender);
    ConfigsRise(m, e);
  }

  /** No mail lowers its receiver's epoch, and only a collision raises it. */
  lemma ConfigsRise(m: Masters, e: Event)
    requires Inv(m) && Enabled(m, e) && e.Deliver?
    ensures var m', d := Apply(m, e), e.mail.dest;
      && m.nodes[d].config <= m'.nodes[d].config
      && (m'.nodes[d].config != m.nodes[d].config <==> Bumps(m.nodes[d], e.mail))
  {
    assert TrueMail(m, e.mail) && Knows(m, e.mail.dest);
  }

  lemma DeliverKeepsHistory(m: Masters, e: Event, n: NodeId)
    requires Inv(m) && Enabled(m, e) && e.Deliver? && n in m.names
    ensures History(Apply(m, e), n)
  {
    var m', d := Apply(m, e), e.mail.dest;
    assert TrueMail(m, e.mail) && Knows(m, d) && History(m, n) && History(m, d);
    assert forall p :: p in m.held ==> m.held[p] <= m'.held[p];
    assert HeldBy(m, Above(m.names, n)) <= HeldBy(m', Above(m.names, n));
    ConfigsRise(m, e);
    if n == d && Bumps(m.nodes[d], e.mail) {
      assert e.mail.sender in Above(m.names, d);
    } else {
      assert m'.held[n] == m.held[n];
    }
  }

  lemma SendKeepsInv(m: Masters, e: Event)
    requires Inv(m) && Enabled(m, e) && !e.Deliver?
    ensures Inv(Apply(m, e))
  {
    var m' := Apply(m, e);
    forall n | n in m'.names ensures Knows(m', n) && History(m', n) {
      assert Knows(m, n) && History(m, n);
      assert HeldBy(m', Above(m'.names, n)) == HeldBy(m, Above(m.names, n));
    }
    forall mail | mail in m'.net ensures TrueMail(m', mail) {
      assert mail in m.net ==> TrueMail(m, mail);
      assert e.Send? ==> History(m, e.src) && Knows(m, e.src);
    }
  }

  lemma DeliverKeepsMail(m: Masters, e: Event, mail: Mail)
    requires Inv(m) && Enabled(m, e) && e.Deliver? && mail in m.net
    ensures TrueMail(Apply(m, e), mail)
  {
    assert TrueMail(m, mail) && TrueMail(m, e.mail);
    ConfigsRise(m, e);
  }

  lemma DeliverKeepsInv(m: Masters, e: Event, m': Masters)
    requires Inv(m) && Enabled(m, e) && e.Deliver? && m' == Apply(m, e)
    ensures Inv(m')
  {
    assert TrueMail(m, e.mail);
    assert m'.names == m.names && m'.net == m.net;
    assert m'.nodes.Keys == m'.held.Keys == m'.bumps.Keys == m'.names;
    forall n | n in m'.names ensures Knows(m', n) {
      DeliverKeepsKnows(m, e, n);
    }
    forall n | n in m'.names ensures History(m', n) {
      DeliverKeepsHistory(m, e, n);
    }
    forall mail | mail in m'.net ensures TrueMail(m', mail) {
      DeliverKeepsMail(m, e, mail);
    }
  }

  lemma StepKeepsInv(m: Masters, e: Event)
    requires Inv(m) && Enabled(m, e)
    ensures Inv(Apply(m, e))
  {
    if e.Deliver? {
      DeliverKeepsInv(m, e, Apply(m, e));
    } else {
      SendKeepsInv(m, e);
    }
  }

  // ---------------------------------------------------------------- how many bumps

  /** Masters that have just met: any epochs, nothing in flight, nothing overestimated. */
  ghost predicate Init(m: Masters) {
    && m.nodes.Keys == m.held.Keys == m.bumps.Keys == m.names && m.net == {}
    && (forall n {:trigger Knows(m, n)} :: n in m.names ==> Knows(m, n))
    && (forall n {:trigger m.held[n]} :: n in m.names ==> m.held[n] == {m.nodes[n].config} && m.bumps[n] == 0)
  }

  ghost predicate IsRun(ms: seq<Masters>, es: seq<Event>) {
    && |ms| == |es| + 1 && Init(ms[0])
    && forall i :: 0 <= i < |es| ==> Enabled(ms[i], es[i]) && ms[i + 1] == Apply(ms[i], es[i])
  }

  lemma {:induction false} RunKeepsInv(ms: seq<Masters>, es: seq<Event>, i: nat)
    requires IsRun(ms, es) && i < |ms|
    ensures Inv(ms[i])
  {
    if i == 0 {
      forall n | n in ms[0].names ensures History(ms[0], n) {
        assert ms[0].held[n] == {ms[0].nodes[n].config};
      }
    } else {
      RunKeepsInv(ms, es, i - 1);
      StepKeepsInv(ms[i - 1], es[i - 1]);
    }
  }

  lemma Least(s: set<NodeId>) returns (q: NodeId)
    requires s != {}
    ensures q in s && forall p :: p in s ==> q <= p
    decreases |s|
  {
    var x :| x in s;
    if s == {x} {
      q := x;
    } else {
      assert |s - {x}| < |s|;
      var y := Least(s - {x});
      q := if x < y then x else y;
      assert forall p :: p in s ==> p == x || p in s - {x};
    }
  }

  /** An upward closed set of nodes has had no more epochs, all told, than it has nodes. */
  lemma {:induction false} FewEpochs(m: Masters, s: set<NodeId>)
    requires Inv(m) && s <= m.names
    requires forall p, q :: p in s && q in m.names && q > p ==> q in s
    ensures |HeldBy(m, s)| <= |s|
    decreases |s|
  {
    if s == {} {
      assert HeldBy(m, s) == {};
    } else {
      var q := Least(s);
      var rest := s - {q};
      assert Above(m.names, q) == rest;
      assert History(m, q);
      FewEpochs(m, rest);
      assert HeldBy(m, s) == HeldBy(m, rest) + m.held[q];
      assert HeldBy(m, s) <= HeldBy(m, rest) + {m.nodes[q].config};
      SubsetSize(HeldBy(m, s), HeldBy(m, rest) + {m.nodes[q].config});
    }
  }

  /** In every run the master with k peers above it bumps at most k times, so the one with the
      greatest name never moves. */
  lemma BumpBound(ms: seq<Masters>, es: seq<Event>, i: nat, n: NodeId)
    requires IsRun(ms, es) && i < |ms| && n in ms[i].names && n in ms[i].bumps
    ensures ms[i].bumps[n] <= |Above(ms[i].names, n)|
  {
    RunKeepsInv(ms, es, i);
    BumpBoundInv(ms[i], n);
  }

  lemma BumpBoundInv(m: Masters, n: NodeId)
    requires Inv(m) && n in m.names
    ensures n in m.bumps && m.bumps[n] <= |Above(m.names, n)|
  {
    assert History(m, n);
    var above := HeldBy(m, Above(m.names, n));
    FewEpochs(m, Above(m.names, n));
    SubsetSize(m.held[n], above + {m.nodes[n].config});
  }

  // ---------------------------------------------------------------- at rest

  /** No ping sent now could make its receiver bump. */
  ghost predicate AtRest(m: Masters)
    requires Inv(m)
  {
    forall src, dest :: src in m.names && dest in m.names && src != dest && src in m.nodes[dest].seen ==>
      !Collides(dest, m.nodes[dest], src, m.nodes[src].config)
  }

  ghost predicate AllDistinct(m: Masters)
    requires m.nodes.Keys == m.names
  {
    forall p, q :: p in m.names && q in m.names && p != q ==> m.nodes[p].config != m.nodes[q].config
  }

  /** A state is at rest exactly when all configEpochs differ. */
  lemma RestIffDistinct(m: Masters)
    requires Inv(m)
    ensures AtRest(m) <==> AllDistinct(m)
  {
    if AtRest(m) {
      forall p, q | p in m.names && q in m.names && p != q
        ensures m.nodes[p].config != m.nodes[q].config
      {
        var lo, hi := if p < q then p else q, if p < q then q else p;
        assert Knows(m, lo);
        assert hi in m.nodes[lo].seen;
        assert !Collides(lo, m.nodes[lo], hi, m.nodes[hi].config);
      }
    }
  }

  // ---------------------------------------------------------------- the total, and getting there

  ghost function Sum(s: set<NodeId>, f: map<NodeId, nat>): nat
    requires s <= f.Keys
    decreases |s|
  {
    if s == {} then 0
    else
      var q :| q in s;
      f[q] + Sum(s - {q}, f)
  }

  lemma {:induction false} SumSplits(s: set<NodeId>, f: map<NodeId, nat>, n: NodeId)
    requires s <= f.Keys && n in s
    ensures Sum(s, f) == f[n] + Sum(s - {n}, f)
    decreases |s|
  {
    var q :| q in s && Sum(s, f) == f[q] + Sum(s - {q}, f);
    if q != n {
      SumSplits(s - {q}, f, n);
      SumSplits(s - {n}, f, q);
      assert s - {q} - {n} == s - {n} - {q};
    }
  }

  lemma {:induction false} SumMonotone(s: set<NodeId>, f: map<NodeId, nat>, g: map<NodeId, nat>)
    requires s <= f.Keys && s <= g.Keys && forall n :: n in s ==> f[n] <= g[n]
    ensures Sum(s, f) <= Sum(s, g)
    decreases |s|
  {
    if s != {} {
      var q :| q in s;
      SumSplits(s, f, q);
      SumSplits(s, g, q);
      SumMonotone(s - {q}, f, g);
    }
  }

  function Ranks(names: set<NodeId>): map<NodeId, nat> {
    map n | n in names :: |Above(names, n)|
  }

  lemma Triangle(k: int, a: int)
    requires 2 * a == (k - 1) * (k - 2)
    ensures 2 * (k - 1 + a) == k * (k - 1)
  {
  }

  lemma {:induction false} RanksAgree(names: set<NodeId>, q: NodeId)
    requires q in names && forall p :: p in names ==> q <= p
    ensures Sum(names - {q}, Ranks(names)) == Sum(names - {q}, Ranks(names - {q}))
  {
    var rest := names - {q};
    forall n | n in rest ensures Ranks(names)[n] == Ranks(rest)[n] {
      assert Above(names, n) == Above(rest, n);
    }
    SumMonotone(rest, Ranks(names), Ranks(rest));
    SumMonotone(rest, Ranks(rest), Ranks(names));
  }

  lemma {:induction false} RanksTotal(names: set<NodeId>)
    ensures 2 * Sum(names, Ranks(names)) == |names| * (|names| - 1)
    decreases |names|
  {
    if names != {} {
      var q := Least(names);
      var rest := names - {q};
      RanksTotal(rest);
      assert Above(names, q) == rest;
      SumSplits(names, Ranks(names), q);
      RanksAgree(names, q);
      Triangle(|names|, Sum(rest, Ranks(rest)));
    }
  }

  /** All the masters together bump at most N(N-1)/2 times, however long the run. */
  lemma TotalBumpBound(ms: seq<Masters>, es: seq<Event>, i: nat)
    requires IsRun(ms, es) && i < |ms|
    ensures ms[i].bumps.Keys == ms[i].names
    ensures 2 * Sum(ms[i].names, ms[i].bumps) <= |ms[i].names| * (|ms[i].names| - 1)
  {
    RunKeepsInv(ms, es, i);
    TotalBumpBoundInv(ms[i]);
  }

  lemma TotalBumpBoundInv(m: Masters)
    requires Inv(m)
    ensures Sum(m.names, m.bumps) <= Sum(m.names, Ranks(m.names))
    ensures 2 * Sum(m.names, m.bumps) <= |m.names| * (|m.names| - 1)
  {
    forall n | n in m.names ensures m.bumps[n] <= Ranks(m.names)[n] {
      BumpBoundInv(m, n);
    }
    SumMonotone(m.names, m.bumps, Ranks(m.names));
    RanksTotal(m.names);
  }

  ghost predicate Leads(m: Masters, es: seq<Event>, m': Masters)
    decreases |es|
  {
    if es == [] then m' == m
    else Enabled(m, es[0]) && Leads(Apply(m, es[0]), es[1..], m')
  }

  lemma LeadsTwo(m: Masters, a: Event, b: Event, rest: seq<Event>, m': Masters)
    requires Enabled(m, a) && Enabled(Apply(m, a), b) && Leads(Apply(Apply(m, a), b), rest, m')
    ensures Leads(m, [a, b] + rest, m')
  {
    assert ([a, b] + rest)[1..] == [b] + rest && ([b] + rest)[1..] == rest;
    assert Leads(Apply(m, a), [b] + rest, m');
  }

  /** A fresh ping between two masters with equal epochs makes the lower one bump. */
  lemma CollidingPing(m: Masters, lo: NodeId, hi: NodeId) returns (m': Masters)
    requires Inv(m) && lo in m.names && hi in m.names && lo < hi && m.nodes[lo].config == m.nodes[hi].config
    ensures Inv(m') && m'.names == m.names
    ensures Sum(m'.names, m'.bumps) == Sum(m.names, m.bumps) + 1
    ensures Enabled(m, Send(hi, lo)) && Enabled(Apply(m, Send(hi, lo)), Deliver(Fresh(m, hi, lo)))
    ensures m' == Apply(Apply(m, Send(hi, lo)), Deliver(Fresh(m, hi, lo)))
  {
    assert Knows(m, lo);
    var m1 := Apply(m, Send(hi, lo));
    StepKeepsInv(m, Send(hi, lo));
    m' := Apply(m1, Deliver(Fresh(m, hi, lo)));
    StepKeepsInv(m1, Deliver(Fresh(m, hi, lo)));
    assert Bumps(m.nodes[lo], Fresh(m, hi, lo));
    assert m'.bumps == m.bumps[lo := m.bumps[lo] + 1];
    SumSplits(m.names, m.bumps, lo);
    SumSplits(m.names, m'.bumps, lo);
    SumMonotone(m.names - {lo}, m.bumps, m'.bumps);
    SumMonotone(m.names - {lo}, m'.bumps, m.bumps);
  }

  /** From every reachable state, pinging between masters that collide reaches all-distinct epochs. */
  lemma {:induction false} CollisionsResolve(m: Masters) returns (es: seq<Event>, m': Masters)
    requires Inv(m)
    ensures Leads(m, es, m') && Inv(m') && AllDistinct(m')
    ensures |es| == 2 * (Sum(m'.names, m'.bumps) - Sum(m.names, m.bumps)) && m'.names == m.names
    decreases Sum(m.names, Ranks(m.names)) - Sum(m.names, m.bumps)
  {
    if AllDistinct(m) {
      es, m' := [], m;
    } else {
      var p, q :| p in m.names && q in m.names && p != q && m.nodes[p].config == m.nodes[q].config;
      var lo, hi := if p < q then p else q, if p < q then q else p;
      var m1 := CollidingPing(m, lo, hi);
      TotalBumpBoundInv(m1);
      var rest;
      rest, m' := CollisionsResolve(m1);
      es := [Send(hi, lo), Deliver(Fresh(m, hi, lo))] + rest;
      LeadsTwo(m, Send(hi, lo), Deliver(Fresh(m, hi, lo)), rest, m');
    }
  }
}
