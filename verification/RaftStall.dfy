/** Split votes: replicas that campaign against each other in one term ignore the answers to their own pre-votes, and no
    leader is elected until one of them is restarted. */
module RaftStall {
  import opened Commands
  import opened RaftNode
  import opened RaftCluster
  import opened RaftInvariant
  import opened RaftSafety
  import opened RaftProgress

  // ---- terms --------------------------------------------------------------------------------------------------

  lemma {:induction false} TermGrows(c: Cluster, step: Step)
    requires Enabled(c, step)
    ensures var n := Actor(step); n in c.nodes && n in Do(c, step).nodes && c.nodes[n].term <= Do(c, step).nodes[n].term
  {
    StepIsUpdate(c, step);
    match step
    case RecvAppend(p) => AppendTerm(Config(p.dst, c.voters), c.nodes[p.dst], p.areq);
    case RecvAppendReply(p) => ReplyTerm(Config(p.leader, c.voters), c.nodes[p.leader], p.aresp.follower, p.aresp);
    case TornAppend(p, kept) => TornTerm(c.nodes[p.dst], p.areq, kept);
    case _ =>
  }

  lemma {:induction false} AppendTerm(cfg: Config, s: NodeState, req: AppendRequest)
    ensures s.term <= HandleAppend(cfg, s, req).0.term
  {
  }

  lemma {:induction false} ReplyTerm(cfg: Config, s: NodeState, peer: NodeId, r: AppendResponse)
    ensures s.term <= HandleAppendReply(cfg, s, peer, r).term
  {
  }

  lemma {:induction false} TornTerm(s: NodeState, req: AppendRequest, kept: nat)
    requires kept <= |req.entries|
    ensures s.term <= TornAppended(s, req, kept).term
  {
  }

  /** Whoever answered is still in the term the answer carries, or in a later one. */
  ghost predicate Told(c: Cluster) { forall p {:trigger ToldBy(c, p)} :: p in c.net ==> ToldBy(c, p) }

  ghost predicate ToldBy(c: Cluster, p: Packet) {
    match p
    case VoteReturn(_, r) => r.voter in c.nodes && r.term <= c.nodes[r.voter].term
    case AppendReturn(_, _, r) => r.follower in c.nodes && r.term <= c.nodes[r.follower].term
    case _ => true
  }

  lemma {:induction false} NewIsTold(c: Cluster, step: Step, p: Packet)
    requires Enabled(c, step) && p in Do(c, step).net && p !in c.net
    ensures ToldBy(Do(c, step), p)
  {
    match step
    case RecvVote(call, _) =>
    case RecvAppend(call) =>
    case _ =>
  }

  lemma {:induction false} StepTells(c: Cluster, step: Step)
    requires Told(c) && Enabled(c, step)
    ensures Told(Do(c, step))
  {
    var c' := Do(c, step);
    TermGrows(c, step);
    StepIsUpdate(c, step);
    forall p | p in c'.net ensures ToldBy(c', p) {
      if p in c.net { assert ToldBy(c, p); } else { NewIsTold(c, step, p); }
    }
  }

  // ---- a contest ------------------------------------------------------------------------------------------------

  ghost predicate Contends(s: NodeState, t: nat) { s.role.Candidate? && s.term == t }

  /** All replicas campaign in the same term. */
  ghost predicate Contest(c: Cluster, t: nat) { |c.voters| >= 2 && forall n :: n in c.nodes ==> Contends(c.nodes[n], t) }

  /** No vote call is newer than the contest, and no candidate votes for another. */
  lemma {:induction false} VoteRefused(c: Cluster, t: nat, p: Packet, heardLeader: bool)
    requires Inv(c) && Contest(c, t) && Enabled(c, RecvVote(p, heardLeader))
    ensures HandleVote(Config(p.dst, c.voters), c.nodes[p.dst], p.vreq, heardLeader).0 == c.nodes[p.dst]
  {
    var req := p.vreq;
    assert NodeOk(c.voters, c.hist, p.dst, c.nodes[p.dst]) && PacketOk(c.voters, c.hist, p);
    if !req.preVote {
      assert CampaignOk(c.voters, c.hist, req.term, req.candidate);
      assert NodeOk(c.voters, c.hist, req.candidate, c.nodes[req.candidate]);
    }
  }

  /** Nobody has granted a vote in the term of the contest. */
  lemma {:induction false} NothingGranted(c: Cluster, t: nat, p: Packet)
    requires Inv(c) && Told(c) && Contest(c, t) && Enabled(c, RecvVoteReply(p)) && !p.vreq.preVote
    ensures HandleVoteReply(Config(p.vreq.candidate, c.voters), c.nodes[p.vreq.candidate], p.vresp) == c.nodes[p.vreq.candidate]
  {
    var r := p.vresp;
    assert ToldBy(c, p) && PacketOk(c.voters, c.hist, p) && NodeOk(c.voters, c.hist, r.voter, c.nodes[r.voter]);
    assert Contends(c.nodes[p.vreq.candidate], t);
  }

  /** Nobody leads the term of the contest. */
  lemma {:induction false} AppendRefused(c: Cluster, t: nat, p: Packet)
    requires Inv(c) && Contest(c, t) && Enabled(c, RecvAppend(p))
    ensures HandleAppend(Config(p.dst, c.voters), c.nodes[p.dst], p.areq).0 == c.nodes[p.dst]
  {
    var l := p.areq.leader;
    assert PacketOk(c.voters, c.hist, p) && ReignOk(c.voters, c.hist, p.areq.term) && NodeOk(c.voters, c.hist, l, c.nodes[l]);
  }

  lemma {:induction false} NothingToHear(c: Cluster, t: nat, p: Packet)
    requires Told(c) && Contest(c, t) && Enabled(c, RecvAppendReply(p))
    ensures HandleAppendReply(Config(p.leader, c.voters), c.nodes[p.leader], p.aresp.follower, p.aresp) == c.nodes[p.leader]
  {
    assert ToldBy(c, p) && Contends(c.nodes[p.leader], t);
  }

  lemma {:induction false} StillContends(c: Cluster, t: nat, step: Step)
    requires Inv(c) && Told(c) && Contest(c, t) && Enabled(c, step) && !IsCrash(step)
    requires Actor(step) in Do(c, step).nodes
    ensures Contends(Do(c, step).nodes[Actor(step)], t)
  {
    StepIsUpdate(c, step);
    assert Contends(c.nodes[Actor(step)], t);
    match step
    case Timeout(n) => OneIsNoMajority(c.voters, n);
    case RecvVote(p, heard) => VoteRefused(c, t, p, heard);
    case RecvVoteReply(p) => if !p.vreq.preVote { NothingGranted(c, t, p); }
    case RecvAppend(p) => AppendRefused(c, t, p);
    case RecvAppendReply(p) => NothingToHear(c, t, p);
    case _ =>
  }

  ghost predicate Stuck(c: Cluster, q: set<NodeId>, t: nat) { Inv(c) && Told(c) && Contest(c, t) && c.voters == q }

  lemma {:induction false} ContestStays(c: Cluster, c': Cluster, q: set<NodeId>, t: nat)
    requires Stuck(c, q, t) && Moves(q, false, c, c')
    ensures Stuck(c', q, t)
  {
    var step :| Enabled(c, step) && Actor(step) in q && (IsCrash(step) ==> false) && c' == Do(c, step);
    StepHolds(c, step);
    StepTells(c, step);
    StepIsUpdate(c, step);
    StillContends(c, t, step);
    forall n | n in c'.nodes ensures Contends(c'.nodes[n], t) {
      if n != Actor(step) { assert Contends(c.nodes[n], t); }
    }
  }

  lemma {:induction false} AlwaysTold(run: seq<Cluster>, i: nat)
    requires IsRun(run) && i < |run|
    ensures Told(run[i])
  {
    if i > 0 {
      AlwaysTold(run, i - 1);
      assert Follows(run[i - 1], run[i]);
      var step :| Enabled(run[i - 1], step) && run[i] == Do(run[i - 1], step);
      StepTells(run[i - 1], step);
    }
  }

  ghost predicate CalmFrom(path: seq<Cluster>, q: set<NodeId>, k: nat) {
    forall j {:trigger CalmStep(path, q, j)} :: k <= j < |path| - 1 ==> CalmStep(path, q, j)
  }

  ghost predicate CalmStep(path: seq<Cluster>, q: set<NodeId>, j: nat) { j + 1 < |path| && Moves(q, false, path[j], path[j + 1]) }

  /** Without a crash a contest lasts. */
  lemma {:induction false} ContestLasts(path: seq<Cluster>, q: set<NodeId>, t: nat, k: nat, i: nat)
    requires k <= i < |path| && Stuck(path[k], q, t) && CalmFrom(path, q, k)
    ensures Stuck(path[i], q, t)
    decreases i
  {
    if k < i {
      ContestLasts(path, q, t, k, i - 1);
      assert CalmStep(path, q, i - 1);
      ContestStays(path[i - 1], path[i], q, t);
    }
  }

  // ---- main results ---------------------------------------------------------------------------------------------

  /** The run can be continued without a crash so that `n` leads. */
  ghost predicate ElectsNext(run: seq<Cluster>, longer: seq<Cluster>, n: NodeId)
    requires |run| > 0
  {
    Continues(run[0].voters, false, run, longer) && n in longer[|longer| - 1].nodes && longer[|longer| - 1].nodes[n].role.Leader?
  }

  /** All replicas are in the same term, with logs that are equally up to date. */
  ghost predicate Even(c: Cluster) {
    forall n, m :: n in c.nodes && m in c.nodes ==> c.nodes[n].term == c.nodes[m].term && NotBehind(c.nodes[n].log, c.nodes[m].log)
  }

  lemma {:induction false} FollowerElected(run: seq<Cluster>, n: NodeId) returns (longer: seq<Cluster>, l: NodeId)
    requires IsRun(run) && |run[0].voters| >= 2 && Even(run[|run| - 1])
    requires n in run[|run| - 1].nodes && !run[|run| - 1].nodes[n].role.Candidate?
    ensures ElectsNext(run, longer, l)
  {
    var c, q := run[|run| - 1], run[0].voters;
    RunHolds(run, 0, |run| - 1);
    var c';
    if x :| x in c.nodes && c.nodes[x].role.Leader? {
      c', l := c, x;
      ReachesSelf(q, false, c);
    } else {
      assert Favoured(c, q, n);
      c' := ElectFavoured(q, false, c, n);
      l := n;
    }
    longer := RunOn(q, false, run, c');
  }

  ghost predicate AllCampaign(c: Cluster) { forall n :: n in c.nodes ==> c.nodes[n].role.Candidate? }

  lemma {:induction false} AllStuck(run: seq<Cluster>) returns (t: nat)
    requires IsRun(run) && |run[0].voters| >= 2 && Even(run[|run| - 1]) && AllCampaign(run[|run| - 1])
    ensures Stuck(run[|run| - 1], run[0].voters, t)
  {
    RunHolds(run, 0, |run| - 1);
    AlwaysTold(run, |run| - 1);
    var n :| n in run[0].voters;
    t := run[|run| - 1].nodes[n].term;
  }

  lemma {:induction false} NobodyElected(run: seq<Cluster>, longer: seq<Cluster>, l: NodeId)
    requires IsRun(run) && |run[0].voters| >= 2 && Even(run[|run| - 1]) && AllCampaign(run[|run| - 1])
    ensures !ElectsNext(run, longer, l)
  {
    if Continues(run[0].voters, false, run, longer) && l in longer[|longer| - 1].nodes {
      var t := AllStuck(run);
      assert longer[|run| - 1] == longer[..|run|][|run| - 1];
      assert CalmFrom(longer, run[0].voters, |run| - 1);
      ContestLasts(longer, run[0].voters, t, |run| - 1, |longer| - 1);
      assert Contends(longer[|longer| - 1].nodes[l], t);
    }
  }

  /** In a group of at least two replicas that are even, a leader can come about without a crash if and only if not all of them
      are candidates. */
  lemma {:induction false} ElectableIff(run: seq<Cluster>)
    requires IsRun(run) && |run[0].voters| >= 2 && Even(run[|run| - 1])
    ensures (exists longer, n :: ElectsNext(run, longer, n)) <==> !AllCampaign(run[|run| - 1])
  {
    var c := run[|run| - 1];
    if AllCampaign(c) {
      forall longer, n ensures !ElectsNext(run, longer, n) { NobodyElected(run, longer, n); }
    } else {
      var n :| n in c.nodes && !c.nodes[n].role.Candidate?;
      var longer, l := FollowerElected(run, n);
    }
  }

  // ---- an input -------------------------------------------------------------------------------------------------

  /** A follower without a log whose timer has fired, and the same replica once it campaigns. */
  function Probing0(n: NodeId): NodeState { FreshNode.(preVoteTerm := 1, preVotes := {n}) }

  function Campaigning1(n: NodeId, m: NodeId): NodeState {
    FreshNode.(preVoteTerm := 1, preVotes := {n, m}, role := Candidate, term := 1, votedFor := Some(n), votes := {n})
  }

  function Probe(n: NodeId): VoteRequest { VoteRequest(true, 1, n, 0, 0) }

  lemma {:induction false} ProbeGranted(n: NodeId, m: NodeId)
    requires n != m
    ensures var cfg := Config(n, {n, m});
            && StartPreElection(cfg, FreshNode) == Probing0(n)
            && HandleVote(cfg, Probing0(n), Probe(m), false) == (Probing0(n), VoteResponse(0, true, n))
            && HandlePreVoteReply(cfg, Probing0(n), VoteResponse(0, true, m)) == Campaigning1(n, m)
  {
    assert {n} * {n, m} == {n} && ({n} + {m}) * {n, m} == {n, m} && {n} + {m} == {n, m} && |{n, m}| == 2;
  }

  ghost predicate Pair(c: Cluster, a: NodeId, b: NodeId, sa: NodeState, sb: NodeState) {
    c.voters == {a, b} && c.nodes == map[a := sa, b := sb]
  }

  lemma {:induction false} TimerFires(c: Cluster, a: NodeId, b: NodeId, sb: NodeState) returns (c': Cluster)
    requires a != b && Pair(c, a, b, FreshNode, sb)
    ensures Follows(c, c') && Pair(c', a, b, Probing0(a), sb) && c.net <= c'.net && VoteCall(b, Probe(a)) in c'.net
  {
    ProbeGranted(a, b);
    assert b in Config(a, {a, b}).Peers();
    assert Enabled(c, Timeout(a));
    c' := Do(c, Timeout(a));
  }

  lemma {:induction false} ProbeAnswered(c: Cluster, a: NodeId, b: NodeId) returns (c': Cluster)
    requires a != b && Pair(c, a, b, Probing0(a), Probing0(b)) && VoteCall(b, Probe(a)) in c.net
    ensures Follows(c, c') && Pair(c', a, b, Probing0(a), Probing0(b)) && c.net <= c'.net
    ensures VoteReturn(Probe(a), VoteResponse(0, true, b)) in c'.net
  {
    assert {a, b} == {b, a};
    ProbeGranted(b, a);
    var step := RecvVote(VoteCall(b, Probe(a)), false);
    assert Enabled(c, step);
    c' := Do(c, step);
  }

  lemma {:induction false} AnswerHeard(c: Cluster, a: NodeId, b: NodeId, sb: NodeState) returns (c': Cluster)
    requires a != b && Pair(c, a, b, Probing0(a), sb) && VoteReturn(Probe(a), VoteResponse(0, true, b)) in c.net
    ensures Follows(c, c') && Pair(c', a, b, Campaigning1(a, b), sb) && c.net <= c'.net
  {
    ProbeGranted(a, b);
    var step := RecvVoteReply(VoteReturn(Probe(a), VoteResponse(0, true, b)));
    assert Enabled(c, step);
    c' := Do(c, step);
  }

  lemma {:induction false} Swap(c: Cluster, a: NodeId, b: NodeId, sa: NodeState, sb: NodeState)
    requires a != b && Pair(c, a, b, sa, sb)
    ensures Pair(c, b, a, sb, sa)
  {
  }

  lemma {:induction false} RunNext(run: seq<Cluster>, c: Cluster)
    requires IsRun(run) && Follows(run[|run| - 1], c)
    ensures IsRun(run + [c])
  {
    var longer := run + [c];
    forall i | 0 <= i < |longer| - 1 ensures Follows(longer[i], longer[i + 1]) {
      if i < |run| - 1 { assert longer[i] == run[i] && longer[i + 1] == run[i + 1]; }
    }
  }

  lemma {:induction false} BothProbe(a: NodeId, b: NodeId) returns (run: seq<Cluster>)
    requires a != b
    ensures IsRun(run) && run[0].voters == {a, b}
    ensures var c := run[|run| - 1];
            Pair(c, b, a, Probing0(b), Probing0(a)) && VoteCall(b, Probe(a)) in c.net && VoteCall(a, Probe(b)) in c.net
  {
    var voters := {a, b};
    var c0 := Cluster(voters, map n | n in voters :: FreshNode, {}, {}, History(map[], map[], {}, {}));
    assert c0.nodes == map[a := FreshNode, b := FreshNode];
    assert IsRun([c0]);
    var c1 := TimerFires(c0, a, b, FreshNode);
    RunNext([c0], c1);
    Swap(c1, a, b, Probing0(a), FreshNode);
    var c2 := TimerFires(c1, b, a, Probing0(a));
    run := [c0] + [c1];
    RunNext(run, c2);
    run := run + [c2];
  }

  lemma {:induction false} BothAnswer(run: seq<Cluster>, a: NodeId, b: NodeId) returns (longer: seq<Cluster>)
    requires IsRun(run) && a != b
    requires var c := run[|run| - 1];
             Pair(c, b, a, Probing0(b), Probing0(a)) && VoteCall(b, Probe(a)) in c.net && VoteCall(a, Probe(b)) in c.net
    ensures IsRun(longer) && longer[0] == run[0]
    ensures var c := longer[|longer| - 1];
            && Pair(c, a, b, Probing0(a), Probing0(b)) && VoteReturn(Probe(a), VoteResponse(0, true, b)) in c.net
            && VoteReturn(Probe(b), VoteResponse(0, true, a)) in c.net
  {
    var c3 := ProbeAnswered(run[|run| - 1], b, a);
    RunNext(run, c3);
    Swap(c3, b, a, Probing0(b), Probing0(a));
    var c4 := ProbeAnswered(c3, a, b);
    longer := run + [c3];
    RunNext(longer, c4);
    longer := longer + [c4];
  }

  lemma {:induction false} BothCampaign(run: seq<Cluster>, a: NodeId, b: NodeId) returns (longer: seq<Cluster>)
    requires IsRun(run) && a != b
    requires var c := run[|run| - 1];
             && Pair(c, a, b, Probing0(a), Probing0(b)) && VoteReturn(Probe(a), VoteResponse(0, true, b)) in c.net
             && VoteReturn(Probe(b), VoteResponse(0, true, a)) in c.net
    ensures IsRun(longer) && longer[0] == run[0] && Pair(longer[|longer| - 1], b, a, Campaigning1(b, a), Campaigning1(a, b))
  {
    var c5 := AnswerHeard(run[|run| - 1], a, b, Probing0(b));
    RunNext(run, c5);
    Swap(c5, a, b, Campaigning1(a, b), Probing0(b));
    var c6 := AnswerHeard(c5, b, a, Campaigning1(a, b));
    longer := run + [c5];
    RunNext(longer, c6);
    longer := longer + [c6];
  }

  lemma {:induction false} PairIsEven(c: Cluster, a: NodeId, b: NodeId)
    requires a != b && Pair(c, b, a, Campaigning1(b, a), Campaigning1(a, b))
    ensures Even(c) && AllCampaign(c)
  {
  }

  lemma {:induction false} TwoVoters(run: seq<Cluster>, a: NodeId, b: NodeId)
    requires IsRun(run) && a != b && run[0].voters == {a, b} && Even(run[|run| - 1]) && AllCampaign(run[|run| - 1])
    ensures !exists longer, n :: ElectsNext(run, longer, n)
  {
    assert |{a, b}| == 2;
    ElectableIff(run);
  }

  /** An input: two replicas whose timers fire before either hears from the other both win the pre-vote and campaign in term 1,
      and no continuation without a crash has a leader. */
  lemma {:induction false} SplitVote(a: NodeId, b: NodeId) returns (run: seq<Cluster>)
    requires a != b
    ensures IsRun(run) && run[0].voters == {a, b} && AllCampaign(run[|run| - 1])
    ensures !exists longer, n :: ElectsNext(run, longer, n)
  {
    run := BothProbe(a, b);
    run := BothAnswer(run, a, b);
    run := BothCampaign(run, a, b);
    PairIsEven(run[|run| - 1], a, b);
    TwoVoters(run, a, b);
  }
}
