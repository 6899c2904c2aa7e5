/** What a majority of a Raft group can bring about: from whatever state a run has led to, replicas of any majority that talk
    to each other can elect a leader and get a command applied on all of them. */
module RaftProgress {
  import opened Commands
  import opened RaftNode
  import opened RaftCluster
  import opened RaftInvariant
  import opened RaftMonotone
  import opened RaftReplication
  import opened RaftSafety

  // ---- what a set of replicas can reach --------------------------------------------------------------------

  predicate IsCrash(step: Step) { step.Restart? || step.TornVote? || step.TornAppend? }

  /** One step of a replica in `q`; a crash only if `crash` allows it. */
  ghost predicate Moves(q: set<NodeId>, crash: bool, c: Cluster, c': Cluster) {
    exists step :: Enabled(c, step) && Actor(step) in q && (IsCrash(step) ==> crash) && c' == Do(c, step)
  }

  ghost predicate Path(q: set<NodeId>, crash: bool, path: seq<Cluster>) {
    |path| > 0 && forall i :: 0 <= i < |path| - 1 ==> Moves(q, crash, path[i], path[i + 1])
  }

  ghost predicate Reaches(q: set<NodeId>, crash: bool, c: Cluster, c': Cluster) {
    exists path :: Path(q, crash, path) && path[0] == c && path[|path| - 1] == c'
  }

  lemma {:induction false} ReachesOn(q: set<NodeId>, crash: bool, c: Cluster, c1: Cluster, c2: Cluster)
    requires Reaches(q, crash, c, c1) && Reaches(q, crash, c1, c2)
    ensures Reaches(q, crash, c, c2)
  {
    var a :| Path(q, crash, a) && a[0] == c && a[|a| - 1] == c1;
    var b :| Path(q, crash, b) && b[0] == c1 && b[|b| - 1] == c2;
    var path := a + b[1..];
    forall i | 0 <= i < |path| - 1 ensures Moves(q, crash, path[i], path[i + 1]) {
      if i < |a| - 1 {
        assert path[i] == a[i] && path[i + 1] == a[i + 1];
      } else {
        assert path[i] == b[i - (|a| - 1)] && path[i + 1] == b[i - (|a| - 1) + 1];
      }
    }
    assert Path(q, crash, path) && path[0] == c && path[|path| - 1] == c2;
  }

  lemma {:induction false} ReachesSelf(q: set<NodeId>, crash: bool, c: Cluster)
    ensures Reaches(q, crash, c, c)
  {
    assert Path(q, crash, [c]) && [c][0] == c;
  }

  lemma {:induction false} ReachesNext(q: set<NodeId>, crash: bool, c: Cluster, step: Step)
    requires Inv(c) && Enabled(c, step) && Actor(step) in q && (IsCrash(step) ==> crash)
    ensures Leads(q, crash, c, Do(c, step))
  {
    var c' := Do(c, step);
    StepHolds(c, step);
    StepHanded(c, step);
    assert Moves(q, crash, c, c');
    var path := [c, c'];
    assert Path(q, crash, path) && path[0] == c && path[|path| - 1] == c';
  }

  /** Everything the replica knows to be committed has been applied. */
  ghost predicate Level(s: NodeState) { s.lastApplied == s.commitIndex }

  ghost predicate Handed(c: Cluster) { forall n {:trigger HandedAt(c, n)} :: n in c.nodes ==> HandedAt(c, n) }

  ghost predicate HandedAt(c: Cluster, n: NodeId) { n in c.nodes && Level(c.nodes[n]) }

  /** A request never leaves a committed entry unapplied. */
  lemma {:induction false} AppendApplies(cfg: Config, s: NodeState, req: AppendRequest)
    requires Level(s)
    ensures HandleAppend(cfg, s, req).0.lastApplied >= HandleAppend(cfg, s, req).0.commitIndex
  {
  }

  lemma {:induction false} ReplyLevel(cfg: Config, s: NodeState, peer: NodeId, r: AppendResponse)
    requires Level(s)
    ensures Level(HandleAppendReply(cfg, s, peer, r))
  {
  }

  lemma {:induction false} ActorLevel(c: Cluster, step: Step)
    requires Inv(c) && Enabled(c, step) && Actor(step) in c.nodes && Actor(step) in Do(c, step).nodes && Level(c.nodes[Actor(step)])
    ensures Level(Do(c, step).nodes[Actor(step)])
  {
    var c' := Do(c, step);
    match step
    case RecvAppend(p) =>
      AppendApplies(Config(p.dst, c.voters), c.nodes[p.dst], p.areq);
      StepHolds(c, step);
      assert NodeOk(c'.voters, c'.hist, p.dst, c'.nodes[p.dst]);
    case RecvAppendReply(p) => ReplyLevel(Config(p.leader, c.voters), c.nodes[p.leader], p.aresp.follower, p.aresp);
    case _ =>
  }

  lemma {:induction false} StepHanded(c: Cluster, step: Step)
    requires Inv(c) && Enabled(c, step)
    ensures Handed(c) ==> Handed(Do(c, step))
  {
    var c' := Do(c, step);
    StepIsUpdate(c, step);
    if Handed(c) {
      assert HandedAt(c, Actor(step));
      ActorLevel(c, step);
      forall n | n in c'.nodes ensures HandedAt(c', n) {
        assert HandedAt(c, n);
      }
    }
  }

  /** A state `q` can bring about from `c`, in which what always holds still holds. */
  ghost predicate Leads(q: set<NodeId>, crash: bool, c: Cluster, c': Cluster) {
    Inv(c) && Inv(c') && (Handed(c) ==> Handed(c')) && c'.voters == c.voters && Reaches(q, crash, c, c')
  }

  lemma {:induction false} LeadsOn(q: set<NodeId>, crash: bool, c: Cluster, c1: Cluster, c2: Cluster)
    requires Leads(q, crash, c, c1) && Leads(q, crash, c1, c2)
    ensures Leads(q, crash, c, c2)
  {
    ReachesOn(q, crash, c, c1, c2);
  }

  // ---- single steps and rounds -------------------------------------------------------------------------------

  lemma {:induction false} Restarts(q: set<NodeId>, crash: bool, c: Cluster, n: NodeId) returns (c': Cluster)
    requires Inv(c) && n in q && n in c.nodes && crash
    ensures Leads(q, crash, c, c') && c'.nodes == c.nodes[n := Restarted(c.nodes[n])]
  {
    c' := Do(c, Restart(n));
    ReachesNext(q, crash, c, Restart(n));
  }

  lemma {:induction false} OneIsNoMajority(voters: set<NodeId>, n: NodeId)
    requires |voters| >= 2
    ensures |{n} * voters| < Config(n, voters).Majority()
  {
    SubsetSize({n} * voters, {n});
  }

  /** The timer of a follower fires in a group of more than one. */
  lemma {:induction false} Probes(q: set<NodeId>, crash: bool, c: Cluster, n: NodeId) returns (c': Cluster)
    requires Inv(c) && n in q && n in c.nodes && c.nodes[n].role.Follower? && |c.voters| >= 2
    ensures Leads(q, crash, c, c') && c'.nodes == c.nodes[n := c.nodes[n].(preVoteTerm := c.nodes[n].term + 1, preVotes := {n})]
    ensures forall m :: m in c.voters && m != n ==>
              VoteCall(m, VoteRequestOf(Config(n, c.voters), c.nodes[n], true, c.nodes[n].term + 1)) in c'.net
  {
    c' := Do(c, Timeout(n));
    ReachesNext(q, crash, c, Timeout(n));
    OneIsNoMajority(c.voters, n);
  }

  /** A vote call that is on its way is delivered, and then its answer. */
  lemma {:induction false} VoteRound(q: set<NodeId>, crash: bool, c: Cluster, m: NodeId, req: VoteRequest) returns (c': Cluster)
    requires Inv(c) && m in q && req.candidate in q && m in c.nodes && req.candidate in c.nodes && m != req.candidate
    requires VoteCall(m, req) in c.net
    ensures Leads(q, crash, c, c') && c.net <= c'.net
    ensures var (s, r) := HandleVote(Config(m, c.voters), c.nodes[m], req, false);
            var n, cfg := req.candidate, Config(req.candidate, c.voters);
            var t := if req.preVote then HandlePreVoteReply(cfg, c.nodes[n], r) else HandleVoteReply(cfg, c.nodes[n], r);
            && c'.nodes == c.nodes[m := s][n := t]
            && (req.preVote ==> CampaignCalls(cfg, c.nodes[n], t) <= c'.net)
  {
    var call := VoteCall(m, req);
    var r := HandleVote(Config(m, c.voters), c.nodes[m], req, false).1;
    var c1 := Do(c, RecvVote(call, false));
    ReachesNext(q, crash, c, RecvVote(call, false));
    c' := Do(c1, RecvVoteReply(VoteReturn(req, r)));
    ReachesNext(q, crash, c1, RecvVoteReply(VoteReturn(req, r)));
    LeadsOn(q, crash, c, c1, c');
  }

  /** A leader's request is sent and answered. */
  lemma {:induction false} AppendAsked(q: set<NodeId>, crash: bool, c: Cluster, n: NodeId, m: NodeId) returns (c': Cluster)
    requires Inv(c) && n in q && m in q && n in c.nodes && m in c.nodes && n != m && c.nodes[n].role.Leader?
    ensures Leads(q, crash, c, c')
    ensures var (s, r) := HandleAppend(Config(m, c.voters), c.nodes[m], ReplicateTo(Config(n, c.voters), c.nodes[n], m));
            c'.nodes == c.nodes[m := s] && AppendReturn(n, c.nodes[n].term, r) in c'.net && r.follower == m
  {
    var call := AppendCall(m, ReplicateTo(Config(n, c.voters), c.nodes[n], m));
    var c1 := Do(c, SendAppend(n, m));
    assert m in c.voters by { assert NodeOk(c.voters, c.hist, m, c.nodes[m]); }
    ReachesNext(q, crash, c, SendAppend(n, m));
    assert c1.nodes == c.nodes;
    c' := Do(c1, RecvAppend(call));
    ReachesNext(q, crash, c1, RecvAppend(call));
    LeadsOn(q, crash, c, c1, c');
  }

  /** A leader's request is sent, answered, and the answer delivered. */
  lemma {:induction false} AppendRound(q: set<NodeId>, crash: bool, c: Cluster, n: NodeId, m: NodeId) returns (c': Cluster)
    requires Inv(c) && n in q && m in q && n in c.nodes && m in c.nodes && n != m && c.nodes[n].role.Leader?
    ensures Leads(q, crash, c, c')
    ensures var (s, r) := HandleAppend(Config(m, c.voters), c.nodes[m], ReplicateTo(Config(n, c.voters), c.nodes[n], m));
            c'.nodes == c.nodes[m := s][n := HandleAppendReply(Config(n, c.voters), c.nodes[n], m, r)]
  {
    var r := HandleAppend(Config(m, c.voters), c.nodes[m], ReplicateTo(Config(n, c.voters), c.nodes[n], m)).1;
    var c1 := AppendAsked(q, crash, c, n, m);
    var back := AppendReturn(n, c.nodes[n].term, r);
    c' := Do(c1, RecvAppendReply(back));
    ReachesNext(q, crash, c1, RecvAppendReply(back));
    LeadsOn(q, crash, c, c1, c');
  }

  lemma {:induction false} TakesCommand(q: set<NodeId>, crash: bool, c: Cluster, n: NodeId, command: Command) returns (c': Cluster)
    requires Inv(c) && n in q && n in c.nodes && c.nodes[n].role.Leader?
    ensures Leads(q, crash, c, c') && c'.nodes == c.nodes[n := Propose(c.nodes[n], command).0]
  {
    c' := Do(c, ClientPropose(n, command));
    ReachesNext(q, crash, c, ClientPropose(n, command));
  }

  // ---- an election ---------------------------------------------------------------------------------------------

  ghost predicate Quorum(c: Cluster, q: set<NodeId>) { q <= c.voters && q <= c.nodes.Keys && |q| >= |c.voters| / 2 + 1 && |c.voters| >= 2 }

  predicate NotBehind(a: seq<Entry>, b: seq<Entry>) { UpToDate(LastTerm(a), |a|, b) }

  lemma {:induction false} RestartAll(q: set<NodeId>, crash: bool, c: Cluster, todo: set<NodeId>) returns (c': Cluster)
    requires Inv(c) && todo <= q && todo <= c.nodes.Keys && crash
    ensures Leads(q, crash, c, c') && c'.nodes.Keys == c.nodes.Keys
    ensures forall m :: m in c.nodes ==> c'.nodes[m] == if m in todo then Restarted(c.nodes[m]) else c.nodes[m]
    decreases |todo|
  {
    if todo == {} {
      c' := c;
      ReachesSelf(q, crash, c);
    } else {
      var m :| m in todo;
      var c1 := Restarts(q, crash, c, m);
      c' := RestartAll(q, crash, c1, todo - {m});
      LeadsOn(q, crash, c, c1, c');
    }
  }

  lemma {:induction false} Freshest(c: Cluster, q: set<NodeId>) returns (n: NodeId)
    requires q != {} && q <= c.nodes.Keys
    ensures n in q && forall m :: m in q ==> NotBehind(c.nodes[n].log, c.nodes[m].log)
    decreases |q|
  {
    var x :| x in q;
    n := x;
    if q != {x} {
      var rest := q - {x};
      assert q == rest + {x};
      n := Freshest(c, rest);
      if !NotBehind(c.nodes[n].log, c.nodes[x].log) { n := x; }
    }
  }

  lemma {:induction false} Highest(c: Cluster, q: set<NodeId>) returns (n: NodeId)
    requires q != {} && q <= c.nodes.Keys
    ensures n in q && forall m :: m in q ==> c.nodes[m].term <= c.nodes[n].term
    decreases |q|
  {
    var x :| x in q;
    n := x;
    if q != {x} {
      var rest := q - {x};
      assert q == rest + {x};
      n := Highest(c, rest);
      if c.nodes[n].term < c.nodes[x].term { n := x; }
    }
  }

  lemma {:induction false} ProbeTells(cfg: Config, s: NodeState, peer: Config, u: NodeState)
    requires s.role.Follower? && s.term < u.term
    ensures var (u', r) := HandleVote(peer, u, VoteRequestOf(cfg, s, true, s.term + 1), false);
            var probing := s.(preVoteTerm := s.term + 1, preVotes := {cfg.id});
            u' == u && HandlePreVoteReply(cfg, probing, r) == BecomeFollower(probing, u.term)
  {
  }

  lemma {:induction false} Overwritten<K, V>(a: map<K, V>, n: K, x: V, m: K, y: V)
    requires m in a && m != n
    ensures a[n := x][m := a[m]][n := y] == a[n := y]
  {
  }

  /** The answer to a probe tells a follower of a newer term. */
  lemma {:induction false} CatchUp(q: set<NodeId>, crash: bool, c: Cluster, n: NodeId, m: NodeId) returns (c': Cluster)
    requires Inv(c) && Quorum(c, q) && n in q && m in q && c.nodes[n].role.Follower? && c.nodes[n].term < c.nodes[m].term
    ensures Leads(q, crash, c, c')
    ensures var probing := c.nodes[n].(preVoteTerm := c.nodes[n].term + 1, preVotes := {n});
            c'.nodes == c.nodes[n := BecomeFollower(probing, c.nodes[m].term)]
  {
    var c1 := Probes(q, crash, c, n);
    c' := VoteRound(q, crash, c1, m, VoteRequestOf(Config(n, c.voters), c.nodes[n], true, c.nodes[n].term + 1));
    ProbeTells(Config(n, c.voters), c.nodes[n], Config(m, c.voters), c.nodes[m]);
    Overwritten(c.nodes, n, c1.nodes[n], m, c'.nodes[n]);
    LeadsOn(q, crash, c, c1, c');
  }

  /** `n` may become the leader of `q`: nobody in it is a leader or has a newer term or log. */
  ghost predicate Favoured(c: Cluster, q: set<NodeId>, n: NodeId) {
    && n in q && Quorum(c, q) && c.nodes[n].role.Follower?
    && forall m :: m in q ==> !c.nodes[m].role.Leader? && c.nodes[m].term <= c.nodes[n].term && NotBehind(c.nodes[n].log, c.nodes[m].log)
  }

  lemma {:induction false} FavourFollower(q: set<NodeId>, crash: bool, c: Cluster) returns (c': Cluster, n: NodeId)
    requires Inv(c) && Quorum(c, q) && forall m :: m in q ==> c.nodes[m].role.Follower?
    ensures Leads(q, crash, c, c') && Favoured(c', q, n)
  {
    n := Freshest(c, q);
    var m := Highest(c, q);
    if c.nodes[n].term < c.nodes[m].term {
      c' := CatchUp(q, crash, c, n, m);
    } else {
      c' := c;
      ReachesSelf(q, crash, c);
    }
  }

  /** What `n` relies on while it collects pre-votes from `q`. */
  ghost predicate Probing(c: Cluster, q: set<NodeId>, n: NodeId) {
    && Favoured(c, q, n)
    && var s := c.nodes[n];
    && s.preVoteTerm == s.term + 1 && n in s.preVotes && |s.preVotes * c.voters| < Config(n, c.voters).Majority()
    && forall m :: m in q && m != n ==> VoteCall(m, VoteRequestOf(Config(n, c.voters), s, true, s.term + 1)) in c.net
  }

  /** What `n` relies on while it collects votes from `q`. */
  ghost predicate Campaigning(c: Cluster, q: set<NodeId>, n: NodeId) {
    && n in q && Quorum(c, q)
    && var s := c.nodes[n];
    && s.role.Candidate? && |s.votes * c.voters| < Config(n, c.voters).Majority() && n in s.votes
    && (forall m :: m in q ==> c.nodes[m].term <= s.term)
    && (forall m :: m in q && m != n ==> VoteCall(m, VoteRequestOf(Config(n, c.voters), s, false, s.term)) in c.net)
    && (forall m :: m in q && m !in s.votes ==> c.nodes[m].term < s.term && NotBehind(s.log, c.nodes[m].log))
  }

  ghost predicate Leading(c: Cluster, q: set<NodeId>, n: NodeId) {
    && n in q && Quorum(c, q) && c.nodes[n].role.Leader?
    && forall m :: m in q ==> c.nodes[m].term <= c.nodes[n].term
  }

  lemma {:induction false} NotAllIn(c: Cluster, q: set<NodeId>, a: set<NodeId>) returns (m: NodeId)
    requires Quorum(c, q) && |a * c.voters| < |c.voters| / 2 + 1
    ensures m in q && m !in a
  {
    if q <= a {
      SubsetSize(q, a * c.voters);
      assert false;
    }
    m :| m in q && m !in a;
  }

  lemma {:induction false} FewerLeft(q: set<NodeId>, a: set<NodeId>, m: NodeId)
    requires m in q && m !in a
    ensures |q - (a + {m})| < |q - a|
  {
    assert q - a == (q - (a + {m})) + {m};
  }

  /** A pre-vote is granted and counted. */
  lemma {:induction false} PreVoteCounts(c: Cluster, q: set<NodeId>, n: NodeId, m: NodeId)
    requires Probing(c, q, n) && m in q && m != n
    ensures var s := c.nodes[n];
            var (s', r) := HandleVote(Config(m, c.voters), c.nodes[m], VoteRequestOf(Config(n, c.voters), s, true, s.term + 1), false);
            var t := s.(preVotes := s.preVotes + {m});
            && s' == c.nodes[m]
            && HandlePreVoteReply(Config(n, c.voters), s, r) ==
               if |t.preVotes * c.voters| >= |c.voters| / 2 + 1 then StartElection(Config(n, c.voters), t) else t
  {
    assert !c.nodes[m].role.Leader?;
  }

  lemma {:induction false} StillProbing(c: Cluster, c': Cluster, q: set<NodeId>, n: NodeId, m: NodeId)
    requires Probing(c, q, n) && c'.voters == c.voters && c.net <= c'.net
    requires var s := c.nodes[n]; c'.nodes == c.nodes[n := s.(preVotes := s.preVotes + {m})]
    requires |c'.nodes[n].preVotes * c.voters| < |c.voters| / 2 + 1
    ensures Probing(c', q, n)
  {
    var cfg := Config(n, c.voters);
    assert VoteRequestOf(cfg, c'.nodes[n], true, c'.nodes[n].term + 1) == VoteRequestOf(cfg, c.nodes[n], true, c.nodes[n].term + 1);
  }

  lemma {:induction false} NowCampaigning(c: Cluster, c': Cluster, q: set<NodeId>, n: NodeId, m: NodeId)
    requires Probing(c, q, n) && c'.voters == c.voters
    requires var s := c.nodes[n];
             && c'.nodes == c.nodes[n := StartElection(Config(n, c.voters), s.(preVotes := s.preVotes + {m}))]
             && CampaignCalls(Config(n, c.voters), s, c'.nodes[n]) <= c'.net
    ensures Campaigning(c', q, n)
  {
    var cfg, s := Config(n, c.voters), c'.nodes[n];
    OneIsNoMajority(c.voters, n);
    forall x | x in q && x != n ensures VoteCall(x, VoteRequestOf(cfg, s, false, s.term)) in c'.net {
      assert x in cfg.Peers() && VoteCall(x, VoteRequestOf(cfg, s, false, s.term)) in CampaignCalls(cfg, c.nodes[n], s);
    }
  }

  lemma {:induction false} NextPreVote(q: set<NodeId>, crash: bool, c: Cluster, n: NodeId, m: NodeId) returns (c': Cluster)
    requires Inv(c) && Probing(c, q, n) && m in q && m !in c.nodes[n].preVotes
    ensures Leads(q, crash, c, c')
    ensures Campaigning(c', q, n) || (Probing(c', q, n) && c'.nodes[n].preVotes == c.nodes[n].preVotes + {m})
  {
    var s := c.nodes[n];
    PreVoteCounts(c, q, n, m);
    c' := VoteRound(q, crash, c, m, VoteRequestOf(Config(n, c.voters), s, true, s.term + 1));
    assert c.nodes[m := c.nodes[m]] == c.nodes;
    if |(s.preVotes + {m}) * c.voters| >= |c.voters| / 2 + 1 {
      NowCampaigning(c, c', q, n, m);
    } else {
      StillProbing(c, c', q, n, m);
    }
  }

  lemma {:induction false} CollectPreVotes(q: set<NodeId>, crash: bool, c: Cluster, n: NodeId) returns (c': Cluster)
    requires Inv(c) && Probing(c, q, n)
    ensures Leads(q, crash, c, c') && Campaigning(c', q, n)
    decreases |q - c.nodes[n].preVotes|
  {
    var m := NotAllIn(c, q, c.nodes[n].preVotes);
    c' := NextPreVote(q, crash, c, n, m);
    if !Campaigning(c', q, n) {
      FewerLeft(q, c.nodes[n].preVotes, m);
      var c1 := c';
      c' := CollectPreVotes(q, crash, c1, n);
      LeadsOn(q, crash, c, c1, c');
    }
  }

  /** A vote is granted and counted. */
  lemma {:induction false} VoteCounts(c: Cluster, q: set<NodeId>, n: NodeId, m: NodeId)
    requires Campaigning(c, q, n) && m in q && m !in c.nodes[n].votes
    ensures var s := c.nodes[n];
            var (s', r) := HandleVote(Config(m, c.voters), c.nodes[m], VoteRequestOf(Config(n, c.voters), s, false, s.term), false);
            var t := s.(votes := s.votes + {m});
            && s' == c.nodes[m].(role := Follower, term := s.term, votedFor := Some(n))
            && HandleVoteReply(Config(n, c.voters), s, r) ==
               if |t.votes * c.voters| >= |c.voters| / 2 + 1 then BecomeLeader(Config(n, c.voters), t) else t
  {
  }

  ghost predicate Voted(c: Cluster, c': Cluster, n: NodeId, m: NodeId, t: NodeState)
    requires n in c.nodes && m in c.nodes
  {
    && c'.voters == c.voters && c.net <= c'.net
    && c'.nodes == c.nodes[m := c.nodes[m].(role := Follower, term := c.nodes[n].term, votedFor := Some(n))][n := t]
  }

  lemma {:induction false} StillCampaigning(c: Cluster, c': Cluster, q: set<NodeId>, n: NodeId, m: NodeId)
    requires Campaigning(c, q, n) && m in q && m != n
    requires var s := c.nodes[n]; Voted(c, c', n, m, s.(votes := s.votes + {m}))
    requires |c'.nodes[n].votes * c.voters| < |c.voters| / 2 + 1
    ensures Campaigning(c', q, n)
  {
    var cfg := Config(n, c.voters);
    assert VoteRequestOf(cfg, c'.nodes[n], false, c'.nodes[n].term) == VoteRequestOf(cfg, c.nodes[n], false, c.nodes[n].term);
  }

  lemma {:induction false} NowLeading(c: Cluster, c': Cluster, q: set<NodeId>, n: NodeId, m: NodeId)
    requires Campaigning(c, q, n) && m in q && m != n
    requires var s := c.nodes[n]; Voted(c, c', n, m, BecomeLeader(Config(n, c.voters), s.(votes := s.votes + {m})))
    ensures Leading(c', q, n)
  {
  }

  lemma {:induction false} NextVote(q: set<NodeId>, crash: bool, c: Cluster, n: NodeId, m: NodeId) returns (c': Cluster)
    requires Inv(c) && Campaigning(c, q, n) && m in q && m !in c.nodes[n].votes
    ensures Leads(q, crash, c, c')
    ensures Leading(c', q, n) || (Campaigning(c', q, n) && c'.nodes[n].votes == c.nodes[n].votes + {m})
  {
    var s := c.nodes[n];
    VoteCounts(c, q, n, m);
    c' := VoteRound(q, crash, c, m, VoteRequestOf(Config(n, c.voters), s, false, s.term));
    if |(s.votes + {m}) * c.voters| >= |c.voters| / 2 + 1 {
      NowLeading(c, c', q, n, m);
    } else {
      StillCampaigning(c, c', q, n, m);
    }
  }

  lemma {:induction false} CollectVotes(q: set<NodeId>, crash: bool, c: Cluster, n: NodeId) returns (c': Cluster)
    requires Inv(c) && Campaigning(c, q, n)
    ensures Leads(q, crash, c, c') && Leading(c', q, n)
    decreases |q - c.nodes[n].votes|
  {
    var m := NotAllIn(c, q, c.nodes[n].votes);
    c' := NextVote(q, crash, c, n, m);
    if !Leading(c', q, n) {
      FewerLeft(q, c.nodes[n].votes, m);
      var c1 := c';
      c' := CollectVotes(q, crash, c1, n);
      LeadsOn(q, crash, c, c1, c');
    }
  }

  lemma {:induction false} ElectFavoured(q: set<NodeId>, crash: bool, c: Cluster, n: NodeId) returns (c': Cluster)
    requires Inv(c) && Favoured(c, q, n)
    ensures Leads(q, crash, c, c') && Leading(c', q, n)
  {
    var c1 := Probes(q, crash, c, n);
    OneIsNoMajority(c.voters, n);
    var c2 := CollectPreVotes(q, crash, c1, n);
    c' := CollectVotes(q, crash, c2, n);
    LeadsOn(q, crash, c, c1, c2);
    LeadsOn(q, crash, c, c2, c');
  }

  /** Any majority of a group of at least two can get one of its own elected. */
  lemma {:induction false} CanElect(q: set<NodeId>, c: Cluster) returns (c': Cluster, n: NodeId)
    requires Inv(c) && Quorum(c, q)
    ensures Leads(q, true, c, c') && Leading(c', q, n)
  {
    var c1 := RestartAll(q, true, c, q);
    var c2;
    c2, n := FavourFollower(q, true, c1);
    c' := ElectFavoured(q, true, c2, n);
    LeadsOn(q, true, c, c1, c2);
    LeadsOn(q, true, c, c2, c');
  }

  // ---- replication ---------------------------------------------------------------------------------------------

  function NextOf(s: NodeState, m: NodeId): Pos { if m in s.nextIndex then s.nextIndex[m] else 1 }

  /** What comes of a request of the leader: its whole log on the follower, and all that it knows to be committed applied;
      or a refusal that names an earlier place. */
  ghost predicate Answers(s: NodeState, m: NodeId, t: NodeState, r: AppendResponse) {
    && r.term == s.term && t.term == s.term
    && if r.success then r.matchIndex == |s.log| && t.log == s.log && t.lastApplied >= s.commitIndex
       else r.matchIndex + 1 < NextOf(s, m)
  }

  lemma {:induction false} AnswersWell(leader: Config, s: NodeState, follower: Config, u: NodeState)
    requires u.term <= s.term && u.lastApplied == u.commitIndex && s.commitIndex <= |s.log|
    requires var req := ReplicateTo(leader, s, follower.id);
             PrevMatches(Listening(u, req), req) ==> Merged(Listening(u, req), req).log == s.log
    ensures var (t, r) := HandleAppend(follower, u, ReplicateTo(leader, s, follower.id)); Answers(s, follower.id, t, r)
  {
  }

  lemma {:induction false} SendsAll(cfg: Config, s: NodeState, m: NodeId)
    requires NextOf(s, m) <= |s.log| + 1
    ensures ReplicateTo(cfg, s, m).prevIndex + |ReplicateTo(cfg, s, m).entries| == |s.log|
  {
  }

  /** A follower that accepts ends up with the leader's log. */
  lemma {:induction false} MergesAll(voters: set<NodeId>, h: History, n: NodeId, s: NodeState, m: NodeId, u: NodeState)
    requires HistOk(voters, h) && NodeOk(voters, h, n, s) && NodeOk(voters, h, m, u) && n != m && s.role.Leader? && u.term <= s.term
    ensures var req := ReplicateTo(Config(n, voters), s, m);
            PrevMatches(Listening(u, req), req) ==> Merged(Listening(u, req), req).log == s.log
  {
    var req := ReplicateTo(Config(n, voters), s, m);
    assert ReignOk(voters, h, s.term);
    ReplicateOk(voters, h, n, s, m);
    ListeningOk(voters, h, m, u, req);
    if PrevMatches(Listening(u, req), req) {
      MergedOk(voters, h, m, Listening(u, req), req);
      SendsAll(Config(n, voters), s, m);
    }
  }

  lemma {:induction false} AppendAnswers(c: Cluster, n: NodeId, m: NodeId)
    requires Inv(c) && n in c.nodes && m in c.nodes && m != n && c.nodes[n].role.Leader?
    requires c.nodes[m].term <= c.nodes[n].term && HandedAt(c, m)
    ensures var req := ReplicateTo(Config(n, c.voters), c.nodes[n], m);
            var (t, r) := HandleAppend(Config(m, c.voters), c.nodes[m], req);
            Answers(c.nodes[n], m, t, r)
  {
    assert NodeOk(c.voters, c.hist, n, c.nodes[n]) && NodeOk(c.voters, c.hist, m, c.nodes[m]);
    MergesAll(c.voters, c.hist, n, c.nodes[n], m, c.nodes[m]);
    AnswersWell(Config(n, c.voters), c.nodes[n], Config(m, c.voters), c.nodes[m]);
  }

  ghost predicate AllMatched(q: set<NodeId>, n: NodeId, s: NodeState) {
    forall x :: x in q && x != n ==> MatchOf(s, x) >= |s.log|
  }

  /** The leader's log and term are as before, and so is everything about replicas other than `m`. */
  ghost predicate Kept(n: NodeId, m: NodeId, s: NodeState, s': NodeState) {
    && s'.role == s.role && s'.term == s.term && s'.log == s.log && s.commitIndex <= s'.commitIndex
    && forall x :: x != m ==> MatchOf(s', x) == MatchOf(s, x)
  }

  lemma {:induction false} CommitAll(cfg: Config, s: NodeState, q: set<NodeId>)
    requires q <= cfg.voters && |q| >= cfg.Majority() && AllMatched(q, cfg.id, s)
    requires s.log != [] && LastTerm(s.log) == s.term && s.commitIndex <= |s.log|
    ensures CommitPoint(cfg, s, |s.log|) == |s.log|
  {
    assert q <= Holders(cfg, s, |s.log|);
    SubsetSize(q, Holders(cfg, s, |s.log|));
    if s.commitIndex < |s.log| { assert CanCommit(cfg, s, |s.log|); }
  }

  lemma {:induction false} LeaderHears(cfg: Config, s: NodeState, m: NodeId, t: NodeState, r: AppendResponse, q: set<NodeId>)
    requires s.role.Leader? && s.commitIndex <= |s.log| && s.log != [] && LastTerm(s.log) == s.term
    requires Answers(s, m, t, r) && q <= cfg.voters && |q| >= cfg.Majority()
    ensures var s' := HandleAppendReply(cfg, s, m, r);
            && Kept(cfg.id, m, s, s') && s'.commitIndex <= |s.log|
            && if r.success then MatchOf(s', m) == |s.log| && (AllMatched(q, cfg.id, s') ==> s'.commitIndex == |s.log|)
               else NextOf(s', m) < NextOf(s, m)
  {
    if r.success {
      var s1 := s.(matchIndex := s.matchIndex[m := r.matchIndex], nextIndex := s.nextIndex[m := r.matchIndex + 1]);
      if AllMatched(q, cfg.id, s1) { CommitAll(cfg, s1, q); }
    }
  }

  ghost predicate Synced(c: Cluster, n: NodeId, m: NodeId) {
    n in c.nodes && m in c.nodes && c.nodes[m].log == c.nodes[n].log && MatchOf(c.nodes[n], m) == |c.nodes[n].log|
  }

  /** `n` is still the leader with the same log, and only `m` may have changed besides it. */
  ghost predicate Onward(c: Cluster, c': Cluster, q: set<NodeId>, n: NodeId, m: NodeId) {
    && Leading(c, q, n) && Leading(c', q, n) && c'.nodes.Keys == c.nodes.Keys && Kept(n, m, c.nodes[n], c'.nodes[n])
    && forall x :: x in c.nodes && x != n && x != m ==> c'.nodes[x] == c.nodes[x]
  }

  /** `m` has caught up with the leader, and if all of `q` have, their common log is committed. */
  ghost predicate CaughtUp(c: Cluster, c': Cluster, q: set<NodeId>, n: NodeId, m: NodeId) {
    && Onward(c, c', q, n, m) && m in c.nodes
    && Synced(c', n, m) && c'.nodes[m].lastApplied >= c.nodes[n].commitIndex
    && (AllMatched(q, n, c'.nodes[n]) ==> c'.nodes[n].commitIndex == |c'.nodes[n].log|)
  }

  lemma {:induction false} SyncRound(q: set<NodeId>, crash: bool, c: Cluster, n: NodeId, m: NodeId) returns (c': Cluster)
    requires Inv(c) && Handed(c) && Leading(c, q, n) && m in q && m != n
    ensures Leads(q, crash, c, c') && Onward(c, c', q, n, m)
    ensures CaughtUp(c, c', q, n, m) || NextOf(c'.nodes[n], m) < NextOf(c.nodes[n], m)
  {
    var cfg, s := Config(n, c.voters), c.nodes[n];
    var (t, r) := HandleAppend(Config(m, c.voters), c.nodes[m], ReplicateTo(cfg, s, m));
    assert HandedAt(c, m);
    AppendAnswers(c, n, m);
    LeaderOwns(c, n);
    LeaderHears(cfg, s, m, t, r, q);
    c' := AppendRound(q, crash, c, n, m);
    RoundOutcome(c, c', q, n, m, t, r);
  }

  lemma {:induction false} LeaderOwns(c: Cluster, n: NodeId)
    requires Inv(c) && n in c.nodes && c.nodes[n].role.Leader?
    ensures var s := c.nodes[n]; s.log != [] && LastTerm(s.log) == s.term && s.commitIndex <= |s.log|
  {
    assert NodeOk(c.voters, c.hist, n, c.nodes[n]) && ReignOk(c.voters, c.hist, c.nodes[n].term);
  }

  lemma {:induction false} RoundOutcome(c: Cluster, c': Cluster, q: set<NodeId>, n: NodeId, m: NodeId, t: NodeState, r: AppendResponse)
    requires Leading(c, q, n) && m in q && m != n && c'.voters == c.voters
    requires c'.nodes == c.nodes[m := t][n := HandleAppendReply(Config(n, c.voters), c.nodes[n], m, r)]
    requires Answers(c.nodes[n], m, t, r)
    requires var s, s' := c.nodes[n], c'.nodes[n];
            && Kept(n, m, s, s')
            && if r.success then MatchOf(s', m) == |s.log| && (AllMatched(q, n, s') ==> s'.commitIndex == |s.log|)
               else NextOf(s', m) < NextOf(s, m)
    ensures Onward(c, c', q, n, m) && (CaughtUp(c, c', q, n, m) || NextOf(c'.nodes[n], m) < NextOf(c.nodes[n], m))
  {
  }

  lemma {:induction false} OnwardOn(c: Cluster, c1: Cluster, c2: Cluster, q: set<NodeId>, n: NodeId, m: NodeId)
    requires Onward(c, c1, q, n, m) && CaughtUp(c1, c2, q, n, m)
    ensures CaughtUp(c, c2, q, n, m)
  {
  }

  /** Round by round the leader finds where the logs part, and the follower takes the rest. */
  lemma {:induction false} SyncOne(q: set<NodeId>, crash: bool, c: Cluster, n: NodeId, m: NodeId) returns (c': Cluster)
    requires Inv(c) && Handed(c) && Leading(c, q, n) && m in q && m != n
    ensures Leads(q, crash, c, c') && CaughtUp(c, c', q, n, m)
    decreases NextOf(c.nodes[n], m)
  {
    c' := SyncRound(q, crash, c, n, m);
    if !CaughtUp(c, c', q, n, m) {
      var c1 := c';
      c' := SyncOne(q, crash, c1, n, m);
      OnwardOn(c, c1, c', q, n, m);
      LeadsOn(q, crash, c, c1, c');
    }
  }

  /** The replicas in `done` have caught up since `c`. */
  ghost predicate AllCaughtUp(c: Cluster, c': Cluster, q: set<NodeId>, n: NodeId, done: set<NodeId>) {
    && Leading(c, q, n) && Leading(c', q, n) && c'.nodes[n].log == c.nodes[n].log && c'.nodes[n].commitIndex >= c.nodes[n].commitIndex
    && (forall m :: m in done ==> Synced(c', n, m) && c'.nodes[m].lastApplied >= c.nodes[n].commitIndex)
    && (done != {} && AllMatched(q, n, c'.nodes[n]) ==> c'.nodes[n].commitIndex == |c'.nodes[n].log|)
  }

  lemma {:induction false} OneMore(c: Cluster, c1: Cluster, c2: Cluster, q: set<NodeId>, n: NodeId, done: set<NodeId>, m: NodeId)
    requires m in done && n !in done && AllCaughtUp(c, c1, q, n, done - {m}) && CaughtUp(c1, c2, q, n, m)
    ensures AllCaughtUp(c, c2, q, n, done)
  {
    forall x | x in done && x != m ensures Synced(c2, n, x) && c2.nodes[x].lastApplied >= c.nodes[n].commitIndex {
      assert x in done - {m} && Synced(c1, n, x) && c2.nodes[x] == c1.nodes[x];
    }
  }

  lemma {:induction false} SyncAll(q: set<NodeId>, crash: bool, c: Cluster, n: NodeId, done: set<NodeId>) returns (c': Cluster)
    requires Inv(c) && Handed(c) && Leading(c, q, n) && done <= q - {n}
    ensures Leads(q, crash, c, c') && AllCaughtUp(c, c', q, n, done)
    decreases |done|
  {
    if done == {} {
      c' := c;
      ReachesSelf(q, crash, c);
    } else {
      var m :| m in done;
      var c1 := SyncAll(q, crash, c, n, done - {m});
      c' := SyncOne(q, crash, c1, n, m);
      OneMore(c, c1, c', q, n, done, m);
      LeadsOn(q, crash, c, c1, c');
    }
  }

  // ---- main results ---------------------------------------------------------------------------------------------

  /** The command stands at `index` in the log of every replica in `q` and has been applied there. */
  ghost predicate AppliedOnAll(c: Cluster, q: set<NodeId>, index: nat, command: Command) {
    forall m :: m in q ==> m in c.nodes && 1 <= index <= c.nodes[m].lastApplied && index <= |c.nodes[m].log|
                           && c.nodes[m].log[index - 1].command == command
  }

  /** From every state of a group of at least two replicas, the replicas of any majority can get a command applied on all of
      them, whatever the others do not do. */
  lemma {:induction false} CanApply(q: set<NodeId>, c: Cluster, command: Command) returns (c': Cluster, index: nat)
    requires Inv(c) && Handed(c) && Quorum(c, q)
    ensures Leads(q, true, c, c') && AppliedOnAll(c', q, index, command)
  {
    var c1, n := CanElect(q, c);
    var c2 := TakesCommand(q, true, c1, n, command);
    index := |c2.nodes[n].log|;
    assert Leading(c2, q, n);
    var c3 := SyncAll(q, true, c2, n, q - {n});
    c' := SyncAll(q, true, c3, n, q - {n});
    LeadsOn(q, true, c, c1, c2);
    LeadsOn(q, true, c, c2, c3);
    LeadsOn(q, true, c, c3, c');
    TwoOrMore(c, q, n);
    AllSynced(c2, c3, c', q, n);
  }

  lemma {:induction false} TwoOrMore(c: Cluster, q: set<NodeId>, n: NodeId)
    requires Quorum(c, q)
    ensures q - {n} != {}
  {
    if q <= {n} { SubsetSize(q, {n}); }
  }

  lemma {:induction false} AllSynced(c: Cluster, c1: Cluster, c2: Cluster, q: set<NodeId>, n: NodeId)
    requires AllCaughtUp(c, c1, q, n, q - {n}) && AllCaughtUp(c1, c2, q, n, q - {n}) && q - {n} != {} && Handed(c2)
    ensures forall m :: m in q ==> m in c2.nodes && c2.nodes[m].log == c.nodes[n].log && c2.nodes[m].lastApplied >= |c.nodes[n].log|
  {
    assert HandedAt(c2, n);
    forall x | x in q && x != n ensures MatchOf(c1.nodes[n], x) >= |c1.nodes[n].log| {
      assert x in q - {n} && Synced(c1, n, x);
    }
    assert AllMatched(q, n, c1.nodes[n]);
    forall m | m in q ensures m in c2.nodes && c2.nodes[m].log == c.nodes[n].log && c2.nodes[m].lastApplied >= |c.nodes[n].log| {
      if m != n { assert m in q - {n} && Synced(c2, n, m); }
    }
  }

  /** `longer` is the run `run` with more steps, all of them by replicas in `q`. */
  ghost predicate Continues(q: set<NodeId>, crash: bool, run: seq<Cluster>, longer: seq<Cluster>) {
    && IsRun(longer) && 0 < |run| <= |longer| && longer[..|run|] == run
    && forall i :: |run| - 1 <= i < |longer| - 1 ==> Moves(q, crash, longer[i], longer[i + 1])
  }

  lemma {:induction false} RunOn(q: set<NodeId>, crash: bool, run: seq<Cluster>, c': Cluster) returns (longer: seq<Cluster>)
    requires IsRun(run) && Reaches(q, crash, run[|run| - 1], c')
    ensures Continues(q, crash, run, longer) && longer[|longer| - 1] == c'
  {
    var path :| Path(q, crash, path) && path[0] == run[|run| - 1] && path[|path| - 1] == c';
    longer := run + path[1..];
    forall i | |run| - 1 <= i < |longer| - 1 ensures Moves(q, crash, longer[i], longer[i + 1]) {
      assert longer[i] == path[i - (|run| - 1)] && longer[i + 1] == path[i - (|run| - 1) + 1];
    }
    forall i | 0 <= i < |longer| - 1 ensures Follows(longer[i], longer[i + 1]) {
      if i < |run| - 1 {
        assert longer[i] == run[i] && longer[i + 1] == run[i + 1];
      } else {
        assert Moves(q, crash, longer[i], longer[i + 1]);
      }
    }
  }

  lemma {:induction false} HandedOver(run: seq<Cluster>, q: set<NodeId>, index: nat, command: Command)
    requires IsRun(run) && AppliedOnAll(run[|run| - 1], q, index, command)
    ensures forall m :: m in q ==> (m, index, command) in run[|run| - 1].applied
  {
    var c := run[|run| - 1];
    EverythingApplied(run, |run| - 1);
    forall m | m in q ensures (m, index, command) in c.applied {
      assert NodeOk(c.voters, c.hist, m, c.nodes[m]);
      assert HasApplied(c, m, index);
    }
  }

  lemma {:induction false} QuorumLater(run: seq<Cluster>, q: set<NodeId>)
    requires IsRun(run) && q <= run[0].voters && |q| >= |run[0].voters| / 2 + 1 && |run[0].voters| >= 2
    ensures Inv(run[|run| - 1]) && Handed(run[|run| - 1]) && Quorum(run[|run| - 1], q)
  {
    RunHolds(run, 0, |run| - 1);
    AlwaysHanded(run, |run| - 1);
  }

  /** At every moment of every run a replica has applied all it knows to be committed. */
  lemma {:induction false} AlwaysHanded(run: seq<Cluster>, i: nat)
    requires IsRun(run) && i < |run|
    ensures Handed(run[i])
  {
    if i == 0 {
      assert forall n :: n in run[0].nodes ==> HandedAt(run[0], n);
    } else {
      AlwaysHanded(run, i - 1);
      RunHolds(run, i - 1, i - 1);
      FollowsHanded(run[i - 1], run[i]);
    }
  }

  lemma {:induction false} FollowsHanded(c: Cluster, c': Cluster)
    requires Inv(c) && Handed(c) && Follows(c, c')
    ensures Handed(c')
  {
    var step :| Enabled(c, step) && c' == Do(c, step);
    StepHanded(c, step);
  }

  /** No run leads a group of at least two replicas into a corner: it can be continued, by steps of any majority alone, so
      that all of this majority hand a given command to their state machines, at the same index. */
  lemma {:induction false} MajorityCanApply(run: seq<Cluster>, q: set<NodeId>, command: Command) returns (longer: seq<Cluster>, index: nat)
    requires IsRun(run) && q <= run[0].voters && |q| >= |run[0].voters| / 2 + 1 && |run[0].voters| >= 2
    ensures Continues(q, true, run, longer)
    ensures forall m :: m in q ==> (m, index, command) in longer[|longer| - 1].applied
  {
    QuorumLater(run, q);
    var c';
    c', index := CanApply(q, run[|run| - 1], command);
    longer := RunOn(q, true, run, c');
    HandedOver(longer, q, index, command);
  }

  // ---- groups of one ---------------------------------------------------------------------------------------------

  ghost predicate Alone(c: Cluster) {
    |c.voters| <= 1 && c.nodes.Keys == c.voters && c.net == {} && forall n :: n in c.nodes ==> !c.nodes[n].role.Leader?
  }

  lemma {:induction false} StaysAlone(c: Cluster, c': Cluster)
    requires Alone(c) && Follows(c, c')
    ensures Alone(c')
  {
    var step :| Enabled(c, step) && c' == Do(c, step);
    match step
    case Timeout(n) => NobodyToAsk(c, n);
    case Restart(n) =>
    case SendAppend(n, peer) => assert false;
    case _ => assert false;
  }

  lemma {:induction false} NobodyToAsk(c: Cluster, n: NodeId)
    requires Alone(c) && n in c.nodes
    ensures Alone(AfterTimeout(c, n))
  {
    if x :| x in c.voters - {n} { SubsetSize({n, x}, c.voters); }
    assert Config(n, c.voters).Peers() == {};
  }

  /** A group of one replica never has a leader: it votes for itself, but only somebody else's vote makes a leader. */
  lemma {:induction false} AloneNeverLeads(run: seq<Cluster>, i: nat)
    requires IsRun(run) && |run[0].voters| <= 1 && i < |run|
    ensures Alone(run[i])
  {
    if i > 0 {
      AloneNeverLeads(run, i - 1);
      StaysAlone(run[i - 1], run[i]);
    }
  }

  /** A run of the group `voters` that ends with `n` as a leader. */
  ghost predicate Elects(run: seq<Cluster>, voters: set<NodeId>, n: NodeId) {
    IsRun(run) && run[0].voters == voters && n in run[|run| - 1].nodes && run[|run| - 1].nodes[n].role.Leader?
  }

  /** A group can get a leader if and only if it has at least two replicas. */
  lemma {:induction false} LeaderIff(voters: set<NodeId>)
    ensures (exists run, n :: Elects(run, voters, n)) <==> |voters| >= 2
  {
    if run, n :| Elects(run, voters, n) {
      if |voters| < 2 { AloneNeverLeads(run, |run| - 1); }
    }
    if |voters| >= 2 {
      var c := Cluster(voters, map n | n in voters :: FreshNode, {}, {}, History(map[], map[], {}, {}));
      InitHolds(c);
      var c', n := CanElect(voters, c);
      assert IsRun([c]);
      var run := RunOn(voters, true, [c], c');
      assert run[0] == run[..1][0];
      assert Elects(run, voters, n);
    }
  }
}
