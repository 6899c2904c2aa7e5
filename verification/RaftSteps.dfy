/** Every step of a Raft group keeps the invariant. */
module RaftSteps {
  import opened Commands
  import opened RaftNode
  import opened RaftCluster
  import opened RaftInvariant
  import opened RaftMonotone
  import opened RaftHistory

  // ---- one replica moves, the rest stays ---------------------------------------------------------

  lemma {:induction false} NewlyAppliedDelivered(voters: set<NodeId>, h: History, n: NodeId, s: NodeState, s': NodeState)
    requires NodeOk(voters, h, n, s')
    ensures forall x, i, command :: (x, i, command) in NewlyApplied(n, s, s') ==> Delivered(voters, h, i, command)
  {
    forall x, i, command | (x, i, command) in NewlyApplied(n, s, s')
      ensures Delivered(voters, h, i, command)
    {
      var j := AppliedBetweenIn(s'.log, s.lastApplied, s'.lastApplied, (i, command));
      assert InReign(h, s'.log, j - 1);
      var t: nat, k: nat :| t <= s'.term && Committed(voters, h, t, k) && s'.log[..s'.commitIndex] <= Upto(h, t, k);
      assert s'.log[..s'.commitIndex][j - 1] == Upto(h, t, k)[j - 1];
    }
  }

  lemma {:induction false} AppliedBetweenIn(log: seq<Entry>, lo: nat, hi: nat, x: (nat, Command)) returns (j: nat)
    requires hi <= |log| && x in AppliedBetween(log, lo, hi)
    ensures 1 <= j <= hi && log[j - 1].index == x.0 && log[j - 1].command == x.1
    decreases hi
  {
    if x in AppliedBetween(log, lo, hi - 1) {
      j := AppliedBetweenIn(log, lo, hi - 1, x);
    } else {
      j := hi;
    }
  }

  /** Establishing the invariant after replica `n` moved takes only facts about `n` and what it sent. */
  lemma {:induction false} UpdateKeepsInv(c: Cluster, n: NodeId, s': NodeState, sent: set<Packet>, h': History)
    requires Inv(c) && n in c.nodes
    requires Extends(c.hist, h') && HistOk(c.voters, h')
    requires OnlyAbout(c.hist, h', n)
    requires NodeOk(c.voters, h', n, s')
    requires forall p :: p in sent ==> PacketOk(c.voters, h', p)
    ensures Inv(Update(c, n, s', sent, h')) && Extends(c.hist, h')
  {
    var c' := Update(c, n, s', sent, h');
    forall x | x in c'.nodes ensures NodeOk(c'.voters, c'.hist, x, c'.nodes[x]) {
      if x != n {
        assert NodeOk(c.voters, c.hist, x, c.nodes[x]) && SilentAbout(c.hist, h', x);
        NodeMono(c.voters, c.hist, h', x, c.nodes[x]);
      }
    }
    forall p | p in c'.net ensures PacketOk(c'.voters, c'.hist, p) {
      if p in c.net {
        assert PacketOk(c.voters, c.hist, p);
        PacketMono(c.voters, c.hist, h', p);
      }
    }
    NewlyAppliedDelivered(c.voters, h', n, c.nodes[n], s');
    forall x, i, command | (x, i, command) in c'.applied ensures Delivered(c'.voters, c'.hist, i, command) {
      if (x, i, command) in c.applied { DeliveredMono(c.voters, c.hist, h', i, command); }
    }
  }

  // ---- changes that leave the history alone -------------------------------------------------------

  lemma {:induction false} KeepsBound(h: History, v: NodeId, log: seq<Entry>, bound: int, bound': int)
    requires Keeps(h, v, log, bound) && bound <= bound'
    requires forall t, m :: (t, v, m) in h.acks ==> t <= bound
    ensures Keeps(h, v, log, bound')
  {
    forall t, m, k | (t, v, m) in h.acks && t <= bound' && k <= m && Point(h, t, k)
      ensures KeepsAt(h, v, log, bound', t, m, k)
    {
      assert KeepsAt(h, v, log, bound, t, m, k);
    }
  }

  lemma {:induction false} ExtendsSelf(h: History)
    ensures Extends(h, h) && forall n :: OnlyAbout(h, h, n)
  {
  }

  /** Moving to a later term as a follower without a vote. */
  lemma {:induction false} AdoptOk(voters: set<NodeId>, h: History, n: NodeId, s: NodeState, term: nat)
    requires NodeOk(voters, h, n, s) && term > s.term
    ensures NodeOk(voters, h, n, BecomeFollower(s, term))
  {
    KeepsBound(h, n, s.log, s.term, term);
    ExtendsSelf(h);
    CommittedLogMono(voters, h, h, s.log[..s.commitIndex], s.term, term);
  }

  /** A candidate that steps down in its own term forgets its vote for itself. */
  lemma {:induction false} StepDownOk(voters: set<NodeId>, h: History, n: NodeId, s: NodeState)
    requires NodeOk(voters, h, n, s) && s.role.Candidate?
    ensures NodeOk(voters, h, n, BecomeFollower(s, s.term))
  {
  }

  lemma {:induction false} RestartOk(voters: set<NodeId>, h: History, n: NodeId, s: NodeState)
    requires NodeOk(voters, h, n, s)
    ensures NodeOk(voters, h, n, Restarted(s))
  {
  }

  // ---- campaigns and votes ------------------------------------------------------------------------

  lemma {:induction false} CampaignNodeOk(voters: set<NodeId>, h: History, n: NodeId, s: NodeState, h': History)
    requires HistOk(voters, h) && NodeOk(voters, h, n, s)
    requires h' == h.(campaigns := h.campaigns[(s.term + 1, n) := s.log])
    ensures NodeOk(voters, h', n, StartElection(Config(n, voters), s))
  {
    HistCampaign(voters, h, n, s, h');
    LogOkMono(h, h', s.log);
    KeepsMono(voters, h, h', n, s.log, s.term);
    KeepsBound(h', n, s.log, s.term, s.term + 1);
    CommittedLogMono(voters, h, h', s.log[..s.commitIndex], s.term, s.term + 1);
  }

  /** Replica `n` starts to campaign: its new term and the log it offers are recorded. */
  lemma {:induction false} CampaignStep(c: Cluster, n: NodeId, s: NodeState, sent: set<Packet>, h': History)
    requires Inv(c) && n in c.nodes && NodeOk(c.voters, c.hist, n, s)
    requires h' == c.hist.(campaigns := c.hist.campaigns[(s.term + 1, n) := s.log])
    requires sent == VoteCalls(Config(n, c.voters), VoteRequest(false, s.term + 1, n, |s.log|, LastTerm(s.log)))
    ensures Inv(Update(c, n, StartElection(Config(n, c.voters), s), sent, h')) && Extends(c.hist, h')
  {
    HistCampaign(c.voters, c.hist, n, s, h');
    CampaignNodeOk(c.voters, c.hist, n, s, h');
    UpdateKeepsInv(c, n, StartElection(Config(n, c.voters), s), sent, h');
  }

  /** The voter's promises are kept by the log of a candidate that is at least as up to date. */
  lemma {:induction false} GrantKeeps(voters: set<NodeId>, h: History, v: NodeId, s: NodeState, cand: NodeId)
    requires HistOk(voters, h) && NodeOk(voters, h, v, s)
    requires s.term !in h.reigns && (s.term, cand) in h.campaigns
    requires UpToDate(LastTerm(h.campaigns[(s.term, cand)]), |h.campaigns[(s.term, cand)]|, s.log)
    ensures Keeps(h, v, h.campaigns[(s.term, cand)], s.term - 1)
  {
    var log := h.campaigns[(s.term, cand)];
    assert CampaignOk(voters, h, s.term, cand);
    forall t, m, k | (t, v, m) in h.acks && t <= s.term - 1 && k <= m && Point(h, t, k)
      ensures KeepsAt(h, v, log, s.term - 1, t, m, k)
    {
      assert KeepsAt(h, v, s.log, s.term, t, m, k);
      if !Lost(h, t, k, s.term) {
        PrefixInNewerLog(voters, h, t, k, s.log, log, s.term);
      }
    }
  }

  /** A log that is at least as up to date as one that holds the prefix (T, k) holds it too, unless the
      leader its last entry comes from lacks it. */
  lemma {:induction false} PrefixInNewerLog(voters: set<NodeId>, h: History, t: nat, k: nat, log: seq<Entry>, newer: seq<Entry>, bound: nat)
    requires HistOk(voters, h) && Point(h, t, k) && LogOk(h, log) && LogOk(h, newer)
    requires Upto(h, t, k) <= log && UpToDate(LastTerm(newer), |newer|, log) && LastTerm(newer) < bound
    ensures Upto(h, t, k) <= newer || Lost(h, t, k, bound - 1)
  {
    var p := Upto(h, t, k);
    assert ReignOk(voters, h, t);
    assert log[k - 1] == p[k - 1];
    assert t <= LastTerm(log) <= LastTerm(newer) && newer != [];
    assert InReign(h, newer, |newer| - 1) && newer[..|newer|] == newer;
    var tc := LastTerm(newer);
    if tc > t && p <= h.reigns[tc].log && |newer| < k {
      assert false;
    }
  }

  lemma {:induction false} GrantNodeOk(voters: set<NodeId>, h: History, v: NodeId, s: NodeState, cand: NodeId, h': History)
    requires HistOk(voters, h) && NodeOk(voters, h, v, s) && Grants(h, v, s, cand, h')
    ensures NodeOk(voters, h', v, s.(votedFor := Some(cand)))
  {
    HistGrant(voters, h, v, s, cand, h');
    LogOkMono(h, h', s.log);
    KeepsMono(voters, h, h', v, s.log, s.term);
    CommittedLogMono(voters, h, h', s.log[..s.commitIndex], s.term, s.term);
  }

  lemma {:induction false} GrantStep(c: Cluster, n: NodeId, s: NodeState, req: VoteRequest, r: VoteResponse, h': History)
    requires Inv(c) && n in c.nodes && NodeOk(c.voters, c.hist, n, s)
    requires Grants(c.hist, n, s, req.candidate, h')
    requires !req.preVote && req.term == s.term && r == VoteResponse(s.term, true, n)
    ensures Inv(Update(c, n, s.(votedFor := Some(req.candidate)), {VoteReturn(req, r)}, h')) && Extends(c.hist, h')
  {
    HistGrant(c.voters, c.hist, n, s, req.candidate, h');
    GrantNodeOk(c.voters, c.hist, n, s, req.candidate, h');
    UpdateKeepsInv(c, n, s.(votedFor := Some(req.candidate)), {VoteReturn(req, r)}, h');
  }

  lemma {:induction false} RecvVoteStep(c: Cluster, p: Packet, heard: bool)
    requires Inv(c) && p in c.net && p.VoteCall? && p.dst in c.nodes
    ensures Inv(AfterVote(c, p, heard)) && Extends(c.hist, AfterVote(c, p, heard).hist)
  {
    var n, req := p.dst, p.vreq;
    var s := c.nodes[n];
    assert NodeOk(c.voters, c.hist, n, s) && PacketOk(c.voters, c.hist, p);
    var (s', r) := HandleVote(Config(n, c.voters), s, req, heard);
    var h' := RecordGrant(c.hist, req, r);
    var s1 := if !req.preVote && req.term > s.term then BecomeFollower(s, req.term) else s;
    if !req.preVote && req.term > s.term { AdoptOk(c.voters, c.hist, n, s, req.term); }
    if !req.preVote && r.granted {
      if s1.term !in c.hist.reigns { GrantKeeps(c.voters, c.hist, n, s1, req.candidate); }
      GrantStep(c, n, s1, req, r, h');
    } else {
      ExtendsSelf(c.hist);
      UpdateKeepsInv(c, n, s', {VoteReturn(req, r)}, h');
    }
  }

  lemma {:induction false} ProbingOk(voters: set<NodeId>, h: History, n: NodeId, s: NodeState, preVoteTerm: nat, preVotes: set<NodeId>)
    requires NodeOk(voters, h, n, s)
    ensures NodeOk(voters, h, n, s.(preVoteTerm := preVoteTerm, preVotes := preVotes))
  {
  }

  lemma {:induction false} ProbeStep(c: Cluster, n: NodeId, s': NodeState, req: VoteRequest)
    requires Inv(c) && n in c.nodes && NodeOk(c.voters, c.hist, n, s') && req.preVote
    ensures Inv(Update(c, n, s', VoteCalls(Config(n, c.voters), req), c.hist))
  {
    ExtendsSelf(c.hist);
    UpdateKeepsInv(c, n, s', VoteCalls(Config(n, c.voters), req), c.hist);
  }

  lemma {:induction false} TimeoutProbes(c: Cluster, n: NodeId)
    requires Inv(c) && n in c.nodes && !c.nodes[n].role.Leader? && |{n} * c.voters| < Config(n, c.voters).Majority()
    ensures Inv(AfterTimeout(c, n)) && AfterTimeout(c, n).hist == c.hist
  {
    var cfg, s := Config(n, c.voters), c.nodes[n];
    var s' := s.(preVoteTerm := s.term + 1, preVotes := {n});
    assert NodeOk(c.voters, c.hist, n, s);
    ProbingOk(c.voters, c.hist, n, s, s.term + 1, {n});
    var req := VoteRequestOf(cfg, s', true, s'.preVoteTerm);
    assert AfterTimeout(c, n) == Update(c, n, s', VoteCalls(cfg, req), c.hist);
    ProbeStep(c, n, s', req);
  }

  lemma {:induction false} TimeoutStep(c: Cluster, n: NodeId)
    requires Inv(c) && n in c.nodes && !c.nodes[n].role.Leader?
    ensures Inv(AfterTimeout(c, n)) && Extends(c.hist, AfterTimeout(c, n).hist)
  {
    var cfg, s := Config(n, c.voters), c.nodes[n];
    if |{n} * c.voters| < cfg.Majority() {
      TimeoutProbes(c, n);
      ExtendsSelf(c.hist);
    } else {
      var probing := s.(preVoteTerm := s.term + 1, preVotes := {n});
      assert NodeOk(c.voters, c.hist, n, s);
      ProbingOk(c.voters, c.hist, n, s, s.term + 1, {n});
      var s' := StartPreElection(cfg, s);
      assert AfterTimeout(c, n) == Update(c, n, s', CampaignCalls(cfg, s, s'), RecordCampaign(c.hist, n, s, s'));
      CampaignStep(c, n, probing, CampaignCalls(cfg, s, s'), RecordCampaign(c.hist, n, s, s'));
    }
  }

  lemma {:induction false} PreVoteReplyStep(c: Cluster, p: Packet)
    requires Inv(c) && p in c.net && p.VoteReturn? && p.vreq.candidate in c.nodes && p.vreq.preVote
    ensures Inv(AfterPreVoteReply(c, p)) && Extends(c.hist, AfterPreVoteReply(c, p).hist)
  {
    var n := p.vreq.candidate;
    var cfg, s := Config(n, c.voters), c.nodes[n];
    assert NodeOk(c.voters, c.hist, n, s);
    var s' := HandlePreVoteReply(cfg, s, p.vresp);
    var s1 := s.(preVotes := s.preVotes + {p.vresp.voter});
    assert NodeOk(c.voters, c.hist, n, s1);
    if Campaigns(s, s') {
      CampaignStep(c, n, s1, CampaignCalls(cfg, s, s'), RecordCampaign(c.hist, n, s, s'));
    } else {
      if p.vresp.term > s.term { AdoptOk(c.voters, c.hist, n, s, p.vresp.term); }
      ExtendsSelf(c.hist);
      UpdateKeepsInv(c, n, s', {}, c.hist);
    }
  }

  lemma {:induction false} LeaderPastOk(voters: set<NodeId>, h: History, n: NodeId, s: NodeState, s': NodeState, h': History)
    requires NodeOk(voters, h, n, s) && Elects(voters, h, n, s, s'.log, h')
    requires s'.role.Leader? && s'.term == s.term && s'.votedFor == s.votedFor
    ensures PastOk(h', n, s')
  {
  }

  lemma {:induction false} LeaderNodeOk(voters: set<NodeId>, h: History, n: NodeId, s: NodeState, h': History)
    requires HistOk(voters, h) && NodeOk(voters, h, n, s)
    requires Elects(voters, h, n, s, BecomeLeader(Config(n, voters), s).log, h')
    ensures NodeOk(voters, h', n, BecomeLeader(Config(n, voters), s))
  {
    var s' := BecomeLeader(Config(n, voters), s);
    ElectExtends(voters, h, n, s, s'.log, h');
    OwnLogKeeps(voters, h, h', n, s, s'.log);
    LeaderPastOk(voters, h, n, s, s', h');
    AppliedStays(voters, h, h', n, s, s');
  }

  /** A log that only grew still starts with what was applied. */
  lemma {:induction false} AppliedStays(voters: set<NodeId>, h: History, h': History, n: NodeId, s: NodeState, s': NodeState)
    requires NodeOk(voters, h, n, s) && Extends(h, h') && s.log <= s'.log && s'.term == s.term
    requires s'.commitIndex == s.commitIndex && s'.lastApplied == s.lastApplied && s'.lastAppliedTerm == s.lastAppliedTerm
    ensures AppliedOk(voters, h', s')
  {
    CommittedLogMono(voters, h, h', s.log[..s.commitIndex], s.term, s.term);
    assert s'.log[..s.commitIndex] == s.log[..s.commitIndex];
  }

  /** A leader that has extended its own log holds everything it acknowledged. */
  lemma {:induction false} OwnLogKeeps(voters: set<NodeId>, h: History, h': History, n: NodeId, s: NodeState, log': seq<Entry>)
    requires HistOk(voters, h) && NodeOk(voters, h, n, s) && Extends(h, h')
    requires s.log <= log' && s.term in h'.reigns && h'.reigns[s.term].log == log'
    requires h'.acks == h.acks + {(s.term, n, |log'|)}
    ensures Keeps(h', n, log', s.term)
  {
    forall t, m, k | (t, n, m) in h'.acks && t <= s.term && k <= m && Point(h', t, k)
      ensures KeepsAt(h', n, log', s.term, t, m, k)
    {
      if t != s.term {
        assert Point(h, t, k) && KeepsAt(h, n, s.log, s.term, t, m, k);
        PointMono(h, h', t, k);
        if Lost(h, t, k, s.term) {
          assert ReignOk(voters, h, t);
          LostMono(h, h', t, k, s.term);
        }
      }
    }
  }

  lemma {:induction false} VoteReplyStep(c: Cluster, p: Packet)
    requires Inv(c) && p in c.net && p.VoteReturn? && p.vreq.candidate in c.nodes && !p.vreq.preVote
    ensures Inv(AfterVoteReply(c, p)) && Extends(c.hist, AfterVoteReply(c, p).hist)
  {
    var n := p.vreq.candidate;
    var cfg, s := Config(n, c.voters), c.nodes[n];
    assert NodeOk(c.voters, c.hist, n, s) && PacketOk(c.voters, c.hist, p);
    var s' := HandleVoteReply(cfg, s, p.vresp);
    var h' := RecordElection(c.hist, cfg, s, s');
    var s1 := s.(votes := s.votes + {p.vresp.voter});
    if s'.role.Leader? && !s.role.Leader? {
      assert NodeOk(c.voters, c.hist, n, s1);
      ElectStep(c, n, s1, h');
    } else {
      if s.role.Candidate? && p.vresp.term > s.term { AdoptOk(c.voters, c.hist, n, s, p.vresp.term); }
      ExtendsSelf(c.hist);
      UpdateKeepsInv(c, n, s', {}, c.hist);
    }
  }

  lemma {:induction false} ElectStep(c: Cluster, n: NodeId, s: NodeState, h': History)
    requires Inv(c) && n in c.nodes && NodeOk(c.voters, c.hist, n, s)
    requires Elects(c.voters, c.hist, n, s, BecomeLeader(Config(n, c.voters), s).log, h')
    ensures Inv(Update(c, n, BecomeLeader(Config(n, c.voters), s), {}, h')) && Extends(c.hist, h')
  {
    var s' := BecomeLeader(Config(n, c.voters), s);
    HistElect(c.voters, c.hist, n, s, s'.log, h');
    LeaderNodeOk(c.voters, c.hist, n, s, h');
    UpdateKeepsInv(c, n, s', {}, h');
  }
}
