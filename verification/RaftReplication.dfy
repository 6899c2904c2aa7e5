/** Log replication: what a follower's log becomes, what its acknowledgement is worth, and that the
    replication steps keep the invariant. */
module RaftReplication {
  import opened Commands
  import opened RaftNode
  import opened RaftCluster
  import opened RaftInvariant
  import opened RaftMonotone
  import opened RaftHistory
  import opened RaftSteps

  // ---- merging a slice of the leader's log ---------------------------------------------------------

  /** Equal terms at a position mean equal logs up to it; leader entries carry their position. */
  ghost predicate Compatible(log: seq<Entry>, llog: seq<Entry>) {
    && (forall i :: 0 <= i < |llog| ==> llog[i].index == i + 1)
    && (forall i :: 0 <= i < |log| && i < |llog| && log[i].term == llog[i].term ==> log[..i + 1] == llog[..i + 1])
  }

  /** Log matching: two logs with the same term at an index agree on the whole prefix. */
  lemma {:induction false} LogMatching(h: History, log: seq<Entry>, llog: seq<Entry>)
    requires LogOk(h, log) && LogOk(h, llog)
    ensures Compatible(log, llog)
  {
    forall i | 0 <= i < |llog| ensures llog[i].index == i + 1 {
      assert InReign(h, llog, i);
    }
    forall i | 0 <= i < |log| && i < |llog| && log[i].term == llog[i].term
      ensures log[..i + 1] == llog[..i + 1]
    {
      assert InReign(h, log, i) && InReign(h, llog, i);
    }
  }

  /** Merging a slice of the leader's log that starts where both agree gives the slice's end of the
      leader's log, except that a log already holding all of it is left alone. */
  lemma {:induction false} MergeSlice(log: seq<Entry>, llog: seq<Entry>, lo: nat, hi: nat)
    requires lo <= hi <= |llog| && lo <= |log| && log[..lo] == llog[..lo] && Compatible(log, llog)
    ensures Merge(log, llog[lo..hi]) == if llog[..hi] <= log then log else llog[..hi]
    decreases hi - lo
  {
    if lo == hi {
      assert llog[lo..hi] == [];
    } else {
      var e := llog[lo];
      assert llog[lo..hi][0] == e && llog[lo..hi][1..] == llog[lo + 1..hi];
      assert Merge(log, llog[lo..hi]) == Merge(Merge1(log, e), llog[lo + 1..hi]);
      if lo < |log| && log[lo].term == e.term {
        MergeSlice(log, llog, lo + 1, hi);
      } else {
        assert Merge1(log, e) == llog[..lo + 1];
        MergeSlice(llog[..lo + 1], llog, lo + 1, hi);
        assert !(llog[..hi] <= log);
      }
    }
  }

  /** The follower's log after a request: nothing it shares with the leader's log is cut. */
  ghost predicate LogAfter(h: History, s: NodeState, log': seq<Entry>) {
    && s.term in h.reigns
    && LogOk(h, log') && LastTerm(log') <= s.term
    && forall k: nat {:trigger Shares(log', h.reigns[s.term].log, k)} ::
         Shares(s.log, h.reigns[s.term].log, k) ==> Shares(log', h.reigns[s.term].log, k)
  }

  /** Both logs have the same first `k` entries. */
  ghost predicate Shares(a: seq<Entry>, b: seq<Entry>, k: nat) {
    k <= |a| && k <= |b| && a[..k] == b[..k]
  }

  lemma {:induction false} LogOkPrefix(h: History, log: seq<Entry>, k: nat)
    requires LogOk(h, log) && k <= |log|
    ensures LogOk(h, log[..k]) && LastTerm(log[..k]) <= LastTerm(log)
  {
    forall i: nat | i < k ensures InReign(h, log[..k], i) {
      assert InReign(h, log, i);
      assert log[..k][..i + 1] == log[..i + 1];
    }
  }

  /** Cutting a log down to the leader's first `hi` entries loses nothing the two share, unless it held
      all of them already. */
  lemma {:induction false} PrefixAfter(h: History, s: NodeState, hi: nat)
    requires s.term in h.reigns && LogOk(h, h.reigns[s.term].log) && LastTerm(h.reigns[s.term].log) <= s.term
    requires hi <= |h.reigns[s.term].log| && !(h.reigns[s.term].log[..hi] <= s.log)
    ensures LogAfter(h, s, h.reigns[s.term].log[..hi])
  {
    var llog := h.reigns[s.term].log;
    LogOkPrefix(h, llog, hi);
    forall k: nat | Shares(s.log, llog, k) ensures Shares(llog[..hi], llog, k) {
      if hi < k {
        assert false;
      }
    }
  }

  /** Accepting `entries`, which lie in the leader's log right after `prev`. */
  lemma {:induction false} MergeLog(voters: set<NodeId>, h: History, s: NodeState, prev: nat, hi: nat)
    requires HistOk(voters, h) && LogOk(h, s.log) && LastTerm(s.log) <= s.term && s.term in h.reigns
    requires prev <= hi <= |h.reigns[s.term].log| && prev <= |s.log|
    requires prev > 0 ==> s.log[prev - 1].term == h.reigns[s.term].log[prev - 1].term
    ensures LogAfter(h, s, Merge(s.log, h.reigns[s.term].log[prev..hi]))
    ensures Point(h, s.term, hi) ==>
              var log' := Merge(s.log, h.reigns[s.term].log[prev..hi]);
              log' <= h.reigns[s.term].log && hi <= |log'|
  {
    var llog := h.reigns[s.term].log;
    assert ReignOk(voters, h, s.term);
    assert s.log[..prev] == llog[..prev] by { LogMatching(h, s.log, llog); }
    assert Merge(s.log, llog[prev..hi]) == if llog[..hi] <= s.log then s.log else llog[..hi] by {
      LogMatching(h, s.log, llog);
      MergeSlice(s.log, llog, prev, hi);
    }
    if llog[..hi] <= s.log {
      if Point(h, s.term, hi) { WholeLogFromLeader(h, s, hi); }
    } else {
      PrefixAfter(h, s, hi);
    }
  }

  /** A log that holds an entry of the current leader at that leader's position has nothing else
      behind it: this is what makes acknowledging the whole length sound. */
  lemma {:induction false} WholeLogFromLeader(h: History, s: NodeState, hi: nat)
    requires LogOk(h, s.log) && LastTerm(s.log) <= s.term && Point(h, s.term, hi)
    requires Upto(h, s.term, hi) <= s.log
    ensures s.log <= h.reigns[s.term].log
  {
    assert s.log[hi - 1] == Upto(h, s.term, hi)[hi - 1];
    assert InReign(h, s.log, |s.log| - 1);
    assert s.log[..|s.log|] == s.log;
  }

  /** Cutting at a mismatch with the leader's log. */
  lemma {:induction false} CutLog(h: History, s: NodeState, prev: nat)
    requires LogOk(h, s.log) && LastTerm(s.log) <= s.term && s.term in h.reigns
    requires 0 < prev <= |s.log| && prev <= |h.reigns[s.term].log|
    requires s.log[prev - 1].term != h.reigns[s.term].log[prev - 1].term
    ensures LogAfter(h, s, s.log[..prev - 1])
  {
    LogOkPrefix(h, s.log, prev - 1);
  }

  /** A follower whose log changed as `LogAfter` allows is still in order: committed entries and
      acknowledged prefixes survive. */
  lemma {:induction false} NewLogOk(voters: set<NodeId>, h: History, n: NodeId, s: NodeState, log': seq<Entry>)
    requires HistOk(voters, h) && NodeOk(voters, h, n, s) && s.role.Follower? && LogAfter(h, s, log')
    ensures NodeOk(voters, h, n, s.(log := log'))
  {
    var done := s.log[..s.commitIndex];
    CommittedInReign(voters, h, done, s.term);
    assert Shares(s.log, h.reigns[s.term].log, s.commitIndex) && Shares(log', h.reigns[s.term].log, s.commitIndex);
    forall t, m, k | (t, n, m) in h.acks && t <= s.term && k <= m && Point(h, t, k)
      ensures KeepsAt(h, n, log', s.term, t, m, k)
    {
      assert KeepsAt(h, n, s.log, s.term, t, m, k);
      if Upto(h, t, k) <= s.log {
        assert Upto(h, t, k) <= h.reigns[s.term].log ==> Shares(s.log, h.reigns[s.term].log, k) && Shares(log', h.reigns[s.term].log, k);
      }
    }
  }

  /** Taking over the leader's commit index. */
  lemma {:induction false} NewCommitOk(voters: set<NodeId>, h: History, n: NodeId, s: NodeState, commit: nat)
    requires HistOk(voters, h) && NodeOk(voters, h, n, s) && s.commitIndex < commit <= |s.log|
    requires CommittedLog(voters, h, s.log[..commit], s.term)
    ensures NodeOk(voters, h, n, ApplyCommitted(s.(commitIndex := commit)))
  {
  }

  lemma {:induction false} AckNodeOk(voters: set<NodeId>, h: History, n: NodeId, s: NodeState, h': History)
    requires HistOk(voters, h) && NodeOk(voters, h, n, s)
    requires s.term in h.reigns && s.log <= h.reigns[s.term].log && s.log != []
    requires h' == h.(acks := h.acks + {(s.term, n, |s.log|)})
    ensures NodeOk(voters, h', n, s)
  {
    HistAck(voters, h, n, s, |s.log|, h');
    LogOkMono(h, h', s.log);
    CommittedLogMono(voters, h, h', s.log[..s.commitIndex], s.term, s.term);
    forall t, m, k | (t, n, m) in h'.acks && t <= s.term && k <= m && Point(h', t, k)
      ensures KeepsAt(h', n, s.log, s.term, t, m, k)
    {
      assert Point(h, t, k);
      if (t, n, m) in h.acks {
        assert KeepsAt(h, n, s.log, s.term, t, m, k);
      }
    }
  }

  // ---- the follower's side --------------------------------------------------------------------------

  lemma {:induction false} ListeningOk(voters: set<NodeId>, h: History, n: NodeId, s: NodeState, req: AppendRequest)
    requires NodeOk(voters, h, n, s) && req.term >= s.term
    requires req.term in h.reigns && h.reigns[req.term].leader != n
    ensures NodeOk(voters, h, n, Listening(s, req)) && Listening(s, req).role.Follower?
    ensures Listening(s, req).term == req.term && Listening(s, req).log == s.log
  {
    var s1 := if req.term > s.term then BecomeFollower(s, req.term) else s;
    if req.term > s.term { AdoptOk(voters, h, n, s, req.term); }
    var s2 := s1.(leaderId := Some(req.leader));
    assert NodeOk(voters, h, n, s2);
    if s2.role.Candidate? { StepDownOk(voters, h, n, s2); }
  }

  /** The request refused for its previous entry: the log may be cut, nothing is acknowledged. */
  lemma {:induction false} RefusedOk(voters: set<NodeId>, h: History, n: NodeId, s: NodeState, req: AppendRequest)
    requires HistOk(voters, h) && NodeOk(voters, h, n, s) && s.role.Follower? && s.term == req.term
    requires RequestOk(voters, h, n, req) && !PrevMatches(s, req)
    ensures NodeOk(voters, h, n, Refused(s, req)) && |Refused(s, req).log| < |h.reigns[req.term].log|
  {
    if req.prevIndex <= |s.log| {
      CutLog(h, s, req.prevIndex);
      NewLogOk(voters, h, n, s, s.log[..req.prevIndex - 1]);
    }
  }

  /** The request accepted: the log becomes a prefix of the leader's log that reaches its end. */
  lemma {:induction false} MergedOk(voters: set<NodeId>, h: History, n: NodeId, s: NodeState, req: AppendRequest)
    requires HistOk(voters, h) && NodeOk(voters, h, n, s) && s.role.Follower? && s.term == req.term
    requires RequestOk(voters, h, n, req) && PrevMatches(s, req)
    ensures NodeOk(voters, h, n, Merged(s, req))
    ensures Merged(s, req).log <= h.reigns[req.term].log && req.prevIndex + |req.entries| <= |Merged(s, req).log|
  {
    MergeLog(voters, h, s, req.prevIndex, req.prevIndex + |req.entries|);
    NewLogOk(voters, h, n, s, Merged(s, req).log);
  }

  lemma {:induction false} AcceptedOk(voters: set<NodeId>, h: History, n: NodeId, s: NodeState, req: AppendRequest)
    requires HistOk(voters, h) && NodeOk(voters, h, n, s) && s.term == req.term
    requires RequestOk(voters, h, n, req)
    requires s.log <= h.reigns[req.term].log && req.prevIndex + |req.entries| <= |s.log|
    ensures NodeOk(voters, h, n, Accepted(s, req))
  {
    if req.leaderCommit > s.commitIndex {
      assert s.log[..req.leaderCommit] == h.reigns[req.term].log[..req.leaderCommit];
      NewCommitOk(voters, h, n, s, req.leaderCommit);
    }
  }

  lemma {:induction false} AckStep(c: Cluster, n: NodeId, s': NodeState, req: AppendRequest, h': History)
    requires Inv(c) && n in c.nodes && NodeOk(c.voters, c.hist, n, s')
    requires s'.term == req.term && n != req.leader && req.term in c.hist.reigns
    requires s'.log <= c.hist.reigns[req.term].log && s'.log != []
    requires h' == c.hist.(acks := c.hist.acks + {(req.term, n, |s'.log|)})
    ensures Inv(Update(c, n, s', {AppendReturn(req.leader, req.term, AppendResponse(s'.term, true, n, |s'.log|))}, h')) && Extends(c.hist, h')
  {
    HistAck(c.voters, c.hist, n, s', |s'.log|, h');
    AckNodeOk(c.voters, c.hist, n, s', h');
    UpdateKeepsInv(c, n, s', {AppendReturn(req.leader, req.term, AppendResponse(s'.term, true, n, |s'.log|))}, h');
  }

  lemma {:induction false} PlainStep(c: Cluster, n: NodeId, s': NodeState, sent: set<Packet>)
    requires Inv(c) && n in c.nodes && NodeOk(c.voters, c.hist, n, s')
    requires forall p :: p in sent ==> PacketOk(c.voters, c.hist, p)
    ensures Inv(Update(c, n, s', sent, c.hist)) && Extends(c.hist, c.hist)
  {
    ExtendsSelf(c.hist);
    UpdateKeepsInv(c, n, s', sent, c.hist);
  }

  lemma {:induction false} AcceptStep(c: Cluster, p: Packet)
    requires Inv(c) && p in c.net && p.AppendCall? && p.dst in c.nodes && p.areq.term >= c.nodes[p.dst].term
    requires PrevMatches(Listening(c.nodes[p.dst], p.areq), p.areq)
    ensures Inv(AfterAppend(c, p)) && Extends(c.hist, AfterAppend(c, p).hist)
  {
    var n, req := p.dst, p.areq;
    var s := c.nodes[n];
    assert NodeOk(c.voters, c.hist, n, s) && PacketOk(c.voters, c.hist, p);
    var (s', r) := HandleAppend(Config(n, c.voters), s, req);
    ListeningOk(c.voters, c.hist, n, s, req);
    MergedOk(c.voters, c.hist, n, Listening(s, req), req);
    AcceptedOk(c.voters, c.hist, n, Merged(Listening(s, req), req), req);
    AckStep(c, n, s', req, RecordAck(c.hist, req, r));
  }

  lemma {:induction false} RefuseStep(c: Cluster, p: Packet)
    requires Inv(c) && p in c.net && p.AppendCall? && p.dst in c.nodes && p.areq.term >= c.nodes[p.dst].term
    requires !PrevMatches(Listening(c.nodes[p.dst], p.areq), p.areq)
    ensures Inv(AfterAppend(c, p)) && Extends(c.hist, AfterAppend(c, p).hist)
  {
    var n, req := p.dst, p.areq;
    var s := c.nodes[n];
    assert NodeOk(c.voters, c.hist, n, s) && PacketOk(c.voters, c.hist, p);
    var (s', r) := HandleAppend(Config(n, c.voters), s, req);
    ListeningOk(c.voters, c.hist, n, s, req);
    RefusedOk(c.voters, c.hist, n, Listening(s, req), req);
    PlainStep(c, n, s', {AppendReturn(req.leader, req.term, r)});
  }

  lemma {:induction false} RecvAppendStep(c: Cluster, p: Packet)
    requires Inv(c) && p in c.net && p.AppendCall? && p.dst in c.nodes
    ensures Inv(AfterAppend(c, p)) && Extends(c.hist, AfterAppend(c, p).hist)
  {
    var n, req := p.dst, p.areq;
    var s := c.nodes[n];
    if req.term < s.term {
      assert NodeOk(c.voters, c.hist, n, s);
      var (s', r) := HandleAppend(Config(n, c.voters), s, req);
      PlainStep(c, n, s', {AppendReturn(req.leader, req.term, r)});
    } else if PrevMatches(Listening(s, req), req) {
      AcceptStep(c, p);
    } else {
      RefuseStep(c, p);
    }
  }

  /** A crash in the middle of an append: part of the slice is on disk, nothing was acknowledged. */
  lemma {:induction false} TornAppendStep(c: Cluster, p: Packet, kept: nat)
    requires Inv(c) && Enabled(c, TornAppend(p, kept))
    ensures Inv(Update(c, p.dst, Restarted(TornAppended(c.nodes[p.dst], p.areq, kept)), {}, c.hist))
  {
    var n := p.dst;
    var s := c.nodes[n];
    assert NodeOk(c.voters, c.hist, n, s) && PacketOk(c.voters, c.hist, p);
    TornOk(c.voters, c.hist, n, s, p.areq, kept);
    RestartOk(c.voters, c.hist, n, TornAppended(s, p.areq, kept));
    PlainStep(c, n, Restarted(TornAppended(s, p.areq, kept)), {});
  }

  lemma {:induction false} TornMergeOk(voters: set<NodeId>, h: History, n: NodeId, s: NodeState, whole: AppendRequest, kept: nat)
    requires HistOk(voters, h) && NodeOk(voters, h, n, s) && RequestOk(voters, h, n, whole)
    requires kept <= |whole.entries| && s.role.Follower? && s.term == whole.term && PrevMatches(s, whole)
    ensures NodeOk(voters, h, n, Merged(s, whole.(entries := whole.entries[..kept])))
  {
    assert whole.entries[..kept] == h.reigns[whole.term].log[whole.prevIndex..whole.prevIndex + kept];
    MergeLog(voters, h, s, whole.prevIndex, whole.prevIndex + kept);
    NewLogOk(voters, h, n, s, Merge(s.log, whole.entries[..kept]));
  }

  lemma {:induction false} TornOk(voters: set<NodeId>, h: History, n: NodeId, s: NodeState, req: AppendRequest, kept: nat)
    requires HistOk(voters, h) && NodeOk(voters, h, n, s) && RequestOk(voters, h, n, req)
    requires kept <= |req.entries|
    ensures NodeOk(voters, h, n, TornAppended(s, req, kept))
  {
    if req.term >= s.term {
      ListeningOk(voters, h, n, s, req);
      if PrevMatches(Listening(s, req), req) {
        TornMergeOk(voters, h, n, Listening(s, req), req, kept);
      } else {
        RefusedOk(voters, h, n, Listening(s, req), req);
      }
    }
  }

  // ---- the leader's side ----------------------------------------------------------------------------

  lemma {:induction false} SendAppendStep(c: Cluster, n: NodeId, peer: NodeId)
    requires Inv(c) && n in c.nodes && peer in c.voters && peer != n && c.nodes[n].role.Leader?
    ensures Inv(AfterSend(c, n, peer)) && Extends(c.hist, AfterSend(c, n, peer).hist)
  {
    var s := c.nodes[n];
    assert NodeOk(c.voters, c.hist, n, s) && ReignOk(c.voters, c.hist, s.term);
    ReplicateOk(c.voters, c.hist, n, s, peer);
    PlainStep(c, n, s, {AppendCall(peer, ReplicateTo(Config(n, c.voters), s, peer))});
  }

  /** The leader always sends up to the end of its log, whose last entry is of its own term. */
  lemma {:induction false} ReplicateOk(voters: set<NodeId>, h: History, n: NodeId, s: NodeState, peer: NodeId)
    requires NodeOk(voters, h, n, s) && ReignOk(voters, h, s.term) && s.role.Leader? && peer in voters && peer != n
    ensures RequestOk(voters, h, peer, ReplicateTo(Config(n, voters), s, peer))
  {
    var req := ReplicateTo(Config(n, voters), s, peer);
    assert req.prevIndex + |req.entries| == |s.log|;
  }

  /** What a majority of match indices at `idx` means: the leader's first `idx` entries are committed. */
  lemma {:induction false} HoldersCommit(voters: set<NodeId>, h: History, n: NodeId, s: NodeState, idx: nat)
    requires HistOk(voters, h) && NodeOk(voters, h, n, s) && s.role.Leader?
    requires 1 <= idx <= |s.log| && CanCommit(Config(n, voters), s, idx)
    ensures Committed(voters, h, s.term, idx)
  {
    assert ReignOk(voters, h, s.term);
    var holders := Holders(Config(n, voters), s, idx);
    var acked := set v | v in voters && Acked(h, v, s.term, idx);
    assert holders <= acked;
    SubsetSize(holders, acked);
  }

  lemma {:induction false} AdvanceOk(voters: set<NodeId>, h: History, n: NodeId, s: NodeState)
    requires HistOk(voters, h) && NodeOk(voters, h, n, s) && s.role.Leader?
    ensures NodeOk(voters, h, n, AdvanceCommit(Config(n, voters), s))
  {
    var idx := CommitPoint(Config(n, voters), s, |s.log|);
    if idx > s.commitIndex {
      HoldersCommit(voters, h, n, s, idx);
      assert s.log[..idx] == Upto(h, s.term, idx);
      NewCommitOk(voters, h, n, s, idx);
    }
  }

  lemma {:induction false} AckedNodeOk(voters: set<NodeId>, h: History, n: NodeId, s: NodeState, r: AppendResponse)
    requires HistOk(voters, h) && NodeOk(voters, h, n, s) && s.role.Leader?
    requires (s.term, r.follower, r.matchIndex) in h.acks
    ensures NodeOk(voters, h, n, s.(matchIndex := s.matchIndex[r.follower := r.matchIndex],
                                    nextIndex := s.nextIndex[r.follower := r.matchIndex + 1]))
  {
  }

  lemma {:induction false} AppendReplyStep(c: Cluster, p: Packet)
    requires Inv(c) && Enabled(c, RecvAppendReply(p))
    ensures Inv(AfterAppendReply(c, p)) && Extends(c.hist, AfterAppendReply(c, p).hist)
  {
    var n, r := p.leader, p.aresp;
    var cfg, s := Config(n, c.voters), c.nodes[n];
    assert NodeOk(c.voters, c.hist, n, s) && PacketOk(c.voters, c.hist, p);
    var s' := HandleAppendReply(cfg, s, r.follower, r);
    if r.term > s.term {
      AdoptOk(c.voters, c.hist, n, s, r.term);
    } else if s.role.Leader? && r.success {
      AckedNodeOk(c.voters, c.hist, n, s, r);
      AdvanceOk(c.voters, c.hist, n, s.(matchIndex := s.matchIndex[r.follower := r.matchIndex],
                                        nextIndex := s.nextIndex[r.follower := r.matchIndex + 1]));
    }
    PlainStep(c, n, s', {});
  }

  lemma {:induction false} ProposeNodeOk(voters: set<NodeId>, h: History, n: NodeId, s: NodeState, s': NodeState, h': History)
    requires HistOk(voters, h) && NodeOk(voters, h, n, s) && Proposes(h, n, s, s'.log, h') && s' == s.(log := s'.log)
    ensures NodeOk(voters, h', n, s')
  {
    ProposeExtends(voters, h, n, s, s'.log, h');
    OwnLogKeeps(voters, h, h', n, s, s'.log);
    assert AppliedOk(voters, h', s') by {
      CommittedLogMono(voters, h, h', s.log[..s.commitIndex], s.term, s.term);
      assert s'.log[..s.commitIndex] == s.log[..s.commitIndex];
    }
  }

  lemma {:induction false} ProposeStep(c: Cluster, n: NodeId, command: Command)
    requires Inv(c) && n in c.nodes && c.nodes[n].role.Leader?
    ensures Inv(AfterProposal(c, n, command)) && Extends(c.hist, AfterProposal(c, n, command).hist)
  {
    var s := c.nodes[n];
    assert NodeOk(c.voters, c.hist, n, s);
    var s' := Propose(s, command).0;
    var h' := RecordProposal(c.hist, n, s');
    HistPropose(c.voters, c.hist, n, s, s'.log, h');
    ProposeNodeOk(c.voters, c.hist, n, s, s', h');
    UpdateKeepsInv(c, n, s', {}, h');
  }
}
