/** The safety of a Raft group over whole runs. */
module RaftSafety {
  import opened Commands
  import opened RaftNode
  import opened RaftCluster
  import opened RaftInvariant
  import opened RaftMonotone
  import opened RaftHistory
  import opened RaftSteps
  import opened RaftReplication

  lemma {:induction false} InitHolds(c: Cluster)
    requires Init(c)
    ensures Inv(c)
  {
    assert c.nodes.Keys == c.voters;
  }

  /** Every step keeps the invariant and only adds to the history. */
  lemma {:induction false} StepHolds(c: Cluster, step: Step)
    requires Inv(c) && Enabled(c, step)
    ensures Inv(Do(c, step)) && Extends(c.hist, Do(c, step).hist)
  {
    match step
    case Timeout(n) => TimeoutStep(c, n);
    case RecvVote(p, heard) => RecvVoteStep(c, p, heard);
    case RecvVoteReply(p) => if p.vreq.preVote { PreVoteReplyStep(c, p); } else { VoteReplyStep(c, p); }
    case SendAppend(n, peer) => SendAppendStep(c, n, peer);
    case RecvAppend(p) => RecvAppendStep(c, p);
    case RecvAppendReply(p) => AppendReplyStep(c, p);
    case ClientPropose(n, command) => ProposeStep(c, n, command);
    case Restart(n) => RestartStep(c, n);
    case TornVote(p) => TornVoteStep(c, p);
    case TornAppend(p, kept) => TornAppendStep(c, p, kept); ExtendsSelf(c.hist);
  }

  lemma {:induction false} RestartStep(c: Cluster, n: NodeId)
    requires Inv(c) && Enabled(c, Restart(n))
    ensures Inv(Do(c, Restart(n))) && Extends(c.hist, Do(c, Restart(n)).hist)
  {
    assert NodeOk(c.voters, c.hist, n, c.nodes[n]);
    RestartOk(c.voters, c.hist, n, c.nodes[n]);
    PlainStep(c, n, Restarted(c.nodes[n]), {});
  }

  lemma {:induction false} TornVoteStep(c: Cluster, p: Packet)
    requires Inv(c) && Enabled(c, TornVote(p))
    ensures Inv(Do(c, TornVote(p))) && Extends(c.hist, Do(c, TornVote(p)).hist)
  {
    var s := c.nodes[p.dst];
    assert NodeOk(c.voters, c.hist, p.dst, s);
    AdoptOk(c.voters, c.hist, p.dst, s, p.vreq.term);
    RestartOk(c.voters, c.hist, p.dst, BecomeFollower(s, p.vreq.term));
    PlainStep(c, p.dst, Restarted(BecomeFollower(s, p.vreq.term)), {});
  }

  lemma {:induction false} ExtendsTransitive(h0: History, h1: History, h2: History)
    requires Extends(h0, h1) && Extends(h1, h2)
    ensures Extends(h0, h2)
  {
    forall t | t in h0.reigns ensures t in h2.reigns && ReignGrows(t, h0.reigns[t], h2.reigns[t]) {
      assert ReignGrows(t, h0.reigns[t], h1.reigns[t]) && ReignGrows(t, h1.reigns[t], h2.reigns[t]);
    }
  }

  lemma {:induction false} FollowsHolds(c: Cluster, c': Cluster)
    requires Inv(c) && Follows(c, c')
    ensures Inv(c') && Extends(c.hist, c'.hist) && c.voters == c'.voters && c.applied <= c'.applied
  {
    var step :| Enabled(c, step) && c' == Do(c, step);
    StepHolds(c, step);
  }

  /** Between any two moments of a run the history only grows, and so does the set of commands applied. */
  lemma {:induction false} RunHolds(run: seq<Cluster>, i: nat, j: nat)
    requires IsRun(run) && i <= j < |run|
    ensures Inv(run[i]) && Inv(run[j]) && Extends(run[i].hist, run[j].hist)
    ensures run[i].voters == run[j].voters && run[i].applied <= run[j].applied
    decreases j
  {
    if j == 0 {
      InitHolds(run[0]);
      ExtendsSelf(run[0].hist);
    } else if i == j {
      RunHolds(run, j - 1, j - 1);
      FollowsHolds(run[j - 1], run[j]);
      ExtendsSelf(run[j].hist);
    } else {
      RunHolds(run, i, j - 1);
      FollowsHolds(run[j - 1], run[j]);
      ExtendsTransitive(run[i].hist, run[j - 1].hist, run[j].hist);
    }
  }

  // ---- main results ---------------------------------------------------------------------------------

  /** Election safety: at any two moments of a run, leaders of the same term are the same replica. */
  lemma {:induction false} ElectionSafety(run: seq<Cluster>, i: nat, j: nat, n1: NodeId, n2: NodeId)
    requires IsRun(run) && i <= j < |run| && n1 in run[i].nodes && n2 in run[j].nodes
    requires run[i].nodes[n1].role.Leader? && run[j].nodes[n2].role.Leader?
    requires run[i].nodes[n1].term == run[j].nodes[n2].term
    ensures n1 == n2
    ensures run[i].nodes[n1].log <= run[j].nodes[n2].log
  {
    RunHolds(run, i, j);
    assert NodeOk(run[i].voters, run[i].hist, n1, run[i].nodes[n1]);
    assert NodeOk(run[j].voters, run[j].hist, n2, run[j].nodes[n2]);
  }

  /** Log matching: in every reachable state, two logs with the same term at an index are equal up to
      and including that index. */
  lemma {:induction false} LogsMatch(run: seq<Cluster>, i: nat, n1: NodeId, n2: NodeId, k: nat)
    requires IsRun(run) && i < |run| && n1 in run[i].nodes && n2 in run[i].nodes
    requires k < |run[i].nodes[n1].log| && k < |run[i].nodes[n2].log|
    requires run[i].nodes[n1].log[k].term == run[i].nodes[n2].log[k].term
    ensures run[i].nodes[n1].log[..k + 1] == run[i].nodes[n2].log[..k + 1]
  {
    RunHolds(run, i, i);
    assert NodeOk(run[i].voters, run[i].hist, n1, run[i].nodes[n1]);
    assert NodeOk(run[i].voters, run[i].hist, n2, run[i].nodes[n2]);
    LogMatching(run[i].hist, run[i].nodes[n1].log, run[i].nodes[n2].log);
  }

  /** State machine safety: no two replicas, in any incarnation, ever hand different commands to their
      state machines at the same index. */
  lemma {:induction false} StateMachineSafety(run: seq<Cluster>, i: nat, j: nat, n1: NodeId, n2: NodeId, idx: nat, c1: Command, c2: Command)
    requires IsRun(run) && i <= j < |run|
    requires (n1, idx, c1) in run[i].applied && (n2, idx, c2) in run[j].applied
    ensures c1 == c2
  {
    RunHolds(run, i, j);
    var voters, h := run[j].voters, run[j].hist;
    assert Delivered(voters, h, idx, c1) && Delivered(voters, h, idx, c2);
    var t1: nat, k1: nat :| Committed(voters, h, t1, k1) && 1 <= idx <= k1 && Upto(h, t1, k1)[idx - 1].command == c1;
    var t2: nat, k2: nat :| Committed(voters, h, t2, k2) && 1 <= idx <= k2 && Upto(h, t2, k2)[idx - 1].command == c2;
    CommittedAgree(voters, h, t1, k1, t2, k2);
  }

  /** Every later leader holds every prefix committed so far. */
  lemma {:induction false} LaterLeadersHoldCommitted(run: seq<Cluster>, i: nat, j: nat, t: nat, k: nat, n: NodeId)
    requires IsRun(run) && i <= j < |run| && n in run[j].nodes
    requires Committed(run[i].voters, run[i].hist, t, k)
    requires run[j].nodes[n].role.Leader? && run[j].nodes[n].term >= t
    ensures Upto(run[i].hist, t, k) <= run[j].nodes[n].log
  {
    RunHolds(run, i, j);
    CommittedMono(run[i].voters, run[i].hist, run[j].hist, t, k);
    assert NodeOk(run[j].voters, run[j].hist, n, run[j].nodes[n]);
    if t < run[j].nodes[n].term {
      LeaderCompleteness(run[j].voters, run[j].hist, t, k, run[j].nodes[n].term);
    }
  }

  /** Sound acknowledgement: a follower that answers success names its whole log length, and all of that
      log is part of the log of the leader of that term whenever that leader is met later. */
  lemma {:induction false} SoundAcknowledgement(run: seq<Cluster>, i: nat, j: nat, p: Packet, n: NodeId)
    requires IsRun(run) && i < j < |run| && Enabled(run[i], RecvAppend(p)) && run[i + 1] == Do(run[i], RecvAppend(p))
    requires HandleAppend(Config(p.dst, run[i].voters), run[i].nodes[p.dst], p.areq).1.success
    requires n in run[j].nodes && run[j].nodes[n].role.Leader? && run[j].nodes[n].term == p.areq.term
    ensures run[i + 1].nodes[p.dst].log <= run[j].nodes[n].log
    ensures AppendReturn(n, p.areq.term, AppendResponse(p.areq.term, true, p.dst, |run[i + 1].nodes[p.dst].log|)) in run[i + 1].net
  {
    RunHolds(run, i, i);
    RunHolds(run, i + 1, j);
    AcknowledgedLog(run[i], p);
    assert run[i + 1].hist.reigns[p.areq.term].log <= run[j].hist.reigns[p.areq.term].log;
    assert NodeOk(run[j].voters, run[j].hist, n, run[j].nodes[n]);
  }

  lemma {:induction false} AcknowledgedLog(c: Cluster, p: Packet)
    requires Inv(c) && p in c.net && p.AppendCall? && p.dst in c.nodes
    requires HandleAppend(Config(p.dst, c.voters), c.nodes[p.dst], p.areq).1.success
    ensures p.areq.term in c.hist.reigns && c.hist.reigns[p.areq.term].leader == p.areq.leader
    ensures AfterAppend(c, p).nodes[p.dst].log <= c.hist.reigns[p.areq.term].log
    ensures AppendReturn(p.areq.leader, p.areq.term,
                         AppendResponse(p.areq.term, true, p.dst, |AfterAppend(c, p).nodes[p.dst].log|)) in AfterAppend(c, p).net
    ensures AfterAppend(c, p).hist.reigns == c.hist.reigns
  {
    assert PacketOk(c.voters, c.hist, p) && NodeOk(c.voters, c.hist, p.dst, c.nodes[p.dst]);
    ListeningOk(c.voters, c.hist, p.dst, c.nodes[p.dst], p.areq);
    MergedOk(c.voters, c.hist, p.dst, Listening(c.nodes[p.dst], p.areq), p.areq);
  }

  /** A leader that has applied an entry of its own term has applied everything that was committed in
      earlier terms. */
  lemma {:induction false} ReadyLeaderIsCaughtUp(run: seq<Cluster>, i: nat, n: NodeId, t: nat, k: nat)
    requires IsRun(run) && i < |run| && n in run[i].nodes && IsReady(run[i].nodes[n])
    requires Committed(run[i].voters, run[i].hist, t, k) && t < run[i].nodes[n].term
    ensures k < run[i].nodes[n].lastApplied <= |run[i].nodes[n].log|
    ensures run[i].nodes[n].log[..k] == Upto(run[i].hist, t, k)
  {
    RunHolds(run, i, i);
    var c := run[i];
    ReadyHoldsCommitted(c, n, t, k);
  }

  lemma {:induction false} ReadyHoldsCommitted(c: Cluster, n: NodeId, t: nat, k: nat)
    requires Inv(c) && n in c.nodes && IsReady(c.nodes[n])
    requires Committed(c.voters, c.hist, t, k) && t < c.nodes[n].term
    ensures k < c.nodes[n].lastApplied <= |c.nodes[n].log|
    ensures c.nodes[n].log[..k] == Upto(c.hist, t, k)
  {
    var s := c.nodes[n];
    assert NodeOk(c.voters, c.hist, n, s) && ReignOk(c.voters, c.hist, s.term);
    LeaderCompleteness(c.voters, c.hist, t, k, s.term);
    assert s.log[k - 1] == Upto(c.hist, t, k)[k - 1];
  }

  // ---- what reaches the state machines ------------------------------------------------------------------

  /** Replica `n` has handed its entry at `i` to its state machine. */
  ghost predicate HasApplied(c: Cluster, n: NodeId, i: nat)
    requires n in c.nodes && 1 <= i <= |c.nodes[n].log|
  {
    (n, i, c.nodes[n].log[i - 1].command) in c.applied
  }

  ghost predicate AllApplied(c: Cluster) {
    forall n, i: nat {:trigger HasApplied(c, n, i)} ::
      n in c.nodes && 1 <= i <= c.nodes[n].lastApplied <= |c.nodes[n].log| ==> HasApplied(c, n, i)
  }

  /** The replica that takes the step. */
  function Actor(step: Step): NodeId {
    match step
    case Timeout(n) => n
    case RecvVote(p, _) => if p.VoteCall? then p.dst else NodeId("")
    case RecvVoteReply(p) => if p.VoteReturn? then p.vreq.candidate else NodeId("")
    case SendAppend(n, _) => n
    case RecvAppend(p) => if p.AppendCall? then p.dst else NodeId("")
    case RecvAppendReply(p) => if p.AppendReturn? then p.leader else NodeId("")
    case ClientPropose(n, _) => n
    case Restart(n) => n
    case TornVote(p) => if p.VoteCall? then p.dst else NodeId("")
    case TornAppend(p, _) => if p.AppendCall? then p.dst else NodeId("")
  }

  lemma {:induction false} StepIsUpdate(c: Cluster, step: Step)
    requires Enabled(c, step)
    ensures var n, c' := Actor(step), Do(c, step);
            && n in c.nodes && n in c'.nodes && c'.nodes == c.nodes[n := c'.nodes[n]]
            && c'.applied == c.applied + NewlyApplied(n, c.nodes[n], c'.nodes[n])
  {
  }

  /** Two committed logs do not differ where both reach. */
  lemma {:induction false} CommittedLogsAgree(voters: set<NodeId>, h: History, a: seq<Entry>, s: nat, b: seq<Entry>, t: nat, i: nat)
    requires HistOk(voters, h) && CommittedLog(voters, h, a, s) && CommittedLog(voters, h, b, t) && i < |a| && i < |b|
    ensures a[i] == b[i]
  {
    var t1: nat, k1: nat :| t1 <= s && Committed(voters, h, t1, k1) && a <= Upto(h, t1, k1);
    var t2: nat, k2: nat :| t2 <= t && Committed(voters, h, t2, k2) && b <= Upto(h, t2, k2);
    CommittedAgree(voters, h, t1, k1, t2, k2);
  }

  /** What a replica has applied is at the same place in its log for as long as its applied index stays that high. */
  lemma {:induction false} AppliedStays(c: Cluster, c': Cluster, n: NodeId, i: nat)
    requires Inv(c) && Inv(c') && Extends(c.hist, c'.hist) && c.voters == c'.voters && n in c.nodes && n in c'.nodes
    requires 1 <= i <= c.nodes[n].lastApplied && i <= c'.nodes[n].lastApplied
    ensures i <= |c.nodes[n].log| && i <= |c'.nodes[n].log| && c'.nodes[n].log[i - 1] == c.nodes[n].log[i - 1]
  {
    var s, s' := c.nodes[n], c'.nodes[n];
    assert NodeOk(c.voters, c.hist, n, s) && NodeOk(c'.voters, c'.hist, n, s');
    CommittedLogMono(c.voters, c.hist, c'.hist, s.log[..s.commitIndex], s.term, s.term);
    CommittedLogsAgree(c'.voters, c'.hist, s.log[..s.commitIndex], s.term, s'.log[..s'.commitIndex], s'.term, i - 1);
  }

  lemma {:induction false} NewIsApplied(n: NodeId, s: NodeState, s': NodeState, i: nat)
    requires s.lastApplied < i <= s'.lastApplied <= |s'.log| && s'.log[i - 1].index == i
    ensures (n, i, s'.log[i - 1].command) in NewlyApplied(n, s, s')
  {
    AppliedBetweenIs(s'.log, s.lastApplied, s'.lastApplied);
    assert AppliedBetween(s'.log, s.lastApplied, s'.lastApplied)[i - 1 - s.lastApplied] == (i, s'.log[i - 1].command);
  }

  lemma {:induction false} StepApplies(c: Cluster, step: Step)
    requires Inv(c) && AllApplied(c) && Enabled(c, step)
    ensures AllApplied(Do(c, step))
  {
    var m, c' := Actor(step), Do(c, step);
    StepHolds(c, step);
    StepIsUpdate(c, step);
    forall n, i: nat | n in c'.nodes && 1 <= i <= c'.nodes[n].lastApplied <= |c'.nodes[n].log| ensures HasApplied(c', n, i) {
      assert NodeOk(c.voters, c.hist, n, c.nodes[n]) && NodeOk(c'.voters, c'.hist, n, c'.nodes[n]);
      if i <= c.nodes[n].lastApplied {
        AppliedStays(c, c', n, i);
        assert HasApplied(c, n, i);
      } else {
        assert n == m && InReign(c'.hist, c'.nodes[n].log, i - 1);
        NewIsApplied(n, c.nodes[n], c'.nodes[n], i);
      }
    }
  }

  /** Nothing is skipped: at every moment of every run a replica has handed over every entry up to its applied index. */
  lemma {:induction false} EverythingApplied(run: seq<Cluster>, j: nat)
    requires IsRun(run) && j < |run|
    ensures Inv(run[j]) && AllApplied(run[j])
  {
    if j == 0 {
      NothingApplied(run[0]);
    } else {
      EverythingApplied(run, j - 1);
      FollowsApplies(run[j - 1], run[j]);
    }
  }

  lemma {:induction false} NothingApplied(c: Cluster)
    requires Init(c)
    ensures Inv(c) && AllApplied(c)
  {
    InitHolds(c);
    assert forall n :: n in c.nodes ==> c.nodes[n].lastApplied == 0;
  }

  lemma {:induction false} FollowsApplies(c: Cluster, c': Cluster)
    requires Inv(c) && AllApplied(c) && Follows(c, c')
    ensures Inv(c') && AllApplied(c')
  {
    var step :| Enabled(c, step) && c' == Do(c, step);
    StepHolds(c, step);
    StepApplies(c, step);
  }

  /** A proposal that was answered with an index is what the leader applies there, once it has applied that far in the same term. */
  lemma {:induction false} ProposalApplied(run: seq<Cluster>, i: nat, j: nat, n: NodeId, command: Command, index: nat)
    requires IsRun(run) && i < j < |run| && Enabled(run[i], ClientPropose(n, command)) && run[i + 1] == Do(run[i], ClientPropose(n, command))
    requires Propose(run[i].nodes[n], command).1 == Some(index)
    requires n in run[j].nodes && run[j].nodes[n].role.Leader? && run[j].nodes[n].term == run[i].nodes[n].term && run[j].nodes[n].lastApplied >= index
    ensures (n, index, command) in run[j].applied
    ensures 1 <= index <= |run[j].nodes[n].log| && run[j].nodes[n].log[index - 1] == Entry(run[i].nodes[n].term, index, command)
  {
    ProposeAnswers(run[i].nodes[n], command);
    ElectionSafety(run, i + 1, j, n, n);
    EverythingApplied(run, j);
    assert NodeOk(run[j].voters, run[j].hist, n, run[j].nodes[n]);
    assert run[j].nodes[n].log[index - 1] == run[i + 1].nodes[n].log[index - 1];
    assert HasApplied(run[j], n, index);
  }
}
