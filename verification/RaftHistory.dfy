/** How each recorded event extends the history of a Raft group, and why a committed prefix is
    carried by every later leader. */
module RaftHistory {
  import opened Commands
  import opened RaftNode
  import opened RaftCluster
  import opened RaftInvariant
  import opened RaftMonotone

  lemma {:induction false} QuorumsMeet(voters: set<NodeId>, a: set<NodeId>, b: set<NodeId>) returns (x: NodeId)
    requires a <= voters && b <= voters
    requires |a| >= |voters| / 2 + 1 && |b| >= |voters| / 2 + 1
    ensures x in a && x in b
  {
    if a * b == {} {
      SubsetSize(a + b, voters);
      assert false;
    }
    x :| x in a * b;
  }

  /** Leader completeness: every leader elected after T carries every prefix committed in T. */
  lemma {:induction false} LeaderCompleteness(voters: set<NodeId>, h: History, t: nat, k: nat, t2: nat)
    requires HistOk(voters, h) && Committed(voters, h, t, k)
    requires t < t2 && t2 in h.reigns
    ensures Upto(h, t, k) <= h.reigns[t2].log
    decreases t2
  {
    assert ReignOk(voters, h, t2);
    var x := QuorumsMeet(voters, (set v | v in voters && Acked(h, v, t, k)), h.reigns[t2].quorum);
    var m :| (t, x, m) in h.acks && k <= m;
    assert VoterOk(h, t2, x) && KeepsAt(h, x, h.reigns[t2].log, t2 - 1, t, m, k);
    if !(Upto(h, t, k) <= h.reigns[t2].log) {
      var t3 :| t < t3 <= t2 - 1 && t3 in h.reigns && !(Upto(h, t, k) <= h.reigns[t3].log);
      LeaderCompleteness(voters, h, t, k, t3);
    }
  }

  /** Two committed prefixes never disagree. */
  lemma {:induction false} CommittedAgree(voters: set<NodeId>, h: History, t: nat, k: nat, t2: nat, k2: nat)
    requires HistOk(voters, h) && Committed(voters, h, t, k) && Committed(voters, h, t2, k2)
    ensures Upto(h, t, k) <= Upto(h, t2, k2) || Upto(h, t2, k2) <= Upto(h, t, k)
  {
    if t < t2 {
      LeaderCompleteness(voters, h, t, k, t2);
    } else if t2 < t {
      LeaderCompleteness(voters, h, t2, k2, t);
    }
  }

  /** A log prefix committed by term `t` is part of the log of the leader of `t`. */
  lemma {:induction false} CommittedInReign(voters: set<NodeId>, h: History, log: seq<Entry>, t: nat)
    requires HistOk(voters, h) && CommittedLog(voters, h, log, t) && t in h.reigns
    ensures log <= h.reigns[t].log
  {
    if log != [] {
      var t0: nat, k: nat :| t0 <= t && Committed(voters, h, t0, k) && log <= Upto(h, t0, k);
      if t0 < t { LeaderCompleteness(voters, h, t0, k, t); }
    }
  }

  // ---- what stays -------------------------------------------------------------------------------

  /** Acknowledgements are only added for `n`, and only in terms from `lo` on. */
  ghost predicate NewAcks(h: History, h': History, n: NodeId, lo: nat) {
    forall t, v, m :: (t, v, m) in h'.acks && (t, v, m) !in h.acks ==> v == n && t >= lo
  }

  /** What replica `x` promised before term `t` is unaffected when a replica acts in a later term. */
  lemma {:induction false} KeepsOld(voters: set<NodeId>, h: History, h': History, n: NodeId, s: NodeState, x: NodeId, log: seq<Entry>, t: nat)
    requires HistOk(voters, h) && Extends(h, h') && NodeOk(voters, h, n, s) && NewAcks(h, h', n, s.term)
    requires Keeps(h, x, log, t - 1)
    requires x == n ==> t <= s.term
    ensures Keeps(h', x, log, t - 1)
  {
    KeepsMono(voters, h, h', x, log, t - 1);
  }

  lemma {:induction false} KeepsLonger(h: History, v: NodeId, log: seq<Entry>, log': seq<Entry>, bound: int)
    requires Keeps(h, v, log, bound) && log <= log'
    ensures Keeps(h, v, log', bound)
  {
    forall t, m, k | (t, v, m) in h.acks && t <= bound && k <= m && Point(h, t, k)
      ensures KeepsAt(h, v, log', bound, t, m, k)
    {
      assert KeepsAt(h, v, log, bound, t, m, k);
    }
  }

  lemma {:induction false} OldReign(voters: set<NodeId>, h: History, h': History, n: NodeId, s: NodeState, t: nat)
    requires HistOk(voters, h) && Extends(h, h') && NodeOk(voters, h, n, s) && NewAcks(h, h', n, s.term)
    requires t in h.reigns
    requires LogOk(h', h'.reigns[t].log) && LastTerm(h'.reigns[t].log) == t
    requires (t, h'.reigns[t].leader, |h'.reigns[t].log|) in h'.acks
    ensures ReignOk(voters, h', t)
  {
    assert ReignOk(voters, h, t) && ReignGrows(t, h.reigns[t], h'.reigns[t]);
    var r := h.reigns[t];
    forall x | x in r.quorum
      ensures VoterOk(h', t, x)
    {
      assert VoterOk(h, t, x);
      KeepsOld(voters, h, h', n, s, x, r.log, t);
      KeepsLonger(h', x, r.log, h'.reigns[t].log, t - 1);
    }
  }

  lemma {:induction false} SameReign(voters: set<NodeId>, h: History, h': History, n: NodeId, s: NodeState, t: nat)
    requires HistOk(voters, h) && Extends(h, h') && NodeOk(voters, h, n, s) && NewAcks(h, h', n, s.term)
    requires t in h.reigns && h'.reigns[t] == h.reigns[t]
    ensures ReignOk(voters, h', t)
  {
    assert ReignOk(voters, h, t);
    LogOkMono(h, h', h.reigns[t].log);
    OldReign(voters, h, h', n, s, t);
  }

  lemma {:induction false} OldCampaign(voters: set<NodeId>, h: History, h': History, n: NodeId, s: NodeState, t: nat, x: NodeId)
    requires HistOk(voters, h) && Extends(h, h') && NodeOk(voters, h, n, s) && NewAcks(h, h', n, s.term)
    requires (t, x) in h.campaigns
    ensures CampaignOk(voters, h', t, x)
  {
    assert CampaignOk(voters, h, t, x);
    LogOkMono(h, h', h.campaigns[(t, x)]);
    KeepsOld(voters, h, h', n, s, x, h.campaigns[(t, x)], t);
  }

  lemma {:induction false} OldGrant(voters: set<NodeId>, h: History, h': History, n: NodeId, s: NodeState, t: nat, v: NodeId, cand: NodeId)
    requires HistOk(voters, h) && Extends(h, h') && NodeOk(voters, h, n, s) && NewAcks(h, h', n, s.term)
    requires (t, v, cand) in h.grants
    requires t in h'.reigns && t !in h.reigns ==> h'.reigns[t].leader != v
    ensures GrantOk(voters, h', t, v, cand)
  {
    assert GrantOk(voters, h, t, v, cand);
    if t !in h'.reigns { KeepsOld(voters, h, h', n, s, v, h.campaigns[(t, cand)], t); }
  }

  /** When no vote or campaign is added, only the reigns need attention. */
  lemma {:induction false} OldItems(voters: set<NodeId>, h: History, h': History, n: NodeId, s: NodeState)
    requires HistOk(voters, h) && Extends(h, h') && NodeOk(voters, h, n, s) && NewAcks(h, h', n, s.term)
    requires h'.campaigns == h.campaigns && h'.grants == h.grants
    requires forall t {:trigger ReignOk(voters, h', t)} :: t in h'.reigns ==> ReignOk(voters, h', t)
    requires forall t, v, cand :: (t, v, cand) in h.grants && t in h'.reigns && t !in h.reigns ==> h'.reigns[t].leader != v
    requires forall m :: (s.term, n, m) in h'.acks ==> s.term in h'.reigns && 1 <= m <= |h'.reigns[s.term].log|
    requires forall t, m :: (t, n, m) in h'.acks ==> t <= s.term
    ensures HistOk(voters, h')
  {
    forall t, x | (t, x) in h'.campaigns ensures CampaignOk(voters, h', t, x) {
      OldCampaign(voters, h, h', n, s, t, x);
    }
    forall t, v2, c2 | (t, v2, c2) in h'.grants ensures GrantOk(voters, h', t, v2, c2) {
      OldGrant(voters, h, h', n, s, t, v2, c2);
    }
    forall t, v, m | (t, v, m) in h'.acks ensures v in voters && t in h'.reigns && 1 <= m <= |h'.reigns[t].log| {
      if (t, v, m) in h.acks { assert ReignGrows(t, h.reigns[t], h'.reigns[t]); }
    }
  }

  // ---- the five recorded events -----------------------------------------------------------------

  lemma {:induction false} HistCampaign(voters: set<NodeId>, h: History, n: NodeId, s: NodeState, h': History)
    requires HistOk(voters, h) && NodeOk(voters, h, n, s)
    requires h' == h.(campaigns := h.campaigns[(s.term + 1, n) := s.log])
    ensures Extends(h, h') && HistOk(voters, h') && OnlyAbout(h, h', n)
  {
    assert (s.term + 1, n) !in h.campaigns;
    forall t | t in h'.reigns ensures ReignOk(voters, h', t) {
      SameReign(voters, h, h', n, s, t);
    }
    forall t, x | (t, x) in h'.campaigns ensures CampaignOk(voters, h', t, x) {
      if (t, x) in h.campaigns {
        OldCampaign(voters, h, h', n, s, t, x);
      } else {
        LogOkMono(h, h', s.log);
        KeepsMono(voters, h, h', n, s.log, s.term);
      }
    }
    forall t, v, cand | (t, v, cand) in h'.grants ensures GrantOk(voters, h', t, v, cand) {
      OldGrant(voters, h, h', n, s, t, v, cand);
    }
  }

  ghost predicate Grants(h: History, v: NodeId, s: NodeState, cand: NodeId, h': History) {
    && h' == h.(grants := h.grants + {(s.term, v, cand)})
    && v != cand && (s.term, cand) in h.campaigns
    && (s.votedFor == None || s.votedFor == Some(cand))
    && (s.term !in h.reigns ==> Keeps(h, v, h.campaigns[(s.term, cand)], s.term - 1))
  }

  lemma {:induction false} GrantsAfter(voters: set<NodeId>, h: History, v: NodeId, s: NodeState, cand: NodeId, h': History, t: nat, v2: NodeId, c2: NodeId)
    requires HistOk(voters, h) && NodeOk(voters, h, v, s) && Grants(h, v, s, cand, h') && Extends(h, h')
    requires (t, v2, c2) in h'.grants
    ensures GrantOk(voters, h', t, v2, c2)
  {
    if (t, v2, c2) in h.grants {
      OldGrant(voters, h, h', v, s, t, v2, c2);
    } else if t !in h.reigns {
      KeepsMono(voters, h, h', v, h.campaigns[(t, cand)], t - 1);
    }
  }

  lemma {:induction false} HistGrant(voters: set<NodeId>, h: History, v: NodeId, s: NodeState, cand: NodeId, h': History)
    requires HistOk(voters, h) && NodeOk(voters, h, v, s) && Grants(h, v, s, cand, h')
    ensures Extends(h, h') && HistOk(voters, h') && OnlyAbout(h, h', v)
  {
    forall t | t in h'.reigns ensures ReignOk(voters, h', t) {
      SameReign(voters, h, h', v, s, t);
    }
    forall t, x | (t, x) in h'.campaigns ensures CampaignOk(voters, h', t, x) {
      OldCampaign(voters, h, h', v, s, t, x);
    }
    forall t, v2, c2 | (t, v2, c2) in h'.grants ensures GrantOk(voters, h', t, v2, c2) {
      GrantsAfter(voters, h, v, s, cand, h', t, v2, c2);
    }
  }

  lemma {:induction false} HistAck(voters: set<NodeId>, h: History, n: NodeId, s: NodeState, m: nat, h': History)
    requires HistOk(voters, h) && NodeOk(voters, h, n, s)
    requires s.term in h.reigns && 1 <= m <= |h.reigns[s.term].log|
    requires h' == h.(acks := h.acks + {(s.term, n, m)})
    ensures Extends(h, h') && HistOk(voters, h') && OnlyAbout(h, h', n)
  {
    forall t | t in h'.reigns ensures ReignOk(voters, h', t) {
      SameReign(voters, h, h', n, s, t);
    }
    OldItems(voters, h, h', n, s);
  }

  /** Election safety: a candidate backed by a majority is the first leader of its term, although
      candidates that step down forget their own vote. */
  lemma {:induction false} FirstOfItsTerm(voters: set<NodeId>, h: History, n: NodeId, s: NodeState)
    requires HistOk(voters, h) && NodeOk(voters, h, n, s)
    requires s.role.Candidate? && |s.votes * voters| >= |voters| / 2 + 1
    ensures s.term !in h.reigns
  {
    if s.term in h.reigns {
      assert ReignOk(voters, h, s.term);
      var r := h.reigns[s.term];
      var x := QuorumsMeet(voters, s.votes * voters, r.quorum);
      var votes := (VoterOk(h, s.term, x), GrantOk(voters, h, s.term, x, n));
      assert false;
    }
  }

  ghost predicate Elects(voters: set<NodeId>, h: History, n: NodeId, s: NodeState, log': seq<Entry>, h': History) {
    && s.role.Candidate? && n in s.votes && |s.votes * voters| >= |voters| / 2 + 1
    && log' == s.log + [Entry(s.term, |s.log| + 1, Noop)]
    && h' == h.(reigns := h.reigns[s.term := Reign(n, s.votes * voters, log')],
                acks := h.acks + {(s.term, n, |log'|)})
  }

  lemma {:induction false} ElectExtends(voters: set<NodeId>, h: History, n: NodeId, s: NodeState, log': seq<Entry>, h': History)
    requires HistOk(voters, h) && NodeOk(voters, h, n, s) && Elects(voters, h, n, s, log', h')
    ensures s.term !in h.reigns && Extends(h, h') && LogOk(h', log') && OnlyAbout(h, h', n)
  {
    FirstOfItsTerm(voters, h, n, s);
    LogOkMono(h, h', s.log);
    LogOkAppend(h', s.log, log', s.term);
  }

  lemma {:induction false} NewReign(voters: set<NodeId>, h: History, n: NodeId, s: NodeState, log': seq<Entry>, h': History)
    requires HistOk(voters, h) && NodeOk(voters, h, n, s) && Elects(voters, h, n, s, log', h')
    ensures ReignOk(voters, h', s.term)
  {
    ElectExtends(voters, h, n, s, log', h');
    assert CampaignOk(voters, h, s.term, n);
    forall x | x in s.votes * voters ensures VoterOk(h', s.term, x) {
      if x != n { assert GrantOk(voters, h, s.term, x, n); }
      KeepsMono(voters, h, h', x, s.log, s.term - 1);
      KeepsLonger(h', x, s.log, log', s.term - 1);
    }
  }

  lemma {:induction false} HistElect(voters: set<NodeId>, h: History, n: NodeId, s: NodeState, log': seq<Entry>, h': History)
    requires HistOk(voters, h) && NodeOk(voters, h, n, s) && Elects(voters, h, n, s, log', h')
    ensures s.term !in h.reigns && Extends(h, h') && HistOk(voters, h') && LogOk(h', log') && OnlyAbout(h, h', n)
  {
    ElectExtends(voters, h, n, s, log', h');
    forall t | t in h'.reigns ensures ReignOk(voters, h', t) {
      if t != s.term { SameReign(voters, h, h', n, s, t); } else { NewReign(voters, h, n, s, log', h'); }
    }
    OldItems(voters, h, h', n, s);
  }

  /** Appending an entry of the leader's own term to the leader's log. */
  lemma {:induction false} LogOkAppend(h: History, log: seq<Entry>, log': seq<Entry>, t: nat)
    requires LogOk(h, log) && LastTerm(log) <= t
    requires |log'| == |log| + 1 && log'[..|log|] == log && log'[|log|].term == t && log'[|log|].index == |log| + 1
    requires t in h.reigns && h.reigns[t].log == log'
    ensures LogOk(h, log')
  {
    forall i: nat | i < |log'| ensures InReign(h, log', i) {
      if i < |log| {
        assert InReign(h, log, i);
        assert log'[..i + 1] == log[..i + 1];
      } else {
        assert log'[..i + 1] == log';
      }
    }
  }

  ghost predicate Proposes(h: History, n: NodeId, s: NodeState, log': seq<Entry>, h': History) {
    && s.role.Leader? && s.term in h.reigns
    && |log'| == |s.log| + 1 && log'[..|s.log|] == s.log
    && log'[|s.log|].term == s.term && log'[|s.log|].index == |s.log| + 1
    && h' == h.(reigns := h.reigns[s.term := h.reigns[s.term].(log := log')], acks := h.acks + {(s.term, n, |log'|)})
  }

  lemma {:induction false} ProposeExtends(voters: set<NodeId>, h: History, n: NodeId, s: NodeState, log': seq<Entry>, h': History)
    requires HistOk(voters, h) && NodeOk(voters, h, n, s) && Proposes(h, n, s, log', h')
    ensures Extends(h, h') && LogOk(h', log') && OnlyAbout(h, h', n)
  {
    LogOkMono(h, h', s.log);
    LogOkAppend(h', s.log, log', s.term);
  }

  lemma {:induction false} HistPropose(voters: set<NodeId>, h: History, n: NodeId, s: NodeState, log': seq<Entry>, h': History)
    requires HistOk(voters, h) && NodeOk(voters, h, n, s) && Proposes(h, n, s, log', h')
    ensures Extends(h, h') && HistOk(voters, h') && LogOk(h', log') && OnlyAbout(h, h', n)
  {
    ProposeExtends(voters, h, n, s, log', h');
    forall t | t in h'.reigns ensures ReignOk(voters, h', t) {
      if t != s.term { SameReign(voters, h, h', n, s, t); } else { OldReign(voters, h, h', n, s, t); }
    }
    assert ReignGrows(s.term, h.reigns[s.term], h'.reigns[s.term]);
    OldItems(voters, h, h', n, s);
  }
}
