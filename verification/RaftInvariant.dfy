/** What holds in every reachable state of a Raft group. */
module RaftInvariant {
  import opened Commands
  import opened RaftNode
  import opened RaftCluster

  // ---- logs against the history ----------------------------------------------------------------

  ghost predicate Sorted(log: seq<Entry>) {
    forall i, j :: 0 <= i <= j < |log| ==> log[i].term <= log[j].term
  }

  /** Every prefix that ends in an entry of term T is a prefix of the log of T's leader. */
  ghost predicate LogOk(h: History, log: seq<Entry>) {
    && Sorted(log)
    && forall i: nat {:trigger InReign(h, log, i)} :: i < |log| ==> InReign(h, log, i)
  }

  ghost predicate InReign(h: History, log: seq<Entry>, i: nat) {
    && i < |log|
    && log[i].index == i + 1
    && log[i].term in h.reigns
    && log[..i + 1] <= h.reigns[log[i].term].log
  }

  /** The leader of term T once held k entries, the last of them its own. */
  ghost predicate Point(h: History, t: nat, k: nat) {
    t in h.reigns && 1 <= k <= |h.reigns[t].log| && h.reigns[t].log[k - 1].term == t
  }

  ghost function Upto(h: History, t: nat, k: nat): seq<Entry>
    requires Point(h, t, k)
  {
    h.reigns[t].log[..k]
  }

  /** Some leader elected after T, up to `bound`, does not carry the prefix (T, k). */
  ghost predicate Lost(h: History, t: nat, k: nat, bound: int)
    requires Point(h, t, k)
  {
    exists t2 :: t < t2 <= bound && t2 in h.reigns && !(Upto(h, t, k) <= h.reigns[t2].log)
  }

  /** `log` carries everything that `v` acknowledged in terms up to `bound`, except for prefixes that
      a later leader up to `bound` already lacks. */
  ghost predicate Keeps(h: History, v: NodeId, log: seq<Entry>, bound: int) {
    forall t, m, k {:trigger KeepsAt(h, v, log, bound, t, m, k)} ::
      (t, v, m) in h.acks && t <= bound && k <= m && Point(h, t, k) ==> KeepsAt(h, v, log, bound, t, m, k)
  }

  ghost predicate KeepsAt(h: History, v: NodeId, log: seq<Entry>, bound: int, t: nat, m: nat, k: nat) {
    Point(h, t, k) && (Upto(h, t, k) <= log || Lost(h, t, k, bound))
  }

  // ---- commitment ------------------------------------------------------------------------------

  ghost predicate Acked(h: History, v: NodeId, t: nat, k: nat) {
    exists m :: (t, v, m) in h.acks && k <= m
  }

  /** A majority acknowledged the prefix (T, k) in term T. */
  ghost predicate Committed(voters: set<NodeId>, h: History, t: nat, k: nat) {
    Point(h, t, k) && |set v | v in voters && Acked(h, v, t, k)| >= |voters| / 2 + 1
  }

  ghost predicate CommittedLog(voters: set<NodeId>, h: History, log: seq<Entry>, bound: nat) {
    log == [] || exists t: nat, k: nat :: t <= bound && Committed(voters, h, t, k) && log <= Upto(h, t, k)
  }

  // ---- the invariant ---------------------------------------------------------------------------

  ghost predicate NodeOk(voters: set<NodeId>, h: History, n: NodeId, s: NodeState) {
    && n in voters
    && LogOk(h, s.log) && LastTerm(s.log) <= s.term
    && Keeps(h, n, s.log, s.term)
    && PastOk(h, n, s)
    && RoleOk(voters, h, n, s)
    && AppliedOk(voters, h, s)
  }

  /** What the replica did before is in line with its term and vote. */
  ghost predicate PastOk(h: History, n: NodeId, s: NodeState) {
    && (forall t, m :: (t, n, m) in h.acks ==> t <= s.term)
    && (forall t :: (t, n) in h.campaigns ==> t <= s.term)
    && (forall t, cand :: (t, n, cand) in h.grants ==>
          t <= s.term && (t == s.term ==> s.votedFor == Some(cand) && s.role.Follower?))
    && (forall t :: t in h.reigns && h.reigns[t].leader == n ==>
          t <= s.term && (t == s.term ==> s.votedFor == Some(n) && !s.role.Candidate?))
  }

  ghost predicate RoleOk(voters: set<NodeId>, h: History, n: NodeId, s: NodeState) {
    match s.role
    case Follower => true
    case Candidate =>
      && s.votedFor == Some(n) && n in s.votes
      && (s.term, n) in h.campaigns && h.campaigns[(s.term, n)] == s.log
      && (forall x :: x in s.votes ==> x == n || (s.term, x, n) in h.grants)
    case Leader =>
      && s.votedFor == Some(n)
      && s.term in h.reigns && h.reigns[s.term].leader == n && h.reigns[s.term].log == s.log
      && (forall p :: p in s.nextIndex && p in voters && p != n ==> s.nextIndex[p] <= |s.log| + 1)
      && (forall p :: p in s.matchIndex && p in voters && p != n && s.matchIndex[p] > 0 ==> (s.term, p, s.matchIndex[p]) in h.acks)
  }

  ghost predicate AppliedOk(voters: set<NodeId>, h: History, s: NodeState) {
    && s.lastApplied <= s.commitIndex <= |s.log|
    && CommittedLog(voters, h, s.log[..s.commitIndex], s.term)
    && s.lastAppliedTerm == (if s.lastApplied == 0 then 0 else s.log[s.lastApplied - 1].term)
  }

  ghost predicate ReignOk(voters: set<NodeId>, h: History, t: nat) {
    && t in h.reigns && t >= 1
    && var r := h.reigns[t];
    && LogOk(h, r.log) && r.log != [] && LastTerm(r.log) == t
    && r.leader in voters && r.leader in r.quorum
    && r.quorum <= voters && |r.quorum| >= |voters| / 2 + 1
    && (forall x {:trigger VoterOk(h, t, x)} :: x in r.quorum ==> VoterOk(h, t, x))
    && (t, r.leader, |r.log|) in h.acks
  }

  ghost predicate VoterOk(h: History, t: nat, x: NodeId) {
    && t in h.reigns
    && (x == h.reigns[t].leader || (t, x, h.reigns[t].leader) in h.grants)
    && Keeps(h, x, h.reigns[t].log, t - 1)
  }

  ghost predicate CampaignOk(voters: set<NodeId>, h: History, t: nat, n: NodeId) {
    && (t, n) in h.campaigns
    && var log := h.campaigns[(t, n)];
    t >= 1 && n in voters && LogOk(h, log) && LastTerm(log) < t && Keeps(h, n, log, t - 1)
  }

  ghost predicate GrantOk(voters: set<NodeId>, h: History, t: nat, v: NodeId, cand: NodeId) {
    && v in voters && v != cand && (t, cand) in h.campaigns
    && (t in h.reigns ==> h.reigns[t].leader != v)
    && (t !in h.reigns ==> Keeps(h, v, h.campaigns[(t, cand)], t - 1))
  }

  ghost predicate HistOk(voters: set<NodeId>, h: History) {
    && (forall t {:trigger ReignOk(voters, h, t)} :: t in h.reigns ==> ReignOk(voters, h, t))
    && (forall t, n {:trigger CampaignOk(voters, h, t, n)} :: (t, n) in h.campaigns ==> CampaignOk(voters, h, t, n))
    && (forall t, v, cand {:trigger GrantOk(voters, h, t, v, cand)} :: (t, v, cand) in h.grants ==> GrantOk(voters, h, t, v, cand))
    && (forall t, v, c1, c2 :: (t, v, c1) in h.grants && (t, v, c2) in h.grants ==> c1 == c2)
    && (forall t, v, m :: (t, v, m) in h.acks ==> v in voters && t in h.reigns && 1 <= m <= |h.reigns[t].log|)
  }

  ghost predicate PacketOk(voters: set<NodeId>, h: History, p: Packet) {
    match p
    case VoteCall(dst, req) =>
      !req.preVote ==>
        && dst in voters && dst != req.candidate && (req.term, req.candidate) in h.campaigns
        && var log := h.campaigns[(req.term, req.candidate)];
           req.lastLogIndex == |log| && req.lastLogTerm == LastTerm(log)
    case VoteReturn(req, r) =>
      !req.preVote && r.granted ==> r.term == req.term && (req.term, r.voter, req.candidate) in h.grants
    case AppendCall(dst, req) =>
      dst in voters && RequestOk(voters, h, dst, req)
    case AppendReturn(leader, sent, r) =>
      && sent <= r.term
      && (r.success ==> r.term == sent && r.follower != leader && (sent, r.follower, r.matchIndex) in h.acks)
      && (!r.success && r.term == sent ==> sent in h.reigns && r.matchIndex < |h.reigns[sent].log|)
  }

  /** The request is a slice of the leader's log that reaches an entry of the leader's own term, and
      the commit index it names is committed. */
  ghost predicate RequestOk(voters: set<NodeId>, h: History, dst: NodeId, req: AppendRequest) {
    && req.term in h.reigns && h.reigns[req.term].leader == req.leader && dst != req.leader
    && var log := h.reigns[req.term].log;
    && req.prevIndex + |req.entries| <= |log|
    && req.entries == log[req.prevIndex..req.prevIndex + |req.entries|]
    && (req.prevIndex > 0 ==> req.prevTerm == log[req.prevIndex - 1].term)
    && Point(h, req.term, req.prevIndex + |req.entries|)
    && req.leaderCommit <= req.prevIndex + |req.entries|
    && CommittedLog(voters, h, log[..req.leaderCommit], req.term)
  }

  ghost predicate Delivered(voters: set<NodeId>, h: History, i: nat, command: Command) {
    exists t: nat, k: nat :: Committed(voters, h, t, k) && 1 <= i <= k && Upto(h, t, k)[i - 1].command == command
  }

  ghost predicate Inv(c: Cluster) {
    && c.nodes.Keys == c.voters
    && HistOk(c.voters, c.hist)
    && (forall n {:trigger NodeOk(c.voters, c.hist, n, c.nodes[n])} :: n in c.nodes ==> NodeOk(c.voters, c.hist, n, c.nodes[n]))
    && (forall p {:trigger PacketOk(c.voters, c.hist, p)} :: p in c.net ==> PacketOk(c.voters, c.hist, p))
    && (forall n, i, command :: (n, i, command) in c.applied ==> Delivered(c.voters, c.hist, i, command))
  }
}
