/** A Raft group as a step system: every replica, every packet ever sent, and the commands handed to
    the state machines. Packets are never removed, so a step may find any of them lost (never
    delivered), late, reordered or delivered again. Timers are steps that may fire at any moment. */
module RaftCluster {
  import opened Commands
  import opened RaftNode

  /** Calls and returns. A return carries what its caller remembers of the call it answers. */
  datatype Packet =
    | VoteCall(dst: NodeId, vreq: VoteRequest)
    | VoteReturn(vreq: VoteRequest, vresp: VoteResponse)
    | AppendCall(dst: NodeId, areq: AppendRequest)
    | AppendReturn(leader: NodeId, sentTerm: nat, aresp: AppendResponse)

  /** What happened under the leader elected for one term: who won, on whose votes, and its log. */
  datatype Reign = Reign(leader: NodeId, quorum: set<NodeId>, log: seq<Entry>)

  /** Bookkeeping that no handler reads: elections, campaigns (with the log each one offered), votes
      and acknowledged log lengths. */
  datatype History = History(
    reigns: map<nat, Reign>,
    campaigns: map<(nat, NodeId), seq<Entry>>,
    grants: set<(nat, NodeId, NodeId)>,        // (term, voter, candidate)
    acks: set<(nat, NodeId, nat)>)             // (term, replica, length)

  datatype Cluster = Cluster(
    voters: set<NodeId>,
    nodes: map<NodeId, NodeState>,
    net: set<Packet>,
    applied: set<(NodeId, nat, Command)>,      // every command ever handed over, by any incarnation
    hist: History)

  datatype Step =
    | Timeout(n: NodeId)
    | RecvVote(p: Packet, heardLeader: bool)
    | RecvVoteReply(p: Packet)
    | SendAppend(n: NodeId, peer: NodeId)
    | RecvAppend(p: Packet)
    | RecvAppendReply(p: Packet)
    | ClientPropose(n: NodeId, command: Command)
    | Restart(n: NodeId)
    | TornVote(p: Packet)                      // crash after the new term reached the disk, before the vote did
    | TornAppend(p: Packet, kept: nat)         // crash after `kept` of the entries reached the disk

  const FreshNode := NodeState(0, None, [], 0, 0, 0, Follower, None, {}, {}, 0, map[], map[])

  ghost predicate Init(c: Cluster) {
    && c.nodes == (map n | n in c.voters :: FreshNode)
    && c.net == {} && c.applied == {}
    && c.hist == History(map[], map[], {}, {})
  }

  function VoteCalls(cfg: Config, req: VoteRequest): set<Packet> {
    set p | p in cfg.Peers() :: VoteCall(p, req)
  }

  predicate Campaigns(s: NodeState, s': NodeState) { s'.role.Candidate? && s'.term != s.term }

  function CampaignCalls(cfg: Config, s: NodeState, s': NodeState): set<Packet> {
    if Campaigns(s, s') then VoteCalls(cfg, VoteRequestOf(cfg, s', false, s'.term)) else {}
  }

  // ---- bookkeeping ---------------------------------------------------------------------------

  function RecordCampaign(h: History, n: NodeId, s: NodeState, s': NodeState): History {
    if Campaigns(s, s') then h.(campaigns := h.campaigns[(s'.term, n) := s'.log]) else h
  }

  function RecordElection(h: History, cfg: Config, s: NodeState, s': NodeState): History {
    if s'.role.Leader? && !s.role.Leader? then
      h.(reigns := h.reigns[s'.term := Reign(cfg.id, s'.votes * cfg.voters, s'.log)],
         acks := h.acks + {(s'.term, cfg.id, |s'.log|)})
    else h
  }

  function RecordProposal(h: History, n: NodeId, s': NodeState): History {
    if s'.role.Leader? && s'.term in h.reigns then
      h.(reigns := h.reigns[s'.term := h.reigns[s'.term].(log := s'.log)],
         acks := h.acks + {(s'.term, n, |s'.log|)})
    else h
  }

  function RecordGrant(h: History, req: VoteRequest, r: VoteResponse): History {
    if !req.preVote && r.granted then h.(grants := h.grants + {(req.term, r.voter, req.candidate)}) else h
  }

  function RecordAck(h: History, req: AppendRequest, r: AppendResponse): History {
    if r.success then h.(acks := h.acks + {(req.term, r.follower, r.matchIndex)}) else h
  }

  // ---- steps ---------------------------------------------------------------------------------

  function NewlyApplied(n: NodeId, s: NodeState, s': NodeState): set<(NodeId, nat, Command)> {
    if s'.lastApplied <= |s'.log|
    then set x | x in AppliedBetween(s'.log, s.lastApplied, s'.lastApplied) :: (n, x.0, x.1)
    else {}
  }

  /** Replica `n` moves to `s'` and sends `sent`. */
  function Update(c: Cluster, n: NodeId, s': NodeState, sent: set<Packet>, h: History): Cluster
    requires n in c.nodes
  {
    c.(nodes := c.nodes[n := s'], net := c.net + sent,
       applied := c.applied + NewlyApplied(n, c.nodes[n], s'), hist := h)
  }

  predicate Enabled(c: Cluster, step: Step) {
    match step
    case Timeout(n) => n in c.nodes && !c.nodes[n].role.Leader?
    case RecvVote(p, _) => p in c.net && p.VoteCall? && p.dst in c.nodes
    case RecvVoteReply(p) => p in c.net && p.VoteReturn? && p.vreq.candidate in c.nodes
    case SendAppend(n, peer) => n in c.nodes && peer in c.voters && peer != n && c.nodes[n].role.Leader?
    case RecvAppend(p) => p in c.net && p.AppendCall? && p.dst in c.nodes
    case RecvAppendReply(p) =>
      // an answer is consumed in the term its request was sent, or because it carries a newer term
      && p in c.net && p.AppendReturn? && p.leader in c.nodes
      && (c.nodes[p.leader].term == p.sentTerm || c.nodes[p.leader].term < p.aresp.term)
    case ClientPropose(n, _) => n in c.nodes && c.nodes[n].role.Leader?
    case Restart(n) => n in c.nodes
    case TornVote(p) => p in c.net && p.VoteCall? && !p.vreq.preVote && p.dst in c.nodes && c.nodes[p.dst].term < p.vreq.term
    case TornAppend(p, kept) => p in c.net && p.AppendCall? && p.dst in c.nodes && kept <= |p.areq.entries|
  }

  function AfterTimeout(c: Cluster, n: NodeId): Cluster
    requires n in c.nodes
  {
    var cfg, s := Config(n, c.voters), c.nodes[n];
    var s' := StartPreElection(cfg, s);
    var calls := if Campaigns(s, s') then CampaignCalls(cfg, s, s')
                 else VoteCalls(cfg, VoteRequestOf(cfg, s', true, s'.preVoteTerm));
    Update(c, n, s', calls, RecordCampaign(c.hist, n, s, s'))
  }

  function AfterVote(c: Cluster, p: Packet, heardLeader: bool): Cluster
    requires p.VoteCall? && p.dst in c.nodes
  {
    var (s', r) := HandleVote(Config(p.dst, c.voters), c.nodes[p.dst], p.vreq, heardLeader);
    Update(c, p.dst, s', {VoteReturn(p.vreq, r)}, RecordGrant(c.hist, p.vreq, r))
  }

  function AfterPreVoteReply(c: Cluster, p: Packet): Cluster
    requires p.VoteReturn? && p.vreq.candidate in c.nodes
  {
    var n := p.vreq.candidate;
    var cfg, s := Config(n, c.voters), c.nodes[n];
    var s' := HandlePreVoteReply(cfg, s, p.vresp);
    Update(c, n, s', CampaignCalls(cfg, s, s'), RecordCampaign(c.hist, n, s, s'))
  }

  function AfterVoteReply(c: Cluster, p: Packet): Cluster
    requires p.VoteReturn? && p.vreq.candidate in c.nodes
  {
    var n := p.vreq.candidate;
    var cfg, s := Config(n, c.voters), c.nodes[n];
    var s' := HandleVoteReply(cfg, s, p.vresp);
    Update(c, n, s', {}, RecordElection(c.hist, cfg, s, s'))
  }

  function AfterSend(c: Cluster, n: NodeId, peer: NodeId): Cluster
    requires n in c.nodes
  {
    Update(c, n, c.nodes[n], {AppendCall(peer, ReplicateTo(Config(n, c.voters), c.nodes[n], peer))}, c.hist)
  }

  function AfterAppend(c: Cluster, p: Packet): Cluster
    requires p.AppendCall? && p.dst in c.nodes
  {
    var (s', r) := HandleAppend(Config(p.dst, c.voters), c.nodes[p.dst], p.areq);
    Update(c, p.dst, s', {AppendReturn(p.areq.leader, p.areq.term, r)}, RecordAck(c.hist, p.areq, r))
  }

  function AfterAppendReply(c: Cluster, p: Packet): Cluster
    requires p.AppendReturn? && p.leader in c.nodes
  {
    Update(c, p.leader, HandleAppendReply(Config(p.leader, c.voters), c.nodes[p.leader], p.aresp.follower, p.aresp), {}, c.hist)
  }

  function AfterProposal(c: Cluster, n: NodeId, command: Command): Cluster
    requires n in c.nodes
  {
    var s' := Propose(c.nodes[n], command).0;
    Update(c, n, s', {}, RecordProposal(c.hist, n, s'))
  }

  function Do(c: Cluster, step: Step): Cluster
    requires Enabled(c, step)
  {
    match step
    case Timeout(n) => AfterTimeout(c, n)
    case RecvVote(p, heardLeader) => AfterVote(c, p, heardLeader)
    case RecvVoteReply(p) => if p.vreq.preVote then AfterPreVoteReply(c, p) else AfterVoteReply(c, p)
    case SendAppend(n, peer) => AfterSend(c, n, peer)
    case RecvAppend(p) => AfterAppend(c, p)
    case RecvAppendReply(p) => AfterAppendReply(c, p)
    case ClientPropose(n, command) => AfterProposal(c, n, command)
    case Restart(n) => Update(c, n, Restarted(c.nodes[n]), {}, c.hist)
    case TornVote(p) => Update(c, p.dst, Restarted(BecomeFollower(c.nodes[p.dst], p.vreq.term)), {}, c.hist)
    case TornAppend(p, kept) => Update(c, p.dst, Restarted(TornAppended(c.nodes[p.dst], p.areq, kept)), {}, c.hist)
  }

  /** A finite run: it starts in an initial state and every state follows from the one before. */
  ghost predicate IsRun(run: seq<Cluster>) {
    && |run| > 0
    && Init(run[0])
    && forall i :: 0 <= i < |run| - 1 ==> Follows(run[i], run[i + 1])
  }

  ghost predicate Follows(c: Cluster, c': Cluster) {
    exists step :: Enabled(c, step) && c' == Do(c, step)
  }
}
