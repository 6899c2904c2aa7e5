/** One Raft replica of one shard: the state it keeps, and what each handler does to that state as a function. The replica
    whose methods carry out these functions in place is in `RaftGroup`. */
module RaftNode {
  import opened Commands

  datatype NodeId = NodeId(name: string)

  /** Log positions count from one. */
  type Pos = n: int | n >= 1 witness 1

  datatype Entry = Entry(term: nat, index: Pos, command: Command)

  datatype Role = Follower | Candidate | Leader

  /** Who a replica is, and the fixed set of voters it belongs to. */
  datatype Config = Config(id: NodeId, voters: set<NodeId>) {
    function Majority(): nat { |voters| / 2 + 1 }
    function Peers(): set<NodeId> { voters - {id} }
  }

  datatype NodeState = NodeState(
    term: nat, votedFor: Option<NodeId>, log: seq<Entry>,          // survive a restart
    commitIndex: nat, lastApplied: nat, lastAppliedTerm: nat,      // volatile from here on
    role: Role, leaderId: Option<NodeId>,
    votes: set<NodeId>, preVotes: set<NodeId>, preVoteTerm: nat,
    nextIndex: map<NodeId, Pos>, matchIndex: map<NodeId, nat>)

  datatype VoteRequest = VoteRequest(preVote: bool, term: nat, candidate: NodeId,
                                     lastLogIndex: nat, lastLogTerm: nat)
  datatype VoteResponse = VoteResponse(term: nat, granted: bool, voter: NodeId)
  datatype AppendRequest = AppendRequest(term: nat, leader: NodeId, prevIndex: nat, prevTerm: nat,
                                         entries: seq<Entry>, leaderCommit: nat)
  datatype AppendResponse = AppendResponse(term: nat, success: bool, follower: NodeId, matchIndex: nat)

  function LastTerm(log: seq<Entry>): nat {
    if log == [] then 0 else log[|log| - 1].term
  }

  /** What a replica starts from, and what it falls back to after a crash: term, vote and log come
      from disk, everything else is reset. */
  function Restarted(s: NodeState): NodeState {
    NodeState(s.term, s.votedFor, s.log, 0, 0, 0, Follower, None, {}, {}, 0, map[], map[])
  }

  // ---- role changes -------------------------------------------------------------------------

  /** Fall back to follower in `term`, forgetting any vote. */
  function BecomeFollower(s: NodeState, term: nat): NodeState {
    s.(role := Follower, term := term, votedFor := None)
  }

  /** `m` with `v` stored under every key in `keys`. */
  function Fill<K, V>(m: map<K, V>, keys: set<K>, v: V): map<K, V> {
    m + (map k | k in keys :: v)
  }

  /** `r` is `m` with `v` stored under every key listed in `keys`. */
  ghost predicate Filled<K(!new), V>(m: map<K, V>, keys: seq<K>, v: V, r: map<K, V>) {
    && (forall k :: k in r <==> k in m || k in keys)
    && (forall k :: k in r ==> r[k] == if k in keys then v else m[k])
  }

  lemma {:induction false} FilledOne<K(!new), V>(m: map<K, V>, keys: seq<K>, k: K, v: V, r: map<K, V>)
    requires Filled(m, keys, v, r)
    ensures Filled(m, keys + [k], v, r[k := v])
  {
  }

  lemma {:induction false} FilledIsFill<K(!new), V>(m: map<K, V>, keys: seq<K>, keySet: set<K>, v: V, r: map<K, V>)
    requires Filled(m, keys, v, r) && (forall k :: k in keys <==> k in keySet)
    ensures r == Fill(m, keySet, v)
  {
  }

  function BecomeLeader(cfg: Config, s: NodeState): NodeState {
    s.(role := Leader,
       leaderId := Some(cfg.id),
       nextIndex := Fill<NodeId, Pos>(s.nextIndex, cfg.Peers(), |s.log| + 1),
       matchIndex := Fill<NodeId, nat>(s.matchIndex, cfg.Peers(), 0),
       log := s.log + [Entry(s.term, |s.log| + 1, Noop)])
  }

  function StartElection(cfg: Config, s: NodeState): NodeState {
    s.(role := Candidate, term := s.term + 1, votedFor := Some(cfg.id), votes := {cfg.id})
  }

  /** The election timer fired: probe for votes without touching the term, or campaign at once when
      the own vote already is a majority. */
  function StartPreElection(cfg: Config, s: NodeState): NodeState {
    var probing := s.(preVoteTerm := s.term + 1, preVotes := {cfg.id});
    if |{cfg.id} * cfg.voters| >= cfg.Majority() then StartElection(cfg, probing) else probing
  }

  function VoteRequestOf(cfg: Config, s: NodeState, preVote: bool, term: nat): VoteRequest {
    VoteRequest(preVote, term, cfg.id, |s.log|, LastTerm(s.log))
  }

  // ---- votes ---------------------------------------------------------------------------------

  /** The candidate's log is at least as up to date as `log`. */
  predicate UpToDate(lastTerm: nat, lastIndex: nat, log: seq<Entry>) {
    lastTerm > LastTerm(log) || (lastTerm == LastTerm(log) && lastIndex >= |log|)
  }

  function HandleVote(cfg: Config, s: NodeState, req: VoteRequest, heardLeader: bool): (NodeState, VoteResponse)
  {
    var s1 := if !req.preVote && req.term > s.term then BecomeFollower(s, req.term) else s;
    var upToDate := UpToDate(req.lastLogTerm, req.lastLogIndex, s1.log);
    if req.preVote then
      var leaderRecent := s1.role.Leader? || (s1.leaderId.Some? && heardLeader);
      (s1, VoteResponse(s1.term, req.term >= s1.term && upToDate && !leaderRecent, cfg.id))
    else if req.term >= s1.term && (s1.votedFor == None || s1.votedFor == Some(req.candidate)) && upToDate then
      (s1.(votedFor := Some(req.candidate)), VoteResponse(s1.term, true, cfg.id))
    else
      (s1, VoteResponse(s1.term, false, cfg.id))
  }

  /** A pre-vote answer: adopt a newer term, or count the grant and campaign on a majority. */
  function HandlePreVoteReply(cfg: Config, s: NodeState, r: VoteResponse): NodeState {
    if !s.role.Follower? || s.preVoteTerm != s.term + 1 then s
    else if r.term > s.term then BecomeFollower(s, r.term)
    else if r.granted then
      var s1 := s.(preVotes := s.preVotes + {r.voter});
      if |s1.preVotes * cfg.voters| >= cfg.Majority() then StartElection(cfg, s1) else s1
    else s
  }

  function HandleVoteReply(cfg: Config, s: NodeState, r: VoteResponse): NodeState {
    if !s.role.Candidate? || r.term < s.term then s
    else if r.term > s.term then BecomeFollower(s, r.term)
    else if r.granted then
      var s1 := s.(votes := s.votes + {r.voter});
      if |s1.votes * cfg.voters| >= cfg.Majority() then BecomeLeader(cfg, s1) else s1
    else s
  }

  // ---- log replication ------------------------------------------------------------------------

  /** What the leader sends to `peer`: everything from its next index to the end of the log. */
  function ReplicateTo(cfg: Config, s: NodeState, peer: NodeId): AppendRequest {
    var next: Pos := if peer in s.nextIndex then s.nextIndex[peer] else 1;
    var prev := next - 1;
    AppendRequest(s.term, cfg.id, prev,
                  if 0 < prev <= |s.log| then s.log[prev - 1].term else 0,
                  if prev <= |s.log| then s.log[prev..] else [],
                  s.commitIndex)
  }

  /** Merge one received entry: keep it if present, cut a conflicting tail, append when past the end. */
  function Merge1(log: seq<Entry>, e: Entry): seq<Entry> {
    if e.index <= |log| then
      if log[e.index - 1].term != e.term then log[..e.index - 1] + [e] else log
    else
      log + [e]
  }

  function Merge(log: seq<Entry>, entries: seq<Entry>): seq<Entry>
    decreases |entries|
  {
    if entries == [] then log else Merge(Merge1(log, entries[0]), entries[1..])
  }

  /** Hand everything up to the commit index to the state machine. */
  function ApplyCommitted(s: NodeState): NodeState
    requires s.commitIndex <= |s.log|
  {
    if s.lastApplied < s.commitIndex then
      s.(lastApplied := s.commitIndex, lastAppliedTerm := s.log[s.commitIndex - 1].term)
    else s
  }

  /** The commands handed over when `lastApplied` moves from `lo` to `hi` over `log`. */
  function AppliedBetween(log: seq<Entry>, lo: nat, hi: nat): seq<(nat, Command)>
    requires hi <= |log|
    decreases hi
  {
    if hi <= lo then [] else AppliedBetween(log, lo, hi - 1) + [(log[hi - 1].index, log[hi - 1].command)]
  }

  /** The hand-over is entry by entry what the log holds from `lo` up to `hi`, none left out and none twice. */
  lemma {:induction false} AppliedBetweenIs(log: seq<Entry>, lo: nat, hi: nat)
    requires hi <= |log|
    ensures |AppliedBetween(log, lo, hi)| == if lo <= hi then hi - lo else 0
    ensures forall k {:trigger AppliedBetween(log, lo, hi)[k]} :: 0 <= k < hi - lo ==>
              AppliedBetween(log, lo, hi)[k] == (log[lo + k].index, log[lo + k].command)
    decreases hi
  {
    if lo < hi { AppliedBetweenIs(log, lo, hi - 1); }
  }

  /** The replica once it takes the sender of `req` as the leader of its term; a candidate steps down
      and, with that, forgets its vote. */
  function Listening(s: NodeState, req: AppendRequest): NodeState {
    var s1 := if req.term > s.term then BecomeFollower(s, req.term) else s;
    var s2 := s1.(leaderId := Some(req.leader));
    if s2.role.Candidate? then BecomeFollower(s2, req.term) else s2
  }

  predicate PrevMatches(s: NodeState, req: AppendRequest) {
    req.prevIndex == 0 || (req.prevIndex <= |s.log| && s.log[req.prevIndex - 1].term == req.prevTerm)
  }

  /** The previous entry is missing, or conflicts and is cut off. */
  function Refused(s: NodeState, req: AppendRequest): NodeState {
    if 0 < req.prevIndex <= |s.log| then s.(log := s.log[..req.prevIndex - 1]) else s
  }

  function Merged(s: NodeState, req: AppendRequest): NodeState {
    s.(log := Merge(s.log, req.entries))
  }

  function Accepted(s: NodeState, req: AppendRequest): NodeState {
    if req.leaderCommit > s.commitIndex
    then ApplyCommitted(s.(commitIndex := Min(req.leaderCommit, |s.log|)))
    else s
  }

  function HandleAppend(cfg: Config, s: NodeState, req: AppendRequest): (NodeState, AppendResponse)
  {
    if req.term < s.term then (s, AppendResponse(s.term, false, cfg.id, 0))
    else
      var s3 := Listening(s, req);
      if !PrevMatches(s3, req) then
        var s4 := Refused(s3, req);
        (s4, AppendResponse(s4.term, false, cfg.id, |s4.log|))
      else
        var s5 := Accepted(Merged(s3, req), req);
        (s5, AppendResponse(s5.term, true, cfg.id, |s5.log|))
  }

  /** What is on disk when a crash interrupts `HandleAppend`: the new term, and after it the first `kept` entries, or, when
      the previous entry conflicts and `kept` is not zero, the log cut off before it. */
  function TornAppended(s: NodeState, req: AppendRequest, kept: nat): NodeState
    requires kept <= |req.entries|
  {
    if req.term < s.term then s
    else
      var s3 := Listening(s, req);
      if !PrevMatches(s3, req) then (if kept == 0 then s3 else Refused(s3, req))
      else Merged(s3, req.(entries := req.entries[..kept]))
  }

  function Min(a: nat, b: nat): nat { if a <= b then a else b }

  function MatchOf(s: NodeState, p: NodeId): nat { if p in s.matchIndex then s.matchIndex[p] else 0 }

  /** The voters known to hold the first `idx` entries of the leader's log. */
  function Holders(cfg: Config, s: NodeState, idx: nat): set<NodeId> {
    set p | p in cfg.voters && (p == cfg.id || MatchOf(s, p) >= idx)
  }

  predicate CanCommit(cfg: Config, s: NodeState, idx: nat)
    requires 1 <= idx <= |s.log|
  {
    s.log[idx - 1].term == s.term && |Holders(cfg, s, idx)| >= cfg.Majority()
  }

  /** The highest index at most `idx`, above the commit index, that a majority holds in this term;
      the commit index itself when there is none. */
  function CommitPoint(cfg: Config, s: NodeState, idx: nat): (r: nat)
    requires idx <= |s.log|
    ensures r == s.commitIndex || (s.commitIndex < r <= idx && CanCommit(cfg, s, r))
    ensures forall j :: r < j <= idx && s.commitIndex < j ==> !CanCommit(cfg, s, j)
    decreases idx
  {
    if idx <= s.commitIndex then s.commitIndex
    else if CanCommit(cfg, s, idx) then idx
    else CommitPoint(cfg, s, idx - 1)
  }

  function AdvanceCommit(cfg: Config, s: NodeState): NodeState {
    var c := CommitPoint(cfg, s, |s.log|);
    if c > s.commitIndex then ApplyCommitted(s.(commitIndex := c)) else s
  }

  function HandleAppendReply(cfg: Config, s: NodeState, peer: NodeId, r: AppendResponse): NodeState {
    if r.term > s.term then BecomeFollower(s, r.term)
    else if !s.role.Leader? then s
    else if r.success then
      AdvanceCommit(cfg, s.(matchIndex := s.matchIndex[peer := r.matchIndex],
                            nextIndex := s.nextIndex[peer := r.matchIndex + 1]))
    else
      s.(nextIndex := s.nextIndex[peer := r.matchIndex + 1])
  }

  // ---- client side ----------------------------------------------------------------------------

  function Propose(s: NodeState, command: Command): (NodeState, Option<nat>) {
    if !s.role.Leader? then (s, None)
    else (s.(log := s.log + [Entry(s.term, |s.log| + 1, command)]), Some(|s.log| + 1))
  }

  /** A leader answers with the place of the new entry, and its log up to there is as it was; nobody else takes it. */
  lemma {:induction false} ProposeAnswers(s: NodeState, command: Command)
    ensures var (s', r) := Propose(s, command);
            && (r.Some? <==> s.role.Leader?) && (r.None? ==> s' == s)
            && (r.Some? ==> && 1 <= r.value == |s'.log| && s'.log[..r.value - 1] == s.log
                            && s'.log[r.value - 1] == Entry(s.term, r.value, command) && s' == s.(log := s'.log))
  {
  }

  predicate IsReady(s: NodeState) { s.role.Leader? && s.lastAppliedTerm == s.term }
}
