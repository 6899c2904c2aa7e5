/** The replica as the server runs it: fields updated in place under the replica's lock, one method per
    handler. Each method is proved to do to its fields what the functions of `RaftNode` do to a state,
    and to hand to the state machine exactly the commands between the two applied indices. */
module RaftGroup {
  import opened Commands
  import N = RaftNode

  class RaftGroup {
    const cfg: N.Config
    const peers: seq<N.NodeId>

    var currentTerm: nat
    var votedFor: Option<N.NodeId>
    var log: seq<N.Entry>
    var commitIndex: nat
    var lastApplied: nat
    var lastAppliedTerm: nat
    var role: N.Role
    var leaderId: Option<N.NodeId>
    var votesReceived: set<N.NodeId>
    var preVotes: set<N.NodeId>
    var preVoteTerm: nat
    var nextIndex: map<N.NodeId, N.Pos>
    var matchIndex: map<N.NodeId, nat>
    var applied: seq<(nat, Command)>           // the calls made to the state machine so far

    /** `peers` lists the other voters once each. */
    ghost predicate Valid() {
      && cfg.id in cfg.voters
      && (forall i, j :: 0 <= i < j < |peers| ==> peers[i] != peers[j])
      && (forall p :: p in peers <==> p in cfg.Peers())
    }

    ghost function State(): N.NodeState
      reads this
    {
      N.NodeState(currentTerm, votedFor, log, commitIndex, lastApplied, lastAppliedTerm, role, leaderId,
                  votesReceived, preVotes, preVoteTerm, nextIndex, matchIndex)
    }

    /** The state machine has been given the first `lastApplied` commands of the log, each once and in order. */
    ghost predicate HandedAll()
      reads this
    {
      AreFirst(applied, lastApplied, log)
    }

    static ghost predicate AreFirst(applied: seq<(nat, Command)>, n: nat, log: seq<N.Entry>) {
      |applied| == n <= |log| && forall k :: 0 <= k < n ==> applied[k] == (log[k].index, log[k].command)
    }

    /** Whatever came behind the applied entries, those newly handed over follow them. */
    static lemma {:induction false} StillFirst(applied: seq<(nat, Command)>, s: N.NodeState, s': N.NodeState)
      requires AreFirst(applied, s.lastApplied, s.log) && s.log[..s.lastApplied] <= s'.log && s.lastApplied <= s'.lastApplied <= |s'.log|
      ensures AreFirst(applied + Handed(s, s'), s'.lastApplied, s'.log)
    {
      N.AppliedBetweenIs(s'.log, s.lastApplied, s'.lastApplied);
      forall k | 0 <= k < s.lastApplied ensures s'.log[k] == s.log[k] {
        assert s.log[..s.lastApplied][k] == s'.log[k];
      }
    }

    /** What has been applied is still in the log, which is what Raft guarantees of committed entries. */
    twostate predicate KeepsApplied()
      reads this
    {
      old(lastApplied) <= |old(log)| && old(log)[..old(lastApplied)] <= log
    }

    /** A replica brought up from what is on its disk. */
    constructor (cfg: N.Config, peers: seq<N.NodeId>, disk: N.NodeState)
      requires cfg.id in cfg.voters
      requires forall i, j :: 0 <= i < j < |peers| ==> peers[i] != peers[j]
      requires forall p :: p in peers <==> p in cfg.Peers()
      ensures Valid() && this.cfg == cfg && State() == N.Restarted(disk) && applied == [] && HandedAll()
    {
      this.cfg, this.peers := cfg, peers;
      currentTerm, votedFor, log := disk.term, disk.votedFor, disk.log;
      commitIndex, lastApplied, lastAppliedTerm := 0, 0, 0;
      role, leaderId := N.Follower, None;
      votesReceived, preVotes, preVoteTerm := {}, {}, 0;
      nextIndex, matchIndex := map[], map[];
      applied := [];
    }

    // ---- role changes -----------------------------------------------------------------------------

    method BecomeFollower(term: nat)
      modifies this
      ensures State() == N.BecomeFollower(old(State()), term) && applied == old(applied)
    {
      role := N.Follower;
      currentTerm := term;
      votedFor := None;
    }

    method BecomeLeader()
      requires Valid()
      modifies this
      ensures State() == N.BecomeLeader(cfg, old(State())) && applied == old(applied)
    {
      role := N.Leader;
      leaderId := Some(cfg.id);
      ghost var s := State();
      var entry := N.Entry(currentTerm, |log| + 1, Noop);
      ResetProgress(|log| + 1);
      log := log + [entry];
      assert State() == s.(nextIndex := nextIndex, matchIndex := matchIndex, log := s.log + [entry]);
    }

    /** Forget what was known about the followers' logs. */
    method ResetProgress(nxt: N.Pos)
      requires Valid()
      modifies this
      ensures State() == old(State()).(nextIndex := N.Fill<N.NodeId, N.Pos>(old(nextIndex), cfg.Peers(), nxt),
                                       matchIndex := N.Fill<N.NodeId, nat>(old(matchIndex), cfg.Peers(), 0))
      ensures applied == old(applied)
    {
      var i := 0;
      while i < |peers|
        invariant 0 <= i <= |peers|
        invariant N.Filled<N.NodeId, N.Pos>(old(nextIndex), peers[..i], nxt, nextIndex)
        invariant N.Filled<N.NodeId, nat>(old(matchIndex), peers[..i], 0, matchIndex)
        invariant State() == old(State()).(nextIndex := nextIndex, matchIndex := matchIndex)
        invariant applied == old(applied)
      {
        assert peers[..i + 1] == peers[..i] + [peers[i]];
        N.FilledOne<N.NodeId, N.Pos>(old(nextIndex), peers[..i], peers[i], nxt, nextIndex);
        N.FilledOne<N.NodeId, nat>(old(matchIndex), peers[..i], peers[i], 0, matchIndex);
        nextIndex := nextIndex[peers[i] := nxt];
        matchIndex := matchIndex[peers[i] := 0];
        i := i + 1;
      }
      assert peers[..i] == peers;
      N.FilledIsFill<N.NodeId, N.Pos>(old(nextIndex), peers, cfg.Peers(), nxt, nextIndex);
      N.FilledIsFill<N.NodeId, nat>(old(matchIndex), peers, cfg.Peers(), 0, matchIndex);
    }

    method StartElection() returns (req: N.VoteRequest)
      modifies this
      ensures State() == N.StartElection(cfg, old(State())) && applied == old(applied)
      ensures req == N.VoteRequestOf(cfg, State(), false, currentTerm)
    {
      role := N.Candidate;
      currentTerm := currentTerm + 1;
      votedFor := Some(cfg.id);
      votesReceived := {cfg.id};
      req := N.VoteRequest(false, currentTerm, cfg.id, |log|, N.LastTerm(log));
    }

    /** The election timer fired; the request to send to the peers is a probe or a real one. */
    method StartPreElection() returns (req: N.VoteRequest)
      modifies this
      ensures State() == N.StartPreElection(cfg, old(State())) && applied == old(applied)
      ensures req == if currentTerm != old(currentTerm) then N.VoteRequestOf(cfg, State(), false, currentTerm)
                     else N.VoteRequestOf(cfg, State(), true, preVoteTerm)
    {
      preVoteTerm := currentTerm + 1;
      preVotes := {cfg.id};
      if |preVotes * cfg.voters| >= cfg.Majority() {
        req := StartElection();
      } else {
        req := N.VoteRequest(true, preVoteTerm, cfg.id, |log|, N.LastTerm(log));
      }
    }

    // ---- votes --------------------------------------------------------------------------------------

    method HandleVote(req: N.VoteRequest, heardLeader: bool) returns (r: N.VoteResponse)
      modifies this
      ensures (State(), r) == N.HandleVote(cfg, old(State()), req, heardLeader) && applied == old(applied)
    {
      if !req.preVote && req.term > currentTerm {
        BecomeFollower(req.term);
      }
      var myTerm := N.LastTerm(log);
      var upToDate := req.lastLogTerm > myTerm || (req.lastLogTerm == myTerm && req.lastLogIndex >= |log|);
      var leaderRecent := role == N.Leader || (leaderId.Some? && heardLeader);
      if req.preVote {
        return N.VoteResponse(currentTerm, req.term >= currentTerm && upToDate && !leaderRecent, cfg.id);
      }
      var granted := false;
      if req.term >= currentTerm && (votedFor == None || votedFor == Some(req.candidate)) && upToDate {
        granted := true;
        votedFor := Some(req.candidate);
      }
      r := N.VoteResponse(currentTerm, granted, cfg.id);
    }

    method OnPreVoteReply(r: N.VoteResponse)
      modifies this
      ensures State() == N.HandlePreVoteReply(cfg, old(State()), r) && applied == old(applied)
    {
      if role != N.Follower || preVoteTerm != currentTerm + 1 {
        return;
      }
      if r.term > currentTerm {
        BecomeFollower(r.term);
        return;
      }
      if r.granted {
        preVotes := preVotes + {r.voter};
        if |preVotes * cfg.voters| >= cfg.Majority() {
          var _ := StartElection();
        }
      }
    }

    method OnVoteReply(r: N.VoteResponse)
      requires Valid()
      modifies this
      ensures State() == N.HandleVoteReply(cfg, old(State()), r) && applied == old(applied)
    {
      if role != N.Candidate || r.term < currentTerm {
        return;
      }
      if r.term > currentTerm {
        BecomeFollower(r.term);
        return;
      }
      if r.granted {
        votesReceived := votesReceived + {r.voter};
        if |votesReceived * cfg.voters| >= cfg.Majority() {
          BecomeLeader();
        }
      }
    }

    // ---- replication, leader side ---------------------------------------------------------------------

    /** Only a leader sends. */
    method ReplicateTo(peer: N.NodeId) returns (r: Option<N.AppendRequest>)
      ensures r == if role.Leader? then Some(N.ReplicateTo(cfg, State(), peer)) else None
    {
      if role != N.Leader {
        return None;
      }
      var next: N.Pos := if peer in nextIndex then nextIndex[peer] else 1;
      var prev := next - 1;
      var prevTerm := if 0 < prev <= |log| then log[prev - 1].term else 0;
      var entries := if prev <= |log| then log[prev..] else [];
      r := Some(N.AppendRequest(currentTerm, cfg.id, prev, prevTerm, entries, commitIndex));
    }

    method OnAppendReply(peer: N.NodeId, r: N.AppendResponse)
      requires Valid()
      modifies this
      ensures State() == N.HandleAppendReply(cfg, old(State()), peer, r)
      ensures applied == old(applied) + Handed(old(State()), State()) && (old(HandedAll()) ==> HandedAll())
    {
      if r.term > currentTerm {
        BecomeFollower(r.term);
        return;
      }
      if role != N.Leader {
        return;
      }
      if r.success {
        matchIndex := matchIndex[peer := r.matchIndex];
        nextIndex := nextIndex[peer := r.matchIndex + 1];
        AdvanceCommit();
      } else {
        nextIndex := nextIndex[peer := r.matchIndex + 1];
      }
    }

    /** The commands handed over between two states of the replica. */
    static ghost function Handed(s: N.NodeState, s': N.NodeState): seq<(nat, Command)> {
      if s.lastApplied < s'.lastApplied <= |s'.log| then N.AppliedBetween(s'.log, s.lastApplied, s'.lastApplied) else []
    }

    /** How many voters hold the first `idx` entries, counted one peer at a time. */
    method CountHolders(idx: nat) returns (count: nat)
      requires Valid()
      ensures count == |N.Holders(cfg, State(), idx)|
    {
      count := 1;
      var i := 0;
      ghost var seen := {cfg.id};
      while i < |peers|
        invariant 0 <= i <= |peers|
        invariant seen == (set p | p in N.Holders(cfg, State(), idx) && (p == cfg.id || p in peers[..i]))
        invariant count == |seen|
      {
        assert peers[..i + 1] == peers[..i] + [peers[i]];
        assert peers[i] !in peers[..i] && peers[i] in peers;
        var m := if peers[i] in matchIndex then matchIndex[peers[i]] else 0;
        if m >= idx {
          seen := seen + {peers[i]};
          count := count + 1;
        }
        i := i + 1;
      }
      assert peers[..i] == peers;
      assert seen == N.Holders(cfg, State(), idx);
    }

    method AdvanceCommit()
      requires Valid()
      modifies this
      ensures State() == N.AdvanceCommit(cfg, old(State()))
      ensures applied == old(applied) + Handed(old(State()), State()) && (old(HandedAll()) ==> HandedAll())
    {
      ghost var s := State();
      var idx := |log|;
      while idx > commitIndex
        invariant 0 <= idx <= |log|
        invariant State() == s && applied == old(applied)
        invariant N.CommitPoint(cfg, s, |log|) == N.CommitPoint(cfg, s, idx)
      {
        if log[idx - 1].term == currentTerm {
          var count := CountHolders(idx);
          if count >= cfg.Majority() {
            commitIndex := idx;
            ApplyCommitted();
            return;
          }
        }
        idx := idx - 1;
      }
    }

    // ---- replication, follower side ---------------------------------------------------------------------

    method HandleAppend(req: N.AppendRequest) returns (r: N.AppendResponse)
      modifies this
      ensures (State(), r) == N.HandleAppend(cfg, old(State()), req)
      ensures applied == old(applied) + Handed(old(State()), State()) && (old(HandedAll()) && KeepsApplied() ==> HandedAll())
    {
      r := Receive(req);
      if old(HandedAll()) && KeepsApplied() {
        StillFirst(old(applied), old(State()), State());
      }
    }

    method Receive(req: N.AppendRequest) returns (r: N.AppendResponse)
      modifies this
      ensures (State(), r) == N.HandleAppend(cfg, old(State()), req)
      ensures applied == old(applied) + Handed(old(State()), State())
    {
      if req.term > currentTerm {
        BecomeFollower(req.term);
      }
      if req.term < currentTerm {
        return N.AppendResponse(currentTerm, false, cfg.id, 0);
      }
      leaderId := Some(req.leader);
      if role == N.Candidate {
        BecomeFollower(req.term);
      }
      assert State() == N.Listening(old(State()), req);
      if req.prevIndex > 0 {
        if |log| < req.prevIndex {
          return N.AppendResponse(currentTerm, false, cfg.id, |log|);
        }
        if log[req.prevIndex - 1].term != req.prevTerm {
          log := log[..req.prevIndex - 1];
          return N.AppendResponse(currentTerm, false, cfg.id, |log|);
        }
      }
      AppendEntries(req.entries);
      assert State() == N.Merged(N.Listening(old(State()), req), req);
      AdoptCommit(req);
      r := N.AppendResponse(currentTerm, true, cfg.id, |log|);
    }

    method AdoptCommit(req: N.AppendRequest)
      modifies this
      ensures State() == N.Accepted(old(State()), req) && applied == old(applied) + Handed(old(State()), State())
    {
      if req.leaderCommit > commitIndex {
        commitIndex := N.Min(req.leaderCommit, |log|);
        ApplyCommitted();
      }
    }

    /** Walk over the received entries, cutting the log at the first conflict. */
    method AppendEntries(entries: seq<N.Entry>)
      modifies this
      ensures State() == old(State()).(log := N.Merge(old(log), entries)) && applied == old(applied)
    {
      var i := 0;
      while i < |entries|
        invariant 0 <= i <= |entries|
        invariant N.Merge(log, entries[i..]) == N.Merge(old(log), entries)
        invariant State() == old(State()).(log := log) && applied == old(applied)
      {
        var e := entries[i];
        assert entries[i..][0] == e && entries[i..][1..] == entries[i + 1..];
        if e.index <= |log| {
          if log[e.index - 1].term != e.term {
            log := log[..e.index - 1];
            log := log + [e];
          }
        } else {
          log := log + [e];
        }
        i := i + 1;
      }
    }

    method ApplyCommitted()
      requires commitIndex <= |log|
      modifies this
      ensures State() == N.ApplyCommitted(old(State()))
      ensures applied == old(applied) + Handed(old(State()), State()) && (old(HandedAll()) ==> HandedAll())
      ensures lastApplied == if old(lastApplied) < commitIndex then commitIndex else old(lastApplied)
    {
      while lastApplied < commitIndex
        invariant old(lastApplied) <= lastApplied
        invariant lastApplied <= commitIndex || lastApplied == old(lastApplied)
        invariant State() == old(State()).(lastApplied := lastApplied, lastAppliedTerm := lastAppliedTerm)
        invariant lastAppliedTerm == if lastApplied == old(lastApplied) then old(lastAppliedTerm) else log[lastApplied - 1].term
        invariant applied == old(applied) + Handed(old(State()), State()) && (old(HandedAll()) ==> HandedAll())
      {
        lastApplied := lastApplied + 1;
        assert Handed(old(State()), State()) == N.AppliedBetween(log, old(lastApplied), lastApplied);
        assert N.AppliedBetween(log, old(lastApplied), lastApplied - 1) + [(log[lastApplied - 1].index, log[lastApplied - 1].command)] == N.AppliedBetween(log, old(lastApplied), lastApplied);
        var entry := log[lastApplied - 1];
        lastAppliedTerm := entry.term;
        applied := applied + [(entry.index, entry.command)];
      }
    }

    // ---- client side -------------------------------------------------------------------------------------

    method Propose(command: Command) returns (index: Option<nat>)
      modifies this
      ensures (State(), index) == N.Propose(old(State()), command) && applied == old(applied) && (old(HandedAll()) ==> HandedAll())
      ensures index.Some? <==> role.Leader?
      ensures index.Some? ==> 1 <= index.value == |log| && log[..index.value - 1] == old(log)
                              && log[index.value - 1] == N.Entry(currentTerm, index.value, command)
    {
      if role != N.Leader {
        return None;
      }
      index := Some(|log| + 1);
      log := log + [N.Entry(currentTerm, |log| + 1, command)];
    }
  }
}
