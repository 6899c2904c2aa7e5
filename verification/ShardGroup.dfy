/** A shard: a Raft group whose leader checks a write for conflicts against the entries it has applied
    before it proposes it. Prepared transactions that were granted never hold the same key, whichever
    leaders granted them. */
module ShardGroup {
  import opened Commands
  import opened RaftNode
  import opened RaftCluster
  import opened RaftInvariant
  import opened RaftMonotone
  import opened RaftHistory
  import opened RaftSteps
  import opened RaftReplication
  import opened RaftSafety
  import S = ShardStore

  /** A checked write: which term and index it was proposed at, how much of the log its leader had applied when it
      checked, and the snapshot it was checked for. */
  datatype Attempt = Attempt(term: nat, index: nat, command: Command, checkedAt: nat, readTs: nat)

  /** The group, the call each replica is serving under its lock, every call begun, and every call that was
      answered yes. */
  datatype Shard = Shard(raft: Cluster, busy: map<NodeId, Attempt>, begun: set<Attempt>, granted: set<Attempt>)

  datatype Event =
    | Raft(step: Step)                                          // anything the group does by itself
    | Resolve(n: NodeId, command: Command)                      // commit or abort of a prepared transaction
    | Begin(n: NodeId, command: Command, readTs: nat)           // prepare, or a single-shard write
    | Grant(n: NodeId)                                          // the proposed entry was applied: answer yes
    | GiveUp(n: NodeId)                                         // timeout or leadership lost: answer no

  function CommandsOf(log: seq<Entry>): seq<Command> {
    seq(|log|, i requires 0 <= i < |log| => log[i].command)
  }

  /** The store of a replica that has applied this much of its log. */
  function StoreOf(log: seq<Entry>): S.Store { S.ApplyAll(S.Empty, CommandsOf(log)) }

  predicate Checked(c: Command) { c.Prepare? || c.Put? }

  function OwnTxn(c: Command): TxnId { if c.Prepare? then c.txn else "" }

  function WritesOf(c: Command): seq<Write> {
    if c.Prepare? || c.Put? then c.writes else []
  }

  predicate Touches(c: Command, key: Key) {
    exists j :: 0 <= j < |WritesOf(c)| && WritesOf(c)[j].key == key
  }

  /** No key of the write has a version newer than the snapshot, and none is held by another transaction. */
  ghost predicate NoConflict(s: S.Store, c: Command, readTs: nat) {
    S.Clear(s, WritesOf(c), readTs, OwnTxn(c))
  }

  lemma {:induction false} TouchedIsClear(s: S.Store, c: Command, readTs: nat, key: Key)
    requires NoConflict(s, c, readTs) && Touches(c, key)
    ensures S.ClearKey(s, key, readTs, OwnTxn(c))
  {
    assert S.WritesKey(WritesOf(c), key);
  }

  ghost predicate Can(g: Shard, e: Event) {
    match e
    case Raft(step) => !step.ClientPropose? && Enabled(g.raft, step)
    case Resolve(n, c) => (c.Commit? || c.Abort?) && Enabled(g.raft, ClientPropose(n, c))
    case Begin(n, c, readTs) =>
      && Checked(c) && n in g.raft.nodes && n !in g.busy
      && IsReady(g.raft.nodes[n])
      && g.raft.nodes[n].lastApplied <= |g.raft.nodes[n].log|
      && NoConflict(StoreOf(g.raft.nodes[n].log[..g.raft.nodes[n].lastApplied]), c, readTs)
    case Grant(n) =>
      // the entry that was applied at the index is the one this call proposed
      && n in g.busy && n in g.raft.nodes
      && g.busy[n].index <= g.raft.nodes[n].lastApplied <= |g.raft.nodes[n].log|
      && 1 <= g.busy[n].index
      && g.raft.nodes[n].log[g.busy[n].index - 1] == Entry(g.busy[n].term, g.busy[n].index, g.busy[n].command)
    case GiveUp(n) => n in g.busy
  }

  /** A crash ends the call a replica was serving. */
  function Crashed(step: Step): set<NodeId> {
    match step
    case Restart(n) => {n}
    case TornVote(p) => if p.VoteCall? then {p.dst} else {}
    case TornAppend(p, _) => if p.AppendCall? then {p.dst} else {}
    case _ => {}
  }

  ghost function After(g: Shard, e: Event): Shard
    requires Can(g, e)
  {
    match e
    case Raft(step) => g.(raft := Do(g.raft, step), busy := g.busy - Crashed(step))
    case Resolve(n, c) => g.(raft := Do(g.raft, ClientPropose(n, c)))
    case Begin(n, c, readTs) =>
      var s := g.raft.nodes[n];
      var a := Attempt(s.term, Propose(s, c).1.value, c, s.lastApplied, readTs);
      Shard(Do(g.raft, ClientPropose(n, c)), g.busy[n := a], g.begun + {a}, g.granted)
    case Grant(n) => g.(busy := g.busy - {n}, granted := g.granted + {g.busy[n]})
    case GiveUp(n) => g.(busy := g.busy - {n})
  }

  ghost predicate Start(g: Shard) { Init(g.raft) && g.busy == map[] && g.begun == {} && g.granted == {} }

  ghost predicate Next(g: Shard, g': Shard) { exists e :: Can(g, e) && g' == After(g, e) }

  ghost predicate IsShardRun(run: seq<Shard>) {
    && |run| > 0
    && Start(run[0])
    && forall i :: 0 <= i < |run| - 1 ==> Next(run[i], run[i + 1])
  }

  // ---- invariant -----------------------------------------------------------------------------------------

  /** The attempt sits in its leader's log; the check covered an entry of that leader's own term and found no conflict. */
  ghost predicate AttemptOk(h: History, a: Attempt) {
    && Point(h, a.term, a.index) && h.reigns[a.term].log[a.index - 1] == Entry(a.term, a.index, a.command)
    && 1 <= a.checkedAt < a.index && Point(h, a.term, a.checkedAt)
    && NoConflict(StoreOf(Upto(h, a.term, a.checkedAt)), a.command, a.readTs)
  }

  ghost predicate GrantedOk(voters: set<NodeId>, h: History, a: Attempt) {
    exists t: nat, k: nat :: Committed(voters, h, t, k) && 1 <= a.index <= k
                             && Upto(h, t, k)[a.index - 1] == Entry(a.term, a.index, a.command)
  }

  /** Under one leader, a later check saw every earlier granted attempt applied. */
  ghost predicate InOrder(g: Shard) {
    forall a, b :: a in g.granted && b in g.begun && a.term == b.term && a.index < b.index ==> a.index <= b.checkedAt
  }

  ghost predicate BusyOk(g: Shard, n: NodeId, a: Attempt) {
    && a in g.begun && n in g.raft.nodes && a.term in g.raft.hist.reigns && g.raft.hist.reigns[a.term].leader == n
    && (forall b :: b in g.begun && b.term == a.term ==> b.index <= a.index)
  }

  /** A replica still leading a term has applied whatever it granted in that term. */
  ghost predicate LeaderApplied(g: Shard) {
    forall n, a :: n in g.raft.nodes && a in g.granted && g.raft.nodes[n].role.Leader? && g.raft.nodes[n].term == a.term ==>
      a.index <= g.raft.nodes[n].lastApplied
  }

  ghost predicate ShardInv(g: Shard) { Inv(g.raft) && CallsOk(g) }

  ghost predicate CallsOk(g: Shard) {
    && g.granted <= g.begun
    && (forall a {:trigger AttemptOk(g.raft.hist, a)} :: a in g.begun ==> AttemptOk(g.raft.hist, a))
    && (forall a {:trigger GrantedOk(g.raft.voters, g.raft.hist, a)} :: a in g.granted ==> GrantedOk(g.raft.voters, g.raft.hist, a))
    && (forall n {:trigger BusyOk(g, n, g.busy[n])} :: n in g.busy ==> BusyOk(g, n, g.busy[n]))
    && InOrder(g)
    && LeaderApplied(g)
  }

  // ---- what a step of the group does to its leaders -----------------------------------------------------------

  /** A replica that leads afterwards led the same term before and has applied no less. */
  predicate StillLeads(s: NodeState, s': NodeState) {
    s'.role.Leader? ==> s.role.Leader? && s.term == s'.term && s.lastApplied <= s'.lastApplied
  }

  lemma {:induction false} VoteReplyLeads(cfg: Config, s: NodeState, r: VoteResponse)
    ensures var s' := HandleVoteReply(cfg, s, r);
            StillLeads(s, s') || (s.role.Candidate? && s'.term == s.term == r.term && r.granted
                                  && |(s.votes + {r.voter}) * cfg.voters| >= cfg.Majority())
  {
  }

  lemma {:induction false} ElectedFirst(c: Cluster, p: Packet)
    requires Inv(c) && p in c.net && p.VoteReturn? && !p.vreq.preVote && p.vreq.candidate in c.nodes
    ensures var n := p.vreq.candidate;
            var s' := HandleVoteReply(Config(n, c.voters), c.nodes[n], p.vresp);
            StillLeads(c.nodes[n], s') || s'.term !in c.hist.reigns
  {
    var n, r := p.vreq.candidate, p.vresp;
    var s := c.nodes[n];
    VoteReplyLeads(Config(n, c.voters), s, r);
    assert NodeOk(c.voters, c.hist, n, s) && PacketOk(c.voters, c.hist, p);
    var s1 := s.(votes := s.votes + {r.voter});
    if s.role.Candidate? && s.term == r.term && r.granted && |s1.votes * c.voters| >= |c.voters| / 2 + 1 {
      assert NodeOk(c.voters, c.hist, n, s1);
      FirstOfItsTerm(c.voters, c.hist, n, s1);
    }
  }

  lemma {:induction false} VoteLeads(cfg: Config, s: NodeState, req: VoteRequest, heardLeader: bool)
    ensures StillLeads(s, HandleVote(cfg, s, req, heardLeader).0)
  {
  }

  lemma {:induction false} AppendLeads(cfg: Config, s: NodeState, req: AppendRequest)
    ensures StillLeads(s, HandleAppend(cfg, s, req).0)
  {
  }

  lemma {:induction false} AppendReplyLeads(cfg: Config, s: NodeState, peer: NodeId, r: AppendResponse)
    ensures StillLeads(s, HandleAppendReply(cfg, s, peer, r))
  {
  }

  lemma {:induction false} ProbeLeads(cfg: Config, s: NodeState, r: VoteResponse)
    ensures StillLeads(s, StartPreElection(cfg, s)) && StillLeads(s, HandlePreVoteReply(cfg, s, r))
  {
  }

  lemma {:induction false} OthersLead(c: Cluster, step: Step, n: NodeId)
    requires Enabled(c, step) && n in c.nodes
    requires !(step.RecvVoteReply? && !step.p.vreq.preVote)
    ensures n in Do(c, step).nodes && StillLeads(c.nodes[n], Do(c, step).nodes[n])
  {
    var cfg, s := Config(n, c.voters), c.nodes[n];
    match step
    case Timeout(_) => ProbeLeads(cfg, s, VoteResponse(0, false, n));
    case RecvVote(p, heardLeader) => VoteLeads(cfg, s, p.vreq, heardLeader);
    case RecvVoteReply(p) => ProbeLeads(cfg, s, p.vresp);
    case RecvAppend(p) => AppendLeads(cfg, s, p.areq);
    case RecvAppendReply(p) => AppendReplyLeads(cfg, s, p.aresp.follower, p.aresp);
    case _ =>
  }

  /** After a step, a leader either led that term before, or leads a term nobody had led. */
  lemma {:induction false} LeadersStay(c: Cluster, step: Step, n: NodeId)
    requires Inv(c) && Enabled(c, step) && n in c.nodes
    ensures var c' := Do(c, step);
            && n in c'.nodes
            && (StillLeads(c.nodes[n], c'.nodes[n]) || c'.nodes[n].term !in c.hist.reigns)
  {
    if step.RecvVoteReply? && !step.p.vreq.preVote {
      ElectedFirst(c, step.p);
    } else {
      OthersLead(c, step, n);
    }
  }

  // ---- preservation ---------------------------------------------------------------------------------------------

  lemma {:induction false} AttemptMono(h: History, h': History, a: Attempt)
    requires Extends(h, h') && AttemptOk(h, a)
    ensures AttemptOk(h', a)
  {
    PointMono(h, h', a.term, a.index);
    PointMono(h, h', a.term, a.checkedAt);
    assert h.reigns[a.term].log <= h'.reigns[a.term].log;
  }

  lemma {:induction false} GrantedMono(voters: set<NodeId>, h: History, h': History, a: Attempt)
    requires Extends(h, h') && GrantedOk(voters, h, a)
    ensures GrantedOk(voters, h', a)
  {
    var t: nat, k: nat :| Committed(voters, h, t, k) && 1 <= a.index <= k
                          && Upto(h, t, k)[a.index - 1] == Entry(a.term, a.index, a.command);
    CommittedMono(voters, h, h', t, k);
  }

  /** The group moves to `c'`: its history grows, and a leader is one from before or the first of its term. */
  lemma {:induction false} GroupMoves(g: Shard, c': Cluster, busy: map<NodeId, Attempt>)
    requires CallsOk(g) && Extends(g.raft.hist, c'.hist) && c'.voters == g.raft.voters && c'.nodes.Keys == g.raft.nodes.Keys
    requires forall n :: n in g.raft.nodes ==> StillLeads(g.raft.nodes[n], c'.nodes[n]) || c'.nodes[n].term !in g.raft.hist.reigns
    requires forall n :: n in busy ==> n in g.busy && busy[n] == g.busy[n]
    ensures CallsOk(g.(raft := c', busy := busy))
  {
    var g' := g.(raft := c', busy := busy);
    forall a | a in g'.begun ensures AttemptOk(g'.raft.hist, a) {
      assert AttemptOk(g.raft.hist, a);
      AttemptMono(g.raft.hist, g'.raft.hist, a);
    }
    forall a | a in g'.granted ensures GrantedOk(g'.raft.voters, g'.raft.hist, a) {
      assert GrantedOk(g.raft.voters, g.raft.hist, a);
      GrantedMono(g.raft.voters, g.raft.hist, g'.raft.hist, a);
    }
    forall n | n in busy ensures BusyOk(g', n, busy[n]) {
      assert BusyOk(g, n, g.busy[n]);
    }
    forall n, a | n in g'.raft.nodes && a in g'.granted && g'.raft.nodes[n].role.Leader? && g'.raft.nodes[n].term == a.term
      ensures a.index <= g'.raft.nodes[n].lastApplied
    {
      assert AttemptOk(g.raft.hist, a);
    }
  }

  lemma {:induction false} GroupSteps(g: Shard, step: Step, busy: map<NodeId, Attempt>)
    requires ShardInv(g) && Enabled(g.raft, step)
    requires forall n :: n in busy ==> n in g.busy && busy[n] == g.busy[n]
    ensures ShardInv(g.(raft := Do(g.raft, step), busy := busy))
  {
    StepHolds(g.raft, step);
    forall n | n in g.raft.nodes
      ensures n in Do(g.raft, step).nodes
      ensures StillLeads(g.raft.nodes[n], Do(g.raft, step).nodes[n]) || Do(g.raft, step).nodes[n].term !in g.raft.hist.reigns
    {
      LeadersStay(g.raft, step, n);
    }
    GroupMoves(g, Do(g.raft, step), busy);
  }

  /** A leader that is ready to check has applied an entry of its own term. */
  lemma {:induction false} ReadyPoint(c: Cluster, n: NodeId)
    requires Inv(c) && n in c.nodes && IsReady(c.nodes[n])
    ensures var s := c.nodes[n];
            && Point(c.hist, s.term, s.lastApplied) && c.hist.reigns[s.term].log == s.log
            && c.hist.reigns[s.term].leader == n && s.lastApplied <= |s.log|
  {
    assert NodeOk(c.voters, c.hist, n, c.nodes[n]) && ReignOk(c.voters, c.hist, c.nodes[n].term);
  }

  lemma {:induction false} BeginAttemptOk(g: Shard, n: NodeId, c: Command, readTs: nat, a: Attempt)
    requires ShardInv(g) && Can(g, Begin(n, c, readTs))
    requires a == Attempt(g.raft.nodes[n].term, |g.raft.nodes[n].log| + 1, c, g.raft.nodes[n].lastApplied, readTs)
    ensures AttemptOk(Do(g.raft, ClientPropose(n, c)).hist, a)
  {
    ReadyPoint(g.raft, n);
    var s, h' := g.raft.nodes[n], Do(g.raft, ClientPropose(n, c)).hist;
    assert h'.reigns[s.term].log == s.log + [Entry(s.term, |s.log| + 1, c)];
    assert Upto(h', s.term, s.lastApplied) == s.log[..s.lastApplied];
  }

  /** The new attempt is the latest one of its term, and its check saw whatever was granted before. */
  lemma {:induction false} BeginLatest(g: Shard, n: NodeId, c: Command, readTs: nat, a: Attempt)
    requires ShardInv(g) && Can(g, Begin(n, c, readTs))
    requires a == Attempt(g.raft.nodes[n].term, |g.raft.nodes[n].log| + 1, c, g.raft.nodes[n].lastApplied, readTs)
    ensures forall b :: b in g.begun && b.term == a.term ==> b.index < a.index
    ensures forall b :: b in g.granted && b.term == a.term ==> b.index <= a.checkedAt
    ensures a.term in g.raft.hist.reigns && g.raft.hist.reigns[a.term].leader == n
  {
    ReadyPoint(g.raft, n);
    forall b | b in g.begun && b.term == a.term ensures b.index < a.index {
      assert AttemptOk(g.raft.hist, b);
    }
  }

  lemma {:induction false} BeginKeeps(g: Shard, n: NodeId, c: Command, readTs: nat, a: Attempt)
    requires ShardInv(g) && Can(g, Begin(n, c, readTs))
    requires a == Attempt(g.raft.nodes[n].term, |g.raft.nodes[n].log| + 1, c, g.raft.nodes[n].lastApplied, readTs)
    ensures ShardInv(Shard(Do(g.raft, ClientPropose(n, c)), g.busy[n := a], g.begun + {a}, g.granted))
  {
    ReadyPoint(g.raft, n);
    GroupSteps(g, ClientPropose(n, c), g.busy);
    BeginAttemptOk(g, n, c, readTs, a);
    BeginLatest(g, n, c, readTs, a);
    assert Do(g.raft, ClientPropose(n, c)).nodes.Keys == g.raft.nodes.Keys;
    assert Do(g.raft, ClientPropose(n, c)).hist.reigns[a.term].leader == n;
    AddAttempt(g.(raft := Do(g.raft, ClientPropose(n, c))), n, a);
  }

  lemma {:induction false} AddAttempt(g: Shard, n: NodeId, a: Attempt)
    requires CallsOk(g) && n in g.raft.nodes && AttemptOk(g.raft.hist, a) && g.raft.hist.reigns[a.term].leader == n
    requires forall b :: b in g.begun && b.term == a.term ==> b.index < a.index
    requires forall b :: b in g.granted && b.term == a.term ==> b.index <= a.checkedAt
    requires n !in g.busy
    ensures CallsOk(Shard(g.raft, g.busy[n := a], g.begun + {a}, g.granted))
  {
    var g' := Shard(g.raft, g.busy[n := a], g.begun + {a}, g.granted);
    forall x | x in g'.begun ensures AttemptOk(g'.raft.hist, x) {
      if x != a { assert AttemptOk(g.raft.hist, x); }
    }
    forall x | x in g'.granted ensures GrantedOk(g'.raft.voters, g'.raft.hist, x) {
      assert GrantedOk(g.raft.voters, g.raft.hist, x);
    }
    forall m | m in g'.busy ensures BusyOk(g', m, g'.busy[m]) {
      if m != n { assert BusyOk(g, m, g.busy[m]); }
    }
  }

  /** What a replica has applied is committed. */
  lemma {:induction false} AppliedIsGranted(g: Shard, n: NodeId)
    requires ShardInv(g) && Can(g, Grant(n))
    ensures GrantedOk(g.raft.voters, g.raft.hist, g.busy[n])
  {
    var s, a := g.raft.nodes[n], g.busy[n];
    assert NodeOk(g.raft.voters, g.raft.hist, n, s);
    var t: nat, k: nat :| t <= s.term && Committed(g.raft.voters, g.raft.hist, t, k)
                          && s.log[..s.commitIndex] <= Upto(g.raft.hist, t, k);
    assert s.log[..s.commitIndex][a.index - 1] == Upto(g.raft.hist, t, k)[a.index - 1];
  }

  /** Only the replica that served the call can lead its term, and it has applied the entry. */
  lemma {:induction false} GrantApplied(g: Shard, n: NodeId)
    requires ShardInv(g) && Can(g, Grant(n))
    ensures LeaderApplied(After(g, Grant(n)))
  {
    assert BusyOk(g, n, g.busy[n]);
    forall m | m in g.raft.nodes && g.raft.nodes[m].role.Leader? && g.raft.nodes[m].term == g.busy[n].term ensures m == n {
      assert NodeOk(g.raft.voters, g.raft.hist, m, g.raft.nodes[m]);
    }
  }

  lemma {:induction false} GrantInOrder(g: Shard, n: NodeId)
    requires CallsOk(g) && Can(g, Grant(n))
    ensures InOrder(After(g, Grant(n)))
  {
    assert BusyOk(g, n, g.busy[n]);
  }

  lemma {:induction false} GrantKeepsInv(g: Shard, n: NodeId)
    requires ShardInv(g) && Can(g, Grant(n))
    ensures CallsOk(After(g, Grant(n)))
  {
    AppliedIsGranted(g, n);
    GrantApplied(g, n);
    GrantInOrder(g, n);
    var a, g' := g.busy[n], After(g, Grant(n));
    assert BusyOk(g, n, a);
    forall x | x in g'.granted ensures GrantedOk(g'.raft.voters, g'.raft.hist, x) {
      assert x != a ==> GrantedOk(g.raft.voters, g.raft.hist, x);
    }
    forall m | m in g'.busy ensures BusyOk(g', m, g'.busy[m]) {
      assert BusyOk(g, m, g.busy[m]);
    }
    forall x | x in g'.begun ensures AttemptOk(g'.raft.hist, x) {
      assert AttemptOk(g.raft.hist, x);
    }
  }

  /** Every event keeps the invariant. */
  lemma {:induction false} EventKeeps(g: Shard, e: Event)
    requires ShardInv(g) && Can(g, e)
    ensures ShardInv(After(g, e))
  {
    match e
    case Raft(step) => GroupSteps(g, step, g.busy - Crashed(step));
    case Resolve(n, c) => GroupSteps(g, ClientPropose(n, c), g.busy);
    case Begin(n, c, readTs) =>
      BeginKeeps(g, n, c, readTs, Attempt(g.raft.nodes[n].term, |g.raft.nodes[n].log| + 1, c, g.raft.nodes[n].lastApplied, readTs));
    case Grant(n) => GrantKeepsInv(g, n);
    case GiveUp(n) => GiveUpKeeps(g, n);
  }

  lemma {:induction false} GiveUpKeeps(g: Shard, n: NodeId)
    requires CallsOk(g) && n in g.busy
    ensures CallsOk(g.(busy := g.busy - {n}))
  {
    var g' := g.(busy := g.busy - {n});
    forall m | m in g'.busy ensures BusyOk(g', m, g'.busy[m]) {
      assert BusyOk(g, m, g.busy[m]);
    }
    forall x | x in g'.begun ensures AttemptOk(g'.raft.hist, x) {
      assert AttemptOk(g.raft.hist, x);
    }
    forall x | x in g'.granted ensures GrantedOk(g'.raft.voters, g'.raft.hist, x) {
      assert GrantedOk(g.raft.voters, g.raft.hist, x);
    }
  }

  lemma {:induction false} ShardRunHolds(run: seq<Shard>, i: nat)
    requires IsShardRun(run) && i < |run|
    ensures ShardInv(run[i])
  {
    if i == 0 {
      InitHolds(run[0].raft);
    } else {
      ShardRunHolds(run, i - 1);
      assert Next(run[i - 1], run[i]);
      var e :| Can(run[i - 1], e) && run[i] == After(run[i - 1], e);
      EventKeeps(run[i - 1], e);
    }
  }

  // ---- key exclusion ----------------------------------------------------------------------------------------------

  lemma {:induction false} CommandsOfPrefix(log: seq<Entry>, k: nat)
    requires k <= |log|
    ensures CommandsOf(log[..k]) == CommandsOf(log)[..k]
  {
  }

  ghost predicate Held(s: S.Store, txn: TxnId, key: Key) { txn in s.intents && S.Locks(s.intents[txn], key) }

  /** The command ends the transaction, or prepares it anew without the key. */
  predicate Releases(c: Command, txn: TxnId, key: Key) {
    c == Commit(txn) || c == Abort(txn) || (c.Prepare? && c.txn == txn && !Touches(c, key))
  }

  lemma {:induction false} StepReleases(s: S.Store, c: Command, txn: TxnId, key: Key)
    requires Held(s, txn, key) && !Held(S.Apply(s, c), txn, key)
    ensures Releases(c, txn, key)
  {
  }

  /** A key held after `lo` commands and not held after `hi` was released in between. */
  lemma {:induction false} ReleasedBetween(log: seq<Command>, lo: nat, hi: nat, txn: TxnId, key: Key) returns (r: nat)
    requires lo <= hi <= |log| && Held(S.ApplyAll(S.Empty, log[..lo]), txn, key) && !Held(S.ApplyAll(S.Empty, log[..hi]), txn, key)
    ensures lo <= r < hi && Held(S.ApplyAll(S.Empty, log[..r]), txn, key) && Releases(log[r], txn, key)
    decreases hi
  {
    assert log[..hi][..hi - 1] == log[..hi - 1] && S.Last(log[..hi]) == log[hi - 1];
    if Held(S.ApplyAll(S.Empty, log[..hi - 1]), txn, key) {
      r := hi - 1;
      StepReleases(S.ApplyAll(S.Empty, log[..r]), log[r], txn, key);
    } else {
      r := ReleasedBetween(log, lo, hi - 1, txn, key);
    }
  }

  /** What a command wrote, or a commit made of an intent, is there after any later command. */
  lemma {:induction false} WrittenStays(log: seq<Command>, i: nat, hi: nat, writes: seq<Write>, ts: nat, key: Key)
    requires i < hi <= |log| && (exists j :: 0 <= j < |writes| && writes[j].key == key)
    requires var s := S.ApplyAll(S.Empty, log[..i]);
             log[i] == Put(ts, writes) || (log[i].Commit? && log[i].txn in s.intents && s.intents[log[i].txn] == S.Intent(ts, writes))
    ensures S.VersionKey(key, ts) in S.ApplyAll(S.Empty, log[..hi]).engine
  {
    var s, vk := S.ApplyAll(S.Empty, log[..i]), S.VersionKey(key, ts);
    assert log[..i + 1][..i] == log[..i] && S.Last(log[..i + 1]) == log[i];
    S.PutVersionsAt(s.engine, s.engine, writes, ts, vk);
    assert log[..hi][..i + 1] == log[..i + 1];
    S.VersionsStay(S.Empty, log[..hi], i + 1, vk);
  }

  /** The committed log, as far as two granted attempts reach. */
  lemma {:induction false} CommonLog(voters: set<NodeId>, h: History, a: Attempt, b: Attempt) returns (log: seq<Entry>)
    requires HistOk(voters, h) && GrantedOk(voters, h, a) && GrantedOk(voters, h, b)
    ensures CommittedLog(voters, h, log, if log == [] then 0 else LastTerm(log)) && LogOk(h, log)
    ensures 1 <= a.index <= |log| && log[a.index - 1] == Entry(a.term, a.index, a.command)
    ensures 1 <= b.index <= |log| && log[b.index - 1] == Entry(b.term, b.index, b.command)
  {
    var t: nat, k: nat :| Committed(voters, h, t, k) && 1 <= a.index <= k
                          && Upto(h, t, k)[a.index - 1] == Entry(a.term, a.index, a.command);
    var t2: nat, k2: nat :| Committed(voters, h, t2, k2) && 1 <= b.index <= k2
                            && Upto(h, t2, k2)[b.index - 1] == Entry(b.term, b.index, b.command);
    CommittedAgree(voters, h, t, k, t2, k2);
    assert ReignOk(voters, h, t) && ReignOk(voters, h, t2);
    if Upto(h, t, k) <= Upto(h, t2, k2) {
      log := Upto(h, t2, k2);
      LogOkPrefix(h, h.reigns[t2].log, k2);
    } else {
      log := Upto(h, t, k);
      LogOkPrefix(h, h.reigns[t].log, k);
    }
  }

  /** Key exclusion: of two granted writes to the same key, the later one in the log comes after an entry that ended
      the earlier one's transaction or made it give up the key. Leadership may have moved any number of times in
      between. A commit in between has given the key a version that the later one's snapshot holds. */
  lemma {:induction false} KeyExclusion(run: seq<Shard>, i: nat, a: Attempt, b: Attempt, key: Key) returns (log: seq<Entry>, r: nat)
    requires IsShardRun(run) && i < |run| && a in run[i].granted && b in run[i].granted
    requires a.command.Prepare? && Touches(a.command, key) && Touches(b.command, key)
    requires OwnTxn(a.command) != OwnTxn(b.command) && a.index < b.index
    ensures CommittedLog(run[i].raft.voters, run[i].raft.hist, log, LastTerm(log))
    ensures 1 <= a.index && b.index <= |log| && log[a.index - 1].command == a.command && log[b.index - 1].command == b.command
    ensures a.index < r < b.index && Releases(log[r - 1].command, a.command.txn, key)
    ensures Held(StoreOf(log[..r - 1]), a.command.txn, key)
    ensures log[r - 1].command.Commit? ==> StoreOf(log[..r - 1]).intents[a.command.txn].commitTs <= b.readTs
  {
    log := GrantedLog(run, i, a, b);
    r := ResolvedBetween(log, a.index, b.checkedAt, a.command, b.command, b.readTs, key);
  }

  /** If a transaction always prepares the same writes, it has ended before another one is granted one of its keys: two
      granted transactions that are not resolved never hold the same key. */
  lemma {:induction false} UnresolvedDisjoint(run: seq<Shard>, i: nat, a: Attempt, b: Attempt, key: Key) returns (log: seq<Entry>, r: nat)
    requires IsShardRun(run) && i < |run| && a in run[i].granted && b in run[i].granted
    requires a.command.Prepare? && Touches(a.command, key) && Touches(b.command, key)
    requires OwnTxn(a.command) != OwnTxn(b.command) && a.index < b.index
    ensures CommittedLog(run[i].raft.voters, run[i].raft.hist, log, LastTerm(log))
    ensures 1 <= a.index && b.index <= |log| && log[a.index - 1].command == a.command && log[b.index - 1].command == b.command
    ensures (forall x :: 0 <= x < |log| && log[x].command.Prepare? && log[x].command.txn == a.command.txn ==> log[x].command.writes == a.command.writes) ==>
              a.index < r < b.index && (log[r - 1].command == Commit(a.command.txn) || log[r - 1].command == Abort(a.command.txn))
  {
    log, r := KeyExclusion(run, i, a, b, key);
    SameTouches(log[r - 1].command, a.command, key);
  }

  lemma {:induction false} SameTouches(c: Command, d: Command, key: Key)
    ensures WritesOf(c) == WritesOf(d) ==> (Touches(c, key) <==> Touches(d, key))
  {
  }

  /** First committer wins across leaders: a single-shard write that was granted is in the snapshot of every granted
      write to one of its keys that comes later in the log. */
  lemma {:induction false} FirstWriterWins(run: seq<Shard>, i: nat, a: Attempt, b: Attempt, key: Key)
    requires IsShardRun(run) && i < |run| && a in run[i].granted && b in run[i].granted
    requires a.command.Put? && Touches(a.command, key) && Touches(b.command, key) && a.index < b.index
    ensures a.command.ts <= b.readTs
  {
    var log := GrantedLog(run, i, a, b);
    var cmds := CommandsOf(log);
    CommandsOfPrefix(log, b.checkedAt);
    TouchedIsClear(StoreOf(log[..b.checkedAt]), b.command, b.readTs, key);
    WrittenStays(cmds, a.index - 1, b.checkedAt, a.command.writes, a.command.ts, key);
  }

  /** The committed log that holds both, and what the later one was checked against. */
  lemma {:induction false} GrantedLog(run: seq<Shard>, i: nat, a: Attempt, b: Attempt) returns (log: seq<Entry>)
    requires IsShardRun(run) && i < |run| && a in run[i].granted && b in run[i].granted && a.index < b.index
    ensures CommittedLog(run[i].raft.voters, run[i].raft.hist, log, LastTerm(log))
    ensures 1 <= a.index <= b.checkedAt < b.index <= |log|
    ensures log[a.index - 1].command == a.command && log[b.index - 1].command == b.command
    ensures NoConflict(StoreOf(log[..b.checkedAt]), b.command, b.readTs)
  {
    ShardRunHolds(run, i);
    var g := run[i];
    var h := g.raft.hist;
    assert GrantedOk(g.raft.voters, h, a) && GrantedOk(g.raft.voters, h, b);
    assert AttemptOk(h, a) && AttemptOk(h, b);
    log := CommonLog(g.raft.voters, h, a, b);
    CheckedAfter(g, log, a, b);
  }

  /** A key that a prepare locked was found free later on: it was released in between. */
  lemma {:induction false} ResolvedBetween(log: seq<Entry>, at: nat, checkedAt: nat, a: Command, b: Command, readTs: nat, key: Key) returns (r: nat)
    requires 1 <= at <= checkedAt <= |log| && log[at - 1].command == a && a.Prepare? && Touches(a, key) && Touches(b, key)
    requires OwnTxn(a) != OwnTxn(b) && NoConflict(StoreOf(log[..checkedAt]), b, readTs)
    ensures at < r <= checkedAt && Releases(log[r - 1].command, a.txn, key) && Held(StoreOf(log[..r - 1]), a.txn, key)
    ensures log[r - 1].command.Commit? ==> StoreOf(log[..r - 1]).intents[a.txn].commitTs <= readTs
  {
    var cmds := CommandsOf(log);
    CommandsOfPrefix(log, checkedAt);
    PreparedHolds(cmds, at, key);
    TouchedIsClear(StoreOf(log[..checkedAt]), b, readTs, key);
    var q := ReleasedBetween(cmds, at, checkedAt, a.txn, key);
    r := q + 1;
    CommandsOfPrefix(log, q);
    if cmds[q].Commit? {
      var i := S.ApplyAll(S.Empty, cmds[..q]).intents[a.txn];
      WrittenStays(cmds, q, checkedAt, i.writes, i.commitTs, key);
    }
  }

  /** The later attempt was checked against a store that had the earlier one applied. */
  lemma {:induction false} CheckedAfter(g: Shard, log: seq<Entry>, a: Attempt, b: Attempt)
    requires ShardInv(g) && a in g.granted && b in g.granted && a.index < b.index <= |log|
    requires LogOk(g.raft.hist, log) && AttemptOk(g.raft.hist, a) && AttemptOk(g.raft.hist, b)
    requires log[a.index - 1].term == a.term && log[b.index - 1].term == b.term
    ensures a.index <= b.checkedAt < b.index && Upto(g.raft.hist, b.term, b.checkedAt) == log[..b.checkedAt]
  {
    var h := g.raft.hist;
    assert InReign(h, log, b.index - 1);
    assert log[..b.index] <= h.reigns[b.term].log;
    assert log[..b.index][b.checkedAt - 1] == log[b.checkedAt - 1] == h.reigns[b.term].log[b.checkedAt - 1];
    assert log[..b.index][..b.checkedAt] == log[..b.checkedAt];
  }

  lemma {:induction false} PreparedHolds(cmds: seq<Command>, idx: nat, key: Key)
    requires 1 <= idx <= |cmds| && cmds[idx - 1].Prepare? && Touches(cmds[idx - 1], key)
    ensures var s := S.ApplyAll(S.Empty, cmds[..idx]); cmds[idx - 1].txn in s.intents && S.Locks(s.intents[cmds[idx - 1].txn], key)
  {
    assert S.Last(cmds[..idx]) == cmds[idx - 1];
  }

  /** Every replica that has applied the index of a granted write has that write there. */
  lemma {:induction false} GrantedInLog(g: Shard, a: Attempt, n: NodeId)
    requires ShardInv(g) && a in g.granted && n in g.raft.nodes && a.index <= g.raft.nodes[n].lastApplied
    ensures var s := g.raft.nodes[n]; 1 <= a.index <= s.lastApplied <= |s.log| && s.log[a.index - 1].command == a.command
  {
    var voters, h, s := g.raft.voters, g.raft.hist, g.raft.nodes[n];
    assert GrantedOk(voters, h, a) && NodeOk(voters, h, n, s);
    var t: nat, k: nat :| Committed(voters, h, t, k) && 1 <= a.index <= k
                          && Upto(h, t, k)[a.index - 1] == Entry(a.term, a.index, a.command);
    assert CommittedLog(voters, h, Upto(h, t, k), t);
    CommittedLogsAgree(voters, h, Upto(h, t, k), t, s.log[..s.commitIndex], s.term, a.index - 1);
  }

  /** A granted single-shard write is read back on every replica that has applied it, at its timestamp or later, until the key
      gets another version. */
  lemma {:induction false} GrantedIsRead(run: seq<Shard>, i: nat, a: Attempt, n: NodeId, key: Key, at: nat)
    requires IsShardRun(run) && i < |run| && a in run[i].granted && a.command.Put? && S.WritesKey(a.command.writes, key)
    requires n in run[i].raft.nodes && a.index <= run[i].raft.nodes[n].lastApplied <= |run[i].raft.nodes[n].log|
    requires a.command.ts <= at
    requires var s := run[i].raft.nodes[n];
             forall j: nat, t: nat :: S.WritesVersion(CommandsOf(s.log[..s.lastApplied]), j, key, t) && a.command.ts <= t <= at ==>
               t == a.command.ts && j < a.index
    ensures var s := run[i].raft.nodes[n];
            S.ReadAt(StoreOf(s.log[..s.lastApplied]).engine, key, at) == S.LastValue(a.command.writes, key)
  {
    var s := run[i].raft.nodes[n];
    ShardRunHolds(run, i);
    GrantedInLog(run[i], a, n);
    S.WrittenIsRead(CommandsOf(s.log[..s.lastApplied]), a.index - 1, key, a.command.ts, S.LastValue(a.command.writes, key), at);
  }
}
