/** Two-phase commit across shards, as a step system. Each shard is its committed log; the coordinator keeps
    a durable record per transaction and may crash at any moment; messages may be lost, late or repeated. */
module TwoPhase {
  import opened Commands
  import S = ShardStore

  datatype ShardId = ShardId(name: string)

  /** What a client asked for: the writes, grouped by shard, and the timestamp they commit at. */
  datatype Txn = Txn(commitTs: nat, groups: map<ShardId, seq<Write>>)

  /** The durable record of an unfinished transaction. */
  datatype Status = Preparing | Committing | Aborted

  datatype Message =
    | PrepareCall(txn: TxnId, shard: ShardId)
    | Vote(txn: TxnId, shard: ShardId, yes: bool)
    | Decision(txn: TxnId, shard: ShardId, commit: bool)
    | Ack(txn: TxnId, shard: ShardId, commit: bool)

  datatype World = World(
    logs: map<ShardId, seq<Command>>,           // one committed log per shard
    records: map<TxnId, Status>,                // durable transaction log of the coordinators
    running: map<TxnId, set<ShardId>>,          // requests in progress, with the shards that voted yes so far
    net: set<Message>,
    txns: map<TxnId, Txn>,                      // every transaction ever begun
    decided: map<TxnId, bool>)                  // every decision ever recorded

  datatype Step =
    | Begin(t: TxnId, txn: Txn)
    | SendPrepare(t: TxnId, s: ShardId)
    | RecvPrepare(t: TxnId, s: ShardId, logged: bool, yes: bool)
    | RecvVote(t: TxnId, s: ShardId)
    | DecideCommit(t: TxnId)
    | DecideAbort(t: TxnId)                     // a no vote, or no answer in time
    | SweepAbort(t: TxnId)                      // still 'preparing' and nobody is working on it
    | SendDecision(t: TxnId, s: ShardId)        // by the request itself or by any later sweep
    | RecvDecision(t: TxnId, s: ShardId, commit: bool)
    | Remove(t: TxnId)
    | LocalWrite(s: ShardId, c: Command)        // single-shard commits and election no-ops share the logs
    | Crash(lost: set<TxnId>)                  // the requests that were running on the nodes that stop

  ghost predicate Init(w: World) {
    && (forall s :: s in w.logs ==> w.logs[s] == [])
    && w.records == map[] && w.running == map[] && w.net == {} && w.txns == map[] && w.decided == map[]
  }

  predicate Enabled(w: World, step: Step) {
    match step
    case Begin(t, txn) => t !in w.txns && (forall s :: s in txn.groups ==> s in w.logs)
    case SendPrepare(t, s) => t in w.running && t in w.txns && s in w.txns[t].groups
    case RecvPrepare(t, s, logged, yes) =>
      PrepareCall(t, s) in w.net && t in w.txns && s in w.txns[t].groups && s in w.logs && (yes ==> logged)
    case RecvVote(t, s) => t in w.running && Vote(t, s, true) in w.net
    case DecideCommit(t) => t in w.running && t in w.txns && w.running[t] == w.txns[t].groups.Keys
    case DecideAbort(t) => t in w.running
    case SweepAbort(t) => t !in w.running && t in w.records && w.records[t] == Preparing
    case SendDecision(t, s) => t in w.decided && t in w.txns && s in w.txns[t].groups
    case RecvDecision(t, s, commit) => Decision(t, s, commit) in w.net && s in w.logs
    case Remove(t) =>
      && t in w.records && t in w.txns && w.records[t] != Preparing
      && (forall s :: s in w.txns[t].groups ==> Ack(t, s, w.records[t] == Committing) in w.net)
    case LocalWrite(s, c) => s in w.logs && (c.Put? || c.Noop?)
    case Crash(_) => true
  }

  function Do(w: World, step: Step): World
    requires Enabled(w, step)
  {
    match step
    case Begin(t, txn) => w.(txns := w.txns[t := txn], records := w.records[t := Preparing], running := w.running[t := {}])
    case SendPrepare(t, s) => w.(net := w.net + {PrepareCall(t, s)})
    case RecvPrepare(t, s, logged, yes) =>
      w.(logs := if logged then w.logs[s := w.logs[s] + [Prepare(t, w.txns[t].commitTs, w.txns[t].groups[s])]] else w.logs,
         net := w.net + {Vote(t, s, yes)})
    case RecvVote(t, s) => w.(running := w.running[t := w.running[t] + {s}])
    case DecideCommit(t) => w.(records := w.records[t := Committing], running := w.running - {t}, decided := w.decided[t := true])
    case DecideAbort(t) => w.(records := w.records[t := Aborted], running := w.running - {t}, decided := w.decided[t := false])
    case SweepAbort(t) => w.(records := w.records[t := Aborted], decided := w.decided[t := false])
    case SendDecision(t, s) => w.(net := w.net + {Decision(t, s, w.decided[t])})
    case RecvDecision(t, s, commit) =>
      w.(logs := w.logs[s := w.logs[s] + [if commit then Commit(t) else Abort(t)]], net := w.net + {Ack(t, s, commit)})
    case Remove(t) => w.(records := w.records - {t})
    case LocalWrite(s, c) => w.(logs := w.logs[s := w.logs[s] + [c]])
    case Crash(lost) => w.(running := w.running - lost)
  }

  ghost predicate Follows(w: World, w': World) { exists step :: Enabled(w, step) && w' == Do(w, step) }

  ghost predicate IsRun(run: seq<World>) {
    && |run| > 0
    && Init(run[0])
    && forall i :: 0 <= i < |run| - 1 ==> Follows(run[i], run[i + 1])
  }

  // ---- invariant -----------------------------------------------------------------------------------------

  ghost predicate Prepared(w: World, t: TxnId, s: ShardId) {
    t in w.txns && s in w.txns[t].groups && s in w.logs
    && Prepare(t, w.txns[t].commitTs, w.txns[t].groups[s]) in w.logs[s]
  }

  ghost predicate TxnOk(w: World, t: TxnId) {
    && t in w.txns
    && (t in w.running ==> t !in w.decided && t in w.records && w.records[t] == Preparing
                           && forall s :: s in w.running[t] ==> Vote(t, s, true) in w.net)
    && (t !in w.decided ==> t in w.records && w.records[t] == Preparing)
    && (t in w.decided && t in w.records ==> w.records[t] == if w.decided[t] then Committing else Aborted)
    && (t in w.decided && w.decided[t] ==> forall s :: s in w.txns[t].groups ==> Prepared(w, t, s))
    && (t in w.decided && t !in w.records ==> forall s :: s in w.txns[t].groups ==> Ack(t, s, w.decided[t]) in w.net)
    && (forall s :: s in w.txns[t].groups ==> s in w.logs)
  }

  ghost predicate MessageOk(w: World, m: Message) {
    match m
    case PrepareCall(_, _) => true
    case Vote(t, s, yes) => yes ==> Prepared(w, t, s)
    case Decision(t, s, commit) => t in w.txns && s in w.txns[t].groups && t in w.decided && w.decided[t] == commit
    case Ack(t, s, commit) =>
      && t in w.txns && s in w.txns[t].groups && t in w.decided && w.decided[t] == commit
      && s in w.logs && (if commit then Commit(t) else Abort(t)) in w.logs[s]
  }

  /** Commits and aborts in a log carry the recorded decision, and a commit comes after its prepare. */
  ghost predicate EntryOk(w: World, s: ShardId, i: nat) {
    && s in w.logs && i < |w.logs[s]|
    && match w.logs[s][i]
       case Prepare(t, ts, writes) => t in w.txns && s in w.txns[t].groups && w.txns[t] == Txn(ts, w.txns[t].groups) && w.txns[t].groups[s] == writes
       case Commit(t) => t in w.decided && w.decided[t] && t in w.txns && s in w.txns[t].groups
                         && Prepare(t, w.txns[t].commitTs, w.txns[t].groups[s]) in w.logs[s][..i]
       case Abort(t) => t in w.decided && !w.decided[t]
       case _ => true
  }

  ghost predicate Inv(w: World) {
    && (forall t {:trigger TxnOk(w, t)} :: t in w.txns || t in w.running || t in w.records || t in w.decided ==> TxnOk(w, t))
    && (forall m {:trigger MessageOk(w, m)} :: m in w.net ==> MessageOk(w, m))
    && (forall s, i: nat {:trigger EntryOk(w, s, i)} :: s in w.logs && i < |w.logs[s]| ==> EntryOk(w, s, i))
  }

  /** Everything recorded stays: logs, transactions, decisions and messages only grow. */
  ghost predicate Grows(w: World, w': World) {
    && w.logs.Keys == w'.logs.Keys
    && (forall s :: s in w.logs ==> w.logs[s] <= w'.logs[s])
    && (forall t :: t in w.txns ==> t in w'.txns && w'.txns[t] == w.txns[t])
    && (forall t :: t in w.decided ==> t in w'.decided && w'.decided[t] == w.decided[t])
    && w.net <= w'.net
  }

  lemma {:induction false} MessageGrows(w: World, w': World, m: Message)
    requires Grows(w, w') && MessageOk(w, m)
    ensures MessageOk(w', m)
  {
  }

  lemma {:induction false} EntryGrows(w: World, w': World, s: ShardId, i: nat)
    requires Grows(w, w') && EntryOk(w, s, i)
    ensures EntryOk(w', s, i)
  {
    assert w'.logs[s][i] == w.logs[s][i] && w'.logs[s][..i] == w.logs[s][..i];
  }

  lemma {:induction false} TxnGrows(w: World, w': World, t: TxnId)
    requires Grows(w, w') && TxnOk(w, t)
    requires t in w'.decided <==> t in w.decided
    requires t in w'.records <==> t in w.records
    requires t in w.records ==> w'.records[t] == w.records[t]
    requires t in w'.running ==> t in w.running && w'.running[t] == w.running[t]
    ensures TxnOk(w', t)
  {
    forall s | s in w.txns[t].groups && Prepared(w, t, s) ensures Prepared(w', t, s) {}
  }

  /** A step that concerns transaction `t` only has to put `t`, its new messages and its new entries right. */
  lemma {:induction false} Frame(w: World, w': World, t: TxnId)
    requires Inv(w) && Grows(w, w')
    requires forall x :: x != t ==> (x in w'.txns <==> x in w.txns) && (x in w'.decided <==> x in w.decided)
                                    && (x in w'.records <==> x in w.records)
    requires forall x :: x != t && x in w.records ==> w'.records[x] == w.records[x]
    requires forall x :: x != t && x in w'.running ==> x in w.running && w'.running[x] == w.running[x]
    requires t in w'.txns || t in w'.running || t in w'.records || t in w'.decided ==> TxnOk(w', t)
    requires forall m :: m in w'.net && m !in w.net ==> MessageOk(w', m)
    requires forall s, i: nat {:trigger EntryOk(w', s, i)} :: s in w'.logs && |w.logs[s]| <= i < |w'.logs[s]| ==> EntryOk(w', s, i)
    ensures Inv(w')
  {
    forall x | x in w'.txns || x in w'.running || x in w'.records || x in w'.decided ensures TxnOk(w', x) {
      if x != t {
        assert TxnOk(w, x);
        TxnGrows(w, w', x);
      }
    }
    forall m | m in w'.net ensures MessageOk(w', m) {
      if m in w.net {
        assert MessageOk(w, m);
        MessageGrows(w, w', m);
      }
    }
    forall s, i: nat | s in w'.logs && i < |w'.logs[s]| ensures EntryOk(w', s, i) {
      if i < |w.logs[s]| {
        assert EntryOk(w, s, i);
        EntryGrows(w, w', s, i);
      }
    }
  }

  /** The one entry that a step appended to a log. */
  lemma {:induction false} AppendedOnly(w: World, w': World, s: ShardId, c: Command)
    requires s in w.logs && w'.logs == w.logs[s := w.logs[s] + [c]]
    requires EntryOk(w', s, |w.logs[s]|)
    ensures forall x, i: nat {:trigger EntryOk(w', x, i)} :: x in w'.logs && |w.logs[x]| <= i < |w'.logs[x]| ==> EntryOk(w', x, i)
  {
  }

  lemma {:induction false} PrepareKeeps(w: World, t: TxnId, s: ShardId, logged: bool, yes: bool)
    requires Inv(w) && Enabled(w, RecvPrepare(t, s, logged, yes))
    ensures Inv(Do(w, RecvPrepare(t, s, logged, yes))) && Grows(w, Do(w, RecvPrepare(t, s, logged, yes)))
  {
    var w' := Do(w, RecvPrepare(t, s, logged, yes));
    assert TxnOk(w, t);
    TxnGrows(w, w', t);
    if logged {
      var c := Prepare(t, w.txns[t].commitTs, w.txns[t].groups[s]);
      assert w'.logs[s][|w.logs[s]|] == c;
      AppendedOnly(w, w', s, c);
    }
    Frame(w, w', t);
  }

  lemma {:induction false} DecisionKeeps(w: World, t: TxnId, s: ShardId, commit: bool)
    requires Inv(w) && Enabled(w, RecvDecision(t, s, commit))
    ensures Inv(Do(w, RecvDecision(t, s, commit))) && Grows(w, Do(w, RecvDecision(t, s, commit)))
  {
    var w' := Do(w, RecvDecision(t, s, commit));
    assert MessageOk(w, Decision(t, s, commit)) && TxnOk(w, t);
    TxnGrows(w, w', t);
    var c := if commit then Commit(t) else Abort(t);
    assert w'.logs[s][|w.logs[s]|] == c && w'.logs[s][..|w.logs[s]|] == w.logs[s];
    assert commit ==> Prepared(w, t, s);
    AppendedOnly(w, w', s, c);
    Frame(w, w', t);
  }

  /** The commit point: all participants voted yes, so every participant log holds its prepare. */
  lemma {:induction false} CommitPointKeeps(w: World, t: TxnId)
    requires Inv(w) && Enabled(w, DecideCommit(t))
    ensures Inv(Do(w, DecideCommit(t))) && Grows(w, Do(w, DecideCommit(t)))
  {
    var w' := Do(w, DecideCommit(t));
    assert TxnOk(w, t);
    forall s | s in w.txns[t].groups ensures Prepared(w', t, s) {
      assert MessageOk(w, Vote(t, s, true));
    }
    Frame(w, w', t);
  }

  lemma {:induction false} RemoveKeeps(w: World, t: TxnId)
    requires Inv(w) && Enabled(w, Remove(t))
    ensures Inv(Do(w, Remove(t))) && Grows(w, Do(w, Remove(t)))
  {
    var w' := Do(w, Remove(t));
    assert TxnOk(w, t);
    forall s | s in w.txns[t].groups && Prepared(w, t, s) ensures Prepared(w', t, s) {}
    Frame(w, w', t);
  }

  lemma {:induction false} BeginKeeps(w: World, t: TxnId, txn: Txn)
    requires Inv(w) && Enabled(w, Begin(t, txn))
    ensures Inv(Do(w, Begin(t, txn))) && Grows(w, Do(w, Begin(t, txn)))
  {
    var known := TxnOk(w, t);      // it is not: `t` was never begun
    Frame(w, Do(w, Begin(t, txn)), t);
  }

  lemma {:induction false} SendKeeps(w: World, step: Step, t: TxnId)
    requires Inv(w) && Enabled(w, step) && (step.SendPrepare? || step.SendDecision?) && t == step.t
    ensures Inv(Do(w, step)) && Grows(w, Do(w, step))
  {
    assert TxnOk(w, t);
    TxnGrows(w, Do(w, step), t);
    Frame(w, Do(w, step), t);
  }

  lemma {:induction false} VoteKeeps(w: World, t: TxnId, s: ShardId)
    requires Inv(w) && Enabled(w, RecvVote(t, s))
    ensures Inv(Do(w, RecvVote(t, s))) && Grows(w, Do(w, RecvVote(t, s)))
  {
    assert TxnOk(w, t);
    Frame(w, Do(w, RecvVote(t, s)), t);
  }

  lemma {:induction false} AbortKeeps(w: World, step: Step, t: TxnId)
    requires Inv(w) && Enabled(w, step) && (step.DecideAbort? || step.SweepAbort?) && t == step.t
    ensures Inv(Do(w, step)) && Grows(w, Do(w, step))
  {
    assert TxnOk(w, t);
    Frame(w, Do(w, step), t);
  }

  /** Every step keeps the invariant, and nothing recorded is lost. */
  lemma {:induction false} StepKeeps(w: World, step: Step)
    requires Inv(w) && Enabled(w, step)
    ensures Inv(Do(w, step)) && Grows(w, Do(w, step))
  {
    match step
    case Begin(t, txn) => BeginKeeps(w, t, txn);
    case SendPrepare(t, _) => SendKeeps(w, step, t);
    case RecvPrepare(t, s, logged, yes) => PrepareKeeps(w, t, s, logged, yes);
    case RecvVote(t, s) => VoteKeeps(w, t, s);
    case DecideCommit(t) => CommitPointKeeps(w, t);
    case DecideAbort(t) => AbortKeeps(w, step, t);
    case SweepAbort(t) => AbortKeeps(w, step, t);
    case SendDecision(t, _) => SendKeeps(w, step, t);
    case RecvDecision(t, s, commit) => DecisionKeeps(w, t, s, commit);
    case Remove(t) => RemoveKeeps(w, t);
    case LocalWrite(s, c) => LocalKeeps(w, s, c);
    case Crash(lost) => CrashKeeps(w, lost);
  }

  lemma {:induction false} LocalKeeps(w: World, s: ShardId, c: Command)
    requires Inv(w) && Enabled(w, LocalWrite(s, c))
    ensures Inv(Do(w, LocalWrite(s, c))) && Grows(w, Do(w, LocalWrite(s, c)))
  {
    var w' := Do(w, LocalWrite(s, c));
    assert w'.logs[s][|w.logs[s]|] == c;
    AppendedOnly(w, w', s, c);
    if "" in w'.txns || "" in w'.running || "" in w'.records || "" in w'.decided {
      assert TxnOk(w, "");
      TxnGrows(w, w', "");
    }
    Frame(w, w', "");
  }

  lemma {:induction false} CrashKeeps(w: World, lost: set<TxnId>)
    requires Inv(w)
    ensures Inv(w.(running := w.running - lost)) && Grows(w, w.(running := w.running - lost))
  {
    var w' := w.(running := w.running - lost);
    if "" in w'.txns || "" in w'.running || "" in w'.records || "" in w'.decided {
      assert TxnOk(w, "");
      TxnGrows(w, w', "");
    }
    Frame(w, w', "");
  }

  lemma {:induction false} RunHolds(run: seq<World>, i: nat, j: nat)
    requires IsRun(run) && i <= j < |run|
    ensures Inv(run[i]) && Inv(run[j]) && Grows(run[i], run[j])
    decreases j
  {
    if j == 0 {
    } else if i == j {
      RunHolds(run, j - 1, j - 1);
      assert Follows(run[j - 1], run[j]);
      var step :| Enabled(run[j - 1], step) && run[j] == Do(run[j - 1], step);
      StepKeeps(run[j - 1], step);
    } else {
      RunHolds(run, i, j - 1);
      assert Follows(run[j - 1], run[j]);
      var step :| Enabled(run[j - 1], step) && run[j] == Do(run[j - 1], step);
      StepKeeps(run[j - 1], step);
    }
  }

  // ---- main results -----------------------------------------------------------------------------------------

  /** Atomicity: at no two moments of a run is a transaction committed on one shard and aborted on another. */
  lemma {:induction false} Atomicity(run: seq<World>, i: nat, j: nat, s1: ShardId, s2: ShardId, t: TxnId)
    requires IsRun(run) && i < |run| && j < |run| && s1 in run[i].logs && s2 in run[j].logs
    requires Commit(t) in run[i].logs[s1]
    ensures Abort(t) !in run[j].logs[s2]
  {
    if i <= j { RunHolds(run, i, j); } else { RunHolds(run, j, i); }
    var p: nat :| p < |run[i].logs[s1]| && run[i].logs[s1][p] == Commit(t);
    assert EntryOk(run[i], s1, p);
    forall q: nat | q < |run[j].logs[s2]| ensures run[j].logs[s2][q] != Abort(t) {
      assert EntryOk(run[j], s2, q);
    }
  }

  /** Once the commit decision is recorded, every participant's log holds its prepare. */
  lemma {:induction false} CommitPointIsPrepared(run: seq<World>, i: nat, t: TxnId, s: ShardId)
    requires IsRun(run) && i < |run| && t in run[i].records && run[i].records[t] == Committing
    ensures t in run[i].txns && (s in run[i].txns[t].groups ==> Prepared(run[i], t, s))
  {
    RunHolds(run, i, i);
    assert TxnOk(run[i], t);
  }

  /** A record is only gone once every participant's log holds the decision, and the same one. */
  lemma {:induction false} RemovedIsResolved(run: seq<World>, i: nat, t: TxnId, s: ShardId)
    requires IsRun(run) && i < |run| && t in run[i].txns && t !in run[i].records && s in run[i].txns[t].groups
    ensures t in run[i].decided && s in run[i].logs
    ensures (if run[i].decided[t] then Commit(t) else Abort(t)) in run[i].logs[s]
  {
    RunHolds(run, i, i);
    assert TxnOk(run[i], t);
    assert MessageOk(run[i], Ack(t, s, run[i].decided[t]));
  }

  /** In every shard log a commit comes after its prepare, which is what replaying the log after a restart needs. */
  lemma {:induction false} CommitsFollowPrepares(run: seq<World>, i: nat, s: ShardId)
    requires IsRun(run) && i < |run| && s in run[i].logs
    ensures S.NoCommitFirst(run[i].logs[s])
  {
    RunHolds(run, i, i);
    var log := run[i].logs[s];
    forall p | 0 <= p < |log| && log[p].Commit? ensures S.Touched(log[..p], log[p].txn) {
      assert EntryOk(run[i], s, p);
      var q :| 0 <= q < |log[..p]| && log[..p][q] == Prepare(log[p].txn, run[i].txns[log[p].txn].commitTs, run[i].txns[log[p].txn].groups[s]);
      assert S.Concerns(log[..p][q], log[p].txn);
    }
  }

  /** Nobody else writes this key with the timestamp of `t`. */
  ghost predicate OnlyWriter(w: World, s: ShardId, t: TxnId, key: Key)
    requires t in w.txns && s in w.logs
  {
    && (forall p :: 0 <= p < |w.logs[s]| && w.logs[s][p].Put? && w.logs[s][p].ts == w.txns[t].commitTs ==> !S.WritesKey(w.logs[s][p].writes, key))
    && (forall x :: x in w.txns && x != t && w.txns[x].commitTs == w.txns[t].commitTs && s in w.txns[x].groups ==> !S.WritesKey(w.txns[x].groups[s], key))
  }

  /** What a committed transaction writes on a shard is there as versions at its commit timestamp, with the values of its
      last write to each key, as long as nobody else writes the key with the same timestamp. */
  lemma {:induction false} CommittedIsVisible(run: seq<World>, i: nat, t: TxnId, s: ShardId, key: Key)
    requires IsRun(run) && i < |run| && s in run[i].logs && Commit(t) in run[i].logs[s]
    ensures t in run[i].txns && s in run[i].txns[t].groups
    ensures S.WritesKey(run[i].txns[t].groups[s], key) ==>
              var vk, engine := S.VersionKey(key, run[i].txns[t].commitTs), S.ApplyAll(S.Empty, run[i].logs[s]).engine;
              vk in engine && (OnlyWriter(run[i], s, t, key) ==> engine[vk] == S.Version(S.LastValue(run[i].txns[t].groups[s], key)))
  {
    RunHolds(run, i, i);
    var w, log := run[i], run[i].logs[s];
    var p: nat :| p < |log| && log[p] == Commit(t);
    assert EntryOk(w, s, p);
    if S.WritesKey(w.txns[t].groups[s], key) {
      var q := FirstCommit(w, s, t, p);
      var vk := S.VersionKey(key, w.txns[t].commitTs);
      StagedUntilCommit(w, s, t, q);
      S.PutVersionsValue(S.ApplyAll(S.Empty, log[..q]).engine, w.txns[t].groups[s], w.txns[t].commitTs, key);
      assert log[..q + 1][..q] == log[..q] && S.Last(log[..q + 1]) == Commit(t);
      S.VersionsStay(S.Empty, log, q + 1, vk);
      if OnlyWriter(w, s, t, key) {
        ValueStays(w, s, t, key, q, |log|);
        assert log[..|log|] == log;
      }
    }
  }

  /** What is staged was prepared. */
  lemma {:induction false} StagedArePrepared(w: World, s: ShardId, n: nat, x: TxnId)
    requires Inv(w) && s in w.logs && n <= |w.logs[s]| && x in S.ApplyAll(S.Empty, w.logs[s][..n]).intents
    ensures x in w.txns && s in w.txns[x].groups
    ensures S.ApplyAll(S.Empty, w.logs[s][..n]).intents[x] == S.Intent(w.txns[x].commitTs, w.txns[x].groups[s])
    decreases n
  {
    var log := w.logs[s];
    if n > 0 {
      assert log[..n][..n - 1] == log[..n - 1] && S.Last(log[..n]) == log[n - 1];
      assert EntryOk(w, s, n - 1);
      if x in S.ApplyAll(S.Empty, log[..n - 1]).intents { StagedArePrepared(w, s, n - 1, x); }
    }
  }

  lemma {:induction false} ValueStays(w: World, s: ShardId, t: TxnId, key: Key, q: nat, n: nat)
    requires Inv(w) && s in w.logs && q < n <= |w.logs[s]| && t in w.txns && s in w.txns[t].groups && OnlyWriter(w, s, t, key)
    requires S.WritesKey(w.txns[t].groups[s], key)
    requires HasValue(w, s, t, key, q + 1)
    ensures HasValue(w, s, t, key, n)
    decreases n
  {
    if q + 1 < n {
      ValueStays(w, s, t, key, q, n - 1);
      ValueStep(w, s, t, key, n - 1);
    }
  }

  ghost predicate HasValue(w: World, s: ShardId, t: TxnId, key: Key, n: nat)
    requires s in w.logs && n <= |w.logs[s]| && t in w.txns && s in w.txns[t].groups
  {
    var engine := S.ApplyAll(S.Empty, w.logs[s][..n]).engine;
    var vk := S.VersionKey(key, w.txns[t].commitTs);
    vk in engine && engine[vk] == S.Version(S.LastValue(w.txns[t].groups[s], key))
  }

  lemma {:induction false} ValueStep(w: World, s: ShardId, t: TxnId, key: Key, n: nat)
    requires Inv(w) && s in w.logs && n < |w.logs[s]| && t in w.txns && s in w.txns[t].groups && OnlyWriter(w, s, t, key)
    requires S.WritesKey(w.txns[t].groups[s], key) && HasValue(w, s, t, key, n)
    ensures HasValue(w, s, t, key, n + 1)
  {
    var log, st, vk := w.logs[s], S.ApplyAll(S.Empty, w.logs[s][..n]), S.VersionKey(key, w.txns[t].commitTs);
    assert log[..n + 1][..n] == log[..n] && S.Last(log[..n + 1]) == log[n];
    match log[n]
    case Put(ts, writes) => S.PutVersionsAt(st.engine, st.engine, writes, ts, vk);
    case Commit(x) =>
      if x in st.intents {
        StagedArePrepared(w, s, n, x);
        S.PutVersionsAt(st.engine, st.engine, st.intents[x].writes, st.intents[x].commitTs, vk);
        if x == t { S.PutVersionsValue(st.engine, w.txns[t].groups[s], w.txns[t].commitTs, key); }
      }
    case _ =>
  }

  lemma {:induction false} FirstCommit(w: World, s: ShardId, t: TxnId, p: nat) returns (q: nat)
    requires Inv(w) && s in w.logs && p < |w.logs[s]| && w.logs[s][p] == Commit(t)
    ensures q <= p && w.logs[s][q] == Commit(t) && Commit(t) !in w.logs[s][..q]
    decreases p
  {
    if Commit(t) in w.logs[s][..p] {
      var r: nat :| r < p && w.logs[s][..p][r] == Commit(t);
      q := FirstCommit(w, s, t, r);
    } else {
      q := p;
    }
  }

  /** Up to its first commit, a committed transaction is staged from its first prepare on. */
  lemma {:induction false} StagedUntilCommit(w: World, s: ShardId, t: TxnId, q: nat)
    requires Inv(w) && s in w.logs && q < |w.logs[s]| && w.logs[s][q] == Commit(t) && Commit(t) !in w.logs[s][..q]
    ensures t in w.txns && s in w.txns[t].groups
    ensures var st := S.ApplyAll(S.Empty, w.logs[s][..q]);
            t in st.intents && st.intents[t] == S.Intent(w.txns[t].commitTs, w.txns[t].groups[s])
  {
    assert EntryOk(w, s, q);
    var c := Prepare(t, w.txns[t].commitTs, w.txns[t].groups[s]);
    var p :| 0 <= p < |w.logs[s][..q]| && w.logs[s][..q][p] == c;
    StagedFrom(w, s, t, p, q);
  }

  lemma {:induction false} StagedFrom(w: World, s: ShardId, t: TxnId, p: nat, q: nat)
    requires Inv(w) && s in w.logs && p < q <= |w.logs[s]| && Commit(t) !in w.logs[s][..q]
    requires t in w.txns && s in w.txns[t].groups && t in w.decided && w.decided[t]
    requires w.logs[s][p] == Prepare(t, w.txns[t].commitTs, w.txns[t].groups[s])
    ensures var st := S.ApplyAll(S.Empty, w.logs[s][..q]);
            t in st.intents && st.intents[t] == S.Intent(w.txns[t].commitTs, w.txns[t].groups[s])
    decreases q
  {
    var log := w.logs[s];
    assert log[..q][..q - 1] == log[..q - 1] && S.Last(log[..q]) == log[q - 1];
    assert EntryOk(w, s, q - 1);
    assert log[..q][q - 1] == log[q - 1];
    if p < q - 1 {
      assert Commit(t) !in log[..q - 1] by { assert log[..q - 1] <= log[..q]; }
      StagedFrom(w, s, t, p, q - 1);
    }
  }
}
