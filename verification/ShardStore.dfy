/** The state machine behind a shard's log: versioned values, the intents of prepared transactions and
    the newest timestamp applied. */
module ShardStore {
  import opened Commands

  datatype Intent = Intent(commitTs: nat, writes: seq<Write>)

  /** What the storage engine under the shard holds: one key per version of a user key, and one key per
      prepared transaction. The string encoding of version keys is the subject of `VersionKeys`. */
  datatype EngineKey = VersionKey(key: Key, ts: nat) | IntentKey(txn: TxnId)
  datatype EngineValue = Version(value: Option<Value>) | Staged(intent: Intent)

  type Engine = map<EngineKey, EngineValue>

  datatype Store = Store(engine: Engine, intents: map<TxnId, Intent>, lastTs: nat)

  const Empty := Store(map[], map[], 0)

  /** Write one version per write, in order; a later write to the same key wins. */
  function PutVersions(engine: Engine, writes: seq<Write>, ts: nat): Engine
    decreases |writes|
  {
    if writes == [] then engine
    else PutVersions(engine, writes[..|writes| - 1], ts)[VersionKey(Last(writes).key, ts) := Version(Last(writes).value)]
  }

  function Last<T>(s: seq<T>): T
    requires s != []
  {
    s[|s| - 1]
  }

  function Max(a: nat, b: nat): nat { if a >= b then a else b }

  function Apply(s: Store, c: Command): Store {
    match c
    case Noop => s
    case Prepare(txn, commitTs, writes) =>
      Store(s.engine[IntentKey(txn) := Staged(Intent(commitTs, writes))], s.intents[txn := Intent(commitTs, writes)], s.lastTs)
    case Commit(txn) =>
      if txn !in s.intents then s.(engine := s.engine - {IntentKey(txn)})
      else
        var i := s.intents[txn];
        Store(PutVersions(s.engine, i.writes, i.commitTs) - {IntentKey(txn)}, s.intents - {txn}, Max(s.lastTs, i.commitTs))
    case Abort(txn) =>
      s.(engine := s.engine - {IntentKey(txn)}, intents := s.intents - {txn})
    case Put(ts, writes) =>
      s.(engine := PutVersions(s.engine, writes, ts), lastTs := Max(s.lastTs, ts))
  }

  function ApplyAll(s: Store, log: seq<Command>): Store
    decreases |log|
  {
    if log == [] then s else Apply(ApplyAll(s, log[..|log| - 1]), Last(log))
  }

  // ---- reads used by the conflict check ---------------------------------------------------------------

  predicate Locks(i: Intent, key: Key) {
    exists j :: 0 <= j < |i.writes| && i.writes[j].key == key
  }

  /** Some transaction other than `exclude` holds `key`. */
  predicate Locked(s: Store, key: Key, exclude: TxnId) {
    exists txn :: txn in s.intents && txn != exclude && Locks(s.intents[txn], key)
  }

  // ---- restart -------------------------------------------------------------------------------------------

  /** The intents map and the engine's intent keys say the same; no version is newer than `lastTs`. */
  ghost predicate Coherent(s: Store) {
    && (forall txn :: txn in s.intents <==> IntentKey(txn) in s.engine)
    && (forall txn :: txn in s.intents ==> s.engine[IntentKey(txn)] == Staged(s.intents[txn]))
    && (forall key, ts: nat :: VersionKey(key, ts) in s.engine ==> s.engine[VersionKey(key, ts)].Version? && ts <= s.lastTs)
  }

  /** `r` is what a replica rebuilds from the engine left behind by `s`: the same engine, the intents it
      lists, and the newest timestamp of any version. */
  ghost predicate Reopened(s: Store, r: Store) {
    && r.engine == s.engine
    && (forall txn :: txn in r.intents <==> IntentKey(txn) in s.engine)
    && (forall txn :: txn in r.intents ==> s.engine[IntentKey(txn)] == Staged(r.intents[txn]))
    && (forall key, ts: nat :: VersionKey(key, ts) in s.engine ==> ts <= r.lastTs)
    && (r.lastTs > 0 ==> exists key :: VersionKey(key, r.lastTs) in s.engine)
  }

  lemma {:induction false} PutVersionsKeys(engine: Engine, writes: seq<Write>, ts: nat)
    ensures forall k :: k in PutVersions(engine, writes, ts) ==>
              k in engine || (k.VersionKey? && k.ts == ts)
    ensures forall k :: k in engine ==> k in PutVersions(engine, writes, ts)
    ensures forall k :: k in engine && (k.IntentKey? || k.ts != ts) ==> PutVersions(engine, writes, ts)[k] == engine[k]
    ensures forall k :: k in PutVersions(engine, writes, ts) && k.VersionKey? && k.ts == ts ==>
              PutVersions(engine, writes, ts)[k].Version? || (k in engine && PutVersions(engine, writes, ts)[k] == engine[k])
    decreases |writes|
  {
    if writes != [] { PutVersionsKeys(engine, writes[..|writes| - 1], ts); }
  }

  lemma {:induction false} ApplyCoherent(s: Store, c: Command)
    requires Coherent(s)
    ensures Coherent(Apply(s, c))
  {
    match c
    case Noop =>
    case Prepare(_, _, _) =>
    case Abort(_) =>
    case Commit(txn) =>
      if txn in s.intents { PutVersionsKeys(s.engine, s.intents[txn].writes, s.intents[txn].commitTs); }
    case Put(ts, writes) => PutVersionsKeys(s.engine, writes, ts);
  }

  lemma {:induction false} ApplyAllCoherent(s: Store, log: seq<Command>)
    requires Coherent(s)
    ensures Coherent(ApplyAll(s, log))
    decreases |log|
  {
    if log != [] {
      ApplyAllCoherent(s, log[..|log| - 1]);
      ApplyCoherent(ApplyAll(s, log[..|log| - 1]), Last(log));
    }
  }

  /** Recovery gives back every intent and every version; only the timestamp may come out lower. */
  lemma {:induction false} ReopenedSame(s: Store, r: Store)
    requires Coherent(s) && Reopened(s, r)
    ensures r.engine == s.engine && r.intents == s.intents && r.lastTs <= s.lastTs && Coherent(r)
  {
    forall txn | txn in r.intents ensures txn in s.intents && r.intents[txn] == s.intents[txn] {}
  }

  // ---- replaying the log over a store that already applied part of it ----------------------------------------

  predicate Concerns(c: Command, txn: TxnId) {
    (c.Prepare? || c.Commit? || c.Abort?) && c.txn == txn
  }

  predicate Touched(log: seq<Command>, txn: TxnId) {
    exists i :: 0 <= i < |log| && Concerns(log[i], txn)
  }

  /** No transaction appears first with its commit. */
  predicate NoCommitFirst(log: seq<Command>) {
    forall i :: 0 <= i < |log| && log[i].Commit? ==> Touched(log[..i], log[i].txn)
  }

  predicate SameIntent(a: Store, b: Store, txn: TxnId) {
    if txn in a.intents then txn in b.intents && a.intents[txn] == b.intents[txn] else txn !in b.intents
  }

  lemma {:induction false} TouchedSplit(log: seq<Command>, txn: TxnId)
    requires log != []
    ensures Touched(log, txn) <==> Touched(log[..|log| - 1], txn) || Concerns(Last(log), txn)
  {
    var rest := log[..|log| - 1];
    if Touched(log, txn) && !Concerns(Last(log), txn) {
      var i :| 0 <= i < |log| && Concerns(log[i], txn);
      assert rest[i] == log[i];
    }
    if Touched(rest, txn) {
      var i :| 0 <= i < |rest| && Concerns(rest[i], txn);
      assert log[i] == rest[i];
    }
  }

  /** Halfway through a replay: an intent the replay has touched agrees with a run from scratch, any other
      is as the earlier incarnation left it. */
  lemma {:induction false} ReplayIntent(left: Store, start: Store, log: seq<Command>, txn: TxnId)
    requires SameIntent(start, left, txn)
    ensures if Touched(log, txn) then SameIntent(ApplyAll(start, log), ApplyAll(Empty, log), txn)
            else txn !in ApplyAll(Empty, log).intents && SameIntent(ApplyAll(start, log), left, txn)
    decreases |log|
  {
    if log != [] {
      ReplayIntent(left, start, log[..|log| - 1], txn);
      TouchedSplit(log, txn);
    }
  }

  /** Whatever the log holds, replaying it over a store that had applied a prefix of it ends with the same
      intents as a run from scratch. */
  lemma {:induction false} RestartKeepsIntents(log: seq<Command>, k: nat, r: Store)
    requires k <= |log| && Reopened(ApplyAll(Empty, log[..k]), r)
    ensures ApplyAll(r, log).intents == ApplyAll(Empty, log).intents
  {
    var left := ApplyAll(Empty, log[..k]);
    ApplyAllCoherent(Empty, log[..k]);
    ReopenedSame(left, r);
    var now, scratch := ApplyAll(r, log), ApplyAll(Empty, log);
    forall txn ensures SameIntent(now, scratch, txn) {
      ReplayIntent(left, r, log, txn);
      ReplayIntent(Empty, Empty, log[..k], txn);
      if Touched(log[..k], txn) { TouchedLonger(log, k, txn); }
    }
    IntentsEqual(now, scratch);
  }

  lemma {:induction false} IntentsEqual(a: Store, b: Store)
    requires forall txn :: SameIntent(a, b, txn)
    ensures a.intents == b.intents
  {
    assert forall txn :: txn in a.intents ==> SameIntent(a, b, txn);
    assert forall txn :: txn in b.intents ==> SameIntent(a, b, txn);
  }

  lemma {:induction false} TouchedLonger(log: seq<Command>, k: nat, txn: TxnId)
    requires k <= |log| && Touched(log[..k], txn)
    ensures Touched(log, txn)
  {
    var i :| 0 <= i < k && Concerns(log[..k][i], txn);
    assert log[i] == log[..k][i];
  }

  predicate WritesTo(writes: seq<Write>, ts: nat, vk: EngineKey) {
    vk.VersionKey? && vk.ts == ts && exists j :: 0 <= j < |writes| && writes[j].key == vk.key
  }

  predicate SameAt(a: Engine, b: Engine, k: EngineKey) {
    if k in a then k in b && a[k] == b[k] else k !in b
  }

  /** Writing versions sets the keys it writes to the same values over any two engines and leaves the rest. */
  lemma {:induction false} PutVersionsAt(e1: Engine, e2: Engine, writes: seq<Write>, ts: nat, vk: EngineKey)
    ensures var a, b := PutVersions(e1, writes, ts), PutVersions(e2, writes, ts);
            if WritesTo(writes, ts, vk) then vk in a && SameAt(a, b, vk) else SameAt(a, e1, vk) && SameAt(b, e2, vk)
    decreases |writes|
  {
    if writes != [] {
      var rest := writes[..|writes| - 1];
      PutVersionsAt(e1, e2, rest, ts, vk);
      if WritesTo(rest, ts, vk) {
        var j :| 0 <= j < |rest| && rest[j].key == vk.key;
        assert writes[j] == rest[j];
      } else if WritesTo(writes, ts, vk) {
        var j :| 0 <= j < |writes| && writes[j].key == vk.key;
        assert forall x :: 0 <= x < |rest| ==> rest[x].key == writes[x].key;
      }
    }
  }

  predicate WritesKey(writes: seq<Write>, key: Key) { exists j :: 0 <= j < |writes| && writes[j].key == key }

  /** What the last write to the key writes. */
  function LastValue(writes: seq<Write>, key: Key): Option<Value> {
    if writes == [] then None else if Last(writes).key == key then Last(writes).value else LastValue(writes[..|writes| - 1], key)
  }

  lemma {:induction false} PutVersionsValue(engine: Engine, writes: seq<Write>, ts: nat, key: Key)
    requires WritesKey(writes, key)
    ensures var vk, e := VersionKey(key, ts), PutVersions(engine, writes, ts); vk in e && e[vk] == Version(LastValue(writes, key))
    decreases |writes|
  {
    if Last(writes).key != key {
      var j :| 0 <= j < |writes| && writes[j].key == key;
      assert writes[..|writes| - 1][j].key == key;
      PutVersionsValue(engine, writes[..|writes| - 1], ts, key);
    }
  }

  /** The same for whole stores: a version written by the replay is as in a run from scratch, any other is as
      it was left. */
  lemma {:induction false} ReplayVersion(left: Store, start: Store, log: seq<Command>, vk: EngineKey)
    requires vk.VersionKey? && NoCommitFirst(log)
    requires start.intents == left.intents && SameAt(start.engine, left.engine, vk)
    ensures var now, scratch := ApplyAll(start, log), ApplyAll(Empty, log);
            if vk in scratch.engine then SameAt(now.engine, scratch.engine, vk) else SameAt(now.engine, left.engine, vk)
    ensures ApplyAll(start, log).lastTs == Max(start.lastTs, ApplyAll(Empty, log).lastTs)
    decreases |log|
  {
    if log != [] {
      var rest, c := log[..|log| - 1], Last(log);
      forall i | 0 <= i < |rest| && rest[i].Commit? ensures Touched(rest[..i], rest[i].txn) {
        assert rest[..i] == log[..i] && rest[i] == log[i];
      }
      ReplayVersion(left, start, rest, vk);
      var now, scratch := ApplyAll(start, rest), ApplyAll(Empty, rest);
      match c
      case Put(ts, writes) => PutVersionsAt(now.engine, scratch.engine, writes, ts, vk);
      case Commit(txn) =>
        assert Touched(log[..|log| - 1], c.txn);
        ReplayIntent(left, start, rest, txn);
        if txn in now.intents {
          PutVersionsAt(now.engine, scratch.engine, now.intents[txn].writes, now.intents[txn].commitTs, vk);
        }
      case _ =>
    }
  }

  /** Versions and the newest timestamp only grow along a log. */
  lemma {:induction false} VersionsStay(start: Store, log: seq<Command>, k: nat, vk: EngineKey)
    requires k <= |log| && vk.VersionKey?
    ensures vk in ApplyAll(start, log[..k]).engine ==> vk in ApplyAll(start, log).engine
    ensures ApplyAll(start, log[..k]).lastTs <= ApplyAll(start, log).lastTs
    decreases |log|
  {
    if k == |log| {
      assert log[..k] == log;
    } else {
      var rest := log[..|log| - 1];
      assert rest[..k] == log[..k];
      VersionsStay(start, rest, k, vk);
      var s := ApplyAll(start, rest);
      match Last(log)
      case Put(ts, writes) => PutVersionsKeys(s.engine, writes, ts);
      case Commit(txn) =>
        if txn in s.intents { PutVersionsKeys(s.engine, s.intents[txn].writes, s.intents[txn].commitTs); }
      case _ =>
    }
  }

  /** Restart replay converges: re-applying the log from its first entry over a store that had already applied
      some prefix of it gives exactly the store of a run from scratch. */
  lemma {:induction false} RestartConverges(log: seq<Command>, k: nat, r: Store)
    requires k <= |log| && NoCommitFirst(log) && Reopened(ApplyAll(Empty, log[..k]), r)
    ensures ApplyAll(r, log) == ApplyAll(Empty, log)
  {
    var left, now, scratch := ApplyAll(Empty, log[..k]), ApplyAll(r, log), ApplyAll(Empty, log);
    ApplyAllCoherent(Empty, log[..k]);
    ReopenedSame(left, r);
    RestartKeepsIntents(log, k, r);
    ApplyAllCoherent(r, log);
    ApplyAllCoherent(Empty, log);
    var vk0 := VersionKey("", 0);
    ReplayVersion(left, r, log, vk0);
    VersionsStay(Empty, log, k, vk0);
    forall x ensures SameAt(now.engine, scratch.engine, x) {
      if x.VersionKey? {
        ReplayVersion(left, r, log, x);
        VersionsStay(Empty, log, k, x);
      }
    }
    EnginesEqual(now.engine, scratch.engine);
  }

  lemma {:induction false} EnginesEqual(a: Engine, b: Engine)
    requires forall x :: SameAt(a, b, x)
    ensures a == b
  {
    assert forall x :: x in a ==> SameAt(a, b, x);
    assert forall x :: x in b ==> SameAt(a, b, x);
  }

  /** The condition matters: a commit that precedes its prepare is ignored in a run from scratch but takes
      effect when it is replayed over the intent left behind. */
  lemma {:induction false} CommitFirstDiverges(txn: TxnId, key: Key, value: Value)
    ensures var log := [Commit(txn), Prepare(txn, 5, [Write(key, Some(value))])];
            var left := ApplyAll(Empty, log[..2]);
            ApplyAll(left, log) != ApplyAll(Empty, log)
  {
    var w := [Write(key, Some(value))];
    var log := [Commit(txn), Prepare(txn, 5, w)];
    assert log[..2] == log;
    assert log[..1] == [Commit(txn)] && log[..1][..0] == [];
    var left := ApplyAll(Empty, log);
    assert ApplyAll(Empty, log[..1]) == Empty;
    assert left.intents == map[txn := Intent(5, w)];
    assert VersionKey(key, 5) in PutVersions(left.engine, w, 5);
    assert VersionKey(key, 5) in ApplyAll(left, log[..1]).engine;
  }

  ghost predicate Converges(log: seq<Command>, k: nat, r: Store)
    requires k <= |log|
  {
    Reopened(ApplyAll(Empty, log[..k]), r) ==> ApplyAll(r, log) == ApplyAll(Empty, log)
  }

  predicate OnlyPrepares(log: seq<Command>) { forall i :: 0 <= i < |log| ==> log[i].Prepare? }

  /** However far a replica had come, and whatever is prepared next, its restart converges. */
  ghost predicate AlwaysConverges(log: seq<Command>) {
    forall more, k: nat, r {:trigger Converges(log + more, k, r)} :: OnlyPrepares(more) && k <= |log + more| ==> Converges(log + more, k, r)
  }

  /** The exact condition: restarts converge over a log and any prepares after it just when none of its transactions
      appears first with its commit. */
  lemma {:induction false} RestartConvergesIff(log: seq<Command>)
    ensures AlwaysConverges(log) <==> NoCommitFirst(log)
  {
    if NoCommitFirst(log) {
      forall more, k: nat, r | OnlyPrepares(more) && k <= |log + more| ensures Converges(log + more, k, r) {
        PreparesAfter(log, more);
        if Reopened(ApplyAll(Empty, (log + more)[..k]), r) { RestartConverges(log + more, k, r); }
      }
    } else {
      var i :| 0 <= i < |log| && log[i].Commit? && !Touched(log[..i], log[i].txn);
      var more, r := EarlyCommitDiverges(log, i);
      assert !Converges(log + more, |log + more|, r);
    }
  }

  lemma {:induction false} PreparesAfter(log: seq<Command>, more: seq<Command>)
    requires NoCommitFirst(log) && OnlyPrepares(more)
    ensures NoCommitFirst(log + more)
  {
    var all := log + more;
    assert forall i :: |log| <= i < |all| ==> all[i] == more[i - |log|];
    forall i | 0 <= i < |all| && all[i].Commit? ensures Touched(all[..i], all[i].txn) {
      assert i < |log| && all[..i] == log[..i];
    }
  }

  /** A later prepare of the transaction, at a timestamp not used yet, is left behind by the first run and committed by the replay. */
  lemma {:induction false} EarlyCommitDiverges(log: seq<Command>, i: nat) returns (more: seq<Command>, r: Store)
    requires i < |log| && log[i].Commit? && !Touched(log[..i], log[i].txn)
    ensures OnlyPrepares(more) && !Converges(log + more, |log + more|, r)
  {
    var txn, ts := log[i].txn, ApplyAll(Empty, log).lastTs + 1;
    var vk := VersionKey("", ts);
    more := [Prepare(txn, ts, [Write("", None)])];
    var all := log + more;
    var left := ApplyAll(Empty, all);
    assert all[..|all|] == all && all[..|all| - 1] == log && all[..i] == log[..i];
    ApplyAllCoherent(Empty, log);
    ApplyAllCoherent(Empty, all);
    assert vk !in left.engine;
    r := Reopen(left);
    ReopenedSame(left, r);
    ReplayIntent(left, r, all[..i], txn);
    CommitStays(r, all, i, vk);
  }

  /** A version that a commit writes is there at the end. */
  lemma {:induction false} CommitStays(start: Store, log: seq<Command>, i: nat, vk: EngineKey)
    requires i < |log| && log[i].Commit? && vk.VersionKey? && log[i].txn in ApplyAll(start, log[..i]).intents
    requires ApplyAll(start, log[..i]).intents[log[i].txn] == Intent(vk.ts, [Write(vk.key, None)])
    ensures vk in ApplyAll(start, log).engine
  {
    var s, w := ApplyAll(start, log[..i]), [Write(vk.key, None)];
    assert w[0].key == vk.key;
    PutVersionsValue(s.engine, w, vk.ts, vk.key);
    var upTo := log[..i + 1];
    assert upTo[..|upTo| - 1] == log[..i] && Last(upTo) == log[i];
    VersionsStay(start, log, i + 1, vk);
  }

  /** Every store can be reopened. */
  lemma {:induction false} Reopen(s: Store) returns (r: Store)
    requires Coherent(s)
    ensures Reopened(s, r)
  {
    var m := NewestVersion(s.engine, s.lastTs);
    r := Store(s.engine, s.intents, m);
  }

  lemma {:induction false} NewestVersion(engine: Engine, bound: nat) returns (m: nat)
    requires forall key, ts: nat :: VersionKey(key, ts) in engine ==> ts <= bound
    ensures forall key, ts: nat :: VersionKey(key, ts) in engine ==> ts <= m
    ensures m > 0 ==> exists key :: VersionKey(key, m) in engine
    decreases bound
  {
    m := bound;
    if bound > 0 && !exists key :: VersionKey(key, bound) in engine {
      m := NewestVersion(engine, bound - 1);
    }
  }

  // ---- what a log comes to, said without the state machine ----------------------------------------------------

  /** The last entry about the transaction, if any. */
  ghost predicate IsLastAbout(log: seq<Command>, txn: TxnId, i: nat) {
    i < |log| && Concerns(log[i], txn) && forall j :: i < j < |log| ==> !Concerns(log[j], txn)
  }

  /** A transaction is pending just when the last entry about it is a prepare, with what that entry says. */
  lemma {:induction false} PendingIs(log: seq<Command>, txn: TxnId)
    ensures txn in ApplyAll(Empty, log).intents <==> exists i: nat :: IsLastAbout(log, txn, i) && log[i].Prepare?
    ensures forall i: nat :: IsLastAbout(log, txn, i) && log[i].Prepare? ==>
              txn in ApplyAll(Empty, log).intents && ApplyAll(Empty, log).intents[txn] == Intent(log[i].commitTs, log[i].writes)
    decreases |log|
  {
    if log != [] {
      var rest, n := log[..|log| - 1], |log| - 1;
      PendingIs(rest, txn);
      if Concerns(log[n], txn) {
        assert IsLastAbout(log, txn, n);
        forall i: nat | IsLastAbout(log, txn, i) ensures i == n {
        }
      } else {
        forall i: nat ensures IsLastAbout(log, txn, i) <==> IsLastAbout(rest, txn, i) {
          assert i < n ==> rest[i] == log[i];
        }
      }
    }
  }

  /** Entry `i` writes the version of the key at the timestamp: it is a single-shard write at that timestamp, or the commit of
      a transaction whose last entry before it is a prepare at that timestamp. */
  ghost predicate WritesVersion(log: seq<Command>, i: nat, key: Key, ts: nat) {
    && i < |log|
    && match log[i]
       case Put(t, writes) => t == ts && WritesKey(writes, key)
       case Commit(txn) => exists p: nat :: PreparedAt(log[..i], txn, p, ts) && WritesKey(log[p].writes, key)
       case _ => false
  }

  ghost predicate PreparedAt(log: seq<Command>, txn: TxnId, p: nat, ts: nat) {
    IsLastAbout(log, txn, p) && log[p].Prepare? && log[p].commitTs == ts
  }

  /** What it writes there: the last write to the key wins. */
  ghost predicate WritesValue(log: seq<Command>, i: nat, key: Key, ts: nat, value: Option<Value>) {
    && i < |log|
    && match log[i]
       case Put(t, writes) => t == ts && WritesKey(writes, key) && value == LastValue(writes, key)
       case Commit(txn) => exists p: nat :: PreparedAt(log[..i], txn, p, ts) && WritesKey(log[p].writes, key) && value == LastValue(log[p].writes, key)
       case _ => false
  }

  /** Entry `i` is the last that writes the version. */
  ghost predicate LastWrites(log: seq<Command>, i: nat, key: Key, ts: nat, value: Option<Value>) {
    WritesValue(log, i, key, ts, value) && forall j: nat :: i < j < |log| ==> !WritesVersion(log, j, key, ts)
  }

  /** Writing versions puts the last value under each key written, and touches nothing else. */
  lemma {:induction false} PutVersionsIs(engine: Engine, writes: seq<Write>, ts: nat, k: EngineKey)
    ensures var e := PutVersions(engine, writes, ts);
            if k.VersionKey? && k.ts == ts && WritesKey(writes, k.key) then k in e && e[k] == Version(LastValue(writes, k.key)) else SameAt(e, engine, k)
    decreases |writes|
  {
    if k.VersionKey? && k.ts == ts && WritesKey(writes, k.key) {
      PutVersionsValue(engine, writes, ts, k.key);
    } else {
      PutVersionsAt(engine, engine, writes, ts, k);
    }
  }

  /** What one more entry writes, in terms of the store before it. */
  lemma {:induction false} LastEntryWrites(log: seq<Command>, key: Key, ts: nat)
    requires log != []
    ensures var n, rest := |log| - 1, log[..|log| - 1];
            var before, after, vk := ApplyAll(Empty, rest).engine, ApplyAll(Empty, log).engine, VersionKey(key, ts);
            && (!WritesVersion(log, n, key, ts) ==> SameAt(after, before, vk))
            && (forall value :: WritesValue(log, n, key, ts, value) ==> vk in after && after[vk] == Version(value))
  {
    var n, rest := |log| - 1, log[..|log| - 1];
    var s := ApplyAll(Empty, rest);
    match log[n]
    case Put(t, writes) => PutVersionsIs(s.engine, writes, t, VersionKey(key, ts));
    case Commit(txn) =>
      PendingIs(rest, txn);
      if txn in s.intents {
        var p: nat :| IsLastAbout(rest, txn, p) && rest[p].Prepare?;
        assert rest[p] == log[p] && PreparedAt(rest, txn, p, log[p].commitTs);
        PutVersionsIs(s.engine, s.intents[txn].writes, s.intents[txn].commitTs, VersionKey(key, ts));
        forall q: nat | IsLastAbout(rest, txn, q) ensures q == p {
        }
      }
    case _ =>
  }

  lemma {:induction false} EarlierWrites(log: seq<Command>, i: nat, key: Key, ts: nat)
    requires i < |log| - 1
    ensures WritesVersion(log[..|log| - 1], i, key, ts) <==> WritesVersion(log, i, key, ts)
    ensures forall value :: WritesValue(log[..|log| - 1], i, key, ts, value) <==> WritesValue(log, i, key, ts, value)
  {
    var rest := log[..|log| - 1];
    assert rest[..i] == log[..i] && rest[i] == log[i];
    forall p: nat | p < i ensures rest[p] == log[p] {}
  }

  /** What is stored, over any log: a version is there just when some entry writes it, with the value of the last that does. */
  lemma {:induction false} VersionIs(log: seq<Command>, key: Key, ts: nat)
    ensures VersionKey(key, ts) in ApplyAll(Empty, log).engine <==> exists i: nat :: WritesVersion(log, i, key, ts)
    ensures forall i: nat, value :: LastWrites(log, i, key, ts, value) ==>
              VersionKey(key, ts) in ApplyAll(Empty, log).engine && ApplyAll(Empty, log).engine[VersionKey(key, ts)] == Version(value)
    decreases |log|
  {
    if log != [] {
      var n, rest := |log| - 1, log[..|log| - 1];
      VersionIs(rest, key, ts);
      LastEntryWrites(log, key, ts);
      WritesSome(log, n, key, ts);
      forall i: nat | i < n ensures WritesVersion(rest, i, key, ts) <==> WritesVersion(log, i, key, ts) { EarlierWrites(log, i, key, ts); }
      forall i: nat, value | LastWrites(log, i, key, ts, value)
        ensures VersionKey(key, ts) in ApplyAll(Empty, log).engine && ApplyAll(Empty, log).engine[VersionKey(key, ts)] == Version(value)
      {
        if i < n {
          EarlierWrites(log, i, key, ts);
          assert !WritesVersion(log, n, key, ts) && LastWrites(rest, i, key, ts, value);
        }
      }
    }
  }

  lemma {:induction false} WritesSome(log: seq<Command>, i: nat, key: Key, ts: nat)
    ensures WritesVersion(log, i, key, ts) <==> exists value :: WritesValue(log, i, key, ts, value)
  {
    if WritesVersion(log, i, key, ts) {
      match log[i]
      case Put(_, writes) => assert WritesValue(log, i, key, ts, LastValue(writes, key));
      case Commit(txn) =>
        var p: nat :| PreparedAt(log[..i], txn, p, ts) && WritesKey(log[p].writes, key);
        assert WritesValue(log, i, key, ts, LastValue(log[p].writes, key));
    }
  }

  /** Entry `i` takes effect at the timestamp. */
  ghost predicate TakesTs(log: seq<Command>, i: nat, ts: nat) {
    && i < |log|
    && match log[i]
       case Put(t, _) => t == ts
       case Commit(txn) => exists p: nat :: PreparedAt(log[..i], txn, p, ts)
       case _ => false
  }

  /** The snapshot timestamp is the newest at which an entry took effect, 0 if none did. */
  lemma {:induction false} SnapshotTsIs(log: seq<Command>)
    ensures forall i: nat, ts: nat :: TakesTs(log, i, ts) ==> ts <= ApplyAll(Empty, log).lastTs
    ensures ApplyAll(Empty, log).lastTs > 0 ==> exists i: nat :: TakesTs(log, i, ApplyAll(Empty, log).lastTs)
    decreases |log|
  {
    if log != [] {
      var n, rest := |log| - 1, log[..|log| - 1];
      var s := ApplyAll(Empty, rest);
      SnapshotTsIs(rest);
      forall i: nat, ts: nat | i < n ensures TakesTs(rest, i, ts) <==> TakesTs(log, i, ts) { assert rest[..i] == log[..i] && rest[i] == log[i]; }
      if log[n].Commit? {
        var txn := log[n].txn;
        PendingIs(rest, txn);
        if txn in s.intents {
          var p: nat :| IsLastAbout(rest, txn, p) && rest[p].Prepare?;
          assert PreparedAt(rest, txn, p, s.intents[txn].commitTs);
          assert TakesTs(log, n, s.intents[txn].commitTs);
        }
      } else if log[n].Put? {
        assert TakesTs(log, n, log[n].ts);
      }
    }
  }

  // ---- snapshot reads ----------------------------------------------------------------------------------------

  /** The newest version of the key at or before `ts` is at `n`. */
  ghost predicate IsNewestAt(engine: Engine, key: Key, ts: nat, n: nat) {
    n <= ts && VersionKey(key, n) in engine && forall m: nat :: m <= ts && VersionKey(key, m) in engine ==> m <= n
  }

  /** What a read at `ts` returns: the value of the newest version at or before it, nothing if that is a deletion or there is none. */
  ghost function ReadAt(engine: Engine, key: Key, ts: nat): Option<Value> {
    if exists n: nat :: IsNewestAt(engine, key, ts, n)
    then var n: nat :| IsNewestAt(engine, key, ts, n);
         if engine[VersionKey(key, n)].Version? then engine[VersionKey(key, n)].value else None
    else None
  }

  lemma {:induction false} ReadIs(engine: Engine, key: Key, ts: nat, n: nat, value: Option<Value>)
    requires IsNewestAt(engine, key, ts, n) && engine[VersionKey(key, n)] == Version(value)
    ensures ReadAt(engine, key, ts) == value
  {
  }

  /** What a single-shard write or a committed transaction wrote is what reads at or after its timestamp return, until the key
      gets another version. */
  lemma {:induction false} WrittenIsRead(log: seq<Command>, i: nat, key: Key, ts: nat, value: Option<Value>, at: nat)
    requires WritesValue(log, i, key, ts, value) && ts <= at
    requires forall j: nat, t: nat :: WritesVersion(log, j, key, t) && ts <= t <= at ==> t == ts && j <= i
    ensures ReadAt(ApplyAll(Empty, log).engine, key, at) == value
  {
    var engine := ApplyAll(Empty, log).engine;
    VersionIs(log, key, ts);
    forall j: nat | i < j < |log| ensures !WritesVersion(log, j, key, ts) {
    }
    assert LastWrites(log, i, key, ts, value);
    forall m: nat | m <= at && VersionKey(key, m) in engine ensures m <= ts {
      VersionIs(log, key, m);
    }
    ReadIs(engine, key, at, ts, value);
  }

  /** The same for a single-shard write by itself: the next entry of the log, read at its own timestamp or later. */
  lemma {:induction false} PutIsRead(log: seq<Command>, ts: nat, writes: seq<Write>, key: Key, at: nat)
    requires WritesKey(writes, key) && ts <= at && forall t: nat :: ts < t <= at ==> VersionKey(key, t) !in ApplyAll(Empty, log).engine
    ensures ReadAt(ApplyAll(Empty, log + [Put(ts, writes)]).engine, key, at) == LastValue(writes, key)
    ensures forall k: EngineKey {:trigger SameAt(ApplyAll(Empty, log + [Put(ts, writes)]).engine, ApplyAll(Empty, log).engine, k)} ::
              !(k.VersionKey? && k.ts == ts && WritesKey(writes, k.key)) ==>
                SameAt(ApplyAll(Empty, log + [Put(ts, writes)]).engine, ApplyAll(Empty, log).engine, k)
  {
    var all := log + [Put(ts, writes)];
    assert all[..|log|] == log;
    var before, after := ApplyAll(Empty, log).engine, ApplyAll(Empty, all).engine;
    forall k: EngineKey ensures !(k.VersionKey? && k.ts == ts && WritesKey(writes, k.key)) ==> SameAt(after, before, k) { PutVersionsIs(before, writes, ts, k); }
    PutVersionsIs(before, writes, ts, VersionKey(key, ts));
    forall m: nat | m <= at && VersionKey(key, m) in after ensures m <= ts { PutVersionsIs(before, writes, ts, VersionKey(key, m)); }
    ReadIs(after, key, at, ts, LastValue(writes, key));
  }

  // ---- the check before a write ------------------------------------------------------------------------------

  /** No key of the writes has a version newer than the snapshot, and none is held by another transaction. */
  ghost predicate Clear(s: Store, writes: seq<Write>, readTs: nat, txn: TxnId) {
    forall key {:trigger WritesKey(writes, key)} :: WritesKey(writes, key) ==> ClearKey(s, key, readTs, txn)
  }

  ghost predicate ClearKey(s: Store, key: Key, readTs: nat, txn: TxnId) {
    (forall ts: nat :: VersionKey(key, ts) in s.engine ==> ts <= readTs) && !Locked(s, key, txn)
  }

  /** A write over an up-to-date snapshot to keys that nobody else holds is never refused. */
  lemma {:induction false} UpToDateIsClear(s: Store, writes: seq<Write>, readTs: nat, txn: TxnId)
    requires Coherent(s) && readTs >= s.lastTs && forall key :: WritesKey(writes, key) ==> !Locked(s, key, txn)
    ensures Clear(s, writes, readTs, txn)
  {
  }

  // ---- the store as it runs on a replica ------------------------------------------------------------------

  class LiveStore {
    var engine: Engine
    var intents: map<TxnId, Intent>
    var lastTs: nat

    function State(): Store
      reads this
    {
      Store(engine, intents, lastTs)
    }

    /** Opening the store rebuilds the intents and the newest timestamp from the engine. */
    constructor (engine: Engine)
      requires forall txn :: IntentKey(txn) in engine ==> engine[IntentKey(txn)].Staged?
      ensures this.engine == engine && Reopened(Store(engine, map[], 0), State())
    {
      this.engine := engine;
      var todo := engine.Keys;
      var found: map<TxnId, Intent>, newest := map[], 0;
      while todo != {}
        invariant todo <= engine.Keys
        invariant forall txn :: txn in found <==> IntentKey(txn) in engine && IntentKey(txn) !in todo
        invariant forall txn :: txn in found ==> engine[IntentKey(txn)] == Staged(found[txn])
        invariant forall key, ts: nat :: VersionKey(key, ts) in engine && VersionKey(key, ts) !in todo ==> ts <= newest
        invariant newest > 0 ==> exists key :: VersionKey(key, newest) in engine
        decreases |todo|
      {
        var k :| k in todo;
        if k.IntentKey? {
          found := found[k.txn := engine[k].intent];
        } else if k.ts > newest {
          newest := k.ts;
        }
        todo := todo - {k};
      }
      intents, lastTs := found, newest;
    }

    method ApplyCommand(c: Command)
      modifies this
      ensures State() == Apply(old(State()), c)
    {
      match c
      case Noop =>
      case Prepare(txn, commitTs, writes) =>
        engine := engine[IntentKey(txn) := Staged(Intent(commitTs, writes))];
        intents := intents[txn := Intent(commitTs, writes)];
      case Commit(txn) =>
        if txn !in intents {
          engine := engine - {IntentKey(txn)};
          return;
        }
        var staged := intents[txn];
        intents := intents - {txn};
        WriteVersions(staged.writes, staged.commitTs);
        engine := engine - {IntentKey(txn)};
        if staged.commitTs > lastTs { lastTs := staged.commitTs; }
      case Abort(txn) =>
        intents := intents - {txn};
        engine := engine - {IntentKey(txn)};
      case Put(ts, writes) =>
        WriteVersions(writes, ts);
        if ts > lastTs { lastTs := ts; }
    }

    method WriteVersions(writes: seq<Write>, ts: nat)
      modifies this
      ensures engine == PutVersions(old(engine), writes, ts) && intents == old(intents) && lastTs == old(lastTs)
    {
      var i := 0;
      assert writes[..0] == [];
      while i < |writes|
        invariant 0 <= i <= |writes|
        invariant engine == PutVersions(old(engine), writes[..i], ts)
        invariant intents == old(intents) && lastTs == old(lastTs)
      {
        assert writes[..i + 1][..i] == writes[..i];
        engine := engine[VersionKey(writes[i].key, ts) := Version(writes[i].value)];
        i := i + 1;
      }
      assert writes[..i] == writes;
    }

    /** The transaction, if any, whose outstanding intent holds `key`. */
    method IntentLocking(key: Key, exclude: TxnId) returns (locker: Option<TxnId>)
      ensures locker.Some? <==> Locked(State(), key, exclude)
      ensures locker.Some? ==> locker.value in intents && locker.value != exclude && Locks(intents[locker.value], key)
    {
      var todo := intents.Keys;
      while todo != {}
        invariant todo <= intents.Keys
        invariant forall txn :: txn in intents && txn !in todo && txn != exclude ==> !Locks(intents[txn], key)
        decreases |todo|
      {
        var txn :| txn in todo;
        if txn != exclude && Locks(intents[txn], key) {
          return Some(txn);
        }
        todo := todo - {txn};
      }
      locker := None;
    }

    /** The newest timestamp of a version of the key, 0 if there is none. */
    method NewestCommittedTs(key: Key) returns (newest: nat)
      ensures forall ts: nat :: VersionKey(key, ts) in engine ==> ts <= newest
      ensures newest > 0 ==> VersionKey(key, newest) in engine
    {
      newest := 0;
      var todo := engine.Keys;
      while todo != {}
        invariant todo <= engine.Keys && forall ts: nat :: VersionKey(key, ts) in engine && VersionKey(key, ts) !in todo ==> ts <= newest
        invariant newest > 0 ==> VersionKey(key, newest) in engine
        decreases |todo|
      {
        var k :| k in todo;
        if k.VersionKey? && k.key == key && k.ts > newest {
          newest := k.ts;
        }
        todo := todo - {k};
      }
    }

    method Read(key: Key, readTs: nat) returns (r: Option<Value>)
      ensures r == ReadAt(engine, key, readTs)
    {
      var best: Option<nat> := None;
      var todo := engine.Keys;
      while todo != {}
        invariant todo <= engine.Keys && (best.Some? ==> best.value <= readTs && VersionKey(key, best.value) in engine)
        invariant forall ts: nat :: VersionKey(key, ts) in engine && VersionKey(key, ts) !in todo && ts <= readTs ==> best.Some? && ts <= best.value
        decreases |todo|
      {
        var k :| k in todo;
        if k.VersionKey? && k.key == key && k.ts <= readTs && (best.None? || k.ts > best.value) {
          best := Some(k.ts);
        }
        todo := todo - {k};
      }
      if best.None? {
        return None;
      }
      assert IsNewestAt(engine, key, readTs, best.value);
      var v := engine[VersionKey(key, best.value)];
      r := if v.Version? then v.value else None;
    }

    /** Whether a write may be proposed: the first key with a newer version or another holder is in the way. */
    method CheckConflicts(writes: seq<Write>, readTs: nat, txn: TxnId) returns (conflict: Option<Key>)
      ensures conflict.None? <==> Clear(State(), writes, readTs, txn)
      ensures conflict.Some? ==> WritesKey(writes, conflict.value) && !ClearKey(State(), conflict.value, readTs, txn)
    {
      var i := 0;
      while i < |writes|
        invariant 0 <= i <= |writes| && forall j :: 0 <= j < i ==> ClearKey(State(), writes[j].key, readTs, txn)
      {
        var key := writes[i].key;
        assert WritesKey(writes, key);
        var newest := NewestCommittedTs(key);
        if newest > readTs {
          return Some(key);
        }
        var locker := IntentLocking(key, txn);
        if locker.Some? {
          return Some(key);
        }
        i := i + 1;
      }
      conflict := None;
    }
  }
}
