/** Multi-version histories: what a snapshot sees, and what commits, garbage collection and restarts leave of it. */
module Snapshots {
  import opened KeyOrder
  import opened VersionKeys
  import C = Commands

  datatype Version = Version(key: Bytes, ts: nat)

  type History = map<Version, Bytes>

  const DELETED: Bytes := [32, 95, 95, 68, 69, 76, 69, 84, 69, 68, 95, 95]      // " __DELETED__"

  /** The timestamp of the newest version of `u` at or before `ts`. */
  ghost function NewestAt(h: History, u: Bytes, ts: nat): C.Option<nat> {
    if Version(u, ts) in h then C.Some(ts) else if ts == 0 then C.None else NewestAt(h, u, ts - 1)
  }

  /** What a snapshot at `ts` sees of `u`. */
  ghost function Visible(h: History, u: Bytes, ts: nat): C.Option<Bytes> {
    var n := NewestAt(h, u, ts);
    if n.Some? && Version(u, n.value) in h && h[Version(u, n.value)] != DELETED then C.Some(h[Version(u, n.value)]) else C.None
  }

  lemma {:induction false} NewestFound(h: History, u: Bytes, ts: nat)
    ensures var n := NewestAt(h, u, ts);
            && (n.Some? ==> n.value <= ts && Version(u, n.value) in h)
            && (forall m: nat :: m <= ts && Version(u, m) in h ==> n.Some? && m <= n.value)
  {
    if Version(u, ts) !in h && ts > 0 { NewestFound(h, u, ts - 1); }
  }

  lemma {:induction false} NewestIs(h: History, u: Bytes, ts: nat, n: nat)
    requires n <= ts && Version(u, n) in h && forall m: nat :: n < m <= ts ==> Version(u, m) !in h
    ensures NewestAt(h, u, ts) == C.Some(n)
  {
    if n < ts { NewestIs(h, u, ts - 1, n); }
  }

  lemma {:induction false} NewestNone(h: History, u: Bytes, ts: nat)
    requires forall m: nat :: m <= ts ==> Version(u, m) !in h
    ensures NewestAt(h, u, ts) == C.None
  {
    if ts > 0 { NewestNone(h, u, ts - 1); }
  }

  /** Two histories with the same versions of `u` up to `ts` show the same. */
  lemma {:induction false} SameNewest(h: History, h': History, u: Bytes, ts: nat)
    requires forall m: nat :: m <= ts ==> (Version(u, m) in h <==> Version(u, m) in h')
    ensures NewestAt(h, u, ts) == NewestAt(h', u, ts)
  {
    if Version(u, ts) !in h && ts > 0 { SameNewest(h, h', u, ts - 1); }
  }

  // ---- commits, vacuum, restart --------------------------------------------------------------------------------

  /** A transaction that committed: its snapshot, its own timestamp, the keys it wrote. */
  datatype Commit = Commit(readTs: nat, ts: nat, keys: set<Bytes>)

  /** `commits` is the record of all that ever committed, for the statements below; the code keeps none. */
  datatype State = State(history: History, last: nat, commits: seq<Commit>)

  datatype Event =
    | TryCommit(readTs: nat, writes: map<Bytes, Bytes>)
    | Vacuum(low: nat, kept: History)
    | Restart(maxTs: nat)                      // timestamps go on from the newest one found

  ghost function NewestCommitted(h: History, u: Bytes): nat {
    var n := NewestAt(h, u, MAX_TS); if n.Some? then n.value else 0
  }

  ghost predicate Conflicts(h: History, readTs: nat, keys: set<Bytes>) {
    exists k :: k in keys && NewestCommitted(h, k) > readTs
  }

  function NewVersions(writes: map<Bytes, Bytes>, ts: nat): History {
    map v: Version | v in (set k | k in writes :: Version(k, ts)) :: if v.key in writes then writes[v.key] else []
  }

  /** Versions newer than `low` stay, and of each key the newest of the others. */
  ghost function Vacuumed(h: History, low: nat): History {
    map v | v in h && (v.ts > low || NewestAt(h, v.key, low) == C.Some(v.ts)) :: h[v]
  }

  /** A garbage collection may leave more than that, but drops no other versions. */
  ghost predicate IsVacuum(h: History, low: nat, kept: History) {
    && (forall v :: v in kept ==> v in h && kept[v] == h[v])
    && (forall v :: v in Vacuumed(h, low) ==> v in kept)
  }

  ghost predicate IsMaxTs(h: History, m: nat) {
    (forall v :: v in h ==> v.ts <= m) && (m > 0 ==> exists v :: v in h && v.ts == m)
  }

  ghost predicate Enabled(s: State, e: Event) {
    match e
    case TryCommit(readTs, writes) => readTs <= s.last < MAX_TS
    case Vacuum(low, kept) => low <= MAX_TS && IsVacuum(s.history, low, kept)
    case Restart(m) => IsMaxTs(s.history, m)
  }

  ghost function After(s: State, e: Event): State {
    match e
    case TryCommit(readTs, writes) =>
      if Conflicts(s.history, readTs, writes.Keys) then s
      else State(s.history + NewVersions(writes, s.last + 1), s.last + 1, s.commits + [Commit(readTs, s.last + 1, writes.Keys)])
    case Vacuum(_, kept) => s.(history := kept)
    case Restart(m) => s.(last := m)
  }

  ghost predicate Inv(s: State) {
    s.last <= MAX_TS && Dated(s.history, s.last) && AllKept(s.history, s.commits) && Ordered(s.commits)
  }

  ghost predicate Dated(h: History, last: nat) { forall v :: v in h ==> 1 <= v.ts <= last }

  ghost predicate AllKept(h: History, cs: seq<Commit>) { forall i :: 0 <= i < |cs| ==> Kept(h, cs[i]) }

  ghost predicate Ordered(cs: seq<Commit>) { forall i, j :: 0 <= i < j < |cs| ==> FirstWins(cs[i], cs[j]) }

  /** Every key a commit wrote has a version at least that new. */
  ghost predicate Kept(h: History, c: Commit) { forall k :: k in c.keys ==> c.ts <= NewestCommitted(h, k) }

  ghost predicate FirstWins(a: Commit, b: Commit) { a.keys !! b.keys || a.ts <= b.readTs }

  /** Garbage collection changes nothing for snapshots at or after the low-water mark. */
  lemma {:induction false} VacuumKeeps(h: History, low: nat, kept: History, u: Bytes, ts: nat)
    requires low <= ts && IsVacuum(h, low, kept)
    ensures NewestAt(kept, u, ts) == NewestAt(h, u, ts) && Visible(kept, u, ts) == Visible(h, u, ts)
  {
    NewestFound(h, u, ts);
    NewestFound(h, u, low);
    var n := NewestAt(h, u, ts);
    if n.Some? {
      if n.value <= low {
        NewestIs(h, u, low, n.value);
      }
      assert Version(u, n.value) in Vacuumed(h, low);
      NewestIs(kept, u, ts, n.value);
    } else {
      NewestNone(kept, u, ts);
    }
  }

  /** A commit changes nothing for snapshots before it. */
  lemma {:induction false} CommitKeeps(h: History, writes: map<Bytes, Bytes>, commitTs: nat, u: Bytes, ts: nat)
    requires ts < commitTs
    ensures Visible(h + NewVersions(writes, commitTs), u, ts) == Visible(h, u, ts)
  {
    var h' := h + NewVersions(writes, commitTs);
    SameNewest(h, h', u, ts);
    NewestFound(h, u, ts);
  }

  /** What a commit writes is what later snapshots see, until the key is written again. */
  lemma {:induction false} CommitShows(h: History, writes: map<Bytes, Bytes>, commitTs: nat, u: Bytes, ts: nat)
    requires commitTs <= ts && (forall v :: v in h ==> v.ts < commitTs)
    ensures u in writes ==> NewestAt(h + NewVersions(writes, commitTs), u, ts) == C.Some(commitTs)
    ensures u in writes ==> Visible(h + NewVersions(writes, commitTs), u, ts) == if writes[u] == DELETED then C.None else C.Some(writes[u])
    ensures u !in writes ==> NewestAt(h + NewVersions(writes, commitTs), u, ts) == NewestAt(h, u, ts)
    ensures u !in writes ==> Visible(h + NewVersions(writes, commitTs), u, ts) == Visible(h, u, ts)
  {
    var h' := h + NewVersions(writes, commitTs);
    if u in writes {
      assert Version(u, commitTs) in NewVersions(writes, commitTs);
      NewestIs(h', u, ts, commitTs);
    } else {
      SameNewest(h, h', u, ts);
      NewestFound(h, u, ts);
    }
  }

  /** A snapshot shows the version that no other at or before it is newer than. */
  lemma {:induction false} VisibleIs(h: History, u: Bytes, ts: nat, n: nat)
    requires n <= ts && Version(u, n) in h && forall m: nat :: n < m <= ts ==> Version(u, m) !in h
    ensures Visible(h, u, ts) == if h[Version(u, n)] == DELETED then C.None else C.Some(h[Version(u, n)])
  {
    NewestIs(h, u, ts, n);
  }

  ghost predicate Newer(h: History, k: Bytes, readTs: nat, t: nat) { readTs < t <= MAX_TS && Version(k, t) in h }

  /** A commit conflicts just when one of its keys has a version newer than its snapshot. */
  lemma {:induction false} ConflictsIff(h: History, readTs: nat, keys: set<Bytes>)
    ensures Conflicts(h, readTs, keys) <==> exists k, t :: k in keys && Newer(h, k, readTs, t)
  {
    if k :| k in keys && NewestCommitted(h, k) > readTs {
      NewestFound(h, k, MAX_TS);
      assert Newer(h, k, readTs, NewestCommitted(h, k));
    }
    if k, t :| k in keys && Newer(h, k, readTs, t) {
      NewestFound(h, k, MAX_TS);
    }
  }

  /** A full vacuum leaves exactly the versions that some snapshot at or after the mark finds newest. */
  lemma {:induction false} VacuumedIff(h: History, low: nat, v: Version)
    requires v in h
    ensures v in Vacuumed(h, low) <==> exists ts: nat :: low <= ts && NewestAt(h, v.key, ts) == C.Some(v.ts)
  {
    if v in Vacuumed(h, low) {
      assert NewestAt(h, v.key, v.ts) == C.Some(v.ts);
      assert low <= v.ts || NewestAt(h, v.key, low) == C.Some(v.ts);
    }
    if ts: nat :| low <= ts && NewestAt(h, v.key, ts) == C.Some(v.ts) {
      NewestFound(h, v.key, ts);
      if v.ts <= low { NewestIs(h, v.key, low, v.ts); }
    }
  }

  // ---- whole runs ------------------------------------------------------------------------------------------------

  ghost predicate IsRun(run: seq<State>, events: seq<Event>) {
    && |run| == |events| + 1 && run[0] == State(map[], 0, [])
    && forall i :: 0 <= i < |events| ==> Enabled(run[i], events[i]) && run[i + 1] == After(run[i], events[i])
  }

  lemma {:induction false} CommitNewest(s: State, writes: map<Bytes, Bytes>, k: Bytes)
    requires Inv(s) && s.last < MAX_TS
    ensures NewestCommitted(s.history + NewVersions(writes, s.last + 1), k) == if k in writes then s.last + 1 else NewestCommitted(s.history, k)
    ensures NewestCommitted(s.history, k) <= s.last
  {
    CommitShows(s.history, writes, s.last + 1, k, MAX_TS);
    NewestFound(s.history, k, MAX_TS);
  }

  lemma {:induction false} KeptLonger(s: State, writes: map<Bytes, Bytes>, c: Commit)
    requires Inv(s) && s.last < MAX_TS && (Kept(s.history, c) || (c.keys <= writes.Keys && c.ts == s.last + 1))
    ensures Kept(s.history + NewVersions(writes, s.last + 1), c)
  {
    forall k | k in c.keys ensures c.ts <= NewestCommitted(s.history + NewVersions(writes, s.last + 1), k) {
      CommitNewest(s, writes, k);
    }
  }

  /** A commit that met no conflict had a snapshot that held whatever was committed to its keys before. */
  lemma {:induction false} CommitFirst(s: State, readTs: nat, c: Commit, b: Commit)
    requires Kept(s.history, c) && !Conflicts(s.history, readTs, b.keys) && b.readTs == readTs
    ensures FirstWins(c, b)
  {
    forall k | k in c.keys && k in b.keys ensures c.ts <= readTs {
      assert NewestCommitted(s.history, k) <= readTs;
    }
  }

  lemma {:induction false} VersionsDated(h: History, writes: map<Bytes, Bytes>, last: nat)
    requires Dated(h, last)
    ensures Dated(h + NewVersions(writes, last + 1), last + 1)
  {
  }

  lemma {:induction false} CommitsKept(s: State, writes: map<Bytes, Bytes>, c: Commit)
    requires Inv(s) && s.last < MAX_TS && c.keys <= writes.Keys && c.ts == s.last + 1
    ensures AllKept(s.history + NewVersions(writes, s.last + 1), s.commits + [c])
  {
    forall i | 0 <= i < |s.commits + [c]| ensures Kept(s.history + NewVersions(writes, s.last + 1), (s.commits + [c])[i]) {
      KeptLonger(s, writes, (s.commits + [c])[i]);
    }
  }

  lemma {:induction false} CommitsOrdered(s: State, readTs: nat, c: Commit)
    requires AllKept(s.history, s.commits) && Ordered(s.commits) && !Conflicts(s.history, readTs, c.keys) && c.readTs == readTs
    ensures Ordered(s.commits + [c])
  {
    forall i | 0 <= i < |s.commits| ensures FirstWins(s.commits[i], c) {
      CommitFirst(s, readTs, s.commits[i], c);
    }
  }

  lemma {:induction false} CommitInv(s: State, readTs: nat, writes: map<Bytes, Bytes>)
    requires Inv(s) && Enabled(s, TryCommit(readTs, writes)) && !Conflicts(s.history, readTs, writes.Keys)
    ensures Inv(After(s, TryCommit(readTs, writes)))
  {
    var c := Commit(readTs, s.last + 1, writes.Keys);
    VersionsDated(s.history, writes, s.last);
    CommitsKept(s, writes, c);
    CommitsOrdered(s, readTs, c);
  }

  lemma {:induction false} VacuumInv(s: State, low: nat, kept: History)
    requires Inv(s) && Enabled(s, Vacuum(low, kept))
    ensures Inv(After(s, Vacuum(low, kept)))
  {
    forall k {:trigger NewestCommitted(s.history, k)} ensures NewestCommitted(kept, k) == NewestCommitted(s.history, k) {
      VacuumKeeps(s.history, low, kept, k, MAX_TS);
    }
  }

  lemma {:induction false} RunInv(run: seq<State>, events: seq<Event>, i: nat)
    requires IsRun(run, events) && i < |run|
    ensures Inv(run[i])
  {
    if i > 0 {
      RunInv(run, events, i - 1);
      match events[i - 1]
      case TryCommit(readTs, writes) =>
        if !Conflicts(run[i - 1].history, readTs, writes.Keys) { CommitInv(run[i - 1], readTs, writes); }
      case Vacuum(low, kept) => VacuumInv(run[i - 1], low, kept);
      case Restart(_) =>
    }
  }

  /** First committer wins: of two transactions that wrote the same key, in any run with garbage collections and
      restarts, the later one had a snapshot that already held the earlier one's commit. */
  lemma {:induction false} FirstCommitterWins(run: seq<State>, events: seq<Event>, i: nat, a: nat, b: nat, k: Bytes)
    requires IsRun(run, events) && i < |run| && a < b < |run[i].commits| && k in run[i].commits[a].keys && k in run[i].commits[b].keys
    ensures run[i].commits[a].ts <= run[i].commits[b].readTs
  {
    RunInv(run, events, i);
  }

  /** The events that leave snapshots at `ts` alone: vacuums up to `ts`, restarts that find a version at or after it. */
  predicate Spares(e: Event, ts: nat) {
    (e.Vacuum? ==> e.low <= ts) && (e.Restart? ==> ts <= e.maxTs)
  }

  lemma {:induction false} StepSpares(s: State, e: Event, u: Bytes, ts: nat)
    requires Enabled(s, e) && ts <= s.last && Spares(e, ts)
    ensures ts <= After(s, e).last && Visible(After(s, e).history, u, ts) == Visible(s.history, u, ts)
  {
    match e
    case TryCommit(readTs, writes) => CommitKeeps(s.history, writes, s.last + 1, u, ts);
    case Vacuum(low, kept) => VacuumKeeps(s.history, low, kept, u, ts);
    case Restart(_) =>
  }

  /** Snapshot stability: a read at `ts` gives the same answer in every later state, whatever commits and whatever a
      vacuum up to `ts` removes. */
  lemma {:induction false} SnapshotStability(run: seq<State>, events: seq<Event>, i: nat, j: nat, u: Bytes, ts: nat)
    requires IsRun(run, events) && i <= j < |run| && ts <= run[i].last
    requires forall x :: i <= x < j ==> Spares(events[x], ts)
    ensures ts <= run[j].last && Visible(run[j].history, u, ts) == Visible(run[i].history, u, ts)
  {
    if i < j {
      SnapshotStability(run, events, i, j - 1, u, ts);
      StepSpares(run[j - 1], events[j - 1], u, ts);
    }
  }
}
