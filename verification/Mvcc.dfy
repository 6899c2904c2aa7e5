/** The multi-version layer over an ordered key-value store: point reads, scans, the conflict check of a commit,
    garbage collection and the recovery of timestamps all work on the store's physical keys. Each is proved against
    the histories of `Snapshots`, for any keys; `VersionScans` says for which keys the answers are the right ones. */
module Mvcc {
  import opened KeyOrder
  import opened VersionKeys
  import opened Snapshots
  import opened SSTable
  import opened VersionScans
  import M = MemTable
  import C = Commands

  /** A storage engine, as the map it stands for. */
  class Store {
    var data: map<Bytes, Bytes>

    constructor ()
      ensures data == map[]
    {
      data := map[];
    }

    method Scan(start: Bytes, end: Bytes) returns (items: seq<Pair>)
      ensures SortedPairs(items) && MapOf(items) == M.Restricted(data, start, end)
    {
      var found := map k | k in data && Between(start, k, end) :: data[k];
      var ks := SortKeys(found.Keys);
      items := M.PairsFor(found, ks);
      M.KeysCover(found, ks);
    }

    method WriteBatch(puts: map<Bytes, Bytes>)
      modifies this
      ensures data == old(data) + puts
    {
      data := data + puts;
    }

    method Delete(k: Bytes)
      modifies this
      ensures data == old(data) - {k}
    {
      data := data - {k};
    }
  }

  /** The store holds the history: one physical key for every version, and no other keys. */
  ghost predicate Encodes(data: map<Bytes, Bytes>, h: History) {
    && InTime(h)
    && (forall v :: v in h ==> VersionKey(v.key, v.ts) in data && data[VersionKey(v.key, v.ts)] == h[v])
    && (forall k {:trigger IsVersion(h, k)} :: k in data ==> IsVersion(h, k))
  }

  lemma {:induction false} StoreScan(data: map<Bytes, Bytes>, h: History, start: Bytes, end: Bytes, items: seq<Pair>)
    requires Encodes(data, h) && SortedPairs(items) && MapOf(items) == M.Restricted(data, start, end)
    ensures Found(h, start, end, items)
  {
    forall i | 0 <= i < |items| ensures IsItem(h, start, end, items[i]) {
      MapOfAt(items, i);
      assert IsVersion(h, items[i].key);
    }
    forall v | v in h ensures IsListed(start, end, items, v) {
      MapOfKeys(items, VersionKey(v.key, v.ts));
    }
  }

  lemma {:induction false} RemainingEncoded(data: map<Bytes, Bytes>, h: History, dead: set<Bytes>)
    requires Encodes(data, h)
    ensures Encodes(data - dead, Remaining(h, dead))
  {
    forall k | k in data - dead ensures IsVersion(Remaining(h, dead), k) {
      assert IsVersion(h, k);
    }
  }

  lemma {:induction false} PutsEncode(data: map<Bytes, Bytes>, h: History, puts: map<Bytes, Bytes>, writes: map<Bytes, Bytes>, ts: nat)
    requires Encodes(data, h) && 1 <= ts <= MAX_TS && IsPuts(puts, writes, ts)
    ensures Encodes(data + puts, h + NewVersions(writes, ts))
  {
    var h', data' := h + NewVersions(writes, ts), data + puts;
    forall v | v in h' ensures 1 <= v.ts <= MAX_TS && VersionKey(v.key, v.ts) in data' && data'[VersionKey(v.key, v.ts)] == h'[v] {
      PutOrOld(data, h, puts, writes, ts, v);
    }
    forall k | k in data' ensures IsVersion(h', k) {
      PutIsVersion(data, h, puts, writes, ts, k);
    }
  }

  lemma {:induction false} PutIsVersion(data: map<Bytes, Bytes>, h: History, puts: map<Bytes, Bytes>, writes: map<Bytes, Bytes>, ts: nat, k: Bytes)
    requires Encodes(data, h) && 1 <= ts <= MAX_TS && IsPuts(puts, writes, ts) && k in data + puts
    ensures IsVersion(h + NewVersions(writes, ts), k)
  {
    if k in puts {
      assert IsPutOf(k, writes, ts);
      assert Version(UserKeyOf(k), ts) in NewVersions(writes, ts);
    } else {
      assert IsVersion(h, k);
    }
  }

  lemma {:induction false} PutOrOld(data: map<Bytes, Bytes>, h: History, puts: map<Bytes, Bytes>, writes: map<Bytes, Bytes>, ts: nat, v: Version)
    requires Encodes(data, h) && 1 <= ts <= MAX_TS && IsPuts(puts, writes, ts)
    requires v in h + NewVersions(writes, ts)
    ensures v.ts <= MAX_TS && VersionKey(v.key, v.ts) in data + puts
    ensures (data + puts)[VersionKey(v.key, v.ts)] == (h + NewVersions(writes, ts))[v]
  {
    Decoded(v.key, v.ts);
    if v in NewVersions(writes, ts) {
      assert IsPut(puts, v.key, writes[v.key], ts);
    } else {
      assert VersionKey(v.key, v.ts) in puts ==> IsPutOf(VersionKey(v.key, v.ts), writes, ts);
    }
  }

  /** One physical entry for every write. */
  ghost predicate IsPuts(puts: map<Bytes, Bytes>, writes: map<Bytes, Bytes>, ts: nat)
    requires ts <= MAX_TS
  {
    && (forall k :: k in writes ==> IsPut(puts, k, writes[k], ts))
    && (forall p :: p in puts ==> IsPutOf(p, writes, ts))
  }

  ghost predicate IsPut(puts: map<Bytes, Bytes>, k: Bytes, value: Bytes, ts: nat)
    requires ts <= MAX_TS
  {
    VersionKey(k, ts) in puts && puts[VersionKey(k, ts)] == value
  }

  ghost predicate IsPutOf(p: Bytes, writes: map<Bytes, Bytes>, ts: nat)
    requires ts <= MAX_TS
  {
    UserKeyOf(p) in writes && TsOf(p) == ts && p == VersionKey(UserKeyOf(p), ts)
  }

  lemma {:induction false} PutOneMore(puts: map<Bytes, Bytes>, k: Bytes, k': Bytes, value: Bytes, value': Bytes, ts: nat)
    requires ts <= MAX_TS && k != k'
    ensures IsPut(puts[VersionKey(k, ts) := value], k, value, ts)
    ensures IsPut(puts, k', value', ts) ==> IsPut(puts[VersionKey(k, ts) := value], k', value', ts)
  {
    Decoded(k, ts);
    Decoded(k', ts);
  }

  method MakePuts(writes: map<Bytes, Bytes>, ts: nat) returns (puts: map<Bytes, Bytes>)
    requires ts <= MAX_TS
    ensures IsPuts(puts, writes, ts)
  {
    var ks := SortKeys(writes.Keys);
    puts := map[];
    var i := 0;
    while i < |ks|
      invariant 0 <= i <= |ks|
      invariant forall k :: k in ks[..i] ==> k in writes && IsPut(puts, k, writes[k], ts)
      invariant forall p :: p in puts ==> IsPutOf(p, writes, ts)
    {
      var k := ks[i];
      assert k in ks && ks[..i + 1] == ks[..i] + [k];
      Irreflexive(k);
      forall k' | k' in ks[..i] ensures k' != k && IsPut(puts[VersionKey(k, ts) := writes[k]], k', writes[k'], ts) {
        PutOneMore(puts, k, k', writes[k], writes[k'], ts);
      }
      Decoded(k, ts);
      puts := puts[VersionKey(k, ts) := writes[k]];
      i := i + 1;
    }
    assert ks[..i] == ks;
  }

  // ---- the engine ------------------------------------------------------------------------------------------------

  /** What the conflict check of a commit finds. */
  ghost predicate FindsConflict(h: History, readTs: nat, keys: set<Bytes>)
    requires InTime(h)
  {
    exists k :: k in keys && CheckedTs(h, k) > readTs
  }

  ghost predicate AnyChecked(h: History, readTs: nat, ks: seq<Bytes>)
    requires InTime(h)
  {
    exists j :: 0 <= j < |ks| && CheckedTs(h, ks[j]) > readTs
  }

  ghost predicate NoneRunsOnFrom(h: History, keys: set<Bytes>) { forall k :: k in keys ==> NoneRunsOn(h, k) }

  lemma {:induction false} FindsRight(h: History, readTs: nat, keys: set<Bytes>)
    requires InTime(h) && NoneRunsOnFrom(h, keys)
    ensures FindsConflict(h, readTs, keys) <==> Conflicts(h, readTs, keys)
  {
    forall k | k in keys ensures CheckedTs(h, k) == NewestCommitted(h, k) { CheckRight(h, k); }
  }

  /** An input: with "a" and a NUL committed at 1 and "a" at 2, a transaction that began at 1 writes "a" and its commit goes
      through, although another one came first. */
  lemma {:induction false} LostUpdate(x: Bytes, y: Bytes)
    ensures var h: History := map[Version([97, 0], 1) := x, Version([97], 2) := y];
            InTime(h) && Conflicts(h, 1, {[97]}) && !FindsConflict(h, 1, {[97]})
  {
    CheckMisses(x, y);
    var k: Bytes := [97];
    assert k in {[97]};
  }

  /** The next state of a commit that goes through. */
  ghost function WithCommit(s: State, readTs: nat, writes: map<Bytes, Bytes>): State {
    State(s.history + NewVersions(writes, s.last + 1), s.last + 1, s.commits + [Snapshots.Commit(readTs, s.last + 1, writes.Keys)])
  }

  class MVCCEngine {
    const store: Store
    var lastCommitTs: nat                        // also where the timestamp oracle stands
    ghost var state: State

    /** The store holds the history of `state`. */
    ghost predicate Valid()
      reads this, store
    {
      Encodes(store.data, state.history) && lastCommitTs == state.last
    }

    /** Open a store: timestamps go on from the newest one that a scan of it finds, and that is the newest one if all keys
        sort before U+10FFFF. */
    constructor (store: Store, ghost before: State)
      requires Encodes(store.data, before.history)
      ensures Valid() && this.store == store && state == before.(last := lastCommitTs) && IsMaxTs(Seen(before.history), lastCommitTs)
      ensures (forall v :: v in before.history ==> SortsLow(v.key))
              ==> Enabled(before, Restart(lastCommitTs)) && state == After(before, Restart(lastCommitTs))
    {
      this.store := store;
      lastCommitTs, state := 0, before;
      new;
      var m := RecoverMaxTs(store, before.history);
      lastCommitTs := m;
      state := before.(last := m);
      assert (forall v :: v in before.history ==> SortsLow(v.key)) ==> Seen(before.history) == before.history;
    }

    static method RecoverMaxTs(store: Store, ghost h: History) returns (m: nat)
      requires Encodes(store.data, h)
      ensures IsMaxTs(Seen(h), m)
    {
      var items := store.Scan([], HI_CHAR);
      StoreScan(store.data, h, [], HI_CHAR, items);
      m := MaxTs(items);
      MaxOfRows(h, items, m);
    }

    static method MaxTs(items: seq<Pair>) returns (m: nat)
      ensures forall j :: 0 <= j < |items| ==> Rows(items)[j].ts <= m
      ensures m > 0 ==> exists j :: 0 <= j < |items| && Rows(items)[j].ts == m
    {
      m := 0;
      var i := 0;
      while i < |items|
        invariant 0 <= i <= |items| && (forall j :: 0 <= j < i ==> TsOf(items[j].key) <= m)
        invariant m > 0 ==> exists j :: 0 <= j < i && TsOf(items[j].key) == m
      {
        var ts := TsOf(items[i].key);
        if ts > m {
          m := ts;
        }
        i := i + 1;
      }
      if m > 0 {
        ghost var j :| 0 <= j < i && TsOf(items[j].key) == m;
        assert Rows(items)[j].ts == m;
      }
    }

    /** The first entry of the key's range, which is what the snapshot at `ts` sees if no stored key clashes with `u`. */
    method Read(u: Bytes, ts: nat) returns (r: C.Option<Bytes>)
      requires Encodes(store.data, state.history) && ts <= MAX_TS
      ensures r == ReadAs(state.history, u, ts)
      ensures NoClash(state.history, u) ==> r == Visible(state.history, u, ts)
    {
      var items := store.Scan(VersionKey(u, ts), u + [0] + HI16);
      StoreScan(store.data, state.history, VersionKey(u, ts), u + [0] + HI16, items);
      FirstItem(state.history, VersionKey(u, ts), u + [0] + HI16, items);
      r := if items == [] || items[0].value == DELETED then C.None else C.Some(items[0].value);
      if NoClash(state.history, u) { ReadRight(state.history, u, ts); }
    }

    /** One pass over the entries, which shows the live keys from `lo` up to the extensions of `hi`, as the snapshot at `ts`
        sees them, if the bounds and the keys fit. */
    method Scan(lo: Bytes, hi: Bytes, ts: nat) returns (out: seq<Pair>)
      requires Encodes(store.data, state.history)
      ensures exists items :: Found(state.history, lo, hi + HI_CHAR, items) && out == Walked(Rows(items), |items|, ts)
      ensures ScanFits(state.history, lo, hi) ==> Shows(state.history, lo, hi, ts, out)
      ensures ScanFits(state.history, lo, hi) && NoRunOns(state.history) ==> SortedPairs(out)
    {
      var items := store.Scan(lo, hi + HI_CHAR);
      StoreScan(store.data, state.history, lo, hi + HI_CHAR, items);
      out := Resolve(items, ts);
      if ScanFits(state.history, lo, hi) {
        ScanRight(state.history, lo, hi, ts, items);
        if NoRunOns(state.history) { ScanSorted(state.history, lo, hi, ts, items); }
      }
    }

    /** The timestamp of the first entry of the key's range, which is its newest one if no stored key runs on from it. */
    method NewestCommittedTs(u: Bytes) returns (ts: nat)
      requires Encodes(store.data, state.history)
      ensures ts == CheckedTs(state.history, u)
      ensures NoneRunsOn(state.history, u) ==> ts == NewestCommitted(state.history, u)
    {
      ts := FirstTs(u);
      if NoneRunsOn(state.history, u) { CheckRight(state.history, u); }
    }

    method FirstTs(u: Bytes) returns (ts: nat)
      requires Encodes(store.data, state.history)
      ensures ts == CheckedTs(state.history, u)
    {
      var items := store.Scan(u + [0], u + [0] + HI16);
      StoreScan(store.data, state.history, u + [0], u + [0] + HI16, items);
      FirstItem(state.history, u + [0], u + [0] + HI16, items);
      ts := if items == [] then 0 else TsOf(items[0].key);
    }

    /** Commit at the next timestamp, unless the check finds that a key was committed after the snapshot was taken. If no
        stored key runs on from one written, that is a step of the snapshot system, and keeps its invariant. */
    method Commit(readTs: nat, writes: map<Bytes, Bytes>) returns (r: C.Option<nat>)
      requires Valid() && lastCommitTs < MAX_TS
      modifies this, store
      ensures Valid()
      ensures FindsConflict(old(state.history), readTs, writes.Keys) ==> r == C.None && state == old(state) && store.data == old(store.data)
      ensures !FindsConflict(old(state.history), readTs, writes.Keys) ==>
                r == C.Some(old(lastCommitTs) + 1) && state == WithCommit(old(state), readTs, writes)
      ensures NoneRunsOnFrom(old(state.history), writes.Keys) ==> state == After(old(state), TryCommit(readTs, writes))
      ensures NoneRunsOnFrom(old(state.history), writes.Keys) && old(Inv(state)) && readTs <= old(lastCommitTs) ==> Inv(state)
    {
      ghost var before := state;
      if NoneRunsOnFrom(before.history, writes.Keys) { FindsRight(before.history, readTs, writes.Keys); }
      var conflict := HasConflict(readTs, writes);
      if conflict {
        return C.None;
      }
      WriteAll(readTs, writes);
      if NoneRunsOnFrom(before.history, writes.Keys) && Inv(before) && readTs <= before.last {
        CommitInv(before, readTs, writes);
      }
      r := C.Some(lastCommitTs);
    }

    method WriteAll(ghost readTs: nat, writes: map<Bytes, Bytes>)
      requires Valid() && lastCommitTs < MAX_TS
      modifies this, store
      ensures Valid() && state == WithCommit(old(state), readTs, writes)
    {
      var commitTs := lastCommitTs + 1;
      var puts := MakePuts(writes, commitTs);
      PutsEncode(store.data, state.history, puts, writes, commitTs);
      store.WriteBatch(puts);
      lastCommitTs := commitTs;
      state := WithCommit(state, readTs, writes);
    }

    method HasConflict(readTs: nat, writes: map<Bytes, Bytes>) returns (b: bool)
      requires Encodes(store.data, state.history)
      ensures b <==> FindsConflict(state.history, readTs, writes.Keys)
      ensures NoneRunsOnFrom(state.history, writes.Keys) ==> (b <==> Conflicts(state.history, readTs, writes.Keys))
    {
      var ks := SortKeys(writes.Keys);
      b := AnyNewer(readTs, ks);
      assert FindsConflict(state.history, readTs, writes.Keys) <==> AnyChecked(state.history, readTs, ks);
      if NoneRunsOnFrom(state.history, writes.Keys) { FindsRight(state.history, readTs, writes.Keys); }
    }

    method AnyNewer(readTs: nat, ks: seq<Bytes>) returns (b: bool)
      requires Encodes(store.data, state.history)
      ensures b <==> AnyChecked(state.history, readTs, ks)
    {
      var i := 0;
      while i < |ks|
        invariant 0 <= i <= |ks| && forall j :: 0 <= j < i ==> CheckedTs(state.history, ks[j]) <= readTs
      {
        var newest := FirstTs(ks[i]);
        if newest > readTs {
          return true;
        }
        i := i + 1;
      }
      b := false;
    }

    /** Drop versions that no snapshot at or after `low` can see, and all of them if the sweep sees every key whole. */
    method Vacuum(low: nat) returns (count: nat)
      requires Valid() && low <= MAX_TS
      modifies this`state, store
      ensures Valid() && Enabled(old(state), Snapshots.Vacuum(low, state.history)) && state == After(old(state), Snapshots.Vacuum(low, state.history))
      ensures AllSwept(old(state.history)) ==> state.history == Vacuumed(old(state.history), low)
      ensures count == |old(store.data)| - |store.data|
    {
      ghost var h := state.history;
      var items := store.Scan([], HI_CHAR);
      StoreScan(store.data, h, [], HI_CHAR, items);
      var dead := Garbage(items, low);
      GarbageIsVacuum(h, items, low, dead);
      if AllSwept(h) { GarbageIsAll(h, items, low, dead); }
      RemainingEncoded(store.data, h, dead);
      DeadStored(h, items, low, dead, store.data);
      LessEntries(store.data, dead);
      count := DeleteAll(dead);
      state := state.(history := Remaining(h, dead));
    }

    method DeleteAll(dead: set<Bytes>) returns (count: nat)
      modifies store
      ensures store.data == old(store.data) - dead && count == |dead|
    {
      var rest := dead;
      count := 0;
      while rest != {}
        invariant rest <= dead && store.data == old(store.data) - (dead - rest) && count == |dead| - |rest|
        decreases |rest|
      {
        var k :| k in rest;
        store.Delete(k);
        rest := rest - {k};
        count := count + 1;
      }
      assert dead - rest == dead;
    }
  }

  lemma {:induction false} DeadStored(h: History, items: seq<Pair>, low: nat, dead: set<Bytes>, data: map<Bytes, Bytes>)
    requires dead == Swept(items, |items|, low) && MapOf(items) == M.Restricted(data, [], HI_CHAR)
    ensures dead <= data.Keys
  {
    forall k | k in dead ensures k in data {
      var j := SweptFrom(items, |items|, low, k);
      MapOfKeys(items, k);
      assert k in MapOf(items);
    }
  }

  lemma {:induction false} LessEntries(data: map<Bytes, Bytes>, dead: set<Bytes>)
    requires dead <= data.Keys
    ensures |data - dead| == |data| - |dead|
  {
    assert (data - dead).Keys == data.Keys - dead;
  }

  // ---- transactions ----------------------------------------------------------------------------------------------

  datatype Answer<T> = Ok(value: T) | AlreadyFinished

  /** `merged` is `base` with the writes to the keys in `done` that lie between the bounds. */
  ghost predicate Overlaid(base: map<Bytes, Bytes>, writes: map<Bytes, Bytes>, lo: Bytes, hi: Bytes, done: set<Bytes>, merged: map<Bytes, Bytes>) {
    done <= writes.Keys && forall u {:trigger OverlaidAt(base, writes, lo, hi, done, merged, u)} :: OverlaidAt(base, writes, lo, hi, done, merged, u)
  }

  ghost predicate OverlaidAt(base: map<Bytes, Bytes>, writes: map<Bytes, Bytes>, lo: Bytes, hi: Bytes, done: set<Bytes>, merged: map<Bytes, Bytes>, u: Bytes)
    requires done <= writes.Keys
  {
    if Between(lo, u, hi) && u in done
    then (u in merged <==> writes[u] != DELETED) && (u in merged ==> merged[u] == writes[u])
    else (u in merged <==> u in base) && (u in merged ==> merged[u] == base[u])
  }

  ghost function Elements(ks: seq<Bytes>): set<Bytes> { set k | k in ks }

  lemma {:induction false} ElementsNext(ks: seq<Bytes>, i: nat)
    requires i < |ks|
    ensures Elements(ks[..i + 1]) == Elements(ks[..i]) + {ks[i]}
  {
    assert ks[..i + 1] == ks[..i] + [ks[i]];
  }

  lemma {:induction false} OverlaidNext(base: map<Bytes, Bytes>, writes: map<Bytes, Bytes>, lo: Bytes, hi: Bytes, done: set<Bytes>, merged: map<Bytes, Bytes>, k: Bytes)
    requires Overlaid(base, writes, lo, hi, done, merged) && k in writes
    ensures var m := if !Between(lo, k, hi) then merged else if writes[k] == DELETED then merged - {k} else merged[k := writes[k]];
            Overlaid(base, writes, lo, hi, done + {k}, m)
  {
    var m := if !Between(lo, k, hi) then merged else if writes[k] == DELETED then merged - {k} else merged[k := writes[k]];
    forall u ensures OverlaidAt(base, writes, lo, hi, done + {k}, m, u) {
      assert OverlaidAt(base, writes, lo, hi, done, merged, u);
    }
  }

  lemma {:induction false} NotOutside(lo: Bytes, k: Bytes, hi: Bytes)
    ensures Between(lo, k, hi) <==> !Lt(k, lo) && !Lt(hi, k)
  {
    Order();
    Total(lo, k);
    Total(k, hi);
  }

  /** What a transaction with these writes, begun at `ts`, sees of a key. */
  ghost function SeenBy(h: History, writes: map<Bytes, Bytes>, ts: nat, u: Bytes): C.Option<Bytes> {
    if u in writes then (if writes[u] == DELETED then C.None else C.Some(writes[u])) else Visible(h, u, ts)
  }

  /** What a transaction sees of its own writes is what everybody sees once it has committed; of other keys it sees its snapshot. */
  lemma {:induction false} SeesAsCommitted(h: History, writes: map<Bytes, Bytes>, readTs: nat, ts: nat, u: Bytes)
    requires readTs < ts && forall v :: v in h ==> v.ts < ts
    ensures SeenBy(h, writes, readTs, u) == Visible(h + NewVersions(writes, ts), u, if u in writes then ts else readTs)
  {
    CommitShows(h, writes, ts, u, ts);
    CommitKeeps(h, writes, ts, u, readTs);
  }

  /** What its scan shows of a key: up to `hi` what it sees, and beyond `hi`, among its extensions, what the snapshot shows:
      an own write there is not taken into account. */
  ghost function ScannedBy(h: History, writes: map<Bytes, Bytes>, ts: nat, lo: Bytes, u: Bytes, hi: Bytes): C.Option<Bytes> {
    if Between(lo, u, hi) then SeenBy(h, writes, ts, u) else if InScanRange(lo, u, hi) then Visible(h, u, ts) else C.None
  }

  /** A scan shows of every key in range what the transaction sees of it just when its writes beyond `hi` change nothing. */
  lemma {:induction false} ScanSeesIff(h: History, writes: map<Bytes, Bytes>, ts: nat, lo: Bytes, hi: Bytes)
    ensures (forall u :: InScanRange(lo, u, hi) ==> ScannedBy(h, writes, ts, lo, u, hi) == SeenBy(h, writes, ts, u))
            <==> (forall u :: u in writes && InScanRange(lo, u, hi) && Lt(hi, u) ==> SeenBy(h, writes, ts, u) == Visible(h, u, ts))
  {
    forall u | InScanRange(lo, u, hi) ensures Between(lo, u, hi) <==> !Lt(hi, u) { NotOutside(lo, u, hi); Order(); }
  }

  /** An input: a transaction that deletes "ba" and scans from "a" to "b" is shown "ba". */
  lemma {:induction false} OwnDeleteShown(value: Bytes)
    requires value != DELETED
    ensures var h: History, writes := map[Version([98, 97], 1) := value], map[[98, 97] := DELETED];
            SeenBy(h, writes, 1, [98, 97]) == C.None && ScannedBy(h, writes, 1, [97], [98, 97], [98]) == C.Some(value)
  {
    var h: History := map[Version([98, 97], 1) := value];
    NewestIs(h, [98, 97], 1, 1);
    assert Lt([97], [98, 97]) && [98] + HI_CHAR == [98, 0xF4, 0x8F, 0xBF, 0xBF];
    assert [98, 97][1..] == [97] && [98, 0xF4, 0x8F, 0xBF, 0xBF][1..] == HI_CHAR && [98][1..] == [];
  }

  /** A transaction reads its own writes over the snapshot it began with. */
  class Transaction {
    const mvcc: MVCCEngine
    const readTs: nat
    var writes: map<Bytes, Bytes>
    var finished: bool

    constructor (mvcc: MVCCEngine)
      ensures this.mvcc == mvcc && readTs == mvcc.lastCommitTs && writes == map[] && !finished
    {
      this.mvcc, readTs := mvcc, mvcc.lastCommitTs;
      writes, finished := map[], false;
    }

    method Get(key: Bytes) returns (r: Answer<C.Option<Bytes>>)
      requires mvcc.Valid() && readTs <= MAX_TS
      ensures finished <==> r == AlreadyFinished
      ensures !finished && key !in writes ==> r == Ok(ReadAs(mvcc.state.history, key, readTs))
      ensures !finished && (key in writes || NoClash(mvcc.state.history, key)) ==> r == Ok(SeenBy(mvcc.state.history, writes, readTs, key))
    {
      if finished {
        return AlreadyFinished;
      }
      if key in writes {
        return Ok(if writes[key] == DELETED then C.None else C.Some(writes[key]));
      }
      var v := mvcc.Read(key, readTs);
      r := Ok(v);
    }

    /** The snapshot's live keys from `lo` up to the extensions of `hi`, with the own writes between `lo` and `hi`, if the
        bounds and the keys fit. */
    method Scan(lo: Bytes, hi: Bytes) returns (result: seq<Pair>)
      requires mvcc.Valid()
      ensures SortedPairs(result)
      ensures ScanFits(mvcc.state.history, lo, hi) ==>
                forall u :: ShowsOption(MapOf(result), u, ScannedBy(mvcc.state.history, writes, readTs, lo, u, hi))
    {
      var out := mvcc.Scan(lo, hi, readTs);
      var merged := OverlayWrites(MapOf(out), lo, hi);
      var ks := SortKeys(merged.Keys);
      result := M.PairsFor(merged, ks);
      M.KeysCover(merged, ks);
      if ScanFits(mvcc.state.history, lo, hi) {
        forall u ensures ShowsOption(merged, u, ScannedBy(mvcc.state.history, writes, readTs, lo, u, hi)) {
          assert ShowsKey(mvcc.state.history, lo, hi, readTs, out, u);
          assert OverlaidAt(MapOf(out), writes, lo, hi, writes.Keys, merged, u);
          if Between(lo, u, hi) { UpToHi(lo, u, hi); }
        }
      }
    }

    method OverlayWrites(base: map<Bytes, Bytes>, lo: Bytes, hi: Bytes) returns (merged: map<Bytes, Bytes>)
      ensures Overlaid(base, writes, lo, hi, writes.Keys, merged)
    {
      var ks := SortKeys(writes.Keys);
      merged := base;
      var i := 0;
      while i < |ks|
        invariant 0 <= i <= |ks| && Overlaid(base, writes, lo, hi, Elements(ks[..i]), merged)
      {
        var k := ks[i];
        assert k in ks;
        ElementsNext(ks, i);
        OverlaidNext(base, writes, lo, hi, Elements(ks[..i]), merged, k);
        NotOutside(lo, k, hi);
        if !Lt(k, lo) && !Lt(hi, k) {
          merged := if writes[k] == DELETED then merged - {k} else merged[k := writes[k]];
        }
        i := i + 1;
      }
      assert ks[..i] == ks;
      assert Elements(ks) == writes.Keys;
    }

    method Put(key: Bytes, value: Bytes) returns (r: Answer<()>)
      modifies this`writes
      ensures r == (if finished then AlreadyFinished else Ok(()))
      ensures writes == if finished then old(writes) else old(writes)[key := value]
    {
      if finished {
        return AlreadyFinished;
      }
      writes := writes[key := value];
      r := Ok(());
    }

    method Delete(key: Bytes) returns (r: Answer<()>)
      modifies this`writes
      ensures r == (if finished then AlreadyFinished else Ok(()))
      ensures writes == if finished then old(writes) else old(writes)[key := DELETED]
    {
      if finished {
        return AlreadyFinished;
      }
      writes := writes[key := DELETED];
      r := Ok(());
    }

    /** Commit all writes at one new timestamp, or none of them if the check finds that another commit came first; either
        way it is over. */
    method Commit() returns (r: Answer<C.Option<nat>>)
      requires mvcc.Valid() && mvcc.lastCommitTs < MAX_TS
      modifies this`finished, mvcc, mvcc.store
      ensures mvcc.Valid() && finished
      ensures old(finished) ==> r == AlreadyFinished && mvcc.state == old(mvcc.state)
      ensures !old(finished) && FindsConflict(old(mvcc.state.history), readTs, writes.Keys) ==> r == Ok(C.None) && mvcc.state == old(mvcc.state)
      ensures !old(finished) && !FindsConflict(old(mvcc.state.history), readTs, writes.Keys) ==>
                r == Ok(C.Some(old(mvcc.lastCommitTs) + 1)) && mvcc.state == WithCommit(old(mvcc.state), readTs, writes)
      ensures !old(finished) && NoneRunsOnFrom(old(mvcc.state.history), writes.Keys) ==>
                mvcc.state == After(old(mvcc.state), TryCommit(readTs, writes))
    {
      if finished {
        return AlreadyFinished;
      }
      finished := true;
      assert mvcc.state == old(mvcc.state) && mvcc.lastCommitTs == old(mvcc.lastCommitTs);
      var ts := mvcc.Commit(readTs, writes);
      r := Ok(ts);
    }

    method Rollback()
      modifies this`writes, this`finished
      ensures finished && writes == map[]
    {
      finished, writes := true, map[];
    }
  }

  /** The map has just what the option says under the key. */
  ghost predicate ShowsOption(m: map<Bytes, Bytes>, u: Bytes, o: C.Option<Bytes>) {
    (u in m <==> o.Some?) && (u in m ==> o == C.Some(m[u]))
  }

  lemma {:induction false} UpToHi(lo: Bytes, u: Bytes, hi: Bytes)
    requires Between(lo, u, hi)
    ensures InScanRange(lo, u, hi)
  {
    assert hi + [] == hi;
    LtPrefix(hi, [], HI_CHAR);
    Order();
  }
}
