/** What the multi-version layer makes of the physical keys a scan of the store returns: the first entry of a point read and
    of the conflict check, and one pass over all entries for scans and garbage collection. For each it is shown for which
    sets of user keys the answer is right. */
module VersionScans {
  import opened KeyOrder
  import opened VersionKeys
  import opened Snapshots
  import opened SSTable
  import C = Commands

  ghost predicate InTime(h: History) { forall v :: v in h ==> 1 <= v.ts <= MAX_TS }

  ghost predicate IsVersion(h: History, k: Bytes) {
    1 <= TsOf(k) <= MAX_TS && Version(UserKeyOf(k), TsOf(k)) in h && k == VersionKey(UserKeyOf(k), TsOf(k))
  }

  ghost predicate IsItem(h: History, start: Bytes, end: Bytes, p: Pair) {
    IsVersion(h, p.key) && h[Version(UserKeyOf(p.key), TsOf(p.key))] == p.value && Between(start, p.key, end)
  }

  /** The version is among the entries, if it is in range. */
  ghost predicate IsListed(start: Bytes, end: Bytes, items: seq<Pair>, v: Version)
    requires v.ts <= MAX_TS
  {
    Between(start, VersionKey(v.key, v.ts), end) ==> exists i :: 0 <= i < |items| && items[i].key == VersionKey(v.key, v.ts)
  }

  /** `items` is what a scan from `start` to `end` returns over a store of the versions of `h`. */
  ghost predicate Found(h: History, start: Bytes, end: Bytes, items: seq<Pair>) {
    && InTime(h) && SortedPairs(items)
    && (forall i {:trigger IsItem(h, start, end, items[i])} :: 0 <= i < |items| ==> IsItem(h, start, end, items[i]))
    && (forall v {:trigger IsListed(start, end, items, v)} :: v in h ==> IsListed(start, end, items, v))
  }

  /** All versions are of keys in `keys`. */
  ghost predicate Over(h: History, keys: set<Bytes>) { InTime(h) && forall v :: v in h ==> v.key in keys }

  /** The history of one version. */
  ghost function Single(v: Version, value: Bytes): History { map[v := value] }

  lemma {:induction false} SingleShows(v: Version, value: Bytes, u: Bytes, ts: nat)
    requires v.ts <= ts
    ensures NewestAt(Single(v, value), u, ts) == if u == v.key then C.Some(v.ts) else C.None
  {
    if u == v.key { NewestIs(Single(v, value), u, ts, v.ts); } else { NewestNone(Single(v, value), u, ts); }
  }

  // ---- the first entry -------------------------------------------------------------------------------------------

  /** The version comes first among those in range. */
  ghost predicate IsFirst(h: History, start: Bytes, end: Bytes, v: Version)
    requires InTime(h)
  {
    && v in h && Between(start, VersionKey(v.key, v.ts), end)
    && forall w :: w in h && Between(start, VersionKey(w.key, w.ts), end) ==> Le(VersionKey(v.key, v.ts), VersionKey(w.key, w.ts))
  }

  ghost function FirstIn(h: History, start: Bytes, end: Bytes): (r: C.Option<Version>)
    requires InTime(h)
    ensures r.Some? ==> IsFirst(h, start, end, r.value)
  {
    if exists v :: IsFirst(h, start, end, v) then var v :| IsFirst(h, start, end, v); C.Some(v) else C.None
  }

  lemma {:induction false} FirstUnique(h: History, start: Bytes, end: Bytes, v: Version)
    requires InTime(h) && IsFirst(h, start, end, v)
    ensures FirstIn(h, start, end) == C.Some(v)
  {
    var w := FirstIn(h, start, end).value;
    assert IsFirst(h, start, end, w);
    Order();
    Decoded(v.key, v.ts);
    Decoded(w.key, w.ts);
  }

  lemma {:induction false} FirstItem(h: History, start: Bytes, end: Bytes, items: seq<Pair>)
    requires Found(h, start, end, items)
    ensures items == [] ==> FirstIn(h, start, end).None?
    ensures items != [] ==> TsOf(items[0].key) >= 1 && FirstIn(h, start, end) == C.Some(Version(UserKeyOf(items[0].key), TsOf(items[0].key)))
    ensures items != [] ==> h[FirstIn(h, start, end).value] == items[0].value
  {
    if items == [] {
      var f := FirstIn(h, start, end);
      assert f.Some? ==> IsListed(start, end, items, f.value);
    } else {
      assert IsItem(h, start, end, items[0]);
      var v := Version(UserKeyOf(items[0].key), TsOf(items[0].key));
      forall w | w in h && Between(start, VersionKey(w.key, w.ts), end) ensures Le(VersionKey(v.key, v.ts), VersionKey(w.key, w.ts)) {
        assert IsListed(start, end, items, w);
        var i :| 0 <= i < |items| && items[i].key == VersionKey(w.key, w.ts);
        assert i > 0 ==> Lt(Keys(items)[0], Keys(items)[i]);
      }
      FirstUnique(h, start, end, v);
    }
  }

  /** If the versions of `u` up to `ts` are what is in range, the newest of them comes first. */
  lemma {:induction false} NewestFirst(h: History, start: Bytes, end: Bytes, u: Bytes, ts: nat)
    requires InTime(h) && forall v :: v in h ==> (Between(start, VersionKey(v.key, v.ts), end) <==> v.key == u && v.ts <= ts)
    ensures FirstIn(h, start, end) == var n := NewestAt(h, u, ts); if n.Some? then C.Some(Version(u, n.value)) else C.None
  {
    NewestFound(h, u, ts);
    var n := NewestAt(h, u, ts);
    if n.Some? {
      forall w | w in h && Between(start, VersionKey(w.key, w.ts), end) ensures Le(VersionKey(u, n.value), VersionKey(w.key, w.ts)) {
        if w.ts < n.value { VersionOrder(u, w.ts, n.value); }
      }
      FirstUnique(h, start, end, Version(u, n.value));
    }
  }

  lemma {:induction false} OnlyFirst(v: Version, value: Bytes, start: Bytes, end: Bytes)
    requires 1 <= v.ts <= MAX_TS && Between(start, VersionKey(v.key, v.ts), end)
    ensures InTime(Single(v, value)) && FirstIn(Single(v, value), start, end) == C.Some(v)
  {
    assert IsFirst(Single(v, value), start, end, v);
    FirstUnique(Single(v, value), start, end, v);
  }

  // ---- point reads -----------------------------------------------------------------------------------------------

  /** What a point read returns. */
  ghost function ReadAs(h: History, u: Bytes, ts: nat): C.Option<Bytes>
    requires InTime(h) && ts <= MAX_TS
  {
    var f := FirstIn(h, VersionKey(u, ts), u + [0] + HI16);
    if f.None? || h[f.value] == DELETED then C.None else C.Some(h[f.value])
  }

  ghost predicate NoClash(h: History, u: Bytes) { forall v :: v in h && v.key != u ==> !Clashes(u, v.key) }

  lemma {:induction false} ReadRight(h: History, u: Bytes, ts: nat)
    requires InTime(h) && ts <= MAX_TS && NoClash(h, u)
    ensures ReadAs(h, u, ts) == Visible(h, u, ts)
  {
    forall v | v in h ensures Between(VersionKey(u, ts), VersionKey(v.key, v.ts), u + [0] + HI16) <==> v.key == u && v.ts <= ts {
      ReadRange(u, ts, v.key, v.ts);
    }
    NewestFirst(h, VersionKey(u, ts), u + [0] + HI16, u, ts);
    NewestFound(h, u, ts);
  }

  ghost predicate ReadsRight(keys: set<Bytes>, u: Bytes) {
    forall h, ts: nat :: Over(h, keys) && ts <= MAX_TS ==> ReadAs(h, u, ts) == Visible(h, u, ts)
  }

  /** Point reads of `u` are right over all histories of a set of keys just when none of the others clashes with `u`. */
  lemma {:induction false} ReadRightIff(keys: set<Bytes>, u: Bytes)
    ensures ReadsRight(keys, u) <==> forall v :: v in keys && v != u ==> !Clashes(u, v)
  {
    if v :| v in keys && v != u && Clashes(u, v) {
      var w := Version(v, 1);
      ClashExact(u, v, 1);
      OnlyFirst(w, [1], VersionKey(u, MAX_TS), u + [0] + HI16);
      SingleShows(w, [1], u, MAX_TS);
      assert Over(Single(w, [1]), keys) && ReadAs(Single(w, [1]), u, MAX_TS) != Visible(Single(w, [1]), u, MAX_TS);
    } else {
      forall h, ts: nat | Over(h, keys) && ts <= MAX_TS ensures ReadAs(h, u, ts) == Visible(h, u, ts) { ReadRight(h, u, ts); }
    }
  }

  // ---- the conflict check ----------------------------------------------------------------------------------------

  /** The timestamp that the conflict check finds for a key. */
  ghost function CheckedTs(h: History, u: Bytes): nat
    requires InTime(h)
  {
    var f := FirstIn(h, u + [0], u + [0] + HI16);
    if f.None? then 0 else f.value.ts
  }

  ghost predicate NoneRunsOn(h: History, u: Bytes) { forall v :: v in h && v.key != u ==> !RunsOn(u, v.key) }

  lemma {:induction false} CheckRight(h: History, u: Bytes)
    requires InTime(h) && NoneRunsOn(h, u)
    ensures CheckedTs(h, u) == NewestCommitted(h, u)
  {
    forall v | v in h ensures Between(u + [0], VersionKey(v.key, v.ts), u + [0] + HI16) <==> v.key == u && v.ts <= MAX_TS {
      CheckRange(u, v.key, v.ts);
    }
    NewestFirst(h, u + [0], u + [0] + HI16, u, MAX_TS);
  }

  ghost predicate ChecksRight(keys: set<Bytes>, u: Bytes) { forall h :: Over(h, keys) ==> CheckedTs(h, u) == NewestCommitted(h, u) }

  /** The conflict check of `u` is right over all histories of a set of keys just when none of the others runs on from `u`. */
  lemma {:induction false} CheckRightIff(keys: set<Bytes>, u: Bytes)
    ensures ChecksRight(keys, u) <==> forall v :: v in keys && v != u ==> !RunsOn(u, v)
  {
    if v :| v in keys && v != u && RunsOn(u, v) {
      var w := Version(v, 1);
      CheckRange(u, v, 1);
      OnlyFirst(w, [1], u + [0], u + [0] + HI16);
      SingleShows(w, [1], u, MAX_TS);
      assert Over(Single(w, [1]), keys) && CheckedTs(Single(w, [1]), u) != NewestCommitted(Single(w, [1]), u);
    } else {
      forall h | Over(h, keys) ensures CheckedTs(h, u) == NewestCommitted(h, u) { CheckRight(h, u); }
    }
  }

  /** An input: with "a" and a NUL committed at 1 and "a" at 2, the check of "a" finds 1, so that a transaction that began
      at 1 may write "a" again. No point read of "a" goes wrong here. */
  lemma {:induction false} CheckMisses(x: Bytes, y: Bytes)
    ensures var h: History := map[Version([97, 0], 1) := x, Version([97], 2) := y];
            InTime(h) && CheckedTs(h, [97]) == 1 && NewestCommitted(h, [97]) == 2 && !Clashes([97], [97, 0])
  {
    var u, v := [97], [97, 0];
    var h: History := map[Version(v, 1) := x, Version(u, 2) := y];
    NulTail(u);
    assert u + [0] == v;
    CheckRange(u, v, 1);
    CheckRange(u, u, 2);
    HexNoNul(MAX_TS - 2, 16);
    TailAgainst(u, v, 1, Hex(MAX_TS - 2, 16));
    assert IsFirst(h, u + [0], u + [0] + HI16, Version(v, 1));
    FirstUnique(h, u + [0], u + [0] + HI16, Version(v, 1));
    NewestIs(h, u, MAX_TS, 2);
  }

  /** A key and a NUL runs on from the key, and sorts before all its versions. */
  lemma {:induction false} NulTail(u: Bytes)
    ensures RunsOn(u, u + [0]) && !Clashes(u, u + [0])
    ensures forall n: nat :: Lt((u + [0])[|u| + 1..] + [0], Hex(n, 16))
  {
    assert (u + [0])[|u| + 1..] + [0] == [0];
    forall n: nat ensures Lt([0], Hex(n, 16)) { HexStart(n); }
    HexStart(0);
  }

  lemma {:induction false} HexStart(n: nat)
    ensures Lt([0], Hex(n, 16)) && !Lt(Hex(n, 16), [0])
  {
    HexNoNul(n, 16);
    assert Hex(n, 16)[0] > 0;
  }

  // ---- one pass over the entries -----------------------------------------------------------------------------------

  /** One physical entry, decoded. */
  datatype Row = Row(key: Bytes, ts: int, value: Bytes)

  function RowOf(p: Pair): Row { Row(UserKeyOf(p.key), TsOf(p.key), p.value) }

  ghost function Rows(items: seq<Pair>): (rows: seq<Row>)
    ensures |rows| == |items| && forall i :: 0 <= i < |rows| ==> rows[i] == RowOf(items[i])
  {
    seq(|items|, i requires 0 <= i < |items| => RowOf(items[i]))
  }

  /** Right before row `n` there is a row of its key at or before `ts`, with only rows of that key in between. */
  ghost predicate Before(rows: seq<Row>, n: nat, ts: nat)
    requires n < |rows|
  {
    n > 0 && rows[n - 1].key == rows[n].key && (rows[n - 1].ts <= ts || Before(rows, n - 1, ts))
  }

  /** What the pass shows of the first `n` rows. */
  ghost function Walked(rows: seq<Row>, n: nat, ts: nat): seq<Pair>
    requires n <= |rows|
  {
    if n == 0 then []
    else Walked(rows, n - 1, ts) + (if Shown(rows, n - 1, ts) then [Pair(rows[n - 1].key, rows[n - 1].value)] else [])
  }

  ghost predicate Shown(rows: seq<Row>, n: nat, ts: nat)
    requires n < |rows|
  {
    rows[n].ts <= ts && !Before(rows, n, ts) && rows[n].value != DELETED
  }

  /** The variables of the pass after `n` rows: the key of the last one, and whether it is decided. */
  ghost predicate Flagged(rows: seq<Row>, n: nat, ts: nat, cur: C.Option<Bytes>, flag: bool)
    requires n <= |rows|
  {
    if n == 0 then cur.None? && !flag
    else cur == C.Some(rows[n - 1].key) && (flag <==> rows[n - 1].ts <= ts || Before(rows, n - 1, ts))
  }

  lemma {:induction false} FlagIs(rows: seq<Row>, n: nat, ts: nat, cur: C.Option<Bytes>, flag: bool, uk: Bytes, t: int)
    requires n < |rows| && Flagged(rows, n, ts, cur, flag) && uk == rows[n].key && t == rows[n].ts
    ensures Before(rows, n, ts) <==> cur == C.Some(uk) && flag
    ensures Flagged(rows, n + 1, ts, C.Some(uk), (cur == C.Some(uk) && flag) || t <= ts)
  {
  }

  /** One pass over the physical entries: of each key the first version that is old enough, unless it is a deletion. */
  method Resolve(items: seq<Pair>, ts: nat) returns (out: seq<Pair>)
    ensures out == Walked(Rows(items), |items|, ts)
  {
    ghost var rows := Rows(items);
    out := [];
    var cur: C.Option<Bytes>, resolved := C.None, false;
    var i := 0;
    while i < |items|
      invariant 0 <= i <= |items| && Flagged(rows, i, ts, cur, resolved) && out == Walked(rows, i, ts)
    {
      var r := RowOf(items[i]);
      FlagIs(rows, i, ts, cur, resolved, r.key, r.ts);
      if cur != C.Some(r.key) {
        cur, resolved := C.Some(r.key), false;
      }
      if !resolved && r.ts <= ts {
        resolved := true;
        if r.value != DELETED {
          out := out + [Pair(r.key, r.value)];
        }
      }
      i := i + 1;
    }
  }

  /** Row `j` goes: it is old enough, and so is one of its key right before it. */
  ghost predicate Goes(rows: seq<Row>, j: nat, low: nat)
    requires j < |rows|
  {
    rows[j].ts <= low && Before(rows, j, low)
  }

  /** The physical keys of the rows among the first `n` that go. */
  ghost function Swept(items: seq<Pair>, n: nat, low: nat): set<Bytes>
    requires n <= |items|
  {
    if n == 0 then {} else if Goes(Rows(items), n - 1, low) then Swept(items, n - 1, low) + {items[n - 1].key} else Swept(items, n - 1, low)
  }

  lemma {:induction false} SweptFrom(items: seq<Pair>, n: nat, low: nat, k: Bytes) returns (j: nat)
    requires n <= |items| && k in Swept(items, n, low)
    ensures j < n && items[j].key == k && Goes(Rows(items), j, low)
  {
    if Goes(Rows(items), n - 1, low) && k == items[n - 1].key {
      j := n - 1;
    } else {
      j := SweptFrom(items, n - 1, low, k);
    }
  }

  lemma {:induction false} SweptHas(items: seq<Pair>, n: nat, low: nat, j: nat)
    requires j < n <= |items| && Goes(Rows(items), j, low)
    ensures items[j].key in Swept(items, n, low)
  {
    if j < n - 1 { SweptHas(items, n - 1, low, j); }
  }

  /** The same pass for garbage collection. */
  method Garbage(items: seq<Pair>, low: nat) returns (dead: set<Bytes>)
    ensures dead == Swept(items, |items|, low)
  {
    ghost var rows := Rows(items);
    dead := {};
    var prev: C.Option<Bytes>, keptFloor := C.None, false;
    var i := 0;
    while i < |items|
      invariant 0 <= i <= |items| && Flagged(rows, i, low, prev, keptFloor) && dead == Swept(items, i, low)
    {
      var r := RowOf(items[i]);
      FlagIs(rows, i, low, prev, keptFloor, r.key, r.ts);
      if prev != C.Some(r.key) {
        prev, keptFloor := C.Some(r.key), false;
      }
      if r.ts <= low {
        if !keptFloor {
          keptFloor := true;
        } else {
          dead := dead + {items[i].key};
        }
      }
      i := i + 1;
    }
  }

  // ---- rows of one key -----------------------------------------------------------------------------------------------

  ghost predicate IsRow(h: History, r: Row) {
    1 <= r.ts <= MAX_TS && Version(r.key, r.ts) in h && h[Version(r.key, r.ts)] == r.value
  }

  /** The row of a version is among the rows. */
  ghost predicate HasRow(h: History, rows: seq<Row>, v: Version)
    requires v in h
  {
    exists j :: 0 <= j < |rows| && rows[j] == Row(v.key, v.ts, h[v])
  }

  /** Row `j` is a version, and the other versions of its key are rows too. */
  ghost predicate IsGood(h: History, rows: seq<Row>, j: nat)
    requires j < |rows|
  {
    IsRow(h, rows[j]) && forall v :: v in h && v.key == rows[j].key ==> HasRow(h, rows, v)
  }

  /** The later of two rows of one key is older. */
  ghost predicate Descends(rows: seq<Row>) {
    forall i, j {:trigger Older(rows[i], rows[j])} :: 0 <= i < j < |rows| ==> Older(rows[i], rows[j])
  }

  predicate Older(a: Row, b: Row) { a.key == b.key ==> a.ts > b.ts }

  /** Rows of one key stand together. */
  ghost predicate Together(rows: seq<Row>) {
    forall j, i {:trigger Next(rows, j, i)} :: 0 <= j < i < |rows| ==> Next(rows, j, i)
  }

  predicate Next(rows: seq<Row>, j: nat, i: nat)
    requires j < i < |rows|
  {
    rows[j].key == rows[i].key ==> rows[i - 1].key == rows[i].key
  }

  /** A version of `u` at or before `ts` is among the first `n` rows. */
  ghost predicate Resolved(rows: seq<Row>, n: nat, u: Bytes, ts: nat)
    requires n <= |rows|
  {
    exists j :: 0 <= j < n && rows[j].key == u && rows[j].ts <= ts
  }

  lemma {:induction false} ResolvedNext(rows: seq<Row>, n: nat, u: Bytes, ts: nat)
    requires n < |rows|
    ensures Resolved(rows, n + 1, u, ts) <==> Resolved(rows, n, u, ts) || (rows[n].key == u && rows[n].ts <= ts)
  {
    if rows[n].key == u && rows[n].ts <= ts { assert Resolved(rows, n + 1, u, ts); }
  }

  lemma {:induction false} BeforeResolved(rows: seq<Row>, n: nat, ts: nat)
    requires n < |rows| && Before(rows, n, ts)
    ensures Resolved(rows, n, rows[n].key, ts)
  {
    if rows[n - 1].ts > ts {
      BeforeResolved(rows, n - 1, ts);
      ResolvedNext(rows, n - 1, rows[n].key, ts);
    }
  }

  /** If the rows of a key stand together, the pass knows whether it has seen an old enough one. */
  lemma {:induction false} ResolvedBefore(rows: seq<Row>, n: nat, ts: nat)
    requires n < |rows| && Together(rows)
    ensures Before(rows, n, ts) <==> Resolved(rows, n, rows[n].key, ts)
  {
    if Before(rows, n, ts) { BeforeResolved(rows, n, ts); }
    if Resolved(rows, n, rows[n].key, ts) {
      var j :| 0 <= j < n && rows[j].key == rows[n].key && rows[j].ts <= ts;
      assert Next(rows, j, n);
      ResolvedBefore(rows, n - 1, ts);
      assert j < n - 1 ==> Resolved(rows, n - 1, rows[n - 1].key, ts);
    }
  }

  /** The first row of a key at or before `ts` is what a snapshot at `ts` sees of it. */
  lemma {:induction false} FirstRowVisible(h: History, rows: seq<Row>, i: nat, ts: nat)
    requires Descends(rows) && i < |rows| && IsGood(h, rows, i) && rows[i].ts <= ts && !Resolved(rows, i, rows[i].key, ts)
    ensures NewestAt(h, rows[i].key, ts) == C.Some(rows[i].ts)
    ensures Visible(h, rows[i].key, ts) == if rows[i].value == DELETED then C.None else C.Some(rows[i].value)
  {
    var u := rows[i].key;
    NewestFound(h, u, ts);
    var n := NewestAt(h, u, ts).value;
    assert HasRow(h, rows, Version(u, n));
    var j :| 0 <= j < |rows| && rows[j] == Row(u, n, h[Version(u, n)]);
    assert j > i ==> Older(rows[i], rows[j]);
    assert j >= i;
  }

  // ---- scans -----------------------------------------------------------------------------------------------------

  ghost predicate GoodRows(h: History, rows: seq<Row>) {
    Descends(rows) && Together(rows) && forall j {:trigger IsGood(h, rows, j)} :: 0 <= j < |rows| ==> IsGood(h, rows, j)
  }

  /** `out` shows exactly what the first `n` rows decide. */
  ghost predicate ShownSoFar(h: History, rows: seq<Row>, n: nat, ts: nat, out: seq<Pair>)
    requires n <= |rows|
  {
    forall u {:trigger ShownRight(h, rows, n, ts, out, u)} :: ShownRight(h, rows, n, ts, out, u)
  }

  ghost predicate ShownRight(h: History, rows: seq<Row>, n: nat, ts: nat, out: seq<Pair>, u: Bytes)
    requires n <= |rows|
  {
    && (Resolved(rows, n, u, ts) ==> (u in MapOf(out) <==> Visible(h, u, ts).Some?))
    && (u in MapOf(out) ==> Resolved(rows, n, u, ts) && Visible(h, u, ts) == C.Some(MapOf(out)[u]))
  }

  /** Skipping a row that is too new, or whose key is decided, changes nothing. */
  lemma {:induction false} ShownSkip(h: History, rows: seq<Row>, n: nat, ts: nat, out: seq<Pair>)
    requires n < |rows| && ShownSoFar(h, rows, n, ts, out) && (rows[n].ts > ts || Resolved(rows, n, rows[n].key, ts))
    ensures ShownSoFar(h, rows, n + 1, ts, out)
  {
    var m := n + 1;
    forall u ensures ShownRight(h, rows, m, ts, out, u) {
      assert ShownRight(h, rows, n, ts, out, u);
      ResolvedNext(rows, n, u, ts);
    }
  }

  /** The first row of a key that is old enough decides it. */
  lemma {:induction false} ShownNext(h: History, rows: seq<Row>, n: nat, ts: nat, out: seq<Pair>)
    requires GoodRows(h, rows) && n < |rows| && ShownSoFar(h, rows, n, ts, out) && rows[n].ts <= ts && !Resolved(rows, n, rows[n].key, ts)
    ensures ShownSoFar(h, rows, n + 1, ts, if rows[n].value == DELETED then out else out + [Pair(rows[n].key, rows[n].value)])
  {
    var r := rows[n];
    var out' := if r.value == DELETED then out else out + [Pair(r.key, r.value)];
    assert IsGood(h, rows, n);
    FirstRowVisible(h, rows, n, ts);
    assert ShownRight(h, rows, n, ts, out, r.key);
    assert (out + [Pair(r.key, r.value)])[..|out|] == out;
    var m := n + 1;
    forall u ensures ShownRight(h, rows, m, ts, out', u) {
      assert ShownRight(h, rows, n, ts, out, u);
      ResolvedNext(rows, n, u, ts);
    }
  }

  lemma {:induction false} WalkShows(h: History, rows: seq<Row>, n: nat, ts: nat)
    requires GoodRows(h, rows) && n <= |rows|
    ensures ShownSoFar(h, rows, n, ts, Walked(rows, n, ts))
  {
    if n == 0 {
      NothingShown(h, rows, ts);
    } else {
      WalkShows(h, rows, n - 1, ts);
      WalkStep(h, rows, n, ts);
    }
  }

  lemma {:induction false} NothingShown(h: History, rows: seq<Row>, ts: nat)
    ensures ShownSoFar(h, rows, 0, ts, [])
  {
    forall u ensures ShownRight(h, rows, 0, ts, [], u) {
    }
  }

  lemma {:induction false} WalkStep(h: History, rows: seq<Row>, n: nat, ts: nat)
    requires GoodRows(h, rows) && 0 < n <= |rows| && ShownSoFar(h, rows, n - 1, ts, Walked(rows, n - 1, ts))
    ensures ShownSoFar(h, rows, n, ts, Walked(rows, n, ts))
  {
    var m := n - 1;
    var out := Walked(rows, m, ts);
    ResolvedBefore(rows, m, ts);
    assert out + [] == out;
    if rows[m].ts <= ts && !Before(rows, m, ts) {
      ShownNext(h, rows, m, ts, out);
    } else {
      ShownSkip(h, rows, m, ts, out);
    }
  }

  /** The result of a scan, put into a dictionary: exactly the live keys in range. */
  ghost predicate Shows(h: History, lo: Bytes, hi: Bytes, ts: nat, out: seq<Pair>) {
    forall u {:trigger ShowsKey(h, lo, hi, ts, out, u)} :: ShowsKey(h, lo, hi, ts, out, u)
  }

  ghost predicate ShowsKey(h: History, lo: Bytes, hi: Bytes, ts: nat, out: seq<Pair>, u: Bytes) {
    && (u in MapOf(out) <==> InScanRange(lo, u, hi) && Visible(h, u, ts).Some?)
    && (u in MapOf(out) ==> C.Some(MapOf(out)[u]) == Visible(h, u, ts))
  }

  /** The bounds part no key's versions, and in range no key splits another. */
  ghost predicate ScanFits(h: History, lo: Bytes, hi: Bytes) {
    && (forall v {:trigger BoundsFit(lo, v.key, hi)} :: v in h ==> BoundsFit(lo, v.key, hi))
    && (forall v, w {:trigger Splits(v.key, w.key)} :: v in h && w in h && InScanRange(lo, v.key, hi) ==> !Splits(v.key, w.key))
  }

  /** The row of entry `i`. */
  lemma {:induction false} ItemIsRow(h: History, start: Bytes, end: Bytes, items: seq<Pair>, i: nat)
    requires Found(h, start, end, items) && i < |items|
    ensures var r := Rows(items)[i]; IsRow(h, r) && items[i].key == VersionKey(r.key, r.ts) && Between(start, items[i].key, end)
  {
    assert IsItem(h, start, end, items[i]);
  }

  /** Every version in range has its row. */
  lemma {:induction false} RowOfVersion(h: History, start: Bytes, end: Bytes, items: seq<Pair>, v: Version) returns (i: nat)
    requires Found(h, start, end, items) && v in h && Between(start, VersionKey(v.key, v.ts), end)
    ensures i < |items| && items[i].key == VersionKey(v.key, v.ts) && Rows(items)[i] == Row(v.key, v.ts, h[v])
  {
    assert IsListed(start, end, items, v);
    i :| 0 <= i < |items| && items[i].key == VersionKey(v.key, v.ts);
    assert IsItem(h, start, end, items[i]);
    Decoded(v.key, v.ts);
  }

  lemma {:induction false} ItemsDescend(h: History, start: Bytes, end: Bytes, items: seq<Pair>, i: nat, j: nat)
    requires Found(h, start, end, items) && i < j < |items|
    ensures Older(Rows(items)[i], Rows(items)[j])
  {
    var a, b := Rows(items)[i], Rows(items)[j];
    ItemIsRow(h, start, end, items, i);
    ItemIsRow(h, start, end, items, j);
    assert Lt(Keys(items)[i], Keys(items)[j]);
    if a.key == b.key && a.ts <= b.ts {
      Order();
      if a.ts < b.ts { VersionOrder(a.key, a.ts, b.ts); }
    }
  }

  lemma {:induction false} FoundDescends(h: History, start: Bytes, end: Bytes, items: seq<Pair>)
    requires Found(h, start, end, items)
    ensures Descends(Rows(items))
  {
    var rows := Rows(items);
    forall i, j | 0 <= i < j < |rows| ensures Older(rows[i], rows[j]) { ItemsDescend(h, start, end, items, i, j); }
  }

  /** Between two rows of one key are only rows of that key, unless another one splits it. */
  lemma {:induction false} ItemsTogether(h: History, start: Bytes, end: Bytes, items: seq<Pair>, j: nat, i: nat)
    requires Found(h, start, end, items) && j < i < |items| && !Splits(Rows(items)[i].key, Rows(items)[i - 1].key)
    ensures Next(Rows(items), j, i)
  {
    if j < i - 1 {
      RowsAscend(h, start, end, items, j, i - 1);
      RowsAscend(h, start, end, items, i - 1, i);
      RowsTogether(Rows(items)[j], Rows(items)[i - 1], Rows(items)[i]);
    }
  }

  ghost predicate ComesBefore(a: Row, b: Row) {
    1 <= a.ts <= MAX_TS && 1 <= b.ts <= MAX_TS && Lt(VersionKey(a.key, a.ts), VersionKey(b.key, b.ts))
  }

  lemma {:induction false} RowsAscend(h: History, start: Bytes, end: Bytes, items: seq<Pair>, i: nat, j: nat)
    requires Found(h, start, end, items) && i < j < |items|
    ensures ComesBefore(Rows(items)[i], Rows(items)[j])
  {
    ItemIsRow(h, start, end, items, i);
    ItemIsRow(h, start, end, items, j);
    ItemsAscend(items, i, j);
  }

  lemma {:induction false} RowsTogether(a: Row, b: Row, c: Row)
    requires ComesBefore(a, b) && ComesBefore(b, c) && !Splits(c.key, b.key)
    ensures a.key == c.key ==> b.key == c.key
  {
    if a.key == c.key && b.key != c.key { SplitBetween(c.key, a.ts, b.key, b.ts, c.ts); }
  }

  lemma {:induction false} ItemsAscend(items: seq<Pair>, i: nat, j: nat)
    requires SortedPairs(items) && i <= j < |items|
    ensures i < j ==> Lt(items[i].key, items[j].key)
  {
    assert i < j ==> Lt(Keys(items)[i], Keys(items)[j]);
  }

  lemma {:induction false} VersionPlaced(h: History, lo: Bytes, hi: Bytes, v: Version)
    requires InTime(h) && ScanFits(h, lo, hi) && v in h
    ensures Between(lo, VersionKey(v.key, v.ts), hi + HI_CHAR) <==> InScanRange(lo, v.key, hi)
  {
    assert BoundsFit(lo, v.key, hi);
    BoundsPlaced(lo, v.key, hi, v.ts);
  }

  /** The rows of a scan are all versions of the keys in range. */
  lemma {:induction false} ScanGood(h: History, lo: Bytes, hi: Bytes, items: seq<Pair>)
    requires Found(h, lo, hi + HI_CHAR, items) && ScanFits(h, lo, hi)
    ensures GoodRows(h, Rows(items))
    ensures forall j :: 0 <= j < |items| ==> InScanRange(lo, Rows(items)[j].key, hi)
    ensures forall v :: v in h && InScanRange(lo, v.key, hi) ==> HasRow(h, Rows(items), v)
  {
    var rows, end := Rows(items), hi + HI_CHAR;
    FoundDescends(h, lo, end, items);
    forall v | v in h && InScanRange(lo, v.key, hi) ensures HasRow(h, rows, v) {
      VersionPlaced(h, lo, hi, v);
      var i := RowOfVersion(h, lo, end, items, v);
    }
    forall j | 0 <= j < |items| ensures InScanRange(lo, rows[j].key, hi) && IsGood(h, rows, j) {
      ItemIsRow(h, lo, end, items, j);
      VersionPlaced(h, lo, hi, Version(rows[j].key, rows[j].ts));
    }
    forall j, i | 0 <= j < i < |rows| ensures Next(rows, j, i) {
      var v, w := Version(rows[i].key, rows[i].ts), Version(rows[i - 1].key, rows[i - 1].ts);
      assert IsGood(h, rows, i) && IsGood(h, rows, i - 1) && InScanRange(lo, v.key, hi) && !Splits(v.key, w.key);
      ItemsTogether(h, lo, end, items, j, i);
    }
  }

  lemma {:induction false} ShownAll(h: History, rows: seq<Row>, lo: Bytes, hi: Bytes, ts: nat, out: seq<Pair>)
    requires ShownSoFar(h, rows, |rows|, ts, out)
    requires forall j :: 0 <= j < |rows| ==> InScanRange(lo, rows[j].key, hi)
    requires forall v :: v in h && InScanRange(lo, v.key, hi) ==> HasRow(h, rows, v)
    ensures Shows(h, lo, hi, ts, out)
  {
    forall u ensures ShowsKey(h, lo, hi, ts, out, u) {
      assert ShownRight(h, rows, |rows|, ts, out, u);
      NewestFound(h, u, ts);
      if InScanRange(lo, u, hi) && Visible(h, u, ts).Some? {
        var v := Version(u, NewestAt(h, u, ts).value);
        assert HasRow(h, rows, v);
        var j :| 0 <= j < |rows| && rows[j] == Row(v.key, v.ts, h[v]);
        assert Resolved(rows, |rows|, u, ts);
      }
    }
  }

  lemma {:induction false} ScanRight(h: History, lo: Bytes, hi: Bytes, ts: nat, items: seq<Pair>)
    requires Found(h, lo, hi + HI_CHAR, items) && ScanFits(h, lo, hi)
    ensures Shows(h, lo, hi, ts, Walked(Rows(items), |items|, ts))
  {
    ScanGood(h, lo, hi, items);
    WalkShows(h, Rows(items), |items|, ts);
    ShownAll(h, Rows(items), lo, hi, ts, Walked(Rows(items), |items|, ts));
  }

  // ---- when scans are right ----------------------------------------------------------------------------------------

  ghost predicate ScansRight(keys: set<Bytes>, lo: Bytes, hi: Bytes) {
    forall h, ts: nat, items {:trigger Found(h, lo, hi + HI_CHAR, items), Walked(Rows(items), |items|, ts)} ::
      Over(h, keys) && Found(h, lo, hi + HI_CHAR, items) ==> Shows(h, lo, hi, ts, Walked(Rows(items), |items|, ts))
  }

  /** Scans from `lo` to `hi` are right over all histories of a set of keys just when the bounds part no key's versions and no
      key splits one in range. */
  lemma {:induction false} ScanRightIff(keys: set<Bytes>, lo: Bytes, hi: Bytes)
    ensures ScansRight(keys, lo, hi)
            <==> (forall u :: u in keys ==> BoundsFit(lo, u, hi)) && (forall u, v :: u in keys && v in keys && InScanRange(lo, u, hi) ==> !Splits(u, v))
  {
    if u :| u in keys && !BoundsFit(lo, u, hi) {
      PartedScan(keys, lo, u, hi);
    } else if u, v :| u in keys && v in keys && InScanRange(lo, u, hi) && Splits(u, v) {
      SplitScan(keys, lo, u, MAX_TS, v, 1, 1, hi);
    } else {
      forall h, ts: nat, items | Over(h, keys) && Found(h, lo, hi + HI_CHAR, items)
        ensures Shows(h, lo, hi, ts, Walked(Rows(items), |items|, ts))
      {
        ScanRight(h, lo, hi, ts, items);
      }
    }
  }

  lemma {:induction false} WrongScan(keys: set<Bytes>, lo: Bytes, hi: Bytes, h: History, items: seq<Pair>, ts: nat, u: Bytes)
    requires Over(h, keys) && Found(h, lo, hi + HI_CHAR, items) && !ShowsKey(h, lo, hi, ts, Walked(Rows(items), |items|, ts), u)
    ensures !ScansRight(keys, lo, hi)
  {
    assert !Shows(h, lo, hi, ts, Walked(Rows(items), |items|, ts));
  }

  /** Bounds that part the versions of `u` make a scan miss it or show it out of range. */
  lemma {:induction false} PartedScan(keys: set<Bytes>, lo: Bytes, u: Bytes, hi: Bytes)
    requires u in keys && !BoundsFit(lo, u, hi)
    ensures !ScansRight(keys, lo, hi)
  {
    var t := UnfitMisplaced(lo, u, hi);
    var v, k, end := Version(u, t), VersionKey(u, t), hi + HI_CHAR;
    var h := Single(v, [1]);
    var items := if Between(lo, k, end) then [Pair(k, [1])] else [];
    SingleFound(v, [1], lo, end);
    SingleShows(v, [1], u, t);
    Decoded(u, t);
    assert Visible(h, u, t).Some?;
    var out := Walked(Rows(items), |items|, t);
    SingleWalked(items, t);
    assert u in MapOf(out) <==> Between(lo, k, end);
    WrongScan(keys, lo, hi, h, items, t, u);
  }

  lemma {:induction false} SingleFound(v: Version, value: Bytes, start: Bytes, end: Bytes)
    requires 1 <= v.ts <= MAX_TS
    ensures var k := VersionKey(v.key, v.ts);
            Found(Single(v, value), start, end, if Between(start, k, end) then [Pair(k, value)] else [])
  {
    var k := VersionKey(v.key, v.ts);
    var items := if Between(start, k, end) then [Pair(k, value)] else [];
    Decoded(v.key, v.ts);
    assert IsListed(start, end, items, v) by { if Between(start, k, end) { assert items[0].key == k; } }
  }

  lemma {:induction false} SingleWalked(items: seq<Pair>, ts: nat)
    requires |items| <= 1 && (|items| == 1 ==> TsOf(items[0].key) <= ts && items[0].value != DELETED)
    ensures Walked(Rows(items), |items|, ts) == if items == [] then [] else [Pair(UserKeyOf(items[0].key), items[0].value)]
  {
  }

  /** Two versions of `u` and one of `v`. */
  ghost function Sandwich(u: Bytes, s: nat, v: Bytes, t: nat, r: nat): History {
    map[Version(u, s) := [1], Version(v, t) := [2], Version(u, r) := [3]]
  }

  ghost function SandwichItems(u: Bytes, s: nat, v: Bytes, t: nat, r: nat): seq<Pair>
    requires s <= MAX_TS && t <= MAX_TS && r <= MAX_TS
  {
    [Pair(VersionKey(u, s), [1]), Pair(VersionKey(v, t), [2]), Pair(VersionKey(u, r), [3])]
  }

  lemma {:induction false} VersionItem(h: History, start: Bytes, end: Bytes, v: Version)
    requires v in h && 1 <= v.ts <= MAX_TS && Between(start, VersionKey(v.key, v.ts), end)
    ensures IsItem(h, start, end, Pair(VersionKey(v.key, v.ts), h[v]))
  {
    Decoded(v.key, v.ts);
  }

  lemma {:induction false} SandwichPlaced(lo: Bytes, u: Bytes, s: nat, v: Bytes, t: nat, r: nat, hi: Bytes)
    requires InScanRange(lo, u, hi) && Splits(u, v) && BoundsFit(lo, u, hi) && s == MAX_TS && 1 <= t <= MAX_TS && r == 1
    ensures var a, b, c := VersionKey(u, s), VersionKey(v, t), VersionKey(u, r);
            && Lt(a, b) && Lt(b, c) && Lt(a, c)
            && Between(lo, a, hi + HI_CHAR) && Between(lo, b, hi + HI_CHAR) && Between(lo, c, hi + HI_CHAR)
  {
    assert u != v;
    SplitExact(u, v, t);
    BoundsPlaced(lo, u, hi, s);
    BoundsPlaced(lo, u, hi, r);
    ThreeAscend(lo, VersionKey(u, s), VersionKey(v, t), VersionKey(u, r), hi + HI_CHAR);
  }

  lemma {:induction false} SandwichFound(start: Bytes, u: Bytes, s: nat, v: Bytes, t: nat, r: nat, end: Bytes)
    requires u != v && 1 <= r < s <= MAX_TS && 1 <= t <= MAX_TS
    requires Lt(VersionKey(u, s), VersionKey(v, t)) && Lt(VersionKey(v, t), VersionKey(u, r)) && Lt(VersionKey(u, s), VersionKey(u, r))
    requires Between(start, VersionKey(u, s), end) && Between(start, VersionKey(v, t), end) && Between(start, VersionKey(u, r), end)
    ensures Found(Sandwich(u, s, v, t, r), start, end, SandwichItems(u, s, v, t, r))
  {
    var h, items := Sandwich(u, s, v, t, r), SandwichItems(u, s, v, t, r);
    VersionItem(h, start, end, Version(u, s));
    VersionItem(h, start, end, Version(v, t));
    VersionItem(h, start, end, Version(u, r));
    ThreeSorted(items);
    ListedAt(start, end, items, Version(u, s), 0);
    ListedAt(start, end, items, Version(v, t), 1);
    ListedAt(start, end, items, Version(u, r), 2);
  }

  lemma {:induction false} ListedAt(start: Bytes, end: Bytes, items: seq<Pair>, v: Version, i: nat)
    requires v.ts <= MAX_TS && i < |items| && items[i].key == VersionKey(v.key, v.ts)
    ensures IsListed(start, end, items, v)
  {
  }

  lemma {:induction false} ThreeAscend(lo: Bytes, a: Bytes, b: Bytes, c: Bytes, hi: Bytes)
    requires Le(lo, a) && Lt(a, b) && Lt(b, c) && Le(c, hi)
    ensures Lt(a, c) && Between(lo, b, hi)
  {
    Order();
  }

  lemma {:induction false} ThreeSorted(items: seq<Pair>)
    requires |items| == 3 && Lt(items[0].key, items[1].key) && Lt(items[0].key, items[2].key) && Lt(items[1].key, items[2].key)
    ensures SortedPairs(items)
  {
    assert Keys(items)[0] == items[0].key && Keys(items)[1] == items[1].key && Keys(items)[2] == items[2].key;
  }

  lemma {:induction false} SandwichRows(u: Bytes, s: nat, v: Bytes, t: nat, r: nat)
    requires s <= MAX_TS && t <= MAX_TS && r <= MAX_TS
    ensures Rows(SandwichItems(u, s, v, t, r)) == [Row(u, s, [1]), Row(v, t, [2]), Row(u, r, [3])]
  {
    var items := SandwichItems(u, s, v, t, r);
    Decoded(u, s);
    Decoded(v, t);
    Decoded(u, r);
    assert RowOf(items[0]) == Row(u, s, [1]) && RowOf(items[1]) == Row(v, t, [2]) && RowOf(items[2]) == Row(u, r, [3]);
  }

  lemma {:induction false} SandwichWalked(rows: seq<Row>, u: Bytes, s: nat, v: Bytes, t: nat, r: nat, ts: nat)
    requires u != v && r < s <= ts && t <= ts && rows == [Row(u, s, [1]), Row(v, t, [2]), Row(u, r, [3])]
    ensures Walked(rows, 3, ts) == [Pair(u, [1]), Pair(v, [2]), Pair(u, [3])]
  {
    assert Walked(rows, 1, ts) == [Pair(u, [1])];
    assert Walked(rows, 2, ts) == [Pair(u, [1]), Pair(v, [2])];
  }

  /** A key that splits `u` makes a scan show an old value of `u`. */
  lemma {:induction false} SplitScan(keys: set<Bytes>, lo: Bytes, u: Bytes, s: nat, v: Bytes, t: nat, r: nat, hi: Bytes)
    requires u in keys && v in keys && InScanRange(lo, u, hi) && Splits(u, v) && BoundsFit(lo, u, hi)
    requires s == MAX_TS && 1 <= t <= MAX_TS && r == 1
    ensures !ScansRight(keys, lo, hi)
  {
    var h, items := Sandwich(u, s, v, t, r), SandwichItems(u, s, v, t, r);
    assert u != v;
    SandwichPlaced(lo, u, s, v, t, r, hi);
    SandwichFound(lo, u, s, v, t, r, hi + HI_CHAR);
    SandwichRows(u, s, v, t, r);
    SandwichWalked(Rows(items), u, s, v, t, r, s);
    var out := Walked(Rows(items), |items|, s);
    assert out[..2] == [Pair(u, [1]), Pair(v, [2])];
    NewestIs(h, u, s, s);
    WrongScan(keys, lo, hi, h, items, s, u);
  }

  /** Two inputs: a scan from "a" and a NUL on shows "a", which sorts below, and "a", a NUL and "5" splits "a". */
  lemma {:induction false} ScansGoWrong()
    ensures !ScansRight({[97]}, [97, 0], [98]) && !ScansRight({[97], [97, 0, 53]}, [97], [98])
  {
    LeakExample([97], [97, 0], [98], 1);
    PartedScan({[97]}, [97, 0], [97], [98]);
    NulKeysMix();
    ScanRightIff({[97], [97, 0, 53]}, [97], [98]);
  }

  lemma {:induction false} LeakExample(u: Bytes, lo: Bytes, hi: Bytes, t: nat)
    requires lo == u + [0] && u == [97] && hi == [98] && 1 <= t <= MAX_TS
    ensures !BoundsFit(lo, u, hi)
  {
    assert TailOf(u, lo) == [];
    assert (u + [0])[1] == 0;
    assert Leaks(lo, u, hi, t);
  }

  // ---- sorted results ------------------------------------------------------------------------------------------------

  /** Keys never go back. */
  ghost predicate Ascends(rows: seq<Row>) {
    forall i, j {:trigger NotAbove(rows[i], rows[j])} :: 0 <= i < j < |rows| ==> NotAbove(rows[i], rows[j])
  }

  predicate NotAbove(a: Row, b: Row) { Le(a.key, b.key) }

  ghost predicate NoRunOns(h: History) {
    forall v, w {:trigger RunsOn(v.key, w.key)} :: v in h && w in h && v.key != w.key ==> !RunsOn(v.key, w.key)
  }

  lemma {:induction false} FoundAscends(h: History, start: Bytes, end: Bytes, items: seq<Pair>)
    requires Found(h, start, end, items) && NoRunOns(h)
    ensures Ascends(Rows(items))
  {
    var rows := Rows(items);
    forall i, j | 0 <= i < j < |rows| ensures NotAbove(rows[i], rows[j]) {
      ItemIsRow(h, start, end, items, i);
      ItemIsRow(h, start, end, items, j);
      var v, w := Version(rows[i].key, rows[i].ts), Version(rows[j].key, rows[j].ts);
      assert v.key != w.key ==> !RunsOn(v.key, w.key) && !RunsOn(w.key, v.key);
      ItemsAscend(items, i, j);
      if v.key != w.key { KeysDecide(v.key, v.ts, w.key, w.ts); }
    }
  }

  lemma {:induction false} WalkSorted(h: History, rows: seq<Row>, n: nat, ts: nat)
    requires GoodRows(h, rows) && Ascends(rows) && n <= |rows|
    ensures SortedPairs(Walked(rows, n, ts))
  {
    if n > 0 {
      var out := Walked(rows, n - 1, ts);
      WalkSorted(h, rows, n - 1, ts);
      WalkShows(h, rows, n - 1, ts);
      ResolvedBefore(rows, n - 1, ts);
      assert out + [] == out;
      if Shown(rows, n - 1, ts) {
        forall x | 0 <= x < |out| ensures Lt(out[x].key, rows[n - 1].key) {
          MapOfKeys(out, out[x].key);
          assert ShownRight(h, rows, n - 1, ts, out, out[x].key);
          var j :| 0 <= j < n - 1 && rows[j].key == out[x].key && rows[j].ts <= ts;
          assert NotAbove(rows[j], rows[n - 1]);
        }
        SortedSnoc(out, Pair(rows[n - 1].key, rows[n - 1].value));
      }
    }
  }

  /** If no key runs on from another, a scan's result is sorted as it stands. */
  lemma {:induction false} ScanSorted(h: History, lo: Bytes, hi: Bytes, ts: nat, items: seq<Pair>)
    requires Found(h, lo, hi + HI_CHAR, items) && ScanFits(h, lo, hi) && NoRunOns(h)
    ensures SortedPairs(Walked(Rows(items), |items|, ts))
  {
    ScanGood(h, lo, hi, items);
    FoundAscends(h, lo, hi + HI_CHAR, items);
    WalkSorted(h, Rows(items), |items|, ts);
  }

  // ---- garbage collection --------------------------------------------------------------------------------------------

  ghost predicate SortsLow(k: Bytes) { Lt(k, HI_CHAR) }

  /** A pass over everything sees the keys that sort before U+10FFFF. */
  lemma {:induction false} SeenWhole(v: Version)
    requires 1 <= v.ts <= MAX_TS
    ensures Between([], VersionKey(v.key, v.ts), HI_CHAR) <==> SortsLow(v.key)
  {
    NoBoundsFit(v.key);
    BoundsPlaced([], v.key, [], v.ts);
    assert [] + HI_CHAR == HI_CHAR;
    Total([], v.key);
    Irreflexive(v.key);
  }

  /** What is left of a history when the physical keys in `dead` are gone. */
  ghost function Remaining(h: History, dead: set<Bytes>): History
    requires InTime(h)
  {
    map v | v in h && VersionKey(v.key, v.ts) !in dead :: h[v]
  }

  /** A row goes only if there is a newer version, still old enough. */
  lemma {:induction false} GoesSuperseded(h: History, rows: seq<Row>, j: nat, low: nat)
    requires Descends(rows) && j < |rows| && IsRow(h, rows[j]) && Goes(rows, j, low) && forall i :: 0 <= i < |rows| ==> IsRow(h, rows[i])
    ensures rows[j].ts <= low && NewestAt(h, rows[j].key, low) != C.Some(rows[j].ts)
  {
    BeforeResolved(rows, j, low);
    var i :| 0 <= i < j && rows[i].key == rows[j].key && rows[i].ts <= low;
    assert Older(rows[i], rows[j]);
    NewestFound(h, rows[j].key, low);
  }

  lemma {:induction false} DeadSuperseded(h: History, items: seq<Pair>, low: nat, dead: set<Bytes>, v: Version)
    requires Found(h, [], HI_CHAR, items) && dead == Swept(items, |items|, low) && v in h && VersionKey(v.key, v.ts) in dead
    ensures v.ts <= low && NewestAt(h, v.key, low) != C.Some(v.ts)
  {
    var rows := Rows(items);
    var j := SweptFrom(items, |items|, low, VersionKey(v.key, v.ts));
    FoundDescends(h, [], HI_CHAR, items);
    forall i | 0 <= i < |rows| ensures IsRow(h, rows[i]) { ItemIsRow(h, [], HI_CHAR, items, i); }
    Decoded(v.key, v.ts);
    GoesSuperseded(h, rows, j, low);
  }

  /** Whatever the keys, a garbage collection drops only what no snapshot at or after `low` sees. */
  lemma {:induction false} GarbageIsVacuum(h: History, items: seq<Pair>, low: nat, dead: set<Bytes>)
    requires Found(h, [], HI_CHAR, items) && dead == Swept(items, |items|, low)
    ensures IsVacuum(h, low, Remaining(h, dead))
  {
    forall v | v in Vacuumed(h, low) ensures v in Remaining(h, dead) {
      if VersionKey(v.key, v.ts) in dead { DeadSuperseded(h, items, low, dead, v); }
    }
  }

  /** All keys sort before U+10FFFF, and none splits another. */
  ghost predicate AllSwept(h: History) {
    && (forall v :: v in h ==> SortsLow(v.key))
    && (forall v, w {:trigger Splits(v.key, w.key)} :: v in h && w in h ==> !Splits(v.key, w.key))
  }

  lemma {:induction false} SweptFits(h: History)
    requires AllSwept(h)
    ensures ScanFits(h, [], [])
  {
    forall v | v in h ensures BoundsFit([], v.key, []) { NoBoundsFit(v.key); }
  }

  /** Then it drops all of it. */
  lemma {:induction false} SupersededGoes(h: History, items: seq<Pair>, low: nat, dead: set<Bytes>, v: Version)
    requires Found(h, [], HI_CHAR, items) && dead == Swept(items, |items|, low) && AllSwept(h)
    requires v in h && v.ts <= low && NewestAt(h, v.key, low) != C.Some(v.ts)
    ensures VersionKey(v.key, v.ts) in dead
  {
    var rows := Rows(items);
    assert [] + HI_CHAR == HI_CHAR;
    SweptFits(h);
    ScanGood(h, [], [], items);
    SeenWhole(v);
    var j := RowOfVersion(h, [], HI_CHAR, items, v);
    ResolvedBefore(rows, j, low);
    if !Resolved(rows, j, v.key, low) {
      assert IsGood(h, rows, j);
      FirstRowVisible(h, rows, j, low);
    }
    assert Goes(rows, j, low);
    SweptHas(items, |items|, low, j);
  }

  lemma {:induction false} GarbageIsAll(h: History, items: seq<Pair>, low: nat, dead: set<Bytes>)
    requires Found(h, [], HI_CHAR, items) && dead == Swept(items, |items|, low) && AllSwept(h)
    ensures Remaining(h, dead) == Vacuumed(h, low)
  {
    forall v | v in h ensures VersionKey(v.key, v.ts) in dead <==> v !in Vacuumed(h, low) {
      if VersionKey(v.key, v.ts) in dead {
        DeadSuperseded(h, items, low, dead, v);
      } else if v !in Vacuumed(h, low) {
        SupersededGoes(h, items, low, dead, v);
      }
    }
  }

  ghost predicate SweepsAll(keys: set<Bytes>) {
    forall h, low: nat, items {:trigger Found(h, [], HI_CHAR, items), Swept(items, |items|, low)} ::
      Over(h, keys) && Found(h, [], HI_CHAR, items) ==> Remaining(h, Swept(items, |items|, low)) == Vacuumed(h, low)
  }

  /** Garbage collections drop all that may go, over all histories of a set of keys, just when the keys sort before U+10FFFF
      and none splits another. */
  lemma {:induction false} SweepsAllIff(keys: set<Bytes>)
    ensures SweepsAll(keys) <==> (forall u :: u in keys ==> SortsLow(u)) && (forall u, v :: u in keys && v in keys ==> !Splits(u, v))
  {
    if u :| u in keys && !SortsLow(u) {
      UnseenStays(keys, u, 2, 1);
    } else if u, v :| u in keys && v in keys && Splits(u, v) {
      SplitStays(keys, u, MAX_TS, v, 1, 1);
    } else {
      forall h, low: nat, items | Over(h, keys) && Found(h, [], HI_CHAR, items)
        ensures Remaining(h, Swept(items, |items|, low)) == Vacuumed(h, low)
      {
        GarbageIsAll(h, items, low, Swept(items, |items|, low));
      }
    }
  }

  lemma {:induction false} UnseenStays(keys: set<Bytes>, u: Bytes, s: nat, r: nat)
    requires u in keys && !SortsLow(u) && 1 <= r < s <= MAX_TS
    ensures !SweepsAll(keys)
  {
    var h: History := map[Version(u, s) := [1], Version(u, r) := [2]];
    var items: seq<Pair>, dead := [], Swept([], 0, s);
    SeenWhole(Version(u, s));
    SeenWhole(Version(u, r));
    NewestIs(h, u, s, s);
    assert Version(u, r) in Remaining(h, dead) && Version(u, r) !in Vacuumed(h, s);
    assert Over(h, keys) && Found(h, [], HI_CHAR, items) && dead == Swept(items, |items|, s);
  }

  lemma {:induction false} SplitStays(keys: set<Bytes>, u: Bytes, s: nat, v: Bytes, t: nat, r: nat)
    requires u in keys && v in keys && SortsLow(u) && Splits(u, v) && s == MAX_TS && 1 <= t <= MAX_TS && r == 1
    ensures !SweepsAll(keys)
  {
    var h, items := Sandwich(u, s, v, t, r), SandwichItems(u, s, v, t, r);
    var dead := Swept(items, |items|, s);
    assert u != v && [] + HI_CHAR == HI_CHAR;
    NoBoundsFit(u);
    Total([], u);
    SandwichPlaced([], u, s, v, t, r, []);
    SandwichFound([], u, s, v, t, r, HI_CHAR);
    NewestIs(h, u, s, s);
    NoneGoes(u, s, v, t, r);
    assert Version(u, r) in Remaining(h, dead) && Version(u, r) !in Vacuumed(h, s);
    assert Over(h, keys) && Found(h, [], HI_CHAR, items);
  }

  lemma {:induction false} NoneGoes(u: Bytes, s: nat, v: Bytes, t: nat, r: nat)
    requires u != v && s <= MAX_TS && t <= MAX_TS && r <= MAX_TS
    ensures Swept(SandwichItems(u, s, v, t, r), 3, s) == {}
  {
    var items := SandwichItems(u, s, v, t, r);
    SandwichRows(u, s, v, t, r);
    assert Swept(items, 1, s) == {} && Swept(items, 2, s) == {};
  }

  // ---- recovery ------------------------------------------------------------------------------------------------------

  /** The versions a pass over everything sees. */
  ghost function Seen(h: History): History { map v | v in h && SortsLow(v.key) :: h[v] }

  ghost predicate RecoversRight(keys: set<Bytes>) { forall h, m: nat :: Over(h, keys) && IsMaxTs(Seen(h), m) ==> IsMaxTs(h, m) }

  /** The newest timestamp is found again over all histories of a set of keys just when they all sort before U+10FFFF. */
  lemma {:induction false} RecoverRightIff(keys: set<Bytes>)
    ensures RecoversRight(keys) <==> forall u :: u in keys ==> SortsLow(u)
  {
    if u :| u in keys && !SortsLow(u) {
      var v := Version(u, 1);
      var h := Single(v, []);
      assert Over(h, keys) && IsMaxTs(Seen(h), 0) && v in h && !IsMaxTs(h, 0);
    } else {
      forall h, m: nat | Over(h, keys) && IsMaxTs(Seen(h), m) ensures IsMaxTs(h, m) {
        assert Seen(h) == h;
      }
    }
  }

  /** An input: the only version is of the key U+10FFFF, at 1. Recovery finds 0, so that the next commit takes 1 again. */
  lemma {:induction false} RecoverMisses(value: Bytes)
    ensures var h := Single(Version(HI_CHAR, 1), value); IsMaxTs(Seen(h), 0) && IsMaxTs(h, 1)
  {
    var h := Single(Version(HI_CHAR, 1), value);
    Irreflexive(HI_CHAR);
    assert Version(HI_CHAR, 1) in h;
  }

  lemma {:induction false} MaxOfRows(h: History, items: seq<Pair>, m: nat)
    requires Found(h, [], HI_CHAR, items)
    requires (forall j :: 0 <= j < |items| ==> Rows(items)[j].ts <= m) && (m > 0 ==> exists j :: 0 <= j < |items| && Rows(items)[j].ts == m)
    ensures IsMaxTs(Seen(h), m)
  {
    forall v | v in Seen(h) ensures v.ts <= m {
      SeenWhole(v);
      var i := RowOfVersion(h, [], HI_CHAR, items, v);
    }
    if m > 0 {
      var j :| 0 <= j < |items| && Rows(items)[j].ts == m;
      ItemIsRow(h, [], HI_CHAR, items, j);
      var v := Version(Rows(items)[j].key, m);
      SeenWhole(v);
      assert v in Seen(h);
    }
  }
}
