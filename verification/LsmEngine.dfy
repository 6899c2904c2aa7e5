/** The LSM engine: a write-ahead log, a MemTable and two levels of sorted tables that together stand for one plain
    map. Every operation is proved against that map. */
module LsmEngine {
  import opened KeyOrder
  import opened Wal
  import opened Recovery
  import opened SSTable
  import M = MemTable
  import Seqs
  import C = Commands

  const L0_COMPACTION_THRESHOLD: nat := 4

  type Runs = seq<seq<Pair>>

  /** A stack of sorted runs, the newest last, as one map. */
  ghost function Stack(runs: Runs): Mem {
    if runs == [] then map[] else Stack(runs[..|runs| - 1]) + MapOf(runs[|runs| - 1])
  }

  /** What a reader sees: tombstones hide. */
  ghost function Live(m: Mem): Mem {
    map k | k in m && m[k] != TOMBSTONE :: m[k]
  }

  ghost predicate HoldAll(hash: Hash, tables: seq<Table>, runs: Runs) {
    |tables| == |runs| && forall i :: 0 <= i < |tables| ==> Holds(hash, tables[i], runs[i])
  }

  /** What writing `value` under `key` does to the map; the tombstone itself is a deletion. */
  ghost function Written(m: Mem, key: Bytes, value: Bytes): Mem {
    if value == TOMBSTONE then m - {key} else m[key := value]
  }

  lemma {:induction false} LiveWritten(below: Mem, mem: Mem, key: Bytes, value: Bytes)
    ensures Live(below + mem[key := value]) == Written(Live(below + mem), key, value)
  {
    PutOver(below, mem, key, value);
    LiveUpdate(below + mem, key, value);
  }

  lemma {:induction false} PutOver(below: Mem, mem: Mem, key: Bytes, value: Bytes)
    ensures below + mem[key := value] == (below + mem)[key := value]
  {
  }

  lemma {:induction false} LiveUpdate(m: Mem, key: Bytes, value: Bytes)
    ensures Live(m[key := value]) == Written(Live(m), key, value)
  {
  }

  /** Dropping the tombstones of everything below changes nothing a reader sees. */
  lemma {:induction false} LiveBelow(below: Mem, mem: Mem)
    ensures Live(Live(below) + mem) == Live(below + mem)
  {
  }

  /** The newest run that has the key decides. */
  lemma {:induction false} NewestWins(runs: Runs, i: nat, key: Bytes)
    requires i <= |runs| && forall j :: i <= j < |runs| ==> key !in MapOf(runs[j])
    ensures key in Stack(runs) <==> key in Stack(runs[..i])
    ensures key in Stack(runs) ==> Stack(runs)[key] == Stack(runs[..i])[key]
    decreases |runs|
  {
    if i == |runs| {
      assert runs[..i] == runs;
    } else {
      var n := |runs| - 1;
      NewestWins(runs[..n], i, key);
      assert runs[..n][..i] == runs[..i];
    }
  }

  lemma {:induction false} FoundAt(runs: Runs, i: nat, key: Bytes)
    requires i < |runs| && key in MapOf(runs[i]) && forall j :: i < j < |runs| ==> key !in MapOf(runs[j])
    ensures key in Stack(runs) && Stack(runs)[key] == MapOf(runs[i])[key]
  {
    NewestWins(runs, i + 1, key);
    assert runs[..i + 1][..i] == runs[..i];
  }

  /** Look a key up in a level, newest table first. */
  method GetLevel(hash: Hash, tables: seq<Table>, key: Bytes, ghost runs: Runs) returns (r: C.Option<Bytes>)
    requires HoldAll(hash, tables, runs)
    ensures r == if key in Stack(runs) then C.Some(Stack(runs)[key]) else C.None
  {
    var i := |tables|;
    while i > 0
      invariant 0 <= i <= |tables|
      invariant forall j :: i <= j < |tables| ==> key !in MapOf(runs[j])
    {
      i := i - 1;
      r := Get(hash, tables[i], key, runs[i]);
      if r.Some? {
        FoundAt(runs, i, key);
        return;
      }
    }
    NewestWins(runs, 0, key);
    r := C.None;
  }

  /** The log lines a batch is made of take effect one after the other. */
  ghost function WrittenLine(m: Mem, line: Line): Mem {
    match line
    case Put(k, v) => Written(m, k, v)
    case Delete(k) => m - {k}
    case _ => m
  }

  ghost function WrittenAll(m: Mem, lines: seq<Line>): Mem {
    if lines == [] then m else WrittenLine(WrittenAll(m, lines[..|lines| - 1]), lines[|lines| - 1])
  }

  lemma {:induction false} LiveWrittenAll(below: Mem, mem: Mem, lines: seq<Line>)
    ensures Live(below + ApplyLines(mem, lines)) == WrittenAll(Live(below + mem), lines)
  {
    if lines != [] {
      var n := |lines| - 1;
      LiveWrittenAll(below, mem, lines[..n]);
      var now := ApplyLines(mem, lines[..n]);
      match lines[n]
      case Put(k, v) => LiveWritten(below, now, k, v);
      case Delete(k) => LiveWritten(below, now, k, TOMBSTONE);
      case _ =>
    }
  }

  lemma {:induction false} LinesInSnoc(rs: seq<Record>, r: Record)
    ensures LinesIn(rs + [r]) == LinesIn(rs) + [r.line]
  {
  }

  /** A line appended to a log that does not end inside a batch has its effect. */
  lemma {:induction false} SingleLogged(rs: seq<Record>, mem: Mem, r: Record)
    requires IsWrite(r.line)
    ensures Run(LinesIn(rs)) == Replay(mem, false, []) ==> Run(LinesIn(rs + [r])) == Replay(ApplyLine(mem, r.line), false, [])
  {
    LinesInSnoc(rs, r);
    RunSnoc(LinesIn(rs), r.line);
  }

  /** All lines of a batch in the log have their effect; some of them leave the log inside the batch. */
  lemma {:induction false} BatchLogged(done: seq<Line>, mem: Mem, lines: seq<Line>, n: nat)
    requires Run(done) == Replay(mem, false, []) && n <= |lines| + 2 && forall i :: 0 <= i < |lines| ==> IsWrite(lines[i])
    ensures n == |lines| + 2 ==> Run(done + LinesOf(Batch(lines))[..n]) == Replay(ApplyLines(mem, lines), false, [])
    ensures n == 0 ==> done + LinesOf(Batch(lines))[..n] == done
    ensures 0 < n < |lines| + 2 ==> Run(done + LinesOf(Batch(lines))[..n]).inBatch
  {
    if n == |lines| + 2 {
      Seqs.TakeAll(LinesOf(Batch(lines)));
      AfterBatch(done, lines);
    } else if n > 0 {
      PartOfBatch(done, lines, n);
      InsideBatch(done, lines, n - 1);
    }
  }

  lemma {:induction false} BatchEnds(lines: seq<Line>)
    ensures var all := LinesOf(Batch(lines)); |all| == |lines| + 2 && all[0] == Begin && all[|lines| + 1] == Commit
  {
  }

  lemma {:induction false} BatchLine(lines: seq<Line>, i: nat)
    requires i < |lines|
    ensures |LinesOf(Batch(lines))| == |lines| + 2 && LinesOf(Batch(lines))[i + 1] == lines[i]
  {
  }

  /** Keys and values fit the length fields of a table entry. */
  ghost predicate TableFits(m: Mem) { forall k :: k in m ==> Fits(Pair(k, m[k])) }

  lemma {:induction false} ItemsFit(items: seq<Pair>, m: Mem)
    requires SortedPairs(items) && MapOf(items) == m
    ensures AllFit(items) <==> TableFits(m)
    ensures items == [] <==> m == map[]
  {
    forall i | 0 <= i < |items| ensures items[i].key in m && m[items[i].key] == items[i].value { MapOfAt(items, i); }
    forall k | k in m && AllFit(items) ensures Fits(Pair(k, m[k])) {
      MapOfKeys(items, k);
      var i :| 0 <= i < |items| && items[i].key == k;
      MapOfAt(items, i);
    }
  }

  /** Every line of the batch fits a log frame, numbered from `n` on. */
  ghost predicate BatchFits(codec: Codec, n: nat, lines: seq<Line>) {
    Loggable(codec, Record(n, Begin)) && LinesFit(codec, n, lines) && Loggable(codec, Record(n + 1 + |lines|, Commit))
  }

  ghost predicate LinesFit(codec: Codec, n: nat, lines: seq<Line>) { forall i :: 0 <= i < |lines| ==> LineFits(codec, n, lines, i) }

  ghost predicate LineFits(codec: Codec, n: nat, lines: seq<Line>, i: nat)
    requires i < |lines|
  {
    Loggable(codec, Record(n + 1 + i, lines[i]))
  }

  lemma {:induction false} StackNext(runs: Runs, i: nat, acc: Mem)
    requires i < |runs|
    ensures acc + Stack(runs[..i + 1]) == (acc + Stack(runs[..i])) + MapOf(runs[i])
  {
    assert runs[..i + 1][..i] == runs[..i];
  }

  lemma {:induction false} Nothing(m: Mem)
    ensures m + map[] == m && map[] + m == m
  {
  }

  lemma {:induction false} Stacked(a: Mem, b: Mem, c: Mem)
    ensures a + (b + c) == a + b + c
  {
  }

  /** A MemTable written out as the newest run is still on top of everything below. */
  lemma {:induction false} StackFlushed(r1: Runs, r0: Runs, items: seq<Pair>, mem: Mem)
    requires MapOf(items) == mem
    ensures Stack(r1) + Stack(r0 + [items]) + map[] == Stack(r1) + Stack(r0) + mem
  {
    assert (r0 + [items])[..|r0|] == r0;
    Stacked(Stack(r1), Stack(r0), mem);
    Nothing(Stack(r1) + Stack(r0 + [items]));
  }

  /** One run without tombstones in place of everything below. */
  lemma {:induction false} StackCompacted(r1: Runs, r0: Runs, merged: seq<Pair>, mem: Mem)
    requires MapOf(merged) == Live(Stack(r1) + Stack(r0))
    ensures Live(Stack([merged]) + Stack([]) + mem) == Live(Stack(r1) + Stack(r0) + mem)
    ensures merged == [] ==> Live(Stack([]) + Stack([]) + mem) == Live(Stack(r1) + Stack(r0) + mem)
  {
    LiveBelow(Stack(r1) + Stack(r0), mem);
    assert [merged][..0] == [];
    Nothing(MapOf(merged));
    Nothing(map[]);
  }

  lemma {:induction false} HoldOneMore(hash: Hash, tables: seq<Table>, runs: Runs, t: Table, items: seq<Pair>)
    requires HoldAll(hash, tables, runs) && Holds(hash, t, items)
    ensures HoldAll(hash, tables + [t], runs + [items])
  {
  }

  /** The live entries of a map, sorted by key. */
  method LiveSorted(all: Mem) returns (merged: seq<Pair>)
    ensures SortedPairs(merged) && MapOf(merged) == Live(all)
  {
    var live := map k | k in all && all[k] != TOMBSTONE :: all[k];
    var ks := SortKeys(live.Keys);
    merged := M.PairsFor(live, ks);
    M.KeysCover(live, ks);
  }

  /** Overwrite `acc` with the entries of the tables, oldest first. */
  method Collect(hash: Hash, tables: seq<Table>, acc: Mem, ghost runs: Runs) returns (all: Mem)
    requires HoldAll(hash, tables, runs)
    ensures all == acc + Stack(runs)
  {
    all := acc;
    var i := 0;
    while i < |tables|
      invariant 0 <= i <= |tables| && all == acc + Stack(runs[..i])
    {
      var items := IterAll(hash, tables[i], runs[i]);
      all := Overwrite(all, items);
      StackNext(runs, i, acc);
      i := i + 1;
    }
    assert runs[..i] == runs;
  }

  method Overwrite(acc: Mem, items: seq<Pair>) returns (all: Mem)
    ensures all == acc + MapOf(items)
  {
    all := acc;
    var j := 0;
    while j < |items|
      invariant 0 <= j <= |items| && all == acc + MapOf(items[..j])
    {
      all := all[items[j].key := items[j].value];
      assert items[..j + 1][..j] == items[..j];
      j := j + 1;
    }
    assert items[..j] == items;
  }

  lemma {:induction false} StackFits(hash: Hash, tables: seq<Table>, runs: Runs)
    requires HoldAll(hash, tables, runs)
    ensures forall k :: k in Stack(runs) ==> Fits(Pair(k, Stack(runs)[k]))
  {
    if runs != [] {
      var n := |runs| - 1;
      StackFits(hash, tables[..n], runs[..n]);
      forall k | k in MapOf(runs[n]) ensures Fits(Pair(k, MapOf(runs[n])[k])) {
        MapOfKeys(runs[n], k);
        var i :| 0 <= i < |runs[n]| && runs[n][i].key == k;
        MapOfAt(runs[n], i);
      }
    }
  }

  lemma {:induction false} PairsFit(items: seq<Pair>, m: Mem)
    requires SortedPairs(items) && MapOf(items) == m && forall k :: k in m ==> Fits(Pair(k, m[k]))
    ensures AllFit(items)
  {
    forall i | 0 <= i < |items| ensures Fits(items[i]) { MapOfAt(items, i); }
  }

  // ---- scans --------------------------------------------------------------------------------------------------

  /** What a scan has seen: for each key a value and the priority of its source, where lower is newer. */
  type Seen = map<Bytes, (Bytes, nat)>

  function Values(seen: Seen): Mem { map k | k in seen :: seen[k].0 }

  /** Everything seen came from sources newer than `priority`. */
  ghost predicate Newer(seen: Seen, priority: nat) { forall k :: k in seen ==> seen[k].1 < priority }

  /** Add the entries of one source: a key keeps the value of its newest source. */
  method MergeInto(seen0: Seen, items: seq<Pair>, priority: nat) returns (seen: Seen)
    requires Newer(seen0, priority) && SortedPairs(items)
    ensures Values(seen) == MapOf(items) + Values(seen0) && Newer(seen, priority + 1)
  {
    seen := seen0;
    var i := 0;
    while i < |items|
      invariant 0 <= i <= |items| && Newer(seen, priority + 1)
      invariant Values(seen) == MapOf(items[..i]) + Values(seen0)
      invariant forall k :: k in seen0 ==> k in seen && seen[k] == seen0[k]
    {
      var p := items[i];
      SeenNext(items, i);
      SeenUpdate(seen, MapOf(items[..i]), seen0, p, priority);
      if p.key !in seen || priority < seen[p.key].1 {
        seen := seen[p.key := (p.value, priority)];
      }
      i := i + 1;
    }
    assert items[..i] == items;
  }

  lemma {:induction false} SeenUpdate(seen: Seen, m: Mem, seen0: Seen, p: Pair, priority: nat)
    requires Values(seen) == m + Values(seen0) && p.key !in m && Newer(seen0, priority)
    requires forall k :: k in seen0 ==> k in seen && seen[k] == seen0[k]
    ensures p.key in seen <==> p.key in seen0
    ensures m[p.key := p.value] + Values(seen0)
         == if p.key in seen then Values(seen) else Values(seen[p.key := (p.value, priority)])
  {
    assert p.key in seen <==> p.key in Values(seen);
    if p.key in seen0 {
      assert m[p.key := p.value] + Values(seen0) == m + Values(seen0);
    } else {
      assert m[p.key := p.value] + Values(seen0) == (m + Values(seen0))[p.key := p.value];
      assert Values(seen[p.key := (p.value, priority)]) == Values(seen)[p.key := p.value];
    }
  }

  lemma {:induction false} SeenNext(items: seq<Pair>, i: nat)
    requires SortedPairs(items) && i < |items|
    ensures items[i].key !in MapOf(items[..i]) && MapOf(items[..i + 1]) == MapOf(items[..i])[items[i].key := items[i].value]
  {
    assert items[..i + 1][..i] == items[..i];
    MapOfKeys(items[..i], items[i].key);
    Irreflexive(items[i].key);
    assert forall x :: 0 <= x < i ==> Lt(Keys(items)[x], Keys(items)[i]);
  }

  lemma {:induction false} RestrictedPlus(a: Mem, b: Mem, start: Bytes, end: Bytes)
    ensures M.Restricted(a + b, start, end) == M.Restricted(a, start, end) + M.Restricted(b, start, end)
  {
  }

  lemma {:induction false} RestrictedUpdate(m: Mem, k: Bytes, v: Bytes, start: Bytes, end: Bytes)
    ensures M.Restricted(m[k := v], start, end)
         == if Between(start, k, end) then M.Restricted(m, start, end)[k := v] else M.Restricted(m, start, end)
  {
  }

  lemma {:induction false} MapOfSnoc(items: seq<Pair>, p: Pair)
    ensures MapOf(items + [p]) == MapOf(items)[p.key := p.value]
  {
    assert (items + [p])[..|items|] == items;
  }

  lemma {:induction false} RestrictedMap(items: seq<Pair>, start: Bytes, end: Bytes)
    ensures MapOf(InRange(items, start, end)) == M.Restricted(MapOf(items), start, end)
  {
    if items != [] {
      var n := |items| - 1;
      RestrictedMap(items[..n], start, end);
      RestrictedUpdate(MapOf(items[..n]), items[n].key, items[n].value, start, end);
      var rest := InRange(items[..n], start, end);
      MapOfSnoc(rest, items[n]);
      assert rest + [] == rest;
    }
  }

  lemma {:induction false} InRangeSorted(items: seq<Pair>, start: Bytes, end: Bytes)
    requires SortedPairs(items)
    ensures SortedPairs(InRange(items, start, end))
    ensures forall p :: p in InRange(items, start, end) ==> p in items
  {
    if items != [] {
      var n := |items| - 1;
      assert SortedPairs(items[..n]);
      InRangeSorted(items[..n], start, end);
      var rest := InRange(items[..n], start, end);
      forall x | 0 <= x < |rest| ensures Lt(rest[x].key, items[n].key) {
        assert rest[x] in items[..n];
        var y :| 0 <= y < n && items[y] == rest[x];
        assert Lt(Keys(items)[y], Keys(items)[n]);
      }
      SortedSnoc(rest, items[n]);
    }
  }

  lemma {:induction false} LevelNext(runs: Runs, i: nat, start: Bytes, end: Bytes, seen: Mem)
    requires i < |runs| && SortedPairs(runs[i])
    ensures SortedPairs(InRange(runs[i], start, end))
    ensures M.Restricted(Stack(runs[..i + 1]), start, end) + seen
         == M.Restricted(Stack(runs[..i]), start, end) + (MapOf(InRange(runs[i], start, end)) + seen)
  {
    InRangeSorted(runs[i], start, end);
    RestrictedMap(runs[i], start, end);
    assert runs[..i + 1][..i] == runs[..i];
    RestrictedPlus(Stack(runs[..i]), MapOf(runs[i]), start, end);
    Stacked(M.Restricted(Stack(runs[..i]), start, end), MapOf(InRange(runs[i], start, end)), seen);
  }

  lemma {:induction false} RestrictedStack(r1: Mem, r0: Mem, mem: Mem, start: Bytes, end: Bytes)
    ensures Live(M.Restricted(r1, start, end) + (M.Restricted(r0, start, end) + M.Restricted(mem, start, end)))
         == M.Restricted(Live(r1 + r0 + mem), start, end)
  {
    RestrictedPlus(r1 + r0, mem, start, end);
    RestrictedPlus(r1, r0, start, end);
    Stacked(M.Restricted(r1, start, end), M.Restricted(r0, start, end), M.Restricted(mem, start, end));
    LiveRestricted(r1 + r0 + mem, start, end);
  }

  lemma {:induction false} LiveRestricted(m: Mem, start: Bytes, end: Bytes)
    ensures Live(M.Restricted(m, start, end)) == M.Restricted(Live(m), start, end)
  {
  }

  /** Add a level, newest table first. */
  method MergeLevel(hash: Hash, tables: seq<Table>, start: Bytes, end: Bytes, seen0: Seen, priority0: nat, ghost runs: Runs)
    returns (seen: Seen, priority: nat)
    requires HoldAll(hash, tables, runs) && Newer(seen0, priority0)
    ensures Values(seen) == M.Restricted(Stack(runs), start, end) + Values(seen0) && Newer(seen, priority)
  {
    seen, priority := seen0, priority0;
    var i := |tables|;
    ghost var stack := Stack(runs);
    assert runs[..i] == runs;
    while i > 0
      invariant 0 <= i <= |tables| && Newer(seen, priority)
      invariant M.Restricted(Stack(runs[..i]), start, end) + Values(seen) == M.Restricted(stack, start, end) + Values(seen0)
    {
      i := i - 1;
      var items := SSTable.Scan(hash, tables[i], start, end, runs[i]);
      LevelNext(runs, i, start, end, Values(seen));
      seen := MergeInto(seen, items, priority);
      priority := priority + 1;
    }
    assert runs[..0] == [];
    Nothing(Values(seen));
  }

  // ---- what a crash may leave ---------------------------------------------------------------------------------------

  ghost predicate AllOperations(ops: seq<Operation>) { forall i :: 0 <= i < |ops| ==> IsOperation(ops[i]) }

  /** The log holds the operations, and the MemTable what they come to. */
  ghost predicate Tracks(rs: seq<Record>, mem: Mem, ops: seq<Operation>) {
    AllOperations(ops) && LinesIn(rs) == Log(ops) && mem == PerformAll(ops)
  }

  /** The map is that of the tables and some first operations. */
  ghost predicate CanLeave(below: Mem, ops: seq<Operation>, m: Mem) {
    exists n: nat :: n <= |ops| && m == Live(below + PerformAll(ops[..n]))
  }

  /** A crash now leaves what one before might have left, or everything. */
  ghost predicate Leaves(below: Mem, ops: seq<Operation>, below0: Mem, ops0: seq<Operation>, all: Mem) {
    forall m :: CanLeave(below, ops, m) ==> CanLeave(below0, ops0, m) || m == all
  }

  lemma {:induction false} TracksNext(rs: seq<Record>, mem: Mem, ops: seq<Operation>, op: Operation, rs': seq<Record>)
    requires Tracks(rs, mem, ops) && IsOperation(op) && LinesIn(rs') == LinesIn(rs) + LinesOf(op)
    ensures Tracks(rs', Perform(mem, op), ops + [op])
  {
    assert (ops + [op])[..|ops|] == ops;
  }

  /** After an operation that was logged, perhaps with a flush, or one that was not. */
  lemma {:induction false} LeavesNext(below: Mem, ops: seq<Operation>, below0: Mem, ops0: seq<Operation>, op: Operation)
    requires ops == [] || (below == below0 && (ops == ops0 || ops == ops0 + [op]))
    ensures Leaves(below, ops, below0, ops0, Live(below + PerformAll(ops)))
  {
    forall m | CanLeave(below, ops, m) ensures CanLeave(below0, ops0, m) || m == Live(below + PerformAll(ops)) {
      var n: nat :| n <= |ops| && m == Live(below + PerformAll(ops[..n]));
      if n == |ops| {
        Seqs.TakeAll(ops);
      } else {
        assert ops[..n] == ops0[..n];
      }
    }
  }

  lemma {:induction false} CompactedLeaves(r1: Runs, r0: Runs, merged: seq<Pair>, ops: seq<Operation>)
    requires MapOf(merged) == Live(Stack(r1) + Stack(r0))
    ensures forall m :: CanLeave(Stack([merged]) + Stack([]), ops, m) <==> CanLeave(Stack(r1) + Stack(r0), ops, m)
    ensures merged == [] ==> forall m :: CanLeave(Stack([]) + Stack([]), ops, m) <==> CanLeave(Stack(r1) + Stack(r0), ops, m)
  {
    forall n: nat | n <= |ops|
      ensures Live(Stack([merged]) + Stack([]) + PerformAll(ops[..n])) == Live(Stack(r1) + Stack(r0) + PerformAll(ops[..n]))
      ensures merged == [] ==> Live(Stack([]) + Stack([]) + PerformAll(ops[..n])) == Live(Stack(r1) + Stack(r0) + PerformAll(ops[..n]))
    {
      StackCompacted(r1, r0, merged, PerformAll(ops[..n]));
    }
  }

  class LsmEngine {
    const hash: Hash
    const trailer: Trailer
    const mem: M.MemTable
    const wal: WriteAheadLog
    var l0: seq<Table>                 // newest last
    var l1: seq<Table>
    ghost var r0: Runs
    ghost var r1: Runs
    ghost var ops: seq<Operation>      // since the last flush

    /** The tables hold their runs. */
    ghost predicate Usable()
      reads this, mem, wal
    {
      mem.Valid() && wal.Valid() && HoldAll(hash, l0, r0) && HoldAll(hash, l1, r1)
    }

    /** Replaying the log would give the MemTable again, and the log does not end inside a batch. */
    ghost predicate Durable()
      reads this, mem, wal
    {
      wal.Clean() && Run(LinesIn(wal.records)) == Replay(mem.data, false, [])
    }

    /** The log holds just the operations since the last flush. */
    ghost predicate Tracked()
      reads this, mem, wal
    {
      wal.Clean() && Tracks(wal.records, mem.data, ops)
    }

    ghost function Below(): Mem
      reads this
    {
      Stack(r1) + Stack(r0)
    }

    /** The plain map the engine stands for. */
    ghost function Contents(): Mem
      reads this, mem
    {
      Live(Below() + mem.data)
    }

    /** Open the tables and the log file that an engine left behind, whatever state a crash left the file in, and replay
        what can be read of it. */
    constructor (hash: Hash, trailer: Trailer, codec: Codec, sizeLimit: int, walFile: Bytes, l0: seq<Table>, l1: seq<Table>,
                 ghost r0: Runs, ghost r1: Runs)
      requires Sound(codec) && HoldAll(hash, l0, r0) && HoldAll(hash, l1, r1)
      ensures Usable() && fresh(mem) && fresh(wal) && this.hash == hash && wal.codec == codec && wal.file == walFile
      ensures wal.records == Parse(codec, walFile) && IsNext(wal.records, wal.sequence)
      ensures Contents() == Live(Stack(r1) + Stack(r0) + Run(LinesIn(wal.records)).mem)
      ensures Durable() <==> wal.Clean() && !Run(LinesIn(wal.records)).inBatch
      ensures wal.Clean() && (exists o :: AllOperations(o) && LinesIn(wal.records) == Log(o)) ==> Tracked()
    {
      this.hash, this.trailer := hash, trailer;
      this.l0, this.l1, this.r0, this.r1, ops := l0, l1, r0, r1, [];
      mem := new M.MemTable(sizeLimit);
      wal := new WriteAheadLog(codec, walFile);
      new;
      var rs := wal.ReadAll();
      Recover(rs);
      BatchOnlyInside(LinesIn(rs));
      if o :| AllOperations(o) && LinesIn(rs) == Log(o) {
        ReplayAll(o);
        ops := o;
      }
    }

    /** Replay the log: a batch is applied only at its COMMIT. */
    method Recover(rs: seq<Record>)
      requires mem.Valid() && mem.data == map[]
      modifies mem`data, mem`sizeBytes
      ensures mem.Valid() && mem.data == Run(LinesIn(rs)).mem
    {
      var inBatch, batch: seq<Line> := false, [];
      var i := 0;
      while i < |rs|
        invariant 0 <= i <= |rs| && mem.Valid() && Run(LinesIn(rs)[..i]) == Replay(mem.data, inBatch, batch)
        invariant forall j :: 0 <= j < |batch| ==> IsWrite(batch[j])
      {
        var line := rs[i].line;
        assert LinesIn(rs)[..i + 1][..i] == LinesIn(rs)[..i];
        if line.Begin? {
          inBatch, batch := true, [];
        } else if line.Commit? {
          ApplyBatch(batch);
          inBatch, batch := false, [];
        } else if inBatch {
          batch := batch + [line];
        } else {
          ApplyWrite(line);
        }
        i := i + 1;
      }
      assert LinesIn(rs)[..i] == LinesIn(rs);
    }

    method ApplyWrite(line: Line)
      requires mem.Valid() && IsWrite(line)
      modifies mem`data, mem`sizeBytes
      ensures mem.Valid() && mem.data == ApplyLine(old(mem.data), line)
    {
      match line
      case Put(k, v) => mem.Set(k, v);
      case Delete(k) => mem.Delete(k);
    }

    method Get(key: Bytes) returns (r: C.Option<Bytes>)
      requires Usable()
      ensures r == if key in Contents() then C.Some(Contents()[key]) else C.None
    {
      r := mem.Get(key);
      if r.None? {
        r := GetLevel(hash, l0, key, r0);
      }
      if r.None? {
        r := GetLevel(hash, l1, key, r1);
      }
      if r == C.Some(TOMBSTONE) {
        r := C.None;
      }
    }

    /** Log one line, then apply it to the MemTable; a line too long for the log makes this fail. */
    method LogAndApply(line: Line) returns (ok: bool)
      requires Usable() && IsWrite(line)
      modifies `ops, mem`data, mem`sizeBytes, wal
      ensures Usable() && (ok <==> Loggable(wal.codec, Record(old(wal.sequence), line)))
      ensures mem.data == (if ok then ApplyLine(old(mem.data), line) else old(mem.data)) && (old(Durable()) ==> Durable())
      ensures wal.sequence == old(wal.sequence) + 1
      ensures ops == (if ok then old(ops) + [Single(line)] else old(ops)) && (old(Tracked()) ==> Tracked())
    {
      ghost var rs, was, tracked := wal.records, mem.data, Tracked();
      SingleLogged(rs, was, Record(wal.sequence, line));
      LinesInSnoc(rs, Record(wal.sequence, line));
      ok := wal.Append(line);
      if ok {
        ApplyWrite(line);
        if tracked { TracksNext(rs, was, ops, Single(line), wal.records); }
        ops := ops + [Single(line)];
      }
    }

    method Set(key: Bytes, value: Bytes) returns (ok: bool)
      requires Usable()
      modifies this, mem, wal
      ensures Usable() && (ok <==> Loggable(wal.codec, Record(old(wal.sequence), Put(key, value)))) && (old(Durable()) ==> Durable())
      ensures Contents() == (if ok then Written(old(Contents()), key, value) else old(Contents())) && wal.sequence == old(wal.sequence) + 1
      ensures old(Tracked()) ==> Tracked() && Leaves(Below(), ops, old(Below()), old(ops), Contents())
    {
      LiveWritten(Below(), mem.data, key, value);
      ok := LogAndApply(Put(key, value));
      if ok {
        ghost var _ := FlushMemtable();
      }
      LeavesNext(Below(), ops, old(Below()), old(ops), Single(Put(key, value)));
    }

    method Delete(key: Bytes) returns (ok: bool)
      requires Usable()
      modifies this, mem, wal
      ensures Usable() && (ok <==> Loggable(wal.codec, Record(old(wal.sequence), Line.Delete(key)))) && (old(Durable()) ==> Durable())
      ensures Contents() == (if ok then old(Contents()) - {key} else old(Contents())) && wal.sequence == old(wal.sequence) + 1
      ensures old(Tracked()) ==> Tracked() && Leaves(Below(), ops, old(Below()), old(ops), Contents())
    {
      LiveWritten(Below(), mem.data, key, TOMBSTONE);
      ok := LogAndApply(Line.Delete(key));
      if ok {
        ghost var _ := FlushMemtable();
      }
      LeavesNext(Below(), ops, old(Below()), old(ops), Single(Line.Delete(key)));
    }

    /** Log the whole batch between BEGIN and COMMIT, then apply it. A line too long for the log makes this fail; the log
        then ends inside a batch, unless it was the BEGIN that did not fit. */
    method WriteBatch(lines: seq<Line>) returns (ok: bool)
      requires Usable() && forall i :: 0 <= i < |lines| ==> IsWrite(lines[i])
      modifies this, mem, wal
      ensures Usable() && (ok <==> BatchFits(wal.codec, old(wal.sequence), lines))
      ensures Contents() == (if ok then WrittenAll(old(Contents()), lines) else old(Contents())) && (ok ==> wal.sequence == old(wal.sequence) + |lines| + 2)
      ensures old(Durable()) ==> (Durable() <==> ok || !Loggable(wal.codec, Record(old(wal.sequence), Begin)))
      ensures old(Tracked()) && ok ==> Tracked() && Leaves(Below(), ops, old(Below()), old(ops), Contents())
    {
      LiveWrittenAll(Below(), mem.data, lines);
      ok := LogAndApplyBatch(lines);
      if !ok {
        return;
      }
      ghost var _ := FlushMemtable();
      LeavesNext(Below(), ops, old(Below()), old(ops), Batch(lines));
    }

    method LogAndApplyBatch(lines: seq<Line>) returns (ok: bool)
      requires Usable() && forall i :: 0 <= i < |lines| ==> IsWrite(lines[i])
      modifies `ops, mem`data, mem`sizeBytes, wal
      ensures Usable() && (ok <==> BatchFits(wal.codec, old(wal.sequence), lines))
      ensures mem.data == (if ok then ApplyLines(old(mem.data), lines) else old(mem.data)) && (ok ==> wal.sequence == old(wal.sequence) + |lines| + 2)
      ensures old(Durable()) ==> (Durable() <==> ok || !Loggable(wal.codec, Record(old(wal.sequence), Begin)))
      ensures ops == (if ok then old(ops) + [Batch(lines)] else old(ops)) && (old(Tracked()) && ok ==> Tracked())
    {
      ghost var rs, was, durable, tracked := wal.records, mem.data, Durable(), Tracked();
      ghost var n;
      ok, n := LogBatch(lines);
      if durable {
        BatchLogged(LinesIn(rs), was, lines, n);
      }
      if !ok {
        return;
      }
      ApplyBatch(lines);
      Seqs.TakeAll(LinesOf(Batch(lines)));
      if tracked { TracksNext(rs, was, ops, Batch(lines), wal.records); }
      ops := ops + [Batch(lines)];
    }

    /** Log BEGIN, the lines and COMMIT, up to the first that does not fit; `n` of them got there. */
    method LogBatch(lines: seq<Line>) returns (ok: bool, ghost n: nat)
      requires wal.Valid()
      modifies wal
      ensures wal.Valid() && (old(wal.Clean()) ==> wal.Clean()) && (ok <==> BatchFits(wal.codec, old(wal.sequence), lines))
      ensures n <= |lines| + 2 && (ok <==> n == |lines| + 2) && (n == 0 <==> !Loggable(wal.codec, Record(old(wal.sequence), Begin)))
      ensures LinesIn(wal.records) == LinesIn(old(wal.records)) + LinesOf(Batch(lines))[..n] && (ok ==> wal.sequence == old(wal.sequence) + n)
    {
      ghost var all := LinesOf(Batch(lines));
      BatchEnds(lines);
      n := 0;
      Seqs.Nothing(LinesIn(wal.records));
      ok := LogNext(Begin, old(wal.records), all, 0);
      if ok {
        ok, n := LogLines(lines, old(wal.records), old(wal.sequence));
      }
      if ok {
        ok := LogNext(Commit, old(wal.records), all, n);
        n := if ok then n + 1 else n;
      }
    }

    method LogLines(lines: seq<Line>, ghost was: seq<Record>, ghost first: nat) returns (ok: bool, ghost n: nat)
      requires wal.Valid() && wal.sequence == first + 1 && LinesIn(wal.records) == LinesIn(was) + LinesOf(Batch(lines))[..1]
      modifies wal
      ensures wal.Valid() && (old(wal.Clean()) ==> wal.Clean()) && (ok <==> LinesFit(wal.codec, first, lines))
      ensures 1 <= n <= |lines| + 1 && (ok ==> n == |lines| + 1 && wal.sequence == first + n)
      ensures LinesIn(wal.records) == LinesIn(was) + LinesOf(Batch(lines))[..n]
    {
      ghost var all := LinesOf(Batch(lines));
      var i := 0;
      n := 1;
      while i < |lines|
        invariant 0 <= i <= |lines| && n == i + 1 && wal.Valid() && wal.sequence == first + n && (old(wal.Clean()) ==> wal.Clean())
        invariant LinesIn(wal.records) == LinesIn(was) + all[..n]
        invariant forall j :: 0 <= j < i ==> LineFits(wal.codec, first, lines, j)
      {
        BatchLine(lines, i);
        ok := LogNext(lines[i], was, all, n);
        assert ok <==> LineFits(wal.codec, first, lines, i);
        if !ok {
          return;
        }
        i, n := i + 1, n + 1;
      }
      ok := true;
    }

    /** Log the next line of those to come. */
    method LogNext(line: Line, ghost was: seq<Record>, ghost all: seq<Line>, ghost n: nat) returns (ok: bool)
      requires wal.Valid() && n < |all| && line == all[n] && LinesIn(wal.records) == LinesIn(was) + all[..n]
      modifies wal
      ensures wal.Valid() && (old(wal.Clean()) ==> wal.Clean()) && wal.sequence == old(wal.sequence) + 1
      ensures (ok <==> Loggable(wal.codec, Record(old(wal.sequence), line))) && LinesIn(wal.records) == LinesIn(was) + all[..if ok then n + 1 else n]
    {
      LinesInSnoc(wal.records, Record(wal.sequence, line));
      Seqs.TakeSnoc(all, n);
      Seqs.Assoc(LinesIn(was), all[..n], [line]);
      ok := wal.Append(line);
    }

    method ApplyBatch(lines: seq<Line>)
      requires mem.Valid() && forall i :: 0 <= i < |lines| ==> IsWrite(lines[i])
      modifies mem`data, mem`sizeBytes
      ensures mem.Valid() && mem.data == ApplyLines(old(mem.data), lines)
    {
      var i := 0;
      while i < |lines|
        invariant 0 <= i <= |lines| && mem.Valid() && mem.data == ApplyLines(old(mem.data), lines[..i])
      {
        ApplyWrite(lines[i]);
        assert lines[..i + 1][..i] == lines[..i];
        i := i + 1;
      }
      assert lines[..i] == lines;
    }

    /** Write the MemTable out as the newest level-0 table and start an empty log, once it is large enough.
        A key too long for a table makes the writer fail, and nothing changes. Afterwards the log is empty, whatever
        was in it before. */
    method FlushMemtable() returns (ghost flushed: bool)
      requires Usable()
      modifies this, mem, wal
      ensures Usable() && Contents() == old(Contents()) && (old(Durable()) ==> Durable()) && (flushed ==> Durable())
      ensures wal.sequence == old(wal.sequence) && (old(Tracked()) || flushed ==> Tracked())
      ensures if flushed then ops == [] else ops == old(ops) && Below() == old(Below())
      ensures flushed <==> old(mem.sizeBytes) >= old(mem.sizeLimit) && old(mem.data) != map[] && TableFits(old(mem.data))
    {
      flushed := false;
      if mem.sizeBytes < mem.sizeLimit {
        return;
      }
      var items := mem.ItemsSorted();
      if items == [] {
        return;
      }
      var t := Write(hash, trailer, items);
      ItemsFit(items, mem.data);
      if t.None? {
        return;
      }
      AddTable(t.value, items);
      flushed := true;
    }

    /** The table takes the place of the MemTable and the log; when there are enough tables they are merged. */
    method AddTable(t: Table, ghost items: seq<Pair>)
      requires Usable() && Holds(hash, t, items) && MapOf(items) == mem.data
      modifies `l0, `r0, `l1, `r1, `ops, mem`data, mem`sizeBytes, wal`file, wal`records
      ensures Usable() && Durable() && Contents() == old(Contents()) && Tracked() && ops == []
    {
      ReplaceByTable(t, items);
      if |l0| >= L0_COMPACTION_THRESHOLD {
        CompactL0ToL1();
      }
    }

    method ReplaceByTable(t: Table, ghost items: seq<Pair>)
      requires Usable() && Holds(hash, t, items) && MapOf(items) == mem.data
      modifies `l0, `r0, `ops, mem`data, mem`sizeBytes, wal`file, wal`records
      ensures Usable() && Durable() && Contents() == old(Contents()) && Tracked() && ops == []
    {
      StackFlushed(r1, r0, items, mem.data);
      HoldOneMore(hash, l0, r0, t, items);
      l0, r0 := l0 + [t], r0 + [items];
      mem.Clear();
      wal.Truncate();
      ops := [];
    }

    /** Flush now, by lowering the limit for good. What the tables can hold is durable then, whatever state the log was in. */
    method Flush()
      requires Usable()
      modifies this, mem, wal
      ensures Usable() && Contents() == old(Contents()) && (old(Durable()) ==> Durable())
      ensures old(mem.data) != map[] && TableFits(old(mem.data)) ==> Durable()
      ensures old(Tracked()) ==> Tracked() && Leaves(Below(), ops, old(Below()), old(ops), Contents())
    {
      if |mem.data| > 0 {
        mem.sizeLimit := 0;
        ghost var _ := FlushMemtable();
      }
      LeavesNext(Below(), ops, old(Below()), old(ops), Batch([]));
    }

    /** Merge all tables into one level-1 table, without the tombstones. */
    method CompactL0ToL1()
      requires Usable()
      modifies `l0, `l1, `r0, `r1
      ensures Usable() && Contents() == old(Contents())
      ensures forall m :: CanLeave(Below(), ops, m) <==> CanLeave(old(Below()), ops, m)
    {
      if l0 == [] {
        return;
      }
      var t, merged := MergeTables();
      StackCompacted(r1, r0, merged, mem.data);
      CompactedLeaves(r1, r0, merged, ops);
      if t.Some? {
        l0, r0, l1, r1 := [], [], [t.value], [merged];
      } else {
        l0, r0, l1, r1 := [], [], [], [];
      }
    }

    /** The live entries of all tables, the newest for each key, as one table; none if nothing is live. */
    method MergeTables() returns (t: C.Option<Table>, ghost merged: seq<Pair>)
      requires Usable()
      ensures MapOf(merged) == Live(Stack(r1) + Stack(r0)) && (t.None? <==> merged == [])
      ensures t.Some? ==> Holds(hash, t.value, merged)
    {
      var all := Collect(hash, l1, map[], r1);
      Nothing(Stack(r1));
      all := Collect(hash, l0, all, r0);
      var live := LiveSorted(all);
      merged := live;
      StackFits(hash, l0, r0);
      StackFits(hash, l1, r1);
      PairsFit(live, Live(all));
      t := C.None;
      if live != [] {
        t := Write(hash, trailer, live);
      }
    }

    /** All live entries with start <= key <= end, in order, each key's newest value. */
    method Scan(start: Bytes, end: Bytes) returns (result: seq<Pair>)
      requires Usable()
      ensures SortedPairs(result) && MapOf(result) == M.Restricted(Contents(), start, end)
    {
      var items := mem.Scan(start, end);
      var seen := MergeInto(map[], items, 0);
      var priority := 1;
      Nothing(MapOf(items));
      seen, priority := MergeLevel(hash, l0, start, end, seen, priority, r0);
      seen, priority := MergeLevel(hash, l1, start, end, seen, priority, r1);
      result := LiveSorted(Values(seen));
      RestrictedStack(Stack(r1), Stack(r0), mem.data, start, end);
    }

    /** A restart: a new engine over the files of an old one stands for the same map, if the log was sound. */
    static method Restart(e: LsmEngine) returns (e2: LsmEngine)
      requires e.Usable()
      ensures fresh(e2) && e2.Usable() && (e.Durable() ==> e2.Durable() && e2.Contents() == e.Contents())
    {
      e2 := new LsmEngine(e.hash, e.trailer, e.wal.codec, e.mem.sizeLimit, e.wal.file, e.l0, e.l1, e.r0, e.r1);
      if e.Durable() {
        ParseFrames(e.wal.codec, e.wal.records);
      }
    }

    /** A crash that leaves any first part of the log file: the new engine stands for the tables and some first operations
        since the last flush, each of them whole. */
    static method CrashAndRestart(e: LsmEngine, cut: nat) returns (e2: LsmEngine, ghost n: nat)
      requires e.Usable() && e.Tracked() && cut <= |e.wal.file|
      ensures fresh(e2) && e2.Usable() && n <= |e.ops| && e2.Contents() == Live(e.Below() + PerformAll(e.ops[..n]))
      ensures CanLeave(e.Below(), e.ops, e2.Contents())
    {
      n := TornRecovery(e.wal.codec, e.ops, e.wal.records, cut);
      e2 := new LsmEngine(e.hash, e.trailer, e.wal.codec, e.mem.sizeLimit, e.wal.file[..cut], e.l0, e.l1, e.r0, e.r1);
    }
  }
}
