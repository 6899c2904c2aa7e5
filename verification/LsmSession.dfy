/** The engine in use, over a payload format simple enough to write out: what a session writes it reads, also after a
    restart; and after a crash, a first part of it. */
module LsmSession {
  import opened KeyOrder
  import opened Wal
  import L = LsmEngine
  import opened Recovery
  import Seqs
  import C = Commands

  // ---- a payload format ---------------------------------------------------------------------------------------------

  function Unary(n: nat): (b: Bytes)
    ensures |b| == n + 1
  {
    if n == 0 then [0] else [1] + Unary(n - 1)
  }

  function ReadUnary(b: Bytes): C.Option<(nat, Bytes)> {
    if b == [] || b[0] > 1 then C.None
    else if b[0] == 0 then C.Some((0, b[1..]))
    else
      var r := ReadUnary(b[1..]);
      if r.None? then C.None else C.Some((r.value.0 + 1, r.value.1))
  }

  lemma {:induction false} UnaryBack(n: nat, rest: Bytes)
    ensures ReadUnary(Unary(n) + rest) == C.Some((n, rest))
  {
    Seqs.Tail(Unary(n), rest);
    if n == 0 {
      Seqs.Nothing(rest);
    } else {
      assert Unary(n)[1..] == Unary(n - 1);
      UnaryBack(n - 1, rest);
    }
  }

  function EncodeLine(line: Line): Bytes {
    match line
    case Put(k, v) => [0] + (Unary(|k|) + (k + v))
    case Delete(k) => [1] + k
    case Begin => [2]
    case Commit => [3]
  }

  function DecodeLine(b: Bytes): C.Option<Line> {
    if b == [] then C.None
    else if b[0] == 0 then
      var n := ReadUnary(b[1..]);
      if n.None? || n.value.0 > |n.value.1| then C.None else C.Some(Put(n.value.1[..n.value.0], n.value.1[n.value.0..]))
    else if b[0] == 1 then C.Some(Delete(b[1..]))
    else if b[0] == 2 then C.Some(Begin)
    else C.Some(Commit)
  }

  lemma {:induction false} LineBack(line: Line)
    ensures DecodeLine(EncodeLine(line)) == C.Some(line)
  {
    match line
    case Put(k, v) =>
      assert EncodeLine(line)[1..] == Unary(|k|) + (k + v);
      UnaryBack(|k|, k + v);
      assert (k + v)[..|k|] == k && (k + v)[|k|..] == v;
    case Delete(k) => assert EncodeLine(line)[1..] == k;
    case _ =>
  }

  function EncodeRecord(r: Record): Bytes { Unary(r.sequence) + EncodeLine(r.line) }

  function DecodeRecord(b: Bytes): C.Option<Record> {
    var n := ReadUnary(b);
    if n.None? then C.None
    else
      var line := DecodeLine(n.value.1);
      if line.None? then C.None else C.Some(Record(n.value.0, line.value))
  }

  const codec: Codec := Codec(EncodeRecord, DecodeRecord, (b: Bytes) => 0)

  lemma {:induction false} CodecSound()
    ensures Sound(codec)
  {
    forall r: Record ensures DecodeRecord(EncodeRecord(r)) == C.Some(r) {
      UnaryBack(r.sequence, EncodeLine(r.line));
      LineBack(r.line);
    }
  }

  // ---- a session ------------------------------------------------------------------------------------------------------

  method Open() returns (e: L.LsmEngine)
    ensures fresh(e) && fresh(e.mem) && fresh(e.wal) && Ready(e, map[], 0, [map[]])
  {
    CodecSound();
    e := new L.LsmEngine((k, s) => s, (m, b) => [], codec, 1000, [], [], [], [], []);
    assert Parse(codec, []) == [];
    assert Frames(codec, []) == [];
    assert L.AllOperations([]) && Log([]) == [];
    LinesForAll(e.ops);
  }

  predicate Short(b: Bytes) { |b| < 1_000_000 && b != TOMBSTONE }

  /** Early records of short keys and values fit a log frame. */
  lemma {:induction false} ShortFits(n: nat, line: Line)
    requires n < 1000 && (line.Put? ==> Short(line.key) && Short(line.value)) && (line.Delete? ==> Short(line.key))
    ensures Loggable(codec, Record(n, line))
  {
    assert |EncodeRecord(Record(n, line))| <= n + 3 + (if line.Put? then 2 * |line.key| + |line.value| else if line.Delete? then |line.key| else 0);
  }

  lemma {:induction false} PairFits(n: nat, a: Line, b: Line)
    requires n + 3 < 1000 && a.Put? && b.Put? && Short(a.key) && Short(a.value) && Short(b.key) && Short(b.value)
    ensures L.BatchFits(codec, n, [a, b])
  {
    ShortFits(n, Begin);
    ShortFits(n + 1, a);
    ShortFits(n + 2, b);
    ShortFits(n + 3, Commit);
    assert L.LineFits(codec, n, [a, b], 0) && L.LineFits(codec, n, [a, b], 1);
  }

  lemma {:induction false} PairWritten(m: map<Bytes, Bytes>, a: Line, b: Line)
    requires a.Put? && b.Put? && Short(a.value) && Short(b.value)
    ensures L.WrittenAll(m, [a, b]) == m[a.key := a.value][b.key := b.value]
  {
    var lines: seq<Line> := [a, b];
    assert lines[..1] == [a] && lines[..1][..0] == [];
    assert L.WrittenAll(m, lines[..1]) == L.WrittenLine(m, a);
  }

  /** The engine holds `data`, and a crash leaves one of the maps in `hist`. */
  ghost predicate Ready(e: L.LsmEngine, data: map<Bytes, Bytes>, n: nat, hist: seq<map<Bytes, Bytes>>)
    reads e, e.mem, e.wal
  {
    && e.Usable() && e.Durable() && e.Contents() == data && e.wal.codec == codec && e.wal.sequence == n
    && e.Tracked() && LeavesOne(e.Below(), e.ops, hist)
  }

  ghost predicate LeavesOne(below: Mem, ops: seq<Operation>, hist: seq<map<Bytes, Bytes>>) {
    forall m :: L.CanLeave(below, ops, m) ==> m in hist
  }

  lemma {:induction false} OneMore(below: Mem, ops: seq<Operation>, below0: Mem, ops0: seq<Operation>, all: map<Bytes, Bytes>, hist: seq<map<Bytes, Bytes>>)
    requires LeavesOne(below0, ops0, hist) && L.Leaves(below, ops, below0, ops0, all)
    ensures LeavesOne(below, ops, hist + [all])
  {
  }

  /** Every operation has a line in the log. */
  lemma {:induction false} LinesForAll(ops: seq<Operation>)
    ensures |Log(ops)| >= |ops|
  {
    if ops != [] { LinesForAll(ops[..|ops| - 1]); }
  }

  method WriteOne(e: L.LsmEngine, k: Bytes, v: Bytes, ghost data: map<Bytes, Bytes>, ghost n: nat, ghost hist: seq<map<Bytes, Bytes>>)
    requires Ready(e, data, n, hist) && n < 1000 && Short(k) && Short(v)
    modifies e, e.mem, e.wal
    ensures Ready(e, data[k := v], n + 1, hist + [data[k := v]])
  {
    ghost var below, ops := e.Below(), e.ops;
    ShortFits(n, Put(k, v));
    var ok := e.Set(k, v);
    OneMore(e.Below(), e.ops, below, ops, data[k := v], hist);
  }

  method WriteTwo(e: L.LsmEngine, k: Bytes, v: Bytes, l: Bytes, w: Bytes, ghost data: map<Bytes, Bytes>, ghost n: nat, ghost hist: seq<map<Bytes, Bytes>>)
    requires Ready(e, data, n, hist) && n + 3 < 1000 && Short(k) && Short(v) && Short(l) && Short(w)
    modifies e, e.mem, e.wal
    ensures Ready(e, data[k := v][l := w], n + 4, hist + [data[k := v][l := w]])
  {
    ghost var below, ops := e.Below(), e.ops;
    PairFits(n, Put(k, v), Put(l, w));
    PairWritten(data, Put(k, v), Put(l, w));
    var ok := e.WriteBatch([Put(k, v), Put(l, w)]);
    OneMore(e.Below(), e.ops, below, ops, data[k := v][l := w], hist);
  }

  method Erase(e: L.LsmEngine, k: Bytes, ghost data: map<Bytes, Bytes>, ghost n: nat, ghost hist: seq<map<Bytes, Bytes>>)
    requires Ready(e, data, n, hist) && n < 1000 && Short(k)
    modifies e, e.mem, e.wal
    ensures Ready(e, data - {k}, n + 1, hist + [data - {k}])
  {
    ghost var below, ops := e.Below(), e.ops;
    ShortFits(n, Delete(k));
    var ok := e.Delete(k);
    OneMore(e.Below(), e.ops, below, ops, data - {k}, hist);
  }

  ghost function Under(data: map<Bytes, Bytes>, k: Bytes): C.Option<Bytes> { if k in data then C.Some(data[k]) else C.None }

  method ReadAfterRestart(e: L.LsmEngine, k: Bytes, l: Bytes, ghost data: map<Bytes, Bytes>, ghost n: nat, ghost hist: seq<map<Bytes, Bytes>>)
    returns (b: C.Option<Bytes>, c: C.Option<Bytes>)
    requires Ready(e, data, n, hist)
    ensures b == Under(data, k) && c == Under(data, l)
  {
    var e2 := L.LsmEngine.Restart(e);
    b := e2.Get(k);
    c := e2.Get(l);
  }

  method ReadAfterCrash(e: L.LsmEngine, cut: nat, k: Bytes, l: Bytes, ghost data: map<Bytes, Bytes>, ghost n: nat, ghost hist: seq<map<Bytes, Bytes>>)
    returns (b: C.Option<Bytes>, c: C.Option<Bytes>, ghost i: nat)
    requires Ready(e, data, n, hist) && cut <= |e.wal.file|
    ensures i < |hist| && b == Under(hist[i], k) && c == Under(hist[i], l)
  {
    ghost var m;
    var e2;
    e2, m := L.LsmEngine.CrashAndRestart(e, cut);
    b := e2.Get(k);
    c := e2.Get(l);
    i :| 0 <= i < |hist| && hist[i] == e2.Contents();
  }

  ghost function Twice(d: map<Bytes, Bytes>, k: Bytes, v: Bytes, l: Bytes, w: Bytes): map<Bytes, Bytes> { d[k := v][l := w] }

  /** What the session below has written after each of its operations. */
  ghost function Stages(d: map<Bytes, Bytes>, k: Bytes, u: Bytes, v: Bytes, l: Bytes, w: Bytes): seq<map<Bytes, Bytes>> {
    [d] + [d[k := u]] + [Twice(d[k := u], k, v, l, w)] + [Twice(d[k := u], k, v, l, w) - {l}]
  }

  /** A write, a batch that overwrites it and adds a key, and the deletion of that key. */
  method WriteAll(e: L.LsmEngine, k: Bytes, u: Bytes, v: Bytes, l: Bytes, w: Bytes, ghost d: map<Bytes, Bytes>)
    requires Ready(e, d, 0, [d]) && Short(k) && Short(u) && Short(v) && Short(l) && Short(w)
    modifies e, e.mem, e.wal
    ensures Ready(e, Twice(d[k := u], k, v, l, w) - {l}, 6, Stages(d, k, u, v, l, w))
  {
    ghost var d1, d2 := d[k := u], Twice(d[k := u], k, v, l, w);
    WriteOne(e, k, u, d, 0, [d]);
    WriteTwo(e, k, v, l, w, d1, 1, [d] + [d1]);
    Erase(e, l, d2, 5, [d] + [d1] + [d2]);
  }

  /** The reads after a restart see all of it. */
  method Session(k: Bytes, u: Bytes, v: Bytes, l: Bytes, w: Bytes) returns (b: C.Option<Bytes>, c: C.Option<Bytes>)
    requires k != l && Short(k) && Short(u) && Short(v) && Short(l) && Short(w)
    ensures b == C.Some(v) && c == C.None
  {
    var e := Open();
    ghost var d: map<Bytes, Bytes> := map[];
    WriteAll(e, k, u, v, l, w, d);
    b, c := ReadAfterRestart(e, k, l, Twice(d[k := u], k, v, l, w) - {l}, 6, Stages(d, k, u, v, l, w));
  }

  /** After a crash that leaves any first part of the log they see a first part of it, and never half of the batch. */
  method CrashSession(k: Bytes, u: Bytes, v: Bytes, l: Bytes, w: Bytes, at: nat) returns (b: C.Option<Bytes>, c: C.Option<Bytes>)
    requires k != l && Short(k) && Short(u) && Short(v) && Short(l) && Short(w)
    ensures (b == C.None && c == C.None) || (b == C.Some(u) && c == C.None) || (b == C.Some(v) && c == C.Some(w)) || (b == C.Some(v) && c == C.None)
  {
    var e := Open();
    ghost var d: map<Bytes, Bytes> := map[];
    WriteAll(e, k, u, v, l, w, d);
    var cut := if at <= |e.wal.file| then at else |e.wal.file|;
    ghost var i;
    b, c, i := ReadAfterCrash(e, cut, k, l, Twice(d[k := u], k, v, l, w) - {l}, 6, Stages(d, k, u, v, l, w));
    StagesShow(k, u, v, l, w, i);
  }

  lemma {:induction false} StagesShow(k: Bytes, u: Bytes, v: Bytes, l: Bytes, w: Bytes, i: nat)
    requires k != l && i < 4
    ensures var m := Stages(map[], k, u, v, l, w)[i];
            && Under(m, k) == (if i == 0 then C.None else if i == 1 then C.Some(u) else C.Some(v))
            && Under(m, l) == if i == 2 then C.Some(w) else C.None
  {
  }
}
