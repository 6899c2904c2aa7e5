/** Replaying the write-ahead log into an empty MemTable: a batch takes effect at its COMMIT, all of it or none. */
module Recovery {
  import opened KeyOrder
  import opened Seqs
  import opened Wal

  const TOMBSTONE: Bytes := [95, 95, 68, 69, 76, 69, 84, 69, 68, 95, 95]   // "__DELETED__"

  type Mem = map<Bytes, Bytes>

  predicate IsWrite(line: Line) { line.Put? || line.Delete? }

  function ApplyLine(mem: Mem, line: Line): Mem {
    match line
    case Put(k, v) => mem[k := v]
    case Delete(k) => mem[k := TOMBSTONE]
    case _ => mem
  }

  function ApplyLines(mem: Mem, lines: seq<Line>): Mem {
    if lines == [] then mem else ApplyLine(ApplyLines(mem, lines[..|lines| - 1]), lines[|lines| - 1])
  }

  /** Where a replay stands. */
  datatype Replay = Replay(mem: Mem, inBatch: bool, batch: seq<Line>)

  function Next(s: Replay, line: Line): Replay {
    match line
    case Begin => s.(inBatch := true, batch := [])
    case Commit => Replay(ApplyLines(s.mem, s.batch), false, [])
    case _ => if s.inBatch then s.(batch := s.batch + [line]) else s.(mem := ApplyLine(s.mem, line))
  }

  function Run(lines: seq<Line>): Replay {
    if lines == [] then Replay(map[], false, []) else Next(Run(lines[..|lines| - 1]), lines[|lines| - 1])
  }

  /** What a client asked for: one write, or a batch of writes. */
  datatype Operation = Single(line: Line) | Batch(lines: seq<Line>)

  ghost predicate IsOperation(op: Operation) {
    match op
    case Single(line) => IsWrite(line)
    case Batch(lines) => forall i :: 0 <= i < |lines| ==> IsWrite(lines[i])
  }

  function LinesOf(op: Operation): seq<Line> {
    match op
    case Single(line) => [line]
    case Batch(lines) => [Begin] + lines + [Commit]
  }

  function Log(ops: seq<Operation>): seq<Line> {
    if ops == [] then [] else Log(ops[..|ops| - 1]) + LinesOf(ops[|ops| - 1])
  }

  function Perform(mem: Mem, op: Operation): Mem {
    match op
    case Single(line) => ApplyLine(mem, line)
    case Batch(lines) => ApplyLines(mem, lines)
  }

  function PerformAll(ops: seq<Operation>): Mem {
    if ops == [] then map[] else Perform(PerformAll(ops[..|ops| - 1]), ops[|ops| - 1])
  }

  lemma {:induction false} RunSnoc(lines: seq<Line>, line: Line)
    ensures Run(lines + [line]) == Next(Run(lines), line)
  {
    assert (lines + [line])[..|lines|] == lines;
  }

  lemma {:induction false} OneMore(done: seq<Line>, lines: seq<Line>, j: nat)
    requires j < |lines|
    ensures done + lines[..j + 1] == (done + lines[..j]) + [lines[j]] && lines[..j + 1] == lines[..j] + [lines[j]]
  {
  }

  /** Inside a batch nothing has happened yet. */
  lemma {:induction false} InsideBatch(done: seq<Line>, lines: seq<Line>, j: nat)
    requires j <= |lines| && (forall i :: 0 <= i < |lines| ==> IsWrite(lines[i]))
    ensures Run((done + [Begin]) + lines[..j]) == Replay(Run(done).mem, true, lines[..j])
  {
    if j == 0 {
      assert (done + [Begin]) + lines[..0] == done + [Begin];
      RunSnoc(done, Begin);
    } else {
      InsideBatch(done, lines, j - 1);
      OneMore(done + [Begin], lines, j - 1);
      RunSnoc((done + [Begin]) + lines[..j - 1], lines[j - 1]);
    }
  }

  lemma {:induction false} WholeBatch(done: seq<Line>, lines: seq<Line>)
    ensures done + LinesOf(Batch(lines)) == ((done + [Begin]) + lines[..|lines|]) + [Commit]
  {
  }

  /** A batch in the log has its effect, whatever came before it. */
  lemma {:induction false} AfterBatch(done: seq<Line>, lines: seq<Line>)
    requires forall i :: 0 <= i < |lines| ==> IsWrite(lines[i])
    ensures Run(done + LinesOf(Batch(lines))) == Replay(ApplyLines(Run(done).mem, lines), false, [])
  {
    InsideBatch(done, lines, |lines|);
    WholeBatch(done, lines);
    RunSnoc((done + [Begin]) + lines[..|lines|], Commit);
    assert lines[..|lines|] == lines;
  }

  /** A whole operation in the log has its effect. */
  lemma {:induction false} AfterOperation(done: seq<Line>, op: Operation)
    requires IsOperation(op) && Run(done) == Replay(Run(done).mem, false, [])
    ensures Run(done + LinesOf(op)) == Replay(Perform(Run(done).mem, op), false, [])
  {
    match op
    case Single(line) => RunSnoc(done, line);
    case Batch(lines) => AfterBatch(done, lines);
  }

  /** Replaying a whole log gives the state after all its operations. */
  lemma {:induction false} ReplayAll(ops: seq<Operation>)
    requires forall i :: 0 <= i < |ops| ==> IsOperation(ops[i])
    ensures Run(Log(ops)) == Replay(PerformAll(ops), false, [])
  {
    if ops != [] {
      ReplayAll(ops[..|ops| - 1]);
      AfterOperation(Log(ops[..|ops| - 1]), ops[|ops| - 1]);
    }
  }

  /** Only part of an operation in the log has no effect. */
  lemma {:induction false} PartOfOperation(done: seq<Line>, op: Operation, j: nat)
    requires IsOperation(op) && Run(done) == Replay(Run(done).mem, false, []) && j < |LinesOf(op)|
    ensures Run(done + LinesOf(op)[..j]).mem == Run(done).mem
  {
    if j == 0 {
      assert done + LinesOf(op)[..0] == done;
    } else {
      InsideBatch(done, op.lines, j - 1);
      PartOfBatch(done, op.lines, j);
    }
  }

  lemma {:induction false} PartOfBatch(done: seq<Line>, lines: seq<Line>, j: nat)
    requires 0 < j <= |lines| + 1
    ensures done + LinesOf(Batch(lines))[..j] == (done + [Begin]) + lines[..j - 1]
  {
    assert LinesOf(Batch(lines))[..j] == [Begin] + lines[..j - 1];
  }

  lemma {:induction false} LogPrefix(ops: seq<Operation>, j: nat)
    requires ops != [] && j <= |Log(ops)|
    ensures var rest, op := ops[..|ops| - 1], ops[|ops| - 1];
            Log(ops)[..j] == if j < |Log(rest)| then Log(rest)[..j] else Log(rest) + LinesOf(op)[..j - |Log(rest)|]
  {
  }

  /** Replaying any first part of a log gives the state after exactly the operations that are in it whole. */
  lemma {:induction false} ReplayPart(ops: seq<Operation>, j: nat) returns (n: nat)
    requires (forall i :: 0 <= i < |ops| ==> IsOperation(ops[i])) && j <= |Log(ops)|
    ensures n <= |ops| && Run(Log(ops)[..j]).mem == PerformAll(ops[..n])
    ensures |Log(ops[..n])| <= j && (n < |ops| ==> j < |Log(ops[..n])| + |LinesOf(ops[n])|)
  {
    n := |ops|;
    TakeAll(ops);
    if j == |Log(ops)| {
      ReplayAll(ops);
      TakeAll(Log(ops));
    } else {
      var rest, op := ops[..n - 1], ops[n - 1];
      LogPrefix(ops, j);
      if j < |Log(rest)| {
        n := ReplayPart(rest, j);
        TakeTake(ops, |rest|, n);
      } else {
        n := n - 1;
        ReplayAll(rest);
        PartOfOperation(Log(rest), op, j - |Log(rest)|);
      }
    }
  }

  lemma {:induction false} BatchOnlyInside(lines: seq<Line>)
    ensures !Run(lines).inBatch ==> Run(lines).batch == []
  {
    if lines != [] { BatchOnlyInside(lines[..|lines| - 1]); }
  }

  /** An operation appended to a log that may end inside a batch. */
  lemma {:induction false} AppendedOperation(lines: seq<Line>, op: Operation)
    requires IsOperation(op)
    ensures Run(lines + LinesOf(op)).mem == Perform(Run(lines).mem, op)
            <==> op.Batch? || !Run(lines).inBatch || Perform(Run(lines).mem, op) == Run(lines).mem
  {
    match op
    case Single(line) => RunSnoc(lines, line);
    case Batch(writes) => AfterBatch(lines, writes);
  }

  function LinesIn(rs: seq<Record>): (lines: seq<Line>)
    ensures |lines| == |rs| && forall i :: 0 <= i < |rs| ==> lines[i] == rs[i].line
  {
    seq(|rs|, i requires 0 <= i < |rs| => rs[i].line)
  }

  lemma {:induction false} WholeIs(c: Codec, rs: seq<Record>, cut: nat, j: nat)
    requires j <= |rs|
    ensures |Frames(c, rs[..j])| <= cut <==> j <= Whole(c, rs, cut)
  {
    if j > 0 {
      assert rs[..j][1..] == rs[1..][..j - 1] && rs[..j][0] == rs[0];
      if cut >= |Frame(c, rs[0])| { WholeIs(c, rs[1..], cut - |Frame(c, rs[0])|, j - 1); }
    }
  }

  /** How many lines the first `n` operations take. */
  ghost function LogLength(ops: seq<Operation>, n: nat): nat
    requires n <= |ops|
  {
    if n == 0 then 0 else LogLength(ops, n - 1) + LineCount(ops[n - 1])
  }

  ghost function LineCount(op: Operation): nat { if op.Single? then 1 else |op.lines| + 2 }

  lemma {:induction false} LinesOfLength(op: Operation)
    ensures |LinesOf(op)| == LineCount(op)
  {
  }

  lemma {:induction false} LogLengthIs(ops: seq<Operation>, n: nat)
    requires n <= |ops|
    ensures |Log(ops[..n])| == LogLength(ops, n)
  {
    if n > 0 {
      LogLengthIs(ops, n - 1);
      TakeTake(ops, n, n - 1);
      LinesOfLength(ops[n - 1]);
    }
  }

  lemma {:induction false} LogGrows(ops: seq<Operation>, n: nat, m: nat)
    requires n <= m <= |ops|
    ensures LogLength(ops, n) <= LogLength(ops, m) && (n < m ==> LogLength(ops, n) + LineCount(ops[n]) <= LogLength(ops, m))
    decreases m - n
  {
    if n < m { LogGrows(ops, n, m - 1); }
  }

  /** Torn writes: whatever prefix of the log file survives a crash, recovery gives the state after some first
      operations, each of them whole, and these are all whose log bytes survived. */
  lemma {:induction false} TornRecovery(c: Codec, ops: seq<Operation>, rs: seq<Record>, cut: nat) returns (n: nat)
    requires Sound(c) && AllLoggable(c, rs) && LinesIn(rs) == Log(ops) && cut <= |Frames(c, rs)|
    requires forall i :: 0 <= i < |ops| ==> IsOperation(ops[i])
    ensures n <= |ops| && Run(LinesIn(Parse(c, Frames(c, rs)[..cut]))).mem == PerformAll(ops[..n])
    ensures forall m: nat :: m <= |ops| && LogLength(ops, m) <= |rs| ==> (|Frames(c, rs[..LogLength(ops, m)])| <= cut <==> m <= n)
  {
    TornPrefix(c, rs, cut);
    var j := Whole(c, rs, cut);
    assert LinesIn(rs[..j]) == Log(ops)[..j];
    n := ReplayPart(ops, j);
    LogLengthIs(ops, n);
    if n < |ops| { LinesOfLength(ops[n]); }
    forall m: nat | m <= |ops| && LogLength(ops, m) <= |rs| ensures |Frames(c, rs[..LogLength(ops, m)])| <= cut <==> m <= n {
      WholeIs(c, rs, cut, LogLength(ops, m));
      if m <= n { LogGrows(ops, m, n); } else { LogGrows(ops, n, m); }
    }
  }

  lemma {:induction false} LinesInConcat(a: seq<Record>, b: seq<Record>)
    ensures LinesIn(a + b) == LinesIn(a) + LinesIn(b)
  {
  }

  /** What was left of a frame, with other frames behind it, passes for a frame. */
  ghost predicate Collides(c: Codec, torn: Bytes, more: seq<Record>) { torn != [] && FirstFrame(c, torn + Frames(c, more)).Some? }

  /** The file that a crash left is appended to after the restart, never cut. What is written then survives the next restart
      if and only if the crash cut at the end of a frame, and the write is a batch or the log does not end inside a batch
      (or the write changes nothing). This leaves out mixtures of frames that pass the checksum. */
  lemma {:induction false} WritesAfterCrash(c: Codec, rs: seq<Record>, cut: nat, op: Operation, more: seq<Record>)
    requires Sound(c) && AllLoggable(c, rs) && AllLoggable(c, more) && cut <= |Frames(c, rs)|
    requires IsOperation(op) && LinesIn(more) == LinesOf(op)
    ensures var file, torn := Frames(c, rs)[..cut], Torn(c, rs, cut);
            var before, after := Run(LinesIn(Parse(c, file))), Run(LinesIn(Parse(c, file + Frames(c, more))));
            !Collides(c, torn, more) ==>
              (after.mem == Perform(before.mem, op) <==>
               (torn == [] && (op.Batch? || !before.inBatch)) || Perform(before.mem, op) == before.mem)
  {
    TornPrefix(c, rs, cut);
    AppendAfterCrash(c, rs, cut, more);
    var kept := rs[..Whole(c, rs, cut)];
    LinesInConcat(kept, more);
    AppendedOperation(LinesIn(kept), op);
  }

  /** A crash inside a batch, at the end of a frame: the single write that follows the restart is lost. */
  lemma {:induction false} LostBehindBegin(c: Codec, key: Bytes, value: Bytes)
    requires Sound(c) && AllLoggable(c, [Record(0, Begin), Record(1, Commit), Record(1, Put(key, value))])
    ensures var rs, cut := [Record(0, Begin), Record(1, Commit)], |Frame(c, Record(0, Begin))|;
            && Torn(c, rs, cut) == []
            && Run(LinesIn(Parse(c, Frames(c, rs)[..cut] + Frames(c, [Record(1, Put(key, value))])))).mem == map[]
  {
    var b, rs, more := Record(0, Begin), [Record(0, Begin), Record(1, Commit)], [Record(1, Put(key, value))];
    var all := [b, Record(1, Commit), Record(1, Put(key, value))];
    assert Loggable(c, all[0]) && Loggable(c, all[1]) && Loggable(c, all[2]);
    var cut := |Frame(c, b)|;
    assert rs[1..] == [Record(1, Commit)];
    assert Whole(c, rs[1..], 0) == 0 && Torn(c, rs[1..], 0) == [];
    AppendAfterCrash(c, rs, cut, more);
    assert rs[..1] + more == [b] + more;
    LinesInConcat([b], more);
    assert LinesIn([b]) == [] + [Begin] && LinesIn(more) == [Put(key, value)];
    RunSnoc([], Begin);
    RunSnoc([] + [Begin], Put(key, value));
  }

  /** A crash inside the first frame: everything that follows the restart is lost, batches included. */
  lemma {:induction false} LostBehindTorn(c: Codec, r0: Record, more: seq<Record>)
    requires Sound(c) && c.crc([]) == 0 && more != [] && |c.encode(r0)| < 0x100_0000 && 0 < |c.encode(more[0])| < 256
    ensures Run(LinesIn(Parse(c, Frames(c, [r0])[..1] + Frames(c, more)))).mem == map[]
  {
    TornHides(c, r0, more[0], Frames(c, more[1..]));
    assert [r0][1..] == [];
    assert Frames(c, [r0]) == Frame(c, r0) + [];
    CutBefore(Frame(c, r0), [], 1);
  }
}
