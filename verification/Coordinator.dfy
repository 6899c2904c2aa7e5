/** The coordinator's side of two-phase commit as the server runs it: loops over the participants that write,
    overwrite and remove the durable transaction record. The answers of the participants are parameters. Every
    method is shown to take only steps of `TwoPhase`, so what is proved about all runs there holds of it. */
module Coordinator {
  import opened Commands
  import opened TwoPhase

  /** The world after `steps`, if each of them was possible in turn. */
  ghost function After(w: World, steps: seq<Step>): Option<World>
    decreases |steps|
  {
    if steps == [] then Some(w)
    else
      var mid := After(w, steps[..|steps| - 1]);
      if mid.Some? && Enabled(mid.value, steps[|steps| - 1]) then Some(Do(mid.value, steps[|steps| - 1])) else None
  }

  /** The durable record of an unfinished transaction. */
  datatype Record = Record(status: Status, participants: seq<ShardId>)

  /** What came back from a call; a participant may have logged an entry and the caller not learned of it. */
  datatype Reply = Yes | No(logged: bool)

  /** The record says what the world's record says, and lists the participants. */
  ghost predicate RecordOk(w: World, t: TxnId, r: Record) {
    t in w.records && r.status == w.records[t] && t in w.txns && forall s :: s in r.participants <==> s in w.txns[t].groups
  }

  ghost predicate Recorded(w: World, records: map<TxnId, Record>) {
    records.Keys == w.records.Keys && forall t {:trigger RecordOk(w, t, records[t])} :: t in records ==> RecordOk(w, t, records[t])
  }

  /** A world in which only the record of `t` differs. */
  lemma {:induction false} RecordWritten(w: World, w': World, records: map<TxnId, Record>, t: TxnId, r: Record)
    requires Recorded(w, records) && w'.records == w.records[t := r.status] && RecordOk(w', t, r)
    requires forall x :: x in w.txns ==> x in w'.txns && w'.txns[x] == w.txns[x]
    ensures Recorded(w', records[t := r])
  {
    var rs := records[t := r];
    forall x | x in rs ensures RecordOk(w', x, rs[x]) {
      assert x != t ==> RecordOk(w, x, records[x]);
    }
  }

  lemma {:induction false} RecordRemoved(w: World, w': World, records: map<TxnId, Record>, t: TxnId)
    requires Recorded(w, records) && w'.records == w.records - {t} && w'.txns == w.txns
    ensures Recorded(w', records - {t})
  {
    var rs := records - {t};
    forall x | x in rs ensures RecordOk(w', x, rs[x]) {
      assert RecordOk(w, x, records[x]);
    }
  }

  lemma {:induction false} RecordsStay(w: World, w': World, records: map<TxnId, Record>)
    requires Recorded(w, records) && w'.records == w.records && w'.txns == w.txns
    ensures Recorded(w', records)
  {
    forall x | x in records ensures RecordOk(w', x, records[x]) {
      assert RecordOk(w, x, records[x]);
    }
  }

  class Coordinator {
    var records: map<TxnId, Record>            // the durable transaction log
    ghost const start: World
    ghost var w: World
    ghost var trace: seq<Step>

    /** The steps taken so far lead from `start` to `w`. */
    ghost predicate Tracking()
      reads this
    {
      After(start, trace) == Some(w) && Inv(w)
    }

    ghost predicate Valid()
      reads this
    {
      Tracking() && Recorded(w, records)
    }

    /** Start over the records a crash left behind: no request is running any more. */
    constructor (records: map<TxnId, Record>, ghost start: World)
      requires Inv(start) && Recorded(start, records)
      ensures Valid() && this.records == records && trace == [Crash(start.running.Keys)] && w == start.(running := map[])
    {
      this.records, this.start := records, start;
      w, trace := start.(running := map[]), [Crash(start.running.Keys)];
      new;
      StepKeeps(start, Crash(start.running.Keys));
      assert start.running - start.running.Keys == map[];
      assert [Crash(start.running.Keys)][..0] == [];
      RecordsStay(start, w, records);
    }

    ghost method Take(step: Step)
      requires Tracking() && Enabled(w, step)
      modifies this`w, this`trace
      ensures Tracking() && w == Do(old(w), step) && Grows(old(w), w)
    {
      StepKeeps(w, step);
      assert (trace + [step])[..|trace|] == trace;
      w := Do(w, step);
      trace := trace + [step];
    }

    ghost method Open(t: TxnId, txn: Txn)
      requires Tracking() && t !in w.txns && (forall s :: s in txn.groups ==> s in w.logs)
      modifies this`w, this`trace
      ensures Tracking() && Grows(old(w), w)
      ensures t in w.txns && w.txns[t] == txn && t in w.running && w.running[t] == {} && t !in w.decided
      ensures w.records == old(w.records)[t := Preparing] && t !in old(w.records)
    {
      var known := TxnOk(w, t);
      Take(Begin(t, txn));
    }

    /** One prepare call and its answer: a shard that votes yes has logged the prepare. */
    ghost method Ask(t: TxnId, s: ShardId, reply: Reply)
      requires Tracking() && t in w.running && t in w.txns && s in w.txns[t].groups
      modifies this`w, this`trace
      ensures Tracking() && Grows(old(w), w)
      ensures w.records == old(w.records) && w.txns == old(w.txns) && w.decided == old(w.decided)
      ensures w.running == if reply.Yes? then old(w.running)[t := old(w.running[t]) + {s}] else old(w.running)
    {
      assert TxnOk(w, t);
      Take(SendPrepare(t, s));
      Take(RecvPrepare(t, s, reply.Yes? || reply.logged, reply.Yes?));
      if reply.Yes? { Take(RecvVote(t, s)); }
    }

    ghost method Decide(t: TxnId, commit: bool)
      requires Tracking() && t in w.running && t in w.txns && (commit ==> w.running[t] == w.txns[t].groups.Keys)
      modifies this`w, this`trace
      ensures Tracking() && Grows(old(w), w) && w.txns == old(w.txns)
      ensures w.records == old(w.records)[t := if commit then Committing else Aborted]
      ensures w.decided == old(w.decided)[t := commit] && w.running == old(w.running) - {t}
    {
      if commit { Take(DecideCommit(t)); } else { Take(DecideAbort(t)); }
    }

    /** One commit or abort call: a shard that acknowledges has logged the decision. */
    ghost method Tell(t: TxnId, s: ShardId, reply: Reply)
      requires Tracking() && t in w.decided && t in w.txns && s in w.txns[t].groups
      modifies this`w, this`trace
      ensures Tracking() && Grows(old(w), w)
      ensures w.records == old(w.records) && w.txns == old(w.txns) && w.decided == old(w.decided) && w.running == old(w.running)
      ensures reply.Yes? ==> Ack(t, s, w.decided[t]) in w.net
    {
      assert TxnOk(w, t);
      Take(SendDecision(t, s));
      if reply.Yes? || reply.logged { Take(RecvDecision(t, s, w.decided[t])); }
    }

    method WriteRecord(t: TxnId, r: Record)
      modifies this`records
      ensures records == old(records)[t := r]
    {
      records := records[t := r];
    }

    /** Tell every participant the decision; drop the record once all of them have acknowledged it. */
    method DriveTxn(t: TxnId, ackOf: ShardId -> Reply) returns (allOk: bool)
      requires Valid() && t in records && t in w.decided
      modifies this
      ensures Valid() && Grows(old(w), w) && w.running == old(w.running) && w.decided == old(w.decided)
      ensures allOk <==> AllYes(old(records)[t].participants, ackOf)
      ensures records == if allOk then old(records) - {t} else old(records)
    {
      assert RecordOk(w, t, records[t]);
      allOk := TellAll(t, records[t].participants, ackOf);
      if allOk {
        assert TxnOk(w, t);
        ghost var before := w;
        Take(Remove(t));
        RecordRemoved(before, w, records, t);
        records := records - {t};
      }
    }

    method TellAll(t: TxnId, participants: seq<ShardId>, ackOf: ShardId -> Reply) returns (allOk: bool)
      requires Valid() && t in w.decided && t in w.txns && forall s :: s in participants ==> s in w.txns[t].groups
      modifies this`w, this`trace
      ensures Valid() && Grows(old(w), w) && w.running == old(w.running) && w.decided == old(w.decided) && w.txns == old(w.txns)
      ensures w.records == old(w.records) && (allOk <==> AllYes(participants, ackOf))
      ensures allOk ==> forall s :: s in participants ==> Ack(t, s, w.decided[t]) in w.net
    {
      allOk := true;
      var i := 0;
      while i < |participants|
        invariant 0 <= i <= |participants| && Tracking() && Grows(old(w), w) && w.records == old(w.records)
        invariant w.running == old(w.running) && w.decided == old(w.decided) && w.txns == old(w.txns)
        invariant allOk <==> AllYes(participants[..i], ackOf)
        invariant allOk ==> forall s :: s in participants[..i] ==> Ack(t, s, w.decided[t]) in w.net
      {
        var s := participants[i];
        assert participants[..i + 1] == participants[..i] + [s];
        assert s in participants;
        Tell(t, s, ackOf(s));
        if !ackOf(s).Yes? {
          allOk := false;
        }
        i := i + 1;
      }
      assert participants[..i] == participants;
      RecordsStay(old(w), w, records);
    }

    /** Ask the participants one by one, stopping at the first that does not vote yes. */
    method PreparePhase(t: TxnId, participants: seq<ShardId>, voteOf: ShardId -> Reply) returns (allYes: bool)
      requires Valid() && t in w.txns && t in w.running && w.running[t] == {} && t !in w.decided
      requires forall s :: s in participants <==> s in w.txns[t].groups
      modifies this`w, this`trace
      ensures Valid() && Grows(old(w), w) && (allYes <==> AllYes(participants, voteOf))
      ensures w.txns == old(w.txns) && w.decided == old(w.decided) && w.records == old(w.records)
      ensures t in w.running && (allYes ==> w.running[t] == w.txns[t].groups.Keys)
    {
      var i := 0;
      allYes := true;
      while i < |participants| && allYes
        invariant 0 <= i <= |participants| && Tracking() && Grows(old(w), w) && w.records == old(w.records)
        invariant w.txns == old(w.txns) && w.decided == old(w.decided) && t in w.running
        invariant allYes ==> AllYes(participants[..i], voteOf) && forall s :: s in w.running[t] <==> s in participants[..i]
        invariant !allYes ==> !AllYes(participants, voteOf)
      {
        var s := participants[i];
        assert participants[..i + 1] == participants[..i] + [s];
        assert s in participants;
        Ask(t, s, voteOf(s));
        allYes := voteOf(s).Yes?;
        i := i + 1;
      }
      assert allYes ==> participants[..i] == participants;
      RecordsStay(old(w), w, records);
    }

    /** Record the decision, then tell the participants. */
    method Finish(t: TxnId, participants: seq<ShardId>, commit: bool, ackOf: ShardId -> Reply)
      requires Valid() && t in w.running && t in w.txns && (commit ==> w.running[t] == w.txns[t].groups.Keys)
      requires forall s :: s in participants <==> s in w.txns[t].groups
      modifies this
      ensures Valid() && Grows(old(w), w) && t in w.decided && w.decided[t] == commit
      ensures records == if AllYes(participants, ackOf) then old(records) - {t}
                         else old(records)[t := Record(if commit then Committing else Aborted, participants)]
    {
      var r := Record(if commit then Committing else Aborted, participants);
      Decide(t, commit);
      RecordWritten(old(w), w, records, t, r);
      WriteRecord(t, r);
      var _ := DriveTxn(t, ackOf);
      assert records == if AllYes(participants, ackOf) then old(records)[t := r] - {t} else old(records)[t := r];
    }

    /** One cross-shard transaction, from the first record to the answer. Nothing happens if a shard has no leader. */
    method CoordinateTwoPhase(t: TxnId, ghost txn: Txn, participants: seq<ShardId>, hasLeader: ShardId -> bool,
                              voteOf: ShardId -> Reply, ackOf: ShardId -> Reply) returns (ok: bool)
      requires Valid() && t !in w.txns && (forall s :: s in txn.groups ==> s in w.logs)
      requires forall s :: s in participants <==> s in txn.groups
      modifies this
      ensures Valid() && Grows(old(w), w)
      ensures ok <==> (forall s :: s in participants ==> hasLeader(s)) && AllYes(participants, voteOf)
      ensures (exists s :: s in participants && !hasLeader(s)) ==> w == old(w) && records == old(records)
      ensures (forall s :: s in participants ==> hasLeader(s)) ==>
                && t in w.decided && w.decided[t] == ok
                && records == if AllYes(participants, ackOf) then old(records) - {t}
                              else old(records)[t := Record(if ok then Committing else Aborted, participants)]
    {
      ok := FindLeaders(participants, hasLeader);
      if !ok {
        return;
      }
      Open(t, txn);
      RecordWritten(old(w), w, records, t, Record(Preparing, participants));
      WriteRecord(t, Record(Preparing, participants));
      ok := PreparePhase(t, participants, voteOf);
      Finish(t, participants, ok, ackOf);
      Overwritten(old(records), t, Record(Preparing, participants), Record(if ok then Committing else Aborted, participants));
    }

    /** The sweep over one leftover record: an undecided one is aborted, a decided one is driven again. */
    method SweepRecord(t: TxnId, ackOf: ShardId -> Reply)
      requires Valid() && t in records && t !in w.running
      modifies this
      ensures Valid() && Grows(old(w), w) && w.running == old(w.running) && t in w.decided
      ensures w.decided[t] == (old(records)[t].status == Committing)
      ensures forall x :: x != t ==> Same(old(records), records, x)
      ensures if AllYes(old(records)[t].participants, ackOf) then t !in records
              else t in records && records[t] == Record(if old(records)[t].status == Committing then Committing else Aborted, old(records)[t].participants)
    {
      assert RecordOk(w, t, records[t]) && TxnOk(w, t);
      if records[t].status == Preparing {
        var r := Record(Aborted, records[t].participants);
        Take(SweepAbort(t));
        RecordWritten(old(w), w, records, t, r);
        WriteRecord(t, r);
      }
      var _ := DriveTxn(t, ackOf);
    }

    /** A sweep over all records, after a restart: every leftover transaction is decided, what was committing is committed
        and the rest is aborted, and a record stays only for a participant that did not acknowledge. */
    method Sweep(pending: seq<TxnId>, ackOf: (TxnId, ShardId) -> Reply)
      requires Valid() && w.running == map[] && (forall t :: t in pending <==> t in records)
      requires forall i, j :: 0 <= i < j < |pending| ==> pending[i] != pending[j]
      modifies this
      ensures Valid() && Grows(old(w), w)
      ensures forall t :: t in old(records) ==> t in w.decided && w.decided[t] == (old(records)[t].status == Committing)
      ensures forall t :: t in records <==> t in old(records) && !AllAcked(old(records)[t].participants, t, ackOf)
      ensures forall t :: t in records ==> records[t].status != Preparing
    {
      var i := 0;
      while i < |pending|
        invariant 0 <= i <= |pending| && Valid() && w.running == map[] && Grows(old(w), w)
        invariant SweptAll(old(records), w.decided, records, pending, i, ackOf)
      {
        ghost var decided, before := w.decided, records;
        var t := pending[i];
        assert t in pending && t !in pending[..i] && Same(old(records), records, t);
        assert AllYes(records[t].participants, s => ackOf(t, s)) <==> AllAcked(records[t].participants, t, ackOf);
        SweepRecord(t, s => ackOf(t, s));
        SweptNext(old(records), decided, before, w.decided, records, pending, i, ackOf);
        i := i + 1;
      }
      SweptEnd(old(records), w.decided, records, pending, ackOf);
    }
  }

  ghost predicate AllAcked(participants: seq<ShardId>, t: TxnId, ackOf: (TxnId, ShardId) -> Reply) {
    forall s :: s in participants ==> ackOf(t, s).Yes?
  }

  /** What the sweep makes of a record. */
  ghost predicate Swept(was: map<TxnId, Record>, decided: map<TxnId, bool>, records: map<TxnId, Record>, t: TxnId, ackOf: (TxnId, ShardId) -> Reply) {
    && t in was && t in decided && decided[t] == (was[t].status == Committing)
    && if AllAcked(was[t].participants, t, ackOf) then t !in records else t in records && records[t].status != Preparing
  }

  ghost predicate Same(was: map<TxnId, Record>, records: map<TxnId, Record>, t: TxnId) {
    if t in was then t in records && records[t] == was[t] else t !in records
  }

  /** The first `n` records have been swept, the others are as they were. */
  ghost predicate SweptAll(was: map<TxnId, Record>, decided: map<TxnId, bool>, records: map<TxnId, Record>, pending: seq<TxnId>, n: nat, ackOf: (TxnId, ShardId) -> Reply) {
    && n <= |pending|
    && (forall j :: 0 <= j < n ==> Swept(was, decided, records, pending[j], ackOf))
    && (forall t {:trigger Same(was, records, t)} :: t !in pending[..n] ==> Same(was, records, t))
  }

  lemma {:induction false} SweptNext(was: map<TxnId, Record>, decided: map<TxnId, bool>, records: map<TxnId, Record>,
                                     decided': map<TxnId, bool>, records': map<TxnId, Record>, pending: seq<TxnId>, n: nat, ackOf: (TxnId, ShardId) -> Reply)
    requires n < |pending| && SweptAll(was, decided, records, pending, n, ackOf) && Swept(was, decided', records', pending[n], ackOf)
    requires forall i, j :: 0 <= i < j < |pending| ==> pending[i] != pending[j]
    requires forall t :: t in decided ==> t in decided' && decided'[t] == decided[t]
    requires forall t :: t != pending[n] ==> Same(records, records', t)
    ensures SweptAll(was, decided', records', pending, n + 1, ackOf)
  {
    forall j | 0 <= j < n + 1 ensures Swept(was, decided', records', pending[j], ackOf) {
      if j < n {
        assert Swept(was, decided, records, pending[j], ackOf) && Same(records, records', pending[j]);
      }
    }
    assert pending[..n + 1] == pending[..n] + [pending[n]];
    forall t | t !in pending[..n + 1] ensures Same(was, records', t) {
      assert Same(was, records, t) && Same(records, records', t);
    }
  }

  lemma {:induction false} SweptEnd(was: map<TxnId, Record>, decided: map<TxnId, bool>, records: map<TxnId, Record>, pending: seq<TxnId>, ackOf: (TxnId, ShardId) -> Reply)
    requires SweptAll(was, decided, records, pending, |pending|, ackOf) && forall t :: t in pending <==> t in was
    ensures forall t :: t in was ==> t in decided && decided[t] == (was[t].status == Committing)
    ensures forall t :: t in records <==> t in was && !AllAcked(was[t].participants, t, ackOf)
    ensures forall t :: t in records ==> records[t].status != Preparing
  {
    assert pending[..|pending|] == pending;
    forall t | t in was ensures Swept(was, decided, records, t, ackOf) {
      var j :| 0 <= j < |pending| && pending[j] == t;
    }
    forall t | t !in was ensures t !in records {
      assert Same(was, records, t);
    }
  }

  ghost predicate AllYes(participants: seq<ShardId>, replyOf: ShardId -> Reply) { forall s :: s in participants ==> replyOf(s).Yes? }

  method FindLeaders(participants: seq<ShardId>, hasLeader: ShardId -> bool) returns (all: bool)
    ensures all <==> forall s :: s in participants ==> hasLeader(s)
  {
    var i := 0;
    while i < |participants|
      invariant 0 <= i <= |participants| && forall s :: s in participants[..i] ==> hasLeader(s)
    {
      assert participants[i] in participants;
      if !hasLeader(participants[i]) {
        return false;
      }
      i := i + 1;
    }
    assert participants[..i] == participants;
    all := true;
  }

  lemma {:induction false} Overwritten(records: map<TxnId, Record>, t: TxnId, a: Record, b: Record)
    ensures records[t := a][t := b] == records[t := b] && records[t := a] - {t} == records - {t}
  {
  }
}
