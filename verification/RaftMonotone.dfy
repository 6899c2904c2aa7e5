/** The history of a Raft group only grows, and everything stated about it survives that growth. */
module RaftMonotone {
  import opened Commands
  import opened RaftNode
  import opened RaftCluster
  import opened RaftInvariant

  /** `h'` holds at least what `h` holds; leaders only append entries of their own term. */
  ghost predicate Extends(h: History, h': History) {
    && (forall t :: t in h.reigns ==> t in h'.reigns && ReignGrows(t, h.reigns[t], h'.reigns[t]))
    && (forall t, n :: (t, n) in h.campaigns ==> (t, n) in h'.campaigns && h'.campaigns[(t, n)] == h.campaigns[(t, n)])
    && h.grants <= h'.grants
    && h.acks <= h'.acks
  }

  ghost predicate ReignGrows(t: nat, r: Reign, r': Reign) {
    && r'.leader == r.leader && r'.quorum == r.quorum
    && r.log <= r'.log
    && forall i :: |r.log| <= i < |r'.log| ==> r'.log[i].term == t
  }

  lemma {:induction false} LogOkMono(h: History, h': History, log: seq<Entry>)
    requires LogOk(h, log) && Extends(h, h')
    ensures LogOk(h', log)
  {
    forall i: nat | i < |log|
      ensures InReign(h', log, i)
    {
      assert InReign(h, log, i);
    }
  }

  /** A prefix named by (T, k) is the same prefix later. */
  lemma {:induction false} PointMono(h: History, h': History, t: nat, k: nat)
    requires Extends(h, h') && Point(h, t, k)
    ensures Point(h', t, k) && Upto(h', t, k) == Upto(h, t, k)
  {
    assert h.reigns[t].log <= h'.reigns[t].log;
  }

  lemma {:induction false} LostMono(h: History, h': History, t: nat, k: nat, bound: int)
    requires Extends(h, h') && Point(h, t, k) && Sorted(h.reigns[t].log)
    requires Lost(h, t, k, bound)
    ensures Point(h', t, k) && Lost(h', t, k, bound)
  {
    PointMono(h, h', t, k);
    var p := Upto(h, t, k);
    var t2 :| t < t2 <= bound && t2 in h.reigns && !(p <= h.reigns[t2].log);
    var r, r' := h.reigns[t2], h'.reigns[t2];
    assert ReignGrows(t2, r, r') && p[k - 1].term == t;
    assert !(p <= r'.log);
  }

  lemma {:induction false} KeepsMono(voters: set<NodeId>, h: History, h': History, v: NodeId, log: seq<Entry>, bound: int)
    requires HistOk(voters, h) && Extends(h, h') && Keeps(h, v, log, bound)
    requires forall t, m :: (t, v, m) in h'.acks && t <= bound ==> (t, v, m) in h.acks
    ensures Keeps(h', v, log, bound)
  {
    forall t, m, k | (t, v, m) in h'.acks && t <= bound && k <= m && Point(h', t, k)
      ensures KeepsAt(h', v, log, bound, t, m, k)
    {
      assert (t, v, m) in h.acks;
      assert ReignGrows(t, h.reigns[t], h'.reigns[t]);
      assert Point(h, t, k);
      PointMono(h, h', t, k);
      assert KeepsAt(h, v, log, bound, t, m, k);
      if Lost(h, t, k, bound) {
        assert ReignOk(voters, h, t);
        LostMono(h, h', t, k, bound);
      }
    }
  }

  lemma {:induction false} CommittedMono(voters: set<NodeId>, h: History, h': History, t: nat, k: nat)
    requires Extends(h, h') && Committed(voters, h, t, k)
    ensures Committed(voters, h', t, k) && Upto(h', t, k) == Upto(h, t, k)
  {
    PointMono(h, h', t, k);
    var q := set v | v in voters && Acked(h, v, t, k);
    var q' := set v | v in voters && Acked(h', v, t, k);
    assert q <= q';
    SubsetSize(q, q');
  }

  lemma {:induction false} SubsetSize<T>(a: set<T>, b: set<T>)
    requires a <= b
    ensures |a| <= |b|
  {
    assert b == a + (b - a);
  }

  lemma {:induction false} CommittedLogMono(voters: set<NodeId>, h: History, h': History, log: seq<Entry>, bound: nat, bound': nat)
    requires Extends(h, h') && bound <= bound' && CommittedLog(voters, h, log, bound)
    ensures CommittedLog(voters, h', log, bound')
  {
    if log != [] {
      var t: nat, k: nat :| t <= bound && Committed(voters, h, t, k) && log <= Upto(h, t, k);
      CommittedMono(voters, h, h', t, k);
    }
  }

  lemma {:induction false} DeliveredMono(voters: set<NodeId>, h: History, h': History, i: nat, command: Command)
    requires Extends(h, h') && Delivered(voters, h, i, command)
    ensures Delivered(voters, h', i, command)
  {
    var t: nat, k: nat :| Committed(voters, h, t, k) && 1 <= i <= k && Upto(h, t, k)[i - 1].command == command;
    CommittedMono(voters, h, h', t, k);
  }

  lemma {:induction false} PacketMono(voters: set<NodeId>, h: History, h': History, p: Packet)
    requires Extends(h, h') && PacketOk(voters, h, p)
    ensures PacketOk(voters, h', p)
  {
    match p
    case VoteCall(_, _) =>
    case VoteReturn(_, _) =>
    case AppendReturn(_, _, _) =>
    case AppendCall(dst, req) => RequestMono(voters, h, h', dst, req);
  }

  lemma {:induction false} RequestMono(voters: set<NodeId>, h: History, h': History, dst: NodeId, req: AppendRequest)
    requires Extends(h, h') && RequestOk(voters, h, dst, req)
    ensures RequestOk(voters, h', dst, req)
  {
    var log, log' := h.reigns[req.term].log, h'.reigns[req.term].log;
    assert ReignGrows(req.term, h.reigns[req.term], h'.reigns[req.term]);
    var hi := req.prevIndex + |req.entries|;
    assert log[req.prevIndex..hi] == log'[req.prevIndex..hi];
    assert log[..req.leaderCommit] == log'[..req.leaderCommit];
    PointMono(h, h', req.term, hi);
    CommittedLogMono(voters, h, h', log[..req.leaderCommit], req.term, req.term);
  }

  /** Nothing was recorded about replica `n` between `h` and `h'`. */
  ghost predicate SilentAbout(h: History, h': History, n: NodeId) {
    && (forall t, m :: (t, n, m) in h'.acks ==> (t, n, m) in h.acks)
    && (forall t :: (t, n) in h'.campaigns ==> (t, n) in h.campaigns)
    && (forall t, cand :: (t, n, cand) in h'.grants ==> (t, n, cand) in h.grants)
    && (forall t :: t in h'.reigns && h'.reigns[t].leader == n ==> t in h.reigns && h'.reigns[t] == h.reigns[t])
  }

  /** Whatever was recorded between `h` and `h'` concerns replica `n`. */
  ghost predicate OnlyAbout(h: History, h': History, n: NodeId) {
    forall x {:trigger SilentAbout(h, h', x)} :: x != n ==> SilentAbout(h, h', x)
  }

  lemma {:induction false} NodeMono(voters: set<NodeId>, h: History, h': History, n: NodeId, s: NodeState)
    requires HistOk(voters, h) && Extends(h, h') && NodeOk(voters, h, n, s) && SilentAbout(h, h', n)
    ensures NodeOk(voters, h', n, s)
  {
    LogOkMono(h, h', s.log);
    KeepsMono(voters, h, h', n, s.log, s.term);
    CommittedLogMono(voters, h, h', s.log[..s.commitIndex], s.term, s.term);
  }
}
