/** The consistent-hash ring with virtual nodes. Where strings land is given; positions may collide, and
    what that breaks is said below. */
module Ring {
  import opened Commands
  import Seqs

  const RING_SIZE := 0x1_0000_0000

  type Pos = p: int | 0 <= p < RING_SIZE
  type NodeId = s: string | s != "" witness "n"

  datatype VNode = VNode(position: Pos, node: NodeId, id: nat)

  /** The position of a key, and of a node's i-th virtual node (the hash of its name, ":vnode:" and i). */
  datatype Hashing = Hashing(key: string -> Pos, vnode: (NodeId, nat) -> Pos)

  /** The ring by value: how often each position stands in the sorted list, whose it is, and who takes part. */
  datatype State = State(places: multiset<Pos>, vnodes: map<Pos, VNode>, nodes: set<NodeId>)

  // ---- who owns a position ----------------------------------------------------------------------------------------

  /** The way clockwise from `p` to `q`; all the way round if they are equal. */
  function Distance(p: Pos, q: Pos): int { if q > p then q - p else q - p + RING_SIZE }

  ghost predicate Nearest(ps: set<Pos>, p: Pos, q: Pos) { q in ps && forall x :: x in ps ==> Distance(p, q) <= Distance(p, x) }

  ghost predicate Owns(vs: map<Pos, VNode>, p: Pos, n: NodeId) { exists q :: Nearest(vs.Keys, p, q) && vs[q].node == n }

  lemma {:induction false} NearestExists(ps: set<Pos>, p: Pos) returns (q: Pos)
    requires ps != {}
    ensures Nearest(ps, p, q)
    decreases |ps|
  {
    q :| q in ps;
    if ps != {q} {
      var rest := ps - {q};
      var r := NearestExists(rest, p);
      assert forall x :: x in ps ==> x == q || x in rest;
      if Distance(p, r) < Distance(p, q) { q := r; }
    }
  }

  lemma {:induction false} NearestUnique(ps: set<Pos>, p: Pos, q: Pos, r: Pos)
    requires Nearest(ps, p, q) && Nearest(ps, p, r)
    ensures q == r
  {
    assert Distance(p, q) == Distance(p, r);
  }

  /** The nearest place is the first one clockwise: the lowest above `p`, or the lowest of all if none is above. */
  lemma {:induction false} NearestIsNext(ps: set<Pos>, p: Pos, q: Pos)
    ensures Nearest(ps, p, q) <==>
            && q in ps
            && if exists x :: x in ps && x > p then q > p && (forall x :: x in ps && x > p ==> q <= x)
               else forall x :: x in ps ==> q <= x
  {
    if Nearest(ps, p, q) {
      forall x | x in ps && (x > p <==> q > p) ensures q <= x { assert Distance(p, q) <= Distance(p, x); }
    }
    if x :| x in ps && x > p { assert Distance(p, x) < RING_SIZE; }
  }

  ghost function Owner(vs: map<Pos, VNode>, p: Pos): (o: Option<NodeId>)
    ensures o.None? <==> vs == map[]
    ensures o.Some? ==> Owns(vs, p, o.value)
  {
    if vs == map[] then None
    else
      assert exists n :: Owns(vs, p, n) by {
        assert vs.Keys != {};
        var q := NearestExists(vs.Keys, p);
        assert Owns(vs, p, vs[q].node);
      }
      var n :| Owns(vs, p, n);
      Some(n)
  }

  lemma {:induction false} OwnerIs(vs: map<Pos, VNode>, p: Pos, q: Pos)
    requires Nearest(vs.Keys, p, q)
    ensures Owner(vs, p) == Some(vs[q].node)
  {
    var n := Owner(vs, p).value;
    var r :| Nearest(vs.Keys, p, r) && vs[r].node == n;
    NearestUnique(vs.Keys, p, q, r);
  }

  /** Adding virtual nodes of `n` gives positions to `n` and to nobody else. */
  lemma {:induction false} AddMoves(vs: map<Pos, VNode>, more: map<Pos, VNode>, n: NodeId, p: Pos)
    requires forall q :: q in more ==> more[q].node == n
    ensures Owner(vs + more, p) == Owner(vs, p) || Owner(vs + more, p) == Some(n)
  {
    var vs' := vs + more;
    if vs' != map[] {
      var q := NearestExists(vs'.Keys, p);
      OwnerIs(vs', p, q);
      if q !in more {
        assert Nearest(vs.Keys, p, q);
        OwnerIs(vs, p, q);
      }
    } else {
      assert vs == map[] by { assert forall q :: q in vs ==> q in vs'; }
    }
  }

  /** Dropping the virtual nodes of `n` takes no position from another node. */
  lemma {:induction false} RemoveMoves(s: State, n: NodeId, p: Pos)
    requires Owner(s.vnodes, p).Some? && Owner(s.vnodes, p).value != n
    ensures Owner(Removed(s, n).vnodes, p) == Owner(s.vnodes, p)
  {
    var q :| Nearest(s.vnodes.Keys, p, q) && s.vnodes[q].node == Owner(s.vnodes, p).value;
    assert Nearest(Removed(s, n).vnodes.Keys, p, q);
    OwnerIs(Removed(s, n).vnodes, p, q);
  }

  // ---- joining and leaving ----------------------------------------------------------------------------------------

  function Positions(h: Hashing, n: NodeId, k: nat): (ps: seq<Pos>)
    ensures |ps| == k && forall i :: 0 <= i < k ==> ps[i] == h.vnode(n, i)
  {
    seq<Pos>(k, i requires 0 <= i < k => h.vnode(n, i))
  }

  /** The dictionary entries of the first `k` virtual nodes of `n`: a later one overwrites an earlier one. */
  function Entries(h: Hashing, n: NodeId, k: nat): (m: map<Pos, VNode>)
    ensures forall p :: p in m <==> p in Positions(h, n, k)
    ensures forall p :: p in m ==> m[p].node == n
  {
    if k == 0 then map[]
    else
      var p := h.vnode(n, k - 1);
      assert Positions(h, n, k) == Positions(h, n, k - 1) + [p];
      Entries(h, n, k - 1)[p := VNode(p, n, k - 1)]
  }

  ghost function Added(s: State, h: Hashing, k: nat, n: NodeId): State {
    State(s.places + multiset(Positions(h, n, k)), s.vnodes + Entries(h, n, k), s.nodes + {n})
  }

  ghost function Gone(s: State, n: NodeId): set<Pos> { set p | p in s.vnodes && s.vnodes[p].node == n }

  ghost function Removed(s: State, n: NodeId): State {
    State(s.places - multiset(Gone(s, n)), s.vnodes - Gone(s, n), s.nodes - {n})
  }

  /** Every position in the list has a virtual node of a node that takes part, so every lookup finds an owner. */
  ghost predicate Usable(s: State) {
    && (forall p :: p in s.places <==> p in s.vnodes)
    && (forall p :: p in s.vnodes ==> s.vnodes[p].node in s.nodes)
  }

  /** Every node has all its virtual nodes, each at a position of its own. */
  ghost predicate Sound(s: State, h: Hashing, k: nat) {
    && (forall p :: s.places[p] == if p in s.vnodes then 1 else 0)
    && (forall p :: p in s.vnodes ==> s.vnodes[p].node in s.nodes)
    && (forall n, i: nat {:trigger HasVNode(s, h, n, i)} :: n in s.nodes && i < k ==> HasVNode(s, h, n, i))
  }

  ghost predicate HasVNode(s: State, h: Hashing, n: NodeId, i: nat) {
    var p := h.vnode(n, i);
    p in s.vnodes && s.vnodes[p] == VNode(p, n, i)
  }

  /** The positions of `n` differ from each other and from those in the ring. */
  ghost predicate Apart(s: State, h: Hashing, k: nat, n: NodeId) {
    var ps := Positions(h, n, k);
    && (forall i :: 0 <= i < k ==> ps[i] !in s.vnodes)
    && Differ(ps)
  }

  ghost predicate Differ(ps: seq<Pos>) { forall i, j :: 0 <= i < j < |ps| ==> ps[i] != ps[j] }

  lemma {:induction false} AddUsable(s: State, h: Hashing, k: nat, n: NodeId)
    requires Usable(s)
    ensures Usable(Added(s, h, k, n))
  {
  }

  /** A ring stays usable when a node leaves if and only if no other virtual node was ever put at one of its positions. */
  lemma {:induction false} RemoveUsable(s: State, n: NodeId)
    requires Usable(s)
    ensures Usable(Removed(s, n)) <==> forall p :: p in Gone(s, n) ==> s.places[p] == 1
  {
    var r := Removed(s, n);
    forall p ensures r.places[p] == (if p in Gone(s, n) then s.places[p] - 1 else s.places[p]) {
      assert multiset(Gone(s, n))[p] == if p in Gone(s, n) then 1 else 0;
      assert p in Gone(s, n) ==> p in s.places;
    }
  }

  lemma {:induction false} RemoveSound(s: State, h: Hashing, k: nat, n: NodeId)
    requires Sound(s, h, k)
    ensures Usable(s) && Usable(Removed(s, n)) && Sound(Removed(s, n), h, k)
  {
    var r := Removed(s, n);
    forall p ensures r.places[p] == if p in r.vnodes then 1 else 0 {
      assert multiset(Gone(s, n))[p] == if p in Gone(s, n) then 1 else 0;
    }
    forall m, i: nat | m in r.nodes && i < k ensures HasVNode(r, h, m, i) {
      assert HasVNode(s, h, m, i);
    }
  }

  /** How often a position occurs among distinct ones. */
  lemma {:induction false} CountDistinct(ps: seq<Pos>, p: Pos)
    requires Differ(ps)
    ensures multiset(ps)[p] == if p in ps then 1 else 0
  {
    if ps != [] {
      var l := |ps| - 1;
      Seqs.TakeSnoc(ps, l);
      Seqs.TakeAll(ps);
      CountDistinct(ps[..l], p);
    }
  }

  lemma {:induction false} CountRepeated(ps: seq<Pos>, i: nat, j: nat)
    requires i < j < |ps| && ps[i] == ps[j]
    ensures multiset(ps)[ps[i]] >= 2
  {
    Seqs.Cut(ps, j);
    assert ps[i] in ps[..j] && ps[j] in ps[j..];
  }

  lemma {:induction false} FewerPositions(h: Hashing, n: NodeId, k: nat)
    requires k > 0
    ensures Positions(h, n, k) == Positions(h, n, k - 1) + [h.vnode(n, k - 1)]
  {
  }

  lemma {:induction false} EntriesAt(h: Hashing, n: NodeId, k: nat, i: nat)
    requires i < k && Differ(Positions(h, n, k))
    ensures var p := h.vnode(n, i); p in Entries(h, n, k) && Entries(h, n, k)[p] == VNode(p, n, i)
  {
    if i < k - 1 {
      FewerPositions(h, n, k);
      EntriesAt(h, n, k - 1, i);
      assert Positions(h, n, k)[i] != Positions(h, n, k)[k - 1];
    }
  }

  /** Each position once in the list. */
  lemma {:induction false} AddPlaces(s: State, h: Hashing, k: nat, n: NodeId, p: Pos)
    requires s.places[p] == (if p in s.vnodes then 1 else 0) && Apart(s, h, k, n)
    ensures Added(s, h, k, n).places[p] == if p in Added(s, h, k, n).vnodes then 1 else 0
  {
    CountDistinct(Positions(h, n, k), p);
  }

  lemma {:induction false} AddVNodes(s: State, h: Hashing, k: nat, n: NodeId, m: NodeId, i: nat)
    requires Apart(s, h, k, n) && i < k && (m == n || HasVNode(s, h, m, i))
    ensures HasVNode(Added(s, h, k, n), h, m, i)
  {
    if m == n {
      EntriesAt(h, n, k, i);
    }
  }

  lemma {:induction false} CrowdedTwice(s: State, h: Hashing, k: nat, n: NodeId)
    requires (forall p :: p in s.vnodes ==> s.places[p] >= 1) && !Apart(s, h, k, n)
    ensures exists p :: p in Positions(h, n, k) && Added(s, h, k, n).places[p] >= 2
  {
    var ps, a := Positions(h, n, k), Added(s, h, k, n);
    if i :| 0 <= i < k && ps[i] in s.vnodes {
      assert ps[i] in multiset(ps);
      assert a.places[ps[i]] >= 2;
    } else {
      var i, j :| 0 <= i < j < k && ps[i] == ps[j];
      CountRepeated(ps, i, j);
      assert a.places[ps[i]] >= 2;
    }
  }

  /** A node that joins leaves the ring sound if and only if its positions are apart. */
  lemma {:induction false} AddSound(s: State, h: Hashing, k: nat, n: NodeId)
    requires Sound(s, h, k) && n !in s.nodes
    ensures Sound(Added(s, h, k, n), h, k) <==> Apart(s, h, k, n)
  {
    if Apart(s, h, k, n) {
      ApartSound(s, h, k, n);
    } else {
      CrowdedTwice(s, h, k, n);
    }
  }

  lemma {:induction false} ApartSound(s: State, h: Hashing, k: nat, n: NodeId)
    requires Sound(s, h, k) && Apart(s, h, k, n)
    ensures Sound(Added(s, h, k, n), h, k)
  {
    var a := Added(s, h, k, n);
    forall p ensures a.places[p] == if p in a.vnodes then 1 else 0 {
      AddPlaces(s, h, k, n, p);
    }
    forall m, i: nat | m in a.nodes && i < k ensures HasVNode(a, h, m, i) {
      AddVNodes(s, h, k, n, m, i);
    }
  }

  lemma {:induction false} JoinedGone(s: State, h: Hashing, k: nat, n: NodeId)
    requires Usable(s) && n !in s.nodes
    ensures Gone(Added(s, h, k, n), n) == Entries(h, n, k).Keys
  {
  }

  /** Leaving undoes joining if and only if the positions were apart. */
  lemma {:induction false} AddThenRemove(s: State, h: Hashing, k: nat, n: NodeId)
    requires Usable(s) && n !in s.nodes
    ensures Removed(Added(s, h, k, n), n) == s <==> Apart(s, h, k, n)
  {
    JoinedGone(s, h, k, n);
    if Apart(s, h, k, n) {
      AddUndone(s, h, k, n);
    } else {
      AddStays(s, h, k, n);
    }
  }

  lemma {:induction false} AddUndone(s: State, h: Hashing, k: nat, n: NodeId)
    requires Usable(s) && n !in s.nodes && Apart(s, h, k, n) && Gone(Added(s, h, k, n), n) == Entries(h, n, k).Keys
    ensures Removed(Added(s, h, k, n), n) == s
  {
    PlacesUndone(s.places, Positions(h, n, k), Entries(h, n, k).Keys);
    VNodesUndone(s.vnodes, Entries(h, n, k));
    NodesUndone(s.nodes, n);
  }

  lemma {:induction false} PlacesUndone(places: multiset<Pos>, ps: seq<Pos>, keys: set<Pos>)
    requires Differ(ps) && forall p :: p in keys <==> p in ps
    ensures places + multiset(ps) - multiset(keys) == places
  {
    forall p ensures multiset(ps)[p] == multiset(keys)[p] {
      CountDistinct(ps, p);
    }
  }

  lemma {:induction false} NodesUndone(nodes: set<NodeId>, n: NodeId)
    requires n !in nodes
    ensures nodes + {n} - {n} == nodes
  {
  }

  lemma {:induction false} VNodesUndone(vs: map<Pos, VNode>, more: map<Pos, VNode>)
    requires forall p :: p in more ==> p !in vs
    ensures vs + more - more.Keys == vs
  {
  }

  /** A position that was taken is lost with the node, or stays behind in the list. */
  lemma {:induction false} AddStays(s: State, h: Hashing, k: nat, n: NodeId)
    requires Usable(s) && n !in s.nodes && !Apart(s, h, k, n) && Gone(Added(s, h, k, n), n) == Entries(h, n, k).Keys
    ensures Removed(Added(s, h, k, n), n) != s
  {
    CrowdedTwice(s, h, k, n);
    var p :| p in Positions(h, n, k) && Added(s, h, k, n).places[p] >= 2;
    var r := Removed(Added(s, h, k, n), n);
    assert p !in r.vnodes && r.places[p] >= 1;
  }

  /** After a node has joined and left again every lookup works if and only if its positions were apart. */
  lemma {:induction false} LookupsSurvive(s: State, h: Hashing, k: nat, n: NodeId)
    requires Usable(s) && n !in s.nodes
    ensures Usable(Removed(Added(s, h, k, n), n)) <==> Apart(s, h, k, n)
  {
    AddUsable(s, h, k, n);
    RemoveUsable(Added(s, h, k, n), n);
    JoinedGone(s, h, k, n);
    if Apart(s, h, k, n) {
      AddUndone(s, h, k, n);
    } else {
      CrowdedTwice(s, h, k, n);
    }
  }

  lemma {:induction false} OneEntry(h: Hashing, n: NodeId)
    ensures Positions(h, n, 1) == [h.vnode(n, 0)] && Entries(h, n, 1) == map[h.vnode(n, 0) := VNode(h.vnode(n, 0), n, 0)]
  {
    FewerPositions(h, n, 1);
    assert Entries(h, n, 0) == map[];
  }

  ghost function Nobodies(): State { State(multiset{}, map[], {}) }

  /** Two nodes with one virtual node each, both at the same position: when the second leaves, the position stays in the
      list without a virtual node, and the first node has none. */
  lemma {:induction false} CollisionExample(h: Hashing, a: NodeId, b: NodeId)
    requires a != b && h.vnode(a, 0) == h.vnode(b, 0)
    ensures var r := Removed(Added(Added(Nobodies(), h, 1, a), h, 1, b), b); h.vnode(a, 0) in r.places && r.vnodes == map[] && a in r.nodes
  {
    OneEntry(h, a);
    OneEntry(h, b);
    var p, s := h.vnode(a, 0), Added(Added(Nobodies(), h, 1, a), h, 1, b);
    assert s.places[p] == 2;
    assert Gone(s, b) == {p};
  }

  /** In a sound ring of nodes with virtual nodes, the last node's departure, and no other, leaves nobody. */
  lemma {:induction false} LastNode(s: State, h: Hashing, k: nat, n: NodeId)
    requires Sound(s, h, k) && k > 0
    ensures Removed(s, n).vnodes == map[] <==> s.nodes <= {n}
  {
    forall m | m in s.nodes ensures HasVNode(s, h, m, 0) {}
    assert forall m :: m in s.nodes && m != n ==> h.vnode(m, 0) in Removed(s, n).vnodes;
  }

  // ---- the sorted list ----------------------------------------------------------------------------------------------

  ghost predicate Ascending(ring: seq<Pos>) { forall i, j :: 0 <= i < j < |ring| ==> ring[i] <= ring[j] }

  function BisectRight(ring: seq<Pos>, x: Pos): (i: nat)
    requires Ascending(ring)
    ensures i <= |ring| && (forall j :: 0 <= j < i ==> ring[j] <= x) && (forall j :: i <= j < |ring| ==> ring[j] > x)
  {
    if ring == [] || ring[|ring| - 1] <= x then |ring| else BisectRight(ring[..|ring| - 1], x)
  }

  function BisectLeft(ring: seq<Pos>, x: Pos): (i: nat)
    requires Ascending(ring)
    ensures i <= |ring| && (forall j :: 0 <= j < i ==> ring[j] < x) && (forall j :: i <= j < |ring| ==> ring[j] >= x)
  {
    if ring == [] || ring[|ring| - 1] < x then |ring| else BisectLeft(ring[..|ring| - 1], x)
  }

  lemma {:induction false} OneMore(a: seq<Pos>, p: Pos, b: seq<Pos>)
    ensures multiset(a + [p] + b) == multiset(a + b) + multiset{p}
    ensures forall q :: q in a + [p] + b <==> q == p || q in a + b
  {
  }

  lemma {:induction false} Inserted(ring: seq<Pos>, i: nat, p: Pos)
    requires Ascending(ring) && i == BisectRight(ring, p)
    ensures Ascending(ring[..i] + [p] + ring[i..]) && multiset(ring[..i] + [p] + ring[i..]) == multiset(ring) + multiset{p}
    ensures forall q :: q in ring[..i] + [p] + ring[i..] <==> q == p || q in ring
  {
    Seqs.Cut(ring, i);
    OneMore(ring[..i], p, ring[i..]);
  }

  lemma {:induction false} Found(ring: seq<Pos>, i: nat, p: Pos)
    requires Ascending(ring) && p in ring && i == BisectLeft(ring, p)
    ensures i < |ring| && ring[i] == p && ring == ring[..i] + [p] + ring[i + 1..]
  {
    var k :| 0 <= k < |ring| && ring[k] == p;
    assert i <= k;
  }

  lemma {:induction false} Popped(ring: seq<Pos>, i: nat, p: Pos)
    requires Ascending(ring) && i < |ring| && ring == ring[..i] + [p] + ring[i + 1..]
    ensures Ascending(ring[..i] + ring[i + 1..]) && multiset(ring[..i] + ring[i + 1..]) == multiset(ring) - multiset{p}
    ensures forall q :: q in ring && q != p ==> q in ring[..i] + ring[i + 1..]
  {
    OneMore(ring[..i], p, ring[i + 1..]);
  }

  /** Index `x` of a list that goes round once more. */
  function Round(len: nat, x: nat): (i: nat)
    requires x < 2 * len
    ensures i < len
  {
    if x < len then x else x - len
  }

  /** The index of the first position after `p`. */
  ghost function Start(ring: seq<Pos>, p: Pos): nat
    requires Ascending(ring) && ring != []
  {
    Round(|ring|, BisectRight(ring, p))
  }

  /** From there on, the list goes away from `p` clockwise. */
  lemma {:induction false} WalkAway(ring: seq<Pos>, p: Pos, i: nat, j: nat)
    requires Ascending(ring) && i <= j < |ring|
    ensures Distance(p, ring[Round(|ring|, Start(ring, p) + i)]) <= Distance(p, ring[Round(|ring|, Start(ring, p) + j)])
  {
  }

  lemma {:induction false} Turned(ring: seq<Pos>, p: Pos, x: Pos) returns (k: nat)
    requires Ascending(ring) && x in ring
    ensures k < |ring| && ring[Round(|ring|, Start(ring, p) + k)] == x
  {
    var b := Start(ring, p);
    var i :| 0 <= i < |ring| && ring[i] == x;
    k := if i >= b then i - b else i + |ring| - b;
  }

  lemma {:induction false} FirstIsNearest(ring: seq<Pos>, ps: set<Pos>, p: Pos)
    requires Ascending(ring) && ring != [] && forall q :: q in ps <==> q in ring
    ensures Nearest(ps, p, ring[Start(ring, p)])
  {
    forall q | q in ps ensures Distance(p, ring[Start(ring, p)]) <= Distance(p, q) {
      var k := Turned(ring, p, q);
      WalkAway(ring, p, 0, k);
    }
  }

  /** If the first position from `p` on has its virtual node, that is the owner's, whatever the others have lost. */
  lemma {:induction false} FirstOwns(ring: seq<Pos>, vs: map<Pos, VNode>, p: Pos)
    requires Ascending(ring) && ring != [] && (forall q :: q in vs ==> q in ring) && ring[Start(ring, p)] in vs
    ensures Owner(vs, p) == Some(vs[ring[Start(ring, p)]].node)
  {
    var ps := set q | q in ring;
    FirstIsNearest(ring, ps, p);
    OwnerIs(vs, p, ring[Start(ring, p)]);
  }

  ghost function With(s: State, v: VNode): State { State(s.places + multiset{v.position}, s.vnodes[v.position := v], s.nodes) }

  ghost function Less(s: State, p: Pos): State { State(s.places - multiset{p}, s.vnodes - {p}, s.nodes) }

  /** Joining, after `i` virtual nodes. */
  ghost function Joining(s: State, h: Hashing, i: nat, n: NodeId): State {
    State(s.places + multiset(Positions(h, n, i)), s.vnodes + Entries(h, n, i), s.nodes)
  }

  lemma {:induction false} JoinStart(s: State, h: Hashing, n: NodeId)
    ensures Joining(s, h, 0, n) == s
  {
  }

  lemma {:induction false} PutLast(vs: map<Pos, VNode>, e: map<Pos, VNode>, p: Pos, v: VNode)
    ensures vs + e[p := v] == (vs + e)[p := v]
  {
  }

  lemma {:induction false} CountLast(places: multiset<Pos>, ps: seq<Pos>, p: Pos)
    ensures places + multiset(ps + [p]) == places + multiset(ps) + multiset{p}
  {
  }

  lemma {:induction false} JoinStep(s: State, h: Hashing, i: nat, n: NodeId)
    ensures Joining(s, h, i + 1, n) == With(Joining(s, h, i, n), VNode(h.vnode(n, i), n, i))
  {
    var p := h.vnode(n, i);
    FewerPositions(h, n, i + 1);
    PutLast(s.vnodes, Entries(h, n, i), p, VNode(p, n, i));
    CountLast(s.places, Positions(h, n, i), p);
  }

  /** Leaving, after the positions in `done`. */
  ghost function Leaving(s: State, done: set<Pos>): State { State(s.places - multiset(done), s.vnodes - done, s.nodes) }

  lemma {:induction false} LeaveStep(s: State, done: set<Pos>, p: Pos)
    requires p !in done
    ensures Leaving(s, done + {p}) == Less(Leaving(s, done), p)
  {
    assert multiset(done + {p}) == multiset(done) + multiset{p};
    assert s.vnodes - (done + {p}) == s.vnodes - done - {p};
  }

  lemma {:induction false} MoveOver(rest: set<Pos>, done: set<Pos>, p: Pos)
    requires p in rest && rest !! done
    ensures (rest - {p}) !! (done + {p}) && (rest - {p}) + (done + {p}) == rest + done && |done + {p}| == |done| + 1
  {
  }

  // ---- replicas -----------------------------------------------------------------------------------------------------

  ghost predicate Covered(ring: seq<Pos>, vs: map<Pos, VNode>) { forall p :: p in ring ==> p in vs }

  /** The owners of the positions from index `b` on, once round. */
  ghost function Walk(ring: seq<Pos>, vs: map<Pos, VNode>, b: nat): (w: seq<NodeId>)
    requires b < |ring| && Covered(ring, vs)
    ensures |w| == |ring| && forall j :: 0 <= j < |w| ==> w[j] == vs[ring[Round(|ring|, b + j)]].node
  {
    seq<NodeId>(|ring|, j requires 0 <= j < |ring| => vs[ring[Round(|ring|, b + j)]].node)
  }

  /** Each element once, where it comes first. */
  function Dedup(s: seq<NodeId>): (d: seq<NodeId>)
    ensures (forall x :: x in d <==> x in s) && forall i, j :: 0 <= i < j < |d| ==> d[i] != d[j]
  {
    if s == [] then []
    else
      var d, x := Dedup(s[..|s| - 1]), s[|s| - 1];
      assert s == s[..|s| - 1] + [x];
      if x in d then d else d + [x]
  }

  lemma {:induction false} DedupPrefix(s: seq<NodeId>, k: nat)
    requires k <= |s|
    ensures Dedup(s[..k]) <= Dedup(s)
  {
    if k < |s| {
      Seqs.TakeTake(s, |s| - 1, k);
      DedupPrefix(s[..|s| - 1], k);
    } else {
      Seqs.TakeAll(s);
    }
  }

  lemma {:induction false} DedupSnoc(s: seq<NodeId>, k: nat)
    requires k < |s|
    ensures Dedup(s[..k + 1]) == if s[k] in Dedup(s[..k]) then Dedup(s[..k]) else Dedup(s[..k]) + [s[k]]
  {
    Seqs.TakeTake(s, k + 1, k);
  }

  /** The first `n` nodes met on the walk; all of them if `n` is not positive or too large. */
  ghost function Replicas(walk: seq<NodeId>, n: int): seq<NodeId> {
    var d := Dedup(walk);
    if 1 <= n <= |d| then d[..n] else d
  }

  lemma {:induction false} DistinctFit(d: seq<NodeId>, nodes: set<NodeId>)
    requires (forall i, j :: 0 <= i < j < |d| ==> d[i] != d[j]) && forall x :: x in d ==> x in nodes
    ensures |d| <= |nodes|
  {
    if d != [] {
      var n := |d| - 1;
      DistinctFit(d[..n], nodes - {d[n]});
    }
  }

  /** As many nodes as asked for, or all there are on the walk, just when at least one is asked for. */
  lemma {:induction false} ReplicaCount(walk: seq<NodeId>, nodes: set<NodeId>, count: int)
    requires walk != [] && forall x :: x in walk ==> x in nodes
    ensures var n, m := if count <= |nodes| then count else |nodes|, |Dedup(walk)|;
            |Replicas(walk, n)| == (if count <= m then count else m) <==> count >= 1
  {
    DistinctFit(Dedup(walk), nodes);
    assert walk[0] in Dedup(walk) && walk[0] in nodes;
  }

  /** An input: asked for no node, the walk gives all. */
  lemma {:induction false} NoneGetsAll(a: NodeId, b: NodeId)
    requires a != b
    ensures Replicas([a, b], 0) == [a, b]
  {
    assert [a, b][..1] == [a] && [a][..0] == [];
    assert Dedup([a]) == [a];
  }

  /** `found` are the nodes met on the first `k` steps. */
  ghost predicate Met(walk: seq<NodeId>, k: nat, found: seq<NodeId>) { k <= |walk| && found == Dedup(walk[..k]) }

  lemma {:induction false} MetNext(walk: seq<NodeId>, k: nat, found: seq<NodeId>, x: NodeId, n: int)
    requires k < |walk| && Met(walk, k, found) && x == walk[k]
    ensures x in found ==> Met(walk, k + 1, found)
    ensures x !in found ==> Met(walk, k + 1, found + [x]) && (n >= 1 && |found + [x]| == n ==> Replicas(walk, n) == found + [x])
  {
    DedupSnoc(walk, k);
    DedupPrefix(walk, k + 1);
  }

  lemma {:induction false} MetAll(walk: seq<NodeId>, found: seq<NodeId>, n: int)
    requires Met(walk, |walk|, found) && (n <= 0 || |found| < n)
    ensures Replicas(walk, n) == found
  {
    Seqs.TakeAll(walk);
  }

  /** Past the end is the start. */
  function Wrapped(len: nat, i: nat): (r: nat)
    requires i <= len && len > 0
    ensures r == Round(len, i)
  {
    i % len
  }

  /** One step on, round the end. */
  function Next(len: nat, i: nat): (r: nat)
    requires i < len
    ensures r == if i + 1 == len then 0 else i + 1
  {
    (i + 1) % len
  }

  /** A node among the first `m` is met before any node that is not. */
  lemma {:induction false} MetBefore(s: seq<NodeId>, m: nat, a: NodeId, b: NodeId) returns (j: nat)
    requires m <= |Dedup(s)| && a in Dedup(s)[..m] && b in s && b !in Dedup(s)[..m]
    ensures j < |s| && s[j] == a && forall k :: 0 <= k < |s| && s[k] == b ==> j < k
  {
    var t, x := s[..|s| - 1], s[|s| - 1];
    var d := Dedup(t);
    Seqs.TakeSnoc(s, |s| - 1);
    Seqs.TakeAll(Dedup(s));
    assert b in Dedup(s);
    assert m < |Dedup(s)|;
    assert Dedup(s)[..m] == d[..m];
    if b in t {
      j := MetBefore(t, m, a, b);
    } else {
      assert a in d;
      j :| 0 <= j < |t| && t[j] == a;
    }
  }

  /** `r` are the nodes that come first clockwise from `p`: any of them has a virtual node before all virtual nodes of
      any node that is not among them. */
  ghost predicate ComeFirst(vs: map<Pos, VNode>, p: Pos, r: seq<NodeId>) {
    && (forall i, j :: 0 <= i < j < |r| ==> r[i] != r[j])
    && (forall a, x :: a in r && x in vs && vs[x].node !in r ==> Before(vs, p, a, vs[x].node))
  }

  ghost predicate Before(vs: map<Pos, VNode>, p: Pos, a: NodeId, b: NodeId) {
    exists q :: q in vs && vs[q].node == a && forall x :: x in vs && vs[x].node == b ==> Distance(p, q) < Distance(p, x)
  }

  lemma {:induction false} ReplicasComeFirst(ring: seq<Pos>, vs: map<Pos, VNode>, p: Pos, n: int)
    requires Ascending(ring) && ring != [] && forall q :: q in ring <==> q in vs
    ensures ComeFirst(vs, p, Replicas(Walk(ring, vs, Start(ring, p)), n))
  {
    var w := Walk(ring, vs, Start(ring, p));
    var r := Replicas(w, n);
    var m: nat := |r|;
    assert r == Dedup(w)[..m];
    forall a, x | a in r && x in vs && vs[x].node !in r ensures Before(vs, p, a, vs[x].node) {
      OneBefore(ring, vs, p, w, m, a, x);
    }
  }

  lemma {:induction false} OneBefore(ring: seq<Pos>, vs: map<Pos, VNode>, p: Pos, w: seq<NodeId>, m: nat, a: NodeId, x: Pos)
    requires Ascending(ring) && ring != [] && forall q :: q in ring <==> q in vs
    requires w == Walk(ring, vs, Start(ring, p))
    requires m <= |Dedup(w)| && a in Dedup(w)[..m] && x in vs && vs[x].node !in Dedup(w)[..m]
    ensures Before(vs, p, a, vs[x].node)
  {
    var k := Turned(ring, p, x);
    var j := MetBefore(w, m, a, w[k]);
    var q := ring[Round(|ring|, Start(ring, p) + j)];
    forall y | y in vs && vs[y].node == vs[x].node ensures Distance(p, q) < Distance(p, y) {
      var l := Turned(ring, p, y);
      assert w[l] == vs[y].node;
      WalkAway(ring, p, j, l);
      DistanceDiffers(p, q, y);
    }
  }

  lemma {:induction false} DistanceDiffers(p: Pos, q: Pos, x: Pos)
    ensures Distance(p, q) == Distance(p, x) <==> q == x
  {
  }

  /** The first node met is the owner. */
  lemma {:induction false} FirstReplica(ring: seq<Pos>, vs: map<Pos, VNode>, p: Pos)
    requires Ascending(ring) && ring != [] && forall q :: q in ring <==> q in vs
    ensures Owner(vs, p).Some? && Replicas(Walk(ring, vs, Start(ring, p)), 1) == [Owner(vs, p).value]
  {
    var w := Walk(ring, vs, Start(ring, p));
    FirstIsNearest(ring, vs.Keys, p);
    OwnerIs(vs, p, ring[Start(ring, p)]);
    WalkAt(ring, vs, Start(ring, p), 0);
    DedupSnoc(w, 0);
    DedupPrefix(w, 1);
    assert Dedup(w)[0] == w[0];
  }

  lemma {:induction false} WalkAt(ring: seq<Pos>, vs: map<Pos, VNode>, b: nat, j: nat)
    requires b < |ring| && j < |ring| && Covered(ring, vs)
    ensures Walk(ring, vs, b)[j] == vs[ring[Round(|ring|, b + j)]].node
  {
  }

  /** Go round from index `b` until `n` nodes are found; `None` where a position has lost its virtual node. */
  method Collect(ring: seq<Pos>, vnodes: map<Pos, VNode>, b: nat, n: int) returns (r: Option<seq<NodeId>>)
    requires b < |ring|
    ensures Covered(ring, vnodes) ==> r == Some(Replicas(Walk(ring, vnodes, b), n))
  {
    ghost var usable := Covered(ring, vnodes);
    ghost var w := if usable then Walk(ring, vnodes, b) else [];
    var idx, found, seen, i := b, [], {}, 0;
    while i < |ring|
      invariant 0 <= i <= |ring| && idx == Round(|ring|, b + i)
      invariant (forall x :: x in seen <==> x in found) && (n <= 0 || |found| < n)
      invariant usable ==> Met(w, i, found)
    {
      if ring[idx] !in vnodes {
        return None;
      }
      var node := vnodes[ring[idx]].node;
      if usable {
        WalkAt(ring, vnodes, b, i);
        MetNext(w, i, found, node, n);
      }
      if node !in seen {
        found, seen := found + [node], seen + {node};
        if |found| == n {
          return Some(found);
        }
      }
      idx := Next(|ring|, idx);
      i := i + 1;
    }
    if usable {
      MetAll(w, found, n);
    }
    r := Some(found);
  }

  /** What a lookup says: nobody takes part, a node, or an exception when a position has lost its virtual node. */
  datatype Lookup = Nobody | Is(node: NodeId) | KeyError

  ghost function LookupOf(o: Option<NodeId>): Lookup { if o.None? then Nobody else Is(o.value) }

  class ConsistentHashRing {
    const vnodesPerNode: nat
    const h: Hashing
    var ring: seq<Pos>
    var vnodes: map<Pos, VNode>
    var nodes: set<NodeId>

    ghost function View(): State
      reads this
    {
      State(multiset(ring), vnodes, nodes)
    }

    ghost predicate Ordered()
      reads this
    {
      Ascending(ring) && forall p :: p in vnodes ==> p in ring
    }

    constructor (vnodesPerNode: nat, h: Hashing)
      ensures Ordered() && Sound(View(), h, vnodesPerNode) && nodes == {} && ring == []
      ensures this.vnodesPerNode == vnodesPerNode && this.h == h
    {
      this.vnodesPerNode, this.h := vnodesPerNode, h;
      ring, vnodes, nodes := [], map[], {};
    }

    /** `None` is where the source raises. */
    method AddNode(n: NodeId) returns (r: Option<seq<Pos>>)
      requires Ordered()
      modifies this
      ensures Ordered()
      ensures n in old(nodes) ==> r == None && View() == old(View()) && ring == old(ring)
      ensures n !in old(nodes) ==> r == Some(Positions(h, n, vnodesPerNode)) && View() == Added(old(View()), h, vnodesPerNode, n)
    {
      if n in nodes {
        return None;
      }
      ghost var was := View();
      JoinStart(was, h, n);
      var positions: seq<Pos> := [];
      var i := 0;
      while i < vnodesPerNode
        invariant 0 <= i <= vnodesPerNode && positions == Positions(h, n, i)
        invariant Ordered() && View() == Joining(was, h, i, n)
      {
        var pos := h.vnode(n, i);
        FewerPositions(h, n, i + 1);
        JoinStep(was, h, i, n);
        Place(pos, n, i);
        positions := positions + [pos];
        i := i + 1;
      }
      nodes := nodes + {n};
      r := Some(positions);
    }

    method Place(pos: Pos, n: NodeId, i: nat)
      requires Ordered()
      modifies `ring, `vnodes
      ensures Ordered() && View() == With(old(View()), VNode(pos, n, i))
    {
      vnodes := vnodes[pos := VNode(pos, n, i)];
      var at := BisectRight(ring, pos);
      Inserted(ring, at, pos);
      ring := ring[..at] + [pos] + ring[at..];
    }

    /** `None` is where the source raises; otherwise the number of virtual nodes removed. */
    method RemoveNode(n: NodeId) returns (r: Option<nat>)
      requires Ordered()
      modifies this
      ensures Ordered()
      ensures n !in old(nodes) ==> r == None && View() == old(View()) && ring == old(ring)
      ensures n in old(nodes) ==> r == Some(|Gone(old(View()), n)|) && View() == Removed(old(View()), n)
    {
      if n !in nodes {
        return None;
      }
      ghost var was := View();
      var removed := 0;
      var positionsToRemove := set p | p in vnodes && vnodes[p].node == n;
      ghost var gone, done: set<Pos> := positionsToRemove, {};
      while positionsToRemove != {}
        invariant positionsToRemove !! done && positionsToRemove + done == gone && removed == |done|
        invariant Ordered() && View() == Leaving(was, done) && gone <= was.vnodes.Keys
        decreases |positionsToRemove|
      {
        var pos :| pos in positionsToRemove;
        LeaveStep(was, done, pos);
        MoveOver(positionsToRemove, done, pos);
        Drop(pos);
        removed := removed + 1;
        positionsToRemove, done := positionsToRemove - {pos}, done + {pos};
      }
      nodes := nodes - {n};
      r := Some(removed);
    }

    method Drop(pos: Pos)
      requires Ordered() && pos in vnodes
      modifies `ring, `vnodes
      ensures Ordered() && View() == Less(old(View()), pos)
    {
      vnodes := vnodes - {pos};
      var idx := BisectLeft(ring, pos);
      Found(ring, idx, pos);
      if idx < |ring| && ring[idx] == pos {
        Popped(ring, idx, pos);
        ring := ring[..idx] + ring[idx + 1..];
      }
    }

    method GetNode(key: string) returns (r: Lookup)
      requires Ordered()
      ensures (r == Nobody <==> ring == []) && (r == Nobody ==> vnodes == map[])
      ensures r.Is? ==> Owner(vnodes, h.key(key)) == Some(r.node)
      ensures Usable(View()) ==> r == LookupOf(Owner(vnodes, h.key(key)))
    {
      if ring == [] {
        assert vnodes == map[];
        return Nobody;
      }
      var pos := h.key(key);
      var b := BisectRight(ring, pos);
      var idx := Wrapped(|ring|, b);
      if ring[idx] !in vnodes {
        assert !Usable(View()) by { assert ring[idx] in View().places; }
        return KeyError;
      }
      FirstOwns(ring, vnodes, pos);
      r := Is(vnodes[ring[idx]].node);
    }

    /** `None` is where the source raises because a position has lost its virtual node. */
    method GetNodes(key: string, count: int) returns (r: Option<seq<NodeId>>)
      requires Ordered()
      ensures ring == [] ==> r == Some([])
      ensures Usable(View()) && ring != [] ==>
                r == Some(Replicas(Walk(ring, vnodes, Start(ring, h.key(key))), if count <= |nodes| then count else |nodes|))
      ensures Usable(View()) && ring != [] ==>
                var m := |Dedup(Walk(ring, vnodes, Start(ring, h.key(key))))|; |r.value| == (if count <= m then count else m) <==> count >= 1
    {
      if ring == [] {
        return Some([]);
      }
      var n := if count <= |nodes| then count else |nodes|;
      var b := Wrapped(|ring|, BisectRight(ring, h.key(key)));
      assert Usable(View()) ==> Covered(ring, vnodes);
      r := Collect(ring, vnodes, b, n);
      if Usable(View()) { ReplicaCount(Walk(ring, vnodes, b), nodes, count); }
    }
  }
}
