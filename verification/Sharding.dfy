/** A store split over the nodes of a hash ring, one copy of each key. It behaves like one map; the two calls that
    lose entries are the addition of a node that is already there and the removal of the last node. */
module Sharding {
  import opened Commands
  import opened Ring

  type Shards = map<NodeId, map<Key, Value>>
  type Where = map<Key, Option<NodeId>>

  /** The shards hold `data`, each key in the one shard that `at` names. */
  ghost predicate Located(shards: Shards, data: map<Key, Value>, at: Where) {
    && at.Keys == data.Keys
    && (forall k {:trigger Kept(shards, data, at, k)} :: k in data ==> Kept(shards, data, at, k))
    && (forall n, k {:trigger Lies(shards, n, k)} :: Lies(shards, n, k) ==> k in at && at[k] == Some(n))
  }

  ghost predicate Lies(shards: Shards, n: NodeId, k: Key) { n in shards && k in shards[n] }

  ghost predicate Kept(shards: Shards, data: map<Key, Value>, at: Where, k: Key)
    requires k in data
  {
    k in at && at[k].Some? && at[k].value in shards && k in shards[at[k].value] && shards[at[k].value][k] == data[k]
  }

  ghost function Owners(vs: map<Pos, VNode>, h: Hashing, keys: set<Key>): Where { map k | k in keys :: Owner(vs, h.key(k)) }

  function PutIn(shards: Shards, n: NodeId, k: Key, v: Value): Shards
    requires n in shards
  {
    shards[n := shards[n][k := v]]
  }

  function TakeFrom(shards: Shards, n: NodeId, k: Key): Shards
    requires n in shards
  {
    shards[n := shards[n] - {k}]
  }

  lemma {:induction false} PutLocated(shards: Shards, data: map<Key, Value>, at: Where, n: NodeId, k: Key, v: Value)
    requires Located(shards, data, at) && n in shards && (k in at ==> at[k] == Some(n))
    ensures Located(PutIn(shards, n, k, v), data[k := v], at[k := Some(n)])
  {
    var s', data', at' := PutIn(shards, n, k, v), data[k := v], at[k := Some(n)];
    forall x | x in data' ensures Kept(s', data', at', x) {
      assert x != k ==> Kept(shards, data, at, x);
    }
    forall m, x | Lies(s', m, x) ensures x in at' && at'[x] == Some(m) {
      assert Lies(shards, m, x) || (m == n && x == k);
    }
  }

  lemma {:induction false} TakeLocated(shards: Shards, data: map<Key, Value>, at: Where, n: NodeId, k: Key)
    requires Located(shards, data, at) && n in shards && (k in at ==> at[k] == Some(n))
    ensures Located(TakeFrom(shards, n, k), data - {k}, at - {k})
  {
    var s', data', at' := TakeFrom(shards, n, k), data - {k}, at - {k};
    forall x | x in data' ensures Kept(s', data', at', x) {
      assert Kept(shards, data, at, x);
    }
    forall m, x | Lies(s', m, x) ensures x in at' && at'[x] == Some(m) {
      assert Lies(shards, m, x);
    }
  }

  lemma {:induction false} MoveLocated(shards: Shards, data: map<Key, Value>, at: Where, m: NodeId, n: NodeId, k: Key)
    requires Located(shards, data, at) && m != n && m in shards && n in shards && k in shards[m]
    ensures k in at && k !in shards[n]
    ensures Located(PutIn(TakeFrom(shards, m, k), n, k, shards[m][k]), data, at[k := Some(n)])
  {
    assert Lies(shards, m, k) && (k in shards[n] ==> Lies(shards, n, k));
    assert Kept(shards, data, at, k);
    TakeLocated(shards, data, at, m, k);
    PutLocated(TakeFrom(shards, m, k), data - {k}, at - {k}, n, k, data[k]);
    PutBack(data, k, data[k]);
    PutBack(at, k, Some(n));
    assert data[k := data[k]] == data;
  }

  lemma {:induction false} PutBack<V>(m: map<Key, V>, k: Key, v: V)
    ensures (m - {k})[k := v] == m[k := v]
  {
  }

  lemma {:induction false} NotThere(data: map<Key, Value>, k: Key)
    ensures k !in data ==> data - {k} == data
  {
  }

  /** A shard goes, or is emptied, and its keys with it. */
  lemma {:induction false} DropLocated(shards: Shards, data: map<Key, Value>, at: Where, n: NodeId, shards': Shards)
    requires Located(shards, data, at) && n in shards && (shards' == shards - {n} || shards' == shards[n := map[]])
    ensures Located(shards', data - shards[n].Keys, at - shards[n].Keys)
  {
    var gone := shards[n].Keys;
    var data', at' := data - gone, at - gone;
    forall k | k in data' ensures Kept(shards', data', at', k) {
      assert Kept(shards, data, at, k);
    }
    forall m, k | Lies(shards', m, k) ensures k in at' && at'[k] == Some(m) {
      assert Lies(shards, m, k) && (k in gone ==> Lies(shards, n, k));
    }
  }

  lemma {:induction false} FreshLocated(shards: Shards, data: map<Key, Value>, at: Where, n: NodeId, shards': Shards)
    requires Located(shards, data, at) && n !in shards && shards' == shards[n := map[]]
    ensures Located(shards', data, at)
  {
    forall k | k in data ensures Kept(shards', data, at, k) {
      assert Kept(shards, data, at, k);
    }
    forall m, k | Lies(shards', m, k) ensures k in at && at[k] == Some(m) {
      assert Lies(shards, m, k);
    }
  }

  /** Each key of `data` is in the shard of its owner and nowhere else. */
  ghost predicate Home(vs: map<Pos, VNode>, h: Hashing, shards: Shards, data: map<Key, Value>) {
    Located(shards, data, Owners(vs, h, data.Keys))
  }

  lemma {:induction false} HomePut(vs: map<Pos, VNode>, h: Hashing, shards: Shards, data: map<Key, Value>, n: NodeId, k: Key, v: Value)
    requires Home(vs, h, shards, data) && n in shards && Owner(vs, h.key(k)) == Some(n)
    ensures Home(vs, h, PutIn(shards, n, k, v), data[k := v])
  {
    PutLocated(shards, data, Owners(vs, h, data.Keys), n, k, v);
    assert Owners(vs, h, data[k := v].Keys) == Owners(vs, h, data.Keys)[k := Some(n)];
  }

  lemma {:induction false} HomeTake(vs: map<Pos, VNode>, h: Hashing, shards: Shards, data: map<Key, Value>, n: NodeId, k: Key)
    requires Home(vs, h, shards, data) && n in shards && Owner(vs, h.key(k)) == Some(n)
    ensures Home(vs, h, TakeFrom(shards, n, k), data - {k})
  {
    TakeLocated(shards, data, Owners(vs, h, data.Keys), n, k);
    assert Owners(vs, h, (data - {k}).Keys) == Owners(vs, h, data.Keys) - {k};
  }

  /** What the owner's shard holds under a key is what the store holds. */
  lemma {:induction false} HomeAt(vs: map<Pos, VNode>, h: Hashing, shards: Shards, data: map<Key, Value>, n: NodeId, k: Key)
    requires Home(vs, h, shards, data) && n in shards && Owner(vs, h.key(k)) == Some(n)
    ensures (k in shards[n] <==> k in data) && (k in data ==> shards[n][k] == data[k])
  {
    assert k in data ==> Kept(shards, data, Owners(vs, h, data.Keys), k);
    assert Lies(shards, n, k) ==> k in data;
  }

  // ---- a node joins -------------------------------------------------------------------------------------------------

  /** Where a key is while `n` joins: with `n` once its old owner's shard has been gone through. */
  ghost function Joined(vs: map<Pos, VNode>, vs': map<Pos, VNode>, h: Hashing, n: NodeId, rest: set<NodeId>, k: Key): Option<NodeId> {
    var o := Owner(vs, h.key(k));
    if Owner(vs', h.key(k)) == Some(n) && (o.Some? ==> o.value !in rest) then Some(n) else o
  }

  ghost predicate WhileJoining(vs: map<Pos, VNode>, vs': map<Pos, VNode>, h: Hashing, n: NodeId, rest: set<NodeId>, at: Where) {
    forall k :: k in at ==> at[k] == Joined(vs, vs', h, n, rest, k)
  }

  /** `at'` is `at` with the keys in `ks` sent to `n`. */
  ghost predicate Sent(at: Where, ks: set<Key>, n: NodeId, at': Where) {
    at'.Keys == at.Keys && forall k :: k in at' ==> at'[k] == if k in ks then Some(n) else at[k]
  }

  ghost predicate Claimed(vs: map<Pos, VNode>, h: Hashing, shard: map<Key, Value>, n: NodeId, ks: set<Key>) {
    forall k :: k in ks <==> k in shard && Owner(vs, h.key(k)) == Some(n)
  }

  /** One shard has been gone through. */
  lemma {:induction false} JoinedOne(vs: map<Pos, VNode>, vs': map<Pos, VNode>, h: Hashing, n: NodeId, rest: set<NodeId>, m: NodeId,
                                     shards: Shards, data: map<Key, Value>, at: Where, ks: set<Key>, at': Where)
    requires Located(shards, data, at) && WhileJoining(vs, vs', h, n, rest, at) && m in rest && m in shards && m != n
    requires Claimed(vs', h, shards[m], n, ks) && Sent(at, ks, n, at')
    ensures WhileJoining(vs, vs', h, n, rest - {m}, at')
  {
    forall k | k in at' ensures at'[k] == Joined(vs, vs', h, n, rest - {m}, k) {
      assert k in ks ==> Lies(shards, m, k);
      assert Kept(shards, data, at, k);
    }
  }

  lemma {:induction false} OwnersAre(vs: map<Pos, VNode>, h: Hashing, at: Where, keys: set<Key>)
    requires at.Keys == keys && forall k :: k in at ==> at[k] == Owner(vs, h.key(k))
    ensures at == Owners(vs, h, keys)
  {
  }

  /** Nothing has been gone through. */
  lemma {:induction false} JoinedNone(vs: map<Pos, VNode>, vs': map<Pos, VNode>, h: Hashing, n: NodeId, rest: set<NodeId>,
                                      shards: Shards, data: map<Key, Value>)
    requires Home(vs, h, shards, data) && shards.Keys - {n} <= rest && n in shards && shards[n] == map[]
    ensures WhileJoining(vs, vs', h, n, rest, Owners(vs, h, data.Keys))
  {
    forall k | k in data ensures Joined(vs, vs', h, n, rest, k) == Owner(vs, h.key(k)) {
      OwnerElsewhere(vs, h, n, shards, data, k);
    }
  }

  /** Everything has. */
  lemma {:induction false} JoinedAll(vs: map<Pos, VNode>, more: map<Pos, VNode>, h: Hashing, n: NodeId, shards: Shards, data: map<Key, Value>, at: Where)
    requires (forall q :: q in more ==> more[q].node == n) && Located(shards, data, at) && WhileJoining(vs, vs + more, h, n, {}, at)
    ensures Home(vs + more, h, shards, data)
  {
    forall k | k in at ensures at[k] == Owner(vs + more, h.key(k)) {
      AddMoves(vs, more, n, h.key(k));
    }
    OwnersAre(vs + more, h, at, data.Keys);
  }

  lemma {:induction false} OwnerElsewhere(vs: map<Pos, VNode>, h: Hashing, n: NodeId, shards: Shards, data: map<Key, Value>, k: Key)
    requires Home(vs, h, shards, data) && n in shards && k in data && k !in shards[n]
    ensures Owner(vs, h.key(k)).Some? && Owner(vs, h.key(k)).value in shards.Keys - {n}
  {
    assert Kept(shards, data, Owners(vs, h, data.Keys), k);
  }

  /** The shard of `n` is emptied, or made. */
  lemma {:induction false} HomeEmptied(vs: map<Pos, VNode>, h: Hashing, shards: Shards, data: map<Key, Value>, n: NodeId, shards': Shards)
    requires Home(vs, h, shards, data) && shards' == shards[n := map[]]
    ensures Home(vs, h, shards', if n in shards then data - shards[n].Keys else data)
  {
    if n in shards {
      DropLocated(shards, data, Owners(vs, h, data.Keys), n, shards');
      assert Owners(vs, h, (data - shards[n].Keys).Keys) == Owners(vs, h, data.Keys) - shards[n].Keys;
    } else {
      FreshLocated(shards, data, Owners(vs, h, data.Keys), n, shards');
    }
  }

  lemma {:induction false} WipeLoses(vs: map<Pos, VNode>, h: Hashing, shards: Shards, data: map<Key, Value>, n: NodeId)
    requires Home(vs, h, shards, data)
    ensures n in shards ==> (data - shards[n].Keys == data <==> shards[n] == map[])
  {
    if n in shards {
      ShardIsPart(vs, h, shards, data, n);
    }
  }

  // ---- a node leaves --------------------------------------------------------------------------------------------------

  /** No other virtual node was ever put at one of the node's positions. */
  ghost predicate Clean(s: State, n: NodeId) { forall p :: p in Gone(s, n) ==> s.places[p] == 1 }

  lemma {:induction false} SoundIsClean(s: State, h: Hashing, k: nat, n: NodeId)
    requires Sound(s, h, k)
    ensures Clean(s, n)
  {
    RemoveSound(s, h, k, n);
    RemoveUsable(s, n);
  }

  /** Then the data is lost just when the last node leaves. */
  lemma {:induction false} SoundLoses(s: State, h: Hashing, k: nat, n: NodeId)
    ensures Sound(s, h, k) && k > 0 ==> Clean(s, n) && (Removed(s, n).vnodes == map[] <==> s.nodes <= {n})
  {
    if Sound(s, h, k) && k > 0 {
      SoundIsClean(s, h, k, n);
      LastNode(s, h, k, n);
    }
  }

  /** The keys of the other shards keep their owner. */
  lemma {:induction false} HomeLess(s: State, h: Hashing, shards: Shards, data: map<Key, Value>, n: NodeId, shards': Shards)
    requires Home(s.vnodes, h, shards, data) && n in shards && shards' == shards - {n}
    ensures Home(Removed(s, n).vnodes, h, shards', data - shards[n].Keys)
  {
    var rest := data - shards[n].Keys;
    DropLocated(shards, data, Owners(s.vnodes, h, data.Keys), n, shards');
    forall k | k in rest ensures Owner(Removed(s, n).vnodes, h.key(k)) == Owner(s.vnodes, h.key(k)) {
      OwnerElsewhere(s.vnodes, h, n, shards, data, k);
      RemoveMoves(s, n, h.key(k));
    }
    assert Owners(Removed(s, n).vnodes, h, rest.Keys) == Owners(s.vnodes, h, data.Keys) - shards[n].Keys;
  }

  /** A shard holds part of the data. */
  lemma {:induction false} ShardIsPart(vs: map<Pos, VNode>, h: Hashing, shards: Shards, data: map<Key, Value>, n: NodeId)
    requires Home(vs, h, shards, data) && n in shards
    ensures shards[n].Keys <= data.Keys && (data - shards[n].Keys) + shards[n] == data
  {
    forall k | k in shards[n] ensures k in data && shards[n][k] == data[k] {
      assert Lies(shards, n, k);
      assert Kept(shards, data, Owners(vs, h, data.Keys), k);
    }
  }

  /** Where there is data there are virtual nodes. */
  lemma {:induction false} HaveOwners(vs: map<Pos, VNode>, h: Hashing, shards: Shards, data: map<Key, Value>)
    requires Home(vs, h, shards, data)
    ensures data != map[] ==> vs != map[]
  {
    if data != map[] {
      var k :| k in data;
      assert Kept(shards, data, Owners(vs, h, data.Keys), k);
    }
  }

  /** What of `moving` is not in `todo`. */
  ghost function Done(moving: map<Key, Value>, todo: set<Key>): map<Key, Value> { map k | k in moving && k !in todo :: moving[k] }

  lemma {:induction false} DoneNext(moving: map<Key, Value>, todo: set<Key>, k: Key)
    requires k in todo && k in moving
    ensures Done(moving, todo - {k}) == Done(moving, todo)[k := moving[k]] && k !in Done(moving, todo)
  {
  }

  lemma {:induction false} DoneEnds(moving: map<Key, Value>)
    ensures Done(moving, moving.Keys) == map[] && Done(moving, {}) == moving
  {
  }

  lemma {:induction false} PutLater(data: map<Key, Value>, done: map<Key, Value>, k: Key, v: Value)
    ensures data + done[k := v] == (data + done)[k := v]
  {
  }

  /** The store and the count once `done` has been resettled; without owners nothing is. */
  ghost predicate Settled(owned: bool, data0: map<Key, Value>, done: map<Key, Value>, data: map<Key, Value>, moved: nat) {
    if owned then data == data0 + done && moved == |done| else data == data0 && moved == 0
  }

  lemma {:induction false} SettledNone(owned: bool, data: map<Key, Value>)
    ensures Settled(owned, data, map[], data, 0)
  {
  }

  lemma {:induction false} SettledNext(owned: bool, data0: map<Key, Value>, done: map<Key, Value>, data: map<Key, Value>, moved: nat, k: Key, v: Value)
    requires Settled(owned, data0, done, data, moved) && k !in done
    ensures if owned then Settled(owned, data0, done[k := v], data[k := v], moved + 1) else Settled(owned, data0, done[k := v], data, moved)
  {
    PutLater(data0, done, k, v);
  }

  /** Every virtual node is one of a node that takes part. */
  ghost predicate Staffed(vs: map<Pos, VNode>, nodes: set<NodeId>) { forall p :: p in vs ==> vs[p].node in nodes }

  lemma {:induction false} OwnerTakesPart(vs: map<Pos, VNode>, nodes: set<NodeId>, p: Pos, n: NodeId)
    requires Staffed(vs, nodes) && Owner(vs, p) == Some(n)
    ensures n in nodes
  {
    assert Owns(vs, p, n);
  }

  /** All keys are with their owners, and `done` has been resettled. */
  ghost predicate Resettled(vs: map<Pos, VNode>, h: Hashing, shards: Shards, data: map<Key, Value>, data0: map<Key, Value>, done: map<Key, Value>, moved: nat) {
    Home(vs, h, shards, data) && Settled(vs != map[], data0, done, data, moved)
  }

  lemma {:induction false} ResettledNext(vs: map<Pos, VNode>, h: Hashing, shards: Shards, data: map<Key, Value>, data0: map<Key, Value>, done: map<Key, Value>,
                                         moved: nat, n: NodeId, k: Key, v: Value)
    requires Resettled(vs, h, shards, data, data0, done, moved) && n in shards && Owner(vs, h.key(k)) == Some(n) && k !in done
    ensures Resettled(vs, h, PutIn(shards, n, k, v), data[k := v], data0, done[k := v], moved + 1)
  {
    HomePut(vs, h, shards, data, n, k, v);
    SettledNext(vs != map[], data0, done, data, moved, k, v);
  }

  lemma {:induction false} ResettledNowhere(vs: map<Pos, VNode>, h: Hashing, shards: Shards, data: map<Key, Value>, data0: map<Key, Value>, done: map<Key, Value>,
                                            moved: nat, k: Key, v: Value)
    requires Resettled(vs, h, shards, data, data0, done, moved) && vs == map[] && k !in done
    ensures Resettled(vs, h, shards, data, data0, done[k := v], moved)
  {
    SettledNext(vs != map[], data0, done, data, moved, k, v);
  }

  /** `m` has all of `lo` and nothing that is not in `hi`. */
  ghost predicate Between(lo: map<Key, Value>, m: map<Key, Value>, hi: map<Key, Value>) {
    (forall k :: k in lo ==> k in m && m[k] == lo[k]) && (forall k :: k in m ==> k in hi && hi[k] == m[k])
  }

  lemma {:induction false} DoneBetween(moving: map<Key, Value>, todo: set<Key>, owned: bool, data0: map<Key, Value>, data: map<Key, Value>, moved: nat)
    requires Settled(owned, data0, Done(moving, todo), data, moved) && data0.Keys !! moving.Keys
    ensures Between(data0, data, data0 + moving)
  {
  }

  /** What resettling comes to: all of it, or, where the source raises, part of it. */
  ghost predicate HasSettled(r: Outcome, owned: bool, data0: map<Key, Value>, moving: map<Key, Value>, data: map<Key, Value>) {
    match r
    case Moved(count) => Settled(owned, data0, moving, data, count)
    case _ => r == KeyMissing && Between(data0, data, data0 + moving)
  }

  lemma {:induction false} AllResettled(all: map<Key, Value>, moving: map<Key, Value>, owned: bool, data: map<Key, Value>, r: Outcome)
    requires (all - moving.Keys) + moving == all && HasSettled(r, owned, all - moving.Keys, moving, data)
    ensures r.Moved? ==> data == (if owned then all else all - moving.Keys) && r.count == if owned then |moving| else 0
    ensures Between(all - moving.Keys, data, all)
  {
  }

  /** What the departure of a node comes to. */
  lemma {:induction false} Departure(s: State, h: Hashing, k: nat, shard: map<Key, Value>, all: map<Key, Value>, n: NodeId, data: map<Key, Value>, r: Outcome)
    requires Usable(s) && n in s.nodes && (all - shard.Keys) + shard == all && (Removed(s, n).vnodes == map[] ==> all - shard.Keys == map[])
    requires HasSettled(r, Removed(s, n).vnodes != map[], all - shard.Keys, shard, data) && (Usable(Removed(s, n)) ==> r.Moved?)
    ensures Usable(Removed(s, n)) <==> Clean(s, n)
    ensures r.Moved? ==> data == (if Removed(s, n).vnodes == map[] then map[] else all) && r == Moved(if Removed(s, n).vnodes == map[] then 0 else |shard|)
    ensures Sound(s, h, k) && k > 0 ==> r.Moved? && (Removed(s, n).vnodes == map[] <==> s.nodes == {n})
    ensures Between(all - shard.Keys, data, all)
  {
    RemoveUsable(s, n);
    SoundLoses(s, h, k, n);
    AllResettled(all, shard, Removed(s, n).vnodes != map[], data, r);
  }

  datatype Outcome = Moved(count: nat) | ValueError | KeyMissing

  class ShardedStore {
    const ring: ConsistentHashRing
    var shards: Shards
    ghost var data: map<Key, Value>

    ghost predicate Valid()
      reads this, ring
    {
      && ring.Ordered() && Usable(ring.View()) && shards.Keys == ring.nodes
      && Home(ring.vnodes, ring.h, shards, data)
    }

    constructor (vnodesPerNode: nat, h: Hashing)
      ensures Valid() && fresh(ring) && data == map[] && ring.nodes == {} && ring.h == h && ring.vnodesPerNode == vnodesPerNode
      ensures Sound(ring.View(), h, vnodesPerNode)
    {
      ring := new ConsistentHashRing(vnodesPerNode, h);
      shards, data := map[], map[];
    }

    method Get(key: Key) returns (r: Option<Value>)
      requires Valid()
      ensures r == if key in data then Some(data[key]) else None
    {
      var node := ring.GetNode(key);
      if !node.Is? {
        HaveOwners(ring.vnodes, ring.h, shards, data);
        return None;
      }
      assert Owns(ring.vnodes, ring.h.key(key), node.node);
      HomeAt(ring.vnodes, ring.h, shards, data, node.node, key);
      r := if key in shards[node.node] then Some(shards[node.node][key]) else None;
    }

    /** The one node that holds a key. */
    method Primary(key: Key) returns (r: Option<NodeId>)
      requires ring.Ordered() && Usable(ring.View())
      ensures r == Owner(ring.vnodes, ring.h.key(key)) && (r.None? <==> ring.ring == []) && (r.Some? ==> r.value in ring.nodes)
    {
      var nodes := ring.GetNodes(key, 1);
      if nodes.None? || nodes.value == [] {
        return None;
      }
      FirstReplica(ring.ring, ring.vnodes, ring.h.key(key));
      r := Some(nodes.value[0]);
    }

    /** `None` is where the source raises because there is no node; otherwise the node written to. */
    method Set(key: Key, value: Value) returns (r: Option<NodeId>)
      requires Valid()
      modifies this
      ensures Valid() && r == Owner(ring.vnodes, ring.h.key(key)) && (r.None? <==> ring.ring == [])
      ensures data == if r.None? then old(data) else old(data)[key := value]
    {
      r := Primary(key);
      if r.Some? {
        HomePut(ring.vnodes, ring.h, shards, data, r.value, key, value);
        shards := PutIn(shards, r.value, key, value);
        data := data[key := value];
      }
    }

    method Delete(key: Key) returns (found: bool)
      requires Valid()
      modifies this
      ensures Valid() && data == old(data) - {key} && (found <==> key in old(data))
    {
      var node := Primary(key);
      found := false;
      NotThere(data, key);
      if node.None? {
        HaveOwners(ring.vnodes, ring.h, shards, data);
        return;
      }
      HomeAt(ring.vnodes, ring.h, shards, data, node.value, key);
      if key in shards[node.value] {
        HomeTake(ring.vnodes, ring.h, shards, data, node.value, key);
        shards := TakeFrom(shards, node.value, key);
        data := data - {key};
        found := true;
      }
    }

    /** A node joins: the keys it now owns move to it, and nothing is lost, unless the node was there already. In that
        case its shard has been emptied before the ring refuses it. */
    method AddNode(n: NodeId) returns (r: Outcome)
      requires Valid()
      modifies this, ring
      ensures Valid()
      ensures n !in old(ring.nodes) ==> ring.View() == Added(old(ring.View()), ring.h, ring.vnodesPerNode, n)
      ensures n !in old(ring.nodes) ==> r == Moved(|shards[n]|) && data == old(data)
      ensures n in old(ring.nodes) ==> r == ValueError && data == old(data) - old(shards)[n].Keys && ring.View() == old(ring.View())
      ensures data == old(data) <==> n !in old(ring.nodes) || old(shards)[n] == map[]
    {
      ghost var vs, was := ring.vnodes, shards;
      HomeEmptied(vs, ring.h, was, data, n, was[n := map[]]);
      WipeLoses(vs, ring.h, was, data, n);
      shards := shards[n := map[]];
      var added := ring.AddNode(n);
      if added.None? {
        data := data - was[n].Keys;
        return ValueError;
      }
      AddUsable(old(ring.View()), ring.h, ring.vnodesPerNode, n);
      var moved := Rebalance(n, vs, Entries(ring.h, n, ring.vnodesPerNode));
      r := Moved(moved);
    }

    method Rebalance(n: NodeId, ghost vs: map<Pos, VNode>, ghost more: map<Pos, VNode>) returns (moved: nat)
      requires ring.Ordered() && Usable(ring.View()) && ring.vnodes == vs + more && forall q :: q in more ==> more[q].node == n
      requires Home(vs, ring.h, shards, data) && n in shards && shards[n] == map[]
      modifies `shards
      ensures shards.Keys == old(shards.Keys) && Home(ring.vnodes, ring.h, shards, data) && moved == |shards[n]|
    {
      moved := 0;
      var rest := shards.Keys - {n};
      JoinedNone(vs, ring.vnodes, ring.h, n, rest, shards, data);
      ghost var at := Owners(vs, ring.h, data.Keys);
      while rest != {}
        invariant rest <= shards.Keys - {n} && shards.Keys == old(shards.Keys) && moved == |shards[n]|
        invariant Located(shards, data, at) && WhileJoining(vs, ring.vnodes, ring.h, n, rest, at)
        decreases |rest|
      {
        var existing :| existing in rest;
        var count;
        count, at := MoveClaimed(existing, n, vs, rest, at);
        moved, rest := moved + count, rest - {existing};
      }
      JoinedAll(vs, more, ring.h, n, shards, data, at);
    }

    /** The keys in one shard that the new node owns move to it. */
    method MoveClaimed(existing: NodeId, n: NodeId, ghost vs: map<Pos, VNode>, ghost rest: set<NodeId>, ghost at: Where) returns (moved: nat, ghost at': Where)
      requires ring.Ordered() && Usable(ring.View()) && existing in rest && rest <= shards.Keys - {n} && n in shards
      requires Located(shards, data, at) && WhileJoining(vs, ring.vnodes, ring.h, n, rest, at)
      modifies `shards
      ensures Located(shards, data, at') && WhileJoining(vs, ring.vnodes, ring.h, n, rest - {existing}, at')
      ensures shards.Keys == old(shards.Keys) && |shards[n]| == |old(shards)[n]| + moved
    {
      ghost var was := shards;
      var keysToMove := KeysFor(existing, n);
      moved, at' := MoveAll(keysToMove, existing, n, at);
      JoinedOne(vs, ring.vnodes, ring.h, n, rest, existing, was, data, at, keysToMove, at');
    }

    /** The keys in the shard of `m` that `n` owns. */
    method KeysFor(m: NodeId, n: NodeId) returns (ks: set<Key>)
      requires ring.Ordered() && Usable(ring.View()) && m in shards
      ensures Claimed(ring.vnodes, ring.h, shards[m], n, ks)
    {
      ks := {};
      var todo := shards[m].Keys;
      while todo != {}
        invariant todo <= shards[m].Keys
        invariant forall k :: k in ks <==> k in shards[m] && k !in todo && Owner(ring.vnodes, ring.h.key(k)) == Some(n)
        decreases |todo|
      {
        var key :| key in todo;
        var newPrimary := ring.GetNode(key);
        if newPrimary == Is(n) {
          ks := ks + {key};
        }
        todo := todo - {key};
      }
    }

    method MoveAll(ks: set<Key>, m: NodeId, n: NodeId, ghost at: Where) returns (moved: nat, ghost at': Where)
      requires Located(shards, data, at) && m in shards && n in shards && m != n && ks <= shards[m].Keys
      modifies `shards
      ensures Located(shards, data, at') && Sent(at, ks, n, at') && shards.Keys == old(shards.Keys) && |shards[n]| == |old(shards)[n]| + moved
    {
      moved, at' := 0, at;
      var todo := ks;
      while todo != {}
        invariant shards.Keys == old(shards.Keys) && todo <= ks && todo <= shards[m].Keys
        invariant Located(shards, data, at') && Sent(at, ks - todo, n, at') && |shards[n]| == |old(shards)[n]| + moved
        decreases |todo|
      {
        var key :| key in todo;
        MoveLocated(shards, data, at', m, n, key);
        var val := shards[m][key];
        shards := TakeFrom(shards, m, key);
        shards := PutIn(shards, n, key, val);
        moved, at', todo := moved + 1, at'[key := Some(n)], todo - {key};
      }
    }

    /** A node leaves: its keys move to their new owners. Nothing is lost unless it was the last with virtual nodes; and the
        ring stays usable just when no other virtual node was ever put at one of its positions. */
    method RemoveNode(n: NodeId) returns (r: Outcome)
      requires Valid()
      modifies this, ring
      ensures n !in old(ring.nodes) ==> r == ValueError && Valid() && data == old(data) && ring.View() == old(ring.View())
      ensures n in old(ring.nodes) ==> ring.View() == Removed(old(ring.View()), n) && (Valid() <==> Clean(old(ring.View()), n))
      ensures n in old(ring.nodes) && Clean(old(ring.View()), n) ==>
                data == (if ring.vnodes == map[] then map[] else old(data))
                && r == Moved(if ring.vnodes == map[] then 0 else |old(shards)[n]|)
      ensures n in old(ring.nodes) && Sound(old(ring.View()), ring.h, ring.vnodesPerNode) && ring.vnodesPerNode > 0 ==>
                Valid() && data == if old(ring.nodes) == {n} then map[] else old(data)
      ensures n in old(ring.nodes) ==> Home(ring.vnodes, ring.h, shards, data) && Between(old(data) - old(shards)[n].Keys, data, old(data))
      ensures n in old(ring.nodes) && r.Moved? && ring.vnodes != map[] ==> data == old(data)
    {
      if n !in shards {
        return ValueError;
      }
      ghost var s, was, all := ring.View(), shards, data;
      r := Leave(n);
      Departure(s, ring.h, ring.vnodesPerNode, was[n], all, n, data, r);
    }

    method Leave(n: NodeId) returns (r: Outcome)
      requires Valid() && n in shards
      modifies this, ring
      ensures ring.Ordered() && ring.View() == Removed(old(ring.View()), n) && shards.Keys == ring.nodes && Home(ring.vnodes, ring.h, shards, data)
      ensures (old(data) - old(shards)[n].Keys) + old(shards)[n] == old(data) && (ring.vnodes == map[] ==> old(data) - old(shards)[n].Keys == map[])
      ensures HasSettled(r, ring.vnodes != map[], old(data) - old(shards)[n].Keys, old(shards)[n], data) && (Usable(ring.View()) ==> r.Moved?)
    {
      ghost var s, was, all := ring.View(), shards, data;
      HomeLess(s, ring.h, was, all, n, was - {n});
      ShardIsPart(ring.vnodes, ring.h, was, all, n);
      var keysToMove := shards[n];
      var removed := ring.RemoveNode(n);
      HaveOwners(ring.vnodes, ring.h, was - {n}, all - keysToMove.Keys);
      r, shards, data := Resettle(ring, shards - {n}, keysToMove, data - keysToMove.Keys);
    }
  }

  /** Put the keys of a node that left where they belong now; `KeyMissing` is where the source raises because a position has
      lost its virtual node. */
  method Resettle(ring: ConsistentHashRing, shards: Shards, moving: map<Key, Value>, ghost data: map<Key, Value>)
    returns (r: Outcome, shards': Shards, ghost data': map<Key, Value>)
    requires ring.Ordered() && Staffed(ring.vnodes, shards.Keys) && Home(ring.vnodes, ring.h, shards, data) && data.Keys !! moving.Keys
    ensures shards'.Keys == shards.Keys && Home(ring.vnodes, ring.h, shards', data')
    ensures HasSettled(r, ring.vnodes != map[], data, moving, data') && (Usable(ring.View()) ==> r.Moved?)
  {
    ghost var vs := ring.vnodes;
    var moved, todo := 0, moving.Keys;
    shards', data' := shards, data;
    DoneEnds(moving);
    SettledNone(vs != map[], data);
    while todo != {}
      invariant shards'.Keys == shards.Keys && todo <= moving.Keys
      invariant Resettled(vs, ring.h, shards', data', data, Done(moving, todo), moved)
      decreases |todo|
    {
      var key :| key in todo;
      var node := ring.GetNode(key);
      if node.KeyError? {
        DoneBetween(moving, todo, vs != map[], data, data', moved);
        return KeyMissing, shards', data';
      }
      DoneNext(moving, todo, key);
      shards', data', moved := ResettleOne(vs, ring.h, shards', data', data, Done(moving, todo), moved, node, key, moving[key]);
      todo := todo - {key};
    }
    r := Moved(moved);
  }

  method ResettleOne(ghost vs: map<Pos, VNode>, ghost h: Hashing, shards: Shards, ghost data: map<Key, Value>, ghost data0: map<Key, Value>, ghost done: map<Key, Value>,
                     moved: nat, node: Lookup, key: Key, value: Value) returns (shards': Shards, ghost data': map<Key, Value>, moved': nat)
    requires Resettled(vs, h, shards, data, data0, done, moved) && Staffed(vs, shards.Keys) && key !in done && !node.KeyError?
    requires (node == Nobody ==> vs == map[]) && (node.Is? ==> Owner(vs, h.key(key)) == Some(node.node))
    ensures shards'.Keys == shards.Keys && Resettled(vs, h, shards', data', data0, done[key := value], moved')
  {
    shards', data', moved' := shards, data, moved;
    if node.Is? {
      OwnerTakesPart(vs, shards.Keys, h.key(key), node.node);
      ResettledNext(vs, h, shards, data, data0, done, moved, node.node, key, value);
      shards', data', moved' := PutIn(shards, node.node, key, value), data[key := value], moved + 1;
    } else {
      ResettledNowhere(vs, h, shards, data, data0, done, moved, key, value);
    }
  }

  /** A store of one node that holds one key. */
  method OneKey(h: Hashing, n: NodeId, key: Key, value: Value) returns (store: ShardedStore, before: Option<Value>)
    ensures fresh(store) && fresh(store.ring) && store.Valid() && store.ring.nodes == {n} && store.data == map[key := value] && before == Some(value)
    ensures Sound(store.ring.View(), store.ring.h, 1) && store.ring.vnodesPerNode == 1
  {
    store := OneNode(h, n);
    var _ := store.Set(key, value);
    before := store.Get(key);
  }

  method OneNode(h: Hashing, n: NodeId) returns (store: ShardedStore)
    ensures fresh(store) && fresh(store.ring) && store.Valid() && store.ring.nodes == {n} && store.data == map[] && store.ring.ring != []
    ensures Sound(store.ring.View(), store.ring.h, 1) && store.ring.vnodesPerNode == 1
  {
    store := new ShardedStore(1, h);
    NobodyYet(store.ring.View(), h, n);
    var _ := store.AddNode(n);
    assert h.vnode(n, 0) in store.ring.View().places;
  }

  lemma {:induction false} NobodyYet(s: State, h: Hashing, n: NodeId)
    requires Sound(s, h, 1) && s.nodes == {}
    ensures var s' := Added(s, h, 1, n); Sound(s', h, 1) && h.vnode(n, 0) in s'.places && s'.nodes == {n}
  {
    OneEntry(h, n);
    ApartSound(s, h, 1, n);
  }

  /** An input: a node that is added again loses what it held. */
  method AddTwice(h: Hashing, n: NodeId, key: Key, value: Value) returns (before: Option<Value>, after: Option<Value>)
    ensures before == Some(value) && after == None
  {
    var store;
    store, before := OneKey(h, n, key, value);
    OnlyShard(store.ring.vnodes, store.ring.h, store.shards, store.data, n, key);
    var _ := store.AddNode(n);
    after := store.Get(key);
  }

  /** An input: the last node takes its keys with it. */
  method RemoveLast(h: Hashing, n: NodeId, key: Key, value: Value) returns (before: Option<Value>, after: Option<Value>)
    ensures before == Some(value) && after == None
  {
    var store;
    store, before := OneKey(h, n, key, value);
    var _ := store.RemoveNode(n);
    after := store.Get(key);
  }

  lemma {:induction false} OnlyShard(vs: map<Pos, VNode>, h: Hashing, shards: Shards, data: map<Key, Value>, n: NodeId, k: Key)
    requires Home(vs, h, shards, data) && shards.Keys == {n} && k in data
    ensures k in shards[n]
  {
    assert Kept(shards, data, Owners(vs, h, data.Keys), k);
  }
}
