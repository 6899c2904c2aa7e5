/** The write buffer: a dictionary with a running count of the bytes in it; deletions stay in it as tombstones. */
module MemTable {
  import opened KeyOrder
  import opened Recovery
  import SSTable
  import C = Commands

  ghost function Weight(data: Mem): nat
    decreases |data|
  {
    if data == map[] then 0
    else
      var k :| k in data;
      |k| + |data[k]| + Weight(data - {k})
  }

  /** The weight does not depend on the order in which entries are counted. */
  lemma {:induction false} WeightWithout(data: Mem, k: Bytes)
    requires k in data
    ensures Weight(data) == |k| + |data[k]| + Weight(data - {k})
    decreases |data|
  {
    var x :| x in data && Weight(data) == |x| + |data[x]| + Weight(data - {x});
    if x != k {
      WeightWithout(data - {x}, k);
      WeightWithout(data - {k}, x);
      assert data - {x} - {k} == data - {k} - {x};
    }
  }

  lemma {:induction false} WeightAfter(data: Mem, k: Bytes, v: Bytes)
    ensures Weight(data[k := v]) == Weight(data) - (if k in data then |k| + |data[k]| else 0) + |k| + |v|
  {
    WeightWithout(data[k := v], k);
    if k in data {
      WeightWithout(data, k);
      assert data[k := v] - {k} == data - {k};
    } else {
      assert data[k := v] - {k} == data;
    }
  }

  class MemTable {
    var data: Mem
    var sizeBytes: int
    var sizeLimit: int

    /** The running count is the weight of what is in the table. */
    ghost predicate Valid()
      reads this
    {
      sizeBytes == Weight(data)
    }

    constructor (sizeLimit: int)
      ensures Valid() && data == map[] && this.sizeLimit == sizeLimit
    {
      data, sizeBytes := map[], 0;
      this.sizeLimit := sizeLimit;
    }

    method Set(key: Bytes, value: Bytes)
      requires Valid()
      modifies `data, `sizeBytes
      ensures Valid() && data == old(data)[key := value]
    {
      WeightAfter(data, key, value);
      if key in data {
        sizeBytes := sizeBytes - (|key| + |data[key]|);
      }
      data := data[key := value];
      sizeBytes := sizeBytes + |key| + |value|;
    }

    method Delete(key: Bytes)
      requires Valid()
      modifies `data, `sizeBytes
      ensures Valid() && data == old(data)[key := TOMBSTONE]
    {
      WeightAfter(data, key, TOMBSTONE);
      if key in data {
        sizeBytes := sizeBytes - (|key| + |data[key]|);
      }
      data := data[key := TOMBSTONE];
      sizeBytes := sizeBytes + |key| + |TOMBSTONE|;
    }

    method Get(key: Bytes) returns (r: C.Option<Bytes>)
      ensures r == if key in data then C.Some(data[key]) else C.None
    {
      r := if key in data then C.Some(data[key]) else C.None;
    }

    /** Everything in the table, sorted by key. */
    method ItemsSorted() returns (items: seq<SSTable.Pair>)
      ensures SSTable.SortedPairs(items) && SSTable.MapOf(items) == data
    {
      var ks := SortKeys(data.Keys);
      items := PairsFor(data, ks);
      KeysCover(data, ks);
      assert ks[..|ks|] == ks;
    }

    /** The entries with start <= key <= end, tombstones included. */
    method Scan(start: Bytes, end: Bytes) returns (items: seq<SSTable.Pair>)
      ensures SSTable.SortedPairs(items) && SSTable.MapOf(items) == Restricted(data, start, end)
    {
      var ks := SortKeys(data.Keys);
      items := [];
      var i := 0;
      while i < |ks|
        invariant 0 <= i <= |ks| && SSTable.SortedPairs(items) && forall x :: 0 <= x < |items| ==> items[x].key in ks[..i]
        invariant SSTable.MapOf(items) == Restricted(Chosen(data, ks[..i]), start, end)
      {
        var key := ks[i];
        assert key in ks;
        if Lt(end, key) {
          RestBeyond(data, ks, i, start, end);
          return;
        }
        ChosenNext(data, ks, i, start, end);
        if !Lt(key, start) {
          SSTable.SortedSnoc(items, SSTable.Pair(key, data[key]));
          items := items + [SSTable.Pair(key, data[key])];
        }
        i := i + 1;
      }
      assert ks[..i] == ks;
      KeysCover(data, ks);
    }

    method Clear()
      modifies `data, `sizeBytes
      ensures Valid() && data == map[]
    {
      data, sizeBytes := map[], 0;
    }
  }

  function Restricted(m: Mem, start: Bytes, end: Bytes): Mem {
    map k | k in m && SSTable.Between(start, k, end) :: m[k]
  }

  /** The part of the table whose keys are listed. */
  function Chosen(m: Mem, ks: seq<Bytes>): Mem {
    map k | k in m && k in ks :: m[k]
  }

  lemma {:induction false} KeysCover(m: Mem, ks: seq<Bytes>)
    requires forall k :: k in ks <==> k in m
    ensures Chosen(m, ks) == m
  {
  }

  /** From a key beyond `end` on, nothing is in range. */
  lemma {:induction false} RestBeyond(m: Mem, ks: seq<Bytes>, i: nat, start: Bytes, end: Bytes)
    requires Ascending(ks) && (forall k :: k in ks <==> k in m) && i < |ks| && Lt(end, ks[i])
    ensures Restricted(Chosen(m, ks[..i]), start, end) == Restricted(m, start, end)
  {
    Order();
    assert forall x :: i < x < |ks| ==> Lt(ks[i], ks[x]);
    forall k | k in m && SSTable.Between(start, k, end) ensures k in ks[..i] {
      assert k in ks;
      var j :| 0 <= j < |ks| && ks[j] == k;
      assert ks[..i][j] == k;
    }
  }

  lemma {:induction false} ChosenNext(m: Mem, ks: seq<Bytes>, i: nat, start: Bytes, end: Bytes)
    requires Ascending(ks) && i < |ks| && ks[i] in m && !Lt(end, ks[i])
    ensures Restricted(Chosen(m, ks[..i + 1]), start, end)
         == if Lt(ks[i], start) then Restricted(Chosen(m, ks[..i]), start, end) else Restricted(Chosen(m, ks[..i]), start, end)[ks[i] := m[ks[i]]]
    ensures forall k :: k in ks[..i] ==> Lt(k, ks[i])
  {
    Order();
    assert ks[..i + 1] == ks[..i] + [ks[i]];
  }

  method PairsFor(m: Mem, ks: seq<Bytes>) returns (items: seq<SSTable.Pair>)
    requires Ascending(ks) && forall k :: k in ks ==> k in m
    ensures |items| == |ks| && SSTable.SortedPairs(items) && SSTable.MapOf(items) == Chosen(m, ks)
  {
    items := [];
    var i := 0;
    while i < |ks|
      invariant 0 <= i <= |ks| && |items| == i
      invariant forall j :: 0 <= j < i ==> items[j].key == ks[j]
      invariant SSTable.MapOf(items) == Chosen(m, ks[..i])
    {
      assert ks[i] in ks && ks[..i + 1] == ks[..i] + [ks[i]];
      assert (items + [SSTable.Pair(ks[i], m[ks[i]])])[..i] == items;
      items := items + [SSTable.Pair(ks[i], m[ks[i]])];
      i := i + 1;
    }
    assert ks[..i] == ks;
  }
}
