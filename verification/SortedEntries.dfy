/** A sorted map as the sequence of its entries: the value the B+ tree is meant to hold. */
module SortedEntries {
  import opened Commands
  import Seqs

  // The tree only ever compares keys. The reals hold every countable order, the order of strings among them.
  type Key = real
  type Item = string
  type Entry = (Key, Item)

  ghost predicate Sorted(es: seq<Entry>) {
    forall i, j :: 0 <= i < j < |es| ==> es[i].0 < es[j].0
  }

  function MapOf(es: seq<Entry>): map<Key, Item> {
    if es == [] then map[] else MapOf(es[..|es| - 1])[es[|es| - 1].0 := es[|es| - 1].1]
  }

  /** How many entries come before `k`. */
  function Rank(es: seq<Entry>, k: Key): nat {
    if es == [] || k <= es[0].0 then 0 else 1 + Rank(es[1..], k)
  }

  ghost predicate IsRank(es: seq<Entry>, k: Key, i: nat) {
    && i <= |es|
    && (forall j :: 0 <= j < i ==> es[j].0 < k)
    && (i < |es| ==> k <= es[i].0)
  }

  lemma {:induction false} RankIs(es: seq<Entry>, k: Key, i: nat)
    requires IsRank(es, k, i)
    ensures Rank(es, k) == i
  {
    if i > 0 {
      forall j | 0 <= j < i - 1 ensures es[1..][j].0 < k { assert es[1..][j] == es[j + 1]; }
      RankIs(es[1..], k, i - 1);
    }
  }

  lemma {:induction false} RankOf(es: seq<Entry>, k: Key)
    ensures IsRank(es, k, Rank(es, k))
  {
    if es != [] && es[0].0 < k {
      RankOf(es[1..], k);
      forall j | 0 <= j < Rank(es, k) ensures es[j].0 < k {
        if j > 0 { assert es[j] == es[1..][j - 1]; }
      }
    }
  }

  predicate Present(es: seq<Entry>, k: Key) {
    var i := Rank(es, k); i < |es| && es[i].0 == k
  }

  /** How many entries come before or at `k`. */
  function After(es: seq<Entry>, k: Key): (j: nat)
    ensures Rank(es, k) <= j <= |es|
  {
    RankOf(es, k);
    if Present(es, k) then Rank(es, k) + 1 else Rank(es, k)
  }

  function Find(es: seq<Entry>, k: Key): Option<Item> {
    if Present(es, k) then Some(es[Rank(es, k)].1) else None
  }

  function Put(es: seq<Entry>, k: Key, v: Item): seq<Entry> {
    var j := After(es, k);
    es[..Rank(es, k)] + [(k, v)] + es[j..]
  }

  function Without(es: seq<Entry>, k: Key): seq<Entry> {
    var j := After(es, k);
    es[..Rank(es, k)] + es[j..]
  }

  /** The entries with lo <= key <= hi, in order. */
  function Between(es: seq<Entry>, lo: Key, hi: Key): seq<Entry> {
    if es == [] then []
    else (if lo <= es[0].0 <= hi then [es[0]] else []) + Between(es[1..], lo, hi)
  }

  // ---- these are the operations of a map ------------------------------------------------------------------

  lemma {:induction false} MapOfConcat(a: seq<Entry>, b: seq<Entry>)
    ensures MapOf(a + b) == MapOf(a) + MapOf(b)
  {
    if b == [] {
      assert a + b == a;
    } else {
      MapOfConcat(a, b[..|b| - 1]);
      assert (a + b)[..|a + b| - 1] == a + b[..|b| - 1];
    }
  }

  lemma {:induction false} MapOfKeys(es: seq<Entry>, k: Key)
    ensures k in MapOf(es) <==> exists e :: e in es && e.0 == k
  {
    if es != [] {
      MapOfKeys(es[..|es| - 1], k);
      assert es == es[..|es| - 1] + [es[|es| - 1]];
    }
  }

  ghost predicate Around(a: seq<Entry>, c: seq<Entry>, k: Key) {
    (forall e :: e in a ==> e.0 < k) && (forall e :: e in c ==> k < e.0)
  }

  /** `es` is what comes before `k`, the entry of `k` if there is one, and what comes after. */
  lemma {:induction false} AboveAfter(es: seq<Entry>, k: Key)
    requires Sorted(es)
    ensures After(es, k) <= |es| && forall e :: e in es[After(es, k)..] ==> k < e.0
  {
    RankOf(es, k);
    var j := After(es, k);
    forall e | e in es[j..] ensures k < e.0 {
      var x :| 0 <= x < |es[j..]| && es[j..][x] == e;
      assert es[j + x] == e && es[Rank(es, k)].0 <= es[j + x].0;
    }
  }

  lemma {:induction false} Parts(es: seq<Entry>, k: Key) returns (a: seq<Entry>, b: seq<Entry>, c: seq<Entry>)
    requires Sorted(es)
    ensures Sorted(a) && Sorted(c) && Around(a, c, k) && |es| == |a| + |b| + |c| && es == a + b + c
    ensures Present(es, k) <==> b != []
    ensures Present(es, k) ==> b == [(k, es[Rank(es, k)].1)]
    ensures forall v :: Put(es, k, v) == a + [(k, v)] + c
    ensures Without(es, k) == a + c
  {
    RankOf(es, k);
    var i, j := Rank(es, k), After(es, k);
    a, b, c := es[..i], es[i..j], es[j..];
    AboveAfter(es, k);
    Seqs.CutTwice(es, i, j);
  }

  lemma {:induction false} MapOfParts(a: seq<Entry>, b: seq<Entry>, c: seq<Entry>, k: Key)
    requires Around(a, c, k)
    ensures MapOf(a + b + c) == MapOf(a) + MapOf(b) + MapOf(c) && k !in MapOf(a) && k !in MapOf(c)
  {
    MapOfConcat(a + b, c);
    MapOfConcat(a, b);
    MapOfKeys(a, k);
    MapOfKeys(c, k);
  }

  lemma {:induction false} FindIsLookup(es: seq<Entry>, k: Key)
    requires Sorted(es)
    ensures Find(es, k) == if k in MapOf(es) then Some(MapOf(es)[k]) else None
  {
    var a, b, c := Parts(es, k);
    MapOfParts(a, b, c, k);
  }

  lemma {:induction false} SortedAround(a: seq<Entry>, k: Key, v: Item, c: seq<Entry>)
    requires Sorted(a) && Sorted(c) && Around(a, c, k)
    ensures Sorted(a + c) && Sorted(a + [(k, v)] + c)
  {
    assert forall i :: 0 <= i < |a| ==> a[i] in a;
    assert forall i :: 0 <= i < |c| ==> c[i] in c;
  }

  lemma {:induction false} MapOfNew(a: seq<Entry>, b: seq<Entry>, c: seq<Entry>, k: Key, v: Item)
    requires Around(a, c, k) && |b| <= 1 && (b != [] ==> b[0].0 == k)
    ensures MapOf(a + [(k, v)] + c) == MapOf(a + b + c)[k := v]
    ensures MapOf(a + c) == MapOf(a + b + c) - {k}
  {
    MapOfParts(a, b, c, k);
    MapOfParts(a, [(k, v)], c, k);
    MapOfConcat(a, c);
    One(k, v);
    if b != [] { One(k, b[0].1); assert b == [(k, b[0].1)]; }
    Overlay(MapOf(a), MapOf(b), MapOf(c), k, v);
  }

  lemma {:induction false} One(k: Key, v: Item)
    ensures MapOf([(k, v)]) == map[k := v]
  {
  }

  lemma {:induction false} Overlay(a: map<Key, Item>, b: map<Key, Item>, c: map<Key, Item>, k: Key, v: Item)
    requires k !in a && k !in c && b.Keys <= {k}
    ensures a + map[k := v] + c == (a + b + c)[k := v] && a + c == (a + b + c) - {k}
  {
  }

  lemma {:induction false} PutIsUpdate(es: seq<Entry>, k: Key, v: Item)
    requires Sorted(es)
    ensures Sorted(Put(es, k, v)) && MapOf(Put(es, k, v)) == MapOf(es)[k := v]
    ensures |Put(es, k, v)| == |es| + if Present(es, k) then 0 else 1
  {
    var a, b, c := Parts(es, k);
    MapOfNew(a, b, c, k, v);
    SortedAround(a, k, v, c);
    assert Put(es, k, v) == a + [(k, v)] + c;
  }

  lemma {:induction false} WithoutIsRemove(es: seq<Entry>, k: Key)
    requires Sorted(es)
    ensures Sorted(Without(es, k)) && MapOf(Without(es, k)) == MapOf(es) - {k}
    ensures |Without(es, k)| == |es| - if Present(es, k) then 1 else 0
  {
    var a, b, c := Parts(es, k);
    MapOfNew(a, b, c, k, "");
    SortedAround(a, k, "", c);
  }

  lemma {:induction false} EntryRemoved(es: seq<Entry>, k: Key)
    requires Sorted(es)
    ensures MapOf(Without(es, k)) == MapOf(es) - {k} && (Present(es, k) <==> k in MapOf(es))
    ensures |Without(es, k)| == |es| - if Present(es, k) then 1 else 0
  {
    WithoutIsRemove(es, k);
    FindIsLookup(es, k);
  }

  /** Sorted, and exactly the map's entries with lo <= key <= hi. */
  lemma {:induction false} BetweenIsRange(es: seq<Entry>, lo: Key, hi: Key)
    requires Sorted(es)
    ensures Sorted(Between(es, lo, hi))
    ensures forall e :: e in Between(es, lo, hi) <==> e in es && lo <= e.0 <= hi
  {
    if es != [] {
      BetweenIsRange(es[1..], lo, hi);
      var r := Between(es[1..], lo, hi);
      assert es == [es[0]] + es[1..];
      assert forall j :: 0 <= j < |r| ==> r[j] in es[1..];
    }
  }

  /** The entries of a sorted sequence are the mappings of its map. */
  lemma {:induction false} EntriesAreMappings(es: seq<Entry>, k: Key, v: Item)
    requires Sorted(es)
    ensures (k, v) in es <==> k in MapOf(es) && MapOf(es)[k] == v
  {
    FindIsLookup(es, k);
    RankOf(es, k);
    if (k, v) in es {
      var i :| 0 <= i < |es| && es[i] == (k, v);
      assert IsRank(es, k, i);
      RankIs(es, k, i);
    }
  }

  lemma {:induction false} BetweenSplit(a: seq<Entry>, b: seq<Entry>, lo: Key, hi: Key)
    ensures Between(a + b, lo, hi) == Between(a, lo, hi) + Between(b, lo, hi)
  {
    if a == [] {
      Seqs.Nothing(b);
      Seqs.Nothing(Between(b, lo, hi));
    } else {
      Seqs.Tail(a, b);
      BetweenSplit(a[1..], b, lo, hi);
      Seqs.Assoc([a[0]], Between(a[1..], lo, hi), Between(b, lo, hi));
    }
  }

  lemma {:induction false} BetweenNone(es: seq<Entry>, lo: Key, hi: Key)
    requires (forall e :: e in es ==> e.0 < lo) || (forall e :: e in es ==> hi < e.0)
    ensures Between(es, lo, hi) == []
  {
    if es != [] {
      assert forall e :: e in es[1..] ==> e in es;
      BetweenNone(es[1..], lo, hi);
    }
  }

  lemma {:induction false} BetweenSnoc(es: seq<Entry>, i: nat, lo: Key, hi: Key)
    requires i < |es|
    ensures Between(es[..i + 1], lo, hi) == Between(es[..i], lo, hi) + if lo <= es[i].0 <= hi then [es[i]] else []
  {
    assert es[..i + 1] == es[..i] + [es[i]];
    BetweenSplit(es[..i], [es[i]], lo, hi);
    assert Between([es[i]], lo, hi) == (if lo <= es[i].0 <= hi then [es[i]] else []) + Between([], lo, hi);
  }

  lemma {:induction false} BetweenStop(es: seq<Entry>, i: nat, lo: Key, hi: Key)
    requires Sorted(es) && i < |es| && es[i].0 > hi
    ensures Between(es, lo, hi) == Between(es[..i], lo, hi)
  {
    assert es == es[..i] + es[i..];
    BetweenSplit(es[..i], es[i..], lo, hi);
    BetweenNone(es[i..], lo, hi);
  }

  // ---- an operation on a middle part is one on the whole -----------------------------------------------------

  lemma {:induction false} MiddleRank(a: seq<Entry>, b: seq<Entry>, c: seq<Entry>, k: Key)
    requires Around(a, c, k)
    ensures Rank(a + b + c, k) == |a| + Rank(b, k)
    ensures Present(a + b + c, k) == Present(b, k) && Find(a + b + c, k) == Find(b, k)
  {
    RankOf(b, k);
    var es, i := a + b + c, Rank(b, k);
    forall j | 0 <= j < |a| + i ensures es[j].0 < k {
      if j < |a| { assert es[j] == a[j]; } else { assert es[j] == b[j - |a|]; }
    }
    assert i == |b| && c != [] ==> es[|a| + i] == c[0];
    RankIs(es, k, |a| + i);
  }

  lemma {:induction false} MiddleParts(a: seq<Entry>, b: seq<Entry>, c: seq<Entry>, k: Key)
    requires Around(a, c, k)
    ensures var es := a + b + c;
            && After(es, k) == |a| + After(b, k)
            && es[..|a| + Rank(b, k)] == a + b[..Rank(b, k)]
            && es[|a| + After(b, k)..] == b[After(b, k)..] + c
  {
    MiddleRank(a, b, c, k);
    var i, j := Rank(b, k), After(b, k);
    assert (a + b + c)[..|a| + i] == a + b[..i];
    assert (a + b + c)[|a| + j..] == b[j..] + c;
  }

  lemma {:induction false} MiddlePut(a: seq<Entry>, b: seq<Entry>, c: seq<Entry>, k: Key, v: Item)
    requires Around(a, c, k)
    ensures Put(a + b + c, k, v) == a + Put(b, k, v) + c
  {
    MiddleRank(a, b, c, k);
    MiddleParts(a, b, c, k);
    Regroup(a, b[..Rank(b, k)], [(k, v)], b[After(b, k)..], c);
  }

  lemma {:induction false} Regroup(a: seq<Entry>, b1: seq<Entry>, e: seq<Entry>, b2: seq<Entry>, c: seq<Entry>)
    ensures (a + b1) + e + (b2 + c) == a + (b1 + e + b2) + c
  {
  }

  lemma {:induction false} MiddleWithout(a: seq<Entry>, b: seq<Entry>, c: seq<Entry>, k: Key)
    requires Around(a, c, k)
    ensures Without(a + b + c, k) == a + Without(b, k) + c
  {
    MiddleRank(a, b, c, k);
    MiddleParts(a, b, c, k);
    assert (a + b[..Rank(b, k)]) + (b[After(b, k)..] + c) == a + (b[..Rank(b, k)] + b[After(b, k)..]) + c;
  }
}
