/** Byte strings and their order. Keys and values are taken as the UTF-8 bytes of the source's strings:
    comparing those bytes one by one orders strings as comparing their characters does. */
module KeyOrder {
  type Byte = x: int | 0 <= x < 256
  type Bytes = seq<Byte>

  predicate Lt(a: Bytes, b: Bytes) {
    b != [] && (a == [] || a[0] < b[0] || (a[0] == b[0] && Lt(a[1..], b[1..])))
  }

  predicate Le(a: Bytes, b: Bytes) { a == b || Lt(a, b) }

  lemma {:induction false} Irreflexive(a: Bytes)
    ensures !Lt(a, a)
  {
    if a != [] { Irreflexive(a[1..]); }
  }

  lemma {:induction false} Transitive(a: Bytes, b: Bytes, c: Bytes)
    requires Lt(a, b) && Lt(b, c)
    ensures Lt(a, c)
  {
    if a != [] && a[0] == b[0] == c[0] { Transitive(a[1..], b[1..], c[1..]); }
  }

  lemma {:induction false} Total(a: Bytes, b: Bytes)
    ensures Lt(a, b) || a == b || Lt(b, a)
  {
    if a != [] && b != [] && a[0] == b[0] {
      Total(a[1..], b[1..]);
      assert a == [a[0]] + a[1..] && b == [b[0]] + b[1..];
    }
  }

  /** `Lt` is a strict total order. */
  lemma {:induction false} Order()
    ensures forall a {:trigger Lt(a, a)} :: !Lt(a, a)
    ensures forall a, b, c {:trigger Lt(a, b), Lt(b, c)} :: Lt(a, b) && Lt(b, c) ==> Lt(a, c)
    ensures forall a, b {:trigger Lt(a, b)} :: Lt(a, b) || a == b || Lt(b, a)
  {
    forall a ensures !Lt(a, a) { Irreflexive(a); }
    forall a, b, c | Lt(a, b) && Lt(b, c) ensures Lt(a, c) { Transitive(a, b, c); }
    forall a, b ensures Lt(a, b) || a == b || Lt(b, a) { Total(a, b); }
  }

  ghost predicate Ascending(ks: seq<Bytes>) {
    forall i, j :: 0 <= i < j < |ks| ==> Lt(ks[i], ks[j])
  }

  lemma {:induction false} Smallest(s: set<Bytes>) returns (m: Bytes)
    requires s != {}
    ensures m in s && forall x :: x in s ==> Le(m, x)
  {
    var x :| x in s;
    m := x;
    if s != {x} {
      var m' := Smallest(s - {x});
      Order();
      if Lt(m', x) { m := m'; }
      forall y | y in s ensures Le(m, y) {
        if y != x { assert y in s - {x} && Le(m', y); }
      }
    }
  }

  /** The elements of a set in ascending order. */
  method SortKeys(s: set<Bytes>) returns (ks: seq<Bytes>)
    ensures Ascending(ks) && forall k :: k in ks <==> k in s
  {
    var rest := s;
    ks := [];
    Order();
    while rest != {}
      invariant rest <= s && Ascending(ks)
      invariant forall k :: k in s <==> k in ks || k in rest
      invariant forall j, k :: j in ks && k in rest ==> Lt(j, k)
      decreases |rest|
    {
      ghost var least := Smallest(rest);
      var m :| m in rest && forall x :: x in rest ==> Le(m, x);
      assert forall k :: k in ks + [m] <==> k in ks || k == m;
      assert forall i :: 0 <= i < |ks| ==> ks[i] in ks;
      forall j, k | j in ks + [m] && k in rest - {m} ensures Lt(j, k) {
        assert Le(m, k);
      }
      ks := ks + [m];
      rest := rest - {m};
    }
  }

  /** Two ascending sequences of the same keys are the same. */
  lemma {:induction false} AscendingUnique(a: seq<Bytes>, b: seq<Bytes>)
    requires Ascending(a) && Ascending(b) && forall k :: k in a <==> k in b
    ensures a == b
  {
    Order();
    assert forall i :: 0 <= i < |a| ==> a[i] in a;
    assert forall i :: 0 <= i < |b| ==> b[i] in b;
    if a != [] {
      assert a[0] in b;
      assert b[0] in a;
      assert a[0] == b[0];
      assert a == [a[0]] + a[1..] && b == [b[0]] + b[1..];
      forall k ensures k in a[1..] <==> k in b[1..] {
        assert k in a[1..] ==> k in a && k != a[0];
        assert k in b[1..] ==> k in b && k != b[0];
      }
      AscendingUnique(a[1..], b[1..]);
    }
  }
}
