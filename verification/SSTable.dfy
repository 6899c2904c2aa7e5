/** Sorted string tables: the file a sorted run of entries is written to, with its sparse index and its Bloom
    filter, and lookups and scans that go through both. The checksum behind the filter's hash functions is a
    parameter. */
module SSTable {
  import opened KeyOrder
  import opened Seqs
  import C = Commands

  datatype Pair = Pair(key: Bytes, value: Bytes)

  type Hash = (Bytes, nat) -> nat

  const INDEX_INTERVAL: nat := 16
  const FILTER_BITS: nat := 10000
  const NUM_HASHES: nat := 3

  // ---- Bloom filter ------------------------------------------------------------------------------------------

  function Mask(bit: nat): bv8
    requires bit < 8
  {
    match bit
    case 0 => 1 case 1 => 2 case 2 => 4 case 3 => 8 case 4 => 16 case 5 => 32 case 6 => 64 case _ => 128
  }

  function Position(hash: Hash, key: Bytes, seed: nat): nat { hash(key, seed) % FILTER_BITS }

  predicate BitSet(bits: seq<bv8>, pos: nat)
    requires pos / 8 < |bits|
  {
    bits[pos / 8] & Mask(pos % 8) != 0
  }

  /** All bits of `key` are set. */
  ghost predicate Covers(hash: Hash, bits: seq<bv8>, key: Bytes) {
    |bits| == FILTER_BITS / 8 + 1 && forall seed: nat :: seed < NUM_HASHES ==> BitSet(bits, Position(hash, key, seed))
  }

  lemma {:induction false} SetBit(b: bv8, i: nat, j: nat)
    requires i < 8 && j < 8
    ensures (b | Mask(i)) & Mask(i) != 0
    ensures b & Mask(j) != 0 ==> (b | Mask(i)) & Mask(j) != 0
  {
    var x, y := Mask(i), Mask(j);
    assert (b | x) & x == x;
    assert b & y != 0 ==> (b | x) & y != 0;
  }

  lemma {:induction false} OneMoreBit(was: seq<bv8>, pos: nat, now: seq<bv8>)
    requires |was| == FILTER_BITS / 8 + 1 && pos < FILTER_BITS && now == was[pos / 8 := was[pos / 8] | Mask(pos % 8)]
    ensures BitSet(now, pos) && forall p: nat :: p < FILTER_BITS && BitSet(was, p) ==> BitSet(now, p)
  {
    forall p: nat | p < FILTER_BITS ensures BitSet(now, p) <== BitSet(was, p) || p == pos {
      SetBit(was[pos / 8], pos % 8, p % 8);
    }
  }

  class BloomFilter {
    const bits: array<bv8>
    const hash: Hash

    constructor (hash: Hash)
      ensures this.hash == hash && fresh(bits) && bits.Length == FILTER_BITS / 8 + 1
    {
      bits := new bv8[FILTER_BITS / 8 + 1](_ => 0);
      this.hash := hash;
    }

    /** A filter forgets no key it was given, whatever is added later. */
    method Add(key: Bytes)
      requires bits.Length == FILTER_BITS / 8 + 1
      modifies bits
      ensures Covers(hash, bits[..], key)
      ensures forall k :: Covers(hash, old(bits[..]), k) ==> Covers(hash, bits[..], k)
    {
      var seed := 0;
      while seed < NUM_HASHES
        invariant 0 <= seed <= NUM_HASHES
        invariant forall s: nat :: s < seed ==> BitSet(bits[..], Position(hash, key, s))
        invariant forall p: nat :: p < FILTER_BITS && BitSet(old(bits[..]), p) ==> BitSet(bits[..], p)
      {
        var pos := Position(hash, key, seed);
        ghost var was := bits[..];
        bits[pos / 8] := bits[pos / 8] | Mask(pos % 8);
        OneMoreBit(was, pos, bits[..]);
        seed := seed + 1;
      }
    }
  }

  method MightContain(hash: Hash, bits: seq<bv8>, key: Bytes) returns (b: bool)
    requires |bits| == FILTER_BITS / 8 + 1
    ensures b <==> Covers(hash, bits, key)
  {
    var seed := 0;
    while seed < NUM_HASHES
      invariant 0 <= seed <= NUM_HASHES
      invariant forall s: nat :: s < seed ==> BitSet(bits, Position(hash, key, s))
    {
      if !BitSet(bits, Position(hash, key, seed)) {
        return false;
      }
      seed := seed + 1;
    }
    return true;
  }

  // ---- entries as bytes ----------------------------------------------------------------------------------------

  function U16(n: nat): (b: Bytes)
    ensures |b| == 2
  {
    [n / 256 % 256, n % 256]
  }

  function U32(n: nat): (b: Bytes)
    ensures |b| == 4
  {
    [n / 0x100_0000 % 256, n / 0x1_0000 % 256, n / 256 % 256, n % 256]
  }

  function FromU16(b: Bytes): nat requires |b| == 2 { (b[0] as int) * 256 + b[1] as int }
  function FromU32(b: Bytes): nat requires |b| == 4 { (b[0] as int) * 0x100_0000 + (b[1] as int) * 0x1_0000 + (b[2] as int) * 256 + b[3] as int }

  lemma {:induction false} NumbersBack(n: nat)
    ensures n < 0x1_0000 ==> FromU16(U16(n)) == n
    ensures n < 0x1_0000_0000 ==> FromU32(U32(n)) == n
  {
    var a, b := n / 256, n / 0x1_0000;
    ByteOff(n);
    ByteOff(a);
    ByteOff(b);
    assert b == a / 256 && n / 0x100_0000 == b / 256;
  }

  lemma {:induction false} ByteOff(n: nat)
    ensures n == n / 256 * 256 + n % 256 && n % 256 < 256
  {
  }

  /** The number whose digits to base 256 are the bytes, the most significant first. */
  ghost function BigEndian(b: Bytes): nat { if b == [] then 0 else 256 * BigEndian(b[..|b| - 1]) + b[|b| - 1] as int }

  /** Length fields and checksums are written and read in network byte order. */
  lemma {:induction false} NetworkOrder(n: nat, b: Bytes)
    ensures n < 0x1_0000 ==> BigEndian(U16(n)) == n
    ensures n < 0x1_0000_0000 ==> BigEndian(U32(n)) == n
    ensures |b| == 2 ==> FromU16(b) == BigEndian(b)
    ensures |b| == 4 ==> FromU32(b) == BigEndian(b)
  {
    NumbersBack(n);
    Digits2(U16(n));
    Digits4(U32(n));
    if |b| == 2 { Digits2(b); }
    if |b| == 4 { Digits4(b); }
  }

  lemma {:induction false} Digits2(b: Bytes)
    requires |b| == 2
    ensures FromU16(b) == BigEndian(b)
  {
    assert BigEndian(b[..1]) == 256 * BigEndian(b[..1][..0]) + b[..1][0] as int;
  }

  lemma {:induction false} Digits4(b: Bytes)
    requires |b| == 4
    ensures FromU32(b) == BigEndian(b)
  {
    Digits2(b[..2]);
    assert b[..3][..2] == b[..2];
    assert BigEndian(b[..3]) == 256 * BigEndian(b[..2]) + b[2] as int;
  }

  predicate Fits(p: Pair) { |p.key| < 0x1_0000 && |p.value| < 0x1_0000_0000 }

  function Encode(p: Pair): Bytes {
    U16(|p.key|) + p.key + U32(|p.value|) + p.value
  }

  /** What a file hands over when asked for `n` bytes: fewer at its end. */
  function Read(file: Bytes, pos: nat, n: nat): Bytes {
    if pos >= |file| then [] else if pos + n <= |file| then file[pos..pos + n] else file[pos..]
  }

  /** The entry at `pos` and the position behind it; none where the file ends inside a length. */
  function ReadEntry(file: Bytes, pos: nat): C.Option<(Pair, nat)> {
    var keyLen := Read(file, pos, 2);
    if |keyLen| < 2 then C.None
    else
      var key := Read(file, pos + 2, FromU16(keyLen));
      var p := pos + 2 + |key|;
      var valLen := Read(file, p, 4);
      if |valLen| < 4 then C.None
      else
        var value := Read(file, p + 4, FromU32(valLen));
        C.Some((Pair(key, value), p + 4 + |value|))
  }

  lemma {:induction false} ReadMiddle(a: Bytes, b: Bytes, c: Bytes)
    ensures Read(a + b + c, |a|, |b|) == b
  {
  }

  lemma {:induction false} ReadParts(before: Bytes, kl: Bytes, k: Bytes, vl: Bytes, v: Bytes, rest: Bytes)
    ensures var file := before + (kl + k + vl + v) + rest;
            && Read(file, |before|, |kl|) == kl && Read(file, |before| + |kl|, |k|) == k
            && Read(file, |before| + |kl| + |k|, |vl|) == vl && Read(file, |before| + |kl| + |k| + |vl|, |v|) == v
  {
    var file := before + (kl + k + vl + v) + rest;
    assert file == before + kl + (k + vl + v + rest);
    ReadMiddle(before, kl, k + vl + v + rest);
    assert file == (before + kl) + k + (vl + v + rest);
    ReadMiddle(before + kl, k, vl + v + rest);
    assert file == (before + kl + k) + vl + (v + rest);
    ReadMiddle(before + kl + k, vl, v + rest);
    assert file == (before + kl + k + vl) + v + rest;
    ReadMiddle(before + kl + k + vl, v, rest);
  }

  lemma {:induction false} ReadEntryIs(file: Bytes, pos: nat, kl: Bytes, k: Bytes, vl: Bytes, v: Bytes)
    requires |kl| == 2 && |vl| == 4 && FromU16(kl) == |k| && FromU32(vl) == |v|
    requires Read(file, pos, 2) == kl && Read(file, pos + 2, |k|) == k
    requires Read(file, pos + 2 + |k|, 4) == vl && Read(file, pos + 2 + |k| + 4, |v|) == v
    ensures ReadEntry(file, pos) == C.Some((Pair(k, v), pos + 2 + |k| + 4 + |v|))
  {
  }

  /** Reading an entry where one was written gives that entry back, whatever follows it. */
  lemma {:induction false} ReadBack(before: Bytes, p: Pair, rest: Bytes)
    requires Fits(p)
    ensures ReadEntry(before + Encode(p) + rest, |before|) == C.Some((p, |before| + |Encode(p)|))
  {
    ReadParts(before, U16(|p.key|), p.key, U32(|p.value|), p.value, rest);
    NumbersBack(|p.key|);
    NumbersBack(|p.value|);
    ReadEntryIs(before + Encode(p) + rest, |before|, U16(|p.key|), p.key, U32(|p.value|), p.value);
  }

  ghost predicate AllFit(items: seq<Pair>) { forall i :: 0 <= i < |items| ==> Fits(items[i]) }

  ghost function EncodeAll(items: seq<Pair>): Bytes {
    if items == [] then [] else EncodeAll(items[..|items| - 1]) + Encode(items[|items| - 1])
  }

  lemma {:induction false} EncodeAllConcat(a: seq<Pair>, b: seq<Pair>)
    ensures EncodeAll(a + b) == EncodeAll(a) + EncodeAll(b)
  {
    if b == [] {
      Nothing(a);
      Nothing(EncodeAll(a));
    } else {
      var b' := b[..|b| - 1];
      Init(a, b);
      EncodeAllConcat(a, b');
      Assoc(EncodeAll(a), EncodeAll(b'), Encode(b[|b| - 1]));
    }
  }

  // ---- the table -------------------------------------------------------------------------------------------------

  /** An entry of the sparse index. */
  datatype Mark = Mark(key: Bytes, offset: nat)

  /** An open table: the file, where its data ends, the sparse index and the filter. */
  datatype Table = Table(file: Bytes, indexOffset: nat, index: seq<Mark>, bits: seq<bv8>)

  ghost function Keys(items: seq<Pair>): (ks: seq<Bytes>)
    ensures |ks| == |items| && forall i :: 0 <= i < |ks| ==> ks[i] == items[i].key
  {
    seq(|items|, i requires 0 <= i < |items| => items[i].key)
  }

  ghost predicate SortedPairs(items: seq<Pair>) { Ascending(Keys(items)) }

  /** The map a run of entries stands for: a later entry wins over an earlier one. */
  function MapOf(items: seq<Pair>): map<Bytes, Bytes> {
    if items == [] then map[] else MapOf(items[..|items| - 1])[items[|items| - 1].key := items[|items| - 1].value]
  }

  ghost function Offset(items: seq<Pair>, i: nat): nat
    requires i <= |items|
  {
    |EncodeAll(items[..i])|
  }

  /** One index entry for every sixteenth of the first `n` entries. */
  ghost predicate Indexed(items: seq<Pair>, n: nat, index: seq<Mark>)
    requires n <= |items|
  {
    && |index| == (n + INDEX_INTERVAL - 1) / INDEX_INTERVAL
    && forall j :: 0 <= j < |index| ==> j * INDEX_INTERVAL < n && index[j] == Mark(items[j * INDEX_INTERVAL].key, Offset(items, j * INDEX_INTERVAL))
  }

  /** The table was written from `items`. */
  ghost predicate Holds(hash: Hash, t: Table, items: seq<Pair>) {
    && AllFit(items) && SortedPairs(items)
    && t.indexOffset == |EncodeAll(items)| && EncodeAll(items) <= t.file && Indexed(items, |items|, t.index)
    && |t.bits| == FILTER_BITS / 8 + 1
    && (forall i :: 0 <= i < |items| ==> Covers(hash, t.bits, items[i].key))
  }

  lemma {:induction false} EncodeNext(items: seq<Pair>, i: nat)
    requires i < |items|
    ensures EncodeAll(items[..i + 1]) == EncodeAll(items[..i]) + Encode(items[i])
  {
    assert items[..i + 1][..i] == items[..i];
  }

  lemma {:induction false} EncodePrefix(items: seq<Pair>, i: nat)
    requires i <= |items|
    ensures EncodeAll(items[..i]) <= EncodeAll(items)
  {
    assert items == items[..i] + items[i..];
    EncodeAllConcat(items[..i], items[i..]);
  }

  lemma {:induction false} SplitPrefix(file: Bytes, all: Bytes, a: Bytes) returns (rest: Bytes)
    requires a <= all <= file
    ensures file == a + rest
  {
    rest := file[|a|..];
  }

  lemma {:induction false} EntryBehind(file: Bytes, before: Bytes, p: Pair, rest: Bytes)
    requires Fits(p) && file == before + Encode(p) + rest
    ensures ReadEntry(file, |before|) == C.Some((p, |before + Encode(p)|))
  {
    ReadBack(before, p, rest);
  }

  /** At the offset of entry `i` the file has entry `i`, and then comes the offset of the next. */
  lemma {:induction false} EntryAt(file: Bytes, items: seq<Pair>, i: nat)
    requires AllFit(items) && i < |items| && EncodeAll(items) <= file
    ensures ReadEntry(file, Offset(items, i)) == C.Some((items[i], Offset(items, i + 1)))
    ensures Offset(items, i) < Offset(items, i + 1) <= |EncodeAll(items)|
  {
    EncodeNext(items, i);
    EncodePrefix(items, i + 1);
    var rest := SplitPrefix(file, EncodeAll(items), EncodeAll(items[..i + 1]));
    EntryBehind(file, EncodeAll(items[..i]), items[i], rest);
  }

  lemma {:induction false} MapOfKeys(items: seq<Pair>, k: Bytes)
    ensures k in MapOf(items) <==> exists i :: 0 <= i < |items| && items[i].key == k
  {
    if items != [] {
      var n := |items| - 1;
      MapOfKeys(items[..n], k);
      assert forall i :: 0 <= i < n ==> items[..n][i] == items[i];
      assert items[n].key in MapOf(items);
    }
  }

  lemma {:induction false} MapOfAt(items: seq<Pair>, i: nat)
    requires SortedPairs(items) && i < |items|
    ensures items[i].key in MapOf(items) && MapOf(items)[items[i].key] == items[i].value
  {
    var n := |items| - 1;
    if i < n {
      assert SortedPairs(items[..n]);
      MapOfAt(items[..n], i);
      Irreflexive(items[n].key);
      assert Lt(Keys(items)[i], Keys(items)[n]);
    }
  }

  lemma {:induction false} SortedSnoc(items: seq<Pair>, p: Pair)
    requires SortedPairs(items) && forall x :: 0 <= x < |items| ==> Lt(items[x].key, p.key)
    ensures SortedPairs(items + [p]) && MapOf(items + [p]) == MapOf(items)[p.key := p.value]
  {
    var r, n := items + [p], |items|;
    assert r[..n] == items;
    forall i, j | 0 <= i < j < |r| ensures Lt(Keys(r)[i], Keys(r)[j]) {
      assert j < n ==> Lt(Keys(items)[i], Keys(items)[j]);
    }
  }

  predicate Between(start: Bytes, k: Bytes, end: Bytes) { Le(start, k) && Le(k, end) }

  /** The entries with start <= key <= end, in order. */
  function InRange(items: seq<Pair>, start: Bytes, end: Bytes): seq<Pair> {
    if items == [] then []
    else
      var n := |items| - 1;
      InRange(items[..n], start, end) + if Between(start, items[n].key, end) then [items[n]] else []
  }

  lemma {:induction false} InRangeNone(items: seq<Pair>, i: nat, start: Bytes, end: Bytes)
    requires i <= |items| && forall x :: i <= x < |items| ==> !Between(start, items[x].key, end)
    ensures InRange(items, start, end) == InRange(items[..i], start, end)
    decreases |items|
  {
    if i == |items| {
      assert items[..i] == items;
    } else {
      var n := |items| - 1;
      InRangeNone(items[..n], i, start, end);
      assert items[..n][..i] == items[..i];
    }
  }

  lemma {:induction false} OffsetsGrow(items: seq<Pair>, i: nat)
    requires i <= |items|
    ensures Offset(items, i) <= Offset(items, |items|) == |EncodeAll(items)|
    ensures i < |items| ==> Offset(items, i) < |EncodeAll(items)|
  {
    assert items[..|items|] == items;
    EncodePrefix(items, i);
    if i < |items| {
      EncodeNext(items, i);
      EncodePrefix(items, i + 1);
    }
  }

  /** The serialized index, filter and footer, which follow the data. */
  type Trailer = (seq<Mark>, seq<bv8>) -> Bytes

  /** The first `n` entries have been written. */
  ghost predicate SoFar(hash: Hash, items: seq<Pair>, n: nat, file: Bytes, index: seq<Mark>, bits: seq<bv8>)
    requires n <= |items|
  {
    && file == EncodeAll(items[..n]) && Indexed(items, n, index)
    && forall x :: 0 <= x < n ==> Fits(items[x]) && Covers(hash, bits, items[x].key)
  }

  lemma {:induction false} IndexedNext(items: seq<Pair>, i: nat, index: seq<Mark>)
    requires i < |items| && Indexed(items, i, index)
    ensures Indexed(items, i + 1, if i % INDEX_INTERVAL == 0 then index + [Mark(items[i].key, Offset(items, i))] else index)
  {
    Sixteenths(i);
    if i % INDEX_INTERVAL == 0 { assert i == |index| * INDEX_INTERVAL; }
  }

  lemma {:induction false} Sixteenths(i: nat)
    ensures (i + INDEX_INTERVAL) / INDEX_INTERVAL == (i + INDEX_INTERVAL - 1) / INDEX_INTERVAL + if i % INDEX_INTERVAL == 0 then 1 else 0
    ensures i % INDEX_INTERVAL == 0 ==> (i + INDEX_INTERVAL - 1) / INDEX_INTERVAL * INDEX_INTERVAL == i
  {
  }

  lemma {:induction false} WrittenNext(hash: Hash, items: seq<Pair>, i: nat, file: Bytes, index: seq<Mark>, bits: seq<bv8>, bits': seq<bv8>)
    requires i < |items| && SoFar(hash, items, i, file, index, bits) && Fits(items[i]) && Covers(hash, bits', items[i].key)
    requires forall k :: Covers(hash, bits, k) ==> Covers(hash, bits', k)
    ensures SoFar(hash, items, i + 1, file + Encode(items[i]),
                    if i % INDEX_INTERVAL == 0 then index + [Mark(items[i].key, |file|)] else index, bits')
  {
    EncodeNext(items, i);
    IndexedNext(items, i, index);
  }

  lemma {:induction false} AllWritten(hash: Hash, items: seq<Pair>, file: Bytes, index: seq<Mark>, bits: seq<bv8>, tail: Bytes)
    requires SoFar(hash, items, |items|, file, index, bits) && SortedPairs(items) && |bits| == FILTER_BITS / 8 + 1
    ensures Holds(hash, Table(file + tail, |file|, index, bits), items)
  {
    assert items[..|items|] == items;
  }

  /** Write a sorted run of entries; a key or value too long for its length field stops the writer. */
  method Write(hash: Hash, trailer: Trailer, items: seq<Pair>) returns (t: C.Option<Table>)
    requires SortedPairs(items)
    ensures t.Some? <==> AllFit(items)
    ensures t.Some? ==> Holds(hash, t.value, items)
  {
    var bloom := new BloomFilter(hash);
    var file: Bytes, index: seq<Mark> := [], [];
    var i := 0;
    while i < |items|
      invariant 0 <= i <= |items| && bloom.hash == hash && fresh(bloom.bits) && bloom.bits.Length == FILTER_BITS / 8 + 1
      invariant SoFar(hash, items, i, file, index, bloom.bits[..])
    {
      var p := items[i];
      ghost var index0, bits0 := index, bloom.bits[..];
      if i % INDEX_INTERVAL == 0 {
        index := index + [Mark(p.key, |file|)];
      }
      bloom.Add(p.key);
      if !Fits(p) {
        return C.None;
      }
      WrittenNext(hash, items, i, file, index0, bits0, bloom.bits[..]);
      file := file + Encode(p);
      i := i + 1;
    }
    AllWritten(hash, items, file, index, bloom.bits[..], trailer(index, bloom.bits[..]));
    t := C.Some(Table(file + trailer(index, bloom.bits[..]), |file|, index, bloom.bits[..]));
  }

  /** Read the entry at a position where one begins. */
  method ReadNext(file: Bytes, pos: nat, ghost items: seq<Pair>, ghost i: nat) returns (p: Pair, next: nat)
    requires AllFit(items) && EncodeAll(items) <= file && i < |items| && pos == Offset(items, i)
    ensures p == items[i] && next == Offset(items, i + 1) && pos < next
  {
    EntryAt(file, items, i);
    var entry := ReadEntry(file, pos);
    p, next := entry.value.0, entry.value.1;
  }

  /** The last indexed position at or before `key`: every entry before it is smaller than `key`. */
  method Seek(hash: Hash, t: Table, key: Bytes, ghost items: seq<Pair>) returns (pos: nat, ghost i: nat)
    requires Holds(hash, t, items)
    ensures i <= |items| && pos == Offset(items, i) && forall x :: 0 <= x < i ==> Lt(items[x].key, key)
  {
    pos, i := 0, 0;
    Order();
    var j := 0;
    while j < |t.index| && Le(t.index[j].key, key)
      invariant 0 <= j <= |t.index| && i <= |items| && pos == Offset(items, i)
      invariant forall x :: 0 <= x < i ==> Lt(items[x].key, key)
    {
      i := j * INDEX_INTERVAL;
      pos := t.index[j].offset;
      forall x | 0 <= x < i ensures Lt(items[x].key, key) {
        assert Lt(Keys(items)[x], Keys(items)[i]);
      }
      j := j + 1;
    }
  }

  /** Between an entry smaller than `key` and one greater there is no entry for it. */
  lemma {:induction false} Passed(items: seq<Pair>, i: nat, key: Bytes)
    requires SortedPairs(items) && i <= |items| && (forall x :: 0 <= x < i ==> Lt(items[x].key, key))
    requires i < |items| ==> Lt(key, items[i].key)
    ensures key !in MapOf(items)
  {
    Order();
    MapOfKeys(items, key);
    assert forall x :: i < x < |items| ==> Lt(Keys(items)[i], Keys(items)[x]);
  }

  lemma {:induction false} NotCovered(hash: Hash, t: Table, items: seq<Pair>, key: Bytes)
    requires Holds(hash, t, items) && !Covers(hash, t.bits, key)
    ensures key !in MapOf(items)
  {
    MapOfKeys(items, key);
  }

  /** A lookup in the file, by way of the filter and the index, is a lookup in the map. */
  method Get(hash: Hash, t: Table, key: Bytes, ghost items: seq<Pair>) returns (r: C.Option<Bytes>)
    requires Holds(hash, t, items)
    ensures r == if key in MapOf(items) then C.Some(MapOf(items)[key]) else C.None
  {
    var maybe := MightContain(hash, t.bits, key);
    if !maybe {
      NotCovered(hash, t, items, key);
      return C.None;
    }
    var pos, i := Seek(hash, t, key, items);
    r := GetFrom(t.file, t.indexOffset, pos, key, items, i);
  }

  /** Read forward until `key` is found or passed. */
  method GetFrom(file: Bytes, dataEnd: nat, start: nat, key: Bytes, ghost items: seq<Pair>, ghost first: nat) returns (r: C.Option<Bytes>)
    requires AllFit(items) && SortedPairs(items) && EncodeAll(items) <= file && dataEnd == |EncodeAll(items)|
    requires first <= |items| && start == Offset(items, first) && forall x :: 0 <= x < first ==> Lt(items[x].key, key)
    ensures r == if key in MapOf(items) then C.Some(MapOf(items)[key]) else C.None
  {
    var pos: nat := start;
    ghost var i: nat := first;
    while pos < dataEnd
      invariant i <= |items| && pos == Offset(items, i) && forall x :: 0 <= x < i ==> Lt(items[x].key, key)
      decreases dataEnd - pos
    {
      OffsetsGrow(items, i);
      var p;
      p, pos := ReadNext(file, pos, items, i);
      if p.key == key {
        MapOfAt(items, i);
        return C.Some(p.value);
      }
      if Lt(key, p.key) {
        Passed(items, i, key);
        return C.None;
      }
      Total(key, p.key);
      i := i + 1;
    }
    OffsetsGrow(items, i);
    Passed(items, i, key);
    return C.None;
  }

  lemma {:induction false} NoneBelow(items: seq<Pair>, i: nat, start: Bytes, end: Bytes)
    requires i <= |items| && forall x :: 0 <= x < i ==> Lt(items[x].key, start)
    ensures InRange(items[..i], start, end) == []
  {
    Order();
    assert items[..i][..0] == [];
    InRangeNone(items[..i], 0, start, end);
  }

  lemma {:induction false} NoneAbove(items: seq<Pair>, i: nat, start: Bytes, end: Bytes)
    requires SortedPairs(items) && i < |items| && Lt(end, items[i].key)
    ensures InRange(items, start, end) == InRange(items[..i], start, end)
  {
    Order();
    forall x | i <= x < |items| ensures !Between(start, items[x].key, end) { assert i < x ==> Lt(Keys(items)[i], Keys(items)[x]); }
    InRangeNone(items, i, start, end);
  }

  lemma {:induction false} InRangeNext(items: seq<Pair>, i: nat, start: Bytes, end: Bytes)
    requires i < |items| && !Lt(end, items[i].key)
    ensures InRange(items[..i + 1], start, end) == if Lt(items[i].key, start) then InRange(items[..i], start, end) else InRange(items[..i], start, end) + [items[i]]
  {
    Order();
    Total(start, items[i].key);
    Total(items[i].key, end);
    assert items[..i + 1][..i] == items[..i];
  }

  /** A scan of the file yields the entries in range, in order. */
  method Scan(hash: Hash, t: Table, start: Bytes, end: Bytes, ghost items: seq<Pair>) returns (r: seq<Pair>)
    requires Holds(hash, t, items)
    ensures r == InRange(items, start, end)
  {
    var pos: nat;
    ghost var i: nat;
    pos, i := Seek(hash, t, start, items);
    NoneBelow(items, i, start, end);
    r := [];
    while pos < t.indexOffset
      invariant i <= |items| && pos == Offset(items, i) && r == InRange(items[..i], start, end)
      decreases t.indexOffset - pos
    {
      OffsetsGrow(items, i);
      var p;
      p, pos := ReadNext(t.file, pos, items, i);
      if Lt(end, p.key) {
        NoneAbove(items, i, start, end);
        return;
      }
      InRangeNext(items, i, start, end);
      if !Lt(p.key, start) {
        r := r + [p];
      }
      i := i + 1;
    }
    OffsetsGrow(items, i);
    assert items[..i] == items;
  }

  /** Every entry of the file, in order. */
  method IterAll(hash: Hash, t: Table, ghost items: seq<Pair>) returns (r: seq<Pair>)
    requires Holds(hash, t, items)
    ensures r == items
  {
    var pos: nat := 0;
    ghost var i: nat := 0;
    r := [];
    while pos < t.indexOffset
      invariant i <= |items| && pos == Offset(items, i) && r == items[..i]
      decreases t.indexOffset - pos
    {
      OffsetsGrow(items, i);
      var p;
      p, pos := ReadNext(t.file, pos, items, i);
      r := r + [p];
      i := i + 1;
    }
    OffsetsGrow(items, i);
  }

  /** In range, and nothing else. */
  lemma {:induction false} InRangeIs(items: seq<Pair>, start: Bytes, end: Bytes)
    ensures forall p :: p in InRange(items, start, end) <==> p in items && Between(start, p.key, end)
  {
    if items != [] {
      InRangeIs(items[..|items| - 1], start, end);
      assert items == items[..|items| - 1] + [items[|items| - 1]];
    }
  }
}
