/** Where the SQL layer keeps its catalog, rows and index entries: strings with slashes in a sorted store. Names have no
    slash, values have no NUL and sort below two U+10FFFF. */
module RowKeys {
  import opened KeyOrder
  import opened VersionKeys
  import Seqs

  const IDX: Bytes := [95, 95, 105, 100, 120, 95, 95]                                   // "__idx__"
  const CATALOG: Bytes := [95, 95, 99, 97, 116, 97, 108, 111, 103, 95, 95]              // "__catalog__"
  const TABLE: Bytes := [116, 97, 98, 108, 101]                                         // "table"
  const INDEX: Bytes := [105, 110, 100, 101, 120]                                       // "index"

  ghost predicate NoSlash(n: Bytes) { forall i :: 0 <= i < |n| ==> n[i] != 47 }

  const HI_TWICE: Bytes := HI_CHAR + HI_CHAR                                            // U+10FFFF twice

  ghost predicate Plain(x: Bytes) { NoNul(x) && Lt(x, HI_TWICE) }

  ghost predicate TableName(t: Bytes) { NoSlash(t) && t != IDX && t != CATALOG }

  function Path(a: Bytes, rest: Bytes): Bytes { a + [47] + rest }

  datatype Addr = TableAt(name: Bytes) | IndexAt(name: Bytes) | RowAt(table: Bytes, pk: Bytes)
                | EntryAt(table: Bytes, column: Bytes, value: Bytes, pk: Bytes)

  function RowPrefix(t: Bytes): Bytes { Path(t, []) }

  function EntryPrefix(t: Bytes, c: Bytes): Bytes { Path(IDX, Path(t, Path(c, []))) }

  function KeyOf(a: Addr): Bytes {
    match a
    case TableAt(n) => Path(CATALOG, Path(TABLE, n))
    case IndexAt(n) => Path(CATALOG, Path(INDEX, n))
    case RowAt(t, pk) => Path(t, pk)
    case EntryAt(t, c, v, pk) => Path(IDX, Path(t, Path(c, v + [0] + pk)))
  }

  ghost predicate Good(a: Addr) {
    match a
    case TableAt(_) => true
    case IndexAt(_) => true
    case RowAt(t, pk) => TableName(t) && Plain(pk)
    case EntryAt(t, c, v, pk) => NoSlash(t) && NoSlash(c) && Plain(v) && Plain(pk)
  }

  // ---- reading keys back ----------------------------------------------------------------------------------------------

  /** One path begins another just when the first names agree and the rest does. */
  lemma {:induction false} PathPrefix(a: Bytes, x: Bytes, b: Bytes, y: Bytes)
    requires NoSlash(a) && NoSlash(b)
    ensures Path(a, x) <= Path(b, y) <==> a == b && x <= y
  {
    if a == b && x <= y {
      assert Path(b, y)[..|Path(a, x)|] == Path(a, x);
    }
    if Path(a, x) <= Path(b, y) {
      assert Path(a, x)[|a|] == 47 && Path(b, y)[|b|] == 47;
      assert |a| == |b|;
      assert a == Path(a, x)[..|a|] == Path(b, y)[..|b|] == b;
      assert x == Path(a, x)[|a| + 1..] && y == Path(b, y)[|b| + 1..];
    }
  }

  lemma {:induction false} PathSame(a: Bytes, x: Bytes, b: Bytes, y: Bytes)
    requires NoSlash(a) && NoSlash(b)
    ensures Path(a, x) == Path(b, y) <==> a == b && x == y
  {
    PathPrefix(a, x, b, y);
    PathPrefix(b, y, a, x);
  }

  lemma {:induction false} NulSame(v: Bytes, p: Bytes, w: Bytes, q: Bytes)
    requires NoNul(v) && NoNul(w)
    ensures v + [0] + p == w + [0] + q <==> v == w && p == q
  {
    var a, b := v + [0] + p, w + [0] + q;
    if a == b {
      assert a[|v|] == 0 && b[|w|] == 0;
      assert |v| == |w|;
      assert v == a[..|v|] == b[..|w|] == w;
      assert p == a[|v| + 1..] && q == b[|w| + 1..];
    }
  }

  lemma {:induction false} Fixed()
    ensures NoSlash(IDX) && NoSlash(CATALOG) && NoSlash(TABLE) && NoSlash(INDEX) && IDX != CATALOG && TABLE != INDEX
    ensures NoNul(HI_CHAR) && NoNul(HI_TWICE)
  {
    assert forall i :: 0 <= i < |HI_TWICE| ==> HI_TWICE[i] == HI_CHAR[if i < 4 then i else i - 4];
    assert |IDX| != |CATALOG| && TABLE[0] != INDEX[0];
  }

  /** Different places have different keys. */
  lemma {:induction false} KeysDiffer(a: Addr, b: Addr)
    requires Good(a) && Good(b) && KeyOf(a) == KeyOf(b)
    ensures a == b
  {
    Fixed();
    match (a, b)
    case (TableAt(m), TableAt(n)) => SamePath(CATALOG, TABLE, m, TABLE, n);
    case (TableAt(m), IndexAt(n)) => SamePath(CATALOG, TABLE, m, INDEX, n);
    case (IndexAt(m), TableAt(n)) => SamePath(CATALOG, INDEX, m, TABLE, n);
    case (IndexAt(m), IndexAt(n)) => SamePath(CATALOG, INDEX, m, INDEX, n);
    case (EntryAt(t, c, v, p), EntryAt(u, d, w, q)) =>
      PathSame(IDX, Path(t, Path(c, v + [0] + p)), IDX, Path(u, Path(d, w + [0] + q)));
      PathSame(t, Path(c, v + [0] + p), u, Path(d, w + [0] + q));
      PathSame(c, v + [0] + p, d, w + [0] + q);
      NulSame(v, p, w, q);
    case (_, _) => PathSame(FirstName(a), AfterFirst(a), FirstName(b), AfterFirst(b));
  }

  lemma {:induction false} SamePath(a: Bytes, b: Bytes, m: Bytes, c: Bytes, n: Bytes)
    requires NoSlash(a) && NoSlash(b) && NoSlash(c)
    ensures Path(a, Path(b, m)) == Path(a, Path(c, n)) <==> b == c && m == n
  {
    PathSame(a, Path(b, m), a, Path(c, n));
    PathSame(b, m, c, n);
  }

  ghost function FirstName(a: Addr): Bytes { if a.RowAt? then a.table else if a.EntryAt? then IDX else CATALOG }

  ghost function AfterFirst(a: Addr): Bytes {
    match a
    case TableAt(n) => Path(TABLE, n)
    case IndexAt(n) => Path(INDEX, n)
    case RowAt(_, pk) => pk
    case EntryAt(t, c, v, pk) => Path(t, Path(c, v + [0] + pk))
  }

  // ---- scans ----------------------------------------------------------------------------------------------------------

  /** A scan with two bounds that begin alike finds only keys that begin like them. */
  lemma {:induction false} ScanPrefix(p: Bytes, a: Bytes, k: Bytes, b: Bytes)
    requires InScanRange(p + a, k, p + b)
    ensures p <= k
  {
    Seqs.Assoc(p, b, HI_CHAR);
    BetweenPrefix(p, a, k, b + HI_CHAR);
  }

  lemma {:induction false} ScanRest(p: Bytes, a: Bytes, x: Bytes, b: Bytes)
    ensures InScanRange(p + a, p + x, p + b) <==> InScanRange(a, x, b)
  {
    Seqs.Assoc(p, b, HI_CHAR);
    LtPrefix(p, x, b + HI_CHAR);
    LtPrefix(p, a, x);
    assert p + a == p + x <==> a == x by {
      assert (p + a)[|p|..] == a && (p + x)[|p|..] == x;
    }
  }

  lemma {:induction false} LtLonger(a: Bytes, b: Bytes, c: Bytes)
    requires Lt(a, b)
    ensures Lt(a, b + c)
  {
    if a != [] && a[0] == b[0] {
      Seqs.Tail(b, c);
      LtLonger(a[1..], b[1..], c);
    }
  }

  /** What sorts below a text without NUL still does when a NUL and more follow it. */
  lemma {:induction false} LtNul(a: Bytes, z: Bytes, rest: Bytes)
    requires Lt(a, z) && NoNul(z)
    ensures Lt(a + [0] + rest, z)
  {
    if a == [] {
      assert a + [0] + rest == [0] + rest;
    } else {
      assert (a + [0] + rest)[1..] == a[1..] + [0] + rest;
      if a[0] == z[0] { LtNul(a[1..], z[1..], rest); }
    }
  }

  lemma {:induction false} FromStart(x: Bytes)
    ensures Le([], x)
  {
  }

  /** The scan over a table finds its rows and nothing else. */
  lemma {:induction false} RowRange(t: Bytes, a: Addr)
    requires TableName(t) && Good(a)
    ensures InScanRange(RowPrefix(t), KeyOf(a), RowPrefix(t) + HI_CHAR) <==> a.RowAt? && a.table == t
  {
    var p := RowPrefix(t);
    Fixed();
    Seqs.Nothing(p);
    if a.RowAt? && a.table == t {
      assert KeyOf(a) == p + a.pk;
      ScanRest(p, [], a.pk, HI_CHAR);
      FromStart(a.pk);
    } else if InScanRange(p, KeyOf(a), p + HI_CHAR) {
      ScanPrefix(p, [], KeyOf(a), HI_CHAR);
      KeyIsPath(a);
      PathPrefix(t, [], FirstName(a), AfterFirst(a));
    }
  }

  /** Exactly the rows whose key sorts below two U+10FFFF are found by the scan over their table. */
  lemma {:induction false} RowFoundIff(t: Bytes, pk: Bytes)
    ensures InScanRange(RowPrefix(t), KeyOf(RowAt(t, pk)), RowPrefix(t) + HI_CHAR) <==> Lt(pk, HI_CHAR + HI_CHAR)
  {
    var p := RowPrefix(t);
    Seqs.Nothing(p);
    assert KeyOf(RowAt(t, pk)) == p + pk;
    ScanRest(p, [], pk, HI_CHAR);
    FromStart(pk);
  }

  // ---- reserved names -------------------------------------------------------------------------------------------------

  /** An input: in a table named `__catalog__` the row "table/n" is the definition of table n. */
  lemma {:induction false} CatalogRow(n: Bytes)
    ensures KeyOf(RowAt(CATALOG, Path(TABLE, n))) == KeyOf(TableAt(n)) && (NoNul(n) ==> Plain(Path(TABLE, n)))
  {
    assert NoNul(TABLE);
    PathNoNul(TABLE, n);
    assert Path(TABLE, n)[0] == 116 && HI_TWICE[0] == 0xF4;
  }

  /** What sorts below a text still does when a slash and more follow it, if the text has no bytes that small. */
  lemma {:induction false} LtSlash(a: Bytes, z: Bytes, rest: Bytes)
    requires Lt(a, z) && forall i :: 0 <= i < |z| ==> z[i] > 47
    ensures Lt(Path(a, rest), z)
  {
    if a == [] {
      assert Path(a, rest)[0] == 47;
    } else {
      assert Path(a, rest)[1..] == Path(a[1..], rest);
      if a[0] == z[0] { LtSlash(a[1..], z[1..], rest); }
    }
  }

  /** An input: a scan over a table named `__idx__` finds the entries of the other tables' indexes. */
  lemma {:induction false} IdxRows(t: Bytes, c: Bytes, v: Bytes, pk: Bytes)
    requires Lt(t, HI_TWICE)
    ensures InScanRange(RowPrefix(IDX), KeyOf(EntryAt(t, c, v, pk)), RowPrefix(IDX) + HI_CHAR)
  {
    var rest := Path(t, Path(c, v + [0] + pk));
    assert forall i :: 0 <= i < |HI_TWICE| ==> HI_TWICE[i] > 47;
    LtSlash(t, HI_TWICE, Path(c, v + [0] + pk));
    RowFoundIff(IDX, rest);
  }

  /** No definition and no entry is found by the scan over the table, or is under the key of one of its rows. */
  ghost predicate KeptApart(t: Bytes) {
    && (forall a :: Good(a) && !a.RowAt? ==> !InScanRange(RowPrefix(t), KeyOf(a), RowPrefix(t) + HI_CHAR))
    && (forall a, pk :: Good(a) && !a.RowAt? && Plain(pk) ==> KeyOf(RowAt(t, pk)) != KeyOf(a))
  }

  /** Exactly the two names are reserved, though nothing refuses them. */
  lemma {:induction false} ReservedIff(t: Bytes)
    requires NoSlash(t)
    ensures KeptApart(t) <==> t != IDX && t != CATALOG
  {
    if t == IDX {
      var x: Bytes := [97];
      var a := EntryAt(x, x, x, x);
      assert Plain(x) by { assert HI_TWICE[0] == 0xF4; }
      assert Good(a);
      IdxRows(x, x, x, x);
    } else if t == CATALOG {
      var a := TableAt([97]);
      assert Good(a);
      CatalogRow([97]);
    } else {
      forall a | Good(a) && !a.RowAt? ensures !InScanRange(RowPrefix(t), KeyOf(a), RowPrefix(t) + HI_CHAR) { RowRange(t, a); }
      forall a, pk | Good(a) && !a.RowAt? && Plain(pk) ensures KeyOf(RowAt(t, pk)) != KeyOf(a) {
        assert Good(RowAt(t, pk));
        if KeyOf(RowAt(t, pk)) == KeyOf(a) { KeysDiffer(RowAt(t, pk), a); }
      }
    }
  }

  /** The value that is read back from an entry's key, up to the first NUL, is the value put there exactly when that has
      no NUL in it. */
  lemma {:induction false} ReadBackIff(v: Bytes, pk: Bytes, i: nat)
    requires var k := v + [0] + pk; i < |k| && k[i] == 0 && forall j :: 0 <= j < i ==> k[j] != 0
    ensures (v + [0] + pk)[..i] == v <==> NoNul(v)
  {
    var k := v + [0] + pk;
    assert k[|v|] == 0 && forall j :: 0 <= j < |v| ==> k[j] == v[j];
    if NoNul(v) {
      assert i == |v|;
      assert k[..|v|] == v;
    }
  }

  /** Two inputs: of the value "a", NUL, "b" an index reads back "a", and the row with the key U+10FFFF U+10FFFF is not found. */
  lemma {:induction false} TextLost(t: Bytes, pk: Bytes)
    ensures ([97, 0, 98] + [0] + pk)[..1] == [97]
    ensures !InScanRange(RowPrefix(t), KeyOf(RowAt(t, HI_TWICE)), RowPrefix(t) + HI_CHAR)
  {
    RowFoundIff(t, HI_TWICE);
    Irreflexive(HI_TWICE);
  }

  lemma {:induction false} KeyIsPath(a: Addr)
    requires Good(a)
    ensures KeyOf(a) == Path(FirstName(a), AfterFirst(a)) && NoSlash(FirstName(a))
  {
    Fixed();
  }

  /** A key with an index's prefix is an entry of that index. */
  lemma {:induction false} EntryHasPrefix(t: Bytes, c: Bytes, a: Addr)
    requires NoSlash(t) && NoSlash(c) && Good(a)
    ensures EntryPrefix(t, c) <= KeyOf(a) <==> a.EntryAt? && a.table == t && a.column == c
  {
    Fixed();
    KeyIsPath(a);
    PathPrefix(IDX, Path(t, Path(c, [])), FirstName(a), AfterFirst(a));
    if a.EntryAt? {
      PathPrefix(t, Path(c, []), a.table, Path(a.column, a.value + [0] + a.pk));
      PathPrefix(c, [], a.column, a.value + [0] + a.pk);
    }
  }

  lemma {:induction false} EntryKey(a: Addr)
    requires a.EntryAt?
    ensures KeyOf(a) == EntryPrefix(a.table, a.column) + (a.value + [0] + a.pk)
  {
    var x := a.value + [0] + a.pk;
    assert Path(a.column, x) == Path(a.column, []) + x;
    assert Path(a.table, Path(a.column, []) + x) == Path(a.table, Path(a.column, [])) + x;
  }

  /** The scan over an index finds its entries and nothing else. */
  lemma {:induction false} EntryRange(t: Bytes, c: Bytes, a: Addr)
    requires NoSlash(t) && NoSlash(c) && Good(a)
    ensures InScanRange(EntryPrefix(t, c), KeyOf(a), EntryPrefix(t, c) + HI_CHAR) <==> a.EntryAt? && a.table == t && a.column == c
  {
    var p := EntryPrefix(t, c);
    Fixed();
    Seqs.Nothing(p);
    EntryHasPrefix(t, c, a);
    if a.EntryAt? && a.table == t && a.column == c {
      EntryKey(a);
      ScanRest(p, [], a.value + [0] + a.pk, HI_CHAR);
      LtNul(a.value, HI_TWICE, a.pk);
      FromStart(a.value + [0] + a.pk);
    } else if InScanRange(p, KeyOf(a), p + HI_CHAR) {
      ScanPrefix(p, [], KeyOf(a), HI_CHAR);
    }
  }

  /** Exactly the entries whose value sorts below two U+10FFFF are found by the scan over their index. */
  lemma {:induction false} EntryFoundIff(t: Bytes, c: Bytes, v: Bytes, pk: Bytes)
    ensures InScanRange(EntryPrefix(t, c), KeyOf(EntryAt(t, c, v, pk)), EntryPrefix(t, c) + HI_CHAR) <==> Lt(v, HI_TWICE)
  {
    var p, x := EntryPrefix(t, c), v + [0] + pk;
    Fixed();
    Seqs.Nothing(p);
    EntryKey(EntryAt(t, c, v, pk));
    ScanRest(p, [], x, HI_CHAR);
    FromStart(x);
    if Lt(v, HI_TWICE) {
      LtNul(v, HI_TWICE, pk);
    } else {
      Order();
      Total(v, HI_TWICE);
      assert x == v + ([0] + pk) && v + [] == v;
      LtPrefix(v, [], [0] + pk);
    }
  }

  // ---- versions of these keys -----------------------------------------------------------------------------------------

  ghost predicate Named(a: Addr) {
    match a
    case TableAt(n) => NoNul(n)
    case IndexAt(n) => NoNul(n)
    case RowAt(t, _) => NoNul(t)
    case EntryAt(t, c, _, _) => NoNul(t) && NoNul(c)
  }

  lemma {:induction false} PathNoNul(a: Bytes, x: Bytes)
    requires NoNul(a)
    ensures NoNul(Path(a, x)) <==> NoNul(x)
  {
    assert forall i :: 0 <= i < |x| ==> Path(a, x)[|a| + 1 + i] == x[i];
  }

  lemma {:induction false} OnlyNul(a: Addr)
    requires Good(a) && Named(a)
    ensures !a.EntryAt? ==> NoNul(KeyOf(a))
    ensures a.EntryAt? ==> var n := |EntryPrefix(a.table, a.column)| + |a.value|;
                           n < |KeyOf(a)| && KeyOf(a)[n] == 0 && (forall j :: 0 <= j < |KeyOf(a)| && KeyOf(a)[j] == 0 ==> j == n)
                           && EntryPrefix(a.table, a.column) <= KeyOf(a)[..n]
  {
    assert NoNul(CATALOG) && NoNul(TABLE) && NoNul(INDEX) && NoNul(IDX) && NoNul([]);
    match a
    case TableAt(n) => PathNoNul(TABLE, n); PathNoNul(CATALOG, Path(TABLE, n));
    case IndexAt(n) => PathNoNul(INDEX, n); PathNoNul(CATALOG, Path(INDEX, n));
    case RowAt(t, pk) => PathNoNul(t, pk);
    case EntryAt(t, c, v, pk) =>
      PathNoNul(c, []);
      PathNoNul(t, Path(c, []));
      PathNoNul(IDX, Path(t, Path(c, [])));
      EntryKey(a);
  }

  /** No key of the SQL layer runs on from another by a NUL, which is what keeps their versions apart in the store. */
  lemma {:induction false} KeysApart(a: Addr, b: Addr)
    requires Good(a) && Named(a) && Good(b) && Named(b)
    ensures !NulExtends(KeyOf(a), KeyOf(b))
  {
    OnlyNul(a);
    OnlyNul(b);
    var k, n := KeyOf(b), |KeyOf(a)|;
    assert NulExtends(KeyOf(a), k) ==> n < |k| && (KeyOf(a) + [0])[n] == k[n] && KeyOf(a) == k[..n];
    if b.EntryAt? {
      EntryHasPrefix(b.table, b.column, a);
    }
  }

  datatype Op = Equal | Unequal | Less | Greater | AtMost | AtLeast

  predicate Matches(a: Bytes, op: Op, b: Bytes) {
    match op
    case Equal => a == b
    case Unequal => a != b
    case Less => Lt(a, b)
    case Greater => Lt(b, a)
    case AtMost => !Lt(b, a)
    case AtLeast => !Lt(a, b)
  }

  /** Where the index scan for a comparison begins and ends, behind the index's prefix. */
  function LoBound(op: Op, v: Bytes): Bytes { if op.Less? || op.AtMost? then [] else v }
  function HiBound(op: Op, v: Bytes): Bytes { if op.Greater? || op.AtLeast? then HI_CHAR else v + HI_CHAR }

  /** A literal that runs on from the value by a NUL must not leave out the row's key by what follows the NUL. */
  predicate Reached(op: Op, v: Bytes, x: Bytes, pk: Bytes) {
    (op.Less? || op.AtMost?) && NulExtends(x, v) ==> Lt(pk, v[|x| + 1..] + HI_TWICE)
  }

  /** Of the entries that match, the index scan finds exactly those that it reaches: all of them, if the literal has no NUL. */
  lemma {:induction false} ScanCoversIff(op: Op, v: Bytes, x: Bytes, pk: Bytes)
    requires op != Unequal && Plain(x) && Matches(x, op, v)
    ensures InScanRange(LoBound(op, v), x + [0] + pk, HiBound(op, v)) <==> Reached(op, v, x, pk)
    ensures NoNul(v) ==> Reached(op, v, x, pk)
  {
    var k := x + [0] + pk;
    Order();
    assert NulExtends(x, v) ==> v[|x|] == (x + [0])[|x|] == 0;
    FromStart(k);
    if LoBound(op, v) == v {
      assert k == x + ([0] + pk);
      if x == v { LtPrefix(v, [], [0] + pk); Seqs.Nothing(v); } else { LtLonger(v, x, [0] + pk); }
    }
    if op.Greater? || op.AtLeast? {
      Fixed();
      LtNul(x, HI_TWICE, pk);
    } else {
      Seqs.Assoc(v, HI_CHAR, HI_CHAR);
      BelowLiteral(v, x, pk);
    }
  }

  lemma {:induction false} BelowLiteral(v: Bytes, x: Bytes, pk: Bytes)
    requires NoNul(x) && Le(x, v)
    ensures Lt(x + [0] + pk, v + HI_TWICE) <==> (NulExtends(x, v) ==> Lt(pk, v[|x| + 1..] + HI_TWICE))
  {
    var p := x + [0];
    if NulExtends(x, v) {
      var w := v[|x| + 1..];
      assert v + HI_TWICE == p + (w + HI_TWICE);
      LtPrefix(p, pk, w + HI_TWICE);
    } else if x == v {
      assert v + [0] + pk == v + ([0] + pk);
      LtPrefix(v, [0] + pk, HI_TWICE);
    } else {
      NotInto(v, x);
      SameSide(x, pk, v + HI_TWICE);
      LtLonger(x, v, HI_TWICE);
    }
  }

  lemma {:induction false} NotInto(v: Bytes, x: Bytes)
    ensures NulExtends(x, v + HI_TWICE) ==> NulExtends(x, v)
  {
    Fixed();
    var y := v + HI_TWICE;
    if x + [0] <= y {
      assert y[|x|] == (x + [0])[|x|] == 0;
      assert forall i :: |v| <= i < |y| ==> y[i] == HI_TWICE[i - |v|];
      assert |x| < |v|;
      assert v[..|x| + 1] == y[..|x| + 1] == x + [0];
    }
  }

  /** An input: with the literal "a", NUL, "b" and the value "a" under the key "c", the index misses a row that matches. */
  lemma {:induction false} LiteralMisses()
    ensures Matches([97], Less, [97, 0, 98]) && !Reached(Less, [97, 0, 98], [97], [99])
  {
    assert [97] + [0] == [97, 0, 98][..2] && [97, 0, 98][2..] == [98];
    assert [97, 0, 98][1..] == [0, 98];
    assert ([98] + HI_TWICE)[0] == 98;
  }
}
