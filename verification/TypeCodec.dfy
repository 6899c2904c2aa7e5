/** The sortable encoding of column values. How text is read as a number is given. */
module TypeCodec {
  import opened Commands
  import opened KeyOrder
  import opened VersionKeys
  import opened RowKeys

  datatype ColumnType = Int | Other

  type IntOf = Bytes -> Option<int>

  const BIAS: int := 0x8000_0000_0000_0000

  function HexCount(n: nat): nat { if n < 16 then 1 else 1 + HexCount(n / 16) }

  function Width(n: nat, least: nat): nat { if HexCount(n) > least then HexCount(n) else least }

  function AtLeastWide(n: nat, least: nat): Bytes { Hex(n, Width(n, least)) }

  /** Hexadecimal, filled up with zeros to sixteen characters, the sign among them. */
  function Padded(n: int): Bytes { if n >= 0 then AtLeastWide(n, 16) else [45] + AtLeastWide(-n, 15) }

  /** Text that is no number stays as it is. */
  function Encode(intOf: IntOf, typ: ColumnType, value: Bytes): Bytes {
    if typ.Int? && intOf(value).Some? then Padded(intOf(value).value + BIAS) else value
  }

  function Compare(intOf: IntOf, typ: ColumnType, a: Bytes, b: Bytes): int {
    var ea, eb := Encode(intOf, typ, a), Encode(intOf, typ, b);
    (if Lt(eb, ea) then 1 else 0) - (if Lt(ea, eb) then 1 else 0)
  }

  predicate Sign(cmp: int, op: Op) {
    match op
    case Equal => cmp == 0
    case Unequal => cmp != 0
    case Less => cmp < 0
    case Greater => cmp > 0
    case AtMost => cmp <= 0
    case AtLeast => cmp >= 0
  }

  /** A comparison of values is the comparison of their encodings. */
  lemma {:induction false} CompareMatches(intOf: IntOf, typ: ColumnType, a: Bytes, op: Op, b: Bytes)
    ensures Sign(Compare(intOf, typ, a, b), op) <==> Matches(Encode(intOf, typ, a), op, Encode(intOf, typ, b))
  {
    Order();
  }

  lemma {:induction false} HexStarts(n: nat, width: nat)
    requires width > 0
    ensures 48 <= Hex(n, width)[0] < 103
  {
    if width > 1 { HexStarts(n / 16, width - 1); }
  }

  lemma {:induction false} EncodeNoNul(intOf: IntOf, typ: ColumnType, value: Bytes)
    requires NoNul(value)
    ensures NoNul(Encode(intOf, typ, value))
  {
    if typ.Int? && intOf(value).Some? {
      var n := intOf(value).value + BIAS;
      var m, w := if n >= 0 then n else -n, if n >= 0 then 16 else 15;
      HexNoNul(m, Width(m, w));
    }
  }

  lemma {:induction false} EncodePlain(intOf: IntOf, typ: ColumnType, value: Bytes)
    requires Plain(value)
    ensures Plain(Encode(intOf, typ, value))
  {
    if typ.Int? && intOf(value).Some? {
      var n := intOf(value).value + BIAS;
      var m, w := if n >= 0 then n else -n, if n >= 0 then 16 else 15;
      EncodeNoNul(intOf, typ, value);
      HexStarts(m, Width(m, w));
    }
  }

  /** Within sixty-four bits the encodings sort as the numbers do. */
  lemma {:induction false} IntOrder(x: int, y: int)
    requires -BIAS <= x < BIAS && -BIAS <= y < BIAS
    ensures Lt(Padded(x + BIAS), Padded(y + BIAS)) <==> x < y
  {
    Power16Of16();
    Sixteen(x + BIAS);
    Sixteen(y + BIAS);
    if x < y {
      HexOrder(x + BIAS, y + BIAS, 16);
    } else if y < x {
      HexOrder(y + BIAS, x + BIAS, 16);
      Order();
    } else {
      Irreflexive(Padded(x + BIAS));
    }
  }

  lemma {:induction false} Sixteen(n: nat)
    requires n < Power16(16)
    ensures Padded(n) == Hex(n, 16)
  {
    CountBound(n, 16);
  }

  lemma {:induction false} CountBound(n: nat, width: nat)
    requires width > 0 && n < Power16(width)
    ensures HexCount(n) <= width
  {
    if n >= 16 { CountBound(n / 16, width - 1); }
  }

  /** Beyond sixty-four bits they do not: the next number after the largest one sorts before it. */
  lemma {:induction false} BigIntExample()
    ensures Lt(Padded(BIAS + BIAS), Padded(BIAS - 1 + BIAS))
  {
    Power16Of16();
    var n := BIAS + BIAS;
    assert HexCount(n) == 17 by { CountIs(n, 16, 1); }
    HexFirst(n, 16, 1);
    Sixteen(n - 1);
    assert Power16(16) == 16 * Power16(15);
    HexFirst(n - 1, 15, 15);
  }

  lemma {:induction false} CountIs(n: nat, width: nat, d: nat)
    requires 0 < d < 16 && d * Power16(width) <= n < (d + 1) * Power16(width)
    ensures HexCount(n) == width + 1
  {
    if width > 0 {
      ShiftDown(n, Power16(width - 1), d);
      CountIs(n / 16, width - 1, d);
    }
  }

  // ---- which pairs sort as the numbers do ------------------------------------------------------------------------

  /** `n` without its last `k` hexadecimal digits. */
  function Lead(n: nat, k: int): nat
    decreases k
  {
    if k <= 0 then n else Lead(n / 16, k - 1)
  }

  lemma {:induction false} WidthBound(n: nat, width: nat)
    requires HexCount(n) <= width
    ensures n < Power16(width)
  {
    if n >= 16 { WidthBound(n / 16, width - 1); } else { assert Power16(width) == 16 * Power16(width - 1); }
  }

  lemma {:induction false} LeadHex(n: nat, width: nat, k: nat)
    requires k <= width && n < Power16(width)
    ensures Hex(n, width)[..width - k] == Hex(Lead(n, k), width - k) && Lead(n, k) < Power16(width - k)
  {
    if k > 0 {
      LeadHex(n / 16, width - 1, k - 1);
      assert Hex(n, width)[..width - k] == Hex(n / 16, width - 1)[..width - k];
    }
  }

  lemma {:induction false} HexCompare(m: nat, n: nat, width: nat)
    requires m < Power16(width) && n < Power16(width)
    ensures Lt(Hex(m, width), Hex(n, width)) <==> m < n
    ensures Hex(m, width) == Hex(n, width) <==> m == n
  {
    Order();
    if m < n { HexOrder(m, n, width); } else if n < m { HexOrder(n, m, width); }
  }

  lemma {:induction false} AgainstLonger(a: Bytes, b: Bytes)
    requires |a| <= |b|
    ensures Lt(a, b) <==> Lt(a, b[..|a|]) || (a == b[..|a|] && |a| < |b|)
  {
    if a != [] {
      AgainstLonger(a[1..], b[1..]);
      assert b[..|a|][1..] == b[1..][..|a| - 1] && a == [a[0]] + a[1..];
    }
  }

  lemma {:induction false} AgainstShorter(a: Bytes, b: Bytes)
    requires |b| <= |a|
    ensures Lt(a, b) <==> Lt(a[..|b|], b)
  {
    if b != [] {
      AgainstShorter(a[1..], b[1..]);
      assert a[..|b|][1..] == a[1..][..|b| - 1];
    }
  }

  /** Of two numbers in ascending order the encodings ascend just when the smaller is at most the leading digits of the larger. */
  lemma {:induction false} DigitsAscend(m: nat, n: nat, least: nat)
    requires m < n
    ensures Width(m, least) <= Width(n, least)
    ensures Lt(AtLeastWide(m, least), AtLeastWide(n, least)) <==> m <= Lead(n, Width(n, least) - Width(m, least))
    ensures Lt(AtLeastWide(n, least), AtLeastWide(m, least)) <==> Lead(n, Width(n, least) - Width(m, least)) < m
  {
    CountAscends(m, n);
    var v, w := Width(m, least), Width(n, least);
    WidthBound(m, v);
    WidthBound(n, w);
    LeadHex(n, w, w - v);
    AgainstLonger(Hex(m, v), Hex(n, w));
    AgainstShorter(Hex(n, w), Hex(m, v));
    HexCompare(m, Lead(n, w - v), v);
    HexCompare(Lead(n, w - v), m, v);
  }

  lemma {:induction false} CountAscends(m: nat, n: nat)
    requires m <= n
    ensures HexCount(m) <= HexCount(n)
  {
    if m >= 16 { CountAscends(m / 16, n / 16); }
  }

  /** When the encodings of two numbers sort as the numbers do: always across zero, above it if the smaller is at most the
      leading digits of the larger, and below it, where more digits mean less, if the leading digits of the one with more
      are less than the other. */
  lemma {:induction false} IntOrderIff(x: int, y: int)
    requires x < y
    ensures var a, b := x + BIAS, y + BIAS;
            Lt(Padded(a), Padded(b)) <==>
              || a < 0 <= b
              || (0 <= a && a <= Lead(b, Width(b, 16) - Width(a, 16)))
              || (b < 0 && Lead(-a, Width(-a, 15) - Width(-b, 15)) < -b)
  {
    var a, b := x + BIAS, y + BIAS;
    if 0 <= a {
      DigitsAscend(a, b, 16);
    } else if b < 0 {
      DigitsAscend(-b, -a, 15);
      LtPrefix([45], AtLeastWide(-a, 15), AtLeastWide(-b, 15));
    } else {
      HexStarts(b, Width(b, 16));
    }
  }
}
