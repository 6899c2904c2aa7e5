/** Version keys: a user key, a NUL and sixteen hexadecimal digits that count down as timestamps go up, so that
    the newest version of a key comes first in the order of the store. */
module VersionKeys {
  import opened KeyOrder

  const MAX_TS: nat := 0x7fff_ffff_ffff_ffff
  const SUFFIX_LEN: nat := 17

  function Digit(d: nat): (c: Byte)
    requires d < 16
  {
    if d < 10 then 48 + d else 87 + d          // '0'.. and 'a'..
  }

  function FromDigit(c: Byte): nat { if 48 <= c < 58 then c - 48 else if 97 <= c < 103 then c - 87 else 0 }

  /** `n` in `width` hexadecimal digits. */
  function Hex(n: nat, width: nat): (h: Bytes)
    ensures |h| == width
  {
    if width == 0 then [] else Hex(n / 16, width - 1) + [Digit(n % 16)]
  }

  function FromHex(h: Bytes): nat {
    if h == [] then 0 else 16 * FromHex(h[..|h| - 1]) + FromDigit(h[|h| - 1])
  }

  function Power16(width: nat): (p: nat)
    ensures p > 0
  {
    if width == 0 then 1 else 16 * Power16(width - 1)
  }

  lemma {:induction false} HexBack(n: nat, width: nat)
    requires n < Power16(width)
    ensures FromHex(Hex(n, width)) == n
  {
    if width > 0 {
      HexBack(n / 16, width - 1);
      DigitBack(n);
      assert Hex(n, width)[..width - 1] == Hex(n / 16, width - 1) && Hex(n, width)[width - 1] == Digit(n % 16);
    }
  }

  lemma {:induction false} DigitBack(n: nat)
    ensures n == 16 * (n / 16) + FromDigit(Digit(n % 16))
  {
  }

  /** The order of equally long strings is decided before their last bytes, or by them. */
  lemma {:induction false} LtSnoc(a: Bytes, x: Byte, b: Bytes, y: Byte)
    requires |a| == |b|
    ensures Lt(a + [x], b + [y]) <==> Lt(a, b) || (a == b && x < y)
  {
    if a != [] {
      assert (a + [x])[1..] == a[1..] + [x] && (b + [y])[1..] == b[1..] + [y];
      LtSnoc(a[1..], x, b[1..], y);
      assert a == [a[0]] + a[1..] && b == [b[0]] + b[1..];
    }
  }

  /** Fixed-width hexadecimal keeps the order of numbers. */
  lemma {:induction false} HexOrder(m: nat, n: nat, width: nat)
    requires m < n < Power16(width)
    ensures Lt(Hex(m, width), Hex(n, width))
  {
    if width > 0 {
      LtSnoc(Hex(m / 16, width - 1), Digit(m % 16), Hex(n / 16, width - 1), Digit(n % 16));
      if m / 16 < n / 16 {
        HexOrder(m / 16, n / 16, width - 1);
      }
    }
  }

  lemma {:induction false} Power16Of16()
    ensures Power16(16) == 0x1_0000_0000_0000_0000
  {
    assert Power16(4) == 0x1_0000;
    assert Power16(8) == 0x1_0000_0000;
    assert Power16(12) == 0x1_0000_0000_0000;
  }

  /** The physical key of one version. */
  function VersionKey(u: Bytes, ts: nat): Bytes
    requires ts <= MAX_TS
  {
    u + [0] + Hex(MAX_TS - ts, 16)
  }

  function UserKeyOf(k: Bytes): Bytes { if |k| < SUFFIX_LEN then [] else k[..|k| - SUFFIX_LEN] }

  function TsOf(k: Bytes): int { MAX_TS - FromHex(if |k| < 16 then k else k[|k| - 16..]) }

  /** A version key says which version it is of which user key. */
  lemma {:induction false} Decoded(u: Bytes, ts: nat)
    requires ts <= MAX_TS
    ensures UserKeyOf(VersionKey(u, ts)) == u && TsOf(VersionKey(u, ts)) == ts
  {
    var k := VersionKey(u, ts);
    Power16Of16();
    HexBack(MAX_TS - ts, 16);
    assert k[|k| - 16..] == Hex(MAX_TS - ts, 16);
  }

  // ---- order ------------------------------------------------------------------------------------------------------

  lemma {:induction false} LtPrefix(p: Bytes, a: Bytes, b: Bytes)
    ensures Lt(p + a, p + b) <==> Lt(a, b)
  {
    if p == [] {
      assert p + a == a && p + b == b;
    } else {
      assert (p + a)[1..] == p[1..] + a && (p + b)[1..] == p[1..] + b;
      LtPrefix(p[1..], a, b);
    }
  }

  /** Versions of one key come newest first. */
  lemma {:induction false} VersionOrder(u: Bytes, s: nat, t: nat)
    requires s < t <= MAX_TS
    ensures Lt(VersionKey(u, t), VersionKey(u, s))
  {
    Power16Of16();
    HexOrder(MAX_TS - t, MAX_TS - s, 16);
    LtPrefix(u + [0], Hex(MAX_TS - t, 16), Hex(MAX_TS - s, 16));
  }

  /** `v` is `u` followed by a NUL and something more. */
  predicate NulExtends(u: Bytes, v: Bytes) { u + [0] <= v }

  lemma {:induction false} ExtendsTail(u: Bytes, x: Bytes)
    ensures u == [] ==> (NulExtends(u, x) <==> x != [] && x[0] == 0)
    ensures u != [] && x != [] && u[0] == x[0] ==> (NulExtends(u, x) <==> NulExtends(u[1..], x[1..]))
  {
    assert u == [] ==> u + [0] == [0];
    if u != [] && x != [] {
      assert (u + [0])[0] == u[0] && (u + [0])[1..] == u[1..] + [0];
      assert u + [0] == [u[0]] + (u[1..] + [0]) && x == [x[0]] + x[1..];
    }
  }

  lemma {:induction false} ExtendsLater(u: Bytes, x: Bytes)
    requires NulExtends(u, x)
    ensures Lt(u, x)
  {
    assert x == u + x[|u|..] && u + [] == u;
    LtPrefix(u, [], x[|u|..]);
  }

  /** A key that does not run on from `u` by a NUL lies on the same side of `u` and of all that continue `u` by one. */
  lemma {:induction false} SameSide(u: Bytes, rest: Bytes, x: Bytes)
    requires !NulExtends(u, x)
    ensures Lt(u + [0] + rest, x) <==> Lt(u, x)
    ensures u + [0] + rest != x
  {
    ExtendsTail(u, x);
    if u == [] {
      assert u + [0] + rest == [0] + rest;
    } else if x != [] && u[0] == x[0] {
      assert (u + [0] + rest)[1..] == u[1..] + [0] + rest;
      SameSide(u[1..], rest, x[1..]);
    }
  }

  lemma {:induction false} ExtendsThrough(u: Bytes, v: Bytes, b: Bytes)
    ensures NulExtends(u, v + [0] + b) ==> u == v || NulExtends(u, v) || NulExtends(v, u)
  {
    var k := v + [0] + b;
    if u + [0] <= k {
      if |u| < |v| {
        assert u + [0] == k[..|u| + 1] == v[..|u| + 1];
      } else if |u| > |v| {
        assert u == k[..|u|];
        assert u[..|v| + 1] == v + [0];
      } else {
        assert u == k[..|u|] == v;
      }
    }
  }

  /** Whatever follows the NUL, different keys decide the order, if neither extends the other by a NUL. */
  lemma {:induction false} CrossOrder(u: Bytes, a: Bytes, v: Bytes, b: Bytes)
    requires u != v && !NulExtends(u, v) && !NulExtends(v, u)
    ensures Lt(u + [0] + a, v + [0] + b) <==> Lt(u, v)
    ensures u + [0] + a != v + [0] + b
  {
    ExtendsThrough(u, v, b);
    SameSide(u, a, v + [0] + b);
    SameSide(v, b, u);
    Order();
    assert Lt(u, v) || Lt(v, u);
  }

  const HI16: Bytes := Hex(0xffff_ffff_ffff_ffff, 16)

  /** A tail that sorts among sixteen hexadecimal digits. */
  predicate AmongDigits(w: Bytes) { Lt(Hex(0, 16), w + [0]) && Lt(w + [0], HI16) }

  /** `v` is `u`, a NUL and a tail that sorts among the digits of `u`'s version keys. */
  predicate Clashes(u: Bytes, v: Bytes) { NulExtends(u, v) && AmongDigits(v[|u| + 1..]) }

  ghost predicate NoNul(z: Bytes) { forall i :: 0 <= i < |z| ==> z[i] != 0 }

  lemma {:induction false} HexNoNul(n: nat, width: nat)
    ensures NoNul(Hex(n, width))
  {
    if width > 0 { HexNoNul(n / 16, width - 1); }
  }

  /** Against a string without NUL, what follows a NUL never counts. */
  lemma {:induction false} NulDecides(w: Bytes, b: Bytes, z: Bytes)
    requires NoNul(z)
    ensures Lt(z, w + [0] + b) <==> Lt(z, w + [0])
    ensures Lt(w + [0] + b, z) <==> Lt(w + [0], z)
    ensures w + [0] + b != z && w + [0] != z
  {
    assert (w + [0])[|w|] == 0 && (w + [0] + b)[|w|] == 0;
    if w != [] && z != [] {
      assert (w + [0])[1..] == w[1..] + [0] && (w + [0] + b)[1..] == w[1..] + [0] + b;
      NulDecides(w[1..], b, z[1..]);
    }
  }

  /** What lies between two strings with a common beginning has that beginning. */
  lemma {:induction false} BetweenPrefix(p: Bytes, a: Bytes, x: Bytes, b: Bytes)
    requires Le(p + a, x) && Le(x, p + b)
    ensures p <= x
  {
    if p != [] {
      assert (p + a)[1..] == p[1..] + a && (p + b)[1..] == p[1..] + b;
      assert x[0] == p[0];
      assert x == [x[0]] + x[1..] && p == [p[0]] + p[1..];
      BetweenPrefix(p[1..], a, x[1..], b);
    }
  }

  /** How a version of a key that runs on from `u` compares with `u`, a NUL and a string without NUL. */
  lemma {:induction false} TailAgainst(u: Bytes, v: Bytes, t: nat, z: Bytes)
    requires t <= MAX_TS && NulExtends(u, v) && NoNul(z)
    ensures Lt(u + [0] + z, VersionKey(v, t)) <==> Lt(z, v[|u| + 1..] + [0])
    ensures Lt(VersionKey(v, t), u + [0] + z) <==> Lt(v[|u| + 1..] + [0], z)
    ensures VersionKey(v, t) != u + [0] + z && Lt(u + [0], VersionKey(v, t))
  {
    var b, w, p := Hex(MAX_TS - t, 16), v[|u| + 1..], u + [0];
    var x := w + [0] + b;
    assert v == p + w;
    assert VersionKey(v, t) == p + x;
    LtPrefix(p, z, x);
    LtPrefix(p, x, z);
    LtPrefix(p, [], x);
    assert p + [] == p;
    NulDecides(w, b, z);
    assert (p + x)[|p|..] == x && (p + z)[|p|..] == z;
  }

  /** Between the versions of `u` there are versions of another key just when that key clashes with it. */
  lemma {:induction false} ClashExact(u: Bytes, v: Bytes, t: nat)
    requires u != v && t <= MAX_TS
    ensures Le(u + [0] + Hex(0, 16), VersionKey(v, t)) && Le(VersionKey(v, t), u + [0] + HI16) <==> Clashes(u, v)
  {
    HexNoNul(0, 16);
    HexNoNul(0xffff_ffff_ffff_ffff, 16);
    WithinDigits(u, v, t, Hex(0, 16), HI16);
  }

  /** Between `u`, a NUL and two strings without NUL there are, of other keys, just those that run on from `u` into that range. */
  lemma {:induction false} WithinDigits(u: Bytes, v: Bytes, t: nat, y: Bytes, z: Bytes)
    requires u != v && t <= MAX_TS && NoNul(y) && NoNul(z)
    ensures Le(u + [0] + y, VersionKey(v, t)) && Le(VersionKey(v, t), u + [0] + z)
            <==> NulExtends(u, v) && Lt(y, v[|u| + 1..] + [0]) && Lt(v[|u| + 1..] + [0], z)
  {
    if Le(u + [0] + y, VersionKey(v, t)) && Le(VersionKey(v, t), u + [0] + z) {
      HexNoNul(MAX_TS - t, 16);
      BetweenPrefix(u + [0], y, VersionKey(v, t), z);
      ExtendsIntoDigits(u, v, Hex(MAX_TS - t, 16));
    }
    if NulExtends(u, v) {
      TailAgainst(u, v, t, y);
      TailAgainst(u, v, t, z);
    }
  }

  lemma {:induction false} ExtendsIntoDigits(u: Bytes, v: Bytes, b: Bytes)
    requires NulExtends(u, v + [0] + b) && NoNul(b)
    ensures u == v || NulExtends(u, v)
  {
    var k := v + [0] + b;
    assert forall i :: |v| < i < |k| ==> k[i] == b[i - |v| - 1] != 0;
    assert k[|u|] == (u + [0])[|u|] == 0;
    if |u| < |v| {
      assert u + [0] == k[..|u| + 1] == v[..|u| + 1];
    } else {
      assert u == k[..|u|] == v;
    }
  }

  /** The physical keys a point read asks for are the versions of that key at or before the timestamp, unless a
      clashing key is in the store. */
  lemma {:induction false} ReadRange(u: Bytes, ts: nat, v: Bytes, t: nat)
    requires ts <= MAX_TS && t <= MAX_TS && (u != v ==> !Clashes(u, v))
    ensures Le(VersionKey(u, ts), VersionKey(v, t)) && Le(VersionKey(v, t), u + [0] + HI16) <==> u == v && t <= ts
  {
    Order();
    Power16Of16();
    if u == v {
      HexOrder(MAX_TS - t, 0xffff_ffff_ffff_ffff, 16);
      LtPrefix(u + [0], Hex(MAX_TS - t, 16), HI16);
      if t < ts { VersionOrder(u, t, ts); }
      if ts < t { VersionOrder(u, ts, t); }
    } else {
      ClashExact(u, v, t);
      LowestFirst(u, ts);
    }
  }

  lemma {:induction false} LowestFirst(u: Bytes, ts: nat)
    requires ts <= MAX_TS
    ensures Le(u + [0] + Hex(0, 16), VersionKey(u, ts))
  {
    Power16Of16();
    if ts < MAX_TS {
      HexOrder(0, MAX_TS - ts, 16);
      LtPrefix(u + [0], Hex(0, 16), Hex(MAX_TS - ts, 16));
    }
  }

  /** `v` is `u`, a NUL and a tail below the upper end of `u`'s version keys. */
  predicate RunsOn(u: Bytes, v: Bytes) { NulExtends(u, v) && Lt(v[|u| + 1..] + [0], HI16) }

  lemma {:induction false} UpToHi16(ts: nat)
    requires ts <= MAX_TS
    ensures Lt(Hex(MAX_TS - ts, 16), HI16)
  {
    Power16Of16();
    HexOrder(MAX_TS - ts, 0xffff_ffff_ffff_ffff, 16);
  }

  /** The physical keys the conflict check of a commit asks for: those of the key, and of the keys that run on from it. */
  lemma {:induction false} CheckRange(u: Bytes, v: Bytes, t: nat)
    requires t <= MAX_TS
    ensures Le(u + [0], VersionKey(v, t)) && Le(VersionKey(v, t), u + [0] + HI16) <==> u == v || RunsOn(u, v)
  {
    var b, p := Hex(MAX_TS - t, 16), u + [0];
    assert p + [] == p;
    if u == v {
      UpToHi16(t);
      LtPrefix(p, [], b);
      LtPrefix(p, b, HI16);
    } else {
      HexNoNul(0xffff_ffff_ffff_ffff, 16);
      WithinDigits(u, v, t, [], HI16);
    }
  }

  /** The order of physical keys is the order of user keys, if neither runs on from the other. */
  lemma {:induction false} KeysDecide(u: Bytes, s: nat, v: Bytes, t: nat)
    requires s <= MAX_TS && t <= MAX_TS && u != v && !RunsOn(u, v) && !RunsOn(v, u)
    ensures Lt(VersionKey(u, s), VersionKey(v, t)) <==> Lt(u, v)
  {
    if NulExtends(u, v) {
      AboveDigits(v[|u| + 1..], s);
      RunsBeyond(u, s, v, t);
    } else if NulExtends(v, u) {
      AboveDigits(u[|v| + 1..], t);
      RunsBeyond(v, t, u, s);
      Order();
    } else {
      CrossOrder(u, Hex(MAX_TS - s, 16), v, Hex(MAX_TS - t, 16));
    }
  }

  lemma {:induction false} AboveDigits(w: Bytes, s: nat)
    requires s <= MAX_TS && !Lt(w + [0], HI16)
    ensures Lt(Hex(MAX_TS - s, 16), w + [0])
  {
    var x := w + [0];
    HexNoNul(0xffff_ffff_ffff_ffff, 16);
    Total(x, HI16);
    assert x[|w|] == 0 && x != HI16;
    UpToHi16(s);
    Transitive(Hex(MAX_TS - s, 16), HI16, x);
  }

  lemma {:induction false} RunsBeyond(u: Bytes, s: nat, v: Bytes, t: nat)
    requires s <= MAX_TS && t <= MAX_TS && NulExtends(u, v) && Lt(Hex(MAX_TS - s, 16), v[|u| + 1..] + [0])
    ensures Lt(VersionKey(u, s), VersionKey(v, t)) && Lt(u, v)
  {
    HexNoNul(MAX_TS - s, 16);
    TailAgainst(u, v, t, Hex(MAX_TS - s, 16));
    ExtendsLater(u, v);
  }

  /** The digits of the oldest version there can be: timestamps start at 1. */
  const OLDEST: Bytes := Hex(MAX_TS - 1, 16)

  /** `v` is `u`, a NUL and a tail that sorts between the digits of the newest and the oldest version of `u`. */
  predicate Splits(u: Bytes, v: Bytes) { NulExtends(u, v) && Lt(Hex(0, 16), v[|u| + 1..] + [0]) && Lt(v[|u| + 1..] + [0], OLDEST) }

  lemma {:induction false} DigitsSpan(t: nat)
    requires 1 <= t <= MAX_TS
    ensures Le(Hex(0, 16), Hex(MAX_TS - t, 16)) && Le(Hex(MAX_TS - t, 16), OLDEST)
  {
    Power16Of16();
    if t < MAX_TS { HexOrder(0, MAX_TS - t, 16); }
    if 1 < t { HexOrder(MAX_TS - t, MAX_TS - 1, 16); }
  }

  /** Versions of `v` stand between two of `u` just when `v` splits `u`. */
  lemma {:induction false} SplitExact(u: Bytes, v: Bytes, t: nat)
    requires u != v && 1 <= t <= MAX_TS
    ensures Splits(u, v) <==> Lt(VersionKey(u, MAX_TS), VersionKey(v, t)) && Lt(VersionKey(v, t), VersionKey(u, 1))
  {
    HexNoNul(0, 16);
    HexNoNul(MAX_TS - 1, 16);
    WithinDigits(u, v, t, Hex(0, 16), OLDEST);
    Decoded(u, MAX_TS);
    Decoded(u, 1);
    Decoded(v, t);
  }

  lemma {:induction false} SplitBetween(u: Bytes, s: nat, v: Bytes, t: nat, s': nat)
    requires u != v && 1 <= t <= MAX_TS && 1 <= s <= MAX_TS && 1 <= s' <= MAX_TS
    requires Lt(VersionKey(u, s), VersionKey(v, t)) && Lt(VersionKey(v, t), VersionKey(u, s'))
    ensures Splits(u, v)
  {
    if s < MAX_TS {
      VersionOrder(u, s, MAX_TS);
      Transitive(VersionKey(u, MAX_TS), VersionKey(u, s), VersionKey(v, t));
    }
    if 1 < s' {
      VersionOrder(u, 1, s');
      Transitive(VersionKey(v, t), VersionKey(u, s'), VersionKey(u, 1));
    }
    SplitExact(u, v, t);
  }

  /** Why the condition is there: the key "a", a NUL and "5" puts its versions among those of "a". */
  lemma {:induction false} NulKeysMix()
    ensures Clashes([97], [97, 0, 53]) && Splits([97], [97, 0, 53])
  {
    assert [97] + [0] == [97, 0, 53][..2];
    Power16Of16();
    HexEnds(16);
    assert Splits([97], [97, 0, 53]) by { OldestStarts(); }
  }

  /** The first digit. */
  lemma {:induction false} HexFirst(n: nat, width: nat, d: nat)
    requires d < 16 && d * Power16(width) <= n < (d + 1) * Power16(width)
    ensures Hex(n, width + 1)[0] == Digit(d)
  {
    if width > 0 {
      ShiftDown(n, Power16(width - 1), d);
      HexFirst(n / 16, width - 1, d);
      assert Hex(n, width + 1)[0] == Hex(n / 16, width)[0];
    }
  }

  lemma {:induction false} ShiftDown(n: nat, p: nat, d: nat)
    requires d * (16 * p) <= n < (d + 1) * (16 * p)
    ensures d * p <= n / 16 < (d + 1) * p
  {
    assert d * (16 * p) == 16 * (d * p) && (d + 1) * (16 * p) == 16 * ((d + 1) * p);
  }

  lemma {:induction false} OldestStarts()
    ensures OLDEST[0] == 55
  {
    Power16Of16();
    assert Power16(16) == 16 * Power16(15);
    HexFirst(MAX_TS - 1, 15, 7);
  }

  lemma {:induction false} HexEnds(width: nat)
    requires width > 0
    ensures Hex(0, width)[0] == 48 && Hex(Power16(width) - 1, width)[0] == 102
  {
    var n := Power16(width) - 1;
    assert n / 16 == Power16(width - 1) - 1 && n % 16 == 15;
    if width > 1 { HexEnds(width - 1); }
  }

  const HI_CHAR: Bytes := [0xF4, 0x8F, 0xBF, 0xBF]         // U+10FFFF

  /** What a scan from `lo` up to the extensions of `hi` sees. */
  predicate InScanRange(lo: Bytes, u: Bytes, hi: Bytes) { Le(lo, u) && Lt(u, hi + HI_CHAR) }

  /** What a bound that runs on from `u` adds to `u` and the NUL. */
  function TailOf(u: Bytes, x: Bytes): Bytes { if |u| < |x| then x[|u| + 1..] else [] }

  /** The digits of a version of `u` are at or above the lower bound, which runs on from `u`, and not above the upper one. */
  predicate Leaks(lo: Bytes, u: Bytes, hi: Bytes, t: nat) {
    && 1 <= t <= MAX_TS && Le(TailOf(u, lo), Hex(MAX_TS - t, 16))
    && (if NulExtends(u, hi + HI_CHAR) then Le(Hex(MAX_TS - t, 16), TailOf(u, hi + HI_CHAR)) else Lt(u, hi + HI_CHAR))
  }

  /** A scan's bounds do not part the versions of `u`: a lower bound that runs on from `u` leaves out all of them, and an
      upper one none. */
  ghost predicate BoundsFit(lo: Bytes, u: Bytes, hi: Bytes) {
    && (NulExtends(u, lo) ==> forall t :: !Leaks(lo, u, hi, t))
    && (NulExtends(u, hi + HI_CHAR) && Le(lo, u) ==> Le(OLDEST, TailOf(u, hi + HI_CHAR)))
  }

  /** How a version of `u` compares with a bound that runs on from `u`. */
  lemma {:induction false} BoundAgainst(u: Bytes, t: nat, x: Bytes)
    requires t <= MAX_TS && NulExtends(u, x)
    ensures Lt(VersionKey(u, t), x) <==> Lt(Hex(MAX_TS - t, 16), TailOf(u, x))
    ensures VersionKey(u, t) == x <==> Hex(MAX_TS - t, 16) == TailOf(u, x)
    ensures Lt(u, x)
  {
    var b, p := Hex(MAX_TS - t, 16), u + [0];
    assert x == p + TailOf(u, x);
    LtPrefix(p, b, TailOf(u, x));
    assert (p + b)[|p|..] == b && x[|p|..] == TailOf(u, x);
    ExtendsLater(u, x);
  }

  /** The version of `u` at `t` is between the bounds of a scan just when `u` is meant to be. */
  predicate Placed(lo: Bytes, u: Bytes, hi: Bytes, t: nat)
    requires t <= MAX_TS
  {
    Le(lo, VersionKey(u, t)) && Le(VersionKey(u, t), hi + HI_CHAR) <==> InScanRange(lo, u, hi)
  }

  lemma {:induction false} AboveLower(lo: Bytes, u: Bytes, t: nat)
    requires t <= MAX_TS
    ensures Le(lo, VersionKey(u, t)) <==> if NulExtends(u, lo) then Le(TailOf(u, lo), Hex(MAX_TS - t, 16)) else Le(lo, u)
    ensures NulExtends(u, lo) ==> !Le(lo, u)
  {
    Order();
    Total(lo, VersionKey(u, t));
    if NulExtends(u, lo) {
      BoundAgainst(u, t, lo);
      Total(TailOf(u, lo), Hex(MAX_TS - t, 16));
    } else {
      SameSide(u, Hex(MAX_TS - t, 16), lo);
      Total(lo, u);
    }
  }

  lemma {:induction false} BelowUpper(u: Bytes, x: Bytes, t: nat)
    requires t <= MAX_TS
    ensures Le(VersionKey(u, t), x) <==> if NulExtends(u, x) then Le(Hex(MAX_TS - t, 16), TailOf(u, x)) else Lt(u, x)
    ensures NulExtends(u, x) ==> Lt(u, x)
  {
    if NulExtends(u, x) {
      BoundAgainst(u, t, x);
    } else {
      SameSide(u, Hex(MAX_TS - t, 16), x);
    }
  }

  lemma {:induction false} BoundsPlaced(lo: Bytes, u: Bytes, hi: Bytes, t: nat)
    requires 1 <= t <= MAX_TS && BoundsFit(lo, u, hi)
    ensures Placed(lo, u, hi, t)
  {
    AboveLower(lo, u, t);
    BelowUpper(u, hi + HI_CHAR, t);
    DigitsSpan(t);
    Order();
    assert NulExtends(u, lo) ==> !Leaks(lo, u, hi, t);
  }

  lemma {:induction false} UnfitMisplaced(lo: Bytes, u: Bytes, hi: Bytes) returns (t: nat)
    requires !BoundsFit(lo, u, hi)
    ensures 1 <= t <= MAX_TS && !Placed(lo, u, hi, t)
  {
    t := 1;
    if NulExtends(u, lo) && exists t :: Leaks(lo, u, hi, t) {
      t :| Leaks(lo, u, hi, t);
    }
    AboveLower(lo, u, t);
    BelowUpper(u, hi + HI_CHAR, t);
  }

  /** Exactly then all versions of `u` are where a scan expects them. */
  lemma {:induction false} BoundsExact(lo: Bytes, u: Bytes, hi: Bytes)
    ensures BoundsFit(lo, u, hi) <==> forall t :: 1 <= t <= MAX_TS ==> Placed(lo, u, hi, t)
  {
    if BoundsFit(lo, u, hi) {
      forall t | 1 <= t <= MAX_TS ensures Placed(lo, u, hi, t) { BoundsPlaced(lo, u, hi, t); }
    } else {
      var t := UnfitMisplaced(lo, u, hi);
    }
  }

  /** Scans without bounds fit all keys. */
  lemma {:induction false} NoBoundsFit(u: Bytes)
    ensures BoundsFit([], u, [])
  {
    var x := u + [0];
    assert x[|u|] == 0 && [] + HI_CHAR == HI_CHAR;
    assert forall i :: 0 <= i < |HI_CHAR| ==> HI_CHAR[i] != 0;
  }
}
