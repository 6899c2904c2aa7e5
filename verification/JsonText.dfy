/** JSON texts as sections 2 to 7 of RFC 8259 define them, apart from how they are printed and parsed here: what is printed is
    a text of the value, and every text of a value is parsed as that value. */
module JsonText {
  import opened Json
  import Seqs
  import C = Commands

  // ---- the grammar -----------------------------------------------------------------------------------------------

  const QUOTE: Unit := '"' as int
  const BACKSLASH: Unit := '\\' as int
  const COMMA: Unit := ',' as int
  const COLON: Unit := ':' as int
  const TRUE: Text := ['t' as int, 'r' as int, 'u' as int, 'e' as int]
  const FALSE: Text := ['f' as int, 'a' as int, 'l' as int, 's' as int, 'e' as int]
  const NULL: Text := ['n' as int, 'u' as int, 'l' as int, 'l' as int]

  predicate IsBlank(c: Unit) { c == ' ' as int || c == '\t' as int || c == '\n' as int || c == '\r' as int }

  /** White space between tokens; none at all in a compact text. */
  ghost predicate Blanks(t: Text, loose: bool) { if loose then forall i :: 0 <= i < |t| ==> IsBlank(t[i]) else t == [] }

  predicate IsDigit(c: Unit) { '0' as int <= c <= '9' as int }

  /** Decimal digits, without a zero in front of others. */
  ghost predicate IsNatural(t: Text) {
    t != [] && (forall i :: 0 <= i < |t| ==> IsDigit(t[i])) && (|t| > 1 ==> t[0] != '0' as int)
  }

  ghost function DecimalValue(t: Text): int {
    if t == [] then 0 else 10 * DecimalValue(t[..|t| - 1]) + (t[|t| - 1] - '0' as int)
  }

  ghost predicate IsNumeral(n: int, t: Text) {
    || (IsNatural(t) && n == DecimalValue(t))
    || (t != [] && t[0] == '-' as int && IsNatural(t[1..]) && n == -DecimalValue(t[1..]))
  }

  ghost function HexValue(c: Unit): int {
    if IsDigit(c) then c - '0' as int
    else if 'a' as int <= c <= 'f' as int then c - 'a' as int + 10
    else if 'A' as int <= c <= 'F' as int then c - 'A' as int + 10
    else -1
  }

  /** The character after a backslash names the character. */
  predicate Names(e: Unit, c: Unit) {
    || (e == c && (c == QUOTE || c == BACKSLASH || c == '/' as int))
    || (e == 'b' as int && c == 8) || (e == 'f' as int && c == 12) || (e == 'n' as int && c == 10)
    || (e == 'r' as int && c == 13) || (e == 't' as int && c == 9)
  }

  /** One character of a string: itself, a short escape, or four hexadecimal digits. */
  ghost predicate IsChar(c: Unit, e: Text) {
    || (e == [c] && c >= 32 && c != QUOTE && c != BACKSLASH)
    || (|e| == 2 && e[0] == BACKSLASH && Names(e[1], c))
    || (|e| == 6 && e[0] == BACKSLASH && e[1] == 'u' as int && (forall i :: 2 <= i < 6 ==> HexValue(e[i]) >= 0)
        && c == HexValue(e[2]) * 4096 + HexValue(e[3]) * 256 + HexValue(e[4]) * 16 + HexValue(e[5]))
  }

  ghost predicate IsChars(s: Text, t: Text)
    decreases |s|
  {
    if s == [] then t == [] else exists k: nat :: k <= |t| && IsChar(s[0], t[..k]) && IsChars(s[1..], t[k..])
  }

  ghost predicate Enclosed(t: Text, open: Unit, close: Unit) { |t| >= 2 && t[0] == open && t[|t| - 1] == close }

  ghost predicate IsString(s: Text, t: Text) { Enclosed(t, QUOTE, QUOTE) && IsChars(s, t[1..|t| - 1]) }

  ghost predicate Around(t: Text, a: Text, x: Text, b: Text) { t == a + x + b }

  ghost predicate IsPaddedString(s: Text, t: Text, loose: bool) {
    exists a, x, b :: Around(t, a, x, b) && Blanks(a, loose) && Blanks(b, loose) && IsString(s, x)
  }

  /** The text is one of the value. */
  ghost predicate IsText(v: Value, t: Text, loose: bool)
    decreases v, 3
  {
    match v
    case Null => t == NULL
    case Bool(b) => t == if b then TRUE else FALSE
    case Num(n) => IsNumeral(n, t)
    case Decimal(_) => false
    case Str(s) => IsString(s, t)
    case Arr(items) => Enclosed(t, '[' as int, ']' as int) && IsItems(items, t[1..|t| - 1], loose)
    case Obj(fields) => Enclosed(t, '{' as int, '}' as int) && IsMembers(fields, t[1..|t| - 1], loose)
  }

  ghost predicate IsPadded(v: Value, t: Text, loose: bool)
    decreases v, 4
  {
    exists a, x, b :: Around(t, a, x, b) && Blanks(a, loose) && Blanks(b, loose) && IsText(v, x, loose)
  }

  ghost predicate IsItems(items: seq<Value>, t: Text, loose: bool)
    decreases items, 0
  {
    if items == [] then Blanks(t, loose)
    else if |items| == 1 then IsPadded(items[0], t, loose)
    else exists n: nat :: n < |t| && t[n] == COMMA && IsPadded(items[0], t[..n], loose) && IsItems(items[1..], t[n + 1..], loose)
  }

  ghost predicate IsMember(f: Field, t: Text, loose: bool)
    decreases f, 0
  {
    exists n: nat :: n < |t| && t[n] == COLON && IsPaddedString(f.key, t[..n], loose) && IsPadded(f.value, t[n + 1..], loose)
  }

  ghost predicate IsMembers(fields: seq<Field>, t: Text, loose: bool)
    decreases fields, 0
  {
    if fields == [] then Blanks(t, loose)
    else if |fields| == 1 then IsMember(fields[0], t, loose)
    else exists n: nat :: n < |t| && t[n] == COMMA && IsMember(fields[0], t[..n], loose) && IsMembers(fields[1..], t[n + 1..], loose)
  }

  // ---- what is printed is a text ------------------------------------------------------------------------------------

  lemma {:induction false} EscapeIsChar(c: Unit)
    ensures IsChar(c, Escape(c))
  {
    if c < 32 { assert c == HexValue(HexDigit(c / 16)) * 16 + HexValue(HexDigit(c % 16)); }
  }

  lemma {:induction false} EscapedIsChars(s: Text)
    ensures IsChars(s, Escaped(s))
    decreases |s|
  {
    if s != [] {
      var k := |Escape(s[0])|;
      EscapeIsChar(s[0]);
      EscapedIsChars(s[1..]);
      assert Escaped(s)[..k] == Escape(s[0]) && Escaped(s)[k..] == Escaped(s[1..]);
    }
  }

  lemma {:induction false} QuotedIsString(s: Text)
    ensures IsString(s, Quoted(s))
  {
    EscapedIsChars(s);
    assert Quoted(s)[1..|Quoted(s)| - 1] == Escaped(s);
  }

  lemma {:induction false} DigitsAreNatural(n: nat)
    ensures IsNatural(Digits(n)) && DecimalValue(Digits(n)) == n && (n > 0 ==> Digits(n)[0] != '0' as int)
  {
    var t := Digits(n);
    if n < 10 {
      assert t == [48 + n] && t[..0] == [];
    } else {
      DigitsAreNatural(n / 10);
      assert t[..|t| - 1] == Digits(n / 10);
    }
  }

  lemma {:induction false} NumeralIsNumeral(n: int)
    ensures IsNumeral(n, Numeral(n))
  {
    if n < 0 {
      DigitsAreNatural(-n);
      assert Numeral(n)[1..] == Digits(-n);
    } else {
      DigitsAreNatural(n);
    }
  }

  lemma {:induction false} Parts(x: Text, c: Unit, y: Text)
    ensures (x + [c] + y)[..|x|] == x && (x + [c] + y)[|x|] == c && (x + [c] + y)[|x| + 1..] == y
  {
  }

  lemma {:induction false} Inside(open: Unit, t: Text, close: Unit)
    ensures Enclosed([open] + t + [close], open, close) && ([open] + t + [close])[1..|[open] + t + [close]| - 1] == t
  {
  }

  lemma {:induction false} Bare(v: Value, t: Text, loose: bool)
    requires IsText(v, t, loose)
    ensures IsPadded(v, t, loose)
  {
    assert Around(t, [], t, []);
  }

  lemma {:induction false} BareString(s: Text, t: Text, loose: bool)
    requires IsString(s, t)
    ensures IsPaddedString(s, t, loose)
  {
    assert Around(t, [], t, []);
  }

  /** The printer writes every sendable value as one of its texts, and without white space. */
  lemma {:induction false} EncodeIsText(v: Value, loose: bool)
    requires Sendable(v)
    ensures IsText(v, Encode(v), loose)
    decreases v, 1
  {
    match v
    case Num(n) => NumeralIsNumeral(n);
    case Str(s) => QuotedIsString(s);
    case Arr(items) =>
      ItemsAreText(items, loose);
      Inside(91, EncodeItems(items), 93);
    case Obj(fields) =>
      FieldsAreText(fields, loose);
      Inside(123, EncodeFields(fields), 125);
    case _ =>
  }

  lemma {:induction false} ItemsAreText(items: seq<Value>, loose: bool)
    requires forall i :: 0 <= i < |items| ==> Sendable(items[i])
    ensures IsItems(items, EncodeItems(items), loose)
    decreases items, 0
  {
    if items != [] {
      var x := Encode(items[0]);
      EncodeIsText(items[0], loose);
      Bare(items[0], x, loose);
      if |items| == 1 {
        assert EncodeItems(items) == x;
      } else {
        ItemsAreText(items[1..], loose);
        Parts(x, 44, EncodeItems(items[1..]));
        Seqs.Assoc(x, [44], EncodeItems(items[1..]));
      }
    }
  }

  lemma {:induction false} FieldIsText(f: Field, loose: bool)
    requires Sendable(f.value)
    ensures IsMember(f, FieldText(f), loose)
    decreases f, 0
  {
    var k := Quoted(f.key);
    QuotedIsString(f.key);
    BareString(f.key, k, loose);
    EncodeIsText(f.value, loose);
    Bare(f.value, Encode(f.value), loose);
    Parts(k, 58, Encode(f.value));
  }

  lemma {:induction false} FieldsAreText(fields: seq<Field>, loose: bool)
    requires forall i :: 0 <= i < |fields| ==> Sendable(fields[i].value)
    ensures IsMembers(fields, EncodeFields(fields), loose)
    decreases fields, 0
  {
    if fields != [] {
      var x := FieldText(fields[0]);
      FieldIsText(fields[0], loose);
      if |fields| == 1 {
        assert EncodeFields(fields) == x;
      } else {
        FieldsAreText(fields[1..], loose);
        Parts(x, 44, EncodeFields(fields[1..]));
        Seqs.Assoc(x, [44], EncodeFields(fields[1..]));
      }
    }
  }

  // ---- every text is read ---------------------------------------------------------------------------------------------

  lemma {:induction false} Skip(b: Text, t: Text)
    requires Blanks(b, true)
    ensures SkipWs(b + t) == SkipWs(t)
    decreases |b|
  {
    if b == [] {
      assert b + t == t;
    } else {
      Skip(b[1..], t);
      assert (b + t)[1..] == b[1..] + t;
    }
  }

  lemma {:induction false} CharRead(c: Unit, e: Text, rest: Text, acc: Text)
    requires IsChar(c, e)
    ensures Chars(e + rest, acc) == Chars(rest, acc + [c])
  {
    var t := e + rest;
    assert t[|e|..] == rest;
    if |e| == 6 {
      assert t[2..6] == e[2..6];
      HexRead(e[2], e[3], e[4], e[5]);
      assert e[2..6] == [e[2], e[3], e[4], e[5]];
    }
  }

  lemma {:induction false} HexRead(a: Unit, b: Unit, c: Unit, d: Unit)
    requires HexValue(a) >= 0 && HexValue(b) >= 0 && HexValue(c) >= 0 && HexValue(d) >= 0
    ensures ParseInteger([a, b, c, d], 16) == C.Some(HexValue(a) * 4096 + HexValue(b) * 256 + HexValue(c) * 16 + HexValue(d))
  {
    assert ParseDigits([a], 16) == C.Some(HexValue(a));
    assert [a, b][..1] == [a] && [a, b, c][..2] == [a, b] && [a, b, c, d][..3] == [a, b, c];
    assert ParseDigits([a, b], 16) == C.Some(HexValue(a) * 16 + HexValue(b));
    assert ParseDigits([a, b, c], 16) == C.Some(HexValue(a) * 256 + HexValue(b) * 16 + HexValue(c));
  }

  lemma {:induction false} CharsRead(s: Text, t: Text, rest: Text, acc: Text)
    requires IsChars(s, t)
    ensures Chars(t + rest, acc) == Chars(rest, acc + s)
    decreases |s|
  {
    if s == [] {
      Seqs.Nothing(rest);
      Seqs.Nothing(acc);
    } else {
      var k: nat :| k <= |t| && IsChar(s[0], t[..k]) && IsChars(s[1..], t[k..]);
      CharRead(s[0], t[..k], t[k..] + rest, acc);
      CharsRead(s[1..], t[k..], rest, acc + [s[0]]);
      Seqs.Cut(t, k);
      Seqs.Assoc(t[..k], t[k..], rest);
      Seqs.Assoc(acc, [s[0]], s[1..]);
      Seqs.Cons(s);
    }
  }

  lemma {:induction false} StringRead(s: Text, t: Text, rest: Text)
    requires IsString(s, t)
    ensures (t + rest)[0] == QUOTE && Chars((t + rest)[1..], []) == Got(s, rest)
  {
    var end := [QUOTE] + rest;
    CharsRead(s, t[1..|t| - 1], end, []);
    assert (t + rest)[1..] == t[1..|t| - 1] + end && [] + s == s && end[1..] == rest;
  }

  lemma {:induction false} NaturalRead(t: Text)
    requires t != [] && forall i :: 0 <= i < |t| ==> IsDigit(t[i])
    ensures ParseDigits(t, 10) == C.Some(DecimalValue(t))
    decreases |t|
  {
    if |t| == 1 {
      assert DecimalValue(t[..0]) == 0;
    } else {
      NaturalRead(t[..|t| - 1]);
    }
  }

  lemma {:induction false} NumberEnds(a: Text, t: Text, acc: Text)
    requires forall i :: 0 <= i < |a| ==> InNumber(a[i])
    requires Stops(t)
    ensures NumberSpan(a + t, acc) == (acc + a, t)
    decreases |a|
  {
    if a == [] {
      assert a + t == t && acc + a == acc;
    } else {
      NumberEnds(a[1..], t, acc + [a[0]]);
      assert (a + t)[1..] == a[1..] + t && acc + [a[0]] + a[1..] == acc + a;
    }
  }

  lemma {:induction false} NotDecimal(t: Text)
    requires forall i :: 0 <= i < |t| ==> IsDigit(t[i]) || t[i] == 45
    ensures !IsDecimal(t)
    decreases |t|
  {
    if t != [] { NotDecimal(t[..|t| - 1]); }
  }

  lemma {:induction false} NumeralRead(n: int, t: Text, rest: Text)
    requires IsNumeral(n, t) && InLong(n) && Stops(rest)
    ensures NumberOf(t + rest) == Got(Num(n), rest)
  {
    NumberEnds(t, rest, []);
    NotDecimal(t);
    assert [] + t == t;
    if t[0] == '-' as int { NaturalRead(t[1..]); } else { NaturalRead(t); }
  }

  // ---- values in their texts ------------------------------------------------------------------------------------------

  /** A value begins with a character that is no white space and closes nothing. */
  ghost predicate Opens(t: Text) { t != [] && !IsWhitespace(t[0]) && t[0] != 93 && t[0] != 125 }

  lemma {:induction false} TextOpens(v: Value, t: Text)
    requires IsText(v, t, true)
    ensures Opens(t)
  {
    match v
    case Num(n) => assert IsDigit(t[0]) || t[0] == '-' as int;
    case _ =>
  }

  lemma {:induction false} SkipTo(b: Text, x: Text, rest: Text)
    requires Blanks(b, true) && Opens(x)
    ensures SkipWs(b + (x + rest)) == x + rest
  {
    Skip(b, x + rest);
  }

  lemma {:induction false} SkipSkip(t: Text)
    ensures SkipWs(SkipWs(t)) == SkipWs(t)
    decreases |t|
  {
    if t != [] && IsWhitespace(t[0]) { SkipSkip(t[1..]); }
  }

  /** The parser reads every text of a sendable value as that value, and stops where the text ends. */
  lemma {:induction false} ValueRead(v: Value, t: Text, rest: Text)
    requires IsText(v, t, true) && Sendable(v) && Stops(rest)
    ensures ValueOf(t + rest) == Got(v, rest)
    decreases v, 3
  {
    TextOpens(v, t);
    match v
    case Null => assert (t + rest)[4..] == rest;
    case Bool(b) => assert (t + rest)[|t|..] == rest;
    case Num(n) => NumeralRead(n, t, rest);
    case Str(s) => StringRead(s, t, rest);
    case Arr(items) => ArrayRead(items, t, rest);
    case Obj(fields) => ObjectRead(fields, t, rest);
  }

  lemma {:induction false} Regroup(t: Text, a: Text, x: Text, b: Text, rest: Text)
    requires Around(t, a, x, b)
    ensures t + rest == a + (x + (b + rest))
  {
  }

  lemma {:induction false} CutAt(t: Text, n: nat, c: Unit, end: Text)
    requires n < |t| && t[n] == c
    ensures t + end == t[..n] + ([c] + (t[n + 1..] + end))
  {
  }

  lemma {:induction false} AfterBlanks(a: Text, t: Text, v: Value, rest: Text)
    requires Blanks(a, true) && Opens(t) && ValueOf(t) == Got(v, rest)
    ensures ValueOf(a + t) == Got(v, rest) && Opens(SkipWs(a + t))
  {
    Skip(a, t);
    SameValue(a + t, t);
  }

  lemma {:induction false} PaddedRead(v: Value, t: Text, rest: Text) returns (b: Text)
    requires IsPadded(v, t, true) && Sendable(v) && Stops(rest)
    ensures Blanks(b, true) && ValueOf(t + rest) == Got(v, b + rest)
    ensures Opens(SkipWs(t + rest))
    decreases v, 4
  {
    var a, x, e :| Around(t, a, x, e) && Blanks(a, true) && Blanks(e, true) && IsText(v, x, true);
    b := e;
    Regroup(t, a, x, b, rest);
    TextOpens(v, x);
    ValueRead(v, x, b + rest);
    AfterBlanks(a, x + (b + rest), v, b + rest);
  }

  lemma {:induction false} SameValue(t: Text, u: Text)
    requires SkipWs(t) == SkipWs(u)
    ensures ValueOf(t) == ValueOf(u)
  {
  }

  lemma {:induction false} SameItems(t: Text)
    ensures ItemsOf(SkipWs(t), []) == ItemsOf(t, [])
  {
    SkipSkip(t);
    SameValue(t, SkipWs(t));
  }

  lemma {:induction false} Body(t: Text, open: Unit, close: Unit, rest: Text)
    requires Enclosed(t, open, close)
    ensures (t + rest)[0] == open && (t + rest)[1..] == t[1..|t| - 1] + ([close] + rest) && ([close] + rest)[1..] == rest
  {
  }

  lemma {:induction false} ArrayRead(items: seq<Value>, t: Text, rest: Text)
    requires IsText(Arr(items), t, true) && Sendable(Arr(items))
    ensures ValueOf(t + rest) == Got(Arr(items), rest)
    decreases Arr(items), 2
  {
    var body, end := t[1..|t| - 1], [93] + rest;
    Body(t, 91, 93, rest);
    SkipSkip(body + end);
    if items == [] {
      Skip(body, end);
    } else {
      ItemsRead(items, body, rest, []);
      SameItems(body + end);
      Seqs.Nothing(items);
    }
  }

  lemma {:induction false} NextItem(w: Text, x: Value, b: Text, c: Unit, tail: Text, acc: seq<Value>)
    requires Blanks(b, true) && !IsWhitespace(c) && ValueOf(w) == Got(x, b + ([c] + tail))
    ensures ItemsOf(w, acc) == if c == 93 then Got(Arr(acc + [x]), tail) else ItemsOf(tail, acc + [x])
  {
    Skip(b, [c] + tail);
    assert ([c] + tail)[1..] == tail;
  }

  lemma {:induction false} ItemsRead(items: seq<Value>, t: Text, rest: Text, acc: seq<Value>)
    requires items != [] && IsItems(items, t, true) && forall i :: 0 <= i < |items| ==> Sendable(items[i])
    ensures Opens(SkipWs(t + ([93] + rest))) && ItemsOf(t + ([93] + rest), acc) == Got(Arr(acc + items), rest)
    decreases items, 1
  {
    var end := [93] + rest;
    if |items| == 1 {
      var b := PaddedRead(items[0], t, end);
      NextItem(t + end, items[0], b, 93, rest, acc);
      assert items == [items[0]];
    } else {
      var n: nat :| n < |t| && t[n] == COMMA && IsPadded(items[0], t[..n], true) && IsItems(items[1..], t[n + 1..], true);
      var u := t[n + 1..];
      CutAt(t, n, COMMA, end);
      var b := PaddedRead(items[0], t[..n], [COMMA] + (u + end));
      NextItem(t + end, items[0], b, COMMA, u + end, acc);
      ItemsRead(items[1..], u, rest, acc + [items[0]]);
      Seqs.Assoc(acc, [items[0]], items[1..]);
      Seqs.Cons(items);
    }
  }

  lemma {:induction false} ObjectRead(fields: seq<Field>, t: Text, rest: Text)
    requires IsText(Obj(fields), t, true) && Sendable(Obj(fields))
    ensures ValueOf(t + rest) == Got(Obj(fields), rest)
    decreases Obj(fields), 2
  {
    var body, end := t[1..|t| - 1], [125] + rest;
    Body(t, 123, 125, rest);
    if fields == [] {
      Skip(body, end);
    } else {
      Seqs.Nothing(fields);
      FieldsRead(fields, body, rest, []);
      SameFields(body + end);
    }
  }

  lemma {:induction false} SameFields(t: Text)
    ensures FieldsOf(SkipWs(t), []) == FieldsOf(t, [])
  {
    SkipSkip(t);
  }

  /** A key, its value, and white space behind it are read. */
  ghost predicate MemberReads(f: Field, t: Text, b: Text, rest: Text) {
    var key := Chars(Drop(SkipWs(t), 1), []);
    Blanks(b, true) && Opens(SkipWs(t)) && key.Got? && key.value == f.key
    && ValueOf(Drop(SkipWs(key.rest), 1)) == Got(f.value, b + rest)
  }

  lemma {:induction false} KeyRead(s: Text, t: Text, rest: Text)
    requires IsPaddedString(s, t, true)
    ensures Opens(SkipWs(t + ([COLON] + rest)))
    ensures var key := Chars(Drop(SkipWs(t + ([COLON] + rest)), 1), []);
            key.Got? && key.value == s && Drop(SkipWs(key.rest), 1) == rest
  {
    var a, x, b :| Around(t, a, x, b) && Blanks(a, true) && Blanks(b, true) && IsString(s, x);
    var end := [COLON] + rest;
    StringRead(s, x, b + end);
    SkipTo(a, x, b + end);
    assert t + end == a + (x + (b + end));
    Skip(b, end);
    assert end[1..] == rest;
  }

  lemma {:induction false} MemberRead(f: Field, t: Text, rest: Text) returns (b: Text)
    requires IsMember(f, t, true) && Sendable(f.value) && Stops(rest)
    ensures MemberReads(f, t + rest, b, rest)
    decreases f, 1
  {
    var n: nat :| n < |t| && t[n] == COLON && IsPaddedString(f.key, t[..n], true) && IsPadded(f.value, t[n + 1..], true);
    b := PaddedRead(f.value, t[n + 1..], rest);
    KeyRead(f.key, t[..n], t[n + 1..] + rest);
    CutAt(t, n, COLON, rest);
  }

  lemma {:induction false} PutNew(acc: seq<Field>, key: Text, value: Value)
    requires forall i :: 0 <= i < |acc| ==> acc[i].key != key
    ensures PutField(acc, key, value) == acc + [Field(key, value)]
  {
    if acc != [] { PutNew(acc[1..], key, value); }
  }

  ghost predicate Distinct(fields: seq<Field>) { forall i, j :: 0 <= i < j < |fields| ==> fields[i].key != fields[j].key }

  lemma {:induction false} NextKey(acc: seq<Field>, fields: seq<Field>)
    requires fields != [] && Distinct(acc + fields)
    ensures PutField(acc, fields[0].key, fields[0].value) == acc + [fields[0]] && acc + [fields[0]] + fields[1..] == acc + fields
  {
    forall i | 0 <= i < |acc| ensures acc[i].key != fields[0].key {
      assert (acc + fields)[i] == acc[i] && (acc + fields)[|acc|] == fields[0];
    }
    PutNew(acc, fields[0].key, fields[0].value);
  }

  lemma {:induction false} NextField(f: Field, w: Text, b: Text, c: Unit, tail: Text, acc: seq<Field>)
    requires !IsWhitespace(c) && MemberReads(f, w, b, [c] + tail)
    ensures FieldsOf(w, acc) ==
            var m := PutField(acc, f.key, f.value); if c == 125 then Got(Obj(m), tail) else FieldsOf(tail, m)
  {
    Skip(b, [c] + tail);
    assert ([c] + tail)[1..] == tail;
  }

  lemma {:induction false} FieldsRead(fields: seq<Field>, t: Text, rest: Text, acc: seq<Field>)
    requires fields != [] && IsMembers(fields, t, true) && Distinct(acc + fields)
    requires forall i :: 0 <= i < |fields| ==> Sendable(fields[i].value)
    ensures Opens(SkipWs(t + ([125] + rest))) && FieldsOf(t + ([125] + rest), acc) == Got(Obj(acc + fields), rest)
    decreases fields, 0
  {
    var f, end := fields[0], [125] + rest;
    NextKey(acc, fields);
    if |fields| == 1 {
      var b := MemberRead(f, t, end);
      NextField(f, t + end, b, 125, rest, acc);
      assert fields == [f];
    } else {
      var n: nat :| n < |t| && t[n] == COMMA && IsMember(f, t[..n], true) && IsMembers(fields[1..], t[n + 1..], true);
      var u := t[n + 1..];
      CutAt(t, n, COMMA, end);
      var b := MemberRead(f, t[..n], [COMMA] + (u + end));
      NextField(f, t + end, b, COMMA, u + end, acc);
      FieldsRead(fields[1..], u, rest, acc + [f]);
    }
  }

  // ---- whole messages ---------------------------------------------------------------------------------------------------

  /** A text of a sendable value, with white space before and after it, is read as that value. */
  lemma {:induction false} MessageRead(v: Value, t: Text)
    requires IsPadded(v, t, true) && Sendable(v)
    ensures ValueOf(t).Got? && ValueOf(t).value == v
  {
    var b := PaddedRead(v, t, []);
    assert t + [] == t;
  }

  /** A text belongs to one sendable value. */
  lemma {:induction false} OneValue(v: Value, w: Value, t: Text)
    requires IsPadded(v, t, true) && IsPadded(w, t, true) && Sendable(v) && Sendable(w)
    ensures v == w
  {
    MessageRead(v, t);
    MessageRead(w, t);
  }

  /** The parser reads back what is printed, and stops exactly at its end. */
  lemma {:induction false} RoundTrip(v: Value, rest: Text)
    requires Sendable(v) && Stops(rest)
    ensures ValueOf(Encode(v) + rest) == Got(v, rest)
  {
    EncodeIsText(v, true);
    ValueRead(v, Encode(v), rest);
  }

  /** Sending a value and receiving it gives the same value. */
  lemma {:induction false} WireRoundTrip(v: Value)
    requires Sendable(v)
    ensures ValueOf(Encode(v)) == Got(v, [])
  {
    RoundTrip(v, []);
    assert Encode(v) + [] == Encode(v);
  }
}
