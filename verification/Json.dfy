/** The JSON of the cluster's wire format, over Java's 16-bit characters: printing and parsing as functions on texts, proved
    against the grammar in `JsonText`. The printer and the parser that carry them out are in `JsonIo`. */
module Json {
  import C = Commands

  type Unit = x: int | 0 <= x < 65536
  type Text = seq<Unit>

  /** Numerals with a point or an exponent stay text: `Decimal`. */
  datatype Value =
    | Null | Bool(b: bool) | Num(n: int) | Decimal(text: Text) | Str(s: Text)
    | Arr(items: seq<Value>)
    | Obj(fields: seq<Field>)

  datatype Field = Field(key: Text, value: Value)

  predicate InLong(n: int) { -0x8000_0000_0000_0000 <= n < 0x8000_0000_0000_0000 }

  /** A value the wire carries: 64-bit integers, and objects whose keys differ. */
  ghost predicate Sendable(v: Value) {
    match v
    case Num(n) => InLong(n)
    case Decimal(_) => false
    case Arr(items) => forall i :: 0 <= i < |items| ==> Sendable(items[i])
    case Obj(fields) =>
      && (forall i :: 0 <= i < |fields| ==> Sendable(fields[i].value))
      && (forall i, j :: 0 <= i < j < |fields| ==> fields[i].key != fields[j].key)
    case _ => true
  }

  // ---- printing ----------------------------------------------------------------------------------------------

  function HexDigit(d: nat): Unit requires d < 16 { if d < 10 then 48 + d else 87 + d }

  function Escape(c: Unit): Text {
    if c == 34 then [92, 34]
    else if c == 92 then [92, 92]
    else if c == 10 then [92, 110]
    else if c == 13 then [92, 114]
    else if c == 9 then [92, 116]
    else if c < 32 then [92, 117, 48, 48, HexDigit(c / 16), HexDigit(c % 16)]
    else [c]
  }

  function Escaped(s: Text): Text {
    if s == [] then [] else Escape(s[0]) + Escaped(s[1..])
  }

  function Quoted(s: Text): Text { [34] + Escaped(s) + [34] }

  function Digits(n: nat): (t: Text)
    ensures |t| > 0
  {
    if n < 10 then [48 + n] else Digits(n / 10) + [48 + n % 10]
  }

  function Numeral(n: int): Text { if n < 0 then [45] + Digits(-n) else Digits(n) }

  function Encode(v: Value): Text {
    match v
    case Null => [110, 117, 108, 108]
    case Bool(b) => if b then [116, 114, 117, 101] else [102, 97, 108, 115, 101]
    case Num(n) => Numeral(n)
    case Decimal(t) => t
    case Str(s) => Quoted(s)
    case Arr(items) => [91] + EncodeItems(items) + [93]
    case Obj(fields) => [123] + EncodeFields(fields) + [125]
  }

  function EncodeItems(items: seq<Value>): Text {
    if items == [] then []
    else Encode(items[0]) + if |items| == 1 then [] else [44] + EncodeItems(items[1..])
  }

  function FieldText(f: Field): Text { Quoted(f.key) + [58] + Encode(f.value) }

  function EncodeFields(fields: seq<Field>): Text {
    if fields == [] then []
    else FieldText(fields[0]) + if |fields| == 1 then [] else [44] + EncodeFields(fields[1..])
  }

  // ---- parsing -------------------------------------------------------------------------------------------------

  /** What was read and the text that is left; `Fail` where the source throws. */
  datatype Parsed<T> = Fail | Got(value: T, rest: Text)

  predicate IsWhitespace(c: Unit) {
    9 <= c <= 13 || 28 <= c <= 32 || c == 0x1680 || 0x2000 <= c <= 0x2006 || 0x2008 <= c <= 0x200A
    || c == 0x2028 || c == 0x2029 || c == 0x205F || c == 0x3000
  }

  function SkipWs(t: Text): (r: Text)
    ensures |r| <= |t|
  {
    if t != [] && IsWhitespace(t[0]) then SkipWs(t[1..]) else t
  }

  function Drop(t: Text, n: nat): Text { if n <= |t| then t[n..] else [] }

  function DigitOf(c: Unit): C.Option<nat> {
    if 48 <= c <= 57 then C.Some(c - 48) else if 97 <= c <= 102 then C.Some(c - 87) else if 65 <= c <= 70 then C.Some(c - 55) else C.None
  }

  /** Digits in the given base, at least one. */
  function ParseDigits(t: Text, base: nat): C.Option<nat> {
    if t == [] then C.None
    else
      var d := DigitOf(t[|t| - 1]);
      if d.None? || d.value >= base then C.None
      else if |t| == 1 then d
      else
        var high := ParseDigits(t[..|t| - 1], base);
        if high.None? then C.None else C.Some(high.value * base + d.value)
  }

  /** An optional sign and digits. */
  function ParseInteger(t: Text, base: nat): C.Option<int> {
    if t == [] then C.None
    else if t[0] == 45 || t[0] == 43 then
      var n := ParseDigits(t[1..], base);
      if n.None? then C.None else C.Some(if t[0] == 45 then -(n.value as int) else n.value)
    else
      var n := ParseDigits(t, base);
      if n.None? then C.None else C.Some(n.value)
  }

  function Unescape(e: Unit): Unit {
    if e == 110 then 10 else if e == 114 then 13 else if e == 116 then 9 else if e == 98 then 8 else if e == 102 then 12 else e
  }

  /** The characters of a string up to its closing quote. */
  function Chars(t: Text, acc: Text): (r: Parsed<Text>)
    ensures r.Got? ==> |r.rest| < |t|
    decreases |t|
  {
    if t == [] then Fail
    else if t[0] == 34 then Got(acc, t[1..])
    else if t[0] != 92 then Chars(t[1..], acc + [t[0]])
    else if |t| < 2 then Fail
    else if t[1] != 117 then Chars(t[2..], acc + [Unescape(t[1])])
    else if |t| < 6 then Fail
    else
      var n := ParseInteger(t[2..6], 16);
      if n.None? then Fail else Chars(t[6..], acc + [n.value % 65536])
  }

  predicate InNumber(c: Unit) { c == 45 || c == 43 || 48 <= c <= 57 || c == 46 || c == 101 || c == 69 }

  /** The longest run of number characters, and what follows it. */
  function NumberSpan(t: Text, acc: Text): (r: (Text, Text))
    ensures |r.0| + |r.1| == |acc| + |t|
    decreases |t|
  {
    if t != [] && InNumber(t[0]) then NumberSpan(t[1..], acc + [t[0]]) else (acc, t)
  }

  /** Some character is a point or begins an exponent. */
  predicate IsDecimal(t: Text) {
    t != [] && (t[|t| - 1] == 46 || t[|t| - 1] == 101 || t[|t| - 1] == 69 || IsDecimal(t[..|t| - 1]))
  }

  function NumberOf(t: Text): (r: Parsed<Value>)
    ensures r.Got? ==> |r.rest| < |t|
  {
    var span := NumberSpan(t, []);
    var num := span.0;
    if IsDecimal(num) then Got(Decimal(num), span.1)
    else
      var k := ParseInteger(num, 10);
      if k.None? || !InLong(k.value) then Fail else Got(Num(k.value), span.1)
  }

  function ValueOf(t0: Text): (r: Parsed<Value>)
    ensures r.Got? ==> |r.rest| < |t0|
    decreases |t0|, 0
  {
    var t := SkipWs(t0);
    if t == [] then Fail
    else if t[0] == 123 then
      var u := SkipWs(t[1..]);
      if u == [] then Fail else if u[0] == 125 then Got(Obj([]), u[1..]) else FieldsOf(u, [])
    else if t[0] == 91 then
      var u := SkipWs(t[1..]);
      if u == [] then Fail else if u[0] == 93 then Got(Arr([]), u[1..]) else ItemsOf(u, [])
    else if t[0] == 34 then
      var r := Chars(t[1..], []);
      if r.Fail? then Fail else Got(Str(r.value), r.rest)
    else if t[0] == 116 then Got(Bool(true), Drop(t, 4))
    else if t[0] == 102 then Got(Bool(false), Drop(t, 5))
    else if t[0] == 110 then Got(Null, Drop(t, 4))
    else NumberOf(t)
  }

  function ItemsOf(t: Text, acc: seq<Value>): (r: Parsed<Value>)
    ensures r.Got? ==> |r.rest| < |t|
    decreases |t|, 1
  {
    var v := ValueOf(t);
    if v.Fail? then Fail
    else
      var u := SkipWs(v.rest);
      if u == [] then Fail
      else if u[0] == 93 then Got(Arr(acc + [v.value]), u[1..])
      else ItemsOf(u[1..], acc + [v.value])
  }

  /** A map keeps the place of a key that is put again. */
  function PutField(fields: seq<Field>, key: Text, value: Value): seq<Field> {
    if fields == [] then [Field(key, value)]
    else if fields[0].key == key then [Field(key, value)] + fields[1..]
    else [fields[0]] + PutField(fields[1..], key, value)
  }

  function FieldsOf(t0: Text, acc: seq<Field>): (r: Parsed<Value>)
    ensures r.Got? ==> |r.rest| < |t0|
    decreases |t0|, 1
  {
    var key := Chars(Drop(SkipWs(t0), 1), []);
    if key.Fail? then Fail
    else
      var v := ValueOf(Drop(SkipWs(key.rest), 1));
      if v.Fail? then Fail
      else
        var u := SkipWs(v.rest);
        if u == [] then Fail
        else if u[0] == 125 then Got(Obj(PutField(acc, key.value, v.value)), u[1..])
        else FieldsOf(u[1..], PutField(acc, key.value, v.value))
  }

  /** The text that follows does not run on a numeral. */
  predicate Stops(rest: Text) { rest == [] || !InNumber(rest[0]) }
}
