/** The JSON printer and parser as they run: the printer appends to a buffer, the parser moves a cursor over the text
    and gives up where the source throws. */
module JsonIo {
  import opened Json
  import G = JsonText
  import Seqs
  import C = Commands

  lemma {:induction false} EscapedSnoc(s: Text, k: nat)
    requires k < |s|
    ensures Escaped(s[..k + 1]) == Escaped(s[..k]) + Escape(s[k])
  {
    EscapedConcat(s[..k], [s[k]]);
    assert s[..k + 1] == s[..k] + [s[k]];
    assert Escaped([s[k]]) == Escape(s[k]) + Escaped([]);
  }

  lemma {:induction false} EscapedConcat(a: Text, b: Text)
    ensures Escaped(a + b) == Escaped(a) + Escaped(b)
  {
    if a == [] {
      assert a + b == b;
    } else {
      assert (a + b)[1..] == a[1..] + b;
      EscapedConcat(a[1..], b);
    }
  }

  lemma {:induction false} Rejoin(a: Text, b: Text, sep: Text, x: Text)
    ensures a + ([44] + (b + sep + x)) == (a + ([44] + b)) + sep + x
    ensures a + ([44] + x) == a + [44] + x
  {
  }

  lemma {:induction false} ItemsSnoc(items: seq<Value>, x: Value)
    ensures EncodeItems(items + [x]) == EncodeItems(items) + (if items == [] then [] else [44]) + Encode(x)
  {
    if items == [] {
      assert items + [x] == [x];
    } else {
      var first, rest := Encode(items[0]), items[1..];
      Seqs.Tail(items, [x]);
      assert EncodeItems(items + [x]) == first + ([44] + EncodeItems(rest + [x]));
      ItemsSnoc(rest, x);
      Rejoin(first, EncodeItems(rest), if rest == [] then [] else [44], Encode(x));
    }
  }

  lemma {:induction false} FieldsSnoc(fields: seq<Field>, f: Field)
    ensures EncodeFields(fields + [f]) == EncodeFields(fields) + (if fields == [] then [] else [44]) + FieldText(f)
  {
    if fields == [] {
      assert fields + [f] == [f];
    } else {
      var first, rest := FieldText(fields[0]), fields[1..];
      Seqs.Tail(fields, [f]);
      assert EncodeFields(fields + [f]) == first + ([44] + EncodeFields(rest + [f]));
      FieldsSnoc(rest, f);
      Rejoin(first, EncodeFields(rest), if rest == [] then [] else [44], FieldText(f));
    }
  }

  lemma {:induction false} Appended(start: Text, done: Text, sep: Text, x: Text)
    ensures start + done + sep + x == start + (done + sep + x)
    ensures sep == [] ==> start + done + x == start + (done + sep + x)
  {
  }

  lemma {:induction false} Closed(before: Text, open: Unit, mid: Text, close: Unit)
    ensures before + [open] + mid + [close] == before + ([open] + mid + [close])
  {
  }

  lemma {:induction false} Printed(before: Text, v: Value)
    ensures (before + Encode(v))[|before|..] == Encode(v) && (Sendable(v) ==> G.IsText(v, Encode(v), false))
  {
    if Sendable(v) { G.EncodeIsText(v, false); }
  }

  class Printer {
    var sb: Text

    constructor ()
      ensures sb == []
    {
      sb := [];
    }

    method WriteString(s: Text)
      modifies this
      ensures sb == old(sb) + Quoted(s)
    {
      sb := sb + [34];
      var i := 0;
      while i < |s|
        invariant 0 <= i <= |s| && sb == old(sb) + [34] + Escaped(s[..i])
      {
        EscapedSnoc(s, i);
        Seqs.Assoc(old(sb) + [34], Escaped(s[..i]), Escape(s[i]));
        sb := sb + Escape(s[i]);
        i := i + 1;
      }
      Seqs.TakeAll(s);
      Closed(old(sb), 34, Escaped(s), 34);
      sb := sb + [34];
    }

    /** What is appended is one of the value's texts. */
    method Write(v: Value)
      modifies this
      ensures sb == old(sb) + Encode(v) && (Sendable(v) ==> G.IsText(v, sb[|old(sb)|..], false))
      decreases v
    {
      ghost var before := sb;
      match v {
        case Null => sb := sb + [110, 117, 108, 108];
        case Bool(b) => sb := sb + if b then [116, 114, 117, 101] else [102, 97, 108, 115, 101];
        case Num(n) => sb := sb + Numeral(n);
        case Decimal(t) => sb := sb + t;
        case Str(s) => WriteString(s);
        case Arr(items) => WriteItems(items);
        case Obj(fields) => WriteFields(fields);
      }
      Printed(before, v);
    }

    method WriteItems(items: seq<Value>)
      modifies this
      ensures sb == old(sb) + ([91] + EncodeItems(items) + [93])
      decreases items
    {
      sb := sb + [91];
      ghost var start := sb;
      var i := 0;
      while i < |items|
        invariant 0 <= i <= |items| && sb == start + EncodeItems(items[..i])
      {
        Appended(start, EncodeItems(items[..i]), if i > 0 then [44] else [], Encode(items[i]));
        if i > 0 {
          sb := sb + [44];
        }
        Write(items[i]);
        assert EncodeItems(items[..i + 1]) == EncodeItems(items[..i]) + (if i > 0 then [44] else []) + Encode(items[i]) by {
          ItemsSnoc(items[..i], items[i]);
          Seqs.TakeSnoc(items, i);
        }
        i := i + 1;
      }
      Seqs.TakeAll(items);
      Closed(old(sb), 91, EncodeItems(items), 93);
      sb := sb + [93];
    }

    method WriteFields(fields: seq<Field>)
      modifies this
      ensures sb == old(sb) + ([123] + EncodeFields(fields) + [125])
      decreases fields
    {
      sb := sb + [123];
      ghost var start := sb;
      var i := 0;
      while i < |fields|
        invariant 0 <= i <= |fields| && sb == start + EncodeFields(fields[..i])
      {
        Appended(start, EncodeFields(fields[..i]), if i > 0 then [44] else [], FieldText(fields[i]));
        if i > 0 {
          sb := sb + [44];
        }
        WriteField(fields[i]);
        assert EncodeFields(fields[..i + 1]) == EncodeFields(fields[..i]) + (if i > 0 then [44] else []) + FieldText(fields[i]) by {
          FieldsSnoc(fields[..i], fields[i]);
          Seqs.TakeSnoc(fields, i);
        }
        i := i + 1;
      }
      Seqs.TakeAll(fields);
      Closed(old(sb), 123, EncodeFields(fields), 125);
      sb := sb + [125];
    }

    method WriteField(f: Field)
      modifies this
      ensures sb == old(sb) + FieldText(f)
      decreases f
    {
      WriteString(f.key);
      sb := sb + [58];
      Write(f.value);
    }
  }

  lemma {:induction false} DropDrop(t: Text, i: nat, n: nat)
    ensures Drop(Drop(t, i), n) == Drop(t, i + n)
    ensures i < |t| ==> Drop(t, i) != [] && Drop(t, i)[0] == t[i] && Drop(t, i)[1..] == Drop(t, i + 1)
    ensures i >= |t| ==> Drop(t, i) == []
  {
  }

  lemma {:induction false} PutBack(t: Text, i: nat)
    requires i < |t|
    ensures [t[i]] + Drop(t, i + 1) == Drop(t, i)
  {
  }

  lemma {:induction false} PlainChar(s: Text, i: nat, acc: Text)
    requires i < |s|
    ensures s[i] == 34 ==> Chars(Drop(s, i), acc) == Got(acc, Drop(s, i + 1))
    ensures s[i] != 34 && s[i] != 92 ==> Chars(Drop(s, i), acc) == Chars(Drop(s, i + 1), acc + [s[i]])
  {
    DropDrop(s, i, 1);
  }

  datatype Step = Stop | Step(field: Field, done: bool, rest: Text)

  /** A key, a value, and the character behind them, which ends the object if it is a brace. */
  function FieldOf(t0: Text): Step {
    var key := Chars(Drop(SkipWs(t0), 1), []);
    if key.Fail? then Stop
    else
      var v := ValueOf(Drop(SkipWs(key.rest), 1));
      if v.Fail? then Stop
      else
        var u := SkipWs(v.rest);
        if u == [] then Stop else Step(Field(key.value, v.value), u[0] == 125, u[1..])
  }

  lemma {:induction false} FieldsStep(t0: Text, acc: seq<Field>)
    ensures FieldsOf(t0, acc) == match FieldOf(t0) case Stop => Fail case Step(f, done, rest) =>
              if done then Got(Obj(PutField(acc, f.key, f.value)), rest) else FieldsOf(rest, PutField(acc, f.key, f.value))
  {
  }

  /** A cursor over a text. `None` is where the source throws. */
  class Parser {
    const s: Text
    var i: nat

    constructor (s: Text)
      ensures this.s == s && i == 0
    {
      this.s, i := s, 0;
    }

    /** The text from the cursor on. */
    function Rest(): Text
      reads this
    {
      Drop(s, i)
    }

    method SkipBlanks()
      modifies this
      ensures Rest() == SkipWs(old(Rest()))
    {
      while i < |s| && IsWhitespace(s[i])
        invariant SkipWs(Rest()) == SkipWs(old(Rest()))
        decreases |s| - i
      {
        DropDrop(s, i, 1);
        i := i + 1;
      }
      DropDrop(s, i, 1);
    }

    method Advance(n: nat)
      modifies this
      ensures Rest() == Drop(old(Rest()), n) && i == old(i) + n
    {
      DropDrop(s, i, n);
      i := i + n;
    }

    /** A string from its opening quote on. */
    method String() returns (r: C.Option<Text>)
      modifies this
      ensures var want := Chars(Drop(old(Rest()), 1), []);
              if want.Fail? then r.None? else r == C.Some(want.value) && Rest() == want.rest
    {
      Advance(1);
      ghost var want := Chars(Rest(), []);
      var out: Text := [];
      while i < |s|
        invariant Chars(Rest(), out) == want
        decreases |s| - i
      {
        var c, closed := ReadChar(out);
        if closed {
          return C.Some(out);
        }
        if c.None? {
          return C.None;
        }
        out := out + [c.value];
      }
      DropDrop(s, i, 1);
      return C.None;
    }

    /** The next character of a string, or its closing quote. */
    method ReadChar(ghost acc: Text) returns (r: C.Option<Unit>, closed: bool)
      requires i < |s|
      modifies this
      ensures i > old(i)
      ensures Chars(old(Rest()), acc) == if closed then Got(acc, Rest()) else if r.None? then Fail else Chars(Rest(), acc + [r.value])
    {
      PlainChar(s, i, acc);
      var c := s[i];
      i := i + 1;
      closed := c == 34;
      r := C.Some(c);
      if c == 92 {
        PutBack(s, i - 1);
        r := ReadEscape(acc);
      }
    }

    /** The character an escape stands for, after its backslash. */
    method ReadEscape(ghost acc: Text) returns (r: C.Option<Unit>)
      modifies this
      ensures i >= old(i)
      ensures Chars([92] + old(Rest()), acc) == if r.None? then Fail else Chars(Rest(), acc + [r.value])
    {
      ghost var t := Rest();
      assert ([92] + t)[0] == 92 && ([92] + t)[1..] == t;
      DropDrop(s, i, 1);
      if i >= |s| {
        return C.None;
      }
      var e := s[i];
      assert ([92] + t)[2..] == t[1..] && ([92] + t)[1] == e;
      i := i + 1;
      if e != 117 {
        return C.Some(Unescape(e));
      }
      if i + 4 > |s| {
        return C.None;
      }
      assert ([92] + t)[2..6] == s[i..i + 4];
      assert ([92] + t)[6..] == Drop(s, i + 4);
      var n := ParseInteger(s[i..i + 4], 16);
      if n.None? {
        return C.None;
      }
      i := i + 4;
      r := C.Some(n.value % 65536);
    }

    method Number() returns (r: C.Option<Value>)
      modifies this
      ensures var want := NumberOf(old(Rest())); if want.Fail? then r.None? else r == C.Some(want.value) && Rest() == want.rest
    {
      var num, isDouble := ScanNumber();
      if isDouble {
        return C.Some(Decimal(num));
      }
      var k := ParseInteger(num, 10);
      r := if k.None? || !InLong(k.value) then C.None else C.Some(Num(k.value));
    }

    method ScanNumber() returns (num: Text, isDouble: bool)
      modifies this
      ensures (num, Rest()) == NumberSpan(old(Rest()), []) && isDouble == IsDecimal(num)
    {
      num, isDouble := [], false;
      while i < |s| && InNumber(s[i])
        invariant NumberSpan(Rest(), num) == NumberSpan(old(Rest()), []) && isDouble == IsDecimal(num)
        decreases |s| - i
      {
        DropDrop(s, i, 1);
        DecimalSnoc(num, s[i]);
        if s[i] == 46 || s[i] == 101 || s[i] == 69 {
          isDouble := true;
        }
        num := num + [s[i]];
        i := i + 1;
      }
      DropDrop(s, i, 1);
    }

    method ParseValue() returns (r: C.Option<Value>)
      modifies this
      ensures var want := ValueOf(old(Rest())); if want.Fail? then r.None? else r == C.Some(want.value) && Rest() == want.rest
      decreases |Rest()|, 2
    {
      SkipBlanks();
      DropDrop(s, i, 1);
      if i >= |s| {
        return C.None;
      }
      var c := s[i];
      if c == 123 {
        r := ParseObject();
      } else if c == 91 {
        r := ParseArray();
      } else if c == 34 {
        var str := String();
        r := if str.None? then C.None else C.Some(Str(str.value));
      } else if c == 116 {
        Advance(4);
        r := C.Some(Bool(true));
      } else if c == 102 {
        Advance(5);
        r := C.Some(Bool(false));
      } else if c == 110 {
        Advance(4);
        r := C.Some(Null);
      } else {
        r := Number();
      }
    }

    method ParseArray() returns (r: C.Option<Value>)
      requires Rest() != [] && Rest()[0] == 91
      modifies this
      ensures var u := SkipWs(old(Rest())[1..]);
              var want := if u == [] then Fail else if u[0] == 93 then Got(Arr([]), u[1..]) else ItemsOf(u, []);
              if want.Fail? then r.None? else r == C.Some(want.value) && Rest() == want.rest
      decreases |Rest()|, 1
    {
      Advance(1);
      SkipBlanks();
      DropDrop(s, i, 1);
      if i >= |s| {
        return C.None;
      }
      if s[i] == 93 {
        i := i + 1;
        return C.Some(Arr([]));
      }
      ghost var want := ItemsOf(Rest(), []);
      var list: seq<Value> := [];
      while true
        invariant ItemsOf(Rest(), list) == want && |Rest()| < |old(Rest())|
        decreases |Rest()|
      {
        var v := ParseValue();
        if v.None? {
          return C.None;
        }
        list := list + [v.value];
        SkipBlanks();
        DropDrop(s, i, 1);
        if i >= |s| {
          return C.None;
        }
        var c := s[i];
        i := i + 1;
        if c == 93 {
          return C.Some(Arr(list));
        }
      }
    }

    method ParseObject() returns (r: C.Option<Value>)
      requires Rest() != [] && Rest()[0] == 123
      modifies this
      ensures var u := SkipWs(old(Rest())[1..]);
              var want := if u == [] then Fail else if u[0] == 125 then Got(Obj([]), u[1..]) else FieldsOf(u, []);
              if want.Fail? then r.None? else r == C.Some(want.value) && Rest() == want.rest
      decreases |Rest()|, 1
    {
      Advance(1);
      SkipBlanks();
      DropDrop(s, i, 1);
      if i >= |s| {
        return C.None;
      }
      if s[i] == 125 {
        i := i + 1;
        return C.Some(Obj([]));
      }
      ghost var want := FieldsOf(Rest(), []);
      var m: seq<Field> := [];
      while true
        invariant FieldsOf(Rest(), m) == want && |Rest()| < |old(Rest())|
        decreases |Rest()|
      {
        FieldsStep(Rest(), m);
        var f, done := ParseField();
        if f.None? {
          return C.None;
        }
        m := PutField(m, f.value.key, f.value.value);
        if done {
          return C.Some(Obj(m));
        }
      }
    }

    /** A key, a value, and the character behind them, which ends the object if it is a brace. */
    method ParseField() returns (f: C.Option<Field>, done: bool)
      modifies this
      ensures f.Some? ==> |Rest()| < |old(Rest())|
      ensures FieldOf(old(Rest())) == if f.None? then Stop else Step(f.value, done, Rest())
      decreases |Rest()|, 3
    {
      done := false;
      SkipBlanks();
      var key := String();
      if key.None? {
        return C.None, false;
      }
      SkipBlanks();
      Advance(1);
      var v := ParseValue();
      if v.None? {
        return C.None, false;
      }
      SkipBlanks();
      DropDrop(s, i, 1);
      if i >= |s| {
        return C.None, false;
      }
      done := s[i] == 125;
      i := i + 1;
      f := C.Some(Field(key.value, v.value));
    }
  }

  lemma {:induction false} DecimalSnoc(t: Text, c: Unit)
    ensures IsDecimal(t + [c]) <==> IsDecimal(t) || c == 46 || c == 101 || c == 69
  {
    assert (t + [c])[..|t|] == t;
  }

  /** The message written for a value is one of its texts. */
  method ToText(v: Value) returns (t: Text)
    ensures Sendable(v) ==> G.IsText(v, t, false) && ValueOf(t) == Got(v, [])
  {
    var out := new Printer();
    out.Write(v);
    if Sendable(v) { G.WireRoundTrip(v); }
    t := out.sb;
  }

  lemma {:induction false} ReadAsMeant(t: Text)
    ensures forall v :: G.IsPadded(v, t, true) && Sendable(v) ==> ValueOf(t).Got? && ValueOf(t).value == v
  {
    forall v | G.IsPadded(v, t, true) && Sendable(v) ensures ValueOf(t).Got? && ValueOf(t).value == v {
      G.MessageRead(v, t);
    }
  }

  /** Whichever sendable value the message is a text of, white space around it or not, that value is read. */
  method FromText(t: Text) returns (r: C.Option<Value>)
    ensures forall v :: G.IsPadded(v, t, true) && Sendable(v) ==> r == C.Some(v)
  {
    var parser := new Parser(t);
    ReadAsMeant(t);
    assert parser.Rest() == t;
    r := parser.ParseValue();
    if r.Some? {
      parser.SkipBlanks();
    }
  }
}
