/** The SQL layer over one sorted store: definitions, rows and index entries are keys in it. One session, every statement
    a transaction of its own, so that a statement reads what the ones before it wrote. A condition selects the same rows
    with an index as without. */
module RelationalEngine {
  import opened Commands
  import opened KeyOrder
  import opened VersionKeys
  import opened RowKeys
  import opened TypeCodec
  import opened Relations
  import SSTable
  import M = MemTable
  import Seqs

  // ---- building a row -------------------------------------------------------------------------------------------------

  /** The values put under their column names, one after the other; none if a column is unknown. */
  function Filled(columns: seq<Column>, names: seq<Bytes>, values: seq<Bytes>): (r: Option<Row>)
    requires |names| == |values|
    ensures r.Some? ==> |r.value| == |columns|
  {
    if names == [] then Some(seq(|columns|, i => []))
    else
      var n := |names| - 1;
      var rest, at := Filled(columns, names[..n], values[..n]), ColumnIndex(columns, names[n]);
      if rest.None? || at < 0 then None else Some(rest.value[at := values[n]])
  }

  function Built(columns: seq<Column>, names: seq<Bytes>, values: seq<Bytes>): (r: Option<Row>)
    ensures r.Some? ==> |r.value| == |columns|
  {
    if names == [] then (if |values| == |columns| then Some(values) else None)
    else if |names| != |values| then None
    else Filled(columns, names, values)
  }

  lemma {:induction false} FilledPlain(columns: seq<Column>, names: seq<Bytes>, values: seq<Bytes>)
    requires |names| == |values| && AllPlain(values)
    ensures Filled(columns, names, values).Some? ==> AllPlain(Filled(columns, names, values).value)
  {
    if names != [] { FilledPlain(columns, names[..|names| - 1], values[..|names| - 1]); }
  }

  lemma {:induction false} FilledUnknown(columns: seq<Column>, names: seq<Bytes>, values: seq<Bytes>, i: nat)
    requires |names| == |values| && i <= |names| && Filled(columns, names[..i], values[..i]).None?
    ensures Filled(columns, names, values).None?
  {
    if i < |names| {
      var n := |names| - 1;
      Seqs.TakeTake(names, n, i);
      Seqs.TakeTake(values, n, i);
      FilledUnknown(columns, names[..n], values[..n], i);
    } else {
      Seqs.TakeAll(names);
      Seqs.TakeAll(values);
    }
  }

  /** A column holds the value of the last name that stands for it, and is empty if none does. */
  lemma {:induction false} FilledColumn(columns: seq<Column>, names: seq<Bytes>, values: seq<Bytes>, i: nat, j: int)
    requires |names| == |values| && Filled(columns, names, values).Some? && i < |columns| && -1 <= j < |names|
    requires (j >= 0 ==> IsColumn(columns, names[j], i)) && forall k :: j < k < |names| ==> !IsColumn(columns, names[k], i)
    ensures Filled(columns, names, values).value[i] == if j < 0 then [] else values[j]
  {
    if names != [] {
      var n := |names| - 1;
      ColumnIndexIs(columns, names[n]);
      assert IsColumn(columns, names[n], i) <==> j == n;
      if j < n { FilledColumn(columns, names[..n], values[..n], i, j); }
    }
  }

  /** There is a row just when all names are known. */
  lemma {:induction false} FilledKnown(columns: seq<Column>, names: seq<Bytes>, values: seq<Bytes>)
    requires |names| == |values|
    ensures Filled(columns, names, values).Some? <==> forall k :: 0 <= k < |names| ==> HasColumn(columns, names[k])
  {
    if names != [] {
      var n := |names| - 1;
      FilledKnown(columns, names[..n], values[..n]);
      ColumnIndexIs(columns, names[n]);
      assert IsColumn(columns, names[n], ColumnIndex(columns, names[n])) <==> ColumnIndex(columns, names[n]) >= 0;
      assert HasColumn(columns, names[n]) <==> ColumnIndex(columns, names[n]) >= 0;
      assert forall k :: 0 <= k < n ==> names[..n][k] == names[k];
    }
  }

  /** The `j`-th name is the last one that stands for column `i`; -1 if there is none. */
  ghost predicate LastNamed(columns: seq<Column>, names: seq<Bytes>, i: nat, j: int) {
    -1 <= j < |names| && (j >= 0 ==> IsColumn(columns, names[j], i)) && forall k :: j < k < |names| ==> !IsColumn(columns, names[k], i)
  }

  /** With names, each column has the value of the last one for it; without, the values are the columns. */
  ghost predicate IsBuilt(columns: seq<Column>, names: seq<Bytes>, values: seq<Bytes>, row: Row) {
    if names == [] then row == values && |values| == |columns|
    else
      && |row| == |columns| && |names| == |values| && (forall k :: 0 <= k < |names| ==> HasColumn(columns, names[k]))
      && forall i, j {:trigger LastNamed(columns, names, i, j)} :: 0 <= i < |row| && LastNamed(columns, names, i, j) ==>
           row[i] == if j < 0 then [] else values[j]
  }

  lemma {:induction false} BuiltIs(columns: seq<Column>, names: seq<Bytes>, values: seq<Bytes>)
    ensures Built(columns, names, values).Some? ==> IsBuilt(columns, names, values, Built(columns, names, values).value)
    ensures Built(columns, names, values).None? ==> !exists row :: IsBuilt(columns, names, values, row)
  {
    if names != [] && |names| == |values| {
      FilledKnown(columns, names, values);
      forall i, j | Built(columns, names, values).Some? && 0 <= i < |columns| && LastNamed(columns, names, i, j)
        ensures Built(columns, names, values).value[i] == if j < 0 then [] else values[j]
      {
        FilledColumn(columns, names, values, i, j);
      }
    }
  }

  method BuildRow(columns: seq<Column>, names: seq<Bytes>, values: seq<Bytes>) returns (r: Option<Row>)
    ensures r == Built(columns, names, values)
    ensures if r.Some? then IsBuilt(columns, names, values, r.value) else !exists row :: IsBuilt(columns, names, values, row)
  {
    BuiltIs(columns, names, values);
    if names == [] {
      return if |values| == |columns| then Some(values) else None;
    }
    if |names| != |values| {
      return None;
    }
    var row: Row := seq(|columns|, i => []);
    var i := 0;
    while i < |names|
      invariant 0 <= i <= |names| && Filled(columns, names[..i], values[..i]) == Some(row)
    {
      var at := ColumnIndex(columns, names[i]);
      Seqs.TakeTake(names, i + 1, i);
      Seqs.TakeTake(values, i + 1, i);
      if at < 0 {
        FilledUnknown(columns, names, values, i + 1);
        return None;
      }
      row := row[at := values[i]];
      i := i + 1;
    }
    Seqs.TakeAll(names);
    Seqs.TakeAll(values);
    r := Some(row);
  }

  // ---- reading index keys ---------------------------------------------------------------------------------------------

  /** The first NUL from `from` on, or -1. */
  method FindNul(k: Bytes, from: nat) returns (i: int)
    requires from <= |k|
    ensures i == -1 || (from <= i < |k| && k[i] == 0)
    ensures forall j :: from <= j < (if i < 0 then |k| else i) ==> k[j] != 0
  {
    i := from;
    while i < |k|
      invariant from <= i <= |k| && forall j :: from <= j < i ==> k[j] != 0
    {
      if k[i] == 0 {
        return;
      }
      i := i + 1;
    }
    i := -1;
  }

  lemma {:induction false} FoundIsEnd(p: Bytes, x: Bytes, pk: Bytes, i: int)
    requires NoNul(x)
    requires var k := p + (x + [0] + pk); (i == -1 || (|p| <= i < |k| && k[i] == 0)) && forall j :: |p| <= j < (if i < 0 then |k| else i) ==> k[j] != 0
    ensures i == |p| + |x| && (p + (x + [0] + pk))[|p|..i] == x
  {
    var k := p + (x + [0] + pk);
    assert k[|p| + |x|] == 0;
    assert forall j :: |p| <= j < |p| + |x| ==> k[j] == x[j - |p|];
  }

  /** An entry that a scan of the index finds. */
  ghost predicate EntryItem(c: Codec, schema: Schema, table: Table, column: Bytes, item: SSTable.Pair, row: Row) {
    IsRowOf(row, table) && item.value == row[0] && item.key == KeyOf(EntryAt(schema.name, column, Encoded(c, schema, column, row), row[0]))
  }

  ghost predicate EntryItems(c: Codec, schema: Schema, table: Table, column: Bytes, items: seq<SSTable.Pair>, got: seq<Row>) {
    |got| == |items| && forall j :: 0 <= j < |items| ==> EntryItem(c, schema, table, column, items[j], got[j])
  }

  /** A row comes up once: two of its entries would be one. */
  lemma {:induction false} NextEntry(c: Codec, schema: Schema, table: Table, column: Bytes, items: seq<SSTable.Pair>, got: seq<Row>, i: nat, r: Row)
    requires SSTable.SortedPairs(items) && i < |items| && EntryItems(c, schema, table, column, items[..i], got) && EntryItem(c, schema, table, column, items[i], r)
    ensures r !in got && EntryItems(c, schema, table, column, items[..i + 1], got + [r])
  {
    forall j | 0 <= j < i ensures got[j] != r {
      assert EntryItem(c, schema, table, column, items[..i][j], got[j]);
      assert Lt(SSTable.Keys(items)[j], SSTable.Keys(items)[i]);
      Irreflexive(items[i].key);
    }
    forall j | 0 <= j < i + 1 ensures EntryItem(c, schema, table, column, items[..i + 1][j], (got + [r])[j]) {
      assert j < i ==> EntryItem(c, schema, table, column, items[..i][j], got[j]);
    }
  }

  /** `rs` are those of `got` that match. */
  ghost predicate Filtered(c: Codec, schema: Schema, column: Bytes, op: Op, v: Bytes, got: seq<Row>, rs: seq<Row>) {
    && (forall r :: r in rs <==> r in got && Matches(Encoded(c, schema, column, r), op, v))
    && (forall x, y :: 0 <= x < y < |rs| ==> rs[x] != rs[y])
  }

  lemma {:induction false} FilteredNext(c: Codec, schema: Schema, column: Bytes, op: Op, v: Bytes, got: seq<Row>, rs: seq<Row>, r: Row)
    requires Filtered(c, schema, column, op, v, got, rs) && r !in got
    ensures Filtered(c, schema, column, op, v, got + [r], if Matches(Encoded(c, schema, column, r), op, v) then rs + [r] else rs)
  {
  }

  // ---- the engine -----------------------------------------------------------------------------------------------------

  class RelationalEngine {
    const c: Codec
    var data: map<Bytes, Bytes>
    var tables: map<Bytes, Schema>
    var indexes: map<Bytes, IndexDef>
    ghost var rows: map<Bytes, Table>
    ghost var l: Logical

    ghost function State(): Db
      reads this
    {
      Db(tables, indexes, rows)
    }

    /** The store holds one entry for each row in each index on its table, and no other entries. */
    ghost predicate Valid()
      reads this
    {
      Sound(c) && DbOk(State()) && Holds(l, data) && Says(c, State(), l)
    }

    constructor (c: Codec)
      requires Sound(c)
      ensures Valid() && this.c == c && State() == Db(map[], map[], map[])
    {
      this.c := c;
      data, tables, indexes, rows, l := map[], map[], map[], map[], map[];
    }

    method PutAt(key: Bytes, value: Bytes, ghost a: Addr)
      requires Holds(l, data) && Good(a) && key == KeyOf(a)
      modifies `data, `l
      ensures Holds(l, data) && l == old(l)[a := value]
    {
      HoldsPut(l, data, a, value);
      data := data[key := value];
      l := l[a := value];
    }

    method DeleteAt(key: Bytes, ghost a: Addr)
      requires Holds(l, data) && Good(a) && key == KeyOf(a)
      modifies `data, `l
      ensures Holds(l, data) && l == old(l) - {a}
    {
      HoldsDelete(l, data, a);
      data := data - {key};
      l := l - {a};
    }

    method Get(key: Bytes, ghost a: Addr) returns (r: Option<Bytes>)
      requires Holds(l, data) && Good(a) && key == KeyOf(a)
      ensures r == At(l, a)
    {
      HoldsAt(l, data, a);
      r := if key in data then Some(data[key]) else None;
    }

    /** All entries from `lo` up to the extensions of `hi`, in order. */
    method ScanRange(lo: Bytes, hi: Bytes) returns (items: seq<SSTable.Pair>)
      ensures SSTable.SortedPairs(items)
      ensures forall i :: 0 <= i < |items| ==> InScanRange(lo, items[i].key, hi) && items[i].key in data && data[items[i].key] == items[i].value
      ensures forall k :: k in data && InScanRange(lo, k, hi) ==> exists i :: 0 <= i < |items| && items[i].key == k
    {
      var found := map k | k in data && InScanRange(lo, k, hi) :: data[k];
      var ks := SortKeys(found.Keys);
      items := M.PairsFor(found, ks);
      M.KeysCover(found, ks);
      forall i | 0 <= i < |items| ensures items[i].key in found && found[items[i].key] == items[i].value {
        SSTable.MapOfAt(items, i);
      }
      forall k | k in data && InScanRange(lo, k, hi) ensures exists i :: 0 <= i < |items| && items[i].key == k {
        assert k in found;
        SSTable.MapOfKeys(items, k);
      }
    }

    /** The rows of a table, each once. */
    method ScanRows(t: Bytes) returns (rs: seq<Row>)
      requires Valid() && t in tables
      ensures Selects(rs, rows[t], rows[t].Keys)
    {
      assert TableOk(State(), t);
      var items := ScanRange(t + [47], t + [47] + HI_CHAR);
      Seqs.Nothing(t + [47]);
      rs := [];
      var i := 0;
      while i < |items|
        invariant 0 <= i <= |items| && |rs| == i
        invariant forall j :: 0 <= j < i ==> RowItem(t, items[j], rs[j])
      {
        RowItemIs(t, items[i]);
        rs := rs + [c.decode(items[i].value)];
        i := i + 1;
      }
      RowsListed(t, items, rs);
    }

    /** An entry that a scan of the table finds. */
    ghost predicate RowItem(t: Bytes, item: SSTable.Pair, row: Row)
      requires t in rows
      reads this
    {
      IsRowOf(row, rows[t]) && item.key == KeyOf(RowAt(t, row[0]))
    }

    lemma {:induction false} RowItemIs(t: Bytes, item: SSTable.Pair)
      requires Valid() && t in tables && t in rows && InScanRange(RowPrefix(t), item.key, RowPrefix(t) + HI_CHAR)
      requires item.key in data && data[item.key] == item.value
      ensures RowItem(t, item, c.decode(item.value))
    {
      assert TableOk(State(), t) && Known(l, item.key);
      var a :| a in l && KeyOf(a) == item.key;
      assert Held(l, data, a);
      RowRange(t, a);
      assert Want(c, State(), a) == At(l, a);
      assert RowOk(tables[t], a.pk, rows[t][a.pk]);
    }

    lemma {:induction false} RowsListed(t: Bytes, items: seq<SSTable.Pair>, rs: seq<Row>)
      requires Valid() && t in tables && t in rows && SSTable.SortedPairs(items) && |rs| == |items|
      requires forall j :: 0 <= j < |items| ==> RowItem(t, items[j], rs[j])
      requires forall k :: k in data && InScanRange(RowPrefix(t), k, RowPrefix(t) + HI_CHAR) ==> exists i :: 0 <= i < |items| && items[i].key == k
      ensures Selects(rs, rows[t], rows[t].Keys)
    {
      assert TableOk(State(), t);
      forall i, j | 0 <= i < j < |rs| ensures rs[i] != rs[j] {
        assert RowItem(t, items[i], rs[i]) && RowItem(t, items[j], rs[j]);
        assert Lt(SSTable.Keys(items)[i], SSTable.Keys(items)[j]);
        Irreflexive(items[i].key);
      }
      forall pk | pk in rows[t] ensures rows[t][pk] in rs && rows[t][pk] != [] && rows[t][pk][0] == pk {
        var a := RowAt(t, pk);
        assert RowOk(tables[t], pk, rows[t][pk]);
        assert Good(a) && Want(c, State(), a) == At(l, a);
        assert Held(l, data, a);
        RowRange(t, a);
        var i :| 0 <= i < |items| && items[i].key == KeyOf(a);
        assert RowItem(t, items[i], rs[i]);
        KeysDiffer(a, RowAt(t, rs[i][0]));
      }
    }

    // ---- queries ------------------------------------------------------------------------------------------------------

    /** Without an index: every row, tested. */
    method FullScan(t: Bytes, where: Option<Expr>) returns (rs: seq<Row>)
      requires Valid() && t in tables
      ensures Selects(rs, rows[t], Chosen(c, where, tables[t], rows[t]))
    {
      var all := ScanRows(t);
      rs := [];
      var i := 0;
      while i < |all|
        invariant 0 <= i <= |all|
        invariant forall r :: r in rs <==> r in all[..i] && Accepts(c, where, tables[t], r)
        invariant forall x, y :: 0 <= x < y < |rs| ==> rs[x] != rs[y]
      {
        assert all[..i + 1] == all[..i] + [all[i]];
        assert all[i] !in all[..i];
        if Accepts(c, where, tables[t], all[i]) {
          rs := rs + [all[i]];
        }
        i := i + 1;
      }
      assert all[..i] == all;
      forall x | 0 <= x < |rs| ensures IsRowOf(rs[x], rows[t]) && rs[x][0] in Chosen(c, where, tables[t], rows[t]) {
        assert rs[x] in all;
        var y :| 0 <= y < |all| && all[y] == rs[x];
      }
    }

    /** With an index: the entries from the lower to the upper bound that match, and the rows they point to. Those are the
        rows that the condition accepts and the scan reaches. */
    method IndexScan(idx: IndexDef, op: Op, literal: Bytes) returns (rs: seq<Row>)
      requires Valid() && idx.name in indexes && indexes[idx.name] == idx && op != Unequal && idx.table in tables
      ensures Selects(rs, rows[idx.table], ChosenReached(c, tables[idx.table], rows[idx.table], idx.column, op, literal))
    {
      var t, schema := idx.table, tables[idx.table];
      assert TableOk(State(), t) && IndexOk(State(), idx.name, idx);
      var typ := schema.columns[ColumnIndex(schema.columns, idx.column)].typ;
      var v := Encode(c.intOf, typ, literal);
      var prefix := EntryPrefix(t, idx.column);
      var items := ScanRange(prefix + LoBound(op, v), prefix + HiBound(op, v));
      rs := [];
      ghost var got: seq<Row> := [];
      var i := 0;
      while i < |items|
        invariant 0 <= i <= |items| && Filtered(c, schema, idx.column, op, v, got, rs) && EntryItems(c, schema, rows[t], idx.column, items[..i], got)
      {
        var row;
        ghost var r;
        row, r := FollowEntry(idx, op, v, items[i]);
        NextEntry(c, schema, rows[t], idx.column, items, got, i, r);
        FilteredNext(c, schema, idx.column, op, v, got, rs, r);
        if row.Some? {
          rs := rs + [row.value];
        }
        got := got + [r];
        i := i + 1;
      }
      Seqs.TakeAll(items);
      AllFound(idx, op, literal, v, items, got, rs);
    }

    /** The row that an entry points to, if the value in the entry's key matches. */
    method FollowEntry(idx: IndexDef, op: Op, v: Bytes, item: SSTable.Pair) returns (row: Option<Row>, ghost r: Row)
      requires Valid() && idx.name in indexes && indexes[idx.name] == idx && idx.table in tables && idx.table in rows
      requires item.key in data && data[item.key] == item.value
      requires InScanRange(EntryPrefix(idx.table, idx.column) + LoBound(op, v), item.key, EntryPrefix(idx.table, idx.column) + HiBound(op, v))
      ensures EntryItem(c, tables[idx.table], rows[idx.table], idx.column, item, r)
      ensures row == if Matches(Encoded(c, tables[idx.table], idx.column, r), op, v) then Some(r) else None
    {
      r := EntryItemIs(idx, op, v, item);
      var prefix := EntryPrefix(idx.table, idx.column);
      var sep := FindNul(item.key, |prefix|);
      FoundIsEnd(prefix, Encoded(c, tables[idx.table], idx.column, r), r[0], sep);
      row := None;
      if sep >= 0 && Matches(item.key[|prefix|..sep], op, v) {
        var found := Get(idx.table + [47] + item.value, RowAt(idx.table, r[0]));
        if found.Some? {
          row := Some(c.decode(found.value));
        }
      }
    }

    lemma {:induction false} EntryItemIs(idx: IndexDef, op: Op, v: Bytes, item: SSTable.Pair) returns (r: Row)
      requires Valid() && idx.name in indexes && indexes[idx.name] == idx && idx.table in tables && idx.table in rows
      requires item.key in data && data[item.key] == item.value
      requires InScanRange(EntryPrefix(idx.table, idx.column) + LoBound(op, v), item.key, EntryPrefix(idx.table, idx.column) + HiBound(op, v))
      ensures EntryItem(c, tables[idx.table], rows[idx.table], idx.column, item, r) && Plain(Encoded(c, tables[idx.table], idx.column, r))
      ensures item.key == EntryPrefix(idx.table, idx.column) + (Encoded(c, tables[idx.table], idx.column, r) + [0] + r[0])
      ensures Good(RowAt(idx.table, r[0])) && At(l, RowAt(idx.table, r[0])) == Some(c.encode(r))
    {
      var t := idx.table;
      assert TableOk(State(), t) && IndexOk(State(), idx.name, idx) && Known(l, item.key);
      var a :| a in l && KeyOf(a) == item.key;
      assert Held(l, data, a);
      ScanPrefix(EntryPrefix(t, idx.column), LoBound(op, v), item.key, HiBound(op, v));
      ColumnPlain(tables[t].columns, idx.column);
      EntryHasPrefix(t, idx.column, a);
      assert Want(c, State(), a) == At(l, a);
      r := rows[t][a.pk];
      assert RowOk(tables[t], a.pk, r);
      EntryKey(a);
      assert Want(c, State(), RowAt(t, a.pk)) == At(l, RowAt(t, a.pk));
    }

    lemma {:induction false} AllFound(idx: IndexDef, op: Op, literal: Bytes, v: Bytes, items: seq<SSTable.Pair>, got: seq<Row>, rs: seq<Row>)
      requires Valid() && idx.name in indexes && indexes[idx.name] == idx && idx.table in tables && idx.table in rows && op != Unequal
      requires ColumnIndex(tables[idx.table].columns, idx.column) >= 0
      requires v == Encode(c.intOf, tables[idx.table].columns[ColumnIndex(tables[idx.table].columns, idx.column)].typ, literal)
      requires forall i :: 0 <= i < |items| ==> InScanRange(EntryPrefix(idx.table, idx.column) + LoBound(op, v), items[i].key, EntryPrefix(idx.table, idx.column) + HiBound(op, v))
      requires Filtered(c, tables[idx.table], idx.column, op, v, got, rs) && EntryItems(c, tables[idx.table], rows[idx.table], idx.column, items, got)
      requires forall k :: k in data && InScanRange(EntryPrefix(idx.table, idx.column) + LoBound(op, v), k, EntryPrefix(idx.table, idx.column) + HiBound(op, v))
                           ==> exists i :: 0 <= i < |items| && items[i].key == k
      ensures Selects(rs, rows[idx.table], ChosenReached(c, tables[idx.table], rows[idx.table], idx.column, op, literal))
    {
      var t := idx.table;
      var chosen := ChosenReached(c, tables[t], rows[t], idx.column, op, literal);
      assert TableOk(State(), t);
      forall x | 0 <= x < |rs| ensures IsRowOf(rs[x], rows[t]) && rs[x][0] in chosen {
        assert rs[x] in got;
        var j :| 0 <= j < |got| && got[j] == rs[x];
        assert EntryItem(c, tables[t], rows[t], idx.column, items[j], got[j]);
        AcceptedIs(idx, op, literal, rs[x][0]);
        FoundReached(idx, op, v, items[j], got[j]);
      }
      forall pk | pk in chosen ensures pk in rows[t] && rows[t][pk] in rs && rows[t][pk] != [] && rows[t][pk][0] == pk {
        assert RowOk(tables[t], pk, rows[t][pk]);
        AcceptedIs(idx, op, literal, pk);
        var i := EntryFound(idx, op, v, items, pk);
        assert EntryItem(c, tables[t], rows[t], idx.column, items[i], got[i]);
        EncodedPlain(t, idx.column, got[i][0]);
        KeysDiffer(EntryAt(t, idx.column, Encoded(c, tables[t], idx.column, rows[t][pk]), pk),
                   EntryAt(t, idx.column, Encoded(c, tables[t], idx.column, got[i]), got[i][0]));
        assert got[i] in got;
      }
    }

    /** The condition holds of a row if and only if its encoded value matches. */
    lemma {:induction false} AcceptedIs(idx: IndexDef, op: Op, literal: Bytes, pk: Bytes)
      requires Valid() && idx.table in tables && idx.table in rows && pk in rows[idx.table] && ColumnIndex(tables[idx.table].columns, idx.column) >= 0
      ensures var columns, row := tables[idx.table].columns, rows[idx.table][pk];
              Accepts(c, Some(Comparison(idx.column, op, literal)), tables[idx.table], row)
              <==> Matches(Encoded(c, tables[idx.table], idx.column, row), op, Encode(c.intOf, columns[ColumnIndex(columns, idx.column)].typ, literal))
    {
      var columns, row := tables[idx.table].columns, rows[idx.table][pk];
      assert TableOk(State(), idx.table);
      assert RowOk(tables[idx.table], pk, row);
      var i := ColumnIndex(columns, idx.column);
      CompareMatches(c.intOf, columns[i].typ, row[i], op, literal);
    }

    lemma {:induction false} EntryFound(idx: IndexDef, op: Op, v: Bytes, items: seq<SSTable.Pair>, pk: Bytes) returns (i: nat)
      requires Valid() && idx.name in indexes && indexes[idx.name] == idx && idx.table in tables && idx.table in rows && pk in rows[idx.table]
      requires ColumnIndex(tables[idx.table].columns, idx.column) >= 0 && op != Unequal
      requires Matches(Encoded(c, tables[idx.table], idx.column, rows[idx.table][pk]), op, v)
      requires Reached(op, v, Encoded(c, tables[idx.table], idx.column, rows[idx.table][pk]), pk)
      requires forall k :: k in data && InScanRange(EntryPrefix(idx.table, idx.column) + LoBound(op, v), k, EntryPrefix(idx.table, idx.column) + HiBound(op, v))
                           ==> exists i :: 0 <= i < |items| && items[i].key == k
      ensures i < |items| && items[i].key == KeyOf(EntryAt(idx.table, idx.column, Encoded(c, tables[idx.table], idx.column, rows[idx.table][pk]), pk))
      ensures Good(EntryAt(idx.table, idx.column, Encoded(c, tables[idx.table], idx.column, rows[idx.table][pk]), pk))
    {
      var t, row := idx.table, rows[idx.table][pk];
      var x := Encoded(c, tables[t], idx.column, row);
      var a := EntryAt(t, idx.column, x, pk);
      EncodedPlain(t, idx.column, pk);
      assert Indexes(State(), idx.name, t, idx.column);
      assert Good(a) && Want(c, State(), a) == At(l, a);
      assert Held(l, data, a);
      EntryKey(a);
      ScanCoversIff(op, v, x, pk);
      ScanRest(EntryPrefix(t, idx.column), LoBound(op, v), x + [0] + pk, HiBound(op, v));
      i :| 0 <= i < |items| && items[i].key == KeyOf(a);
    }

    lemma {:induction false} FoundReached(idx: IndexDef, op: Op, v: Bytes, item: SSTable.Pair, r: Row)
      requires Valid() && idx.table in tables && idx.table in rows && ColumnIndex(tables[idx.table].columns, idx.column) >= 0 && op != Unequal
      requires EntryItem(c, tables[idx.table], rows[idx.table], idx.column, item, r) && Matches(Encoded(c, tables[idx.table], idx.column, r), op, v)
      requires InScanRange(EntryPrefix(idx.table, idx.column) + LoBound(op, v), item.key, EntryPrefix(idx.table, idx.column) + HiBound(op, v))
      ensures Reached(op, v, Encoded(c, tables[idx.table], idx.column, r), r[0])
    {
      var t, x := idx.table, Encoded(c, tables[idx.table], idx.column, r);
      assert TableOk(State(), t);
      EncodedPlain(t, idx.column, r[0]);
      EntryKey(EntryAt(t, idx.column, x, r[0]));
      ScanRest(EntryPrefix(t, idx.column), LoBound(op, v), x + [0] + r[0], HiBound(op, v));
      ScanCoversIff(op, v, x, r[0]);
    }

    lemma {:induction false} EncodedPlain(t: Bytes, column: Bytes, pk: Bytes)
      requires Valid() && t in tables && t in rows && pk in rows[t] && ColumnIndex(tables[t].columns, column) >= 0
      ensures NoSlash(t) && NoSlash(column) && Plain(Encoded(c, tables[t], column, rows[t][pk])) && Plain(pk)
    {
      assert TableOk(State(), t);
      assert RowOk(tables[t], pk, rows[t][pk]);
      ColumnPlain(tables[t].columns, column);
      var i := ColumnIndex(tables[t].columns, column);
      EncodePlain(c.intOf, tables[t].columns[i].typ, rows[t][pk][i]);
    }

    method IndexForColumn(t: Bytes, column: Bytes) returns (r: Option<IndexDef>)
      requires Valid()
      ensures r.None? <==> !Indexed(State(), t, column)
      ensures r.Some? ==> r.value.name in indexes && indexes[r.value.name] == r.value && r.value.table == t && r.value.column == column
    {
      r := None;
      var todo := indexes.Keys;
      while todo != {}
        invariant todo <= indexes.Keys && forall d :: Indexes(State(), d, t, column) ==> d in todo
        decreases |todo|
      {
        var d :| d in todo;
        assert IndexOk(State(), d, indexes[d]);
        if indexes[d].table == t && indexes[d].column == column {
          assert Indexes(State(), d, t, column);
          return Some(indexes[d]);
        }
        todo := todo - {d};
      }
    }

    /** The rows of a table that a condition accepts, before they are ordered and cut: the plan makes no difference. */
    method Select(t: Bytes, where: Option<Expr>) returns (r: Option<seq<Row>>)
      requires Valid()
      ensures r.None? <==> t !in tables
      ensures t in tables && !(SimplePredicate(where).Some? && Indexed(State(), t, where.value.column)) ==>
                Selects(r.value, rows[t], Chosen(c, where, tables[t], rows[t]))
      ensures t in tables && SimplePredicate(where).Some? && Indexed(State(), t, where.value.column) ==>
                && Selects(r.value, rows[t], ChosenReached(c, tables[t], rows[t], where.value.column, where.value.op, where.value.literal))
                && (NoNul(where.value.literal) ==> Selects(r.value, rows[t], Chosen(c, where, tables[t], rows[t])))
      ensures t in tables && (where.Some? ==> AllFit(c, where.value, tables[t], rows[t])) && (SimplePredicate(where).Some? ==> NoNul(where.value.literal)) ==>
                Selects(r.value, rows[t], Meant(c, where, tables[t], rows[t]))
    {
      if t in tables { MeantIs(t, where); }
      if t !in tables {
        return None;
      }
      var pred := SimplePredicate(where);
      if pred.Some? {
        var idx := IndexForColumn(t, pred.value.column);
        if idx.Some? {
          var found := IndexScan(idx.value, pred.value.op, pred.value.literal);
          assert TableOk(State(), t) && IndexOk(State(), idx.value.name, idx.value);
          if NoNul(pred.value.literal) { AllReached(idx.value, pred.value.op, pred.value.literal); }
          return Some(found);
        }
      }
      var all := FullScan(t, where);
      r := Some(all);
    }

    lemma {:induction false} MeantIs(t: Bytes, where: Option<Expr>)
      requires t in tables && t in rows
      ensures (where.Some? ==> AllFit(c, where.value, tables[t], rows[t])) ==> Chosen(c, where, tables[t], rows[t]) == Meant(c, where, tables[t], rows[t])
    {
      if where.Some? && AllFit(c, where.value, tables[t], rows[t]) { ChosenIsMeant(c, where.value, tables[t], rows[t]); }
    }

    /** An index scan and a full scan with the same comparison give the same rows, up to order, just when the index scan
        reaches all rows that match; it does if the literal has no NUL. */
    method BothPlans(idx: IndexDef, op: Op, literal: Bytes) returns (a: seq<Row>, b: seq<Row>)
      requires Valid() && idx.name in indexes && indexes[idx.name] == idx && op != Unequal && idx.table in tables
      ensures var t := idx.table;
              multiset(a) == multiset(b)
              <==> ChosenReached(c, tables[t], rows[t], idx.column, op, literal) == Chosen(c, Some(Comparison(idx.column, op, literal)), tables[t], rows[t])
      ensures NoNul(literal) ==> multiset(a) == multiset(b)
    {
      var t := idx.table;
      a := IndexScan(idx, op, literal);
      b := FullScan(t, Some(Comparison(idx.column, op, literal)));
      PlansAgree(a, b, rows[t], ChosenReached(c, tables[t], rows[t], idx.column, op, literal), Chosen(c, Some(Comparison(idx.column, op, literal)), tables[t], rows[t]));
      assert TableOk(State(), t) && IndexOk(State(), idx.name, idx);
      if NoNul(literal) { AllReached(idx, op, literal); }
    }

    lemma {:induction false} AllReached(idx: IndexDef, op: Op, literal: Bytes)
      requires Valid() && idx.table in tables && idx.table in rows && ColumnIndex(tables[idx.table].columns, idx.column) >= 0 && op != Unequal && NoNul(literal)
      ensures var t := idx.table;
              ChosenReached(c, tables[t], rows[t], idx.column, op, literal) == Chosen(c, Some(Comparison(idx.column, op, literal)), tables[t], rows[t])
    {
      var t := idx.table;
      var typ := tables[t].columns[ColumnIndex(tables[t].columns, idx.column)].typ;
      EncodeNoNul(c.intOf, typ, literal);
      forall pk | pk in Chosen(c, Some(Comparison(idx.column, op, literal)), tables[t], rows[t])
        ensures Reached(op, Encode(c.intOf, typ, literal), Encoded(c, tables[t], idx.column, rows[t][pk]), pk)
      {
        AcceptedIs(idx, op, literal, pk);
        EncodedPlain(t, idx.column, pk);
        ScanCoversIff(op, Encode(c.intOf, typ, literal), Encoded(c, tables[t], idx.column, rows[t][pk]), pk);
      }
    }

    // ---- changes ------------------------------------------------------------------------------------------------------

    /** False where the source answers with an error: the table is there, or there is no column. */
    method CreateTable(t: Bytes, columns: seq<Column>) returns (ok: bool)
      requires Valid() && TableName(t) && forall i :: 0 <= i < |columns| ==> NoSlash(columns[i].name)
      modifies this
      ensures Valid() && (ok <==> t !in old(tables) && columns != [])
      ensures State() == if ok then Db(old(tables)[t := Schema(t, columns)], old(indexes), old(rows)[t := map[]]) else old(State())
    {
      if t in tables || columns == [] {
        return false;
      }
      var schema := Schema(t, columns);
      CreateTableSays(c, State(), l, schema, l[TableAt(t) := c.tableText(schema)]);
      PutAt(KeyOf(TableAt(t)), c.tableText(schema), TableAt(t));
      tables, rows := tables[t := schema], rows[t := map[]];
      ok := true;
    }

    method Insert(t: Bytes, names: seq<Bytes>, values: seq<Bytes>) returns (ok: bool)
      requires Valid() && AllPlain(values)
      modifies this
      ensures Valid()
      ensures ok <==> Insertable(old(State()), t, names, values)
      ensures State() == if ok then With(old(State()), t, Built(old(tables)[t].columns, names, values).value) else old(State())
    {
      if t !in tables {
        return false;
      }
      assert TableOk(State(), t);
      var built := BuildRow(tables[t].columns, names, values);
      if built.None? {
        return false;
      }
      var row := built.value;
      BuiltPlain(tables[t].columns, names, values);
      var there := Get(t + [47] + row[0], RowAt(t, row[0]));
      assert Want(c, State(), RowAt(t, row[0])) == At(l, RowAt(t, row[0]));
      if there.Some? {
        return false;
      }
      StoreRow(t, row);
      ok := true;
    }

    method StoreRow(t: Bytes, row: Row)
      requires Valid() && t in tables && t in rows && row != [] && row[0] !in rows[t] && RowOk(tables[t], row[0], row)
      modifies this
      ensures Valid() && State() == With(old(State()), t, row)
    {
      assert TableOk(State(), t);
      InsertOk(State(), t, row);
      PutAt(t + [47] + row[0], c.encode(row), RowAt(t, row[0]));
      AddEntries(t, row);
      InsertSays(c, old(State()), old(l), t, row, l);
      rows := rows[t := rows[t][row[0] := row]];
    }

    /** An entry for the row in every index on its table. */
    method AddEntries(t: Bytes, row: Row)
      requires DbOk(State()) && Holds(l, data) && t in tables && row != [] && RowOk(tables[t], row[0], row)
      modifies `data, `l
      ensures Holds(l, data)
      ensures forall a :: At(l, a) == if IsEntryOf(c, State(), t, row, a) then Some(row[0]) else At(old(l), a)
    {
      var todo := set d | d in indexes && indexes[d].table == t;
      ghost var all := todo;
      while todo != {}
        invariant todo <= all && Holds(l, data)
        invariant forall a :: At(l, a) == if AmongEntries(c, State(), t, row, all - todo, a) then Some(row[0]) else At(old(l), a)
        decreases |todo|
      {
        var d :| d in todo;
        var def := indexes[d];
        EntryGood(c, State(), t, row, d);
        var value := Encoded(c, tables[t], def.column, row);
        EntryKey(EntryAt(t, def.column, value, row[0]));
        PutAt(EntryPrefix(t, def.column) + (value + [0] + row[0]), row[0], EntryAt(t, def.column, value, row[0]));
        MoreEntries(c, State(), t, row, all - todo, d, all - (todo - {d}));
        todo := todo - {d};
      }
      AllEntries(c, State(), t, row, all);
    }

    /** Delete the rows a condition accepts; -1 if there is no such table, otherwise how many. */
    method Delete(t: Bytes, where: Option<Expr>) returns (n: int)
      requires Valid()
      modifies this
      ensures Valid() && (n == -1 <==> t !in old(tables)) && (t !in old(tables) ==> State() == old(State()))
      ensures t in old(tables) ==>
                && n == |Chosen(c, where, old(tables)[t], old(rows)[t])|
                && State() == old(State()).(rows := old(rows)[t := old(rows)[t] - Chosen(c, where, old(tables)[t], old(rows)[t])])
    {
      if t !in tables {
        return -1;
      }
      assert TableOk(State(), t);
      var victims := FullScan(t, where);
      ghost var chosen := Chosen(c, where, tables[t], rows[t]);
      RemoveRows(t, victims, chosen);
      SelectionSize(victims, old(rows)[t], chosen);
      n := |victims|;
    }

    method RemoveRows(t: Bytes, victims: seq<Row>, ghost chosen: set<Bytes>)
      requires Valid() && t in tables && t in rows && Selects(victims, rows[t], chosen)
      modifies this
      ensures Valid() && State() == old(State()).(rows := old(rows)[t := old(rows)[t] - chosen])
    {
      var i := 0;
      ghost var gone: set<Bytes> := {};
      LessNothing(rows, t);
      while i < |victims|
        invariant 0 <= i <= |victims| && Valid() && tables == old(tables) && indexes == old(indexes)
        invariant rows == old(rows)[t := old(rows)[t] - gone] && IsKeys(victims[..i], gone)
      {
        StillThere(victims, old(rows)[t], chosen, gone, i);
        RemoveRow(t, victims[i]);
        LessMore(old(rows), t, gone, victims[i][0]);
        KeysMore(victims, gone, i);
        gone := gone + {victims[i][0]};
        i := i + 1;
      }
      Seqs.TakeAll(victims);
      AllGone(victims, old(rows)[t], chosen, gone);
    }

    /** A row goes, and its entries in the indexes with it. */
    method RemoveRow(t: Bytes, row: Row)
      requires Valid() && t in tables && t in rows && IsRowOf(row, rows[t])
      modifies this
      ensures Valid() && State() == Without(old(State()), t, row[0])
    {
      assert TableOk(State(), t);
      assert RowOk(tables[t], row[0], rows[t][row[0]]);
      DeleteOk(State(), t, row[0]);
      DeleteAt(t + [47] + row[0], RowAt(t, row[0]));
      RemoveEntries(t, row);
      DeleteSays(c, old(State()), old(l), t, row, l);
      rows := rows[t := rows[t] - {row[0]}];
    }

    method RemoveEntries(t: Bytes, row: Row)
      requires DbOk(State()) && Holds(l, data) && t in tables && row != [] && RowOk(tables[t], row[0], row)
      modifies `data, `l
      ensures Holds(l, data)
      ensures forall a :: At(l, a) == if IsEntryOf(c, State(), t, row, a) then None else At(old(l), a)
    {
      var todo := set d | d in indexes && indexes[d].table == t;
      ghost var all := todo;
      while todo != {}
        invariant todo <= all && Holds(l, data)
        invariant forall a :: At(l, a) == if AmongEntries(c, State(), t, row, all - todo, a) then None else At(old(l), a)
        decreases |todo|
      {
        var d :| d in todo;
        var def := indexes[d];
        EntryGood(c, State(), t, row, d);
        var value := Encoded(c, tables[t], def.column, row);
        EntryKey(EntryAt(t, def.column, value, row[0]));
        DeleteAt(EntryPrefix(t, def.column) + (value + [0] + row[0]), EntryAt(t, def.column, value, row[0]));
        MoreEntries(c, State(), t, row, all - todo, d, all - (todo - {d}));
        todo := todo - {d};
      }
      AllEntries(c, State(), t, row, all);
    }

    /** Every entry of an index goes. */
    method DeletePrefix(t: Bytes, column: Bytes)
      requires Holds(l, data) && NoSlash(t) && NoSlash(column)
      modifies `data, `l
      ensures Holds(l, data)
      ensures forall a :: At(l, a) == if InIndex(t, column, a) then None else At(old(l), a)
    {
      var prefix := EntryPrefix(t, column);
      var items := ScanRange(prefix, prefix + HI_CHAR);
      ghost var gone: seq<Addr> := [];
      var i := 0;
      while i < |items|
        invariant 0 <= i <= |items| && Holds(l, data) && Erased(t, column, old(l), l, gone) && KeysAre(items[..i], gone)
        invariant forall j :: 0 <= j < |items| ==> InScanRange(prefix, items[j].key, prefix + HI_CHAR) && Known(old(l), items[j].key)
      {
        ghost var a := EntryBehind(t, column, old(l), old(data), items[i].key);
        DeleteAt(items[i].key, a);
        KeysMoreAre(items, gone, i, a);
        gone := gone + [a];
        i := i + 1;
      }
      Seqs.TakeAll(items);
      NothingLeft(t, column, old(l), old(data), items, gone);
    }

    /** False if there is no such index. */
    method DropIndex(name: Bytes) returns (ok: bool)
      requires Valid()
      modifies this
      ensures Valid() && (ok <==> name in old(indexes)) && State() == WithoutIndex(old(State()), name)
    {
      if name !in indexes {
        return false;
      }
      var d := indexes[name];
      assert IndexOk(State(), name, d) && TableOk(State(), d.table);
      ColumnPlain(tables[d.table].columns, d.column);
      DeletePrefix(d.table, d.column);
      ghost var l1 := l;
      DeleteAt(KeyOf(IndexAt(name)), IndexAt(name));
      assert forall a :: At(l, a) == if a == IndexAt(name) then None else At(l1, a);
      DropIndexSays(c, old(State()), old(l), name, l);
      indexes := indexes - {name};
      ok := true;
    }

    /** Error cases: no such table or column, the name is taken, the column is indexed already. */
    method CreateIndex(name: Bytes, t: Bytes, column: Bytes) returns (ok: bool)
      requires Valid()
      modifies this
      ensures Valid()
      ensures ok <==> t in old(tables) && ColumnIndex(old(tables)[t].columns, column) >= 0 && name !in old(indexes) && !Indexed(old(State()), t, column)
      ensures State() == if ok then WithIndex(old(State()), IndexDef(name, t, column)) else old(State())
    {
      if t !in tables || ColumnIndex(tables[t].columns, column) < 0 || name in indexes {
        return false;
      }
      var taken := IndexForColumn(t, column);
      if taken.Some? {
        return false;
      }
      assert TableOk(State(), t);
      var rs := ScanRows(t);
      var def := IndexDef(name, t, column);
      PutAt(KeyOf(IndexAt(name)), c.indexText(def), IndexAt(name));
      FillIndex(def, rs);
      EntriesMade(c, old(State()), def, rs);
      CreateIndexSays(c, old(State()), old(l), def, l);
      indexes := indexes[name := def];
      ok := true;
    }

    /** An entry for each row. */
    method FillIndex(def: IndexDef, rs: seq<Row>)
      requires DbOk(State()) && Holds(l, data) && def.table in tables && def.table in rows && ColumnIndex(tables[def.table].columns, def.column) >= 0
      requires forall i :: 0 <= i < |rs| ==> rs[i] != [] && IsRowOf(rs[i], rows[def.table])
      modifies `data, `l
      ensures Holds(l, data)
      ensures forall a :: At(l, a) == if Made(c, State(), def, rs, a) then Some(a.pk) else At(old(l), a)
    {
      var t := def.table;
      var i := 0;
      while i < |rs|
        invariant 0 <= i <= |rs| && Holds(l, data)
        invariant forall a :: At(l, a) == if Made(c, State(), def, rs[..i], a) then Some(a.pk) else At(old(l), a)
      {
        assert IsRowOf(rs[i], rows[t]);
        PutEntry(def, rs[i]);
        MadeMore(c, State(), def, rs, i);
        i := i + 1;
      }
      Seqs.TakeAll(rs);
    }

    method PutEntry(def: IndexDef, row: Row)
      requires DbOk(State()) && Holds(l, data) && def.table in tables && def.table in rows && ColumnIndex(tables[def.table].columns, def.column) >= 0
      requires IsRowOf(row, rows[def.table])
      modifies `data, `l
      ensures Holds(l, data) && l == old(l)[EntryAt(def.table, def.column, Encoded(c, tables[def.table], def.column, row), row[0]) := row[0]]
    {
      var t := def.table;
      assert TableOk(State(), t);
      assert RowOk(tables[t], row[0], rows[t][row[0]]);
      ValueGood(c, State(), t, row, def.column);
      var value := Encoded(c, tables[t], def.column, row);
      EntryKey(EntryAt(t, def.column, value, row[0]));
      PutAt(EntryPrefix(t, def.column) + (value + [0] + row[0]), row[0], EntryAt(t, def.column, value, row[0]));
    }

    /** The table goes with its indexes and its rows; -1 if there is no such table. */
    method DropTable(t: Bytes) returns (n: int)
      requires Valid()
      modifies this
      ensures Valid() && (n == -1 <==> t !in old(tables)) && (t !in old(tables) ==> State() == old(State()))
      ensures t in old(tables) ==>
                && n == |old(rows)[t]| && tables == old(tables) - {t} && rows == old(rows) - {t}
                && indexes == map d | d in old(indexes) && old(indexes)[d].table != t :: old(indexes)[d]
    {
      if t !in tables {
        return -1;
      }
      assert TableOk(State(), t);
      DropIndexes(t);
      var rs := ScanRows(t);
      SelectionSize(rs, rows[t], rows[t].Keys);
      RemoveRows(t, rs, rows[t].Keys);
      n := |rs|;
      DropEmptyTable(t);
    }

    method DropIndexes(t: Bytes)
      requires Valid()
      modifies this
      ensures Valid() && tables == old(tables) && rows == old(rows)
      ensures indexes == map d | d in old(indexes) && old(indexes)[d].table != t :: old(indexes)[d]
    {
      var todo := set d | d in indexes && indexes[d].table == t;
      ghost var all := todo;
      LessIndexes(indexes, {});
      while todo != {}
        invariant todo <= all && Valid() && tables == old(tables) && rows == old(rows) && indexes == old(indexes) - (all - todo)
        decreases |todo|
      {
        var d :| d in todo;
        var _ := DropIndex(d);
        assert all - (todo - {d}) == all - todo + {d};
        LessIndexes(old(indexes), all - todo);
        todo := todo - {d};
      }
    }

    method DropEmptyTable(t: Bytes)
      requires Valid() && t in tables && t in rows && rows[t] == map[] && forall d :: d in indexes ==> indexes[d].table != t
      modifies this
      ensures Valid() && tables == old(tables) - {t} && rows == old(rows) - {t} && indexes == old(indexes)
    {
      DropTableSays(c, State(), l, t, l - {TableAt(t)});
      DeleteAt(KeyOf(TableAt(t)), TableAt(t));
      tables, rows := tables - {t}, rows - {t};
    }
  }

  /** The entries of a row in some of the indexes on its table. */
  ghost predicate AmongEntries(c: Codec, db: Db, t: Bytes, row: Row, ds: set<Bytes>, a: Addr)
    requires ds <= db.indexes.Keys && t in db.tables && row != []
  {
    exists d {:trigger db.indexes[d]} :: d in ds && a == EntryAt(t, db.indexes[d].column, Encoded(c, db.tables[t], db.indexes[d].column, row), row[0])
  }

  lemma {:induction false} MoreEntries(c: Codec, db: Db, t: Bytes, row: Row, ds: set<Bytes>, d: Bytes, ds': set<Bytes>)
    requires ds <= db.indexes.Keys && d in db.indexes && t in db.tables && row != [] && ds' == ds + {d}
    ensures forall a :: AmongEntries(c, db, t, row, ds', a) <==>
                          AmongEntries(c, db, t, row, ds, a) || a == EntryAt(t, db.indexes[d].column, Encoded(c, db.tables[t], db.indexes[d].column, row), row[0])
  {
  }

  lemma {:induction false} AllEntries(c: Codec, db: Db, t: Bytes, row: Row, ds: set<Bytes>)
    requires ds <= db.indexes.Keys && t in db.tables && row != [] && forall d :: d in ds <==> d in db.indexes && db.indexes[d].table == t
    ensures forall a :: AmongEntries(c, db, t, row, ds, a) <==> IsEntryOf(c, db, t, row, a)
  {
    forall a ensures AmongEntries(c, db, t, row, ds, a) <==> IsEntryOf(c, db, t, row, a) {
      if AmongEntries(c, db, t, row, ds, a) {
        var d :| d in ds && a == EntryAt(t, db.indexes[d].column, Encoded(c, db.tables[t], db.indexes[d].column, row), row[0]);
        assert Indexes(db, d, t, a.column);
      }
      if IsEntryOf(c, db, t, row, a) {
        var d :| Indexes(db, d, t, a.column);
        assert d in ds;
      }
    }
  }

  lemma {:induction false} EntryGood(c: Codec, db: Db, t: Bytes, row: Row, d: Bytes)
    requires DbOk(db) && d in db.indexes && db.indexes[d].table == t && t in db.tables && row != [] && RowOk(db.tables[t], row[0], row)
    ensures Good(EntryAt(t, db.indexes[d].column, Encoded(c, db.tables[t], db.indexes[d].column, row), row[0]))
  {
    assert TableOk(db, t) && IndexOk(db, d, db.indexes[d]);
    var columns, column := db.tables[t].columns, db.indexes[d].column;
    ColumnPlain(columns, column);
    var i := ColumnIndex(columns, column);
    EncodePlain(c.intOf, columns[i].typ, row[i]);
  }

  /** The table is there, the values make a row, and its key is new. */
  ghost predicate Insertable(db: Db, t: Bytes, names: seq<Bytes>, values: seq<Bytes>) {
    t in db.tables && t in db.rows
    && var row := Built(db.tables[t].columns, names, values); row.Some? && row.value != [] && row.value[0] !in db.rows[t]
  }

  lemma {:induction false} BuiltPlain(columns: seq<Column>, names: seq<Bytes>, values: seq<Bytes>)
    requires AllPlain(values)
    ensures Built(columns, names, values).Some? ==> AllPlain(Built(columns, names, values).value)
  {
    if names != [] && |names| == |values| { FilledPlain(columns, names, values); }
  }

  /** The entries of an index for some rows. */
  ghost predicate Made(c: Codec, db: Db, def: IndexDef, rs: seq<Row>, a: Addr)
    requires def.table in db.tables
  {
    exists i :: 0 <= i < |rs| && rs[i] != [] && a == EntryAt(def.table, def.column, Encoded(c, db.tables[def.table], def.column, rs[i]), rs[i][0])
  }

  lemma {:induction false} MadeMore(c: Codec, db: Db, def: IndexDef, rs: seq<Row>, n: nat)
    requires def.table in db.tables && n < |rs| && forall i :: 0 <= i < |rs| ==> rs[i] != []
    ensures forall a :: Made(c, db, def, rs[..n + 1], a) <==>
                          Made(c, db, def, rs[..n], a) || a == EntryAt(def.table, def.column, Encoded(c, db.tables[def.table], def.column, rs[n]), rs[n][0])
  {
    forall a ensures Made(c, db, def, rs[..n + 1], a) <==>
                       Made(c, db, def, rs[..n], a) || a == EntryAt(def.table, def.column, Encoded(c, db.tables[def.table], def.column, rs[n]), rs[n][0])
    {
      assert rs[..n + 1] == rs[..n] + [rs[n]];
      if Made(c, db, def, rs[..n], a) {
        var i :| 0 <= i < n && rs[..n][i] != [] && a == EntryAt(def.table, def.column, Encoded(c, db.tables[def.table], def.column, rs[..n][i]), rs[..n][i][0]);
        assert rs[..n + 1][i] == rs[..n][i];
      }
      assert rs[..n + 1][n] == rs[n];
    }
  }

  lemma {:induction false} EntriesMade(c: Codec, db: Db, def: IndexDef, rs: seq<Row>)
    requires def.table in db.tables && def.table in db.rows && Selects(rs, db.rows[def.table], db.rows[def.table].Keys)
    ensures forall a :: Made(c, db, def, rs, a) <==> Relations.NewEntry(c, db, def, a)
  {
    forall a ensures Made(c, db, def, rs, a) <==> Relations.NewEntry(c, db, def, a) {
      if Relations.NewEntry(c, db, def, a) {
        var row := db.rows[def.table][a.pk];
        assert row in rs;
        var i :| 0 <= i < |rs| && rs[i] == row;
        assert IsRowOf(rs[i], db.rows[def.table]);
      }
    }
  }

  lemma {:induction false} ValueGood(c: Codec, db: Db, t: Bytes, row: Row, column: Bytes)
    requires DbOk(db) && t in db.tables && row != [] && RowOk(db.tables[t], row[0], row) && ColumnIndex(db.tables[t].columns, column) >= 0
    ensures Good(EntryAt(t, column, Encoded(c, db.tables[t], column, row), row[0]))
  {
    assert TableOk(db, t);
    ColumnPlain(db.tables[t].columns, column);
    var i := ColumnIndex(db.tables[t].columns, column);
    EncodePlain(c.intOf, db.tables[t].columns[i].typ, row[i]);
  }

  // ---- erasing an index -----------------------------------------------------------------------------------------------

  predicate InIndex(t: Bytes, column: Bytes, a: Addr) { a.EntryAt? && a.table == t && a.column == column }

  /** The places in `gone`, all of them in the index, have been erased. */
  ghost predicate Erased(t: Bytes, column: Bytes, l0: Logical, l: Logical, gone: seq<Addr>) {
    && (forall j :: 0 <= j < |gone| ==> InIndex(t, column, gone[j]))
    && (forall a :: At(l, a) == if a in gone then None else At(l0, a))
  }

  ghost predicate KeysAre(items: seq<SSTable.Pair>, places: seq<Addr>) {
    |places| == |items| && forall j :: 0 <= j < |items| ==> items[j].key == KeyOf(places[j]) && Good(places[j])
  }

  lemma {:induction false} KeysMoreAre(items: seq<SSTable.Pair>, places: seq<Addr>, i: nat, a: Addr)
    requires i < |items| && KeysAre(items[..i], places) && items[i].key == KeyOf(a) && Good(a)
    ensures KeysAre(items[..i + 1], places + [a])
  {
    forall j | 0 <= j < i + 1 ensures items[..i + 1][j].key == KeyOf((places + [a])[j]) && Good((places + [a])[j]) {
      assert j < i ==> items[..i][j].key == KeyOf(places[j]);
    }
  }

  lemma {:induction false} EntryBehind(t: Bytes, column: Bytes, l: Logical, data: map<Bytes, Bytes>, k: Bytes) returns (a: Addr)
    requires Holds(l, data) && NoSlash(t) && NoSlash(column) && Known(l, k)
    requires InScanRange(EntryPrefix(t, column), k, EntryPrefix(t, column) + HI_CHAR)
    ensures a in l && Good(a) && InIndex(t, column, a) && KeyOf(a) == k
  {
    a :| a in l && KeyOf(a) == k;
    assert Held(l, data, a);
    EntryRange(t, column, a);
  }

  lemma {:induction false} NothingLeft(t: Bytes, column: Bytes, l: Logical, data: map<Bytes, Bytes>, items: seq<SSTable.Pair>, gone: seq<Addr>)
    requires Holds(l, data) && NoSlash(t) && NoSlash(column) && KeysAre(items, gone)
    requires forall k :: k in data && InScanRange(EntryPrefix(t, column), k, EntryPrefix(t, column) + HI_CHAR) ==> exists i :: 0 <= i < |items| && items[i].key == k
    ensures forall a :: a in l && InIndex(t, column, a) ==> a in gone
  {
    forall a | a in l && InIndex(t, column, a) ensures a in gone {
      assert Held(l, data, a);
      EntryRange(t, column, a);
      var i :| 0 <= i < |items| && items[i].key == KeyOf(a);
      KeysDiffer(a, gone[i]);
    }
  }

  // ---- removing rows one after the other --------------------------------------------------------------------------------

  ghost predicate IsKeys(rs: seq<Row>, ks: set<Bytes>) {
    (forall i :: 0 <= i < |rs| ==> rs[i] != [] && rs[i][0] in ks) && forall k :: k in ks ==> exists i :: 0 <= i < |rs| && rs[i] != [] && rs[i][0] == k
  }

  lemma {:induction false} KeysMore(rs: seq<Row>, ks: set<Bytes>, i: nat)
    requires i < |rs| && rs[i] != [] && IsKeys(rs[..i], ks)
    ensures IsKeys(rs[..i + 1], ks + {rs[i][0]})
  {
    var more, ks' := rs[..i + 1], ks + {rs[i][0]};
    assert more == rs[..i] + [rs[i]];
    forall k | k in ks' ensures exists j :: 0 <= j < |more| && more[j] != [] && more[j][0] == k {
      if k in ks {
        var j :| 0 <= j < i && rs[..i][j] != [] && rs[..i][j][0] == k;
        assert more[j] == rs[..i][j];
      } else {
        assert more[i] == rs[i];
      }
    }
  }

  lemma {:induction false} StillThere(rs: seq<Row>, table: Table, chosen: set<Bytes>, gone: set<Bytes>, i: nat)
    requires Selects(rs, table, chosen) && i < |rs| && IsKeys(rs[..i], gone)
    ensures IsRowOf(rs[i], table - gone)
  {
    assert IsRowOf(rs[i], table);
    forall j | 0 <= j < i ensures rs[..i][j] != [] && rs[..i][j][0] != rs[i][0] {
      assert IsRowOf(rs[j], table) && rs[j] != rs[i];
    }
  }

  lemma {:induction false} AllGone(rs: seq<Row>, table: Table, chosen: set<Bytes>, gone: set<Bytes>)
    requires Selects(rs, table, chosen) && IsKeys(rs, gone)
    ensures gone == chosen
  {
    forall k | k in chosen ensures k in gone {
      assert table[k] in rs;
      var i :| 0 <= i < |rs| && rs[i] == table[k];
    }
  }

  lemma {:induction false} LessNothing(rows: map<Bytes, Table>, t: Bytes)
    requires t in rows
    ensures rows == rows[t := rows[t] - {}]
  {
    assert rows[t] - {} == rows[t];
  }

  lemma {:induction false} LessMore(rows: map<Bytes, Table>, t: Bytes, gone: set<Bytes>, k: Bytes)
    requires t in rows
    ensures rows[t := rows[t] - gone][t := rows[t] - gone - {k}] == rows[t := rows[t] - (gone + {k})]
  {
    assert rows[t] - gone - {k} == rows[t] - (gone + {k});
  }

  lemma {:induction false} LessIndexes(indexes: map<Bytes, IndexDef>, gone: set<Bytes>)
    ensures indexes - {} == indexes && forall d :: indexes - gone - {d} == indexes - (gone + {d})
  {
  }

  lemma {:induction false} ColumnPlain(columns: seq<Column>, name: Bytes)
    requires ColumnIndex(columns, name) >= 0 && forall i :: 0 <= i < |columns| ==> NoSlash(columns[i].name)
    ensures NoSlash(name) && columns[ColumnIndex(columns, name)].name == name
  {
    if columns[0].name != name { ColumnPlain(columns[1..], name); }
  }
}
