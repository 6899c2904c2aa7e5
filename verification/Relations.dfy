/** Tables, indexes and rows, what the store must hold for them, and what a selection is. */
module Relations {
  import opened Commands
  import opened KeyOrder
  import opened VersionKeys
  import opened RowKeys
  import opened TypeCodec
  import Seqs

  type Row = seq<Bytes>

  datatype Column = Column(name: Bytes, typ: ColumnType)
  datatype Schema = Schema(name: Bytes, columns: seq<Column>)
  datatype IndexDef = IndexDef(name: Bytes, table: Bytes, column: Bytes)

  /** How text is read as a number, and how rows and definitions are written as text. */
  datatype Codec = Codec(intOf: IntOf, encode: Row -> Bytes, decode: Bytes -> Row, tableText: Schema -> Bytes, indexText: IndexDef -> Bytes)

  ghost predicate Sound(c: Codec) { forall r :: c.decode(c.encode(r)) == r }

  /** The first column of that name, or -1. */
  function ColumnIndex(columns: seq<Column>, name: Bytes): (i: int)
    ensures -1 <= i < |columns|
  {
    if columns == [] then -1
    else if columns[0].name == name then 0
    else
      var i := ColumnIndex(columns[1..], name);
      if i < 0 then -1 else i + 1
  }

  /** Column `i` is the first of that name. */
  ghost predicate IsColumn(columns: seq<Column>, name: Bytes, i: int) {
    0 <= i < |columns| && columns[i].name == name && forall j :: 0 <= j < i ==> columns[j].name != name
  }

  ghost predicate HasColumn(columns: seq<Column>, name: Bytes) { exists i :: IsColumn(columns, name, i) }

  lemma {:induction false} ColumnIndexIs(columns: seq<Column>, name: Bytes)
    ensures forall i {:trigger IsColumn(columns, name, i)} :: IsColumn(columns, name, i) <==> i >= 0 && i == ColumnIndex(columns, name)
  {
    if columns != [] {
      ColumnIndexIs(columns[1..], name);
      if columns[0].name != name {
        forall i ensures IsColumn(columns, name, i) <==> IsColumn(columns[1..], name, i - 1) {
          assert forall j :: 0 <= j < |columns| - 1 ==> columns[1..][j] == columns[j + 1];
          if IsColumn(columns[1..], name, i - 1) {
            forall j | 0 <= j < i ensures columns[j].name != name { assert j > 0 ==> columns[1..][j - 1] == columns[j]; }
          }
        }
      }
    }
  }

  /** The sortable form of a row's value in a column. */
  function Encoded(c: Codec, schema: Schema, column: Bytes, row: Row): Bytes {
    var i := ColumnIndex(schema.columns, column);
    if 0 <= i < |row| then Encode(c.intOf, schema.columns[i].typ, row[i]) else []
  }

  type Table = map<Bytes, Row>                       // by primary key

  datatype Db = Db(tables: map<Bytes, Schema>, indexes: map<Bytes, IndexDef>, rows: map<Bytes, Table>)

  // ---- what is allowed ------------------------------------------------------------------------------------------------

  ghost predicate AllPlain(row: Row) { forall i :: 0 <= i < |row| ==> Plain(row[i]) }

  ghost predicate RowOk(schema: Schema, pk: Bytes, row: Row) { |row| == |schema.columns| > 0 && row[0] == pk && AllPlain(row) }

  ghost predicate SchemaOk(t: Bytes, s: Schema) {
    TableName(t) && s.name == t && s.columns != [] && forall i :: 0 <= i < |s.columns| ==> NoSlash(s.columns[i].name)
  }

  ghost predicate IndexOk(db: Db, d: Bytes, def: IndexDef) {
    def.name == d && def.table in db.tables && ColumnIndex(db.tables[def.table].columns, def.column) >= 0
  }

  ghost predicate TableOk(db: Db, t: Bytes) {
    t in db.tables && t in db.rows && SchemaOk(t, db.tables[t]) && forall pk :: pk in db.rows[t] ==> RowOk(db.tables[t], pk, db.rows[t][pk])
  }

  ghost predicate DbOk(db: Db) {
    && db.rows.Keys == db.tables.Keys
    && (forall t {:trigger TableOk(db, t)} :: t in db.tables ==> TableOk(db, t))
    && (forall d {:trigger IndexOk(db, d, db.indexes[d])} :: d in db.indexes ==> IndexOk(db, d, db.indexes[d]))
    && (forall d, e {:trigger SameColumn(db, d, e)} :: d in db.indexes && e in db.indexes && SameColumn(db, d, e) ==> d == e)
  }

  ghost predicate SameColumn(db: Db, d: Bytes, e: Bytes)
    requires d in db.indexes && e in db.indexes
  {
    db.indexes[d].table == db.indexes[e].table && db.indexes[d].column == db.indexes[e].column
  }

  ghost predicate Indexes(db: Db, d: Bytes, t: Bytes, c: Bytes) { d in db.indexes && db.indexes[d].table == t && db.indexes[d].column == c }

  ghost predicate Indexed(db: Db, t: Bytes, c: Bytes) { exists d :: Indexes(db, d, t, c) }

  // ---- what the store must hold ---------------------------------------------------------------------------------------

  /** One entry for each definition and each row, and one for each row in each index. */
  ghost function Want(c: Codec, db: Db, a: Addr): Option<Bytes> {
    match a
    case TableAt(t) => if t in db.tables then Some(c.tableText(db.tables[t])) else None
    case IndexAt(d) => if d in db.indexes then Some(c.indexText(db.indexes[d])) else None
    case RowAt(t, pk) => if t in db.rows && pk in db.rows[t] then Some(c.encode(db.rows[t][pk])) else None
    case EntryAt(t, col, v, pk) =>
      if Indexed(db, t, col) && t in db.tables && t in db.rows && pk in db.rows[t] && v == Encoded(c, db.tables[t], col, db.rows[t][pk]) then Some(pk) else None
  }

  type Logical = map<Addr, Bytes>

  function At<K, V>(m: map<K, V>, k: K): Option<V> { if k in m then Some(m[k]) else None }

  ghost predicate Says(c: Codec, db: Db, l: Logical) { forall a {:trigger Want(c, db, a)} :: Good(a) ==> Want(c, db, a) == At(l, a) }

  /** The sorted store holds what is at each place under the key of the place, and nothing else. */
  ghost predicate Holds(l: Logical, data: map<Bytes, Bytes>) {
    && (forall a {:trigger Held(l, data, a)} :: a in l ==> Held(l, data, a))
    && (forall k {:trigger Known(l, k)} :: k in data ==> Known(l, k))
  }

  ghost predicate Held(l: Logical, data: map<Bytes, Bytes>, a: Addr)
    requires a in l
  {
    Good(a) && KeyOf(a) in data && data[KeyOf(a)] == l[a]
  }

  ghost predicate Known(l: Logical, k: Bytes) { exists a :: a in l && KeyOf(a) == k }

  lemma {:induction false} HoldsPut(l: Logical, data: map<Bytes, Bytes>, a: Addr, v: Bytes)
    requires Holds(l, data) && Good(a)
    ensures Holds(l[a := v], data[KeyOf(a) := v])
  {
    var l', data' := l[a := v], data[KeyOf(a) := v];
    forall b | b in l' ensures Held(l', data', b) {
      if b != a {
        assert Held(l, data, b);
        if KeyOf(b) == KeyOf(a) { KeysDiffer(a, b); }
      }
    }
    forall k | k in data' ensures Known(l', k) {
      if k == KeyOf(a) {
        assert a in l';
      } else {
        assert Known(l, k);
        var b :| b in l && KeyOf(b) == k;
        assert b in l';
      }
    }
  }

  lemma {:induction false} HoldsDelete(l: Logical, data: map<Bytes, Bytes>, a: Addr)
    requires Holds(l, data) && Good(a)
    ensures Holds(l - {a}, data - {KeyOf(a)})
  {
    var l', data' := l - {a}, data - {KeyOf(a)};
    forall b | b in l' ensures Held(l', data', b) {
      assert Held(l, data, b);
      if KeyOf(b) == KeyOf(a) { KeysDiffer(a, b); }
    }
    forall k | k in data' ensures Known(l', k) {
      assert Known(l, k);
      var b :| b in l && KeyOf(b) == k;
      assert b in l';
    }
  }

  /** What is under the key of a place is what is at the place. */
  lemma {:induction false} HoldsAt(l: Logical, data: map<Bytes, Bytes>, a: Addr)
    requires Holds(l, data) && Good(a)
    ensures At(data, KeyOf(a)) == At(l, a)
  {
    if a in l { assert Held(l, data, a); }
    if KeyOf(a) in data {
      assert Known(l, KeyOf(a));
      var b :| b in l && KeyOf(b) == KeyOf(a);
      assert Held(l, data, b);
      KeysDiffer(a, b);
    }
  }

  // ---- how the store follows the tables -------------------------------------------------------------------------------

  /** The places of a row in the indexes on its table. */
  ghost predicate IsEntryOf(c: Codec, db: Db, t: Bytes, row: Row, a: Addr) {
    t in db.tables && row != [] && a.EntryAt? && a.table == t && Indexed(db, t, a.column) && a.pk == row[0] && a.value == Encoded(c, db.tables[t], a.column, row)
  }

  ghost function Without(db: Db, t: Bytes, pk: Bytes): Db
    requires t in db.rows
  {
    db.(rows := db.rows[t := db.rows[t] - {pk}])
  }

  ghost function With(db: Db, t: Bytes, row: Row): Db
    requires t in db.rows && row != []
  {
    db.(rows := db.rows[t := db.rows[t][row[0] := row]])
  }

  lemma {:induction false} IndexesSame(db: Db, db': Db)
    requires db'.indexes == db.indexes
    ensures forall t, c :: Indexed(db', t, c) <==> Indexed(db, t, c)
  {
    forall t, c ensures Indexed(db', t, c) <==> Indexed(db, t, c) {
      if d :| Indexes(db, d, t, c) { assert Indexes(db', d, t, c); }
      if d :| Indexes(db', d, t, c) { assert Indexes(db, d, t, c); }
    }
  }

  /** A new table has no rows and no index. */
  lemma {:induction false} CreateTableSays(c: Codec, db: Db, l: Logical, schema: Schema, l': Logical)
    requires DbOk(db) && Says(c, db, l) && schema.name !in db.tables && SchemaOk(schema.name, schema)
    requires l' == l[TableAt(schema.name) := c.tableText(schema)]
    ensures var db' := Db(db.tables[schema.name := schema], db.indexes, db.rows[schema.name := map[]]); DbOk(db') && Says(c, db', l')
  {
    var t := schema.name;
    var db' := Db(db.tables[t := schema], db.indexes, db.rows[t := map[]]);
    IndexesSame(db, db');
    forall d | d in db'.indexes ensures IndexOk(db', d, db'.indexes[d]) { assert IndexOk(db, d, db.indexes[d]); }
    forall a | Good(a) ensures Want(c, db', a) == At(l', a) { assert Want(c, db, a) == At(l, a); }
    forall x | x in db'.tables ensures TableOk(db', x) { assert x != t ==> TableOk(db, x); }
    forall d, e | d in db'.indexes && e in db'.indexes && SameColumn(db', d, e) ensures d == e { assert SameColumn(db, d, e); }
  }

  /** A new row, at its place and at its places in the indexes. */
  lemma {:induction false} InsertSays(c: Codec, db: Db, l: Logical, t: Bytes, row: Row, l': Logical)
    requires DbOk(db) && Says(c, db, l) && t in db.tables && t in db.rows && row != [] && row[0] !in db.rows[t]
    requires forall a :: At(l', a) == if a == RowAt(t, row[0]) then Some(c.encode(row)) else if IsEntryOf(c, db, t, row, a) then Some(row[0]) else At(l, a)
    ensures Says(c, With(db, t, row), l')
  {
    var db' := With(db, t, row);
    IndexesSame(db, db');
    forall a | Good(a) ensures Want(c, db', a) == At(l', a) {
      assert Want(c, db, a) == At(l, a);
    }
  }

  lemma {:induction false} InsertOk(db: Db, t: Bytes, row: Row)
    requires DbOk(db) && t in db.tables && t in db.rows && row != [] && RowOk(db.tables[t], row[0], row)
    ensures DbOk(With(db, t, row))
  {
    var db' := With(db, t, row);
    forall x | x in db'.tables ensures TableOk(db', x) { assert TableOk(db, x); }
    forall d | d in db'.indexes ensures IndexOk(db', d, db'.indexes[d]) { assert IndexOk(db, d, db.indexes[d]); }
    forall d, e | d in db'.indexes && e in db'.indexes && SameColumn(db', d, e) ensures d == e { assert SameColumn(db, d, e); }
  }

  lemma {:induction false} DeleteSays(c: Codec, db: Db, l: Logical, t: Bytes, row: Row, l': Logical)
    requires DbOk(db) && Says(c, db, l) && t in db.tables && t in db.rows && IsRowOf(row, db.rows[t])
    requires forall a :: At(l', a) == if a == RowAt(t, row[0]) || IsEntryOf(c, db, t, row, a) then None else At(l, a)
    ensures Says(c, Without(db, t, row[0]), l')
  {
    var db' := Without(db, t, row[0]);
    IndexesSame(db, db');
    forall a | Good(a) ensures Want(c, db', a) == At(l', a) {
      assert Want(c, db, a) == At(l, a);
    }
  }

  lemma {:induction false} DeleteOk(db: Db, t: Bytes, pk: Bytes)
    requires DbOk(db) && t in db.tables && t in db.rows
    ensures DbOk(Without(db, t, pk))
  {
    var db' := Without(db, t, pk);
    forall x | x in db'.tables ensures TableOk(db', x) { assert TableOk(db, x); }
    forall d | d in db'.indexes ensures IndexOk(db', d, db'.indexes[d]) { assert IndexOk(db, d, db.indexes[d]); }
    forall d, e | d in db'.indexes && e in db'.indexes && SameColumn(db', d, e) ensures d == e { assert SameColumn(db, d, e); }
  }

  lemma {:induction false} DropTableSays(c: Codec, db: Db, l: Logical, t: Bytes, l': Logical)
    requires DbOk(db) && Says(c, db, l) && t in db.tables && t in db.rows && db.rows[t] == map[] && l' == l - {TableAt(t)}
    requires forall d :: d in db.indexes ==> db.indexes[d].table != t
    ensures var db' := Db(db.tables - {t}, db.indexes, db.rows - {t}); DbOk(db') && Says(c, db', l')
  {
    var db' := Db(db.tables - {t}, db.indexes, db.rows - {t});
    IndexesSame(db, db');
    forall a | Good(a) ensures Want(c, db', a) == At(l', a) { assert Want(c, db, a) == At(l, a); }
    forall x | x in db'.tables ensures TableOk(db', x) { assert TableOk(db, x); }
    forall d | d in db'.indexes ensures IndexOk(db', d, db'.indexes[d]) { assert IndexOk(db, d, db.indexes[d]); }
    forall d, e | d in db'.indexes && e in db'.indexes && SameColumn(db', d, e) ensures d == e { assert SameColumn(db, d, e); }
  }

  ghost function WithoutIndex(db: Db, d: Bytes): Db { db.(indexes := db.indexes - {d}) }

  /** Without the index there are no entries of it. */
  lemma {:induction false} DropIndexSays(c: Codec, db: Db, l: Logical, d: Bytes, l': Logical)
    requires DbOk(db) && Says(c, db, l) && d in db.indexes
    requires forall a :: At(l', a) == if a == IndexAt(d) || (a.EntryAt? && a.table == db.indexes[d].table && a.column == db.indexes[d].column) then None else At(l, a)
    ensures Says(c, WithoutIndex(db, d), l') && DbOk(WithoutIndex(db, d))
  {
    var db', def := WithoutIndex(db, d), db.indexes[d];
    forall t, col ensures Indexed(db', t, col) <==> Indexed(db, t, col) && !(t == def.table && col == def.column) {
      if e :| Indexes(db', e, t, col) { assert Indexes(db, e, t, col) && !SameColumn(db, d, e); }
      if e :| Indexes(db, e, t, col) { assert e != d ==> Indexes(db', e, t, col); }
    }
    forall a | Good(a) ensures Want(c, db', a) == At(l', a) { assert Want(c, db, a) == At(l, a); }
    forall x | x in db'.tables ensures TableOk(db', x) { assert TableOk(db, x); }
    forall e | e in db'.indexes ensures IndexOk(db', e, db'.indexes[e]) { assert IndexOk(db, e, db.indexes[e]); }
    forall e, f | e in db'.indexes && f in db'.indexes && SameColumn(db', e, f) ensures e == f { assert SameColumn(db, e, f); }
  }

  ghost function WithIndex(db: Db, def: IndexDef): Db { db.(indexes := db.indexes[def.name := def]) }

  /** A new index has an entry for every row. */
  lemma {:induction false} CreateIndexSays(c: Codec, db: Db, l: Logical, def: IndexDef, l': Logical)
    requires DbOk(db) && Says(c, db, l) && def.name !in db.indexes && def.table in db.tables && def.table in db.rows
    requires ColumnIndex(db.tables[def.table].columns, def.column) >= 0 && !Indexed(db, def.table, def.column)
    requires forall a :: At(l', a) == if a == IndexAt(def.name) then Some(c.indexText(def)) else if NewEntry(c, db, def, a) then Some(a.pk) else At(l, a)
    ensures Says(c, WithIndex(db, def), l') && DbOk(WithIndex(db, def))
  {
    var db' := WithIndex(db, def);
    forall t, col ensures Indexed(db', t, col) <==> Indexed(db, t, col) || (t == def.table && col == def.column) {
      assert Indexes(db', def.name, def.table, def.column);
      if e :| Indexes(db, e, t, col) { assert Indexes(db', e, t, col); }
      if e :| Indexes(db', e, t, col) { assert e != def.name ==> Indexes(db, e, t, col); }
    }
    forall a | Good(a) ensures Want(c, db', a) == At(l', a) { assert Want(c, db, a) == At(l, a); }
    forall x | x in db'.tables ensures TableOk(db', x) { assert TableOk(db, x); }
    forall e | e in db'.indexes ensures IndexOk(db', e, db'.indexes[e]) { assert e != def.name ==> IndexOk(db, e, db.indexes[e]); }
    forall e, f | e in db'.indexes && f in db'.indexes && SameColumn(db', e, f) ensures e == f {
      assert e != def.name ==> Indexes(db, e, db.indexes[e].table, db.indexes[e].column);
      assert f != def.name ==> Indexes(db, f, db.indexes[f].table, db.indexes[f].column);
      if e != def.name && f != def.name { assert SameColumn(db, e, f); }
    }
  }

  ghost predicate NewEntry(c: Codec, db: Db, def: IndexDef, a: Addr)
    requires def.table in db.tables && def.table in db.rows
  {
    a.EntryAt? && a.table == def.table && a.column == def.column && a.pk in db.rows[def.table]
    && a.value == Encoded(c, db.tables[def.table], def.column, db.rows[def.table][a.pk])
  }

  // ---- selections -----------------------------------------------------------------------------------------------------

  /** The rows with the keys in `chosen`, each once, in any order. */
  ghost predicate Selects(rows: seq<Row>, table: Table, chosen: set<Bytes>) {
    && (forall i :: 0 <= i < |rows| ==> IsRowOf(rows[i], table) && rows[i][0] in chosen)
    && (forall i, j :: 0 <= i < j < |rows| ==> rows[i] != rows[j])
    && (forall pk :: pk in chosen ==> pk in table && table[pk] in rows && table[pk] != [] && table[pk][0] == pk)
  }

  ghost predicate IsRowOf(row: Row, table: Table) { row != [] && row[0] in table && table[row[0]] == row }

  lemma {:induction false} CountOnce(rows: seq<Row>, r: Row)
    requires forall i, j :: 0 <= i < j < |rows| ==> rows[i] != rows[j]
    ensures multiset(rows)[r] == if r in rows then 1 else 0
  {
    if rows != [] {
      var l := |rows| - 1;
      Seqs.TakeSnoc(rows, l);
      Seqs.TakeAll(rows);
      CountOnce(rows[..l], r);
    }
  }

  lemma {:induction false} SelectionSize(rows: seq<Row>, table: Table, chosen: set<Bytes>)
    requires Selects(rows, table, chosen)
    ensures |rows| == |chosen|
    decreases |rows|
  {
    if rows == [] {
      assert chosen == {};
    } else {
      var l := |rows| - 1;
      var pk := rows[l][0];
      assert IsRowOf(rows[l], table);
      forall k | k in chosen - {pk} ensures k in table && table[k] in rows[..l] {
        var i :| 0 <= i < |rows| && rows[i] == table[k];
        assert IsRowOf(rows[i], table);
        assert rows[..l][i] == rows[i];
      }
      forall i | 0 <= i < l ensures rows[..l][i][0] in chosen - {pk} {
        assert IsRowOf(rows[i], table) && rows[i] != rows[l];
      }
      SelectionSize(rows[..l], table, chosen - {pk});
    }
  }

  /** Two selections of the same rows are the same up to order. */
  lemma {:induction false} SelectionsAgree(a: seq<Row>, b: seq<Row>, table: Table, chosen: set<Bytes>)
    requires Selects(a, table, chosen) && Selects(b, table, chosen)
    ensures multiset(a) == multiset(b)
  {
    forall r ensures r in a <==> r in b {
      if r in a { assert table[r[0]] in b; }
      if r in b { assert table[r[0]] in a; }
    }
    forall r ensures multiset(a)[r] == multiset(b)[r] {
      CountOnce(a, r);
      CountOnce(b, r);
    }
  }

  // ---- conditions -----------------------------------------------------------------------------------------------------

  datatype Expr = Comparison(column: Bytes, op: Op, literal: Bytes) | And(l: Expr, r: Expr) | Or(l: Expr, r: Expr) | Not(e: Expr) | Unsupported

  function Eval(c: Codec, e: Expr, schema: Schema, row: Row): bool {
    match e
    case And(l, r) => Eval(c, l, schema, row) && Eval(c, r, schema, row)
    case Or(l, r) => Eval(c, l, schema, row) || Eval(c, r, schema, row)
    case Not(x) => !Eval(c, x, schema, row)
    case Unsupported => false
    case Comparison(column, op, literal) =>
      var i := ColumnIndex(schema.columns, column);
      if 0 <= i < |row| then Sign(Compare(c.intOf, schema.columns[i].typ, row[i], literal), op) else false
  }

  function Accepts(c: Codec, where: Option<Expr>, schema: Schema, row: Row): bool { where.None? || Eval(c, where.value, schema, row) }

  /** The keys of the rows a condition accepts. */
  ghost function Chosen(c: Codec, where: Option<Expr>, schema: Schema, table: Table): set<Bytes> {
    set pk | pk in table && Accepts(c, where, schema, table[pk])
  }

  // ---- what conditions mean -------------------------------------------------------------------------------------------

  /** Texts compare by their bytes. */
  ghost predicate Stands(a: Bytes, op: Op, b: Bytes) {
    match op
    case Equal => a == b
    case Unequal => a != b
    case Less => Lt(a, b)
    case Greater => Lt(b, a)
    case AtMost => Le(a, b)
    case AtLeast => Le(b, a)
  }

  ghost predicate StandsInt(x: int, op: Op, y: int) {
    match op
    case Equal => x == y
    case Unequal => x != y
    case Less => x < y
    case Greater => x > y
    case AtMost => x <= y
    case AtLeast => x >= y
  }

  ghost predicate InWord(x: int) { -BIAS <= x < BIAS }

  /** In an INT column two numbers compare as numbers. Everything else compares as text; a number against text that is none
      goes by the sixteen digits of the number with 2**63 added. */
  ghost predicate Compares(intOf: IntOf, typ: ColumnType, a: Bytes, op: Op, b: Bytes) {
    if typ == Int && intOf(a).Some? && intOf(b).Some? then StandsInt(intOf(a).value, op, intOf(b).value)
    else if typ == Int && intOf(a).Some? then InWord(intOf(a).value) && Stands(Hex(intOf(a).value + BIAS, 16), op, b)
    else if typ == Int && intOf(b).Some? then InWord(intOf(b).value) && Stands(a, op, Hex(intOf(b).value + BIAS, 16))
    else Stands(a, op, b)
  }

  /** Numbers in an INT column fit a 64-bit word. */
  ghost predicate Fits(intOf: IntOf, typ: ColumnType, a: Bytes) { typ == Int && intOf(a).Some? ==> InWord(intOf(a).value) }

  lemma {:induction false} SignStands(intOf: IntOf, typ: ColumnType, a: Bytes, op: Op, b: Bytes)
    ensures Sign(Compare(intOf, typ, a, b), op) <==> Stands(Encode(intOf, typ, a), op, Encode(intOf, typ, b))
  {
    Order();
    Total(Encode(intOf, typ, a), Encode(intOf, typ, b));
  }

  lemma {:induction false} IntStands(x: int, op: Op, y: int)
    requires InWord(x) && InWord(y)
    ensures Stands(Padded(x + BIAS), op, Padded(y + BIAS)) <==> StandsInt(x, op, y)
  {
    IntOrder(x, y);
    IntOrder(y, x);
    Total(Padded(x + BIAS), Padded(y + BIAS));
    Irreflexive(Padded(x + BIAS));
  }

  /** A comparison holds of two values just when it says so of the numbers or texts they are. */
  lemma {:induction false} CompareMeans(intOf: IntOf, typ: ColumnType, a: Bytes, op: Op, b: Bytes)
    requires Fits(intOf, typ, a) && Fits(intOf, typ, b)
    ensures Sign(Compare(intOf, typ, a, b), op) <==> Compares(intOf, typ, a, op, b)
  {
    SignStands(intOf, typ, a, op, b);
    Power16Of16();
    if typ == Int {
      if intOf(a).Some? { Sixteen(intOf(a).value + BIAS); }
      if intOf(b).Some? { Sixteen(intOf(b).value + BIAS); }
      if intOf(a).Some? && intOf(b).Some? { IntStands(intOf(a).value, op, intOf(b).value); }
    }
  }

  /** The row has such a column, and what is in it stands in the relation to the literal. */
  ghost predicate RowCompares(c: Codec, schema: Schema, row: Row, column: Bytes, op: Op, literal: Bytes) {
    exists i :: IsColumn(schema.columns, column, i) && i < |row| && Compares(c.intOf, schema.columns[i].typ, row[i], op, literal)
  }

  /** The keys of the rows that a condition means, by set operations. */
  ghost function Meaning(c: Codec, e: Expr, schema: Schema, table: Table): set<Bytes> {
    match e
    case Comparison(column, op, literal) => set pk | pk in table && RowCompares(c, schema, table[pk], column, op, literal)
    case And(l, r) => Meaning(c, l, schema, table) * Meaning(c, r, schema, table)
    case Or(l, r) => Meaning(c, l, schema, table) + Meaning(c, r, schema, table)
    case Not(x) => table.Keys - Meaning(c, x, schema, table)
    case Unsupported => {}
  }

  ghost function Meant(c: Codec, where: Option<Expr>, schema: Schema, table: Table): set<Bytes> {
    if where.None? then table.Keys else Meaning(c, where.value, schema, table)
  }

  /** All numbers that the condition compares fit a word. */
  ghost predicate AllFit(c: Codec, e: Expr, schema: Schema, table: Table) {
    match e
    case Comparison(column, _, literal) => forall pk :: pk in table ==> RowFits(c, schema, table[pk], column, literal)
    case And(l, r) => AllFit(c, l, schema, table) && AllFit(c, r, schema, table)
    case Or(l, r) => AllFit(c, l, schema, table) && AllFit(c, r, schema, table)
    case Not(x) => AllFit(c, x, schema, table)
    case Unsupported => true
  }

  ghost predicate RowFits(c: Codec, schema: Schema, row: Row, column: Bytes, literal: Bytes) {
    forall i {:trigger IsColumn(schema.columns, column, i)} :: IsColumn(schema.columns, column, i) && i < |row| ==>
      Fits(c.intOf, schema.columns[i].typ, row[i]) && Fits(c.intOf, schema.columns[i].typ, literal)
  }

  lemma {:induction false} EvalCompares(c: Codec, schema: Schema, row: Row, column: Bytes, op: Op, literal: Bytes)
    requires RowFits(c, schema, row, column, literal)
    ensures Eval(c, Comparison(column, op, literal), schema, row) <==> RowCompares(c, schema, row, column, op, literal)
  {
    ColumnIndexIs(schema.columns, column);
    var i := ColumnIndex(schema.columns, column);
    assert IsColumn(schema.columns, column, i) <==> i >= 0;
    if 0 <= i < |row| { CompareMeans(c.intOf, schema.columns[i].typ, row[i], op, literal); }
  }

  /** A condition chooses the rows it means. */
  lemma {:induction false} ChosenIsMeant(c: Codec, e: Expr, schema: Schema, table: Table)
    requires AllFit(c, e, schema, table)
    ensures Chosen(c, Some(e), schema, table) == Meaning(c, e, schema, table)
  {
    match e
    case Comparison(column, op, literal) =>
      forall pk | pk in table ensures Eval(c, e, schema, table[pk]) <==> RowCompares(c, schema, table[pk], column, op, literal) {
        EvalCompares(c, schema, table[pk], column, op, literal);
      }
    case And(l, r) => ChosenIsMeant(c, l, schema, table); ChosenIsMeant(c, r, schema, table); BothChosen(c, l, r, schema, table);
    case Or(l, r) => ChosenIsMeant(c, l, schema, table); ChosenIsMeant(c, r, schema, table); BothChosen(c, l, r, schema, table);
    case Not(x) => ChosenIsMeant(c, x, schema, table); NotChosen(c, x, schema, table);
    case Unsupported =>
  }

  lemma {:induction false} BothChosen(c: Codec, l: Expr, r: Expr, schema: Schema, table: Table)
    ensures Chosen(c, Some(And(l, r)), schema, table) == Chosen(c, Some(l), schema, table) * Chosen(c, Some(r), schema, table)
    ensures Chosen(c, Some(Or(l, r)), schema, table) == Chosen(c, Some(l), schema, table) + Chosen(c, Some(r), schema, table)
  {
  }

  lemma {:induction false} NotChosen(c: Codec, x: Expr, schema: Schema, table: Table)
    ensures Chosen(c, Some(Not(x)), schema, table) == table.Keys - Chosen(c, Some(x), schema, table)
  {
  }

  /** Those of them that an index scan for the comparison reaches. */
  ghost function ChosenReached(c: Codec, schema: Schema, table: Table, column: Bytes, op: Op, literal: Bytes): set<Bytes> {
    var i := ColumnIndex(schema.columns, column);
    set pk | pk in Chosen(c, Some(Comparison(column, op, literal)), schema, table)
             && (i >= 0 ==> Reached(op, Encode(c.intOf, schema.columns[i].typ, literal), Encoded(c, schema, column, table[pk]), pk))
  }

  /** Two selections from one table are the same up to order just when they choose the same rows. */
  lemma {:induction false} PlansAgree(a: seq<Row>, b: seq<Row>, table: Table, some: set<Bytes>, all: set<Bytes>)
    requires Selects(a, table, some) && Selects(b, table, all)
    ensures multiset(a) == multiset(b) <==> some == all
  {
    if some == all { SelectionsAgree(a, b, table, all); }
    if multiset(a) == multiset(b) {
      assert forall r :: r in a <==> r in multiset(a);
      assert forall r :: r in b <==> r in multiset(b);
      forall pk ensures pk in some <==> pk in all {
        if pk in some { assert table[pk] in b; }
        if pk in all { assert table[pk] in a; }
      }
    }
  }

  /** A single comparison that an index can answer. */
  function SimplePredicate(where: Option<Expr>): Option<Expr> {
    if where.Some? && where.value.Comparison? && where.value.op != Unequal then where else None
  }
}
