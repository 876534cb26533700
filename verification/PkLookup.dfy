/** Reading a table by primary key instead of scanning it. */
module PkLookup {
  import opened Basics
  import opened Storage
  import opened IndexEncoding
  import opened SecondaryIndex
  import opened Sql
  import T = SqlTables
  import S = SqlSession
  import R = Resolve
  import Q = JoinQuery
  import J = HashJoin
  import P = Planner
  import D = Decimal

  type Row = J.Row
  type TableDef = T.TableDef
  type Codec = T.Codec

  // ----- Choosing the lookup -----

  /** A literal as the text it is looked up by; `floatText` prints a float. */
  function AsString(v: SqlValue, floatText: string -> string): string {
    match v
    case Text(s) => s
    case Integer(n) => D.IntToText(n)
    case Float(literal) => floatText(literal)
    case Boolean(b) => if b then "true" else "false"
    case Null => "NULL"
    case Placeholder(n) => "$" + D.IntToText(n)
  }

  /** The part of a name after its last point. */
  function BareName(column: string): string
    decreases |column|
  {
    match SplitOnce(column, '.')
    case None => column
    case Some((q, b)) => BareName(b)
  }

  predicate NamesKey(column: string, table: string, pk: string) {
    && (match SplitOnce(column, '.') case None => true case Some((q, _)) => R.EqIgnoreCase(q, table))
    && R.EqIgnoreCase(BareName(column), pk)
  }

  /** The first equality on the primary key among the conjuncts. */
  function ExtractLookup(table: string, pk: string, e: WhereExpr): Option<(string, SqlValue)> {
    match e
    case Comparison(column, op, value) =>
      if op == Eq && NamesKey(column, table, pk) then Some((column, value)) else None
    case And(a, b) =>
      (match ExtractLookup(table, pk, a)
       case Some(found) => Some(found)
       case None => ExtractLookup(table, pk, b))
    case _ => None
  }

  /** The bare name is the end of the name from its last point on. */
  lemma {:induction false} BareNameIff(column: string, b: string)
    ensures BareName(column) == b <==>
            && '.' !in b && |b| <= |column| && column[|column| - |b|..] == b
            && (|b| < |column| ==> column[|column| - |b| - 1] == '.')
    decreases |column|
  {
    match SplitOnce(column, '.')
    case None =>
    case Some((q, rest)) =>
      BareNameIff(rest, b);
      var n := |column| - |rest|;
      assert column[n - 1] == '.' && column[n..] == rest;
      if |b| <= |rest| {
        assert column[|column| - |b|..] == rest[|rest| - |b|..];
        assert |b| < |rest| ==> column[|column| - |b| - 1] == rest[|rest| - |b| - 1];
      } else if |b| <= |column| && column[|column| - |b|..] == b {
        assert b[n - 1 - (|column| - |b|)] == '.';
      }
  }

  /** The key may be named alone or with its table, in any case. */
  lemma NamesKeyIff(q: string, b: string, table: string, pk: string)
    requires '.' !in q && '.' !in b
    ensures NamesKey(b, table, pk) <==> R.EqIgnoreCase(b, pk)
    ensures NamesKey(q + "." + b, table, pk) <==> R.EqIgnoreCase(q, table) && R.EqIgnoreCase(b, pk)
  {
    hide R.EqIgnoreCase, BareName;
    BareNameIff(b, b);
    SplitOnceAt(q, '.', b);
    var column := q + "." + b;
    assert column[|column| - |b|..] == b;
    BareNameIff(column, b);
  }

  predicate IsKeyEquality(e: WhereExpr, table: string, pk: string) {
    e.Comparison? && e.op == Eq && NamesKey(e.column, table, pk)
  }

  /** The lookup is chosen exactly when some conjunct equates the key, and is the first. */
  lemma {:induction false} ExtractsFirst(table: string, pk: string, e: WhereExpr) returns (i: nat)
    ensures var parts, found := Conjuncts(e), ExtractLookup(table, pk, e);
            && i <= |parts| && (forall j | 0 <= j < i :: !IsKeyEquality(parts[j], table, pk))
            && (i < |parts| ==> IsKeyEquality(parts[i], table, pk) && found == Some((parts[i].column, parts[i].value)))
            && (i == |parts| ==> found == None)
  {
    hide NamesKey;
    if e.And? {
      i := ExtractsFirst(table, pk, e.left);
      if i == |Conjuncts(e.left)| {
        var k := ExtractsFirst(table, pk, e.right);
        i := i + k;
      }
    } else {
      i := if IsKeyEquality(e, table, pk) then 0 else 1;
    }
  }

  /** A predicate that selects a row makes the extracted equality true of it. */
  lemma {:induction false} ExtractedHolds(table: string, pk: string, e: WhereExpr, look: Reader, typing: Typing,
                                          cmp: Compares)
    requires ExtractLookup(table, pk, e).Some? && Eval(e, look, typing, cmp) == True
    ensures var (column, value) := ExtractLookup(table, pk, e).value;
            && NamesKey(column, table, pk) && value != Null
            && look(column).Some? && cmp(Eq, look(column).value, value, typing(column))
  {
    hide NamesKey;
    if e.And? {
      if ExtractLookup(table, pk, e.left).Some? {
        ExtractedHolds(table, pk, e.left, look, typing, cmp);
      } else {
        ExtractedHolds(table, pk, e.right, look, typing, cmp);
      }
    }
  }

  /** A stored row: no name holds a point, and only the key's own spells the key. */
  ghost predicate StoredRow(t: TableDef, row: Row) {
    R.Plain(row) && forall k | k in row && R.EqIgnoreCase(k, t.pk) :: k == t.pk
  }

  lemma KeyColumnReads(t: TableDef, table: string, row: Row, column: string)
    requires StoredRow(t, row) && NamesKey(column, table, t.pk) && R.RowLookup(row, column).Some?
    ensures t.pk in row && row[t.pk] == R.RowLookup(row, column)
  {
    hide R.EqIgnoreCase;
    match SplitOnce(column, '.')
    case None =>
      assert BareName(column) == column;
    case Some((q, b)) =>
      assert '.' in column;
      assert column !in row;
      assert b in row && '.' !in b;
      assert BareName(b) == b;
  }

  // ----- The two ways of reading -----

  /** Every row stored under the table's prefix decodes and sits at its own key,
      also above the end mark of a table scan. */
  ghost predicate TypedThroughout(t: TableDef, c: Codec, data: Data) {
    forall k | k in data && t.prefix <= k ::
      && c.decode(data[k].text).Some? && T.HasKey(t, c.decode(data[k].text).value)
      && T.KeyOf(t, c.decode(data[k].text).value) == k && StoredRow(t, c.decode(data[k].text).value)
  }

  /** The rows of a key range, by distinct keys. */
  ghost predicate Reads(c: Codec, data: Data, lo: Key, hi: Key, keys: seq<Key>, rows: seq<Row>) {
    && |rows| == |keys| && (forall i, j | 0 <= i < j < |keys| :: keys[i] != keys[j])
    && (forall i | 0 <= i < |keys| ::
          keys[i] in data && InScan(keys[i], lo, hi) && c.decode(data[keys[i]].text) == Some(rows[i]))
    && (forall k | k in data && InScan(k, lo, hi) :: k in keys)
  }

  function LookupKey(t: TableDef, text: string): Key {
    t.prefix + t.canon(text)
  }

  /** What passes when only a row at `key` can: that row, if it is read and does. */
  ghost function Hit(c: Codec, data: Data, key: Key, read: bool, keep: Row -> bool): seq<Row> {
    if read && key in data && c.decode(data[key].text).Some? && keep(c.decode(data[key].text).value)
    then [c.decode(data[key].text).value] else []
  }

  lemma {:induction false} FilterEmpty(keep: Row -> bool, rows: seq<Row>)
    ensures Filter(keep, rows) == [] <==> forall i | 0 <= i < |rows| :: !keep(rows[i])
  {
    if rows != [] {
      FilterEmpty(keep, rows[..|rows| - 1]);
    }
  }

  lemma {:induction false} FilterOne(keep: Row -> bool, rows: seq<Row>, i: nat)
    requires i < |rows| && keep(rows[i]) && forall j | 0 <= j < |rows| && j != i :: !keep(rows[j])
    ensures Filter(keep, rows) == [rows[i]]
  {
    var n := |rows| - 1;
    if i == n {
      FilterEmpty(keep, rows[..n]);
    } else {
      FilterOne(keep, rows[..n], i);
    }
  }

  /** Rows pass only at `key`. */
  ghost predicate OnlyAt(t: TableDef, c: Codec, data: Data, keep: Row -> bool, key: Key) {
    forall k | k in data && t.prefix <= k && c.decode(data[k].text).Some?
        && keep(c.decode(data[k].text).value) :: k == key
  }

  lemma ReadsFilter(t: TableDef, c: Codec, data: Data, lo: Key, hi: Key, keys: seq<Key>, rows: seq<Row>,
                    keep: Row -> bool, key: Key)
    requires Reads(c, data, lo, hi, keys, rows) && OnlyAt(t, c, data, keep, key)
    requires forall i | 0 <= i < |keys| :: t.prefix <= keys[i]
    ensures Filter(keep, rows) == Hit(c, data, key, InScan(key, lo, hi), keep)
  {
    hide InScan;
    if key in data && InScan(key, lo, hi) {
      var i :| 0 <= i < |keys| && keys[i] == key;
      if keep(rows[i]) {
        FilterOne(keep, rows, i);
      } else {
        FilterEmpty(keep, rows);
      }
    } else {
      FilterEmpty(keep, rows);
    }
  }

  lemma RangeHasPrefix(t: TableDef, lo: string, hi: string, c: Codec, data: Data, keys: seq<Key>, rows: seq<Row>)
    requires Reads(c, data, t.prefix + lo, t.prefix + hi, keys, rows)
    ensures forall i | 0 <= i < |keys| :: t.prefix <= keys[i]
  {
    hide InScan;
    forall i | 0 <= i < |keys| ensures t.prefix <= keys[i] {
      ScanKeepsPrefix(t.prefix, lo, hi, keys[i]);
    }
  }

  lemma KeyInRange(prefix: string, k: string)
    ensures InScan(prefix + k, prefix + k, prefix + k + [DEL]) && S.InTable(prefix, prefix + k) == BelowDel(k)
  {
    hide Leq;
    T.InTableIff(prefix, k);
    assert prefix + k + [DEL] == prefix + (k + [DEL]);
    ScanWithin(prefix, k, k + [DEL], k);
    LeqExtends(k, [DEL]);
    LeqExtends(k, "");
    assert k + "" == k;
  }

  lemma LeqExtends(k: string, more: string)
    ensures Leq(k, k + more)
  {
    assert k[..|k|] == (k + more)[..|k|];
    PartingUnique(k, k + more, |k|);
  }

  // ----- When equality on the key means the same key -----

  /** The key cells of the stored rows. */
  ghost predicate KeyCell(t: TableDef, c: Codec, data: Data, cell: string) {
    exists k :: && k in data && t.prefix <= k && c.decode(data[k].text).Some?
                && T.HasKey(t, c.decode(data[k].text).value) && c.decode(data[k].text).value[t.pk].value == cell
  }

  /** A stored key cell equal to the literal, by the column's comparison, is the key
      the literal is looked up by. */
  ghost predicate EqualIsSameKey(t: TableDef, c: Codec, data: Data, value: SqlValue, typ: Option<ColumnType>,
                                 cmp: Compares, floatText: string -> string) {
    forall cell: string | KeyCell(t, c, data, cell) ::
      cmp(Eq, cell, value, typ) ==> t.canon(cell) == t.canon(AsString(value, floatText))
  }

  /** A stored row that passes holds a key equal to the literal. */
  lemma PassingCell(t: TableDef, c: Codec, data: Data, table: string, e: WhereExpr, types: map<string, ColumnType>,
                    env: Q.Env, k: Key)
    requires TypedThroughout(t, c, data) && ExtractLookup(table, t.pk, e).Some?
    requires k in data && t.prefix <= k && Q.Keeps(Some(e), types, env)(c.decode(data[k].text).value)
    ensures var (column, value) := ExtractLookup(table, t.pk, e).value;
            var cell := c.decode(data[k].text).value[t.pk].value;
            value != Null && KeyCell(t, c, data, cell) && env.cmp(Eq, cell, value, R.TypeLookup(types, column))
  {
    hide NamesKey, R.RowLookup, R.TypeLookup, StoredRow, ExtractLookup, Eval;
    var (column, _) := ExtractLookup(table, t.pk, e).value;
    var row := c.decode(data[k].text).value;
    ExtractedHolds(table, t.pk, e, Q.Reads(row), Q.Types(types), env.cmp);
    KeyColumnReads(t, table, row, column);
    assert KeyCell(t, c, data, row[t.pk].value);
  }

  lemma PassesOnlyAtKey(t: TableDef, c: Codec, data: Data, table: string, e: WhereExpr,
                        types: map<string, ColumnType>, env: Q.Env, floatText: string -> string)
    requires TypedThroughout(t, c, data) && ExtractLookup(table, t.pk, e).Some?
    requires var (column, value) := ExtractLookup(table, t.pk, e).value;
             EqualIsSameKey(t, c, data, value, R.TypeLookup(types, column), env.cmp, floatText)
    ensures var (column, value) := ExtractLookup(table, t.pk, e).value;
            OnlyAt(t, c, data, Q.Keeps(Some(e), types, env), LookupKey(t, AsString(value, floatText)))
  {
    hide R.TypeLookup, AsString, StoredRow, ExtractLookup, Q.Keeps;
    var (column, value) := ExtractLookup(table, t.pk, e).value;
    var keep := Q.Keeps(Some(e), types, env);
    forall k | k in data && t.prefix <= k && c.decode(data[k].text).Some? && keep(c.decode(data[k].text).value)
      ensures k == LookupKey(t, AsString(value, floatText))
    {
      PassingCell(t, c, data, table, e, types, env, k);
    }
  }

  /** Where rows pass only at the looked-up key, filtering its range gives what
      filtering the scan gives exactly when the scan reaches the key or nothing passes. */
  lemma RangeIsScanIff(t: TableDef, c: Codec, data: Data, keep: Row -> bool, text: string,
                       keys: seq<Key>, rows: seq<Row>, allKeys: seq<Key>, all: seq<Row>)
    requires OnlyAt(t, c, data, keep, LookupKey(t, text))
    requires Reads(c, data, LookupKey(t, text), LookupKey(t, text) + [DEL], keys, rows)
    requires Reads(c, data, t.prefix, t.prefix + [DEL], allKeys, all)
    ensures Filter(keep, rows) == Filter(keep, all) <==>
              BelowDel(t.canon(text)) || Hit(c, data, LookupKey(t, text), true, keep) == []
  {
    hide InScan, Reads, BelowDel, OnlyAt;
    var k := t.canon(text);
    var key := t.prefix + k;
    assert t.prefix + "" == t.prefix && key + [DEL] == t.prefix + (k + [DEL]);
    RangeHasPrefix(t, k, k + [DEL], c, data, keys, rows);
    RangeHasPrefix(t, "", [DEL], c, data, allKeys, all);
    ReadsFilter(t, c, data, key, key + [DEL], keys, rows, keep, key);
    ReadsFilter(t, c, data, t.prefix, t.prefix + [DEL], allKeys, all, keep, key);
    KeyInRange(t.prefix, k);
  }

  /** Looking a row up by its key and filtering gives what scanning the table and
      filtering gives, exactly when the looked-up key is not above the end mark of the
      scan, or no row is stored there that passes. */
  lemma LookupIsScanIff(t: TableDef, c: Codec, data: Data, table: string, e: WhereExpr,
                        types: map<string, ColumnType>, env: Q.Env, floatText: string -> string,
                        keys: seq<Key>, rows: seq<Row>, allKeys: seq<Key>, all: seq<Row>)
    requires TypedThroughout(t, c, data) && ExtractLookup(table, t.pk, e).Some?
    requires var (column, value) := ExtractLookup(table, t.pk, e).value;
             && EqualIsSameKey(t, c, data, value, R.TypeLookup(types, column), env.cmp, floatText)
             && var key := LookupKey(t, AsString(value, floatText));
                Reads(c, data, key, key + [DEL], keys, rows)
    requires Reads(c, data, t.prefix, t.prefix + [DEL], allKeys, all)
    ensures var (_, value) := ExtractLookup(table, t.pk, e).value;
            var keep := Q.Keeps(Some(e), types, env);
            Filter(keep, rows) == Filter(keep, all) <==>
              || BelowDel(t.canon(AsString(value, floatText)))
              || Hit(c, data, LookupKey(t, AsString(value, floatText)), true, keep) == []
  {
    hide ExtractLookup, TypedThroughout, BelowDel, AsString, R.TypeLookup, Q.Keeps, Reads, OnlyAt, EqualIsSameKey;
    var (_, value) := ExtractLookup(table, t.pk, e).value;
    PassesOnlyAtKey(t, c, data, table, e, types, env, floatText);
    RangeIsScanIff(t, c, data, Q.Keeps(Some(e), types, env), AsString(value, floatText), keys, rows, allKeys, all);
  }

  /** The iterator reads only the first row of the range, the one at its least key. */
  ghost predicate FirstOf(data: Data, lo: Key, hi: Key, first: Option<Key>) {
    match first
    case None => forall k | k in data :: !InScan(k, lo, hi)
    case Some(k) => k in data && InScan(k, lo, hi) && forall x | x in data && InScan(x, lo, hi) :: Leq(k, x)
  }

  lemma LeqBoth(a: string, b: string)
    requires Leq(a, b) && Leq(b, a)
    ensures a == b
  {
    var i := Parting(a, b);
    assert PartsAt(b, a, i);
    PartingUnique(b, a, i);
    if i == |a| && i == |b| {
      assert a[..i] == a && b[..i] == b;
    }
  }

  /** That is enough: the row at the key comes first, and no other one passes. */
  lemma FirstIsEnough(t: TableDef, c: Codec, data: Data, keep: Row -> bool, text: string, first: Option<Key>)
    requires var key := LookupKey(t, text);
             TypedThroughout(t, c, data) && OnlyAt(t, c, data, keep, key) && FirstOf(data, key, key + [DEL], first)
    ensures var key := LookupKey(t, text);
            Filter(keep, if first.Some? && first.value in data && c.decode(data[first.value].text).Some?
                         then [c.decode(data[first.value].text).value] else []) == Hit(c, data, key, true, keep)
  {
    hide InScan, Leq;
    var k := t.canon(text);
    var key := t.prefix + k;
    KeyInRange(t.prefix, k);
    if first.Some? {
      var row := c.decode(data[first.value].text);
      if key in data {
        assert InScan(first.value, key, key + [DEL]) && Leq(first.value, key);
        assert Leq(key, first.value) by { ScanLow(first.value, key, key + [DEL]); }
        LeqBoth(first.value, key);
      } else {
        assert key + [DEL] == t.prefix + (k + [DEL]);
        ScanKeepsPrefix(t.prefix, k, k + [DEL], first.value);
      }
      OneRow(keep, row.value);
    }
    NoRow(keep);
  }

  lemma ScanLow(k: string, lo: string, hi: string)
    requires InScan(k, lo, hi)
    ensures Leq(lo, k)
  {
  }

  lemma OneRow(keep: Row -> bool, row: Row)
    ensures Filter(keep, [row]) == if keep(row) then [row] else []
  {
    assert [row][..0] == [];
    NoRow(keep);
  }

  lemma NoRow(keep: Row -> bool)
    ensures Filter(keep, []) == []
  {
  }

  // ----- The comparison of the code -----

  /** Equality by the declared type: numbers as 128-bit integers where both sides are,
      else as floats where `floatEq` compares them, else as text. */
  predicate EqualBy(cell: string, text: string, typ: ColumnType, floatEq: (string, string) -> Option<bool>) {
    if typ in {IntegerType, FloatType} then
      if D.ParsesAsI128(cell) && D.ParsesAsI128(text) then D.Val(cell) == D.Val(text)
      else if floatEq(cell, text).Some? then floatEq(cell, text).value
      else cell == text
    else cell == text
  }

  ghost predicate ComparesBy(cmp: Compares, floatText: string -> string, floatEq: (string, string) -> Option<bool>) {
    forall cell: string, v: SqlValue, typ: ColumnType | v != Null ::
      cmp(Eq, cell, v, Some(typ)) == EqualBy(cell, AsString(v, floatText), typ, floatEq)
  }

  /** What equals a literal: in a column compared as text, the literal's own text and
      nothing else; in a numeric one, for an integer cell, an integer literal is its
      number and a text one the number it writes. */
  lemma EqualMeans(cell: string, v: SqlValue, typ: ColumnType, floatText: string -> string,
                   floatEq: (string, string) -> Option<bool>)
    ensures var eq := EqualBy(cell, AsString(v, floatText), typ, floatEq);
            if typ !in {IntegerType, FloatType} then
              match v
              case Text(s) => eq <==> cell == s
              case Boolean(b) => eq <==> cell == if b then "true" else "false"
              case Integer(n) => eq <==> D.IntText(cell) && D.Canonical(cell) && D.Val(cell) == n
              case Float(literal) => eq <==> cell == floatText(literal)
              case Placeholder(n) => eq <==> cell != "" && cell[0] == '$' && cell[1..] == D.IntToText(n)
              case Null => true
            else
              match v
              case Integer(n) =>
                D.ParsesAsI128(cell) && -D.I128_LIMIT <= n < D.I128_LIMIT ==> (eq <==> D.Val(cell) == n)
              case Text(s) => D.ParsesAsI128(cell) && D.ParsesAsI128(s) ==> (eq <==> D.Val(cell) == D.Val(s))
              case _ => true
  {
    hide D.Val, D.IntToText, D.Nat;
    if v.Integer? && D.IntText(cell) && D.Canonical(cell) && D.Val(cell) == v.n {
      D.CanonicalUnique(cell, D.IntToText(v.n));
    }
    if v.Placeholder? && cell != "" && cell[0] == '$' {
      assert cell == "$" + cell[1..];
    }
  }

  /** For keys kept verbatim, equal is the same key, whatever is stored. */
  lemma TextKeys(t: TableDef, c: Codec, data: Data, value: SqlValue, typ: ColumnType, cmp: Compares,
                 floatText: string -> string, floatEq: (string, string) -> Option<bool>)
    requires ComparesBy(cmp, floatText, floatEq) && value != Null && typ !in {IntegerType, FloatType}
    ensures EqualIsSameKey(t, c, data, value, Some(typ), cmp, floatText)
  {
    hide AsString, KeyCell;
  }

  /** For INTEGER keys it is, when the stored keys and the literal are integers. */
  lemma IntegerKeys(t: TableDef, c: Codec, data: Data, value: SqlValue, cmp: Compares, floatText: string -> string,
                    floatEq: (string, string) -> Option<bool>)
    requires ComparesBy(cmp, floatText, floatEq) && value != Null && t.canon == T.CanonInteger
    requires D.ParsesAsI128(AsString(value, floatText))
    requires forall cell: string | KeyCell(t, c, data, cell) :: D.ParsesAsI128(cell)
    ensures EqualIsSameKey(t, c, data, value, Some(IntegerType), cmp, floatText)
  {
    hide AsString, T.CanonInteger, D.Val, D.ParsesAsI128, KeyCell;
    var text := AsString(value, floatText);
    forall cell: string | KeyCell(t, c, data, cell) && cmp(Eq, cell, value, Some(IntegerType))
      ensures t.canon(cell) == t.canon(text)
    {
      assert EqualBy(cell, text, IntegerType, floatEq);
      T.CanonIntegerIff(cell, text);
    }
  }

  // ----- INTEGER keys and literals that are no integer -----

  ghost predicate IntegerCells(t: TableDef, c: Codec, data: Data) {
    t.canon == T.CanonInteger && forall cell: string | KeyCell(t, c, data, cell) :: D.ParsesAsI128(cell)
  }

  /** Neither the empty text nor a lone sign is read as a float. */
  ghost predicate SignIsNoFloat(floatEq: (string, string) -> Option<bool>) {
    forall cell: string :: floatEq(cell, "").None? && floatEq(cell, "-").None?
  }

  lemma {:induction false} PrefixSmaller(s: string, i: nat)
    requires D.Digits(s) && i <= |s|
    ensures D.Digits(s[..i]) && D.Nat(s[..i]) <= D.Nat(s)
  {
    if i == |s| {
      assert s[..i] == s;
    } else {
      var rest := s[..|s| - 1];
      PrefixSmaller(rest, i);
      assert rest[..i] == s[..i];
    }
  }

  /** What begins a canonical integer is an integer again, but for a lone sign. */
  lemma PrefixParses(s: string, text: string)
    requires D.Canonical(s) && D.ParsesAsI128(s) && text <= s && text != "" && text != "-"
    ensures D.ParsesAsI128(text)
  {
    hide D.Nat;
    assert text == s[..|text|] && text[0] == s[0];
    if s[0] == '-' {
      assert text[1..] == s[1..][..|text| - 1];
      PrefixSmaller(s[1..], |text| - 1);
      assert text == ['-'] + text[1..];
    } else {
      assert D.IsDigit(s[0]);
      PrefixSmaller(s, |text|);
    }
  }

  /** No stored INTEGER key lies in the range of a literal that is none. */
  lemma NothingInRange(t: TableDef, c: Codec, data: Data, text: string, k: Key)
    requires TypedThroughout(t, c, data) && IntegerCells(t, c, data)
    requires !D.ParsesAsI128(text) && text != "" && text != "-" && k in data
    ensures !InScan(k, LookupKey(t, text), LookupKey(t, text) + [DEL])
  {
    hide InScan, D.IntText, D.Val, StoredRow, D.Canonical;
    var key := t.prefix + text;
    if InScan(k, key, key + [DEL]) {
      assert key + "" == key;
      ScanKeepsPrefix(key, "", [DEL], k);
      assert t.prefix <= k by { assert k[..|key|][..|t.prefix|] == t.prefix; }
      var cell := c.decode(data[k].text).value[t.pk].value;
      assert KeyCell(t, c, data, cell);
      CanonParses(cell);
      var s := T.CanonInteger(cell);
      assert k == t.prefix + s && text == k[|t.prefix|..][..|text|];
      assert s == k[|t.prefix|..];
      PrefixParses(s, text);
      assert false;
    }
  }

  lemma CanonParses(cell: string)
    requires D.ParsesAsI128(cell)
    ensures D.ParsesAsI128(T.CanonInteger(cell)) && D.Canonical(T.CanonInteger(cell))
    ensures BelowDel(T.CanonInteger(cell))
  {
    hide D.Val;
    var s := T.CanonInteger(cell);
    assert s[0] < DEL by { assert s[0] == '-' || D.Digits(s); }
  }

  /** The empty text and a lone sign equal no INTEGER key. */
  lemma SignPassesNothing(t: TableDef, c: Codec, data: Data, table: string, e: WhereExpr,
                          types: map<string, ColumnType>, env: Q.Env, floatText: string -> string,
                          floatEq: (string, string) -> Option<bool>, k: Key)
    requires TypedThroughout(t, c, data) && IntegerCells(t, c, data) && ExtractLookup(table, t.pk, e).Some?
    requires ComparesBy(env.cmp, floatText, floatEq) && SignIsNoFloat(floatEq)
    requires var (column, value) := ExtractLookup(table, t.pk, e).value;
             R.TypeLookup(types, column) == Some(IntegerType) && AsString(value, floatText) in {"", "-"}
    requires k in data && t.prefix <= k
    ensures !Q.Keeps(Some(e), types, env)(c.decode(data[k].text).value)
  {
    hide ExtractLookup, AsString, R.TypeLookup, Q.Keeps, StoredRow, D.Val;
    var (_, value) := ExtractLookup(table, t.pk, e).value;
    var cell := c.decode(data[k].text).value[t.pk].value;
    assert KeyCell(t, c, data, cell);
    assert !EqualBy(cell, AsString(value, floatText), IntegerType, floatEq);
    if Q.Keeps(Some(e), types, env)(c.decode(data[k].text).value) {
      PassingCell(t, c, data, table, e, types, env, k);
    }
  }

  /** For an INTEGER key, looking up and filtering gives what scanning and filtering
      gives exactly when the literal is an integer or no row passes; a literal that is
      none finds nothing. */
  lemma IntegerLookupIff(t: TableDef, c: Codec, data: Data, table: string, e: WhereExpr,
                         types: map<string, ColumnType>, env: Q.Env, floatText: string -> string,
                         floatEq: (string, string) -> Option<bool>,
                         keys: seq<Key>, rows: seq<Row>, allKeys: seq<Key>, all: seq<Row>)
    requires TypedThroughout(t, c, data) && IntegerCells(t, c, data) && ExtractLookup(table, t.pk, e).Some?
    requires ComparesBy(env.cmp, floatText, floatEq) && SignIsNoFloat(floatEq)
    requires var (column, value) := ExtractLookup(table, t.pk, e).value;
             && R.TypeLookup(types, column) == Some(IntegerType)
             && var key := LookupKey(t, AsString(value, floatText));
                Reads(c, data, key, key + [DEL], keys, rows)
    requires Reads(c, data, t.prefix, t.prefix + [DEL], allKeys, all)
    ensures var (_, value) := ExtractLookup(table, t.pk, e).value;
            var keep, text := Q.Keeps(Some(e), types, env), AsString(value, floatText);
            && (Filter(keep, rows) == Filter(keep, all) <==>
                  D.ParsesAsI128(text) || forall i | 0 <= i < |all| :: !keep(all[i]))
            && (!D.ParsesAsI128(text) ==> Filter(keep, rows) == [])
  {
    hide ExtractLookup, InScan, TypedThroughout, BelowDel, AsString, R.TypeLookup, Q.Keeps, ComparesBy, KeyCell,
         D.IntText, D.Val, SignIsNoFloat, Filter, T.CanonInteger;
    var (column, value) := ExtractLookup(table, t.pk, e).value;
    var keep, text := Q.Keeps(Some(e), types, env), AsString(value, floatText);
    if D.ParsesAsI128(text) {
      NullIsNoInteger(value, floatText);
      IntegerKeys(t, c, data, value, env.cmp, floatText, floatEq);
      CanonParses(text);
      LookupIsScanIff(t, c, data, table, e, types, env, floatText, keys, rows, allKeys, all);
    } else {
      LiteralFindsNothing(t, c, data, table, e, types, env, floatText, floatEq, keys, rows);
      FilterEmpty(keep, all);
    }
  }

  lemma NullIsNoInteger(value: SqlValue, floatText: string -> string)
    requires D.ParsesAsI128(AsString(value, floatText))
    ensures value != Null
  {
  }

  lemma LiteralFindsNothing(t: TableDef, c: Codec, data: Data, table: string, e: WhereExpr,
                            types: map<string, ColumnType>, env: Q.Env, floatText: string -> string,
                            floatEq: (string, string) -> Option<bool>, keys: seq<Key>, rows: seq<Row>)
    requires TypedThroughout(t, c, data) && IntegerCells(t, c, data) && ExtractLookup(table, t.pk, e).Some?
    requires ComparesBy(env.cmp, floatText, floatEq) && SignIsNoFloat(floatEq)
    requires var (column, value) := ExtractLookup(table, t.pk, e).value;
             && R.TypeLookup(types, column) == Some(IntegerType) && !D.ParsesAsI128(AsString(value, floatText))
             && var key := LookupKey(t, AsString(value, floatText));
                Reads(c, data, key, key + [DEL], keys, rows)
    ensures Filter(Q.Keeps(Some(e), types, env), rows) == []
  {
    hide ExtractLookup, InScan, TypedThroughout, AsString, R.TypeLookup, Q.Keeps, ComparesBy, D.IntText, D.Val,
         SignIsNoFloat, Filter, IntegerCells, T.CanonInteger;
    var (column, value) := ExtractLookup(table, t.pk, e).value;
    var keep, text := Q.Keeps(Some(e), types, env), AsString(value, floatText);
    var key := t.prefix + t.canon(text);
    assert key + [DEL] == t.prefix + (t.canon(text) + [DEL]);
    RangeHasPrefix(t, t.canon(text), t.canon(text) + [DEL], c, data, keys, rows);
    forall i | 0 <= i < |rows| ensures !keep(rows[i]) {
      if text in {"", "-"} {
        SignPassesNothing(t, c, data, table, e, types, env, floatText, floatEq, keys[i]);
      } else {
        NothingInRange(t, c, data, text, keys[i]);
      }
    }
    FilterEmpty(keep, rows);
  }

  /** A quoted literal that is no integer but equals a stored key as a float: the scan
      finds the row, and the lookup does not. */
  lemma FloatSpellingMisses(t: TableDef, c: Codec, data: Data, table: string, k: Key, literal: string,
                            types: map<string, ColumnType>, env: Q.Env, floatText: string -> string,
                            floatEq: (string, string) -> Option<bool>,
                            keys: seq<Key>, rows: seq<Row>, allKeys: seq<Key>, all: seq<Row>)
    requires TypedThroughout(t, c, data) && IntegerCells(t, c, data) && k in data && t.prefix <= k
    requires ComparesBy(env.cmp, floatText, floatEq) && SignIsNoFloat(floatEq)
    requires '.' !in t.pk && t.pk in types && types[t.pk] == IntegerType
    requires !D.ParsesAsI128(literal) && floatEq(c.decode(data[k].text).value[t.pk].value, literal) == Some(true)
    requires Reads(c, data, LookupKey(t, literal), LookupKey(t, literal) + [DEL], keys, rows)
    requires Reads(c, data, t.prefix, t.prefix + [DEL], allKeys, all)
    ensures var keep := Q.Keeps(Some(Comparison(t.pk, Eq, Text(literal))), types, env);
            c.decode(data[k].text).value in Filter(keep, all) && Filter(keep, rows) == []
  {
    hide InScan, D.IntText, D.Val, SplitOnce, R.EqIgnoreCase, Filter, BelowDel;
    var e := Comparison(t.pk, Eq, Text(literal));
    var keep, row := Q.Keeps(Some(e), types, env), c.decode(data[k].text).value;
    KeyNamesItself(t, table);
    assert ExtractLookup(table, t.pk, e) == Some((t.pk, Text(literal)));
    assert AsString(Text(literal), floatText) == literal;
    var cell := row[t.pk].value;
    assert KeyCell(t, c, data, cell);
    assert EqualBy(cell, AsString(Text(literal), floatText), IntegerType, floatEq);
    assert keep(row);
    CanonParses(cell);
    KeyInRange(t.prefix, T.CanonInteger(cell));
    var i :| 0 <= i < |allKeys| && allKeys[i] == k;
    KeptIsFound(keep, all, i);
    LiteralFindsNothing(t, c, data, table, e, types, env, floatText, floatEq, keys, rows);
  }

  lemma KeyNamesItself(t: TableDef, table: string)
    requires '.' !in t.pk
    ensures SplitOnce(t.pk, '.') == None && NamesKey(t.pk, table, t.pk)
  {
  }

  lemma {:induction false} KeptIsFound(keep: Row -> bool, rows: seq<Row>, i: nat)
    requires i < |rows| && keep(rows[i])
    ensures rows[i] in Filter(keep, rows)
  {
    if i < |rows| - 1 {
      KeptIsFound(keep, rows[..|rows| - 1], i);
    }
  }

  // ----- Join plans that look their tables up -----

  /** The stored tables; `known` are those with statistics, whose key the planner knows. */
  datatype Store = Store(data: Data, c: Codec, defs: map<string, TableDef>, known: set<string>)

  /** The tables a query is about are what scanning the stored rows gives. */
  ghost predicate Holds(st: Store, db: Q.Db) {
    forall name | name in db ::
      && name in st.defs && TypedThroughout(st.defs[name], st.c, st.data)
      && exists keys :: Reads(st.c, st.data, st.defs[name].prefix, st.defs[name].prefix + [DEL], keys, db[name].rows)
  }

  /** The literal a filtered scan of `name` is replaced by a lookup of. */
  function Lookup(st: Store, name: string, filter: Option<WhereExpr>): Option<(string, SqlValue)> {
    if name in st.known && name in st.defs && filter.Some?
    then ExtractLookup(name, st.defs[name].pk, filter.value) else None
  }

  /** A lookup reads the whole range of its key, or only the first row of it. */
  ghost predicate Fetches(st: Store, key: Key, rows: seq<Row>) {
    || (exists keys :: Reads(st.c, st.data, key, key + [DEL], keys, rows))
    || exists first :: FirstOf(st.data, key, key + [DEL], first) && rows == FirstRow(st, first)
  }

  ghost function FirstRow(st: Store, first: Option<Key>): seq<Row> {
    if first.Some? && first.value in st.data && st.c.decode(st.data[first.value].text).Some?
    then [st.c.decode(st.data[first.value].text).value] else []
  }

  ghost predicate Accesses(st: Store, db: Q.Db, env: Q.Env, floatText: string -> string, name: string,
                           filter: Option<WhereExpr>, rows: seq<Row>)
    requires name in db
  {
    match Lookup(st, name, filter)
    case None => rows == Filter(Q.Keeps(filter, db[name].columns, env), db[name].rows)
    case Some((_, value)) =>
      exists found :: Fetches(st, LookupKey(st.defs[name], AsString(value, floatText)), found)
          && rows == Filter(Q.Keeps(filter, db[name].columns, env), found)
  }

  /** The row sequences a plan may produce with each access path the planner chooses. */
  ghost predicate Executes(plan: Q.Plan, st: Store, db: Q.Db, env: Q.Env, floatText: string -> string,
                           rows: seq<Row>) {
    match plan
    case Scan(name, filter) => name in db && Accesses(st, db, env, floatText, name, filter, rows)
    case Join(build, probe, jt, bc, pc, bt, pt) =>
      bt in db && pt in db && exists bs, ps ::
        && Executes(build, st, db, env, floatText, bs) && Executes(probe, st, db, env, floatText, ps)
        && J.Yields(rows, multiset(J.Denoted(bs, ps, Q.KeyIn(db[bt], bc, env), Q.KeyIn(db[pt], pc, env), jt)),
                    bt + ".", pt + ".")
    case Select(child, where) =>
      exists inner :: Executes(child, st, db, env, floatText, inner)
          && rows == Filter(Q.Keeps(Some(where), Q.OutputTypes(child, db), env), inner)
  }

  ghost predicate NothingPasses(t: TableDef, c: Codec, data: Data, keep: Row -> bool) {
    forall k | k in data && t.prefix <= k && c.decode(data[k].text).Some? :: !keep(c.decode(data[k].text).value)
  }

  /** A scan that becomes a lookup has a literal that equals only its own key, or nothing
      passes; and that key is not above the end mark, or no row stored there passes. */
  ghost predicate SafeAccess(st: Store, db: Q.Db, env: Q.Env, floatText: string -> string, name: string,
                             filter: Option<WhereExpr>)
    requires name in db
  {
    match Lookup(st, name, filter)
    case None => true
    case Some((column, value)) =>
      var t, text := st.defs[name], AsString(value, floatText);
      && (EqualIsSameKey(t, st.c, st.data, value, R.TypeLookup(db[name].columns, column), env.cmp, floatText)
          || NothingPasses(t, st.c, st.data, Q.Keeps(filter, db[name].columns, env)))
      && (BelowDel(t.canon(text))
          || Hit(st.c, st.data, LookupKey(t, text), true, Q.Keeps(filter, db[name].columns, env)) == [])
  }

  ghost predicate SafeLookups(q: Q.Query, st: Store, db: Q.Db, env: Q.Env, floatText: string -> string)
    requires q.left in db && q.right in db
  {
    && SafeAccess(st, db, env, floatText, q.left, Q.LeftScan(q).filter)
    && SafeAccess(st, db, env, floatText, q.right, Q.RightScan(q).filter)
  }

  /** A safe lookup hands on what the scan it replaces would. */
  lemma SafeAccessScans(st: Store, db: Q.Db, env: Q.Env, floatText: string -> string, name: string,
                        filter: Option<WhereExpr>, rows: seq<Row>)
    requires name in db && Holds(st, db) && SafeAccess(st, db, env, floatText, name, filter)
    requires Accesses(st, db, env, floatText, name, filter, rows)
    ensures rows == Filter(Q.Keeps(filter, db[name].columns, env), db[name].rows)
  {
    hide Reads, TypedThroughout, FirstOf, EqualIsSameKey, BelowDel, Q.Keeps, AsString, R.TypeLookup, ExtractLookup,
         Hit, Filter, OnlyAt, NothingPasses;
    if Lookup(st, name, filter).Some? {
      var (column, value) := Lookup(st, name, filter).value;
      var t, e, types, all := st.defs[name], filter.value, db[name].columns, db[name].rows;
      var keep, text := Q.Keeps(filter, types, env), AsString(value, floatText);
      var key := LookupKey(t, text);
      var found :| Fetches(st, key, found) && rows == Filter(keep, found);
      var allKeys :| Reads(st.c, st.data, t.prefix, t.prefix + [DEL], allKeys, all);
      if EqualIsSameKey(t, st.c, st.data, value, R.TypeLookup(types, column), env.cmp, floatText) {
        PassesOnlyAtKey(t, st.c, st.data, name, e, types, env, floatText);
      } else {
        NothingPassesElsewhere(t, st.c, st.data, keep, key);
      }
      LookupHits(t, st.c, st.data, keep, text, allKeys, all);
      if exists keys :: Reads(st.c, st.data, key, key + [DEL], keys, found) {
        var keys :| Reads(st.c, st.data, key, key + [DEL], keys, found);
        RangeIsScanIff(t, st.c, st.data, keep, text, keys, found, allKeys, all);
      } else {
        var first :| FirstOf(st.data, key, key + [DEL], first) && found == FirstRow(st, first);
        FirstIsEnough(t, st.c, st.data, keep, text, first);
      }
    }
  }

  lemma NothingPassesElsewhere(t: TableDef, c: Codec, data: Data, keep: Row -> bool, key: Key)
    requires NothingPasses(t, c, data, keep)
    ensures OnlyAt(t, c, data, keep, key)
  {
  }

  /** What passes of a whole scan is what passes at the one key it can. */
  lemma LookupHits(t: TableDef, c: Codec, data: Data, keep: Row -> bool, text: string, allKeys: seq<Key>,
                   all: seq<Row>)
    requires OnlyAt(t, c, data, keep, LookupKey(t, text))
    requires Reads(c, data, t.prefix, t.prefix + [DEL], allKeys, all)
    ensures BelowDel(t.canon(text)) || Hit(c, data, LookupKey(t, text), true, keep) == [] ==>
              Filter(keep, all) == Hit(c, data, LookupKey(t, text), true, keep)
  {
    hide Reads, InScan, BelowDel, OnlyAt;
    assert t.prefix + "" == t.prefix;
    RangeHasPrefix(t, "", [DEL], c, data, allKeys, all);
    ReadsFilter(t, c, data, t.prefix, t.prefix + [DEL], allKeys, all, keep, LookupKey(t, text));
    KeyInRange(t.prefix, t.canon(text));
  }

  lemma JoinProduces(q: Q.Query, st: Store, db: Q.Db, env: Q.Env, floatText: string -> string,
                     estimate: Q.Plan -> nat, rows: seq<Row>)
    requires q.left in db && q.right in db && Holds(st, db) && SafeLookups(q, st, db, env, floatText)
    requires Executes(Q.PlanFrom(q, estimate), st, db, env, floatText, rows)
    ensures Q.Produces(Q.PlanFrom(q, estimate), db, env, rows)
  {
    hide Accesses, SafeAccess, Holds, J.Denoted, J.Yields, Q.Keeps, Q.Owned, Filter;
    var plan := Q.PlanFrom(q, estimate);
    var kb, kp := Q.KeyIn(db[plan.buildTable], plan.buildCol, env), Q.KeyIn(db[plan.probeTable], plan.probeCol, env);
    var bs, ps :|
      && Executes(plan.build, st, db, env, floatText, bs) && Executes(plan.probe, st, db, env, floatText, ps)
      && J.Yields(rows, multiset(J.Denoted(bs, ps, kb, kp, plan.jt)), plan.buildTable + ".", plan.probeTable + ".");
    SafeAccessScans(st, db, env, floatText, plan.build.table, plan.build.filter, bs);
    SafeAccessScans(st, db, env, floatText, plan.probe.table, plan.probe.filter, ps);
    assert Q.Produces(plan.build, db, env, bs) && Q.Produces(plan.probe, db, env, ps);
  }

  /** Also with the access paths the planner chooses, a plan's rows are those of the
      unplanned join filtered by the whole WHERE, where its lookups are safe. */
  lemma LookupPlanComputesQuery(q: Q.Query, st: Store, db: Q.Db, env: Q.Env, floatText: string -> string,
                                estimate: Q.Plan -> nat, rows: seq<Row>) returns (os: seq<P.Outcome>)
    requires Q.WellFormed(q, db) && Holds(st, db) && SafeLookups(q, st, db, env, floatText)
    requires Executes(Q.PlanSelect(q, estimate), st, db, env, floatText, rows)
    ensures |os| == |rows| && forall i | 0 <= i < |rows| :: Q.ReadsAs(q, db, rows[i], os[i])
    ensures multiset(os) == multiset(Q.Answer(q, db, env))
  {
    hide SafeLookups, Holds, Q.Keeps, Q.PlanFrom, Q.ReadsAs, Q.Answer, Filter, Q.TableOk, Q.Resolvable;
    if q.where.Some? {
      var inner :| Executes(Q.PlanFrom(q, estimate), st, db, env, floatText, inner)
                && rows == Filter(Q.Keeps(q.where, Q.OutputTypes(Q.PlanFrom(q, estimate), db), env), inner);
      JoinProduces(q, st, db, env, floatText, estimate, inner);
    } else {
      JoinProduces(q, st, db, env, floatText, estimate, rows);
    }
    assert Q.Produces(Q.PlanSelect(q, estimate), db, env, rows);
    os := Q.PlanComputesQuery(q, db, env, estimate, rows);
  }
}
