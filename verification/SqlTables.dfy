/** INSERT, UPDATE and DELETE on a typed table: every row stays at its own
    canonical primary key. */
module SqlTables {
  import opened Basics
  import opened Storage
  import opened IndexEncoding
  import opened SecondaryIndex
  import opened SqlSession
  import opened HashJoin
  import D = Decimal

  /** How rows are written as text and read back. */
  datatype Codec = Codec(encode: Row -> string, decode: string -> Option<Row>)

  ghost predicate Lawful(c: Codec) {
    forall r: Row :: c.decode(c.encode(r)) == Some(r)
  }

  /** A table's row prefix, its primary key column, and the canonical form of a
      primary key value. */
  datatype TableDef = TableDef(prefix: string, pk: string, canon: string -> string)

  ghost predicate Idempotent(canon: string -> string) {
    forall v :: canon(canon(v)) == canon(v)
  }

  /** The canonical form of an INTEGER: its number, or the text if it is none. */
  function CanonInteger(v: string): string {
    if D.ParsesAsI128(v) then D.IntToText(D.Val(v)) else v
  }

  lemma CanonIntegerIdempotent(v: string)
    ensures CanonInteger(CanonInteger(v)) == CanonInteger(v)
  {
    hide D.IntToText, D.Val, D.IntText;
  }

  /** Two integer texts share a canonical form exactly when they are one number. */
  lemma CanonIntegerIff(v: string, w: string)
    requires D.ParsesAsI128(v) && D.ParsesAsI128(w)
    ensures CanonInteger(v) == CanonInteger(w) <==> D.Val(v) == D.Val(w)
  {
    hide D.IntToText, D.IntText;
  }

  /** Canonical form does not move a key above the end mark of a table scan. */
  ghost predicate KeepsBelow(canon: string -> string) {
    forall v :: BelowDel(v) ==> BelowDel(canon(v))
  }

  lemma CanonIntegerKeepsBelow()
    ensures KeepsBelow(CanonInteger)
  {
    forall v: string | BelowDel(v) ensures BelowDel(CanonInteger(v)) {
      if D.ParsesAsI128(v) {
        var s := D.IntToText(D.Val(v));
        assert s[0] < DEL by { assert s[0] == '-' || D.Digits(s); }
      }
    }
  }

  /** TEXT and the other types keep the value as it is. */
  lemma VerbatimKeepsBelow()
    ensures KeepsBelow((v: string) => v) && Idempotent((v: string) => v)
  {
  }

  predicate HasKey(t: TableDef, r: Row) {
    t.pk in r && r[t.pk].Some?
  }

  function KeyOf(t: TableDef, r: Row): Key
    requires HasKey(t, r)
  {
    t.prefix + t.canon(r[t.pk].value)
  }

  ghost function RowAt(t: TableDef, c: Codec, data: Data, k: Key): Option<Row> {
    if k in data && InTable(t.prefix, k) then c.decode(data[k].text) else None
  }

  /** Each stored row decodes and sits at its own canonical key. */
  ghost predicate Typed(t: TableDef, c: Codec, data: Data) {
    forall k | k in data && InTable(t.prefix, k) ::
      RowAt(t, c, data, k).Some? && HasKey(t, RowAt(t, c, data, k).value) && KeyOf(t, RowAt(t, c, data, k).value) == k
  }

  /** The rows of a typed table, in some order. */
  ghost predicate IsLoad(t: TableDef, c: Codec, data: Data, rows: seq<Row>) {
    && (forall i | 0 <= i < |rows| :: HasKey(t, rows[i]) && RowAt(t, c, data, KeyOf(t, rows[i])) == Some(rows[i]))
    && (forall i, j | 0 <= i < j < |rows| :: KeyOf(t, rows[i]) != KeyOf(t, rows[j]))
    && (forall k | RowAt(t, c, data, k).Some? :: exists i :: 0 <= i < |rows| && KeyOf(t, rows[i]) == k)
  }

  datatype DmlError = MissingKey | DuplicateKey | TooLarge

  type Outcome = Result<WriteBatch, DmlError>

  // ----- INSERT -----

  predicate NonEmptyKey(t: TableDef, r: Row) {
    HasKey(t, r) && r[t.pk].value != ""
  }

  ghost predicate Keyed(t: TableDef, rows: seq<Row>) {
    forall i | 0 <= i < |rows| :: HasKey(t, rows[i])
  }

  ghost predicate Fresh(t: TableDef, rows: seq<Row>, others: seq<Row>)
    requires Keyed(t, rows) && Keyed(t, others)
  {
    && (forall i, j | 0 <= i < j < |rows| :: KeyOf(t, rows[i]) != KeyOf(t, rows[j]))
    && (forall i, j | 0 <= i < |rows| && 0 <= j < |others| :: KeyOf(t, rows[i]) != KeyOf(t, others[j]))
  }

  /** One write per row, at its key. */
  ghost predicate Writes(t: TableDef, c: Codec, rows: seq<Row>, b: WriteBatch)
    requires Keyed(t, rows)
  {
    && |b.writes| == |rows|
    && forall i | 0 <= i < |rows| :: b.writes[i] == (KeyOf(t, rows[i]), Value(c.encode(rows[i]), 0))
  }

  ghost predicate InsertResult(t: TableDef, c: Codec, loaded: seq<Row>, rows: seq<Row>, r: Outcome) {
    match r
    case Ok(b) =>
      && Keyed(t, loaded) && Keyed(t, rows) && (forall i | 0 <= i < |rows| :: NonEmptyKey(t, rows[i]))
      && Fresh(t, rows, loaded) && Writes(t, c, rows, b) && b.deletes == [] && |rows| <= MAX_OPS
    case Err(MissingKey) => !Keyed(t, loaded) || exists i :: 0 <= i < |rows| && !NonEmptyKey(t, rows[i])
    case Err(DuplicateKey) => Keyed(t, loaded) && !(Keyed(t, rows) && Fresh(t, rows, loaded))
    case Err(TooLarge) => |rows| > MAX_OPS
  }

  /** An INSERT succeeds exactly when every row has a primary key that is neither NULL nor
      empty, no two share a canonical one, none is taken, and the rows fit one batch. */
  lemma InsertSucceedsIff(t: TableDef, c: Codec, loaded: seq<Row>, rows: seq<Row>, r: Outcome)
    requires InsertResult(t, c, loaded, rows, r)
    ensures r.Ok? <==>
              && (forall i | 0 <= i < |rows| :: t.pk in rows[i] && rows[i][t.pk] != None && rows[i][t.pk] != Some(""))
              && Keyed(t, loaded) && Keyed(t, rows) && Fresh(t, rows, loaded) && |rows| <= MAX_OPS
  {
    hide KeyOf, Fresh;
    assert forall i | 0 <= i < |rows| ::
        NonEmptyKey(t, rows[i]) <==> t.pk in rows[i] && rows[i][t.pk] != None && rows[i][t.pk] != Some("");
  }

  ghost predicate Occupies(t: TableDef, rows: seq<Row>, keys: set<Key>)
    requires Keyed(t, rows)
  {
    && (forall i | 0 <= i < |rows| :: KeyOf(t, rows[i]) in keys)
    && (forall k | k in keys :: exists i :: 0 <= i < |rows| && KeyOf(t, rows[i]) == k)
  }

  method KeysOfRows(t: TableDef, rows: seq<Row>) returns (keys: Option<set<Key>>)
    ensures keys.None? <==> !Keyed(t, rows)
    ensures keys.Some? ==> Occupies(t, rows, keys.value)
  {
    var ks: set<Key> := {};
    for i := 0 to |rows|
      invariant forall j | 0 <= j < i :: HasKey(t, rows[j]) && KeyOf(t, rows[j]) in ks
      invariant forall k | k in ks :: exists j :: 0 <= j < i && HasKey(t, rows[j]) && KeyOf(t, rows[j]) == k
    {
      if !HasKey(t, rows[i]) {
        return None;
      }
      ks := ks + {KeyOf(t, rows[i])};
    }
    return Some(ks);
  }

  method ExecInsert(t: TableDef, c: Codec, loaded: seq<Row>, rows: seq<Row>) returns (r: Outcome)
    ensures InsertResult(t, c, loaded, rows, r)
  {
    hide KeyOf, Fresh, Writes, Occupies;
    var keys := KeysOfRows(t, loaded);
    if keys.None? {
      return Err(MissingKey);
    }
    var occupied, batch := keys.value, EMPTY_BATCH;
    StartUpdate(t, c, [], rows, loaded, occupied);
    for i := 0 to |rows|
      invariant Keyed(t, rows[..i]) && Fresh(t, rows[..i], loaded) && Writes(t, c, rows[..i], batch)
                && batch.deletes == [] && i <= MAX_OPS
      invariant Occupies(t, loaded + rows[..i], occupied)
      invariant forall j | 0 <= j < i :: NonEmptyKey(t, rows[j])
    {
      if !NonEmptyKey(t, rows[i]) {
        return Err(MissingKey);
      }
      var key := KeyOf(t, rows[i]);
      if key in occupied {
        TakenKey(t, loaded, rows, i, occupied);
        return Err(DuplicateKey);
      }
      FreshSnoc(t, loaded, rows, i, occupied);
      WritesLength(t, c, rows[..i], batch);
      match batch.AddSet(key, Value(c.encode(rows[i]), 0))
      case Err(_) => return Err(TooLarge);
      case Ok(b) =>
        WritesSnoc(t, c, rows, i, batch);
        occupied, batch := occupied + {key}, b;
    }
    assert rows[..|rows|] == rows;
    return Ok(batch);
  }

  lemma WritesLength(t: TableDef, c: Codec, rows: seq<Row>, b: WriteBatch)
    requires Keyed(t, rows) && Writes(t, c, rows, b)
    ensures |b.writes| == |rows|
  {
  }

  lemma TakenKey(t: TableDef, loaded: seq<Row>, rows: seq<Row>, i: nat, occupied: set<Key>)
    requires Keyed(t, loaded) && i < |rows| && Keyed(t, rows[..i]) && HasKey(t, rows[i])
    requires Occupies(t, loaded + rows[..i], occupied) && KeyOf(t, rows[i]) in occupied
    ensures !(Keyed(t, rows) && Fresh(t, rows, loaded))
  {
    var all := loaded + rows[..i];
    var j :| 0 <= j < |all| && KeyOf(t, all[j]) == KeyOf(t, rows[i]);
    if j < |loaded| {
      assert all[j] == loaded[j];
    } else {
      assert all[j] == rows[j - |loaded|];
    }
  }

  lemma FreshSnoc(t: TableDef, loaded: seq<Row>, rows: seq<Row>, i: nat, occupied: set<Key>)
    requires Keyed(t, loaded) && i < |rows| && Keyed(t, rows[..i]) && Fresh(t, rows[..i], loaded) && HasKey(t, rows[i])
    requires Occupies(t, loaded + rows[..i], occupied) && KeyOf(t, rows[i]) !in occupied
    ensures Keyed(t, rows[..i + 1]) && Fresh(t, rows[..i + 1], loaded)
    ensures Occupies(t, loaded + rows[..i + 1], occupied + {KeyOf(t, rows[i])})
  {
    hide KeyOf;
    var all := loaded + rows[..i];
    forall j | 0 <= j < |loaded| ensures KeyOf(t, loaded[j]) in occupied {
      assert all[j] == loaded[j];
    }
    forall j | 0 <= j < i ensures KeyOf(t, rows[j]) in occupied && rows[..i][j] == rows[j] {
      assert all[|loaded| + j] == rows[j];
    }
    var more := loaded + rows[..i + 1];
    assert more == all + [rows[i]];
    forall k | k in occupied + {KeyOf(t, rows[i])} ensures exists j :: 0 <= j < |more| && KeyOf(t, more[j]) == k {
      if k == KeyOf(t, rows[i]) {
        assert more[|more| - 1] == rows[i];
      } else {
        var j :| 0 <= j < |all| && KeyOf(t, all[j]) == k;
        assert more[j] == all[j];
      }
    }
  }

  lemma WritesSnoc(t: TableDef, c: Codec, rows: seq<Row>, i: nat, b: WriteBatch)
    requires i < |rows| && Keyed(t, rows[..i]) && HasKey(t, rows[i]) && Writes(t, c, rows[..i], b)
    ensures Keyed(t, rows[..i + 1])
    ensures Writes(t, c, rows[..i + 1], b.(writes := b.writes + [(KeyOf(t, rows[i]), Value(c.encode(rows[i]), 0))]))
  {
    hide KeyOf;
    assert forall j | 0 <= j < i :: rows[..i + 1][j] == rows[..i][j];
    assert rows[..i + 1][i] == rows[i];
  }

  // ----- UPDATE -----

  type Assignments = seq<(string, Option<string>)>

  function Assign(r: Row, assignments: Assignments): Row {
    if assignments == [] then r
    else
      var n := |assignments| - 1;
      Assign(r, assignments[..n])[assignments[n].0 := assignments[n].1]
  }

  function AssignAll(rows: seq<Row>, assignments: Assignments): (r: seq<Row>)
    ensures |r| == |rows|
    ensures forall i | 0 <= i < |rows| :: r[i] == Assign(rows[i], assignments)
  {
    seq(|rows|, i requires 0 <= i < |rows| => Assign(rows[i], assignments))
  }

  /** The keys of updated rows that moved. */
  ghost function MovedKeys(t: TableDef, before: seq<Row>, after: seq<Row>): seq<Key>
    requires |before| == |after| && Keyed(t, before) && Keyed(t, after)
  {
    if before == [] then []
    else
      var n := |before| - 1;
      MovedKeys(t, before[..n], after[..n])
      + (if KeyOf(t, before[n]) != KeyOf(t, after[n]) then [KeyOf(t, before[n])] else [])
  }

  function Unselected(keep: Row -> bool): Row -> bool {
    (r: Row) => !keep(r)
  }

  ghost predicate UpdateResult(t: TableDef, c: Codec, loaded: seq<Row>, keep: Row -> bool, assignments: Assignments,
                               r: Outcome) {
    var selected := Filter(keep, loaded);
    var updated := AssignAll(selected, assignments);
    match r
    case Ok(b) =>
      && Keyed(t, loaded) && Keyed(t, selected) && Keyed(t, updated) && Keyed(t, Filter(Unselected(keep), loaded))
      && Fresh(t, updated, Filter(Unselected(keep), loaded))
      && Writes(t, c, updated, b) && b.deletes == MovedKeys(t, selected, updated) && b.OpCount() <= MAX_OPS
    case Err(MissingKey) => !Keyed(t, loaded) || !Keyed(t, updated)
    case Err(DuplicateKey) =>
      !(Keyed(t, updated) && Keyed(t, Filter(Unselected(keep), loaded))
        && Fresh(t, updated, Filter(Unselected(keep), loaded)))
    case Err(TooLarge) => Keyed(t, selected) && exists n :: 0 <= n <= |selected| && Overfills(t, selected, updated, n)
  }

  /** Rewriting the first `n` rows takes more operations than a batch holds. */
  ghost predicate Overfills(t: TableDef, before: seq<Row>, after: seq<Row>, n: nat)
    requires n <= |before| == |after| && Keyed(t, before)
  {
    Keyed(t, after[..n]) && n + |MovedKeys(t, before[..n], after[..n])| > MAX_OPS
  }

  lemma {:induction false} MovedMore(t: TableDef, before: seq<Row>, after: seq<Row>, n: nat)
    requires n <= |before| == |after| && Keyed(t, before) && Keyed(t, after)
    ensures |MovedKeys(t, before[..n], after[..n])| <= |MovedKeys(t, before, after)|
  {
    hide KeyOf;
    var m := |before| - 1;
    if n <= m {
      MovedMore(t, before[..m], after[..m], n);
      assert before[..m][..n] == before[..n] && after[..m][..n] == after[..n];
    } else {
      assert before[..n] == before && after[..n] == after;
    }
  }

  /** An UPDATE succeeds exactly when every row has a key before and after, no two and no
      untouched row share one, and the rewritten rows and moved keys fit one batch. */
  lemma UpdateSucceedsIff(t: TableDef, c: Codec, loaded: seq<Row>, keep: Row -> bool, assignments: Assignments,
                          r: Outcome)
    requires UpdateResult(t, c, loaded, keep, assignments, r)
    ensures var selected, others := Filter(keep, loaded), Filter(Unselected(keep), loaded);
            var updated := AssignAll(selected, assignments);
            r.Ok? <==>
              && Keyed(t, loaded) && Keyed(t, selected) && Keyed(t, updated) && Keyed(t, others)
              && Fresh(t, updated, others) && |updated| + |MovedKeys(t, selected, updated)| <= MAX_OPS
  {
    hide KeyOf, Fresh, MovedKeys, Filter;
    var selected := Filter(keep, loaded);
    var updated := AssignAll(selected, assignments);
    if r == Err(TooLarge) && Keyed(t, updated) {
      var n :| 0 <= n <= |selected| && Overfills(t, selected, updated, n);
      MovedMore(t, selected, updated, n);
    }
  }

  lemma {:induction false} FilterKeyed(t: TableDef, keep: Row -> bool, rows: seq<Row>)
    requires Keyed(t, rows)
    ensures Keyed(t, Filter(keep, rows))
  {
    if rows != [] {
      FilterKeyed(t, keep, rows[..|rows| - 1]);
    }
  }

  ghost predicate DistinctKeys(t: TableDef, rows: seq<Row>)
    requires Keyed(t, rows)
  {
    forall i, j | 0 <= i < j < |rows| :: KeyOf(t, rows[i]) != KeyOf(t, rows[j])
  }

  lemma {:induction false} FilterMember(p: Row -> bool, rows: seq<Row>, i: nat)
    requires i < |rows| && p(rows[i])
    ensures exists j :: 0 <= j < |Filter(p, rows)| && Filter(p, rows)[j] == rows[i]
  {
    var n := |rows| - 1;
    if i < n {
      FilterMember(p, rows[..n], i);
      var j :| 0 <= j < |Filter(p, rows[..n])| && Filter(p, rows[..n])[j] == rows[..n][i];
      assert Filter(p, rows)[j] == rows[i];
    } else {
      assert Filter(p, rows)[|Filter(p, rows)| - 1] == rows[i];
    }
  }

  lemma {:induction false} FilterFrom(p: Row -> bool, rows: seq<Row>, j: nat) returns (i: nat)
    requires j < |Filter(p, rows)|
    ensures i < |rows| && rows[i] == Filter(p, rows)[j] && p(rows[i])
  {
    var n := |rows| - 1;
    if j < |Filter(p, rows[..n])| {
      i := FilterFrom(p, rows[..n], j);
    } else {
      i := n;
    }
  }

  /** Removing the keys of the selected rows leaves those of the others. */
  lemma KeysLeft(t: TableDef, loaded: seq<Row>, keep: Row -> bool, keys: set<Key>, removed: set<Key>)
    requires Keyed(t, loaded) && DistinctKeys(t, loaded) && Occupies(t, loaded, keys)
    requires Keyed(t, Filter(keep, loaded)) && Occupies(t, Filter(keep, loaded), removed)
    ensures Keyed(t, Filter(Unselected(keep), loaded)) && Occupies(t, Filter(Unselected(keep), loaded), keys - removed)
  {
    hide KeyOf, Filter;
    var others := Filter(Unselected(keep), loaded);
    FilterKeyed(t, Unselected(keep), loaded);
    forall i | 0 <= i < |others| ensures KeyOf(t, others[i]) in keys - removed {
      var a := FilterFrom(Unselected(keep), loaded, i);
      forall j | 0 <= j < |Filter(keep, loaded)| ensures KeyOf(t, Filter(keep, loaded)[j]) != KeyOf(t, loaded[a]) {
        var b := FilterFrom(keep, loaded, j);
        assert a < b || b < a;
      }
    }
    forall k | k in keys - removed ensures exists i :: 0 <= i < |others| && KeyOf(t, others[i]) == k {
      var a :| 0 <= a < |loaded| && KeyOf(t, loaded[a]) == k;
      if keep(loaded[a]) {
        FilterMember(keep, loaded, a);
      } else {
        FilterMember(Unselected(keep), loaded, a);
      }
    }
  }

  lemma MovedSnoc(t: TableDef, before: seq<Row>, after: seq<Row>, i: nat)
    requires i < |before| == |after| && Keyed(t, before) && Keyed(t, after[..i]) && HasKey(t, after[i])
    ensures Keyed(t, before[..i]) && Keyed(t, before[..i + 1]) && Keyed(t, after[..i + 1])
    ensures MovedKeys(t, before[..i + 1], after[..i + 1])
         == MovedKeys(t, before[..i], after[..i])
            + (if KeyOf(t, before[i]) != KeyOf(t, after[i]) then [KeyOf(t, before[i])] else [])
  {
    hide KeyOf;
    assert before[..i + 1][..i] == before[..i] && after[..i + 1][..i] == after[..i];
    assert forall j | 0 <= j < i :: after[..i + 1][j] == after[..i][j];
  }

  /** Rewrites the selected rows; refuses to move one onto a key of an untouched
      row or of another rewritten row. */
  method ExecUpdate(t: TableDef, c: Codec, loaded: seq<Row>, keep: Row -> bool, assignments: Assignments)
    returns (r: Outcome)
    requires Keyed(t, loaded) ==> DistinctKeys(t, loaded)
    ensures UpdateResult(t, c, loaded, keep, assignments, r)
  {
    hide KeyOf, Fresh, Writes, Occupies, MovedKeys, Filter, DistinctKeys;
    var keys := KeysOfRows(t, loaded);
    if keys.None? {
      return Err(MissingKey);
    }
    var selected := Filter(keep, loaded);
    FilterKeyed(t, keep, loaded);
    var oldKeys := KeysOfRows(t, selected);
    var available := keys.value - oldKeys.value;
    ghost var others := Filter(Unselected(keep), loaded);
    KeysLeft(t, loaded, keep, keys.value, oldKeys.value);
    var updated := AssignAll(selected, assignments);
    var batch := EMPTY_BATCH;
    StartUpdate(t, c, selected, updated, others, available);
    for i := 0 to |updated|
      invariant Keyed(t, updated[..i]) && Keyed(t, selected[..i]) && Fresh(t, updated[..i], others)
                && Writes(t, c, updated[..i], batch)
      invariant batch.deletes == MovedKeys(t, selected[..i], updated[..i]) && |batch.writes| == i
                && batch.OpCount() <= MAX_OPS
      invariant Occupies(t, others + updated[..i], available)
    {
      if !HasKey(t, updated[i]) {
        return Err(MissingKey);
      }
      var key := KeyOf(t, updated[i]);
      if key in available {
        TakenKey(t, others, updated, i, available);
        return Err(DuplicateKey);
      }
      FreshSnoc(t, others, updated, i, available);
      MovedSnoc(t, selected, updated, i);
      WritesSnoc(t, c, updated, i, batch);
      available := available + {key};
      if KeyOf(t, selected[i]) != key {
        match batch.AddDelete(KeyOf(t, selected[i]))
        case Err(_) =>
          assert Overfills(t, selected, updated, i + 1);
          return Err(TooLarge);
        case Ok(b) =>
          WritesIgnoreDeletes(t, c, updated[..i + 1], batch, b, key, c.encode(updated[i]));
          batch := b;
      }
      match batch.AddSet(key, Value(c.encode(updated[i]), 0))
      case Err(_) =>
        assert Overfills(t, selected, updated, i + 1);
        return Err(TooLarge);
      case Ok(b) => batch := b;
    }
    assert updated[..|updated|] == updated && selected[..|selected|] == selected;
    return Ok(batch);
  }

  lemma StartUpdate(t: TableDef, c: Codec, selected: seq<Row>, updated: seq<Row>, others: seq<Row>, available: set<Key>)
    requires Keyed(t, others) && Occupies(t, others, available)
    ensures Keyed(t, updated[..0]) && Fresh(t, updated[..0], others) && Writes(t, c, updated[..0], EMPTY_BATCH)
    ensures MovedKeys(t, selected[..0], updated[..0]) == [] && Occupies(t, others + updated[..0], available)
  {
    assert others + updated[..0] == others;
  }

  lemma WritesIgnoreDeletes(t: TableDef, c: Codec, rows: seq<Row>, a: WriteBatch, b: WriteBatch, key: Key, text: string)
    requires a.writes == b.writes && Keyed(t, rows)
    requires Writes(t, c, rows, a.(writes := a.writes + [(key, Value(text, 0))]))
    ensures Writes(t, c, rows, b.(writes := b.writes + [(key, Value(text, 0))]))
  {
  }

  // ----- DELETE -----

  /** A row without a primary key is looked for at the empty key. */
  function DeleteKey(t: TableDef, r: Row): Key {
    if HasKey(t, r) then KeyOf(t, r) else t.prefix + t.canon("")
  }

  ghost predicate DeleteResult(t: TableDef, loaded: seq<Row>, keep: Row -> bool, r: Outcome) {
    var selected := Filter(keep, loaded);
    match r
    case Ok(b) => b.writes == [] && |b.deletes| == |selected| <= MAX_OPS
        && forall i | 0 <= i < |selected| :: b.deletes[i] == DeleteKey(t, selected[i])
    case Err(e) => e == TooLarge && |selected| > MAX_OPS
  }

  /** A DELETE fails only on size, and deletes at the canonical form of each selected row's
      key; a row without one counts as having the empty key. */
  lemma DeletesAtKeys(t: TableDef, loaded: seq<Row>, keep: Row -> bool, r: Outcome)
    requires DeleteResult(t, loaded, keep, r)
    ensures r.Ok? <==> |Filter(keep, loaded)| <= MAX_OPS
    ensures r.Ok? ==> |r.value.deletes| == |Filter(keep, loaded)|
    ensures r.Ok? ==> forall i | 0 <= i < |r.value.deletes| ::
              var row := Filter(keep, loaded)[i];
              r.value.deletes[i] ==
                t.prefix + t.canon(match CellOf(row, t.pk) case Some(Some(v)) => v case _ => "")
  {
    hide Filter;
  }

  method ExecDelete(t: TableDef, loaded: seq<Row>, keep: Row -> bool) returns (r: Outcome)
    ensures DeleteResult(t, loaded, keep, r)
  {
    hide DeleteKey;
    var selected, batch := Filter(keep, loaded), EMPTY_BATCH;
    for i := 0 to |selected|
      invariant batch.writes == [] && |batch.deletes| == i <= MAX_OPS
      invariant forall j | 0 <= j < i :: batch.deletes[j] == DeleteKey(t, selected[j])
    {
      match batch.AddDelete(DeleteKey(t, selected[i]))
      case Err(_) => return Err(TooLarge);
      case Ok(b) => batch := b;
    }
    return Ok(batch);
  }

  // ----- What a statement leaves in the table -----

  lemma {:induction false} WriteAt(writes: seq<(Key, Value)>, i: nat)
    requires i < |writes| && forall j, k | 0 <= j < k < |writes| :: writes[j].0 != writes[k].0
    ensures LastOp(SetOps(writes), writes[i].0) == Some(Set(writes[i].0, writes[i].1))
  {
    var n := |writes| - 1;
    assert SetOps(writes)[..n] == SetOps(writes[..n]);
    if i < n {
      WriteAt(writes[..n], i);
    }
  }

  lemma WrittenRow(t: TableDef, c: Codec, data: Data, b: WriteBatch, rows: seq<Row>, i: nat)
    requires Lawful(c) && Keyed(t, rows) && DistinctKeys(t, rows) && Writes(t, c, rows, b) && i < |rows|
    requires KeyOf(t, rows[i]) !in b.deletes && InTable(t.prefix, KeyOf(t, rows[i]))
    ensures RowAt(t, c, CommitData(data, b), KeyOf(t, rows[i])) == Some(rows[i])
  {
    hide LastOp, KeyOf, CommitData, InTable;
    var k := KeyOf(t, rows[i]);
    DeletesWin(b, k);
    WriteAt(b.writes, i);
    CommitEffect(data, b, k);
  }

  lemma OtherRow(t: TableDef, c: Codec, data: Data, b: WriteBatch, rows: seq<Row>, k: Key)
    requires Keyed(t, rows) && Writes(t, c, rows, b) && forall i | 0 <= i < |rows| :: KeyOf(t, rows[i]) != k
    ensures RowAt(t, c, CommitData(data, b), k) == if k in b.deletes then None else RowAt(t, c, data, k)
    ensures k in CommitData(data, b) <==> k !in b.deletes && k in data
  {
    hide LastOp, KeyOf, CommitData, InTable;
    DeletesWin(b, k);
    LastOpOfSets(b.writes, k);
    CommitEffect(data, b, k);
  }

  /** The rows a table scan reaches. */
  function Reaches(t: TableDef): Row -> bool {
    (r: Row) => HasKey(t, r) && InTable(t.prefix, KeyOf(t, r))
  }

  ghost predicate AllReached(t: TableDef, rows: seq<Row>) {
    forall i | 0 <= i < |rows| :: Reaches(t)(rows[i])
  }

  /** Every loaded row is kept, deleted, or overwritten. */
  ghost predicate Accounted(t: TableDef, loaded: seq<Row>, kept: seq<Row>, rows: seq<Row>, deletes: seq<Key>)
    requires Keyed(t, loaded) && Keyed(t, kept) && Keyed(t, rows)
  {
    && (forall i | 0 <= i < |kept| ::
          KeyOf(t, kept[i]) !in deletes && exists j :: 0 <= j < |loaded| && loaded[j] == kept[i])
    && (forall j | 0 <= j < |loaded| ::
          || KeyOf(t, loaded[j]) in deletes
          || (exists i :: 0 <= i < |kept| && kept[i] == loaded[j])
          || (exists i :: 0 <= i < |rows| && KeyOf(t, rows[i]) == KeyOf(t, loaded[j])))
    && (forall i | 0 <= i < |rows| :: KeyOf(t, rows[i]) !in deletes)
  }

  lemma KeptRow(t: TableDef, c: Codec, data: Data, b: WriteBatch, loaded: seq<Row>, kept: seq<Row>, rows: seq<Row>,
                i: nat)
    requires Keyed(t, kept) && Keyed(t, rows) && IsLoad(t, c, data, loaded) && Keyed(t, loaded)
    requires Fresh(t, rows, kept) && Writes(t, c, rows, b) && Accounted(t, loaded, kept, rows, b.deletes) && i < |kept|
    ensures RowAt(t, c, CommitData(data, b), KeyOf(t, kept[i])) == Some(kept[i])
  {
    hide KeyOf, CommitData, InTable, RowAt, Writes;
    OtherRow(t, c, data, b, rows, KeyOf(t, kept[i]));
    var j :| 0 <= j < |loaded| && loaded[j] == kept[i];
    assert RowAt(t, c, data, KeyOf(t, loaded[j])) == Some(loaded[j]);
  }

  lemma OnlyThese(t: TableDef, c: Codec, data: Data, b: WriteBatch, loaded: seq<Row>, kept: seq<Row>, rows: seq<Row>,
                  k: Key)
    requires Keyed(t, kept) && Keyed(t, rows) && IsLoad(t, c, data, loaded) && Keyed(t, loaded)
    requires Writes(t, c, rows, b) && Accounted(t, loaded, kept, rows, b.deletes)
             && RowAt(t, c, CommitData(data, b), k).Some?
    ensures (exists i :: 0 <= i < |kept| && KeyOf(t, kept[i]) == k)
            || (exists i :: 0 <= i < |rows| && KeyOf(t, rows[i]) == k)
  {
    hide KeyOf, CommitData, InTable, RowAt, Writes;
    if forall i | 0 <= i < |rows| :: KeyOf(t, rows[i]) != k {
      OtherRow(t, c, data, b, rows, k);
      var j :| 0 <= j < |loaded| && KeyOf(t, loaded[j]) == k;
      var i :| 0 <= i < |kept| && kept[i] == loaded[j];
      assert KeyOf(t, kept[i]) == k;
    }
  }

  lemma SeenFresh(t: TableDef, kept: seq<Row>, rows: seq<Row>)
    requires Keyed(t, kept) && Keyed(t, rows) && Fresh(t, rows, kept)
    ensures Keyed(t, Filter(Reaches(t), rows)) && Fresh(t, Filter(Reaches(t), rows), kept)
  {
    hide KeyOf, Filter, InTable;
    var seen := Filter(Reaches(t), rows);
    FilterDistinct(t, Reaches(t), rows);
    forall i, j | 0 <= i < |seen| && 0 <= j < |kept| ensures KeyOf(t, seen[i]) != KeyOf(t, kept[j]) {
      var m := FilterFrom(Reaches(t), rows, i);
    }
  }

  lemma OnlySeen(t: TableDef, c: Codec, data: Data, b: WriteBatch, loaded: seq<Row>, kept: seq<Row>, rows: seq<Row>,
                 k: Key) returns (at: nat)
    requires Keyed(t, kept) && Keyed(t, rows) && IsLoad(t, c, data, loaded) && Keyed(t, loaded)
    requires Writes(t, c, rows, b) && Accounted(t, loaded, kept, rows, b.deletes)
             && RowAt(t, c, CommitData(data, b), k).Some?
    ensures var all := kept + Filter(Reaches(t), rows);
            at < |all| && HasKey(t, all[at]) && KeyOf(t, all[at]) == k
  {
    hide KeyOf, CommitData, InTable, RowAt, Writes, Filter, Accounted, IsLoad;
    var seen := Filter(Reaches(t), rows);
    OnlyThese(t, c, data, b, loaded, kept, rows, k);
    if i :| 0 <= i < |kept| && KeyOf(t, kept[i]) == k {
      at := i;
    } else {
      var i :| 0 <= i < |rows| && KeyOf(t, rows[i]) == k;
      RowInTable(t, c, CommitData(data, b), k);
      FilterMember(Reaches(t), rows, i);
      var j :| 0 <= j < |seen| && seen[j] == rows[i];
      at := |kept| + j;
    }
  }

  lemma JoinDistinct(t: TableDef, kept: seq<Row>, rows: seq<Row>)
    requires Keyed(t, kept) && Keyed(t, rows) && DistinctKeys(t, kept) && Fresh(t, rows, kept)
    ensures Keyed(t, kept + rows) && DistinctKeys(t, kept + rows)
  {
    hide KeyOf;
  }

  lemma StoredAfter(t: TableDef, c: Codec, data: Data, b: WriteBatch, loaded: seq<Row>, kept: seq<Row>, rows: seq<Row>,
                    i: nat)
    requires Lawful(c) && IsLoad(t, c, data, loaded) && Keyed(t, loaded) && Keyed(t, kept) && Keyed(t, rows)
    requires DistinctKeys(t, kept) && Fresh(t, rows, kept) && Writes(t, c, rows, b)
             && Accounted(t, loaded, kept, rows, b.deletes)
    requires i < |kept + Filter(Reaches(t), rows)|
    ensures var r := (kept + Filter(Reaches(t), rows))[i];
            HasKey(t, r) && RowAt(t, c, CommitData(data, b), KeyOf(t, r)) == Some(r)
  {
    hide KeyOf, CommitData, InTable, RowAt, Writes, Lawful, Filter, IsLoad;
    if i < |kept| {
      KeptRow(t, c, data, b, loaded, kept, rows, i);
    } else {
      var j := FilterFrom(Reaches(t), rows, i - |kept|);
      WrittenRow(t, c, data, b, rows, j);
    }
  }

  /** The table after a statement: the kept rows, and the written ones that a scan
      reaches. */
  lemma LoadAfter(t: TableDef, c: Codec, data: Data, b: WriteBatch, loaded: seq<Row>, kept: seq<Row>, rows: seq<Row>)
    requires Lawful(c) && IsLoad(t, c, data, loaded) && Keyed(t, loaded) && Keyed(t, kept) && Keyed(t, rows)
    requires DistinctKeys(t, kept) && Fresh(t, rows, kept) && Writes(t, c, rows, b)
             && Accounted(t, loaded, kept, rows, b.deletes)
    ensures IsLoad(t, c, CommitData(data, b), kept + Filter(Reaches(t), rows))
  {
    hide KeyOf, CommitData, RowAt, Writes, Lawful, Filter, Accounted, Fresh, Reaches;
    var all := kept + Filter(Reaches(t), rows);
    SeenFresh(t, kept, rows);
    JoinDistinct(t, kept, Filter(Reaches(t), rows));
    forall i | 0 <= i < |all|
      ensures HasKey(t, all[i]) && RowAt(t, c, CommitData(data, b), KeyOf(t, all[i])) == Some(all[i])
    {
      StoredAfter(t, c, data, b, loaded, kept, rows, i);
    }
    forall k | RowAt(t, c, CommitData(data, b), k).Some? ensures exists i :: 0 <= i < |all| && KeyOf(t, all[i]) == k {
      var i := OnlySeen(t, c, data, b, loaded, kept, rows, k);
    }
  }

  lemma RowInTable(t: TableDef, c: Codec, data: Data, k: Key)
    requires RowAt(t, c, data, k).Some?
    ensures InTable(t.prefix, k)
  {
  }

  lemma {:induction false} FilterReached(t: TableDef, rows: seq<Row>)
    requires AllReached(t, rows)
    ensures Filter(Reaches(t), rows) == rows
  {
    if rows != [] {
      FilterReached(t, rows[..|rows| - 1]);
    }
  }

  /** All of the written rows are there exactly when a scan reaches every one. */
  lemma AllThereIff(t: TableDef, c: Codec, data: Data, kept: seq<Row>, rows: seq<Row>)
    requires IsLoad(t, c, data, kept + Filter(Reaches(t), rows))
    ensures IsLoad(t, c, data, kept + rows) <==> AllReached(t, rows)
  {
    hide InTable, Filter, KeyOf;
    if IsLoad(t, c, data, kept + rows) {
      forall i | 0 <= i < |rows| ensures Reaches(t)(rows[i]) {
        assert (kept + rows)[|kept| + i] == rows[i];
        RowInTable(t, c, data, KeyOf(t, rows[i]));
      }
    }
    if AllReached(t, rows) {
      FilterReached(t, rows);
    }
  }

  lemma TypedAfter(t: TableDef, c: Codec, data: Data, b: WriteBatch, rows: seq<Row>, all: seq<Row>)
    requires Typed(t, c, data) && Keyed(t, rows) && Writes(t, c, rows, b) && Lawful(c) && DistinctKeys(t, rows)
    requires forall i | 0 <= i < |rows| :: KeyOf(t, rows[i]) !in b.deletes
    requires IsLoad(t, c, CommitData(data, b), all)
    ensures Typed(t, c, CommitData(data, b))
  {
    hide KeyOf, CommitData, InTable, Writes, Lawful, RowAt;
    var after := CommitData(data, b);
    forall k | k in after && InTable(t.prefix, k)
      ensures RowAt(t, c, after, k).Some? && HasKey(t, RowAt(t, c, after, k).value)
              && KeyOf(t, RowAt(t, c, after, k).value) == k
    {
      if exists i :: 0 <= i < |rows| && KeyOf(t, rows[i]) == k {
        var i :| 0 <= i < |rows| && KeyOf(t, rows[i]) == k;
        WrittenRow(t, c, data, b, rows, i);
      } else {
        OtherRow(t, c, data, b, rows, k);
      }
      var j :| 0 <= j < |all| && KeyOf(t, all[j]) == k;
    }
  }

  // ----- Statements -----

  datatype Stmt =
    | Insert(rows: seq<Row>)
    | Update(keep: Row -> bool, assignments: Assignments)
    | Delete(keep: Row -> bool)

  ghost predicate StmtResult(t: TableDef, c: Codec, loaded: seq<Row>, stmt: Stmt, r: Outcome) {
    match stmt
    case Insert(rows) => InsertResult(t, c, loaded, rows, r)
    case Update(keep, assignments) => UpdateResult(t, c, loaded, keep, assignments, r)
    case Delete(keep) => DeleteResult(t, loaded, keep, r)
  }

  /** The rows a statement leaves alone, and those it writes. */
  ghost function Kept(loaded: seq<Row>, stmt: Stmt): seq<Row> {
    if stmt.Insert? then loaded else Filter(Unselected(stmt.keep), loaded)
  }

  function Written(loaded: seq<Row>, stmt: Stmt): seq<Row> {
    match stmt
    case Insert(rows) => rows
    case Update(keep, assignments) => AssignAll(Filter(keep, loaded), assignments)
    case Delete(_) => []
  }

  /** The rows a statement is meant to leave. */
  ghost function Meant(loaded: seq<Row>, stmt: Stmt): seq<Row> {
    Kept(loaded, stmt) + Written(loaded, stmt)
  }

  /** The primary keys a statement writes are ones a table scan reaches. */
  ghost predicate WithinScan(t: TableDef, stmt: Stmt) {
    match stmt
    case Insert(rows) => forall i | 0 <= i < |rows| && HasKey(t, rows[i]) :: BelowDel(t.canon(rows[i][t.pk].value))
    case Update(_, assignments) =>
      forall i | 0 <= i < |assignments| && assignments[i].0 == t.pk && assignments[i].1.Some? ::
        BelowDel(t.canon(assignments[i].1.value))
    case Delete(_) => true
  }

  lemma InTableIff(prefix: string, pk: string)
    ensures InTable(prefix, prefix + pk) <==> BelowDel(pk)
  {
    hide Leq;
    assert prefix + "" == prefix;
    ScanWithin(prefix, "", [DEL], pk);
    EmptyLeq(pk);
  }

  /** The primary key cell after an assignment: the last one assigned, or as it was. */
  lemma {:induction false} AssignedKey(t: TableDef, assignments: Assignments) returns (which: Option<nat>)
    ensures which.Some? ==>
              && which.value < |assignments| && assignments[which.value].0 == t.pk
              && forall s: Row ::
                   t.pk in Assign(s, assignments) && Assign(s, assignments)[t.pk] == assignments[which.value].1
    ensures which.None? ==> forall s: Row :: CellOf(Assign(s, assignments), t.pk) == CellOf(s, t.pk)
  {
    if assignments == [] {
      return None;
    }
    var n := |assignments| - 1;
    if assignments[n].0 == t.pk {
      return Some(n);
    }
    which := AssignedKey(t, assignments[..n]);
  }

  function CellOf(r: Row, column: string): Option<Option<string>> {
    if column in r then Some(r[column]) else None
  }

  /** No updated row is written where another one is deleted: either no key
      moves, or at most one row is updated. */
  lemma UpdateMoves(t: TableDef, loaded: seq<Row>, keep: Row -> bool, assignments: Assignments)
    requires var selected := Filter(keep, loaded);
             var updated := AssignAll(selected, assignments);
             Keyed(t, selected) && Keyed(t, updated) && DistinctKeys(t, updated)
    ensures var selected := Filter(keep, loaded);
            var updated := AssignAll(selected, assignments);
            forall i | 0 <= i < |updated| :: KeyOf(t, updated[i]) !in MovedKeys(t, selected, updated)
  {
    hide Filter, Assign;
    var selected := Filter(keep, loaded);
    var updated := AssignAll(selected, assignments);
    var which := AssignedKey(t, assignments);
    if which.None? {
      forall i | 0 <= i < |selected| ensures KeyOf(t, updated[i]) == KeyOf(t, selected[i]) {
        assert CellOf(Assign(selected[i], assignments), t.pk) == CellOf(selected[i], t.pk);
      }
      NoneMoved(t, selected, updated);
    } else {
      assert forall i | 0 <= i < |updated| :: KeyOf(t, updated[i]) == KeyOf(t, updated[0]);
      if |updated| == 1 {
        OneMoved(t, selected, updated);
      }
    }
  }

  lemma {:induction false} NoneMoved(t: TableDef, before: seq<Row>, after: seq<Row>)
    requires |before| == |after| && Keyed(t, before) && Keyed(t, after)
    requires forall i | 0 <= i < |before| :: KeyOf(t, after[i]) == KeyOf(t, before[i])
    ensures MovedKeys(t, before, after) == []
  {
    hide KeyOf;
    if before != [] {
      NoneMoved(t, before[..|before| - 1], after[..|after| - 1]);
    }
  }

  lemma OneMoved(t: TableDef, before: seq<Row>, after: seq<Row>)
    requires |before| == |after| == 1 && Keyed(t, before) && Keyed(t, after)
    ensures KeyOf(t, after[0]) !in MovedKeys(t, before, after)
  {
    hide KeyOf;
    assert before[..0] == [] && after[..0] == [];
  }

  lemma {:induction false} MovedAre(t: TableDef, before: seq<Row>, after: seq<Row>, k: Key)
    requires |before| == |after| && Keyed(t, before) && Keyed(t, after)
    ensures k in MovedKeys(t, before, after) <==>
              exists i :: 0 <= i < |before| && KeyOf(t, before[i]) == k && KeyOf(t, after[i]) != k
  {
    hide KeyOf;
    if before != [] {
      var n := |before| - 1;
      MovedAre(t, before[..n], after[..n], k);
      assert forall i | 0 <= i < n :: before[..n][i] == before[i] && after[..n][i] == after[i];
      if k in MovedKeys(t, before[..n], after[..n]) {
        var i :| 0 <= i < n && KeyOf(t, before[..n][i]) == k && KeyOf(t, after[..n][i]) != k;
        assert KeyOf(t, before[i]) == k && KeyOf(t, after[i]) != k;
      }
    }
  }

  lemma FilterDistinct(t: TableDef, p: Row -> bool, rows: seq<Row>)
    requires Keyed(t, rows) && DistinctKeys(t, rows)
    ensures Keyed(t, Filter(p, rows)) && DistinctKeys(t, Filter(p, rows))
  {
    hide KeyOf;
    FilterKeyed(t, p, rows);
    if rows != [] {
      var n := |rows| - 1;
      FilterDistinct(t, p, rows[..n]);
      var init := Filter(p, rows[..n]);
      forall i | 0 <= i < |init| ensures KeyOf(t, init[i]) != KeyOf(t, rows[n]) {
        var a := FilterFrom(p, rows[..n], i);
        assert rows[a] == rows[..n][a];
      }
    }
  }

  lemma InsertMeans(t: TableDef, c: Codec, data: Data, loaded: seq<Row>, rows: seq<Row>, b: WriteBatch)
    requires Lawful(c) && Typed(t, c, data) && IsLoad(t, c, data, loaded)
    requires InsertResult(t, c, loaded, rows, Ok(b))
    ensures IsLoad(t, c, CommitData(data, b), loaded + Filter(Reaches(t), rows)) && Typed(t, c, CommitData(data, b))
  {
    hide CommitData, InTable, Writes, Lawful, RowAt, Filter;
    LoadAfter(t, c, data, b, loaded, loaded, rows);
    TypedAfter(t, c, data, b, rows, loaded + Filter(Reaches(t), rows));
  }

  lemma DeleteMeans(t: TableDef, c: Codec, data: Data, loaded: seq<Row>, keep: Row -> bool, b: WriteBatch)
    requires Lawful(c) && Typed(t, c, data) && IsLoad(t, c, data, loaded) && DeleteResult(t, loaded, keep, Ok(b))
    ensures IsLoad(t, c, CommitData(data, b), Filter(Unselected(keep), loaded)) && Typed(t, c, CommitData(data, b))
  {
    hide CommitData, InTable, Lawful, RowAt, KeyOf, Filter;
    var selected, kept := Filter(keep, loaded), Filter(Unselected(keep), loaded);
    FilterDistinct(t, keep, loaded);
    FilterDistinct(t, Unselected(keep), loaded);
    DeletedKeys(t, loaded, keep, b.deletes);
    LoadAfter(t, c, data, b, loaded, kept, []);
    FilterReached(t, []);
    assert kept + [] == kept;
    TypedAfter(t, c, data, b, [], kept);
  }

  lemma DeletedKeys(t: TableDef, loaded: seq<Row>, keep: Row -> bool, deletes: seq<Key>)
    requires Keyed(t, loaded) && DistinctKeys(t, loaded) && Keyed(t, Filter(keep, loaded))
             && Keyed(t, Filter(Unselected(keep), loaded))
    requires |deletes| == |Filter(keep, loaded)|
             && forall i | 0 <= i < |deletes| :: deletes[i] == KeyOf(t, Filter(keep, loaded)[i])
    ensures Accounted(t, loaded, Filter(Unselected(keep), loaded), [], deletes)
  {
    hide KeyOf, Filter;
    var selected, kept := Filter(keep, loaded), Filter(Unselected(keep), loaded);
    forall i | 0 <= i < |kept|
      ensures KeyOf(t, kept[i]) !in deletes && exists j :: 0 <= j < |loaded| && loaded[j] == kept[i]
    {
      var a := FilterFrom(Unselected(keep), loaded, i);
      forall j | 0 <= j < |selected| ensures KeyOf(t, selected[j]) != KeyOf(t, loaded[a]) {
        var e := FilterFrom(keep, loaded, j);
        assert a < e || e < a;
      }
    }
    forall j | 0 <= j < |loaded|
      ensures KeyOf(t, loaded[j]) in deletes || exists i :: 0 <= i < |kept| && kept[i] == loaded[j]
    {
      if keep(loaded[j]) {
        FilterMember(keep, loaded, j);
        var i :| 0 <= i < |selected| && selected[i] == loaded[j];
        assert deletes[i] == KeyOf(t, loaded[j]);
      } else {
        FilterMember(Unselected(keep), loaded, j);
      }
    }
  }

  lemma UpdatedKeys(t: TableDef, loaded: seq<Row>, keep: Row -> bool, updated: seq<Row>)
    requires Keyed(t, loaded) && DistinctKeys(t, loaded) && Keyed(t, Filter(keep, loaded))
             && Keyed(t, Filter(Unselected(keep), loaded))
    requires |updated| == |Filter(keep, loaded)| && Keyed(t, updated)
    requires var moved := MovedKeys(t, Filter(keep, loaded), updated);
             forall i | 0 <= i < |updated| :: KeyOf(t, updated[i]) !in moved
    ensures Accounted(t, loaded, Filter(Unselected(keep), loaded), updated, MovedKeys(t, Filter(keep, loaded), updated))
  {
    hide KeyOf, Filter, MovedKeys, InTable;
    var selected, kept := Filter(keep, loaded), Filter(Unselected(keep), loaded);
    var moved := MovedKeys(t, selected, updated);
    forall i | 0 <= i < |kept|
      ensures KeyOf(t, kept[i]) !in moved && exists j :: 0 <= j < |loaded| && loaded[j] == kept[i]
    {
      var a := FilterFrom(Unselected(keep), loaded, i);
      forall j | 0 <= j < |selected| ensures KeyOf(t, selected[j]) != KeyOf(t, loaded[a]) {
        var e := FilterFrom(keep, loaded, j);
        assert a < e || e < a;
      }
      MovedAre(t, selected, updated, KeyOf(t, kept[i]));
    }
    forall j | 0 <= j < |loaded|
      ensures || KeyOf(t, loaded[j]) in moved || (exists i :: 0 <= i < |kept| && kept[i] == loaded[j])
              || (exists i :: 0 <= i < |updated| && KeyOf(t, updated[i]) == KeyOf(t, loaded[j]))
    {
      if keep(loaded[j]) {
        FilterMember(keep, loaded, j);
        var i :| 0 <= i < |selected| && selected[i] == loaded[j];
        MovedAre(t, selected, updated, KeyOf(t, loaded[j]));
        assert KeyOf(t, updated[i]) == KeyOf(t, loaded[j]) || KeyOf(t, selected[i]) in moved;
      } else {
        FilterMember(Unselected(keep), loaded, j);
      }
    }
  }

  /** A row keeps a reachable key through an update of reachable keys. */
  lemma UpdatedInTable(t: TableDef, r: Row, assignments: Assignments, keep: Row -> bool)
    requires HasKey(t, r) && InTable(t.prefix, KeyOf(t, r)) && WithinScan(t, Update(keep, assignments))
    requires HasKey(t, Assign(r, assignments))
    ensures InTable(t.prefix, KeyOf(t, Assign(r, assignments)))
  {
    hide InTable, Assign, BelowDel;
    var which := AssignedKey(t, assignments);
    if which.Some? {
      InTableIff(t.prefix, t.canon(Assign(r, assignments)[t.pk].value));
    } else {
      assert CellOf(Assign(r, assignments), t.pk) == CellOf(r, t.pk);
    }
  }

  lemma UpdateMeans(t: TableDef, c: Codec, data: Data, loaded: seq<Row>, keep: Row -> bool, assignments: Assignments,
                    b: WriteBatch)
    requires Lawful(c) && Typed(t, c, data) && IsLoad(t, c, data, loaded)
    requires UpdateResult(t, c, loaded, keep, assignments, Ok(b))
    ensures var updated := AssignAll(Filter(keep, loaded), assignments);
            IsLoad(t, c, CommitData(data, b), Filter(Unselected(keep), loaded) + Filter(Reaches(t), updated))
            && Typed(t, c, CommitData(data, b))
  {
    hide CommitData, InTable, Lawful, RowAt, KeyOf, Filter, Writes, MovedKeys, Assign;
    var selected, kept := Filter(keep, loaded), Filter(Unselected(keep), loaded);
    var updated := AssignAll(selected, assignments);
    FilterDistinct(t, Unselected(keep), loaded);
    UpdateMoves(t, loaded, keep, assignments);
    UpdatedKeys(t, loaded, keep, updated);
    LoadAfter(t, c, data, b, loaded, kept, updated);
    TypedAfter(t, c, data, b, updated, kept + Filter(Reaches(t), updated));
  }

  lemma LoadedInTable(t: TableDef, c: Codec, data: Data, loaded: seq<Row>, i: nat)
    requires IsLoad(t, c, data, loaded) && i < |loaded|
    ensures HasKey(t, loaded[i]) && InTable(t.prefix, KeyOf(t, loaded[i]))
  {
    hide KeyOf, InTable;
    assert RowAt(t, c, data, KeyOf(t, loaded[i])) == Some(loaded[i]);
  }

  /** A statement that succeeds leaves the rows it does not touch and the written ones
      that a scan reaches, each at its own canonical key. */
  lemma StatementLeaves(t: TableDef, c: Codec, data: Data, loaded: seq<Row>, stmt: Stmt, b: WriteBatch)
    requires Lawful(c) && Typed(t, c, data) && IsLoad(t, c, data, loaded) && StmtResult(t, c, loaded, stmt, Ok(b))
    ensures IsLoad(t, c, CommitData(data, b), Kept(loaded, stmt) + Filter(Reaches(t), Written(loaded, stmt)))
    ensures Typed(t, c, CommitData(data, b))
  {
    hide InsertResult, UpdateResult, DeleteResult, IsLoad, Typed, Lawful;
    match stmt
    case Insert(rows) => InsertMeans(t, c, data, loaded, rows, b);
    case Update(keep, assignments) => UpdateMeans(t, c, data, loaded, keep, assignments, b);
    case Delete(keep) =>
      DeleteMeans(t, c, data, loaded, keep, b);
      var kept := Filter(Unselected(keep), loaded);
      assert Filter(Reaches(t), []) == [] && kept + [] == kept;
  }

  /** It leaves exactly the rows it is meant to if and only if a scan reaches every row
      it writes. */
  lemma StatementMeansIff(t: TableDef, c: Codec, data: Data, loaded: seq<Row>, stmt: Stmt, b: WriteBatch)
    requires Lawful(c) && Typed(t, c, data) && IsLoad(t, c, data, loaded) && StmtResult(t, c, loaded, stmt, Ok(b))
    ensures IsLoad(t, c, CommitData(data, b), Meant(loaded, stmt)) <==> AllReached(t, Written(loaded, stmt))
  {
    hide StmtResult, IsLoad, Typed, Lawful, CommitData, AllReached, Written, Kept, Filter;
    StatementLeaves(t, c, data, loaded, stmt, b);
    AllThereIff(t, c, CommitData(data, b), Kept(loaded, stmt), Written(loaded, stmt));
  }

  /** Which it does when the statement names no primary key above the end mark. */
  lemma WithinScanReaches(t: TableDef, c: Codec, data: Data, loaded: seq<Row>, stmt: Stmt, b: WriteBatch)
    requires IsLoad(t, c, data, loaded) && StmtResult(t, c, loaded, stmt, Ok(b)) && WithinScan(t, stmt)
    ensures AllReached(t, Written(loaded, stmt))
  {
    hide InTable, Filter, Assign, BelowDel, RowAt, Writes, MovedKeys, Fresh;
    var written := Written(loaded, stmt);
    forall i | 0 <= i < |written| ensures Reaches(t)(written[i]) {
      if stmt.Insert? {
        InTableIff(t.prefix, t.canon(written[i][t.pk].value));
      } else {
        var a := FilterFrom(stmt.keep, loaded, i);
        LoadedInTable(t, c, data, loaded, a);
        UpdatedInTable(t, loaded[a], stmt.assignments, stmt.keep);
      }
    }
  }

  // ----- Rows a scan does not reach -----

  /** What a statement does to a key above the end mark: it holds the row written there,
      if one is, whatever it held before. */
  lemma UnseenAfter(t: TableDef, c: Codec, data: Data, loaded: seq<Row>, stmt: Stmt, b: WriteBatch, k: Key)
    requires IsLoad(t, c, data, loaded) && StmtResult(t, c, loaded, stmt, Ok(b)) && !InTable(t.prefix, k)
    ensures var written, after := Written(loaded, stmt), CommitData(data, b);
            && Keyed(t, written)
            && (forall i | 0 <= i < |written| && KeyOf(t, written[i]) == k ::
                  k in after && after[k] == Value(c.encode(written[i]), 0))
            && ((forall i | 0 <= i < |written| :: KeyOf(t, written[i]) != k) ==> Get(after, k) == Get(data, k))
  {
    hide InTable, Filter, LastOp, CommitData, KeyOf, MovedKeys, RowAt, Assign;
    var written := Written(loaded, stmt);
    if stmt.Delete? {
      FilterKeyed(t, stmt.keep, loaded);
      assert Writes(t, c, written, b);
    }
    UnseenNotDeleted(t, c, data, loaded, stmt, b, k);
    DeletesWin(b, k);
    CommitEffect(data, b, k);
    forall i | 0 <= i < |written| && KeyOf(t, written[i]) == k
      ensures k in CommitData(data, b) && CommitData(data, b)[k] == Value(c.encode(written[i]), 0)
    {
      WriteAt(b.writes, i);
    }
    if forall i | 0 <= i < |written| :: KeyOf(t, written[i]) != k {
      LastOpOfSets(b.writes, k);
    }
  }

  /** A statement deletes only keys it read, which are within the scan. */
  lemma UnseenNotDeleted(t: TableDef, c: Codec, data: Data, loaded: seq<Row>, stmt: Stmt, b: WriteBatch, k: Key)
    requires IsLoad(t, c, data, loaded) && StmtResult(t, c, loaded, stmt, Ok(b)) && !InTable(t.prefix, k)
    ensures k !in b.deletes
  {
    hide InTable, Filter, KeyOf, MovedKeys, RowAt, Writes, Fresh, Assign;
    if !stmt.Insert? {
      var selected := Filter(stmt.keep, loaded);
      forall i | 0 <= i < |selected| ensures HasKey(t, selected[i]) && KeyOf(t, selected[i]) != k {
        var a := FilterFrom(stmt.keep, loaded, i);
        LoadedInTable(t, c, data, loaded, a);
      }
      if stmt.Update? {
        MovedAre(t, selected, Written(loaded, stmt), k);
      }
    }
  }

  /** INSERT of a row whose key lies above the end mark succeeds whatever is stored
      there, and replaces it. */
  lemma UnseenRowOverwritten(t: TableDef, c: Codec, data: Data, loaded: seq<Row>, row: Row, r: Outcome)
    requires IsLoad(t, c, data, loaded) && InsertResult(t, c, loaded, [row], r)
    requires NonEmptyKey(t, row) && !BelowDel(t.canon(row[t.pk].value)) && KeyOf(t, row) in data
    ensures r.Ok? && KeyOf(t, row) in CommitData(data, r.value)
    ensures CommitData(data, r.value)[KeyOf(t, row)] == Value(c.encode(row), 0)
  {
    hide InTable, BelowDel, CommitData, RowAt;
    InTableIff(t.prefix, t.canon(row[t.pk].value));
    forall j | 0 <= j < |loaded| ensures KeyOf(t, loaded[j]) != KeyOf(t, row) {
      LoadedInTable(t, c, data, loaded, j);
    }
    assert Keyed(t, [row]) && Fresh(t, [row], loaded);
    UnseenAfter(t, c, data, loaded, Insert([row]), r.value, KeyOf(t, row));
    assert Written(loaded, Insert([row]))[0] == row;
  }

  // ----- Row counts -----

  ghost function TableKeys(t: TableDef, c: Codec, data: Data): set<Key> {
    set k | k in data && RowAt(t, c, data, k).Some?
  }

  function KeySet(t: TableDef, rows: seq<Row>): set<Key>
    requires forall i | 0 <= i < |rows| :: HasKey(t, rows[i])
  {
    set i | 0 <= i < |rows| :: KeyOf(t, rows[i])
  }

  lemma KeySetSnoc(t: TableDef, rows: seq<Row>)
    requires Keyed(t, rows) && rows != []
    ensures var n := |rows| - 1; KeySet(t, rows) == KeySet(t, rows[..n]) + {KeyOf(t, rows[n])}
  {
    hide KeyOf;
    var n := |rows| - 1;
    forall k ensures k in KeySet(t, rows) <==> k in KeySet(t, rows[..n]) + {KeyOf(t, rows[n])} {
      if k in KeySet(t, rows[..n]) {
        var i :| 0 <= i < n && KeyOf(t, rows[..n][i]) == k;
        assert rows[..n][i] == rows[i];
      }
      if k in KeySet(t, rows) {
        var i :| 0 <= i < |rows| && KeyOf(t, rows[i]) == k;
        assert i < n ==> rows[..n][i] == rows[i];
      }
    }
  }

  lemma LastKeyIsNew(t: TableDef, rows: seq<Row>)
    requires Keyed(t, rows) && DistinctKeys(t, rows) && rows != []
    ensures var n := |rows| - 1; DistinctKeys(t, rows[..n]) && KeyOf(t, rows[n]) !in KeySet(t, rows[..n])
  {
    hide KeyOf;
    var init := rows[..|rows| - 1];
    assert forall i | 0 <= i < |init| :: init[i] == rows[i];
  }

  lemma {:induction false} KeySetSize(t: TableDef, rows: seq<Row>)
    requires Keyed(t, rows) && DistinctKeys(t, rows)
    ensures |KeySet(t, rows)| == |rows|
  {
    hide KeyOf, DistinctKeys;
    if rows != [] {
      hide KeySet;
      LastKeyIsNew(t, rows);
      KeySetSize(t, rows[..|rows| - 1]);
      KeySetSnoc(t, rows);
    }
  }

  /** The table holds as many rows as it loads. */
  lemma LoadSize(t: TableDef, c: Codec, data: Data, rows: seq<Row>)
    requires IsLoad(t, c, data, rows)
    ensures |TableKeys(t, c, data)| == |rows|
  {
    hide KeyOf, InTable;
    assert TableKeys(t, c, data) == KeySet(t, rows) by {
      forall k ensures k in TableKeys(t, c, data) <==> k in KeySet(t, rows) {
        if k in KeySet(t, rows) {
          var i :| 0 <= i < |rows| && KeyOf(t, rows[i]) == k;
          assert RowAt(t, c, data, KeyOf(t, rows[i])) == Some(rows[i]);
        }
      }
    }
    KeySetSize(t, rows);
  }

  lemma {:induction false} FilterSizes(keep: Row -> bool, rows: seq<Row>)
    ensures |Filter(keep, rows)| + |Filter(Unselected(keep), rows)| == |rows|
  {
    if rows != [] {
      FilterSizes(keep, rows[..|rows| - 1]);
    }
  }

  /** INSERT adds its rows, UPDATE keeps the number of rows, DELETE takes the selected
      ones; written rows count if a scan reaches them. */
  lemma StatementCounts(t: TableDef, c: Codec, data: Data, loaded: seq<Row>, stmt: Stmt, b: WriteBatch)
    requires Lawful(c) && Typed(t, c, data) && IsLoad(t, c, data, loaded) && StmtResult(t, c, loaded, stmt, Ok(b))
    ensures var unseen := |Filter(Unselected(Reaches(t)), Written(loaded, stmt))|;
            |TableKeys(t, c, CommitData(data, b))| ==
              if stmt.Insert? then |TableKeys(t, c, data)| + |stmt.rows| - unseen
              else if stmt.Update? then |TableKeys(t, c, data)| - unseen
              else |TableKeys(t, c, data)| - |Filter(stmt.keep, loaded)|
  {
    hide StmtResult, IsLoad, Typed, Lawful, CommitData, TableKeys, Reaches;
    var written := Written(loaded, stmt);
    StatementLeaves(t, c, data, loaded, stmt, b);
    LoadSize(t, c, data, loaded);
    LoadSize(t, c, CommitData(data, b), Kept(loaded, stmt) + Filter(Reaches(t), written));
    FilterSizes(Reaches(t), written);
    if !stmt.Insert? {
      FilterSizes(stmt.keep, loaded);
    }
  }

  // ----- Runs -----

  /** One autocommitted statement; if it fails the data stay as they are. */
  ghost predicate Steps(t: TableDef, c: Codec, data: Data, stmt: Stmt, after: Data) {
    exists loaded, r: Outcome ::
      && IsLoad(t, c, data, loaded) && StmtResult(t, c, loaded, stmt, r)
      && after == (if r.Ok? then CommitData(data, r.value) else data)
  }

  /** Builds a statement's batch and hands it to the session.  A statement that is
      refused touches neither the data nor what is staged. */
  method ExecStatement(s: Session, t: TableDef, c: Codec, loaded: seq<Row>, stmt: Stmt)
    returns (r: Outcome, ok: bool)
    requires s.Valid() && (Keyed(t, loaded) ==> DistinctKeys(t, loaded))
    modifies s`pending, s.db
    ensures s.Valid() && StmtResult(t, c, loaded, stmt, r)
    ensures r.Err? ==> s.pending == old(s.pending) && s.db.Contents() == old(s.db.Contents())
    ensures old(s.pending).Some? ==> s.pending.Some? && s.db.Contents() == old(s.db.Contents())
    ensures old(s.pending).Some? && r.Ok? ==>
              && s.pending.value == FoldOf(old(s.pending).value, BatchOps(r.value))
              && (ok <==> StopOf(old(s.pending).value, BatchOps(r.value)).None?)
              && (ok ==> Staged(old(s.pending).value, r.value, s.pending.value))
    ensures old(s.pending).None? && IsLoad(t, c, old(s.db.Contents()), loaded) ==>
              Steps(t, c, old(s.db.Contents()), stmt, s.db.Contents())
  {
    hide IsLoad, InsertResult, UpdateResult, DeleteResult, CommitData, Staged, FoldOf, StopOf;
    ok := false;
    match stmt {
      case Insert(rows) => r := ExecInsert(t, c, loaded, rows);
      case Update(keep, assignments) => r := ExecUpdate(t, c, loaded, keep, assignments);
      case Delete(keep) => r := ExecDelete(t, loaded, keep);
    }
    if r.Ok? {
      ok := s.StageOrCommit(r.value);
    }
  }

  ghost predicate IsRun(t: TableDef, c: Codec, states: seq<Data>, stmts: seq<Stmt>) {
    && |states| == |stmts| + 1
    && forall i | 0 <= i < |stmts| :: Steps(t, c, states[i], stmts[i], states[i + 1])
  }

  /** Over every run each row is stored at its own canonical key. */
  lemma {:induction false} RunKeepsTyped(t: TableDef, c: Codec, states: seq<Data>, stmts: seq<Stmt>, i: nat)
    requires Lawful(c) && IsRun(t, c, states, stmts) && Typed(t, c, states[0]) && i < |states|
    ensures Typed(t, c, states[i])
  {
    hide Typed, Lawful, IsLoad, StmtResult, CommitData, Kept, Written;
    if i > 0 {
      RunKeepsTyped(t, c, states, stmts, i - 1);
      var data, stmt := states[i - 1], stmts[i - 1];
      assert Steps(t, c, data, stmt, states[i - 1 + 1]);
      var loaded, r: Outcome :|
        && IsLoad(t, c, data, loaded) && StmtResult(t, c, loaded, stmt, r)
        && states[i] == (if r.Ok? then CommitData(data, r.value) else data);
      if r.Ok? {
        StatementLeaves(t, c, data, loaded, stmt, r.value);
      }
    }
  }
}
