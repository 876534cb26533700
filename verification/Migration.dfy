/** Rewriting a legacy table to the typed row format. */
module Migration {
  import opened Basics
  import opened Storage
  import Coalesce
  import opened IndexEncoding
  import opened SecondaryIndex
  import opened SqlSession
  import opened SqlTables
  import HashJoin
  import D = Decimal

  type Row = HashJoin.Row

  datatype RowFormat = LegacyFormat | TypedFormat

  datatype MigrationError = NoTable | Undecodable | Collision | BatchFull

  /** What the catalog records of a table. */
  datatype Entry = Entry(name: string, columns: seq<(string, string)>, pk: string, format: RowFormat)

  /** How entries are written as text and read back, and the lower case of names. */
  datatype CatalogCodec = CatalogCodec(encode: Entry -> string, decode: string -> Option<Entry>,
                                       lower: string -> string)

  ghost predicate LawfulCatalog(cc: CatalogCodec) {
    forall e :: cc.decode(cc.encode(e)) == Some(e)
  }

  const CATALOG_PREFIX := "\0CATALOG\0"

  function CatalogKey(cc: CatalogCodec, name: string): Key {
    CATALOG_PREFIX + cc.lower(name)
  }

  function RowPrefix(name: string): string {
    "\0T\0" + name + "\0"
  }

  /** The definition recorded for a table at a read point. */
  function EntryAt(cc: CatalogCodec, data: Data, name: string): Option<Entry> {
    if CatalogKey(cc, name) in data then cc.decode(data[CatalogKey(cc, name)].text) else None
  }

  predicate Describes(t: TableDef, e: Entry) {
    t.prefix == RowPrefix(e.name) && t.pk == e.pk
  }

  /** The catalog write that records a table as typed. */
  function TypedEntry(cc: CatalogCodec, e: Entry): (Key, Value) {
    (CatalogKey(cc, e.name), Value(cc.encode(e.(format := TypedFormat)), 0))
  }

  lemma CatalogOutsideTable(t: TableDef, cc: CatalogCodec, e: Entry)
    requires Describes(t, e)
    ensures !(t.prefix <= CatalogKey(cc, e.name))
  {
    assert t.prefix[1] == 'T' && CatalogKey(cc, e.name)[1] == 'C';
  }

  /** What a stored cell means: only a legacy row spells NULL as text. */
  function DecodeCell(v: Option<string>, format: RowFormat): Option<string> {
    if format == LegacyFormat && v == Some("NULL") then None else v
  }

  function DecodeRow(c: Codec, text: string, format: RowFormat): Option<Row> {
    match c.decode(text)
    case None => None
    case Some(raw) => Some(map k | k in raw :: DecodeCell(raw[k], format))
  }

  lemma TypedDecodesRaw(c: Codec, text: string)
    ensures DecodeRow(c, text, TypedFormat) == c.decode(text)
  {
    if c.decode(text).Some? {
      var raw := c.decode(text).value;
      assert (map k | k in raw :: DecodeCell(raw[k], TypedFormat)) == raw;
    }
  }

  /** A row with its primary key in canonical form. */
  function CanonRow(t: TableDef, r: Row): Row {
    if HasKey(t, r) then r[t.pk := Some(t.canon(r[t.pk].value))] else r
  }

  type Stored = seq<(Key, string)>

  /** The rows of the table's key range, each once. */
  ghost predicate IsScan(t: TableDef, data: Data, stored: Stored) {
    && (forall i | 0 <= i < |stored| ::
          stored[i].0 in data && InTable(t.prefix, stored[i].0) && data[stored[i].0].text == stored[i].1)
    && (forall i, j | 0 <= i < j < |stored| :: stored[i].0 != stored[j].0)
    && (forall k | k in data && InTable(t.prefix, k) :: exists i :: 0 <= i < |stored| && stored[i].0 == k)
  }

  function Suffix(t: TableDef, k: Key): string {
    if t.prefix <= k then k[|t.prefix|..] else ""
  }

  function CanonKey(t: TableDef, k: Key): Key {
    t.prefix + t.canon(Suffix(t, k))
  }

  ghost predicate Decodes(c: Codec, stored: Stored) {
    forall i | 0 <= i < |stored| :: c.decode(stored[i].1).Some?
  }

  ghost predicate Collides(t: TableDef, stored: Stored) {
    exists i, j :: 0 <= i < j < |stored| && CanonKey(t, stored[i].0) == CanonKey(t, stored[j].0)
  }

  /** The row a legacy text is rewritten to. */
  function NewRow(t: TableDef, c: Codec, text: string): Row
    requires c.decode(text).Some?
  {
    CanonRow(t, DecodeRow(c, text, LegacyFormat).value)
  }

  /** The write, if any, that a stored row needs. */
  function RowWrite(t: TableDef, c: Codec, e: (Key, string)): seq<(Key, Value)>
    requires c.decode(e.1).Some?
  {
    var typed := c.encode(NewRow(t, c, e.1));
    if CanonKey(t, e.0) != e.0 || typed != e.1 then [(CanonKey(t, e.0), Value(typed, 0))] else []
  }

  ghost function Writes(t: TableDef, c: Codec, stored: Stored): seq<(Key, Value)>
    requires Decodes(c, stored)
  {
    if stored == [] then [] else Writes(t, c, stored[..|stored| - 1]) + RowWrite(t, c, stored[|stored| - 1])
  }

  function Deletes(t: TableDef, stored: Stored): seq<Key> {
    if stored == [] then []
    else
      var n := |stored| - 1;
      Deletes(t, stored[..n]) + (if CanonKey(t, stored[n].0) != stored[n].0 then [stored[n].0] else [])
  }

  /** The operations the rows need, and one more for the catalog entry once all are in. */
  ghost predicate Overfills(t: TableDef, c: Codec, stored: Stored, n: nat)
    requires n <= |stored|
  {
    && Decodes(c, stored[..n]) && !Collides(t, stored[..n])
    && |Writes(t, c, stored[..n])| + |Deletes(t, stored[..n])| + (if n == |stored| then 1 else 0) > MAX_OPS
  }

  ghost predicate MigrationResult(t: TableDef, c: Codec, stored: Stored, entry: (Key, Value),
                                  r: Result<WriteBatch, MigrationError>) {
    match r
    case Ok(b) => Decodes(c, stored) && !Collides(t, stored)
        && b == WriteBatch(Writes(t, c, stored) + [entry], Deletes(t, stored)) && b.OpCount() <= MAX_OPS
    case Err(Undecodable) => !Decodes(c, stored)
    case Err(Collision) => Collides(t, stored)
    case Err(BatchFull) => exists n :: 0 <= n <= |stored| && Overfills(t, c, stored, n)
    case Err(NoTable) => false
  }

  /** What the migration answers for the definition it reads. */
  ghost predicate MigrationOutcome(t: TableDef, c: Codec, cc: CatalogCodec, persisted: Option<Entry>, stored: Stored,
                                   r: Result<WriteBatch, MigrationError>) {
    match persisted
    case None => r == Err(NoTable)
    case Some(e) =>
      if e.format == TypedFormat then r == Ok(EMPTY_BATCH) else MigrationResult(t, c, stored, TypedEntry(cc, e), r)
  }

  ghost predicate CanonSeen(t: TableDef, stored: Stored, seen: set<Key>) {
    && (forall i | 0 <= i < |stored| :: CanonKey(t, stored[i].0) in seen)
    && (forall k | k in seen :: exists i :: 0 <= i < |stored| && CanonKey(t, stored[i].0) == k)
  }

  /** Builds the batch that rewrites the rows and records the new format; a
      table already typed needs nothing. */
  method MigrationBatch(t: TableDef, c: Codec, cc: CatalogCodec, persisted: Option<Entry>, stored: Stored)
    returns (r: Result<WriteBatch, MigrationError>)
    ensures MigrationOutcome(t, c, cc, persisted, stored, r)
  {
    hide CanonKey, NewRow, Decodes, Collides, CanonSeen, Writes, Deletes, TypedEntry;
    if persisted.None? {
      return Err(NoTable);
    }
    if persisted.value.format == TypedFormat {
      return Ok(EMPTY_BATCH);
    }
    var batch, seen: set<Key> := EMPTY_BATCH, {};
    Start(t, c);
    assert stored[..0] == [];
    for i := 0 to |stored|
      invariant Decodes(c, stored[..i]) && !Collides(t, stored[..i]) && CanonSeen(t, stored[..i], seen)
      invariant batch == WriteBatch(Writes(t, c, stored[..i]), Deletes(t, stored[..i]))
                && batch.OpCount() <= MAX_OPS
    {
      var (key, text) := stored[i];
      if c.decode(text).None? {
        assert !Decodes(c, stored) by { NotDecoded(c, stored, i); }
        return Err(Undecodable);
      }
      var canonical := CanonKey(t, key);
      if canonical in seen {
        SeenCollides(t, stored, i, seen);
        return Err(Collision);
      }
      StepKeeps(t, c, stored, i, seen);
      StepWrites(t, c, stored, i);
      seen := seen + {canonical};
      var typed := c.encode(NewRow(t, c, text));
      if canonical != key {
        match batch.AddDelete(key)
        case Err(_) =>
          assert Overfills(t, c, stored, i + 1);
          return Err(BatchFull);
        case Ok(b) => batch := b;
      }
      if canonical != key || typed != text {
        match batch.AddSet(canonical, Value(typed, 0))
        case Err(_) =>
          assert Overfills(t, c, stored, i + 1);
          return Err(BatchFull);
        case Ok(b) => batch := b;
      }
    }
    assert stored[..|stored|] == stored;
    var (catKey, catValue) := TypedEntry(cc, persisted.value);
    match batch.AddSet(catKey, catValue)
    case Err(_) =>
      assert Overfills(t, c, stored, |stored|);
      return Err(BatchFull);
    case Ok(b) => return Ok(b);
  }

  lemma {:induction false} NeedsMore(t: TableDef, c: Codec, stored: Stored, n: nat)
    requires n <= |stored| && Decodes(c, stored)
    ensures Decodes(c, stored[..n]) && |Writes(t, c, stored[..n])| <= |Writes(t, c, stored)|
    ensures |Deletes(t, stored[..n])| <= |Deletes(t, stored)|
  {
    hide CanonKey, RowWrite;
    var m := |stored| - 1;
    if n <= m {
      NeedsMore(t, c, stored[..m], n);
      assert stored[..m][..n] == stored[..n];
    } else {
      assert stored[..n] == stored;
    }
  }

  /** A legacy table migrates exactly when every row decodes, no two keys share a
      canonical form, and the operations fit one batch. */
  lemma MigratesIff(t: TableDef, c: Codec, stored: Stored, entry: (Key, Value), r: Result<WriteBatch, MigrationError>)
    requires MigrationResult(t, c, stored, entry, r)
    ensures r.Ok? <==>
              && Decodes(c, stored) && !Collides(t, stored)
              && |Writes(t, c, stored)| + |Deletes(t, stored)| + 1 <= MAX_OPS
  {
    hide Writes, Deletes, Collides, Decodes;
    if r == Err(BatchFull) && Decodes(c, stored) {
      var n :| 0 <= n <= |stored| && Overfills(t, c, stored, n);
      NeedsMore(t, c, stored, n);
    }
  }

  lemma SeenCollides(t: TableDef, stored: Stored, i: nat, seen: set<Key>)
    requires i < |stored| && CanonSeen(t, stored[..i], seen) && CanonKey(t, stored[i].0) in seen
    ensures Collides(t, stored)
  {
    hide CanonKey;
    var j :| 0 <= j < i && CanonKey(t, stored[..i][j].0) == CanonKey(t, stored[i].0);
    assert stored[..i][j] == stored[j];
  }

  lemma Start(t: TableDef, c: Codec)
    ensures Decodes(c, []) && !Collides(t, []) && CanonSeen(t, [], {}) && Writes(t, c, []) == [] && Deletes(t, []) == []
  {
  }

  lemma NotDecoded(c: Codec, stored: Stored, i: nat)
    requires i < |stored| && c.decode(stored[i].1).None?
    ensures !Decodes(c, stored)
  {
  }

  lemma StepKeeps(t: TableDef, c: Codec, stored: Stored, i: nat, seen: set<Key>)
    requires i < |stored| && Decodes(c, stored[..i]) && !Collides(t, stored[..i]) && CanonSeen(t, stored[..i], seen)
    requires c.decode(stored[i].1).Some? && CanonKey(t, stored[i].0) !in seen
    ensures Decodes(c, stored[..i + 1]) && !Collides(t, stored[..i + 1])
    ensures CanonSeen(t, stored[..i + 1], seen + {CanonKey(t, stored[i].0)})
  {
    hide CanonKey;
    var init, more := stored[..i], stored[..i + 1];
    assert forall j | 0 <= j < i :: more[j] == init[j];
    assert more[i] == stored[i];
    var now := seen + {CanonKey(t, stored[i].0)};
    forall k | k in now ensures exists j :: 0 <= j < |more| && CanonKey(t, more[j].0) == k {
      if k == CanonKey(t, stored[i].0) {
        assert CanonKey(t, more[i].0) == k;
      } else {
        var j :| 0 <= j < |init| && CanonKey(t, init[j].0) == k;
        assert CanonKey(t, more[j].0) == k;
      }
    }
  }

  lemma StepWrites(t: TableDef, c: Codec, stored: Stored, i: nat)
    requires i < |stored| && Decodes(c, stored[..i]) && Decodes(c, stored[..i + 1]) && c.decode(stored[i].1).Some?
    ensures Writes(t, c, stored[..i + 1]) == Writes(t, c, stored[..i]) + RowWrite(t, c, stored[i])
    ensures Deletes(t, stored[..i + 1])
            == Deletes(t, stored[..i]) + (if CanonKey(t, stored[i].0) != stored[i].0 then [stored[i].0] else [])
  {
    hide CanonKey, RowWrite;
    assert stored[..i + 1][..i] == stored[..i];
  }

  // ----- What committing it does -----

  /** A canonical key is never one the migration deletes. */
  lemma CanonNotDeleted(t: TableDef, stored: Stored, i: nat)
    requires Idempotent(t.canon) && i < |stored|
    ensures CanonKey(t, stored[i].0) !in Deletes(t, stored)
  {
    forall k | k in Deletes(t, stored) ensures k != CanonKey(t, stored[i].0) {
      DeletedMoves(t, stored, k);
      var s := Suffix(t, stored[i].0);
      assert Suffix(t, t.prefix + t.canon(s)) == t.canon(s);
      assert t.canon(t.canon(s)) == t.canon(s);
    }
  }

  lemma {:induction false} DeletedMoves(t: TableDef, stored: Stored, k: Key)
    ensures k in Deletes(t, stored) <==> exists i :: 0 <= i < |stored| && stored[i].0 == k && CanonKey(t, k) != k
  {
    hide CanonKey;
    if stored != [] {
      var n := |stored| - 1;
      DeletedMoves(t, stored[..n], k);
      assert forall i | 0 <= i < n :: stored[..n][i] == stored[i];
      if k in Deletes(t, stored[..n]) {
        var i :| 0 <= i < n && stored[..n][i].0 == k && CanonKey(t, k) != k;
        assert stored[i].0 == k;
      }
    }
  }

  lemma {:induction false} WritesAt(t: TableDef, c: Codec, stored: Stored, i: nat)
    requires Decodes(c, stored) && !Collides(t, stored) && i < |stored|
    ensures LastOp(SetOps(Writes(t, c, stored)), CanonKey(t, stored[i].0))
         == if RowWrite(t, c, stored[i]) == [] then None
            else Some(Set(CanonKey(t, stored[i].0), Value(c.encode(NewRow(t, c, stored[i].1)), 0)))
  {
    hide CanonKey, NewRow, RowWrite;
    var n := |stored| - 1;
    var k := CanonKey(t, stored[i].0);
    ShorterFine(t, c, stored);
    RowWriteAt(t, c, stored[n], k);
    WritesSplit(t, c, stored, k);
    if i < n {
      WritesAt(t, c, stored[..n], i);
    } else {
      forall j | 0 <= j < n ensures CanonKey(t, stored[..n][j].0) != k {
        assert stored[..n][j] == stored[j];
      }
      NoWriteAt(t, c, stored[..n], k);
    }
  }

  lemma ShorterFine(t: TableDef, c: Codec, stored: Stored)
    requires Decodes(c, stored) && !Collides(t, stored) && stored != []
    ensures Decodes(c, stored[..|stored| - 1]) && !Collides(t, stored[..|stored| - 1])
    ensures forall j | 0 <= j < |stored| - 1 :: CanonKey(t, stored[j].0) != CanonKey(t, stored[|stored| - 1].0)
  {
    hide CanonKey;
    var init := stored[..|stored| - 1];
    assert forall j | 0 <= j < |init| :: init[j] == stored[j];
  }

  lemma WritesSplit(t: TableDef, c: Codec, stored: Stored, k: Key)
    requires Decodes(c, stored) && stored != []
    ensures var n := |stored| - 1;
            var last := LastOp(SetOps(RowWrite(t, c, stored[n])), k);
            LastOp(SetOps(Writes(t, c, stored)), k)
            == if last.Some? then last else LastOp(SetOps(Writes(t, c, stored[..n])), k)
  {
    hide RowWrite, LastOp;
    var n := |stored| - 1;
    var a, b := Writes(t, c, stored[..n]), RowWrite(t, c, stored[n]);
    assert SetOps(a + b) == SetOps(a) + SetOps(b);
    LastOpConcat(SetOps(a), SetOps(b), k);
  }

  lemma RowWriteAt(t: TableDef, c: Codec, e: (Key, string), k: Key)
    requires c.decode(e.1).Some?
    ensures LastOp(SetOps(RowWrite(t, c, e)), k)
         == if k == CanonKey(t, e.0) && RowWrite(t, c, e) != []
            then Some(Set(k, Value(c.encode(NewRow(t, c, e.1)), 0))) else None
  {
    hide CanonKey, NewRow;
    var ops := SetOps(RowWrite(t, c, e));
    if ops != [] {
      assert ops[..0] == [];
    }
  }

  lemma {:induction false} NoWriteAt(t: TableDef, c: Codec, stored: Stored, k: Key)
    requires Decodes(c, stored) && forall i | 0 <= i < |stored| :: CanonKey(t, stored[i].0) != k
    ensures LastOp(SetOps(Writes(t, c, stored)), k) == None
  {
    hide CanonKey, NewRow, RowWrite;
    if stored != [] {
      var n := |stored| - 1;
      RowWriteAt(t, c, stored[n], k);
      WritesSplit(t, c, stored, k);
      NoWriteAt(t, c, stored[..n], k);
    }
  }

  /** What the whole batch does to a key of the table. */
  lemma BatchAt(t: TableDef, c: Codec, stored: Stored, entry: (Key, Value), k: Key)
    requires Decodes(c, stored) && k != entry.0
    ensures Effect(WriteBatch(Writes(t, c, stored) + [entry], Deletes(t, stored)), k)
         == if k in Deletes(t, stored) then Some(Del(k)) else LastOp(SetOps(Writes(t, c, stored)), k)
  {
    hide LastOp, CanonKey;
    var b := WriteBatch(Writes(t, c, stored) + [entry], Deletes(t, stored));
    DeletesWin(b, k);
    SetOpsSnoc(Writes(t, c, stored), entry.0, entry.1, k);
  }

  /** Each legacy row is found, decoded as typed, at its canonical key. */
  lemma RowMigrates(t: TableDef, c: Codec, data: Data, stored: Stored, entry: (Key, Value), b: WriteBatch, i: nat)
    requires Lawful(c) && Idempotent(t.canon) && IsScan(t, data, stored) && MigrationResult(t, c, stored, entry, Ok(b))
    requires i < |stored| && entry.0 != CanonKey(t, stored[i].0)
    ensures var k := CanonKey(t, stored[i].0);
            var after := CommitData(data, b);
            k in after && DecodeRow(c, after[k].text, TypedFormat) == Some(NewRow(t, c, stored[i].1))
  {
    hide CanonKey, NewRow, CommitData, LastOp, InTable, Effect, Deletes, Idempotent;
    var k := CanonKey(t, stored[i].0);
    CanonNotDeleted(t, stored, i);
    WritesAt(t, c, stored, i);
    BatchAt(t, c, stored, entry, k);
    CommitEffect(data, b, k);
    TypedDecodesRaw(c, CommitData(data, b)[k].text);
  }

  /** Nothing else is left in the table's range. */
  lemma NothingElse(t: TableDef, c: Codec, data: Data, stored: Stored, entry: (Key, Value), b: WriteBatch, k: Key)
    requires IsScan(t, data, stored) && MigrationResult(t, c, stored, entry, Ok(b)) && k != entry.0
    requires k in CommitData(data, b) && InTable(t.prefix, k)
    ensures exists i :: 0 <= i < |stored| && CanonKey(t, stored[i].0) == k
  {
    hide CanonKey, NewRow, CommitData, LastOp, InTable, Effect, Deletes;
    if forall i | 0 <= i < |stored| :: CanonKey(t, stored[i].0) != k {
      NoWriteAt(t, c, stored, k);
      BatchAt(t, c, stored, entry, k);
      CommitEffect(data, b, k);
      DeletedMoves(t, stored, k);
    }
  }

  /** The rows of a table after migration: each legacy row at its canonical key,
      read as typed. */
  ghost predicate IsMigrated(t: TableDef, c: Codec, stored: Stored, now: Stored)
    requires Decodes(c, stored)
  {
    && |now| == |stored|
    && forall i | 0 <= i < |stored| ::
         now[i].0 == CanonKey(t, stored[i].0) && DecodeRow(c, now[i].1, TypedFormat) == Some(NewRow(t, c, stored[i].1))
  }

  lemma CanonInTable(t: TableDef, data: Data, stored: Stored, i: nat)
    requires KeepsBelow(t.canon) && IsScan(t, data, stored) && i < |stored|
    ensures InTable(t.prefix, CanonKey(t, stored[i].0))
  {
    hide InTable, BelowDel;
    var k := stored[i].0;
    PrefixOfTable(t.prefix, k);
    var s := Suffix(t, k);
    assert k == t.prefix + s;
    InTableIff(t.prefix, s);
    InTableIff(t.prefix, t.canon(s));
    assert BelowDel(s) ==> BelowDel(t.canon(s));
  }

  /** A legacy row's cells as typed ones: the text NULL becomes the SQL NULL, a key its
      canonical text, and every other cell stays. */
  ghost predicate CellsMigrate(t: TableDef, raw: Row, row: Row) {
    && row.Keys == raw.Keys
    && forall column | column in raw ::
         row[column] == if raw[column].None? || raw[column] == Some("NULL") then None
                        else if column == t.pk then Some(t.canon(raw[column].value)) else raw[column]
  }

  lemma NewRowCells(t: TableDef, c: Codec, text: string)
    requires c.decode(text).Some?
    ensures CellsMigrate(t, c.decode(text).value, NewRow(t, c, text))
  {
  }

  /** Migration keeps the table: a scan afterwards finds the legacy rows with
      canonical primary keys, one for one, cell by cell, and nothing else. */
  lemma MigrationKeepsTable(t: TableDef, c: Codec, cc: CatalogCodec, e: Entry, data: Data, stored: Stored,
                            b: WriteBatch)
    returns (now: Stored)
    requires Lawful(c) && Idempotent(t.canon) && KeepsBelow(t.canon) && Describes(t, e) && IsScan(t, data, stored)
    requires e.format == LegacyFormat && MigrationOutcome(t, c, cc, Some(e), stored, Ok(b))
    ensures Decodes(c, stored) && IsMigrated(t, c, stored, now) && IsScan(t, CommitData(data, b), now)
    ensures forall i | 0 <= i < |stored| :: c.decode(now[i].1).Some?
              && CellsMigrate(t, c.decode(stored[i].1).value, c.decode(now[i].1).value)
  {
    hide CommitData, InTable, NewRow, DecodeRow, Lawful, Idempotent, IsScan, CanonKey, KeepsBelow, TypedEntry,
         CellsMigrate;
    var after, entry := CommitData(data, b), TypedEntry(cc, e);
    assert !(t.prefix <= entry.0) by { EntryOutsideTable(t, cc, e); }
    forall i | 0 <= i < |stored|
      ensures CanonKey(t, stored[i].0) in after && InTable(t.prefix, CanonKey(t, stored[i].0))
      ensures DecodeRow(c, after[CanonKey(t, stored[i].0)].text, TypedFormat) == Some(NewRow(t, c, stored[i].1))
    {
      CanonHasPrefix(t, stored[i].0);
      RowMigrates(t, c, data, stored, entry, b, i);
      CanonInTable(t, data, stored, i);
    }
    now := seq(|stored|, i requires 0 <= i < |stored| =>
               (CanonKey(t, stored[i].0), after[CanonKey(t, stored[i].0)].text));
    forall k | k in after && InTable(t.prefix, k) ensures exists i :: 0 <= i < |now| && now[i].0 == k {
      PrefixOfTable(t.prefix, k);
      NothingElse(t, c, data, stored, entry, b, k);
      var i :| 0 <= i < |stored| && CanonKey(t, stored[i].0) == k;
      assert now[i].0 == k;
    }
    assert IsScan(t, after, now) by { ScanOf(t, after, now); }
    forall i | 0 <= i < |stored|
      ensures c.decode(now[i].1).Some? && CellsMigrate(t, c.decode(stored[i].1).value, c.decode(now[i].1).value)
    {
      TypedDecodesRaw(c, now[i].1);
      NewRowCells(t, c, stored[i].1);
    }
  }

  lemma ScanOf(t: TableDef, data: Data, now: Stored)
    requires forall i | 0 <= i < |now| ::
               now[i].0 in data && InTable(t.prefix, now[i].0) && data[now[i].0].text == now[i].1
    requires forall i, j | 0 <= i < j < |now| :: now[i].0 != now[j].0
    requires forall k | k in data && InTable(t.prefix, k) :: exists i :: 0 <= i < |now| && now[i].0 == k
    ensures IsScan(t, data, now)
  {
    hide InTable;
  }

  lemma CanonHasPrefix(t: TableDef, k: Key)
    ensures t.prefix <= CanonKey(t, k)
  {
  }

  lemma EntryOutsideTable(t: TableDef, cc: CatalogCodec, e: Entry)
    requires Describes(t, e)
    ensures !(t.prefix <= TypedEntry(cc, e).0)
  {
    CatalogOutsideTable(t, cc, e);
  }

  /** The committed migration is what the next one reads: the catalog then says
      typed, and migrating again changes nothing. */
  lemma SecondMigrationIsEmpty(t: TableDef, c: Codec, cc: CatalogCodec, e: Entry, data: Data, stored: Stored,
                               b: WriteBatch, stored': Stored, r: Result<WriteBatch, MigrationError>)
    requires LawfulCatalog(cc) && Describes(t, e) && IsScan(t, data, stored)
    requires e.format == LegacyFormat && MigrationOutcome(t, c, cc, Some(e), stored, Ok(b))
    requires MigrationOutcome(t, c, cc, EntryAt(cc, CommitData(data, b), e.name), stored', r)
    ensures EntryAt(cc, CommitData(data, b), e.name) == Some(e.(format := TypedFormat))
    ensures r == Ok(EMPTY_BATCH) && CommitData(CommitData(data, b), EMPTY_BATCH) == CommitData(data, b)
  {
    hide CommitData, InTable, Effect, Deletes, Writes, MigrationResult, IsScan, LastOp;
    var entry := TypedEntry(cc, e);
    assert b == WriteBatch(Writes(t, c, stored) + [entry], Deletes(t, stored)) && Decodes(c, stored) by {
      BatchOf(t, c, stored, entry, b);
    }
    EntryNotDeleted(t, cc, e, data, stored);
    assert Effect(b, entry.0) == Some(Set(entry.0, entry.1)) by {
      LastWriteWins(Writes(t, c, stored), entry, b.deletes);
    }
    CommitEffect(data, b, entry.0);
    NothingCommitted(CommitData(data, b));
    assert cc.decode(cc.encode(e.(format := TypedFormat))) == Some(e.(format := TypedFormat));
  }

  lemma BatchOf(t: TableDef, c: Codec, stored: Stored, entry: (Key, Value), b: WriteBatch)
    requires MigrationResult(t, c, stored, entry, Ok(b))
    ensures Decodes(c, stored) && b == WriteBatch(Writes(t, c, stored) + [entry], Deletes(t, stored))
  {
  }

  lemma EntryNotDeleted(t: TableDef, cc: CatalogCodec, e: Entry, data: Data, stored: Stored)
    requires Describes(t, e) && IsScan(t, data, stored)
    ensures CatalogKey(cc, e.name) !in Deletes(t, stored)
  {
    hide InTable, CanonKey, Deletes;
    var k := CatalogKey(cc, e.name);
    DeletedMoves(t, stored, k);
    CatalogOutsideTable(t, cc, e);
    forall i | 0 <= i < |stored| ensures stored[i].0 != k {
      PrefixOfTable(t.prefix, stored[i].0);
    }
  }

  lemma LastWriteWins(writes: seq<(Key, Value)>, entry: (Key, Value), deletes: seq<Key>)
    requires entry.0 !in deletes
    ensures Effect(WriteBatch(writes + [entry], deletes), entry.0) == Some(Set(entry.0, entry.1))
  {
    hide LastOp;
    DeletesWin(WriteBatch(writes + [entry], deletes), entry.0);
    assert entry == (entry.0, entry.1);
    SetOpsSnoc(writes, entry.0, entry.1, entry.0);
  }

  lemma PrefixOfTable(prefix: string, k: Key)
    requires InTable(prefix, k)
    ensures prefix <= k
  {
    assert prefix + "" == prefix;
    ScanKeepsPrefix(prefix, "", [DEL], k);
  }

  /** A legacy table keyed by its own primary keys becomes a typed table. */
  lemma MigrationMakesTyped(t: TableDef, c: Codec, cc: CatalogCodec, e: Entry, data: Data, stored: Stored,
                            b: WriteBatch)
    requires Lawful(c) && Idempotent(t.canon) && KeepsBelow(t.canon) && Describes(t, e) && IsScan(t, data, stored)
    requires e.format == LegacyFormat && MigrationOutcome(t, c, cc, Some(e), stored, Ok(b))
    requires forall i | 0 <= i < |stored| ::
               var row := DecodeRow(c, stored[i].1, LegacyFormat).value;
               HasKey(t, row) && row[t.pk].value == Suffix(t, stored[i].0)
    ensures Typed(t, c, CommitData(data, b))
  {
    hide CommitData, InTable, Lawful, KeepsBelow, MigrationOutcome;
    var now := MigrationKeepsTable(t, c, cc, e, data, stored, b);
    var after := CommitData(data, b);
    forall k | k in after && InTable(t.prefix, k)
      ensures RowAt(t, c, after, k).Some? && HasKey(t, RowAt(t, c, after, k).value)
      ensures KeyOf(t, RowAt(t, c, after, k).value) == k
    {
      var i :| 0 <= i < |now| && now[i].0 == k;
      TypedDecodesRaw(c, after[k].text);
      var s := Suffix(t, stored[i].0);
      assert NewRow(t, c, stored[i].1)[t.pk] == Some(t.canon(s));
      assert t.canon(t.canon(s)) == t.canon(s);
    }
  }

  // ----- A statement on a legacy table -----

  /** The rows as the legacy format reads them. */
  function LegacyRows(c: Codec, stored: Stored): (rows: seq<Row>)
    requires Decodes(c, stored)
    ensures |rows| == |stored| && forall i | 0 <= i < |rows| :: rows[i] == DecodeRow(c, stored[i].1, LegacyFormat).value
  {
    seq(|stored|, i requires 0 <= i < |stored| => DecodeRow(c, stored[i].1, LegacyFormat).value)
  }

  function CanonRows(t: TableDef, rows: seq<Row>): (r: seq<Row>)
    ensures |r| == |rows| && forall i | 0 <= i < |r| :: r[i] == CanonRow(t, rows[i])
  {
    seq(|rows|, i requires 0 <= i < |rows| => CanonRow(t, rows[i]))
  }

  /** Each row is stored under its own primary key. */
  ghost predicate OwnKeys(t: TableDef, c: Codec, stored: Stored)
    requires Decodes(c, stored)
  {
    forall i | 0 <= i < |stored| ::
      HasKey(t, LegacyRows(c, stored)[i]) && LegacyRows(c, stored)[i][t.pk].value == Suffix(t, stored[i].0)
  }

  /** The statement's operations join the migration's in one batch. */
  function Together(migration: WriteBatch, b: WriteBatch): WriteBatch {
    WriteBatch(migration.writes + b.writes, migration.deletes + b.deletes)
  }

  ghost predicate IsCanonical(t: TableDef, k: Key) {
    exists v :: k == t.prefix + t.canon(v)
  }

  ghost predicate WritesCanonical(t: TableDef, b: WriteBatch) {
    forall i | 0 <= i < |b.writes| :: IsCanonical(t, b.writes[i].0)
  }

  lemma CanonicalNotDeleted(t: TableDef, stored: Stored, v: string)
    requires Idempotent(t.canon)
    ensures t.prefix + t.canon(v) !in Deletes(t, stored)
  {
    var k := t.prefix + t.canon(v);
    DeletedMoves(t, stored, k);
    assert Suffix(t, k) == t.canon(v) && t.canon(t.canon(v)) == t.canon(v);
  }

  lemma TogetherIsMerged(migration: WriteBatch, b: WriteBatch)
    ensures Coalesce.Merged([migration, b]) == Together(migration, b)
    ensures Coalesce.OneByOne([migration, b]) == BatchOps(migration) + BatchOps(b)
  {
    var ws := [migration, b];
    assert ws[..1] == [migration] && [migration][..0] == [];
    assert Coalesce.Merged([]) == EMPTY_BATCH && Coalesce.OneByOne([]) == [];
    assert [] + migration.writes == migration.writes && [] + migration.deletes == migration.deletes;
    assert Coalesce.Merged([migration]) == migration && Coalesce.OneByOne([migration]) == BatchOps(migration);
  }

  /** Although deletes win within the one batch, committing it is committing the
      migration and then the statement. */
  lemma TogetherIsInTurn(t: TableDef, c: Codec, data: Data, stored: Stored, entry: (Key, Value), migration: WriteBatch,
                         b: WriteBatch)
    requires Idempotent(t.canon) && MigrationResult(t, c, stored, entry, Ok(migration)) && WritesCanonical(t, b)
    ensures CommitData(data, Together(migration, b)) == CommitData(CommitData(data, migration), b)
  {
    hide Deletes, Writes, BatchOps, ApplyOps, Idempotent;
    var ws := [migration, b];
    TogetherIsMerged(migration, b);
    BatchOf(t, c, stored, entry, migration);
    forall k ensures !Coalesce.ResurrectsKey(ws, k) {
      if Coalesce.ResurrectsKey(ws, k) {
        var i, j :| 0 <= i < j < |ws| && Coalesce.Deletes(ws[i], k) && Coalesce.Sets(ws[j], k)
            && Coalesce.NoDeleteFrom(ws, j, k);
        var m :| 0 <= m < |b.writes| && b.writes[m].0 == k;
        assert IsCanonical(t, b.writes[m].0);
        var v :| b.writes[m].0 == t.prefix + t.canon(v);
        CanonicalNotDeleted(t, stored, v);
      }
    }
    Coalesce.MergeInvisibleIff(data, ws);
    ApplyOpsConcat(data, BatchOps(migration), BatchOps(b));
  }

  lemma StatementWritesCanonical(t: TableDef, c: Codec, loaded: seq<Row>, stmt: Stmt, b: WriteBatch)
    requires StmtResult(t, c, loaded, stmt, Ok(b))
    ensures WritesCanonical(t, b)
  {
    hide Fresh, MovedKeys, Filter, IsCanonical, KeyOf, Assign;
    forall i | 0 <= i < |b.writes| ensures IsCanonical(t, b.writes[i].0) {
      if stmt.Insert? {
        KeyIsCanonical(t, stmt.rows[i]);
      } else if stmt.Update? {
        KeyIsCanonical(t, AssignAll(Filter(stmt.keep, loaded), stmt.assignments)[i]);
      }
    }
  }

  lemma KeyIsCanonical(t: TableDef, r: Row)
    requires HasKey(t, r)
    ensures IsCanonical(t, KeyOf(t, r))
  {
    assert KeyOf(t, r) == t.prefix + t.canon(r[t.pk].value);
  }

  lemma CanonRowKey(t: TableDef, r: Row)
    requires Idempotent(t.canon) && HasKey(t, r)
    ensures HasKey(t, CanonRow(t, r)) && KeyOf(t, CanonRow(t, r)) == KeyOf(t, r)
  {
  }

  lemma CanonRowsKeyed(t: TableDef, rows: seq<Row>)
    requires Idempotent(t.canon) && Keyed(t, rows)
    ensures Keyed(t, CanonRows(t, rows))
    ensures forall i | 0 <= i < |rows| :: KeyOf(t, CanonRows(t, rows)[i]) == KeyOf(t, rows[i])
  {
    hide KeyOf, Idempotent, CanonRow;
    forall i | 0 <= i < |rows|
      ensures HasKey(t, CanonRows(t, rows)[i]) && KeyOf(t, CanonRows(t, rows)[i]) == KeyOf(t, rows[i])
    {
      CanonRowKey(t, rows[i]);
    }
  }

  /** After migration the table's rows are the legacy ones in canonical form. */
  lemma MigratedLoad(t: TableDef, c: Codec, cc: CatalogCodec, e: Entry, data: Data, stored: Stored,
                     migration: WriteBatch)
    requires Lawful(c) && Idempotent(t.canon) && KeepsBelow(t.canon) && Describes(t, e) && IsScan(t, data, stored)
    requires e.format == LegacyFormat && MigrationOutcome(t, c, cc, Some(e), stored, Ok(migration))
    requires Decodes(c, stored) && OwnKeys(t, c, stored)
    ensures Keyed(t, LegacyRows(c, stored)) && DistinctKeys(t, LegacyRows(c, stored))
    ensures IsLoad(t, c, CommitData(data, migration), CanonRows(t, LegacyRows(c, stored)))
    ensures Typed(t, c, CommitData(data, migration))
  {
    hide CommitData, Lawful, KeepsBelow, MigrationOutcome, CanonRow, KeyOf, DecodeRow, Describes, Idempotent, IsScan,
         IsMigrated, IsLoad, Typed, NewRow;
    var rows, after := LegacyRows(c, stored), CommitData(data, migration);
    var now := MigrationKeepsTable(t, c, cc, e, data, stored, migration);
    OwnKeysHold(t, c, stored);
    MigrationMakesTyped(t, c, cc, e, data, stored, migration);
    CanonRowsKeyed(t, rows);
    ScanIsLoad(t, c, after, stored, now);
  }

  lemma OwnKeysHold(t: TableDef, c: Codec, stored: Stored)
    requires Decodes(c, stored) && OwnKeys(t, c, stored)
    ensures Keyed(t, LegacyRows(c, stored))
    ensures forall i | 0 <= i < |stored| ::
              var row := DecodeRow(c, stored[i].1, LegacyFormat).value;
              HasKey(t, row) && row[t.pk].value == Suffix(t, stored[i].0)
  {
    hide Suffix;
    var rows := LegacyRows(c, stored);
    assert forall i | 0 <= i < |stored| :: rows[i] == DecodeRow(c, stored[i].1, LegacyFormat).value;
  }

  lemma ScanIsLoad(t: TableDef, c: Codec, after: Data, stored: Stored, now: Stored)
    requires Idempotent(t.canon) && Decodes(c, stored) && OwnKeys(t, c, stored)
    requires IsMigrated(t, c, stored, now) && IsScan(t, after, now)
    ensures Keyed(t, LegacyRows(c, stored)) && DistinctKeys(t, LegacyRows(c, stored))
    ensures IsLoad(t, c, after, CanonRows(t, LegacyRows(c, stored)))
  {
    hide InTable, CanonRow, KeyOf, RowAt, DecodeRow, Idempotent, IsMigrated, OwnKeys;
    var rows := LegacyRows(c, stored);
    OwnKeysHold(t, c, stored);
    CanonRowsKeyed(t, rows);
    var canon := CanonRows(t, rows);
    assert |now| == |stored| by { MigratedLength(t, c, stored, now); }
    forall i | 0 <= i < |rows| ensures KeyOf(t, rows[i]) == now[i].0 && RowAt(t, c, after, now[i].0) == Some(canon[i]) {
      ScanRowAt(t, c, after, stored, now, i);
    }
    forall k | RowAt(t, c, after, k).Some? ensures exists i :: 0 <= i < |canon| && KeyOf(t, canon[i]) == k {
      RowInTable(t, c, after, k);
      var i :| 0 <= i < |now| && now[i].0 == k;
      assert KeyOf(t, canon[i]) == k;
    }
  }

  lemma MigratedLength(t: TableDef, c: Codec, stored: Stored, now: Stored)
    requires Decodes(c, stored) && IsMigrated(t, c, stored, now)
    ensures |now| == |stored|
  {
  }

  lemma RowInTable(t: TableDef, c: Codec, data: Data, k: Key)
    requires RowAt(t, c, data, k).Some?
    ensures k in data && InTable(t.prefix, k)
  {
  }

  lemma ScanRowAt(t: TableDef, c: Codec, after: Data, stored: Stored, now: Stored, i: nat)
    requires Decodes(c, stored) && OwnKeys(t, c, stored) && IsMigrated(t, c, stored, now) && IsScan(t, after, now)
    requires i < |stored|
    ensures HasKey(t, LegacyRows(c, stored)[i]) && KeyOf(t, LegacyRows(c, stored)[i]) == now[i].0
    ensures RowAt(t, c, after, now[i].0) == Some(CanonRow(t, LegacyRows(c, stored)[i]))
  {
    hide InTable, CanonRow, KeyOf, DecodeRow, NewRow, CanonKey, Suffix, LegacyRows;
    OwnKeyIs(t, stored[i].0, LegacyRows(c, stored)[i]);
    TypedDecodesRaw(c, now[i].1);
    NewRowIs(t, c, stored, i);
  }

  lemma NewRowIs(t: TableDef, c: Codec, stored: Stored, i: nat)
    requires Decodes(c, stored) && i < |stored|
    ensures CanonRow(t, LegacyRows(c, stored)[i]) == NewRow(t, c, stored[i].1)
  {
  }

  lemma OwnKeyIs(t: TableDef, k: Key, r: Row)
    requires HasKey(t, r) && r[t.pk].value == Suffix(t, k)
    ensures KeyOf(t, r) == CanonKey(t, k)
  {
  }

  /** What a statement on a legacy table is meant to leave: the rows it does not touch
      in canonical form, and the ones it writes. */
  ghost function LegacyMeant(t: TableDef, loaded: seq<Row>, stmt: Stmt): seq<Row> {
    CanonRows(t, Kept(loaded, stmt)) + Written(loaded, stmt)
  }

  lemma AccountedCanon(t: TableDef, loaded: seq<Row>, kept: seq<Row>, rows: seq<Row>, deletes: seq<Key>)
    requires Idempotent(t.canon) && Keyed(t, loaded) && Keyed(t, kept) && Keyed(t, rows)
    requires Accounted(t, loaded, kept, rows, deletes)
    ensures Keyed(t, CanonRows(t, loaded)) && Keyed(t, CanonRows(t, kept))
    ensures Accounted(t, CanonRows(t, loaded), CanonRows(t, kept), rows, deletes)
  {
    hide KeyOf, Idempotent, CanonRow, InTable;
    CanonRowsKeyed(t, loaded);
    CanonRowsKeyed(t, kept);
    var l, k := CanonRows(t, loaded), CanonRows(t, kept);
    forall i | 0 <= i < |k| ensures KeyOf(t, k[i]) !in deletes && exists j :: 0 <= j < |l| && l[j] == k[i] {
      var j :| 0 <= j < |loaded| && loaded[j] == kept[i];
      assert l[j] == k[i];
    }
    forall j | 0 <= j < |l|
      ensures || KeyOf(t, l[j]) in deletes || (exists i :: 0 <= i < |k| && k[i] == l[j])
              || (exists i :: 0 <= i < |rows| && KeyOf(t, rows[i]) == KeyOf(t, l[j]))
    {
      if i :| 0 <= i < |kept| && kept[i] == loaded[j] {
        assert k[i] == l[j];
      }
    }
  }

  lemma LegacyInsert(t: TableDef, c: Codec, data: Data, loaded: seq<Row>, rows: seq<Row>, b: WriteBatch)
    requires Lawful(c) && Idempotent(t.canon) && Keyed(t, loaded) && Typed(t, c, data)
    requires IsLoad(t, c, data, CanonRows(t, loaded))
    requires InsertResult(t, c, loaded, rows, Ok(b))
    ensures IsLoad(t, c, CommitData(data, b), CanonRows(t, loaded) + Filter(Reaches(t), rows))
    ensures Typed(t, c, CommitData(data, b))
  {
    hide KeyOf, Idempotent, CanonRow, CommitData, IsLoad, Typed, Lawful, SqlTables.Writes, Filter;
    CanonRowsKeyed(t, loaded);
    assert InsertResult(t, c, CanonRows(t, loaded), rows, Ok(b));
    InsertMeans(t, c, data, CanonRows(t, loaded), rows, b);
  }

  /** Rows accounted for among the legacy ones are so among the migrated ones. */
  lemma LegacyRest(t: TableDef, c: Codec, data: Data, loaded: seq<Row>, kept: seq<Row>, rows: seq<Row>, b: WriteBatch)
    requires Lawful(c) && Idempotent(t.canon) && Typed(t, c, data) && IsLoad(t, c, data, CanonRows(t, loaded))
    requires Keyed(t, loaded) && Keyed(t, kept) && Keyed(t, rows) && DistinctKeys(t, kept) && Fresh(t, rows, kept)
    requires SqlTables.Writes(t, c, rows, b) && Accounted(t, loaded, kept, rows, b.deletes)
    ensures IsLoad(t, c, CommitData(data, b), CanonRows(t, kept) + Filter(Reaches(t), rows))
    ensures Typed(t, c, CommitData(data, b))
  {
    hide KeyOf, Idempotent, CanonRow, CommitData, IsLoad, Typed, Lawful, SqlTables.Writes, Filter;
    CanonRowsKeyed(t, kept);
    AccountedCanon(t, loaded, kept, rows, b.deletes);
    LoadAfter(t, c, data, b, CanonRows(t, loaded), CanonRows(t, kept), rows);
    TypedAfter(t, c, data, b, rows, CanonRows(t, kept) + Filter(Reaches(t), rows));
  }

  lemma LegacyDelete(t: TableDef, c: Codec, data: Data, loaded: seq<Row>, keep: Row -> bool, b: WriteBatch)
    requires Lawful(c) && Idempotent(t.canon) && Keyed(t, loaded) && DistinctKeys(t, loaded) && Typed(t, c, data)
    requires IsLoad(t, c, data, CanonRows(t, loaded)) && DeleteResult(t, loaded, keep, Ok(b))
    ensures IsLoad(t, c, CommitData(data, b), CanonRows(t, Filter(Unselected(keep), loaded)) + Filter(Reaches(t), []))
    ensures Typed(t, c, CommitData(data, b))
  {
    hide KeyOf, Idempotent, CanonRow, CommitData, IsLoad, Typed, Lawful, Filter;
    var kept := Filter(Unselected(keep), loaded);
    FilterDistinct(t, keep, loaded);
    FilterDistinct(t, Unselected(keep), loaded);
    DeletedKeys(t, loaded, keep, b.deletes);
    LegacyRest(t, c, data, loaded, kept, [], b);
  }

  lemma LegacyUpdate(t: TableDef, c: Codec, data: Data, loaded: seq<Row>, keep: Row -> bool, assignments: Assignments,
                     b: WriteBatch)
    requires Lawful(c) && Idempotent(t.canon) && Keyed(t, loaded) && DistinctKeys(t, loaded) && Typed(t, c, data)
    requires IsLoad(t, c, data, CanonRows(t, loaded))
    requires UpdateResult(t, c, loaded, keep, assignments, Ok(b))
    ensures var updated := AssignAll(Filter(keep, loaded), assignments);
            IsLoad(t, c, CommitData(data, b),
                   CanonRows(t, Filter(Unselected(keep), loaded)) + Filter(Reaches(t), updated))
    ensures Typed(t, c, CommitData(data, b))
  {
    hide KeyOf, Idempotent, CanonRow, CommitData, IsLoad, Typed, Lawful, Filter, SqlTables.Writes, MovedKeys, Assign,
         InTable;
    var selected, kept := Filter(keep, loaded), Filter(Unselected(keep), loaded);
    var updated := AssignAll(selected, assignments);
    FilterDistinct(t, Unselected(keep), loaded);
    UpdateMoves(t, loaded, keep, assignments);
    UpdatedKeys(t, loaded, keep, updated);
    LegacyRest(t, c, data, loaded, kept, updated, b);
  }

  /** A statement on a legacy table, its operations joined to the migration's, leaves a
      typed table, and exactly the rows it is meant to if and only if a scan reaches
      every row it writes. */
  lemma LegacyStatementMeans(t: TableDef, c: Codec, cc: CatalogCodec, e: Entry, data: Data, stored: Stored,
                             migration: WriteBatch, stmt: Stmt, b: WriteBatch)
    requires Lawful(c) && Idempotent(t.canon) && KeepsBelow(t.canon) && Describes(t, e) && IsScan(t, data, stored)
    requires e.format == LegacyFormat && MigrationOutcome(t, c, cc, Some(e), stored, Ok(migration))
    requires Decodes(c, stored) && OwnKeys(t, c, stored)
    requires StmtResult(t, c, LegacyRows(c, stored), stmt, Ok(b))
    ensures var after, loaded := CommitData(data, Together(migration, b)), LegacyRows(c, stored);
            && after == CommitData(CommitData(data, migration), b) && Typed(t, c, after)
            && (IsLoad(t, c, after, LegacyMeant(t, loaded, stmt)) <==> AllReached(t, Written(loaded, stmt)))
  {
    hide KeyOf, Idempotent, CanonRow, CommitData, IsLoad, Typed, Lawful, KeepsBelow, InsertResult, UpdateResult,
         DeleteResult, MigrationResult, Together, IsScan, OwnKeys, Decodes, Keyed, DistinctKeys, Describes, AllReached,
         Reaches;
    var loaded := LegacyRows(c, stored);
    MigratedLoad(t, c, cc, e, data, stored, migration);
    StatementWritesCanonical(t, c, loaded, stmt, b);
    TogetherIsInTurn(t, c, data, stored, TypedEntry(cc, e), migration, b);
    var data' := CommitData(data, migration);
    match stmt {
      case Insert(rows) => LegacyInsert(t, c, data', loaded, rows, b);
      case Update(keep, assignments) => LegacyUpdate(t, c, data', loaded, keep, assignments, b);
      case Delete(keep) => LegacyDelete(t, c, data', loaded, keep, b);
    }
    AllThereIff(t, c, CommitData(data', b), CanonRows(t, Kept(loaded, stmt)), Written(loaded, stmt));
  }

  // Compared with a statement on the migrated table.

  predicate CanonicalKey(t: TableDef, r: Row) {
    HasKey(t, r) ==> t.canon(r[t.pk].value) == r[t.pk].value
  }

  predicate Assigns(t: TableDef, assignments: Assignments) {
    exists i :: 0 <= i < |assignments| && assignments[i].0 == t.pk
  }

  /** The WHERE clause does not tell a row from its canonical form. */
  ghost predicate SelectsAlike(t: TableDef, keep: Row -> bool, loaded: seq<Row>) {
    forall i | 0 <= i < |loaded| :: keep(CanonRow(t, loaded[i])) == keep(loaded[i])
  }

  lemma {:induction false} FilterCanon(t: TableDef, p: Row -> bool, rows: seq<Row>)
    requires forall i | 0 <= i < |rows| :: p(CanonRow(t, rows[i])) == p(rows[i])
    ensures Filter(p, CanonRows(t, rows)) == CanonRows(t, Filter(p, rows))
  {
    hide CanonRow;
    if rows != [] {
      var n := |rows| - 1;
      FilterCanon(t, p, rows[..n]);
      assert CanonRows(t, rows)[..n] == CanonRows(t, rows[..n]);
      var init := Filter(p, rows[..n]);
      assert CanonRows(t, init + [rows[n]]) == CanonRows(t, init) + [CanonRow(t, rows[n])];
      assert CanonRows(t, init) + [] == CanonRows(t, init) && init + [] == init;
    }
  }

  /** The key cell after assignments is the last one assigned, or as it was. */
  lemma {:induction false} AssignedCell(t: TableDef, a: Row, b: Row, assignments: Assignments)
    ensures Assigns(t, assignments) ==> CellOf(Assign(a, assignments), t.pk) == CellOf(Assign(b, assignments), t.pk)
    ensures !Assigns(t, assignments) ==> CellOf(Assign(a, assignments), t.pk) == CellOf(a, t.pk)
    ensures !Assigns(t, assignments) ==> CellOf(Assign(b, assignments), t.pk) == CellOf(b, t.pk)
  {
    hide Assigns;
    if assignments == [] {
      AssignsNone(t);
    } else {
      AssignedCell(t, a, b, assignments[..|assignments| - 1]);
      AssignsSnoc(t, assignments);
    }
  }

  lemma AssignsNone(t: TableDef)
    ensures !Assigns(t, [])
  {
  }

  lemma AlikeIffCell(t: TableDef, a: Row, b: Row)
    requires a.Keys == b.Keys && forall x | x in a && x != t.pk :: a[x] == b[x]
    ensures a == b <==> CellOf(a, t.pk) == CellOf(b, t.pk)
  {
    if CellOf(a, t.pk) == CellOf(b, t.pk) {
      forall x | x in a ensures x in b && a[x] == b[x] {
        assert x in a.Keys;
      }
    }
  }

  lemma CanonCellIff(t: TableDef, r: Row)
    ensures CellOf(CanonRow(t, r), t.pk) == CellOf(r, t.pk) <==> CanonicalKey(t, r)
  {
  }

  lemma AssignCanonIff(t: TableDef, r: Row, assignments: Assignments)
    ensures Assign(CanonRow(t, r), assignments) == Assign(r, assignments) <==>
              Assigns(t, assignments) || CanonicalKey(t, r)
  {
    hide Assign, CanonRow, CellOf, Assigns, CanonicalKey;
    AssignsSame(t, r, assignments);
    AlikeIffCell(t, Assign(CanonRow(t, r), assignments), Assign(r, assignments));
    AssignedCell(t, CanonRow(t, r), r, assignments);
    CanonCellIff(t, r);
  }

  lemma AssignsSnoc(t: TableDef, assignments: Assignments)
    requires assignments != []
    ensures var n := |assignments| - 1;
            Assigns(t, assignments) <==> Assigns(t, assignments[..n]) || assignments[n].0 == t.pk
  {
    var n := |assignments| - 1;
    assert forall i | 0 <= i < n :: assignments[..n][i] == assignments[i];
  }

  /** A row and its canonical form differ after assignments at most in the key. */
  lemma {:induction false} AssignsSame(t: TableDef, r: Row, assignments: Assignments)
    ensures var a, b := Assign(CanonRow(t, r), assignments), Assign(r, assignments);
            a.Keys == b.Keys && forall x | x in a && x != t.pk :: a[x] == b[x]
  {
    if assignments != [] {
      AssignsSame(t, r, assignments[..|assignments| - 1]);
    }
  }

  /** A row that an UPDATE of a legacy table rewrites without assigning its primary key,
      and whose key is not in canonical form. */
  ghost predicate KeepsOldSpelling(t: TableDef, loaded: seq<Row>, stmt: Stmt) {
    && stmt.Update? && !Assigns(t, stmt.assignments)
    && exists i :: 0 <= i < |loaded| && stmt.keep(loaded[i]) && !CanonicalKey(t, loaded[i])
  }

  /** A statement on a legacy table leaves the rows of migrating first and then running
      it exactly when it rewrites no row whose primary key keeps a spelling that is not
      canonical. */
  lemma LegacyMeantIff(t: TableDef, loaded: seq<Row>, stmt: Stmt)
    requires !stmt.Insert? ==> SelectsAlike(t, stmt.keep, loaded)
    ensures LegacyMeant(t, loaded, stmt) == Meant(CanonRows(t, loaded), stmt) <==> !KeepsOldSpelling(t, loaded, stmt)
  {
    hide CanonRow, Assign, Filter, CanonicalKey;
    if !stmt.Insert? {
      var keep := stmt.keep;
      FilterCanon(t, keep, loaded);
      FilterCanon(t, Unselected(keep), loaded);
      if stmt.Update? {
        var selected := Filter(keep, loaded);
        UpdatedAlikeIff(t, selected, stmt.assignments);
        SelectedSpelling(t, loaded, keep);
        TailsAlike(CanonRows(t, Filter(Unselected(keep), loaded)), AssignAll(selected, stmt.assignments),
                   AssignAll(CanonRows(t, selected), stmt.assignments));
      }
    }
  }

  /** Any INTEGER key written otherwise than canonically keeps its spelling. */
  lemma OldSpellingStays(prefix: string, pk: string, v: string, column: string, cell: Option<string>)
    requires D.ParsesAsI128(v) && !D.Canonical(v) && column != pk
    ensures var t := TableDef(prefix, pk, CanonInteger);
            var row: Row := map[pk := Some(v)];
            var stmt := Update((r: Row) => true, [(column, cell)]);
            && KeepsOldSpelling(t, [row], stmt)
            && LegacyMeant(t, [row], stmt) != Meant(CanonRows(t, [row]), stmt)
  {
    hide D.Canonical, D.Val, D.IntText, D.IntToText, Filter, Assign, CanonRow;
    var t := TableDef(prefix, pk, CanonInteger);
    var row: Row := map[pk := Some(v)];
    var stmt := Update((r: Row) => true, [(column, cell)]);
    assert D.Canonical(CanonInteger(v));
    assert !CanonicalKey(t, [row][0]) && stmt.keep([row][0]);
    LegacyMeantIff(t, [row], stmt);
  }

  lemma TailsAlike(kept: seq<Row>, a: seq<Row>, b: seq<Row>)
    ensures kept + a == kept + b <==> a == b
  {
    assert (kept + a)[|kept|..] == a && (kept + b)[|kept|..] == b;
  }

  lemma UpdatedAlikeIff(t: TableDef, selected: seq<Row>, assignments: Assignments)
    ensures AssignAll(selected, assignments) == AssignAll(CanonRows(t, selected), assignments) <==>
              Assigns(t, assignments) || forall i | 0 <= i < |selected| :: CanonicalKey(t, selected[i])
  {
    hide CanonRow, Assign, CanonicalKey, Assigns;
    var a, b := AssignAll(selected, assignments), AssignAll(CanonRows(t, selected), assignments);
    forall i | 0 <= i < |selected| ensures a[i] == b[i] <==> Assigns(t, assignments) || CanonicalKey(t, selected[i]) {
      AssignCanonIff(t, selected[i], assignments);
    }
  }

  lemma SelectedSpelling(t: TableDef, loaded: seq<Row>, keep: Row -> bool)
    ensures (exists i :: 0 <= i < |loaded| && keep(loaded[i]) && !CanonicalKey(t, loaded[i])) <==>
              exists i :: 0 <= i < |Filter(keep, loaded)| && !CanonicalKey(t, Filter(keep, loaded)[i])
  {
    hide CanonicalKey, Filter;
    var selected := Filter(keep, loaded);
    if i :| 0 <= i < |loaded| && keep(loaded[i]) && !CanonicalKey(t, loaded[i]) {
      FilterMember(keep, loaded, i);
      var j :| 0 <= j < |selected| && selected[j] == loaded[i];
      assert !CanonicalKey(t, selected[j]);
    }
    if j :| 0 <= j < |selected| && !CanonicalKey(t, selected[j]) {
      var i := FilterFrom(keep, loaded, j);
      assert keep(loaded[i]) && !CanonicalKey(t, loaded[i]);
    }
  }
}
