/** The hash join, as an iterator and as one loop, against the nested-loop join. */
module HashJoin {
  import opened Basics

  /** A row: column names with their cells, `None` being SQL NULL. */
  type Row = map<string, Option<string>>

  /** The join key of a row; `None` when the cell is NULL or absent. */
  type KeyOf = Row -> Option<string>

  datatype JoinType = Inner | Left | Right

  /** One row of a join before its columns are merged. */
  datatype Joined = Both(build: Row, probe: Row) | BuildOnly(build: Row) | ProbeOnly(probe: Row)

  function CellKey(column: string, canon: string -> string): KeyOf {
    (row: Row) => if column in row && row[column].Some? then Some(canon(row[column].value)) else None
  }

  // ----- What the join denotes -----

  function WithKey(build: seq<Row>, kb: KeyOf, k: Option<string>): (r: seq<Row>)
    ensures r == [] <==> forall i | 0 <= i < |build| :: kb(build[i]) != k
  {
    if build == [] then []
    else
      var n := |build| - 1;
      WithKey(build[..n], kb, k) + (if kb(build[n]) == k then [build[n]] else [])
  }

  function Pairs(rows: seq<Row>, p: Row): seq<Joined> {
    seq(|rows|, i requires 0 <= i < |rows| => Both(rows[i], p))
  }

  /** The rows a probe row gives rise to. */
  function ProbeOut(build: seq<Row>, kb: KeyOf, kp: KeyOf, jt: JoinType, p: Row): seq<Joined> {
    var hits := if kp(p).Some? then WithKey(build, kb, kp(p)) else [];
    if hits != [] then Pairs(hits, p) else if jt == Left then [ProbeOnly(p)] else []
  }

  function ProbeOuts(build: seq<Row>, kb: KeyOf, kp: KeyOf, jt: JoinType, probe: seq<Row>): seq<Joined> {
    if probe == [] then []
    else ProbeOut(build, kb, kp, jt, probe[0]) + ProbeOuts(build, kb, kp, jt, probe[1..])
  }

  function KeysOf(rows: seq<Row>, key: KeyOf): set<Option<string>> {
    set i | 0 <= i < |rows| :: key(rows[i])
  }

  function BuildOnlys(build: seq<Row>, kb: KeyOf, keys: iset<Option<string>>): seq<Joined> {
    if build == [] then []
    else
      var n := |build| - 1;
      BuildOnlys(build[..n], kb, keys) + (if kb(build[n]) in keys then [BuildOnly(build[n])] else [])
  }

  /** Keys no probe row matches; NULL matches nothing. */
  ghost function UnmatchedKeys(kp: KeyOf, probe: seq<Row>): iset<Option<string>> {
    iset k: Option<string> | k == None || k !in KeysOf(probe, kp)
  }

  /** Everything the join emits: matches in probe order, probe rows without a
      match if `jt` is Left, build rows without a match if it is Right. */
  ghost function Denoted(build: seq<Row>, probe: seq<Row>, kb: KeyOf, kp: KeyOf, jt: JoinType): seq<Joined> {
    ProbeOuts(build, kb, kp, jt, probe)
    + (if jt == Right then BuildOnlys(build, kb, UnmatchedKeys(kp, probe)) else [])
  }

  // ----- Rows with their columns merged -----

  /** The same cells under names with a prefix. */
  function Prefixed<V>(row: map<string, V>, prefix: string): (r: map<string, V>)
    ensures forall k | k in row :: prefix + k in r && r[prefix + k] == row[k]
    ensures forall k | k in r :: prefix <= k && k[|prefix|..] in row && r[k] == row[k[|prefix|..]]
  {
    map k | k in (set x | x in row.Keys :: prefix + x) :: row[k[|prefix|..]]
  }

  function Qualify(row: Row, prefix: string): Row {
    row + Prefixed(row, prefix)
  }

  /** Both rows under qualified names; of a shared bare name the build row's. */
  function Combine<V>(b: map<string, V>, p: map<string, V>, bp: string, pp: string): map<string, V> {
    p + b + Prefixed(b, bp) + Prefixed(p, pp)
  }

  function RowOf(j: Joined, bp: string, pp: string): Row {
    match j
    case Both(b, p) => Combine(b, p, bp, pp)
    case BuildOnly(b) => Qualify(b, bp)
    case ProbeOnly(p) => Qualify(p, pp)
  }

  function RowsOf(js: seq<Joined>, bp: string, pp: string): (rows: seq<Row>)
    ensures |rows| == |js|
    ensures forall i | 0 <= i < |js| :: rows[i] == RowOf(js[i], bp, pp)
  {
    seq(|js|, i requires 0 <= i < |js| => RowOf(js[i], bp, pp))
  }

  // ----- Hash table and unmatched rows -----

  ghost predicate IsTable(table: map<string, seq<Row>>, build: seq<Row>, kb: KeyOf) {
    && (forall k | k in table :: table[k] == WithKey(build, kb, Some(k)) && table[k] != [])
    && (forall k | k !in table :: WithKey(build, kb, Some(k)) == [])
  }

  lemma WithKeySnoc(build: seq<Row>, kb: KeyOf, i: nat, k: Option<string>)
    requires i < |build|
    ensures WithKey(build[..i + 1], kb, k)
            == WithKey(build[..i], kb, k) + (if kb(build[i]) == k then [build[i]] else [])
  {
    assert build[..i + 1][..i] == build[..i];
  }

  function Inserted(table: map<string, seq<Row>>, k: string, row: Row): map<string, seq<Row>> {
    table[k := (if k in table then table[k] else []) + [row]]
  }

  lemma TableStep(table: map<string, seq<Row>>, build: seq<Row>, kb: KeyOf, i: nat)
    requires i < |build| && IsTable(table, build[..i], kb)
    ensures IsTable(if kb(build[i]).Some? then Inserted(table, kb(build[i]).value, build[i]) else table,
                    build[..i + 1], kb)
  {
    hide WithKey;
    var t := if kb(build[i]).Some? then Inserted(table, kb(build[i]).value, build[i]) else table;
    forall k: string
      ensures k in t ==> t[k] == WithKey(build[..i + 1], kb, Some(k)) && t[k] != []
      ensures k !in t ==> WithKey(build[..i + 1], kb, Some(k)) == []
    {
      WithKeySnoc(build, kb, i, Some(k));
    }
  }

  method BuildTable(build: seq<Row>, kb: KeyOf) returns (table: map<string, seq<Row>>, nulls: seq<Row>)
    ensures IsTable(table, build, kb) && nulls == WithKey(build, kb, None)
  {
    hide WithKey, IsTable;
    table, nulls := map[], [];
    assert IsTable(table, build[..0], kb) && nulls == WithKey(build[..0], kb, None) by { EmptyTable(kb); }
    for i := 0 to |build|
      invariant IsTable(table, build[..i], kb) && nulls == WithKey(build[..i], kb, None)
    {
      TableStep(table, build, kb, i);
      WithKeySnoc(build, kb, i, None);
      match kb(build[i])
      case None => nulls := nulls + [build[i]];
      case Some(k) => table := Inserted(table, k, build[i]);
    }
    assert build[..|build|] == build;
  }

  lemma EmptyTable(kb: KeyOf)
    ensures IsTable(map[], [], kb) && WithKey([], kb, None) == []
  {
  }

  function AsBuildOnly(rows: seq<Row>): seq<Joined> {
    seq(|rows|, i requires 0 <= i < |rows| => BuildOnly(rows[i]))
  }

  lemma {:induction false} OneKey(build: seq<Row>, kb: KeyOf, k: Option<string>)
    ensures BuildOnlys(build, kb, iset{k}) == AsBuildOnly(WithKey(build, kb, k))
  {
    if build != [] {
      OneKey(build[..|build| - 1], kb, k);
    }
  }

  /** Disjoint key sets split the build rows between them. */
  lemma {:induction false} SplitKeys(build: seq<Row>, kb: KeyOf, a: iset<Option<string>>, b: iset<Option<string>>)
    requires a !! b
    ensures multiset(BuildOnlys(build, kb, a + b))
            == multiset(BuildOnlys(build, kb, a)) + multiset(BuildOnlys(build, kb, b))
  {
    if build != [] {
      SplitKeys(build[..|build| - 1], kb, a, b);
    }
  }

  /** Only the keys that occur among the build rows matter. */
  lemma {:induction false} SameKeys(build: seq<Row>, kb: KeyOf, a: iset<Option<string>>, b: iset<Option<string>>)
    requires forall i | 0 <= i < |build| :: kb(build[i]) in a <==> kb(build[i]) in b
    ensures BuildOnlys(build, kb, a) == BuildOnlys(build, kb, b)
  {
    if build != [] {
      SameKeys(build[..|build| - 1], kb, a, b);
    }
  }

  lemma RowsOfAppend(js: seq<Joined>, rows: seq<Row>, bp: string, pp: string)
    ensures RowsOf(js + AsBuildOnly(rows), bp, pp) == RowsOf(js, bp, pp) + QualifyAll(rows, bp)
  {
  }

  ghost function KeysOutside(matched: set<string>): iset<Option<string>> {
    iset k: Option<string> | k == None || k.value !in matched
  }

  ghost function KeysWalked(walked: set<string>, matched: set<string>): iset<Option<string>> {
    iset k: Option<string> | k.Some? && k.value in walked && k.value !in matched
  }

  /** Having walked the whole table, the rows left are those without a key. */
  lemma WalkedAll(table: map<string, seq<Row>>, matched: set<string>, build: seq<Row>, kb: KeyOf)
    requires IsTable(table, build, kb)
    ensures multiset(BuildOnlys(build, kb, KeysOutside(matched)))
         == multiset(BuildOnlys(build, kb, KeysWalked(table.Keys, matched)))
            + multiset(AsBuildOnly(WithKey(build, kb, None)))
  {
    hide BuildOnlys;
    var done := KeysWalked(table.Keys, matched);
    OneKey(build, kb, None);
    SplitKeys(build, kb, done, iset{None});
    forall i | 0 <= i < |build| ensures kb(build[i]) in KeysOutside(matched) <==> kb(build[i]) in done + iset{None} {
      assert WithKey(build, kb, kb(build[i])) != [];
    }
    SameKeys(build, kb, KeysOutside(matched), done + iset{None});
  }

  lemma WalkedOne(table: map<string, seq<Row>>, matched: set<string>, build: seq<Row>, kb: KeyOf, walked: set<string>,
                  k: string)
    requires IsTable(table, build, kb) && k in table && k !in walked
    ensures multiset(BuildOnlys(build, kb, KeysWalked(walked + {k}, matched)))
         == multiset(BuildOnlys(build, kb, KeysWalked(walked, matched)))
            + multiset(if k in matched then [] else AsBuildOnly(table[k]))
  {
    hide BuildOnlys, WithKey;
    if k in matched {
      assert KeysWalked(walked + {k}, matched) == KeysWalked(walked, matched);
    } else {
      OneKey(build, kb, Some(k));
      SplitKeys(build, kb, KeysWalked(walked, matched), iset{Some(k)});
      assert KeysWalked(walked + {k}, matched) == KeysWalked(walked, matched) + iset{Some(k)};
    }
  }

  /** The merged rows of a bag of joined rows, in some order. */
  ghost predicate Yields(rows: seq<Row>, due: multiset<Joined>, bp: string, pp: string) {
    exists js :: rows == RowsOf(js, bp, pp) && multiset(js) == due
  }

  /** The build rows of every key outside `matched`, and those without a key,
      in whatever order the table is walked. */
  method CollectUnmatched(table: map<string, seq<Row>>, nulls: seq<Row>, matched: set<string>,
                          bp: string, pp: string, ghost build: seq<Row>, ghost kb: KeyOf)
    returns (rows: seq<Row>)
    requires IsTable(table, build, kb) && nulls == WithKey(build, kb, None)
    ensures Yields(rows, multiset(BuildOnlys(build, kb, KeysOutside(matched))), bp, pp)
  {
    hide IsTable, WithKey, BuildOnlys, RowsOf, QualifyAll, AsBuildOnly, KeysOutside, KeysWalked;
    var left := table.Keys;
    rows := [];
    ghost var js: seq<Joined> := [];
    assert multiset(BuildOnlys(build, kb, KeysWalked({}, matched))) == multiset{} by { NoKeys(build, kb, matched); }
    assert rows == RowsOf(js, bp, pp) by { NoRows(bp, pp); }
    assert table.Keys - left == {};
    while left != {}
      invariant left <= table.Keys
      invariant rows == RowsOf(js, bp, pp)
      invariant multiset(js) == multiset(BuildOnlys(build, kb, KeysWalked(table.Keys - left, matched)))
      decreases left
    {
      var k :| k in left;
      WalkedOne(table, matched, build, kb, table.Keys - left, k);
      assert table.Keys - (left - {k}) == table.Keys - left + {k};
      left := left - {k};
      if k !in matched {
        RowsOfAppend(js, table[k], bp, pp);
        js := js + AsBuildOnly(table[k]);
        rows := rows + QualifyAll(table[k], bp);
      }
    }
    assert table.Keys - left == table.Keys;
    WalkedAll(table, matched, build, kb);
    RowsOfAppend(js, nulls, bp, pp);
    js := js + AsBuildOnly(nulls);
    rows := rows + QualifyAll(nulls, bp);
  }

  lemma NoRows(bp: string, pp: string)
    ensures RowsOf([], bp, pp) == []
  {
  }

  lemma NoKeys(build: seq<Row>, kb: KeyOf, matched: set<string>)
    ensures BuildOnlys(build, kb, KeysWalked({}, matched)) == []
  {
    EmptyKeys(build, kb);
    assert KeysWalked({}, matched) == iset{};
  }

  function QualifyAll(rows: seq<Row>, prefix: string): seq<Row> {
    seq(|rows|, i requires 0 <= i < |rows| => Qualify(rows[i], prefix))
  }

  lemma {:induction false} EmptyKeys(build: seq<Row>, kb: KeyOf)
    ensures BuildOnlys(build, kb, iset{}) == []
  {
    if build != [] {
      EmptyKeys(build[..|build| - 1], kb);
    }
  }

  // ----- The probe phase -----

  function Lookup(table: map<string, seq<Row>>, key: Option<string>): seq<Row> {
    if key.Some? && key.value in table then table[key.value] else []
  }

  /** What the hash table finds is what the probe row joins with. */
  lemma ProbeHits(table: map<string, seq<Row>>, build: seq<Row>, kb: KeyOf, kp: KeyOf, jt: JoinType, p: Row)
    requires IsTable(table, build, kb)
    ensures var hits := Lookup(table, kp(p));
            ProbeOut(build, kb, kp, jt, p)
            == if hits != [] then Pairs(hits, p) else if jt == Left then [ProbeOnly(p)] else []
  {
    hide WithKey;
  }

  function CombineAll(rows: seq<Row>, p: Row, bp: string, pp: string): seq<Row> {
    seq(|rows|, i requires 0 <= i < |rows| => Combine(rows[i], p, bp, pp))
  }

  lemma RowsOfPairs(rows: seq<Row>, p: Row, bp: string, pp: string)
    ensures RowsOf(Pairs(rows, p), bp, pp) == CombineAll(rows, p, bp, pp)
  {
  }

  lemma RowsOfConcat(a: seq<Joined>, b: seq<Joined>, bp: string, pp: string)
    ensures RowsOf(a + b, bp, pp) == RowsOf(a, bp, pp) + RowsOf(b, bp, pp)
  {
  }

  /** The keys recorded while probing: those the table holds. */
  ghost predicate Recorded(matched: set<string>, table: map<string, seq<Row>>, kp: KeyOf, probed: seq<Row>) {
    forall k :: k in matched <==> k in table && Some(k) in KeysOf(probed, kp)
  }

  lemma RecordOne(matched: set<string>, table: map<string, seq<Row>>, kp: KeyOf, probe: seq<Row>, i: nat)
    requires i < |probe| && Recorded(matched, table, kp, probe[..i])
    ensures var key := kp(probe[i]);
            Recorded(if key.Some? && key.value in table then matched + {key.value} else matched,
                     table, kp, probe[..i + 1])
  {
    assert KeysOf(probe[..i + 1], kp) == KeysOf(probe[..i], kp) + {kp(probe[i])} by {
      forall k ensures k in KeysOf(probe[..i + 1], kp) <==> k in KeysOf(probe[..i], kp) + {kp(probe[i])} {
        if k in KeysOf(probe[..i], kp) {
          var j :| 0 <= j < i && kp(probe[..i][j]) == k;
          assert kp(probe[..i + 1][j]) == k;
        }
        assert probe[..i + 1][i] == probe[i];
      }
    }
  }

  /** After the last probe row the recorded keys tell the unmatched build rows. */
  lemma UnmatchedAtEnd(matched: set<string>, table: map<string, seq<Row>>, build: seq<Row>, kb: KeyOf, kp: KeyOf,
                       probe: seq<Row>)
    requires IsTable(table, build, kb) && Recorded(matched, table, kp, probe)
    ensures BuildOnlys(build, kb, KeysOutside(matched)) == BuildOnlys(build, kb, UnmatchedKeys(kp, probe))
  {
    forall i | 0 <= i < |build|
      ensures kb(build[i]) in KeysOutside(matched) <==> kb(build[i]) in UnmatchedKeys(kp, probe)
    {
      assert WithKey(build, kb, kb(build[i])) != [];
    }
    SameKeys(build, kb, KeysOutside(matched), UnmatchedKeys(kp, probe));
  }

  /** The rows one probe row gives, read off the hash table. */
  method ProbeRows(table: map<string, seq<Row>>, ghost build: seq<Row>, ghost kb: KeyOf, kp: KeyOf, jt: JoinType,
                   p: Row, bp: string, pp: string)
    returns (rows: seq<Row>)
    requires IsTable(table, build, kb)
    ensures rows == RowsOf(ProbeOut(build, kb, kp, jt, p), bp, pp)
  {
    hide IsTable, ProbeOut, RowsOf, CombineAll, Pairs, Qualify;
    ProbeHits(table, build, kb, kp, jt, p);
    var key := kp(p);
    if key.Some? && key.value in table {
      Found(table, build, kb, key.value);
      RowsOfPairs(table[key.value], p, bp, pp);
      return CombineAll(table[key.value], p, bp, pp);
    }
    if jt == Left {
      RowsOfProbeOnly(p, bp, pp);
      return [Qualify(p, pp)];
    }
    NoRows(bp, pp);
    return [];
  }

  /** The join as one loop over materialized inputs. */
  method ExecHashJoin(build: seq<Row>, probe: seq<Row>, kb: KeyOf, kp: KeyOf, jt: JoinType, bp: string, pp: string)
    returns (rows: seq<Row>)
    ensures Yields(rows, multiset(Denoted(build, probe, kb, kp, jt)), bp, pp)
  {
    hide IsTable, WithKey, BuildOnlys, RowsOf, ProbeOut, ProbeOuts, Recorded, KeysOutside, UnmatchedKeys;
    var table, nulls := BuildTable(build, kb);
    ghost var js: seq<Joined> := [];
    rows := [];
    NoRows(bp, pp);
    var matched: set<string> := {};
    assert probe[0..] == probe && probe[..0] == [];
    NothingRecorded(table, kp);
    for i := 0 to |probe|
      invariant rows == RowsOf(js, bp, pp)
      invariant js + ProbeOuts(build, kb, kp, jt, probe[i..]) == ProbeOuts(build, kb, kp, jt, probe)
      invariant jt == Right ==> Recorded(matched, table, kp, probe[..i])
    {
      ProbeOutsStep(build, kb, kp, jt, probe, i);
      if jt == Right {
        RecordOne(matched, table, kp, probe, i);
      }
      var more := ProbeRows(table, build, kb, kp, jt, probe[i], bp, pp);
      RowsOfConcat(js, ProbeOut(build, kb, kp, jt, probe[i]), bp, pp);
      rows, js := rows + more, js + ProbeOut(build, kb, kp, jt, probe[i]);
      var key := kp(probe[i]);
      if jt == Right && key.Some? && key.value in table {
        matched := matched + {key.value};
      }
    }
    assert probe[|probe|..] == [] && probe[..|probe|] == probe;
    NoProbes(build, kb, kp, jt);
    if jt == Right {
      var more := CollectUnmatched(table, nulls, matched, bp, pp, build, kb);
      ghost var due := multiset(BuildOnlys(build, kb, KeysOutside(matched)));
      ghost var jmore :| more == RowsOf(jmore, bp, pp) && multiset(jmore) == due;
      UnmatchedAtEnd(matched, table, build, kb, kp, probe);
      RowsOfConcat(js, jmore, bp, pp);
      rows, js := rows + more, js + jmore;
    }
  }

  lemma ProbeOutsStep(build: seq<Row>, kb: KeyOf, kp: KeyOf, jt: JoinType, probe: seq<Row>, i: nat)
    requires i < |probe|
    ensures ProbeOuts(build, kb, kp, jt, probe[i..])
            == ProbeOut(build, kb, kp, jt, probe[i]) + ProbeOuts(build, kb, kp, jt, probe[i + 1..])
  {
    assert probe[i..][1..] == probe[i + 1..];
  }

  lemma NoProbes(build: seq<Row>, kb: KeyOf, kp: KeyOf, jt: JoinType)
    ensures ProbeOuts(build, kb, kp, jt, []) == []
  {
  }

  lemma NothingRecorded(table: map<string, seq<Row>>, kp: KeyOf)
    ensures Recorded({}, table, kp, [])
  {
  }

  lemma Found(table: map<string, seq<Row>>, build: seq<Row>, kb: KeyOf, k: string)
    requires IsTable(table, build, kb) && k in table
    ensures Lookup(table, Some(k)) == table[k] && table[k] != []
  {
  }

  lemma NotFound(table: map<string, seq<Row>>, key: Option<string>)
    requires !(key.Some? && key.value in table)
    ensures Lookup(table, key) == []
  {
  }

  lemma RowsOfProbeOnly(p: Row, bp: string, pp: string)
    ensures RowsOf([ProbeOnly(p)], bp, pp) == [Qualify(p, pp)]
  {
  }

  /** What is still due once the probe has reached row `i`. */
  ghost function Due(build: seq<Row>, kb: KeyOf, kp: KeyOf, jt: JoinType, probe: seq<Row>, i: nat): multiset<Joined>
    requires i <= |probe|
  {
    multiset(ProbeOuts(build, kb, kp, jt, probe[i..]))
    + multiset(if jt == Right then BuildOnlys(build, kb, UnmatchedKeys(kp, probe)) else [])
  }

  lemma DueStep(build: seq<Row>, kb: KeyOf, kp: KeyOf, jt: JoinType, probe: seq<Row>, i: nat)
    requires i < |probe|
    ensures Due(build, kb, kp, jt, probe, i)
            == multiset(ProbeOut(build, kb, kp, jt, probe[i])) + Due(build, kb, kp, jt, probe, i + 1)
  {
    hide ProbeOut, ProbeOuts, BuildOnlys, UnmatchedKeys;
    ProbeOutsStep(build, kb, kp, jt, probe, i);
  }

  lemma DueAtEnd(table: map<string, seq<Row>>, matched: set<string>, build: seq<Row>, kb: KeyOf, kp: KeyOf,
                 jt: JoinType, probe: seq<Row>)
    requires IsTable(table, build, kb) && (jt == Right ==> Recorded(matched, table, kp, probe))
    ensures Due(build, kb, kp, jt, probe, |probe|)
         == multiset(if jt == Right then BuildOnlys(build, kb, KeysOutside(matched)) else [])
  {
    if jt == Right {
      UnmatchedAtEnd(matched, table, build, kb, kp, probe);
    }
  }

  lemma TakeOne<T>(s: seq<T>, i: nat)
    requires i < |s|
    ensures multiset(s[i..]) - multiset{s[i]} == multiset(s[i + 1..]) && s[i] in multiset(s[i..])
  {
    assert s[i..] == [s[i]] + s[i + 1..];
  }

  /** The join as an iterator: each call gives one of the rows still due. */
  class HashJoinIter {
    const table: map<string, seq<Row>>
    const nulls: seq<Row>
    const probe: seq<Row>
    const kp: KeyOf
    const jt: JoinType
    const bp: string
    const pp: string
    ghost const build: seq<Row>
    ghost const kb: KeyOf

    var probePos: nat
    var currentMatches: seq<Row>
    var matchPos: nat
    var matched: set<string>
    var unmatched: seq<Row>
    var unmatchedPos: nat
    var exhausted: bool
    ghost var pending: seq<Joined>
    ghost var tail: seq<Joined>

    ghost predicate Valid()
      reads this
    {
      && IsTable(table, build, kb) && nulls == WithKey(build, kb, None)
      && currentMatches == RowsOf(pending, bp, pp) && matchPos <= |currentMatches|
      && unmatched == RowsOf(tail, bp, pp) && unmatchedPos <= |unmatched|
      && probePos <= |probe|
      && (jt == Right ==> Recorded(matched, table, kp, probe[..probePos]))
    }

    /** The rows still to come, as a bag. */
    ghost function Remaining(): multiset<Joined>
      reads this
      requires Valid()
    {
      multiset(pending[matchPos..])
      + if exhausted then multiset(tail[unmatchedPos..]) else Due(build, kb, kp, jt, probe, probePos)
    }

    constructor (build: seq<Row>, probe: seq<Row>, kb: KeyOf, kp: KeyOf, jt: JoinType, bp: string, pp: string)
      ensures Valid() && Remaining() == multiset(Denoted(build, probe, kb, kp, jt))
      ensures this.bp == bp && this.pp == pp
    {
      var t, n := BuildTable(build, kb);
      table, nulls := t, n;
      this.build, this.kb := build, kb;
      this.probe, this.kp, this.jt, this.bp, this.pp := probe, kp, jt, bp, pp;
      probePos, matchPos, unmatchedPos, exhausted := 0, 0, 0, false;
      currentMatches, matched, unmatched := [], {}, [];
      pending, tail := [], [];
      new;
      NothingRecorded(table, kp);
      assert probe[0..] == probe;
    }

    method Next() returns (r: Option<Row>, ghost j: Joined)
      requires Valid()
      modifies this
      ensures Valid()
      ensures r.None? ==> old(Remaining()) == Remaining() == multiset{}
      ensures r.Some? ==> j in old(Remaining()) && r.value == RowOf(j, bp, pp)
      ensures r.Some? ==> Remaining() == old(Remaining()) - multiset{j}
    {
      hide Valid, Due, RowOf, RowsOf;
      j := ProbeOnly(map[]);
      while true
        invariant Valid() && Remaining() == old(Remaining())
        decreases |probe| - probePos, !exhausted
      {
        WithinBounds();
        if matchPos < |currentMatches| {
          r, j := EmitMatch();
          return;
        }
        if exhausted {
          if unmatchedPos < |unmatched| {
            r, j := EmitUnmatched();
            return;
          }
          NothingLeft();
          return None, j;
        }
        if probePos == |probe| {
          StartTail();
        } else {
          ProbeNext();
        }
      }
    }

    method EmitMatch() returns (r: Option<Row>, ghost j: Joined)
      requires Valid() && matchPos < |currentMatches|
      modifies this`matchPos
      ensures Valid() && j in old(Remaining()) && Remaining() == old(Remaining()) - multiset{j}
      ensures r == Some(RowOf(j, bp, pp))
    {
      hide IsTable, WithKey, Due, Recorded, RowOf, RowsOf;
      j := pending[matchPos];
      TakeOne(pending, matchPos);
      matchPos := matchPos + 1;
      return Some(currentMatches[matchPos - 1]), j;
    }

    method EmitUnmatched() returns (r: Option<Row>, ghost j: Joined)
      requires Valid() && exhausted && unmatchedPos < |unmatched|
      modifies this`unmatchedPos
      ensures Valid() && j in old(Remaining()) && Remaining() == old(Remaining()) - multiset{j}
      ensures r == Some(RowOf(j, bp, pp))
    {
      hide IsTable, WithKey, Due, Recorded, RowOf, RowsOf;
      j := tail[unmatchedPos];
      TakeOne(tail, unmatchedPos);
      unmatchedPos := unmatchedPos + 1;
      return Some(unmatched[unmatchedPos - 1]), j;
    }

    lemma NothingLeft()
      requires Valid() && matchPos == |currentMatches| && exhausted && unmatchedPos == |unmatched|
      ensures Remaining() == multiset{}
    {
    }

    lemma WithinBounds()
      requires Valid()
      ensures matchPos <= |currentMatches| && unmatchedPos <= |unmatched| && probePos <= |probe|
    {
    }

    /** With the probe exhausted, collects the unmatched build rows if they are wanted. */
    method StartTail()
      requires Valid() && matchPos == |currentMatches| && !exhausted && probePos == |probe|
      modifies this`exhausted, this`unmatched, this`unmatchedPos, this`tail
      ensures Valid() && exhausted && Remaining() == old(Remaining())
    {
      hide IsTable, WithKey, BuildOnlys, Due, Recorded, KeysOutside, RowOf, RowsOf;
      assert probe[..probePos] == probe;
      DueAtEnd(table, matched, build, kb, kp, jt, probe);
      exhausted, unmatched, unmatchedPos, tail := true, [], 0, [];
      NoRows(bp, pp);
      if jt == Right {
        unmatched := CollectUnmatched(table, nulls, matched, bp, pp, build, kb);
        ghost var due := multiset(BuildOnlys(build, kb, KeysOutside(matched)));
        ghost var js :| unmatched == RowsOf(js, bp, pp) && multiset(js) == due;
        tail := js;
        assert tail[0..] == tail;
      }
    }

    /** Takes the next probe row and buffers what it gives. */
    method ProbeNext()
      requires Valid() && matchPos == |currentMatches| && !exhausted && probePos < |probe|
      modifies this`probePos, this`currentMatches, this`matchPos, this`matched, this`pending
      ensures Valid() && probePos == old(probePos) + 1 && Remaining() == old(Remaining())
    {
      hide IsTable, WithKey, Due, ProbeOut, CombineAll, Pairs, Lookup, Recorded, Qualify, RowsOf, RowOf;
      var p := probe[probePos];
      DueStep(build, kb, kp, jt, probe, probePos);
      ProbeHits(table, build, kb, kp, jt, p);
      if jt == Right {
        RecordOne(matched, table, kp, probe, probePos);
      }
      var key := kp(p);
      probePos := probePos + 1;
      if key.Some? && key.value in table {
        Found(table, build, kb, key.value);
        RowsOfPairs(table[key.value], p, bp, pp);
        if jt == Right {
          matched := matched + {key.value};
        }
        currentMatches, matchPos, pending := CombineAll(table[key.value], p, bp, pp), 0, Pairs(table[key.value], p);
        assert pending[0..] == pending;
      } else {
        NotFound(table, key);
        if jt == Left {
          RowsOfProbeOnly(p, bp, pp);
          currentMatches, matchPos, pending := [Qualify(p, pp)], 0, [ProbeOnly(p)];
          assert pending[0..] == pending;
        }
      }
    }
  }

  /** Draining the iterator gives the same bag as the one loop. */
  method Drain(it: HashJoinIter) returns (rows: seq<Row>)
    requires it.Valid()
    modifies it
    ensures Yields(rows, old(it.Remaining()), it.bp, it.pp)
  {
    hide HashJoinIter.Valid, HashJoinIter.Remaining, RowOf, RowsOf;
    ghost var js: seq<Joined> := [];
    rows := [];
    NoRows(it.bp, it.pp);
    while true
      invariant it.Valid() && rows == RowsOf(js, it.bp, it.pp)
      invariant multiset(js) + it.Remaining() == old(it.Remaining())
      decreases |it.Remaining()|
    {
      var r;
      ghost var j;
      r, j := it.Next();
      match r
      case None => return;
      case Some(row) =>
        RowsOfConcat(js, [j], it.bp, it.pp);
        assert RowsOf([j], it.bp, it.pp) == [row];
        rows, js := rows + [row], js + [j];
    }
  }
}
