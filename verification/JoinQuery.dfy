/** A join query with its WHERE, the plan chosen for it, and what the plan yields. */
module JoinQuery {
  import opened Basics
  import opened HashJoin
  import opened Sql
  import opened Resolve
  import opened Planner
  import opened Pushdown

  datatype Table = Table(columns: map<string, ColumnType>, rows: seq<Row>)

  type Db = map<string, Table>

  /** How literals compare and how numeric join keys are written canonically. */
  datatype Env = Env(cmp: Compares, canon: (Option<ColumnType>, string) -> string)

  datatype Query = Query(left: string, right: string, jt: JoinType, onLeft: string, onRight: string,
                         where: Option<WhereExpr>)

  datatype Plan =
    | Scan(table: string, filter: Option<WhereExpr>)
    | Join(build: Plan, probe: Plan, jt: JoinType, buildCol: string, probeCol: string, buildTable: string,
           probeTable: string)
    | Select(child: Plan, where: WhereExpr)

  // ----- Planning -----

  predicate QualifiedBy(column: string, table: string) {
    var parts := SplitOnce(column, '.');
    parts.Some? && EqIgnoreCase(parts.value.0, table)
  }

  predicate OwnedBy(e: WhereExpr, table: string) {
    Columns(e) != {} && forall c | c in Columns(e) :: QualifiedBy(c, table)
  }

  function OwnedTest(table: string): WhereExpr -> bool {
    (e: WhereExpr) => OwnedBy(e, table)
  }

  /** The conjuncts a scan of `table` may evaluate on its own. */
  function Owned(where: Option<WhereExpr>, table: string): Option<WhereExpr> {
    if where.None? then None
    else
      var parts := Filter(OwnedTest(table), Conjuncts(where.value));
      if parts == [] then None else Some(AndAll(parts))
  }

  function LeftScan(q: Query): Plan {
    Scan(q.left, if q.jt == Right then None else Owned(q.where, q.left))
  }

  function RightScan(q: Query): Plan {
    Scan(q.right, if q.jt == Left then None else Owned(q.where, q.right))
  }

  /** The side with the smaller estimate is hashed. */
  function PlanFrom(q: Query, estimate: Plan -> nat): Plan {
    if estimate(LeftScan(q)) <= estimate(RightScan(q)) then
      Join(LeftScan(q), RightScan(q), FlipOuterJoin(q.jt), q.onLeft, q.onRight, q.left, q.right)
    else
      Join(RightScan(q), LeftScan(q), q.jt, q.onRight, q.onLeft, q.right, q.left)
  }

  function PlanSelect(q: Query, estimate: Plan -> nat): Plan {
    if q.where.Some? then Select(PlanFrom(q, estimate), q.where.value) else PlanFrom(q, estimate)
  }

  // ----- Executing a plan -----

  ghost function Reads(row: Row): Reader {
    (c: string) => RowLookup(row, c)
  }

  ghost function Types(types: map<string, ColumnType>): Typing {
    (c: string) => TypeLookup(types, c)
  }

  ghost function Keeps(filter: Option<WhereExpr>, types: map<string, ColumnType>, env: Env): Row -> bool {
    (row: Row) => filter.None? || Eval(filter.value, Reads(row), Types(types), env.cmp) == True
  }

  function KeyIn(t: Table, column: string, env: Env): KeyOf {
    CellKey(column, (v: string) => env.canon(Get(t.columns, column), v))
  }

  function ColumnsOf(db: Db, table: string): map<string, ColumnType> {
    if table in db then db[table].columns else map[]
  }

  function OutputTypes(plan: Plan, db: Db): map<string, ColumnType> {
    match plan
    case Scan(t, _) => Combine(ColumnsOf(db, t), map[], t + ".", "")
    case Join(_, _, _, _, _, bt, pt) => Combine(ColumnsOf(db, bt), ColumnsOf(db, pt), bt + ".", pt + ".")
    case Select(child, _) => OutputTypes(child, db)
  }

  /** The row sequences a plan may produce; a hash join fixes only the bag. */
  ghost predicate Produces(plan: Plan, db: Db, env: Env, rows: seq<Row>) {
    match plan
    case Scan(t, filter) =>
      t in db && rows == Filter(Keeps(filter, db[t].columns, env), db[t].rows)
    case Join(build, probe, jt, bc, pc, bt, pt) =>
      bt in db && pt in db && exists bs, ps ::
        && Produces(build, db, env, bs) && Produces(probe, db, env, ps)
        && Yields(rows, multiset(Denoted(bs, ps, KeyIn(db[bt], bc, env), KeyIn(db[pt], pc, env), jt)), bt + ".",
                  pt + ".")
    case Select(child, where) =>
      exists inner :: Produces(child, db, env, inner)
          && rows == Filter(Keeps(Some(where), OutputTypes(child, db), env), inner)
  }

  // ----- What the query means -----

  ghost predicate Fits(row: Row, t: Table) {
    row.Keys <= t.columns.Keys
  }

  ghost predicate TableOk(t: Table) {
    Plain(t.columns) && forall i | 0 <= i < |t.rows| :: Fits(t.rows[i], t)
  }

  /** The columns statement validation admits: bare names owned by one table,
      qualified names of a column the named table has. */
  ghost predicate Resolvable(q: Query, db: Db, column: string) {
    var lc, rc := ColumnsOf(db, q.left), ColumnsOf(db, q.right);
    match SplitOnce(column, '.')
    case None => (column in lc) != (column in rc)
    case Some((t, c)) => if EqIgnoreCase(t, q.left) then c in lc else EqIgnoreCase(t, q.right) && c in rc
  }

  ghost predicate WellFormed(q: Query, db: Db) {
    && q.left in db && q.right in db && PlainTables(q.left, q.right)
    && TableOk(db[q.left]) && TableOk(db[q.right])
    && (q.where.Some? ==> forall c | c in Columns(q.where.value) :: Resolvable(q, db, c))
  }

  function LeftCells(o: Outcome): Row {
    if o.RightRow? then map[] else o.l
  }

  function RightCells(o: Outcome): Row {
    if o.LeftRow? then map[] else o.r
  }

  /** The side a column belongs to. */
  predicate OfLeft(q: Query, db: Db, column: string) {
    match SplitOnce(column, '.')
    case None => column in ColumnsOf(db, q.left)
    case Some((t, _)) => EqIgnoreCase(t, q.left)
  }

  function Bare(column: string): string {
    match SplitOnce(column, '.') case None => column case Some((_, c)) => c
  }

  /** The value of a column in a joined row: NULL if its side is absent. */
  function Meaning(q: Query, db: Db, o: Outcome, column: string): Option<string> {
    Flat(Get(if OfLeft(q, db, column) then LeftCells(o) else RightCells(o), Bare(column)))
  }

  function TypeMeaning(q: Query, db: Db, column: string): Option<ColumnType> {
    Get(ColumnsOf(db, if OfLeft(q, db, column) then q.left else q.right), Bare(column))
  }

  function Means(q: Query, db: Db, o: Outcome): Reader {
    (c: string) => Meaning(q, db, o, c)
  }

  function TypesMean(q: Query, db: Db): Typing {
    (c: string) => TypeMeaning(q, db, c)
  }

  ghost function Selects(q: Query, db: Db, env: Env): Outcome -> bool {
    (o: Outcome) => q.where.None? || Eval(q.where.value, Means(q, db, o), TypesMean(q, db), env.cmp) == True
  }

  ghost predicate FitsOutcome(q: Query, db: Db, o: Outcome)
    requires q.left in db && q.right in db
  {
    Fits(LeftCells(o), db[q.left]) && Fits(RightCells(o), db[q.right])
  }

  // ----- Joined rows read as the query means -----

  function BuildCells(j: Joined): Row {
    if j.ProbeOnly? then map[] else j.build
  }

  function ProbeCells(j: Joined): Row {
    if j.BuildOnly? then map[] else j.probe
  }

  lemma RowOfIsCombine(j: Joined, bp: string, pp: string)
    ensures RowOf(j, bp, pp) == Combine(BuildCells(j), ProbeCells(j), bp, pp)
  {
    var empty: Row := map[];
    assert Prefixed(empty, bp) == empty && Prefixed(empty, pp) == empty;
  }

  lemma PlainRow(row: Row, t: Table)
    requires Plain(t.columns) && Fits(row, t)
    ensures Plain(row)
  {
  }

  function BuildName(q: Query, leftIsBuild: bool): string {
    if leftIsBuild then q.left else q.right
  }

  lemma CaseSymmetricIff(a: string, b: string)
    ensures EqIgnoreCase(a, b) <==> EqIgnoreCase(b, a)
  {
  }

  /** Either side hashed, a joined row reads each column as the query means it. */
  lemma JoinedRowMeans(q: Query, db: Db, j: Joined, leftIsBuild: bool, column: string)
    requires WellFormed(q, db) && FitsOutcome(q, db, Orient(j, leftIsBuild)) && Resolvable(q, db, column)
    ensures RowLookup(RowOf(j, BuildName(q, leftIsBuild) + ".", BuildName(q, !leftIsBuild) + "."), column)
         == Meaning(q, db, Orient(j, leftIsBuild), column)
  {
    hide SplitOnce, EqIgnoreCase, RowOf, Combine, RowLookup;
    var bt, pt, o := BuildName(q, leftIsBuild), BuildName(q, !leftIsBuild), Orient(j, leftIsBuild);
    RowOfIsCombine(j, bt + ".", pt + ".");
    PlainRow(LeftCells(o), db[q.left]);
    PlainRow(RightCells(o), db[q.right]);
    CaseSymmetricIff(q.left, q.right);
    CombinedLookup(BuildCells(j), ProbeCells(j), bt, pt, column);
    match SplitOnce(column, '.')
    case None =>
    case Some((t, _)) =>
      CaseTransitive(q.left, t, q.right);
  }

  lemma JoinedTypesMean(q: Query, db: Db, leftIsBuild: bool, column: string)
    requires WellFormed(q, db) && Resolvable(q, db, column)
    ensures var bt, pt := BuildName(q, leftIsBuild), BuildName(q, !leftIsBuild);
            TypeLookup(Combine(ColumnsOf(db, bt), ColumnsOf(db, pt), bt + ".", pt + "."), column)
                == TypeMeaning(q, db, column)
  {
    hide SplitOnce, EqIgnoreCase, Combine, TypeLookup;
    var bt, pt := BuildName(q, leftIsBuild), BuildName(q, !leftIsBuild);
    CaseSymmetricIff(q.left, q.right);
    CombinedTypes(ColumnsOf(db, bt), ColumnsOf(db, pt), bt, pt, column);
    match SplitOnce(column, '.')
    case None =>
    case Some((t, _)) =>
      CaseTransitive(q.left, t, q.right);
  }

  /** The filter above the join decides each joined row as the query means. */
  lemma FilterMeansWhere(q: Query, db: Db, env: Env, j: Joined, leftIsBuild: bool)
    requires WellFormed(q, db) && FitsOutcome(q, db, Orient(j, leftIsBuild)) && q.where.Some?
    ensures var bt, pt := BuildName(q, leftIsBuild), BuildName(q, !leftIsBuild);
            var types := Combine(ColumnsOf(db, bt), ColumnsOf(db, pt), bt + ".", pt + ".");
            Keeps(q.where, types, env)(RowOf(j, bt + ".", pt + ".")) == Selects(q, db, env)(Orient(j, leftIsBuild))
  {
    hide SplitOnce, EqIgnoreCase, RowOf, Combine, RowLookup, TypeLookup, Meaning, TypeMeaning, Resolvable,
         FitsOutcome, Eval;
    var bt, pt, o := BuildName(q, leftIsBuild), BuildName(q, !leftIsBuild), Orient(j, leftIsBuild);
    var types := Combine(ColumnsOf(db, bt), ColumnsOf(db, pt), bt + ".", pt + ".");
    var row := RowOf(j, bt + ".", pt + ".");
    forall c | c in Columns(q.where.value)
      ensures Reads(row)(c) == Means(q, db, o)(c) && Types(types)(c) == TypesMean(q, db)(c)
    {
      JoinedRowMeans(q, db, j, leftIsBuild, c);
      JoinedTypesMean(q, db, leftIsBuild, c);
    }
    EvalAgrees(q.where.value, Reads(row), Types(types), Means(q, db, o), TypesMean(q, db), env.cmp);
  }

  // ----- A pushed conjunct is implied by the filter above the join -----

  /** On a stored row a column qualified to its table reads the bare cell. */
  lemma ScanReads(row: Row, columns: map<string, ColumnType>, table: string, column: string)
    requires Plain(row) && Plain(columns) && QualifiedBy(column, table)
    ensures RowLookup(row, column) == Flat(Get(row, Bare(column)))
    ensures TypeLookup(columns, column) == Get(columns, Bare(column))
  {
    hide SplitOnce, EqIgnoreCase, FindNamed;
  }

  lemma OwnedColumn(q: Query, db: Db, side: string, column: string)
    requires WellFormed(q, db) && (side == q.left || side == q.right) && QualifiedBy(column, side)
    ensures OfLeft(q, db, column) <==> side == q.left
  {
    hide SplitOnce, EqIgnoreCase;
    var t := SplitOnce(column, '.').value.0;
    SameName(q.left);
    CaseTransitive(q.left, t, q.right);
  }

  lemma OwnedConjunctMeans(q: Query, db: Db, env: Env, e: WhereExpr, o: Outcome, side: string, row: Row)
    requires WellFormed(q, db) && OwnedBy(e, side)
    requires (side == q.left && row == LeftCells(o)) || (side == q.right && row == RightCells(o))
    requires side in db && Fits(row, db[side])
    ensures Eval(e, Reads(row), Types(db[side].columns), env.cmp) == Eval(e, Means(q, db, o), TypesMean(q, db), env.cmp)
  {
    hide SplitOnce, EqIgnoreCase, RowLookup, TypeLookup, Eval, QualifiedBy, OfLeft, Bare;
    PlainRow(row, db[side]);
    assert q.left != q.right by { SameName(q.left); }
    forall c | c in Columns(e)
      ensures Reads(row)(c) == Means(q, db, o)(c) && Types(db[side].columns)(c) == TypesMean(q, db)(c)
    {
      ScanReads(row, db[side].columns, side, c);
      OwnedColumn(q, db, side, c);
    }
    EvalAgrees(e, Reads(row), Types(db[side].columns), Means(q, db, o), TypesMean(q, db), env.cmp);
  }

  lemma {:induction false} OwnedParts(es: seq<WhereExpr>, table: string, i: nat)
    requires i < |Filter(OwnedTest(table), es)|
    ensures exists k :: 0 <= k < |es| && OwnedBy(es[k], table) && es[k] == Filter(OwnedTest(table), es)[i]
  {
    hide OwnedBy;
    var n := |es| - 1;
    var parts := Filter(OwnedTest(table), es[..n]);
    if i < |parts| {
      OwnedParts(es[..n], table, i);
      var k :| 0 <= k < n && OwnedBy(es[..n][k], table) && es[..n][k] == parts[i];
      assert es[k] == es[..n][k];
    } else {
      assert Filter(OwnedTest(table), es)[i] == es[n];
    }
  }

  /** A row of an outcome the query selects passes its side's pushed filter. */
  lemma SelectedPassesScan(q: Query, db: Db, env: Env, o: Outcome, side: string, row: Row)
    requires WellFormed(q, db) && Selects(q, db, env)(o)
    requires (side == q.left && row == LeftCells(o)) || (side == q.right && row == RightCells(o))
    requires side in db && Fits(row, db[side])
    ensures Keeps(Owned(q.where, side), db[side].columns, env)(row)
  {
    hide Eval, OwnedBy, Filter;
    if Owned(q.where, side).Some? {
      var look, typing := Means(q, db, o), TypesMean(q, db);
      var conjuncts := Conjuncts(q.where.value);
      var parts := Filter(OwnedTest(side), conjuncts);
      ConjunctsTrue(q.where.value, look, typing, env.cmp);
      forall i | 0 <= i < |parts| ensures Eval(parts[i], Reads(row), Types(db[side].columns), env.cmp) == True {
        OwnedParts(conjuncts, side, i);
        OwnedConjunctMeans(q, db, env, parts[i], o, side, row);
      }
      AndAllTrue(parts, Reads(row), Types(db[side].columns), env.cmp);
    }
  }

  /** A part of the WHERE about one table: it names columns, all qualified by the table. */
  ghost predicate IsAbout(part: WhereExpr, table: string) {
    (exists c :: c in Columns(part)) && forall c | c in Columns(part) :: QualifiedBy(c, table)
  }

  /** What a scan is asked to keep: exactly the rows that make every conjunct about its
      table true, unless the join preserves the other side. */
  lemma ScanKeepsIff(q: Query, types: map<string, ColumnType>, env: Env, row: Row)
    ensures Keeps(LeftScan(q).filter, types, env)(row) <==>
            || q.jt == Right || q.where.None?
            || forall part | part in Conjuncts(q.where.value) && IsAbout(part, q.left) ::
                 Eval(part, Reads(row), Types(types), env.cmp) == True
    ensures Keeps(RightScan(q).filter, types, env)(row) <==>
            || q.jt == Left || q.where.None?
            || forall part | part in Conjuncts(q.where.value) && IsAbout(part, q.right) ::
                 Eval(part, Reads(row), Types(types), env.cmp) == True
  {
    hide Eval, Columns, Conjuncts, AndAll, Filter;
    if q.where.Some? {
      assert q.where == Some(q.where.value);
      OwnedKeepsIff(q.where.value, q.left, types, env, row);
      OwnedKeepsIff(q.where.value, q.right, types, env, row);
    }
  }

  lemma OwnedKeepsIff(where: WhereExpr, table: string, types: map<string, ColumnType>, env: Env, row: Row)
    ensures Keeps(Owned(Some(where), table), types, env)(row) <==>
            forall part | part in Conjuncts(where) && IsAbout(part, table) ::
              Eval(part, Reads(row), Types(types), env.cmp) == True
  {
    hide Eval, Columns, Conjuncts, Filter, QualifiedBy;
    var all := Conjuncts(where);
    var parts := Filter(OwnedTest(table), all);
    forall part ensures part in parts <==> part in all && IsAbout(part, table) {
      FilterCount(OwnedTest(table), all, part);
      assert part in parts <==> multiset(parts)[part] > 0;
      assert part in all <==> multiset(all)[part] > 0;
    }
    if parts != [] {
      AndAllTrue(parts, Reads(row), Types(types), env.cmp);
      assert forall i | 0 <= i < |parts| :: parts[i] in parts;
    } else {
      assert forall part :: part !in parts;
    }
  }

  /** The side hashed is the one with the smaller estimate, and both are scanned. */
  lemma SmallerIsHashed(q: Query, estimate: Plan -> nat)
    ensures var p := PlanFrom(q, estimate);
            && estimate(p.build) <= estimate(p.probe)
            && multiset{p.build, p.probe} == multiset{LeftScan(q), RightScan(q)}
  {
  }

  lemma ScansCover(q: Query, db: Db, env: Env)
    requires WellFormed(q, db)
    ensures CoversLeft(Keeps(Owned(q.where, q.left), db[q.left].columns, env), Selects(q, db, env), db[q.left].rows,
                       db[q.right].rows)
    ensures CoversRight(Keeps(Owned(q.where, q.right), db[q.right].columns, env), Selects(q, db, env),
                        db[q.left].rows, db[q.right].rows)
  {
    hide Keeps, Selects, Owned;
    var ls, rs := db[q.left].rows, db[q.right].rows;
    forall i, j | 0 <= i < |ls| && 0 <= j < |rs| && Selects(q, db, env)(Match(ls[i], rs[j]))
      ensures Keeps(Owned(q.where, q.left), db[q.left].columns, env)(ls[i])
      ensures Keeps(Owned(q.where, q.right), db[q.right].columns, env)(rs[j])
    {
      SelectedPassesScan(q, db, env, Match(ls[i], rs[j]), q.left, ls[i]);
      SelectedPassesScan(q, db, env, Match(ls[i], rs[j]), q.right, rs[j]);
    }
    forall i | 0 <= i < |ls| && Selects(q, db, env)(LeftRow(ls[i]))
      ensures Keeps(Owned(q.where, q.left), db[q.left].columns, env)(ls[i])
    {
      SelectedPassesScan(q, db, env, LeftRow(ls[i]), q.left, ls[i]);
    }
    forall j | 0 <= j < |rs| && Selects(q, db, env)(RightRow(rs[j]))
      ensures Keeps(Owned(q.where, q.right), db[q.right].columns, env)(rs[j])
    {
      SelectedPassesScan(q, db, env, RightRow(rs[j]), q.right, rs[j]);
    }
  }

  // ----- Every outcome of a join is made of rows of its tables -----

  ghost predicate AllFit(q: Query, db: Db, os: seq<Outcome>)
    requires q.left in db && q.right in db
  {
    forall i | 0 <= i < |os| :: FitsOutcome(q, db, os[i])
  }

  ghost predicate RowsFit(rows: seq<Row>, t: Table) {
    forall i | 0 <= i < |rows| :: Fits(rows[i], t)
  }

  lemma {:induction false} FilteredFit(keep: Row -> bool, rows: seq<Row>, t: Table)
    requires RowsFit(rows, t)
    ensures RowsFit(Filter(keep, rows), t)
  {
    if rows != [] {
      FilteredFit(keep, rows[..|rows| - 1], t);
    }
  }

  lemma {:induction false} MatchesFit(q: Query, db: Db, l: Row, rs: seq<Row>, kl: KeyOf, kr: KeyOf)
    requires q.left in db && q.right in db && Fits(l, db[q.left]) && RowsFit(rs, db[q.right])
    ensures AllFit(q, db, MatchesOf(l, rs, kl, kr))
  {
    if rs != [] {
      MatchesFit(q, db, l, rs[..|rs| - 1], kl, kr);
    }
  }

  lemma {:induction false} AllMatchesFit(q: Query, db: Db, ls: seq<Row>, rs: seq<Row>, kl: KeyOf, kr: KeyOf)
    requires q.left in db && q.right in db && RowsFit(ls, db[q.left]) && RowsFit(rs, db[q.right])
    ensures AllFit(q, db, AllMatches(ls, rs, kl, kr))
  {
    hide MatchesOf, Fits;
    if ls != [] {
      AllMatchesFit(q, db, ls[1..], rs, kl, kr);
      MatchesFit(q, db, ls[0], rs, kl, kr);
    }
  }

  lemma {:induction false} LonesFit(q: Query, db: Db, ls: seq<Row>, rs: seq<Row>, kl: KeyOf, kr: KeyOf)
    requires q.left in db && q.right in db && RowsFit(ls, db[q.left]) && RowsFit(rs, db[q.right])
    ensures AllFit(q, db, LoneLefts(ls, rs, kl, kr))
    decreases |ls|
  {
    if ls != [] {
      LonesFit(q, db, ls[..|ls| - 1], rs, kl, kr);
    }
  }

  lemma {:induction false} LoneRightsFit(q: Query, db: Db, ls: seq<Row>, rs: seq<Row>, kl: KeyOf, kr: KeyOf)
    requires q.left in db && q.right in db && RowsFit(ls, db[q.left]) && RowsFit(rs, db[q.right])
    ensures AllFit(q, db, LoneRights(ls, rs, kl, kr))
    decreases |rs|
  {
    if rs != [] {
      LoneRightsFit(q, db, ls, rs[..|rs| - 1], kl, kr);
    }
  }

  /** A bag of outcomes equal to a reference join fits the tables. */
  lemma JoinFits(q: Query, db: Db, ls: seq<Row>, rs: seq<Row>, kl: KeyOf, kr: KeyOf, os: seq<Outcome>)
    requires q.left in db && q.right in db && RowsFit(ls, db[q.left]) && RowsFit(rs, db[q.right])
    requires multiset(os) == multiset(Reference(ls, rs, kl, kr, q.jt))
    ensures AllFit(q, db, os)
  {
    hide AllMatches, LoneLefts, LoneRights, Fits;
    AllMatchesFit(q, db, ls, rs, kl, kr);
    LonesFit(q, db, ls, rs, kl, kr);
    LoneRightsFit(q, db, ls, rs, kl, kr);
    var all := Reference(ls, rs, kl, kr, q.jt);
    assert AllFit(q, db, all);
    forall i | 0 <= i < |os| ensures FitsOutcome(q, db, os[i]) {
      assert os[i] in multiset(all);
    }
  }

  // ----- The plan computes the query -----

  /** Filtering rows and their outcomes by tests that agree keeps them paired. */
  lemma {:induction false} FilterPaired(keep: Row -> bool, selects: Outcome -> bool, rows: seq<Row>, os: seq<Outcome>,
                                        i: nat)
    requires |rows| == |os|
    requires forall k | 0 <= k < |rows| :: keep(rows[k]) == selects(os[k])
    ensures |Filter(keep, rows)| == |Filter(selects, os)|
    ensures i < |Filter(keep, rows)| ==>
              exists k :: 0 <= k < |rows| && Filter(keep, rows)[i] == rows[k] && Filter(selects, os)[i] == os[k]
  {
    if rows != [] {
      var n := |rows| - 1;
      FilterPaired(keep, selects, rows[..n], os[..n], i);
      if i < |Filter(keep, rows[..n])| {
        var k :| 0 <= k < n && Filter(keep, rows[..n])[i] == rows[..n][k] && Filter(selects, os[..n])[i] == os[..n][k];
        assert rows[k] == rows[..n][k] && os[k] == os[..n][k];
      } else if i < |Filter(keep, rows)| {
        assert Filter(keep, rows)[i] == rows[n] && Filter(selects, os)[i] == os[n];
      }
    }
  }

  ghost function LeftKey(q: Query, db: Db, env: Env): KeyOf
    requires q.left in db
  {
    KeyIn(db[q.left], q.onLeft, env)
  }

  ghost function RightKey(q: Query, db: Db, env: Env): KeyOf
    requires q.right in db
  {
    KeyIn(db[q.right], q.onRight, env)
  }

  /** The filtered join the query denotes, before any planning. */
  ghost function Answer(q: Query, db: Db, env: Env): seq<Outcome>
    requires q.left in db && q.right in db
  {
    Filter(Selects(q, db, env),
           Reference(db[q.left].rows, db[q.right].rows, LeftKey(q, db, env), RightKey(q, db, env), q.jt))
  }

  ghost predicate ReadsAs(q: Query, db: Db, row: Row, o: Outcome) {
    forall c | Resolvable(q, db, c) :: RowLookup(row, c) == Meaning(q, db, o, c)
  }

  ghost function PushedLeft(q: Query, db: Db, env: Env): seq<Row>
    requires q.left in db
  {
    Filter(Keeps(LeftScan(q).filter, db[q.left].columns, env), db[q.left].rows)
  }

  ghost function PushedRight(q: Query, db: Db, env: Env): seq<Row>
    requires q.right in db
  {
    Filter(Keeps(RightScan(q).filter, db[q.right].columns, env), db[q.right].rows)
  }

  /** What the join below the filter produces, with either side hashed. */
  lemma JoinYields(q: Query, db: Db, env: Env, estimate: Plan -> nat, inner: seq<Row>)
    returns (js: seq<Joined>, leftIsBuild: bool)
    requires WellFormed(q, db) && Produces(PlanFrom(q, estimate), db, env, inner)
    ensures inner == RowsOf(js, BuildName(q, leftIsBuild) + ".", BuildName(q, !leftIsBuild) + ".")
    ensures PlanFrom(q, estimate).buildTable == BuildName(q, leftIsBuild)
    ensures PlanFrom(q, estimate).probeTable == BuildName(q, !leftIsBuild)
    ensures multiset(OrientAll(js, leftIsBuild))
         == multiset(Reference(PushedLeft(q, db, env), PushedRight(q, db, env), LeftKey(q, db, env),
                               RightKey(q, db, env), q.jt))
  {
    hide Owned, Keeps, Denoted, Reference, RowsOf, OrientAll, Filter;
    var plan := PlanFrom(q, estimate);
    leftIsBuild := estimate(LeftScan(q)) <= estimate(RightScan(q));
    var kb, kp := KeyIn(db[plan.buildTable], plan.buildCol, env), KeyIn(db[plan.probeTable], plan.probeCol, env);
    var bs, ps :|
      && Produces(plan.build, db, env, bs) && Produces(plan.probe, db, env, ps)
      && Yields(inner, multiset(Denoted(bs, ps, kb, kp, plan.jt)), plan.buildTable + ".", plan.probeTable + ".");
    js :| inner == RowsOf(js, plan.buildTable + ".", plan.probeTable + ".")
        && multiset(js) == multiset(Denoted(bs, ps, kb, kp, plan.jt));
    OrientBag(js, Denoted(bs, ps, kb, kp, plan.jt), leftIsBuild);
    BuildSideIsFree(PushedLeft(q, db, env), PushedRight(q, db, env), LeftKey(q, db, env), RightKey(q, db, env), q.jt,
                    leftIsBuild);
  }

  lemma PushedJoin(q: Query, db: Db, env: Env)
    requires WellFormed(q, db)
    ensures Filter(Selects(q, db, env),
              Reference(PushedLeft(q, db, env), PushedRight(q, db, env), LeftKey(q, db, env), RightKey(q, db, env),
                        q.jt))
         == Answer(q, db, env)
  {
    hide Owned, Reference, Selects;
    ScansCover(q, db, env);
    PushdownIsSound(Keeps(Owned(q.where, q.left), db[q.left].columns, env),
                    Keeps(Owned(q.where, q.right), db[q.right].columns, env),
                    Selects(q, db, env), db[q.left].rows, db[q.right].rows,
                    LeftKey(q, db, env), RightKey(q, db, env), q.jt);
    KeepsAll(db[q.left], env);
    KeepsAll(db[q.right], env);
  }

  lemma KeepsAll(t: Table, env: Env)
    ensures Filter(Keeps(None, t.columns, env), t.rows) == t.rows
  {
    FilterTrue(Keeps(None, t.columns, env), t.rows);
  }

  lemma {:induction false} FilterTrue<T>(p: T -> bool, s: seq<T>)
    requires forall i | 0 <= i < |s| :: p(s[i])
    ensures Filter(p, s) == s
  {
    if s != [] {
      FilterTrue(p, s[..|s| - 1]);
    }
  }

  // ----- The answer, joined row by joined row -----

  /** Both key cells are there, neither is NULL, and they have the same canonical
      text, each under the type its table declares. */
  predicate SameKey(q: Query, db: Db, env: Env, l: Row, r: Row)
    requires q.left in db && q.right in db
  {
    && q.onLeft in l && l[q.onLeft].Some? && q.onRight in r && r[q.onRight].Some?
    && env.canon(Get(db[q.left].columns, q.onLeft), l[q.onLeft].value)
       == env.canon(Get(db[q.right].columns, q.onRight), r[q.onRight].value)
  }

  /** How often a joined row occurs in the join. */
  function Occurrences(q: Query, db: Db, env: Env, o: Outcome): nat
    requires q.left in db && q.right in db
  {
    var ls, rs := db[q.left].rows, db[q.right].rows;
    match o
    case Match(l, r) => if SameKey(q, db, env, l, r) then multiset(ls)[l] * multiset(rs)[r] else 0
    case LeftRow(l) =>
      if q.jt == Left && forall i | 0 <= i < |rs| :: !SameKey(q, db, env, l, rs[i]) then multiset(ls)[l] else 0
    case RightRow(r) =>
      if q.jt == Right && forall i | 0 <= i < |ls| :: !SameKey(q, db, env, ls[i], r) then multiset(rs)[r] else 0
  }

  /** How often it occurs in the answer: as in the join, where WHERE holds of it. */
  ghost function Wanted(q: Query, db: Db, env: Env, o: Outcome): nat
    requires q.left in db && q.right in db
  {
    if q.where.None? || Holds(q.where.value, Means(q, db, o), TypesMean(q, db), env.cmp)
    then Occurrences(q, db, env, o) else 0
  }

  lemma KeysMeet(q: Query, db: Db, env: Env, l: Row, r: Row)
    requires q.left in db && q.right in db
    ensures Matches(LeftKey(q, db, env), RightKey(q, db, env), l, r) <==> SameKey(q, db, env, l, r)
  {
  }

  lemma JoinCounts(q: Query, db: Db, env: Env, o: Outcome)
    requires q.left in db && q.right in db
    ensures var ref := Reference(db[q.left].rows, db[q.right].rows, LeftKey(q, db, env), RightKey(q, db, env), q.jt);
            multiset(ref)[o] == Occurrences(q, db, env, o)
  {
    hide Matches, SameKey, AllMatches, LoneLefts, LoneRights, LeftKey, RightKey;
    var ls, rs, kl, kr := db[q.left].rows, db[q.right].rows, LeftKey(q, db, env), RightKey(q, db, env);
    AllMatchesCount(ls, rs, kl, kr, o);
    LoneLeftsCount(ls, rs, kl, kr, o);
    LoneRightsCount(ls, rs, kl, kr, o);
    forall l, r ensures Matches(kl, kr, l, r) <==> SameKey(q, db, env, l, r) {
      KeysMeet(q, db, env, l, r);
    }
  }

  /** A pair is joined exactly when both rows are stored and their keys are there, not
      NULL, and the same. */
  lemma MatchIff(q: Query, db: Db, env: Env, l: Row, r: Row)
    requires q.left in db && q.right in db
    ensures var ls, rs := db[q.left].rows, db[q.right].rows;
            Match(l, r) in Reference(ls, rs, LeftKey(q, db, env), RightKey(q, db, env), q.jt) <==>
            l in ls && r in rs && SameKey(q, db, env, l, r)
  {
    hide SameKey, Reference, LeftKey, RightKey;
    var ls, rs := db[q.left].rows, db[q.right].rows;
    var ref := Reference(ls, rs, LeftKey(q, db, env), RightKey(q, db, env), q.jt);
    JoinCounts(q, db, env, Match(l, r));
    assert Match(l, r) in ref <==> multiset(ref)[Match(l, r)] > 0;
    assert l in ls <==> multiset(ls)[l] > 0;
    assert r in rs <==> multiset(rs)[r] > 0;
    ProductPositive(multiset(ls)[l], multiset(rs)[r]);
  }

  lemma ProductPositive(a: nat, b: nat)
    ensures a * b > 0 <==> a > 0 && b > 0
  {
  }

  predicate NullKey(row: Row, column: string) {
    column !in row || row[column].None?
  }

  /** A row whose key is NULL joins nothing, and the side an outer join preserves keeps
      it, once for every time it is stored. */
  lemma NullKeyJoinsNothing(q: Query, db: Db, env: Env, l: Row, r: Row)
    requires q.left in db && q.right in db
    ensures var ls, rs := db[q.left].rows, db[q.right].rows;
            var ref := Reference(ls, rs, LeftKey(q, db, env), RightKey(q, db, env), q.jt);
            && (NullKey(l, q.onLeft) || NullKey(r, q.onRight) ==> Match(l, r) !in ref)
            && (NullKey(l, q.onLeft) ==>
                  multiset(ref)[LeftRow(l)] == if q.jt == Left then multiset(ls)[l] else 0)
            && (NullKey(r, q.onRight) ==>
                  multiset(ref)[RightRow(r)] == if q.jt == Right then multiset(rs)[r] else 0)
  {
    hide Reference, LeftKey, RightKey;
    MatchIff(q, db, env, l, r);
    JoinCounts(q, db, env, LeftRow(l));
    JoinCounts(q, db, env, RightRow(r));
  }

  lemma AnswerCounts(q: Query, db: Db, env: Env, o: Outcome)
    requires q.left in db && q.right in db
    ensures multiset(Answer(q, db, env))[o] == Wanted(q, db, env, o)
  {
    hide Reference, LeftKey, RightKey, Occurrences, Eval, Holds;
    JoinCounts(q, db, env, o);
    FilterCount(Selects(q, db, env),
                Reference(db[q.left].rows, db[q.right].rows, LeftKey(q, db, env), RightKey(q, db, env), q.jt), o);
    if q.where.Some? {
      EvalIff(q.where.value, Means(q, db, o), TypesMean(q, db), env.cmp);
    }
  }

  /** Whatever the estimates, the plan's rows are, as a bag, those of the
      unplanned join filtered by the whole WHERE, each joined row as often as
      wanted, and each reads every admissible column as its joined row does. */
  lemma PlanComputesQuery(q: Query, db: Db, env: Env, estimate: Plan -> nat, rows: seq<Row>) returns (os: seq<Outcome>)
    requires WellFormed(q, db) && Produces(PlanSelect(q, estimate), db, env, rows)
    ensures |os| == |rows| && forall i | 0 <= i < |rows| :: ReadsAs(q, db, rows[i], os[i])
    ensures multiset(os) == multiset(Answer(q, db, env))
    ensures forall o :: multiset(os)[o] == Wanted(q, db, env, o)
  {
    hide Wanted, Owned, Keeps, Reference, RowsOf, OrientAll, Filter, Selects, PushedLeft, PushedRight, Answer, PlanFrom,
         ReadsAs, Orient, RowOf, FitsOutcome;
    var inner: seq<Row> := rows;
    if q.where.Some? {
      inner :| Produces(PlanFrom(q, estimate), db, env, inner)
            && rows == Filter(Keeps(q.where, OutputTypes(PlanFrom(q, estimate), db), env), inner);
    }
    var js, leftIsBuild := JoinYields(q, db, env, estimate, inner);
    var paired := OrientAll(js, leftIsBuild);
    PushedFit(q, db, env, paired);
    forall k | 0 <= k < |inner| ensures ReadsAs(q, db, inner[k], paired[k]) {
      JoinedRowReads(q, db, js[k], leftIsBuild);
    }
    PushedJoin(q, db, env);
    FilterBag(Selects(q, db, env), paired,
              Reference(PushedLeft(q, db, env), PushedRight(q, db, env), LeftKey(q, db, env), RightKey(q, db, env),
                        q.jt));
    os := Filter(Selects(q, db, env), paired);
    if q.where.Some? {
      var keep := Keeps(q.where, OutputTypes(PlanFrom(q, estimate), db), env);
      PlanTypes(q, db, estimate, leftIsBuild);
      forall k | 0 <= k < |inner| ensures keep(inner[k]) == Selects(q, db, env)(paired[k]) {
        FilterMeansWhere(q, db, env, js[k], leftIsBuild);
      }
      FilterPaired(keep, Selects(q, db, env), inner, paired, 0);
      forall i | 0 <= i < |rows| ensures ReadsAs(q, db, rows[i], os[i]) {
        FilterPaired(keep, Selects(q, db, env), inner, paired, i);
      }
    } else {
      SelectsAll(q, db, env, paired);
    }
    forall o ensures multiset(os)[o] == Wanted(q, db, env, o) {
      AnswerCounts(q, db, env, o);
    }
  }

  lemma PlanTypes(q: Query, db: Db, estimate: Plan -> nat, leftIsBuild: bool)
    requires PlanFrom(q, estimate).buildTable == BuildName(q, leftIsBuild)
             && PlanFrom(q, estimate).probeTable == BuildName(q, !leftIsBuild)
    ensures var bt, pt := BuildName(q, leftIsBuild), BuildName(q, !leftIsBuild);
            OutputTypes(PlanFrom(q, estimate), db) == Combine(ColumnsOf(db, bt), ColumnsOf(db, pt), bt + ".", pt + ".")
  {
    hide Combine;
  }

  lemma SelectsAll(q: Query, db: Db, env: Env, os: seq<Outcome>)
    requires q.where.None?
    ensures Filter(Selects(q, db, env), os) == os
  {
    FilterTrue(Selects(q, db, env), os);
  }

  lemma JoinedRowReads(q: Query, db: Db, j: Joined, leftIsBuild: bool)
    requires WellFormed(q, db) && FitsOutcome(q, db, Orient(j, leftIsBuild))
    ensures ReadsAs(q, db, RowOf(j, BuildName(q, leftIsBuild) + ".", BuildName(q, !leftIsBuild) + "."),
                    Orient(j, leftIsBuild))
  {
    hide Resolvable, RowLookup, Meaning;
    var row := RowOf(j, BuildName(q, leftIsBuild) + ".", BuildName(q, !leftIsBuild) + ".");
    forall c | Resolvable(q, db, c) ensures RowLookup(row, c) == Meaning(q, db, Orient(j, leftIsBuild), c) {
      JoinedRowMeans(q, db, j, leftIsBuild, c);
    }
  }

  lemma PushedFit(q: Query, db: Db, env: Env, os: seq<Outcome>)
    requires WellFormed(q, db)
    requires multiset(os) == multiset(Reference(PushedLeft(q, db, env), PushedRight(q, db, env), LeftKey(q, db, env),
                                                RightKey(q, db, env), q.jt))
    ensures AllFit(q, db, os)
  {
    hide Reference, Owned;
    FilteredFit(Keeps(LeftScan(q).filter, db[q.left].columns, env), db[q.left].rows, db[q.left]);
    FilteredFit(Keeps(RightScan(q).filter, db[q.right].columns, env), db[q.right].rows, db[q.right]);
    JoinFits(q, db, PushedLeft(q, db, env), PushedRight(q, db, env), LeftKey(q, db, env), RightKey(q, db, env), os);
  }
}
