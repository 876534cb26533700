/** The WHERE language and its three-valued meaning. */
module Sql {
  import opened Basics

  datatype ColumnType = TextType | IntegerType | FloatType | BooleanType | TimestampType | JsonType

  /** A literal; a float keeps the text it was written as. */
  datatype SqlValue =
    | Text(text: string)
    | Integer(n: int)
    | Float(literal: string)
    | Boolean(b: bool)
    | Null
    | Placeholder(index: nat)

  datatype CmpOp = Eq | Ne | Gt | Lt | Gte | Lte | Like

  datatype WhereExpr =
    | Comparison(column: string, op: CmpOp, value: SqlValue)
    | And(left: WhereExpr, right: WhereExpr)
    | Or(left: WhereExpr, right: WhereExpr)
    | Not(inner: WhereExpr)
    | IsNull(column: string)
    | IsNotNull(column: string)
    | In(column: string, values: seq<SqlValue>)
    | InSubquery(column: string, query: string)

  datatype Tri = True | False | Unknown

  function AndTri(a: Tri, b: Tri): Tri {
    if a == False || b == False then False else if a == Unknown || b == Unknown then Unknown else True
  }

  function OrTri(a: Tri, b: Tri): Tri {
    if a == True || b == True then True else if a == Unknown || b == Unknown then Unknown else False
  }

  function NotTri(a: Tri): Tri {
    match a case True => False case False => True case Unknown => Unknown
  }

  function Known(b: bool): Tri {
    if b then True else False
  }

  /** How a non-NULL cell compares with a non-NULL literal, given the column's
      declared type: number, text and pattern comparison are all behind it. */
  type Compares = (CmpOp, string, SqlValue, Option<ColumnType>) -> bool

  /** How a row reads its columns, and their declared types. */
  type Reader = string -> Option<string>
  type Typing = string -> Option<ColumnType>

  ghost predicate InList(v: string, values: seq<SqlValue>, t: Option<ColumnType>, cmp: Compares) {
    exists i :: 0 <= i < |values| && values[i] != Null && cmp(Eq, v, values[i], t)
  }

  ghost function Eval(e: WhereExpr, look: Reader, typing: Typing, cmp: Compares): Tri {
    match e
    case Comparison(c, op, value) =>
      if value == Null || look(c) == None then Unknown else Known(cmp(op, look(c).value, value, typing(c)))
    case And(a, b) => AndTri(Eval(a, look, typing, cmp), Eval(b, look, typing, cmp))
    case Or(a, b) => OrTri(Eval(a, look, typing, cmp), Eval(b, look, typing, cmp))
    case Not(a) => NotTri(Eval(a, look, typing, cmp))
    case IsNull(c) => Known(look(c) == None)
    case IsNotNull(c) => Known(look(c) != None)
    case In(c, values) =>
      if look(c) == None then Unknown
      else if InList(look(c).value, values, typing(c), cmp) then True
      else if Null in values then Unknown
      else False
    case InSubquery(_, _) => False
  }

  function Columns(e: WhereExpr): set<string> {
    match e
    case Comparison(c, _, _) => {c}
    case And(a, b) => Columns(a) + Columns(b)
    case Or(a, b) => Columns(a) + Columns(b)
    case Not(a) => Columns(a)
    case IsNull(c) => {c}
    case IsNotNull(c) => {c}
    case In(c, _) => {c}
    case InSubquery(c, _) => {c}
  }

  /** A predicate's value depends only on the columns it names. */
  lemma {:induction false} EvalAgrees(e: WhereExpr, look1: Reader, typing1: Typing, look2: Reader, typing2: Typing,
                                      cmp: Compares)
    requires forall c | c in Columns(e) :: look1(c) == look2(c) && typing1(c) == typing2(c)
    ensures Eval(e, look1, typing1, cmp) == Eval(e, look2, typing2, cmp)
  {
    match e
    case And(a, b) =>
      EvalAgrees(a, look1, typing1, look2, typing2, cmp);
      EvalAgrees(b, look1, typing1, look2, typing2, cmp);
    case Or(a, b) =>
      EvalAgrees(a, look1, typing1, look2, typing2, cmp);
      EvalAgrees(b, look1, typing1, look2, typing2, cmp);
    case Not(a) => EvalAgrees(a, look1, typing1, look2, typing2, cmp);
    case Comparison(c, _, _) => assert c in Columns(e);
    case IsNull(c) => assert c in Columns(e);
    case IsNotNull(c) => assert c in Columns(e);
    case In(c, _) => assert c in Columns(e);
    case InSubquery(_, _) =>
  }

  // ----- What selecting a row means -----

  /** The predicate is satisfied, and refuted, by the cells that are there: what section
      8.12 of ISO/IEC 9075:1992 calls true and false, each on its own. */
  ghost predicate Holds(e: WhereExpr, look: Reader, typing: Typing, cmp: Compares) {
    match e
    case Comparison(c, op, value) =>
      value != Null && look(c).Some? && cmp(op, look(c).value, value, typing(c))
    case And(a, b) => Holds(a, look, typing, cmp) && Holds(b, look, typing, cmp)
    case Or(a, b) => Holds(a, look, typing, cmp) || Holds(b, look, typing, cmp)
    case Not(a) => Refuted(a, look, typing, cmp)
    case IsNull(c) => look(c).None?
    case IsNotNull(c) => look(c).Some?
    case In(c, values) =>
      look(c).Some? && exists v :: v in values && v != Null && cmp(Eq, look(c).value, v, typing(c))
    case InSubquery(_, _) => false
  }

  ghost predicate Refuted(e: WhereExpr, look: Reader, typing: Typing, cmp: Compares) {
    match e
    case Comparison(c, op, value) =>
      value != Null && look(c).Some? && !cmp(op, look(c).value, value, typing(c))
    case And(a, b) => Refuted(a, look, typing, cmp) || Refuted(b, look, typing, cmp)
    case Or(a, b) => Refuted(a, look, typing, cmp) && Refuted(b, look, typing, cmp)
    case Not(a) => Holds(a, look, typing, cmp)
    case IsNull(c) => look(c).Some?
    case IsNotNull(c) => look(c).None?
    case In(c, values) =>
      look(c).Some? && forall v | v in values :: v != Null && !cmp(Eq, look(c).value, v, typing(c))
    case InSubquery(_, _) => true
  }

  /** Evaluation says true exactly of what is satisfied, and false exactly of what is
      refuted; the rest is unknown. */
  lemma {:induction false} EvalIff(e: WhereExpr, look: Reader, typing: Typing, cmp: Compares)
    ensures Eval(e, look, typing, cmp) == True <==> Holds(e, look, typing, cmp)
    ensures Eval(e, look, typing, cmp) == False <==> Refuted(e, look, typing, cmp)
  {
    match e
    case And(a, b) =>
      EvalIff(a, look, typing, cmp);
      EvalIff(b, look, typing, cmp);
    case Or(a, b) =>
      EvalIff(a, look, typing, cmp);
      EvalIff(b, look, typing, cmp);
    case Not(a) => EvalIff(a, look, typing, cmp);
    case In(c, values) =>
      if look(c).Some? {
        if v :| v in values && v != Null && cmp(Eq, look(c).value, v, typing(c)) {
          var i :| 0 <= i < |values| && values[i] == v;
          assert InList(look(c).value, values, typing(c), cmp);
        }
      }
    case _ =>
  }

  /** The loop over the list of an IN, which stops at the first match. */
  method EvalIn(cell: Option<string>, values: seq<SqlValue>, typ: Option<ColumnType>, cmp: Compares)
    returns (r: Tri)
    ensures r == True <==>
              cell.Some? && exists v :: v in values && v != Null && cmp(Eq, cell.value, v, typ)
    ensures r == False <==> cell.Some? && forall v | v in values :: v != Null && !cmp(Eq, cell.value, v, typ)
  {
    if cell.None? {
      return Unknown;
    }
    var sawNull := false;
    for i := 0 to |values|
      invariant sawNull <==> Null in values[..i]
      invariant forall v | v in values[..i] && v != Null :: !cmp(Eq, cell.value, v, typ)
    {
      assert values[..i + 1] == values[..i] + [values[i]];
      if values[i] == Null {
        sawNull := true;
      } else if cmp(Eq, cell.value, values[i], typ) {
        assert values[i] in values;
        return True;
      }
    }
    assert values[..|values|] == values;
    return if sawNull then Unknown else False;
  }

  /** The ordinary two-valued reading of a predicate over cells that are all there. */
  predicate Classical(e: WhereExpr, cells: string -> string, typing: Typing, cmp: Compares) {
    match e
    case Comparison(c, op, value) => cmp(op, cells(c), value, typing(c))
    case And(a, b) => Classical(a, cells, typing, cmp) && Classical(b, cells, typing, cmp)
    case Or(a, b) => Classical(a, cells, typing, cmp) || Classical(b, cells, typing, cmp)
    case Not(a) => !Classical(a, cells, typing, cmp)
    case IsNull(_) => false
    case IsNotNull(_) => true
    case In(c, values) => exists i | 0 <= i < |values| :: cmp(Eq, cells(c), values[i], typing(c))
    case InSubquery(_, _) => false
  }

  predicate NoNullLiteral(e: WhereExpr) {
    match e
    case Comparison(_, _, value) => value != Null
    case And(a, b) => NoNullLiteral(a) && NoNullLiteral(b)
    case Or(a, b) => NoNullLiteral(a) && NoNullLiteral(b)
    case Not(a) => NoNullLiteral(a)
    case In(_, values) => Null !in values
    case _ => true
  }

  /** Without NULLs nothing is unknown, and the three-valued reading is the ordinary one. */
  lemma {:induction false} EvalClassical(e: WhereExpr, look: Reader, cells: string -> string, typing: Typing,
                                         cmp: Compares)
    requires NoNullLiteral(e) && forall c | c in Columns(e) :: look(c) == Some(cells(c))
    ensures Eval(e, look, typing, cmp) == if Classical(e, cells, typing, cmp) then True else False
  {
    match e
    case And(a, b) =>
      EvalClassical(a, look, cells, typing, cmp);
      EvalClassical(b, look, cells, typing, cmp);
    case Or(a, b) =>
      EvalClassical(a, look, cells, typing, cmp);
      EvalClassical(b, look, cells, typing, cmp);
    case Not(a) => EvalClassical(a, look, cells, typing, cmp);
    case In(c, values) =>
      assert c in Columns(e);
      assert forall i | 0 <= i < |values| :: values[i] != Null;
    case _ =>
      assert forall c | c in Columns(e) :: look(c) == Some(cells(c));
  }

  predicate TestsNull(e: WhereExpr) {
    match e
    case And(a, b) => TestsNull(a) || TestsNull(b)
    case Or(a, b) => TestsNull(a) || TestsNull(b)
    case Not(a) => TestsNull(a)
    case IsNull(_) => true
    case IsNotNull(_) => true
    case _ => false
  }

  /** Without tests for NULL, filling in cells that were NULL never changes a value that
      was known. */
  lemma {:induction false} FillingKeepsKnown(e: WhereExpr, look: Reader, fuller: Reader, typing: Typing,
                                             cmp: Compares)
    requires !TestsNull(e) && forall c | c in Columns(e) && look(c).Some? :: fuller(c) == look(c)
    ensures Eval(e, look, typing, cmp) == Unknown || Eval(e, fuller, typing, cmp) == Eval(e, look, typing, cmp)
  {
    match e
    case And(a, b) =>
      FillingKeepsKnown(a, look, fuller, typing, cmp);
      FillingKeepsKnown(b, look, fuller, typing, cmp);
    case Or(a, b) =>
      FillingKeepsKnown(a, look, fuller, typing, cmp);
      FillingKeepsKnown(b, look, fuller, typing, cmp);
    case Not(a) => FillingKeepsKnown(a, look, fuller, typing, cmp);
    case Comparison(c, _, _) => assert c in Columns(e);
    case In(c, _) => assert c in Columns(e);
    case _ =>
  }

  // ----- Conjuncts -----

  function Conjuncts(e: WhereExpr): (r: seq<WhereExpr>)
    ensures r != []
  {
    match e
    case And(a, b) => Conjuncts(a) + Conjuncts(b)
    case _ => [e]
  }

  function AndAll(parts: seq<WhereExpr>): WhereExpr
    requires parts != []
  {
    if |parts| == 1 then parts[0] else And(AndAll(parts[..|parts| - 1]), parts[|parts| - 1])
  }

  method ConjunctsToExpr(parts: seq<WhereExpr>) returns (r: Option<WhereExpr>)
    ensures r == if parts == [] then None else Some(AndAll(parts))
  {
    if parts == [] {
      return None;
    }
    var result := parts[0];
    for i := 1 to |parts|
      invariant result == AndAll(parts[..i])
    {
      assert parts[..i + 1][..i] == parts[..i];
      result := And(result, parts[i]);
    }
    assert parts[..|parts|] == parts;
    return Some(result);
  }

  ghost predicate AllTrue(parts: seq<WhereExpr>, look: Reader, typing: Typing, cmp: Compares) {
    forall i | 0 <= i < |parts| :: Eval(parts[i], look, typing, cmp) == True
  }

  lemma AndTrue(a: WhereExpr, b: WhereExpr, look: Reader, typing: Typing, cmp: Compares)
    ensures Eval(And(a, b), look, typing, cmp) == True
       <==> Eval(a, look, typing, cmp) == True && Eval(b, look, typing, cmp) == True
  {
  }

  /** A conjunction selects a row exactly when each of its conjuncts does. */
  lemma {:induction false} ConjunctsTrue(e: WhereExpr, look: Reader, typing: Typing, cmp: Compares)
    ensures Eval(e, look, typing, cmp) == True <==> AllTrue(Conjuncts(e), look, typing, cmp)
  {
    match e
    case And(a, b) =>
      ConjunctsTrue(a, look, typing, cmp);
      ConjunctsTrue(b, look, typing, cmp);
      AllTrueConcat(Conjuncts(a), Conjuncts(b), look, typing, cmp);
      AndTrue(a, b, look, typing, cmp);
    case _ =>
      assert Conjuncts(e) == [e];
      assert Conjuncts(e)[0] == e;
  }

  lemma AllTrueConcat(a: seq<WhereExpr>, b: seq<WhereExpr>, look: Reader, typing: Typing, cmp: Compares)
    ensures AllTrue(a + b, look, typing, cmp) <==> AllTrue(a, look, typing, cmp) && AllTrue(b, look, typing, cmp)
  {
    hide Eval;
    if AllTrue(a + b, look, typing, cmp) {
      forall i | 0 <= i < |a| ensures Eval(a[i], look, typing, cmp) == True {
        assert (a + b)[i] == a[i];
      }
      forall i | 0 <= i < |b| ensures Eval(b[i], look, typing, cmp) == True {
        assert (a + b)[|a| + i] == b[i];
      }
    }
  }

  lemma {:induction false} AndAllTrue(parts: seq<WhereExpr>, look: Reader, typing: Typing, cmp: Compares)
    requires parts != []
    ensures Eval(AndAll(parts), look, typing, cmp) == True <==> AllTrue(parts, look, typing, cmp)
  {
    var n := |parts| - 1;
    if n > 0 {
      AndAllTrue(parts[..n], look, typing, cmp);
      AndTrue(AndAll(parts[..n]), parts[n], look, typing, cmp);
      assert parts == parts[..n] + [parts[n]];
      AllTrueConcat(parts[..n], [parts[n]], look, typing, cmp);
      assert AllTrue([parts[n]], look, typing, cmp) <==> Eval(parts[n], look, typing, cmp) == True;
    }
  }
}
