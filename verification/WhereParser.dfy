/** The WHERE parser: precedence, termination on every token list, and reading
    back what a tree is written as. */
module WhereParser {
  import opened Basics
  import opened Sql
  import opened Tokenizer
  import D = Decimal

  // ----- Literals -----

  const I64_LIMIT := 0x8000_0000_0000_0000
  const USIZE_LIMIT := 0x1_0000_0000_0000_0000

  /** Upper-casing as far as an ASCII keyword can tell: the letters, dotless i
      and long s. */
  function UpperChar(c: char): char {
    if 'a' <= c <= 'z' then (c as int - 32) as char
    else if c == 0x131 as char then 'I'
    else if c == 0x17F as char then 'S'
    else c
  }

  function Upper(s: string): string {
    seq(|s|, i requires 0 <= i < |s| => UpperChar(s[i]))
  }

  predicate ParsesAsI64(s: string) {
    D.IntText(s) && -I64_LIMIT <= D.Val(s) < I64_LIMIT
  }

  /** A `$n` parameter: an unsigned number, optionally with a plus, from one on. */
  predicate IsPlaceholder(s: string) {
    && s != "" && s[0] == '$'
    && D.IntText(s[1..]) && s[1] != '-' && 1 <= D.Val(s[1..]) < USIZE_LIMIT
  }

  /** `isFloat` says which texts parse as a binary float. */
  function ParseValue(token: string, isFloat: string -> bool): SqlValue {
    if IsPlaceholder(token) then Placeholder(D.Val(token[1..]))
    else if |token| >= 2 && token[0] == '\'' && token[|token| - 1] == '\'' then Text(Unescape(token[1..|token| - 1]))
    else if Upper(token) == "NULL" then Null
    else if Upper(token) == "TRUE" then Boolean(true)
    else if Upper(token) == "FALSE" then Boolean(false)
    else if ParsesAsI64(token) then Integer(D.Val(token))
    else if D.ParsesAsI128(token) && D.IntToText(D.Val(token)) == token then Text(token)
    else if isFloat(token) then Float(token)
    else Text(token)
  }

  // ----- The parser -----

  /** `isFloat` for literals, `isQuery` for the texts that parse as a statement. */
  datatype Env = Env(isFloat: string -> bool, isQuery: string -> bool)

  datatype ParseError = UnexpectedEnd | MissingOperator | UnknownOperator | MissingValue | BadSubquery

  type Parsed = Result<(WhereExpr, nat), ParseError>

  predicate Is(ts: seq<string>, i: nat, keyword: string) {
    i < |ts| && Upper(ts[i]) == keyword
  }

  function Left(ts: seq<string>, i: nat): nat {
    if i <= |ts| then |ts| - i else 0
  }

  function ParseExpr(ts: seq<string>, i: nat, env: Env): (r: Parsed)
    ensures r.Ok? ==> r.value.1 > i
    decreases Left(ts, i), 4
  {
    match ParseAnd(ts, i, env)
    case Err(e) => Err(e)
    case Ok((l, j)) => OrTail(ts, l, j, env)
  }

  function OrTail(ts: seq<string>, l: WhereExpr, i: nat, env: Env): (r: Parsed)
    ensures r.Ok? ==> r.value.1 >= i
    decreases Left(ts, i), 3
  {
    if !Is(ts, i, "OR") then Ok((l, i))
    else match ParseAnd(ts, i + 1, env)
      case Err(e) => Err(e)
      case Ok((r, j)) => OrTail(ts, Or(l, r), j, env)
  }

  function ParseAnd(ts: seq<string>, i: nat, env: Env): (r: Parsed)
    ensures r.Ok? ==> r.value.1 > i
    decreases Left(ts, i), 2
  {
    match ParseAtom(ts, i, env)
    case Err(e) => Err(e)
    case Ok((l, j)) => AndTail(ts, l, j, env)
  }

  function AndTail(ts: seq<string>, l: WhereExpr, i: nat, env: Env): (r: Parsed)
    ensures r.Ok? ==> r.value.1 >= i
    decreases Left(ts, i), 1
  {
    if !Is(ts, i, "AND") then Ok((l, i))
    else match ParseAtom(ts, i + 1, env)
      case Err(e) => Err(e)
      case Ok((r, j)) => AndTail(ts, And(l, r), j, env)
  }

  function ParseAtom(ts: seq<string>, i: nat, env: Env): (r: Parsed)
    ensures r.Ok? ==> r.value.1 > i
    decreases Left(ts, i), 0
  {
    if i >= |ts| then Err(UnexpectedEnd)
    else if Is(ts, i, "NOT") then
      match ParseAtom(ts, i + 1, env)
      case Err(e) => Err(e)
      case Ok((inner, j)) => Ok((Not(inner), j))
    else if ts[i] == "(" then
      match ParseExpr(ts, i + 1, env)
      case Err(e) => Err(e)
      case Ok((e, j)) => Ok((e, if j < |ts| && ts[j] == ")" then j + 1 else j))
    else
      var (column, j) := ColumnAt(ts, i);
      ParsePredicate(ts, column, j, env)
  }

  const AGGREGATES := ["COUNT", "SUM", "AVG", "MIN", "MAX"]

  function LowerAscii(s: string): string {
    seq(|s|, i requires 0 <= i < |s| => if 'A' <= s[i] <= 'Z' then (s[i] as int + 32) as char else s[i])
  }

  /** A column name, or an aggregate such as COUNT(*) taken as one. */
  function ColumnAt(ts: seq<string>, i: nat): (r: (string, nat))
    requires i < |ts|
    ensures r.1 > i
  {
    if Upper(ts[i]) in AGGREGATES && i + 1 < |ts| && ts[i + 1] == "(" then
      var hasArg := i + 2 < |ts| && ts[i + 2] != ")";
      var j := if hasArg then i + 3 else i + 2;
      (LowerAscii(ts[i]) + "(" + (if hasArg then ts[i + 2] else "*") + ")",
       if j < |ts| && ts[j] == ")" then j + 1 else j)
    else (ts[i], i + 1)
  }

  function OperatorOf(token: string): Option<CmpOp> {
    if token == "=" then Some(Eq)
    else if token == "!=" || token == "<>" then Some(Ne)
    else if token == ">" then Some(Gt)
    else if token == "<" then Some(Lt)
    else if token == ">=" then Some(Gte)
    else if token == "<=" then Some(Lte)
    else if token == "LIKE" || token == "like" then Some(Like)
    else None
  }

  /** What follows a column name; the word after IS or IS NOT is not looked at. */
  function ParsePredicate(ts: seq<string>, column: string, i: nat, env: Env): (r: Parsed)
    ensures r.Ok? ==> r.value.1 >= i
  {
    if Is(ts, i, "IS") then
      if Is(ts, i + 1, "NOT") then Ok((IsNotNull(column), i + 3)) else Ok((IsNull(column), i + 2))
    else if Is(ts, i, "IN") then
      var j := if i + 1 < |ts| && ts[i + 1] == "(" then i + 2 else i + 1;
      if Is(ts, j, "SELECT") then
        var end := SubqueryEnd(ts, j, 1);
        var query := Join(ts[j..end]);
        if !env.isQuery(query) then Err(BadSubquery)
        else Ok((InSubquery(column, query), if end < |ts| then end + 1 else end))
      else
        var end := ListEnd(ts, j);
        Ok((In(column, ListValues(ts, j, env.isFloat)), if end < |ts| then end + 1 else end))
    else if i >= |ts| then Err(MissingOperator)
    else match OperatorOf(ts[i])
      case None => Err(UnknownOperator)
      case Some(op) =>
        if i + 1 >= |ts| then Err(MissingValue)
        else Ok((Comparison(column, op, ParseValue(ts[i + 1], env.isFloat)), i + 2))
  }

  /** Where the parenthesis at `depth` closes, or the end. */
  function SubqueryEnd(ts: seq<string>, i: nat, depth: nat): (end: nat)
    requires depth > 0
    ensures i <= end && (i <= |ts| ==> end <= |ts|)
    ensures end < |ts| ==> ts[end] == ")"
    decreases Left(ts, i)
  {
    if i >= |ts| then i
    else if ts[i] == "(" then SubqueryEnd(ts, i + 1, depth + 1)
    else if ts[i] == ")" then (if depth == 1 then i else SubqueryEnd(ts, i + 1, depth - 1))
    else SubqueryEnd(ts, i + 1, depth)
  }

  function ListEnd(ts: seq<string>, i: nat): (end: nat)
    ensures i <= end
    decreases Left(ts, i)
  {
    if i < |ts| && ts[i] != ")" then ListEnd(ts, i + 1) else i
  }

  function ListValues(ts: seq<string>, i: nat, isFloat: string -> bool): seq<SqlValue>
    decreases Left(ts, i)
  {
    if i < |ts| && ts[i] != ")" then
      (if ts[i] != "," then [ParseValue(ts[i], isFloat)] else []) + ListValues(ts, i + 1, isFloat)
    else []
  }

  // ----- The loops -----

  method ParseWhereExpr(ts: seq<string>, start: nat, env: Env) returns (r: Parsed)
    ensures r == ParseExpr(ts, start, env)
    decreases Left(ts, start), 2
  {
    var first := ParseWhereAnd(ts, start, env);
    if first.Err? {
      return first;
    }
    var (left, i) := first.value;
    while i < |ts|
      invariant i > start && OrTail(ts, left, i, env) == ParseExpr(ts, start, env)
      decreases Left(ts, i)
    {
      if Upper(ts[i]) != "OR" {
        break;
      }
      var right := ParseWhereAnd(ts, i + 1, env);
      if right.Err? {
        return right;
      }
      left, i := Or(left, right.value.0), right.value.1;
    }
    return Ok((left, i));
  }

  method ParseWhereAnd(ts: seq<string>, start: nat, env: Env) returns (r: Parsed)
    ensures r == ParseAnd(ts, start, env)
    decreases Left(ts, start), 1
  {
    var first := ParseWhereAtom(ts, start, env);
    if first.Err? {
      return first;
    }
    var (left, i) := first.value;
    while i < |ts|
      invariant i > start && AndTail(ts, left, i, env) == ParseAnd(ts, start, env)
      decreases Left(ts, i)
    {
      if Upper(ts[i]) != "AND" {
        break;
      }
      var right := ParseWhereAtom(ts, i + 1, env);
      if right.Err? {
        return right;
      }
      left, i := And(left, right.value.0), right.value.1;
    }
    return Ok((left, i));
  }

  method ParseWhereAtom(ts: seq<string>, start: nat, env: Env) returns (r: Parsed)
    ensures r == ParseAtom(ts, start, env)
    decreases Left(ts, start), 0
  {
    if start >= |ts| {
      return Err(UnexpectedEnd);
    }
    if Upper(ts[start]) == "NOT" {
      var inner := ParseWhereAtom(ts, start + 1, env);
      if inner.Err? {
        return inner;
      }
      return Ok((Not(inner.value.0), inner.value.1));
    }
    if ts[start] == "(" {
      var inner := ParseWhereExpr(ts, start + 1, env);
      if inner.Err? {
        return inner;
      }
      var i := inner.value.1;
      if i < |ts| && ts[i] == ")" {
        i := i + 1;
      }
      return Ok((inner.value.0, i));
    }
    var column, i := ts[start], start + 1;
    if Upper(ts[start]) in AGGREGATES && start + 1 < |ts| && ts[start + 1] == "(" {
      var argument := "*";
      i := start + 2;
      if i < |ts| && ts[i] != ")" {
        argument, i := ts[i], i + 1;
      }
      if i < |ts| && ts[i] == ")" {
        i := i + 1;
      }
      column := LowerAscii(ts[start]) + "(" + argument + ")";
    }
    r := ParseWherePredicate(ts, column, i, env);
  }

  /** The parentheses open after the tokens, counting the one before them. */
  function Depth(ts: seq<string>): int {
    if ts == [] then 1
    else
      var last := ts[|ts| - 1];
      Depth(ts[..|ts| - 1]) + (if last == "(" then 1 else if last == ")" then -1 else 0)
  }

  /** Up to `end` the parenthesis opened before `start` stays open. */
  ghost predicate StaysOpen(ts: seq<string>, start: nat, end: nat)
    requires start <= end <= |ts|
  {
    forall m | start <= m <= end :: Depth(ts[start..m]) > 0
  }

  /** `end` is the first token that closes the parenthesis opened before `start`,
      or there is none and it is the end. */
  ghost predicate Closes(ts: seq<string>, start: nat, end: nat) {
    && start <= end <= |ts| && StaysOpen(ts, start, end)
    && (end < |ts| ==> Depth(ts[start..end + 1]) == 0)
  }

  lemma DepthStep(ts: seq<string>, start: nat, i: nat)
    requires start <= i < |ts|
    ensures Depth(ts[start..i + 1]) ==
            Depth(ts[start..i]) + (if ts[i] == "(" then 1 else if ts[i] == ")" then -1 else 0)
  {
    assert ts[start..i + 1][..i - start] == ts[start..i];
  }

  lemma OpenAtStart(ts: seq<string>, start: nat)
    requires start <= |ts|
    ensures StaysOpen(ts, start, start) && Depth(ts[start..start]) == 1
  {
    assert ts[start..start] == [];
  }

  method FindClosing(ts: seq<string>, start: nat) returns (end: nat)
    requires start <= |ts|
    ensures Closes(ts, start, end) && end == SubqueryEnd(ts, start, 1)
  {
    hide Depth;
    var depth: nat := 1;
    end := start;
    OpenAtStart(ts, start);
    while end < |ts|
      invariant start <= end <= |ts| && depth == Depth(ts[start..end]) > 0 && StaysOpen(ts, start, end)
      invariant SubqueryEnd(ts, end, depth) == SubqueryEnd(ts, start, 1)
    {
      DepthStep(ts, start, end);
      if ts[end] == "(" {
        depth := depth + 1;
      }
      if ts[end] == ")" {
        depth := depth - 1;
        if depth == 0 {
          break;
        }
      }
      end := end + 1;
    }
  }

  function NotComma(t: string): bool {
    t != ","
  }

  function ParsedAll(ts: seq<string>, isFloat: string -> bool): (r: seq<SqlValue>)
    ensures |r| == |ts| && forall i | 0 <= i < |r| :: r[i] == ParseValue(ts[i], isFloat)
  {
    seq(|ts|, i requires 0 <= i < |ts| => ParseValue(ts[i], isFloat))
  }

  lemma ParsedAllSnoc(ts: seq<string>, t: string, isFloat: string -> bool)
    ensures ParsedAll(ts + [t], isFloat) == ParsedAll(ts, isFloat) + [ParseValue(t, isFloat)]
  {
    hide ParseValue;
  }

  lemma ListStep(ts: seq<string>, start: nat, i: nat)
    requires start <= i < |ts|
    ensures Filter(NotComma, ts[start..i + 1]) == Filter(NotComma, ts[start..i]) + if ts[i] != "," then [ts[i]] else []
  {
    assert ts[start..i + 1][..i - start] == ts[start..i];
  }

  /** Reads list values up to the next closing parenthesis: every token but the
      commas, in order. */
  method ParseList(ts: seq<string>, start: nat, isFloat: string -> bool) returns (vals: seq<SqlValue>, end: nat)
    requires start <= |ts|
    ensures start <= end <= |ts| && ")" !in ts[start..end] && (end < |ts| ==> ts[end] == ")")
    ensures vals == ParsedAll(Filter(NotComma, ts[start..end]), isFloat)
    ensures end == ListEnd(ts, start) && vals == ListValues(ts, start, isFloat)
  {
    hide ParseValue, Filter, ListEnd, ListValues, ParsedAll;
    vals, end := [], start;
    NothingParsed(isFloat);
    assert Filter(NotComma, ts[start..start]) == [] by { assert ts[start..start] == []; NothingFiltered(); }
    while end < |ts| && ts[end] != ")"
      invariant start <= end <= |ts| && ")" !in ts[start..end]
      invariant vals == ParsedAll(Filter(NotComma, ts[start..end]), isFloat)
      invariant ListEnd(ts, end) == ListEnd(ts, start)
      invariant vals + ListValues(ts, end, isFloat) == ListValues(ts, start, isFloat)
    {
      ListStep(ts, start, end);
      ListNext(ts, end, isFloat);
      assert ts[start..end + 1] == ts[start..end] + [ts[end]];
      if ts[end] != "," {
        ParsedAllSnoc(Filter(NotComma, ts[start..end]), ts[end], isFloat);
        vals := vals + [ParseValue(ts[end], isFloat)];
      }
      end := end + 1;
    }
    ListNext(ts, end, isFloat);
  }

  lemma ListNext(ts: seq<string>, i: nat, isFloat: string -> bool)
    ensures if i < |ts| && ts[i] != ")" then
              && ListEnd(ts, i) == ListEnd(ts, i + 1)
              && ListValues(ts, i, isFloat) ==
                 (if ts[i] != "," then [ParseValue(ts[i], isFloat)] else []) + ListValues(ts, i + 1, isFloat)
            else ListEnd(ts, i) == i && ListValues(ts, i, isFloat) == []
  {
    hide ParseValue;
  }

  lemma NothingParsed(isFloat: string -> bool)
    ensures ParsedAll([], isFloat) == []
  {
  }

  lemma NothingFiltered()
    ensures Filter(NotComma, []) == []
  {
  }

  method ParseWherePredicate(ts: seq<string>, column: string, start: nat, env: Env) returns (r: Parsed)
    ensures r == ParsePredicate(ts, column, start, env)
  {
    hide ParseValue, SubqueryEnd, ListEnd, ListValues;
    var i := start;
    if i < |ts| && Upper(ts[i]) == "IS" {
      i := i + 1;
      if i < |ts| && Upper(ts[i]) == "NOT" {
        return Ok((IsNotNull(column), i + 2));
      }
      return Ok((IsNull(column), i + 1));
    }
    if i < |ts| && Upper(ts[i]) == "IN" {
      i := i + 1;
      if i < |ts| && ts[i] == "(" {
        i := i + 1;
      }
      if i < |ts| && Upper(ts[i]) == "SELECT" {
        var end := FindClosing(ts, i);
        var query := Join(ts[i..end]);
        if !env.isQuery(query) {
          return Err(BadSubquery);
        }
        return Ok((InSubquery(column, query), if end < |ts| then end + 1 else end));
      }
      var vals, end := ParseList(ts, i, env.isFloat);
      return Ok((In(column, vals), if end < |ts| then end + 1 else end));
    }
    if i >= |ts| {
      return Err(MissingOperator);
    }
    var op := OperatorOf(ts[i]);
    if op.None? {
      return Err(UnknownOperator);
    }
    if i + 1 >= |ts| {
      return Err(MissingValue);
    }
    return Ok((Comparison(column, op.value, ParseValue(ts[i + 1], env.isFloat)), i + 2));
  }

  // ----- Subqueries -----

  /** Tokens whose parentheses close only ones they open, all of them in the end. */
  ghost predicate Balanced(q: seq<string>) {
    Depth(q) == 1 && forall m | 0 <= m <= |q| :: Depth(q[..m]) > 0
  }

  lemma {:induction false} DepthBetween(ts: seq<string>, i: nat, end: nat, depth: nat)
    requires i <= end < |ts| && depth > 0 && ts[end] == ")" && depth + Depth(ts[i..end]) == 2
    requires forall m | i <= m <= end :: depth + Depth(ts[i..m]) - 1 > 0
    ensures SubqueryEnd(ts, i, depth) == end
    decreases end - i
  {
    hide Depth;
    OpenAtStart(ts, i);
    if i < end {
      assert depth + Depth(ts[i..i + 1]) - 1 > 0;
      DepthStep(ts, i, i);
      var j, depth' := i + 1, depth + Depth(ts[i..i + 1]) - 1;
      forall m | j <= m <= end ensures depth' + Depth(ts[j..m]) - 1 > 0 {
        DepthSplit(ts, i, j, m);
        assert depth + Depth(ts[i..m]) - 1 > 0;
      }
      DepthSplit(ts, i, j, end);
      DepthBetween(ts, j, end, depth');
    }
  }

  lemma {:induction false} DepthSplit(ts: seq<string>, i: nat, j: nat, m: nat)
    requires i <= j <= m <= |ts|
    ensures Depth(ts[i..m]) == Depth(ts[i..j]) - 1 + Depth(ts[j..m])
    decreases m - j
  {
    assert ts[j..j] == [];
    if j < m {
      DepthSplit(ts, i, j, m - 1);
      DepthStep(ts, i, m - 1);
      DepthStep(ts, j, m - 1);
    }
  }

  /** A column IN a parenthesized query: the whole query and nothing more is
      handed on, however its own parentheses nest and whatever follows. */
  lemma SubqueryAtom(column: string, q: seq<string>, rest: seq<string>, env: Env)
    requires WritableColumn(column) && q != [] && Upper(q[0]) == "SELECT" && Balanced(q)
    ensures ParseAtom([column, "IN", "("] + q + [")"] + rest, 0, env) ==
            if env.isQuery(Join(q)) then Ok((InSubquery(column, Join(q)), 4 + |q|)) else Err(BadSubquery)
  {
    hide SubqueryEnd, ListEnd, ListValues, ParseValue, Join, Depth, ParseExpr;
    var ts := [column, "IN", "("] + q + [")"] + rest;
    var end := 3 + |q|;
    assert ts[3..end] == q && ts[end] == ")" && ts[3] == q[0];
    forall m | 3 <= m <= end ensures 1 + Depth(ts[3..m]) - 1 > 0 {
      assert ts[3..m] == q[..m - 3];
    }
    DepthBetween(ts, 3, end, 1);
    assert ts[0] == column && ts[1] == "IN" && ts[2] == "(";
    assert column != "(" by { assert IsWordChar(column[0]); }
    UpperIn();
    assert ColumnAt(ts, 0) == (column, 1);
  }

  lemma UpperIn()
    ensures Upper("IN") == "IN"
  {
  }

  // ----- Writing a tree as tokens -----

  function OperatorToken(op: CmpOp): string {
    match op
    case Eq => "="
    case Ne => "!="
    case Gt => ">"
    case Lt => "<"
    case Gte => ">="
    case Lte => "<="
    case Like => "LIKE"
  }

  function ValueToken(v: SqlValue): string {
    match v
    case Text(s) => Quote(s)
    case Integer(n) => D.IntToText(n)
    case Float(literal) => literal
    case Boolean(b) => if b then "TRUE" else "FALSE"
    case Null => "NULL"
    case Placeholder(n) => "$" + D.IntToText(n)
  }

  /** The literals a token can carry. */
  predicate WritableValue(v: SqlValue, isFloat: string -> bool) {
    match v
    case Text(_) => true
    case Integer(n) => -I64_LIMIT <= n < I64_LIMIT
    case Float(literal) => IsWord(literal) && Upper(literal) != "SELECT" && ParseValue(literal, isFloat) == v
    case Boolean(_) => true
    case Null => true
    case Placeholder(n) => 1 <= n < USIZE_LIMIT
  }

  /** A single name token that does not itself start an expression. */
  predicate WritableColumn(c: string) {
    IsWord(c) && Upper(c) != "NOT"
  }

  predicate Writable(e: WhereExpr, isFloat: string -> bool) {
    match e
    case Comparison(c, _, v) => WritableColumn(c) && WritableValue(v, isFloat)
    case And(a, b) => Writable(a, isFloat) && Writable(b, isFloat)
    case Or(a, b) => Writable(a, isFloat) && Writable(b, isFloat)
    case Not(a) => Writable(a, isFloat)
    case IsNull(c) => WritableColumn(c)
    case IsNotNull(c) => WritableColumn(c)
    case In(c, vs) =>
      && WritableColumn(c)
      && (forall i | 0 <= i < |vs| :: WritableValue(vs[i], isFloat))
    case InSubquery(_, _) => false
  }

  function ListTokens(vs: seq<SqlValue>): seq<string> {
    if vs == [] then []
    else if |vs| == 1 then [ValueToken(vs[0])]
    else [ValueToken(vs[0]), ","] + ListTokens(vs[1..])
  }

  /** How tightly a context binds: 0 takes OR, 1 takes AND, 2 only atoms. */
  function Strength(e: WhereExpr): nat {
    match e case Or(_, _) => 0 case And(_, _) => 1 case _ => 2
  }

  /** Parentheses only where precedence or right nesting needs them. */
  function Render(e: WhereExpr, level: nat): seq<string>
    decreases e, if Strength(e) < level then 1 else 0
  {
    if Strength(e) < level then ["("] + Render(e, 0) + [")"]
    else match e
      case Or(a, b) => Render(a, 0) + ["OR"] + Render(b, 1)
      case And(a, b) => Render(a, 1) + ["AND"] + Render(b, 2)
      case Not(a) => ["NOT"] + Render(a, 2)
      case Comparison(c, op, v) => [c, OperatorToken(op), ValueToken(v)]
      case IsNull(c) => [c, "IS", "NULL"]
      case IsNotNull(c) => [c, "IS", "NOT", "NULL"]
      case In(c, vs) => [c, "IN", "("] + ListTokens(vs) + [")"]
      case InSubquery(c, query) => [c, "IN", "(", query, ")"]
  }

  // ----- Reading back a literal -----

  lemma NotKeyword(token: string, keyword: string, i: nat)
    requires i < |token| && (i < |keyword| ==> UpperChar(token[i]) != keyword[i])
    ensures Upper(token) != keyword
  {
    assert |Upper(token)| == |token|;
    if |keyword| == |token| {
      assert Upper(token)[i] == UpperChar(token[i]);
    }
  }

  /** A token none of the keywords, parentheses or commas: its first character tells. */
  lemma FirstCharTells(token: string)
    requires token != "" && (D.IsDigit(token[0]) || token[0] == '-' || token[0] == '$' || token[0] == '\'')
    ensures Upper(token) != "NULL" && Upper(token) != "TRUE" && Upper(token) != "FALSE" && Upper(token) != "SELECT"
    ensures token != ")" && token != ","
  {
    NotKeyword(token, "NULL", 0);
    NotKeyword(token, "TRUE", 0);
    NotKeyword(token, "FALSE", 0);
    NotKeyword(token, "SELECT", 0);
  }

  lemma IntegerStart(n: int)
    ensures var s := D.IntToText(n); s != "" && (D.IsDigit(s[0]) || s[0] == '-')
    ensures IsWord(D.IntToText(n))
  {
    hide D.IntToText, D.Nat;
    var s := D.IntToText(n);
    forall i | 0 <= i < |s| ensures IsWordChar(s[i]) {
      if s[0] == '-' && i > 0 {
        assert s[1..][i - 1] == s[i];
      }
    }
  }

  lemma ReadIntegers(n: int, isFloat: string -> bool)
    requires -I64_LIMIT <= n < I64_LIMIT
    ensures ParseValue(D.IntToText(n), isFloat) == Integer(n)
  {
    hide D.IntToText, D.Nat, D.Val, Upper;
    IntegerStart(n);
    FirstCharTells(D.IntToText(n));
  }

  lemma ReadPlaceholder(n: nat, isFloat: string -> bool)
    requires 1 <= n < USIZE_LIMIT
    ensures ParseValue("$" + D.IntToText(n), isFloat) == Placeholder(n)
    ensures IsWord("$" + D.IntToText(n))
  {
    hide D.IntToText, D.Nat, Upper;
    IntegerStart(n);
    var t := "$" + D.IntToText(n);
    assert t[1..] == D.IntToText(n);
    assert t[1] == D.IntToText(n)[0];
    assert t[1] != '-' by {
      D.NegativeText(D.IntToText(n));
    }
  }

  lemma ReadText(s: string, isFloat: string -> bool)
    ensures ParseValue(Quote(s), isFloat) == Text(s)
  {
    hide Escape, Unescape;
    var t := Quote(s);
    EscapeRoundTrip(s);
    assert t[1..|t| - 1] == Escape(s);
  }

  /** Each literal is read back as itself, and its token ends no list. */
  lemma ReadValue(v: SqlValue, isFloat: string -> bool)
    requires WritableValue(v, isFloat)
    ensures ParseValue(ValueToken(v), isFloat) == v
    ensures ValueToken(v) != ")" && ValueToken(v) != "," && Upper(ValueToken(v)) != "SELECT"
    ensures IsToken(ValueToken(v))
  {
    hide D.IntToText, D.Nat, D.Val, Escape, Unescape;
    match v
    case Text(s) =>
      ReadText(s, isFloat);
      FirstCharTells(Quote(s));
      QuoteIsToken(s);
    case Integer(n) =>
      ReadIntegers(n, isFloat);
      IntegerStart(n);
      FirstCharTells(D.IntToText(n));
    case Placeholder(n) =>
      ReadPlaceholder(n, isFloat);
      FirstCharTells("$" + D.IntToText(n));
    case Float(literal) =>
      assert IsWordChar(literal[0]);
    case Boolean(b) =>
      KeywordValues(isFloat);
      NotKeyword(ValueToken(v), "SELECT", 0);
    case Null =>
      KeywordValues(isFloat);
      NotKeyword("NULL", "SELECT", 0);
  }

  /** Upper-case letters are words and upper-case already. */
  lemma Keyword(k: string)
    requires IsKeyword(k)
    ensures Upper(k) == k && IsWord(k)
  {
  }

  lemma KeywordValues(isFloat: string -> bool)
    ensures ParseValue("NULL", isFloat) == Null && IsWord("NULL")
    ensures ParseValue("TRUE", isFloat) == Boolean(true) && IsWord("TRUE")
    ensures ParseValue("FALSE", isFloat) == Boolean(false) && IsWord("FALSE")
  {
    hide Upper, IsWord, Unescape, D.Val;
    Keyword("NULL");
    Keyword("TRUE");
    Keyword("FALSE");
  }

  // ----- Every spelling of a tree -----

  /** A letter of an upper-case keyword in either case. */
  predicate Cased(c: char, k: char) {
    c == k || c as int == k as int + 32
  }

  predicate AsciiCase(token: string, keyword: string) {
    |token| == |keyword| && forall i | 0 <= i < |token| :: Cased(token[i], keyword[i])
  }

  /** A keyword in any mixture of cases; the upper case of dotless i is I, that of long
      s is S. */
  predicate AnyCase(token: string, keyword: string) {
    && |token| == |keyword|
    && forall i | 0 <= i < |token| ::
         || Cased(token[i], keyword[i])
         || (keyword[i] == 'I' && token[i] == 0x131 as char) || (keyword[i] == 'S' && token[i] == 0x17F as char)
  }

  predicate IsKeyword(k: string) {
    k != "" && forall i | 0 <= i < |k| :: 'A' <= k[i] <= 'Z'
  }

  lemma UpperIff(token: string, keyword: string)
    requires IsKeyword(keyword)
    ensures Upper(token) == keyword <==> AnyCase(token, keyword)
    ensures AsciiCase(token, keyword) ==> AnyCase(token, keyword)
  {
    if Upper(token) == keyword {
      forall i | 0 <= i < |token|
        ensures || Cased(token[i], keyword[i])
                || (keyword[i] == 'I' && token[i] == 0x131 as char)
                || (keyword[i] == 'S' && token[i] == 0x17F as char)
      {
        assert Upper(token)[i] == UpperChar(token[i]);
      }
    }
  }

  /** The operators and how each may be written. */
  predicate SpellsOperator(token: string, op: CmpOp) {
    match op
    case Eq => token == "="
    case Ne => token == "!=" || token == "<>"
    case Gt => token == ">"
    case Lt => token == "<"
    case Gte => token == ">="
    case Lte => token == "<="
    case Like => token == "LIKE" || token == "like"
  }

  /** Neither a parameter, a string, a keyword nor a 64-bit integer. */
  predicate Ordinary(token: string) {
    && !(token != "" && token[0] == '$' && D.IntText(token[1..]) && token[1] != '-'
         && 1 <= D.Val(token[1..]) < USIZE_LIMIT)
    && !(|token| >= 2 && token[0] == '\'' && token[|token| - 1] == '\'')
    && !AnyCase(token, "NULL") && !AnyCase(token, "TRUE") && !AnyCase(token, "FALSE")
    && !(D.IntText(token) && -I64_LIMIT <= D.Val(token) < I64_LIMIT)
  }

  /** An integer in its one canonical text that 64 bits do not hold and 128 do. */
  predicate BigInteger(token: string) {
    D.Canonical(token) && D.IntText(token) && -D.I128_LIMIT <= D.Val(token) < D.I128_LIMIT
  }

  /** The literals and how each may be written: strings quoted or bare, integers with
      signs and leading zeros, keywords in any case. */
  predicate SpellsValue(token: string, v: SqlValue, isFloat: string -> bool) {
    match v
    case Text(s) => token == Quote(s) || (token == s && Ordinary(token) && (BigInteger(token) || !isFloat(token)))
    case Integer(n) => D.IntText(token) && D.Val(token) == n && -I64_LIMIT <= n < I64_LIMIT
    case Float(literal) => token == literal && Ordinary(token) && !BigInteger(token) && isFloat(token)
    case Boolean(b) => if b then AnyCase(token, "TRUE") else AnyCase(token, "FALSE")
    case Null => AnyCase(token, "NULL")
    case Placeholder(n) =>
      && token != "" && token[0] == '$' && D.IntText(token[1..]) && token[1] != '-'
      && D.Val(token[1..]) == n && 1 <= n < USIZE_LIMIT
  }

  const AGGREGATE_NAMES := ["count", "sum", "avg", "min", "max"]

  /** A column as one token, or an aggregate call in any case, which is a column of its
      own name. */
  ghost predicate SpellsColumn(part: seq<string>, column: string) {
    || (part == [column] && column != "(" && !AnyCase(column, "NOT"))
    || (|part| == 4 && part[1] == "(" && part[2] != ")" && part[3] == ")"
        && exists a :: 0 <= a < 5 && AsciiCase(part[0], AGGREGATES[a])
             && column == AGGREGATE_NAMES[a] + ("(" + part[2] + ")"))
    || (|part| == 3 && part[1] == "(" && part[2] == ")"
        && exists a :: 0 <= a < 5 && AsciiCase(part[0], AGGREGATES[a]) && column == AGGREGATE_NAMES[a] + "(*)")
  }

  ghost predicate SpellsList(ts: seq<string>, vs: seq<SqlValue>, isFloat: string -> bool) {
    if vs == [] then ts == []
    else
      && ts != [] && SpellsValue(ts[0], vs[0], isFloat) && ts[0] != ")" && ts[0] != ","
      && if |vs| == 1 then |ts| == 1 else |ts| > 1 && ts[1] == "," && SpellsList(ts[2..], vs[1..], isFloat)
  }

  /** What follows the column of a predicate. */
  ghost predicate SpellsTest(ts: seq<string>, e: WhereExpr, env: Env) {
    match e
    case Comparison(_, op, v) => |ts| == 2 && SpellsOperator(ts[0], op) && SpellsValue(ts[1], v, env.isFloat)
    case IsNull(_) => |ts| == 2 && AnyCase(ts[0], "IS") && AnyCase(ts[1], "NULL")
    case IsNotNull(_) => |ts| == 3 && AnyCase(ts[0], "IS") && AnyCase(ts[1], "NOT") && AnyCase(ts[2], "NULL")
    case In(_, vs) =>
      && |ts| >= 3 && AnyCase(ts[0], "IN") && ts[1] == "(" && ts[|ts| - 1] == ")"
      && !AnyCase(ts[2], "SELECT") && SpellsList(ts[2..|ts| - 1], vs, env.isFloat)
    case InSubquery(_, query) =>
      && |ts| > 3 && AnyCase(ts[0], "IN") && ts[1] == "(" && ts[|ts| - 1] == ")" && AnyCase(ts[2], "SELECT")
      && Balanced(ts[2..|ts| - 1]) && query == Join(ts[2..|ts| - 1]) && env.isQuery(query)
    case _ => false
  }

  predicate IsLeaf(e: WhereExpr) {
    e.Comparison? || e.IsNull? || e.IsNotNull? || e.In? || e.InSubquery?
  }

  ghost predicate SpellsLeaf(ts: seq<string>, e: WhereExpr, env: Env) {
    && IsLeaf(e)
    && exists n :: 0 < n < |ts| && SpellsColumn(ts[..n], e.column) && SpellsTest(ts[n..], e, env)
  }

  /** The tokens write the tree where a context binds as tightly as `level`: OR and AND
      nest to the left, and any part may stand in parentheses. */
  ghost predicate Spells(ts: seq<string>, e: WhereExpr, level: nat, env: Env)
    decreases |ts|
  {
    || (|ts| > 2 && ts[0] == "(" && ts[|ts| - 1] == ")" && Spells(ts[1..|ts| - 1], e, 0, env))
    || (e.Or? && level == 0
        && exists k :: && 0 <= k < |ts| && AnyCase(ts[k], "OR")
                       && Spells(ts[..k], e.left, 0, env) && Spells(ts[k + 1..], e.right, 1, env))
    || (e.And? && level <= 1
        && exists k :: && 0 <= k < |ts| && AnyCase(ts[k], "AND")
                       && Spells(ts[..k], e.left, 1, env) && Spells(ts[k + 1..], e.right, 2, env))
    || (e.Not? && ts != [] && AnyCase(ts[0], "NOT") && Spells(ts[1..], e.inner, 2, env))
    || SpellsLeaf(ts, e, env)
  }

  // Every spelling is read back.

  lemma ReadOperator(token: string, op: CmpOp)
    requires SpellsOperator(token, op)
    ensures OperatorOf(token) == Some(op) && token != "(" && Upper(token) != "IS" && Upper(token) != "IN"
  {
    NotKeyword(token, "IS", 0);
    NotKeyword(token, "IN", 0);
  }

  lemma KeywordsOf(token: string)
    ensures Upper(token) == "NULL" <==> AnyCase(token, "NULL")
    ensures Upper(token) == "TRUE" <==> AnyCase(token, "TRUE")
    ensures Upper(token) == "FALSE" <==> AnyCase(token, "FALSE")
  {
    hide Upper, AnyCase;
    UpperIff(token, "NULL");
    UpperIff(token, "TRUE");
    UpperIff(token, "FALSE");
  }

  lemma KeywordsDiffer(token: string)
    ensures AnyCase(token, "TRUE") ==> !AnyCase(token, "NULL")
    ensures AnyCase(token, "NULL") || AnyCase(token, "TRUE") || AnyCase(token, "FALSE") ==>
              token != "" && token[0] != '$' && token[0] != '\''
  {
    assert AnyCase(token, "TRUE") ==> Cased(token[0], 'T');
    assert AnyCase(token, "NULL") ==> Cased(token[0], 'N');
  }

  lemma ReadSpelled(token: string, v: SqlValue, isFloat: string -> bool)
    requires SpellsValue(token, v, isFloat)
    ensures ParseValue(token, isFloat) == v
  {
    hide D.IntToText, D.Val, D.Nat, Escape, Unescape, Upper, AnyCase;
    KeywordsOf(token);
    KeywordsDiffer(token);
    if v.Text? && token == Quote(v.text) {
      ReadText(v.text, isFloat);
    } else if v.Integer? {
      IntegerTokenStart(token);
    } else if v.Text? || v.Float? {
      CanonicalIff(token);
    }
  }

  lemma IntegerTokenStart(token: string)
    requires D.IntText(token)
    ensures token != "" && (D.IsDigit(token[0]) || token[0] == '-' || token[0] == '+')
    ensures !AnyCase(token, "NULL") && !AnyCase(token, "TRUE") && !AnyCase(token, "FALSE")
  {
    assert D.IsDigit(token[0]) || token[0] == '-' || token[0] == '+';
  }

  lemma CanonicalIff(token: string)
    ensures BigInteger(token) <==> D.ParsesAsI128(token) && D.IntToText(D.Val(token)) == token
  {
    hide D.Nat;
    if BigInteger(token) {
      D.CanonicalUnique(token, D.IntToText(D.Val(token)));
    }
  }

  lemma {:induction false} ReadList(all: seq<string>, i: nat, j: nat, vs: seq<SqlValue>, isFloat: string -> bool)
    requires i <= j < |all| && all[j] == ")" && SpellsList(all[i..j], vs, isFloat)
    ensures ListEnd(all, i) == j && ListValues(all, i, isFloat) == vs
    decreases |vs|
  {
    hide ParseValue, SpellsValue, ListEnd, ListValues;
    var ts := all[i..j];
    ListNext(all, i, isFloat);
    if vs != [] {
      assert ts[0] == all[i];
      ReadSpelled(all[i], vs[0], isFloat);
      ListNext(all, i + 1, isFloat);
      if |vs| == 1 {
        assert vs == [vs[0]];
      } else {
        Subslice(all, i, j, 2, |ts|);
        assert ts[1] == all[i + 1] && ts[2..] == ts[2..|ts|];
        ReadList(all, i + 2, j, vs[1..], isFloat);
        assert vs == [vs[0]] + vs[1..];
      }
    }
  }

  lemma Subslice<T>(s: seq<T>, i: nat, j: nat, a: nat, b: nat)
    requires i <= j <= |s| && a <= b <= j - i
    ensures s[i..j][a..b] == s[i + a..i + b]
  {
    var l, r := s[i..j][a..b], s[i + a..i + b];
    assert |l| == |r| && forall k | 0 <= k < |l| :: l[k] == r[k];
  }

  lemma ReadIn(all: seq<string>, n: nat, j: nat, e: WhereExpr, env: Env)
    requires n <= j <= |all| && e.In? && SpellsTest(all[n..j], e, env)
    ensures ParsePredicate(all, e.column, n, env) == Ok((e, j))
  {
    hide Upper, AnyCase, ParseValue, SpellsValue, ListEnd, ListValues, SpellsList;
    var ts := all[n..j];
    assert all[n] == ts[0] && all[n + 1] == ts[1] && all[n + 2] == ts[2] && all[j - 1] == ts[|ts| - 1];
    Subslice(all, n, j, 2, |ts| - 1);
    UpperIff(all[n], "IN");
    UpperIff(all[n + 2], "SELECT");
    ReadList(all, n + 2, j - 1, e.values, env.isFloat);
  }

  lemma ReadSubquery(all: seq<string>, n: nat, j: nat, e: WhereExpr, env: Env)
    requires n <= j <= |all| && e.InSubquery? && SpellsTest(all[n..j], e, env)
    ensures ParsePredicate(all, e.column, n, env) == Ok((e, j))
  {
    hide Upper, AnyCase, SubqueryEnd, ListEnd, ListValues, Join, Depth, Balanced;
    var ts := all[n..j];
    assert all[n] == ts[0] && all[n + 1] == ts[1] && all[n + 2] == ts[2] && all[j - 1] == ts[|ts| - 1];
    Subslice(all, n, j, 2, |ts| - 1);
    UpperIff(all[n], "IN");
    UpperIff(all[n + 2], "SELECT");
    BalancedEnd(all, n + 2, j - 1);
  }

  lemma BalancedEnd(all: seq<string>, i: nat, end: nat)
    requires i <= end < |all| && all[end] == ")" && Balanced(all[i..end])
    ensures SubqueryEnd(all, i, 1) == end
  {
    hide Depth, SubqueryEnd;
    forall m | i <= m <= end ensures 1 + Depth(all[i..m]) - 1 > 0 {
      assert all[i..m] == all[i..end][..m - i];
    }
    DepthBetween(all, i, end, 1);
  }

  /** A predicate's test is read after its column. */
  lemma ReadTest(all: seq<string>, n: nat, j: nat, e: WhereExpr, env: Env)
    requires n <= j <= |all| && IsLeaf(e) && SpellsTest(all[n..j], e, env)
    ensures ParsePredicate(all, e.column, n, env) == Ok((e, j)) && n < |all| && all[n] != "("
  {
    hide Upper, AnyCase, ParseValue, SpellsValue, OperatorOf, SpellsOperator, SpellsList, ListEnd, ListValues,
         SubqueryEnd, Balanced, Join, ParsePredicate;
    var ts := all[n..j];
    assert all[n] == ts[0] && all[n + 1] == ts[1];
    NotOpening(all[n]);
    match e
    case Comparison(_, op, v) =>
      ReadOperator(all[n], op);
      ReadSpelled(all[n + 1], v, env.isFloat);
      ComparisonOf(all, n, e, env);
    case IsNull(_) =>
      UpperIff(all[n], "IS");
      UpperIff(all[n + 1], "NULL");
      NullTestOf(all, n, e.column, env);
    case IsNotNull(_) =>
      UpperIff(all[n], "IS");
      UpperIff(all[n + 1], "NOT");
      NullTestOf(all, n, e.column, env);
    case In(_, _) => ReadIn(all, n, j, e, env);
    case InSubquery(_, _) => ReadSubquery(all, n, j, e, env);
  }

  lemma NotOpening(token: string)
    ensures AnyCase(token, "IS") || AnyCase(token, "IN") ==> token != "("
  {
    if token == "(" {
      assert |token| == 1;
    }
  }

  lemma ComparisonOf(all: seq<string>, n: nat, e: WhereExpr, env: Env)
    requires n + 1 < |all| && e.Comparison? && OperatorOf(all[n]) == Some(e.op)
    requires ParseValue(all[n + 1], env.isFloat) == e.value && Upper(all[n]) != "IS" && Upper(all[n]) != "IN"
    ensures ParsePredicate(all, e.column, n, env) == Ok((e, n + 2))
  {
    hide ParseValue, OperatorOf, Upper;
  }

  lemma NullTestOf(all: seq<string>, n: nat, column: string, env: Env)
    requires n + 1 < |all| && Upper(all[n]) == "IS"
    ensures ParsePredicate(all, column, n, env) ==
            if Upper(all[n + 1]) == "NOT" then Ok((IsNotNull(column), n + 3)) else Ok((IsNull(column), n + 2))
  {
    hide Upper;
  }

  lemma AggregateName(token: string, a: nat)
    requires a < 5 && AsciiCase(token, AGGREGATES[a])
    ensures Upper(token) == AGGREGATES[a] && LowerAscii(token) == AGGREGATE_NAMES[a] && token != "("
    ensures !AnyCase(token, "NOT")
  {
    UpperIff(token, AGGREGATES[a]);
    var k, l := AGGREGATES[a], AGGREGATE_NAMES[a];
    assert |k| == |l| && |k| >= 3;
    assert forall i | 0 <= i < |k| :: 'A' <= k[i] <= 'Z' && l[i] as int == k[i] as int + 32;
    assert LowerAscii(token) == l;
    assert AnyCase(token, "NOT") ==> Cased(token[0], 'N');
  }

  /** The column, plain or an aggregate, is read up to the test. */
  lemma ReadColumn(all: seq<string>, i: nat, n: nat, column: string)
    requires i < n < |all| && SpellsColumn(all[i..n], column) && all[n] != "("
    ensures ColumnAt(all, i) == (column, n) && !Is(all, i, "NOT") && all[i] != "("
  {
    hide Upper, AnyCase, AsciiCase, LowerAscii;
    var part := all[i..n];
    assert part[0] == all[i];
    UpperIff(all[i], "NOT");
    if part == [column] {
      assert n == i + 1;
    } else {
      assert part[1] == all[i + 1] && part[2] == all[i + 2];
      var a: nat :| a < 5 && AsciiCase(part[0], AGGREGATES[a])
          && column == AGGREGATE_NAMES[a] + (if |part| == 4 then "(" + part[2] + ")" else "(*)");
      AggregateName(all[i], a);
      assert |part| == 4 ==> part[3] == all[i + 3];
      var name, arg := AGGREGATE_NAMES[a], if |part| == 4 then part[2] else "*";
      assert ColumnAt(all, i).1 == n;
      assert ColumnAt(all, i).0 == name + "(" + arg + ")";
      assert name + "(" + arg + ")" == name + ("(" + arg + ")");
      assert "(" + "*" + ")" == "(*)";
    }
  }

  lemma ReadLeaf(all: seq<string>, i: nat, j: nat, e: WhereExpr, env: Env)
    requires i <= j <= |all| && SpellsLeaf(all[i..j], e, env)
    ensures ParseAtom(all, i, env) == Ok((e, j))
  {
    hide SpellsColumn, SpellsTest, ColumnAt, ParsePredicate, Upper, ParseExpr;
    var ts := all[i..j];
    var n :| 0 < n < |ts| && SpellsColumn(ts[..n], e.column) && SpellsTest(ts[n..], e, env);
    assert ts[..n] == all[i..i + n] && ts[n..] == all[i + n..j];
    ReadTest(all, i + n, j, e, env);
    ReadColumn(all, i, i + n, e.column);
  }

  // One step of each parsing function.

  lemma OrStep(ts: seq<string>, l: WhereExpr, i: nat, r: WhereExpr, j: nat, env: Env)
    requires Is(ts, i, "OR") && ParseAnd(ts, i + 1, env) == Ok((r, j))
    ensures OrTail(ts, l, i, env) == OrTail(ts, Or(l, r), j, env)
  {
  }

  lemma AndStep(ts: seq<string>, l: WhereExpr, i: nat, r: WhereExpr, j: nat, env: Env)
    requires Is(ts, i, "AND") && ParseAtom(ts, i + 1, env) == Ok((r, j))
    ensures AndTail(ts, l, i, env) == AndTail(ts, And(l, r), j, env)
  {
  }

  lemma AndStop(ts: seq<string>, l: WhereExpr, i: nat, env: Env)
    requires !Is(ts, i, "AND")
    ensures AndTail(ts, l, i, env) == Ok((l, i))
  {
  }

  lemma OrStop(ts: seq<string>, l: WhereExpr, i: nat, env: Env)
    requires !Is(ts, i, "OR")
    ensures OrTail(ts, l, i, env) == Ok((l, i))
  {
  }

  lemma AndOf(ts: seq<string>, i: nat, e: WhereExpr, j: nat, env: Env)
    requires ParseAtom(ts, i, env) == Ok((e, j))
    ensures ParseAnd(ts, i, env) == AndTail(ts, e, j, env)
  {
  }

  lemma ExprOf(ts: seq<string>, i: nat, e: WhereExpr, j: nat, env: Env)
    requires ParseAnd(ts, i, env) == Ok((e, j))
    ensures ParseExpr(ts, i, env) == OrTail(ts, e, j, env)
  {
  }

  lemma NotOf(ts: seq<string>, i: nat, a: WhereExpr, j: nat, env: Env)
    requires Is(ts, i, "NOT") && ParseAtom(ts, i + 1, env) == Ok((a, j))
    ensures ParseAtom(ts, i, env) == Ok((Not(a), j))
  {
  }

  lemma ParenthesisOf(ts: seq<string>, i: nat, e: WhereExpr, j: nat, env: Env)
    requires i < |ts| && ts[i] == "(" && ParseExpr(ts, i + 1, env) == Ok((e, j)) && j < |ts| && ts[j] == ")"
    ensures ParseAtom(ts, i, env) == Ok((e, j + 1))
  {
    NotKeyword("(", "NOT", 0);
  }

  lemma ClosingEnds(ts: seq<string>, j: nat)
    requires j < |ts| && ts[j] == ")"
    ensures !Is(ts, j, "AND") && !Is(ts, j, "OR")
  {
    NotKeyword(")", "OR", 0);
    NotKeyword(")", "AND", 0);
  }

  /** At the level of atoms: exactly the spelled tokens are consumed. */
  lemma {:induction false} ReadAtom(all: seq<string>, i: nat, j: nat, e: WhereExpr, env: Env)
    requires i <= j <= |all| && Spells(all[i..j], e, 2, env)
    ensures ParseAtom(all, i, env) == Ok((e, j))
    decreases j - i, 0
  {
    hide Upper, AnyCase, ParseAtom, ParseExpr, OrTail, SpellsLeaf;
    var ts := all[i..j];
    if |ts| > 2 && ts[0] == "(" && ts[|ts| - 1] == ")" && Spells(ts[1..|ts| - 1], e, 0, env) {
      Subslice(all, i, j, 1, |ts| - 1);
      assert all[i] == ts[0] && all[j - 1] == ts[|ts| - 1];
      ClosingEnds(all, j - 1);
      ReadOr(all, i + 1, j - 1, e, env);
      OrStop(all, e, j - 1, env);
      ParenthesisOf(all, i, e, j - 1, env);
    } else if SpellsLeaf(ts, e, env) {
      ReadLeaf(all, i, j, e, env);
    } else {
      Subslice(all, i, j, 1, |ts|);
      assert ts[1..] == ts[1..|ts|] && all[i] == ts[0];
      UpperIff(all[i], "NOT");
      ReadAtom(all, i + 1, j, e.inner, env);
      NotOf(all, i, e.inner, j, env);
    }
  }

  lemma AndSplit(all: seq<string>, i: nat, j: nat, e: WhereExpr, env: Env) returns (k: nat)
    requires i <= j <= |all| && Spells(all[i..j], e, 1, env) && !Spells(all[i..j], e, 2, env)
    ensures e.And? && i + k < j && AnyCase(all[i + k], "AND")
    ensures Spells(all[i..i + k], e.left, 1, env) && Spells(all[i + k + 1..j], e.right, 2, env)
  {
    hide AnyCase, SpellsLeaf;
    var ts := all[i..j];
    k :| && 0 <= k < |ts| && AnyCase(ts[k], "AND")
         && Spells(ts[..k], e.left, 1, env) && Spells(ts[k + 1..], e.right, 2, env);
    Subslice(all, i, j, 0, k);
    Subslice(all, i, j, k + 1, |ts|);
    assert ts[..k] == ts[0..k] && ts[k + 1..] == ts[k + 1..|ts|] && all[i + k] == ts[k];
  }

  /** Reading on from a tree at the level of AND. */
  lemma {:induction false} ReadAnd(all: seq<string>, i: nat, j: nat, e: WhereExpr, env: Env)
    requires i <= j <= |all| && Spells(all[i..j], e, 1, env)
    ensures ParseAnd(all, i, env) == AndTail(all, e, j, env)
    decreases j - i, 1
  {
    hide Upper, AnyCase, ParseAtom, ParseAnd, AndTail, Spells;
    var ts := all[i..j];
    if Spells(ts, e, 2, env) {
      ReadAtom(all, i, j, e, env);
      AndOf(all, i, e, j, env);
    } else {
      var k := AndSplit(all, i, j, e, env);
      UpperIff(all[i + k], "AND");
      ReadAnd(all, i, i + k, e.left, env);
      ReadAtom(all, i + k + 1, j, e.right, env);
      AndStep(all, e.left, i + k, e.right, j, env);
    }
  }

  lemma OrSplit(all: seq<string>, i: nat, j: nat, e: WhereExpr, env: Env) returns (k: nat)
    requires i <= j <= |all| && Spells(all[i..j], e, 0, env) && !Spells(all[i..j], e, 1, env)
    ensures e.Or? && i + k < j && AnyCase(all[i + k], "OR")
    ensures Spells(all[i..i + k], e.left, 0, env) && Spells(all[i + k + 1..j], e.right, 1, env)
  {
    hide AnyCase, SpellsLeaf;
    var ts := all[i..j];
    k :| && 0 <= k < |ts| && AnyCase(ts[k], "OR")
         && Spells(ts[..k], e.left, 0, env) && Spells(ts[k + 1..], e.right, 1, env);
    Subslice(all, i, j, 0, k);
    Subslice(all, i, j, k + 1, |ts|);
    assert ts[..k] == ts[0..k] && ts[k + 1..] == ts[k + 1..|ts|] && all[i + k] == ts[k];
  }

  /** Reading on from a tree at the level of OR, when no AND follows it. */
  lemma {:induction false} ReadOr(all: seq<string>, i: nat, j: nat, e: WhereExpr, env: Env)
    requires i <= j <= |all| && Spells(all[i..j], e, 0, env) && !Is(all, j, "AND")
    ensures ParseExpr(all, i, env) == OrTail(all, e, j, env)
    decreases j - i, 2
  {
    hide Upper, AnyCase, ParseAnd, AndTail, ParseExpr, OrTail, Spells;
    var ts := all[i..j];
    if Spells(ts, e, 1, env) {
      ReadAnd(all, i, j, e, env);
      AndStop(all, e, j, env);
      ExprOf(all, i, e, j, env);
    } else {
      var k := OrSplit(all, i, j, e, env);
      UpperIff(all[i + k], "OR");
      OrIsNoAnd(all, i + k);
      ReadOr(all, i, i + k, e.left, env);
      ReadAnd(all, i + k + 1, j, e.right, env);
      AndStop(all, e.right, j, env);
      OrStep(all, e.left, i + k, e.right, j, env);
    }
  }

  lemma OrIsNoAnd(ts: seq<string>, k: nat)
    requires Is(ts, k, "OR")
    ensures !Is(ts, k, "AND")
  {
  }

  /** Whatever spelling a tree is written in, it is read back and exactly its tokens are
      consumed, before anything that does not continue it. */
  lemma SpelledIsParsed(ts: seq<string>, e: WhereExpr, before: seq<string>, after: seq<string>, env: Env)
    requires Spells(ts, e, 0, env)
    requires after != [] ==> !AnyCase(after[0], "AND") && !AnyCase(after[0], "OR")
    ensures ParseExpr(before + ts + after, |before|, env) == Ok((e, |before + ts|))
  {
    hide Upper, AnyCase, Spells, ParseExpr, OrTail;
    var all, i, j := before + ts + after, |before|, |before + ts|;
    assert all[i..j] == ts;
    if after != [] {
      assert all[j] == after[0];
      UpperIff(after[0], "AND");
      UpperIff(after[0], "OR");
    }
    ReadOr(all, i, j, e, env);
    OrStop(all, e, j, env);
  }

  /** So no token list writes two trees. */
  lemma SpellingUnique(ts: seq<string>, e: WhereExpr, e': WhereExpr, env: Env)
    requires Spells(ts, e, 0, env) && Spells(ts, e', 0, env)
    ensures e == e'
  {
    hide Spells, ParseExpr;
    SpelledIsParsed(ts, e, [], [], env);
    SpelledIsParsed(ts, e', [], [], env);
  }

  /** When what follows a column is refused, and as what. */
  lemma PredicateErrors(ts: seq<string>, column: string, i: nat, env: Env)
    ensures ParsePredicate(ts, column, i, env) == Err(MissingOperator) <==> i >= |ts|
    ensures ParsePredicate(ts, column, i, env) == Err(UnknownOperator) <==>
            && i < |ts| && !AnyCase(ts[i], "IS") && !AnyCase(ts[i], "IN")
            && forall op :: !SpellsOperator(ts[i], op)
    ensures ParsePredicate(ts, column, i, env) == Err(MissingValue) <==>
            i == |ts| - 1 && exists op :: SpellsOperator(ts[i], op)
  {
    hide ParseValue, ListEnd, ListValues, SubqueryEnd, Join, AnyCase, Upper;
    if i < |ts| {
      UpperIff(ts[i], "IS");
      UpperIff(ts[i], "IN");
      OperatorIff(ts[i]);
    }
  }

  lemma OperatorIff(token: string)
    ensures OperatorOf(token).None? <==> forall op :: !SpellsOperator(token, op)
    ensures (exists op :: SpellsOperator(token, op)) ==> Upper(token) != "IS" && Upper(token) != "IN"
  {
    if op :| SpellsOperator(token, op) {
      ReadOperator(token, op);
    }
    if OperatorOf(token).Some? {
      assert SpellsOperator(token, OperatorOf(token).value);
    }
  }

  // ----- The tree written with the fewest parentheses -----

  lemma {:induction false} ListSpells(vs: seq<SqlValue>, isFloat: string -> bool)
    requires forall k | 0 <= k < |vs| :: WritableValue(vs[k], isFloat)
    ensures SpellsList(ListTokens(vs), vs, isFloat)
    ensures if vs == [] then ListTokens(vs) == [] else
              ListTokens(vs) != [] && !AnyCase(ListTokens(vs)[0], "SELECT")
  {
    hide ValueToken, WritableValue, SpellsValue, AnyCase, Upper;
    if vs != [] {
      ReadValue(vs[0], isFloat);
      ValueSpells(vs[0], isFloat);
      UpperIff(ValueToken(vs[0]), "SELECT");
      if |vs| > 1 {
        ListSpells(vs[1..], isFloat);
        assert ListTokens(vs)[2..] == ListTokens(vs[1..]);
      }
    }
  }

  lemma ValueSpells(v: SqlValue, isFloat: string -> bool)
    requires WritableValue(v, isFloat)
    ensures SpellsValue(ValueToken(v), v, isFloat)
  {
    hide D.IntToText, D.Val, D.Nat, Escape, Unescape, Upper, AnyCase;
    match v
    case Float(literal) =>
      KeywordsOf(literal);
      CanonicalIff(literal);
    case Placeholder(n) =>
      var t := "$" + D.IntToText(n);
      assert t[1..] == D.IntToText(n) && t[1] == D.IntToText(n)[0];
      D.NegativeText(D.IntToText(n));
    case Boolean(b) =>
      Keyword(ValueToken(v));
      UpperIff(ValueToken(v), ValueToken(v));
    case Null =>
      Keyword("NULL");
      UpperIff("NULL", "NULL");
    case _ =>
  }

  lemma OwnCase(k: string)
    requires IsKeyword(k)
    ensures AnyCase(k, k)
  {
  }

  lemma LeafSpells(e: WhereExpr, env: Env)
    requires Writable(e, env.isFloat) && IsLeaf(e)
    ensures SpellsLeaf(Render(e, 2), e, env)
  {
    hide ValueToken, WritableValue, SpellsValue, AnyCase, Upper, ListTokens, SpellsList;
    var ts, c := Render(e, 2), e.column;
    assert ts[..1] == [c];
    NotParenthesis(c);
    UpperIff(c, "NOT");
    OwnCase("IS");
    OwnCase("NOT");
    OwnCase("NULL");
    OwnCase("IN");
    if e.Comparison? {
      ValueSpells(e.value, env.isFloat);
    } else if e.In? {
      ListSpells(e.values, env.isFloat);
      var rest := ts[1..];
      assert rest == ["IN", "("] + ListTokens(e.values) + [")"];
      assert rest[2..|rest| - 1] == ListTokens(e.values);
      NotKeyword(")", "SELECT", 0);
      UpperIff(")", "SELECT");
    }
    assert SpellsColumn(ts[..1], c) && SpellsTest(ts[1..], e, env);
  }

  lemma NotParenthesis(c: string)
    requires WritableColumn(c)
    ensures c != "("
  {
    assert IsWordChar(c[0]);
  }

  /** Rendering with the fewest parentheses is one of the spellings. */
  lemma {:induction false} RenderSpells(e: WhereExpr, level: nat, env: Env)
    requires Writable(e, env.isFloat)
    ensures Spells(Render(e, level), e, level, env) && Render(e, level) != []
    decreases e, if Strength(e) < level then 1 else 0
  {
    hide Spells, SpellsLeaf, WritableValue, WritableColumn, ListTokens, ValueToken, OperatorToken;
    if Strength(e) < level {
      RenderSpells(e, 0, env);
      SpellsEnclosed(Render(e, 0), e, level, env);
    } else if e.Or? {
      RenderSpells(e.left, 0, env);
      RenderSpells(e.right, 1, env);
      SpellsSplit(Render(e.left, 0), "OR", Render(e.right, 1), e, level, env);
    } else if e.And? {
      RenderSpells(e.left, 1, env);
      RenderSpells(e.right, 2, env);
      SpellsSplit(Render(e.left, 1), "AND", Render(e.right, 2), e, level, env);
    } else if e.Not? {
      RenderSpells(e.inner, 2, env);
      SpellsNot(Render(e.inner, 2), e, level, env);
    } else {
      LeafSpells(e, env);
      SpellsAsLeaf(Render(e, 2), e, level, env);
    }
  }

  lemma SpellsEnclosed(ts: seq<string>, e: WhereExpr, level: nat, env: Env)
    requires ts != [] && Spells(ts, e, 0, env)
    ensures Spells(["("] + ts + [")"], e, level, env)
  {
    hide AnyCase, SpellsLeaf;
    var all := ["("] + ts + [")"];
    assert all[1..|all| - 1] == ts;
  }

  lemma SpellsNot(ts: seq<string>, e: WhereExpr, level: nat, env: Env)
    requires e.Not? && Spells(ts, e.inner, 2, env)
    ensures Spells(["NOT"] + ts, e, level, env)
  {
    hide SpellsLeaf, AnyCase;
    OwnCase("NOT");
    assert (["NOT"] + ts)[1..] == ts;
  }

  lemma SpellsAsLeaf(ts: seq<string>, e: WhereExpr, level: nat, env: Env)
    requires SpellsLeaf(ts, e, env)
    ensures Spells(ts, e, level, env)
  {
    hide SpellsLeaf, AnyCase;
  }

  lemma SpellsSplit(a: seq<string>, k: string, b: seq<string>, e: WhereExpr, level: nat, env: Env)
    requires || (k == "OR" && e.Or? && level == 0 && Spells(a, e.left, 0, env) && Spells(b, e.right, 1, env))
             || (k == "AND" && e.And? && level <= 1 && Spells(a, e.left, 1, env) && Spells(b, e.right, 2, env))
    ensures Spells(a + [k] + b, e, level, env)
  {
    hide SpellsLeaf, AnyCase;
    var ts := a + [k] + b;
    OwnCase(k);
    assert ts[..|a|] == a && ts[|a|] == k && ts[|a| + 1..] == b;
  }

  /** A tree written as tokens is read back, consuming exactly its tokens,
      before anything that does not continue it. */
  lemma WhereRoundTrip(e: WhereExpr, before: seq<string>, after: seq<string>, env: Env)
    requires Writable(e, env.isFloat)
    requires after != [] ==> !AnyCase(after[0], "AND") && !AnyCase(after[0], "OR")
    ensures ParseExpr(before + Render(e, 0) + after, |before|, env) == Ok((e, |before + Render(e, 0)|))
  {
    hide AnyCase, Spells, ParseExpr;
    RenderSpells(e, 0, env);
    SpelledIsParsed(Render(e, 0), e, before, after, env);
  }

  lemma {:induction false} ListIsTokens(vs: seq<SqlValue>, isFloat: string -> bool)
    requires forall k | 0 <= k < |vs| :: WritableValue(vs[k], isFloat)
    ensures AllTokens(ListTokens(vs))
  {
    hide ValueToken, WritableValue, IsToken;
    if vs != [] {
      ReadValue(vs[0], isFloat);
      assert IsToken(",") by { Symbols(); }
      if |vs| > 1 {
        ListIsTokens(vs[1..], isFloat);
      }
    }
  }

  lemma Symbols()
    ensures IsToken("(") && IsToken(")") && IsToken(",")
  {
  }

  lemma KeywordToken(k: string)
    requires IsKeyword(k)
    ensures IsToken(k)
  {
    Keyword(k);
  }

  lemma OperatorIsToken(op: CmpOp)
    ensures IsToken(OperatorToken(op))
  {
    KeywordToken("LIKE");
  }

  /** Everything a tree is written with is a token. */
  lemma {:induction false} RenderIsTokens(e: WhereExpr, level: nat, isFloat: string -> bool)
    requires Writable(e, isFloat)
    ensures AllTokens(Render(e, level))
    decreases e, if Strength(e) < level then 1 else 0
  {
    hide IsToken, ListTokens, ValueToken, WritableValue, OperatorToken, IsWord;
    Symbols();
    if Strength(e) < level {
      RenderIsTokens(e, 0, isFloat);
    } else {
      match e
      case Or(a, b) => KeywordToken("OR"); RenderIsTokens(a, 0, isFloat); RenderIsTokens(b, 1, isFloat);
      case And(a, b) => KeywordToken("AND"); RenderIsTokens(a, 1, isFloat); RenderIsTokens(b, 2, isFloat);
      case Not(a) => KeywordToken("NOT"); RenderIsTokens(a, 2, isFloat);
      case Comparison(c, op, v) => WordIsToken(c); OperatorIsToken(op); ReadValue(v, isFloat);
      case IsNull(c) => WordIsToken(c); KeywordToken("IS"); KeywordToken("NULL");
      case IsNotNull(c) => WordIsToken(c); KeywordToken("IS"); KeywordToken("NOT"); KeywordToken("NULL");
      case In(c, vs) => WordIsToken(c); KeywordToken("IN"); ListIsTokens(vs, isFloat);
    }
  }

  /** As text: in whatever spelling, tokens joined by spaces tokenize and parse back. */
  lemma SpelledTextIsParsed(ts: seq<string>, e: WhereExpr, env: Env)
    requires AllTokens(ts) && Spells(ts, e, 0, env)
    ensures Tokens(Join(ts)) == ts && ParseExpr(Tokens(Join(ts)), 0, env) == Ok((e, |ts|))
  {
    hide Spells, ParseExpr, IsToken, Tokens, Join;
    Relex(ts);
    SpelledIsParsed(ts, e, [], [], env);
    assert [] + ts + [] == ts && [] + ts == ts;
  }

  /** So does the one with the fewest parentheses. */
  lemma WhereTextRoundTrip(e: WhereExpr, env: Env)
    requires Writable(e, env.isFloat)
    ensures var ts := Tokens(Join(Render(e, 0))); ts == Render(e, 0) && ParseExpr(ts, 0, env) == Ok((e, |ts|))
  {
    hide Render, Writable, ParseExpr, Spells;
    RenderIsTokens(e, 0, env.isFloat);
    RenderSpells(e, 0, env);
    SpelledTextIsParsed(Render(e, 0), e, env);
  }
}
