/** How a column name is read on a stored row and on a joined row. */
module Resolve {
  import opened Basics
  import opened HashJoin
  import opened Sql

  // ----- Reading columns by name -----

  function Lower(c: char): char {
    if 'A' <= c <= 'Z' then (c as int + 32) as char else c
  }

  predicate EqIgnoreCase(a: string, b: string) {
    |a| == |b| && forall i | 0 <= i < |a| :: Lower(a[i]) == Lower(b[i])
  }

  /** The other case of a letter. */
  predicate OtherCase(c: char, d: char) {
    || ('A' <= c <= 'Z' && d as int == c as int + 32)
    || ('A' <= d <= 'Z' && c as int == d as int + 32)
  }

  /** Names agree when they differ at most in the case of ASCII letters. */
  lemma IgnoreCaseIff(a: string, b: string)
    ensures EqIgnoreCase(a, b) <==>
            |a| == |b| && forall i | 0 <= i < |a| :: a[i] == b[i] || OtherCase(a[i], b[i])
  {
    if |a| == |b| {
      assert forall i | 0 <= i < |a| :: Lower(a[i]) == Lower(b[i]) <==> a[i] == b[i] || OtherCase(a[i], b[i]);
    }
  }

  function Get<V>(m: map<string, V>, k: string): Option<V> {
    if k in m then Some(m[k]) else None
  }

  function Flat(x: Option<Option<string>>): Option<string> {
    if x.Some? then x.value else None
  }

  /** A key `q'.b` whose qualifier is `q` in any case. */
  predicate Names(k: string, q: string, b: string) {
    var parts := SplitOnce(k, '.');
    parts.Some? && EqIgnoreCase(parts.value.0, q) && parts.value.1 == b
  }

  ghost predicate HasQualifiedKey<V>(m: map<string, V>) {
    exists k :: k in m && '.' in k
  }

  /** Some entry named `q.b`; on the maps at hand there is at most one. */
  ghost function FindNamed<V>(m: map<string, V>, q: string, b: string): Option<V> {
    if exists k :: k in m && Names(k, q, b) then
      var k :| k in m && Names(k, q, b); Some(m[k])
    else None
  }

  /** Resolving a column: a NULL cell reads as absent, a qualified name falls
      back on the bare one only where nothing is qualified. */
  ghost function RowLookup(row: Row, column: string): Option<string> {
    if column in row && row[column].Some? then row[column]
    else match SplitOnce(column, '.')
      case None => None
      case Some((q, b)) =>
        if !HasQualifiedKey(row) then Flat(Get(row, b)) else Flat(FindNamed(row, q, b))
  }

  ghost function TypeLookup(types: map<string, ColumnType>, column: string): Option<ColumnType> {
    if column in types then Some(types[column])
    else match SplitOnce(column, '.')
      case None => None
      case Some((q, b)) =>
        if !HasQualifiedKey(types) then Get(types, b) else FindNamed(types, q, b)
  }

  /** Table and column names without a point. */
  ghost predicate Plain<V>(m: map<string, V>) {
    forall k | k in m :: '.' !in k
  }

  ghost predicate PlainTables(a: string, b: string) {
    '.' !in a && '.' !in b && !EqIgnoreCase(a, b)
  }

  /** What a column denotes over two named sides, the first winning a bare clash. */
  function Bound<V>(b: map<string, V>, p: map<string, V>, bt: string, pt: string, column: string): Option<V> {
    match SplitOnce(column, '.')
    case None => if column in b then Some(b[column]) else Get(p, column)
    case Some((q, c)) => if EqIgnoreCase(q, bt) then Get(b, c) else if EqIgnoreCase(q, pt) then Get(p, c) else None
  }

  lemma QualifiedKey(t: string, c: string)
    requires '.' !in t
    ensures SplitOnce(t + "." + c, '.') == Some((t, c)) && '.' in t + "." + c
  {
    SplitOnceAt(t, '.', c);
  }

  lemma PrefixedKey<V>(row: map<string, V>, t: string, k: string)
    requires '.' !in t && k in Prefixed(row, t + ".")
    ensures k == t + "." + k[|t| + 1..] && SplitOnce(k, '.') == Some((t, k[|t| + 1..]))
    ensures k[|t| + 1..] in row && Prefixed(row, t + ".")[k] == row[k[|t| + 1..]]
  {
    assert |t + "."| == |t| + 1;
    QualifiedKey(t, k[|t| + 1..]);
  }

  lemma SameName(t: string)
    ensures EqIgnoreCase(t, t)
  {
  }

  /** A prefixed map holds exactly the names its prefix qualifies. */
  lemma PrefixedGet<V>(row: map<string, V>, t: string, k: string)
    requires '.' !in t
    ensures Get(Prefixed(row, t + "."), k)
         == match SplitOnce(k, '.') case Some((q, c)) => (if q == t then Get(row, c) else None) case None => None
  {
    hide SplitOnce, Prefixed;
    if k in Prefixed(row, t + ".") {
      PrefixedKey(row, t, k);
    }
  }

  lemma CombineGet<V>(b: map<string, V>, p: map<string, V>, bp: string, pp: string, k: string)
    ensures Get(Combine(b, p, bp, pp), k)
         == if k in Prefixed(p, pp) then Get(Prefixed(p, pp), k)
            else if k in Prefixed(b, bp) then Get(Prefixed(b, bp), k)
            else if k in b then Get(b, k) else Get(p, k)
  {
    hide Prefixed;
  }

  /** The bare and qualified entries of a combined map. */
  lemma CombinedEntries<V>(b: map<string, V>, p: map<string, V>, bt: string, pt: string, c: string)
    requires Plain(b) && Plain(p) && PlainTables(bt, pt)
    ensures var m := Combine(b, p, bt + ".", pt + ".");
            && ('.' !in c ==> Get(m, c) == if c in b then Some(b[c]) else Get(p, c))
            && Get(m, bt + "." + c) == Get(b, c)
            && Get(m, pt + "." + c) == Get(p, c)
  {
    hide SplitOnce, Prefixed, EqIgnoreCase, Combine;
    SameName(bt);
    forall k | k in [c, bt + "." + c, pt + "." + c]
      ensures Get(Combine(b, p, bt + ".", pt + "."), k)
           == match SplitOnce(k, '.')
              case Some((q, d)) => (if q == pt then Get(p, d) else if q == bt then Get(b, d) else None)
              case None => if k in b then Get(b, k) else Get(p, k)
    {
      PrefixedGet(b, bt, k);
      PrefixedGet(p, pt, k);
      CombineGet(b, p, bt + ".", pt + ".", k);
    }
    QualifiedKey(bt, c);
    QualifiedKey(pt, c);
  }

  lemma NamesQualified(t: string, c: string, q: string)
    requires '.' !in t && EqIgnoreCase(q, t)
    ensures Names(t + "." + c, q, c)
  {
    QualifiedKey(t, c);
    CaseSymmetric(q, t);
  }

  /** Every qualified key of a combined map belongs to the side it names. */
  lemma NamedInCombined<V>(b: map<string, V>, p: map<string, V>, bt: string, pt: string, q: string, c: string,
                           k: string)
    requires Plain(b) && Plain(p) && PlainTables(bt, pt)
    requires k in Combine(b, p, bt + ".", pt + ".") && Names(k, q, c)
    ensures var m := Combine(b, p, bt + ".", pt + ".");
            Some(m[k]) == if EqIgnoreCase(q, bt) then Get(b, c) else if EqIgnoreCase(q, pt) then Get(p, c) else None
  {
    var pq := Prefixed(p, pt + ".");
    assert '.' in k;
    if k in pq {
      PrefixedKey(p, pt, k);
      CaseSymmetric(pt, q);
      CaseTransitive(bt, q, pt);
    } else {
      PrefixedKey(b, bt, k);
    }
  }

  lemma CaseSymmetric(a: string, b: string)
    requires EqIgnoreCase(a, b)
    ensures EqIgnoreCase(b, a)
  {
  }

  lemma CaseTransitive(a: string, b: string, c: string)
    ensures EqIgnoreCase(b, a) && EqIgnoreCase(b, c) ==> EqIgnoreCase(a, c)
  {
  }

  /** On a combined map every name resolves to the side it is bound to. */
  lemma FindInCombined<V>(b: map<string, V>, p: map<string, V>, bt: string, pt: string, q: string, c: string)
    requires Plain(b) && Plain(p) && PlainTables(bt, pt)
    ensures FindNamed(Combine(b, p, bt + ".", pt + "."), q, c)
         == if EqIgnoreCase(q, bt) then Get(b, c) else if EqIgnoreCase(q, pt) then Get(p, c) else None
  {
    hide SplitOnce, Prefixed, EqIgnoreCase, Combine;
    var m := Combine(b, p, bt + ".", pt + ".");
    if exists k :: k in m && Names(k, q, c) {
      var k :| k in m && Names(k, q, c) && FindNamed(m, q, c) == Some(m[k]);
      NamedInCombined(b, p, bt, pt, q, c, k);
    } else {
      CombinedEntries(b, p, bt, pt, c);
      if EqIgnoreCase(q, bt) {
        NamesQualified(bt, c, q);
      } else if EqIgnoreCase(q, pt) {
        NamesQualified(pt, c, q);
      }
    }
  }

  /** A combined row reads every column as the side it is bound to does. */
  lemma CombinedLookup(b: Row, p: Row, bt: string, pt: string, column: string)
    requires Plain(b) && Plain(p) && PlainTables(bt, pt)
    ensures RowLookup(Combine(b, p, bt + ".", pt + "."), column) == Flat(Bound(b, p, bt, pt, column))
  {
    hide SplitOnce, Combine, EqIgnoreCase, FindNamed, HasQualifiedKey;
    var m := Combine(b, p, bt + ".", pt + ".");
    match SplitOnce(column, '.')
    case None => CombinedEntries(b, p, bt, pt, column);
    case Some((q, c)) =>
      FindInCombined(b, p, bt, pt, q, c);
      if column in m {
        ExactName(column, q, c);
        NamedInCombined(b, p, bt, pt, q, c, column);
        QualifiedPresent(m, column);
      } else if !HasQualifiedKey(m) {
        NothingQualified(b, p, bt, pt, c);
      }
  }

  lemma ExactName(column: string, q: string, c: string)
    requires SplitOnce(column, '.') == Some((q, c))
    ensures Names(column, q, c)
  {
    SameName(q);
  }

  lemma QualifiedPresent<V>(m: map<string, V>, column: string)
    requires column in m && '.' in column
    ensures HasQualifiedKey(m)
  {
  }

  /** A combined map without a qualified key is empty. */
  lemma NothingQualified<V>(b: map<string, V>, p: map<string, V>, bt: string, pt: string, c: string)
    requires Plain(b) && Plain(p) && PlainTables(bt, pt) && !HasQualifiedKey(Combine(b, p, bt + ".", pt + "."))
    ensures Get(b, c) == None && Get(p, c) == None && Get(Combine(b, p, bt + ".", pt + "."), c) == None
  {
    hide SplitOnce, Combine, Prefixed, EqIgnoreCase;
    forall d ensures d !in b && d !in p {
      CombinedEntries(b, p, bt, pt, d);
      assert '.' in bt + "." + d && '.' in pt + "." + d;
    }
    CombinedEntries(b, p, bt, pt, c);
    if '.' in c {
      assert c !in Combine(b, p, bt + ".", pt + ".");
    }
  }

  lemma CombinedTypes(b: map<string, ColumnType>, p: map<string, ColumnType>, bt: string, pt: string, column: string)
    requires Plain(b) && Plain(p) && PlainTables(bt, pt)
    ensures TypeLookup(Combine(b, p, bt + ".", pt + "."), column) == Bound(b, p, bt, pt, column)
  {
    hide SplitOnce, Combine, EqIgnoreCase, FindNamed, HasQualifiedKey;
    var m := Combine(b, p, bt + ".", pt + ".");
    match SplitOnce(column, '.')
    case None => CombinedEntries(b, p, bt, pt, column);
    case Some((q, c)) =>
      FindInCombined(b, p, bt, pt, q, c);
      if column in m {
        ExactName(column, q, c);
        NamedInCombined(b, p, bt, pt, q, c, column);
      } else if !HasQualifiedKey(m) {
        NothingQualified(b, p, bt, pt, c);
      }
  }
}
