/** Secondary indexes: entry keys, and what lookups and range scans return. */
module SecondaryIndex {
  import opened Basics
  import opened Storage
  import opened IndexEncoding
  import D = Decimal

  const NUL := 0 as char
  const DEL := 0x7F as char

  type Doc = map<string, Json>

  datatype IndexDef = IndexDef(id: nat, fields: seq<(string, FieldType)>, unique: bool)

  // ----- Entry keys -----

  /** The id in decimal, padded to eight digits. */
  function PadText(n: nat): string {
    var t := D.NatText(n);
    Zeros(if |t| < 8 then 8 - |t| else 0) + t
  }

  function Zeros(k: nat): string {
    if k == 0 then "" else "0" + Zeros(k - 1)
  }

  function ScanPrefix(id: nat): string {
    [NUL] + "IDX" + [NUL] + PadText(id) + [NUL]
  }

  /** The encoded values in hexadecimal with separators between them. */
  function JoinHex(values: seq<Bytes>): string {
    if values == [] then ""
    else if |values| == 1 then Hex(values[0])
    else JoinHex(values[..|values| - 1]) + [NUL] + Hex(values[|values| - 1])
  }

  function ValuePrefix(id: nat, values: seq<Bytes>): string {
    ScanPrefix(id) + JoinHex(values)
  }

  function ExactPrefix(id: nat, values: seq<Bytes>): string {
    ValuePrefix(id, values) + [NUL]
  }

  function IndexKey(id: nat, values: seq<Bytes>, pk: string): string {
    ExactPrefix(id, values) + pk
  }

  method BuildIndexKey(id: nat, values: seq<Bytes>, pk: string) returns (key: string)
    ensures key == IndexKey(id, values, pk)
  {
    hide Hex, PadText;
    key := ScanPrefix(id);
    for i := 0 to |values|
      invariant key == ScanPrefix(id) + JoinHex(values[..i]) + (if 0 < i < |values| then [NUL] else "")
    {
      assert values[..i + 1][..i] == values[..i];
      key := key + Hex(values[i]);
      if i < |values| - 1 {
        key := key + [NUL];
      }
    }
    assert values[..|values|] == values;
    key := key + [NUL] + pk;
  }

  /** The fields of a document an index covers, encoded; none if one is missing. */
  ghost function Values(def: IndexDef, doc: Doc): Option<seq<Bytes>> {
    if forall i | 0 <= i < |def.fields| :: def.fields[i].0 in doc && ValidJson(doc[def.fields[i].0]) then
      Some(seq(|def.fields|, i requires 0 <= i < |def.fields| => Encode(doc[def.fields[i].0], def.fields[i].1)))
    else None
  }

  // ----- Keys determine their parts -----

  predicate NoNul(s: string) {
    NUL !in s
  }

  lemma {:induction false} HexNoNul(s: Bytes)
    ensures NoNul(Hex(s))
  {
    if s != [] {
      HexNoNul(s[..|s| - 1]);
    }
  }

  lemma {:induction false} PadDigits(k: nat, t: string)
    requires D.Digits(t)
    ensures D.Digits(Zeros(k) + t) && D.Nat(Zeros(k) + t) == D.Nat(t)
  {
    if k == 0 {
      assert "" + t == t;
    } else {
      PadDigits(k - 1, t);
      assert Zeros(k) + t == ['0'] + (Zeros(k - 1) + t);
      D.NatFront('0', Zeros(k - 1) + t);
    }
  }

  /** The id is written in decimal with at least eight digits, with leading zeros only to
      make up that many. */
  lemma PadTextIs(n: nat)
    ensures var t := PadText(n);
            D.Digits(t) && D.Nat(t) == n && |t| >= 8 && (|t| > 8 ==> t[0] != '0')
  {
    hide D.NatText, D.Nat;
    var t := D.NatText(n);
    PadDigits(if |t| < 8 then 8 - |t| else 0, t);
    ZerosLength(if |t| < 8 then 8 - |t| else 0);
  }

  lemma ZerosLength(k: nat)
    ensures |Zeros(k)| == k
  {
  }

  lemma PadInjective(a: nat, b: nat)
    requires PadText(a) == PadText(b)
    ensures a == b
  {
    hide D.NatText, D.Nat;
    var s, t := D.NatText(a), D.NatText(b);
    PadDigits(if |s| < 8 then 8 - |s| else 0, s);
    PadDigits(if |t| < 8 then 8 - |t| else 0, t);
  }

  lemma PadNoNul(n: nat)
    ensures NoNul(PadText(n))
  {
    hide D.NatText, D.Nat;
    var t := D.NatText(n);
    PadDigits(if |t| < 8 then 8 - |t| else 0, t);
  }

  /** Two texts up to a separator are equal if one starts the other. */
  lemma CutAtNul(a: string, x: string, b: string, y: string)
    requires NoNul(a) && NoNul(b) && a + [NUL] + x <= b + [NUL] + y
    ensures a == b && x <= y
  {
    hide SplitOnce;
    var whole := b + [NUL] + y;
    var rest := whole[|a + [NUL] + x|..];
    assert a + [NUL] + (x + rest) == whole;
    SplitOnceAt(a, NUL, x + rest);
    SplitOnceAt(b, NUL, y);
  }

  lemma ScanPrefixUnique(id: nat, x: string, id': nat, y: string)
    requires ScanPrefix(id) + x <= ScanPrefix(id') + y
    ensures id == id' && x <= y
  {
    hide PadText, SplitOnce;
    var head := [NUL] + "IDX" + [NUL];
    PadNoNul(id);
    PadNoNul(id');
    assert ScanPrefix(id) + x == head + (PadText(id) + [NUL] + x);
    assert ScanPrefix(id') + y == head + (PadText(id') + [NUL] + y);
    DropPrefix(head, PadText(id) + [NUL] + x, PadText(id') + [NUL] + y);
    CutAtNul(PadText(id), x, PadText(id'), y);
    PadInjective(id, id');
  }

  lemma DropPrefix(p: string, a: string, b: string)
    requires p + a <= p + b
    ensures a <= b
  {
    assert (p + a)[|p|..] == a && (p + b)[|p|..] == b;
    assert (p + b)[..|p + a|] == p + a;
    assert (p + b)[..|p + a|][|p|..] == b[..|a|];
  }

  /** The encoded values each followed by a separator. */
  function Terminated(values: seq<Bytes>): string {
    if values == [] then "" else Terminated(values[..|values| - 1]) + Hex(values[|values| - 1]) + [NUL]
  }

  lemma {:induction false} JoinTerminated(values: seq<Bytes>)
    ensures JoinHex(values) + [NUL] == if values == [] then [NUL] else Terminated(values)
  {
    hide Hex;
    var n := |values| - 1;
    if n > 0 {
      JoinTerminated(values[..n]);
      assert JoinHex(values) + [NUL] == (JoinHex(values[..n]) + [NUL]) + (Hex(values[n]) + [NUL]);
    } else if n == 0 {
      assert values[..n] == [];
    }
  }

  lemma {:induction false} TerminatedFront(values: seq<Bytes>)
    requires values != []
    ensures Terminated(values) == Hex(values[0]) + [NUL] + Terminated(values[1..])
  {
    hide Hex;
    var n := |values| - 1;
    if n > 0 {
      TerminatedFront(values[..n]);
      assert values[..n][1..] == values[1..][..n - 1];
      assert Terminated(values) == Hex(values[0]) + [NUL] + (Terminated(values[1..][..n - 1]) + Hex(values[n]) + [NUL]);
    } else {
      assert values[..n] == [] && values[1..] == [];
    }
  }

  lemma {:induction false} TerminatedUnique(v: seq<Bytes>, x: string, w: seq<Bytes>, y: string)
    requires |v| == |w| && Terminated(v) + x <= Terminated(w) + y
    ensures v == w && x <= y
  {
    hide Hex, Terminated;
    if v == [] {
      assert Terminated(v) == "" && Terminated(w) == "" by { NothingTerminated(); }
      assert "" + x == x && "" + y == y;
    } else {
      TerminatedFront(v);
      TerminatedFront(w);
      HexNoNul(v[0]);
      HexNoNul(w[0]);
      var a, b := Terminated(v[1..]) + x, Terminated(w[1..]) + y;
      assert Terminated(v) + x == Hex(v[0]) + [NUL] + a;
      assert Terminated(w) + y == Hex(w[0]) + [NUL] + b;
      CutAtNul(Hex(v[0]), a, Hex(w[0]), b);
      HexOrder(v[0], w[0]);
      TerminatedUnique(v[1..], x, w[1..], y);
      assert v == [v[0]] + v[1..] && w == [w[0]] + w[1..];
    }
  }

  lemma NothingTerminated()
    ensures Terminated([]) == ""
  {
  }

  /** A key that starts with an exact prefix is an entry for those very values. */
  lemma ExactPrefixUnique(id: nat, v: seq<Bytes>, id': nat, w: seq<Bytes>, pk: string)
    requires ExactPrefix(id, v) <= IndexKey(id', w, pk) && (id == id' ==> |v| == |w|)
    ensures id == id' && v == w
  {
    hide ScanPrefix, JoinHex, Terminated;
    var x, y := JoinHex(v) + [NUL], JoinHex(w) + [NUL] + pk;
    assert ExactPrefix(id, v) == ScanPrefix(id) + x;
    assert IndexKey(id', w, pk) == ScanPrefix(id') + y;
    ScanPrefixUnique(id, x, id', y);
    JoinTerminated(v);
    JoinTerminated(w);
    if v != [] {
      assert x == Terminated(v) + "";
      assert y == Terminated(w) + pk;
      TerminatedUnique(v, "", w, pk);
    }
  }

  lemma KeyUnique(id: nat, v: seq<Bytes>, pk: string, id': nat, w: seq<Bytes>, pk': string)
    requires IndexKey(id, v, pk) == IndexKey(id', w, pk') && (id == id' ==> |v| == |w|)
    ensures id == id' && v == w && pk == pk'
  {
    hide ExactPrefix;
    ExactPrefixUnique(id, v, id', w, pk');
    assert pk == IndexKey(id, v, pk)[|ExactPrefix(id, v)|..] == pk';
  }

  // ----- Scans -----

  predicate InScan(k: string, lo: string, hi: string) {
    Leq(lo, k) && Leq(k, hi)
  }

  lemma LeqShift(p: string, a: string, b: string)
    ensures Leq(p + a, p + b) <==> Leq(a, b)
  {
    hide Parting;
    var i := Parting(a, b);
    assert (p + a)[..|p| + i] == p + a[..i] && (p + b)[..|p| + i] == p + b[..i];
    PartingUnique(p + a, p + b, |p| + i);
  }

  /** Every key between two keys with a common prefix has that prefix. */
  lemma ScanKeepsPrefix(p: string, a: string, b: string, k: string)
    requires InScan(k, p + a, p + b)
    ensures p <= k
  {
    hide Parting;
    var i := Parting(p, k);
    PrefixParts(p, k);
    if i < |p| {
      assert (p + a)[..i] == p[..i] && (p + b)[..i] == p[..i];
      PartingUnique(p + a, k, i);
      PartingUnique(k, p + b, i);
    }
  }

  lemma ScanWithin(p: string, a: string, b: string, x: string)
    ensures InScan(p + x, p + a, p + b) <==> Leq(a, x) && Leq(x, b)
  {
    LeqShift(p, a, x);
    LeqShift(p, x, b);
  }

  lemma EmptyLeq(x: string)
    ensures Leq("", x)
  {
    PartingUnique("", x, 0);
  }

  /** Primary keys an exact lookup can see. */
  predicate BelowDel(pk: string) {
    Leq(pk, [DEL])
  }

  ghost function Lookup(data: Data, id: nat, values: seq<Bytes>): set<string> {
    set k | k in data && InScan(k, ExactPrefix(id, values), ExactPrefix(id, values) + [DEL]) :: data[k].text
  }

  /** An exact lookup scans the entries for the given values whose primary key
      is below the end mark, and no others. */
  lemma LookupScans(id: nat, v: seq<Bytes>, id': nat, w: seq<Bytes>, pk: string)
    requires id == id' ==> |v| == |w|
    ensures InScan(IndexKey(id', w, pk), ExactPrefix(id, v), ExactPrefix(id, v) + [DEL])
       <==> id == id' && v == w && BelowDel(pk)
  {
    hide ExactPrefix, Leq;
    var p, k := ExactPrefix(id, v), IndexKey(id', w, pk);
    assert p + "" == p;
    if InScan(k, p, p + [DEL]) {
      ScanKeepsPrefix(p, "", [DEL], k);
      ExactPrefixUnique(id, v, id', w, pk);
    }
    if id == id' && v == w {
      ScanWithin(p, "", [DEL], pk);
      EmptyLeq(pk);
    }
  }

  ghost function RangeScan(data: Data, id: nat, start: Bytes, end: Bytes): set<string> {
    set k | k in data && InScan(k, ValuePrefix(id, [start]), ValuePrefix(id, [end]) + "~~") :: data[k].text
  }

  lemma HexBelowTilde(s: Bytes, i: nat)
    requires i < |Hex(s)|
    ensures NUL < Hex(s)[i] < '~'
  {
    hide Hex;
    HexAt(s, i / 2);
    assert i == 2 * (i / 2) || i == 2 * (i / 2) + 1;
  }

  /** A hexadecimal text followed by a separator compares as the text does. */
  lemma HexFollowed(v: Bytes, s: Bytes, pk: string)
    ensures Leq(Hex(s), Hex(v) + [NUL] + pk) <==> ByteLeq(s, v)
    ensures Leq(Hex(v) + [NUL] + pk, Hex(s) + "~~") <==> ByteLeq(v, s) || s <= v
  {
    hide Hex, Parting, ByteLeq;
    HexOrder(s, v);
    HexOrder(v, s);
    FollowedLow(s, Hex(v), pk);
    FollowedHigh(v, s, pk);
  }

  lemma FollowedLow(bytes: Bytes, v: string, pk: string)
    ensures Leq(Hex(bytes), v + [NUL] + pk) <==> Leq(Hex(bytes), v)
  {
    hide Hex, Parting;
    var s, x := Hex(bytes), v + [NUL] + pk;
    var i := Parting(s, v);
    assert x[..i] == v[..i];
    if i < |s| {
      HexBelowTilde(bytes, i);
      assert i == |v| ==> x[i] == NUL;
    }
    PartingUnique(s, x, i);
  }

  lemma FollowedHigh(vb: Bytes, sb: Bytes, pk: string)
    ensures Leq(Hex(vb) + [NUL] + pk, Hex(sb) + "~~") <==> Leq(Hex(vb), Hex(sb)) || Hex(sb) <= Hex(vb)
  {
    hide Hex, Parting;
    var v, s := Hex(vb), Hex(sb);
    var i, x, y := Parting(v, s), v + [NUL] + pk, s + "~~";
    assert x[..i] == v[..i] && y[..i] == s[..i];
    PrefixParts(s, v);
    PartingSymmetric(v, s);
    if i < |v| {
      HexBelowTilde(vb, i);
    } else {
      assert x[i] == NUL;
    }
    if i < |s| {
      HexBelowTilde(sb, i);
    } else {
      assert y[i] == '~';
    }
    PartingUnique(x, y, i);
  }

  lemma PartingSymmetric<T>(a: seq<T>, b: seq<T>)
    ensures Parting(a, b) == Parting(b, a)
  {
    PartingUnique(b, a, Parting(a, b));
  }
}
