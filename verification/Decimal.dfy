/** Exact SUM and AVG over integer texts, computed on digit strings. */
module Decimal {
  import opened Basics

  const FRAC_DIGITS := 15

  predicate IsDigit(c: char) {
    '0' <= c <= '9'
  }

  function DigitOf(c: char): (d: nat)
    requires IsDigit(c)
    ensures d < 10
  {
    c as int - '0' as int
  }

  function DigitChar(d: nat): (c: char)
    requires d < 10
    ensures IsDigit(c) && DigitOf(c) == d
  {
    (d + '0' as int) as char
  }

  predicate Digits(s: string) {
    forall i | 0 <= i < |s| :: IsDigit(s[i])
  }

  /** The number a digit string denotes; the empty string denotes zero. */
  function Nat(s: string): nat
    requires Digits(s)
  {
    if s == "" then 0 else 10 * Nat(s[..|s| - 1]) + DigitOf(s[|s| - 1])
  }

  function Pow10(k: nat): (p: nat)
    ensures p > 0
  {
    if k == 0 then 1 else 10 * Pow10(k - 1)
  }

  /** The number a digit string denotes when its first digit is the lowest. */
  function Low(s: string): nat
    requires Digits(s)
  {
    if s == "" then 0 else Low(s[..|s| - 1]) + DigitOf(s[|s| - 1]) * Pow10(|s| - 1)
  }

  function Reversed(s: string): (r: string)
    ensures |r| == |s|
    ensures forall i | 0 <= i < |s| :: r[i] == s[|s| - 1 - i]
  {
    if s == "" then "" else [s[|s| - 1]] + Reversed(s[..|s| - 1])
  }

  /** No superfluous leading zero. */
  predicate Canon(s: string) {
    s != "" && Digits(s) && (s[0] != '0' || s == "0")
  }

  // ----- Products -----

  lemma ZeroTimes(a: int, p: int)
    requires a == 0
    ensures a * p == 0
  {
  }

  lemma MulMonotone(a: int, b: int, p: nat)
    requires a <= b
    ensures a * p <= b * p
  {
  }

  lemma MulAssociates(a: int, b: int, c: int)
    ensures a * (b * c) == a * b * c
  {
  }

  lemma MulDistributes(a: int, b: int, c: int)
    ensures (a + b) * c == a * c + b * c
  {
  }

  lemma MulTen(a: int, p: int)
    ensures a * (10 * p) == 10 * (a * p) == (10 * a) * p
  {
  }

  // ----- Digit strings and the numbers they denote -----

  lemma {:induction false} NatFront(c: char, s: string)
    requires IsDigit(c) && Digits(s)
    ensures Nat([c] + s) == DigitOf(c) * Pow10(|s|) + Nat(s)
  {
    if s == "" {
      assert ([c] + s)[..0] == "";
    } else {
      var m := s[..|s| - 1];
      assert ([c] + s)[..|s|] == [c] + m;
      NatFront(c, m);
      MulTen(DigitOf(c), Pow10(|m|));
    }
  }

  lemma {:induction false} NatReversed(s: string)
    requires Digits(s)
    ensures Nat(Reversed(s)) == Low(s)
  {
    if s != "" {
      NatReversed(s[..|s| - 1]);
      NatFront(s[|s| - 1], Reversed(s[..|s| - 1]));
    }
  }

  lemma {:induction false} LowBound(s: string)
    requires Digits(s)
    ensures Low(s) < Pow10(|s|)
  {
    if s != "" {
      LowBound(s[..|s| - 1]);
      MulMonotone(DigitOf(s[|s| - 1]), 9, Pow10(|s| - 1));
    }
  }

  lemma {:induction false} NatBound(s: string)
    requires Digits(s)
    ensures Nat(s) < Pow10(|s|)
  {
    if s != "" {
      NatBound(s[..|s| - 1]);
    }
  }

  /** A nonzero first digit is worth at least its power of ten. */
  lemma NatLower(s: string)
    requires Digits(s) && s != "" && s[0] != '0'
    ensures Pow10(|s| - 1) <= Nat(s)
  {
    hide Nat, Pow10;
    NatFront(s[0], s[1..]);
    assert [s[0]] + s[1..] == s;
    MulMonotone(1, DigitOf(s[0]), Pow10(|s| - 1));
  }

  lemma {:induction false} Pow10Monotone(a: nat, b: nat)
    requires a <= b
    ensures Pow10(a) <= Pow10(b)
  {
    if a < b {
      Pow10Monotone(a, b - 1);
    }
  }

  /** Of two zero-free-led digit strings the longer denotes the larger number. */
  lemma LongerIsLarger(a: string, b: string)
    requires Digits(a) && Digits(b) && |a| < |b| && b[0] != '0'
    ensures Nat(a) < Nat(b)
  {
    NatBound(a);
    NatLower(b);
    Pow10Monotone(|a|, |b| - 1);
  }

  lemma {:induction false} NatInjective(a: string, b: string)
    requires Digits(a) && Digits(b) && |a| == |b| && Nat(a) == Nat(b)
    ensures a == b
  {
    if a != "" {
      NatInjective(a[..|a| - 1], b[..|b| - 1]);
      assert a == a[..|a| - 1] + [a[|a| - 1]] && b == b[..|b| - 1] + [b[|b| - 1]];
    }
  }

  lemma CanonUnique(a: string, b: string)
    requires Canon(a) && Canon(b) && Nat(a) == Nat(b)
    ensures a == b
  {
    if |a| == |b| {
      NatInjective(a, b);
    } else if |a| < |b| {
      LongerIsLarger(a, b);
    } else {
      LongerIsLarger(b, a);
    }
  }

  // ----- Addition, comparison and subtraction of digit strings -----

  /** The lowest digit of a prefix, and zero once the digits have run out. */
  function LowestDigit(s: string, i: nat): (d: nat)
    requires Digits(s) && i <= |s|
    ensures d < 10
  {
    if i > 0 then DigitOf(s[i - 1]) else 0
  }

  function Dropped(i: nat): nat {
    if i > 0 then i - 1 else 0
  }

  lemma PrefixValue(s: string, i: nat)
    requires Digits(s) && i <= |s|
    ensures Nat(s[..i]) == 10 * Nat(s[..Dropped(i)]) + LowestDigit(s, i)
  {
    if i > 0 {
      assert s[..i][..i - 1] == s[..i - 1];
    }
  }

  lemma LowSnoc(s: string, d: nat)
    requires Digits(s) && d < 10
    ensures Digits(s + [DigitChar(d)]) && Low(s + [DigitChar(d)]) == Low(s) + d * Pow10(|s|)
  {
    assert (s + [DigitChar(d)])[..|s|] == s;
  }

  /** What is still to be added, above the digits already written. */
  ghost predicate Adding(left: string, right: string, i: nat, j: nat, carry: nat, out: string) {
    && Digits(left) && Digits(right) && Digits(out) && i <= |left| && j <= |right| && carry <= 1
    && Nat(left) + Nat(right) == (Nat(left[..i]) + Nat(right[..j]) + carry) * Pow10(|out|) + Low(out)
  }

  lemma CarryStep(x: int, y: int, a: int, b: int, carry: int, p: int)
    ensures var d := a + b + carry;
            (10 * x + a + (10 * y + b) + carry) * p == (x + y + d / 10) * (10 * p) + d % 10 * p
  {
    var d := a + b + carry;
    MulTen(x + y + d / 10, p);
    MulDistributes(10 * (x + y + d / 10), d % 10, p);
  }

  lemma AddStep(left: string, right: string, i: nat, j: nat, carry: nat, out: string)
    requires Adding(left, right, i, j, carry, out)
    ensures var d := LowestDigit(left, i) + LowestDigit(right, j) + carry;
            Adding(left, right, Dropped(i), Dropped(j), d / 10, out + [DigitChar(d % 10)])
  {
    hide Nat, Low, LowestDigit;
    var d := LowestDigit(left, i) + LowestDigit(right, j) + carry;
    PrefixValue(left, i);
    PrefixValue(right, j);
    CarryStep(Nat(left[..Dropped(i)]), Nat(right[..Dropped(j)]), LowestDigit(left, i), LowestDigit(right, j), carry,
              Pow10(|out|));
    LowSnoc(out, d % 10);
  }

  lemma AddStart(left: string, right: string)
    requires Digits(left) && Digits(right)
    ensures Adding(left, right, |left|, |right|, 0, "")
  {
    assert left[..|left|] == left && right[..|right|] == right;
    assert Pow10(0) == 1 && Low("") == 0;
  }

  lemma AddEnd(left: string, right: string, out: string)
    requires Adding(left, right, 0, 0, 0, out)
    ensures Nat(Reversed(out)) == Nat(left) + Nat(right)
  {
    hide Nat, Low, Pow10, Reversed;
    assert left[..0] == "" && right[..0] == "";
    EmptyIsZero();
    ZeroTimes(Nat(left[..0]) + Nat(right[..0]) + 0, Pow10(|out|));
    NatReversed(out);
  }

  method AddAbs(left: string, right: string) returns (r: string)
    requires Digits(left) && Digits(right)
    ensures Digits(r) && Nat(r) == Nat(left) + Nat(right)
    ensures Canon(left) && Canon(right) ==> Canon(r)
  {
    hide Nat, Low, Adding, Reversed;
    var out, i, j, carry := "", |left|, |right|, 0;
    AddStart(left, right);
    while i > 0 || j > 0 || carry != 0
      invariant Digits(out) && 0 <= i <= |left| && 0 <= j <= |right| && 0 <= carry <= 1
      invariant Adding(left, right, i, j, carry, out)
      invariant out == "" ==> i == |left| && j == |right|
      invariant out != "" && |left| > 0 && |right| > 0 ==> i < |left| && j < |right|
      invariant Canon(left) && Canon(right) && out != "" && i == 0 && j == 0 && carry == 0 ==>
                  out[|out| - 1] != '0' || out == "0"
      decreases i + j + carry
    {
      AddStep(left, right, i, j, carry, out);
      var a, b := 0, 0;
      if i > 0 {
        i := i - 1;
        a := DigitOf(left[i]);
      }
      if j > 0 {
        j := j - 1;
        b := DigitOf(right[j]);
      }
      var d := a + b + carry;
      out := out + [DigitChar(d % 10)];
      carry := d / 10;
    }
    AddEnd(left, right, out);
    r := Reversed(out);
  }

  function TrimZeros(s: string): (r: string)
    requires Digits(s)
    ensures Digits(r) && |r| <= |s| && (r != "" ==> r[0] != '0')
  {
    if s != "" && s[0] == '0' then TrimZeros(s[1..]) else s
  }

  lemma {:induction false} TrimKeepsValue(s: string)
    requires Digits(s)
    ensures Nat(TrimZeros(s)) == Nat(s)
  {
    if s != "" && s[0] == '0' {
      TrimKeepsValue(s[1..]);
      NatFront('0', s[1..]);
      assert ['0'] + s[1..] == s;
    }
  }

  datatype Ordering = Less | Equal | Greater

  function CompareInts(a: int, b: int): Ordering {
    if a < b then Less else if a == b then Equal else Greater
  }

  function CompareText(a: string, b: string): Ordering {
    if a == "" then (if b == "" then Equal else Less)
    else if b == "" then Greater
    else if a[0] < b[0] then Less
    else if a[0] > b[0] then Greater
    else CompareText(a[1..], b[1..])
  }

  lemma {:induction false} TextOrderIsNumeric(a: string, b: string)
    requires Digits(a) && Digits(b) && |a| == |b|
    ensures CompareText(a, b) == CompareInts(Nat(a), Nat(b))
  {
    if a != "" {
      NatFront(a[0], a[1..]);
      NatFront(b[0], b[1..]);
      assert [a[0]] + a[1..] == a && [b[0]] + b[1..] == b;
      NatBound(a[1..]);
      NatBound(b[1..]);
      TextOrderIsNumeric(a[1..], b[1..]);
      HighDigitDecides(DigitOf(a[0]), DigitOf(b[0]), Pow10(|a| - 1), Nat(a[1..]), Nat(b[1..]));
    }
  }

  lemma HighDigitDecides(a: nat, b: nat, p: nat, x: nat, y: nat)
    requires x < p && y < p
    ensures a < b ==> a * p + x < b * p + y
    ensures b < a ==> b * p + y < a * p + x
  {
    if a < b {
      assert (a + 1) * p <= b * p;
    } else if b < a {
      assert (b + 1) * p <= a * p;
    }
  }

  /** Compares after dropping leading zeros: first by length, then as text. */
  function CompareAbs(left: string, right: string): Ordering
    requires Digits(left) && Digits(right)
  {
    var l, r := TrimZeros(left), TrimZeros(right);
    if |l| != |r| then CompareInts(|l|, |r|) else CompareText(l, r)
  }

  lemma CompareAbsIsNumeric(left: string, right: string)
    requires Digits(left) && Digits(right)
    ensures CompareAbs(left, right) == CompareInts(Nat(left), Nat(right))
  {
    TrimKeepsValue(left);
    TrimKeepsValue(right);
    var l, r := TrimZeros(left), TrimZeros(right);
    if |l| == |r| {
      TextOrderIsNumeric(l, r);
    } else if |l| < |r| {
      LongerIsLarger(l, r);
    } else {
      LongerIsLarger(r, l);
    }
  }

  lemma BorrowStep(x: int, y: int, a: int, b: int, borrow: int, lent: int, p: int)
    ensures (10 * x + a - (10 * y + b) - borrow) * p == (x - y - lent) * (10 * p) + (a - borrow + 10 * lent - b) * p
  {
    MulTen(x - y - lent, p);
    MulDistributes(10 * (x - y - lent), a - borrow + 10 * lent - b, p);
  }

  ghost predicate Subtracting(left: string, right: string, i: nat, j: nat, borrow: nat, out: string) {
    && Digits(left) && Digits(right) && Digits(out) && i <= |left| && j <= |right| && borrow <= 1
    && Nat(left) - Nat(right) == (Nat(left[..i]) - Nat(right[..j]) - borrow) * Pow10(|out|) + Low(out)
  }

  lemma SubStart(left: string, right: string)
    requires Digits(left) && Digits(right)
    ensures Subtracting(left, right, |left|, |right|, 0, "")
  {
    assert left[..|left|] == left && right[..|right|] == right;
    assert Pow10(0) == 1 && Low("") == 0;
  }

  lemma SubStep(left: string, right: string, i: nat, j: nat, borrow: nat, out: string)
    requires Subtracting(left, right, i, j, borrow, out) && i > 0
    ensures var d := DigitOf(left[i - 1]) - borrow;
            var other := LowestDigit(right, j);
            var lent := if d < other then 1 else 0;
            && 0 <= d + 10 * lent - other < 10
            && Subtracting(left, right, i - 1, Dropped(j), lent, out + [DigitChar(d + 10 * lent - other)])
  {
    hide Nat, Low;
    var d := DigitOf(left[i - 1]) - borrow;
    var other := LowestDigit(right, j);
    var lent := if d < other then 1 else 0;
    PrefixValue(left, i);
    PrefixValue(right, j);
    BorrowStep(Nat(left[..i - 1]), Nat(right[..Dropped(j)]), DigitOf(left[i - 1]), other, borrow, lent, Pow10(|out|));
    LowSnoc(out, d + 10 * lent - other);
  }

  /** Since the difference is not negative, nothing is left to borrow. */
  lemma SubEnd(left: string, right: string, j: nat, borrow: nat, out: string)
    requires Subtracting(left, right, 0, j, borrow, out) && Nat(left) >= Nat(right)
    ensures Low(out) == Nat(left) - Nat(right)
  {
    hide Nat, Low, Pow10;
    assert left[..0] == "";
    EmptyIsZero();
    LowBound(out);
    NothingOwed(Nat(right[..j]) + borrow, Pow10(|out|), Low(out));
    ZeroTimes(Nat(left[..0]) - Nat(right[..j]) - borrow, Pow10(|out|));
  }

  lemma NothingOwed(owed: nat, p: nat, low: nat)
    requires low < p && (0 - owed) * p + low >= 0
    ensures owed == 0
  {
    if owed > 0 {
      MulMonotone(0 - owed, -1, p);
      assert false;
    }
  }

  method SubAbs(left: string, right: string) returns (r: string)
    requires Digits(left) && Digits(right) && Nat(left) >= Nat(right)
    ensures Digits(r) && Nat(r) == Nat(left) - Nat(right)
    ensures left != "" ==> Canon(r)
  {
    hide Nat, Subtracting, Reversed;
    var out, i, j, borrow := "", |left|, |right|, 0;
    SubStart(left, right);
    while i > 0
      invariant Digits(out) && 0 <= i <= |left| && 0 <= j <= |right| && 0 <= borrow <= 1 && |out| == |left| - i
      invariant Subtracting(left, right, i, j, borrow, out)
    {
      SubStep(left, right, i, j, borrow, out);
      i := i - 1;
      var digit, other := DigitOf(left[i]) - borrow, 0;
      if j > 0 {
        j := j - 1;
        other := DigitOf(right[j]);
      }
      if digit < other {
        digit, borrow := digit + 10, 1;
      } else {
        borrow := 0;
      }
      out := out + [DigitChar(digit - other)];
    }
    SubEnd(left, right, j, borrow, out);
    while |out| > 1 && out[|out| - 1] == '0'
      invariant Digits(out) && (out == "" <==> left == "") && Low(out) == Nat(left) - Nat(right)
    {
      out := out[..|out| - 1];
    }
    NatReversed(out);
    r := Reversed(out);
  }

  // ----- Signed integer texts -----

  /** The texts an integer column holds: an optional sign and some digits. */
  predicate IntText(s: string) {
    s != "" && var body := if s[0] == '-' || s[0] == '+' then s[1..] else s; body != "" && Digits(body)
  }

  function Val(s: string): int
    requires IntText(s)
  {
    if s[0] == '-' then 0 - Nat(s[1..]) else if s[0] == '+' then Nat(s[1..]) else Nat(s)
  }

  /** The one text of each integer. */
  predicate Canonical(s: string) {
    s != "" && if s[0] == '-' then Canon(s[1..]) && s != "-0" else Canon(s)
  }

  lemma CanonicalUnique(a: string, b: string)
    requires Canonical(a) && Canonical(b) && Val(a) == Val(b)
    ensures a == b
  {
    NegativeText(a);
    NegativeText(b);
    if a[0] == '-' {
      CanonUnique(a[1..], b[1..]);
      assert a == ['-'] + a[1..] && b == ['-'] + b[1..];
    } else {
      CanonUnique(a, b);
    }
  }

  lemma NegativeText(s: string)
    requires Canonical(s)
    ensures IntText(s) && (s[0] == '-' <==> Val(s) < 0)
  {
    hide Nat;
    if s[0] == '-' {
      assert s == ['-'] + s[1..];
      assert s[1..] != "0";
      NatLower(s[1..]);
    }
  }

  function Normalized(s: string): (r: (bool, string))
    requires IntText(s)
    ensures Canon(r.1) && (r.0 ==> r.1 != "0")
  {
    var negative := s[0] == '-';
    var digits := TrimZeros(if s[0] == '-' || s[0] == '+' then s[1..] else s);
    if digits == "" then (false, "0") else (negative, digits)
  }

  function Signed(negative: bool, x: int): int {
    if negative then -x else x
  }

  lemma NormalizedValue(s: string)
    requires IntText(s)
    ensures Val(s) == Signed(Normalized(s).0, Nat(Normalized(s).1))
  {
    var body := if s[0] == '-' || s[0] == '+' then s[1..] else s;
    TrimKeepsValue(body);
    assert Nat("0") == 0 by { assert "0"[..0] == ""; }
  }

  /** A sign before a canonical digit string, unless it denotes zero. */
  lemma WithSign(negative: bool, digits: string)
    requires Canon(digits)
    ensures var s := if negative && digits != "0" then "-" + digits else digits;
            Canonical(s) && Val(s) == Signed(negative, Nat(digits))
  {
    assert Nat("0") == 0 by { assert "0"[..0] == ""; }
    assert ("-" + digits)[1..] == digits;
  }

  method AddSigned(left: string, right: string) returns (r: string)
    requires IntText(left) && IntText(right)
    ensures Canonical(r) && Val(r) == Val(left) + Val(right)
  {
    NormalizedValue(left);
    NormalizedValue(right);
    var (leftNegative, l) := Normalized(left);
    var (rightNegative, d) := Normalized(right);
    if leftNegative == rightNegative {
      var sum := AddAbs(l, d);
      WithSign(leftNegative, sum);
      return if leftNegative && sum != "0" then "-" + sum else sum;
    }
    CompareAbsIsNumeric(l, d);
    match CompareAbs(l, d)
    case Equal =>
      WithSign(false, "0");
      r := "0";
    case Greater =>
      var difference := SubAbs(l, d);
      assert Nat("0") == 0 by { assert "0"[..0] == ""; }
      WithSign(leftNegative, difference);
      r := if leftNegative then "-" + difference else difference;
    case Less =>
      var difference := SubAbs(d, l);
      assert Nat("0") == 0 by { assert "0"[..0] == ""; }
      WithSign(rightNegative, difference);
      r := if rightNegative then "-" + difference else difference;
  }

  // ----- Writing an integer -----

  function NatText(n: nat): (s: string)
    ensures Canon(s) && Nat(s) == n
  {
    if n < 10 then
      var s := [DigitChar(n)];
      assert s[..0] == "";
      s
    else
      var s := NatText(n / 10) + [DigitChar(n % 10)];
      assert s[..|s| - 1] == NatText(n / 10);
      s
  }

  /** The canonical text of an integer. */
  function IntToText(n: int): (s: string)
    ensures Canonical(s) && IntText(s) && Val(s) == n
  {
    var digits := NatText(if n < 0 then -n else n);
    WithSign(n < 0, digits);
    ZeroText(digits);
    if n < 0 then "-" + digits else digits
  }

  lemma ZeroText(digits: string)
    requires Canon(digits)
    ensures digits == "0" <==> Nat(digits) == 0
  {
    EmptyIsZero();
    if Nat(digits) == 0 {
      CanonUnique(digits, "0");
    }
  }

  // ----- SUM -----

  ghost predicate IntTexts(values: seq<string>) {
    forall i | 0 <= i < |values| :: IntText(values[i])
  }

  ghost function Total(values: seq<string>): int
    requires IntTexts(values)
  {
    if values == [] then 0 else Total(values[..|values| - 1]) + Val(values[|values| - 1])
  }

  method Sum(values: seq<string>) returns (r: string)
    requires IntTexts(values)
    ensures Canonical(r) && Val(r) == Total(values)
  {
    r := "0";
    WithSign(false, "0");
    assert Nat("0") == 0 by { assert "0"[..0] == ""; }
    for k := 0 to |values|
      invariant Canonical(r) && Val(r) == Total(values[..k])
    {
      NegativeText(r);
      assert values[..k + 1][..k] == values[..k];
      r := AddSigned(r, values[k]);
    }
    assert values[..|values|] == values;
  }

  lemma {:induction false} TotalRemove(values: seq<string>, i: nat)
    requires IntTexts(values) && i < |values|
    ensures Total(values) == Total(values[..i] + values[i + 1..]) + Val(values[i])
  {
    hide Val, IntText;
    var rest := values[..i] + values[i + 1..];
    if i < |values| - 1 {
      var shorter := values[..|values| - 1];
      TotalRemove(shorter, i);
      assert shorter[..i] + shorter[i + 1..] == rest[..|rest| - 1];
    } else {
      assert rest == values[..i];
    }
  }

  /** The total does not depend on the order of the rows. */
  lemma {:induction false} TotalIgnoresOrder(a: seq<string>, b: seq<string>)
    requires IntTexts(a) && IntTexts(b) && multiset(a) == multiset(b)
    ensures Total(a) == Total(b)
    decreases |a|
  {
    hide Val, IntText;
    if a == [] {
      assert multiset(b) == multiset{};
    } else {
      var n := |a| - 1;
      var i := Elsewhere(a, b);
      TotalRemove(b, i);
      TotalIgnoresOrder(a[..n], b[..i] + b[i + 1..]);
    }
  }

  /** Where the last element of one list is in a permutation of it. */
  lemma Elsewhere<T>(a: seq<T>, b: seq<T>) returns (i: nat)
    requires multiset(a) == multiset(b) && a != []
    ensures i < |b| && b[i] == a[|a| - 1]
    ensures multiset(a[..|a| - 1]) == multiset(b[..i] + b[i + 1..])
  {
    var n := |a| - 1;
    assert a == a[..n] + [a[n]];
    assert a[n] in multiset(b);
    i :| 0 <= i < |b| && b[i] == a[n];
    assert b == b[..i] + [b[i]] + b[i + 1..];
    assert multiset(a[..n]) == multiset(a) - multiset{a[n]};
    assert multiset(b[..i] + b[i + 1..]) == multiset(b) - multiset{b[i]};
  }

  /** Whatever the order of the rows, SUM gives the same text. */
  lemma SumIgnoresOrder(a: seq<string>, b: seq<string>, sumA: string, sumB: string)
    requires IntTexts(a) && IntTexts(b) && multiset(a) == multiset(b)
    requires Canonical(sumA) && Val(sumA) == Total(a)
    requires Canonical(sumB) && Val(sumB) == Total(b)
    ensures sumA == sumB
  {
    TotalIgnoresOrder(a, b);
    CanonicalUnique(sumA, sumB);
  }

  // ----- AVG -----

  /** x / n rounded to the nearest integer, halves away from zero. */
  function RoundDiv(x: int, n: int): int
    requires n > 0
  {
    if x >= 0 then (2 * x + n) / (2 * n) else -((-2 * x + n) / (2 * n))
  }

  ghost predicate IsNearest(q: int, x: int, n: int)
    requires n > 0
  {
    && -n <= 2 * (q * n - x) <= n
    && (2 * (q * n - x) == n ==> x > 0)
    && (2 * (q * n - x) == -n ==> x < 0)
  }

  /** RoundDiv is the integer nearest to x / n, and of two the one further from zero. */
  lemma RoundDivIsNearest(x: int, n: int, q: int)
    requires n > 0
    ensures IsNearest(q, x, n) <==> q == RoundDiv(x, n)
  {
    NearestOfQuotient(if x >= 0 then x else -x, n, if x >= 0 then q else -q);
    if x < 0 {
      assert (-q) * n - (-x) == -(q * n - x);
    }
  }

  lemma NearestOfQuotient(x: nat, n: int, q: int)
    requires n > 0
    ensures (-n < 2 * (q * n - x) <= n) <==> q == (2 * x + n) / (2 * n)
  {
    QuotientIff(2 * x + n, 2 * n, q);
    assert q * (2 * n) == 2 * (q * n);
  }

  lemma QuotientIff(y: int, m: int, q: int)
    requires m > 0
    ensures 0 <= y - q * m < m <==> q == y / m
  {
    var t := y / m;
    assert y == t * m + y % m;
    if q < t {
      MulMonotone(q + 1, t, m);
      MulDistributes(q, 1, m);
    } else if q > t {
      MulMonotone(t + 1, q, m);
      MulDistributes(t, 1, m);
    }
  }

  /** Rounding up from the quotient exactly when the remainder is at least half. */
  lemma RoundFromRemainder(x: nat, n: int, t: int, rem: int)
    requires n > 0 && x == t * n + rem && 0 <= rem < n
    ensures RoundDiv(x, n) == if 2 * rem >= n then t + 1 else t
  {
    var q := if 2 * rem >= n then t + 1 else t;
    assert q * n - x == (if 2 * rem >= n then n - rem else -rem);
    NearestOfQuotient(x, n, q);
  }

  /** The integer and fraction digits of a decimal text without its sign. */
  function Parts(body: string): (string, string) {
    match SplitOnce(body, '.')
    case None => (body, "")
    case Some((whole, fraction)) => (whole, fraction)
  }

  function Body(s: string): string {
    if s != "" && s[0] == '-' then s[1..] else s
  }

  /** The one text of each decimal of at most fifteen places: no superfluous
      zero on either side of the point, no bare point, no minus zero. */
  predicate CanonicalDecimal(s: string) {
    var (whole, fraction) := Parts(Body(s));
    && Canon(whole)
    && Digits(fraction) && |fraction| <= FRAC_DIGITS
    && (fraction != "" ==> fraction[|fraction| - 1] != '0')
    && ('.' in Body(s) ==> fraction != "")
    && s != "-0"
  }

  /** A decimal of at most fifteen places, in units of its fifteenth place. */
  function Scaled(s: string): int
    requires CanonicalDecimal(s)
  {
    var (whole, fraction) := Parts(Body(s));
    Signed(s[0] == '-', Nat(whole) * Pow10(FRAC_DIGITS) + Nat(fraction) * Pow10(FRAC_DIGITS - |fraction|))
  }

  /** A quotient and a fraction together, in units of the fifteenth place. */
  ghost function Units(quotient: nat, fraction: string): int
    requires Digits(fraction) && |fraction| <= FRAC_DIGITS
  {
    quotient * Pow10(FRAC_DIGITS) + Nat(fraction) * Pow10(FRAC_DIGITS - |fraction|)
  }

  method AvgDecimal(sum: string, n: nat) returns (r: string)
    requires IntText(sum) && n > 0
    ensures CanonicalDecimal(r)
    ensures Scaled(r) == RoundDiv(Val(sum) * Pow10(FRAC_DIGITS), n)
  {
    hide Nat, Pow10, Val, RoundDiv, Units, CanonicalDecimal, Scaled, Div, IsFraction;
    NormalizedValue(sum);
    var (negative, digits) := Normalized(sum);
    var quotient, remainder := LongDivide(digits, n);
    ghost var q, rem0 := Nat(quotient), remainder;
    var fraction;
    fraction, remainder := FractionDigits(remainder, n);
    ghost var units := Units(q, fraction);
    UnitsOfQuotient(Nat(digits), q, rem0, fraction, n, remainder);
    RoundFromRemainder(Nat(digits) * Pow10(FRAC_DIGITS), n, units, remainder);
    RoundsUp(remainder, n);
    if remainder != 0 && Div(remainder * 10, n) >= 5 {
      quotient, fraction := RoundUp(quotient, fraction);
    }
    fraction := StripZeros(Nat(quotient), fraction);
    r := Render(negative, quotient, fraction);
    SignedRound(negative, Nat(digits), n);
  }

  /** The fraction's digits so far, and what remains to be divided. */
  ghost predicate IsFraction(rem0: nat, n: nat, fraction: string, rem: nat)
    requires Digits(fraction)
  {
    IsQuotient(rem0 * Pow10(|fraction|), n, Nat(fraction), rem)
  }

  /** The digits after the point, until nothing remains or fifteen are written. */
  method FractionDigits(rem0: nat, n: nat) returns (fraction: string, remainder: nat)
    requires rem0 < n
    ensures Digits(fraction) && |fraction| <= FRAC_DIGITS
    ensures remainder == 0 || |fraction| == FRAC_DIGITS
    ensures IsFraction(rem0, n, fraction, remainder)
  {
    hide IsFraction, Div, Mod;
    fraction, remainder := "", rem0;
    NoFraction(rem0, n);
    while remainder != 0 && |fraction| < FRAC_DIGITS
      invariant Digits(fraction) && |fraction| <= FRAC_DIGITS
      invariant IsFraction(rem0, n, fraction, remainder)
      decreases FRAC_DIGITS - |fraction|
    {
      FractionStep(rem0, n, fraction, remainder);
      fraction := fraction + [DigitChar(Div(remainder * 10, n))];
      remainder := Mod(remainder * 10, n);
    }
  }

  lemma NoFraction(rem0: nat, n: nat)
    requires rem0 < n
    ensures IsFraction(rem0, n, "", rem0)
  {
    EmptyIsZero();
    Pow10Zero();
    ZeroTimes(0, n);
  }

  lemma FractionStep(rem0: nat, n: nat, fraction: string, rem: nat)
    requires Digits(fraction) && IsFraction(rem0, n, fraction, rem)
    ensures n > 0 && Div(rem * 10, n) < 10
    ensures var f := fraction + [DigitChar(Div(rem * 10, n))]; Digits(f) && IsFraction(rem0, n, f, Mod(rem * 10, n))
  {
    hide Nat, IsQuotient, Div, Mod;
    assert n > 0 by { PositiveDivisor(rem0 * Pow10(|fraction|), n, Nat(fraction), rem); }
    QuotientDigit(rem0 * Pow10(|fraction|), n, Nat(fraction), rem, 0);
    NatSnoc(fraction, Div(rem * 10, n));
    MulTen(rem0, Pow10(|fraction|));
  }

  lemma PositiveDivisor(x: nat, n: nat, q: nat, rem: nat)
    requires IsQuotient(x, n, q, rem)
    ensures n > 0
  {
  }

  lemma EmptyIsZero()
    ensures Nat("") == 0 && Nat("0") == 0 && Nat("1") == 1
  {
    assert "0"[..0] == "" && "1"[..0] == "";
  }

  lemma NatSnoc(s: string, d: nat)
    requires Digits(s) && d < 10
    ensures Digits(s + [DigitChar(d)]) && Nat(s + [DigitChar(d)]) == 10 * Nat(s) + d
  {
    assert (s + [DigitChar(d)])[..|s|] == s;
  }

  /** Adds one unit of the fifteenth place, carrying into the quotient on nines. */
  method RoundUp(quotient: string, fraction: string) returns (q: string, f: string)
    requires Canon(quotient) && Digits(fraction) && |fraction| == FRAC_DIGITS
    ensures Canon(q) && Digits(f) && |f| <= FRAC_DIGITS
    ensures Units(Nat(q), f) == Units(Nat(quotient), fraction) + 1
  {
    hide Nat, Pow10, Units;
    var carried;
    q := quotient;
    f, carried := Increment(fraction);
    if carried {
      OneIsCanon();
      q := AddAbs(quotient, "1");
      f := "";
    }
    UnitsAfterRoundUp(Nat(quotient), Nat(q), fraction, f, carried);
  }

  lemma OneIsCanon()
    ensures Canon("1") && Nat("1") == 1
  {
    EmptyIsZero();
  }

  lemma UnitsAfterRoundUp(quotient: nat, q: nat, fraction: string, f: string, carried: bool)
    requires Digits(fraction) && |fraction| == FRAC_DIGITS && Digits(f)
    requires if carried then f == "" && Nat(fraction) + 1 == Pow10(FRAC_DIGITS) && q == quotient + 1
             else |f| == FRAC_DIGITS && Nat(f) == Nat(fraction) + 1 && q == quotient
    ensures Units(q, f) == Units(quotient, fraction) + 1
  {
    EmptyIsZero();
    assert Pow10(0) == 1;
    hide Nat, Pow10;
    MulDistributes(quotient, 1, Pow10(FRAC_DIGITS));
  }

  method LongDivide(digits: string, n: nat) returns (quotient: string, remainder: nat)
    requires Canon(digits) && n > 0
    ensures Canon(quotient) && IsQuotient(Nat(digits), n, Nat(quotient), remainder)
  {
    hide Nat, IsQuotient, Div, Mod;
    quotient, remainder := "", 0;
    EmptyIsZero();
    NothingDivided(n);
    assert digits[..0] == "";
    for k := 0 to |digits|
      invariant Digits(quotient) && (quotient != "" ==> quotient[0] != '0')
      invariant IsQuotient(Nat(digits[..k]), n, Nat(quotient), remainder)
    {
      PrefixValue(digits, k + 1);
      var current := remainder * 10 + DigitOf(digits[k]);
      QuotientDigit(Nat(digits[..k]), n, Nat(quotient), remainder, DigitOf(digits[k]));
      var digit := Div(current, n);
      remainder := Mod(current, n);
      if quotient != "" || digit != 0 {
        NatSnoc(quotient, digit);
        quotient := quotient + [DigitChar(digit)];
      }
    }
    assert digits[..|digits|] == digits;
    if quotient == "" {
      quotient := "0";
    }
  }

  lemma NothingDivided(n: nat)
    requires n > 0
    ensures IsQuotient(0, n, 0, 0)
  {
  }

  function Div(x: nat, n: nat): nat
    requires n > 0
  {
    x / n
  }

  function Mod(x: nat, n: nat): nat
    requires n > 0
  {
    x % n
  }

  ghost predicate IsQuotient(x: nat, n: nat, q: nat, rem: nat) {
    rem < n && x == q * n + rem
  }

  /** Bringing down one more digit. */
  lemma QuotientDigit(x: nat, n: nat, q: nat, rem: nat, d: nat)
    requires IsQuotient(x, n, q, rem) && d < 10
    ensures var current := rem * 10 + d;
            Div(current, n) < 10 && IsQuotient(10 * x + d, n, 10 * q + Div(current, n), Mod(current, n))
  {
    var current := rem * 10 + d;
    assert current == current / n * n + current % n;
    if current / n >= 10 {
      MulMonotone(10, current / n, n);
      assert false;
    }
    MulDistributes(10 * q, current / n, n);
    MulAssociates(10, q, n);
  }

  lemma {:induction false} Pow10Add(a: nat, b: nat)
    ensures Pow10(a + b) == Pow10(a) * Pow10(b)
  {
    if a > 0 {
      Pow10Add(a - 1, b);
      assert Pow10(a) * Pow10(b) == 10 * (Pow10(a - 1) * Pow10(b));
    }
  }

  /** Where the fraction loop stops, its digits are the scaled quotient. */
  lemma UnitsOfQuotient(x: nat, q: nat, rem0: nat, fraction: string, n: nat, rem: nat)
    requires Digits(fraction) && |fraction| <= FRAC_DIGITS && IsQuotient(x, n, q, rem0)
    requires IsFraction(rem0, n, fraction, rem) && (rem == 0 || |fraction| == FRAC_DIGITS)
    ensures rem < n && x * Pow10(FRAC_DIGITS) == Units(q, fraction) * n + rem
  {
    hide Nat, Pow10;
    var k, f := |fraction|, Nat(fraction);
    Pow10Zero();
    var c := Pow10(FRAC_DIGITS - k);
    Pow10Add(k, FRAC_DIGITS - k);
    ScaleUp(rem0, Pow10(k), c, f, n, rem);
    Regroup(x, q, n, rem0, Pow10(FRAC_DIGITS), f, c, rem);
  }

  lemma ScaleUp(r: int, u: int, c: int, f: int, n: int, rem: int)
    requires r * u == f * n + rem && (rem == 0 || c == 1)
    ensures r * (u * c) == f * c * n + rem
  {
    MulAssociates(r, u, c);
    MulDistributes(f * n, rem, c);
    MulAssociates(f, n, c);
    MulAssociates(f, c, n);
  }

  lemma Regroup(x: int, q: int, n: int, r: int, p: int, f: int, c: int, rem: int)
    requires x == q * n + r && r * p == f * c * n + rem
    ensures x * p == (q * p + f * c) * n + rem
  {
    MulDistributes(q * n, r, p);
    MulDistributes(q * p, f * c, n);
    MulAssociates(q, n, p);
    MulAssociates(q, p, n);
  }

  lemma RoundsUp(rem: nat, n: nat)
    requires n > 0
    ensures Div(rem * 10, n) >= 5 <==> 2 * rem >= n
  {
    var d := rem * 10 / n;
    assert rem * 10 == d * n + rem * 10 % n;
    if d >= 5 {
      MulMonotone(5, d, n);
    } else {
      MulMonotone(d, 4, n);
    }
  }

  /** Adds one to the last digit; on all nines the sum has one digit more. */
  method Increment(digits: string) returns (out: string, carried: bool)
    requires Digits(digits)
    ensures Digits(out) && |out| == |digits|
    ensures if carried then Nat(digits) + 1 == Pow10(|digits|) else Nat(out) == Nat(digits) + 1
  {
    hide Nat;
    out, carried := digits, true;
    var i := |digits|;
    assert digits[..i] == digits;
    assert Pow10(0) == 1;
    while i > 0
      invariant 0 <= i <= |digits| == |out| && Digits(out) && carried
      invariant out[..i] == digits[..i]
      invariant Nat(digits) + 1 == (Nat(digits[..i]) + 1) * Pow10(|digits| - i)
      invariant Nat(out) == Nat(digits[..i]) * Pow10(|digits| - i)
    {
      i := i - 1;
      NinesStep(digits, out, i);
      if out[i] < '9' {
        out := out[i := DigitChar(DigitOf(out[i]) + 1)];
        carried := false;
        break;
      }
      out := out[i := '0'];
    }
    EmptyIsZero();
    assert digits[..0] == "";
  }

  /** What changing digit `i` does to the value. */
  lemma {:induction false} NatUpdate(s: string, i: nat, c: char)
    requires Digits(s) && i < |s| && IsDigit(c)
    ensures Digits(s[i := c])
    ensures Nat(s[i := c]) == Nat(s) + (DigitOf(c) - DigitOf(s[i])) * Pow10(|s| - 1 - i)
  {
    var n := |s| - 1;
    var t := s[i := c];
    if i == n {
      assert t[..n] == s[..n];
      assert Pow10(0) == 1;
    } else {
      assert t[..n] == s[..n][i := c];
      NatUpdate(s[..n], i, c);
      MulTen(DigitOf(c) - DigitOf(s[i]), Pow10(n - 1 - i));
    }
  }

  lemma NinesStep(digits: string, out: string, i: nat)
    requires Digits(digits) && Digits(out) && i < |digits| == |out| && out[i] == digits[i]
    requires Nat(digits) + 1 == (Nat(digits[..i + 1]) + 1) * Pow10(|digits| - i - 1)
    requires Nat(out) == Nat(digits[..i + 1]) * Pow10(|digits| - i - 1)
    ensures out[i] < '9' ==> Nat(out[i := DigitChar(DigitOf(out[i]) + 1)]) == Nat(digits) + 1
    ensures out[i] == '9' ==>
              && Nat(digits) + 1 == (Nat(digits[..i]) + 1) * Pow10(|digits| - i)
              && Nat(out[i := '0']) == Nat(digits[..i]) * Pow10(|digits| - i)
  {
    hide Nat;
    var p, m, d := Pow10(|digits| - i - 1), Nat(digits[..i]), DigitOf(out[i]);
    PrefixValue(digits, i + 1);
    if out[i] < '9' {
      NatUpdate(out, i, DigitChar(d + 1));
      MulDistributes(10 * m + d, 1, p);
    } else {
      NatUpdate(out, i, '0');
      MulTen(m + 1, p);
      MulTen(m, p);
      MulDistributes(10 * m, 9, p);
    }
  }

  /** Drops trailing zeros; the value stays. */
  method StripZeros(ghost quotient: nat, digits: string) returns (out: string)
    requires Digits(digits) && |digits| <= FRAC_DIGITS
    ensures Digits(out) && |out| <= FRAC_DIGITS && (out != "" ==> out[|out| - 1] != '0')
    ensures Units(quotient, out) == Units(quotient, digits)
  {
    hide Units;
    out := digits;
    while out != "" && out[|out| - 1] == '0'
      invariant Digits(out) && |out| <= FRAC_DIGITS && Units(quotient, out) == Units(quotient, digits)
      decreases |out|
    {
      DropZero(quotient, out);
      out := out[..|out| - 1];
    }
  }

  lemma DropZero(quotient: nat, s: string)
    requires Digits(s) && 0 < |s| <= FRAC_DIGITS && s[|s| - 1] == '0'
    ensures Units(quotient, s[..|s| - 1]) == Units(quotient, s)
  {
    var k := FRAC_DIGITS - |s|;
    assert Nat(s) == 10 * Nat(s[..|s| - 1]);
    assert Pow10(k + 1) == 10 * Pow10(k);
    hide Nat, Pow10;
    MulTen(Nat(s[..|s| - 1]), Pow10(k));
  }

  method Render(negative: bool, quotient: string, fraction: string) returns (r: string)
    requires Canon(quotient) && Digits(fraction) && |fraction| <= FRAC_DIGITS
    requires fraction != "" ==> fraction[|fraction| - 1] != '0'
    ensures CanonicalDecimal(r)
    ensures Scaled(r) == Signed(negative, Units(Nat(quotient), fraction))
  {
    hide Nat, Pow10, Parts;
    var text := if fraction == "" then quotient else quotient + "." + fraction;
    PartsOfText(quotient, fraction);
    r := if negative && text != "0" then "-" + text else text;
    assert Body(r) == text;
    if text == "0" {
      EmptyIsZero();
      assert Parts("0") == ("0", "");
      ZeroUnits();
    } else {
      assert r[0] == '-' ==> r[1..] == text;
    }
  }

  lemma ZeroUnits()
    ensures Units(0, "") == 0
  {
    EmptyIsZero();
    hide Pow10;
  }

  lemma PartsOfText(quotient: string, fraction: string)
    requires Canon(quotient) && Digits(fraction)
    ensures var text := if fraction == "" then quotient else quotient + "." + fraction;
            Parts(text) == (quotient, fraction) && ('.' in text ==> fraction != "")
  {
    if fraction != "" {
      SplitOnceAt(quotient, '.', fraction);
    }
  }

  lemma SignedRound(negative: bool, x: nat, n: nat)
    requires n > 0
    ensures Signed(negative, RoundDiv(x * Pow10(FRAC_DIGITS), n))
            == RoundDiv(Signed(negative, x) * Pow10(FRAC_DIGITS), n)
  {
    hide Pow10;
    var y := x * Pow10(FRAC_DIGITS);
    assert (0 - x) * Pow10(FRAC_DIGITS) == 0 - y;
    if y == 0 {
      RoundFromRemainder(0, n, 0, 0);
    }
  }

  /** A quotient with at most fifteen places comes out exactly. */
  lemma TerminatingIsExact(x: int, n: nat, k: nat, y: int)
    requires n > 0 && k <= FRAC_DIGITS && x * Pow10(k) == y * n
    ensures RoundDiv(x * Pow10(FRAC_DIGITS), n) * n == x * Pow10(FRAC_DIGITS)
  {
    hide Pow10;
    var c := Pow10(FRAC_DIGITS - k);
    Pow10Add(k, FRAC_DIGITS - k);
    ScaleUp(x, Pow10(k), c, y, n, 0);
    RoundDivIsNearest(x * Pow10(FRAC_DIGITS), n, y * c);
  }

  /** Each decimal has one canonical text. */
  lemma CanonicalDecimalUnique(a: string, b: string)
    requires CanonicalDecimal(a) && CanonicalDecimal(b) && Scaled(a) == Scaled(b)
    ensures a == b
  {
    hide Nat, Pow10, Parts;
    SignFromUnits(a);
    SignFromUnits(b);
    var (aw, af) := Parts(Body(a));
    var (bw, bf) := Parts(Body(b));
    UnitsUnique(aw, af, bw, bf);
    TextFromParts(a);
    TextFromParts(b);
  }

  lemma TextFromParts(s: string)
    requires CanonicalDecimal(s)
    ensures var (whole, fraction) := Parts(Body(s));
            Body(s) == if fraction == "" then whole else whole + "." + fraction
  {
  }

  lemma SignFromUnits(s: string)
    requires CanonicalDecimal(s)
    ensures s[0] == '-' <==> Scaled(s) < 0
    ensures s == if s[0] == '-' then "-" + Body(s) else Body(s)
  {
    hide Nat, Pow10, Parts;
    var (whole, fraction) := Parts(Body(s));
    TextFromParts(s);
    UnitsNonNegative(Nat(whole), fraction);
    if s[0] == '-' {
      assert s == "-" + Body(s);
      UnitsPositive(whole, fraction);
    }
  }

  lemma UnitsNonNegative(quotient: nat, fraction: string)
    requires Digits(fraction) && |fraction| <= FRAC_DIGITS
    ensures Units(quotient, fraction) >= 0
  {
    hide Nat, Pow10;
    MulMonotone(0, quotient, Pow10(FRAC_DIGITS));
    MulMonotone(0, Nat(fraction), Pow10(FRAC_DIGITS - |fraction|));
  }

  lemma UnitsPositive(whole: string, fraction: string)
    requires Canon(whole) && Digits(fraction) && |fraction| <= FRAC_DIGITS
    requires fraction != "" ==> fraction[|fraction| - 1] != '0'
    requires !(whole == "0" && fraction == "")
    ensures Units(Nat(whole), fraction) > 0
  {
    var p, c := Pow10(FRAC_DIGITS), Pow10(FRAC_DIGITS - |fraction|);
    hide Pow10;
    if whole != "0" {
      assert Nat(whole) >= 1 by { NatLower(whole); }
      MulMonotone(1, Nat(whole), p);
      MulMonotone(0, Nat(fraction), c);
    } else {
      assert Nat(fraction) >= 1;
      MulMonotone(1, Nat(fraction), c);
      MulMonotone(0, Nat(whole), p);
    }
  }

  /** The scaled fraction is below one whole, so both parts can be read back. */
  lemma UnitsUnique(aw: string, af: string, bw: string, bf: string)
    requires Canon(aw) && Canon(bw) && Digits(af) && Digits(bf)
    requires |af| <= FRAC_DIGITS && |bf| <= FRAC_DIGITS
    requires af != "" ==> af[|af| - 1] != '0'
    requires bf != "" ==> bf[|bf| - 1] != '0'
    requires Units(Nat(aw), af) == Units(Nat(bw), bf)
    ensures aw == bw && af == bf
  {
    hide Nat, Pow10;
    FractionBound(af);
    FractionBound(bf);
    var x, y := Nat(af) * Pow10(FRAC_DIGITS - |af|), Nat(bf) * Pow10(FRAC_DIGITS - |bf|);
    HighDigitDecides(Nat(aw), Nat(bw), Pow10(FRAC_DIGITS), x, y);
    CanonUnique(aw, bw);
    if |af| <= |bf| {
      FractionUnique(af, bf);
    } else {
      FractionUnique(bf, af);
    }
  }

  lemma FractionBound(f: string)
    requires Digits(f) && |f| <= FRAC_DIGITS
    ensures Nat(f) * Pow10(FRAC_DIGITS - |f|) < Pow10(FRAC_DIGITS)
  {
    hide Nat, Pow10;
    NatBound(f);
    Pow10Add(|f|, FRAC_DIGITS - |f|);
    var c := Pow10(FRAC_DIGITS - |f|);
    MulMonotone(Nat(f) + 1, Pow10(|f|), c);
    MulDistributes(Nat(f), 1, c);
  }

  lemma FractionUnique(a: string, b: string)
    requires Digits(a) && Digits(b) && |a| <= |b| <= FRAC_DIGITS
    requires b != "" ==> b[|b| - 1] != '0'
    requires Nat(a) * Pow10(FRAC_DIGITS - |a|) == Nat(b) * Pow10(FRAC_DIGITS - |b|)
    ensures a == b
  {
    hide Nat, Pow10;
    var c, gap := Pow10(FRAC_DIGITS - |b|), |b| - |a|;
    Pow10Add(gap, FRAC_DIGITS - |b|);
    MulAssociates(Nat(a), Pow10(gap), c);
    Cancel(Nat(a) * Pow10(gap), Nat(b), c);
    if gap == 0 {
      assert Pow10(0) == 1 by { Pow10Zero(); }
      NatInjective(a, b);
    } else {
      LastDigit(b, Nat(a), gap);
    }
  }

  lemma Pow10Zero()
    ensures Pow10(0) == 1
  {
  }

  lemma Cancel(x: int, y: int, c: nat)
    requires c > 0 && x * c == y * c
    ensures x == y
  {
    if x < y {
      MulMonotone(x + 1, y, c);
      MulDistributes(x, 1, c);
    } else if x > y {
      MulMonotone(y + 1, x, c);
      MulDistributes(y, 1, c);
    }
  }

  /** A multiple of ten ends in a zero digit. */
  lemma LastDigit(b: string, x: nat, gap: nat)
    requires Digits(b) && b != "" && gap > 0 && Nat(b) == x * Pow10(gap)
    ensures b[|b| - 1] == '0'
  {
    var p := Pow10(gap - 1);
    assert Nat(b) == x * (10 * p);
    var h, d := Nat(b[..|b| - 1]), DigitOf(b[|b| - 1]);
    assert Nat(b) == 10 * h + d;
    hide Nat, Pow10;
    MulTen(x, p);
    assert 10 * h + d == 10 * (x * p);
    assert d == 0;
  }

  // ----- The aggregates -----

  datatype AggFunc = AggSum | AggAvg

  /** `InFloats` stands for the branch that falls back on binary floats. */
  datatype Aggregate = Null | Exact(text: string) | InFloats

  const I128_LIMIT := 0x8000_0000_0000_0000_0000_0000_0000_0000

  predicate ParsesAsI128(s: string) {
    IntText(s) && -I128_LIMIT <= Val(s) < I128_LIMIT
  }

  ghost predicate AllParse(values: seq<string>) {
    forall i | 0 <= i < |values| :: ParsesAsI128(values[i])
  }

  /** SUM and AVG of the non-NULL values of a column: NULL over none, exact
      over integers however large the sum grows. */
  method ComputeAggregate(func: AggFunc, values: seq<string>) returns (r: Aggregate)
    ensures r == Null <==> values == []
    ensures r.InFloats? <==> !AllParse(values)
    ensures r.Exact? && func == AggSum ==> Canonical(r.text) && IntTexts(values) && Val(r.text) == Total(values)
    ensures r.Exact? && func == AggAvg ==>
              && CanonicalDecimal(r.text) && IntTexts(values)
              && Scaled(r.text) == RoundDiv(Total(values) * Pow10(FRAC_DIGITS), |values|)
  {
    hide Pow10, Val, IntText, RoundDiv, CanonicalDecimal, Scaled, Canonical, Total;
    if values == [] {
      return Null;
    }
    for k := 0 to |values|
      invariant forall i | 0 <= i < k :: ParsesAsI128(values[i])
    {
      if !ParsesAsI128(values[k]) {
        return InFloats;
      }
    }
    var sum := Sum(values);
    if func == AggSum {
      return Exact(sum);
    }
    assert IntText(sum) by { NegativeText(sum); }
    var avg := AvgDecimal(sum, |values|);
    return Exact(avg);
  }
}
