/** The order-preserving encoding of index values. */
module IndexEncoding {
  import opened Basics
  import opened IntegerFloats

  type Byte = b: int | 0 <= b < 256

  type Bytes = seq<Byte>

  datatype FieldType = StringField | IntegerField | FloatField

  /** A document's field: a string by its UTF-8 bytes, a float by its bits.  Integers
      range over both 64-bit forms. */
  datatype Json = JString(bytes: Bytes) | JInteger(n: int) | JFloat(bits: nat) | JOther

  predicate ValidJson(v: Json) {
    match v
    case JInteger(n) => -I63 <= n < U64
    case JFloat(bits) => bits < U64
    case _ => true
  }

  /** A float field also takes integers, as the nearest float. */
  predicate WellTyped(v: Json, t: FieldType) {
    && ValidJson(v)
    && match t
       case StringField => v.JString?
       case IntegerField => v.JInteger? && v.n < I63
       case FloatField => v.JFloat? || v.JInteger?
  }

  // ----- Encoding -----

  /** A zero byte becomes 00 01, so that no encoding holds a bare separator. */
  function EscapeZeros(s: Bytes): Bytes {
    if s == [] then [] else EscapeZeros(s[..|s| - 1]) + EscapedByte(s[|s| - 1])
  }

  function EscapedByte(b: Byte): Bytes {
    if b == 0 then [0, 1] else [b]
  }

  method EscapeBytes(s: Bytes) returns (encoded: Bytes)
    ensures encoded == EscapeZeros(s)
  {
    encoded := [];
    for i := 0 to |s|
      invariant encoded == EscapeZeros(s[..i])
    {
      assert s[..i + 1][..i] == s[..i];
      if s[i] == 0 {
        encoded := encoded + [0];
        encoded := encoded + [1];
      } else {
        encoded := encoded + [s[i]];
      }
    }
    assert s[..|s|] == s;
  }

  /** The sign bit flipped, of a 64-bit two's complement integer. */
  function FlipSign(n: int): nat {
    (n % U64 + I63) % U64
  }

  /** All bits flipped of a negative float, the sign bit of any other. */
  function SortableBits(bits: nat): nat
    requires bits < U64
  {
    if bits >= I63 then U64 - 1 - bits else bits + I63
  }

  function BigEndian(x: nat, k: nat): (r: Bytes)
    ensures |r| == k
  {
    if k == 0 then [] else BigEndian(x / 256, k - 1) + [x % 256]
  }

  function Encode(v: Json, t: FieldType): Bytes
    requires ValidJson(v)
  {
    match t
    case StringField => EscapeZeros(if v.JString? then v.bytes else [])
    case IntegerField => BigEndian(FlipSign(if v.JInteger? && v.n < I63 then v.n else 0), 8)
    case FloatField => BigEndian(SortableBits(FloatBits(v)), 8)
  }

  /** A number as the bits of a float; anything else counts as zero. */
  function FloatBits(v: Json): (bits: nat)
    requires ValidJson(v)
    ensures bits < U64
  {
    match v
    case JFloat(bits) => bits
    case JInteger(n) =>
      MagnitudeBelow(if n < 0 then -n else n);
      IntegerBits(n)
    case _ => 0
  }

  /** A value of the wrong type is indexed as the empty string, zero or positive zero,
      and so is an integer of 2 to the 63 or more in an integer field. */
  lemma WrongTypeIsDefault(v: Json, t: FieldType)
    requires ValidJson(v) && !WellTyped(v, t)
    ensures Encode(v, t) == Encode(match t case StringField => JString([]) case IntegerField => JInteger(0)
                                           case FloatField => JFloat(0), t)
  {
  }

  /** A value as a field of the type sees it: a float field reads an integer as a float. */
  function Seen(v: Json, t: FieldType): Json
    requires ValidJson(v)
  {
    if t == FloatField && v.JInteger? then JFloat(FloatBits(v)) else v
  }

  predicate Same(v: Json, w: Json, t: FieldType) {
    ValidJson(v) && ValidJson(w) && Seen(v, t) == Seen(w, t)
  }

  function HexDigit(d: int): char
    requires 0 <= d < 16
  {
    if d < 10 then (d + '0' as int) as char else (d - 10 + 'a' as int) as char
  }

  function Hex(s: Bytes): (r: string)
    ensures |r| == 2 * |s|
  {
    if s == [] then "" else Hex(s[..|s| - 1]) + [HexDigit(s[|s| - 1] / 16), HexDigit(s[|s| - 1] % 16)]
  }

  // ----- Orders -----

  /** Two sequences part at `i`: at the end of one or at their first difference. */
  ghost predicate PartsAt<T>(a: seq<T>, b: seq<T>, i: nat) {
    && i <= |a| && i <= |b| && a[..i] == b[..i]
    && (i < |a| && i < |b| ==> a[i] != b[i])
  }

  function Parting<T(==)>(a: seq<T>, b: seq<T>): (i: nat)
    ensures PartsAt(a, b, i)
  {
    if a == [] || b == [] || a[0] != b[0] then 0
    else
      var i := 1 + Parting(a[1..], b[1..]);
      assert a[..i] == [a[0]] + a[1..][..i - 1] && b[..i] == [b[0]] + b[1..][..i - 1];
      i
  }

  lemma PartingUnique<T>(a: seq<T>, b: seq<T>, i: nat)
    requires PartsAt(a, b, i)
    ensures i == Parting(a, b)
  {
    var j := Parting(a, b);
    assert forall k | 0 <= k < i :: a[k] == a[..i][k] == b[..i][k] == b[k];
    assert forall k | 0 <= k < j :: a[k] == a[..j][k] == b[..j][k] == b[k];
  }

  predicate ByteLeq(a: Bytes, b: Bytes) {
    var i := Parting(a, b);
    i == |a| || (i < |b| && a[i] < b[i])
  }

  /** The order of storage keys. */
  predicate Leq(a: string, b: string) {
    var i := Parting(a, b);
    i == |a| || (i < |b| && a[i] < b[i])
  }

  // ----- Hexadecimal keeps the order of bytes -----

  lemma HexDigitOrder(c: int, d: int)
    requires 0 <= c < 16 && 0 <= d < 16
    ensures HexDigit(c) < HexDigit(d) <==> c < d
    ensures HexDigit(c) == HexDigit(d) <==> c == d
  {
  }

  lemma {:induction false} HexTake(s: Bytes, i: nat)
    requires i <= |s|
    ensures Hex(s)[..2 * i] == Hex(s[..i])
  {
    var n := |s| - 1;
    if i == |s| {
      assert s[..i] == s;
    } else {
      HexTake(s[..n], i);
      assert s[..n][..i] == s[..i];
      assert Hex(s)[..2 * i] == Hex(s[..n])[..2 * i];
    }
  }

  lemma HexAt(s: Bytes, i: nat)
    requires i < |s|
    ensures Hex(s)[2 * i] == HexDigit(s[i] / 16) && Hex(s)[2 * i + 1] == HexDigit(s[i] % 16)
  {
    HexTake(s, i + 1);
    assert s[..i + 1][..i] == s[..i];
    var h := Hex(s[..i + 1]);
    assert h[2 * i] == HexDigit(s[i] / 16) && h[2 * i + 1] == HexDigit(s[i] % 16);
    assert Hex(s)[..2 * (i + 1)][2 * i] == Hex(s)[2 * i] && Hex(s)[..2 * (i + 1)][2 * i + 1] == Hex(s)[2 * i + 1];
  }

  /** Where the bytes part, so do their hexadecimal texts, on that byte. */
  lemma HexParts(a: Bytes, b: Bytes)
    ensures var i := Parting(a, b);
            var k := Parting(Hex(a), Hex(b));
            && 2 * i <= k <= 2 * i + 1
            && (i == |a| || i == |b| ==> k == 2 * i)
            && (i < |a| && i < |b| ==> k < |Hex(a)| && k < |Hex(b)| && (Hex(a)[k] < Hex(b)[k] <==> a[i] < b[i]))
  {
    hide Hex, Parting, HexDigit;
    var i := Parting(a, b);
    HexTake(a, i);
    HexTake(b, i);
    if i == |a| || i == |b| {
      PartingUnique(Hex(a), Hex(b), 2 * i);
    } else {
      HexAt(a, i);
      HexAt(b, i);
      NibbleParts(Hex(a), Hex(b), i, a[i], b[i]);
    }
  }

  lemma NibbleParts(x: string, y: string, i: nat, c: Byte, d: Byte)
    requires 2 * i + 1 < |x| && 2 * i + 1 < |y| && x[..2 * i] == y[..2 * i] && c != d
    requires x[2 * i] == HexDigit(c / 16) && x[2 * i + 1] == HexDigit(c % 16)
    requires y[2 * i] == HexDigit(d / 16) && y[2 * i + 1] == HexDigit(d % 16)
    ensures var k := Parting(x, y); 2 * i <= k <= 2 * i + 1 && (x[k] < y[k] <==> c < d)
  {
    hide Parting, HexDigit;
    HexDigitOrder(c / 16, d / 16);
    HexDigitOrder(c % 16, d % 16);
    if c / 16 != d / 16 {
      PartingUnique(x, y, 2 * i);
    } else {
      assert x[..2 * i + 1] == x[..2 * i] + [x[2 * i]];
      assert y[..2 * i + 1] == y[..2 * i] + [y[2 * i]];
      PartingUnique(x, y, 2 * i + 1);
    }
  }

  const HEX_DIGITS := "0123456789abcdef"

  /** Each byte is written as its two digits, the high one first. */
  lemma HexDigitsOf(s: Bytes, i: nat)
    requires i < |s|
    ensures Hex(s)[2 * i] == HEX_DIGITS[s[i] / 16] && Hex(s)[2 * i + 1] == HEX_DIGITS[s[i] % 16]
  {
    hide Hex;
    HexAt(s, i);
  }

  lemma HexOrder(a: Bytes, b: Bytes)
    ensures Leq(Hex(a), Hex(b)) <==> ByteLeq(a, b)
    ensures Hex(a) <= Hex(b) <==> a <= b
    ensures Hex(a) == Hex(b) <==> a == b
  {
    hide Hex, Parting, HexDigit;
    HexParts(a, b);
    PrefixParts(a, b);
    PrefixParts(Hex(a), Hex(b));
  }

  /** A prefix is what a sequence parts from another at its own end. */
  lemma PrefixParts<T>(a: seq<T>, b: seq<T>)
    ensures a <= b <==> Parting(a, b) == |a|
    ensures a == b <==> Parting(a, b) == |a| == |b|
  {
    if a <= b {
      assert b[..|a|] == a[..|a|];
      PartingUnique(a, b, |a|);
    }
  }

  // ----- Escaping keeps the order of strings -----

  lemma {:induction false} EscapeConcat(a: Bytes, b: Bytes)
    ensures EscapeZeros(a + b) == EscapeZeros(a) + EscapeZeros(b)
    decreases |b|
  {
    if b == [] {
      assert a + b == a;
    } else {
      var n := |b| - 1;
      assert (a + b)[..|a + b| - 1] == a + b[..n];
      EscapeConcat(a, b[..n]);
    }
  }

  lemma EscapeAt(s: Bytes, i: nat)
    requires i < |s|
    ensures var e, k := EscapeZeros(s), |EscapeZeros(s[..i])|;
            k < |e| && e[..k] == EscapeZeros(s[..i]) && e[k] == s[i]
  {
    assert s == s[..i] + s[i..] && s[i..] == [s[i]] + s[i + 1..];
    EscapeConcat(s[..i], s[i..]);
    EscapeConcat([s[i]], s[i + 1..]);
    assert [s[i]][..0] == [];
  }

  lemma EscapeParts(a: Bytes, b: Bytes)
    ensures var i := Parting(a, b);
            var k := Parting(EscapeZeros(a), EscapeZeros(b));
            && k == |EscapeZeros(a[..i])|
            && (i == |a| <==> k == |EscapeZeros(a)|) && (i == |b| <==> k == |EscapeZeros(b)|)
            && (i < |a| && i < |b| ==> EscapeZeros(a)[k] == a[i] && EscapeZeros(b)[k] == b[i])
  {
    hide EscapeZeros, Parting;
    var i := Parting(a, b);
    var k := |EscapeZeros(a[..i])|;
    if i < |a| {
      EscapeAt(a, i);
    } else {
      assert a[..i] == a;
    }
    if i < |b| {
      EscapeAt(b, i);
    } else {
      assert b[..i] == b;
    }
    PartingUnique(EscapeZeros(a), EscapeZeros(b), k);
  }

  lemma EscapeOrder(a: Bytes, b: Bytes)
    ensures ByteLeq(EscapeZeros(a), EscapeZeros(b)) <==> ByteLeq(a, b)
    ensures EscapeZeros(a) <= EscapeZeros(b) <==> a <= b
    ensures EscapeZeros(a) == EscapeZeros(b) <==> a == b
  {
    hide EscapeZeros, Parting;
    EscapeParts(a, b);
    PrefixParts(a, b);
    PrefixParts(EscapeZeros(a), EscapeZeros(b));
  }

  // ----- Big-endian bytes keep the order of numbers -----

  function Pow256(k: nat): (p: nat)
    ensures p > 0
  {
    if k == 0 then 1 else 256 * Pow256(k - 1)
  }

  lemma {:induction false} BigEndianParts(x: nat, y: nat, k: nat)
    requires x < Pow256(k) && y < Pow256(k)
    ensures var i := Parting(BigEndian(x, k), BigEndian(y, k));
            if x == y then i == k else i < k && (BigEndian(x, k)[i] < BigEndian(y, k)[i] <==> x < y)
  {
    hide Parting;
    if k == 0 {
    } else {
      var a, b := BigEndian(x / 256, k - 1), BigEndian(y / 256, k - 1);
      BigEndianParts(x / 256, y / 256, k - 1);
      var i := Parting(a, b);
      if x / 256 != y / 256 {
        assert (a + [x % 256])[..i] == a[..i] && (b + [y % 256])[..i] == b[..i];
        PartingUnique(BigEndian(x, k), BigEndian(y, k), i);
      } else {
        assert BigEndian(x, k)[..k - 1] == a && BigEndian(y, k)[..k - 1] == b;
        PartingUnique(BigEndian(x, k), BigEndian(y, k), if x == y then k else k - 1);
      }
    }
  }

  lemma BigEndianOrder(x: nat, y: nat)
    requires x < U64 && y < U64
    ensures ByteLeq(BigEndian(x, 8), BigEndian(y, 8)) <==> x <= y
    ensures BigEndian(x, 8) == BigEndian(y, 8) <==> x == y
  {
    assert Pow256(8) == U64;
    hide BigEndian, Parting, Pow256;
    BigEndianParts(x, y, 8);
  }

  // ----- The encoding as a whole -----

  /** The order an index of the given type is meant to have. */
  predicate ValueLeq(v: Json, w: Json, t: FieldType)
    requires WellTyped(v, t) && WellTyped(w, t)
  {
    match t
    case StringField => ByteLeq(v.bytes, w.bytes)
    case IntegerField => v.n <= w.n
    case FloatField => TotalOrder(FloatBits(v), FloatBits(w))
  }

  lemma FlipSignShifts(n: int)
    requires -I63 <= n < I63
    ensures FlipSign(n) == n + I63
  {
  }

  /** Two integers that are one float share their encoding in a float field. */
  lemma LargeIntegersMeet()
    ensures Encode(JInteger(2 * TWO52), FloatField) == Encode(JInteger(2 * TWO52 + 1), FloatField)
  {
    hide BigEndian, SortableBits, MagnitudeBits;
    OddIsRounded();
  }

  /** Encoding keeps the order and loses nothing the type sees. */
  lemma EncodeOrder(v: Json, w: Json, t: FieldType)
    requires WellTyped(v, t) && WellTyped(w, t)
    ensures ByteLeq(Encode(v, t), Encode(w, t)) <==> ValueLeq(v, w, t)
    ensures Encode(v, t) == Encode(w, t) <==> Seen(v, t) == Seen(w, t)
  {
    hide ByteLeq, BigEndian, EscapeZeros, FlipSign, IntegerBits;
    match t
    case StringField => EscapeOrder(v.bytes, w.bytes);
    case IntegerField =>
      FlipSignShifts(v.n);
      FlipSignShifts(w.n);
      BigEndianOrder(FlipSign(v.n), FlipSign(w.n));
    case FloatField => BigEndianOrder(SortableBits(FloatBits(v)), SortableBits(FloatBits(w)));
  }

  /** Only a string's encoding can extend another's. */
  lemma EncodePrefix(v: Json, w: Json, t: FieldType)
    requires WellTyped(v, t) && WellTyped(w, t)
    ensures Encode(v, t) <= Encode(w, t) <==>
              if t == StringField then v.bytes <= w.bytes else Seen(v, t) == Seen(w, t)
  {
    hide ByteLeq, BigEndian, EscapeZeros, FlipSign, IntegerBits;
    EncodeOrder(v, w, t);
    if t == StringField {
      EscapeOrder(v.bytes, w.bytes);
    }
  }
}
