/**
  * WTF-8: UTF-8 that also encodes lone surrogates, so any sequence of 16-bit units has
  * an encoding that decodes back to it. The byte forms are those of section 3 of RFC 3629,
  * the pairing of surrogates that of sections 2.1 and 2.2 of RFC 2781.
  */
module Wtf8 {
  import opened Bytes
  import opened Options

  type Unit = i: int | 0 <= i < 0x1_0000
  type CodePoint = i: int | 0 <= i < 0x11_0000

  const REPLACEMENT: CodePoint := 0xFFFD

  predicate High(u: int) { 0xD800 <= u < 0xDC00 }
  predicate Low(u: int) { 0xDC00 <= u < 0xE000 }

  // -- code points of units ---------------------------------------------------------------

  /** The code point of a surrogate pair. */
  function Pair(hi: Unit, lo: Unit): (cp: CodePoint)
    requires High(hi) && Low(lo)
    ensures cp >= 0x1_0000
  {
    0x1_0000 + (hi - 0xD800) * 0x400 + (lo - 0xDC00)
  }

  predicate StartsPair(units: seq<Unit>) {
    |units| > 1 && High(units[0]) && Low(units[1])
  }

  /** The code points of the units, lone surrogates standing for themselves. */
  function CodePointsOf(units: seq<Unit>): seq<CodePoint> {
    if units == [] then []
    else if StartsPair(units) then [Pair(units[0], units[1])] + CodePointsOf(units[2..])
    else [units[0]] + CodePointsOf(units[1..])
  }

  /** The units of one code point. */
  function UnitsOfOne(cp: CodePoint): seq<Unit> {
    if cp < 0x1_0000 then [cp]
    else [0xD800 + (cp - 0x1_0000) / 0x400, 0xDC00 + (cp - 0x1_0000) % 0x400]
  }

  function UnitsOf(cps: seq<CodePoint>): seq<Unit> {
    if cps == [] then [] else UnitsOfOne(cps[0]) + UnitsOf(cps[1..])
  }

  lemma {:induction false} UnitsBack(units: seq<Unit>)
    ensures UnitsOf(CodePointsOf(units)) == units
  {
    if units != [] {
      var cps := CodePointsOf(units);
      if StartsPair(units) {
        UnitsBack(units[2..]);
        assert cps[1..] == CodePointsOf(units[2..]);
        assert UnitsOfOne(cps[0]) == units[..2];
      } else {
        UnitsBack(units[1..]);
        assert cps[1..] == CodePointsOf(units[1..]);
      }
    }
  }

  /** Code points that pairing can produce: no high surrogate directly before a low one. */
  ghost predicate Unpairable(cps: seq<CodePoint>) {
    forall k :: 0 <= k < |cps| - 1 ==> !(High(cps[k]) && Low(cps[k + 1]))
  }

  /** Going through units gives the code points back exactly when no two of them would pair. */
  lemma {:induction false} CodePointsBack(cps: seq<CodePoint>)
    ensures CodePointsOf(UnitsOf(cps)) == cps <==> Unpairable(cps)
  {
    if cps != [] {
      var units := UnitsOf(cps);
      CodePointsBack(cps[1..]);
      if cps[0] >= 0x1_0000 {
        assert units[2..] == UnitsOf(cps[1..]) && StartsPair(units);
        assert Pair(units[0], units[1]) == cps[0];
        assert CodePointsOf(units) == [cps[0]] + CodePointsOf(UnitsOf(cps[1..]));
      } else {
        assert units[1..] == UnitsOf(cps[1..]);
        FirstUnit(cps[1..]);
        if StartsPair(units) {
          assert High(cps[0]) && Low(cps[1]);
          assert CodePointsOf(units)[0] != cps[0];
        } else {
          assert CodePointsOf(units) == [cps[0]] + CodePointsOf(UnitsOf(cps[1..]));
          if |cps| > 1 { assert !(High(cps[0]) && Low(cps[1])); }
        }
      }
      UnpairableTail(cps);
      assert cps == [cps[0]] + cps[1..];
    }
  }

  lemma UnpairableTail(cps: seq<CodePoint>)
    requires cps != []
    ensures Unpairable(cps) <==> Unpairable(cps[1..]) && (|cps| > 1 ==> !(High(cps[0]) && Low(cps[1])))
  {
    if Unpairable(cps[1..]) {
      forall k | 1 <= k < |cps| - 1 ensures !(High(cps[k]) && Low(cps[k + 1])) {
        assert !(High(cps[1..][k - 1]) && Low(cps[1..][k - 1 + 1]));
      }
    }
  }

  /** The first unit is a low surrogate only if the first code point is that surrogate. */
  lemma FirstUnit(cps: seq<CodePoint>)
    ensures (UnitsOf(cps) == []) == (cps == [])
    ensures cps != [] ==> (Low(UnitsOf(cps)[0]) <==> Low(cps[0]))
  {
  }

  // -- bytes of code points -----------------------------------------------------------------

  /** One code point as 1 to 4 bytes, the shortest form that holds it. */
  function EncodeOne(cp: CodePoint): (b: ByteString)
    ensures 1 <= |b| <= 4
  {
    if cp < 0x80 then [cp]
    else if cp < 0x800 then [0xC0 + cp / 0x40, 0x80 + cp % 0x40]
    else if cp < 0x1_0000 then [0xE0 + cp / 0x1000, 0x80 + cp / 0x40 % 0x40, 0x80 + cp % 0x40]
    else [0xF0 + cp / 0x4_0000, 0x80 + cp / 0x1000 % 0x40, 0x80 + cp / 0x40 % 0x40, 0x80 + cp % 0x40]
  }

  function EncodeAll(cps: seq<CodePoint>): ByteString {
    if cps == [] then [] else EncodeOne(cps[0]) + EncodeAll(cps[1..])
  }

  /** The WTF-8 form of the units. */
  function Encode(units: seq<Unit>): ByteString {
    EncodeAll(CodePointsOf(units))
  }

  /** How many bytes the lead byte announces; 0 for a byte that cannot lead. */
  function LeadLength(b: Byte): nat {
    if b < 0x80 then 1 else if 0xC0 <= b < 0xE0 then 2 else if 0xE0 <= b < 0xF0 then 3
    else if 0xF0 <= b < 0xF8 then 4 else 0
  }

  /** The value bits of a lead byte. */
  function LeadBits(b: Byte): nat {
    if b < 0x80 then b else if b < 0xE0 then b % 0x20 else if b < 0xF0 then b % 0x10 else b % 0x08
  }

  predicate Continues(b: Byte) { 0x80 <= b < 0xC0 }

  /** The value bits of a continuation byte. */
  function TailBits(b: Byte): nat { b % 0x40 }

  /** The value of the first `len` bytes. */
  function Value(b: ByteString, len: nat): nat
    requires 1 <= len <= |b|
  {
    if len == 1 then LeadBits(b[0]) else Value(b, len - 1) * 0x40 + TailBits(b[len - 1])
  }

  /** The least code point that needs `len` bytes. */
  function Least(len: nat): nat {
    if len <= 1 then 0 else if len == 2 then 0x80 else if len == 3 then 0x800 else 0x1_0000
  }

  /** The lead byte, the continuation bytes and the value at the start of `b` are all in order. */
  predicate Decodes(b: ByteString) {
    && b != [] && 1 <= LeadLength(b[0]) <= |b|
    && (forall k :: 1 <= k < LeadLength(b[0]) ==> Continues(b[k]))
    && Least(LeadLength(b[0])) <= Value(b, LeadLength(b[0])) < 0x11_0000
  }

  /** The first code point of `b` and how many bytes it takes: one bogus byte gives U+FFFD. */
  function DecodeOne(b: ByteString): (r: (CodePoint, nat))
    requires b != []
    ensures 1 <= r.1 <= |b|
  {
    if Decodes(b) then (Value(b, LeadLength(b[0])), LeadLength(b[0])) else (REPLACEMENT, 1)
  }

  function Decode(b: ByteString): seq<CodePoint> {
    if b == [] then [] else
    var (cp, len) := DecodeOne(b);
    [cp] + Decode(b[len..])
  }

  /** The units WTF-8 bytes stand for. */
  function ToUnits(b: ByteString): seq<Unit> {
    UnitsOf(Decode(b))
  }

  // -- the byte forms -------------------------------------------------------------------------

  /** Pairs stand for the code points from U+10000 to U+10FFFF in order. */
  lemma PairOrders(h: Unit, l: Unit, h': Unit, l': Unit)
    requires High(h) && Low(l) && High(h') && Low(l')
    ensures Pair(h, l) < Pair(h', l') <==> h < h' || (h == h' && l < l')
    ensures Pair(0xD800, 0xDC00) == 0x1_0000 && Pair(0xDBFF, 0xDFFF) == 0x10_FFFF
  {
  }

  /** A form has the lead byte of its length, and only continuation bytes follow. */
  lemma EncodeForms(cp: CodePoint)
    ensures var b := EncodeOne(cp);
            && (cp < 0x80 ==> b == [cp])
            && (0x80 <= cp < 0x800 ==> |b| == 2 && 0xC2 <= b[0] <= 0xDF)
            && (0x800 <= cp < 0x1_0000 ==> |b| == 3 && 0xE0 <= b[0] <= 0xEF)
            && (0x1_0000 <= cp ==> |b| == 4 && 0xF0 <= b[0] <= 0xF4)
            && forall k :: 1 <= k < |b| ==> 0x80 <= b[k] <= 0xBF
  {
  }

  lemma {:induction false} LessAppend(a: ByteString, b: ByteString, x: Byte, y: Byte)
    requires |a| == |b| && (Less(a, b) || (a == b && x < y))
    ensures Less(a + [x], b + [y])
  {
    if a != [] && a[0] == b[0] {
      assert (a + [x])[1..] == a[1..] + [x] && (b + [y])[1..] == b[1..] + [y];
      LessAppend(a[1..], b[1..], x, y);
    }
  }

  /** A number in base 64 on a lead byte, at most to `0xFF`. */
  lemma LessTwo(lead: int, n: nat, m: nat)
    requires 0 <= lead && lead + m / 0x40 < 0x100 && n < m
    ensures Less([lead + n / 0x40, 0x80 + n % 0x40], [lead + m / 0x40, 0x80 + m % 0x40])
  {
    var a: ByteString, b: ByteString := [lead + n / 0x40], [lead + m / 0x40];
    assert a[1..] == [] && b[1..] == [];
    LessAppend(a, b, 0x80 + n % 0x40, 0x80 + m % 0x40);
    assert a + [0x80 + n % 0x40] == [lead + n / 0x40, 0x80 + n % 0x40];
    assert b + [0x80 + m % 0x40] == [lead + m / 0x40, 0x80 + m % 0x40];
  }

  lemma LessThree(lead: int, n: nat, m: nat)
    requires 0 <= lead && lead + m / 0x1000 < 0x100 && n < m
    ensures Less([lead + n / 0x1000, 0x80 + n / 0x40 % 0x40, 0x80 + n % 0x40],
                 [lead + m / 0x1000, 0x80 + m / 0x40 % 0x40, 0x80 + m % 0x40])
  {
    hide Less;
    DivTwice(n);
    DivTwice(m);
    var a: ByteString, b: ByteString :=
      [lead + n / 0x1000, 0x80 + n / 0x40 % 0x40], [lead + m / 0x1000, 0x80 + m / 0x40 % 0x40];
    if n / 0x40 < m / 0x40 { LessTwo(lead, n / 0x40, m / 0x40); }
    LessAppend(a, b, 0x80 + n % 0x40, 0x80 + m % 0x40);
    assert a + [0x80 + n % 0x40] == [lead + n / 0x1000, 0x80 + n / 0x40 % 0x40, 0x80 + n % 0x40];
    assert b + [0x80 + m % 0x40] == [lead + m / 0x1000, 0x80 + m / 0x40 % 0x40, 0x80 + m % 0x40];
  }

  /** The forms of three and four bytes share all digits but the last. */
  function Head3(n: nat): ByteString
    requires n / 0x1000 < 0x10
  {
    [0xF0 + n / 0x1000, 0x80 + n / 0x40 % 0x40, 0x80 + n % 0x40]
  }

  lemma Split3(n: nat)
    requires n < 0x11_0000
    ensures n / 0x40 / 0x1000 < 0x10
    ensures [0xF0 + n / 0x4_0000, 0x80 + n / 0x1000 % 0x40, 0x80 + n / 0x40 % 0x40, 0x80 + n % 0x40]
         == Head3(n / 0x40) + [0x80 + n % 0x40]
  {
    DivTwice(n);
    DivTwice(n / 0x40);
  }

  lemma LessFour(n: nat, m: nat)
    requires n < m < 0x11_0000
    ensures Less([0xF0 + n / 0x4_0000, 0x80 + n / 0x1000 % 0x40, 0x80 + n / 0x40 % 0x40, 0x80 + n % 0x40],
                 [0xF0 + m / 0x4_0000, 0x80 + m / 0x1000 % 0x40, 0x80 + m / 0x40 % 0x40, 0x80 + m % 0x40])
  {
    hide Less;
    Split3(n);
    Split3(m);
    if n / 0x40 < m / 0x40 { LessThree(0xF0, n / 0x40, m / 0x40); }
    LessAppend(Head3(n / 0x40), Head3(m / 0x40), 0x80 + n % 0x40, 0x80 + m % 0x40);
  }

  lemma EncodeAscends(a: CodePoint, b: CodePoint)
    requires a < b
    ensures Less(EncodeOne(a), EncodeOne(b))
  {
    EncodeForms(a);
    EncodeForms(b);
    if 0x80 <= a && b < 0x800 {
      LessTwo(0xC0, a, b);
    } else if 0x800 <= a && b < 0x1_0000 {
      LessThree(0xE0, a, b);
    } else if 0x1_0000 <= a {
      LessFour(a, b);
    } else {
      assert EncodeOne(a)[0] < EncodeOne(b)[0];
    }
  }

  /**
    * Byte order is code point order. With the bytes a form may have, which are as many as the code
    * points of its length, this leaves no other form for any code point.
    */
  lemma EncodeOrders(a: CodePoint, b: CodePoint)
    ensures Less(EncodeOne(a), EncodeOne(b)) <==> a < b
  {
    hide EncodeOne, Less;
    LessTrichotomy(EncodeOne(a), EncodeOne(b));
    if a < b { EncodeAscends(a, b); }
    if b < a { EncodeAscends(b, a); }
  }

  // -- one code point there and back ----------------------------------------------------------

  lemma Bits2(cp: int)
    requires 0x80 <= cp < 0x800
    ensures var (x, y) := (0xC0 + cp / 0x40, 0x80 + cp % 0x40);
            0xC0 <= x < 0xE0 && 0x80 <= y < 0xC0 && x % 0x20 * 0x40 + y % 0x40 == cp
  {
  }

  lemma Bits3(cp: int)
    requires 0x800 <= cp < 0x1_0000
    ensures var (x, y, z) := (0xE0 + cp / 0x1000, 0x80 + cp / 0x40 % 0x40, 0x80 + cp % 0x40);
            && 0xE0 <= x < 0xF0 && 0x80 <= y < 0xC0 && 0x80 <= z < 0xC0
            && (x % 0x10 * 0x40 + y % 0x40) * 0x40 + z % 0x40 == cp
  {
    assert cp / 0x40 == cp / 0x1000 * 0x40 + cp / 0x40 % 0x40;
  }

  /** A number below 2^21 is its four digits of base 64. */
  lemma Bits4(cp: int)
    requires 0 <= cp < 0x20_0000
    ensures 0 <= cp / 0x4_0000 < 0x08
    ensures ((cp / 0x4_0000 * 0x40 + cp / 0x1000 % 0x40) * 0x40 + cp / 0x40 % 0x40) * 0x40 + cp % 0x40 == cp
  {
    DivTwice(cp);
    var a, b := cp / 0x40, cp / 0x1000;
    assert b / 0x40 * 0x40 + b % 0x40 == b;
    assert a / 0x40 * 0x40 + a % 0x40 == a;
  }

  lemma Join2(x: int, y: int)
    requires 0xC0 <= x < 0xE0 && 0x80 <= y < 0xC0
    ensures var cp := x % 0x20 * 0x40 + y % 0x40; cp / 0x40 == x - 0xC0 && cp % 0x40 == y - 0x80
  {
  }

  lemma Join3(x: int, y: int, z: int)
    requires 0xE0 <= x < 0xF0 && 0x80 <= y < 0xC0 && 0x80 <= z < 0xC0
    ensures var cp := (x % 0x10 * 0x40 + y % 0x40) * 0x40 + z % 0x40;
            && 0 <= cp < 0x1_0000
            && cp / 0x1000 == x - 0xE0 && cp / 0x40 % 0x40 == y - 0x80 && cp % 0x40 == z - 0x80
  {
    var cp := (x % 0x10 * 0x40 + y % 0x40) * 0x40 + z % 0x40;
    assert cp / 0x40 == (x - 0xE0) * 0x40 + (y - 0x80);
  }

  lemma Join4(p: int, q: int, r: int, t: int)
    requires 0 <= p && 0 <= q < 0x40 && 0 <= r < 0x40 && 0 <= t < 0x40
    ensures var cp := ((p * 0x40 + q) * 0x40 + r) * 0x40 + t;
            cp / 0x4_0000 == p && cp / 0x1000 % 0x40 == q && cp / 0x40 % 0x40 == r && cp % 0x40 == t
  {
    LastDigit(p, q);
    LastDigit(p * 0x40 + q, r);
    LastDigit((p * 0x40 + q) * 0x40 + r, t);
    DivTwice(((p * 0x40 + q) * 0x40 + r) * 0x40 + t);
  }

  lemma LastDigit(q: int, r: int)
    requires 0 <= q && 0 <= r < 0x40
    ensures (q * 0x40 + r) / 0x40 == q && (q * 0x40 + r) % 0x40 == r
  {
  }

  lemma DivTwice(n: nat)
    ensures n / 0x1000 == n / 0x40 / 0x40 && n / 0x4_0000 == n / 0x1000 / 0x40
  {
  }

  lemma Value2(b: ByteString)
    requires |b| >= 2
    ensures Value(b, 2) == LeadBits(b[0]) * 0x40 + TailBits(b[1])
  {
  }

  lemma Value3(b: ByteString)
    requires |b| >= 3
    ensures Value(b, 3) == (LeadBits(b[0]) * 0x40 + TailBits(b[1])) * 0x40 + TailBits(b[2])
  {
    Value2(b);
  }

  lemma Value4(b: ByteString)
    requires |b| >= 4
    ensures Value(b, 4) == ((LeadBits(b[0]) * 0x40 + TailBits(b[1])) * 0x40 + TailBits(b[2])) * 0x40 + TailBits(b[3])
  {
    Value3(b);
  }

  lemma DecodesEncoding2(cp: CodePoint, b: ByteString)
    requires 0x80 <= cp < 0x800 && EncodeOne(cp) <= b
    ensures DecodeOne(b) == (cp, 2)
  {
    var e := EncodeOne(cp);
    assert b[0] == e[0] && b[1] == e[1];
    Bits2(cp);
    Value2(b);
  }

  lemma DecodesEncoding3(cp: CodePoint, b: ByteString)
    requires 0x800 <= cp < 0x1_0000 && EncodeOne(cp) <= b
    ensures DecodeOne(b) == (cp, 3)
  {
    var e := EncodeOne(cp);
    assert b[0] == e[0] && b[1] == e[1] && b[2] == e[2];
    Bits3(cp);
    Value3(b);
  }

  /** The base 64 digits a four-byte form is made of. */
  lemma Split4(cp: CodePoint) returns (p: int, q: int, r: int, t: int)
    requires 0x1_0000 <= cp
    ensures 0 <= p < 0x08 && 0 <= q < 0x40 && 0 <= r < 0x40 && 0 <= t < 0x40
    ensures EncodeOne(cp) == [0xF0 + p, 0x80 + q, 0x80 + r, 0x80 + t]
    ensures ((p * 0x40 + q) * 0x40 + r) * 0x40 + t == cp
  {
    Bits4(cp);
    p, q, r, t := cp / 0x4_0000, cp / 0x1000 % 0x40, cp / 0x40 % 0x40, cp % 0x40;
  }

  lemma DecodesEncoding4(cp: CodePoint, b: ByteString)
    requires 0x1_0000 <= cp && EncodeOne(cp) <= b
    ensures DecodeOne(b) == (cp, 4)
  {
    var p, q, r, t := Split4(cp);
    hide EncodeOne, Value, LeadBits, TailBits;
    var e := EncodeOne(cp);
    assert b[0] == e[0] && b[1] == e[1] && b[2] == e[2] && b[3] == e[3];
    Value4(b);
    LeadBits4(b[0]);
    TailBitsOf(b[1]);
    TailBitsOf(b[2]);
    TailBitsOf(b[3]);
  }

  lemma LeadBits4(b: Byte)
    requires 0xF0 <= b < 0xF8
    ensures LeadBits(b) == b - 0xF0
  {
  }

  lemma TailBitsOf(b: Byte)
    requires Continues(b)
    ensures TailBits(b) == b - 0x80
  {
  }

  /** Bytes that start with the encoding of a code point decode to it and to its length. */
  lemma DecodesEncoding(cp: CodePoint, b: ByteString)
    requires EncodeOne(cp) <= b
    ensures Decodes(b) && DecodeOne(b) == (cp, |EncodeOne(cp)|)
  {
    if cp < 0x80 {
      assert b[0] == cp;
    } else if cp < 0x800 {
      DecodesEncoding2(cp, b);
    } else if cp < 0x1_0000 {
      DecodesEncoding3(cp, b);
    } else {
      DecodesEncoding4(cp, b);
    }
  }

  lemma OnlyShortest2(b: ByteString)
    requires |b| >= 2 && 0xC0 <= b[0] < 0xE0 && Continues(b[1]) && 0x80 <= Value(b, 2)
    ensures Value(b, 2) < 0x800 && EncodeOne(Value(b, 2)) == b[..2]
  {
    Value2(b);
    Join2(b[0], b[1]);
    assert b[..2] == [b[0], b[1]];
  }

  lemma OnlyShortest3(b: ByteString)
    requires |b| >= 3 && 0xE0 <= b[0] < 0xF0 && Continues(b[1]) && Continues(b[2]) && 0x800 <= Value(b, 3)
    ensures Value(b, 3) < 0x1_0000 && EncodeOne(Value(b, 3)) == b[..3]
  {
    Value3(b);
    Join3(b[0], b[1], b[2]);
    assert b[..3] == [b[0], b[1], b[2]];
  }

  lemma OnlyShortest4(b: ByteString)
    requires |b| >= 4 && 0xF0 <= b[0] < 0xF8 && Continues(b[1]) && Continues(b[2]) && Continues(b[3])
    requires 0x1_0000 <= Value(b, 4) < 0x11_0000
    ensures EncodeOne(Value(b, 4)) == b[..4]
  {
    hide EncodeOne, Value, LeadBits, TailBits;
    Value4(b);
    LeadBits4(b[0]);
    TailBitsOf(b[1]);
    TailBitsOf(b[2]);
    TailBitsOf(b[3]);
    Make4(LeadBits(b[0]), TailBits(b[1]), TailBits(b[2]), TailBits(b[3]));
    assert b[..4] == [b[0], b[1], b[2], b[3]];
  }

  lemma Make4(p: int, q: int, r: int, t: int)
    requires 0 <= p < 0x08 && 0 <= q < 0x40 && 0 <= r < 0x40 && 0 <= t < 0x40
    requires 0x1_0000 <= ((p * 0x40 + q) * 0x40 + r) * 0x40 + t < 0x11_0000
    ensures EncodeOne(((p * 0x40 + q) * 0x40 + r) * 0x40 + t) == [0xF0 + p, 0x80 + q, 0x80 + r, 0x80 + t]
  {
    Join4(p, q, r, t);
  }

  /** Bytes that decode in order are the encoding of their value: the shortest form and no other. */
  lemma DecodesOnlyShortest(b: ByteString)
    requires Decodes(b)
    ensures EncodeOne(DecodeOne(b).0) == b[..DecodeOne(b).1]
  {
    var len := LeadLength(b[0]);
    assert forall k :: 1 <= k < len ==> Continues(b[k]);
    if len == 2 {
      OnlyShortest2(b);
    } else if len == 3 {
      OnlyShortest3(b);
    } else if len == 4 {
      OnlyShortest4(b);
    }
  }

  /**
    * On any bytes the decoder takes the code point whose encoding starts there, and only
    * if there is none a single byte as U+FFFD.
    */
  lemma DecodeOneExact(b: ByteString)
    requires b != []
    ensures Decodes(b) <==> exists cp: CodePoint :: EncodeOne(cp) <= b
    ensures forall cp: CodePoint :: EncodeOne(cp) <= b ==> DecodeOne(b) == (cp, |EncodeOne(cp)|)
    ensures !Decodes(b) ==> DecodeOne(b) == (0xFFFD, 1)
  {
    if Decodes(b) {
      DecodesOnlyShortest(b);
      assert EncodeOne(DecodeOne(b).0) <= b;
    }
    forall cp: CodePoint | EncodeOne(cp) <= b ensures Decodes(b) && DecodeOne(b) == (cp, |EncodeOne(cp)|) {
      DecodesEncoding(cp, b);
    }
  }

  // -- whole strings ----------------------------------------------------------------------------

  lemma {:induction false} DecodeBack(cps: seq<CodePoint>)
    ensures Decode(EncodeAll(cps)) == cps
  {
    if cps != [] {
      var b := EncodeAll(cps);
      DecodesEncoding(cps[0], b);
      assert b[|EncodeOne(cps[0])|..] == EncodeAll(cps[1..]);
      DecodeBack(cps[1..]);
      assert cps == [cps[0]] + cps[1..];
    }
  }

  /** Every sequence of 16-bit units comes back from its encoding. */
  lemma RoundTrip(units: seq<Unit>)
    ensures ToUnits(Encode(units)) == units
  {
    DecodeBack(CodePointsOf(units));
    UnitsBack(units);
  }

  /**
    * Bytes come back from their units exactly when they encode some units, that is, when
    * they are the shortest forms of code points no two of which would pair.
    */
  lemma BytesBackIff(b: ByteString)
    ensures Encode(ToUnits(b)) == b <==> exists units :: Encode(units) == b
    ensures Encode(ToUnits(b)) == b <==> exists cps :: Unpairable(cps) && EncodeAll(cps) == b
  {
    forall units | Encode(units) == b ensures Encode(ToUnits(b)) == b {
      RoundTrip(units);
    }
    forall cps | Unpairable(cps) && EncodeAll(cps) == b ensures Encode(ToUnits(b)) == b {
      DecodeBack(cps);
      CodePointsBack(cps);
    }
    if Encode(ToUnits(b)) == b {
      var cps := CodePointsOf(ToUnits(b));
      UnitsBack(ToUnits(b));
      CodePointsBack(cps);
      assert Unpairable(cps) && EncodeAll(cps) == b;
    }
  }

  // -- lone surrogates --------------------------------------------------------------------------

  /** Unit `i` is a surrogate whose other half is not next to it. */
  predicate Lone(units: seq<Unit>, i: nat)
    requires i < |units|
  {
    || (High(units[i]) && !(i + 1 < |units| && Low(units[i + 1])))
    || (Low(units[i]) && !(i > 0 && High(units[i - 1])))
  }

  /** A walk over the units that takes pairs whole meets a surrogate outside a pair. */
  predicate MeetsLone(units: seq<Unit>) {
    if units == [] then false
    else if StartsPair(units) then MeetsLone(units[2..])
    else High(units[0]) || Low(units[0]) || MeetsLone(units[1..])
  }

  lemma {:induction false} MeetsLoneIff(units: seq<Unit>)
    ensures MeetsLone(units) <==> exists i: nat :: i < |units| && Lone(units, i)
  {
    if units != [] {
      var d := if StartsPair(units) then 2 else 1;
      var rest := units[d..];
      MeetsLoneIff(rest);
      forall i: nat | i < |rest| ensures Lone(rest, i) <==> Lone(units, i + d) {
      }
      if exists i: nat :: i < |rest| && Lone(rest, i) {
        var i: nat :| i < |rest| && Lone(rest, i);
        assert Lone(units, i + d);
      }
      if exists i: nat :: i < |units| && Lone(units, i) {
        var i: nat :| i < |units| && Lone(units, i);
        if i >= d { assert Lone(rest, i - d); }
      }
      if d == 1 && (High(units[0]) || Low(units[0])) {
        assert Lone(units, 0);
      }
    }
  }

  // -- the loops ----------------------------------------------------------------------------------

  /** Appends one code point to `out`. */
  method EncodeCodePoint(cp: CodePoint, out: ByteString) returns (out': ByteString)
    ensures out' == out + EncodeOne(cp)
  {
    if cp < 0x80 {
      out' := out + [cp];
    } else if cp < 0x800 {
      out' := out + [0xC0 + cp / 0x40];
      out' := out' + [0x80 + cp % 0x40];
    } else if cp < 0x1_0000 {
      out' := out + [0xE0 + cp / 0x1000];
      out' := out' + [0x80 + cp / 0x40 % 0x40];
      out' := out' + [0x80 + cp % 0x40];
    } else {
      out' := out + [0xF0 + cp / 0x4_0000];
      out' := out' + [0x80 + cp / 0x1000 % 0x40];
      out' := out' + [0x80 + cp / 0x40 % 0x40];
      out' := out' + [0x80 + cp % 0x40];
    }
  }

  /** Converts units to WTF-8, appending to `out`, and says whether one of them was a lone surrogate. */
  method FromUtf16(units: seq<Unit>, out: ByteString) returns (out': ByteString, lone: bool)
    ensures out' == out + Encode(units)
    ensures lone <==> exists i: nat :: i < |units| && Lone(units, i)
  {
    hide Encode, EncodeOne, Lone;
    out', lone := out, false;
    var i := 0;
    while i < |units|
      invariant 0 <= i <= |units|
      invariant out' + Encode(units[i..]) == out + Encode(units)
      invariant lone || MeetsLone(units[i..]) <==> MeetsLone(units)
    {
      var rest := units[i..];
      var u := units[i];
      var cp: CodePoint;
      var taken := 1;
      if High(u) {
        if i + 1 < |units| && Low(units[i + 1]) {
          taken := 2;
          cp := Pair(u, units[i + 1]);
        } else {
          lone := true;
          cp := u;
        }
      } else if Low(u) {
        lone := true;
        cp := u;
      } else {
        cp := u;
      }
      EncodeSplit(rest, cp, taken);
      out' := EncodeCodePoint(cp, out');
      i := i + taken;
      assert rest[taken..] == units[i..];
    }
    MeetsLoneIff(units);
    EncodeNothing();
  }

  lemma EncodeNothing()
    ensures Encode([]) == []
  {
  }

  /** The encoding starts with the first code point. */
  lemma EncodeSplit(units: seq<Unit>, cp: CodePoint, taken: nat)
    requires units != [] && taken == (if StartsPair(units) then 2 else 1)
    requires cp == if StartsPair(units) then Pair(units[0], units[1]) else units[0]
    ensures Encode(units) == EncodeOne(cp) + Encode(units[taken..])
  {
    assert CodePointsOf(units)[1..] == CodePointsOf(units[taken..]);
  }

  /** An iterator over the code points of bytes. */
  class CodePoints {
    const bytes: ByteString
    var i: nat

    constructor (bytes: ByteString)
      ensures this.bytes == bytes && i == 0
    {
      this.bytes := bytes;
      i := 0;
    }

    /** The next code point, or `None` at the end. Every call before the end moves on. */
    method Next() returns (cp: Option<CodePoint>)
      requires i <= |bytes|
      modifies this
      ensures old(i) == |bytes| ==> cp == None && i == old(i)
      ensures old(i) < |bytes| ==>
                cp == Some(DecodeOne(bytes[old(i)..]).0) &&
                  old(i) < i == old(i) + DecodeOne(bytes[old(i)..]).1 <= |bytes|
    {
      if i >= |bytes| {
        return None;
      }
      ghost var rest := bytes[i..];
      var b := bytes[i];
      var len := LeadLength(b);
      if len == 0 || i + len > |bytes| {
        i := i + 1;
        return Some(REPLACEMENT);
      }
      var value := LeadBits(b);
      var k := 1;
      while k < len
        invariant 1 <= k <= len && i == old(i)
        invariant value == Value(rest, k)
        invariant forall j :: 1 <= j < k ==> Continues(rest[j])
      {
        var c := bytes[i + k];
        if !Continues(c) {
          assert !Continues(rest[k]);
          i := i + 1;
          return Some(REPLACEMENT);
        }
        value := value * 0x40 + TailBits(c);
        k := k + 1;
      }
      if value < Least(len) || value > 0x10_FFFF {
        i := i + 1;
        return Some(REPLACEMENT);
      }
      i := i + len;
      return Some(value);
    }
  }

  /** The units start with those of the first code point. */
  lemma UnitsSplit(b: ByteString)
    requires b != []
    ensures ToUnits(b) == UnitsOfOne(DecodeOne(b).0) + ToUnits(b[DecodeOne(b).1..])
  {
    assert Decode(b)[1..] == Decode(b[DecodeOne(b).1..]);
  }

  lemma UnitsOfNothing()
    ensures ToUnits([]) == []
  {
  }

  /** Converts WTF-8 to units; total on any bytes. */
  method ToUtf16(bytes: ByteString) returns (out: seq<Unit>)
    ensures out == ToUnits(bytes)
  {
    hide ToUnits, DecodeOne;
    var it := new CodePoints(bytes);
    UnitsOfNothing();
    assert bytes[0..] == bytes;
    out := [];
    while true
      invariant it.bytes == bytes && it.i <= |bytes|
      invariant out + ToUnits(bytes[it.i..]) == ToUnits(bytes)
      decreases |bytes| - it.i
    {
      ghost var rest := bytes[it.i..];
      var next := it.Next();
      if next.None? {
        break;
      }
      var cp := next.value;
      UnitsSplit(rest);
      assert rest[DecodeOne(rest).1..] == bytes[it.i..];
      if cp < 0x1_0000 {
        out := out + [cp];
      } else {
        var v := cp - 0x1_0000;
        out := out + [0xD800 + v / 0x400];
        out := out + [0xDC00 + v % 0x400];
      }
    }
  }
}
