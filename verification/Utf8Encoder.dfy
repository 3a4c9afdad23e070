/**
 The string encoder of the page script: escape the string, cut it at percent signs, and turn each %uXXXX
 piece into three percent-encoded bytes by way of its bits.  Strings to encode are sequences of UTF-16 code
 units; everything the encoder produces is text.
 */
module Utf8Encoder {
  import opened Arithmetic
  import opened Wrappers

  type CodeUnit = u: nat | u < 0x1_0000

  /** charAt in the digit table "0123456789ABCDEF". */
  function HexDigit(d: nat): char
    requires d < 16
  {
    if d < 10 then ('0' as int + d) as char else ('A' as int + d - 10) as char
  }

  // ---------- the library functions the script calls

  /** The characters the JavaScript function escape leaves alone. */
  predicate Unreserved(u: CodeUnit) {
    'A' as int <= u <= 'Z' as int || 'a' as int <= u <= 'z' as int || '0' as int <= u <= '9' as int ||
    u == '@' as int || u == '*' as int || u == '_' as int || u == '+' as int || u == '-' as int ||
    u == '.' as int || u == '/' as int
  }

  /** By code: the 26 capitals, the 26 small letters, the 10 digits and * + - . / @ _ of ECMA-262, section B.2.1.1. */
  lemma UnreservedExactly(u: CodeUnit)
    ensures Unreserved(u) <==>
            0x41 <= u < 0x41 + 26 || 0x61 <= u < 0x61 + 26 || 0x30 <= u < 0x30 + 10 ||
            u in {0x2A, 0x2B, 0x2D, 0x2E, 0x2F, 0x40, 0x5F}
  {
  }

  function Hex2(b: nat): string
    requires b < 0x100
  {
    [HexDigit(b / 16), HexDigit(b % 16)]
  }

  function Hex4(u: CodeUnit): string {
    [HexDigit(u / 4096), HexDigit(u / 256 % 16), HexDigit(u / 16 % 16), HexDigit(u % 16)]
  }

  function EscapeUnit(u: CodeUnit): string {
    if Unreserved(u) then [u as char]
    else if u < 0x100 then "%" + Hex2(u)
    else "%u" + Hex4(u)
  }

  function Escape(s: seq<CodeUnit>): string {
    if s == [] then "" else EscapeUnit(s[0]) + Escape(s[1..])
  }

  /** split("%") */
  function Split(s: string): (parts: seq<string>)
    ensures |parts| > 0
  {
    if s == "" then [""]
    else
      var rest := Split(s[1..]);
      if s[0] == '%' then [""] + rest else [[s[0]] + rest[0]] + rest[1..]
  }

  /** substring, with the bounds clamped to the string. */
  function Substring(s: string, from: nat, to: nat): string
    requires from <= to
  {
    s[if from <= |s| then from else |s|..if to <= |s| then to else |s|]
  }

  function HexValue(c: char): int {
    if '0' <= c <= '9' then c as int - '0' as int
    else if 'A' <= c <= 'F' then c as int - 'A' as int + 10
    else if 'a' <= c <= 'f' then c as int - 'a' as int + 10
    else -1
  }

  /** unescape of a percent sign and the piece after it, which has no further percent sign and no leading u. */
  function Unescape(piece: string): string {
    if |piece| >= 2 && HexValue(piece[0]) >= 0 && HexValue(piece[1]) >= 0
    then [(16 * HexValue(piece[0]) + HexValue(piece[1])) as char] + piece[2..]
    else "%" + piece
  }

  /** indexOf in the digit table. */
  function IndexOf(c: char): int {
    if '0' <= c <= '9' then c as int - '0' as int
    else if 'A' <= c <= 'F' then c as int - 'A' as int + 10
    else -1
  }

  // ---------- bits and digits

  /** Greedy conversion of n to k binary digits. */
  function Bits(n: int, k: nat): (s: string)
    ensures |s| == k
  {
    if k == 0 then ""
    else if n >= Pow2(k - 1) then "1" + Bits(n - Pow2(k - 1), k - 1)
    else "0" + Bits(n, k - 1)
  }

  predicate Digits(s: string) {
    forall i :: 0 <= i < |s| ==> '0' <= s[i] <= '9'
  }

  /** eval of a one-digit string. */
  function Digit(c: char): int {
    c as int - '0' as int
  }

  /** The four-digit sum of Dig2Dec, and its answer for any other length. */
  function Weighted(s: string): int {
    if |s| == 4 then 8 * Digit(s[0]) + 4 * Digit(s[1]) + 2 * Digit(s[2]) + Digit(s[3]) else -1
  }

  /** One more digit fixed by the loop of Dec2Dig. */
  lemma BitsStep(s: string, n: int, k: nat)
    requires k > 0
    ensures n >= Pow2(k - 1) ==> s + Bits(n, k) == s + "1" + Bits(n - Pow2(k - 1), k - 1)
    ensures n < Pow2(k - 1) ==> s + Bits(n, k) == s + "0" + Bits(n, k - 1)
  {
  }

  method Dec2Dig(n: int) returns (s: string)
    ensures s == Bits(n, 4)
  {
    hide Bits, Pow2;
    s := "";
    var n1 := n;
    var i := 0;
    while i < 4
      invariant 0 <= i <= 4
      invariant s + Bits(n1, 4 - i) == Bits(n, 4)
    {
      BitsStep(s, n1, 4 - i);
      var n2 := Pow2(3 - i);
      if n1 >= n2 {
        s := s + "1";
        n1 := n1 - n2;
      } else {
        s := s + "0";
      }
      i := i + 1;
    }
    NoBits(n1);
  }

  lemma NoBits(n: int)
    ensures Bits(n, 0) == ""
  {
  }

  method Dig2Dec(s: string) returns (r: int)
    requires Digits(s)
    ensures r == Weighted(s)
  {
    if |s| == 4 {
      r := 0;
      var i := 0;
      while i < 4
        invariant 0 <= i <= 4
        invariant r == (if i > 0 then 8 * Digit(s[0]) else 0) + (if i > 1 then 4 * Digit(s[1]) else 0)
                       + (if i > 2 then 2 * Digit(s[2]) else 0) + (if i > 3 then Digit(s[3]) else 0)
      {
        r := r + Digit(s[i]) * Pow2(3 - i);
        i := i + 1;
      }
      return r;
    }
    return -1;
  }

  function Bit(b: bool): char {
    if b then '1' else '0'
  }

  lemma FourBits(d: nat, r1: nat, r2: nat, r3: nat)
    requires d < 16
    requires r1 == (if d >= 8 then d - 8 else d) && r2 == (if r1 >= 4 then r1 - 4 else r1)
    requires r3 == if r2 >= 2 then r2 - 2 else r2
    ensures Bits(d, 4) == [Bit(d >= 8), Bit(r1 >= 4), Bit(r2 >= 2), Bit(r3 >= 1)]
  {
    hide Bits;
    FirstBit(d, 4, 8);
    FirstBit(r1, 3, 4);
    FirstBit(r2, 2, 2);
    FirstBit(r3, 1, 1);
    NoBits(if r3 >= 1 then r3 - 1 else r3);
  }

  /** Dec2Dig of a hexadecimal digit, bit by bit; Dig2Dec takes it back. */
  lemma NibbleBits(d: nat)
    requires d < 16
    ensures Digits(Bits(d, 4)) && Weighted(Bits(d, 4)) == d
    ensures 2 * Digit(Bits(d, 4)[0]) + Digit(Bits(d, 4)[1]) == d / 4
    ensures 2 * Digit(Bits(d, 4)[2]) + Digit(Bits(d, 4)[3]) == d % 4
  {
    hide Bits;
    var r1 := if d >= 8 then d - 8 else d;
    var r2 := if r1 >= 4 then r1 - 4 else r1;
    var r3 := if r2 >= 2 then r2 - 2 else r2;
    FourBits(d, r1, r2, r3);
    UpperAndLowerPair(d, if d >= 8 then 1 else 0, if r1 >= 4 then 1 else 0, r2);
  }

  lemma UpperAndLowerPair(d: nat, x: nat, y: nat, r: nat)
    requires d == 8 * x + 4 * y + r && r < 4
    ensures d / 4 == 2 * x + y && d % 4 == r
  {
  }

  lemma FirstBit(n: int, k: nat, p: nat)
    requires 0 < k <= 4 && p == if k == 4 then 8 else if k == 3 then 4 else if k == 2 then 2 else 1
    ensures Bits(n, k) == if n >= p then "1" + Bits(n - p, k - 1) else "0" + Bits(n, k - 1)
  {
    assert Pow2(0) == 1 && Pow2(1) == 2 && Pow2(2) == 4 && Pow2(3) == 8;
  }

  function BitString(s: string): (bits: string)
    ensures |bits| == 4 * |s|
  {
    if s == "" then "" else Bits(IndexOf(s[0]), 4) + BitString(s[1..])
  }

  lemma {:induction false} BitStringSnoc(s: string, c: char)
    ensures BitString(s + [c]) == BitString(s) + Bits(IndexOf(c), 4)
  {
    if s == "" {
      assert (s + [c])[1..] == "";
    } else {
      assert (s + [c])[1..] == s[1..] + [c];
      BitStringSnoc(s[1..], c);
    }
  }

  method Str2Hex(s: string) returns (digS: string)
    ensures digS == BitString(s)
  {
    digS := "";
    var i := 0;
    while i < |s|
      invariant 0 <= i <= |s|
      invariant digS == BitString(s[..i])
    {
      var n := IndexOf(s[i]);
      var d := Dec2Dig(n);
      assert s[..i + 1] == s[..i] + [s[i]];
      BitStringSnoc(s[..i], s[i]);
      digS := digS + d;
      i := i + 1;
    }
    assert s[..|s|] == s;
  }

  /** Reading bits back, four at a time. */
  function FromBits(bits: string): string {
    if |bits| < 4 then ""
    else
      var d := Weighted(bits[..4]);
      (if 0 <= d < 16 then [HexDigit(d)] else "?") + FromBits(bits[4..])
  }

  predicate IsHex(s: string) {
    forall i :: 0 <= i < |s| ==> IndexOf(s[i]) >= 0
  }

  /** Str2Hex loses nothing on hexadecimal strings of any length. */
  lemma {:induction false} Str2HexInvertible(s: string)
    requires IsHex(s)
    ensures FromBits(BitString(s)) == s
  {
    if s != "" {
      var d := IndexOf(s[0]);
      HexDigitIndex(s[0]);
      NibbleBits(d);
      var bits := BitString(s);
      assert bits[..4] == Bits(d, 4) && bits[4..] == BitString(s[1..]);
      Str2HexInvertible(s[1..]);
      assert s == [s[0]] + s[1..];
    }
  }

  lemma HexDigitIndex(c: char)
    requires IndexOf(c) >= 0
    ensures IndexOf(c) < 16 && HexDigit(IndexOf(c)) == c
  {
  }

  lemma IndexOfHex(d: nat)
    requires d < 16
    ensures IndexOf(HexDigit(d)) == d && HexValue(HexDigit(d)) == d && HexDigit(d) != '%' && HexDigit(d) != 'u'
  {
  }

  // ---------- from sixteen bits to three bytes

  /** charAt: nothing for an index outside the string. */
  function CharAt(i: int): string {
    if 0 <= i < 16 then [HexDigit(i)] else ""
  }

  function ByteText(bits: string): string
    requires |bits| == 8
  {
    "%" + CharAt(Weighted(bits[..4])) + CharAt(Weighted(bits[4..]))
  }

  /** The bits of one code unit between the markers of a three-byte sequence. */
  function Framed(s: string): (t: string)
    requires |s| == 16
    ensures |t| == 24
  {
    "1110" + s[..4] + "10" + s[4..10] + "10" + s[10..]
  }

  function ThreeBytes(s: string): string {
    if |s| == 16 then
      var t := Framed(s);
      ByteText(t[..8]) + ByteText(t[8..16]) + ByteText(t[16..])
    else ""
  }

  /** The text of the first i bytes. */
  function BytesText(t: string, i: nat): string
    requires |t| == 24 && i <= 3
  {
    if i == 0 then "" else BytesText(t, i - 1) + ByteText(t[8 * (i - 1)..8 * i])
  }

  lemma AllBytesText(t: string)
    requires |t| == 24
    ensures BytesText(t, 3) == ByteText(t[..8]) + ByteText(t[8..16]) + ByteText(t[16..])
  {
    hide ByteText;
    assert t[0..8] == t[..8] && t[16..24] == t[16..];
    assert BytesText(t, 1) == "" + ByteText(t[0..8]);
    assert BytesText(t, 2) == BytesText(t, 1) + ByteText(t[8..16]);
  }

  lemma ThreeBytesText(s: string)
    requires |s| == 16
    ensures BytesText(Framed(s), 3) == ThreeBytes(s)
  {
    hide BytesText, Framed, ByteText;
    AllBytesText(Framed(s));
  }

  /** The marks set between the bits. */
  method Mark(s: string) returns (tempS: string)
    requires |s| == 16 && Digits(s)
    ensures tempS == Framed(s) && Digits(tempS)
  {
    tempS := "1110" + s[..4];
    tempS := tempS + "10" + s[4..10];
    tempS := tempS + "10" + s[10..16];
  }

  method Hex2Utf8(s: string) returns (retS: string)
    requires Digits(s)
    ensures retS == ThreeBytes(s)
  {
    retS := "";
    if |s| == 16 {
      var tempS := Mark(s);
      ThreeBytesText(s);
      BytesTextStart(tempS);
      hide *;
      var i := 0;
      while i < 3
        invariant 0 <= i <= 3
        invariant retS == BytesText(tempS, i)
      {
        BytesTextStep(tempS, i);
        var text := ByteAsText(tempS[i * 8..(i + 1) * 8]);
        retS := retS + text;
        i := i + 1;
      }
    }
  }

  lemma BytesTextStart(t: string)
    requires |t| == 24
    ensures BytesText(t, 0) == ""
  {
  }

  lemma BytesTextStep(t: string, i: nat)
    requires |t| == 24 && i < 3 && Digits(t)
    ensures Digits(t[i * 8..(i + 1) * 8])
    ensures BytesText(t, i + 1) == BytesText(t, i) + ByteText(t[i * 8..(i + 1) * 8])
  {
    hide ByteText;
  }

  /** The loop body: a percent sign and the two digits of one byte. */
  method ByteAsText(ss: string) returns (text: string)
    requires |ss| == 8 && Digits(ss)
    ensures text == ByteText(ss)
  {
    text := "%";
    var high := Dig2Dec(ss[..4]);
    text := text + CharAt(high);
    var low := Dig2Dec(ss[4..]);
    text := text + CharAt(low);
  }

  /** The three bytes of section 3 of RFC 3629 for a code unit, percent-encoded. */
  function PercentThree(u: CodeUnit): string {
    "%" + Hex2(0xE0 + u / 4096) + "%" + Hex2(0x80 + u / 64 % 64) + "%" + Hex2(0x80 + u % 64)
  }

  /** The four hexadecimal digits of a code unit. */
  lemma NibblesOf(u: CodeUnit) returns (a: nat, b: nat, c: nat, d: nat)
    ensures a < 16 && b < 16 && c < 16 && d < 16 && u == 4096 * a + 256 * b + 16 * c + d
    ensures Hex4(u) == [HexDigit(a), HexDigit(b), HexDigit(c), HexDigit(d)]
  {
    hide HexDigit;
    a, b, c, d := u / 4096, u / 256 % 16, u / 16 % 16, u % 16;
    var x, y := u / 256, u / 16;
    assert u == 16 * y + d;
    assert y == 16 * x + c by { assert u / 16 / 16 == u / 256; }
    assert x == 16 * a + b by { assert u / 256 / 16 == u / 4096; }
  }

  lemma SixBitGroups(u: CodeUnit, a: nat, b: nat, c: nat, d: nat)
    requires a < 16 && b < 16 && c < 16 && d < 16 && u == 4096 * a + 256 * b + 16 * c + d
    ensures u / 4096 == a && u / 64 % 64 == 4 * b + c / 4 && u % 64 == 16 * (c % 4) + d
  {
    assert u / 64 == 64 * a + (4 * b + c / 4);
    assert u == 64 * (64 * a + (4 * b + c / 4)) + (16 * (c % 4) + d);
  }

  lemma BytesOfNibbles(u: CodeUnit, a: nat, b: nat, c: nat, d: nat)
    requires a < 16 && b < 16 && c < 16 && d < 16 && u == 4096 * a + 256 * b + 16 * c + d
    ensures PercentThree(u) ==
            "%" + [HexDigit(14), HexDigit(a)] + "%" + [HexDigit(8 + b / 4), HexDigit(4 * (b % 4) + c / 4)]
            + "%" + [HexDigit(8 + c % 4), HexDigit(d)]
  {
    SixBitGroups(u, a, b, c, d);
    MarkedNibbles(b, c, d);
    assert (0xE0 + a) / 16 == 14 && (0xE0 + a) % 16 == a;
  }

  lemma MarkedNibbles(b: nat, c: nat, d: nat)
    requires b < 16 && c < 16 && d < 16
    ensures (0x80 + (4 * b + c / 4)) / 16 == 8 + b / 4 && (0x80 + (4 * b + c / 4)) % 16 == 4 * (b % 4) + c / 4
    ensures (0x80 + (16 * (c % 4) + d)) / 16 == 8 + c % 4 && (0x80 + (16 * (c % 4) + d)) % 16 == d
  {
  }

  lemma BitStringCons(d: nat, rest: string)
    requires d < 16
    ensures BitString([HexDigit(d)] + rest) == Bits(d, 4) + BitString(rest)
  {
    hide Bits;
    IndexOfHex(d);
    assert ([HexDigit(d)] + rest)[1..] == rest;
  }

  lemma FourNibbles(a: nat, b: nat, c: nat, d: nat)
    requires a < 16 && b < 16 && c < 16 && d < 16
    ensures BitString([HexDigit(a), HexDigit(b), HexDigit(c), HexDigit(d)]) ==
            Bits(a, 4) + Bits(b, 4) + Bits(c, 4) + Bits(d, 4)
  {
    hide Bits, BitString, HexDigit;
    var w, x, y, z := HexDigit(a), HexDigit(b), HexDigit(c), HexDigit(d);
    assert [w, x, y, z] == [w] + ([x] + ([y] + ([z] + ""))) && ([z] + "") == [z];
    BitStringCons(d, "");
    BitStringCons(c, [z] + "");
    BitStringCons(b, [y] + ([z] + ""));
    BitStringCons(a, [x] + ([y] + ([z] + "")));
    BitStringEmpty();
  }

  lemma BitStringEmpty()
    ensures BitString("") == ""
  {
  }

  /** The four bit groups of a code unit, cut and marked, are the six digits of its three bytes. */
  lemma FramedNibbles(w: string, x: string, y: string, z: string)
    requires |w| == |x| == |y| == |z| == 4
    ensures var t := Framed(w + x + y + z);
            && t[..8] == "1110" + w
            && t[8..16] == ["1"[0], "0"[0], x[0], x[1]] + [x[2], x[3], y[0], y[1]]
            && t[16..] == ["1"[0], "0"[0], y[2], y[3]] + z
  {
    var s := w + x + y + z;
    assert s[..4] == w && s[4..10] == x + [y[0], y[1]] && s[10..] == [y[2], y[3]] + z;
  }

  lemma ByteTextOf(p: string, q: string, h: nat, l: nat)
    requires |p| == 4 && |q| == 4 && Weighted(p) == h < 16 && Weighted(q) == l < 16
    ensures ByteText(p + q) == "%" + [HexDigit(h), HexDigit(l)]
  {
    assert (p + q)[..4] == p && (p + q)[4..] == q;
  }

  lemma ThreeBytesOfNibbles(a: nat, b: nat, c: nat, d: nat)
    requires a < 16 && b < 16 && c < 16 && d < 16
    ensures ThreeBytes(Bits(a, 4) + Bits(b, 4) + Bits(c, 4) + Bits(d, 4)) ==
            "%" + [HexDigit(14), HexDigit(a)] + "%" + [HexDigit(8 + b / 4), HexDigit(4 * (b % 4) + c / 4)]
            + "%" + [HexDigit(8 + c % 4), HexDigit(d)]
  {
    hide Bits, ByteText, Framed;
    NibbleBits(a);
    NibbleBits(b);
    NibbleBits(c);
    NibbleBits(d);
    var w, x, y, z := Bits(a, 4), Bits(b, 4), Bits(c, 4), Bits(d, 4);
    FramedNibbles(w, x, y, z);
    ByteTextOf("1110", w, 14, a);
    ByteTextOf(['1', '0', x[0], x[1]], [x[2], x[3], y[0], y[1]], 8 + b / 4, 4 * (b % 4) + c / 4);
    ByteTextOf(['1', '0', y[2], y[3]], z, 8 + c % 4, d);
    JoinBytes([HexDigit(14), HexDigit(a)], [HexDigit(8 + b / 4), HexDigit(4 * (b % 4) + c / 4)],
              [HexDigit(8 + c % 4), HexDigit(d)]);
  }

  lemma JoinBytes(x: string, y: string, z: string)
    ensures ("%" + x) + ("%" + y) + ("%" + z) == "%" + x + "%" + y + "%" + z
  {
  }

  /** Through bits, marks and digits the encoder computes the three-byte form, for every code unit. */
  lemma ThreeBytesCorrect(u: CodeUnit)
    ensures ThreeBytes(BitString(Hex4(u))) == PercentThree(u)
  {
    hide Bits, BitString, ThreeBytes, Hex4, PercentThree;
    var a, b, c, d := NibblesOf(u);
    FourNibbles(a, b, c, d);
    ThreeBytesOfNibbles(a, b, c, d);
    BytesOfNibbles(u, a, b, c, d);
  }

  // ---------- the whole encoder

  /** What becomes of one piece after a percent sign. */
  function Piece(p: string): string {
    if Substring(p, 0, 1) == "u"
    then ThreeBytes(BitString(Substring(p, 1, 5))) + Substring(p, 5, |p| + 5)
    else Unescape(p) + Substring(p, 5, |p| + 5)
  }

  function Pieces(ps: seq<string>): string {
    if ps == [] then "" else Piece(ps[0]) + Pieces(ps[1..])
  }

  /** The result as a function: the first piece unchanged, then the converted ones. */
  function Encoded(s: seq<CodeUnit>): string {
    var sa := Split(Escape(s));
    sa[0] + Pieces(sa[1..])
  }

  lemma {:induction false} PiecesSnoc(ps: seq<string>, p: string)
    ensures Pieces(ps + [p]) == Pieces(ps) + Piece(p)
  {
    hide Piece;
    if ps == [] {
      assert (ps + [p])[1..] == [];
    } else {
      assert (ps + [p])[1..] == ps[1..] + [p];
      PiecesSnoc(ps[1..], p);
    }
  }

  lemma PiecesCons(p: string, ps: seq<string>)
    ensures Pieces([p] + ps) == Piece(p) + Pieces(ps)
  {
    hide Piece;
    assert ([p] + ps)[1..] == ps;
  }

  method Gb2312ToUtf8(s1: seq<CodeUnit>) returns (retV: string)
    ensures retV == Encoded(s1)
  {
    hide Escape, Split, Piece, Pieces;
    var s := Escape(s1);
    var sa := Split(s);
    retV := "";
    if sa[0] != "" {
      retV := sa[0];
    }
    var i := 1;
    NoPieces(sa);
    while i < |sa|
      invariant 1 <= i <= |sa|
      invariant retV == sa[0] + Pieces(sa[1..i])
    {
      var text := EncodePiece(sa[i]);
      assert sa[1..i + 1] == sa[1..i] + [sa[i]];
      PiecesSnoc(sa[1..i], sa[i]);
      assert sa[0] + (Pieces(sa[1..i]) + text) == retV + text;
      retV := retV + text;
      i := i + 1;
    }
    assert sa[1..|sa|] == sa[1..];
  }

  lemma NoPieces(sa: seq<string>)
    requires |sa| > 0
    ensures sa[0] + Pieces(sa[1..1]) == sa[0]
  {
  }

  /** The loop body. */
  method EncodePiece(p: string) returns (text: string)
    ensures text == Piece(p)
  {
    if Substring(p, 0, 1) == "u" {
      var bits := Str2Hex(Substring(p, 1, 5));
      BitsAreDigits(Substring(p, 1, 5));
      text := Hex2Utf8(bits);
      if |p| > 0 {
        text := text + Substring(p, 5, |p| + 5);
      }
    } else {
      text := Unescape(p);
      text := text + Substring(p, 5, |p| + 5);
    }
  }

  lemma {:induction false} BitsAreDigits(s: string)
    ensures Digits(BitString(s))
  {
    if s != "" {
      DigitBits(IndexOf(s[0]), 4);
      BitsAreDigits(s[1..]);
    }
  }

  lemma {:induction false} DigitBits(n: int, k: nat)
    ensures Digits(Bits(n, k))
  {
    if k > 0 {
      DigitBits(if n >= Pow2(k - 1) then n - Pow2(k - 1) else n, k - 1);
    }
  }

  // ---------- the encoder against RFC 3629

  predicate Surrogate(u: CodeUnit) {
    0xD800 <= u <= 0xDFFF
  }

  /** The bytes of section 3 of RFC 3629 for one code unit that is a character by itself. */
  function Utf8Bytes(u: CodeUnit): (bytes: seq<nat>)
    ensures forall i :: 0 <= i < |bytes| ==> bytes[i] < 0x100
  {
    if u < 0x80 then [u]
    else if u < 0x800 then [0xC0 + u / 64, 0x80 + u % 64]
    else [0xE0 + u / 4096, 0x80 + u / 64 % 64, 0x80 + u % 64]
  }

  function Percent(bytes: seq<nat>): string
    requires forall i :: 0 <= i < |bytes| ==> bytes[i] < 0x100
  {
    if bytes == [] then "" else "%" + Hex2(bytes[0]) + Percent(bytes[1..])
  }

  /** The reference encoding: unreserved characters as they are, all others as percent-encoded UTF-8. */
  function Reference(s: seq<CodeUnit>): string {
    if s == [] then ""
    else (if Unreserved(s[0]) then [s[0] as char] else Percent(Utf8Bytes(s[0]))) + Reference(s[1..])
  }

  predicate Encodable(u: CodeUnit) {
    Unreserved(u) || (u >= 0x800 && !Surrogate(u))
  }

  function EncodedUnit(u: CodeUnit): string {
    if Unreserved(u) then [u as char] else PercentThree(u)
  }

  /** Text without a percent sign joins the piece that follows it. */
  lemma {:induction false} SplitJoins(p: string, e: string)
    requires '%' !in p
    ensures Split(p + e) == [p + Split(e)[0]] + Split(e)[1..]
  {
    if p == "" {
      assert p + e == e;
      var parts := Split(e);
      assert p + parts[0] == parts[0] && parts == [parts[0]] + parts[1..];
    } else {
      assert (p + e)[1..] == p[1..] + e && (p + e)[0] == p[0];
      SplitJoins(p[1..], e);
      assert [p[0]] + (p[1..] + Split(e)[0]) == p + Split(e)[0];
    }
  }

  lemma SplitCuts(e: string)
    ensures Split("%" + e) == [""] + Split(e)
  {
    assert ("%" + e)[1..] == e;
  }

  lemma HexHasNoPercent(u: CodeUnit)
    ensures '%' !in "u" + Hex4(u) && |Hex4(u)| == 4
  {
    IndexOfHex(u / 4096);
    IndexOfHex(u / 256 % 16);
    IndexOfHex(u / 16 % 16);
    IndexOfHex(u % 16);
  }

  lemma Hex2HasNoPercent(u: CodeUnit)
    requires u < 0x100
    ensures '%' !in Hex2(u)
  {
    IndexOfHex(u / 16);
    IndexOfHex(u % 16);
  }

  lemma PieceOfUnit(u: CodeUnit, tail: string)
    ensures Piece("u" + Hex4(u) + tail) == PercentThree(u) + tail
  {
    hide ThreeBytes, BitString, Hex4;
    HexHasNoPercent(u);
    var p := "u" + Hex4(u) + tail;
    assert Substring(p, 0, 1) == "u";
    assert Substring(p, 1, 5) == Hex4(u);
    assert Substring(p, 5, |p| + 5) == tail;
    ThreeBytesCorrect(u);
  }

  /** The two-digit branch writes the character unencoded and repeats the text after it from its fourth character on. */
  lemma ShortEscapePiece(b: nat, t: string)
    requires b < 0x100
    ensures Piece(Hex2(b) + t) == [b as char] + t + if |t| > 3 then t[3..] else ""
  {
    HexValuesOfByte(b);
    IndexOfHex(b / 16);
    var p := Hex2(b) + t;
    assert p[2..] == t;
    assert Substring(p, 0, 1) == [HexDigit(b / 16)];
    assert Substring(p, 5, |p| + 5) == if |t| > 3 then t[3..] else "";
  }

  /** The result for pieces: the first piece, then the converted others. */
  function Join(sa: seq<string>): string
    requires |sa| > 0
  {
    sa[0] + Pieces(sa[1..])
  }

  lemma JoinRaw(c: char, r: seq<string>)
    requires |r| > 0
    ensures Join([[c] + r[0]] + r[1..]) == [c] + Join(r)
  {
    assert ([[c] + r[0]] + r[1..])[1..] == r[1..];
    assert [c] + r[0] + Pieces(r[1..]) == [c] + (r[0] + Pieces(r[1..]));
  }

  lemma JoinUnit(u: CodeUnit, r: seq<string>)
    requires |r| > 0
    ensures Join([""] + ([("u" + Hex4(u)) + r[0]] + r[1..])) == PercentThree(u) + Join(r)
  {
    hide Piece, PercentThree, Hex4;
    var first := ("u" + Hex4(u)) + r[0];
    var ps := [first] + r[1..];
    assert ([""] + ps)[1..] == ps && ps[1..] == r[1..];
    PieceOfUnit(u, r[0]);
    assert Pieces(ps) == PercentThree(u) + r[0] + Pieces(r[1..]);
    assert "" + Pieces(ps) == Pieces(ps);
    assert PercentThree(u) + r[0] + Pieces(r[1..]) == PercentThree(u) + (r[0] + Pieces(r[1..]));
  }

  /** Escaping, cutting and converting works character by character. */
  lemma EncodedCons(u: CodeUnit, rest: seq<CodeUnit>)
    requires Unreserved(u) || u >= 0x100
    ensures Encoded([u] + rest) == EncodedUnit(u) + Encoded(rest)
  {
    hide Pieces, Split, Hex4, PercentThree;
    var e := Escape(rest);
    assert ([u] + rest)[1..] == rest && Escape([u] + rest) == EscapeUnit(u) + e;
    if Unreserved(u) {
      SplitJoins([u as char], e);
      JoinRaw(u as char, Split(e));
    } else {
      HexHasNoPercent(u);
      assert EscapeUnit(u) + e == "%" + (("u" + Hex4(u)) + e);
      SplitCuts(("u" + Hex4(u)) + e);
      SplitJoins("u" + Hex4(u), e);
      JoinUnit(u, Split(e));
    }
  }

  lemma EncodedEmpty()
    ensures Encoded([]) == ""
  {
    assert Split("")[1..] == [];
  }

  lemma ReferenceUnit(u: CodeUnit)
    requires u >= 0x800
    ensures Percent(Utf8Bytes(u)) == PercentThree(u)
  {
    hide Hex2;
    var bytes := Utf8Bytes(u);
    assert bytes[1..][1..] == bytes[2..] && bytes[2..][1..] == [];
    assert Percent(bytes[2..]) == "%" + Hex2(bytes[2]) + "";
    assert Percent(bytes[1..]) == "%" + Hex2(bytes[1]) + Percent(bytes[2..]);
  }

  /** On strings of encodable characters the encoder is the reference encoding. */
  lemma {:induction false} EncodesUtf8(s: seq<CodeUnit>)
    requires forall i :: 0 <= i < |s| ==> Encodable(s[i])
    ensures Encoded(s) == Reference(s)
  {
    hide Encoded, Percent, Utf8Bytes, Unreserved, PercentThree;
    if s == [] {
      EncodedEmpty();
    } else {
      assert s == [s[0]] + s[1..];
      EncodedCons(s[0], s[1..]);
      EncodesUtf8(s[1..]);
      if !Unreserved(s[0]) {
        ReferenceUnit(s[0]);
      }
    }
  }

  // ---------- decoding

  /** The k-th percent-encoded byte at the front of s, or -1. */
  function ByteAt(s: string, k: nat): int {
    if 3 * k + 3 <= |s| && s[3 * k] == '%' && HexValue(s[3 * k + 1]) >= 0 && HexValue(s[3 * k + 2]) >= 0
    then 16 * HexValue(s[3 * k + 1]) + HexValue(s[3 * k + 2])
    else -1
  }

  predicate Tail(b: int) {
    0x80 <= b <= 0xBF
  }

  function Prepend(us: seq<CodeUnit>, rest: Option<seq<CodeUnit>>): Option<seq<CodeUnit>> {
    if rest.Some? then Some(us + rest.value) else None
  }

  /** The second byte of a three-byte sequence, by section 4 of RFC 3629. */
  predicate SecondOfThree(b0: int, b1: int) {
    if b0 == 0xE0 then 0xA0 <= b1 <= 0xBF else if b0 == 0xED then 0x80 <= b1 <= 0x9F else Tail(b1)
  }

  predicate SecondOfFour(b0: int, b1: int) {
    if b0 == 0xF0 then 0x90 <= b1 <= 0xBF else if b0 == 0xF4 then 0x80 <= b1 <= 0x8F else Tail(b1)
  }

  /** A strict decoder by the syntax of section 4 of RFC 3629; four-byte sequences give surrogate pairs. */
  function Decode(s: string): Option<seq<CodeUnit>>
    decreases |s|
  {
    if s == "" then Some([])
    else if s[0] != '%' then
      (if s[0] as int < 0x80 then Prepend([s[0] as int], Decode(s[1..])) else None)
    else
      var b0, b1, b2, b3 := ByteAt(s, 0), ByteAt(s, 1), ByteAt(s, 2), ByteAt(s, 3);
      if 0 <= b0 < 0x80 then Prepend([b0], Decode(s[3..]))
      else if 0xC2 <= b0 <= 0xDF && Tail(b1) then Prepend([(b0 - 0xC0) * 64 + (b1 - 0x80)], Decode(s[6..]))
      else if 0xE0 <= b0 <= 0xEF && SecondOfThree(b0, b1) && Tail(b2) then
        Prepend([(b0 - 0xE0) * 4096 + (b1 - 0x80) * 64 + (b2 - 0x80)], Decode(s[9..]))
      else if 0xF0 <= b0 <= 0xF4 && SecondOfFour(b0, b1) && Tail(b2) && Tail(b3) then
        var v := (b0 - 0xF0) * 0x4_0000 + (b1 - 0x80) * 4096 + (b2 - 0x80) * 64 + (b3 - 0x80) - 0x1_0000;
        Prepend([0xD800 + v / 1024, 0xDC00 + v % 1024], Decode(s[12..]))
      else None
  }

  lemma HexValuesOfByte(b: nat)
    requires b < 0x100
    ensures |Hex2(b)| == 2 && HexValue(Hex2(b)[0]) == b / 16 && HexValue(Hex2(b)[1]) == b % 16
  {
    IndexOfHex(b / 16);
    IndexOfHex(b % 16);
  }

  lemma BytesOfThree(u: CodeUnit, rest: string)
    ensures var s := PercentThree(u) + rest;
            && |s| == 9 + |rest| && s[0] == '%' && s[9..] == rest
            && ByteAt(s, 0) == 0xE0 + u / 4096 && ByteAt(s, 1) == 0x80 + u / 64 % 64 && ByteAt(s, 2) == 0x80 + u % 64
  {
    hide Hex2, HexValue;
    HexValuesOfByte(0xE0 + u / 4096);
    HexValuesOfByte(0x80 + u / 64 % 64);
    HexValuesOfByte(0x80 + u % 64);
  }

  lemma UnitFromGroups(u: CodeUnit)
    ensures u / 4096 * 4096 + u / 64 % 64 * 64 + u % 64 == u
    ensures u / 4096 == 0 && u / 64 % 64 < 0x20 <==> u < 0x800
    ensures u / 4096 == 0xD && u / 64 % 64 >= 0x20 <==> Surrogate(u)
  {
    var a, b, c, d := NibblesOf(u);
    SixBitGroups(u, a, b, c, d);
  }

  /** The three-byte form decodes exactly for characters from 0x800 on that are not surrogates. */
  lemma DecodeThree(u: CodeUnit, rest: string)
    ensures Decode(PercentThree(u) + rest) ==
            if u >= 0x800 && !Surrogate(u) then Prepend([u], Decode(rest)) else None
  {
    hide PercentThree, ByteAt;
    BytesOfThree(u, rest);
    UnitFromGroups(u);
  }

  lemma DecodeRaw(u: CodeUnit, rest: string)
    requires Unreserved(u)
    ensures Decode([u as char] + rest) == Prepend([u], Decode(rest))
  {
    hide ByteAt;
    assert ([u as char] + rest)[1..] == rest;
  }

  // ---------- the reference encoding and the decoder

  lemma DecodeOne(u: CodeUnit, rest: string)
    requires u < 0x80
    ensures Decode("%" + Hex2(u) + rest) == Prepend([u], Decode(rest))
  {
    hide Hex2, HexValue;
    HexValuesOfByte(u);
    var s := "%" + Hex2(u) + rest;
    assert s[3..] == rest && ByteAt(s, 0) == u;
  }

  lemma DecodeTwo(u: CodeUnit, rest: string)
    requires 0x80 <= u < 0x800
    ensures Decode("%" + Hex2(0xC0 + u / 64) + "%" + Hex2(0x80 + u % 64) + rest) == Prepend([u], Decode(rest))
  {
    hide Hex2, HexValue;
    HexValuesOfByte(0xC0 + u / 64);
    HexValuesOfByte(0x80 + u % 64);
    var s := "%" + Hex2(0xC0 + u / 64) + "%" + Hex2(0x80 + u % 64) + rest;
    assert s[6..] == rest && ByteAt(s, 0) == 0xC0 + u / 64 && ByteAt(s, 1) == 0x80 + u % 64;
    assert u / 64 * 64 + u % 64 == u;
  }

  lemma DecodeUtf8Bytes(u: CodeUnit, rest: string)
    requires !Surrogate(u)
    ensures Decode(Percent(Utf8Bytes(u)) + rest) == Prepend([u], Decode(rest))
  {
    hide Decode, Hex2, PercentThree;
    if u < 0x80 {
      assert Percent([u][1..]) == "";
      assert Percent([u]) == "%" + Hex2(u);
      DecodeOne(u, rest);
    } else if u < 0x800 {
      var bytes := Utf8Bytes(u);
      assert bytes[1..][1..] == [];
      assert Percent(bytes[1..]) == "%" + Hex2(bytes[1]);
      assert Percent(bytes) == "%" + Hex2(bytes[0]) + "%" + Hex2(bytes[1]);
      DecodeTwo(u, rest);
    } else {
      ReferenceUnit(u);
      DecodeThree(u, rest);
    }
  }

  /** The strict decoder inverts the reference encoding of every string without surrogates. */
  lemma {:induction false} ReferenceDecodes(s: seq<CodeUnit>)
    requires forall i :: 0 <= i < |s| ==> !Surrogate(s[i])
    ensures Decode(Reference(s)) == Some(s)
  {
    hide Decode, Unreserved, Percent, Utf8Bytes;
    if s == [] {
      DecodeEmpty();
    } else {
      ReferenceDecodes(s[1..]);
      assert [s[0]] + s[1..] == s;
      if Unreserved(s[0]) {
        DecodeRaw(s[0], Reference(s[1..]));
      } else {
        DecodeUtf8Bytes(s[0], Reference(s[1..]));
      }
    }
  }

  lemma DecodeEmpty()
    ensures Decode("") == Some([])
  {
  }

  // ---------- which strings survive

  /** How many unreserved characters stand at the front: what joins the piece of the escape before them. */
  function Stretch(s: seq<CodeUnit>): (n: nat)
    ensures n <= |s| && forall i :: 0 <= i < n ==> Unreserved(s[i])
  {
    if s != [] && Unreserved(s[0]) then 1 + Stretch(s[1..]) else 0
  }

  predicate IsText(s: seq<CodeUnit>) {
    forall i :: 0 <= i < |s| ==> Unreserved(s[i])
  }

  function AsText(s: seq<CodeUnit>): (t: string)
    requires IsText(s)
    ensures |t| == |s|
  {
    seq(|s|, i requires 0 <= i < |s| && IsText(s) => s[i] as char)
  }

  function Front(s: seq<CodeUnit>): (f: seq<CodeUnit>)
    ensures IsText(f)
  {
    s[..Stretch(s)]
  }

  /** The front stretch is the first piece. */
  lemma {:induction false} FirstPiece(s: seq<CodeUnit>)
    ensures Split(Escape(s))[0] == AsText(Front(s))
  {
    if s != [] {
      var rest := Escape(s[1..]);
      if Unreserved(s[0]) {
        FrontCons(s);
        hide Split, Unreserved, Front;
        SplitJoins([s[0] as char], rest);
        FirstPiece(s[1..]);
      } else {
        hide Unreserved, Hex2, Hex4;
        assert Escape(s)[0] == '%';
      }
    }
  }

  lemma FrontCons(s: seq<CodeUnit>)
    requires s != [] && Unreserved(s[0])
    ensures AsText(Front(s)) == [s[0] as char] + AsText(Front(s[1..]))
  {
    hide Unreserved;
    assert Front(s) == [s[0]] + Front(s[1..]);
  }

  lemma {:induction false} DecodeText(us: seq<CodeUnit>, rest: string)
    requires IsText(us)
    ensures Decode(AsText(us) + rest) == Prepend(us, Decode(rest))
  {
    hide Decode;
    if us == [] {
      assert AsText(us) + rest == rest;
      assert Decode(rest).Some? ==> us + Decode(rest).value == Decode(rest).value;
    } else {
      assert AsText(us) + rest == [us[0] as char] + (AsText(us[1..]) + rest);
      DecodeRaw(us[0], AsText(us[1..]) + rest);
      DecodeText(us[1..], rest);
      assert Decode(rest).Some? ==> [us[0]] + (us[1..] + Decode(rest).value) == us + Decode(rest).value;
    }
  }

  /** What the two-digit branch repeats after a character. */
  function Repeated(rest: seq<CodeUnit>): (r: seq<CodeUnit>)
    ensures IsText(r)
  {
    if Stretch(rest) > 3 then Front(rest)[3..] else []
  }

  lemma ShortSplit(u: CodeUnit, rest: seq<CodeUnit>)
    requires u < 0x100 && !Unreserved(u)
    ensures var sa := Split(Escape(rest));
            Split(Escape([u] + rest)) == [""] + ([Hex2(u) + sa[0]] + sa[1..])
  {
    hide Split, Hex2, Unreserved;
    var e := Escape(rest);
    assert ([u] + rest)[1..] == rest && Escape([u] + rest) == "%" + (Hex2(u) + e);
    Hex2HasNoPercent(u);
    SplitCuts(Hex2(u) + e);
    SplitJoins(Hex2(u), e);
  }

  /** Repeated, read off the piece itself. */
  lemma RepeatedText(rest: seq<CodeUnit>)
    ensures var t := AsText(Front(rest));
            AsText(Repeated(rest)) == if |t| > 3 then t[3..] else ""
  {
    hide Stretch, Unreserved;
  }

  lemma ShortJoin(u: CodeUnit, t: string, d: string, r: seq<string>)
    requires u < 0x100 && d == if |t| > 3 then t[3..] else ""
    ensures Join([""] + ([Hex2(u) + t] + r)) == [u as char] + (t + (d + Pieces(r)))
  {
    hide Pieces, Piece, Hex2, Unreserved;
    ShortEscapePiece(u, t);
    PiecesCons(Hex2(u) + t, r);
    assert ([""] + ([Hex2(u) + t] + r))[1..] == [Hex2(u) + t] + r;
    assert "" + Pieces([Hex2(u) + t] + r) == Pieces([Hex2(u) + t] + r);
  }

  lemma EncodedShort(u: CodeUnit, rest: seq<CodeUnit>)
    requires u < 0x100 && !Unreserved(u)
    ensures var ps := Pieces(Split(Escape(rest))[1..]);
            && Encoded(rest) == AsText(Front(rest)) + ps
            && Encoded([u] + rest) == [u as char] + (AsText(Front(rest)) + (AsText(Repeated(rest)) + ps))
  {
    hide Pieces, Split, Escape, Hex2, Unreserved, AsText, Front, Repeated;
    var sa := Split(Escape(rest));
    FirstPiece(rest);
    RepeatedText(rest);
    ShortSplit(u, rest);
    ShortJoin(u, sa[0], AsText(Repeated(rest)), sa[1..]);
  }

  predicate Decodable(u: CodeUnit) {
    Encodable(u) || u < 0x80
  }

  /** How many characters the decoded string has too many. */
  function Excess(s: seq<CodeUnit>): nat {
    if s == [] then 0
    else (if s[0] < 0x100 && !Unreserved(s[0]) then |Repeated(s[1..])| else 0) + Excess(s[1..])
  }

  ghost predicate AllDecodable(s: seq<CodeUnit>) {
    forall i :: 0 <= i < |s| ==> Decodable(s[i])
  }

  lemma DecodeChar(u: CodeUnit, rest: string)
    requires u < 0x100 && u != '%' as int
    ensures Decode([u as char] + rest) == if u < 0x80 then Prepend([u], Decode(rest)) else None
  {
    hide ByteAt;
    assert ([u as char] + rest)[1..] == rest;
  }

  lemma DecodeShort(u: CodeUnit, rest: seq<CodeUnit>)
    requires u < 0x100 && !Unreserved(u) && u != '%' as int
    ensures var d, e := Decode(Encoded(rest)), Decode(Encoded([u] + rest));
            && (e.Some? <==> u < 0x80 && d.Some?)
            && (e.Some? ==> |e.value| == 1 + |d.value| + |Repeated(rest)|)
            && (e.Some? && Repeated(rest) == [] ==> e.value == [u] + d.value)
  {
    hide Encoded, Decode, Pieces, Split, Escape, Unreserved, AsText, Front, Repeated;
    var t, r, ps := Front(rest), Repeated(rest), Pieces(Split(Escape(rest))[1..]);
    EncodedShort(u, rest);
    DecodeText(t, ps);
    DecodeText(r, ps);
    DecodeText(t, AsText(r) + ps);
    DecodeChar(u, AsText(t) + (AsText(r) + ps));
    if Decode(ps).Some? && r == [] {
      assert t + ([] + Decode(ps).value) == t + Decode(ps).value;
    }
  }

  /** Without percent signs, decoding gives back the string with the repetitions inserted, or nothing. */
  lemma {:induction false} DecodeEncoded(s: seq<CodeUnit>)
    requires '%' as int !in s
    ensures var d := Decode(Encoded(s));
            && (d.Some? <==> AllDecodable(s))
            && (d.Some? ==> |d.value| == |s| + Excess(s))
            && (d.Some? && Excess(s) == 0 ==> d.value == s)
  {
    hide Encoded, Decode, Unreserved, PercentThree, Repeated;
    if s == [] {
      EncodedEmpty();
      DecodeEmpty();
    } else {
      var u, rest := s[0], s[1..];
      assert s == [u] + rest;
      DecodeEncoded(rest);
      assert AllDecodable(s) <==> Decodable(u) && AllDecodable(rest);
      if Unreserved(u) {
        EncodedCons(u, rest);
        DecodeRaw(u, Encoded(rest));
      } else if u >= 0x100 {
        EncodedCons(u, rest);
        DecodeThree(u, Encoded(rest));
      } else {
        DecodeShort(u, rest);
      }
    }
  }

  /** A character that survives: unreserved, three bytes long, or ASCII with nothing to repeat after it. */
  predicate Survives(s: seq<CodeUnit>, i: nat)
    requires i < |s|
  {
    Encodable(s[i]) || (s[i] < 0x80 && Stretch(s[i + 1..]) <= 3)
  }

  ghost predicate AllSurvive(s: seq<CodeUnit>) {
    forall i: nat :: i < |s| ==> Survives(s, i)
  }

  lemma AllSurviveCons(s: seq<CodeUnit>)
    requires s != []
    ensures AllSurvive(s) <==> Survives(s, 0) && AllSurvive(s[1..])
  {
    hide Survives;
    forall i: nat | i < |s| - 1
      ensures Survives(s, i + 1) <==> Survives(s[1..], i)
    {
      SurvivesLater(s, i);
    }
    if Survives(s, 0) && AllSurvive(s[1..]) {
      forall i: nat | i < |s|
        ensures Survives(s, i)
      {
        assert i > 0 ==> Survives(s[1..], i - 1);
      }
    }
  }

  lemma SurvivesLater(s: seq<CodeUnit>, i: nat)
    requires i + 1 < |s|
    ensures Survives(s, i + 1) <==> Survives(s[1..], i)
  {
    assert s[1..][i + 1..] == s[i + 1 + 1..];
  }

  lemma {:induction false} NoExcess(s: seq<CodeUnit>)
    ensures AllDecodable(s) && Excess(s) == 0 <==> AllSurvive(s)
  {
    hide Unreserved, Stretch, Survives, Repeated, Decodable;
    if s != [] {
      NoExcess(s[1..]);
      AllSurviveCons(s);
      assert AllDecodable(s) <==> Decodable(s[0]) && AllDecodable(s[1..]);
      SurvivesFirst(s);
    }
  }

  lemma SurvivesFirst(s: seq<CodeUnit>)
    requires s != []
    ensures Survives(s, 0) <==>
            Decodable(s[0]) && (s[0] < 0x100 && !Unreserved(s[0]) ==> Repeated(s[1..]) == [])
  {
    hide Unreserved, Stretch;
  }

  /**
   A string without percent signs survives encoding and strict decoding exactly when each of its characters is
   unreserved, or at least 0x800 and no surrogate, or another ASCII character that at most three unreserved
   characters follow before the next escaped one or the end.
   */
  lemma RoundTripExactly(s: seq<CodeUnit>)
    requires '%' as int !in s
    ensures Decode(Encoded(s)) == Some(s) <==> AllSurvive(s)
  {
    hide Encoded, Decode, Survives, AllDecodable;
    DecodeEncoded(s);
    NoExcess(s);
  }

  /** A concrete failure: the two-byte character U+0100 becomes an overlong three-byte form. */
  lemma OverlongExample()
    ensures Encoded([0x100]) == "%E0%84%80" && Decode(Encoded([0x100])) == None
  {
    hide Encoded, PercentThree, Decode;
    assert [0x100] == [0x100] + [];
    EncodedCons(0x100, []);
    EncodedEmpty();
    OverlongForm();
    DecodeThree(0x100, "");
  }

  lemma OverlongForm()
    ensures PercentThree(0x100) == "%E0%84%80"
  {
    assert Hex2(0xE0) == "E0" && Hex2(0x84) == "84" && Hex2(0x80) == "80";
  }
}
