/** The Base64 coder of scripts/global/daemons/base64d.lua. It works on strings of
    binary digits that pattern substitutions cut into groups; it is compared with
    the arithmetic of section 4 of RFC 4648, and decoded again. */
module Base64 {
  import opened Wrappers
  import opened Powers
  import opened Wire

  const UPPER := "ABCDEFGHIJKLMNOPQRSTUVWXYZ"
  const LOWER := "abcdefghijklmnopqrstuvwxyz"
  const OTHERS := "0123456789+/"
  const ALPHABET := UPPER + LOWER + OTHERS

  // ----- Binary digits -----

  function Bit(d: int): char { if d == 1 then '1' else '0' }

  /** The lower k bits of a number, the highest first. */
  function Bits(v: nat, k: nat): (s: string)
    ensures |s| == k
  {
    if k == 0 then "" else Bits(v / 2, k - 1) + [Bit(v % 2)]
  }

  /** The number that a string of bits stands for. */
  function Value(s: string): nat {
    if s == "" then 0 else 2 * Value(s[..|s| - 1]) + if s[|s| - 1] == '1' then 1 else 0
  }

  function Halved(v: nat, k: nat): nat {
    if k == 0 then v else Halved(v / 2, k - 1)
  }

  lemma {:induction false} ValueOfBits(v: nat, k: nat)
    requires v < Pow2(k)
    ensures Value(Bits(v, k)) == v
  {
    if k > 0 {
      ValueOfBits(v / 2, k - 1);
      var s := Bits(v, k);
      assert s[..k - 1] == Bits(v / 2, k - 1);
    }
  }

  predicate Binary(s: string) {
    forall i :: 0 <= i < |s| ==> s[i] == '0' || s[i] == '1'
  }

  lemma ValueSnoc(s: string, c: char)
    ensures Value(s + [c]) == 2 * Value(s) + if c == '1' then 1 else 0
  {
    assert (s + [c])[..|s|] == s;
  }

  lemma {:induction false} BitsOfValue(s: string)
    requires Binary(s)
    ensures Bits(Value(s), |s|) == s
  {
    if s != "" {
      var init, c := s[..|s| - 1], s[|s| - 1];
      BitsOfValue(init);
      assert s == init + [c];
    }
  }

  lemma {:induction false} BitsBinary(v: nat, k: nat)
    ensures Binary(Bits(v, k))
  {
    if k > 0 {
      BitsBinary(v / 2, k - 1);
    }
  }

  lemma {:induction false} HalvedAgain(v: nat, k: nat)
    ensures Halved(v, k + 1) == Halved(v, k) / 2
  {
    if k > 0 {
      HalvedAgain(v / 2, k - 1);
    }
  }

  /** The upper bits, then the lower ones. */
  lemma {:induction false} BitsSplit(v: nat, k: nat, j: nat)
    ensures Bits(v, k + j) == Bits(Halved(v, j), k) + Bits(v, j)
    decreases j
  {
    if j > 0 {
      BitsSplit(v / 2, k, j - 1);
    } else {
      assert Bits(v, k) + "" == Bits(v, k);
    }
  }

  /** Times two, k times over. */
  function Scaled(x: nat, k: nat): nat {
    if k == 0 then x else 2 * Scaled(x, k - 1)
  }

  lemma {:induction false} ValueConcat(a: string, b: string)
    ensures Value(a + b) == Scaled(Value(a), |b|) + Value(b)
  {
    if b == "" {
      assert a + b == a;
    } else {
      var init, c := b[..|b| - 1], b[|b| - 1];
      ValueConcat(a, init);
      assert b == init + [c] && a + b == a + init + [c];
      ValueSnoc(init, c);
      ValueSnoc(a + init, c);
    }
  }

  lemma {:induction false} ScaledTwice(x: nat, d: nat, k: nat)
    requires d <= 1
    ensures Scaled(2 * x + d, k) == Scaled(x, k + 1) + if d == 1 then Pow2(k) else 0
  {
    if k > 0 {
      ScaledTwice(x, d, k - 1);
    }
  }

  lemma {:induction false} ValueBound(s: string)
    ensures Value(s) < Pow2(|s|)
  {
    if s != "" {
      ValueBound(s[..|s| - 1]);
    }
  }

  lemma Doubled(p: nat, x: nat)
    ensures 2 * p * x == 2 * (p * x)
  {
  }

  lemma {:induction false} HalvedIsQuotient(v: nat, k: nat)
    ensures 0 <= v - Pow2(k) * Halved(v, k) < Pow2(k)
  {
    if k > 0 {
      HalvedIsQuotient(v / 2, k - 1);
      Doubled(Pow2(k - 1), Halved(v, k));
    }
  }

  lemma Remainder(x: nat, m: nat, q: nat, r: nat)
    requires m > 0 && x == m * q + r && r < m
    ensures x % m == r
  {
    var d := x / m - q;
    assert m * d == m * (x / m) - m * q == r - x % m;
    assert d < 1;
    assert d > -1;
  }

  lemma TestAt(v: nat, m: nat, h: nat, r: nat)
    requires v == m * h + r && r < m
    ensures v % (2 * m) - v % m > 0 <==> h % 2 == 1
  {
    var q, d := h / 2, h % 2;
    Remainder(v, m, h, r);
    assert m * h == m * (2 * q + d) == 2 * m * q + m * d;
    if d == 0 {
      Remainder(v, 2 * m, q, r);
    } else {
      Remainder(v, 2 * m, q, m + r);
    }
  }

  /** The test the coder makes for bit i - 1. */
  lemma BitTest(v: nat, i: nat)
    requires i >= 1
    ensures v % Pow2(i) - v % Pow2(i - 1) > 0 <==> Halved(v, i - 1) % 2 == 1
  {
    HalvedIsQuotient(v, i - 1);
    var m, h := Pow2(i - 1), Halved(v, i - 1);
    TestAt(v, m, h, v - m * h);
  }

  /** The digits of a number, the highest first, as the coder finds them. */
  method DigitsOf(v: nat, k: nat) returns (r: string)
    ensures r == Bits(Halved(v, 0), k)
  {
    r := "";
    var i := k;
    while i > 0
      invariant 0 <= i <= k
      invariant r == Bits(Halved(v, i), k - i)
    {
      BitTest(v, i);
      HalvedAgain(v, i - 1);
      r := r + [if v % Pow2(i) - v % Pow2(i - 1) > 0 then '1' else '0'];
      i := i - 1;
    }
  }

  lemma {:induction false} ScaledZero(k: nat)
    ensures Scaled(0, k) == 0
  {
    if k > 0 {
      ScaledZero(k - 1);
    }
  }

  /** The number that a group of digits stands for, as the coder adds it up. */
  method NumberOf(s: string) returns (c: nat)
    ensures c == Value(s)
  {
    c := 0;
    var i := 0;
    ScaledZero(|s|);
    while i < |s|
      invariant i <= |s|
      invariant c == Scaled(Value(s[..i]), |s| - i)
    {
      assert s[..i + 1] == s[..i] + [s[i]];
      ValueSnoc(s[..i], s[i]);
      ScaledTwice(Value(s[..i]), if s[i] == '1' then 1 else 0, |s| - i - 1);
      c := c + if s[i] == '1' then Pow2(|s| - i - 1) else 0;
      i := i + 1;
    }
    assert s[..|s|] == s;
  }

  // ----- The alphabet -----

  /** The letter at a place of the alphabet, which has 64. */
  function Letter(d: nat): char {
    if d < 26 then 'A' + d as char else if d < 52 then 'a' + (d - 26) as char else if d < 62 then '0' + (d - 52) as char
    else if d == 62 then '+' else '/'
  }

  lemma Upper(d: int)
    requires 0 <= d < 26
    ensures UPPER[d] == 'A' + d as char
  {
  }

  lemma Lower(d: int)
    requires 0 <= d < 26
    ensures LOWER[d] == 'a' + d as char
  {
  }

  lemma Others(d: int)
    requires 0 <= d < 12
    ensures OTHERS[d] == Letter(d + 52)
  {
  }

  /** The alphabet, letter by letter. */
  lemma {:induction false} LetterAt(d: int)
    requires 0 <= d < 64
    ensures |ALPHABET| == 64 && ALPHABET[d] == Letter(d)
  {
    if d < 26 { Upper(d); } else if d < 52 { Lower(d - 26); } else { Others(d - 52); }
  }

  /** The first place of a character in the alphabet. */
  function Place(c: char): Option<nat> {
    if 'A' <= c <= 'Z' then Some((c - 'A') as nat)
    else if 'a' <= c <= 'z' then Some((c - 'a') as nat + 26)
    else if '0' <= c <= '9' then Some((c - '0') as nat + 52)
    else if c == '+' then Some(62)
    else if c == '/' then Some(63)
    else None
  }

  lemma PlaceOfLetter(d: int)
    requires 0 <= d < 64
    ensures Place(Letter(d)) == Some(d) && Letter(d) != '='
  {
  }

  // ----- Coding -----

  function BitString(data: Bytes): (s: string)
    ensures |s| == 8 * |data|
  {
    if data == [] then "" else Bits(data[0], 8) + BitString(data[1..])
  }

  /** The byte that eight digits spell. */
  function Octet(g: string): byte { Value(g) % 256 }

  /** Groups of six digits become letters, a last group of two to five digits is
      dropped, and a single digit would be left as it is. */
  function Sixes(bits: string): string {
    if |bits| < 2 then bits
    else if |bits| < 6 then ""
    else [Letter(Value(bits[..6]))] + Sixes(bits[6..])
  }

  function Padding(n: nat): string {
    if n % 3 == 0 then "" else if n % 3 == 1 then "==" else "="
  }

  function Body(data: Bytes): string {
    Sixes(BitString(data) + "0000")
  }

  function Enc(data: Bytes): string {
    Body(data) + Padding(|data|)
  }

  // ----- Decoding -----

  predicate IsKept(c: char) { Place(c).Some? || c == '=' }

  /** Anything that is neither a letter of the alphabet nor padding is ignored. */
  function Kept(text: string): string {
    if text == "" then "" else (if IsKept(text[0]) then [text[0]] else "") + Kept(text[1..])
  }

  function TextBits(text: string): string {
    if text == "" then ""
    else (if Place(text[0]).Some? then Bits(Place(text[0]).value, 6) else "") + TextBits(text[1..])
  }

  /** Groups of eight digits become bytes, a shorter group at the end is dropped,
      and a single digit would be left as it is. */
  function Eights(bits: string): Bytes {
    if |bits| == 0 then []
    else if |bits| == 1 then [if bits[0] == '1' then 49 else 48]
    else if |bits| < 8 then []
    else [Octet(bits[..8])] + Eights(bits[8..])
  }

  function Dec(text: string): Bytes {
    Eights(TextBits(Kept(text)))
  }

  // ----- Decoding what was coded -----

  lemma {:induction false} BitStringBinary(data: Bytes)
    ensures Binary(BitString(data))
  {
    if data != [] {
      BitsBinary(data[0], 8);
      BitStringBinary(data[1..]);
    }
  }

  lemma TextFront(c: char, rest: string)
    ensures TextBits([c] + rest) == (if Place(c).Some? then Bits(Place(c).value, 6) else "") + TextBits(rest)
    ensures Kept([c] + rest) == (if IsKept(c) then [c] else "") + Kept(rest)
  {
    assert ([c] + rest)[1..] == rest;
  }

  lemma SixDigits(g: string)
    requires |g| == 6
    ensures Value(g) < 64
  {
    ValueBound(g);
    assert Pow2(6) == 64;
  }

  lemma LetterBits(g: string)
    requires Binary(g) && |g| == 6
    ensures Place(Letter(Value(g))) == Some(Value(g)) && Bits(Value(g), 6) == g
  {
    SixDigits(g);
    BitsOfValue(g);
    PlaceOfLetter(Value(g));
  }

  function Cut(bits: string): string {
    bits[..|bits| - |bits| % 6]
  }

  lemma CutFront(bits: string)
    requires |bits| >= 6
    ensures Cut(bits) == bits[..6] + Cut(bits[6..])
  {
    assert |bits[6..]| % 6 == |bits| % 6;
  }

  lemma {:induction false} PadBits(pad: string)
    requires forall i :: 0 <= i < |pad| ==> pad[i] == '='
    ensures TextBits(pad) == "" && Kept(pad) == pad
  {
    if pad != "" {
      PadBits(pad[1..]);
      assert pad == [pad[0]] + pad[1..];
    }
  }

  /** The letters stand for the digits they were made from. */
  lemma {:induction false} SixesBits(bits: string, pad: string)
    requires Binary(bits) && |bits| % 6 != 1 && forall i :: 0 <= i < |pad| ==> pad[i] == '='
    ensures TextBits(Sixes(bits) + pad) == Cut(bits)
    ensures Kept(Sixes(bits) + pad) == Sixes(bits) + pad
  {
    if |bits| < 6 {
      assert Sixes(bits) == "" && "" + pad == pad;
      PadBits(pad);
      assert Cut(bits) == "";
    } else {
      var g, rest := bits[..6], bits[6..];
      SixesBits(rest, pad);
      LetterBits(g);
      CutFront(bits);
      assert Sixes(bits) + pad == [Letter(Value(g))] + (Sixes(rest) + pad);
      TextFront(Letter(Value(g)), Sixes(rest) + pad);
    }
  }

  lemma {:induction false} ByteBits(v: byte)
    ensures Octet(Bits(v, 8)) == v
  {
    assert Pow2(8) == 256;
    ValueOfBits(v, 8);
  }

  lemma EightsFront(g: string, rest: string)
    requires |g| == 8
    ensures Eights(g + rest) == [Octet(g)] + Eights(rest)
  {
    assert (g + rest)[..8] == g && (g + rest)[8..] == rest;
  }

  lemma Together(x: string, g: string, s: string, pad: string)
    requires x == g + s
    ensures x + pad == g + (s + pad)
  {
  }

  /** Eight digits a byte, and what follows is dropped. */
  lemma {:induction false} EightsBytes(data: Bytes, tail: string)
    requires |tail| < 8 && |tail| != 1
    ensures Eights(BitString(data) + tail) == data
  {
    if data == [] {
      assert BitString(data) + tail == tail;
    } else {
      var g, rest := Bits(data[0], 8), BitString(data[1..]);
      EightsBytes(data[1..], tail);
      Together(BitString(data), g, rest, tail);
      EightsFront(g, rest + tail);
      ByteBits(data[0]);
      assert [data[0]] + data[1..] == data;
    }
  }

  /** How many digits are left after the last byte: none, four or two. */
  function TailLength(n: nat): nat {
    if n % 3 == 0 then 0 else if n % 3 == 1 then 4 else 2
  }

  lemma CutLength(n: nat)
    ensures (8 * n + 4) - (8 * n + 4) % 6 == 8 * n + TailLength(n) && (8 * n + 4) % 6 != 1
  {
    var q := n / 3;
    if n % 3 == 0 {
      assert 8 * n + 4 == 6 * (4 * q) + 4;
    } else if n % 3 == 1 {
      assert 8 * n + 4 == 6 * (4 * q + 2);
    } else {
      assert 8 * n + 4 == 6 * (4 * q + 3) + 2;
    }
  }

  lemma {:induction false} CutEnc(data: Bytes)
    ensures Cut(BitString(data) + "0000") == BitString(data) + "0000"[..TailLength(|data|)]
    ensures |BitString(data) + "0000"| % 6 != 1
  {
    CutLength(|data|);
  }

  /** Decoding gives back every byte string that was coded. */
  lemma {:induction false} RoundTrip(data: Bytes)
    ensures Dec(Enc(data)) == data
  {
    BitStringBinary(data);
    CutEnc(data);
    SixesBits(BitString(data) + "0000", Padding(|data|));
    EightsBytes(data, "0000"[..TailLength(|data|)]);
  }

  // ----- RFC 4648 -----

  /** Section 4 of RFC 4648: three bytes are one number of 24 bits, cut into four
      letters; one or two bytes at the end are filled up with zero bits, and the
      letters that are missing are written as '='. */
  function Rfc4648(data: Bytes): string {
    if data == [] then ""
    else if |data| == 1 then
      var n: int := (data[0] as int) * 16;
      [Letter(n / 64), Letter(n % 64)] + "=="
    else if |data| == 2 then
      var n: int := ((data[0] as int) * 256 + data[1]) * 4;
      [Letter(n / 4096), Letter(n / 64 % 64), Letter(n % 64)] + "="
    else
      var n: int := (data[0] as int) * 65536 + (data[1] as int) * 256 + data[2];
      [Letter(n / 262144), Letter(n / 4096 % 64), Letter(n / 64 % 64), Letter(n % 64)] + Rfc4648(data[3..])
  }

  lemma {:induction false} ValueLow(v: nat, k: nat)
    ensures Value(Bits(v, k)) == v - Pow2(k) * Halved(v, k)
  {
    if k > 0 {
      ValueLow(v / 2, k - 1);
      ValueSnoc(Bits(v / 2, k - 1), Bit(v % 2));
      Doubled(Pow2(k - 1), Halved(v, k));
    }
  }

  lemma Halved2(v: nat)
    ensures Halved(v, 2) == v / 4
  {
    assert Halved(v, 2) == Halved(v / 2, 1) == Halved(v / 2 / 2, 0);
  }

  lemma Halvings(v: nat)
    ensures Halved(v, 2) == v / 4 && Halved(v, 4) == v / 16 && Halved(v, 6) == v / 64
  {
    Halved2(v);
    Halved2(v / 4);
    Halved2(v / 16);
    assert v / 2 / 2 == v / 4 && v / 4 / 2 / 2 == v / 16;
    assert Halved(v, 4) == Halved(v / 2, 3) == Halved(v / 2 / 2, 2);
    assert Halved(v, 6) == Halved(v / 2, 5) == Halved(v / 2 / 2, 4) == Halved(v / 4 / 2, 3) == Halved(v / 4 / 2 / 2, 2);
  }

  /** Where a byte is cut in two: its upper and its lower digits. */
  lemma {:induction false} ByteCuts(v: byte)
    ensures Bits(v, 8) == Bits(v / 4, 6) + Bits(v, 2) && Value(Bits(v / 4, 6)) == v / 4 && Value(Bits(v, 2)) == v % 4
    ensures Bits(v, 8) == Bits(v / 16, 4) + Bits(v, 4) && Value(Bits(v / 16, 4)) == v / 16
            && Value(Bits(v, 4)) == v % 16
    ensures Bits(v, 8) == Bits(v / 64, 2) + Bits(v, 6) && Value(Bits(v / 64, 2)) == v / 64
            && Value(Bits(v, 6)) == v % 64
  {
    assert Pow2(2) == 4 && Pow2(4) == 16 && Pow2(6) == 64;
    Halvings(v);
    BitsSplit(v, 6, 2);
    BitsSplit(v, 4, 4);
    BitsSplit(v, 2, 6);
    ValueLow(v, 2);
    ValueLow(v, 4);
    ValueLow(v, 6);
    ValueOfBits(v / 4, 6);
    ValueOfBits(v / 16, 4);
    ValueOfBits(v / 64, 2);
  }

  lemma SixesFront(g: string, rest: string, d: int)
    requires |g| == 6 && Value(g) == d
    ensures 0 <= d < 64 && Sixes(g + rest) == [Letter(d)] + Sixes(rest)
  {
    assert (g + rest)[..6] == g && (g + rest)[6..] == rest;
    SixDigits(g);
  }

  lemma Scaled24(x: nat)
    ensures Scaled(x, 2) == 4 * x && Scaled(x, 4) == 16 * x
  {
    assert Scaled(x, 2) == 2 * Scaled(x, 1) == 4 * Scaled(x, 0);
    assert Scaled(x, 4) == 2 * Scaled(x, 3) == 4 * Scaled(x, 2);
  }

  /** Two bits of one byte and four of the next are a letter, and so are four and
      two. */
  lemma {:induction false} Middle(a: byte, b: byte)
    ensures Value(Bits(a, 2) + Bits(b / 16, 4)) == a % 4 * 16 + b / 16
    ensures Value(Bits(a, 4) + Bits(b / 64, 2)) == a % 16 * 4 + b / 64
  {
    ByteCuts(a);
    ByteCuts(b);
    ValueConcat(Bits(a, 2), Bits(b / 16, 4));
    ValueConcat(Bits(a, 4), Bits(b / 64, 2));
    Scaled24(a % 4);
    Scaled24(a % 16);
  }

  lemma Regroup(a1: string, a2: string, b1: string, b2: string, c1: string, c2: string, rest: string)
    ensures (a1 + a2) + (b1 + b2) + (c1 + c2) + rest == a1 + ((a2 + b1) + ((b2 + c1) + (c2 + rest)))
  {
  }

  /** The four letters of three bytes. */
  function FourLetters(a: byte, b: byte, c: byte): string {
    [Letter(a / 4), Letter(a % 4 * 16 + b / 16), Letter(b % 16 * 4 + c / 64), Letter(c % 64)]
  }

  lemma {:induction false} Cuts(a: byte, b: byte, c: byte, rest: string)
    ensures Bits(a, 8) + Bits(b, 8) + Bits(c, 8) + rest
            == Bits(a / 4, 6) + ((Bits(a, 2) + Bits(b / 16, 4))
              + ((Bits(b, 4) + Bits(c / 64, 2)) + (Bits(c, 6) + rest)))
  {
    ByteCuts(a);
    ByteCuts(b);
    ByteCuts(c);
    Regroup(Bits(a / 4, 6), Bits(a, 2), Bits(b / 16, 4), Bits(b, 4), Bits(c / 64, 2), Bits(c, 6), rest);
  }

  lemma SixesFour(g1: string, g2: string, g3: string, g4: string, rest: string, d1: int, d2: int, d3: int, d4: int)
    requires |g1| == |g2| == |g3| == |g4| == 6
    requires Value(g1) == d1 && Value(g2) == d2 && Value(g3) == d3 && Value(g4) == d4
    ensures 0 <= d1 < 64 && 0 <= d2 < 64 && 0 <= d3 < 64 && 0 <= d4 < 64
    ensures Sixes(g1 + (g2 + (g3 + (g4 + rest)))) == [Letter(d1), Letter(d2), Letter(d3), Letter(d4)] + Sixes(rest)
  {
    SixesFront(g1, g2 + (g3 + (g4 + rest)), d1);
    SixesFront(g2, g3 + (g4 + rest), d2);
    SixesFront(g3, g4 + rest, d3);
    SixesFront(g4, rest, d4);
  }

  lemma {:induction false} ThreeBytes(a: byte, b: byte, c: byte, rest: string)
    ensures Sixes(Bits(a, 8) + Bits(b, 8) + Bits(c, 8) + rest) == FourLetters(a, b, c) + Sixes(rest)
  {
    Cuts(a, b, c, rest);
    Middle(a, b);
    Middle(b, c);
    ByteCuts(a);
    ByteCuts(c);
    SixesFour(Bits(a / 4, 6), Bits(a, 2) + Bits(b / 16, 4), Bits(b, 4) + Bits(c / 64, 2), Bits(c, 6), rest,
              a / 4, a % 4 * 16 + b / 16, b % 16 * 4 + c / 64, c % 64);
  }

  lemma By64(x: int, q: int, r: int)
    requires x == 64 * q + r && 0 <= r < 64
    ensures x / 64 == q && x % 64 == r
  {
  }

  lemma FirstTwo(p: int, q: int, s: int, t: int, c: int)
    requires 0 <= p < 64 && 0 <= q < 4 && 0 <= s < 16 && 0 <= t < 16 && 0 <= c < 256
    ensures var n := (4 * p + q) * 65536 + (16 * s + t) * 256 + c; n / 262144 == p && n / 4096 % 64 == q * 16 + s
  {
    var n := (4 * p + q) * 65536 + (16 * s + t) * 256 + c;
    assert n / 4096 == 64 * p + 16 * q + s;
  }

  lemma LastTwo(a: int, s: int, t: int, u: int, w: int)
    requires 0 <= a && 0 <= s < 16 && 0 <= t < 16 && 0 <= u < 4 && 0 <= w < 64
    ensures var n := a * 65536 + (16 * s + t) * 256 + (64 * u + w); n / 64 % 64 == t * 4 + u && n % 64 == w
  {
    var k := 1024 * a + 64 * s + 4 * t + u;
    By64(a * 65536 + (16 * s + t) * 256 + (64 * u + w), k, w);
    By64(k, 16 * a + s, 4 * t + u);
  }

  /** The same letters out of one number of 24 bits. */
  lemma {:induction false} Quarters(a: byte, b: byte, c: byte)
    ensures var n: int := (a as int) * 65536 + (b as int) * 256 + c;
            0 <= n / 262144 < 64 && FourLetters(a, b, c)
              == [Letter(n / 262144), Letter(n / 4096 % 64), Letter(n / 64 % 64), Letter(n % 64)]
  {
    FirstTwo(a / 4, a % 4, b / 16, b % 16, c);
    LastTwo(a, b / 16, b % 16, c / 64, c % 64);
  }

  lemma {:induction false} OneCut(a: byte)
    ensures Bits(a, 8) + "0000" == Bits(a / 4, 6) + (Bits(a, 2) + "0000")
  {
    ByteCuts(a);
  }

  lemma Zeroes(s: string)
    ensures Value(s + "00") == 4 * Value(s) && Value(s + "0000") == 16 * Value(s)
  {
    ValueSnoc(s, '0');
    ValueSnoc(s + "0", '0');
    ValueSnoc(s + "00", '0');
    ValueSnoc(s + "000", '0');
    assert s + "0" + "0" == s + "00" && s + "00" + "0" == s + "000" && s + "000" + "0" == s + "0000";
  }

  lemma SixesTwo(g1: string, g2: string, d1: int, d2: int)
    requires |g1| == |g2| == 6 && Value(g1) == d1 && Value(g2) == d2
    ensures 0 <= d1 < 64 && 0 <= d2 < 64 && Sixes(g1 + g2) == [Letter(d1), Letter(d2)]
  {
    assert g2 + "" == g2;
    SixesFront(g1, g2, d1);
    SixesFront(g2, "", d2);
  }

  lemma {:induction false} OneByte(a: byte)
    ensures Sixes(Bits(a, 8) + "0000") == [Letter(a / 4), Letter(a % 4 * 16)]
  {
    OneCut(a);
    ByteCuts(a);
    Zeroes(Bits(a, 2));
    SixesTwo(Bits(a / 4, 6), Bits(a, 2) + "0000", a / 4, a % 4 * 16);
  }

  lemma RegroupTwo(x: string, y: string, a1: string, a2: string, b1: string, b2: string)
    requires x == a1 + a2 && y == b1 + b2
    ensures x + y + "0000" == a1 + ((a2 + b1) + ((b2 + "00") + "00"))
  {
  }

  lemma {:induction false} TwoCuts(a: byte, b: byte)
    ensures Bits(a, 8) + Bits(b, 8) + "0000"
            == Bits(a / 4, 6) + ((Bits(a, 2) + Bits(b / 16, 4)) + ((Bits(b, 4) + "00") + "00"))
  {
    ByteCuts(a);
    ByteCuts(b);
    RegroupTwo(Bits(a, 8), Bits(b, 8), Bits(a / 4, 6), Bits(a, 2), Bits(b / 16, 4), Bits(b, 4));
  }

  lemma SixesThree(g1: string, g2: string, g3: string, d1: int, d2: int, d3: int)
    requires |g1| == |g2| == |g3| == 6 && Value(g1) == d1 && Value(g2) == d2 && Value(g3) == d3
    ensures 0 <= d1 < 64 && 0 <= d2 < 64 && 0 <= d3 < 64
    ensures Sixes(g1 + (g2 + (g3 + "00"))) == [Letter(d1), Letter(d2), Letter(d3)]
  {
    SixesFront(g1, g2 + (g3 + "00"), d1);
    SixesFront(g2, g3 + "00", d2);
    SixesFront(g3, "00", d3);
  }

  lemma {:induction false} TwoValues(a: byte, b: byte)
    ensures Value(Bits(a / 4, 6)) == a / 4 && Value(Bits(a, 2) + Bits(b / 16, 4)) == a % 4 * 16 + b / 16
    ensures Value(Bits(b, 4) + "00") == b % 16 * 4
  {
    Middle(a, b);
    ByteCuts(a);
    ByteCuts(b);
    Zeroes(Bits(b, 4));
  }

  lemma {:induction false} TwoBytes(a: byte, b: byte)
    ensures Sixes(Bits(a, 8) + Bits(b, 8) + "0000") == [Letter(a / 4), Letter(a % 4 * 16 + b / 16), Letter(b % 16 * 4)]
  {
    TwoCuts(a, b);
    TwoValues(a, b);
    SixesThree(Bits(a / 4, 6), Bits(a, 2) + Bits(b / 16, 4), Bits(b, 4) + "00", a / 4, a % 4 * 16 + b / 16, b % 16 * 4);
  }

  lemma ShortGroups(a: byte, b: byte)
    ensures var n: int := (a as int) * 16; n / 64 == a / 4 && n % 64 == a % 4 * 16
    ensures var n: int := ((a as int) * 256 + b) * 4;
            n / 4096 == a / 4 && n / 64 % 64 == a % 4 * 16 + b / 16 && n % 64 == b % 16 * 4
  {
    var n: int := ((a as int) * 256 + b) * 4;
    assert n / 64 == 64 * (a / 4) + (a % 4 * 16 + b / 16);
  }

  lemma {:induction false} EncOne(a: byte)
    ensures Enc([a]) == Rfc4648([a])
  {
    OneByte(a);
    ShortGroups(a, 0);
    assert BitString([a]) + "0000" == Bits(a, 8) + "0000";
  }

  lemma {:induction false} BitStringFront(data: Bytes)
    requires data != []
    ensures BitString(data) == Bits(data[0], 8) + BitString(data[1..])
  {
  }

  lemma {:induction false} EncTwo(a: byte, b: byte)
    ensures Enc([a, b]) == Rfc4648([a, b])
  {
    TwoBytes(a, b);
    ShortGroups(a, b);
    BitStringFront([a, b]);
    assert [a, b][1..] == [b];
    BitStringFront([b]);
    assert BitString([a, b]) + "0000" == Bits(a, 8) + Bits(b, 8) + "0000";
  }

  lemma {:induction false} BitStringThree(data: Bytes)
    requires |data| >= 3
    ensures BitString(data) + "0000"
            == Bits(data[0], 8) + Bits(data[1], 8) + Bits(data[2], 8) + (BitString(data[3..]) + "0000")
  {
    BitStringFront(data);
    BitStringFront(data[1..]);
    BitStringFront(data[2..]);
    assert data[1..][1..] == data[2..] && data[2..][1..] == data[3..];
  }

  lemma {:induction false} BodyThree(data: Bytes)
    requires |data| >= 3
    ensures Body(data) == FourLetters(data[0], data[1], data[2]) + Body(data[3..])
  {
    BitStringThree(data);
    ThreeBytes(data[0], data[1], data[2], BitString(data[3..]) + "0000");
  }

  lemma PaddingThree(n: nat)
    ensures Padding(n + 3) == Padding(n)
  {
  }

  lemma {:induction false} EncThree(data: Bytes)
    requires |data| >= 3
    ensures Enc(data) == FourLetters(data[0], data[1], data[2]) + Enc(data[3..])
  {
    BodyThree(data);
    PaddingThree(|data| - 3);
    Together(Body(data), FourLetters(data[0], data[1], data[2]), Body(data[3..]), Padding(|data|));
  }

  lemma {:induction false} EncMore(data: Bytes)
    requires |data| >= 3 && Enc(data[3..]) == Rfc4648(data[3..])
    ensures Enc(data) == Rfc4648(data)
  {
    EncThree(data);
    Quarters(data[0], data[1], data[2]);
  }

  /** The coder does what section 4 of RFC 4648 says, padding included. */
  lemma {:induction false} EncIsRfc4648(data: Bytes)
    ensures Enc(data) == Rfc4648(data)
  {
    if data == [] {
      assert BitString(data) + "0000" == "0000";
    } else if |data| == 1 {
      EncOne(data[0]);
      assert data == [data[0]];
    } else if |data| == 2 {
      EncTwo(data[0], data[1]);
      assert data == [data[0], data[1]];
    } else {
      EncIsRfc4648(data[3..]);
      EncMore(data);
    }
  }
}
