/** The form coding of scripts/global/daemons/base64d.lua (`url_encode` and
    `url_decode`), pass by pass, on bytes. */
module UrlCodec {
  import opened Wire
  import Sequences

  const LF := 10
  const CR := 13
  const SPACE := 32
  const PERCENT := 37
  const PLUS := 43

  predicate IsAlnum(c: byte) { 48 <= c <= 57 || 65 <= c <= 90 || 97 <= c <= 122 }

  /** Letters, digits, space, and `-`, `_`, `.` and `~` are not escaped. */
  predicate IsPlain(c: byte) { IsAlnum(c) || c == SPACE || c == 45 || c == 95 || c == 46 || c == 126 }

  function HexDigit(d: int): byte
    requires 0 <= d < 16
  {
    if d < 10 then 48 + d else 55 + d
  }

  predicate IsHex(c: byte) { 48 <= c <= 57 || 65 <= c <= 70 || 97 <= c <= 102 }

  function HexValue(c: byte): (d: int)
    requires IsHex(c)
    ensures 0 <= d < 16
  {
    if c <= 57 then c - 48 else if c <= 70 then c - 55 else c - 87
  }

  // ----- The passes -----

  function LineBreaks(s: Bytes): Bytes {
    if s == [] then [] else (if s[0] == LF then [CR, LF] else [s[0]]) + LineBreaks(s[1..])
  }

  function Escaped(c: byte): Bytes {
    if IsPlain(c) then [c] else [PERCENT, HexDigit(c / 16), HexDigit(c % 16)]
  }

  function Escape(s: Bytes): Bytes {
    if s == [] then [] else Escaped(s[0]) + Escape(s[1..])
  }

  function Replace(s: Bytes, x: byte, y: byte): Bytes {
    if s == [] then [] else [if s[0] == x then y else s[0]] + Replace(s[1..], x, y)
  }

  function UrlEncode(s: Bytes): Bytes {
    Replace(Escape(LineBreaks(s)), SPACE, PLUS)
  }

  /** A percent sign that two hexadecimal digits do not follow is left as it is. */
  function Unescape(s: Bytes): Bytes {
    if s == [] then []
    else if |s| >= 3 && s[0] == PERCENT && IsHex(s[1]) && IsHex(s[2])
      then [16 * HexValue(s[1]) + HexValue(s[2])] + Unescape(s[3..])
    else [s[0]] + Unescape(s[1..])
  }

  function JoinBreaks(s: Bytes): Bytes {
    if s == [] then []
    else if |s| >= 2 && s[0] == CR && s[1] == LF then [LF] + JoinBreaks(s[2..])
    else [s[0]] + JoinBreaks(s[1..])
  }

  function UrlDecode(s: Bytes): Bytes {
    JoinBreaks(Unescape(Replace(s, PLUS, SPACE)))
  }

  // ----- Decoding what was coded -----

  predicate Without(s: Bytes, x: byte) {
    forall i :: 0 <= i < |s| ==> s[i] != x
  }

  lemma {:induction false} EscapeNoPlus(s: Bytes)
    ensures Without(Escape(s), PLUS)
  {
    if s != [] {
      EscapeNoPlus(s[1..]);
    }
  }

  lemma {:induction false} ReplaceBack(s: Bytes, x: byte, y: byte)
    requires Without(s, y)
    ensures Replace(Replace(s, x, y), y, x) == s
  {
    if s != [] {
      ReplaceBack(s[1..], x, y);
      assert Replace(s, x, y)[1..] == Replace(s[1..], x, y);
      assert s == [s[0]] + s[1..];
    }
  }

  lemma HexBack(d: int)
    requires 0 <= d < 16
    ensures IsHex(HexDigit(d)) && HexValue(HexDigit(d)) == d
  {
  }

  lemma UnescapeFirst(c: byte, rest: Bytes)
    ensures Unescape(Escaped(c) + rest) == [c] + Unescape(rest)
  {
    var e := Escaped(c);
    assert (e + rest)[|e|..] == rest;
    HexBack(c / 16);
    HexBack(c % 16);
  }

  lemma {:induction false} UnescapeEscape(s: Bytes)
    ensures Unescape(Escape(s)) == s
  {
    if s != [] {
      UnescapeEscape(s[1..]);
      UnescapeFirst(s[0], Escape(s[1..]));
      assert s == [s[0]] + s[1..];
    }
  }

  /** A line feed never starts what the line break pass makes. */
  lemma {:induction false} JoinLineBreaks(s: Bytes)
    ensures JoinBreaks(LineBreaks(s)) == s
    ensures LineBreaks(s) != [] ==> LineBreaks(s)[0] != LF
  {
    if s != [] {
      var rest := LineBreaks(s[1..]);
      JoinLineBreaks(s[1..]);
      if s[0] == LF {
        assert ([CR, LF] + rest)[2..] == rest;
      } else {
        assert ([s[0]] + rest)[1..] == rest;
      }
      assert s == [s[0]] + s[1..];
    }
  }

  /** Decoding gives back every byte string, whatever carriage returns, line
      feeds, plus and percent signs there are in it. */
  lemma {:induction false} RoundTrip(s: Bytes)
    ensures UrlDecode(UrlEncode(s)) == s
  {
    EscapeNoPlus(LineBreaks(s));
    ReplaceBack(Escape(LineBreaks(s)), SPACE, PLUS);
    UnescapeEscape(LineBreaks(s));
    JoinLineBreaks(s);
  }

  // ----- One pass instead of three -----

  /** What the three passes make of one byte. */
  function CodedByte(c: byte): Bytes {
    if c == SPACE then [PLUS]
    else if c == LF then [PERCENT, 48, 68, PERCENT, 48, 65]
    else Escaped(c)
  }

  function CodedBytes(s: Bytes): Bytes {
    if s == [] then [] else CodedByte(s[0]) + CodedBytes(s[1..])
  }

  lemma {:induction false} EscapeConcat(a: Bytes, b: Bytes)
    ensures Escape(a + b) == Escape(a) + Escape(b)
  {
    if a == [] {
      assert a + b == b;
    } else {
      EscapeConcat(a[1..], b);
      assert (a + b)[1..] == a[1..] + b && (a + b)[0] == a[0];
      Sequences.Assoc(Escaped(a[0]), Escape(a[1..]), Escape(b));
    }
  }

  lemma {:induction false} ReplaceConcat(a: Bytes, b: Bytes, x: byte, y: byte)
    ensures Replace(a + b, x, y) == Replace(a, x, y) + Replace(b, x, y)
  {
    if a == [] {
      assert a + b == b;
    } else {
      ReplaceConcat(a[1..], b, x, y);
      assert (a + b)[1..] == a[1..] + b;
    }
  }

  lemma {:induction false} ReplaceNone(s: Bytes, x: byte, y: byte)
    requires Without(s, x)
    ensures Replace(s, x, y) == s
  {
    if s != [] {
      ReplaceNone(s[1..], x, y);
      assert s == [s[0]] + s[1..];
    }
  }

  lemma {:induction false} FirstByte(c: byte)
    ensures Replace(Escape(if c == LF then [CR, LF] else [c]), SPACE, PLUS) == CodedByte(c)
  {
    if c == LF {
      assert [CR, LF][1..] == [LF];
      assert Escape([LF]) == Escaped(LF) + Escape([]);
      assert Escape([CR, LF]) == Escaped(CR) + Escaped(LF) == CodedByte(LF);
      ReplaceNone(CodedByte(LF), SPACE, PLUS);
    } else {
      assert Escape([c]) == Escaped(c) + Escape([]) == Escaped(c);
      if c == SPACE {
        assert Replace([c], SPACE, PLUS) == [PLUS] + Replace([], SPACE, PLUS);
      } else {
        ReplaceNone(Escaped(c), SPACE, PLUS);
      }
    }
  }

  /** The three passes come to one that looks at each byte by itself. */
  lemma {:induction false} EncodeIsOnePass(s: Bytes)
    ensures UrlEncode(s) == CodedBytes(s)
  {
    if s != [] {
      var first, rest := if s[0] == LF then [CR, LF] else [s[0]], LineBreaks(s[1..]);
      EncodeIsOnePass(s[1..]);
      EscapeConcat(first, rest);
      ReplaceConcat(Escape(first), Escape(rest), SPACE, PLUS);
      FirstByte(s[0]);
    }
  }

  // ----- The form of HTML 4.01 -----

  /** A byte as section 17.13.4.1 of HTML 4.01 writes it: letters and digits as
      they are, a plus sign for a space, and a percent sign and two hexadecimal
      digits for everything else. */
  function FormByte(c: byte): Bytes {
    if IsAlnum(c) then [c]
    else if c == SPACE then [PLUS]
    else [PERCENT, HexDigit(c / 16), HexDigit(c % 16)]
  }

  /** A line break, be it CR LF or a lone LF, is written as CR LF. */
  function FormBytes(s: Bytes): Bytes {
    if s == [] then []
    else if |s| >= 2 && s[0] == CR && s[1] == LF then FormByte(CR) + FormByte(LF) + FormBytes(s[2..])
    else if s[0] == LF then FormByte(CR) + FormByte(LF) + FormBytes(s[1..])
    else FormByte(s[0]) + FormBytes(s[1..])
  }

  /** The hyphen, the full stop, the underscore and the tilde. */
  predicate IsMark(c: byte) { c == 45 || c == 46 || c == 95 || c == 126 }

  predicate NoMarks(s: Bytes) {
    forall i :: 0 <= i < |s| ==> !IsMark(s[i])
  }

  /** No carriage return stands directly before a line feed. */
  predicate NoCrLf(s: Bytes) {
    forall i :: 0 <= i < |s| - 1 ==> !(s[i] == CR && s[i + 1] == LF)
  }

  lemma FrontAndRest(s: Bytes)
    requires s != []
    ensures NoMarks(s) <==> !IsMark(s[0]) && NoMarks(s[1..])
    ensures NoCrLf(s) <==> !(|s| >= 2 && s[0] == CR && s[1] == LF) && NoCrLf(s[1..])
  {
    assert forall i :: 0 < i < |s| ==> s[i] == s[1..][i - 1];
    if NoCrLf(s[1..]) && !(|s| >= 2 && s[0] == CR && s[1] == LF) {
      forall i | 0 <= i < |s| - 1 ensures !(s[i] == CR && s[i + 1] == LF) {
        if i > 0 {
          assert s[1..][i - 1] == s[i] && s[1..][(i - 1) + 1] == s[i + 1];
        }
      }
    }
    if NoCrLf(s) {
      forall i | 0 <= i < |s[1..]| - 1 ensures !(s[1..][i] == CR && s[1..][i + 1] == LF) {
        assert s[1..][i] == s[i + 1] && s[1..][i + 1] == s[(i + 1) + 1];
      }
    }
  }

  lemma SameFront(f: Bytes, a: Bytes, b: Bytes)
    ensures f + a == f + b <==> a == b
  {
    assert (f + a)[|f|..] == a && (f + b)[|f|..] == b;
  }

  /** After CR LF the coder writes a carriage return too many. */
  lemma CrLfDiffers(s: Bytes)
    requires |s| >= 2 && s[0] == CR && s[1] == LF
    ensures CodedBytes(s) != FormBytes(s)
  {
    assert CodedBytes(s) == Escaped(CR) + (CodedByte(LF) + CodedBytes(s[1..][1..]));
    assert CodedBytes(s)[5] == 68 && FormBytes(s)[5] == 65;
  }

  lemma MarkDiffers(s: Bytes)
    requires s != [] && IsMark(s[0])
    ensures CodedBytes(s) != FormBytes(s)
  {
    assert CodedBytes(s)[0] == s[0] && FormBytes(s)[0] == PERCENT;
  }

  /** Any other byte is written the same way. */
  lemma ByteAgrees(c: byte)
    requires !IsMark(c)
    ensures CodedByte(c) == if c == LF then FormByte(CR) + FormByte(LF) else FormByte(c)
  {
  }

  lemma FormFront(s: Bytes)
    requires s != [] && !IsMark(s[0]) && !(|s| >= 2 && s[0] == CR && s[1] == LF)
    ensures FormBytes(s) == CodedByte(s[0]) + FormBytes(s[1..])
  {
    ByteAgrees(s[0]);
  }

  lemma {:induction false} CodedIsForm(s: Bytes)
    ensures CodedBytes(s) == FormBytes(s) <==> NoMarks(s) && NoCrLf(s)
  {
    if s != [] {
      FrontAndRest(s);
      if IsMark(s[0]) {
        MarkDiffers(s);
      } else if |s| >= 2 && s[0] == CR && s[1] == LF {
        CrLfDiffers(s);
      } else {
        CodedIsForm(s[1..]);
        FormFront(s);
        SameFront(CodedByte(s[0]), CodedBytes(s[1..]), FormBytes(s[1..]));
      }
    }
  }

  /** What is coded is that form exactly when the text has none of the four marks,
      which the coder does not escape, and no CR LF, of which it takes the line
      feed alone for the line break. */
  lemma {:induction false} EncodeIsForm(s: Bytes)
    ensures UrlEncode(s) == FormBytes(s) <==> NoMarks(s) && NoCrLf(s)
  {
    EncodeIsOnePass(s);
    CodedIsForm(s);
  }

  /** Two bytes CR LF become three. */
  lemma CrLfGrows()
    ensures UrlEncode([CR, LF]) == FormByte(CR) + FormByte(CR) + FormByte(LF)
            && FormBytes([CR, LF]) == FormByte(CR) + FormByte(LF)
  {
    EncodeIsOnePass([CR, LF]);
    assert [CR, LF][1..] == [LF] && [CR, LF][2..] == [] && [LF][1..] == [];
    assert CodedBytes([LF]) == CodedByte(LF) + CodedBytes([]);
    assert CodedBytes([CR, LF]) == CodedByte(CR) + CodedBytes([LF]);
    assert FormBytes([CR, LF]) == FormByte(CR) + FormByte(LF) + FormBytes([]);
  }
}
