/** Which bytes are which characters: text is exactly the encodings of code points, and the
    classes of bytes that the parsers and the SQL scanner go by are those of their characters. */
module Characters {
  import opened Prelude
  import opened Decimal
  import Uuid
  import SqlLiterals
  import SqlScanner

  // ---- UTF-8 ----

  /** A code point that is not a surrogate. */
  predicate IsScalar(c: nat) {
    c < 0xD800 || 0xE000 <= c < 0x11_0000
  }

  /** The bytes of a code point in UTF-8 (section 3 of RFC 3629). */
  function CharBytes(c: nat): (s: seq<byte>)
    requires IsScalar(c)
    ensures 1 <= |s| <= 4
  {
    if c < 0x80 then [c]
    else if c < 0x800 then [0xC0 + c / 0x40, 0x80 + c % 0x40]
    else if c < 0x1_0000 then [0xE0 + c / 0x1000, 0x80 + c / 0x40 % 0x40, 0x80 + c % 0x40]
    else [0xF0 + c / 0x4_0000, 0x80 + c / 0x1000 % 0x40, 0x80 + c / 0x40 % 0x40, 0x80 + c % 0x40]
  }

  lemma CharWidth(c: nat, rest: seq<byte>)
    requires IsScalar(c)
    ensures Utf8Width(CharBytes(c) + rest) == |CharBytes(c)|
  {
    if c < 0x80 {
      assert (CharBytes(c) + rest)[0] == c;
    } else if c < 0x800 {
      TwoBytes(c, rest);
    } else if c < 0x1_0000 {
      ThreeBytes(c, rest);
    } else {
      FourBytes(c, rest);
    }
  }

  lemma TwoBytes(c: nat, rest: seq<byte>)
    requires 0x80 <= c < 0x800
    ensures Utf8Width(CharBytes(c) + rest) == 2
  {
    var s := CharBytes(c) + rest;
    assert 0xC2 <= s[0] < 0xE0 && IsContinuation(s[1]);
  }

  lemma ThreeBytes(c: nat, rest: seq<byte>)
    requires 0x800 <= c < 0x1_0000 && IsScalar(c)
    ensures Utf8Width(CharBytes(c) + rest) == 3
  {
    var s := CharBytes(c) + rest;
    assert s[0] == 0xE0 + c / 0x1000 && s[1] == 0x80 + c / 0x40 % 0x40 && IsContinuation(s[2]);
    assert 0xE0 <= s[0] < 0xF0 && IsContinuation(s[1]);
    assert s[0] == 0xE0 ==> s[1] >= 0xA0;
    assert s[0] == 0xED ==> s[1] < 0xA0;
  }

  lemma FourBytes(c: nat, rest: seq<byte>)
    requires 0x1_0000 <= c < 0x11_0000
    ensures Utf8Width(CharBytes(c) + rest) == 4
  {
    var s := CharBytes(c) + rest;
    assert s[0] == 0xF0 + c / 0x4_0000 && s[1] == 0x80 + c / 0x1000 % 0x40;
    assert IsContinuation(s[2]) && IsContinuation(s[3]);
    assert 0xF0 <= s[0] < 0xF5 && IsContinuation(s[1]);
    assert s[0] == 0xF0 ==> s[1] >= 0x90;
    assert s[0] == 0xF4 ==> s[1] < 0x90;
  }

  /** The code point whose bytes `s` starts with. */
  function CharOf(s: seq<byte>): (c: int)
    requires s != [] && Utf8Width(s) > 0
  {
    var n := Utf8Width(s);
    if n == 1 then s[0]
    else if n == 2 then Sextet(s[0] - 0xC0, s[1])
    else if n == 3 then Sextet(Sextet(s[0] - 0xE0, s[1]), s[2])
    else Sextet(Sextet(Sextet(s[0] - 0xF0, s[1]), s[2]), s[3])
  }

  /** Six more bits, from a continuation byte. */
  function Sextet(high: int, b: byte): int {
    0x40 * high + (b - 0x80)
  }

  lemma SextetApart(high: nat, b: byte)
    requires IsContinuation(b)
    ensures Sextet(high, b) >= 0 && Sextet(high, b) / 0x40 == high && 0x80 + Sextet(high, b) % 0x40 == b
  {
  }

  lemma WidthIsChar(s: seq<byte>)
    requires s != [] && Utf8Width(s) > 0
    ensures CharOf(s) >= 0 && IsScalar(CharOf(s)) && CharBytes(CharOf(s)) == s[..Utf8Width(s)]
  {
    var n := Utf8Width(s);
    if n == 1 {
    } else if n == 2 {
      SextetApart(s[0] - 0xC0, s[1]);
    } else if n == 3 {
      var high := Sextet(s[0] - 0xE0, s[1]);
      SextetApart(s[0] - 0xE0, s[1]);
      SextetApart(high, s[2]);
      ThreeBack(s, high);
    } else {
      var high := Sextet(s[0] - 0xF0, s[1]);
      SextetApart(s[0] - 0xF0, s[1]);
      SextetApart(high, s[2]);
      SextetApart(Sextet(high, s[2]), s[3]);
      FourBack(s, high, Sextet(high, s[2]));
    }
  }

  lemma ThreeBack(s: seq<byte>, high: nat)
    requires s != [] && Utf8Width(s) == 3 && high == Sextet(s[0] - 0xE0, s[1])
    ensures var c := Sextet(high, s[2]);
      0x800 <= c < 0x1_0000 && IsScalar(c) && c / 0x1000 == s[0] - 0xE0 && c / 0x40 == high
  {
    assert IsContinuation(s[1]) && IsContinuation(s[2]) && 0xE0 <= s[0] < 0xF0;
  }

  lemma FourBack(s: seq<byte>, high: nat, middle: nat)
    requires s != [] && Utf8Width(s) == 4
    requires high == Sextet(s[0] - 0xF0, s[1]) && middle == Sextet(high, s[2])
    ensures var c := Sextet(middle, s[3]);
      0x1_0000 <= c < 0x11_0000 && c / 0x4_0000 == s[0] - 0xF0 && c / 0x1000 == high && c / 0x40 == middle
  {
    assert IsContinuation(s[1]) && IsContinuation(s[2]) && IsContinuation(s[3]) && 0xF0 <= s[0] < 0xF5;
  }

  predicate AllScalar(cs: seq<nat>) {
    forall i | 0 <= i < |cs| :: IsScalar(cs[i])
  }

  function CharsBytes(cs: seq<nat>): seq<byte>
    requires AllScalar(cs)
  {
    if cs == [] then [] else CharBytes(cs[0]) + CharsBytes(cs[1..])
  }

  lemma {:induction false} CharsAreUtf8(cs: seq<nat>)
    requires AllScalar(cs)
    ensures IsUtf8(CharsBytes(cs))
  {
    if cs != [] {
      CharsAreUtf8(cs[1..]);
      CharWidth(cs[0], CharsBytes(cs[1..]));
      assert CharsBytes(cs)[|CharBytes(cs[0])|..] == CharsBytes(cs[1..]);
      hide Utf8Width, CharBytes;
    }
  }

  function CharsOf(s: seq<byte>): (cs: seq<nat>)
    requires IsUtf8(s)
  {
    if s == [] then [] else
      WidthIsChar(s);
      [CharOf(s)] + CharsOf(s[Utf8Width(s)..])
  }

  lemma {:induction false} Utf8IsChars(s: seq<byte>)
    requires IsUtf8(s)
    ensures AllScalar(CharsOf(s)) && CharsBytes(CharsOf(s)) == s
  {
    hide Utf8Width, CharBytes, CharOf;
    if s != [] {
      WidthIsChar(s);
      Utf8IsChars(s[Utf8Width(s)..]);
      assert CharsOf(s)[1..] == CharsOf(s[Utf8Width(s)..]);
    }
  }

  /** Text is what encodes a sequence of code points, and nothing else. */
  lemma Utf8Exactly(s: seq<byte>)
    ensures IsUtf8(s) <==> exists cs | AllScalar(cs) :: CharsBytes(cs) == s
  {
    if IsUtf8(s) {
      Utf8IsChars(s);
    }
    if cs :| AllScalar(cs) && CharsBytes(cs) == s {
      CharsAreUtf8(cs);
    }
  }

  // ---- white space ----

  /** The code points with the property White_Space of the Unicode Standard. */
  predicate IsWhite(c: nat) {
    || 0x9 <= c <= 0xD || 0x2000 <= c <= 0x200A
    || c in {0x20, 0x85, 0xA0, 0x1680, 0x2028, 0x2029, 0x202F, 0x205F, 0x3000}
  }

  /** Trimming takes off white space at either end and stops at any other character. */
  lemma SpacesAreWhite(c: nat, text: seq<byte>)
    requires IsScalar(c)
    ensures SpaceInFront(CharBytes(c) + text) == if IsWhite(c) then |CharBytes(c)| else 0
    ensures SpaceBehind(text + CharBytes(c)) == if IsWhite(c) then |CharBytes(c)| else 0
  {
    SpaceInFrontIs(c, text);
    SpaceBehindIs(c, text);
  }

  lemma SpaceInFrontIs(c: nat, text: seq<byte>)
    requires IsScalar(c)
    ensures SpaceInFront(CharBytes(c) + text) == if IsWhite(c) then |CharBytes(c)| else 0
  {
    var s := CharBytes(c) + text;
    assert s[0] == CharBytes(c)[0];
    assert |CharBytes(c)| > 1 ==> s[1] == CharBytes(c)[1];
    assert |CharBytes(c)| > 2 ==> s[2] == CharBytes(c)[2];
  }

  lemma SpaceBehindIs(c: nat, text: seq<byte>)
    requires IsScalar(c)
    ensures SpaceBehind(text + CharBytes(c)) == if IsWhite(c) then |CharBytes(c)| else 0
  {
    var b := CharBytes(c);
    var s := text + b;
    var k := |s|;
    assert s[k - 1] == b[|b| - 1];
    assert |b| > 1 ==> s[k - 2] == b[|b| - 2];
    assert |b| > 2 ==> s[k - 3] == b[|b| - 3];
  }

  // ---- digits and letters ----

  predicate Between(low: char, b: byte, high: char) {
    low as int <= b <= high as int
  }

  predicate Is(b: byte, c: char) {
    b == c as int
  }

  lemma DigitsAndLetters(b: byte)
    ensures IsDigit(b) <==> Between('0', b, '9')
    ensures Uuid.IsHex(b) <==> Between('0', b, '9') || Between('a', b, 'f')
    ensures SqlScanner.IsIdentifierStart(b) <==> Between('a', b, 'z') || Between('A', b, 'Z') || Is(b, '_')
    ensures SqlScanner.IsIdentifierPart(b) <==>
      Between('a', b, 'z') || Between('A', b, 'Z') || Is(b, '_') || Between('0', b, '9')
    ensures IsSign(b) <==> Is(b, '-') || Is(b, '+')
  {
  }

  lemma HexDigits(d: nat)
    requires d < 16
    ensures Is(Uuid.HexDigit(d), "0123456789abcdef"[d])
    ensures d < 10 ==> Digits(d) == [Uuid.HexDigit(d)]
  {
  }

  /** The scanner pushes a byte as the character with that number: from 0x80 on that takes two bytes. */
  lemma PushedIsChar(b: byte)
    ensures SqlScanner.Pushed(b) == CharBytes(b)
  {
  }

  /** The bytes the scanner looks for. */
  lemma ScannerCharacters()
    ensures Is(SqlScanner.QUESTION, '?') && Is(SqlScanner.COLON, ':') && Is(SqlScanner.NEWLINE, '\n')
    ensures Is(SqlLiterals.QUOTE, '\'') && Is(SqlLiterals.DOUBLE_QUOTE, '\"') && Is(SqlLiterals.MINUS, '-')
    ensures Is(SqlScanner.SLASH, '/') && Is(SqlScanner.STAR, '*')
  {
  }

  predicate InName(b: byte) {
    Between('a', b, 'z') || Between('A', b, 'Z') || Is(b, '_') || Between('0', b, '9')
  }

  /** A name starts behind a single colon with a letter or an underscore, and goes on as long as
      letters, digits and underscores do. */
  lemma NamesAre(sql: seq<byte>, i: nat)
    requires i < |sql|
    ensures SqlScanner.StartsName(sql, i) <==>
      && Is(sql[i], ':') && !(i > 0 && Is(sql[i - 1], ':'))
      && i + 1 < |sql| && InName(sql[i + 1]) && !Between('0', sql[i + 1], '9')
    ensures var end := SqlScanner.IdentifierEnd(sql, i);
      && (forall k | i <= k < end :: InName(sql[k]))
      && (end < |sql| ==> !InName(sql[end]))
  {
    NameRuns(sql, i);
  }

  lemma {:induction false} NameRuns(sql: seq<byte>, i: nat)
    requires i <= |sql|
    ensures var end := SqlScanner.IdentifierEnd(sql, i);
      && (forall k | i <= k < end :: InName(sql[k]))
      && (end < |sql| ==> !InName(sql[end]))
    decreases |sql| - i
  {
    if i < |sql| && InName(sql[i]) {
      NameRuns(sql, i + 1);
    }
  }

  /** Literals in the source are ASCII. */
  lemma AsciiBytes(s: string, i: nat)
    requires i < |s| && s[i] < 128 as char
    ensures Is(Ascii(s)[i], s[i])
  {
  }
}
