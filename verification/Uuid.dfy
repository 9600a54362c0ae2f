/** UUID text. DuckDB keeps a UUID as a signed 128-bit integer whose top bit is
    flipped, so that integer order is UUID order; the text flips it back. */
module Uuid {
  import opened Prelude
  import opened Wire
  import opened Arithmetic

  const DASH: byte := 45

  function HexDigit(d: nat): (b: byte)
    requires d < 16
    ensures IsHex(b) && HexVal(b) == d
  {
    if d < 10 then 48 + d else 87 + d
  }

  predicate IsHex(b: byte) {
    48 <= b <= 57 || 97 <= b <= 102
  }

  function HexVal(b: byte): (d: nat)
    requires IsHex(b)
    ensures d < 16
  {
    if b <= 57 then b - 48 else b - 87
  }

  function Lower(b: byte): byte {
    if 65 <= b <= 90 then b + 32 else b
  }

  /** `n` in `width` lower-case hexadecimal digits. */
  function Hex(n: nat, width: nat): (s: seq<byte>)
    ensures |s| == width && AllHex(s)
  {
    if width == 0 then [] else Hex(n / 16, width - 1) + [HexDigit(n % 16)]
  }

  predicate AllHex(s: seq<byte>) {
    forall i | 0 <= i < |s| :: IsHex(s[i])
  }

  function FromHex(s: seq<byte>): nat
    requires AllHex(s)
  {
    if s == [] then 0 else 16 * FromHex(s[..|s| - 1]) + HexVal(s[|s| - 1])
  }

  function Pow16(k: nat): (r: nat)
    ensures r > 0
  {
    if k == 0 then 1 else 16 * Pow16(k - 1)
  }

  lemma {:induction false} HexFrom(n: nat, width: nat)
    requires n < Pow16(width)
    ensures FromHex(Hex(n, width)) == n
  {
    if width > 0 {
      HexFrom(n / 16, width - 1);
      var s := Hex(n, width);
      assert s[..width - 1] == Hex(n / 16, width - 1);
    }
  }

  lemma {:induction false} FromHexBack(s: seq<byte>)
    requires AllHex(s)
    ensures FromHex(s) < Pow16(|s|) && Hex(FromHex(s), |s|) == s
  {
    if s != [] {
      var high, d := FromHex(s[..|s| - 1]), HexVal(s[|s| - 1]);
      FromHexBack(s[..|s| - 1]);
      assert (16 * high + d) / 16 == high && (16 * high + d) % 16 == d;
      assert HexDigit(d) == s[|s| - 1];
      assert s[..|s| - 1] + [s[|s| - 1]] == s;
    }
  }

  /** The low `k` digits stand behind the others. */
  lemma {:induction false} HexSplit(n: nat, width: nat, k: nat)
    ensures Hex(n, width + k) == Hex(Quotient(n, Pow16(k)), width) + Hex(Remainder(n, Pow16(k)), k)
  {
    if k > 0 {
      hide Quotient, Remainder;
      var low := Remainder(n, Pow16(k));
      LowDigit(n, 16, Pow16(k - 1));
      HexSplit(n / 16, width, k - 1);
      assert Hex(n, width + k) == Hex(n / 16, width + k - 1) + [HexDigit(n % 16)];
      assert Hex(low, k) == Hex(low / 16, k - 1) + [HexDigit(low % 16)];
    }
  }

  lemma PowValues()
    ensures Pow16(4) == 0x1_0000 && Pow16(8) == TWO_32 && Pow16(12) == 0x1_0000_0000_0000
    ensures Pow16(16) == TWO_64
  {
    assert Pow16(8) == TWO_32;
  }

  // ---- text of a UUID, and back ----

  function Display(v: HugeIntParts): (s: seq<byte>)
    ensures |s| == 36 && IsCanonical(s)
  {
    var upper := v.upper + TWO_63;
    Groups(Hex(upper / 0x1_0000_0000, 8), Hex(upper / 0x1_0000 % 0x1_0000, 4), Hex(upper % 0x1_0000, 4),
      Hex(v.lower / 0x1_0000_0000_0000, 4), Hex(v.lower % 0x1_0000_0000_0000, 12))
  }

  /** Five groups of digits with dashes between them. */
  function Groups(a: seq<byte>, b: seq<byte>, c: seq<byte>, d: seq<byte>, e: seq<byte>): (s: seq<byte>)
    requires |a| == 8 && |b| == 4 && |c| == 4 && |d| == 4 && |e| == 12
    requires AllHex(a) && AllHex(b) && AllHex(c) && AllHex(d) && AllHex(e)
    ensures |s| == 36 && IsCanonical(s)
  {
    a + ([DASH] + (b + ([DASH] + (c + ([DASH] + (d + ([DASH] + e)))))))
  }

  /** The form in which UUIDs are shown: lower case, dashes after 8, 12, 16 and 20 digits. */
  predicate IsCanonical(s: seq<byte>) {
    |s| == 36 && forall i | 0 <= i < 36 :: if i in {8, 13, 18, 23} then s[i] == DASH else IsHex(s[i])
  }

  function WithoutDashes(s: seq<byte>): seq<byte> {
    if s == [] then [] else if s[0] == DASH then WithoutDashes(s[1..]) else [Lower(s[0])] + WithoutDashes(s[1..])
  }

  /** Dashes may stand anywhere and letters may be of either case. */
  function Parse(s: seq<byte>): Result<HugeIntParts> {
    var hex := WithoutDashes(s);
    if |hex| != 32 || !AllHex(hex) then Failure(Protocol)
    else
      FromHexBack(hex[..16]);
      FromHexBack(hex[16..]);
      PowValues();
      Success(HugeIntParts(FromHex(hex[..16]) - TWO_63, FromHex(hex[16..])))
  }

  /** The 32 digits of a UUID, and the same digits with the dashes in. */
  function AllDigits(v: HugeIntParts): (h: seq<byte>)
    ensures |h| == 32 && AllHex(h)
  {
    Hex(v.upper + TWO_63, 16) + Hex(v.lower, 16)
  }

  function Dashed(h: seq<byte>): (s: seq<byte>)
    requires |h| == 32 && AllHex(h)
    ensures IsCanonical(s)
  {
    Groups(h[..8], h[8..12], h[12..16], h[16..20], h[20..])
  }

  lemma UpperGroups(n: u64)
    ensures var h := Hex(n, 16);
      h[..8] == Hex(n / 0x1_0000_0000, 8) && h[8..12] == Hex(n / 0x1_0000 % 0x1_0000, 4)
      && h[12..] == Hex(n % 0x1_0000, 4)
  {
    hide Hex, Pow16;
    PowValues();
    var low, mid := n % 0x1_0000, n / 0x1_0000;
    HexSplit(n, 12, 4);
    HexSplit(mid, 8, 4);
    assert mid / 0x1_0000 == n / 0x1_0000_0000;
    var a, b, c := Hex(mid / 0x1_0000, 8), Hex(mid % 0x1_0000, 4), Hex(low, 4);
    assert Hex(n, 16) == a + b + c;
  }

  lemma LowerGroups(n: u64)
    ensures var h := Hex(n, 16);
      h[..4] == Hex(n / 0x1_0000_0000_0000, 4) && h[4..] == Hex(n % 0x1_0000_0000_0000, 12)
  {
    hide Hex, Pow16;
    PowValues();
    HexSplit(n, 4, 12);
  }

  lemma DisplayIsDashed(v: HugeIntParts)
    ensures Display(v) == Dashed(AllDigits(v))
  {
    UpperGroups(v.upper + TWO_63);
    LowerGroups(v.lower);
    hide Hex, Groups;
    var h, u, l := AllDigits(v), Hex(v.upper + TWO_63, 16), Hex(v.lower, 16);
    assert h[..8] == u[..8] && h[8..12] == u[8..12] && h[12..16] == u[12..] && h[16..20] == l[..4] && h[20..] == l[4..];
  }

  lemma {:induction false} SkipDigits(hex: seq<byte>, rest: seq<byte>)
    requires AllHex(hex)
    ensures WithoutDashes(hex + rest) == hex + WithoutDashes(rest)
  {
    if hex == [] {
      assert hex + rest == rest;
    } else {
      SkipDigits(hex[1..], rest);
      assert (hex + rest)[1..] == hex[1..] + rest;
    }
  }

  /** Leaving out a group of digits and its dash leaves the digits. */
  lemma SkipGroup(hex: seq<byte>, rest: seq<byte>)
    requires AllHex(hex)
    ensures WithoutDashes(hex + ([DASH] + rest)) == hex + WithoutDashes(rest)
  {
    SkipDigits(hex, [DASH] + rest);
    assert ([DASH] + rest)[1..] == rest;
  }

  lemma DashesDrop(h: seq<byte>)
    requires |h| == 32 && AllHex(h)
    ensures WithoutDashes(Dashed(h)) == h
  {
    var r4 := h[20..];
    var r3 := h[16..20] + ([DASH] + r4);
    var r2 := h[12..16] + ([DASH] + r3);
    var r1 := h[8..12] + ([DASH] + r2);
    SkipDigits(r4, []);
    assert r4 + [] == r4;
    SkipGroup(h[16..20], r4);
    SkipGroup(h[12..16], r3);
    SkipGroup(h[8..12], r2);
    SkipGroup(h[..8], r1);
    assert h[..8] + (h[8..12] + (h[12..16] + (h[16..20] + r4))) == h;
  }

  /** Parsing the text of a UUID gives its parts. */
  lemma ParseDisplay(v: HugeIntParts)
    ensures Parse(Display(v)) == Success(v)
  {
    hide Hex, FromHex, Dashed, Display, WithoutDashes, Pow16;
    var h := AllDigits(v);
    DisplayIsDashed(v);
    DashesDrop(h);
    assert h[..16] == Hex(v.upper + TWO_63, 16) && h[16..] == Hex(v.lower, 16);
    PowValues();
    HexFrom(v.upper + TWO_63, 16);
    HexFrom(v.lower, 16);
  }

  /** The digits of canonical text. */
  function DigitsOf(s: seq<byte>): (h: seq<byte>)
    requires IsCanonical(s)
    ensures |h| == 32 && AllHex(h) && Dashed(h) == s
  {
    var a, b, c, d, e := s[..8], s[9..13], s[14..18], s[19..23], s[24..];
    var h := a + b + c + d + e;
    assert h[..8] == a && h[8..12] == b && h[12..16] == c && h[16..20] == d && h[20..] == e;
    assert Groups(a, b, c, d, e) == s;
    assert AllHex(a + b + c) && AllHex(d + e) && h == (a + b + c) + (d + e);
    h
  }

  /** Canonical text is the text of what it parses to. */
  lemma DisplayParse(s: seq<byte>)
    requires IsCanonical(s)
    ensures Parse(s).Success? && Display(Parse(s).value) == s
  {
    hide Hex, FromHex, Dashed, Display, WithoutDashes, DigitsOf;
    var h := DigitsOf(s);
    DashesDrop(h);
    var v := Parse(s).value;
    FromHexBack(h[..16]);
    FromHexBack(h[16..]);
    DisplayIsDashed(v);
    assert h[..16] + h[16..] == h;
    assert AllDigits(v) == h;
  }

  /** The same letter in upper case, or the same byte. */
  predicate SameButCase(b: byte, c: byte) {
    b == c || ('a' as int <= c <= 'f' as int && b == c - 32)
  }

  /** Letters may be of either case. */
  lemma {:induction false} AnyCase(s: seq<byte>, canonical: seq<byte>)
    requires |s| == |canonical| && forall i | 0 <= i < |s| :: canonical[i] == DASH || IsHex(canonical[i])
    requires forall i | 0 <= i < |s| :: SameButCase(s[i], canonical[i])
    ensures WithoutDashes(s) == WithoutDashes(canonical)
    ensures Parse(s) == Parse(canonical)
  {
    hide FromHex;
    if s != [] {
      assert SameButCase(s[0], canonical[0]);
      AnyCase(s[1..], canonical[1..]);
    }
  }

  /** Dashes make no difference, wherever they stand. */
  lemma {:induction false} AnyDashes(front: seq<byte>, back: seq<byte>)
    ensures WithoutDashes(front + ([DASH] + back)) == WithoutDashes(front + back)
    ensures Parse(front + ([DASH] + back)) == Parse(front + back)
  {
    hide FromHex;
    var s := front + ([DASH] + back);
    if front == [] {
      assert s == [DASH] + back && s[1..] == back && front + back == back;
    } else {
      AnyDashes(front[1..], back);
      assert s[1..] == front[1..] + ([DASH] + back) && (front + back)[1..] == front[1..] + back;
    }
  }
}
