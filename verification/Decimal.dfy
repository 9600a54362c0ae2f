/** Decimal text: printing an unscaled value at a scale, and the two parsers that
    read it back, the strict one of the value constructors and the lenient one of
    the vector encoder. */
module Decimal {
  import opened Prelude
  import opened Arithmetic

  const ZERO: byte := 48
  const DOT: byte := 46
  const MINUS: byte := 45
  const PLUS: byte := 43

  // ---- digits ----

  predicate IsDigit(b: byte) {
    48 <= b <= 57
  }

  predicate AllDigits(s: seq<byte>) {
    forall i | 0 <= i < |s| :: IsDigit(s[i])
  }

  /** The number a digit string denotes, most significant digit first. */
  function NatOf(s: seq<byte>): nat
    requires AllDigits(s)
  {
    if s == [] then 0 else 10 * NatOf(s[..|s| - 1]) + (s[|s| - 1] - ZERO)
  }

  /** The decimal digits of `n`, without leading zeros. */
  function Digits(n: nat): (s: seq<byte>)
    ensures s != [] && AllDigits(s) && NatOf(s) == n
  {
    if n < 10 then [ZERO + n]
    else
      var s := Digits(n / 10) + [ZERO + n % 10];
      assert s[..|s| - 1] == Digits(n / 10);
      s
  }

  function Zeros(n: nat): (s: seq<byte>)
    ensures |s| == n && AllDigits(s)
  {
    seq(n, _ => ZERO)
  }

  /** The digits of `n`, with zeros in front up to the given width. */
  function Padded(n: nat, width: nat): (s: seq<byte>)
    ensures |s| >= width && AllDigits(s)
  {
    var d := Digits(n);
    if |d| < width then Zeros(width - |d|) + d else d
  }

  function Pow10(n: nat): (r: nat)
    ensures r > 0
  {
    if n == 0 then 1 else 10 * Pow10(n - 1)
  }

  // ---- printing ----

  function IntegerText(n: int): seq<byte> {
    if n < 0 then [MINUS] + Digits(-n) else Digits(n)
  }

  /** Negating the least i128 and raising 10 past i128 both overflow. The exponent
      is the scale cast to 32 bits, the width is not. */
  function DecimalToString(value: i128, scale: u64): Result<seq<byte>> {
    if value == -TWO_127 then Failure(Panic)
    else
      var negative := value < 0;
      var abs := if negative then -(value as int) else value as int;
      var sign := if negative then [MINUS] else [];
      if scale == 0 then Success(sign + Digits(abs))
      else if scale % TWO_32 > 38 then Failure(Panic)
      else
        var factor := Pow10(scale % TWO_32);
        Success(sign + Digits(Quotient(abs, factor)) + [DOT] + Padded(Remainder(abs, factor), scale))
  }

  // ---- parsing ----

  predicate IsSpace(b: byte) {
    9 <= b <= 13 || b == 32
  }

  /** The white-space characters of two bytes, U+0085 and U+00A0. */
  predicate IsSpace2(a: byte, b: byte) {
    a == 0xC2 && (b == 0x85 || b == 0xA0)
  }

  /** Those of three bytes: U+1680, U+2000 to U+200A, U+2028, U+2029, U+202F, U+205F, U+3000. */
  predicate IsSpace3(a: byte, b: byte, c: byte) {
    || (a == 0xE1 && b == 0x9A && c == 0x80)
    || (a == 0xE2 && b == 0x80 && (0x80 <= c <= 0x8A || c in {0xA8, 0xA9, 0xAF}))
    || (a == 0xE2 && b == 0x81 && c == 0x9F)
    || (a == 0xE3 && b == 0x80 && c == 0x80)
  }

  /** How many bytes the white-space character that starts `s` takes, if one does. */
  function SpaceInFront(s: seq<byte>): (n: nat)
    ensures n <= |s|
  {
    if |s| >= 1 && IsSpace(s[0]) then 1
    else if |s| >= 2 && IsSpace2(s[0], s[1]) then 2
    else if |s| >= 3 && IsSpace3(s[0], s[1], s[2]) then 3
    else 0
  }

  function SpaceBehind(s: seq<byte>): (n: nat)
    ensures n <= |s|
  {
    var k := |s|;
    if k >= 1 && IsSpace(s[k - 1]) then 1
    else if k >= 2 && IsSpace2(s[k - 2], s[k - 1]) then 2
    else if k >= 3 && IsSpace3(s[k - 3], s[k - 2], s[k - 1]) then 3
    else 0
  }

  function TrimStart(s: seq<byte>): seq<byte>
    decreases |s|
  {
    var n := SpaceInFront(s);
    if n > 0 then TrimStart(s[n..]) else s
  }

  function TrimEnd(s: seq<byte>): seq<byte>
    decreases |s|
  {
    var n := SpaceBehind(s);
    if n > 0 then TrimEnd(s[..|s| - n]) else s
  }

  function Trim(s: seq<byte>): seq<byte> {
    TrimEnd(TrimStart(s))
  }

  /** What precedes the first dot, and what follows it. */
  function SplitDot(s: seq<byte>): (r: (seq<byte>, seq<byte>)) {
    if s == [] then ([], [])
    else if s[0] == DOT then ([], s[1..])
    else
      var (whole, fraction) := SplitDot(s[1..]);
      ([s[0]] + whole, fraction)
  }

  predicate IsSign(b: byte) {
    b == MINUS || b == PLUS
  }

  function StripSign(s: seq<byte>): seq<byte> {
    if s != [] && IsSign(s[0]) then s[1..] else s
  }

  /** Zeros behind the fraction up to the scale. */
  function PadTo(fraction: seq<byte>, scale: nat): (s: seq<byte>)
    ensures |s| >= scale && fraction <= s
  {
    if |fraction| < scale then fraction + Zeros(scale - |fraction|) else fraction
  }

  /** `str::parse::<i128>`: an optional sign and at least one digit, within range. */
  function ParseI128(s: seq<byte>): Result<i128> {
    var digits := StripSign(s);
    if digits == [] || !AllDigits(digits) then Failure(Protocol)
    else
      var v := if s[0] == MINUS then -(NatOf(digits) as int) else NatOf(digits) as int;
      if -TWO_127 <= v < TWO_127 then Success(v) else Failure(Protocol)
  }

  /** `str::parse::<u128>`: as above, but only a plus may come first. */
  function ParseU128(s: seq<byte>): Result<u128> {
    var digits := if s != [] && s[0] == PLUS then s[1..] else s;
    if digits == [] || !AllDigits(digits) || NatOf(digits) >= TWO_128 then Failure(Protocol)
    else Success(NatOf(digits))
  }

  function Negate(negative: bool, v: i128): Result<i128> {
    if !negative then Success(v) else if v == -TWO_127 then Failure(Panic) else Success(-(v as int))
  }

  function WholeOrZero(whole: seq<byte>): seq<byte> {
    if whole == [] then [ZERO] else whole
  }

  /** The strict parser: both parts must be digits. */
  function ParseStrict(value: seq<byte>, scale: u64): Result<i128> {
    var s := Trim(value);
    var negative := s != [] && s[0] == MINUS;
    var (whole, fraction) := SplitDot(StripSign(s));
    if !AllDigits(whole) || !AllDigits(fraction) then Failure(Protocol)
    else
      var unscaled :- ParseI128(WholeOrZero(whole) + PadTo(fraction, scale)[..scale]);
      Negate(negative, unscaled)
  }

  /** The lenient parser leaves the digits to `ParseI128`. Truncating inside a
      multi-byte character aborts. */
  function ParseLenient(value: seq<byte>, scale: u64): Result<i128> {
    var s := Trim(value);
    var negative := s != [] && s[0] == MINUS;
    var (whole, fraction) := SplitDot(StripSign(s));
    var padded := PadTo(fraction, scale);
    if scale < |padded| && IsContinuation(padded[scale]) then Failure(Panic)
    else
      var unscaled :- ParseI128(WholeOrZero(whole) + padded[..scale]);
      Negate(negative, unscaled)
  }

  method ParseDecimalValue(value: seq<byte>, scale: u64) returns (r: Result<i128>)
    ensures r == ParseStrict(value, scale)
  {
    var s := Trim(value);
    var negative := s != [] && s[0] == MINUS;
    var (whole, fraction) := SplitDot(StripSign(s));
    if !AllDigits(whole) || !AllDigits(fraction) {
      return Failure(Protocol);
    }
    var padded := PushZeros(fraction, scale);
    var unscaled :- ParseI128(WholeOrZero(whole) + padded[..scale]);
    r := Negate(negative, unscaled);
  }

  method ParseDecimalString(value: seq<byte>, scale: u64) returns (r: Result<i128>)
    ensures r == ParseLenient(value, scale)
  {
    var s := Trim(value);
    var negative := s != [] && s[0] == MINUS;
    var (whole, fraction) := SplitDot(StripSign(s));
    var padded := PushZeros(fraction, scale);
    if scale < |padded| && IsContinuation(padded[scale]) {
      return Failure(Panic);
    }
    var unscaled :- ParseI128(WholeOrZero(whole) + padded[..scale]);
    r := Negate(negative, unscaled);
  }

  method PushZeros(fraction: seq<byte>, scale: nat) returns (padded: seq<byte>)
    ensures padded == PadTo(fraction, scale)
  {
    padded := fraction;
    while |padded| < scale
      invariant |fraction| <= |padded| && (|fraction| < |padded| ==> |padded| <= scale)
      invariant padded == fraction + Zeros(|padded| - |fraction|)
    {
      padded := padded + [ZERO];
    }
  }

  // ---- printing and parsing undo each other ----

  lemma {:induction false} DigitsBound(n: nat, k: nat)
    requires n < Pow10(k)
    ensures k > 0 ==> |Digits(n)| <= k
  {
    if k > 1 && n >= 10 {
      DigitsBound(n / 10, k - 1);
    }
  }

  lemma {:induction false} ZerosAreNothing(n: nat, s: seq<byte>)
    requires AllDigits(s)
    ensures NatOf(Zeros(n) + s) == NatOf(s)
  {
    var z := Zeros(n) + s;
    if s == [] {
      assert z == Zeros(n);
      if n > 0 {
        assert z[..n - 1] == Zeros(n - 1) + [];
        ZerosAreNothing(n - 1, []);
      }
    } else {
      assert z[..|z| - 1] == Zeros(n) + s[..|s| - 1];
      ZerosAreNothing(n, s[..|s| - 1]);
    }
  }

  /** Below its power of ten a padded number takes exactly the width, and drops its
      last digit when divided by ten. */
  lemma PaddedStep(n: nat, k: nat)
    requires k > 0 && n < Pow10(k)
    ensures |Padded(n, k)| == k
    ensures k > 1 ==> Padded(n, k) == Padded(n / 10, k - 1) + [ZERO + n % 10]
  {
    DigitsBound(n, k);
    if k > 1 {
      DigitsBound(n / 10, k - 1);
      if n < 10 {
        assert Digits(n / 10) == [ZERO];
        assert Zeros(k - 1) == Zeros(k - 2) + [ZERO];
      }
    }
  }

  /** The whole part of a value at a scale, then its fraction. */
  function Rejoin(abs: nat, k: nat): (s: seq<byte>)
    requires k > 0
    ensures AllDigits(s) && s != []
  {
    Digits(Quotient(abs, Pow10(k))) + Padded(Remainder(abs, Pow10(k)), k)
  }

  lemma RejoinStep(abs: nat, k: nat)
    requires k > 0
    ensures |Padded(Remainder(abs, Pow10(k)), k)| == k
    ensures k > 1 ==> Rejoin(abs, k) == Rejoin(abs / 10, k - 1) + [ZERO + abs % 10]
  {
    hide Quotient, Remainder, Digits;
    var n, g := Remainder(abs, Pow10(k)), Pow10(k - 1);
    LowDigit(abs, 10, g);
    PaddedStep(n, k);
    if k > 1 {
      assert Rejoin(abs, k) == Digits(Quotient(abs / 10, g)) + (Padded(n / 10, k - 1) + [ZERO + n % 10]);
    }
  }

  /** Together they denote the unscaled value. */
  lemma {:induction false} Rejoined(abs: nat, k: nat)
    requires k > 0
    ensures |Padded(Remainder(abs, Pow10(k)), k)| == k && NatOf(Rejoin(abs, k)) == abs
  {
    RejoinStep(abs, k);
    var s := Rejoin(abs, k);
    if k == 1 {
      assert Pow10(1) == 10 && Padded(abs % 10, 1) == [ZERO + abs % 10];
      assert s[..|s| - 1] == Digits(abs / 10);
    } else {
      Rejoined(abs / 10, k - 1);
      assert s[..|s| - 1] == Rejoin(abs / 10, k - 1);
    }
  }

  lemma {:induction false} SplitAtDot(whole: seq<byte>, fraction: seq<byte>)
    requires AllDigits(whole)
    ensures SplitDot(whole + [DOT] + fraction) == (whole, fraction)
    ensures SplitDot(whole) == (whole, [])
  {
    var s := whole + [DOT] + fraction;
    if whole == [] {
      assert s[1..] == fraction;
    } else {
      SplitAtDot(whole[1..], fraction);
      assert s[1..] == whole[1..] + [DOT] + fraction;
      assert [whole[0]] + whole[1..] == whole;
      assert s[0] == whole[0] && IsDigit(whole[0]);
    }
  }

  /** What printing produces has nothing to trim, and its sign is in front. */
  lemma Unsigned(negative: bool, body: seq<byte>)
    requires body != [] && IsDigit(body[0]) && IsDigit(body[|body| - 1])
    ensures var s := (if negative then [MINUS] else []) + body;
      Trim(s) == s && StripSign(s) == body && (s[0] == MINUS <==> negative)
  {
  }

  /** Text whose parts are digits parses as the number they denote together. */
  lemma ParsesBack(s: seq<byte>, whole: seq<byte>, fraction: seq<byte>, scale: u64)
    requires Trim(s) == s && s != [] && SplitDot(StripSign(s)) == (whole, fraction)
    requires whole != [] && AllDigits(whole) && AllDigits(fraction) && |fraction| == scale
    requires ParseI128(whole + fraction).Success?
    ensures ParseStrict(s, scale) == Negate(s[0] == MINUS, ParseI128(whole + fraction).value)
    ensures ParseLenient(s, scale) == Negate(s[0] == MINUS, ParseI128(whole + fraction).value)
  {
    hide NatOf, Trim, SplitDot, StripSign, ParseI128, Zeros, Negate;
    var padded := PadTo(fraction, scale);
    assert padded == fraction && padded[..scale] == fraction;
  }

  /** Both parsers return the value that was printed, for every value but the least
      and every scale up to 38. */
  lemma PrintParse(value: i128, scale: u64)
    requires value != -TWO_127 && scale <= 38
    ensures var s := DecimalToString(value, scale);
      s.Success? && ParseStrict(s.value, scale) == Success(value) && ParseLenient(s.value, scale) == Success(value)
  {
    hide *;
    if scale == 0 {
      PrintParseWhole(value);
    } else {
      PrintParseScaled(value, scale);
    }
  }

  lemma PrintParseWhole(value: i128)
    requires value != -TWO_127
    ensures var s := DecimalToString(value, 0);
      s.Success? && ParseStrict(s.value, 0) == Success(value) && ParseLenient(s.value, 0) == Success(value)
  {
    hide Digits, NatOf, SplitDot, Trim, StripSign, ParseStrict, ParseLenient, ParseI128;
    var negative := value < 0;
    var whole := Digits(if negative then -(value as int) else value as int);
    SplitAtDot(whole, []);
    assert whole + [] == whole;
    Unsigned(negative, whole);
    DigitsParse(whole);
    ParsesBack((if negative then [MINUS] else []) + whole, whole, [], 0);
  }

  lemma PrintParseScaled(value: i128, scale: u64)
    requires value != -TWO_127 && 0 < scale <= 38
    ensures var s := DecimalToString(value, scale);
      s.Success? && ParseStrict(s.value, scale) == Success(value) && ParseLenient(s.value, scale) == Success(value)
  {
    hide Quotient, Remainder, Digits, Padded, Pow10, NatOf, SplitDot, Trim, StripSign;
    hide ParseStrict, ParseLenient, ParseI128;
    var negative := value < 0;
    var abs: nat := if negative then -(value as int) else value as int;
    var sign := if negative then [MINUS] else [];
    var factor := Pow10(scale);
    var whole, fraction := Digits(Quotient(abs, factor)), Padded(Remainder(abs, factor), scale);
    Rejoined(abs, scale);
    assert Rejoin(abs, scale) == whole + fraction;
    SplitAtDot(whole, fraction);
    var body := whole + [DOT] + fraction;
    Unsigned(negative, body);
    DigitsParse(whole + fraction);
    ParsesBack(sign + body, whole, fraction, scale);
    assert sign + whole + [DOT] + fraction == sign + body;
  }

  lemma DigitsParse(s: seq<byte>)
    requires s != [] && AllDigits(s) && NatOf(s) < TWO_127
    ensures ParseI128(s) == Success(NatOf(s))
  {
  }

  /** The values that cannot be printed: overflow is the only failure. */
  lemma PrintFails(value: i128, scale: u64)
    ensures DecimalToString(value, scale).Failure? <==>
      value == -TWO_127 || (scale != 0 && scale % TWO_32 > 38)
  {
  }

  /** Whatever the strict parser accepts, the lenient one reads as the same number. */
  lemma StrictIsLenient(value: seq<byte>, scale: u64)
    requires ParseStrict(value, scale).Success?
    ensures ParseLenient(value, scale) == ParseStrict(value, scale)
  {
    var (whole, fraction) := SplitDot(StripSign(Trim(value)));
    var padded := PadTo(fraction, scale);
    if scale < |padded| {
      assert padded == fraction;
      assert IsDigit(fraction[scale]);
    }
  }

  /** The strict parser accepts exactly the text that the lenient one accepts and that has
      nothing but digits before and behind its dot, behind the scale too; then they agree. */
  lemma ParsersAgreeExactlyWhen(value: seq<byte>, scale: u64)
    ensures var (whole, fraction) := SplitDot(StripSign(Trim(value)));
      ParseStrict(value, scale).Success? <==>
      ParseLenient(value, scale).Success? && AllDigits(whole) && AllDigits(fraction)
    ensures ParseStrict(value, scale).Success? ==> ParseLenient(value, scale) == ParseStrict(value, scale)
  {
    if ParseStrict(value, scale).Success? {
      StrictIsLenient(value, scale);
    }
  }

  /** Only the lenient parser takes a second sign: to it, `--5` is 5. */
  lemma LenientTakesTwoSigns()
    ensures ParseStrict([MINUS, MINUS, 53], 0).Failure?
    ensures ParseLenient([MINUS, MINUS, 53], 0) == Success(5)
  {
    var s := [MINUS, MINUS, 53];
    assert Trim(s) == s;
    assert StripSign(s) == [MINUS, 53];
    SplitAtDot([53], []);
    var inner := StripSign(s);
    assert inner[1..] == [53] && [MINUS] + [53] == inner;
    assert SplitDot(inner) == (inner, []);
    assert [MINUS, 53] + PadTo([], 0)[..0] == [MINUS, 53];
    assert StripSign([MINUS, 53]) == [53];
    assert Digits(5) == [53];
    assert !IsDigit([MINUS, 53][0]);
  }

  /** And only the lenient parser drops what lies behind the scale unread: `5.x` is 5. */
  lemma LenientDropsText()
    ensures ParseStrict([53, DOT, 120], 0).Failure?
    ensures ParseLenient([53, DOT, 120], 0) == Success(5)
  {
    var s := [53, DOT, 120];
    assert Trim(s) == s && StripSign(s) == s;
    SplitAtDot([53], [120]);
    assert s == [53] + [DOT] + [120];
    assert [53] + PadTo([120], 0)[..0] == [53];
    assert Digits(5) == [53];
    assert !IsDigit([120][0]);
  }
}
