/** What numeric text means to the parsers: the number that its digits denote, shifted by the
    scale, with everything that may surround them. */
module DecimalDenotes {
  import opened Prelude
  import opened Decimal
  import opened Characters

  // ---- digits ----

  lemma {:induction false} NatOfConcat(a: seq<byte>, b: seq<byte>)
    requires AllDigits(a) && AllDigits(b)
    ensures AllDigits(a + b) && NatOf(a + b) == NatOf(a) * Pow10(|b|) + NatOf(b)
    decreases |b|
  {
    var s := a + b;
    if b == [] {
      assert s == a;
    } else {
      var front := b[..|b| - 1];
      NatOfConcat(a, front);
      assert s[..|s| - 1] == a + front;
      Shift(NatOf(a), Pow10(|front|), NatOf(front), s[|s| - 1] - ZERO);
    }
  }

  lemma Shift(a: nat, p: nat, f: nat, d: nat)
    ensures 10 * (a * p + f) + d == a * (10 * p) + (10 * f + d)
  {
  }

  lemma {:induction false} NatOfZeros(n: nat)
    ensures NatOf(Zeros(n)) == 0
  {
    ZerosAreNothing(n, []);
    assert Zeros(n) + [] == Zeros(n);
    assert NatOf([]) == 0;
  }

  // ---- integers ----

  /** An optional sign. */
  predicate IsSignText(sign: seq<byte>) {
    sign == [] || (|sign| == 1 && IsSign(sign[0]))
  }

  function Signed(sign: seq<byte>, n: nat): int {
    if sign != [] && sign[0] == '-' as int then -(n as int) else n
  }

  /** A sign or none and one digit or more, leading zeros or not, parse as the number they denote,
      provided it is in range; for unsigned numbers there is no minus. */
  lemma IntegerDenotes(sign: seq<byte>, digits: seq<byte>)
    requires IsSignText(sign) && AllDigits(digits)
    ensures var n := Signed(sign, NatOf(digits));
      ParseI128(sign + digits) ==
      if digits != [] && -TWO_127 <= n < TWO_127 then Success(n) else Failure(Protocol)
    ensures ParseU128(sign + digits) ==
      if digits != [] && NatOf(digits) < TWO_128 && (sign == [] || sign[0] == '+' as int) then Success(NatOf(digits))
      else Failure(Protocol)
  {
    hide NatOf;
    var s := sign + digits;
    if sign == [] {
      assert s == digits;
    } else {
      assert s[0] == sign[0] && s[1..] == digits;
    }
  }

  // ---- white space around ----

  predicate AllWhite(cs: seq<nat>) {
    AllScalar(cs) && forall i | 0 <= i < |cs| :: IsWhite(cs[i])
  }

  lemma {:induction false} TrimsFront(cs: seq<nat>, s: seq<byte>)
    requires AllWhite(cs)
    ensures TrimStart(CharsBytes(cs) + s) == TrimStart(s)
  {
    hide CharBytes, SpaceInFront;
    if cs == [] {
      assert CharsBytes(cs) + s == s;
    } else {
      var more := CharsBytes(cs[1..]) + s;
      assert CharsBytes(cs) + s == CharBytes(cs[0]) + more;
      SpacesAreWhite(cs[0], more);
      TrimsFront(cs[1..], s);
      assert (CharBytes(cs[0]) + more)[|CharBytes(cs[0])|..] == more;
    }
  }

  lemma {:induction false} CharsSplit(a: seq<nat>, b: seq<nat>)
    requires AllScalar(a) && AllScalar(b)
    ensures AllScalar(a + b) && CharsBytes(a + b) == CharsBytes(a) + CharsBytes(b)
  {
    hide CharBytes;
    if a == [] {
      assert a + b == b;
    } else {
      CharsSplit(a[1..], b);
      assert (a + b)[1..] == a[1..] + b;
    }
  }

  lemma {:induction false} TrimsBehind(cs: seq<nat>, s: seq<byte>)
    requires AllWhite(cs)
    ensures TrimEnd(s + CharsBytes(cs)) == TrimEnd(s)
    decreases |cs|
  {
    hide CharBytes, SpaceBehind;
    if cs == [] {
      assert s + CharsBytes(cs) == s;
    } else {
      var front, last := cs[..|cs| - 1], cs[|cs| - 1];
      CharsSplit(front, [last]);
      assert front + [last] == cs && CharsBytes([last]) == CharBytes(last) + CharsBytes([]);
      assert CharsBytes([last]) == CharBytes(last);
      var more := s + CharsBytes(front);
      assert s + CharsBytes(cs) == more + CharBytes(last);
      SpacesAreWhite(last, more);
      TrimsBehind(front, s);
      assert (more + CharBytes(last))[..|more|] == more;
    }
  }

  /** What starts and ends with visible ASCII characters is not trimmed, and what is around it is. */
  lemma TrimIs(before: seq<nat>, body: seq<byte>, after: seq<nat>)
    requires AllWhite(before) && AllWhite(after)
    requires body != [] ==> Visible(body[0]) && Visible(body[|body| - 1])
    ensures Trim(CharsBytes(before) + body + CharsBytes(after)) == body
  {
    hide TrimStart, TrimEnd, CharsBytes;
    var tail := body + CharsBytes(after);
    assert CharsBytes(before) + body + CharsBytes(after) == CharsBytes(before) + tail;
    TrimsFront(before, tail);
    TrimsBehind(after, body);
    if body == [] {
      assert [] + CharsBytes(after) == CharsBytes(after);
      assert CharsBytes(after) + [] == CharsBytes(after);
      TrimsFront(after, []);
      Untrimmed([]);
      assert tail == CharsBytes(after);
    } else {
      assert tail[0] == body[0];
      Untrimmed(tail);
      Untrimmed(body);
    }
  }

  predicate Visible(b: byte) {
    33 <= b < 127
  }

  lemma Untrimmed(s: seq<byte>)
    ensures s == [] || Visible(s[0]) ==> TrimStart(s) == s
    ensures s == [] || Visible(s[|s| - 1]) ==> TrimEnd(s) == s
  {
  }

  // ---- decimals ----

  /** `whole` and `fraction` as one number with `scale` digits behind the point; further digits are
      cut off, missing ones are zeros. */
  function Unscaled(whole: seq<byte>, fraction: seq<byte>, scale: nat): nat
    requires AllDigits(whole) && AllDigits(fraction)
  {
    if |fraction| <= scale then NatOf(whole) * Pow10(scale) + NatOf(fraction) * Pow10(scale - |fraction|)
    else NatOf(whole) * Pow10(scale) + NatOf(fraction[..scale])
  }

  lemma PaddedDenotes(whole: seq<byte>, fraction: seq<byte>, scale: u64)
    requires AllDigits(whole) && AllDigits(fraction)
    ensures var digits := WholeOrZero(whole) + PadTo(fraction, scale)[..scale];
      digits != [] && AllDigits(digits) && NatOf(digits) == Unscaled(whole, fraction, scale)
  {
    hide NatOf;
    var first, padded := WholeOrZero(whole), PadTo(fraction, scale)[..scale];
    FirstDigits(whole);
    if |fraction| <= scale {
      assert padded == fraction + Zeros(scale - |fraction|);
      NatOfConcat(fraction, Zeros(scale - |fraction|));
      NatOfZeros(scale - |fraction|);
    } else {
      assert padded == fraction[..scale];
    }
    NatOfConcat(first, padded);
  }

  lemma FirstDigits(whole: seq<byte>)
    requires AllDigits(whole)
    ensures AllDigits(WholeOrZero(whole)) && NatOf(WholeOrZero(whole)) == NatOf(whole)
  {
    assert NatOf([]) == 0;
    assert [ZERO][..0] == [];
    assert NatOf([ZERO]) == 0;
  }

  /** What stands behind the whole part: nothing, or a point and digits, if any. */
  function Behind(point: bool, fraction: seq<byte>): seq<byte> {
    if point then [DOT] + fraction else []
  }

  lemma {:induction false} SplitsAtPoint(whole: seq<byte>, point: bool, fraction: seq<byte>)
    requires AllDigits(whole) && (point || fraction == [])
    ensures SplitDot(whole + Behind(point, fraction)) == (whole, fraction)
  {
    var s := whole + Behind(point, fraction);
    if whole == [] {
      assert s == Behind(point, fraction);
      assert point ==> s[1..] == fraction;
    } else {
      SplitsAtPoint(whole[1..], point, fraction);
      assert s[1..] == whole[1..] + Behind(point, fraction);
      assert IsDigit(s[0]) && s[0] != DOT;
      assert [whole[0]] + whole[1..] == whole;
    }
  }

  /** White space, a sign or none, digits, a point and digits if any, and white space again: both
      parsers read the number at the scale, whatever parts are empty, unless it is too large. */
  lemma DecimalDenotes(before: seq<nat>, sign: seq<byte>, whole: seq<byte>, point: bool, fraction: seq<byte>,
                       after: seq<nat>, scale: u64)
    requires AllWhite(before) && AllWhite(after) && IsSignText(sign)
    requires AllDigits(whole) && AllDigits(fraction) && (point || fraction == [])
    ensures var s := CharsBytes(before) + (sign + (whole + Behind(point, fraction))) + CharsBytes(after);
      var n := Unscaled(whole, fraction, scale);
      ParseStrict(s, scale) == (if n < TWO_127 then Success(Signed(sign, n)) else Failure(Protocol))
      && ParseLenient(s, scale) == ParseStrict(s, scale)
  {
    hide NatOf, Trim, SplitDot, CharsBytes, ParseI128, PadTo, Unscaled;
    var number := whole + Behind(point, fraction);
    var body := sign + number;
    Edges(sign, whole, point, fraction);
    TrimIs(before, body, after);
    SignStripped(sign, whole, point, fraction);
    SplitsAtPoint(whole, point, fraction);
    PaddedDenotes(whole, fraction, scale);
    var digits := WholeOrZero(whole) + PadTo(fraction, scale)[..scale];
    IntegerDenotes([], digits);
    assert [] + digits == digits;
    NoContinuation(fraction, scale);
  }

  lemma NoContinuation(fraction: seq<byte>, scale: u64)
    requires AllDigits(fraction)
    ensures var padded := PadTo(fraction, scale);
      scale < |padded| ==> !IsContinuation(padded[scale])
  {
  }

  lemma Edges(sign: seq<byte>, whole: seq<byte>, point: bool, fraction: seq<byte>)
    requires IsSignText(sign) && AllDigits(whole) && AllDigits(fraction)
    ensures var body := sign + (whole + Behind(point, fraction));
      forall i | 0 <= i < |body| :: Visible(body[i])
  {
  }

  lemma SignStripped(sign: seq<byte>, whole: seq<byte>, point: bool, fraction: seq<byte>)
    requires IsSignText(sign) && AllDigits(whole) && AllDigits(fraction)
    ensures var number := whole + Behind(point, fraction);
      && StripSign(sign + number) == number
      && (sign + number != [] && (sign + number)[0] == MINUS <==> sign != [] && sign[0] == MINUS)
  {
    var number := whole + Behind(point, fraction);
    if sign == [] {
      assert sign + number == number;
      if number != [] {
        assert number[0] == (if whole != [] then whole[0] else DOT);
      }
    } else {
      assert (sign + number)[0] == sign[0] && (sign + number)[1..] == number;
    }
  }
}
