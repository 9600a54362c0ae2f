/** LEB128 variable-length integers, as in section 7.6 of the DWARF Debugging
    Information Format Version 5: what is written, what is read, and how the two
    relate. Values are 128 bits wide and a reader looks at 19 bytes at most. */
module Leb128 {
  import opened Prelude
  import Arithmetic

  const MAX_BYTES := 19

  /** The least value that reads back: -(2 to the power 125). */
  const LEAST_SLEB := -0x2000_0000_0000_0000_0000_0000_0000_0000

  /** `v` shifted left by `7 * i` bits. */
  function Shl7(v: int, i: nat): (r: int)
    ensures v >= 0 ==> r >= v
    ensures v < 0 ==> r < 0
  {
    if i == 0 then v else 128 * Shl7(v, i - 1)
  }

  function Uleb(v: nat): seq<byte> {
    if v < 0x80 then [v] else [v % 0x80 + 0x80] + Uleb(v / 0x80)
  }

  /** One step of the signed writer: nothing is left to say once the remaining
      value is the sign extension of the byte just taken. */
  predicate SlebDone(v: int) {
    var sign := v % 0x80 >= 0x40;
    (v / 0x80 == 0 && !sign) || (v / 0x80 == -1 && sign)
  }

  function Sleb(v: int): seq<byte>
    decreases if v < 0 then -v else v
  {
    if SlebDone(v) then [v % 0x80] else [v % 0x80 + 0x80] + Sleb(v / 0x80)
  }

  /** What a reader holds after `i` bytes: a word of at most `7 * i` bits. */
  predicate Gathered(i: nat, acc: nat) {
    i <= MAX_BYTES && acc < Shl7(1, i) && acc < TWO_128
  }

  /** `acc` with the seven bits of byte number `i` ORed in above it. Bits shifted
      past the 128-bit word are lost; the others do not overlap `acc`, so that OR
      is a sum. */
  function Gather(acc: nat, i: nat, b: byte): (r: u128)
    requires Gathered(i, acc) && i < MAX_BYTES
    ensures Gathered(i + 1, r)
  {
    GatherFits(acc, i, b % 0x80);
    acc + Shl7(b % 0x80, i) % TWO_128
  }

  function ReadUlebFrom(bs: seq<byte>, i: nat, acc: nat): (p: Parsed<u128>)
    requires Gathered(i, acc)
    ensures p.Parse? ==> |p.rest| < |bs|
    decreases MAX_BYTES - i
  {
    if i == MAX_BYTES || bs == [] then NoParse(Protocol)
    else
      var acc' := Gather(acc, i, bs[0]);
      if bs[0] < 0x80 then Parse(acc', bs[1..]) else ReadUlebFrom(bs[1..], i + 1, acc')
  }

  function ReadUleb(bs: seq<byte>): (p: Parsed<u128>)
    ensures p.Parse? ==> |p.rest| < |bs|
  {
    ReadUlebFrom(bs, 0, 0)
  }

  /** A 128-bit word read as two's complement. */
  function ToSigned(word: u128): (v: i128) {
    if word < TWO_127 then word else word - TWO_128
  }

  /** The value of a word gathered from `i` bytes when `b` was the last of them.
      Extending the sign shifts -1 left by the bits gathered, which overflows once
      there are 128 or more. */
  function Finish(acc: u128, i: nat, b: byte): (r: Result<i128>)
    requires Gathered(i, acc)
  {
    if b < 0x40 then Success(ToSigned(acc))
    else if 7 * i >= 128 then Failure(Panic)
    else
      Shl7Below(i, 18);
      Success(acc - Shl7(1, i))
  }

  function ReadSlebFrom(bs: seq<byte>, i: nat, acc: nat): (p: Parsed<i128>)
    requires Gathered(i, acc)
    ensures p.Parse? ==> |p.rest| < |bs|
    decreases MAX_BYTES - i
  {
    if i == MAX_BYTES || bs == [] then NoParse(Protocol)
    else
      var acc' := Gather(acc, i, bs[0]);
      if bs[0] >= 0x80 then ReadSlebFrom(bs[1..], i + 1, acc')
      else
        match Finish(acc', i + 1, bs[0])
        case Success(v) => Parse(v, bs[1..])
        case Failure(e) => NoParse(e)
  }

  function ReadSleb(bs: seq<byte>): (p: Parsed<i128>)
    ensures p.Parse? ==> |p.rest| < |bs|
  {
    ReadSlebFrom(bs, 0, 0)
  }

  // ---- arithmetic of the shifts ----

  lemma {:induction false} Shl7Sum(a: int, b: int, i: nat)
    ensures Shl7(a + b, i) == Shl7(a, i) + Shl7(b, i)
  {
    if i > 0 {
      Shl7Sum(a, b, i - 1);
    }
  }

  lemma {:induction false} Shl7Mono(a: int, b: int, i: nat)
    requires a <= b
    ensures Shl7(a, i) <= Shl7(b, i)
  {
    Shl7Sum(a, b - a, i);
  }

  lemma {:induction false} Shl7Times128(v: int, i: nat)
    ensures Shl7(128 * v, i) == Shl7(v, i + 1)
  {
    if i > 0 {
      Shl7Times128(v, i - 1);
    }
  }

  lemma {:induction false} Shl7Below(i: nat, j: nat)
    requires i <= j
    ensures Shl7(1, i) <= Shl7(1, j)
    ensures Shl7(1, 18) == 0x4000_0000_0000_0000_0000_0000_0000_0000
    decreases j
  {
    assert Shl7(1, 9) == 0x8000_0000_0000_0000;
    assert Shl7(1, 18) == 0x4000_0000_0000_0000_0000_0000_0000_0000;
    if i < j {
      Shl7Below(i, j - 1);
    }
  }

  lemma {:induction false} Shl7Top(low: nat)
    ensures Shl7(low, 18) == low * 0x4000_0000_0000_0000_0000_0000_0000_0000
  {
    Shl7Below(18, 18);
    if low == 0 {
      Shl7Sum(0, 0, 18);
    } else {
      Shl7Top(low - 1);
      Shl7Sum(low - 1, 1, 18);
    }
  }

  lemma Wrapped(low: nat)
    requires low < 0x80
    ensures low * 0x4000_0000_0000_0000_0000_0000_0000_0000 % TWO_128
            == low % 4 * 0x4000_0000_0000_0000_0000_0000_0000_0000
  {
  }

  lemma GatherFits(acc: nat, i: nat, low: nat)
    requires Gathered(i, acc) && i < MAX_BYTES && low < 0x80
    ensures Gathered(i + 1, acc + Shl7(low, i) % TWO_128)
    ensures i < 18 || Shl7(low, i) < TWO_128 ==> Shl7(low, i) % TWO_128 == Shl7(low, i)
  {
    Shl7Sum(1, low, i);
    Shl7Times128(1, i);
    Shl7Mono(1 + low, 128, i);
    if i < 18 {
      Shl7Below(i + 1, 18);
      Arithmetic.SmallMod(Shl7(low, i), TWO_128);
    } else {
      Shl7Below(18, 18);
      Shl7Top(low);
      Wrapped(low);
    }
  }

  /** A value splits into its low seven bits and the rest, wherever it stands. */
  lemma SplitAt(v: int, i: nat)
    ensures Shl7(v, i) == Shl7(v / 0x80, i + 1) + Shl7(v % 0x80, i)
  {
    Shl7Sum(0x80 * (v / 0x80), v % 0x80, i);
    Shl7Times128(v / 0x80, i);
  }

  // ---- unsigned ----

  /** Gathering a byte that carries the low bits of `v` loses none of them. */
  lemma GatherDigit(v: int, i: nat, acc: nat, b: byte)
    requires Gathered(i, acc) && i < MAX_BYTES && b % 0x80 == v % 0x80
    requires v >= 0 ==> acc + Shl7(v, i) < TWO_128
    requires v < 0 ==> i < 18
    ensures Gather(acc, i, b) + Shl7(v / 0x80, i + 1) == acc + Shl7(v, i)
  {
    SplitAt(v, i);
    GatherFits(acc, i, v % 0x80);
  }

  lemma {:induction false} UlebReads(v: nat, tail: seq<byte>, i: nat, acc: nat)
    requires Gathered(i, acc) && i + |Uleb(v)| <= MAX_BYTES && acc + Shl7(v, i) < TWO_128
    ensures ReadUlebFrom(Uleb(v) + tail, i, acc) == Parse(acc + Shl7(v, i), tail)
  {
    var bs := Uleb(v) + tail;
    GatherDigit(v, i, acc, bs[0]);
    if v < 0x80 {
      assert bs[1..] == tail;
    } else {
      assert bs[1..] == Uleb(v / 0x80) + tail;
      UlebReads(v / 0x80, tail, i + 1, Gather(acc, i, bs[0]));
    }
  }

  /** The encoding of `v` fits `k` bytes exactly when `v` has at most `7 * k` bits. */
  lemma {:induction false} UlebLength(v: nat, k: nat)
    ensures |Uleb(v)| <= k <==> k > 0 && v < Shl7(1, k)
  {
    if k > 1 && v >= 0x80 {
      UlebLength(v / 0x80, k - 1);
    } else if k > 1 {
      Shl7Below(1, k);
    }
  }

  lemma UlebRoundTrip(v: u128, tail: seq<byte>)
    ensures ReadUleb(Uleb(v) + tail) == Parse(v, tail)
    ensures |Uleb(v)| <= MAX_BYTES
    ensures v < TWO_64 ==> |Uleb(v)| <= 10
  {
    Shl7Below(18, 18);
    assert Shl7(1, 19) == 128 * Shl7(1, 18);
    assert Shl7(1, 10) == 0x40_0000_0000_0000_0000;
    UlebLength(v, 19);
    UlebLength(v, 10);
    UlebReads(v, tail, 0, 0);
  }

  /** The value read has no more bits than the bytes consumed carry. */
  lemma {:induction false} UlebConsumes(bs: seq<byte>, i: nat, acc: nat)
    requires Gathered(i, acc) && ReadUlebFrom(bs, i, acc).Parse?
    ensures var p := ReadUlebFrom(bs, i, acc); p.value < Shl7(1, i + |bs| - |p.rest|)
    decreases MAX_BYTES - i
  {
    if bs[0] >= 0x80 {
      UlebConsumes(bs[1..], i + 1, Gather(acc, i, bs[0]));
    }
  }

  /** No byte string shorter than `Uleb(v)` reads back as `v`. */
  lemma UlebMinimal(bs: seq<byte>)
    ensures var p := ReadUleb(bs); p.Parse? ==> |Uleb(p.value)| <= |bs| - |p.rest|
  {
    var p := ReadUleb(bs);
    if p.Parse? {
      UlebConsumes(bs, 0, 0);
      UlebLength(p.value, |bs| - |p.rest|);
    }
  }

  /** No encoding is a proper prefix of another. */
  lemma {:induction false} UlebPrefixFree(a: nat, b: nat)
    requires Uleb(a) <= Uleb(b)
    ensures a == b
  {
    assert Uleb(a)[0] == Uleb(b)[0];
    if a >= 0x80 {
      assert Uleb(a)[1..] == Uleb(a / 0x80) && Uleb(b)[1..] == Uleb(b / 0x80);
      UlebPrefixFree(a / 0x80, b / 0x80);
    }
  }

  // ---- signed ----

  /** The encoding of `v` fits `k` bytes exactly when `v` fits a two's complement
      word of `7 * k` bits. */
  lemma {:induction false} SlebLength(v: int, k: nat)
    ensures |Sleb(v)| <= k <==> k > 0 && Shl7(-64, k - 1) <= v < Shl7(64, k - 1)
    decreases k
  {
    if k > 1 {
      SlebLength(v / 0x80, k - 1);
      Shl7Mono(64, 64, k - 1);
    }
  }

  /** The word that carries `v`, finished at its last byte, is `v` in its place. */
  lemma FinishLast(v: int, i: nat, acc: nat)
    requires SlebDone(v) && Gathered(i, acc) && i < MAX_BYTES
    requires v >= 0 ==> acc + Shl7(v, i) < TWO_127
    requires v < 0 ==> i + 1 < MAX_BYTES
    ensures Finish(Gather(acc, i, v % 0x80), i + 1, v % 0x80) == Success(acc + Shl7(v, i))
  {
    hide Gather, Shl7;
    GatherDigit(v, i, acc, v % 0x80);
    if v >= 0 {
      assert v / 0x80 == 0 && v % 0x80 < 0x40;
      Shl7Sum(0, 0, i + 1);
    } else {
      assert v / 0x80 == -1 && v % 0x80 >= 0x40;
      Shl7Sum(1, -1, i + 1);
      Shl7Sum(0, 0, i + 1);
    }
  }

  lemma {:induction false} SlebReads(v: int, tail: seq<byte>, i: nat, acc: nat)
    requires Gathered(i, acc) && i + |Sleb(v)| <= MAX_BYTES
    requires v >= 0 ==> acc + Shl7(v, i) < TWO_127
    requires v < 0 ==> i + |Sleb(v)| < MAX_BYTES
    ensures ReadSlebFrom(Sleb(v) + tail, i, acc) == Parse(acc + Shl7(v, i), tail)
    decreases |Sleb(v)|
  {
    var bs := Sleb(v) + tail;
    if SlebDone(v) {
      assert bs[1..] == tail;
      FinishLast(v, i, acc);
    } else {
      assert bs[1..] == Sleb(v / 0x80) + tail;
      GatherDigit(v, i, acc, bs[0]);
      SlebReads(v / 0x80, tail, i + 1, Gather(acc, i, bs[0]));
    }
  }

  /** A negative value of 19 bytes drives the reader into the overflowing shift. */
  lemma {:induction false} SlebOverflows(v: int, tail: seq<byte>, i: nat, acc: nat)
    requires v < 0 && Gathered(i, acc) && i + |Sleb(v)| == MAX_BYTES
    ensures ReadSlebFrom(Sleb(v) + tail, i, acc) == NoParse(Panic)
    decreases |Sleb(v)|
  {
    var bs := Sleb(v) + tail;
    if !SlebDone(v) {
      assert bs[1..] == Sleb(v / 0x80) + tail;
      SlebOverflows(v / 0x80, tail, i + 1, Gather(acc, i, bs[0]));
    }
  }

  lemma SlebBounds(v: i128)
    ensures |Sleb(v)| <= MAX_BYTES
    ensures |Sleb(v)| < MAX_BYTES <==> LEAST_SLEB <= v < -LEAST_SLEB
    ensures -TWO_63 <= v < TWO_63 ==> |Sleb(v)| <= 10
  {
    assert Shl7(-64, 9) == 64 * -0x8000_0000_0000_0000 && Shl7(64, 9) == 64 * 0x8000_0000_0000_0000;
    assert Shl7(-64, 17) == LEAST_SLEB && Shl7(64, 17) == -LEAST_SLEB;
    SlebLength(v, 10);
    SlebLength(v, 18);
    SlebLength(v, 19);
  }

  /** The signed round trip holds exactly from `LEAST_SLEB` up. */
  lemma SlebRoundTrip(v: i128, tail: seq<byte>)
    ensures v >= LEAST_SLEB ==> ReadSleb(Sleb(v) + tail) == Parse(v, tail)
    ensures v < LEAST_SLEB ==> ReadSleb(Sleb(v) + tail) == NoParse(Panic)
  {
    SlebBounds(v);
    if v >= LEAST_SLEB {
      SlebReads(v, tail, 0, 0);
    } else {
      SlebOverflows(v, tail, 0, 0);
    }
  }

  lemma HalfWords(acc: nat, i: nat, b: nat)
    requires acc < Shl7(1, i) && b < 0x80
    ensures b < 0x40 ==> acc + Shl7(b, i) < Shl7(64, i)
    ensures b >= 0x40 ==> Shl7(-64, i) <= acc + Shl7(b, i) - Shl7(1, i + 1) < 0
    ensures Shl7(-64, i) == -(Shl7(64, i) as int)
  {
    Shl7Sum(1, b, i);
    Shl7Sum(64, 64, i);
    Shl7Sum(64, -64, i);
    Shl7Sum(0, 0, i);
    Shl7Times128(1, i);
    Shl7Mono(1 + b, if b < 0x40 then 64 else 128, i);
    if b >= 0x40 {
      Shl7Mono(64, b, i);
    }
  }

  /** A word of fewer than 19 bytes, sign-extended, fits those bytes. */
  lemma FinishFits(acc: nat, i: nat, b: byte)
    requires Gathered(i, acc) && i < 18 && b < 0x80
    ensures var v := Finish(Gather(acc, i, b), i + 1, b);
      v.Success? && Shl7(-64, i) <= v.value < Shl7(64, i)
  {
    var word := Gather(acc, i, b);
    assert word == acc + Shl7(b, i) by {
      assert b % 0x80 == b;
      GatherFits(acc, i, b);
    }
    HalfWords(acc, i, b);
    assert Shl7(64, i) < TWO_127 by {
      Shl7Sum(64, 64, i);
      Shl7Times128(1, i);
      Shl7Below(i + 1, 18);
    }
  }

  lemma {:induction false} SlebConsumes(bs: seq<byte>, i: nat, acc: nat)
    requires Gathered(i, acc) && ReadSlebFrom(bs, i, acc).Parse?
    ensures var p := ReadSlebFrom(bs, i, acc); var k := i + |bs| - |p.rest|;
      k <= MAX_BYTES && (k < MAX_BYTES ==> Shl7(-64, k - 1) <= p.value < Shl7(64, k - 1))
    decreases MAX_BYTES - i
  {
    if bs[0] >= 0x80 {
      SlebConsumes(bs[1..], i + 1, Gather(acc, i, bs[0]));
    } else if i < 18 {
      FinishFits(acc, i, bs[0]);
    }
  }

  /** No byte string shorter than `Sleb(v)` reads back as `v`. */
  lemma SlebMinimal(bs: seq<byte>)
    ensures var p := ReadSleb(bs); p.Parse? ==> |Sleb(p.value)| <= |bs| - |p.rest|
  {
    var p := ReadSleb(bs);
    if p.Parse? {
      SlebConsumes(bs, 0, 0);
      SlebLength(p.value, |bs| - |p.rest|);
      SlebBounds(p.value);
    }
  }

  /** No signed encoding is a proper prefix of another. */
  lemma {:induction false} SlebPrefixFree(a: int, b: int)
    requires Sleb(a) <= Sleb(b)
    ensures a == b
    decreases |Sleb(a)|
  {
    assert Sleb(a)[0] == Sleb(b)[0];
    if !SlebDone(a) {
      assert Sleb(a)[1..] == Sleb(a / 0x80) && Sleb(b)[1..] == Sleb(b / 0x80);
      SlebPrefixFree(a / 0x80, b / 0x80);
    }
  }
}
