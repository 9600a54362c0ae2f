/** The byte-level vocabulary of the protocol. `PutX(x, tail)` is `tail` with the
    bytes of `x` in front of it; `ReadX(bs)` is what a reader makes of `bs`. Each
    `PutX` promises that reading undoes it whatever follows. */
module Wire {
  import opened Prelude
  import Leb128
  import Arithmetic

  const FIELD_END: u16 := 0xFFFF

  // ---- bytes ----

  function ReadByte(bs: seq<byte>): (p: Parsed<byte>)
    ensures Shrinks(p, bs)
  {
    if bs == [] then NoParse(Protocol) else Parse(bs[0], bs[1..])
  }

  function PutByte(b: byte, tail: seq<byte>): (r: seq<byte>)
    ensures ReadByte(r) == Parse(b, tail)
  {
    [b] + tail
  }

  function ReadBytes(n: nat, bs: seq<byte>): (p: Parsed<seq<byte>>)
    ensures p.Parse? ==> |p.rest| == |bs| - n && |p.value| == n && bs == p.value + p.rest
    ensures p.Parse? <==> n <= |bs|
  {
    if n > |bs| then NoParse(Protocol) else Parse(bs[..n], bs[n..])
  }

  function PutBytes(b: seq<byte>, tail: seq<byte>): (r: seq<byte>)
    ensures ReadBytes(|b|, r) == Parse(b, tail)
  {
    assert (b + tail)[..|b|] == b && (b + tail)[|b|..] == tail;
    b + tail
  }

  function ReadBool(bs: seq<byte>): (p: Parsed<bool>)
    ensures Shrinks(p, bs)
  {
    var (b, bs) :- ReadByte(bs);
    if b == 0 then Parse(false, bs) else if b == 1 then Parse(true, bs) else NoParse(Protocol)
  }

  function PutBool(b: bool, tail: seq<byte>): (r: seq<byte>)
    ensures ReadBool(r) == Parse(b, tail)
  {
    PutByte(if b then 1 else 0, tail)
  }

  // ---- field tags ----

  /** The field tag at the front of `bs`, or -1 when two bytes are not there. */
  function Head(bs: seq<byte>): (h: int)
    ensures h <= FIELD_END && (h >= 0 <==> |bs| >= 2)
  {
    if |bs| < 2 then -1 else (bs[0] as int) + 0x100 * (bs[1] as int)
  }

  function ReadFieldId(bs: seq<byte>): (p: Parsed<u16>)
    ensures Shrinks(p, bs)
  {
    if |bs| < 2 then NoParse(Protocol) else Parse(Head(bs), bs[2..])
  }

  function PutFieldId(id: u16, tail: seq<byte>): (r: seq<byte>)
    ensures Head(r) == id && |r| >= 2 && r[2..] == tail
    ensures ReadFieldId(r) == Parse(id, tail)
    ensures ReadTag(id, r) == Parse((), tail)
  {
    var r := [id % 0x100, id / 0x100] + tail;
    assert r[2..] == tail;
    r
  }

  /** Consumes the tag of a required field. */
  function ReadTag(id: u16, bs: seq<byte>): (p: Parsed<()>)
    ensures Shrinks(p, bs)
  {
    var (actual, bs) :- ReadFieldId(bs);
    if actual == id then Parse((), bs) else NoParse(Protocol)
  }

  function ReadEnd(bs: seq<byte>): (p: Parsed<()>)
    ensures Shrinks(p, bs)
  {
    ReadTag(FIELD_END, bs)
  }

  function PutEnd(tail: seq<byte>): (r: seq<byte>)
    ensures Head(r) == FIELD_END && ReadEnd(r) == Parse((), tail)
  {
    PutFieldId(FIELD_END, tail)
  }

  // ---- variable-length integers ----

  function ReadUleb(bs: seq<byte>): (p: Parsed<u128>)
    ensures Shrinks(p, bs)
  {
    Leb128.ReadUleb(bs)
  }

  /** `u64` and `usize` alike. */
  function ReadUleb64(bs: seq<byte>): (p: Parsed<u64>)
    ensures Shrinks(p, bs)
  {
    var (v, bs) :- ReadUleb(bs);
    if v < TWO_64 then Parse(v, bs) else NoParse(Protocol)
  }

  function PutUleb(v: u128, tail: seq<byte>): (r: seq<byte>)
    ensures ReadUleb(r) == Parse(v, tail)
    ensures v < TWO_64 ==> ReadUleb64(r) == Parse(v, tail)
  {
    Leb128.UlebRoundTrip(v, tail);
    Leb128.Uleb(v) + tail
  }

  function ReadSleb(bs: seq<byte>): (p: Parsed<i128>)
    ensures Shrinks(p, bs)
  {
    Leb128.ReadSleb(bs)
  }

  function ReadSleb64(bs: seq<byte>): (p: Parsed<i64>)
    ensures Shrinks(p, bs)
  {
    var (v, bs) :- ReadSleb(bs);
    if -TWO_63 <= v < TWO_63 then Parse(v, bs) else NoParse(Protocol)
  }

  function PutSleb(v: i128, tail: seq<byte>): (r: seq<byte>)
    ensures v >= Leb128.LEAST_SLEB ==> ReadSleb(r) == Parse(v, tail)
    ensures -TWO_63 <= v < TWO_63 ==> ReadSleb64(r) == Parse(v, tail)
  {
    Leb128.SlebRoundTrip(v, tail);
    Leb128.Sleb(v) + tail
  }

  /** A 128-bit value as its two halves. */
  datatype HugeIntParts = HugeIntParts(upper: i64, lower: u64)

  function ReadHugeInt(bs: seq<byte>): (p: Parsed<HugeIntParts>)
    ensures Shrinks(p, bs)
  {
    var (upper, bs) :- ReadSleb64(bs);
    var (lower, bs) :- ReadUleb64(bs);
    Parse(HugeIntParts(upper, lower), bs)
  }

  function PutHugeInt(v: HugeIntParts, tail: seq<byte>): (r: seq<byte>)
    ensures ReadHugeInt(r) == Parse(v, tail)
  {
    PutSleb(v.upper, PutUleb(v.lower, tail))
  }

  // ---- length-prefixed bytes ----

  function ReadBlob(bs: seq<byte>): (p: Parsed<vec<byte>>)
    ensures Shrinks(p, bs)
  {
    var (n, bs) :- ReadUleb64(bs);
    var (b, bs) :- ReadBytes(n, bs);
    Parse(b, bs)
  }

  function PutBlob(b: vec<byte>, tail: seq<byte>): (r: seq<byte>)
    ensures ReadBlob(r) == Parse(b, tail)
  {
    PutUleb(|b|, PutBytes(b, tail))
  }

  function ReadString(bs: seq<byte>): (p: Parsed<text>)
    ensures Shrinks(p, bs)
  {
    var (b, bs) :- ReadBlob(bs);
    if IsUtf8(b) then Parse(b, bs) else NoParse(Error.Utf8)
  }

  function PutString(s: text, tail: seq<byte>): (r: seq<byte>)
    ensures ReadString(r) == Parse(s, tail)
  {
    PutBlob(s, tail)
  }

  /** `n` strings one after another. */
  function ReadStrings(n: nat, bs: seq<byte>): (p: Parsed<seq<text>>)
    ensures p.Parse? ==> |p.value| == n && |p.rest| <= |bs|
  {
    if n == 0 then Parse([], bs)
    else
      var (s, bs) :- ReadString(bs);
      var (ss, bs) :- ReadStrings(n - 1, bs);
      Parse([s] + ss, bs)
  }

  function PutStrings(ss: seq<text>, tail: seq<byte>): (r: seq<byte>)
    ensures ReadStrings(|ss|, r) == Parse(ss, tail)
  {
    if ss == [] then tail else
      assert [ss[0]] + ss[1..] == ss;
      PutString(ss[0], PutStrings(ss[1..], tail))
  }

  function ReadStringList(bs: seq<byte>): (p: Parsed<vec<text>>)
    ensures Shrinks(p, bs)
  {
    var (n, bs) :- ReadUleb64(bs);
    var (ss, bs) :- ReadStrings(n, bs);
    Parse(ss, bs)
  }

  function PutStringList(ss: vec<text>, tail: seq<byte>): (r: seq<byte>)
    ensures ReadStringList(r) == Parse(ss, tail)
  {
    PutUleb(|ss|, PutStrings(ss, tail))
  }

  /** The values read so far followed by those still to come: how a loop that
      pushes onto a vector relates to the recursion that specifies it. */
  function Onto<T>(done: seq<T>, p: Parsed<seq<T>>): Parsed<seq<T>> {
    match p
    case Parse(more, rest) => Parse(done + more, rest)
    case NoParse(e) => NoParse(e)
  }

  // ---- fields that may be absent ----

  /** `Some("")` does not survive: the writer elides it. */
  function NonEmpty(s: Option<text>): Option<text> {
    if s == Some([]) then None else s
  }

  function ReadOptionalString(id: u16, bs: seq<byte>): (p: Parsed<Option<text>>)
    ensures p.Parse? ==> |p.rest| <= |bs|
  {
    if |bs| < 2 then NoParse(Protocol)
    else if Head(bs) != id then Parse(None, bs)
    else
      var bs := bs[2..];
      var (s, bs) :- ReadString(bs);
      Parse(Some(s), bs)
  }

  function PutOptionalString(id: u16, s: Option<text>, tail: seq<byte>): (r: seq<byte>)
    requires Head(tail) > id
    ensures Head(r) >= id
    ensures ReadOptionalString(id, r) == Parse(NonEmpty(s), tail)
  {
    if s.Some? && s.value != [] then PutFieldId(id, PutString(s.value, tail)) else tail
  }

  /** A present string is written even when it is empty. */
  function PutPresentString(id: u16, s: Option<text>, tail: seq<byte>): (r: seq<byte>)
    requires Head(tail) > id
    ensures Head(r) >= id
    ensures ReadOptionalString(id, r) == Parse(s, tail)
  {
    if s.Some? then PutFieldId(id, PutString(s.value, tail)) else tail
  }

  function ReadStringOrEmpty(id: u16, bs: seq<byte>): (p: Parsed<text>)
    ensures p.Parse? ==> |p.rest| <= |bs|
  {
    var (s, bs) :- ReadOptionalString(id, bs);
    Parse(s.GetOr([]), bs)
  }

  function ReadUlebOrZero(id: u16, bs: seq<byte>): (p: Parsed<u64>)
    ensures p.Parse? ==> |p.rest| <= |bs|
    ensures p.Parse? && p.value != 0 ==> |p.rest| < |bs|
  {
    if |bs| < 2 then NoParse(Protocol)
    else if Head(bs) != id then Parse(0, bs)
    else
      var bs := bs[2..];
      ReadUleb64(bs)
  }

  function PutUlebOrZero(id: u16, v: u64, tail: seq<byte>): (r: seq<byte>)
    requires Head(tail) > id
    ensures Head(r) >= id
    ensures ReadUlebOrZero(id, r) == Parse(v, tail)
  {
    if v != 0 then PutFieldId(id, PutUleb(v, tail)) else tail
  }

  function ReadOptionalUleb(id: u16, bs: seq<byte>): (p: Parsed<Option<u64>>)
    ensures p.Parse? ==> |p.rest| <= |bs|
  {
    if |bs| < 2 then NoParse(Protocol)
    else if Head(bs) != id then Parse(None, bs)
    else
      var bs := bs[2..];
      var (v, bs) :- ReadUleb64(bs);
      Parse(Some(v), bs)
  }

  function PutOptionalUleb(id: u16, v: Option<u64>, tail: seq<byte>): (r: seq<byte>)
    requires Head(tail) > id
    ensures Head(r) >= id
    ensures ReadOptionalUleb(id, r) == Parse(v, tail)
  {
    if v.Some? then PutFieldId(id, PutUleb(v.value, tail)) else tail
  }

  // ---- little-endian integers of a fixed width ----

  function Range(n: nat): (r: nat)
    ensures r > 0
  {
    if n == 0 then 1 else 0x100 * Range(n - 1)
  }

  lemma RangeValues()
    ensures Range(1) == TWO_8 && Range(2) == TWO_16 && Range(4) == TWO_32 && Range(8) == TWO_64
  {
    assert Range(4) == TWO_32;
  }

  function Le(n: nat, v: nat): (s: seq<byte>)
    ensures |s| == n
  {
    if n == 0 then [] else [v % 0x100] + Le(n - 1, v / 0x100)
  }

  function FromLe(s: seq<byte>): (v: nat)
    ensures v < Range(|s|)
  {
    if s == [] then 0 else s[0] + 0x100 * FromLe(s[1..])
  }

  lemma {:induction false} LeRoundTrip(n: nat, v: nat)
    requires v < Range(n)
    ensures FromLe(Le(n, v)) == v
  {
    if n > 0 {
      LeRoundTrip(n - 1, v / 0x100);
      assert Le(n, v)[1..] == Le(n - 1, v / 0x100);
    }
  }

  function ReadUnsigned(n: nat, bs: seq<byte>): (p: Parsed<nat>)
    ensures p.Parse? ==> |p.rest| == |bs| - n && p.value < Range(n)
    ensures p.Parse? <==> n <= |bs|
  {
    var (b, bs) :- ReadBytes(n, bs);
    Parse(FromLe(b), bs)
  }

  function ReadSigned(n: nat, bs: seq<byte>): (p: Parsed<int>)
    ensures p.Parse? ==> |p.rest| == |bs| - n && -(Range(n) as int) <= 2 * p.value < Range(n)
    ensures p.Parse? <==> n <= |bs|
  {
    var (v, bs) :- ReadUnsigned(n, bs);
    Parse(if 2 * v < Range(n) then v else v - Range(n), bs)
  }

  /** The low `n` bytes of `v` in two's complement: a value that does not fit
      loses its high bits, as in an `as` cast. */
  function LowBytes(n: nat, v: int): (s: seq<byte>)
    ensures |s| == n
  {
    Le(n, v % Range(n))
  }

  function PutFixed(n: nat, v: int, tail: seq<byte>): (r: seq<byte>)
    ensures |r| == n + |tail|
    ensures 0 <= v < Range(n) ==> ReadUnsigned(n, r) == Parse(v, tail)
    ensures -(Range(n) as int) <= 2 * v < Range(n) ==> ReadSigned(n, r) == Parse(v, tail)
  {
    LeRoundTrip(n, v % Range(n));
    WrapRange(v, Range(n));
    PutBytes(LowBytes(n, v), tail)
  }

  lemma WrapRange(v: int, m: int)
    requires m > 0
    ensures 0 <= v < m ==> v % m == v
    ensures -m <= v < 0 ==> v % m == v + m
  {
    if 0 <= v < m {
      Arithmetic.SmallMod(v, m);
    } else if -m <= v < 0 {
      Arithmetic.SmallMod(v + m, m);
      assert (v + m) % m == v % m;
    }
  }
}
