/** Machine integers, byte strings and the result types shared by every module. */
module Prelude {

  const TWO_8 := 0x100
  const TWO_16 := 0x1_0000
  const TWO_31 := 0x8000_0000
  const TWO_32 := 0x1_0000_0000
  const TWO_63 := 0x8000_0000_0000_0000
  const TWO_64 := 0x1_0000_0000_0000_0000
  const TWO_127 := 0x8000_0000_0000_0000_0000_0000_0000_0000
  const TWO_128 := 0x1_0000_0000_0000_0000_0000_0000_0000_0000

  type byte = x: int | 0 <= x < 0x100
  type u16 = x: int | 0 <= x < 0x1_0000
  type u32 = x: int | 0 <= x < 0x1_0000_0000
  type i32 = x: int | -0x8000_0000 <= x < 0x8000_0000
  type u64 = x: int | 0 <= x < 0x1_0000_0000_0000_0000
  type i64 = x: int | -0x8000_0000_0000_0000 <= x < 0x8000_0000_0000_0000
  type u128 = x: int | 0 <= x < 0x1_0000_0000_0000_0000_0000_0000_0000_0000
  type i128 = x: int
    | -0x8000_0000_0000_0000_0000_0000_0000_0000 <= x < 0x8000_0000_0000_0000_0000_0000_0000_0000

  /** A growable array: its length fits `usize`, which is 64 bits wide. */
  type vec<T> = s: seq<T> | |s| < 0x1_0000_0000_0000_0000

  /** A UTF-8 string, as the bytes it holds. */
  type text = s: seq<byte> | |s| < 0x1_0000_0000_0000_0000 && IsUtf8(s)

  datatype Option<+T> = None | Some(value: T) {
    function GetOr(default: T): T {
      match this
      case None => default
      case Some(v) => v
    }
  }

  /** The error variants of the crate. `Panic` stands for an abort: an index or
      slice out of range, or an arithmetic overflow in a checked build. */
  datatype Error = Protocol | Server | Unsupported | Utf8 | Panic

  datatype Result<+T> = Success(value: T) | Failure(error: Error) {
    predicate IsFailure() { Failure? }
    function PropagateFailure<U>(): Result<U>
      requires Failure?
    {
      Failure(error)
    }
    function Extract(): T
      requires Success?
    {
      value
    }
  }

  datatype Outcome = Pass | Fail(error: Error) {
    predicate IsFailure() { Fail? }
    function PropagateFailure(): Outcome
      requires Fail?
    {
      this
    }
  }

  /** What a reader makes of a byte string: a value and the bytes it left over,
      or an error. */
  datatype Parsed<+T> = Parse(value: T, rest: seq<byte>) | NoParse(error: Error) {
    predicate IsFailure() { NoParse? }
    function PropagateFailure<U>(): Parsed<U>
      requires NoParse?
    {
      NoParse(error)
    }
    function Extract(): (T, seq<byte>)
      requires Parse?
    {
      (value, rest)
    }
  }

  /** A successful read that consumed at least one byte. */
  predicate Shrinks<T>(p: Parsed<T>, bs: seq<byte>) {
    p.Parse? ==> |p.rest| < |bs|
  }

  /** The values made so far, then those still to be made: how a loop that pushes onto a
      vector relates to the recursion that specifies it. */
  function After<T>(done: seq<T>, r: Result<seq<T>>): Result<seq<T>> {
    match r
    case Success(more) => Success(done + more)
    case Failure(e) => Failure(e)
  }

  lemma AfterNone<T>(r: Result<seq<T>>)
    ensures After([], r) == r
  {
    if r.Success? {
      assert [] + r.value == r.value;
    }
  }

  lemma AfterOne<T>(done: seq<T>, x: T, r: Result<seq<T>>)
    ensures After(done, After([x], r)) == After(done + [x], r)
  {
    if r.Success? {
      assert done + ([x] + r.value) == (done + [x]) + r.value;
    }
  }

  function FromOption<T>(o: Option<T>, error: Error): Result<T> {
    match o
    case None => Failure(error)
    case Some(v) => Success(v)
  }

  /** The length in bytes of the well-formed code point that starts `s`, or 0
      (Table 3-7 of the Unicode Standard). */
  function Utf8Width(s: seq<byte>): (n: nat)
    requires s != []
    ensures n <= |s|
  {
    var b := s[0];
    if b < 0x80 then 1
    else if b < 0xC2 then 0
    else if b < 0xE0 then
      if |s| >= 2 && IsContinuation(s[1]) then 2 else 0
    else if b < 0xF0 then
      if |s| >= 3 && IsContinuation(s[1]) && IsContinuation(s[2])
         && (b == 0xE0 ==> s[1] >= 0xA0) && (b == 0xED ==> s[1] < 0xA0) then 3 else 0
    else if b < 0xF5 then
      if |s| >= 4 && IsContinuation(s[1]) && IsContinuation(s[2]) && IsContinuation(s[3])
         && (b == 0xF0 ==> s[1] >= 0x90) && (b == 0xF4 ==> s[1] < 0x90) then 4 else 0
    else 0
  }

  predicate IsContinuation(b: byte) {
    0x80 <= b < 0xC0
  }

  predicate IsUtf8(s: seq<byte>) {
    s == [] || (var n := Utf8Width(s); n > 0 && IsUtf8(s[n..]))
  }

  predicate IsAscii(s: seq<byte>) {
    forall i | 0 <= i < |s| :: s[i] < 0x80
  }

  /** The bytes of a literal written in ASCII. */
  function Ascii(s: string): (bytes: seq<byte>)
    ensures |bytes| == |s|
  {
    seq(|s|, i requires 0 <= i < |s| => s[i] as int % 0x100)
  }

  lemma {:induction false} AsciiIsUtf8(s: seq<byte>)
    requires IsAscii(s)
    ensures IsUtf8(s)
  {
    if s != [] {
      AsciiIsUtf8(s[1..]);
    }
  }
}
