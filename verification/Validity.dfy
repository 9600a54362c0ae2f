/** Validity masks: one bit per row, least significant bit first, padded with zeros
    to whole 64-bit words. */
module Validity {
  import opened Prelude

  function MaskSize(count: nat): (n: nat)
    ensures count <= 8 * n < count + 64
  {
    (count + 63) / 64 * 8
  }

  /** Bit `k` of `x`. */
  predicate Bit(x: nat, k: nat) {
    if k == 0 then x % 2 == 1 else Bit(x / 2, k - 1)
  }

  /** `x | 1 << k`. */
  function SetBit(x: nat, k: nat): nat {
    if k == 0 then x / 2 * 2 + 1 else SetBit(x / 2, k - 1) * 2 + x % 2
  }

  predicate ValidAt(valid: seq<bool>, i: nat) {
    i < |valid| && valid[i]
  }

  /** The bits of rows `i`, `i + 1`, ..., `i + n - 1`, the first of them lowest. */
  function Pack(valid: seq<bool>, i: nat, n: nat): nat
    decreases n
  {
    if n == 0 then 0 else (if ValidAt(valid, i) then 1 else 0) + 2 * Pack(valid, i + 1, n - 1)
  }

  lemma PackByte(valid: seq<bool>, i: nat)
    ensures Pack(valid, i, 8) < 0x100
  {
    assert Pack(valid, i + 6, 2) < 4;
    assert Pack(valid, i + 4, 4) < 0x10;
    assert Pack(valid, i + 2, 6) < 0x40;
  }

  function Mask(valid: seq<bool>): (bytes: seq<byte>)
    ensures |bytes| == MaskSize(|valid|)
  {
    seq(MaskSize(|valid|), j requires 0 <= j < MaskSize(|valid|) => MaskByte(valid, j))
  }

  function MaskByte(valid: seq<bool>, j: nat): byte {
    PackByte(valid, 8 * j);
    Pack(valid, 8 * j, 8)
  }

  function Unmask(bytes: seq<byte>, count: nat): (valid: seq<bool>)
    requires |bytes| == MaskSize(count)
    ensures |valid| == count
  {
    seq(count, i requires 0 <= i < count => Bit(bytes[i / 8], i % 8))
  }

  lemma {:induction false} PackBit(valid: seq<bool>, i: nat, n: nat, k: nat)
    requires k < n
    ensures Bit(Pack(valid, i, n), k) == ValidAt(valid, i + k)
    decreases n
  {
    if k > 0 {
      PackBit(valid, i + 1, n - 1, k - 1);
    }
  }

  /** The rows are read back, and every padding bit of the mask is clear. */
  lemma MaskRoundTrip(valid: seq<bool>)
    ensures Unmask(Mask(valid), |valid|) == valid
    ensures forall k | |valid| <= k < 8 * |Mask(valid)| :: !Bit(Mask(valid)[k / 8], k % 8)
  {
    forall k | 0 <= k < 8 * |Mask(valid)|
      ensures Bit(Mask(valid)[k / 8], k % 8) == ValidAt(valid, k)
    {
      PackBit(valid, k - k % 8, 8, k % 8);
    }
  }

  /** Taking one more row into account sets the bit of that row if it is valid. */
  lemma {:induction false} PackStep(valid: seq<bool>, m: nat, i: nat, n: nat)
    requires m < |valid|
    ensures Pack(valid[..m + 1], i, n) ==
      if valid[m] && i <= m < i + n then SetBit(Pack(valid[..m], i, n), m - i) else Pack(valid[..m], i, n)
    decreases n
  {
    if n > 0 {
      PackStep(valid, m, i + 1, n - 1);
      assert i != m ==> ValidAt(valid[..m + 1], i) == ValidAt(valid[..m], i);
      if i == m {
        PackNone(valid[..m], i, n);
      }
    }
  }

  lemma {:induction false} PackNone(valid: seq<bool>, i: nat, n: nat)
    requires |valid| <= i
    ensures Pack(valid, i, n) == 0
    decreases n
  {
    if n > 0 {
      PackNone(valid, i + 1, n - 1);
    }
  }

  /** `SetBit` is a bitwise OR: it makes its bit one and leaves the others. */
  lemma {:induction false} SetBitBit(x: nat, k: nat, j: nat)
    ensures Bit(SetBit(x, k), j) == (j == k || Bit(x, j))
  {
    if k > 0 && j > 0 {
      SetBitBit(x / 2, k - 1, j - 1);
    }
  }

  method WriteValidityMask(valid: seq<bool>) returns (mask: array<byte>)
    ensures fresh(mask) && mask[..] == Mask(valid)
  {
    mask := new byte[MaskSize(|valid|)](_ => 0);
    forall j | 0 <= j < mask.Length
      ensures MaskByte(valid[..0], j) == 0
    {
      PackNone(valid[..0], 8 * j, 8);
    }
    for i := 0 to |valid|
      invariant forall j | 0 <= j < mask.Length :: mask[j] == MaskByte(valid[..i], j)
    {
      forall j | 0 <= j < mask.Length
        ensures MaskByte(valid[..i + 1], j) ==
          if valid[i] && j == i / 8 then SetBit(mask[j], i % 8) else mask[j]
      {
        PackStep(valid, i, 8 * j, 8);
      }
      if valid[i] {
        mask[i / 8] := SetBit(mask[i / 8], i % 8);
      }
    }
    assert valid[..|valid|] == valid;
  }

  method ReadValidityMask(bytes: seq<byte>, count: nat) returns (valid: seq<bool>)
    requires |bytes| == MaskSize(count)
    ensures valid == Unmask(bytes, count)
  {
    valid := [];
    for i := 0 to count
      invariant valid == Unmask(bytes, count)[..i]
    {
      valid := valid + [Bit(bytes[i / 8], i % 8)];
    }
  }
}
