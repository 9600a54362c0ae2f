/** The writer and the reader: a growing buffer and an offset into fixed bytes.
    A writer method states, for any bytes that may come later, what the buffer
    followed by them is; a reader method agrees with the function of `Wire` on the
    bytes that remained. */
module BinaryIO {
  import opened Prelude
  import opened Wire
  import Leb128

  /** `r` and `rest` are what reading `p` says. */
  ghost predicate Agrees<T>(p: Parsed<T>, r: Result<T>, rest: seq<byte>) {
    match p
    case Parse(v, bs) => r == Success(v) && rest == bs
    case NoParse(e) => r == Failure(e)
  }

  class BinaryWriter {
    var buffer: seq<byte>

    constructor ()
      ensures buffer == []
    {
      buffer := [];
    }

    method WriteByte(b: byte)
      modifies this
      ensures buffer == old(buffer) + [b]
      ensures forall tail {:trigger PutByte(b, tail)} :: buffer + tail == old(buffer) + PutByte(b, tail)
    {
      buffer := buffer + [b];
      Appended([b]);
    }

    method WriteBytes(b: seq<byte>)
      modifies this
      ensures buffer == old(buffer) + b
      ensures forall tail {:trigger PutBytes(b, tail)} :: buffer + tail == old(buffer) + PutBytes(b, tail)
    {
      buffer := buffer + b;
      Appended(b);
    }

    method WriteFieldId(id: u16)
      modifies this
      ensures forall tail {:trigger PutFieldId(id, tail)} :: buffer + tail == old(buffer) + PutFieldId(id, tail)
    {
      buffer := buffer + [id % 0x100, id / 0x100];
      Appended([id % 0x100, id / 0x100]);
    }

    method WriteEnd()
      modifies this
      ensures forall tail {:trigger PutEnd(tail)} :: buffer + tail == old(buffer) + PutEnd(tail)
    {
      WriteFieldId(FIELD_END);
    }

    method WriteBool(b: bool)
      modifies this
      ensures forall tail {:trigger PutBool(b, tail)} :: buffer + tail == old(buffer) + PutBool(b, tail)
    {
      WriteByte(if b then 1 else 0);
    }

    method WriteUleb(value: u128)
      modifies this
      ensures forall tail {:trigger PutUleb(value, tail)} :: buffer + tail == old(buffer) + PutUleb(value, tail)
    {
      var current: nat := value;
      while current >= 0x80
        invariant buffer + Leb128.Uleb(current) == old(buffer) + Leb128.Uleb(value)
      {
        assert Leb128.Uleb(current) == [current % 0x80 + 0x80] + Leb128.Uleb(current / 0x80);
        WriteByte(current % 0x80 + 0x80);
        current := current / 0x80;
      }
      WriteByte(current);
      Appended(Leb128.Uleb(value));
    }

    method WriteSleb(value: i128)
      modifies this
      ensures forall tail {:trigger PutSleb(value, tail)} :: buffer + tail == old(buffer) + PutSleb(value, tail)
    {
      var current: int := value;
      var done := false;
      while !done
        invariant !done ==> buffer + Leb128.Sleb(current) == old(buffer) + Leb128.Sleb(value)
        invariant done ==> buffer == old(buffer) + Leb128.Sleb(value)
        decreases !done, if current < 0 then -current else current
      {
        ghost var was, from := buffer, current;
        var b: int := current % 0x80;
        current := current / 0x80;
        var sign := b >= 0x40;
        done := (current == 0 && !sign) || (current == -1 && sign);
        if !done {
          b := b + 0x80;
          assert Leb128.Sleb(from) == [b] + Leb128.Sleb(current);
        }
        WriteByte(b);
      }
      Appended(Leb128.Sleb(value));
    }

    method WriteBlob(b: vec<byte>)
      modifies this
      ensures forall tail {:trigger PutBlob(b, tail)} :: buffer + tail == old(buffer) + PutBlob(b, tail)
    {
      WriteUleb(|b|);
      WriteBytes(b);
    }

    method WriteString(s: text)
      modifies this
      ensures forall tail {:trigger PutString(s, tail)} :: buffer + tail == old(buffer) + PutString(s, tail)
    {
      WriteBlob(s);
    }

    method WriteStringList(ss: vec<text>)
      modifies this
      ensures forall tail {:trigger PutStringList(ss, tail)} ::
        buffer + tail == old(buffer) + PutStringList(ss, tail)
    {
      WriteUleb(|ss|);
      for i := 0 to |ss|
        invariant forall tail {:trigger PutStringList(ss, tail)} ::
          buffer + PutStrings(ss[i..], tail) == old(buffer) + PutStringList(ss, tail)
      {
        assert ss[i..][0] == ss[i] && ss[i..][1..] == ss[i + 1..];
        WriteString(ss[i]);
      }
    }

    method WriteHugeInt(v: HugeIntParts)
      modifies this
      ensures forall tail {:trigger PutHugeInt(v, tail)} :: buffer + tail == old(buffer) + PutHugeInt(v, tail)
    {
      WriteSleb(v.upper);
      WriteUleb(v.lower);
    }

    /** The `n` little-endian bytes of an integer cast to that width. */
    method WriteFixed(n: nat, v: int)
      modifies this
      ensures buffer == old(buffer) + LowBytes(n, v)
      ensures forall tail {:trigger PutFixed(n, v, tail)} :: buffer + tail == old(buffer) + PutFixed(n, v, tail)
    {
      WriteBytes(LowBytes(n, v));
    }

    method WriteOptionalString(id: u16, s: Option<text>)
      modifies this
      ensures forall tail {:trigger PutOptionalString(id, s, tail)} :: Head(tail) > id ==>
        buffer + tail == old(buffer) + PutOptionalString(id, s, tail)
    {
      if s.Some? && s.value != [] {
        WriteFieldId(id);
        WriteString(s.value);
      }
    }

    method WritePresentString(id: u16, s: Option<text>)
      modifies this
      ensures forall tail {:trigger PutPresentString(id, s, tail)} :: Head(tail) > id ==>
        buffer + tail == old(buffer) + PutPresentString(id, s, tail)
    {
      if s.Some? {
        WriteFieldId(id);
        WriteString(s.value);
      }
    }

    method WriteUlebOrZero(id: u16, v: u64)
      modifies this
      ensures forall tail {:trigger PutUlebOrZero(id, v, tail)} :: Head(tail) > id ==>
        buffer + tail == old(buffer) + PutUlebOrZero(id, v, tail)
    {
      if v != 0 {
        WriteFieldId(id);
        WriteUleb(v);
      }
    }

    method WriteOptionalUleb(id: u16, v: Option<u64>)
      modifies this
      ensures forall tail {:trigger PutOptionalUleb(id, v, tail)} :: Head(tail) > id ==>
        buffer + tail == old(buffer) + PutOptionalUleb(id, v, tail)
    {
      if v.Some? {
        WriteFieldId(id);
        WriteUleb(v.value);
      }
    }

    /** Appending is associative, for every continuation at once. */
    twostate lemma Appended(b: seq<byte>)
      requires buffer == old(buffer) + b
      ensures forall tail {:trigger buffer + tail} :: buffer + tail == old(buffer) + (b + tail)
      ensures forall tail {:trigger old(buffer) + (b + tail)} :: buffer + tail == old(buffer) + (b + tail)
    {
      forall tail
        ensures buffer + tail == old(buffer) + (b + tail)
      {
        assert (old(buffer) + b) + tail == old(buffer) + (b + tail);
      }
    }
  }

  class BinaryReader {
    const bytes: seq<byte>
    var offset: nat

    ghost predicate Valid()
      reads this
    {
      offset <= |bytes|
    }

    ghost function Remaining(): (s: seq<byte>)
      requires Valid()
      reads this
      ensures |s| == |bytes| - offset
    {
      bytes[offset..]
    }

    constructor (bytes: seq<byte>)
      ensures Valid() && Remaining() == bytes && this.bytes == bytes
    {
      this.bytes := bytes;
      this.offset := 0;
    }

    method AssertEof() returns (r: Outcome)
      requires Valid()
      ensures r == if Remaining() == [] then Pass else Fail(Protocol)
    {
      r := if offset == |bytes| then Pass else Fail(Protocol);
    }

    method ReadByte() returns (r: Result<byte>)
      requires Valid()
      modifies this`offset
      ensures Valid() && Agrees(Wire.ReadByte(old(Remaining())), r, Remaining())
    {
      if offset >= |bytes| {
        return Failure(Protocol);
      }
      r := Success(bytes[offset]);
      offset := offset + 1;
    }

    method ReadBytes(n: nat) returns (r: Result<seq<byte>>)
      requires Valid()
      modifies this`offset
      ensures Valid() && Agrees(Wire.ReadBytes(n, old(Remaining())), r, Remaining())
    {
      if offset + n > |bytes| {
        return Failure(Protocol);
      }
      r := Success(bytes[offset..offset + n]);
      assert bytes[offset..offset + n] == Remaining()[..n] && bytes[offset + n..] == Remaining()[n..];
      offset := offset + n;
    }

    method PeekFieldId() returns (r: Result<u16>)
      requires Valid()
      ensures r == if |Remaining()| < 2 then Failure(Protocol) else Success(Head(Remaining()))
    {
      if offset + 2 > |bytes| {
        return Failure(Protocol);
      }
      r := Success((bytes[offset] as int) + 0x100 * (bytes[offset + 1] as int));
    }

    method ReadFieldId() returns (r: Result<u16>)
      requires Valid()
      modifies this`offset
      ensures Valid() && Agrees(Wire.ReadFieldId(old(Remaining())), r, Remaining())
    {
      var id :- PeekFieldId();
      offset := offset + 2;
      r := Success(id);
    }

    /** Consumes the tag that was just peeked. */
    method SkipFieldId()
      requires Valid() && |Remaining()| >= 2
      modifies this`offset
      ensures Valid() && Remaining() == old(Remaining())[2..]
    {
      offset := offset + 2;
    }

    method ReadTag(id: u16) returns (r: Result<()>)
      requires Valid()
      modifies this`offset
      ensures Valid() && Agrees(Wire.ReadTag(id, old(Remaining())), r, Remaining())
    {
      var actual :- ReadFieldId();
      r := if actual == id then Success(()) else Failure(Protocol);
    }

    method ReadEnd() returns (r: Result<()>)
      requires Valid()
      modifies this`offset
      ensures Valid() && Agrees(Wire.ReadEnd(old(Remaining())), r, Remaining())
    {
      r := ReadTag(FIELD_END);
    }

    method ReadBool() returns (r: Result<bool>)
      requires Valid()
      modifies this`offset
      ensures Valid() && Agrees(Wire.ReadBool(old(Remaining())), r, Remaining())
    {
      var b :- ReadByte();
      r := if b == 0 then Success(false) else if b == 1 then Success(true) else Failure(Protocol);
    }

    method ReadUleb() returns (r: Result<u128>)
      requires Valid()
      modifies this`offset
      ensures Valid() && Agrees(Wire.ReadUleb(old(Remaining())), r, Remaining())
    {
      hide Leb128.Shl7;
      var result := 0;
      for i := 0 to Leb128.MAX_BYTES
        invariant Valid() && Leb128.Gathered(i, result)
        invariant Leb128.ReadUlebFrom(Remaining(), i, result) == Wire.ReadUleb(old(Remaining()))
      {
        var b :- ReadByte();
        result := Leb128.Gather(result, i, b);
        if b < 0x80 {
          return Success(result);
        }
      }
      r := Failure(Protocol);
    }

    method ReadUleb64() returns (r: Result<u64>)
      requires Valid()
      modifies this`offset
      ensures Valid() && Agrees(Wire.ReadUleb64(old(Remaining())), r, Remaining())
    {
      var v :- ReadUleb();
      r := if v < TWO_64 then Success(v) else Failure(Protocol);
    }

    method ReadSleb() returns (r: Result<i128>)
      requires Valid()
      modifies this`offset
      ensures Valid() && Agrees(Wire.ReadSleb(old(Remaining())), r, Remaining())
    {
      hide Leb128.Shl7;
      var result := 0;
      for i := 0 to Leb128.MAX_BYTES
        invariant Valid() && Leb128.Gathered(i, result)
        invariant Leb128.ReadSlebFrom(Remaining(), i, result) == Wire.ReadSleb(old(Remaining()))
      {
        var b :- ReadByte();
        result := Leb128.Gather(result, i, b);
        if b < 0x80 {
          return Leb128.Finish(result, i + 1, b);
        }
      }
      r := Failure(Protocol);
    }

    method ReadSleb64() returns (r: Result<i64>)
      requires Valid()
      modifies this`offset
      ensures Valid() && Agrees(Wire.ReadSleb64(old(Remaining())), r, Remaining())
    {
      var v :- ReadSleb();
      r := if -TWO_63 <= v < TWO_63 then Success(v) else Failure(Protocol);
    }

    method ReadHugeInt() returns (r: Result<HugeIntParts>)
      requires Valid()
      modifies this`offset
      ensures Valid() && Agrees(Wire.ReadHugeInt(old(Remaining())), r, Remaining())
    {
      var upper :- ReadSleb64();
      var lower :- ReadUleb64();
      r := Success(HugeIntParts(upper, lower));
    }

    method ReadBlob() returns (r: Result<vec<byte>>)
      requires Valid()
      modifies this`offset
      ensures Valid() && Agrees(Wire.ReadBlob(old(Remaining())), r, Remaining())
    {
      var n :- ReadUleb64();
      var b :- ReadBytes(n);
      r := Success(b);
    }

    method ReadString() returns (r: Result<text>)
      requires Valid()
      modifies this`offset
      ensures Valid() && Agrees(Wire.ReadString(old(Remaining())), r, Remaining())
    {
      var b :- ReadBlob();
      if IsUtf8(b) {
        r := Success(b);
      } else {
        r := Failure(Error.Utf8);
      }
    }

    method ReadStringList() returns (r: Result<vec<text>>)
      requires Valid()
      modifies this`offset
      ensures Valid() && Agrees(Wire.ReadStringList(old(Remaining())), r, Remaining())
    {
      hide Wire.ReadString, Wire.ReadUleb64;
      var n :- ReadUleb64();
      ghost var start := Remaining();
      var ss: seq<text> := [];
      OntoNil(ReadStrings(n, start));
      for i := 0 to n
        invariant Valid() && |ss| == i
        invariant Onto(ss, ReadStrings(n - i, Remaining())) == ReadStrings(n, start)
      {
        StringsStep(ss, n - i, Remaining());
        var s :- ReadString();
        ss := ss + [s];
      }
      assert ss + [] == ss;
      r := Success(ss);
    }

    method ReadUnsigned(n: nat) returns (r: Result<nat>)
      requires Valid()
      modifies this`offset
      ensures Valid() && Agrees(Wire.ReadUnsigned(n, old(Remaining())), r, Remaining())
    {
      var b :- ReadBytes(n);
      r := Success(FromLe(b));
    }

    method ReadSigned(n: nat) returns (r: Result<int>)
      requires Valid()
      modifies this`offset
      ensures Valid() && Agrees(Wire.ReadSigned(n, old(Remaining())), r, Remaining())
    {
      var v :- ReadUnsigned(n);
      r := Success(if 2 * v < Range(n) then v else v - Range(n));
    }

    method ReadOptionalString(id: u16) returns (r: Result<Option<text>>)
      requires Valid()
      modifies this`offset
      ensures Valid() && Agrees(Wire.ReadOptionalString(id, old(Remaining())), r, Remaining())
    {
      var next :- PeekFieldId();
      if next != id {
        return Success(None);
      }
      SkipFieldId();
      var s :- ReadString();
      r := Success(Some(s));
    }

    method ReadStringOrEmpty(id: u16) returns (r: Result<text>)
      requires Valid()
      modifies this`offset
      ensures Valid() && Agrees(Wire.ReadStringOrEmpty(id, old(Remaining())), r, Remaining())
    {
      var s :- ReadOptionalString(id);
      r := Success(s.GetOr([]));
    }

    method ReadUlebOrZero(id: u16) returns (r: Result<u64>)
      requires Valid()
      modifies this`offset
      ensures Valid() && Agrees(Wire.ReadUlebOrZero(id, old(Remaining())), r, Remaining())
    {
      var next :- PeekFieldId();
      if next != id {
        return Success(0);
      }
      SkipFieldId();
      r := ReadUleb64();
    }

    method ReadOptionalUleb(id: u16) returns (r: Result<Option<u64>>)
      requires Valid()
      modifies this`offset
      ensures Valid() && Agrees(Wire.ReadOptionalUleb(id, old(Remaining())), r, Remaining())
    {
      var next :- PeekFieldId();
      if next != id {
        return Success(None);
      }
      SkipFieldId();
      var v :- ReadUleb64();
      r := Success(Some(v));
    }
  }

  lemma OntoNil<T>(p: Parsed<seq<T>>)
    ensures Onto([], p) == p
  {
    if p.Parse? {
      assert [] + p.value == p.value;
    }
  }

  lemma OntoOnto<T>(done: seq<T>, x: T, p: Parsed<seq<T>>)
    ensures Onto(done, Onto([x], p)) == Onto(done + [x], p)
  {
    if p.Parse? {
      assert done + ([x] + p.value) == (done + [x]) + p.value;
    }
  }

  /** What one round of the string loop does to the strings still to come. */
  lemma StringsStep(done: seq<text>, n: nat, bs: seq<byte>)
    requires n > 0
    ensures Onto(done, ReadStrings(n, bs)) ==
      match Wire.ReadString(bs) {
        case Parse(s, rest) => Onto(done + [s], ReadStrings(n - 1, rest))
        case NoParse(e) => NoParse(e)
      }
  {
    var p := Wire.ReadString(bs);
    if p.Parse? {
      OntoOnto(done, p.value, ReadStrings(n - 1, p.rest));
    }
  }
}
