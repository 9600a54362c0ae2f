/** The wire form of a column does not depend on empty aliases: a type and its
    normal form lay out, accept and read back the same values. */
module VectorNorm {
  import opened Prelude
  import opened Wire
  import opened LogicalTypes
  import opened TypeCodec
  import opened Values
  import opened FixedCodec
  import DecimalText = Decimal
  import Uuid
  import opened Vectors
  import opened VectorRoundTrips

  lemma {:induction false} NormChildAt(cs: seq<ChildType>, k: nat)
    requires k < |cs|
    ensures NormChildren(cs)[k] == ChildType(cs[k].name, Norm(cs[k].logicalType))
  {
    if k > 0 {
      NormChildAt(cs[1..], k - 1);
    }
  }

  lemma {:induction false} NormTypeAt(ts: seq<LogicalType>, k: nat)
    requires k < |ts|
    ensures NormTypes(ts)[k] == Norm(ts[k])
  {
    if k > 0 {
      NormTypeAt(ts[1..], k - 1);
    }
  }

  /** What the accessors see of a normal form. */
  lemma NormAccessors(t: LogicalType)
    ensures Norm(t).id == t.id
    ensures GetEnumValues(Norm(t)) == GetEnumValues(t)
    ensures GetDecimalWidthAndScale(Norm(t)) == GetDecimalWidthAndScale(t)
    ensures GetArraySize(Norm(t)) == GetArraySize(t)
    ensures GetPhysicalType(Norm(t)) == GetPhysicalType(t)
  {
  }

  lemma NormChild(t: LogicalType)
    ensures GetChildType(t).Success? ==> GetChildType(Norm(t)) == Success(Norm(GetChildType(t).value))
    ensures GetChildType(t).Failure? ==> GetChildType(Norm(t)) == GetChildType(t)
  {
  }

  lemma NormStructChildren(t: LogicalType)
    ensures GetStructChildren(t).Success? ==>
      (GetStructChildren(Norm(t)).Success?
       && SameUpToNorm(GetStructChildren(t).value, GetStructChildren(Norm(t)).value))
    ensures GetStructChildren(t).Failure? ==> GetStructChildren(Norm(t)) == GetStructChildren(t)
  {
    if t.info.Some? && t.info.value.StructInfo? {
      var cs := t.info.value.childTypes;
      forall k | 0 <= k < |cs|
        ensures NormChildren(cs)[k] == ChildType(cs[k].name, Norm(cs[k].logicalType))
      {
        NormChildAt(cs, k);
      }
    }
  }

  predicate SameUpToNorm(cs: seq<ChildType>, ds: seq<ChildType>) {
    |ds| == |cs| && forall k | 0 <= k < |cs| :: ds[k] == ChildType(cs[k].name, Norm(cs[k].logicalType))
  }

  // ---- slots ----

  lemma NormConversions(t: LogicalType, v: Value)
    ensures DecimalToUnscaled(Norm(t), v) == DecimalToUnscaled(t, v)
    ensures EnumOrNumber(Norm(t), v) == EnumOrNumber(t, v)
  {
    hide Norm, GetEnumValues, GetDecimalWidthAndScale, GetPhysicalType, IndexOf, DecimalText.ParseLenient, ToI128,
      ToU128;
    NormAccessors(t);
  }

  lemma NormNumber(t: LogicalType, p: PhysicalType, v: Value)
    ensures Number(Norm(t), p, v) == Number(t, p, v)
  {
    hide Norm, Uuid.Parse, ToI128, ToU128, DecimalToUnscaled, EnumOrNumber;
    NormConversions(t, v);
    assert Norm(t).id == t.id by {
      NormAccessors(t);
    }
  }

  lemma NormTypedScalar(t: LogicalType, p: PhysicalType, v: Value)
    ensures TypedScalar(Norm(t), p, v) == TypedScalar(t, p, v)
    ensures SlotFitsEnum(Norm(t), p) == SlotFitsEnum(t, p)
  {
    hide Norm, GetEnumValues, GetDecimalWidthAndScale, GetPhysicalType, Uuid.IsCanonical;
    NormAccessors(t);
  }

  lemma {:induction false} NormSlots(t: LogicalType, p: PhysicalType, vs: seq<Value>)
    requires PhysicalTypeSize(p).Some?
    ensures SlotsEncode(Norm(t), p, vs) == SlotsEncode(t, p, vs)
    ensures SlotsEncode(t, p, vs) ==> Slots(Norm(t), p, vs) == Slots(t, p, vs)
  {
    hide Norm, FixedCodec.Number, PhysicalTypeSize, FixedCodec.PutFixedValue;
    forall i | 0 <= i < |vs|
      ensures SlotEncodes(Norm(t), p, vs[i]) == SlotEncodes(t, p, vs[i])
    {
      NormNumber(t, p, vs[i]);
    }
    if vs != [] && SlotsEncode(t, p, vs) {
      NormSlots(t, p, vs[1..]);
      assert SlotEncodes(t, p, vs[0]) && SlotEncodes(Norm(t), p, vs[0]);
      NormSlot(t, p, vs[0], Slots(t, p, vs[1..]));
      hide SlotEncodes, SlotsEncode;
    }
  }

  lemma NormSlot(t: LogicalType, p: PhysicalType, v: Value, tail: seq<byte>)
    requires PhysicalTypeSize(p).Some? && SlotEncodes(t, p, v) && SlotEncodes(Norm(t), p, v)
    ensures PutFixedValue(Norm(t), p, v, tail) == PutFixedValue(t, p, v, tail)
  {
    hide Norm, FixedCodec.Number, PhysicalTypeSize, Wire.PutFixed, PutHalves;
    NormNumber(t, p, v);
  }

  // ---- columns ----

  lemma {:induction false} NormWellTyped(t: LogicalType, v: Value)
    ensures WellTyped(Norm(t), v) == WellTyped(t, v)
    decreases t
  {
    hide Norm, GetPhysicalType, GetChildType, GetStructChildren, GetArraySize, FixedCodec.TypedScalar, SlotFitsEnum;
    NormAccessors(t);
    NormChild(t);
    NormStructChildren(t);
    if GetPhysicalType(t).Success? {
      NormTypedScalar(t, GetPhysicalType(t).value, v);
    }
    if v.List? && GetChildType(t).Success? {
      forall k | 0 <= k < |v.items|
        ensures WellTyped(Norm(GetChildType(t).value), v.items[k]) == WellTyped(GetChildType(t).value, v.items[k])
      {
        NormWellTyped(GetChildType(t).value, v.items[k]);
      }
    }
    if v.Struct? && GetStructChildren(t).Success? {
      var cs := GetStructChildren(t).value;
      forall k | 0 <= k < |cs| && k < |v.row|
        ensures WellTyped(Norm(cs[k].logicalType), v.row[k].value) == WellTyped(cs[k].logicalType, v.row[k].value)
      {
        NormWellTyped(cs[k].logicalType, v.row[k].value);
      }
    }
  }

  lemma NormAllTyped(t: LogicalType, vs: seq<Value>)
    ensures AllTyped(Norm(t), vs) == AllTyped(t, vs)
  {
    forall i | 0 <= i < |vs|
      ensures WellTyped(Norm(t), vs[i]) == WellTyped(t, vs[i])
    {
      NormWellTyped(t, vs[i]);
    }
  }

  lemma {:induction false} NormCanEncode(t: LogicalType, vs: seq<Value>)
    ensures CanEncode(Norm(t), vs) == CanEncode(t, vs)
    decreases t
  {
    hide Norm, GetPhysicalType, GetChildType, GetStructChildren, GetArraySize, Flatten, Column, SlotsEncode;
    NormAccessors(t);
    NormChild(t);
    NormStructChildren(t);
    if GetPhysicalType(t).Success? {
      var p := GetPhysicalType(t).value;
      if PhysicalTypeSize(p).Some? {
        NormSlots(t, p, vs);
      }
    }
    if GetChildType(t).Success? {
      NormCanEncode(GetChildType(t).value, Flatten(vs, 0));
      if GetArraySize(t).Success? {
        NormCanEncode(GetChildType(t).value, Flatten(vs, GetArraySize(t).value));
      }
    }
    if GetStructChildren(t).Success? {
      var cs := GetStructChildren(t).value;
      forall k | 0 <= k < |cs|
        ensures CanEncode(Norm(cs[k].logicalType), Column(vs, cs[k].name)) ==
                CanEncode(cs[k].logicalType, Column(vs, cs[k].name))
      {
        NormCanEncode(cs[k].logicalType, Column(vs, cs[k].name));
      }
    }
  }

  lemma {:induction false} NormReadable(t: LogicalType, vs: seq<Value>)
    requires CanEncode(t, vs) && CanEncode(Norm(t), vs)
    ensures Readable(Norm(t), vs) == Readable(t, vs)
    decreases t
  {
    hide Norm, GetChildType, GetStructChildren, GetArraySize, Flatten, Column, SlotsEncode, GetEnumValues;
    NormAccessors(t);
    NormChild(t);
    NormStructChildren(t);
    match GetPhysicalType(t).value
    case PStruct =>
      var cs := GetStructChildren(t).value;
      forall k | 0 <= k < |cs|
        ensures CanEncode(Norm(cs[k].logicalType), Column(vs, cs[k].name))
        ensures Readable(Norm(cs[k].logicalType), Column(vs, cs[k].name)) ==
                Readable(cs[k].logicalType, Column(vs, cs[k].name))
      {
        NormCanEncode(cs[k].logicalType, Column(vs, cs[k].name));
        NormReadable(cs[k].logicalType, Column(vs, cs[k].name));
      }
    case PList => NormReadable(GetChildType(t).value, Flatten(vs, 0));
    case PArray => NormReadable(GetChildType(t).value, Flatten(vs, GetArraySize(t).value));
    case _ =>
  }

  /** Same bytes for a type and its normal form. */
  lemma {:induction false} NormPutVector(t: LogicalType, vs: seq<Value>, tail: seq<byte>)
    requires CanEncode(t, vs)
    ensures CanEncode(Norm(t), vs) && PutVector(Norm(t), vs, tail) == PutVector(t, vs, tail)
    decreases t, 2
  {
    hide PutData, CanEncode, PutValidity, Wire.PutEnd, Norm;
    NormAccessors(t);
    NormPutData(t, vs, PutEnd(tail));
  }

  lemma {:induction false} NormPutData(t: LogicalType, vs: seq<Value>, tail: seq<byte>)
    requires CanEncode(t, vs)
    ensures CanEncode(Norm(t), vs) && PutData(Norm(t), vs, tail) == PutData(t, vs, tail)
    decreases t, 1
  {
    hide Norm, GetChildType, GetStructChildren, GetArraySize, Flatten, Column, SlotsEncode, Slots, PutVector,
      PutColumns, PutEntries, Entries, PutStringLikes, Wire.PutFieldId, Wire.PutUleb, Wire.PutBlob;
    NormCanEncode(t, vs);
    NormAccessors(t);
    NormChild(t);
    NormStructChildren(t);
    var p := GetPhysicalType(t).value;
    if PhysicalTypeSize(p).Some? {
      NormSlots(t, p, vs);
    } else if p == PStruct {
      NormPutColumns(t, GetStructChildren(t).value, Norm(t), GetStructChildren(Norm(t)).value, vs, tail);
    } else if p == PList {
      NormPutVector(GetChildType(t).value, Flatten(vs, 0), tail);
    } else if p == PArray {
      NormPutVector(GetChildType(t).value, Flatten(vs, GetArraySize(t).value), tail);
    }
  }

  lemma {:induction false} NormPutColumns(t: LogicalType, cs: seq<ChildType>, u: LogicalType, ds: seq<ChildType>,
                                          vs: seq<Value>, tail: seq<byte>)
    requires Inside(cs, t) && Inside(ds, u) && SameUpToNorm(cs, ds)
    requires ColumnsEncode(cs, vs) && ColumnsEncode(ds, vs)
    ensures PutColumns(ds, vs, u, tail) == PutColumns(cs, vs, t, tail)
    decreases t, 0, |cs|
  {
    hide Norm, PutVector, CanEncode, Column;
    if cs != [] {
      assert forall k | 0 <= k < |cs| - 1 :: cs[1..][k] == cs[k + 1] && ds[1..][k] == ds[k + 1];
      NormPutColumns(t, cs[1..], u, ds[1..], vs, tail);
      NormPutVector(cs[0].logicalType, Column(vs, cs[0].name), PutColumns(cs[1..], vs, t, tail));
    }
  }

  /** A column written for a type reads back under the normal form of the type. */
  lemma NormVectorRoundTrip(t: LogicalType, vs: seq<Value>, suffix: seq<byte>)
    requires AllTyped(t, vs) && CanEncode(t, vs)
    ensures ReadVector(Norm(t), |vs|, PutVector(t, vs, suffix)) ==
      RoundTripped(DecodedVector(Norm(t), Flat, vs), Readable(t, vs), suffix)
  {
    hide PutVector, ReadVector, Norm, AllTyped, CanEncode, Readable;
    NormAllTyped(t, vs);
    NormCanEncode(t, vs);
    NormReadable(t, vs);
    NormPutVector(t, vs, suffix);
    VectorRoundTrip(Norm(t), vs, suffix);
  }
}
