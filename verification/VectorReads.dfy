/** What decoding says about arbitrary bytes: how many values come out, and which lists
    run out of range. */
module VectorReads {
  import opened Prelude
  import opened Arithmetic
  import opened Wire
  import opened LogicalTypes
  import opened Values
  import opened FixedCodec
  import opened Vectors

  /** A flat column of text: its number of strings is the one on the wire. */
  predicate TextInFlat(t: LogicalType, d: DecodedVector) {
    d.vectorType == Flat && GetPhysicalType(t) == Success(PVarchar)
  }

  /** The number of strings that a flat text body announces. */
  function AnnouncedStrings(t: LogicalType, count: u64, bs: seq<byte>): Option<nat> {
    match ReadUlebOrZero(90, bs)
    case NoParse(_) => None
    case Parse(_, bs) =>
      match ReadGeometryTag(t, bs)
      case NoParse(_) => None
      case Parse(_, bs) =>
        match ReadValidity(count, bs)
        case NoParse(_) => None
        case Parse(_, bs) =>
          match ReadTag(102, bs)
          case NoParse(_) => None
          case Parse(_, bs) =>
            match ReadUleb64(bs)
            case NoParse(_) => None
            case Parse(n, _) => Some(n)
  }

  /** A text column gets all the strings that were read, and with a mask no more than rows. */
  lemma {:induction false} StringCount(t: LogicalType, validity: Option<seq<bool>>, i: nat, raws: seq<vec<byte>>)
    requires StringValues(t, validity, i, raws).Success?
    ensures |StringValues(t, validity, i, raws).value| == |raws|
    ensures validity.Some? && raws != [] ==> i + |raws| <= |validity.value|
    decreases |raws|
  {
    if raws != [] {
      StringCount(t, validity, i + 1, raws[1..]);
    }
  }

  /** Whatever the bytes, a body that decodes has the requested number of values, unless it is
      flat text: then it has as many as it announces. */
  lemma BodyCount(t: LogicalType, count: u64, bs: seq<byte>)
    requires ReadBody(t, count, bs).Parse?
    ensures var d := ReadBody(t, count, bs).value;
      if TextInFlat(t, d) then AnnouncedStrings(t, count, bs) == Some(|d.values|) else |d.values| == count
  {
    hide Wire.ReadUlebOrZero, Wire.ReadTag, Wire.ReadUleb64, Wire.ReadSleb, ReadGeometryTag, ReadValidity,
      ReadSelection, Select, SequenceValues;
    var p := ReadUlebOrZero(90, bs);
    if p.value == 0 {
      FlatCount(t, count, p.rest);
      hide ReadFlat;
    }
  }

  lemma FlatCount(t: LogicalType, count: u64, bs: seq<byte>)
    requires ReadFlat(t, count, bs).Parse?
    ensures ReadFlat(t, count, bs).value.vectorType == Flat
    ensures GetPhysicalType(t) != Success(PVarchar) ==> |ReadFlat(t, count, bs).value.values| == count
  {
    hide ReadGeometryTag, ReadValidity, ReadFixedColumn, ReadStringColumn, ReadStructColumn, ReadListColumn,
      ReadArrayColumn;
  }

  // ---- list rows ----

  /** The entry of a row that is shown reaches outside the elements. */
  predicate Outside(items: seq<Value>, validity: Option<seq<bool>>, i: nat, e: ListEntry)
    requires validity.Some? ==> i < |validity.value|
  {
    IsValid(validity, i) && e.offset + e.length > |items|
  }

  /** The row as its entry says. */
  predicate IsRow(items: seq<Value>, validity: Option<seq<bool>>, i: nat, e: ListEntry, v: Value)
    requires validity.Some? ==> i < |validity.value|
  {
    && !Outside(items, validity, i, e)
    && v == if IsValid(validity, i) then Value.List(items[e.offset..e.offset + e.length]) else Null
  }

  lemma {:induction false} RowsInside(items: seq<Value>, validity: Option<seq<bool>>, i: nat,
                                      entries: seq<ListEntry>, k: nat)
    requires (validity.Some? ==> i + |entries| <= |validity.value|) && k < |entries|
    requires ListRows(items, validity, i, entries).Success?
    ensures IsRow(items, validity, i + k, entries[k], ListRows(items, validity, i, entries).value[k])
    decreases k
  {
    if k > 0 {
      RowsInside(items, validity, i + 1, entries[1..], k - 1);
    }
  }

  lemma {:induction false} RowOutside(items: seq<Value>, validity: Option<seq<bool>>, i: nat, entries: seq<ListEntry>)
    returns (k: nat)
    requires validity.Some? ==> i + |entries| <= |validity.value|
    requires ListRows(items, validity, i, entries).Failure?
    ensures k < |entries| && Outside(items, validity, i + k, entries[k])
    ensures ListRows(items, validity, i, entries) == Failure(Panic)
    decreases |entries|
  {
    if Outside(items, validity, i, entries[0]) {
      k := 0;
    } else {
      k := RowOutside(items, validity, i + 1, entries[1..]);
      k := k + 1;
    }
  }

  /** Decoding list rows aborts exactly when some row that is not null has an entry outside
      the elements; otherwise every row is what its entry says. */
  lemma ListRowsAbort(items: seq<Value>, validity: Option<seq<bool>>, entries: seq<ListEntry>)
    requires validity.Some? ==> |entries| <= |validity.value|
    ensures var r := ListRows(items, validity, 0, entries);
      && (r == Failure(Panic) <==> exists k | 0 <= k < |entries| :: Outside(items, validity, k, entries[k]))
      && (r != Failure(Panic) ==>
            r.Success? && forall k | 0 <= k < |entries| :: IsRow(items, validity, k, entries[k], r.value[k]))
  {
    hide ListRows, Outside;
    var r := ListRows(items, validity, 0, entries);
    if r.Failure? {
      var k := RowOutside(items, validity, 0, entries);
      assert Outside(items, validity, k, entries[k]);
    } else {
      forall k | 0 <= k < |entries|
        ensures IsRow(items, validity, k, entries[k], r.value[k])
      {
        RowsInside(items, validity, 0, entries, k);
      }
    }
  }
}
