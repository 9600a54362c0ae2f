/** Row-wise values. Floating-point numbers are their bit patterns. */
module Values {
  import opened Prelude

  datatype TimeUnit = Micros | Nanos

  datatype TimestampUnit = Seconds | Millis | Micros | Nanos

  datatype Value =
    | Null
    | Bool(b: bool)
    | Int(i: i64)
    | UInt(u: u64)
    | HugeInt(h: i128)
    | UHugeInt(uh: u128)
    | Float(bits32: u32)
    | Double(bits64: u64)
    | Str(s: text)
    | Bytes(raw: vec<byte>)
    | Decimal(unscaled: i128, width: u64, scale: u64)
    | Date(days: i32)
    | Time(unit: TimeUnit, ticks: i64)
    | TimeTz(bits: i64)
    | Timestamp(tsUnit: TimestampUnit, ticks: i64, utc: bool)
    | Interval(months: i32, days: i32, micros: i64)
    | List(items: seq<Value>)
    | Struct(row: seq<Field>)

  datatype Field = Field(name: text, value: Value)

  /** Rows are maps that remember insertion order. */
  predicate DistinctNames(row: seq<Field>) {
    forall i, j | 0 <= i < j < |row| :: row[i].name != row[j].name
  }

  function Get(row: seq<Field>, name: text): (v: Option<Value>)
    ensures v.Some? <==> exists i :: 0 <= i < |row| && row[i].name == name
  {
    if row == [] then None
    else if row[0].name == name then Some(row[0].value)
    else Get(row[1..], name)
  }

  /** An existing key keeps its place and takes the new value. */
  function Insert(row: seq<Field>, name: text, v: Value): (r: seq<Field>)
    ensures Get(r, name) == Some(v)
  {
    if row == [] then [Field(name, v)]
    else if row[0].name == name then [Field(name, v)] + row[1..]
    else [row[0]] + Insert(row[1..], name, v)
  }

  lemma {:induction false} GetAt(row: seq<Field>, k: nat)
    requires k < |row| && DistinctNames(row)
    ensures Get(row, row[k].name) == Some(row[k].value)
  {
    if k > 0 {
      GetAt(row[1..], k - 1);
    }
  }

  lemma {:induction false} InsertFresh(row: seq<Field>, name: text, v: Value)
    requires forall i | 0 <= i < |row| :: row[i].name != name
    ensures Insert(row, name, v) == row + [Field(name, v)]
  {
    if row != [] {
      InsertFresh(row[1..], name, v);
    }
  }

  /** Inserting leaves every other key alone, and keys stay distinct. */
  lemma {:induction false} InsertKeeps(row: seq<Field>, name: text, v: Value, other: text)
    requires other != name
    ensures Get(Insert(row, name, v), other) == Get(row, other)
  {
    if row != [] && row[0].name != name {
      InsertKeeps(row[1..], name, v, other);
    }
  }
}
