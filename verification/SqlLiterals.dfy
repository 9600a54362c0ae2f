/** SQL literals of parameters. */
module SqlLiterals {
  import opened Prelude
  import opened Values
  import DecimalText = Decimal
  import Uuid

  const QUOTE: byte := 39
  const DOUBLE_QUOTE: byte := 34
  const MINUS: byte := 45

  /** A foreign parameter is one whose text comes from a library: a float, a date, a time
      or a timestamp. */
  datatype SqlParameter = Plain(value: Value) | Foreign(literal: Result<seq<byte>>) | ListOf(items: seq<SqlParameter>)

  function DoubleQuotes(s: seq<byte>): seq<byte> {
    if s == [] then [] else (if s[0] == QUOTE then [QUOTE, QUOTE] else [s[0]]) + DoubleQuotes(s[1..])
  }

  function InQuotes(s: seq<byte>): seq<byte> {
    [QUOTE] + s + [QUOTE]
  }

  function Quoted(s: seq<byte>): seq<byte> {
    InQuotes(DoubleQuotes(s))
  }

  function HexText(s: seq<byte>): seq<byte> {
    if s == [] then [] else [Uuid.HexDigit(s[0] / 16), Uuid.HexDigit(s[0] % 16)] + HexText(s[1..])
  }

  function Literal(p: SqlParameter): Result<seq<byte>> {
    match p
    case Plain(v) => ValueLiteral(v)
    case Foreign(text) => text
    case ListOf(items) =>
      var texts :- Literals(items);
      Success(Ascii("[") + texts + Ascii("]"))
  }

  /** The literals of a list, with commas between them. */
  function Literals(items: seq<SqlParameter>): Result<seq<byte>> {
    if items == [] then Success([])
    else
      var first :- Literal(items[0]);
      var rest :- Literals(items[1..]);
      Success(if |items| == 1 then first else first + Ascii(", ") + rest)
  }

  function IntervalText(months: int, days: int, micros: int): seq<byte> {
    DecimalText.IntegerText(months) + Ascii(" months ") + DecimalText.IntegerText(days) + Ascii(" days ")
      + DecimalText.IntegerText(micros)
    + Ascii(" microseconds")
  }

  function ValueLiteral(v: Value): Result<seq<byte>> {
    match v
    case Null => Success(Ascii("NULL"))
    case Bool(b) => Success(if b then Ascii("TRUE") else Ascii("FALSE"))
    case Int(i) => Success(DecimalText.IntegerText(i))
    case UInt(u) => Success(DecimalText.IntegerText(u))
    case HugeInt(h) => Success(DecimalText.IntegerText(h))
    case UHugeInt(u) => Success(DecimalText.IntegerText(u))
    case Str(s) => Success(Quoted(s))
    case Bytes(raw) => Success(Ascii("from_hex(") + InQuotes(HexText(raw)) + Ascii(")"))
    case Decimal(unscaled, _, scale) => DecimalText.DecimalToString(unscaled, scale)
    case Interval(months, days, micros) =>
      Success(Ascii("INTERVAL ") + InQuotes(IntervalText(months, days, micros)))
    case _ => Failure(Protocol)
  }
}
