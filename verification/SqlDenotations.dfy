/** What each literal stands for, read without knowing how it was written. */
module SqlDenotations {
  import opened Prelude
  import opened Values
  import opened SqlLiterals
  import opened SqlLexing
  import DecimalText = Decimal
  import Uuid

  // ---- words ----

  const APOSTROPHE: byte := 39

  /** Null and the truth values are words. */
  lemma WordLiterals()
    ensures ValueLiteral(Null) == Success(['N' as int, 'U' as int, 'L' as int, 'L' as int])
    ensures ValueLiteral(Bool(true)) == Success(['T' as int, 'R' as int, 'U' as int, 'E' as int])
    ensures ValueLiteral(Bool(false)) == Success(['F' as int, 'A' as int, 'L' as int, 'S' as int, 'E' as int])
  {
    assert Ascii("NULL") == ['N' as int, 'U' as int, 'L' as int, 'L' as int];
    assert Ascii("TRUE") == ['T' as int, 'R' as int, 'U' as int, 'E' as int];
    assert Ascii("FALSE") == ['F' as int, 'A' as int, 'L' as int, 'S' as int, 'E' as int];
  }

  // ---- numbers ----

  /** Numbers are literals that parse as themselves. */
  lemma NumberLiterals(v: Value)
    ensures v.Int? ==> Denotes(ValueLiteral(v), v.i)
    ensures v.UInt? ==> Denotes(ValueLiteral(v), v.u)
    ensures v.HugeInt? ==> Denotes(ValueLiteral(v), v.h)
    ensures v.UHugeInt? ==>
      ValueLiteral(v).Success? && DecimalText.ParseU128(ValueLiteral(v).value) == Success(v.uh)
    ensures v.Decimal? && v.unscaled != -TWO_127 && v.scale <= 38 ==>
      ValueLiteral(v).Success? && DecimalText.ParseStrict(ValueLiteral(v).value, v.scale) == Success(v.unscaled)
  {
    hide DecimalText.ParseI128, DecimalText.ParseU128, DecimalText.ParseStrict, DecimalText.IntegerText,
      DecimalText.DecimalToString;
    match v
    case Int(i) => IntegerReadsBack(i);
    case UInt(u) => IntegerReadsBack(u);
    case HugeInt(h) => IntegerReadsBack(h);
    case UHugeInt(u) => UnsignedReadsBack(u);
    case Decimal(unscaled, _, scale) =>
      if unscaled != -TWO_127 && scale <= 38 {
        DecimalText.PrintParse(unscaled, scale);
      }
    case _ =>
  }

  predicate Denotes(literal: Result<seq<byte>>, n: i128) {
    literal.Success? && DecimalText.ParseI128(literal.value) == Success(n)
  }

  lemma UnsignedReadsBack(n: u128)
    ensures DecimalText.ParseU128(DecimalText.IntegerText(n)) == Success(n)
  {
    var digits := DecimalText.Digits(n);
    assert DecimalText.IsDigit(digits[0]);
    hide DecimalText.Digits, DecimalText.NatOf;
  }

  // ---- text and blobs ----

  /** A string between apostrophes, in which two stand for one. */
  lemma StringLiteral(s: text)
    ensures var r := ValueLiteral(Str(s));
      && r.Success? && |r.value| >= 2
      && r.value == [APOSTROPHE] + r.value[1..|r.value| - 1] + [APOSTROPHE]
      && Undouble(r.value[1..|r.value| - 1]) == s
  {
    hide Undouble, DoubleQuotes;
    UndoubleDoubled(s);
    var inner := DoubleQuotes(s);
    var r := ValueLiteral(Str(s)).value;
    assert r == [APOSTROPHE] + inner + [APOSTROPHE];
    assert r[1..|r| - 1] == inner;
  }

  /** A blob as a call that decodes hexadecimal digits. */
  lemma BlobLiteral(raw: vec<byte>)
    ensures Uuid.AllHex(HexText(raw)) && Unhex(HexText(raw)) == raw
    ensures ValueLiteral(Bytes(raw)) == Success(
      ['f' as int, 'r' as int, 'o' as int, 'm' as int, '_' as int, 'h' as int, 'e' as int, 'x' as int, '(' as int]
      + ([APOSTROPHE] + HexText(raw) + [APOSTROPHE]) + [')' as int])
  {
    hide HexText, Unhex;
    HexReadsBack(raw);
    assert Ascii("from_hex(") ==
      ['f' as int, 'r' as int, 'o' as int, 'm' as int, '_' as int, 'h' as int, 'e' as int, 'x' as int, '(' as int];
    assert Ascii(")") == [')' as int];
  }

  // ---- intervals ----

  /** The words of a text, between single spaces. */
  function Words(s: seq<byte>): (words: seq<seq<byte>>)
    ensures words != []
  {
    if s == [] then [[]]
    else if s[0] == ' ' as int then [[]] + Words(s[1..])
    else
      var more := Words(s[1..]);
      [[s[0]] + more[0]] + more[1..]
  }

  predicate OneWord(s: seq<byte>) {
    forall i | 0 <= i < |s| :: s[i] != ' ' as int
  }

  lemma {:induction false} FirstWord(a: seq<byte>, rest: seq<byte>)
    requires OneWord(a)
    ensures Words(a + ([' ' as int] + rest)) == [a] + Words(rest)
    ensures Words(a) == [a]
  {
    if a == [] {
      assert [' ' as int] + rest != [] && ([' ' as int] + rest)[1..] == rest;
      assert a + ([' ' as int] + rest) == [' ' as int] + rest;
    } else {
      FirstWord(a[1..], rest);
      var s := a + ([' ' as int] + rest);
      assert s[1..] == a[1..] + ([' ' as int] + rest);
      assert [a[0]] + a[1..] == a;
      assert s[0] == a[0] && Words(s[1..])[0] == a[1..] && Words(s[1..])[1..] == Words(rest);
    }
  }

  lemma IntegerIsWord(n: i128)
    ensures OneWord(DecimalText.IntegerText(n)) && Denotes(Success(DecimalText.IntegerText(n)), n)
  {
    IntegerReadsBack(n);
    var digits := DecimalText.Digits(if n < 0 then -(n as int) else n);
    assert forall i | 0 <= i < |digits| :: DecimalText.IsDigit(digits[i]);
    hide DecimalText.Digits, DecimalText.ParseI128;
  }

  /** An interval is the word INTERVAL and a string of six words: three numbers, which are the
      months, days and microseconds, and after each what it counts. */
  lemma IntervalLiteral(months: i32, days: i32, micros: i64)
    ensures var inner := IntervalText(months, days, micros);
      && ValueLiteral(Value.Interval(months, days, micros)) ==
        Success(Ascii("INTERVAL ") + ([APOSTROPHE] + inner + [APOSTROPHE]))
      && var words := Words(inner);
        && |words| == 6
        && Denotes(Success(words[0]), months) && words[1] == Ascii("months")
        && Denotes(Success(words[2]), days) && words[3] == Ascii("days")
        && Denotes(Success(words[4]), micros) && words[5] == Ascii("microseconds")
  {
    hide DecimalText.IntegerText, DecimalText.ParseI128, Words, Ascii, IntervalText;
    IntegerIsWord(months);
    IntegerIsWord(days);
    IntegerIsWord(micros);
    IntervalInner(months, days, micros);
  }

  lemma IntervalInner(months: i32, days: i32, micros: i64)
    requires OneWord(DecimalText.IntegerText(months)) && OneWord(DecimalText.IntegerText(days))
    requires OneWord(DecimalText.IntegerText(micros))
    ensures Words(IntervalText(months, days, micros)) ==
      [DecimalText.IntegerText(months), Ascii("months"), DecimalText.IntegerText(days), Ascii("days"),
       DecimalText.IntegerText(micros), Ascii("microseconds")]
  {
    hide DecimalText.IntegerText, Words, Ascii, OneWord;
    IntervalWords(DecimalText.IntegerText(months), DecimalText.IntegerText(days), DecimalText.IntegerText(micros));
  }

  lemma Units()
    ensures Ascii(" months ") == [' ' as int] + (Ascii("months") + [' ' as int])
    ensures Ascii(" days ") == [' ' as int] + (Ascii("days") + [' ' as int])
    ensures Ascii(" microseconds") == [' ' as int] + Ascii("microseconds")
    ensures OneWord(Ascii("months")) && OneWord(Ascii("days")) && OneWord(Ascii("microseconds"))
  {
  }

  lemma IntervalWords(m: seq<byte>, d: seq<byte>, u: seq<byte>)
    requires OneWord(m) && OneWord(d) && OneWord(u)
    ensures Words(m + Ascii(" months ") + d + Ascii(" days ") + u + Ascii(" microseconds")) ==
      [m, Ascii("months"), d, Ascii("days"), u, Ascii("microseconds")]
  {
    Units();
    hide Ascii, Words, OneWord;
    var space := [' ' as int];
    var end := Ascii("microseconds");
    FirstWord(end, []);
    FirstWord(u, end);
    var s5 := u + (space + end);
    FirstWord(Ascii("days"), s5);
    var s4 := Ascii("days") + (space + s5);
    FirstWord(d, s4);
    var s3 := d + (space + s4);
    FirstWord(Ascii("months"), s3);
    var s2 := Ascii("months") + (space + s3);
    FirstWord(m, s2);
    assert m + Ascii(" months ") + d + Ascii(" days ") + u + Ascii(" microseconds") == m + (space + s2);
  }

  // ---- lists ----

  /** Texts with a comma and a space between each and the next. */
  function Joined(texts: seq<seq<byte>>): seq<byte> {
    if |texts| == 0 then []
    else if |texts| == 1 then texts[0]
    else Joined(texts[..|texts| - 1]) + [',' as int, ' ' as int] + texts[|texts| - 1]
  }

  /** The texts of the items, if they have one each. */
  predicate AreTexts(items: seq<SqlParameter>, texts: seq<seq<byte>>) {
    |texts| == |items| && forall i | 0 <= i < |items| :: Literal(items[i]) == Success(texts[i])
  }

  lemma {:induction false} JoinedFront(first: seq<byte>, texts: seq<seq<byte>>)
    requires texts != []
    ensures Joined([first] + texts) == first + [',' as int, ' ' as int] + Joined(texts)
  {
    var all := [first] + texts;
    var n := |texts|;
    assert all[..n] == [first] + texts[..n - 1];
    if n == 1 {
      assert all[..1] == [first];
    } else {
      JoinedFront(first, texts[..n - 1]);
      assert Joined(all) == Joined([first] + texts[..n - 1]) + [',' as int, ' ' as int] + texts[n - 1];
    }
  }

  lemma {:induction false} LiteralsJoined(items: seq<SqlParameter>, texts: seq<seq<byte>>)
    requires AreTexts(items, texts)
    ensures Literals(items) == Success(Joined(texts))
  {
    hide Literal;
    if items != [] {
      assert texts == [texts[0]] + texts[1..];
      LiteralsJoined(items[1..], texts[1..]);
      if |items| > 1 {
        JoinedFront(texts[0], texts[1..]);
      }
      assert Ascii(", ") == [',' as int, ' ' as int];
    }
  }

  lemma {:induction false} LiteralsFail(items: seq<SqlParameter>)
    ensures Literals(items).Success? <==> forall i | 0 <= i < |items| :: Literal(items[i]).Success?
  {
    if items != [] {
      LiteralsFail(items[1..]);
      assert forall i | 0 < i < |items| :: items[1..][i - 1] == items[i];
    }
  }

  /** A list is its items, all of which have to have literals, between brackets and with commas
      between them. */
  lemma ListLiteral(items: seq<SqlParameter>, texts: seq<seq<byte>>)
    ensures Literal(ListOf(items)).Success? <==> forall i | 0 <= i < |items| :: Literal(items[i]).Success?
    ensures AreTexts(items, texts) ==> Literal(ListOf(items)) == Success(['[' as int] + Joined(texts) + [']' as int])
  {
    LiteralsFail(items);
    assert Ascii("[") == ['[' as int] && Ascii("]") == [']' as int];
    if AreTexts(items, texts) {
      LiteralsJoined(items, texts);
    }
  }

  /** Nested values and values whose text is not modelled have no literal as plain values; a decimal
      has none if it cannot be printed. */
  lemma NoLiteral(v: Value)
    ensures ValueLiteral(v).Failure? <==>
      || v.List? || v.Struct? || v.Float? || v.Double? || v.Date? || v.Time? || v.TimeTz? || v.Timestamp?
      || (v.Decimal? && (v.unscaled == -TWO_127 || (v.scale != 0 && v.scale % TWO_32 > 38)))
  {
    if v.Decimal? {
      DecimalText.PrintFails(v.unscaled, v.scale);
    }
    hide DecimalText.DecimalToString;
  }
}
