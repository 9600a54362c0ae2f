/** How literals lex: a quoted string is one span wherever it stands, and every literal
    leaves the lexer in plain SQL, unless it runs into a comment. */
module SqlLexing {
  import opened Prelude
  import opened Values
  import opened SqlLiterals
  import opened SqlScanner
  import DecimalText = Decimal
  import Arithmetic
  import Uuid

  // ---- quoting ----

  /** The string a quoted span stands for. */
  function Undouble(s: seq<byte>): seq<byte>
    decreases |s|
  {
    if s == [] then []
    else if |s| >= 2 && s[0] == QUOTE && s[1] == QUOTE then [QUOTE] + Undouble(s[2..])
    else [s[0]] + Undouble(s[1..])
  }

  lemma {:induction false} UndoubleDoubled(s: seq<byte>)
    ensures Undouble(DoubleQuotes(s)) == s
  {
    if s != [] {
      UndoubleDoubled(s[1..]);
      var d := DoubleQuotes(s);
      if s[0] == QUOTE {
        assert d[2..] == DoubleQuotes(s[1..]);
      } else {
        assert d[1..] == DoubleQuotes(s[1..]);
      }
    }
  }

  lemma {:induction false} QuotedEndsAt(before: seq<byte>, s: seq<byte>, after: seq<byte>)
    ensures var sql := before + (DoubleQuotes(s) + ([QUOTE] + after));
      var last := |before| + |DoubleQuotes(s)| + 1;
      QuotedEnd(sql, |before|, QUOTE) == last <==> after == [] || after[0] != QUOTE
    decreases |s|
  {
    var sql := before + (DoubleQuotes(s) + ([QUOTE] + after));
    if s != [] {
      var piece := if s[0] == QUOTE then [QUOTE, QUOTE] else [s[0]];
      QuotedEndsAt(before + piece, s[1..], after);
      assert sql == (before + piece) + (DoubleQuotes(s[1..]) + ([QUOTE] + after));
      assert sql[|before|] == piece[0];
      if s[0] == QUOTE {
        assert sql[|before| + 1] == QUOTE;
      }
    } else {
      assert sql[|before|] == QUOTE;
    }
  }

  /** The scanner, started at a quoted string, stops exactly at its last quote unless
      another quote follows; and the span it passed over holds the string. */
  lemma QuotingRoundTrip(before: seq<byte>, s: seq<byte>, after: seq<byte>)
    ensures var sql := before + Quoted(s) + after;
      var end := |before| + |Quoted(s)|;
      && sql[|before|] == QUOTE && Undouble(sql[|before| + 1..end - 1]) == s
      && (QuotedEnd(sql, |before| + 1, QUOTE) == end <==> after == [] || after[0] != QUOTE)
  {
    SpanStops(before, s, after);
    SpanHolds(before, s, after);
  }

  lemma SpanStops(before: seq<byte>, s: seq<byte>, after: seq<byte>)
    ensures var sql := before + Quoted(s) + after;
      && |sql| >= |before| + 2 && sql[|before|] == QUOTE
      && (QuotedEnd(sql, |before| + 1, QUOTE) == |before| + |Quoted(s)| <==> after == [] || after[0] != QUOTE)
  {
    hide QuotedEnd, DoubleQuotes, InQuotes;
    Regroup(before, DoubleQuotes(s), after);
    QuotedEndsAt(before + [QUOTE], s, after);
  }

  lemma SpanHolds(before: seq<byte>, s: seq<byte>, after: seq<byte>)
    ensures |Quoted(s)| >= 2
    ensures Undouble((before + Quoted(s) + after)[|before| + 1..|before| + |Quoted(s)| - 1]) == s
  {
    hide Undouble, DoubleQuotes, InQuotes;
    Inside(before, DoubleQuotes(s), after);
    UndoubleDoubled(s);
  }

  lemma Regroup(before: seq<byte>, inner: seq<byte>, after: seq<byte>)
    ensures before + InQuotes(inner) + after == (before + [QUOTE]) + (inner + ([QUOTE] + after))
    ensures (before + InQuotes(inner) + after)[|before|] == QUOTE && |InQuotes(inner)| == |inner| + 2
  {
  }

  lemma Inside(before: seq<byte>, inner: seq<byte>, after: seq<byte>)
    ensures |InQuotes(inner)| == |inner| + 2
    ensures (before + InQuotes(inner) + after)[|before| + 1..|before| + |InQuotes(inner)| - 1] == inner
  {
    var sql := before + InQuotes(inner) + after;
    assert forall k | 0 <= k < |inner| :: sql[|before| + 1 + k] == InQuotes(inner)[1 + k] == inner[k];
  }

  // ---- literals ----

  /** An integer literal denotes its integer. */
  lemma IntegerReadsBack(n: i128)
    ensures DecimalText.ParseI128(DecimalText.IntegerText(n)) == Success(n)
  {
    var digits := DecimalText.Digits(if n < 0 then -(n as int) else n);
    assert n < 0 ==> DecimalText.IntegerText(n)[1..] == digits;
    assert DecimalText.IsDigit(digits[0]);
    hide DecimalText.Digits, DecimalText.NatOf;
  }

  /** The bytes that hexadecimal text stands for. */
  function Unhex(s: seq<byte>): seq<byte>
    requires Uuid.AllHex(s)
    decreases |s|
  {
    if |s| < 2 then [] else [16 * Uuid.HexVal(s[0]) + Uuid.HexVal(s[1])] + Unhex(s[2..])
  }

  /** A blob literal denotes its bytes. */
  lemma {:induction false} HexReadsBack(s: seq<byte>)
    ensures Uuid.AllHex(HexText(s)) && Unhex(HexText(s)) == s
  {
    if s != [] {
      HexReadsBack(s[1..]);
      assert HexText(s)[2..] == HexText(s[1..]);
    }
  }

  predicate NoForeign(p: SqlParameter) {
    match p
    case Plain(_) => true
    case Foreign(_) => false
    case ListOf(items) => forall i | 0 <= i < |items| :: NoForeign(items[i])
  }

  /** A byte that means nothing to the lexer. */
  predicate Inert(b: byte) {
    b !in {QUOTE, DOUBLE_QUOTE, MINUS, SLASH, STAR, NEWLINE}
  }

  predicate AllInert(s: seq<byte>) {
    forall i | 0 <= i < |s| :: Inert(s[i])
  }

  lemma {:induction false} LexAppend(m: Mode, a: seq<byte>, b: seq<byte>)
    ensures Lex(m, a + b) == Lex(Lex(m, a), b)
    decreases |a|
  {
    if a == [] {
      assert a + b == b;
    } else {
      LexAppend(Next(m, a[0]), a[1..], b);
      assert (a + b)[1..] == a[1..] + b;
    }
  }

  lemma {:induction false} LexInert(m: Mode, s: seq<byte>)
    requires AllInert(s)
    ensures Outside(m) && s != [] ==> Lex(m, s) == Code
    ensures m in {Single, Line} ==> Lex(m, s) == m
    decreases |s|
  {
    if |s| > 0 {
      LexInert(Next(m, s[0]), s[1..]);
    }
  }

  lemma LexInteger(m: Mode, n: int)
    ensures Outside(m) ==> Lex(m, DecimalText.IntegerText(n)) == if m == Dash && n < 0 then Line else Code
    ensures m == Single ==> Lex(m, DecimalText.IntegerText(n)) == m
    ensures DecimalText.IntegerText(n) != [] && (DecimalText.IntegerText(n)[0] == MINUS <==> n < 0)
  {
    var digits := DecimalText.Digits(if n < 0 then -n else n);
    assert forall i | 0 <= i < |digits| :: DecimalText.IsDigit(digits[i]);
    if n < 0 {
      LexAppend(m, [MINUS], digits);
      assert Lex(m, [MINUS]) == Next(m, MINUS);
      LexInert(Next(m, MINUS), digits);
    } else {
      LexInert(m, digits);
    }
  }

  /** A span without quotes inside. */
  lemma LexInQuotes(m: Mode, s: seq<byte>)
    requires Outside(m) && Lex(Single, s) == Single
    ensures Lex(m, InQuotes(s)) == SingleEnd && InQuotes(s)[0] == QUOTE
  {
    assert Lex(m, [QUOTE]) == Single && Lex(Single, [QUOTE]) == SingleEnd;
    LexAppend(m, [QUOTE], s);
    LexAppend(m, [QUOTE] + s, [QUOTE]);
  }

  lemma {:induction false} LexDoubled(s: seq<byte>)
    ensures Lex(Single, DoubleQuotes(s)) == Single
  {
    if s != [] {
      LexDoubled(s[1..]);
      var piece := if s[0] == QUOTE then [QUOTE, QUOTE] else [s[0]];
      LexAppend(Single, piece, DoubleQuotes(s[1..]));
      if s[0] == QUOTE {
        assert piece[1..] == [QUOTE] && Lex(SingleEnd, [QUOTE]) == Lex(Single, []);
      } else {
        assert piece[1..] == [];
      }
    }
  }

  lemma {:induction false} HexIsInert(s: seq<byte>)
    ensures AllInert(HexText(s))
  {
    if s != [] {
      HexIsInert(s[1..]);
    }
  }

  lemma WordsAreInert()
    ensures AllInert(Ascii("NULL")) && AllInert(Ascii("TRUE")) && AllInert(Ascii("FALSE"))
  {
  }

  lemma CallsAreInert()
    ensures AllInert(Ascii("from_hex(")) && AllInert(Ascii(")")) && AllInert(Ascii("INTERVAL "))
  {
  }

  lemma UnitsAreInert()
    ensures AllInert(Ascii(" months ")) && AllInert(Ascii(" days ")) && AllInert(Ascii(" microseconds"))
  {
  }

  lemma BracketsAreInert()
    ensures AllInert(Ascii("[")) && AllInert(Ascii("]")) && AllInert(Ascii(", "))
  {
  }

  lemma LexInterval(months: int, days: int, micros: int)
    ensures Lex(Single, IntervalText(months, days, micros)) == Single
  {
    UnitsAreInert();
    var a, b, c := DecimalText.IntegerText(months), DecimalText.IntegerText(days), DecimalText.IntegerText(micros);
    LexInteger(Single, months);
    LexInteger(Single, days);
    LexInteger(Single, micros);
    LexInert(Single, Ascii(" months "));
    LexInert(Single, Ascii(" days "));
    LexInert(Single, Ascii(" microseconds"));
    hide Ascii, DecimalText.IntegerText;
    LexAppend(Single, a, Ascii(" months "));
    LexAppend(Single, a + Ascii(" months "), b);
    LexAppend(Single, a + Ascii(" months ") + b, Ascii(" days "));
    LexAppend(Single, a + Ascii(" months ") + b + Ascii(" days "), c);
    LexAppend(Single, a + Ascii(" months ") + b + Ascii(" days ") + c, Ascii(" microseconds"));
  }

  lemma LexDecimal(m: Mode, value: i128, scale: u64)
    requires Outside(m) && DecimalText.DecimalToString(value, scale).Success?
    ensures var s := DecimalText.DecimalToString(value, scale).value;
      s != [] && (s[0] == MINUS <==> value < 0) && Lex(m, s) == if m == Dash && value < 0 then Line else Code
  {
    hide DecimalText.Digits, DecimalText.Padded, DecimalText.Pow10;
    var s := DecimalText.DecimalToString(value, scale).value;
    var sign := if value < 0 then [MINUS] else [];
    var body := s[|sign|..];
    assert s == sign + body && body != [] by {
      DecimalBody(value, scale);
    }
    assert AllInert(body) by {
      DecimalBody(value, scale);
    }
    hide DecimalText.DecimalToString;
    if value < 0 {
      assert Lex(m, [MINUS]) == Next(m, MINUS);
      LexAppend(m, [MINUS], body);
      LexInert(Next(m, MINUS), body);
    } else {
      assert s == body;
      LexInert(m, body);
    }
  }

  lemma DecimalBody(value: i128, scale: u64)
    requires DecimalText.DecimalToString(value, scale).Success?
    ensures var s := DecimalText.DecimalToString(value, scale).value;
      var n := if value < 0 then 1 else 0;
      |s| > n && (value < 0 ==> s[0] == MINUS) && AllInert(s[n..])
  {
    hide DecimalText.Digits, DecimalText.Padded, DecimalText.Pow10;
    var s := DecimalText.DecimalToString(value, scale).value;
    var abs: nat := if value < 0 then -(value as int) else value;
    var sign := if value < 0 then [MINUS] else [];
    if scale == 0 {
      assert s == sign + DecimalText.Digits(abs);
    } else {
      var factor := DecimalText.Pow10(scale % TWO_32);
      var whole := DecimalText.Digits(Arithmetic.Quotient(abs, factor));
      var fraction := DecimalText.Padded(Arithmetic.Remainder(abs, factor), scale);
      assert s == sign + (whole + [DecimalText.DOT] + fraction);
    }
  }

  /** Code again, or just behind a quote, which is the same to the lexer. */
  predicate Settles(m: Mode) {
    m == Code || m == SingleEnd
  }

  /** What a literal does to the mode it is put in: it comes out settled, unless a minus
      sign meets a dash and the two begin a comment. */
  predicate LexesWell(m: Mode, s: seq<byte>) {
    s != [] && if m == Dash && s[0] == MINUS then Lex(m, s) == Line else Settles(Lex(m, s))
  }

  lemma ValueLexes(m: Mode, v: Value)
    requires Outside(m) && ValueLiteral(v).Success?
    ensures LexesWell(m, ValueLiteral(v).value)
  {
    WordsAreInert();
    CallsAreInert();
    hide Ascii, DecimalText.IntegerText, IntervalText;
    match v
    case Null => LexInert(m, Ascii("NULL"));
    case Bool(b) => LexInert(m, if b then Ascii("TRUE") else Ascii("FALSE"));
    case Int(i) => LexInteger(m, i);
    case UInt(u) => LexInteger(m, u);
    case HugeInt(h) => LexInteger(m, h);
    case UHugeInt(u) => LexInteger(m, u);
    case Str(s) =>
      LexDoubled(s);
      LexInQuotes(m, DoubleQuotes(s));
    case Bytes(raw) =>
      HexIsInert(raw);
      LexInert(Single, HexText(raw));
      LexCall(m, Ascii("from_hex("), HexText(raw), Ascii(")"));
    case Decimal(unscaled, _, scale) => LexDecimal(m, unscaled, scale);
    case Interval(months, days, micros) =>
      LexInterval(months, days, micros);
      LexCall(m, Ascii("INTERVAL "), IntervalText(months, days, micros), []);
      assert Ascii("INTERVAL ") + InQuotes(IntervalText(months, days, micros)) + [] ==
        Ascii("INTERVAL ") + InQuotes(IntervalText(months, days, micros));
  }

  lemma LexCall(m: Mode, word: seq<byte>, s: seq<byte>, end: seq<byte>)
    requires Outside(m) && word != [] && AllInert(word) && AllInert(end) && Lex(Single, s) == Single
    ensures LexesWell(m, word + InQuotes(s) + end)
  {
    LexInert(m, word);
    LexInQuotes(Code, s);
    LexAppend(m, word, InQuotes(s));
    LexAppend(m, word + InQuotes(s), end);
    LexInert(SingleEnd, end);
    assert (word + InQuotes(s) + end)[0] == word[0] && Inert(word[0]);
  }

  lemma {:induction false} LiteralLexes(m: Mode, p: SqlParameter)
    requires Outside(m) && NoForeign(p) && Literal(p).Success?
    ensures LexesWell(m, Literal(p).value)
    decreases p
  {
    match p
    case Plain(v) => ValueLexes(m, v);
    case ListOf(items) =>
      BracketsAreInert();
      var texts := Literals(items).value;
      LiteralsLex(items);
      LexInert(m, Ascii("["));
      LexAppend(m, Ascii("["), texts);
      LexAppend(m, Ascii("[") + texts, Ascii("]"));
      LexInert(Lex(Code, texts), Ascii("]"));
      assert (Ascii("[") + texts + Ascii("]"))[0] == Ascii("[")[0] && Inert(Ascii("[")[0]);
  }

  lemma {:induction false} LiteralsLex(items: seq<SqlParameter>)
    requires Literals(items).Success? && forall i | 0 <= i < |items| :: NoForeign(items[i])
    ensures Settles(Lex(Code, Literals(items).value))
    decreases items
  {
    if items != [] {
      var first, rest := Literal(items[0]).value, Literals(items[1..]).value;
      LiteralLexes(Code, items[0]);
      LiteralsLex(items[1..]);
      BracketsAreInert();
      LexInert(Lex(Code, first), Ascii(", "));
      LexAppend(Code, first, Ascii(", "));
      LexAppend(Code, first + Ascii(", "), rest);
    }
  }

  // ---- whole statements ----

  /** No negative number is put directly behind a dash. */
  predicate NoDashMeetsMinus(m: Mode, sql: seq<byte>, i: nat, params: seq<SqlParameter>)
    requires i <= |sql|
    decreases |sql| - i
  {
    i == |sql| ||
    if Outside(m) && sql[i] == QUESTION then
      params == []
      || (&& (Literal(params[0]).Success? ==> m == Dash ==> !([MINUS] <= Literal(params[0]).value))
          && NoDashMeetsMinus(Next(m, sql[i]), sql, i + 1, params[1..]))
    else NoDashMeetsMinus(Next(m, sql[i]), sql, i + 1, params)
  }

  /** A closing quote settles into plain SQL. */
  function Canonical(m: Mode): Mode {
    if m == SingleEnd || m == DoubleEnd then Code else m
  }

  /** Modes with the same canonical form lex alike. */
  lemma {:induction false} LexCanonical(m: Mode, n: Mode, s: seq<byte>)
    requires Canonical(m) == Canonical(n)
    ensures Canonical(Lex(m, s)) == Canonical(Lex(n, s))
    decreases |s|
  {
    if s != [] {
      LexCanonical(Next(m, s[0]), Next(n, s[0]), s[1..]);
    }
  }

  lemma LexPushed(m: Mode, b: byte)
    ensures Lex(m, [b]) == Next(m, b)
    ensures Outside(m) ==> Lex(m, Pushed(b)) == Next(m, b)
  {
    assert [b][1..] == [];
    if b >= 0x80 {
      LexInert(m, Pushed(b));
    }
  }

  /** With the literals in, the statement ends in the mode in which the text with the
      placeholders ends. */
  lemma {:induction false} FormattingEndsAlike(m: Mode, sql: seq<byte>, i: nat, params: seq<SqlParameter>)
    requires i <= |sql| && Positional(m, sql, i, params).Success?
    requires (forall k | 0 <= k < |params| :: NoForeign(params[k])) && NoDashMeetsMinus(m, sql, i, params)
    ensures Canonical(Lex(m, Positional(m, sql, i, params).value)) == Canonical(Lex(m, sql[i..]))
    decreases |sql| - i
  {
    hide Literal, NoForeign, Next, Outside;
    if i < |sql| {
      var b := sql[i];
      assert sql[i..][1..] == sql[i + 1..];
      if Outside(m) && b == QUESTION {
        var text := Literal(params[0]).value;
        var more := Positional(Next(m, b), sql, i + 1, params[1..]).value;
        LiteralLexes(m, params[0]);
        FormattingEndsAlike(Next(m, b), sql, i + 1, params[1..]);
        LexAppend(m, text, more);
        QuestionIsInert(m);
        LexCanonical(Lex(m, text), Next(m, b), more);
      } else {
        var piece := if Outside(m) then Pushed(b) else [b];
        var more := Positional(Next(m, b), sql, i + 1, params).value;
        FormattingEndsAlike(Next(m, b), sql, i + 1, params);
        LexAppend(m, piece, more);
        LexPushed(m, b);
      }
    }
  }

  lemma QuestionIsInert(m: Mode)
    requires Outside(m)
    ensures Next(m, QUESTION) == Code
  {
  }

  /** A negative number behind a dash comments out what follows: "1-?" with -5 is "1--5". */
  lemma DashMeetsMinus()
    ensures var sql := [49, MINUS, QUESTION, 59];
      var out := Positional(Code, sql, 0, [Plain(Int(-5))]);
      out.Success? && out.value == [49, MINUS, MINUS, 53, 59] && Lex(Code, out.value) == Line && Lex(Code, sql) == Code
  {
    var sql := [49, MINUS, QUESTION, 59];
    var params := [Plain(Int(-5))];
    assert Literal(params[0]).value == [MINUS, 53] by {
      assert DecimalText.Digits(5) == [53];
    }
    assert Positional(Code, sql, 4, []).value == [];
    assert Positional(Code, sql, 3, []).value == [59];
    assert params[1..] == [];
    assert Positional(Dash, sql, 2, params).value == [MINUS, 53, 59];
    assert Positional(Code, sql, 1, params).value == [MINUS, MINUS, 53, 59];
    assert Positional(Code, sql, 0, params).value == [49, MINUS, MINUS, 53, 59];
    LexInert(Line, [53, 59]);
    LexAppend(Code, [49, MINUS, MINUS], [53, 59]);
    LexThree(Code, 49, MINUS, MINUS);
    LexAppend(Code, [49, MINUS, QUESTION], [59]);
    LexThree(Code, 49, MINUS, QUESTION);
    LexInert(Code, [59]);
    assert [49, MINUS, MINUS, 53, 59] == [49, MINUS, MINUS] + [53, 59] && sql == [49, MINUS, QUESTION] + [59];
  }

  lemma LexThree(m: Mode, a: byte, b: byte, c: byte)
    ensures Lex(m, [a, b, c]) == Next(Next(Next(m, a), b), c)
  {
    hide Next;
    assert [a, b, c][1..] == [b, c] && [b, c][1..] == [c] && [c][1..] == [];
    var n := Next(m, a);
    var k := Next(n, b);
    assert Lex(k, [c]) == Lex(Next(k, c), []);
    assert Lex(n, [b, c]) == Lex(k, [c]);
  }
}
