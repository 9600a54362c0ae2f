/** What each byte of formatted SQL is to the lexer, compared with what it was in the
    text with the placeholders: exactly when literals keep to themselves. */
module SqlRoles {
  import opened Prelude
  import opened Values
  import opened SqlLiterals
  import opened SqlScanner
  import opened SqlLexing
  import DecimalText = Decimal

  /** Plain SQL; the quote that opens a span; what is inside a span, its closing quote
      included; the quote that continues a span behind what looked like its end; the byte
      that turns a dash or slash into a comment; what is inside a comment. */
  datatype Role = InCode | Opens | InSpan | Continues | BeginsComment | InComment

  function CodeRole(b: byte): Role {
    if b == QUOTE || b == DOUBLE_QUOTE then Opens else InCode
  }

  function RoleOf(m: Mode, b: byte): Role {
    match m
    case Code => CodeRole(b)
    case Dash => if b == MINUS then BeginsComment else CodeRole(b)
    case Slash => if b == STAR then BeginsComment else CodeRole(b)
    case Single => InSpan
    case SingleEnd => if b == QUOTE then Continues else CodeRole(b)
    case Double => InSpan
    case DoubleEnd => if b == DOUBLE_QUOTE then Continues else CodeRole(b)
    case Line => InComment
    case Block => InComment
    case BlockStar => InComment
  }

  /** The role of every byte. */
  function Roles(m: Mode, s: seq<byte>): (roles: seq<Role>)
    ensures |roles| == |s|
    decreases |s|
  {
    if s == [] then [] else [RoleOf(m, s[0])] + Roles(Next(m, s[0]), s[1..])
  }

  predicate InsideSpan(r: Role) {
    r == InSpan || r == Continues
  }

  /** Roles show the spans that the scanner copies: from the opening quote to the end of its
      span every byte is inside, and the next one is not. */
  lemma {:induction false} RolesShowSpan(s: seq<byte>, i: nat, quote: byte)
    requires i <= |s| && quote in {QUOTE, DOUBLE_QUOTE}
    ensures var roles := Roles(if quote == QUOTE then Single else Mode.Double, s[i..]);
      var n := QuotedEnd(s, i, quote) - i;
      (forall k | 0 <= k < n :: InsideSpan(roles[k])) && (n < |roles| ==> !InsideSpan(roles[n]))
    decreases |s| - i
  {
    hide Roles, Next;
    if i < |s| {
      if s[i] != quote {
        RolesShowSpan(s, i + 1, quote);
        SpanByte(s, i, quote);
      } else if i + 1 < |s| {
        SpanQuote(s, i, quote);
        if s[i + 1] == quote {
          RolesShowSpan(s, i + 2, quote);
        }
      } else {
        SpanByte(s, i, quote);
      }
    }
  }

  /** One byte inside a span. */
  lemma SpanByte(s: seq<byte>, i: nat, quote: byte)
    requires i < |s| && quote in {QUOTE, DOUBLE_QUOTE}
    ensures var m := if quote == QUOTE then Single else Mode.Double;
      Roles(m, s[i..]) == [InSpan] + Roles(Next(m, s[i]), s[i + 1..]) && (s[i] != quote ==> Next(m, s[i]) == m)
  {
    assert s[i..][1..] == s[i + 1..];
  }

  /** A quote inside a span, and what the byte behind it makes of it. */
  lemma SpanQuote(s: seq<byte>, i: nat, quote: byte)
    requires i + 1 < |s| && quote in {QUOTE, DOUBLE_QUOTE} && s[i] == quote
    ensures var m := if quote == QUOTE then Single else Mode.Double;
      if s[i + 1] == quote then Roles(m, s[i..]) == [InSpan, Continues] + Roles(m, s[i + 2..])
      else Roles(m, s[i..])[0] == InSpan && !InsideSpan(Roles(m, s[i..])[1])
  {
    var m := if quote == QUOTE then Single else Mode.Double;
    SpanByte(s, i, quote);
    assert s[i + 1..][1..] == s[i + 2..];
    assert [InSpan] + ([Continues] + Roles(m, s[i + 2..])) == [InSpan, Continues] + Roles(m, s[i + 2..]);
  }

  lemma {:induction false} RolesAppend(m: Mode, a: seq<byte>, b: seq<byte>)
    ensures Roles(m, a + b) == Roles(m, a) + Roles(Lex(m, a), b)
    decreases |a|
  {
    hide RoleOf, Next;
    if a == [] {
      assert a + b == b;
      assert Roles(m, []) + Roles(m, b) == Roles(m, b);
    } else {
      var n := Next(m, a[0]);
      RolesAppend(n, a[1..], b);
      assert (a + b)[1..] == a[1..] + b;
      assert Roles(m, a + b) == [RoleOf(m, a[0])] + (Roles(n, a[1..]) + Roles(Lex(n, a[1..]), b));
    }
  }

  // ---- literals ----

  /** A minus sign behind a dash, or a quote behind a closing quote. */
  predicate Touches(m: Mode, literal: seq<byte>)
    requires literal != []
  {
    (m == Dash && literal[0] == MINUS) || (m == SingleEnd && literal[0] == QUOTE)
  }

  predicate EndsQuoted(literal: seq<byte>)
    requires literal != []
  {
    literal[|literal| - 1] == QUOTE
  }

  lemma {:induction false} LexLast(m: Mode, s: seq<byte>)
    requires s != []
    ensures Lex(m, s) == Next(Lex(m, s[..|s| - 1]), s[|s| - 1])
  {
    assert s == s[..|s| - 1] + [s[|s| - 1]];
    LexAppend(m, s[..|s| - 1], [s[|s| - 1]]);
    assert [s[|s| - 1]][1..] == [];
  }

  lemma FirstByte(p: SqlParameter)
    requires NoForeign(p) && Literal(p).Success?
    ensures Literal(p).value != [] && Literal(p).value[0] !in {STAR, DOUBLE_QUOTE}
  {
    hide IntervalText, DoubleQuotes, HexText;
    match p
    case Plain(Decimal(unscaled, _, scale)) => LexDecimal(Code, unscaled, scale);
      DecimalFirst(unscaled, scale);
    case Plain(Int(n)) => IntegerFirst(n);
    case Plain(UInt(n)) => IntegerFirst(n);
    case Plain(HugeInt(n)) => IntegerFirst(n);
    case Plain(UHugeInt(n)) => IntegerFirst(n);
    case _ =>
  }

  lemma IntegerFirst(n: int)
    ensures DecimalText.IntegerText(n) != [] && DecimalText.IntegerText(n)[0] !in {STAR, DOUBLE_QUOTE}
  {
    var digits := DecimalText.Digits(if n < 0 then -n else n);
    assert DecimalText.IsDigit(digits[0]);
    hide DecimalText.Digits;
  }

  lemma DecimalFirst(value: i128, scale: u64)
    requires DecimalText.DecimalToString(value, scale).Success?
    ensures var s := DecimalText.DecimalToString(value, scale).value;
      s != [] && s[0] !in {STAR, DOUBLE_QUOTE}
  {
    DecimalBody(value, scale);
    var s := DecimalText.DecimalToString(value, scale).value;
    hide DecimalText.DecimalToString;
    if value >= 0 {
      assert s[0..][0] == s[0] && Inert(s[0..][0]);
    }
  }

  /** A literal that is lexed from plain SQL back to plain SQL and does not begin with a star
      or a double quote. */
  predicate KeepsToItself(p: SqlParameter) {
    Literal(p).Success? ==>
      var literal := Literal(p).value;
      literal != [] && literal[0] !in {STAR, DOUBLE_QUOTE} && Settles(Lex(Code, literal))
  }

  /** Every literal built here is one; so is any text of a library like that. */
  lemma ModelledKeepToThemselves(p: SqlParameter)
    requires NoForeign(p)
    ensures KeepsToItself(p)
  {
    if Literal(p).Success? {
      FirstByte(p);
      LiteralLexes(Code, p);
    }
  }

  /** A literal lexes as it would alone exactly when it does not touch what is before it. */
  lemma LiteralAlone(m: Mode, p: SqlParameter)
    requires Outside(m) && KeepsToItself(p) && Literal(p).Success?
    ensures var literal := Literal(p).value;
      && literal != []
      && (Roles(m, literal) == Roles(Code, literal) <==> !Touches(m, literal))
      && (!Touches(m, literal) ==> Lex(m, literal) == Lex(Code, literal))
      && Lex(Code, literal) == if EndsQuoted(literal) then SingleEnd else Code
  {
    var literal := Literal(p).value;
    LexLast(Code, literal);
    SettledLast(Code, literal);
    FirstDecides(m, literal);
  }

  lemma SettledLast(m: Mode, s: seq<byte>)
    requires s != [] && Settles(Lex(m, s)) && Lex(m, s) == Next(Lex(m, s[..|s| - 1]), s[|s| - 1])
    ensures Lex(m, s) == if EndsQuoted(s) then SingleEnd else Code
  {
    hide Lex;
  }

  /** Only the first byte of a text can see what is before it. */
  lemma FirstDecides(m: Mode, s: seq<byte>)
    requires Outside(m) && s != [] && s[0] !in {STAR, DOUBLE_QUOTE}
    ensures Roles(m, s) == Roles(Code, s) <==> !Touches(m, s)
    ensures !Touches(m, s) ==> Lex(m, s) == Lex(Code, s)
  {
    assert Roles(m, s)[0] == RoleOf(m, s[0]) && Roles(Code, s)[0] == RoleOf(Code, s[0]);
    assert !Touches(m, s) ==> Next(m, s[0]) == Next(Code, s[0]);
  }

  // ---- statements ----

  /** What each byte of formatted SQL should be: a literal what it is alone, and everything
      else what it is in the text with the placeholders. */
  function TemplateRoles(m: Mode, sql: seq<byte>, i: nat, params: seq<SqlParameter>): seq<Role>
    requires i <= |sql| && Positional(m, sql, i, params).Success?
    decreases |sql| - i
  {
    if i == |sql| then []
    else
      var b := sql[i];
      if Outside(m) && b == QUESTION then
        Roles(Code, Literal(params[0]).value) + TemplateRoles(Next(m, b), sql, i + 1, params[1..])
      else
        Roles(m, Piece(m, b)) + TemplateRoles(Next(m, b), sql, i + 1, params)
  }

  /** What is pushed for a byte that is not a placeholder. */
  function Piece(m: Mode, b: byte): seq<byte> {
    if Outside(m) then Pushed(b) else [b]
  }

  /** No literal that begins with a minus sign is put behind a dash, and no single quote
      meets another across the edge of a literal: a literal that begins with one does not
      stand behind a closing quote or behind a literal that ends with one, and a literal
      that ends with one does not stand before a quote. `quoted` says that such a literal
      was put just before. */
  predicate NoneTouch(m: Mode, quoted: bool, sql: seq<byte>, i: nat, params: seq<SqlParameter>)
    requires i <= |sql| && Positional(m, sql, i, params).Success?
    decreases |sql| - i
  {
    i == |sql| ||
    if Outside(m) && sql[i] == QUESTION then
      var literal := Literal(params[0]).value;
      && !(m == Dash && [MINUS] <= literal)
      && !((m == SingleEnd || quoted) && [QUOTE] <= literal)
      && NoneTouch(Next(m, QUESTION), literal != [] && EndsQuoted(literal), sql, i + 1, params[1..])
    else
      !(quoted && sql[i] == QUOTE) && NoneTouch(Next(m, sql[i]), false, sql, i + 1, params)
  }

  lemma PieceRoles(m: Mode, b: byte)
    ensures Lex(m, Piece(m, b)) == Next(m, b) && Roles(m, Piece(m, b))[0] == RoleOf(m, if b < 0x80 then b else 0x80)
    ensures b != QUOTE ==>
      Roles(SingleEnd, Piece(Code, b)) == Roles(Code, Piece(Code, b)) && Lex(SingleEnd, Piece(Code, b)) == Next(Code, b)
  {
    LexPushed(m, b);
    LexPushed(Code, b);
    LexPushed(SingleEnd, b);
  }

  /** Behind a literal that ends with a quote the lexer is in another mode than in the
      text with the placeholders; it shows exactly when another quote follows. */
  lemma {:induction false} RolesKept(m: Mode, quoted: bool, sql: seq<byte>, i: nat, params: seq<SqlParameter>)
    requires i <= |sql| && (quoted ==> m == Code) && Positional(m, sql, i, params).Success?
    requires forall k | 0 <= k < |params| :: KeepsToItself(params[k])
    ensures var now := if quoted then SingleEnd else m;
      Roles(now, Positional(m, sql, i, params).value) == TemplateRoles(m, sql, i, params) <==>
      NoneTouch(m, quoted, sql, i, params)
    decreases |sql| - i
  {
    hide Literal, KeepsToItself, Lex, Roles, Pushed;
    var now := if quoted then SingleEnd else m;
    if i < |sql| {
      var b := sql[i];
      if Outside(m) && b == QUESTION {
        var literal := Literal(params[0]).value;
        var more := Positional(Next(m, b), sql, i + 1, params[1..]).value;
        LiteralAlone(now, params[0]);
        RolesAppend(now, literal, more);
        RolesKept(Code, EndsQuoted(literal), sql, i + 1, params[1..]);
        SameSplit(Roles(now, literal), Roles(Code, literal), Roles(Lex(now, literal), more),
                  TemplateRoles(Code, sql, i + 1, params[1..]));
      } else {
        var more := Positional(Next(m, b), sql, i + 1, params).value;
        PieceRoles(m, b);
        RolesAppend(now, Piece(m, b), more);
        RolesKept(Next(m, b), false, sql, i + 1, params);
        SameSplit(Roles(now, Piece(m, b)), Roles(m, Piece(m, b)), Roles(Lex(now, Piece(m, b)), more),
                  TemplateRoles(Next(m, b), sql, i + 1, params));
        if quoted && b == QUOTE {
          QuoteContinues();
        }
      }
    } else {
      assert Roles(now, []) == [];
    }
  }

  lemma SameSplit(a: seq<Role>, b: seq<Role>, x: seq<Role>, y: seq<Role>)
    requires |a| == |b|
    ensures a + x == b + y <==> a == b && x == y
  {
    if a + x == b + y {
      assert a == (a + x)[..|a|] && b == (b + y)[..|a|];
      assert x == (a + x)[|a|..] && y == (b + y)[|a|..];
    }
  }

  lemma QuoteContinues()
    ensures Roles(SingleEnd, Piece(Code, QUOTE)) != Roles(Code, Piece(Code, QUOTE))
  {
    assert Roles(SingleEnd, [QUOTE])[0] == Continues && Roles(Code, [QUOTE])[0] == Opens;
  }

  /** Formatting keeps the lexical structure (every literal is what it is alone, and every
      other byte what it is in the text with the placeholders) exactly when no literal
      touches a dash or a quote next to it. */
  lemma FormattingKeepsLexing(sql: seq<byte>, params: seq<SqlParameter>)
    requires Positional(Code, sql, 0, params).Success?
    requires forall k | 0 <= k < |params| :: KeepsToItself(params[k])
    ensures Roles(Code, Positional(Code, sql, 0, params).value) == TemplateRoles(Code, sql, 0, params) <==>
      NoneTouch(Code, false, sql, 0, params)
  {
    RolesKept(Code, false, sql, 0, params);
  }

  /** A string put before a quote runs into it: "?'y'" with "x" is "'x''y'", one span of six
      bytes, where the literal alone has three. */
  lemma QuoteMeetsQuote()
    ensures var sql := [QUESTION, QUOTE, 121, QUOTE];
      var params := [Plain(Str([120]))];
      var out := Positional(Code, sql, 0, params);
      && out.Success? && out.value == [QUOTE, 120, QUOTE, QUOTE, 121, QUOTE]
      && QuotedEnd(out.value, 1, QUOTE) == 6 && QuotedEnd(Literal(params[0]).value, 1, QUOTE) == 3
      && !NoneTouch(Code, false, sql, 0, params)
  {
    var sql := [QUESTION, QUOTE, 121, QUOTE];
    AsciiIsUtf8([120]);
    var params := [Plain(Str([120]))];
    assert DoubleQuotes([120]) == [120] by {
      assert [120][1..] == [];
    }
    assert Literal(params[0]).value == [QUOTE, 120, QUOTE];
    assert params[1..] == [];
    assert Positional(SingleEnd, sql, 4, []).value == [];
    assert Positional(Single, sql, 3, []).value == [QUOTE];
    assert Positional(Single, sql, 2, []).value == [121, QUOTE];
    assert Positional(Code, sql, 1, []).value == [QUOTE, 121, QUOTE];
    var out := [QUOTE, 120, QUOTE, QUOTE, 121, QUOTE];
    assert Positional(Code, sql, 0, params).value == out;
    assert QuotedEnd(out, 4, QUOTE) == 6;
    assert QuotedEnd(out, 2, QUOTE) == 6;
    var literal := [QUOTE, 120, QUOTE];
    assert QuotedEnd(literal, 2, QUOTE) == 3;
  }
}
