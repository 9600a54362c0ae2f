/** Putting parameters into SQL text. The scanner copies quoted spans and comments
    whole and replaces the placeholders it meets outside them; a lexer that looks at
    one byte at a time says where outside is. */
module SqlScanner {
  import opened Prelude
  import opened SqlLiterals

  const NEWLINE: byte := 10
  const STAR: byte := 42
  const SLASH: byte := 47
  const COLON: byte := 58
  const QUESTION: byte := 63
  const UNDERSCORE: byte := 95

  // ---- the lexer ----

  /** What has been seen just before a byte: plain SQL, plain SQL ending in a dash or in a
      slash, a quote that opened or may have closed a span, a comment. */
  datatype Mode =
    Code | Dash | Slash | Single | SingleEnd | Double | DoubleEnd | Line | Block | BlockStar

  /** A byte in these modes is SQL proper. */
  predicate Outside(m: Mode) {
    m in {Code, Dash, Slash, SingleEnd, DoubleEnd}
  }

  function NextCode(b: byte): Mode {
    if b == QUOTE then Single
    else if b == DOUBLE_QUOTE then Double
    else if b == MINUS then Dash
    else if b == SLASH then Slash
    else Code
  }

  function Next(m: Mode, b: byte): Mode {
    match m
    case Code => NextCode(b)
    case Dash => if b == MINUS then Line else NextCode(b)
    case Slash => if b == STAR then Block else NextCode(b)
    case Single => if b == QUOTE then SingleEnd else Single
    case SingleEnd => if b == QUOTE then Single else NextCode(b)
    case Double => if b == DOUBLE_QUOTE then DoubleEnd else Double
    case DoubleEnd => if b == DOUBLE_QUOTE then Double else NextCode(b)
    case Line => if b == NEWLINE then Code else Line
    case Block => if b == STAR then BlockStar else Block
    case BlockStar => if b == SLASH then Code else if b == STAR then BlockStar else Block
  }

  /** The mode after some bytes. */
  function Lex(m: Mode, s: seq<byte>): Mode
    decreases |s|
  {
    if s == [] then m else Lex(Next(m, s[0]), s[1..])
  }

  /** A byte outside quotes and comments is pushed as the character of that number; from
      0x80 on that character takes two bytes. */
  function Pushed(b: byte): seq<byte> {
    if b < 0x80 then [b] else [0xC0 + b / 0x40, 0x80 + b % 0x40]
  }

  // ---- what formatting is supposed to do ----

  function Prepend(s: seq<byte>, r: Result<seq<byte>>): Result<seq<byte>> {
    match r
    case Success(more) => Success(s + more)
    case Failure(e) => Failure(e)
  }

  lemma PrependPrepend(a: seq<byte>, b: seq<byte>, r: Result<seq<byte>>)
    ensures Prepend(a, Prepend(b, r)) == Prepend(a + b, r)
    ensures Prepend([], r) == r
  {
    if r.Success? {
      assert a + (b + r.value) == (a + b) + r.value;
      assert [] + r.value == r.value;
    }
  }

  /** Positional formatting, byte by byte: each `?` outside takes the next literal, and
      the parameters have to come out even. */
  function Positional(m: Mode, sql: seq<byte>, i: nat, params: seq<SqlParameter>): Result<seq<byte>>
    requires i <= |sql|
    decreases |sql| - i
  {
    if i == |sql| then if params == [] then Success([]) else Failure(Protocol)
    else
      var b := sql[i];
      if Outside(m) && b == QUESTION then
        if params == [] then Failure(Protocol)
        else
          var literal :- Literal(params[0]);
          Prepend(literal, Positional(Next(m, b), sql, i + 1, params[1..]))
      else Prepend(if Outside(m) then Pushed(b) else [b], Positional(Next(m, b), sql, i + 1, params))
  }

  /** The number of placeholders from `i` on. */
  function Placeholders(m: Mode, sql: seq<byte>, i: nat): nat
    requires i <= |sql|
    decreases |sql| - i
  {
    if i == |sql| then 0
    else
      (if Outside(m) && sql[i] == QUESTION then 1 else 0) + Placeholders(Next(m, sql[i]), sql, i + 1)
  }

  predicate AllRender(params: seq<SqlParameter>) {
    forall k | 0 <= k < |params| :: Literal(params[k]).Success?
  }

  /** Formatting succeeds exactly when there are as many placeholders as parameters and
      every parameter has a literal. */
  lemma {:induction false} SucceedsExactlyWhen(m: Mode, sql: seq<byte>, i: nat, params: seq<SqlParameter>)
    requires i <= |sql|
    ensures Positional(m, sql, i, params).Success? <==> Placeholders(m, sql, i) == |params| && AllRender(params)
    decreases |sql| - i
  {
    hide Literal, Outside, Next;
    if i < |sql| {
      if Outside(m) && sql[i] == QUESTION {
        if params != [] {
          SucceedsExactlyWhen(Next(m, sql[i]), sql, i + 1, params[1..]);
          assert AllRender(params) <==> Literal(params[0]).Success? && AllRender(params[1..]) by {
            assert forall k | 0 < k < |params| :: params[1..][k - 1] == params[k];
          }
        }
      } else {
        SucceedsExactlyWhen(Next(m, sql[i]), sql, i + 1, params);
      }
    }
  }

  /** No byte above 0x7F outside quotes and comments. */
  predicate AsciiOutside(m: Mode, sql: seq<byte>, i: nat)
    requires i <= |sql|
    decreases |sql| - i
  {
    i == |sql| || ((Outside(m) ==> sql[i] < 0x80) && AsciiOutside(Next(m, sql[i]), sql, i + 1))
  }

  /** The statement with a literal in place of each placeholder and every other byte as it was. */
  function Filled(m: Mode, sql: seq<byte>, i: nat, params: seq<SqlParameter>): Result<seq<byte>>
    requires i <= |sql|
    decreases |sql| - i
  {
    if i == |sql| then if params == [] then Success([]) else Failure(Protocol)
    else
      var b := sql[i];
      if Outside(m) && b == QUESTION then
        if params == [] then Failure(Protocol)
        else
          var literal :- Literal(params[0]);
          Prepend(literal, Filled(Next(m, b), sql, i + 1, params[1..]))
      else Prepend([b], Filled(Next(m, b), sql, i + 1, params))
  }

  /** The text between the literals is unchanged exactly when all of it outside quotes and
      comments is ASCII; otherwise it grows. */
  lemma {:induction false} UnchangedExactlyWhen(m: Mode, sql: seq<byte>, i: nat, params: seq<SqlParameter>)
    requires i <= |sql| && Positional(m, sql, i, params).Success?
    ensures Filled(m, sql, i, params).Success?
    ensures AsciiOutside(m, sql, i) <==> Positional(m, sql, i, params) == Filled(m, sql, i, params)
    ensures |Positional(m, sql, i, params).value| >= |Filled(m, sql, i, params).value|
    ensures !AsciiOutside(m, sql, i) ==>
      |Positional(m, sql, i, params).value| > |Filled(m, sql, i, params).value|
    decreases |sql| - i
  {
    hide Literal, Outside, Next;
    if i < |sql| {
      var m' := Next(m, sql[i]);
      if Outside(m) && sql[i] == QUESTION {
        UnchangedExactlyWhen(m', sql, i + 1, params[1..]);
      } else {
        UnchangedExactlyWhen(m', sql, i + 1, params);
        var more := Filled(m', sql, i + 1, params).value;
        assert Filled(m, sql, i, params).value == [sql[i]] + more;
      }
    }
  }

  /** Without placeholders there is nothing to fill in. */
  lemma {:induction false} NothingToFill(m: Mode, sql: seq<byte>, i: nat)
    requires i <= |sql| && Placeholders(m, sql, i) == 0
    ensures Filled(m, sql, i, []) == Success(sql[i..])
    decreases |sql| - i
  {
    hide Outside, Next;
    if i < |sql| {
      NothingToFill(Next(m, sql[i]), sql, i + 1);
      assert sql[i..] == [sql[i]] + sql[i + 1..];
    } else {
      assert sql[i..] == [];
    }
  }

  // ---- the scanner ----

  datatype SqlParameters = ByPosition(values: seq<SqlParameter>) | ByName(named: map<seq<byte>, SqlParameter>)

  predicate IsIdentifierStart(b: byte) {
    65 <= b <= 90 || 97 <= b <= 122 || b == UNDERSCORE
  }

  predicate IsIdentifierPart(b: byte) {
    IsIdentifierStart(b) || 48 <= b <= 57
  }

  /** The end of the run of identifier bytes that starts at `i`. */
  function IdentifierEnd(sql: seq<byte>, i: nat): (end: nat)
    requires i <= |sql|
    ensures i <= end <= |sql|
    decreases |sql| - i
  {
    if i < |sql| && IsIdentifierPart(sql[i]) then IdentifierEnd(sql, i + 1) else i
  }

  /** A colon that starts a name: no colon before it, and the start of a name behind. */
  predicate StartsName(sql: seq<byte>, i: nat)
    requires i < |sql|
  {
    && sql[i] == COLON && (i == 0 || sql[i - 1] != COLON)
    && i + 1 < |sql| && IsIdentifierStart(sql[i + 1])
  }

  /** What stands in for a token, `?` or a name with its colon; `used` parameters are gone. */
  function Replacement(params: SqlParameters, used: nat, token: seq<byte>): Result<seq<byte>>
    requires token != []
  {
    match params
    case ByPosition(values) =>
      if token != [QUESTION] then Success(token)
      else if used < |values| then Literal(values[used]) else Failure(Protocol)
    case ByName(named) =>
      if token[0] != COLON then Success(token)
      else if token[1..] in named then Literal(named[token[1..]]) else Failure(Protocol)
  }

  /** Both kinds of formatting, with the lexer deciding what is outside. */
  function Rewrite(m: Mode, sql: seq<byte>, i: nat, params: SqlParameters, used: nat): Result<seq<byte>>
    requires i <= |sql|
    decreases |sql| - i
  {
    if i == |sql| then
      if params.ByPosition? && used != |params.values| then Failure(Protocol) else Success([])
    else
      var b := sql[i];
      if Outside(m) && b == QUESTION then
        var text :- Replacement(params, used, [b]);
        Prepend(text, Rewrite(Next(m, b), sql, i + 1, params, used + 1))
      else if Outside(m) && StartsName(sql, i) then
        var end := IdentifierEnd(sql, i + 2);
        var text :- Replacement(params, used, sql[i..end]);
        Prepend(text, Rewrite(Code, sql, end, params, used))
      else Prepend(if Outside(m) then Pushed(b) else [b], Rewrite(Next(m, b), sql, i + 1, params, used))
  }

  /** Where a quoted span ends, reading from inside it: behind the closing quote, or at the end. */
  function QuotedEnd(sql: seq<byte>, i: nat, quote: byte): (end: nat)
    requires i <= |sql|
    ensures i <= end <= |sql|
    decreases |sql| - i
  {
    if i == |sql| then i
    else if sql[i] != quote then QuotedEnd(sql, i + 1, quote)
    else if i + 1 < |sql| && sql[i + 1] == quote then QuotedEnd(sql, i + 2, quote)
    else i + 1
  }

  method ReadQuoted(sql: seq<byte>, start: nat, quote: byte) returns (end: nat)
    requires start < |sql|
    ensures end == QuotedEnd(sql, start + 1, quote)
  {
    var index := start + 1;
    while index < |sql|
      invariant start < index <= |sql|
      invariant QuotedEnd(sql, index, quote) == QuotedEnd(sql, start + 1, quote)
    {
      if sql[index] == quote && index + 1 < |sql| && sql[index + 1] == quote {
        index := index + 2;
        continue;
      }
      if sql[index] == quote {
        return index + 1;
      }
      index := index + 1;
    }
    end := index;
  }

  /** The first newline from `i` on, or the end. */
  function LineEnd(sql: seq<byte>, i: nat): (end: nat)
    requires i <= |sql|
    ensures i <= end <= |sql|
    decreases |sql| - i
  {
    if i == |sql| || sql[i] == NEWLINE then i else LineEnd(sql, i + 1)
  }

  /** Behind the first star and slash from `i` on, or the end. */
  function BlockEnd(sql: seq<byte>, i: nat): (end: nat)
    requires i <= |sql|
    ensures i <= end <= |sql|
    decreases |sql| - i
  {
    if |sql| - i < 2 then |sql|
    else if sql[i] == STAR && sql[i + 1] == SLASH then i + 2
    else BlockEnd(sql, i + 1)
  }

  // ---- spans are copied whole ----

  /** A byte that does not complete what the mode has begun is lexed afresh. */
  lemma Settled(m: Mode, sql: seq<byte>, i: nat, params: SqlParameters, used: nat)
    requires i <= |sql| && Outside(m) && (i < |sql| ==> Next(m, sql[i]) == NextCode(sql[i]))
    ensures Rewrite(m, sql, i, params, used) == Rewrite(Code, sql, i, params, used)
  {
    hide Replacement, StartsName, IdentifierEnd, NextCode;
  }

  /** A byte that is neither a placeholder nor the start of a name. */
  lemma OneByte(m: Mode, sql: seq<byte>, i: nat, params: SqlParameters, used: nat)
    requires i < |sql| && (Outside(m) ==> sql[i] < 0x80 && sql[i] != QUESTION && sql[i] != COLON)
    ensures Rewrite(m, sql, i, params, used) ==
      Prepend(sql[i..i + 1], Rewrite(Next(m, sql[i]), sql, i + 1, params, used))
  {
    hide Replacement, IdentifierEnd, Next, Outside;
    assert sql[i..i + 1] == [sql[i]];
  }

  lemma TwoBytes(m: Mode, sql: seq<byte>, i: nat, params: SqlParameters, used: nat)
    requires i + 1 < |sql|
    requires Outside(m) ==> sql[i] < 0x80 && sql[i] != QUESTION && sql[i] != COLON
    requires Outside(Next(m, sql[i])) ==> sql[i + 1] < 0x80 && sql[i + 1] != QUESTION && sql[i + 1] != COLON
    ensures Rewrite(m, sql, i, params, used) ==
      Prepend(sql[i..i + 2], Rewrite(Next(Next(m, sql[i]), sql[i + 1]), sql, i + 2, params, used))
  {
    hide Rewrite, Next, Outside;
    OneByte(m, sql, i, params, used);
    OneByte(Next(m, sql[i]), sql, i + 1, params, used);
    Joined(sql, i, i + 1, i + 2, Rewrite(Next(Next(m, sql[i]), sql[i + 1]), sql, i + 2, params, used));
  }

  lemma Joined(sql: seq<byte>, i: nat, j: nat, k: nat, r: Result<seq<byte>>)
    requires i <= j <= k <= |sql|
    ensures Prepend(sql[i..j], Prepend(sql[j..k], r)) == Prepend(sql[i..k], r)
  {
    PrependPrepend(sql[i..j], sql[j..k], r);
    assert sql[i..j] + sql[j..k] == sql[i..k];
  }

  lemma {:induction false} QuotedSpan(sql: seq<byte>, i: nat, quote: byte, params: SqlParameters, used: nat)
    requires i <= |sql| && quote in {QUOTE, DOUBLE_QUOTE}
    ensures var end := QuotedEnd(sql, i, quote);
      Rewrite(if quote == QUOTE then Single else Double, sql, i, params, used) ==
      Prepend(sql[i..end], Rewrite(Code, sql, end, params, used))
    decreases |sql| - i
  {
    var inside := if quote == QUOTE then Single else Double;
    var end := QuotedEnd(sql, i, quote);
    var rest := Rewrite(Code, sql, end, params, used);
    if i == |sql| {
      PrependPrepend([], [], rest);
      assert sql[i..end] == [];
    } else if sql[i] != quote {
      QuotedSpan(sql, i + 1, quote, params, used);
      OneByte(inside, sql, i, params, used);
      Joined(sql, i, i + 1, end, rest);
    } else if i + 1 < |sql| && sql[i + 1] == quote {
      QuotedSpan(sql, i + 2, quote, params, used);
      TwoBytes(inside, sql, i, params, used);
      Joined(sql, i, i + 2, end, rest);
    } else {
      OneByte(inside, sql, i, params, used);
      Settled(Next(inside, quote), sql, i + 1, params, used);
    }
  }

  lemma {:induction false} LineSpan(sql: seq<byte>, i: nat, params: SqlParameters, used: nat)
    requires i <= |sql|
    ensures var end := LineEnd(sql, i);
      Rewrite(Line, sql, i, params, used) == Prepend(sql[i..end], Rewrite(Code, sql, end, params, used))
    decreases |sql| - i
  {
    var end := LineEnd(sql, i);
    var rest := Rewrite(Code, sql, end, params, used);
    if i == |sql| {
      PrependPrepend([], [], rest);
      assert sql[i..end] == [];
    } else if sql[i] == NEWLINE {
      OneByte(Line, sql, i, params, used);
      OneByte(Code, sql, i, params, used);
      PrependPrepend([], [], rest);
      assert sql[i..end] == [];
    } else {
      LineSpan(sql, i + 1, params, used);
      OneByte(Line, sql, i, params, used);
      Joined(sql, i, i + 1, end, rest);
    }
  }

  lemma {:induction false} BlockSpan(sql: seq<byte>, i: nat, params: SqlParameters, used: nat)
    requires i <= |sql|
    ensures var end := BlockEnd(sql, i);
      Rewrite(Block, sql, i, params, used) == Prepend(sql[i..end], Rewrite(Code, sql, end, params, used))
    decreases |sql| - i
  {
    var end := BlockEnd(sql, i);
    var rest := Rewrite(Code, sql, end, params, used);
    if i == |sql| {
      PrependPrepend([], [], rest);
      assert sql[i..end] == [];
    } else if i + 1 < |sql| && sql[i] == STAR && sql[i + 1] == SLASH {
      TwoBytes(Block, sql, i, params, used);
    } else {
      BlockSpan(sql, i + 1, params, used);
      OneByte(Block, sql, i, params, used);
      StarOrNot(Next(Block, sql[i]), sql, i + 1, params, used);
      Joined(sql, i, i + 1, end, rest);
    }
  }

  /** A star that no slash follows does not matter. */
  lemma StarOrNot(m: Mode, sql: seq<byte>, i: nat, params: SqlParameters, used: nat)
    requires i <= |sql| && m in {Block, BlockStar} && (m == BlockStar && i < |sql| ==> sql[i] != SLASH)
    ensures Rewrite(m, sql, i, params, used) == Rewrite(Block, sql, i, params, used)
  {
    hide Replacement, StartsName, IdentifierEnd;
  }

  method ScanSql(sql: seq<byte>, params: SqlParameters) returns (r: Result<seq<byte>>, used: nat)
    ensures Rewrite(Code, sql, 0, params, 0) ==
      if r.Success? && params.ByPosition? && used != |params.values| then Failure(Protocol) else r
  {
    hide QuotedEnd, LineEnd, BlockEnd, Replacement, Rewrite;
    var output := [];
    used := 0;
    var index := 0;
    PrependPrepend([], [], Rewrite(Code, sql, 0, params, 0));
    while index < |sql|
      invariant index <= |sql|
      invariant Prepend(output, Rewrite(Code, sql, index, params, used)) == Rewrite(Code, sql, 0, params, 0)
      decreases |sql| - index
    {
      var b := sql[index];
      var end := index + 1;
      if b == QUOTE || b == DOUBLE_QUOTE {
        end := ReadQuoted(sql, index, b);
        QuotedFromCode(sql, index, b, params, used);
      } else if b == MINUS && index + 1 < |sql| && sql[index + 1] == MINUS {
        end := LineEnd(sql, index + 2);
        LineFromCode(sql, index, params, used);
      } else if b == SLASH && index + 1 < |sql| && sql[index + 1] == STAR {
        end := BlockEnd(sql, index + 2);
        BlockFromCode(sql, index, params, used);
      } else if b == QUESTION {
        PlaceholderFromCode(sql, index, params, used);
        var text := Replacement(params, used, [QUESTION]);
        if text.Failure? {
          return text, used;
        }
        PrependPrepend(output, text.value, Rewrite(Code, sql, index + 1, params, used + 1));
        output := output + text.value;
        used := used + 1;
        index := index + 1;
        continue;
      } else if StartsName(sql, index) {
        end := IdentifierEnd(sql, index + 2);
        NameFromCode(sql, index, params, used);
        var text := Replacement(params, used, sql[index..end]);
        if text.Failure? {
          return text, used;
        }
        PrependPrepend(output, text.value, Rewrite(Code, sql, end, params, used));
        output := output + text.value;
        index := end;
        continue;
      } else {
        ByteFromCode(sql, index, params, used);
        PrependPrepend(output, Pushed(b), Rewrite(Code, sql, index + 1, params, used));
        output := output + Pushed(b);
        index := index + 1;
        continue;
      }
      PrependPrepend(output, sql[index..end], Rewrite(Code, sql, end, params, used));
      output := output + sql[index..end];
      index := end;
    }
    EndFromCode(sql, params, used);
    assert output + [] == output;
    r := Success(output);
  }

  lemma QuotedFromCode(sql: seq<byte>, i: nat, quote: byte, params: SqlParameters, used: nat)
    requires i < |sql| && sql[i] == quote && quote in {QUOTE, DOUBLE_QUOTE}
    ensures var end := QuotedEnd(sql, i + 1, quote);
      i < end && Rewrite(Code, sql, i, params, used) == Prepend(sql[i..end], Rewrite(Code, sql, end, params, used))
  {
    hide Rewrite, QuotedEnd;
    var end := QuotedEnd(sql, i + 1, quote);
    OneByte(Code, sql, i, params, used);
    QuotedSpan(sql, i + 1, quote, params, used);
    Joined(sql, i, i + 1, end, Rewrite(Code, sql, end, params, used));
  }

  lemma LineFromCode(sql: seq<byte>, i: nat, params: SqlParameters, used: nat)
    requires i + 1 < |sql| && sql[i] == MINUS && sql[i + 1] == MINUS
    ensures var end := LineEnd(sql, i + 2);
      i < end && Rewrite(Code, sql, i, params, used) == Prepend(sql[i..end], Rewrite(Code, sql, end, params, used))
  {
    hide Rewrite, LineEnd;
    var end := LineEnd(sql, i + 2);
    TwoBytes(Code, sql, i, params, used);
    LineSpan(sql, i + 2, params, used);
    Joined(sql, i, i + 2, end, Rewrite(Code, sql, end, params, used));
  }

  lemma BlockFromCode(sql: seq<byte>, i: nat, params: SqlParameters, used: nat)
    requires i + 1 < |sql| && sql[i] == SLASH && sql[i + 1] == STAR
    ensures var end := BlockEnd(sql, i + 2);
      i < end && Rewrite(Code, sql, i, params, used) == Prepend(sql[i..end], Rewrite(Code, sql, end, params, used))
  {
    hide Rewrite, BlockEnd;
    var end := BlockEnd(sql, i + 2);
    TwoBytes(Code, sql, i, params, used);
    BlockSpan(sql, i + 2, params, used);
    Joined(sql, i, i + 2, end, Rewrite(Code, sql, end, params, used));
  }

  lemma PlaceholderFromCode(sql: seq<byte>, i: nat, params: SqlParameters, used: nat)
    requires i < |sql| && sql[i] == QUESTION
    ensures Rewrite(Code, sql, i, params, used) ==
      match Replacement(params, used, [QUESTION])
      case Success(text) => Prepend(text, Rewrite(Code, sql, i + 1, params, used + 1))
      case Failure(e) => Failure(e)
  {
    hide Replacement, IdentifierEnd;
  }

  lemma NameFromCode(sql: seq<byte>, i: nat, params: SqlParameters, used: nat)
    requires i < |sql| && StartsName(sql, i)
    ensures var end := IdentifierEnd(sql, i + 2);
      Rewrite(Code, sql, i, params, used) ==
      match Replacement(params, used, sql[i..end])
      case Success(text) => Prepend(text, Rewrite(Code, sql, end, params, used))
      case Failure(e) => Failure(e)
  {
    hide Replacement, IdentifierEnd;
  }

  /** Any other byte, which opens neither a span nor a comment. */
  lemma ByteFromCode(sql: seq<byte>, i: nat, params: SqlParameters, used: nat)
    requires i < |sql| && sql[i] !in {QUOTE, DOUBLE_QUOTE, QUESTION} && !StartsName(sql, i)
    requires i + 1 < |sql| && sql[i] == MINUS ==> sql[i + 1] != MINUS
    requires i + 1 < |sql| && sql[i] == SLASH ==> sql[i + 1] != STAR
    ensures Rewrite(Code, sql, i, params, used) == Prepend(Pushed(sql[i]), Rewrite(Code, sql, i + 1, params, used))
  {
    hide Replacement, IdentifierEnd, StartsName;
    Settled(NextCode(sql[i]), sql, i + 1, params, used);
  }

  lemma EndFromCode(sql: seq<byte>, params: SqlParameters, used: nat)
    ensures Rewrite(Code, sql, |sql|, params, used) ==
      if params.ByPosition? && used != |params.values| then Failure(Protocol) else Success([])
  {
  }

  method FormatSql(sql: seq<byte>, params: Option<SqlParameters>) returns (r: Result<seq<byte>>)
    ensures r == if params.None? then Success(sql) else Rewrite(Code, sql, 0, params.value, 0)
    ensures params.Some? && params.value.ByPosition? ==> r == Positional(Code, sql, 0, params.value.values)
  {
    hide Rewrite, Positional;
    if params.None? {
      return Success(sql);
    }
    var used;
    r, used := ScanSql(sql, params.value);
    if r.Success? && params.value.ByPosition? && used != |params.value.values| {
      r := Failure(Protocol);
    }
    if params.value.ByPosition? {
      RewriteIsPositional(Code, sql, 0, params.value.values, 0);
      assert params.value.values[0..] == params.value.values;
    }
  }

  // ---- the scanner against the lexer ----

  lemma {:induction false} NameIsCopied(sql: seq<byte>, i: nat, values: seq<SqlParameter>)
    requires i <= |sql|
    ensures var end := IdentifierEnd(sql, i);
      Positional(Code, sql, i, values) == Prepend(sql[i..end], Positional(Code, sql, end, values))
    decreases |sql| - i
  {
    var end := IdentifierEnd(sql, i);
    if i < |sql| && IsIdentifierPart(sql[i]) {
      NameIsCopied(sql, i + 1, values);
      assert sql[i..i + 1] == [sql[i]];
      Joined(sql, i, i + 1, end, Positional(Code, sql, end, values));
    } else {
      PrependPrepend([], [], Positional(Code, sql, end, values));
      assert sql[i..end] == [];
    }
  }

  lemma NameStep(m: Mode, sql: seq<byte>, i: nat, values: seq<SqlParameter>)
    requires i < |sql| && Outside(m) && StartsName(sql, i)
    ensures var end := IdentifierEnd(sql, i + 2);
      Positional(m, sql, i, values) == Prepend(sql[i..end], Positional(Code, sql, end, values))
  {
    var end := IdentifierEnd(sql, i + 2);
    assert IdentifierEnd(sql, i + 1) == end;
    NameIsCopied(sql, i + 1, values);
    assert sql[i..i + 1] == [sql[i]] && Next(m, COLON) == Code;
    Joined(sql, i, i + 1, end, Positional(Code, sql, end, values));
  }

  /** For positional parameters the scanner does what the lexer says, byte by byte. */
  lemma {:induction false} RewriteIsPositional(m: Mode, sql: seq<byte>, i: nat, values: seq<SqlParameter>, used: nat)
    requires i <= |sql| && used <= |values|
    ensures Rewrite(m, sql, i, ByPosition(values), used) == Positional(m, sql, i, values[used..])
    decreases |sql| - i
  {
    hide Literal, Outside, StartsName, IdentifierEnd, Next;
    if i < |sql| {
      if Outside(m) && sql[i] == QUESTION {
        if used < |values| {
          RewriteIsPositional(Next(m, sql[i]), sql, i + 1, values, used + 1);
          assert values[used..][1..] == values[used + 1..];
        }
      } else if Outside(m) && StartsName(sql, i) {
        NotPlaceholder(sql, i);
        NameStep(m, sql, i, values[used..]);
        RewriteIsPositional(Code, sql, IdentifierEnd(sql, i + 2), values, used);
      } else {
        RewriteIsPositional(Next(m, sql[i]), sql, i + 1, values, used);
      }
    }
  }

  lemma NotPlaceholder(sql: seq<byte>, i: nat)
    requires i < |sql| && StartsName(sql, i)
    ensures i + 2 <= |sql| && sql[i..IdentifierEnd(sql, i + 2)] != [QUESTION]
  {
    assert sql[i..IdentifierEnd(sql, i + 2)][0] == COLON;
  }
}
