/** Properties of the parser: how operands are read, how the operator
    levels associate, where each loop stops, and that on a token sequence
    ending in `Eof` the cursor is never found exhausted. */
module ParserProps {
  import opened Wrappers
  import opened Tokens
  import opened Ast
  import opened ParserSpec
  import Decimal
  import LexerSpec

  // ---------------------------------------------------------------------
  // Operands

  /** The leaves `parse_terminal` builds, each from exactly one token: an
      integer literal gives its `i64` value (a literal out of range is a
      panic), a literal with a dot keeps its text, a string and an
      identifier keep theirs. */
  lemma TerminalLeaves(toks: seq<Token>, pos: nat, tryFrom: OperatorOf)
    requires pos < |toks|
    ensures var t := toks[pos];
            t.typ == NumLiteral(false) ==>
              ParseTerminal(toks, pos, tryFrom)
              == if Decimal.ParseI64(t.value).Some? then Ok(Parsed(Int(Decimal.ParseI64(t.value).value), pos + 1))
                 else Err(Panicked(IntUnwrap))
    ensures var t := toks[pos];
            t.typ == NumLiteral(true) ==> ParseTerminal(toks, pos, tryFrom) == Ok(Parsed(Float(t.value), pos + 1))
    ensures var t := toks[pos];
            t.typ == StrLiteral ==> ParseTerminal(toks, pos, tryFrom) == Ok(Parsed(String(t.value), pos + 1))
    ensures var t := toks[pos];
            t.typ == TokenType.Ident ==> ParseTerminal(toks, pos, tryFrom) == Ok(Parsed(Expr.Ident(t.value), pos + 1))
  {
  }

  /** A `-` in operand position negates the factor after it, and the
      enclosing result ends where that factor does. */
  lemma TerminalNegates(toks: seq<Token>, pos: nat, tryFrom: OperatorOf)
    requires pos < |toks| && toks[pos].typ == Minus
    ensures ParseTerminal(toks, pos, tryFrom).Ok? <==> ParseFactor(toks, pos + 1, tryFrom).Ok?
    ensures ParseTerminal(toks, pos, tryFrom).Ok? ==>
              var f := ParseFactor(toks, pos + 1, tryFrom).value;
              ParseTerminal(toks, pos, tryFrom).value == Parsed(UnaryOp(Subtract, f.expr), f.pos)
  {
  }

  /** An integer literal printed from an `i64` value reads back as that
      value. */
  lemma TerminalInt(toks: seq<Token>, pos: nat, tryFrom: OperatorOf, n: nat)
    requires pos < |toks| && toks[pos].typ == NumLiteral(false)
    requires toks[pos].value == Decimal.Show(n) && n <= Decimal.I64Max
    ensures ParseTerminal(toks, pos, tryFrom) == Ok(Parsed(Int(n), pos + 1))
  {
    Decimal.ParseShow(n);
  }

  // ---------------------------------------------------------------------
  // Associativity

  /** An operand not followed by `**` is a whole factor. */
  lemma FactorLeaf(toks: seq<Token>, pos: nat, tryFrom: OperatorOf, a: Parsed)
    requires pos <= |toks|
    requires ParseTerminal(toks, pos, tryFrom) == Ok(a) && a.pos < |toks| && toks[a.pos].typ != StarStar
    ensures ParseFactor(toks, pos, tryFrom) == Ok(a)
  {
    assert Peek(toks, a.pos) == Some(toks[a.pos]);
  }

  /** An operand followed by `**` takes the whole factor after it as its
      right operand. */
  lemma FactorPow(toks: seq<Token>, pos: nat, tryFrom: OperatorOf, a: Parsed, rest: Parsed)
    requires pos <= |toks|
    requires ParseTerminal(toks, pos, tryFrom) == Ok(a) && a.pos < |toks| && toks[a.pos].typ == StarStar
    requires ParseFactor(toks, a.pos + 1, tryFrom) == Ok(rest)
    ensures ParseFactor(toks, pos, tryFrom) == Ok(Parsed(BinaryOp(Pow, a.expr, rest.expr), rest.pos))
  {
    assert Peek(toks, a.pos) == Some(toks[a.pos]);
  }

  /** `**` groups to the right: `a ** b ** c` is `a ** (b ** c)`. */
  lemma {:induction false} PowGroupsRight(toks: seq<Token>, pos: nat, tryFrom: OperatorOf, a: Parsed, b: Parsed, c: Parsed)
    requires pos <= |toks|
    requires ParseTerminal(toks, pos, tryFrom) == Ok(a) && a.pos < |toks| && toks[a.pos].typ == StarStar
    requires ParseTerminal(toks, a.pos + 1, tryFrom) == Ok(b) && b.pos < |toks| && toks[b.pos].typ == StarStar
    requires ParseTerminal(toks, b.pos + 1, tryFrom) == Ok(c) && c.pos < |toks| && toks[c.pos].typ != StarStar
    ensures ParseFactor(toks, pos, tryFrom) == Ok(Parsed(BinaryOp(Pow, a.expr, BinaryOp(Pow, b.expr, c.expr)), c.pos))
  {
    FactorLeaf(toks, b.pos + 1, tryFrom, c);
    FactorPow(toks, a.pos + 1, tryFrom, b, c);
    FactorPow(toks, pos, tryFrom, a, Parsed(BinaryOp(Pow, b.expr, c.expr), c.pos));
  }

  /** `+` and `-` group to the left: `a - b + c` is `(a - b) + c`. */
  lemma AdditiveGroupsLeft(toks: seq<Token>, pos: nat, tryFrom: OperatorOf, a: Parsed, b: Parsed, c: Parsed)
    requires pos <= |toks|
    requires ParseTerm(toks, pos, tryFrom) == Ok(a) && toks[a.pos].typ == Minus
    requires ParseTerm(toks, a.pos + 1, tryFrom) == Ok(b) && toks[b.pos].typ == Plus
    requires ParseTerm(toks, b.pos + 1, tryFrom) == Ok(c) && !Additive(toks[c.pos].typ)
    ensures ParseExpr(toks, pos, tryFrom) == Ok(Parsed(BinaryOp(Add, BinaryOp(Subtract, a.expr, b.expr), c.expr), c.pos))
  {
    var ab := Parsed(BinaryOp(Subtract, a.expr, b.expr), b.pos);
    var abc := Parsed(BinaryOp(Add, ab.expr, c.expr), c.pos);
    ExprLoopStops(toks, abc, tryFrom);
    ExprLoopTakes(toks, ab, tryFrom, toks[b.pos], Add, c);
    ExprLoopTakes(toks, a, tryFrom, toks[a.pos], Subtract, b);
    ExprFromTerm(toks, pos, tryFrom, a);
  }

  /** `parse_expr` runs its loop from its first term. */
  lemma ExprFromTerm(toks: seq<Token>, pos: nat, tryFrom: OperatorOf, first: Parsed)
    requires pos <= |toks| && ParseTerm(toks, pos, tryFrom) == Ok(first)
    ensures ParseExpr(toks, pos, tryFrom) == ExprLoop(toks, first, tryFrom)
  {
  }

  /** On `+` or `-` the loop of `parse_expr` takes the term after it and
      goes on from the combined operand. */
  lemma ExprLoopTakes(toks: seq<Token>, acc: Parsed, tryFrom: OperatorOf, next: Token, op: Operator, right: Parsed)
    requires Peek(toks, acc.pos) == Some(next) && Additive(next.typ)
    requires op == if next.typ == Plus then Add else Subtract
    requires ParseTerm(toks, acc.pos + 1, tryFrom) == Ok(right)
    ensures ExprLoop(toks, acc, tryFrom) == ExprLoop(toks, Parsed(BinaryOp(op, acc.expr, right.expr), right.pos), tryFrom)
  {
  }

  /** Operators that `Operator::try_from` maps group to the left as well:
      `a op1 b op2 c` is `(a op1 b) op2 c`. */
  lemma TermGroupsLeft(toks: seq<Token>, pos: nat, tryFrom: OperatorOf, a: Parsed, b: Parsed, c: Parsed, op1: Operator, op2: Operator)
    requires pos <= |toks|
    requires ParseFactor(toks, pos, tryFrom) == Ok(a) && tryFrom(toks[a.pos]) == Some(op1)
    requires ParseFactor(toks, a.pos + 1, tryFrom) == Ok(b) && tryFrom(toks[b.pos]) == Some(op2)
    requires ParseFactor(toks, b.pos + 1, tryFrom) == Ok(c) && tryFrom(toks[c.pos]).None?
    ensures ParseTerm(toks, pos, tryFrom) == Ok(Parsed(BinaryOp(op2, BinaryOp(op1, a.expr, b.expr), c.expr), c.pos))
  {
    var ab := Parsed(BinaryOp(op1, a.expr, b.expr), b.pos);
    var abc := Parsed(BinaryOp(op2, ab.expr, c.expr), c.pos);
    TermLoopStops(toks, abc, tryFrom);
    TermLoopTakes(toks, ab, tryFrom, toks[b.pos], op2, c);
    TermLoopTakes(toks, a, tryFrom, toks[a.pos], op1, b);
    TermFromFactor(toks, pos, tryFrom, a);
  }

  /** `parse_term` runs its loop from its first factor. */
  lemma TermFromFactor(toks: seq<Token>, pos: nat, tryFrom: OperatorOf, first: Parsed)
    requires pos <= |toks| && ParseFactor(toks, pos, tryFrom) == Ok(first)
    ensures ParseTerm(toks, pos, tryFrom) == TermLoop(toks, first, tryFrom)
  {
  }

  /** On a token `Operator::try_from` maps, the loop of `parse_term` takes
      the factor after it and ends where the loop from the combined operand
      ends. */
  lemma TermLoopTakes(toks: seq<Token>, acc: Parsed, tryFrom: OperatorOf, next: Token, op: Operator, right: Parsed)
    requires Peek(toks, acc.pos) == Some(next) && tryFrom(next) == Some(op)
    requires ParseFactor(toks, acc.pos + 1, tryFrom) == Ok(right)
    ensures TermLoop(toks, acc, tryFrom) == TermLoop(toks, Parsed(BinaryOp(op, acc.expr, right.expr), right.pos), tryFrom)
  {
  }

  // ---------------------------------------------------------------------
  // Where the loops stop

  /** The loop of `parse_term` ends at the first token that maps to no
      operator, without taking it: whatever tree it has built is the result. */
  lemma TermLoopStops(toks: seq<Token>, acc: Parsed, tryFrom: OperatorOf)
    requires acc.pos < |toks| && tryFrom(toks[acc.pos]).None?
    ensures TermLoop(toks, acc, tryFrom) == Ok(acc)
  {
  }

  /** The loop of `parse_expr` ends at any token other than `+` and `-`,
      without an error and without taking it. */
  lemma ExprLoopStops(toks: seq<Token>, acc: Parsed, tryFrom: OperatorOf)
    requires acc.pos < |toks| && !Additive(toks[acc.pos].typ)
    ensures ExprLoop(toks, acc, tryFrom) == Ok(acc)
  {
  }

  // ---------------------------------------------------------------------
  // A token sequence ending in `Eof`

  /** The last token is `Eof` and maps to no operator: what the lexer hands
      the parser, for an `Operator::try_from` that rejects `Eof`. */
  predicate EofTerminated(toks: seq<Token>, tryFrom: OperatorOf) {
    |toks| > 0 && toks[|toks| - 1].typ == Eof && tryFrom(toks[|toks| - 1]).None?
  }

  /** What every routine promises on such a sequence: no panic from an
      exhausted cursor, and on success the cursor is still on a token. */
  predicate Safe(toks: seq<Token>, r: Result<Parsed>) {
    (r.Err? ==> r.fault != Panicked(NoneUnwrap)) && (r.Ok? ==> r.value.pos < |toks|)
  }

  lemma {:induction false} TerminalSafe(toks: seq<Token>, pos: nat, tryFrom: OperatorOf)
    requires EofTerminated(toks, tryFrom) && pos < |toks|
    ensures Safe(toks, ParseTerminal(toks, pos, tryFrom))
    decreases |toks| - pos, 0
  {
    if toks[pos].typ == Minus {
      FactorSafe(toks, pos + 1, tryFrom);
    }
  }

  lemma {:induction false} FactorSafe(toks: seq<Token>, pos: nat, tryFrom: OperatorOf)
    requires EofTerminated(toks, tryFrom) && pos < |toks|
    ensures Safe(toks, ParseFactor(toks, pos, tryFrom))
    decreases |toks| - pos, 1
  {
    TerminalSafe(toks, pos, tryFrom);
    var left := ParseTerminal(toks, pos, tryFrom);
    if left.Ok? && toks[left.value.pos].typ == StarStar {
      FactorSafe(toks, left.value.pos + 1, tryFrom);
    }
  }

  lemma {:induction false} TermLoopSafe(toks: seq<Token>, acc: Parsed, tryFrom: OperatorOf)
    requires EofTerminated(toks, tryFrom) && acc.pos < |toks|
    ensures Safe(toks, TermLoop(toks, acc, tryFrom))
    decreases |toks| - acc.pos
  {
    match tryFrom(toks[acc.pos])
    case None =>
    case Some(op) =>
      FactorSafe(toks, acc.pos + 1, tryFrom);
      var right := ParseFactor(toks, acc.pos + 1, tryFrom);
      if right.Ok? {
        TermLoopSafe(toks, Parsed(BinaryOp(op, acc.expr, right.value.expr), right.value.pos), tryFrom);
      }
  }

  lemma TermSafe(toks: seq<Token>, pos: nat, tryFrom: OperatorOf)
    requires EofTerminated(toks, tryFrom) && pos < |toks|
    ensures Safe(toks, ParseTerm(toks, pos, tryFrom))
  {
    FactorSafe(toks, pos, tryFrom);
    var first := ParseFactor(toks, pos, tryFrom);
    if first.Ok? {
      TermLoopSafe(toks, first.value, tryFrom);
    }
  }

  lemma {:induction false} ExprLoopSafe(toks: seq<Token>, acc: Parsed, tryFrom: OperatorOf)
    requires EofTerminated(toks, tryFrom) && acc.pos < |toks|
    ensures Safe(toks, ExprLoop(toks, acc, tryFrom))
    decreases |toks| - acc.pos
  {
    var next := toks[acc.pos];
    if Additive(next.typ) {
      TermSafe(toks, acc.pos + 1, tryFrom);
      var right := ParseTerm(toks, acc.pos + 1, tryFrom);
      if right.Ok? {
        var op := if next.typ == Plus then Add else Subtract;
        ExprLoopSafe(toks, Parsed(BinaryOp(op, acc.expr, right.value.expr), right.value.pos), tryFrom);
      }
    }
  }

  lemma ExprSafe(toks: seq<Token>, pos: nat, tryFrom: OperatorOf)
    requires EofTerminated(toks, tryFrom) && pos < |toks|
    ensures Safe(toks, ParseExpr(toks, pos, tryFrom))
  {
    TermSafe(toks, pos, tryFrom);
    var first := ParseTerm(toks, pos, tryFrom);
    if first.Ok? {
      ExprLoopSafe(toks, first.value, tryFrom);
    }
  }

  /** `parse` on an `Eof`-terminated sequence never finds its cursor
      exhausted: every `unwrap` of `next` and `peek` has a token to unwrap. */
  lemma ParseSafe(toks: seq<Token>, pos: nat, tryFrom: OperatorOf)
    requires EofTerminated(toks, tryFrom) && pos < |toks|
    ensures Parse(toks, pos, tryFrom) != Err(Panicked(NoneUnwrap))
  {
    ExprSafe(toks, pos, tryFrom);
  }

  /** The tokens the lexer produces always end in `Eof`, so parsing them
      never panics on an exhausted cursor when `Operator::try_from` rejects
      the `Eof` token. */
  lemma LexedSafe(text: string, tryFrom: OperatorOf)
    requires LexerSpec.Tokenize(text).Ok?
    requires forall t: Token :: t.typ == Eof ==> tryFrom(t).None?
    ensures Parse(LexerSpec.Tokenize(text).value, 0, tryFrom) != Err(Panicked(NoneUnwrap))
  {
    var toks := LexerSpec.Tokenize(text).value;
    assert tryFrom(toks[|toks| - 1]).None?;
    ParseSafe(toks, 0, tryFrom);
  }
}
