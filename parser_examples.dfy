/** Parses of small token sequences, as the lexer would produce them. */
module ParserExamples {
  import opened Wrappers
  import opened Tokens
  import opened Ast
  import opened ParserSpec
  import ParserProps
  import Macros

  /** An `Operator::try_from` that maps none of the kinds used below. */
  ghost predicate RejectsPlain(tryFrom: OperatorOf) {
    forall t: Token :: (t.typ == TokenType.Ident || t.typ == Plus || t.typ == Minus || t.typ == Eof) ==> tryFrom(t).None?
  }

  const Ta: Token := WithValueAt(TokenType.Ident, "a", 1, 1)
  const Tb: Token := WithValueAt(TokenType.Ident, "b", 1, 5)
  const Tc: Token := WithValueAt(TokenType.Ident, "c", 1, 9)

  /** `a - b + c` */
  const MinusPlus: seq<Token> :=
    [Ta, WithValueAt(Minus, "-", 1, 3), Tb, WithValueAt(Plus, "+", 1, 7), Tc, WithValueAt(Eof, "", 1, 10)]

  lemma MinusPlusTerms(tryFrom: OperatorOf)
    requires RejectsPlain(tryFrom)
    ensures ParseTerm(MinusPlus, 0, tryFrom) == Ok(Parsed(Expr.Ident("a"), 1))
    ensures ParseTerm(MinusPlus, 2, tryFrom) == Ok(Parsed(Expr.Ident("b"), 3))
    ensures ParseTerm(MinusPlus, 4, tryFrom) == Ok(Parsed(Expr.Ident("c"), 5))
  {
    FirstOperand(MinusPlus, 0, tryFrom);
    FirstOperand(MinusPlus, 2, tryFrom);
    FirstOperand(MinusPlus, 4, tryFrom);
  }

  /** A name followed by a token that is not `**` and maps to no operator is
      a whole term. */
  lemma FirstOperand(toks: seq<Token>, pos: nat, tryFrom: OperatorOf)
    requires RejectsPlain(tryFrom)
    requires pos + 1 < |toks| && toks[pos].typ == TokenType.Ident
    requires toks[pos + 1].typ == TokenType.Ident || Additive(toks[pos + 1].typ) || toks[pos + 1].typ == Eof
    ensures ParseTerm(toks, pos, tryFrom) == Ok(Parsed(Expr.Ident(toks[pos].value), pos + 1))
  {
    var a := Parsed(Expr.Ident(toks[pos].value), pos + 1);
    assert ParseTerminal(toks, pos, tryFrom) == Ok(a);
    assert ParseFactor(toks, pos, tryFrom) == Ok(a);
    assert tryFrom(toks[pos + 1]).None?;
    ParserProps.TermLoopStops(toks, a, tryFrom);
  }

  /** `a - b + c` parses as `(a - b) + c`, wrapped in `Main`. */
  lemma MinusPlusParse(tryFrom: OperatorOf)
    requires RejectsPlain(tryFrom)
    ensures Parse(MinusPlus, 0, tryFrom)
            == Ok(Parsed(Main(BinaryOp(Add, BinaryOp(Subtract, Expr.Ident("a"), Expr.Ident("b")), Expr.Ident("c"))), 6))
  {
    MinusPlusTerms(tryFrom);
    ParserProps.AdditiveGroupsLeft(MinusPlus, 0, tryFrom, Parsed(Expr.Ident("a"), 1), Parsed(Expr.Ident("b"), 3), Parsed(Expr.Ident("c"), 5));
  }

  /** `a ** b ** c` */
  const PowPow: seq<Token> :=
    [Ta, WithValueAt(StarStar, "**", 1, 3), Tb, WithValueAt(StarStar, "**", 1, 8), Tc, WithValueAt(Eof, "", 1, 14)]

  /** `a ** b ** c` parses as `a ** (b ** c)`. */
  lemma PowPowParse(tryFrom: OperatorOf)
    requires RejectsPlain(tryFrom)
    ensures Parse(PowPow, 0, tryFrom)
            == Ok(Parsed(Main(BinaryOp(Pow, Expr.Ident("a"), BinaryOp(Pow, Expr.Ident("b"), Expr.Ident("c")))), 6))
  {
    assert tryFrom(PowPow[5]).None?;
    ParserProps.PowGroupsRight(PowPow, 0, tryFrom, Parsed(Expr.Ident("a"), 1), Parsed(Expr.Ident("b"), 3), Parsed(Expr.Ident("c"), 5));
  }

  /** `a b`: the expression ends before `b`, which is not `Eof`. */
  const TwoNames: seq<Token> := [Ta, WithValueAt(TokenType.Ident, "b", 1, 3), WithValueAt(Eof, "", 1, 4)]

  lemma TwoNamesRejected(tryFrom: OperatorOf)
    requires RejectsPlain(tryFrom)
    ensures Parse(TwoNames, 0, tryFrom) == Err(Raised(Macros.Exc(ExpectedMessage(Eof, TwoNames[1]))))
  {
    FirstOperand(TwoNames, 0, tryFrom);
    ParserProps.ExprLoopStops(TwoNames, Parsed(Expr.Ident("a"), 1), tryFrom);
  }

  /** An empty program, just `Eof`, is an unexpected token. */
  lemma OnlyEof(tryFrom: OperatorOf)
    ensures Parse([WithValueAt(Eof, "", 1, 1)], 0, tryFrom)
            == Err(Raised(Macros.Exc(UnexpectedMessage(WithValueAt(Eof, "", 1, 1)))))
  {
  }

  /** `x = a - b`: an assignment. */
  const Assignment: seq<Token> :=
    [WithValueAt(TokenType.Ident, "x", 1, 1), WithValueAt(Eq, "=", 1, 3), Ta, WithValueAt(Minus, "-", 1, 7), Tb, WithValueAt(Eof, "", 1, 10)]

  lemma AssignmentParse(tryFrom: OperatorOf)
    requires RejectsPlain(tryFrom)
    ensures ParseAssignment(Assignment, 0, tryFrom)
            == Ok(Parsed(Assign(Expr.Ident("x"), BinaryOp(Subtract, Expr.Ident("a"), Expr.Ident("b"))), 5))
  {
    FirstOperand(Assignment, 2, tryFrom);
    FirstOperand(Assignment, 4, tryFrom);
    var ab := Parsed(BinaryOp(Subtract, Expr.Ident("a"), Expr.Ident("b")), 5);
    ParserProps.ExprLoopStops(Assignment, ab, tryFrom);
    assert ParseExpr(Assignment, 2, tryFrom) == Ok(ab);
  }
}
