/** `Parser`: the recursive-descent parser over a shared cursor. The cursor
    into the token slice is the one mutable field; every method is proved to
    compute what the matching function of `ParserSpec` computes from the
    cursor it started at. */
module RustParser {
  import opened Wrappers
  import opened Tokens
  import opened Ast
  import opened ParserSpec
  import Macros
  import Decimal
  import ParserProps

  /** One turn of the loop of `Parser::parse_term` that takes an operator
      keeps the method's loop invariant, stated over the result `whole` the
      loop must reach: an error of the factor is that result's error, and
      otherwise the rest of the loop from the new tree reaches it too. */
  lemma TermTurn(toks: seq<Token>, expr: Expr, here: nat, tryFrom: OperatorOf, next: Token, op: Operator,
                 after: nat, whole: Result<Parsed>)
    requires ParserSpec.Peek(toks, here) == Some(next) && tryFrom(next) == Some(op) && after == here + 1
    requires TermLoop(toks, Parsed(expr, here), tryFrom) == whole
    ensures var right := ParserSpec.ParseFactor(toks, after, tryFrom);
            (right.Err? ==> Tree(right) == Tree(whole))
            && (right.Ok? ==> TermLoop(toks, Parsed(BinaryOp(op, expr, right.value.expr), right.value.pos), tryFrom) == whole)
  {
    var right := ParserSpec.ParseFactor(toks, after, tryFrom);
    if right.Ok? {
      ParserProps.TermLoopTakes(toks, Parsed(expr, here), tryFrom, next, op, right.value);
    }
  }

  /** The same for one turn of the loop of `Parser::parse_expr` over a `+`
      or `-`. */
  lemma ExprTurn(toks: seq<Token>, expr: Expr, here: nat, tryFrom: OperatorOf, next: Token, op: Operator,
                 after: nat, whole: Result<Parsed>)
    requires ParserSpec.Peek(toks, here) == Some(next) && Additive(next.typ) && after == here + 1
    requires op == if next.typ == Plus then Add else Subtract
    requires ExprLoop(toks, Parsed(expr, here), tryFrom) == whole
    ensures var right := ParserSpec.ParseTerm(toks, after, tryFrom);
            (right.Err? ==> Tree(right) == Tree(whole))
            && (right.Ok? ==> ExprLoop(toks, Parsed(BinaryOp(op, expr, right.value.expr), right.value.pos), tryFrom) == whole)
  {
    var right := ParserSpec.ParseTerm(toks, after, tryFrom);
    if right.Ok? {
      ParserProps.ExprLoopTakes(toks, Parsed(expr, here), tryFrom, next, op, right.value);
    }
  }

  /** A method that returned `r` and left the cursor at `pos` did what the
      function result `spec` says: the same tree or the same error, and on
      success the same cursor. */
  predicate Gave(r: Result<Expr>, pos: nat, spec: Result<Parsed>) {
    r == Tree(spec) && (r.Ok? ==> pos == spec.value.pos)
  }

  class Parser {
    const tokens: seq<Token>
    const tryFrom: OperatorOf
    var pos: nat

    /** `Parser::new`: the cursor starts on the first token. */
    constructor (tokens: seq<Token>, tryFrom: OperatorOf)
      ensures this.tokens == tokens && this.tryFrom == tryFrom && pos == 0
    {
      this.tokens := tokens;
      this.tryFrom := tryFrom;
      pos := 0;
    }

    /** `Parser::next`. */
    method Next() returns (r: Option<Token>)
      requires pos <= |tokens|
      modifies this
      ensures r == ParserSpec.Peek(tokens, old(pos))
      ensures pos == if old(pos) < |tokens| then old(pos) + 1 else old(pos)
      ensures pos <= |tokens|
    {
      if pos < |tokens| {
        r := Some(tokens[pos]);
        pos := pos + 1;
      } else {
        r := None;
      }
    }

    /** `Parser::peek`: the cursor does not move. */
    method Peek() returns (r: Option<Token>)
      requires pos <= |tokens|
      ensures r == ParserSpec.Peek(tokens, pos)
    {
      if pos < |tokens| {
        r := Some(tokens[pos]);
      } else {
        r := None;
      }
    }

    /** `Parser::expect`: the cursor moves as `next` moves it, whatever the
        outcome. */
    method Expect(typ: TokenType) returns (r: Result<()>)
      requires pos <= |tokens|
      modifies this
      ensures pos == ParserSpec.Next(tokens, old(pos)).1
      ensures r.Ok? <==> ParserSpec.Expect(tokens, old(pos), typ).Ok?
      ensures r.Err? ==> r.fault == ParserSpec.Expect(tokens, old(pos), typ).fault
    {
      var next := Next();
      if next.None? {
        return Err(Raised(Macros.Exc(EndOfInput)));
      }
      if next.value.typ != typ {
        return Err(Raised(Macros.Exc(ExpectedMessage(typ, next.value))));
      }
      return Ok(());
    }

    /** `Parser::parse`. */
    method Parse() returns (r: Result<Expr>)
      requires pos <= |tokens|
      modifies this
      ensures Gave(r, pos, ParserSpec.Parse(tokens, old(pos), tryFrom))
    {
      var ast := ParseExpr();
      if ast.Err? {
        return ast;
      }
      var eof := Expect(Eof);
      if eof.Err? {
        return Err(eof.fault);
      }
      return Ok(Main(ast.value));
    }

    /** `Parser::parse_assignment`. */
    method ParseAssignment() returns (r: Result<Expr>)
      requires pos <= |tokens|
      modifies this
      ensures Gave(r, pos, ParserSpec.ParseAssignment(tokens, old(pos), tryFrom))
    {
      var next := Peek();
      if next.None? {
        return Err(Panicked(NoneUnwrap));
      }
      var ident := next.value.value;
      var skipped := Next();
      var eq := Expect(Eq);
      if eq.Err? {
        return Err(eq.fault);
      }
      var expr := ParseExpr();
      if expr.Err? {
        return expr;
      }
      return Ok(Assign(Expr.Ident(ident), expr.value));
    }

    /** `Parser::parse_terminal`. */
    method ParseTerminal() returns (r: Result<Expr>)
      requires pos <= |tokens|
      modifies this
      ensures pos <= |tokens|
      ensures Gave(r, pos, ParserSpec.ParseTerminal(tokens, old(pos), tryFrom))
      decreases |tokens| - pos, 0
    {
      var next := Next();
      if next.None? {
        return Err(Panicked(NoneUnwrap));
      }
      var t := next.value;
      match t.typ {
        case NumLiteral(fractional) =>
          if fractional {
            r := Ok(Float(t.value));
          } else {
            var n := Decimal.ParseI64(t.value);
            if n.None? {
              r := Err(Panicked(IntUnwrap));
            } else {
              r := Ok(Int(n.value));
            }
          }
        case StrLiteral =>
          r := Ok(String(t.value));
        case Ident =>
          r := Ok(Expr.Ident(t.value));
        case Minus =>
          var operand := ParseFactor();
          if operand.Err? {
            return operand;
          }
          r := Ok(UnaryOp(Subtract, operand.value));
        case _ =>
          r := Err(Raised(Macros.Exc(UnexpectedMessage(t))));
      }
    }

    /** `Parser::parse_factor`. */
    method ParseFactor() returns (r: Result<Expr>)
      requires pos <= |tokens|
      modifies this
      ensures pos <= |tokens|
      ensures Gave(r, pos, ParserSpec.ParseFactor(tokens, old(pos), tryFrom))
      decreases |tokens| - pos, 1
    {
      var left := ParseTerminal();
      if left.Err? {
        return left;
      }
      var next := Peek();
      if next.None? {
        return Err(Panicked(NoneUnwrap));
      }
      if next.value.typ == StarStar {
        var skipped := Next();
        var right := ParseFactor();
        if right.Err? {
          return right;
        }
        return Ok(BinaryOp(Pow, left.value, right.value));
      }
      return left;
    }

    /** `Parser::parse_term`: the loop keeps the tree built so far, and
        finishing the loop from here gives what the whole term gives. */
    method ParseTerm() returns (r: Result<Expr>)
      requires pos <= |tokens|
      modifies this
      ensures pos <= |tokens|
      ensures Gave(r, pos, ParserSpec.ParseTerm(tokens, old(pos), tryFrom))
    {
      var first := ParseFactor();
      if first.Err? {
        return first;
      }
      var expr := first.value;
      ghost var whole := ParserSpec.ParseTerm(tokens, old(pos), tryFrom);
      while true
        invariant pos <= |tokens|
        invariant TermLoop(tokens, Parsed(expr, pos), tryFrom) == whole
        decreases |tokens| - pos
      {
        ghost var here := pos;
        var next := Peek();
        if next.None? {
          return Err(Panicked(NoneUnwrap));
        }
        var op := tryFrom(next.value);
        if op.None? {
          ParserProps.TermLoopStops(tokens, Parsed(expr, here), tryFrom);
          break;
        }
        var skipped := Next();
        TermTurn(tokens, expr, here, tryFrom, next.value, op.value, pos, whole);
        var right := ParseFactor();
        if right.Err? {
          return right;
        }
        expr := BinaryOp(op.value, expr, right.value);
      }
      return Ok(expr);
    }

    /** `Parser::parse_expr`, with the same loop invariant over `+` and `-`. */
    method ParseExpr() returns (r: Result<Expr>)
      requires pos <= |tokens|
      modifies this
      ensures pos <= |tokens|
      ensures Gave(r, pos, ParserSpec.ParseExpr(tokens, old(pos), tryFrom))
    {
      var first := ParseTerm();
      if first.Err? {
        return first;
      }
      var expr := first.value;
      ghost var whole := ParserSpec.ParseExpr(tokens, old(pos), tryFrom);
      while true
        invariant pos <= |tokens|
        invariant ExprLoop(tokens, Parsed(expr, pos), tryFrom) == whole
        decreases |tokens| - pos
      {
        ghost var here := pos;
        var next := Peek();
        if next.None? {
          return Err(Panicked(NoneUnwrap));
        }
        match next.value.typ {
          case Plus =>
            var skipped := Next();
            ExprTurn(tokens, expr, here, tryFrom, next.value, Add, pos, whole);
            var right := ParseTerm();
            if right.Err? {
              return right;
            }
            expr := BinaryOp(Add, expr, right.value);
          case Minus =>
            var skipped := Next();
            ExprTurn(tokens, expr, here, tryFrom, next.value, Subtract, pos, whole);
            var right := ParseTerm();
            if right.Err? {
              return right;
            }
            expr := BinaryOp(Subtract, expr, right.value);
          case _ =>
            ParserProps.ExprLoopStops(tokens, Parsed(expr, here), tryFrom);
            break;
        }
      }
      return Ok(expr);
    }
  }
}
