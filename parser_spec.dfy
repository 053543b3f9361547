/** The recursive-descent parser of the Rust front end as functions over a
    token sequence and a cursor index: what `Parser` does to its `Peekable`
    iterator, stated on values. The class `RustParser.Parser` is proved to
    compute exactly these results. */
module ParserSpec {
  import opened Wrappers
  import opened Tokens
  import opened Ast
  import Macros
  import Decimal

  /** `Operator::try_from` on a token. Its definition is not part of this
      model, so every parsing function takes it as a parameter. */
  type OperatorOf = Token -> Option<Operator>

  /** The tree a parsing routine built and the cursor it left behind. */
  datatype Parsed = Parsed(expr: Expr, pos: nat)

  /** The panic of `Option::unwrap` on an exhausted cursor. */
  const NoneUnwrap: string := "called `Option::unwrap()` on a `None` value"

  /** The panic of `Result::unwrap` on a failed `parse::<i64>`. */
  const IntUnwrap: string := "called `Result::unwrap()` on an `Err` value"

  const EndOfInput: string := "Unexpected end of input."

  /** How a token is shown inside an error message. The `Display` of a token
      is not part of this model; this rendering keeps its kind and text. */
  function Describe(t: Token): (s: string)
    ensures |s| > 0
  {
    TypeDebug(t.typ) + " '" + t.value + "'"
  }

  function ExpectedMessage(typ: TokenType, got: Token): string {
    "Expected " + TypeDebug(typ) + ", but got " + Describe(got)
  }

  function UnexpectedMessage(got: Token): string {
    "Unexpected token: " + Describe(got)
  }

  /** `Parser::peek`: the token under the cursor, if any; the cursor stays. */
  function Peek(toks: seq<Token>, pos: nat): (r: Option<Token>)
    ensures r.Some? <==> pos < |toks|
    ensures r.Some? ==> r.value == toks[pos]
  {
    if pos < |toks| then Some(toks[pos]) else None
  }

  /** `Parser::next`: the same token as `peek`, and the cursor moves past it;
      an exhausted cursor stays where it is. */
  function Next(toks: seq<Token>, pos: nat): (r: (Option<Token>, nat))
    ensures r.0 == Peek(toks, pos)
    ensures r.1 == if pos < |toks| then pos + 1 else pos
  {
    if pos < |toks| then (Some(toks[pos]), pos + 1) else (None, pos)
  }

  /** `Parser::expect`: takes one token and fails unless there was one of
      the expected kind; on success the cursor is just past it. */
  function Expect(toks: seq<Token>, pos: nat, typ: TokenType): (r: Result<nat>)
    ensures r.Ok? <==> pos < |toks| && toks[pos].typ == typ
    ensures r.Ok? ==> r.value == pos + 1
    ensures pos >= |toks| ==> r == Err(Raised(Macros.Exc(EndOfInput)))
    ensures pos < |toks| && toks[pos].typ != typ
            ==> r == Err(Raised(Macros.Exc(ExpectedMessage(typ, toks[pos]))))
  {
    var (next, after) := Next(toks, pos);
    if next.None? then Err(Raised(Macros.Exc(EndOfInput)))
    else if next.value.typ != typ then Err(Raised(Macros.Exc(ExpectedMessage(typ, next.value))))
    else Ok(after)
  }

  /** The kinds `parse_terminal` accepts as the first token of an operand. */
  predicate StartsOperand(typ: TokenType) {
    typ.NumLiteral? || typ == StrLiteral || typ == TokenType.Ident || typ == Minus
  }

  /** `parse_terminal`: takes one token; a number, string or identifier is
      the whole operand, a `-` negates the factor after it, and anything else
      (the `Eof` token included) is an error. */
  function ParseTerminal(toks: seq<Token>, pos: nat, tryFrom: OperatorOf): (r: Result<Parsed>)
    requires pos <= |toks|
    ensures r.Ok? ==> pos < r.value.pos <= |toks|
    ensures pos < |toks| && toks[pos].typ != Minus && r.Ok? ==> r.value.pos == pos + 1
    ensures pos == |toks| ==> r == Err(Panicked(NoneUnwrap))
    ensures pos < |toks| && !StartsOperand(toks[pos].typ)
            ==> r == Err(Raised(Macros.Exc(UnexpectedMessage(toks[pos]))))
    decreases |toks| - pos, 0
  {
    var (next, after) := Next(toks, pos);
    if next.None? then Err(Panicked(NoneUnwrap))
    else
      var t := next.value;
      match t.typ
      case NumLiteral(fractional) =>
        if fractional then Ok(Parsed(Float(t.value), after))
        else
          (match Decimal.ParseI64(t.value)
           case None => Err(Panicked(IntUnwrap))
           case Some(n) => Ok(Parsed(Int(n), after)))
      case StrLiteral => Ok(Parsed(String(t.value), after))
      case Ident => Ok(Parsed(Expr.Ident(t.value), after))
      case Minus =>
        var operand :- ParseFactor(toks, after, tryFrom);
        Ok(Parsed(UnaryOp(Subtract, operand.expr), operand.pos))
      case _ => Err(Raised(Macros.Exc(UnexpectedMessage(t))))
  }

  /** `parse_factor`: an operand, then as long as `**` follows, the whole
      factor after it as the right operand, so `**` groups to the right.
      On success the cursor is on a token that is not `**`. */
  function ParseFactor(toks: seq<Token>, pos: nat, tryFrom: OperatorOf): (r: Result<Parsed>)
    requires pos <= |toks|
    ensures r.Ok? ==> pos < r.value.pos < |toks| && toks[r.value.pos].typ != StarStar
    decreases |toks| - pos, 1
  {
    var left :- ParseTerminal(toks, pos, tryFrom);
    match Peek(toks, left.pos)
    case None => Err(Panicked(NoneUnwrap))
    case Some(next) =>
      if next.typ == StarStar then
        var right :- ParseFactor(toks, left.pos + 1, tryFrom);
        Ok(Parsed(BinaryOp(Pow, left.expr, right.expr), right.pos))
      else Ok(left)
  }

  /** The loop of `parse_term`: while the token under the cursor maps to an
      operator, take it and a factor and fold them onto the tree so far. On
      success the cursor is on the first token that maps to no operator. */
  function TermLoop(toks: seq<Token>, acc: Parsed, tryFrom: OperatorOf): (r: Result<Parsed>)
    requires acc.pos <= |toks|
    ensures r.Ok? ==> acc.pos <= r.value.pos < |toks| && tryFrom(toks[r.value.pos]).None?
    decreases |toks| - acc.pos
  {
    match Peek(toks, acc.pos)
    case None => Err(Panicked(NoneUnwrap))
    case Some(next) =>
      match tryFrom(next)
      case None => Ok(acc)
      case Some(op) =>
        var right :- ParseFactor(toks, acc.pos + 1, tryFrom);
        TermLoop(toks, Parsed(BinaryOp(op, acc.expr, right.expr), right.pos), tryFrom)
  }

  /** `parse_term`: a factor, then the loop above. */
  function ParseTerm(toks: seq<Token>, pos: nat, tryFrom: OperatorOf): (r: Result<Parsed>)
    requires pos <= |toks|
    ensures r.Ok? ==> pos < r.value.pos < |toks| && tryFrom(toks[r.value.pos]).None?
  {
    var first :- ParseFactor(toks, pos, tryFrom);
    TermLoop(toks, first, tryFrom)
  }

  /** The operators `parse_expr` folds. */
  predicate Additive(typ: TokenType) {
    typ == Plus || typ == Minus
  }

  /** The loop of `parse_expr`: while a `+` or `-` is under the cursor, take
      it and a term and fold them onto the tree so far. Any other token ends
      the loop without being taken. */
  function ExprLoop(toks: seq<Token>, acc: Parsed, tryFrom: OperatorOf): (r: Result<Parsed>)
    requires acc.pos <= |toks|
    ensures r.Ok? ==> acc.pos <= r.value.pos < |toks| && !Additive(toks[r.value.pos].typ)
    decreases |toks| - acc.pos
  {
    match Peek(toks, acc.pos)
    case None => Err(Panicked(NoneUnwrap))
    case Some(next) =>
      if Additive(next.typ) then
        var right :- ParseTerm(toks, acc.pos + 1, tryFrom);
        var op := if next.typ == Plus then Add else Subtract;
        ExprLoop(toks, Parsed(BinaryOp(op, acc.expr, right.expr), right.pos), tryFrom)
      else Ok(acc)
  }

  /** `parse_expr`: a term, then the loop above. */
  function ParseExpr(toks: seq<Token>, pos: nat, tryFrom: OperatorOf): (r: Result<Parsed>)
    requires pos <= |toks|
    ensures r.Ok? ==> pos < r.value.pos < |toks| && !Additive(toks[r.value.pos].typ)
  {
    var first :- ParseTerm(toks, pos, tryFrom);
    ExprLoop(toks, first, tryFrom)
  }

  /** `parse`: an expression from the cursor on, which must be followed by the
      `Eof` token; the result is wrapped in `Main`. */
  function Parse(toks: seq<Token>, pos: nat, tryFrom: OperatorOf): (r: Result<Parsed>)
    requires pos <= |toks|
    ensures var body := ParseExpr(toks, pos, tryFrom);
            r.Ok? <==> body.Ok? && toks[body.value.pos].typ == Eof
    ensures r.Ok? ==> r.value == Parsed(Main(ParseExpr(toks, pos, tryFrom).value.expr), ParseExpr(toks, pos, tryFrom).value.pos + 1)
  {
    var body :- ParseExpr(toks, pos, tryFrom);
    var after :- Expect(toks, body.pos, Eof);
    Ok(Parsed(Main(body.expr), after))
  }

  /** `parse_assignment`: the token under the cursor names the target (its
      kind is not checked), an `Eq` must follow, then the expression. */
  function ParseAssignment(toks: seq<Token>, pos: nat, tryFrom: OperatorOf): (r: Result<Parsed>)
    requires pos <= |toks|
    ensures r.Ok? <==> pos + 1 < |toks| && toks[pos + 1].typ == Eq && ParseExpr(toks, pos + 2, tryFrom).Ok?
    ensures r.Ok? ==> r.value.expr == Assign(Expr.Ident(toks[pos].value), ParseExpr(toks, pos + 2, tryFrom).value.expr)
                      && r.value.pos == ParseExpr(toks, pos + 2, tryFrom).value.pos
  {
    match Peek(toks, pos)
    case None => Err(Panicked(NoneUnwrap))
    case Some(target) =>
      var afterEq :- Expect(toks, pos + 1, Eq);
      var value :- ParseExpr(toks, afterEq, tryFrom);
      Ok(Parsed(Assign(Expr.Ident(target.value), value.expr), value.pos))
  }

  /** The tree of a result, without the cursor. */
  function Tree(r: Result<Parsed>): Result<Expr> {
    match r
    case Ok(p) => Ok(p.expr)
    case Err(f) => Err(f)
  }
}
