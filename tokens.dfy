/** Token kinds, source locations and tokens, with their constructors. */
module Tokens {
  import opened Wrappers

  /** Every token kind: the declared enum plus the kinds the lexer builds that
      the declaration lacks (`NumLiteral` with its "has a dot" flag and the
      seven keyword kinds). */
  datatype TokenType =
    | Eof | Ident | Eq | LParen | RParen | Hash | Dollar | Colon | Comma | Dot
    | Plus | PlusPlus | Minus | MinusMinus | MinusEq | PlusEq | StarEq | SlashEq
    | StarStar | Star | Caret | Slash | Backslash | Semi | At | And
    | SmallRArrow | LargeRArrow | NumLiteral(fractional: bool) | StrLiteral
    | Lt | Gt | Lte | Gte | Ne | EqEq | LBrace | RBrace | Exclamation
    | LBracket | RBracket | Bar | QuestionMark | Percent
    | If | Is | In | For | Let | Return | Break

  /** A 1-based line/column position (each a `usize`). */
  datatype Loc = Loc(line: nat, col: nat)

  datatype Token = Token(typ: TokenType, value: string, loc: Loc, addtl: Option<seq<string>>)

  /** `Loc::new`: the start of the text. */
  function LocNew(): (l: Loc)
    ensures l.line == 1 && l.col == 1
  {
    Loc(1, 1)
  }

  /** `Loc::at`. */
  function LocAt(line: nat, col: nat): (l: Loc)
    ensures l.line == line && l.col == col
    ensures l == LocNew() <==> line == 1 && col == 1
  {
    Loc(line, col)
  }

  /** `Loc::default` delegates to `Loc::new`. */
  function LocDefault(): (l: Loc)
    ensures l == LocNew() && l == LocAt(1, 1)
  {
    LocNew()
  }

  /** `Token::new`: no text, at the start of the text. */
  function TokenNew(typ: TokenType): (t: Token)
    ensures t.typ == typ && t.value == "" && t.loc == LocNew() && t.addtl == None
  {
    Token(typ, "", LocNew(), None)
  }

  /** `Token::at`: no text, at a given position. */
  function TokenAt(typ: TokenType, line: nat, col: nat): (t: Token)
    ensures t.typ == typ && t.value == "" && t.loc == LocAt(line, col) && t.addtl == None
    ensures t == TokenNew(typ) <==> line == 1 && col == 1
  {
    Token(typ, "", LocAt(line, col), None)
  }

  /** `Token::with_value`: the given text, at the start of the text. */
  function WithValue(typ: TokenType, value: string): (t: Token)
    ensures t.typ == typ && t.value == value && t.loc == LocNew() && t.addtl == None
    ensures t == TokenNew(typ) <==> value == ""
  {
    Token(typ, value, LocNew(), None)
  }

  /** `Token::with_value_at`: the given text at a given position; the most
      general constructor, of which the other three are instances. */
  function WithValueAt(typ: TokenType, value: string, line: nat, col: nat): (t: Token)
    ensures t.typ == typ && t.value == value && t.loc == LocAt(line, col) && t.addtl == None
    ensures t == TokenAt(typ, line, col) <==> value == ""
    ensures t == WithValue(typ, value) <==> line == 1 && col == 1
  {
    Token(typ, value, LocAt(line, col), None)
  }

  /** The name `#[derive(Debug)]` prints for a kind. */
  function TypeDebug(t: TokenType): string {
    match t
    case Eof => "Eof"
    case Ident => "Ident"
    case Eq => "Eq"
    case LParen => "LParen"
    case RParen => "RParen"
    case Hash => "Hash"
    case Dollar => "Dollar"
    case Colon => "Colon"
    case Comma => "Comma"
    case Dot => "Dot"
    case Plus => "Plus"
    case PlusPlus => "PlusPlus"
    case Minus => "Minus"
    case MinusMinus => "MinusMinus"
    case MinusEq => "MinusEq"
    case PlusEq => "PlusEq"
    case StarEq => "StarEq"
    case SlashEq => "SlashEq"
    case StarStar => "StarStar"
    case Star => "Star"
    case Caret => "Caret"
    case Slash => "Slash"
    case Backslash => "Backslash"
    case Semi => "Semi"
    case At => "At"
    case And => "And"
    case SmallRArrow => "SmallRArrow"
    case LargeRArrow => "LargeRArrow"
    case NumLiteral(f) => if f then "NumLiteral(true)" else "NumLiteral(false)"
    case StrLiteral => "StrLiteral"
    case Lt => "Lt"
    case Gt => "Gt"
    case Lte => "Lte"
    case Gte => "Gte"
    case Ne => "Ne"
    case EqEq => "EqEq"
    case LBrace => "LBrace"
    case RBrace => "RBrace"
    case Exclamation => "Exclamation"
    case LBracket => "LBracket"
    case RBracket => "RBracket"
    case Bar => "Bar"
    case QuestionMark => "QuestionMark"
    case Percent => "Percent"
    case If => "If"
    case Is => "Is"
    case In => "In"
    case For => "For"
    case Let => "Let"
    case Return => "Return"
    case Break => "Break"
  }
}
