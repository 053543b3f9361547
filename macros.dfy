/** The error and token builders of the front end (`exc!`, `lex_exc!`,
    `make_token!`); the two that push onto a lexer's token list are methods
    of `RustLexer.Lexer` (and `LexerState.PushToken` on the lexer record). */
module Macros {
  import opened Tokens
  import Decimal

  const ExcPrefix: string := "Error! --> "

  /** `exc!(msg)`: the text of the `Err` it returns. */
  function Exc(msg: string): (e: string)
    ensures |e| == |ExcPrefix| + |msg|
    ensures e[..|ExcPrefix|] == ExcPrefix && e[|ExcPrefix|..] == msg
  {
    ExcPrefix + msg
  }

  /** Two `exc!` errors are equal only when their messages are. */
  lemma ExcInjective(m1: string, m2: string)
    requires Exc(m1) == Exc(m2)
    ensures m1 == m2
  {
    assert m1 == Exc(m1)[|ExcPrefix|..];
  }

  /** `lex_exc!(lexer, msg)`: the message prefixed with the lexer's current
      line and column. */
  function LexExc(line: nat, col: nat, msg: string): (e: string)
    ensures |e| > 5 + |msg| && e[..5] == "line " && e[|e| - |msg|..] == msg
  {
    "line " + (Decimal.Show(line) + (", column " + (Decimal.Show(col) + (": --> " + msg))))
  }

  /** The position and the message can be read back from a `lex_exc!` error:
      two of them are equal only if line, column and message all are. */
  lemma LexExcInjective(l1: nat, c1: nat, m1: string, l2: nat, c2: nat, m2: string)
    requires LexExc(l1, c1, m1) == LexExc(l2, c2, m2)
    ensures l1 == l2 && c1 == c2 && m1 == m2
  {
    var y1, y2 := ": --> " + m1, ": --> " + m2;
    var x1, x2 := ", column " + (Decimal.Show(c1) + y1), ", column " + (Decimal.Show(c2) + y2);
    DropPrefix("line ", Decimal.Show(l1) + x1);
    DropPrefix("line ", Decimal.Show(l2) + x2);
    Decimal.DigitsThenNonDigit(Decimal.Show(l1), x1, Decimal.Show(l2), x2);
    Decimal.ShowInjective(l1, l2);
    DropPrefix(", column ", Decimal.Show(c1) + y1);
    DropPrefix(", column ", Decimal.Show(c2) + y2);
    Decimal.DigitsThenNonDigit(Decimal.Show(c1), y1, Decimal.Show(c2), y2);
    Decimal.ShowInjective(c1, c2);
    DropPrefix(": --> ", m1);
    DropPrefix(": --> ", m2);
  }

  lemma DropPrefix(p: string, a: string)
    ensures (p + a)[|p|..] == a
  {
  }

  /** A `lex_exc!` error never looks like an `exc!` error. */
  lemma LexExcIsNotExc(line: nat, col: nat, m1: string, m2: string)
    ensures LexExc(line, col, m1) != Exc(m2)
  {
    assert LexExc(line, col, m1)[0] == 'l';
    assert Exc(m2)[0] == 'E';
  }

  /** `make_token!(typ, val, lexer)`: a token stamped at the lexer's line and
      column. */
  function MakeToken(typ: TokenType, val: string, line: nat, col: nat): (t: Token)
    ensures t.typ == typ && t.value == val && t.loc == Loc(line, col) && t.addtl.None?
  {
    WithValueAt(typ, val, line, col)
  }
}
