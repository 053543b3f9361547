/** The record the Rust lexer works on (`struct Lexer`), as a value, with the
    cursor operations `new`, `can_advance`, `next` and `peek`. The class
    `RustLexer.Lexer` holds the same fields as mutable state; this record is
    what its methods are specified against. */
module LexerState {
  import opened Wrappers
  import opened Tokens
  import Macros

  /** Character classes, over ASCII: `char::is_numeric`, `is_alphabetic`,
      `Lexer::is_newline` and `Lexer::can_be_ident`. */
  predicate IsNewline(c: char) { c == '\n' || c == '\r' }
  predicate IsNumeric(c: char) { '0' <= c <= '9' }
  predicate IsAlphabetic(c: char) { 'a' <= c <= 'z' || 'A' <= c <= 'Z' }
  predicate CanBeIdent(c: char) { IsAlphabetic(c) || IsNumeric(c) || c == '_' }

  /** The character `unwrap_or_default` gives for a missing `char`. */
  const NUL: char := '\0'

  datatype State = State(src: seq<char>, idx: nat, line: nat, col: nat, c: char, tokens: seq<Token>) {

    /** The invariant `next` keeps: the cursor is on a character of the text
        and `c` is that character. */
    predicate Valid() {
      idx < |src| && c == src[idx]
    }

    /** `can_advance`: `idx < src.len() - 1`. */
    predicate CanAdvance() {
      idx + 1 < |src|
    }
  }

  /** `Lexer::new`: fails on an empty text, otherwise the cursor is on the
      first character at line 1, column 1, with no tokens yet. */
  function New(text: string): (r: Result<State>)
    ensures r.Ok? <==> |text| > 0
    ensures r.Ok? ==> r.value.Valid() && r.value.src == text && r.value.idx == 0
                      && r.value.line == 1 && r.value.col == 1 && r.value.tokens == []
    ensures r.Err? ==> r.fault == Raised(Macros.Exc("There was no text in the file."))
  {
    if |text| == 0 then Err(Raised(Macros.Exc("There was no text in the file.")))
    else Ok(State(text, 0, 1, 1, text[0], []))
  }

  /** `Lexer::next`: leaving a line break starts a new line at column 1, any
      other character moves one column right; the index moves only while a
      character remains, so the last character stays current. */
  function Next(s: State): (r: State)
    ensures r.src == s.src && r.tokens == s.tokens
    ensures r.idx == if s.CanAdvance() then s.idx + 1 else s.idx
    ensures IsNewline(s.c) ==> r.line == s.line + 1 && r.col == 1
    ensures !IsNewline(s.c) ==> r.line == s.line && r.col == s.col + 1
    ensures s.CanAdvance() ==> r.c == s.src[s.idx + 1]
    ensures !s.CanAdvance() ==> r.c == s.c
    ensures s.Valid() ==> r.Valid()
  {
    var moved := if IsNewline(s.c) then s.(line := s.line + 1, col := 1) else s.(col := s.col + 1);
    if moved.CanAdvance() then moved.(idx := moved.idx + 1, c := moved.src[moved.idx + 1]) else moved
  }

  /** `lexer.peek(1)`: the following character, if there is one. */
  function Peek(s: State): (r: Option<char>)
    ensures r.Some? <==> s.CanAdvance()
    ensures r.Some? ==> r.value == s.src[s.idx + 1]
  {
    if !s.CanAdvance() || 1 >= |s.src| then None else Some(s.src[s.idx + 1])
  }

  /** `lexer.peek(1).unwrap_or_default()`. */
  function PeekOr(s: State): (r: char)
    ensures s.CanAdvance() ==> r == s.src[s.idx + 1]
    ensures !s.CanAdvance() ==> r == NUL
  {
    match Peek(s)
    case Some(ch) => ch
    case None => NUL
  }

  /** `make_token_mut!(typ, val, lexer)` on the record: exactly one token,
      stamped at the current position, is appended; nothing else changes. */
  function PushToken(s: State, typ: TokenType, val: string): (r: State)
    ensures |r.tokens| == |s.tokens| + 1 && r.tokens[..|s.tokens|] == s.tokens
    ensures r.tokens[|s.tokens|] == Macros.MakeToken(typ, val, s.line, s.col)
    ensures r.(tokens := s.tokens) == s
  {
    s.(tokens := s.tokens + [Macros.MakeToken(typ, val, s.line, s.col)])
  }

  /** `lex_exc!(lexer, msg)`: the error, located at the current position. */
  function LexError(s: State, msg: string): Fault
  {
    Raised(Macros.LexExc(s.line, s.col, msg))
  }
}
