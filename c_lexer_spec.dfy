/** The prototype lexer of the C front end (`why-c/src/lexer.c`) as
    functions on its state record. The buffer is a NUL-terminated C string;
    `exit(1)` after a message on standard error becomes an `Exited` result,
    and a loop that would spin forever becomes `Spins` at the first pass that
    leaves the state exactly as it found it (from there every further pass is
    the same). The class `CLexer.Lexer` is proved to compute these results. */
module CLexerSpec {
  import Decimal

  const NUL: char := '\0'

  /** The token kinds of `token.h`. */
  datatype CTokenType =
    | Ident | String | Int | Uint | Float | Ufloat | Eq | LParen | RParen | Hash
    | Dollar | Colon | Comma | Semi | At | SmallRArrow | LargeRArrow | Lt | Gt
    | Lte | Gte | Ne | EqEq | Keyword | LBrace | RBrace | Exclamation | LBracket
    | RBracket | Bar | QuestionMark | Percent | Typehint | Eof

  datatype Option<T> = None | Some(value: T)

  /** `Token`: a kind and a value, which is `NULL` for the end token. */
  datatype CToken = CToken(value: Option<string>, typ: CTokenType)

  /** `token_init(NULL, TOKEN_EOF)`. */
  const EofToken: CToken := CToken(None, Eof)

  /** `strlen`: the index of the first NUL. */
  function StrLen(s: seq<char>): (n: nat)
    requires NUL in s
    ensures n < |s| && s[n] == NUL
    ensures forall k :: 0 <= k < n ==> s[k] != NUL
  {
    if s[0] == NUL then 0
    else
      assert NUL in s[1..] by { assert s == [s[0]] + s[1..]; }
      var n := 1 + StrLen(s[1..]);
      assert forall k :: 1 <= k < n ==> s[k] == s[1..][k - 1];
      n
  }

  /** The `Lexer` struct: the buffer, its length, the index and the
      character under it. */
  datatype CState = CState(src: seq<char>, srcLen: nat, i: nat, c: char) {

    /** What `lexer_init` establishes and `lexer_next` keeps: `src_len` is
        the string's length, the index never passes the terminator, and `c`
        is the character under the index. */
    predicate Valid() {
      srcLen < |src| && src[srcLen] == NUL && (forall k :: 0 <= k < srcLen ==> src[k] != NUL)
      && i <= srcLen && c == src[i]
    }
  }

  /** The state with the index moved to `k`. */
  function Seek(s: CState, k: nat): (r: CState)
    requires s.Valid() && k <= s.srcLen
    ensures r.Valid() && r.src == s.src && r.srcLen == s.srcLen && r.i == k
  {
    s.(i := k, c := s.src[k])
  }

  /** `lexer_init`. */
  function Init(src: seq<char>): (s: CState)
    requires NUL in src
    ensures s.Valid() && s.src == src && s.srcLen == StrLen(src) && s.i == 0 && s.c == src[0]
  {
    CState(src, StrLen(src), 0, src[0])
  }

  /** `lexer_next`: one character on, unless the terminator is current; the
      state is left unchanged exactly on the terminator. */
  function Next(s: CState): (r: CState)
    requires s.Valid()
    ensures r.Valid() && r.src == s.src && r.srcLen == s.srcLen
    ensures r.i == if s.i < s.srcLen then s.i + 1 else s.i
    ensures r == s <==> s.c == NUL
  {
    if s.i < s.srcLen && s.c != NUL then s.(i := s.i + 1, c := s.src[s.i + 1]) else s
  }

  /** The index `lexer_peek` reads: `MIN(i + offset, src_len)`. */
  function PeekIndex(s: CState, offset: nat): (k: nat)
    requires s.Valid()
    ensures k <= s.srcLen && k < |s.src|
    ensures k == s.i + offset || k == s.srcLen
  {
    if s.i + offset < s.srcLen then s.i + offset else s.srcLen
  }

  /** `lexer_peek`: the character `offset` ahead, or the terminator when
      that is past the end. */
  function Peek(s: CState, offset: nat): (r: char)
    requires s.Valid()
    ensures r == if s.i + offset < s.srcLen then s.src[s.i + offset] else NUL
  {
    s.src[PeekIndex(s, offset)]
  }

  /** `is_newline`, `is_whitespace` and `isalnum` (over ASCII). */
  predicate IsNewline(c: char) { c == 13 as char || c == 10 as char }
  predicate IsWhitespace(c: char) { IsNewline(c) || c == ' ' || c == '\t' }
  predicate IsAlnum(c: char) { 'a' <= c <= 'z' || 'A' <= c <= 'Z' || '0' <= c <= '9' }

  /** `lexer_skip_whitespace`: on to the first character that is not a
      space, tab or line break. */
  function SkipWhitespace(s: CState): (r: CState)
    requires s.Valid()
    ensures r.Valid() && r.src == s.src && r.srcLen == s.srcLen && s.i <= r.i
    ensures !IsWhitespace(r.c)
    ensures forall k :: s.i <= k < r.i ==> IsWhitespace(s.src[k])
    decreases s.srcLen - s.i
  {
    if IsWhitespace(s.c) then SkipWhitespace(Next(s)) else s
  }

  /** The loop of `lexer_parse_ident`, with the characters gathered so far. */
  function IdentScan(s: CState, ident: string): (r: (CState, string))
    requires s.Valid()
    ensures r.0.Valid() && r.0.src == s.src && r.0.srcLen == s.srcLen && s.i <= r.0.i
    ensures !IsAlnum(r.0.c)
    decreases s.srcLen - s.i
  {
    if IsAlnum(s.c) then IdentScan(Next(s), ident + [s.c]) else (s, ident)
  }

  /** `lexer_parse_ident`: the alphanumeric run under the index, as an
      identifier token; the index is left on the character after it. */
  function ParseIdent(s: CState): (r: (CState, CToken))
    requires s.Valid()
    ensures r.0.Valid() && r.0.src == s.src && r.0.srcLen == s.srcLen && s.i <= r.0.i
    ensures r.1.typ == Ident && r.1.value.Some?
  {
    var scanned := IdentScan(s, "");
    (scanned.0, CToken(Some(scanned.1), Ident))
  }

  /** `lexer_parse_assignment_expr`: `=>`, `==` or `=` by the character
      after the `=`, with one `lexer_next` in every case. */
  function ParseAssignmentExpr(s: CState): (r: (CState, CToken))
    requires s.Valid()
    ensures r.0 == Next(s)
    ensures r.1 == CToken(Some("=>"), LargeRArrow) <==> Peek(s, 1) == '>'
    ensures r.1 == CToken(Some("=="), EqEq) <==> Peek(s, 1) == '='
    ensures r.1 == CToken(Some("="), Eq) <==> Peek(s, 1) != '>' && Peek(s, 1) != '='
  {
    if Peek(s, 1) == '>' then (Next(s), CToken(Some("=>"), LargeRArrow))
    else if Peek(s, 1) == '=' then (Next(s), CToken(Some("=="), EqEq))
    else (Next(s), CToken(Some("="), Eq))
  }

  /** How a routine that may exit or spin ends. */
  datatype Step<T> = Went(value: T) | Exited(message: string) | Spins

  /** `while (lexer->c != '*') lexer_next(lexer);` */
  function StarScan(s: CState): (r: Step<CState>)
    requires s.Valid()
    ensures r.Exited? == false
    ensures r.Went? ==> r.value.Valid() && r.value.src == s.src && r.value.srcLen == s.srcLen
                        && s.i <= r.value.i && r.value.c == '*'
    decreases s.srcLen - s.i
  {
    if s.c == '*' then Went(s)
    else
      var t := Next(s);
      if t == s then Spins else StarScan(t)
  }

  /** `while (!is_newline(lexer->c)) lexer_next(lexer);` */
  function LineScan(s: CState): (r: Step<CState>)
    requires s.Valid()
    ensures r.Exited? == false
    ensures r.Went? ==> r.value.Valid() && r.value.src == s.src && r.value.srcLen == s.srcLen
                        && s.i <= r.value.i && IsNewline(r.value.c)
    decreases s.srcLen - s.i
  {
    if IsNewline(s.c) then Went(s)
    else
      var t := Next(s);
      if t == s then Spins else LineScan(t)
  }

  const NeverClosed: string := "Error: Multiline comment was never closed\n"

  /** The message of the two "Invalid token" exits. */
  function InvalidAt(i: nat): string {
    "Invalid token at character " + Decimal.Show(i) + "\n"
  }

  /** Where a comment left the lexer, and the `multiline` flag it left. */
  datatype Comment = Comment(after: CState, multiline: bool)

  /** The `if (*multiline)` branch of `lexer_skip_comment`: on to the next
      star; a slash after it closes the comment, the terminator after it is
      an error, and anything else is stepped over before looking again. */
  function InBlock(s: CState): (r: Step<Comment>)
    requires s.Valid()
    ensures r.Went? ==> r.value.after.Valid() && r.value.after.src == s.src
                        && r.value.after.srcLen == s.srcLen && s.i < r.value.after.i
    ensures r.Went? ==> !r.value.multiline
    decreases s.srcLen - s.i
  {
    match StarScan(s)
    case Went(t) =>
      var next := Peek(t, 1);
      if next == '/' then Went(Comment(Next(Next(t)), false))
      else if next == NUL then Exited(NeverClosed)
      else InBlock(Next(t))
    case _ => Spins
  }

  /** `lexer_skip_comment`: a `//` comment through its line break, a
      block comment (slash, star) up to the first star followed by a slash; in a
      multi-line comment a `*` followed by the terminator is an error, and
      so is a `/` not followed by `/` or `*` outside one. Whenever it
      returns, the flag is clear and the lexer has moved. */
  function SkipComment(s: CState, multiline: bool): (r: Step<Comment>)
    requires s.Valid()
    ensures r.Went? ==> r.value.after.Valid() && r.value.after.src == s.src
                        && r.value.after.srcLen == s.srcLen && s.i < r.value.after.i
    ensures r.Went? ==> !r.value.multiline
  {
    var next := Peek(s, 1);
    if multiline then InBlock(s)
    else if next == '/' then
      (match LineScan(s)
       case Went(t) => Went(Comment(Next(t), multiline))
       case _ => Spins)
    else if next == '*' then
      InBlock(Next(Next(s)))
    else Exited(InvalidAt(s.i))
  }

  /** One pass of the loop of `lexer_lex_next`: what it leaves, the flag, and
      the tokens it made (`token_init` prints each one; `lexer_lex_next`
      keeps none of them). */
  datatype Pass = Pass(after: CState, multiline: bool, created: seq<CToken>)

  /** The body of the loop of `lexer_lex_next`, on a character that is not
      the terminator. Either it leaves everything as it was, or it moves on. */
  function LexPass(s: CState, multiline: bool): (r: Step<Pass>)
    requires s.Valid() && s.c != NUL
    ensures r.Went? ==> r.value.after.Valid() && r.value.after.src == s.src && r.value.after.srcLen == s.srcLen
    ensures r.Went? ==> (r.value.after == s && r.value.multiline == multiline && r.value.created == [])
                        || s.i < r.value.after.i
    ensures r.Went? && !multiline ==> !r.value.multiline
  {
    if s.c == '#' then
      var hash := CToken(Some("#"), Hash);
      var ident := ParseIdent(Next(s));
      Went(Pass(Next(ident.0), multiline, [hash, ident.1]))
    else if s.c == '=' then
      var assignment := ParseAssignmentExpr(s);
      Went(Pass(Next(assignment.0), multiline, [assignment.1]))
    else if s.c != ';' && IsAlnum(s.c) then
      var ident := ParseIdent(s);
      Went(Pass(Next(ident.0), multiline, [ident.1]))
    else if s.c == ';' then
      Went(Pass(Next(s), multiline, [CToken(Some(";"), Semi)]))
    else if s.c == '/' || s.c == '*' then
      if s.c == '*' && !multiline then Exited(InvalidAt(s.i))
      else
        (match SkipComment(s, multiline)
         case Went(comment) => Went(Pass(SkipWhitespace(comment.after), comment.multiline, []))
         case Exited(message) => Exited(message)
         case Spins => Spins)
    else Went(Pass(SkipWhitespace(s), multiline, []))
  }

  /** How `lexer_lex_next` ends, with the tokens made on the way. */
  datatype Run = Finished(created: seq<CToken>, result: CToken) | Exit(made: seq<CToken>, message: string) | Diverged(seen: seq<CToken>)

  /** The loop of `lexer_lex_next` from a given state and flag. */
  function LexLoop(s: CState, multiline: bool, created: seq<CToken>): (r: Run)
    requires s.Valid()
    ensures r.Finished? ==> r.result == EofToken
    decreases s.srcLen - s.i
  {
    if s.c == NUL then Finished(created, EofToken)
    else
      match LexPass(s, multiline)
      case Exited(message) => Exit(created, message)
      case Spins => Diverged(created)
      case Went(pass) =>
        if pass.after == s && pass.multiline == multiline then Diverged(created)
        else LexLoop(pass.after, pass.multiline, created + pass.created)
  }

  /** `lexer_lex_next`: the loop with the flag clear and no tokens yet. */
  function LexNext(s: CState): (r: Run)
    requires s.Valid()
    ensures r.Finished? ==> r.result == EofToken
  {
    LexLoop(s, false, [])
  }
}
