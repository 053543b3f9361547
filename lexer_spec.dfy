/** The Rust lexer's routines (`lex_*`, `skip_comment`, `lex`) as functions
    on the lexer record. Each loop of the source is a recursive function
    over the record, with the same condition and the same body. */
module LexerSpec {
  import opened Wrappers
  import opened Tokens
  import opened LexerState
  import Macros

  /** `after` extends `before` by tokens none of which is an end-of-input token. */
  predicate Appended(before: seq<Token>, after: seq<Token>) {
    |before| <= |after| && after[..|before|] == before
    && forall i :: |before| <= i < |after| ==> after[i].typ != Eof
  }

  lemma AppendedTrans(a: seq<Token>, b: seq<Token>, c: seq<Token>)
    requires Appended(a, b) && Appended(b, c)
    ensures Appended(a, c)
  {
    assert c[..|a|] == c[..|b|][..|a|];
  }

  /** `after` is reachable from `before` by the lexer's routines: the same
      text, the cursor not moved back, tokens only appended. */
  predicate Advanced(before: State, after: State) {
    after.Valid() && after.src == before.src && after.idx >= before.idx
    && Appended(before.tokens, after.tokens)
  }

  lemma AdvancedTrans(a: State, b: State, c: State)
    requires Advanced(a, b) && Advanced(b, c)
    ensures Advanced(a, c)
  {
    AppendedTrans(a.tokens, b.tokens, c.tokens);
  }

  /** The two-character operators the lexer recognises, by their two
      characters, with their kinds. */
  function PairKind(a: char, b: char): Option<TokenType> {
    match (a, b)
    case ('=', '=') => Some(EqEq)
    case ('=', '>') => Some(LargeRArrow)
    case ('-', '-') => Some(MinusMinus)
    case ('-', '=') => Some(MinusEq)
    case ('-', '>') => Some(SmallRArrow)
    case ('+', '+') => Some(PlusPlus)
    case ('+', '=') => Some(PlusEq)
    case ('*', '*') => Some(StarStar)
    case ('*', '=') => Some(StarEq)
    case ('<', '=') => Some(Lte)
    case ('>', '=') => Some(Gte)
    case ('/', '=') => Some(SlashEq)
    case _ => None
  }

  /** The one-character operators, with their kinds. */
  function SingleKind(a: char): Option<TokenType> {
    match a
    case '=' => Some(Eq)
    case '-' => Some(Minus)
    case '+' => Some(Plus)
    case '*' => Some(Star)
    case '<' => Some(Lt)
    case '>' => Some(Gt)
    case _ => None
  }

  /** The fixed one-character tokens. */
  const Punctuation: map<char, TokenType> := map[
    ';' := Semi, '.' := Dot, ',' := Comma, ':' := Colon, '@' := At,
    '&' := And, '$' := Dollar, '!' := Exclamation, '^' := Caret, '?' := QuestionMark]

  const Enclosures: map<char, TokenType> := map[
    '(' := LParen, ')' := RParen, '[' := LBracket, ']' := RBracket, '{' := LBrace, '}' := RBrace]

  /** The seven words `lex_ident` turns into keyword tokens. */
  const Keywords: map<string, TokenType> := map[
    "if" := If, "is" := Is, "in" := In, "for" := For, "let" := Let, "return" := Return, "break" := Break]

  function Pushed(s: State, t: Token): State {
    s.(tokens := s.tokens + [t])
  }

  /** Pushing a real token, before or after one `next`, moves the lexer
      forward; `next` does not touch the token list. */
  lemma {:induction false} PushedAdvances(s: State, t: Token)
    requires t.typ != Eof
    ensures Next(Pushed(s, t)) == Pushed(Next(s), t)
    ensures s.Valid() ==> Advanced(s, Pushed(s, t)) && Advanced(s, Pushed(Next(s), t))
  {
    assert Pushed(s, t).tokens[..|s.tokens|] == s.tokens;
  }

  /** A token read at the current position by one of the `get_*_token`
      routines, by maximal munch: the two-character operator made of
      `first` and the next character when there is one, otherwise `first`
      on its own; located at the current position. */
  predicate OperatorAt(s: State, first: char, t: Token) {
    var next := PeekOr(s);
    t.loc == Loc(s.line, s.col) && t.addtl.None?
    && match PairKind(first, next)
       case Some(kind) => t.value == [first, next] && t.typ == kind
       case None => SingleKind(first).Some? && t.value == [first] && t.typ == SingleKind(first).value
  }

  /** `get_eq_token`. */
  function GetEqToken(s: State): (t: Token)
    ensures OperatorAt(s, '=', t)
  {
    match PeekOr(s)
    case '>' => Macros.MakeToken(LargeRArrow, "=>", s.line, s.col)
    case '=' => Macros.MakeToken(EqEq, "==", s.line, s.col)
    case _ => Macros.MakeToken(Eq, "=", s.line, s.col)
  }

  /** `get_minus_token`. */
  function GetMinusToken(s: State): (t: Token)
    ensures OperatorAt(s, '-', t)
  {
    match PeekOr(s)
    case '-' => Macros.MakeToken(MinusMinus, "--", s.line, s.col)
    case '=' => Macros.MakeToken(MinusEq, "-=", s.line, s.col)
    case '>' => Macros.MakeToken(SmallRArrow, "->", s.line, s.col)
    case _ => Macros.MakeToken(Minus, "-", s.line, s.col)
  }

  /** `get_plus_token`. */
  function GetPlusToken(s: State): (t: Token)
    ensures OperatorAt(s, '+', t)
  {
    match PeekOr(s)
    case '+' => Macros.MakeToken(PlusPlus, "++", s.line, s.col)
    case '=' => Macros.MakeToken(PlusEq, "+=", s.line, s.col)
    case _ => Macros.MakeToken(Plus, "+", s.line, s.col)
  }

  /** `get_star_token`. */
  function GetStarToken(s: State): (t: Token)
    ensures OperatorAt(s, '*', t)
  {
    match PeekOr(s)
    case '*' => Macros.MakeToken(StarStar, "**", s.line, s.col)
    case '=' => Macros.MakeToken(StarEq, "*=", s.line, s.col)
    case _ => Macros.MakeToken(Star, "*", s.line, s.col)
  }

  /** `lex_eq`: pushes the token, then always advances, since the kind it
      tests for (`Minus`) is never an `=` token; so a plain `=` also steps
      over the character after it. */
  function LexEq(s: State): (r: State)
    ensures r == Pushed(Next(s), GetEqToken(s))
    ensures s.Valid() ==> Advanced(s, r)
  {
    var token := GetEqToken(s);
    var pushed := Pushed(s, token);
    if token.typ == Minus then pushed else Next(pushed)
  }

  /** `lex_minus`: pushes the token and advances unless it is a plain `-`. */
  function LexMinus(s: State): (r: State)
    ensures |GetMinusToken(s).value| == 2 ==> r == Pushed(Next(s), GetMinusToken(s))
    ensures |GetMinusToken(s).value| == 1 ==> r == Pushed(s, GetMinusToken(s))
    ensures s.Valid() ==> Advanced(s, r)
  {
    var token := GetMinusToken(s);
    PushedAdvances(s, token);
    var pushed := Pushed(s, token);
    if token.typ == Minus then pushed else Next(pushed)
  }

  /** `lex_plus`: pushes the token and advances unless it is a plain `+`. */
  function LexPlus(s: State): (r: State)
    ensures |GetPlusToken(s).value| == 2 ==> r == Pushed(Next(s), GetPlusToken(s))
    ensures |GetPlusToken(s).value| == 1 ==> r == Pushed(s, GetPlusToken(s))
    ensures s.Valid() ==> Advanced(s, r)
  {
    var token := GetPlusToken(s);
    PushedAdvances(s, token);
    var pushed := Pushed(s, token);
    if token.typ == Plus then pushed else Next(pushed)
  }

  /** `lex_star`: pushes the token and advances unless it is a plain `*`. */
  function LexStar(s: State): (r: State)
    ensures |GetStarToken(s).value| == 2 ==> r == Pushed(Next(s), GetStarToken(s))
    ensures |GetStarToken(s).value| == 1 ==> r == Pushed(s, GetStarToken(s))
    ensures s.Valid() ==> Advanced(s, r)
  {
    var token := GetStarToken(s);
    PushedAdvances(s, token);
    var pushed := Pushed(s, token);
    if token.typ == Star then pushed else Next(pushed)
  }

  /** The token `lex_comparison` builds when the current character is `<`
      or `>`: `<=`/`>=` when an `=` follows, else the single character. */
  function ComparisonToken(s: State): (t: Token)
    requires s.c == '<' || s.c == '>'
    ensures OperatorAt(s, s.c, t)
  {
    var next := PeekOr(s);
    if s.c == '<' then
      if next == '=' then Macros.MakeToken(Lte, "<=", s.line, s.col)
      else Macros.MakeToken(Lt, "<", s.line, s.col)
    else
      if next == '=' then Macros.MakeToken(Gte, ">=", s.line, s.col)
      else Macros.MakeToken(Gt, ">", s.line, s.col)
  }

  /** `lex_comparison`: `<=`/`>=` (advancing once) or `<`/`>`; any other
      current character is an error. */
  function LexComparison(s: State): (r: Result<State>)
    ensures r.Ok? <==> s.c == '<' || s.c == '>'
    ensures r.Ok? ==> var t := ComparisonToken(s);
                      r.value == if |t.value| == 2 then Pushed(Next(s), t) else Pushed(s, t)
    ensures r.Ok? && s.Valid() ==> Advanced(s, r.value)
    ensures r.Err? ==> r.fault == LexError(s, "Unexpected comparison op: " + [s.c])
  {
    if s.c == '<' || s.c == '>' then
      var token := ComparisonToken(s);
      if token.typ == Lte || token.typ == Gte then Ok(Pushed(Next(s), token))
      else Ok(Pushed(s, token))
    else Err(LexError(s, "Unexpected comparison op: " + [s.c]))
  }

  /** `lex_enclosures`: one of the six bracket tokens, or an error for any
      other current character (`LexerProps.EnclosureToken` states which). */
  function LexEnclosures(s: State): (r: Result<State>)
    ensures r.Ok? && s.Valid() ==> Advanced(s, r.value)
  {
    match s.c
    case '(' => Ok(PushToken(s, LParen, "("))
    case ')' => Ok(PushToken(s, RParen, ")"))
    case '[' => Ok(PushToken(s, LBracket, "["))
    case ']' => Ok(PushToken(s, RBracket, "]"))
    case '{' => Ok(PushToken(s, LBrace, "{"))
    case '}' => Ok(PushToken(s, RBrace, "}"))
    case _ => Err(LexError(s, "Got unexpected enclosure: '" + [s.c] + "'"))
  }

  /** The `match name.as_str()` of `lex_ident`. */
  function KeywordKind(name: string): (t: TokenType)
    ensures name in Keywords ==> t == Keywords[name]
    ensures name !in Keywords ==> t == Ident
  {
    if name == "if" then If
    else if name == "is" then Is
    else if name == "in" then In
    else if name == "for" then For
    else if name == "let" then Let
    else if name == "return" then Return
    else if name == "break" then Break
    else Ident
  }

  /** The `while` loop of `lex_ident`. */
  function IdentScan(s: State, name: string): (r: (State, string))
    requires s.Valid()
    decreases |s.src| - s.idx
    ensures r.0.Valid() && r.0.src == s.src && r.0.tokens == s.tokens && r.0.idx >= s.idx
    ensures s.CanAdvance() && CanBeIdent(s.c) ==> r.0.idx > s.idx
    ensures !s.CanAdvance() ==> r == (s, name)
  {
    if s.CanAdvance() && CanBeIdent(s.c) then IdentScan(Next(s), name + [s.c]) else (s, name)
  }

  /** `lex_ident`. */
  function LexIdent(s: State): (r: State)
    requires s.Valid()
    ensures Advanced(s, r) && |r.tokens| == |s.tokens| + 1
    ensures s.CanAdvance() && CanBeIdent(s.c) ==> r.idx > s.idx
    ensures !s.CanAdvance() ==> r.idx == s.idx && r.c == s.c
  {
    var token := TokenAt(Ident, s.line, s.col);
    var (t, name) := IdentScan(s, "");
    var name := if !t.CanAdvance() && CanBeIdent(t.c) then name + [t.c] else name;
    Pushed(t, token.(typ := KeywordKind(name), value := name))
  }

  /** The `while` loop of `lex_number`; `fractional` is the kind's flag and
      `dots` the `dot_count`. */
  function NumberScan(s: State, fractional: bool, digits: string, dots: nat): (r: Result<(State, bool, string)>)
    requires s.Valid()
    decreases |s.src| - s.idx
    ensures r.Ok? ==> r.value.0.Valid() && r.value.0.src == s.src && r.value.0.tokens == s.tokens
    ensures r.Ok? ==> r.value.0.idx >= s.idx && (!s.CanAdvance() ==> r.value.0 == s)
    ensures r.Ok? && s.CanAdvance() && (IsNumeric(s.c) || s.c == '.') ==> r.value.0.idx > s.idx
  {
    if s.CanAdvance() && (IsNumeric(s.c) || s.c == '.') then
      if s.c == '.' && dots > 0 then Err(LexError(s, "Invalid location for '.'"))
      else if s.c == '.' then NumberScan(Next(s), true, digits + [s.c], dots + 1)
      else NumberScan(Next(s), fractional, digits + [s.c], dots)
    else Ok((s, fractional, digits))
  }

  /** `lex_number`. */
  function LexNumber(s: State): (r: Result<State>)
    requires s.Valid()
    ensures r.Ok? ==> Advanced(s, r.value) && |r.value.tokens| == |s.tokens| + 1
    ensures r.Ok? && s.CanAdvance() ==> r.value.idx > s.idx
    ensures r.Ok? && !s.CanAdvance() ==> r.value.idx == s.idx && r.value.c == s.c
  {
    var token := TokenAt(NumLiteral(false), s.line, s.col);
    var s1 := Next(s);
    match NumberScan(s1, false, [s.c], 0)
    case Err(f) => Err(f)
    case Ok((t, fractional, digits)) =>
      var digits := if !t.CanAdvance() && IsNumeric(t.c) then digits + [t.c] else digits;
      Ok(Pushed(t, token.(typ := NumLiteral(fractional), value := digits)))
  }

  /** How many bytes a character takes in UTF-8 (`String::len` counts
      bytes). */
  function Utf8Width(ch: char): (w: nat)
    ensures 1 <= w <= 4
    ensures w == 1 <==> ch as int < 0x80
  {
    if ch as int < 0x80 then 1 else if ch as int < 0x800 then 2 else if ch as int < 0x10000 then 3 else 4
  }

  /** `String::len`: the UTF-8 byte length, one to four bytes a character. */
  function Utf8Len(s: string): (n: nat)
    ensures |s| <= n <= 4 * |s|
    ensures n == |s| <==> forall i :: 0 <= i < |s| ==> s[i] as int < 0x80
  {
    if s == [] then 0 else Utf8Len(s[..|s| - 1]) + Utf8Width(s[|s| - 1])
  }

  /** The `while` loop of `lex_string`. */
  function StringScan(s: State, delim: char, content: string): (r: (State, string))
    requires s.Valid()
    decreases |s.src| - s.idx
    ensures r.0.Valid() && r.0.src == s.src && r.0.tokens == s.tokens && r.0.idx >= s.idx
  {
    if s.c != delim && s.CanAdvance() then
      if s.c == '\\' && PeekOr(s) == delim then
        StringScan(Next(Next(s)), delim, content + [s.c, PeekOr(s)])
      else
        StringScan(Next(s), delim, content + [s.c])
    else (s, content)
  }

  /** `lex_string`. The token's column is the closing position moved back
      by the byte length of the content plus one; the `usize` subtraction
      panics when that would go below zero. */
  function LexString(s: State): (r: Result<State>)
    requires s.Valid()
    ensures r.Ok? ==> Advanced(s, r.value) && |r.value.tokens| == |s.tokens| + 1
  {
    var delim := s.c;
    var (t, content) := StringScan(Next(s), delim, "");
    if t.c == delim then
      var token := Macros.MakeToken(StrLiteral, content, t.line, t.col);
      var col: int := t.col - Utf8Len(content) - 1;
      if col < 0 then Err(Panicked("attempt to subtract with overflow"))
      else Ok(Pushed(t, token.(loc := token.loc.(col := col))))
    else Err(LexError(t, "`" + [delim] + "` was never closed"))
  }

  /** `end_multiline_comment`. */
  predicate EndMultilineComment(s: State) {
    s.c == '*' && PeekOr(s) == '/'
  }

  datatype CommentScan = Closed(after: State) | Exhausted(at: State)

  /** The `while` loop of `skip_comment` that looks for the closing star and slash. */
  function MultilineScan(s: State): (r: CommentScan)
    requires s.Valid()
    decreases |s.src| - s.idx
    ensures r.Closed? ==> r.after.Valid() && r.after.src == s.src && r.after.tokens == s.tokens && r.after.idx > s.idx
    ensures r.Exhausted? ==> r.at.Valid() && r.at.src == s.src && r.at.tokens == s.tokens
                             && r.at.idx >= s.idx && !r.at.CanAdvance()
  {
    if s.CanAdvance() then
      if EndMultilineComment(s) then Closed(Next(Next(s)))
      else MultilineScan(Next(s))
    else Exhausted(s)
  }

  /** The `while` loop that skips the rest of a `//` comment. */
  function LineScan(s: State): (r: State)
    requires s.Valid()
    decreases |s.src| - s.idx
    ensures r.Valid() && r.src == s.src && r.tokens == s.tokens && r.idx >= s.idx
  {
    if s.CanAdvance() && !IsNewline(s.c) then LineScan(Next(s)) else s
  }

  /** `skip_comment(lexer, multiline)`. */
  function SkipComment(s: State, multiline: bool): (r: Result<State>)
    requires s.Valid()
    decreases |s.src| - s.idx, 1
    ensures r.Ok? ==> Advanced(s, r.value)
  {
    var scanned := if multiline then MultilineScan(s) else Exhausted(s);
    if scanned.Closed? then Ok(scanned.after)
    else
      var t := scanned.at;
      var next := PeekOr(t);
      if next != '/' && next != '*' && next != '=' then
        Err(LexError(t, "Invalid character after a '/': '" + [next] + "'"))
      else SlashLoop(t, multiline)
  }

  /** The second `while` loop of `skip_comment`. */
  function SlashLoop(s: State, multiline: bool): (r: Result<State>)
    requires s.Valid()
    decreases |s.src| - s.idx, 0
    ensures r.Ok? ==> Advanced(s, r.value)
  {
    if s.CanAdvance() then
      var t := Next(s);
      if t.c == '=' then Ok(PushToken(t, SlashEq, "/="))
      else if t.c == '*' then SkipComment(t, true)
      else if !multiline && t.c == '/' then Ok(LineScan(t))
      else SlashLoop(t, multiline)
    else Ok(s)
  }

  /** The ten routines `lex_semi` ... `lex_question_mark`: the character's
      token, at the current position, pushed without advancing. */
  function LexPunctuation(s: State): (r: State)
    requires s.c in Punctuation
    ensures r == Pushed(s, Macros.MakeToken(Punctuation[s.c], [s.c], s.line, s.col))
    ensures s.Valid() ==> Advanced(s, r)
  {
    PushToken(s, Punctuation[s.c], [s.c])
  }

  /** What one turn of the `loop` in `lex` leaves: go round again, leave
      the loop, or return an error. */
  datatype Step = Again(next: State) | Stop(last: State) | Failed(fault: Fault)

  /** A turn that goes round again has moved the cursor forward; one that
      leaves the loop is on the last character; both keep the record
      reachable from where the turn started. */
  predicate StepFrom(s: State, r: Step) {
    (r.Again? ==> Advanced(s, r.next) && r.next.idx > s.idx)
    && (r.Stop? ==> Advanced(s, r.last) && !r.last.CanAdvance())
  }

  /** The end of a turn (lines 538-542): leave the loop on the last
      character, else advance. */
  function Tail(s: State): (r: Step)
    ensures r.Stop? <==> !s.CanAdvance()
    ensures r.Stop? ==> r.last == s
    ensures r.Again? ==> r.next == Next(s)
  {
    if !s.CanAdvance() then Stop(s) else Again(Next(s))
  }

  lemma TailFrom(s: State, t: State)
    requires Advanced(s, t)
    ensures StepFrom(s, Tail(t))
  {
    if t.CanAdvance() {
      AdvancedTrans(s, t, Next(t));
    }
  }

  /** A routine's result followed by the end of the turn; an error leaves
      `lex` at once (the `?`). */
  function TailOf(s: State, r: Result<State>): (step: Step)
    requires r.Ok? ==> Advanced(s, r.value)
    ensures r.Err? ==> step == Failed(r.fault)
    ensures r.Ok? ==> step == Tail(r.value)
    ensures StepFrom(s, step)
  {
    match r
    case Ok(t) => TailFrom(s, t); Tail(t)
    case Err(f) => Failed(f)
  }

  /** One turn of the `loop` in `lex`, dispatching on the current
      character: the operators, comments, comparisons and strings here, the
      other arms in `OtherStep`. */
  function LexStep(s: State): (r: Step)
    requires s.Valid()
    ensures StepFrom(s, r)
  {
    match s.c
    case '=' => TailOf(s, Ok(LexEq(s)))
    case '-' => TailOf(s, Ok(LexMinus(s)))
    case '+' => TailOf(s, Ok(LexPlus(s)))
    case '*' => TailOf(s, Ok(LexStar(s)))
    case '/' => TailOf(s, SkipComment(s, false))
    case '<' => TailOf(s, LexComparison(s))
    case '>' => TailOf(s, LexComparison(s))
    case '"' => TailOf(s, LexString(s))
    case '\'' => TailOf(s, LexString(s))
    case _ => OtherStep(s)
  }

  /** The arms for the ten one-character tokens (`lex_semi` ...
      `lex_question_mark`) and for white space, which is passed over. */
  function OtherStep(s: State): (r: Step)
    requires s.Valid()
    ensures StepFrom(s, r)
  {
    if s.c in Punctuation then TailOf(s, Ok(LexPunctuation(s)))
    else if s.c == ' ' || s.c == '\n' || s.c == '\r' then TailOf(s, Ok(s))
    else BracketStep(s)
  }

  /** The bracket arm, and the default arm for digits and identifier
      characters; any other character is passed over. */
  function BracketStep(s: State): (r: Step)
    requires s.Valid()
    ensures StepFrom(s, r)
  {
    match s.c
    case '(' => TailOf(s, LexEnclosures(s))
    case ')' => TailOf(s, LexEnclosures(s))
    case '[' => TailOf(s, LexEnclosures(s))
    case ']' => TailOf(s, LexEnclosures(s))
    case '{' => TailOf(s, LexEnclosures(s))
    case '}' => TailOf(s, LexEnclosures(s))
    case _ =>
      if IsNumeric(s.c) then NumberTurn(s)
      else if IsAlphabetic(s.c) || s.c == '_' then IdentTurn(s)
      else TailOf(s, Ok(s))
  }

  /** The turn for a digit (lines 508-517): after `lex_number` the loop
      goes round again without advancing, unless the number ended on the
      last character. */
  function NumberTurn(s: State): (r: Step)
    requires s.Valid() && IsNumeric(s.c)
    ensures StepFrom(s, r)
  {
    match LexNumber(s)
    case Err(f) => Failed(f)
    case Ok(t) =>
      if !t.CanAdvance() && !IsNumeric(t.c) then Again(t)
      else if !t.CanAdvance() then Stop(t)
      else Again(t)
  }

  /** The message for an identifier that reaches the end of the text;
      `{:?}` of a character is the character in single quotes. */
  function AfterIdentMessage(ch: char): string {
    "';' or operand expected after identifier '" + [ch] + "'"
  }

  /** The turn for an identifier character (lines 518-533): the same, except
      that an identifier running into the last character is an error. */
  function IdentTurn(s: State): (r: Step)
    requires s.Valid() && CanBeIdent(s.c)
    ensures StepFrom(s, r)
  {
    var t := LexIdent(s);
    if !t.CanAdvance() && CanBeIdent(t.c) then
      Failed(LexError(t, AfterIdentMessage(t.c)))
    else if !t.CanAdvance() && !CanBeIdent(t.c) then Again(t)
    else if !t.CanAdvance() then Stop(t)
    else Again(t)
  }

  /** The tokens `lex` returns once its loop is left: one more `next`, then
      the end-of-input token at that position. */
  function Finish(s: State): (tokens: seq<Token>)
    ensures |tokens| == |s.tokens| + 1 && tokens[..|s.tokens|] == s.tokens
    ensures tokens[|s.tokens|] == Macros.MakeToken(Eof, "", Next(s).line, Next(s).col)
  {
    PushToken(Next(s), Eof, "").tokens
  }

  /** `out` is what `lex` may return after starting from the token list
      `before`: that list, then real tokens only, then one end-of-input
      token with empty text. */
  predicate Lexed(before: seq<Token>, out: seq<Token>) {
    |out| > 0 && Appended(before, out[..|out| - 1])
    && out[|out| - 1].typ == Eof && out[|out| - 1].value == ""
  }

  /** Leaving the loop yields a well-formed list. */
  lemma {:induction false} FinishLexed(s: State)
    ensures Lexed(s.tokens, Finish(s))
  {
    var out := Finish(s);
    assert out[..|out| - 1] == s.tokens;
  }

  /** A turn that only appended real tokens keeps the result well formed. */
  lemma {:induction false} LexedTrans(a: seq<Token>, b: seq<Token>, out: seq<Token>)
    requires Appended(a, b) && Lexed(b, out)
    ensures Lexed(a, out)
  {
    AppendedTrans(a, b, out[..|out| - 1]);
  }

  /** The `loop` of `lex`, from a given record: the tokens already there
      are kept, every token added is a real one, and the list ends in the
      end-of-input token. */
  function Run(s: State): (r: Result<seq<Token>>)
    requires s.Valid()
    decreases |s.src| - s.idx
    ensures r.Ok? ==> Lexed(s.tokens, r.value)
  {
    match LexStep(s)
    case Failed(f) => Err(f)
    case Stop(t) => FinishLexed(t); Ok(Finish(t))
    case Again(t) =>
      var r := Run(t);
      if r.Ok? then LexedTrans(s.tokens, t.tokens, r.value); r else r
  }

  /** `Lexer::new(text)?.lex()`. */
  function Tokenize(text: string): (r: Result<seq<Token>>)
    ensures text == [] ==> r == Err(Raised(Macros.Exc("There was no text in the file.")))
    ensures r.Ok? ==> Lexed([], r.value)
  {
    match New(text)
    case Err(f) => Err(f)
    case Ok(s) => Run(s)
  }
}
