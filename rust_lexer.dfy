/** The Rust lexer as the source has it: an object whose fields the
    routines update in place. Every method is proved to leave the object in
    the state the matching function of `LexerSpec` computes from the state
    it found. */
module RustLexer {
  import opened Wrappers
  import opened Tokens
  import opened LexerState
  import opened LexerSpec
  import Macros

  /** How one turn of the `loop` in `lex` ends. */
  datatype Turn = GoOn | Leave | Abort(fault: Fault)

  /** A turn that ended with `o`, leaving `t`, did what `step` says. */
  predicate Did(step: Step, o: Turn, t: LexerState.State) {
    (step.Again? ==> o == GoOn && t == step.next)
    && (step.Stop? ==> o == Leave && t == step.last)
    && (step.Failed? ==> o == Abort(step.fault))
  }

  class Lexer {
    var src: seq<char>
    var idx: nat
    var line: nat
    var col: nat
    var c: char
    var tokens: seq<Token>

    /** The fields, as a lexer record. */
    function State(): LexerState.State
      reads this
    {
      LexerState.State(src, idx, line, col, c, tokens)
    }

    predicate Valid()
      reads this
    {
      State().Valid()
    }

    constructor Of(s: LexerState.State)
      ensures State() == s
    {
      src, idx, line, col, c, tokens := s.src, s.idx, s.line, s.col, s.c, s.tokens;
    }

    /** `Lexer::new`. */
    static method New(text: string) returns (r: Result<Lexer>)
      ensures r.Ok? <==> LexerState.New(text).Ok?
      ensures r.Ok? ==> fresh(r.value) && r.value.State() == LexerState.New(text).value
      ensures r.Err? ==> r.fault == LexerState.New(text).fault
    {
      if |text| == 0 {
        return Err(Raised(Macros.Exc("There was no text in the file.")));
      }
      var lexer := new Lexer.Of(LexerState.State(text, 0, 1, 1, text[0], []));
      return Ok(lexer);
    }

    /** `can_advance`. */
    function CanAdvance(): (b: bool)
      reads this
      ensures b == State().CanAdvance()
    {
      idx < |src| - 1
    }

    /** `Lexer::next`. */
    method Next()
      modifies this
      ensures State() == LexerState.Next(old(State()))
    {
      if IsNewline(c) {
        line := line + 1;
        col := 1;
      } else {
        col := col + 1;
      }
      if CanAdvance() {
        idx := idx + 1;
        c := src[idx];
      }
    }

    /** `lexer.peek(1).unwrap_or_default()`. */
    function PeekOr(): (ch: char)
      reads this
      ensures ch == LexerState.PeekOr(State())
    {
      if !CanAdvance() || 1 >= |src| then NUL else src[idx + 1]
    }

    /** `make_token_mut!(typ, val, lexer)`. */
    method MakeTokenMut(typ: TokenType, val: string)
      modifies this
      ensures State() == PushToken(old(State()), typ, val)
    {
      tokens := tokens + [Macros.MakeToken(typ, val, line, col)];
    }

    /** `make_token_mut_ok!(typ, val, lexer)`: the same push, then `Ok(())`. */
    method MakeTokenMutOk(typ: TokenType, val: string) returns (r: Result<()>)
      modifies this
      ensures r == Ok(())
      ensures State() == PushToken(old(State()), typ, val)
    {
      MakeTokenMut(typ, val);
      return Ok(());
    }

    /** `skip_comment(lexer, multiline)`: the search for the closing star
        and slash (multiline only), the check of the character after the
        slash, then the second loop, `SlashRest`. */
    method SkipComment(multiline: bool) returns (r: Result<()>)
      requires Valid()
      modifies this
      decreases |src| - idx, 1
      ensures var spec := LexerSpec.SkipComment(old(State()), multiline);
              (r.Ok? <==> spec.Ok?) && (spec.Ok? ==> State() == spec.value)
              && (spec.Err? ==> r.fault == spec.fault)
    {
      if multiline {
        var closed := ScanMultiline();
        if closed {
          return Ok(());
        }
      }
      var next := PeekOr();
      if next != '/' && next != '*' && next != '=' {
        return Err(LexError(State(), "Invalid character after a '/': '" + [next] + "'"));
      }
      r := SlashRest(multiline);
    }

    /** The first loop of `skip_comment`: true when it stopped just past a
        star and slash, false when it reached the last character. */
    method ScanMultiline() returns (closed: bool)
      requires Valid()
      modifies this
      ensures var scan := MultilineScan(old(State()));
              closed == scan.Closed? && State() == (if closed then scan.after else scan.at)
    {
      ghost var s0 := State();
      while CanAdvance()
        invariant Valid() && src == s0.src
        invariant MultilineScan(State()) == MultilineScan(s0)
        decreases |src| - idx
      {
        if c == '*' && PeekOr() == '/' {
          Next();
          Next();
          return true;
        }
        Next();
      }
      return false;
    }

    /** The second loop of `skip_comment`: `/=` is pushed, a slash and star start a
        multiline comment, and outside one `//` skips to the line break. */
    method SlashRest(multiline: bool) returns (r: Result<()>)
      requires Valid()
      modifies this
      decreases |src| - idx, 0
      ensures var spec := SlashLoop(old(State()), multiline);
              (r.Ok? <==> spec.Ok?) && (spec.Ok? ==> State() == spec.value)
              && (spec.Err? ==> r.fault == spec.fault)
    {
      ghost var t := State();
      while CanAdvance()
        invariant Valid() && src == t.src && idx >= t.idx
        invariant SlashLoop(State(), multiline) == SlashLoop(t, multiline)
        decreases |src| - idx
      {
        Next();
        if c == '=' {
          MakeTokenMut(SlashEq, "/=");
          return Ok(());
        } else if c == '*' {
          r := SkipComment(true);
          return;
        } else if !multiline && c == '/' {
          SkipLine();
          break;
        }
      }
      return Ok(());
    }

    /** The loop that passes over the rest of a `//` comment. */
    method SkipLine()
      requires Valid()
      modifies this
      ensures State() == LineScan(old(State()))
    {
      ghost var u := State();
      while CanAdvance() && !IsNewline(c)
        invariant Valid() && src == u.src
        invariant LineScan(State()) == LineScan(u)
        decreases |src| - idx
      {
        Next();
      }
    }

    /** `get_eq_token`. */
    function GetEqToken(): (t: Token)
      reads this
      ensures t == LexerSpec.GetEqToken(State())
    {
      match PeekOr()
      case '>' => Macros.MakeToken(LargeRArrow, "=>", line, col)
      case '=' => Macros.MakeToken(EqEq, "==", line, col)
      case _ => Macros.MakeToken(Eq, "=", line, col)
    }

    /** `lex_eq`. */
    method LexEq()
      modifies this
      ensures State() == LexerSpec.LexEq(old(State()))
    {
      var token := GetEqToken();
      tokens := tokens + [token];
      if token.typ != Minus {
        Next();
      }
    }

    /** `get_minus_token`. */
    function GetMinusToken(): (t: Token)
      reads this
      ensures t == LexerSpec.GetMinusToken(State())
    {
      match PeekOr()
      case '-' => Macros.MakeToken(MinusMinus, "--", line, col)
      case '=' => Macros.MakeToken(MinusEq, "-=", line, col)
      case '>' => Macros.MakeToken(SmallRArrow, "->", line, col)
      case _ => Macros.MakeToken(Minus, "-", line, col)
    }

    /** `lex_minus`. */
    method LexMinus()
      modifies this
      ensures State() == LexerSpec.LexMinus(old(State()))
    {
      var token := GetMinusToken();
      tokens := tokens + [token];
      if token.typ != Minus {
        Next();
      }
    }

    /** `get_plus_token`. */
    function GetPlusToken(): (t: Token)
      reads this
      ensures t == LexerSpec.GetPlusToken(State())
    {
      match PeekOr()
      case '+' => Macros.MakeToken(PlusPlus, "++", line, col)
      case '=' => Macros.MakeToken(PlusEq, "+=", line, col)
      case _ => Macros.MakeToken(Plus, "+", line, col)
    }

    /** `lex_plus`. */
    method LexPlus()
      modifies this
      ensures State() == LexerSpec.LexPlus(old(State()))
    {
      var token := GetPlusToken();
      tokens := tokens + [token];
      if token.typ != Plus {
        Next();
      }
    }

    /** `get_star_token`. */
    function GetStarToken(): (t: Token)
      reads this
      ensures t == LexerSpec.GetStarToken(State())
    {
      match PeekOr()
      case '*' => Macros.MakeToken(StarStar, "**", line, col)
      case '=' => Macros.MakeToken(StarEq, "*=", line, col)
      case _ => Macros.MakeToken(Star, "*", line, col)
    }

    /** `lex_star`. */
    method LexStar()
      modifies this
      ensures State() == LexerSpec.LexStar(old(State()))
    {
      var token := GetStarToken();
      tokens := tokens + [token];
      if token.typ != Star {
        Next();
      }
    }

    /** `lex_ident`. */
    method LexIdent()
      requires Valid()
      modifies this
      ensures State() == LexerSpec.LexIdent(old(State()))
    {
      ghost var s0 := State();
      var token := TokenAt(Ident, line, col);
      var name := "";
      while CanAdvance() && CanBeIdent(c)
        invariant Valid() && src == s0.src
        invariant IdentScan(State(), name) == IdentScan(s0, "")
        decreases |src| - idx
      {
        name := name + [c];
        Next();
      }
      if !CanAdvance() && CanBeIdent(c) {
        name := name + [c];
      }
      token := token.(typ := KeywordKind(name), value := name);
      tokens := tokens + [token];
    }

    /** `lex_number`. */
    method LexNumber() returns (r: Result<()>)
      requires Valid()
      modifies this
      ensures var spec := LexerSpec.LexNumber(old(State()));
              (r.Ok? <==> spec.Ok?) && (spec.Ok? ==> State() == spec.value)
              && (spec.Err? ==> r.fault == spec.fault)
    {
      ghost var s0 := State();
      var token := TokenAt(NumLiteral(false), line, col);
      var digits := [c];
      var dots: nat := 0;
      Next();
      ghost var s1 := State();
      while CanAdvance() && (IsNumeric(c) || c == '.')
        invariant Valid() && src == s0.src
        invariant token == TokenAt(token.typ, s0.line, s0.col) && token.typ.NumLiteral?
        invariant NumberScan(State(), token.typ.fractional, digits, dots) == NumberScan(s1, false, [s0.c], 0)
        decreases |src| - idx
      {
        if c == '.' {
          if dots > 0 {
            return Err(LexError(State(), "Invalid location for '.'"));
          }
          token := token.(typ := NumLiteral(true));
          dots := dots + 1;
        }
        digits := digits + [c];
        Next();
      }
      if !CanAdvance() && IsNumeric(c) {
        digits := digits + [c];
      }
      token := token.(value := digits);
      tokens := tokens + [token];
      return Ok(());
    }

    /** `lex_enclosures`. */
    method LexEnclosures() returns (r: Result<()>)
      modifies this
      ensures var spec := LexerSpec.LexEnclosures(old(State()));
              (r.Ok? <==> spec.Ok?) && (spec.Ok? ==> State() == spec.value)
              && (spec.Err? ==> r.fault == spec.fault && State() == old(State()))
    {
      match c
      case '(' => r := MakeTokenMutOk(LParen, "(");
      case ')' => r := MakeTokenMutOk(RParen, ")");
      case '[' => r := MakeTokenMutOk(LBracket, "[");
      case ']' => r := MakeTokenMutOk(RBracket, "]");
      case '{' => r := MakeTokenMutOk(LBrace, "{");
      case '}' => r := MakeTokenMutOk(RBrace, "}");
      case _ => r := Err(LexError(State(), "Got unexpected enclosure: '" + [c] + "'"));
    }

    /** `lex_comparison`. */
    method LexComparison() returns (r: Result<()>)
      modifies this
      ensures var spec := LexerSpec.LexComparison(old(State()));
              (r.Ok? <==> spec.Ok?) && (spec.Ok? ==> State() == spec.value)
              && (spec.Err? ==> r.fault == spec.fault && State() == old(State()))
    {
      var next := PeekOr();
      var token: Result<Token>;
      match c {
      case '<' =>
        if next == '=' {
          token := Ok(Macros.MakeToken(Lte, "<=", line, col));
          Next();
        } else {
          token := Ok(Macros.MakeToken(Lt, "<", line, col));
        }
      case '>' =>
        if next == '=' {
          token := Ok(Macros.MakeToken(Gte, ">=", line, col));
          Next();
        } else {
          token := Ok(Macros.MakeToken(Gt, ">", line, col));
        }
      case _ =>
        token := Err(LexError(State(), "Unexpected comparison op: " + [c]));
      }
      if token.Err? {
        return Err(token.fault);
      }
      tokens := tokens + [token.value];
      return Ok(());
    }

    /** `lex_string`. */
    method LexString() returns (r: Result<()>)
      requires Valid()
      modifies this
      ensures var spec := LexerSpec.LexString(old(State()));
              (r.Ok? <==> spec.Ok?) && (spec.Ok? ==> State() == spec.value)
              && (spec.Err? ==> r.fault == spec.fault)
    {
      ghost var s0 := State();
      var content := "";
      var delim := c;
      Next();
      ghost var s1 := State();
      while c != delim && CanAdvance()
        invariant Valid() && src == s0.src
        invariant StringScan(State(), delim, content) == StringScan(s1, delim, "")
        decreases |src| - idx
      {
        if c == '\\' {
          var next := PeekOr();
          if next == delim {
            content := content + [c, next];
            Next();
            Next();
            continue;
          }
        }
        content := content + [c];
        Next();
      }
      assert StringScan(s1, delim, "") == (State(), content);
      if c == delim {
        var token := Macros.MakeToken(StrLiteral, content, line, col);
        // `lexer.col - content.len() - 1` on `usize`.
        var newCol: int := col - Utf8Len(content) - 1;
        if newCol < 0 {
          return Err(Panicked("attempt to subtract with overflow"));
        }
        token := token.(loc := token.loc.(col := newCol));
        tokens := tokens + [token];
        return Ok(());
      } else {
        return Err(LexError(State(), "`" + [delim] + "` was never closed"));
      }
    }

    /** The end of a turn of `lex`'s loop: leave on the last character,
        else advance. */
    method EndTurn() returns (o: Turn)
      modifies this
      ensures var step := Tail(old(State()));
              (step.Stop? ==> o == Leave && State() == step.last)
              && (step.Again? ==> o == GoOn && State() == step.next)
    {
      if !CanAdvance() {
        return Leave;
      }
      Next();
      return GoOn;
    }

    /** A routine that may fail, followed by the end of the turn (the `?`
        returns its error from `lex`). */
    method EndTurnAfter(r: Result<()>) returns (o: Turn)
      modifies this
      ensures r.Err? ==> o == Abort(r.fault) && State() == old(State())
      ensures r.Ok? ==> var step := Tail(old(State()));
                        (step.Stop? ==> o == Leave && State() == step.last)
                        && (step.Again? ==> o == GoOn && State() == step.next)
    {
      if r.Err? {
        return Abort(r.fault);
      }
      o := EndTurn();
    }

    /** One turn of the `loop` in `lex` (lines 487-542). */
    method LexTurn() returns (o: Turn)
      requires Valid()
      modifies this
      ensures Did(LexStep(old(State())), o, State())
    {
      match c
      case '=' => LexEq(); o := EndTurn();
      case '-' => LexMinus(); o := EndTurn();
      case '+' => LexPlus(); o := EndTurn();
      case '*' => LexStar(); o := EndTurn();
      case '/' => var r := SkipComment(false); o := EndTurnAfter(r);
      case '<' => var r := LexComparison(); o := EndTurnAfter(r);
      case '>' => var r := LexComparison(); o := EndTurnAfter(r);
      case '"' => var r := LexString(); o := EndTurnAfter(r);
      case '\'' => var r := LexString(); o := EndTurnAfter(r);
      case _ => o := OtherTurn();
    }

    /** The ten routines `lex_semi` ... `lex_question_mark`, each a
        `make_token_mut!` of its character's token. */
    method LexPunctuation()
      requires c in Punctuation
      modifies this
      ensures State() == LexerSpec.LexPunctuation(old(State()))
    {
      MakeTokenMut(Punctuation[c], [c]);
    }

    /** The arms for the one-character tokens and white space. */
    method OtherTurn() returns (o: Turn)
      requires Valid()
      modifies this
      ensures Did(OtherStep(old(State())), o, State())
    {
      if c in Punctuation {
        LexPunctuation();
        o := EndTurn();
      } else if c == ' ' || c == '\n' || c == '\r' {
        o := EndTurn();
      } else {
        o := BracketTurn();
      }
    }

    /** The bracket arm and the default arm. */
    method BracketTurn() returns (o: Turn)
      requires Valid()
      modifies this
      ensures Did(BracketStep(old(State())), o, State())
    {
      match c
      case '(' => var r := LexEnclosures(); o := EndTurnAfter(r);
      case ')' => var r := LexEnclosures(); o := EndTurnAfter(r);
      case '[' => var r := LexEnclosures(); o := EndTurnAfter(r);
      case ']' => var r := LexEnclosures(); o := EndTurnAfter(r);
      case '{' => var r := LexEnclosures(); o := EndTurnAfter(r);
      case '}' => var r := LexEnclosures(); o := EndTurnAfter(r);
      case _ =>
        if IsNumeric(c) {
          o := NumberTurn();
        } else if IsAlphabetic(c) || c == '_' {
          o := IdentTurn();
        } else {
          o := EndTurn();
        }
    }

    /** The default arm for a digit: `lex_number`, then `continue` unless
        the number ended on the last character. */
    method NumberTurn() returns (o: Turn)
      requires Valid() && IsNumeric(c)
      modifies this
      ensures Did(LexerSpec.NumberTurn(old(State())), o, State())
    {
      var r := LexNumber();
      if r.Err? {
        return Abort(r.fault);
      }
      if !CanAdvance() && !IsNumeric(c) {
        return GoOn;
      } else if !CanAdvance() {
        return Leave;
      }
      return GoOn;
    }

    /** The default arm for an identifier character: `lex_ident`, then the
        error for an identifier that reached the last character, or
        `continue`. */
    method IdentTurn() returns (o: Turn)
      requires Valid() && (IsAlphabetic(c) || c == '_')
      modifies this
      ensures Did(LexerSpec.IdentTurn(old(State())), o, State())
    {
      LexIdent();
      if !CanAdvance() && CanBeIdent(c) {
        return Abort(LexError(State(), AfterIdentMessage(c)));
      } else if !CanAdvance() && !CanBeIdent(c) {
        return GoOn;
      } else if !CanAdvance() {
        return Leave;
      }
      return GoOn;
    }

    /** `lex`: the loop, then the end-of-input token one `next` further on,
        and the whole token list. */
    method Lex() returns (r: Result<seq<Token>>)
      requires Valid()
      modifies this
      ensures r == Run(old(State()))
    {
      ghost var s0 := State();
      while true
        invariant Valid() && Run(State()) == Run(s0)
        decreases |src| - idx
      {
        ghost var before := State();
        var o := LexTurn();
        assert Did(LexStep(before), o, State());
        match o
        case GoOn =>
        case Leave =>
          break;
        case Abort(f) =>
          return Err(f);
      }
      Next();
      MakeTokenMut(Eof, "");
      return Ok(tokens);
    }
  }

  /** `Lexer::new(text)?.lex()`. */
  method Tokenize(text: string) returns (r: Result<seq<Token>>)
    ensures r == LexerSpec.Tokenize(text)
  {
    var made := Lexer.New(text);
    if made.Err? {
      return Err(made.fault);
    }
    var lexer := made.value;
    r := lexer.Lex();
  }
}
