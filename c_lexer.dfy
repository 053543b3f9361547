/** `Lexer`: the C prototype lexer as an object whose index and current
    character change in place. Every method is proved to compute what the
    matching function of `CLexerSpec` computes from the state it started
    in; a loop that the C code would repeat forever returns `Spins` (or
    `Diverged`) at the first iteration that would change nothing. */
module CLexer {
  import opened CLexerSpec

  class Lexer {
    const src: seq<char>
    const srcLen: nat
    var i: nat
    var c: char

    /** The fields as a state record. */
    function State(): CState
      reads this
    {
      CState(src, srcLen, i, c)
    }

    predicate Valid()
      reads this
    {
      State().Valid()
    }

    /** `lexer_init`. */
    constructor Init(src: seq<char>)
      requires NUL in src
      ensures Valid() && State() == CLexerSpec.Init(src)
    {
      this.src := src;
      srcLen := StrLen(src);
      i := 0;
      c := src[0];
    }

    /** `lexer_next`. */
    method Next()
      requires Valid()
      modifies this
      ensures Valid() && State() == CLexerSpec.Next(old(State()))
    {
      if i < srcLen && c != NUL {
        i := i + 1;
        c := src[i];
      }
    }

    /** `lexer_next_with`: one step on, handing back the token it was given. */
    method NextWith(token: CToken) returns (r: CToken)
      requires Valid()
      modifies this
      ensures Valid() && State() == CLexerSpec.Next(old(State())) && r == token
    {
      Next();
      r := token;
    }

    /** `lexer_peek`; nothing changes. */
    method Peek(offset: nat) returns (r: char)
      requires Valid()
      ensures r == CLexerSpec.Peek(State(), offset)
    {
      var k := if i + offset < srcLen then i + offset else srcLen;
      r := src[k];
    }

    /** `lexer_skip_whitespace`. */
    method SkipWhitespace()
      requires Valid()
      modifies this
      ensures Valid() && State() == CLexerSpec.SkipWhitespace(old(State()))
    {
      while IsWhitespace(c)
        invariant Valid()
        invariant CLexerSpec.SkipWhitespace(State()) == CLexerSpec.SkipWhitespace(old(State()))
        decreases srcLen - i
      {
        Next();
      }
    }

    /** `lexer_parse_ident`: the characters are gathered while they are
        alphanumeric. */
    method ParseIdent() returns (r: CToken)
      requires Valid()
      modifies this
      ensures Valid() && (State(), r) == CLexerSpec.ParseIdent(old(State()))
    {
      var ident := "";
      while IsAlnum(c)
        invariant Valid()
        invariant IdentScan(State(), ident) == IdentScan(old(State()), "")
        decreases srcLen - i
      {
        ident := ident + [c];
        Next();
      }
      r := CToken(Some(ident), Ident);
    }

    /** `lexer_parse_assignment_expr`. */
    method ParseAssignmentExpr() returns (r: CToken)
      requires Valid()
      modifies this
      ensures Valid() && (State(), r) == CLexerSpec.ParseAssignmentExpr(old(State()))
    {
      var next := Peek(1);
      if next == '>' {
        r := NextWith(CToken(Some("=>"), LargeRArrow));
      } else {
        next := Peek(1);
        if next == '=' {
          r := NextWith(CToken(Some("=="), EqEq));
        } else {
          r := NextWith(CToken(Some("="), Eq));
        }
      }
    }

    /** `lexer_skip_comment`; the flag the `multiline` argument refers to comes
        back in `Went`. On the terminator `lexer_next` does nothing, so a
        scan that reaches it would go on forever: it returns `Spins`. */
    method SkipComment(multiline: bool) returns (r: Step<bool>)
      requires Valid()
      modifies this
      ensures Valid()
      ensures var spec := CLexerSpec.SkipComment(old(State()), multiline);
              (r.Went? <==> spec.Went?) && (r.Exited? <==> spec.Exited?)
              && (r.Went? ==> State() == spec.value.after && r.value == spec.value.multiline)
              && (r.Exited? ==> r.message == spec.message)
      decreases srcLen - i, if multiline then 0 else 1
    {
      ghost var s := State();
      var next := Peek(1);
      if multiline {
        while c != '*'
          invariant Valid()
          invariant StarScan(State()) == StarScan(s)
          invariant next == CLexerSpec.Peek(State(), 1)
          decreases srcLen - i
        {
          if c == NUL {
            return Spins;
          }
          Next();
          next := Peek(1);
        }
        if next == '/' {
          Next();
          Next();
          r := Went(false);
        } else if next == NUL {
          r := Exited(NeverClosed);
        } else {
          Next();
          r := SkipComment(true);
        }
      } else if next == '/' {
        while !IsNewline(c)
          invariant Valid()
          invariant LineScan(State()) == LineScan(s)
          decreases srcLen - i
        {
          if c == NUL {
            return Spins;
          }
          Next();
        }
        Next();
        r := Went(multiline);
      } else if next == '*' {
        Next();
        Next();
        r := SkipComment(true);
      } else {
        r := Exited(InvalidAt(i));
      }
    }

    /** `lexer_lex_next`: the tokens each pass makes are collected in
        `created`; the result is the end token once the terminator is
        current. A pass that leaves the lexer as it was would be repeated
        forever: the run stops there as `Diverged`. */
    method LexNext() returns (r: Run)
      requires Valid()
      modifies this
      ensures r == CLexerSpec.LexNext(old(State()))
    {
      var multiline := false;
      var created: seq<CToken> := [];
      while c != NUL
        invariant Valid()
        invariant LexLoop(State(), multiline, created) == CLexerSpec.LexNext(old(State()))
        decreases srcLen - i
      {
        ghost var s := State();
        var before, wasMultiline := i, multiline;
        var made: seq<CToken>;
        if c == '#' {
          var hash := NextWith(CToken(Some("#"), Hash));
          var ident := ParseIdent();
          ident := NextWith(ident);
          made := [hash, ident];
        } else if c == '=' {
          var assignment := ParseAssignmentExpr();
          assignment := NextWith(assignment);
          made := [assignment];
        } else if c != ';' && IsAlnum(c) {
          var ident := ParseIdent();
          ident := NextWith(ident);
          made := [ident];
        } else if c == ';' {
          var semi := NextWith(CToken(Some(";"), Semi));
          made := [semi];
        } else {
          made := [];
          if c == '/' || c == '*' {
            if c == '*' && !multiline {
              return Exit(created, InvalidAt(i));
            }
            var comment := SkipComment(multiline);
            match comment {
              case Exited(message) => return Exit(created, message);
              case Spins => return Diverged(created);
              case Went(flag) => multiline := flag;
            }
          }
          SkipWhitespace();
        }
        assert LexPass(s, wasMultiline) == Went(Pass(State(), multiline, made));
        if i == before && multiline == wasMultiline {
          assert State() == s;
          return Diverged(created);
        }
        created := created + made;
      }
      r := Finished(created, EofToken);
    }
  }
}
