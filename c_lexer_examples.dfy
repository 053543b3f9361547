/** Runs of the C prototype lexer on short strings, pass by pass. */
module CLexerExamples {
  import opened CLexerSpec
  import CLexerProps
  import Decimal

  /** `a = b;` as a C string. */
  const Src: seq<char> := "a = b;" + [NUL]

  function S(k: nat): CState
    requires k <= 6
  {
    CState(Src, 6, k, Src[k])
  }

  /** A pass that moves on leaves the rest of the run to the next pass. */
  lemma LoopAgain(s: CState, multiline: bool, created: seq<CToken>, pass: Pass)
    requires s.Valid() && s.c != NUL && LexPass(s, multiline) == Went(pass)
    requires pass.after != s
    ensures LexLoop(s, multiline, created) == LexLoop(pass.after, pass.multiline, created + pass.created)
  {
  }

  lemma Start()
    ensures Init(Src) == S(0) && S(0).Valid()
  {
    assert Src[6] == NUL;
    assert StrLen(Src) == 6;
  }

  lemma Pass0()
    ensures S(0).Valid()
    ensures LexPass(S(0), false) == Went(Pass(S(2), false, [CToken(Some("a"), Ident)]))
  {
    Start();
    assert CLexerProps.AlnumEnd(Src, 0) == 1;
    CLexerProps.IdentPass(S(0), false);
    assert Src[0..1] == "a";
  }

  lemma Pass2()
    ensures S(2).Valid()
    ensures LexPass(S(2), false) == Went(Pass(S(4), false, [CToken(Some("="), Eq)]))
  {
    Start();
    CLexerProps.AssignmentPass(S(2), false);
  }

  lemma Pass4()
    ensures S(4).Valid()
    ensures LexPass(S(4), false) == Went(Pass(S(6), false, [CToken(Some("b"), Ident)]))
  {
    Start();
    assert CLexerProps.AlnumEnd(Src, 4) == 5;
    CLexerProps.IdentPass(S(4), false);
    assert Src[4..5] == "b";
  }

  /** The `;` right after `b` is stepped over with the identifier and never
      becomes a token; the run ends at the terminator with the end token. */
  lemma SemicolonSkipped()
    ensures LexNext(Init(Src))
            == Finished([CToken(Some("a"), Ident), CToken(Some("="), Eq), CToken(Some("b"), Ident)], EofToken)
  {
    Start();
    Pass0();
    Pass2();
    Pass4();
    var a, eq, b := CToken(Some("a"), Ident), CToken(Some("="), Eq), CToken(Some("b"), Ident);
    LoopAgain(S(0), false, [], Pass(S(2), false, [a]));
    LoopAgain(S(2), false, [a], Pass(S(4), false, [eq]));
    LoopAgain(S(4), false, [a, eq], Pass(S(6), false, [b]));
    assert [a] + [eq] == [a, eq] && [a, eq] + [b] == [a, eq, b] && [] + [a] == [a];
  }

  /** `x (`: the parenthesis is never passed. */
  const Paren: seq<char> := "x (" + [NUL]

  lemma ParenRun()
    ensures LexNext(Init(Paren)) == Diverged([CToken(Some("x"), Ident)])
  {
    assert Paren[3] == NUL;
    assert StrLen(Paren) == 3;
    var s0 := CState(Paren, 3, 0, 'x');
    assert CLexerProps.AlnumEnd(Paren, 0) == 1;
    CLexerProps.IdentPass(s0, false);
    assert Paren[0..1] == "x";
    var s2 := CState(Paren, 3, 2, '(');
    assert Next(Seek(s0, 1)) == s2;
    LoopAgain(s0, false, [], Pass(s2, false, [CToken(Some("x"), Ident)]));
    assert [] + [CToken(Some("x"), Ident)] == [CToken(Some("x"), Ident)];
    CLexerProps.ParenDiverges(s2, [CToken(Some("x"), Ident)]);
  }

  /** `x *`: the star outside a comment ends the program with an error. */
  const Star: seq<char> := "x *" + [NUL]

  lemma StarRun()
    ensures LexNext(Init(Star)) == Exit([CToken(Some("x"), Ident)], "Invalid token at character 2\n")
  {
    assert Star[3] == NUL;
    assert StrLen(Star) == 3;
    var s0 := CState(Star, 3, 0, 'x');
    assert CLexerProps.AlnumEnd(Star, 0) == 1;
    CLexerProps.IdentPass(s0, false);
    assert Star[0..1] == "x";
    var s2 := CState(Star, 3, 2, '*');
    assert Next(Seek(s0, 1)) == s2;
    LoopAgain(s0, false, [], Pass(s2, false, [CToken(Some("x"), Ident)]));
    assert [] + [CToken(Some("x"), Ident)] == [CToken(Some("x"), Ident)];
    CLexerProps.StarFatal(s2, [CToken(Some("x"), Ident)]);
    assert Decimal.Show(2) == "2";
  }
}
