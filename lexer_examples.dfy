/** The lexer's test case for an integer definition, worked through turn
    by turn, and a short text showing that a plain `=` steps over the
    character after it. */
module LexerExamples {
  import opened Wrappers
  import opened Tokens
  import opened LexerState
  import opened LexerSpec
  import LexerProps

  /** The text of `test_lexer_lexes_int_definition`. */
  const Src: string := "int my_num = 69;"
  const T1: Token := WithValueAt(Ident, "int", 1, 1)
  const T2: Token := WithValueAt(Ident, "my_num", 1, 5)
  const T3: Token := WithValueAt(Eq, "=", 1, 12)
  const T4: Token := WithValueAt(NumLiteral(false), "69", 1, 14)
  const T5: Token := WithValueAt(Semi, ";", 1, 16)

  /** The turns of `lex` over that text, one per lemma. */
  lemma Step0()
    ensures LexStep(State(Src, 0, 1, 1, 'i', [])) == Again(State(Src, 3, 1, 4, ' ', [T1]))
  {
    Step0Turn();
    LexerProps.IdentStep(State(Src, 0, 1, 1, 'i', []));
  }

  lemma Step0Turn()
    ensures IdentTurn(State(Src, 0, 1, 1, 'i', [])) == Again(State(Src, 3, 1, 4, ' ', [T1]))
  {
    Step0Ident();
  }

  lemma Step0Ident()
    ensures LexIdent(State(Src, 0, 1, 1, 'i', [])) == State(Src, 3, 1, 4, ' ', [T1])
  {
    var s0 := State(Src, 0, 1, 1, 'i', []);
    Step0Token();
    LexerProps.IdentCursor(s0);
  }

  lemma Step0Token()
    ensures var r := LexIdent(State(Src, 0, 1, 1, 'i', []));
            r.idx == 3 && r.tokens == [T1]
  {
    var s0 := State(Src, 0, 1, 1, 'i', []);
    IntRun();
    LexerProps.IdentToken(s0);
  }

  /** The text opens with the name `int`, which is no keyword. */
  lemma IntRun()
    ensures LexerProps.IdentRunEnd(Src, 0) == 3 && Src[0..3] == "int" && KeywordKind("int") == Ident
  {
    assert Src[3] == ' ' && LexerProps.IdentRunEnd(Src, 3) == 3;
    assert LexerProps.IdentRunEnd(Src, 1) == 3;
    assert "int"[1] != "if"[1] && "int"[1] != "is"[1] && |"int"| != |"in"|;
    assert "int"[0] != "for"[0] && "int"[0] != "let"[0] && "int"[0] != "return"[0] && "int"[0] != "break"[0];
  }

  lemma Step2()
    ensures LexStep(State(Src, 4, 1, 5, 'm', [T1])) == Again(State(Src, 10, 1, 11, ' ', [T1, T2]))
  {
    Step2Turn();
    LexerProps.IdentStep(State(Src, 4, 1, 5, 'm', [T1]));
  }

  lemma Step2Turn()
    ensures IdentTurn(State(Src, 4, 1, 5, 'm', [T1])) == Again(State(Src, 10, 1, 11, ' ', [T1, T2]))
  {
    Step2Ident();
  }

  lemma Step2Ident()
    ensures LexIdent(State(Src, 4, 1, 5, 'm', [T1])) == State(Src, 10, 1, 11, ' ', [T1, T2])
  {
    var s := State(Src, 4, 1, 5, 'm', [T1]);
    Step2Token();
    LexerProps.IdentCursor(s);
  }

  lemma Step2Token()
    ensures var r := LexIdent(State(Src, 4, 1, 5, 'm', [T1]));
            r.idx == 10 && r.tokens == [T1, T2]
  {
    var s := State(Src, 4, 1, 5, 'm', [T1]);
    assert LexerProps.IdentRunEnd(Src, 4) == 10;
    LexerProps.IdentToken(s);
    assert Src[4..10] == "my_num";
  }

  lemma Step5()
    ensures LexStep(State(Src, 13, 1, 14, '6', [T1, T2, T3])) == Again(State(Src, 15, 1, 16, ';', [T1, T2, T3, T4]))
  {
    Step5Turn();
    LexerProps.NumberStep(State(Src, 13, 1, 14, '6', [T1, T2, T3]));
  }

  lemma Step5Turn()
    ensures NumberTurn(State(Src, 13, 1, 14, '6', [T1, T2, T3])) == Again(State(Src, 15, 1, 16, ';', [T1, T2, T3, T4]))
  {
    var s := State(Src, 13, 1, 14, '6', [T1, T2, T3]);
    assert LexerProps.NumberRunEnd(Src, 13) == 15;
    LexerProps.NumberToken(s);
    LexerProps.NumberCursor(s);
    assert Src[13..15] == "69";
    assert LexerProps.Dots("69") == 0;
    var r := LexNumber(s);
    assert r.Ok?;
    assert r.value.tokens[3] == T4;
    assert r.value.idx == 15;
    assert r.value == State(Src, 15, 1, 16, ';', [T1, T2, T3, T4]);
  }

  lemma Step1()
    ensures LexStep(State(Src, 3, 1, 4, ' ', [T1])) == Again(State(Src, 4, 1, 5, 'm', [T1]))
  {
  }

  lemma Step3()
    ensures LexStep(State(Src, 10, 1, 11, ' ', [T1, T2])) == Again(State(Src, 11, 1, 12, '=', [T1, T2]))
  {
  }

  lemma Step4()
    ensures LexStep(State(Src, 11, 1, 12, '=', [T1, T2])) == Again(State(Src, 13, 1, 14, '6', [T1, T2, T3]))
  {
  }

  lemma Step6()
    ensures LexStep(State(Src, 15, 1, 16, ';', [T1, T2, T3, T4])) == Stop(State(Src, 15, 1, 16, ';', [T1, T2, T3, T4, T5]))
  {
  }

  /** A turn that goes round again leaves the rest to the next turn. */
  lemma RunAgain(s: State, t: State)
    requires s.Valid() && LexStep(s) == Again(t)
    ensures Run(s) == Run(t)
  {
  }

  /** A turn that leaves the loop ends the run. */
  lemma RunStop(s: State, t: State)
    requires s.Valid() && LexStep(s) == Stop(t)
    ensures Run(s) == Ok(Finish(t))
  {
  }

  lemma Step7()
    ensures Finish(State(Src, 15, 1, 16, ';', [T1, T2, T3, T4, T5])) == [T1, T2, T3, T4, T5, WithValueAt(Eof, "", 1, 17)]
  {
  }

  lemma Start()
    ensures Tokenize(Src) == Run(State(Src, 0, 1, 1, 'i', []))
  {
  }

  /** The tokens the test expects: three words, the number, the semicolon
      and the end-of-input token one column past the text. */
  lemma IntDefinition()
    ensures Tokenize(Src) == Ok([T1, T2, T3, T4, T5, WithValueAt(Eof, "", 1, 17)])
  {
    var s0 := State(Src, 0, 1, 1, 'i', []);
    var s1 := State(Src, 3, 1, 4, ' ', [T1]);
    var s2 := State(Src, 4, 1, 5, 'm', [T1]);
    var s3 := State(Src, 10, 1, 11, ' ', [T1, T2]);
    var s4 := State(Src, 11, 1, 12, '=', [T1, T2]);
    var s5 := State(Src, 13, 1, 14, '6', [T1, T2, T3]);
    var s6 := State(Src, 15, 1, 16, ';', [T1, T2, T3, T4]);
    Step0(); Step1(); Step2(); Step3(); Step4(); Step5(); Step6();
    RunAgain(s0, s1);
    RunAgain(s1, s2);
    RunAgain(s2, s3);
    RunAgain(s3, s4);
    RunAgain(s4, s5);
    RunAgain(s5, s6);
    RunStop(s6, State(Src, 15, 1, 16, ';', [T1, T2, T3, T4, T5]));
    Step7();
    Start();
  }

  const A: Token := WithValueAt(Ident, "a", 1, 1)
  const EqToken: Token := WithValueAt(Eq, "=", 1, 2)

  lemma EqStep0()
    ensures LexStep(State("a=b;", 0, 1, 1, 'a', [])) == Again(State("a=b;", 1, 1, 2, '=', [A]))
  {
    EqStep0Turn();
    LexerProps.IdentStep(State("a=b;", 0, 1, 1, 'a', []));
  }

  lemma EqStep0Turn()
    ensures IdentTurn(State("a=b;", 0, 1, 1, 'a', [])) == Again(State("a=b;", 1, 1, 2, '=', [A]))
  {
    var s0 := State("a=b;", 0, 1, 1, 'a', []);
    assert LexerProps.IdentRunEnd("a=b;", 0) == 1;
    LexerProps.IdentToken(s0);
    LexerProps.IdentCursor(s0);
    assert "a=b;"[0..1] == "a";
  }

  lemma EqStep1()
    ensures LexStep(State("a=b;", 1, 1, 2, '=', [A])) == Again(State("a=b;", 3, 1, 4, ';', [A, EqToken]))
  {
  }

  lemma EqStep2()
    ensures LexStep(State("a=b;", 3, 1, 4, ';', [A, EqToken]))
            == Stop(State("a=b;", 3, 1, 4, ';', [A, EqToken, WithValueAt(Semi, ";", 1, 4)]))
  {
  }

  /** In `a=b;` the `b` is never read: `lex_eq` advances past it and the
      end of the turn advances again. */
  lemma EqSwallowsNext()
    ensures Tokenize("a=b;") == Ok([A, EqToken, WithValueAt(Semi, ";", 1, 4), WithValueAt(Eof, "", 1, 5)])
  {
    var s0 := State("a=b;", 0, 1, 1, 'a', []);
    var s1 := State("a=b;", 1, 1, 2, '=', [A]);
    var s2 := State("a=b;", 3, 1, 4, ';', [A, EqToken]);
    var s3 := State("a=b;", 3, 1, 4, ';', [A, EqToken, WithValueAt(Semi, ";", 1, 4)]);
    EqStep0(); EqStep1(); EqStep2();
    RunAgain(s0, s1);
    RunAgain(s1, s2);
    RunStop(s2, s3);
    assert Finish(s3) == [A, EqToken, WithValueAt(Semi, ";", 1, 4), WithValueAt(Eof, "", 1, 5)];
    assert New("a=b;") == Ok(s0);
  }
}
