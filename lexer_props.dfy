/** What the Rust lexer's routines compute, stated against independent
    descriptions of the text they scan. */
module LexerProps {
  import opened Wrappers
  import opened Tokens
  import opened LexerState
  import opened LexerSpec
  import Macros

  // ---------------------------------------------------------------------
  // Identifiers

  /** The end of the run of identifier characters starting at `i`. */
  function IdentRunEnd(src: string, i: nat): (e: nat)
    requires i <= |src|
    decreases |src| - i
    ensures i <= e <= |src|
    ensures forall k :: i <= k < e ==> CanBeIdent(src[k])
    ensures e < |src| ==> !CanBeIdent(src[e])
  {
    if i < |src| && CanBeIdent(src[i]) then IdentRunEnd(src, i + 1) else i
  }

  function Min(a: int, b: int): int {
    if a <= b then a else b
  }

  /** The `while` loop of `lex_ident` reads the text up to the end of the
      identifier run, stopping on the last character if the run reaches it. */
  lemma {:induction false} IdentScanReads(s: State, name: string)
    requires s.Valid()
    decreases |s.src| - s.idx
    ensures var (t, n) := IdentScan(s, name);
            var e := IdentRunEnd(s.src, s.idx);
            t.idx == Min(e, |s.src| - 1) && n == name + s.src[s.idx..t.idx]
  {
    if s.CanAdvance() && CanBeIdent(s.c) {
      var u := Next(s);
      IdentScanReads(u, name + [s.c]);
      var (t, n) := IdentScan(u, name + [s.c]);
      assert s.src[s.idx..t.idx] == [s.c] + s.src[u.idx..t.idx];
    } else {
      assert s.src[s.idx..s.idx] == [];
    }
  }

  /** Identifier characters are never line breaks, so that loop stays on
      the line and moves the column with the index. */
  lemma {:induction false} IdentScanColumn(s: State, name: string)
    requires s.Valid()
    decreases |s.src| - s.idx
    ensures var t := IdentScan(s, name).0;
            t.line == s.line && t.col == s.col + (t.idx - s.idx)
  {
    if s.CanAdvance() && CanBeIdent(s.c) {
      IdentScanColumn(Next(s), name + [s.c]);
    }
  }

  /** `lex_ident` pushes one token, at the position where it started,
      whose text is the whole identifier run and whose kind is the keyword
      kind of that text (otherwise `Ident`); the cursor is left on the
      character after the run, or on the last character. */
  lemma IdentToken(s: State)
    requires s.Valid()
    ensures var r := LexIdent(s);
            var e := IdentRunEnd(s.src, s.idx);
            var t := r.tokens[|s.tokens|];
            t.value == s.src[s.idx..e] && t.typ == KeywordKind(t.value)
            && t.loc == Loc(s.line, s.col) && t.addtl.None?
            && r.idx == Min(e, |s.src| - 1)
  {
    IdentName(s);
  }

  /** The name `lex_ident` builds is the whole identifier run, and the
      loop stops after the run or on the last character. */
  lemma IdentName(s: State)
    requires s.Valid()
    ensures var t := IdentScan(s, "").0;
            var e := IdentRunEnd(s.src, s.idx);
            t.idx == Min(e, |s.src| - 1)
            && (if !t.CanAdvance() && CanBeIdent(t.c) then IdentScan(s, "").1 + [t.c] else IdentScan(s, "").1) == s.src[s.idx..e]
  {
    IdentScanReads(s, "");
    var t := IdentScan(s, "").0;
    RunCut(s.src, s.idx, IdentRunEnd(s.src, s.idx), t.idx);
  }

  /** Cutting a run of identifier characters `src[i..e]` at `j`, the lesser
      of its end and the last index: the cut keeps the whole run, except
      that a run reaching the end of the text loses its last character. */
  lemma RunCut(src: string, i: nat, e: nat, j: nat)
    requires i <= e <= |src| && 0 < |src| && j == Min(e, |src| - 1) && i <= j
    requires forall k :: i <= k < e ==> CanBeIdent(src[k])
    requires e < |src| ==> !CanBeIdent(src[e])
    ensures if j + 1 == |src| && CanBeIdent(src[j]) then src[i..e] == src[i..j] + [src[j]] else src[i..e] == src[i..j]
  {
    if j + 1 == |src| && CanBeIdent(src[j]) {
      assert e == |src|;
      assert src[i..e] == src[i..j] + src[j..e];
    } else {
      assert CanBeIdent(src[j]) || e <= j;
    }
  }

  /** Where `lex_ident` leaves the cursor: on the same line, as many
      columns on as characters it moved over. */
  lemma IdentCursor(s: State)
    requires s.Valid()
    ensures LexIdent(s).line == s.line && LexIdent(s).col == s.col + (LexIdent(s).idx - s.idx)
  {
    IdentScanColumn(s, "");
  }

  /** A letter, digit or `_` opens none of the operator, string,
      punctuation, white space or bracket arms. */
  lemma WordChar(c: char)
    requires CanBeIdent(c)
    ensures c != '=' && c != '-' && c != '+' && c != '*' && c != '/' && c != '<' && c != '>' && c != '"' && c != '\''
    ensures c !in Punctuation && c != ' ' && c != '\n' && c != '\r'
    ensures c != '(' && c != ')' && c != '[' && c != ']' && c != '{' && c != '}'
  {
  }

  /** Such a character reaches the default arm of `lex`'s `match`. */
  lemma DefaultArm(s: State)
    requires s.Valid() && CanBeIdent(s.c)
    ensures LexStep(s) == BracketStep(s)
  {
    WordChar(s.c);
    assert LexStep(s) == OtherStep(s);
  }

  /** A turn on a letter or `_` is the identifier arm. */
  lemma IdentStep(s: State)
    requires s.Valid() && (IsAlphabetic(s.c) || s.c == '_')
    ensures LexStep(s) == IdentTurn(s)
  {
    DefaultArm(s);
    assert !IsNumeric(s.c);
  }

  /** A turn on a digit is the number arm. */
  lemma NumberStep(s: State)
    requires s.Valid() && IsNumeric(s.c)
    ensures LexStep(s) == NumberTurn(s)
  {
    DefaultArm(s);
  }

  /** An identifier that runs into the last character of the text is an
      error (lines 521-526): the turn fails there, naming that character. */
  lemma IdentAtEndFails(s: State)
    requires s.Valid() && (IsAlphabetic(s.c) || s.c == '_')
    requires IdentRunEnd(s.src, s.idx) == |s.src|
    ensures IdentTurn(s) == Failed(LexError(LexIdent(s), AfterIdentMessage(s.src[|s.src| - 1])))
  {
    IdentToken(s);
  }

  /** An identifier followed by another character pushes its token and
      goes round again on that character, without advancing. */
  lemma IdentThenMore(s: State)
    requires s.Valid() && (IsAlphabetic(s.c) || s.c == '_')
    requires IdentRunEnd(s.src, s.idx) < |s.src|
    ensures IdentTurn(s) == Again(LexIdent(s))
    ensures LexIdent(s).idx == IdentRunEnd(s.src, s.idx)
  {
    IdentToken(s);
  }

  // ---------------------------------------------------------------------
  // Numbers

  predicate IsNumberChar(c: char) {
    IsNumeric(c) || c == '.'
  }

  /** The end of the run of digits and dots starting at `i`. */
  function NumberRunEnd(src: string, i: nat): (e: nat)
    requires i <= |src|
    decreases |src| - i
    ensures i <= e <= |src|
    ensures forall k :: i <= k < e ==> IsNumberChar(src[k])
    ensures e < |src| ==> !IsNumberChar(src[e])
  {
    if i < |src| && IsNumberChar(src[i]) then NumberRunEnd(src, i + 1) else i
  }

  /** How many dots a text holds. */
  function Dots(x: string): nat {
    if x == [] then 0 else (if x[0] == '.' then 1 else 0) + Dots(x[1..])
  }

  lemma DotsCons(c: char, x: string)
    ensures Dots([c] + x) == (if c == '.' then 1 else 0) + Dots(x)
  {
    assert ([c] + x)[1..] == x;
  }

  /** The `while` loop of `lex_number` reads the run of digits and dots up
      to its end (or the last character); it fails exactly when that run
      brings the dot count to two. */
  lemma {:induction false} NumberScanReads(s: State, fractional: bool, digits: string, dots: nat)
    requires s.Valid() && dots <= 1 && (fractional <==> dots == 1)
    decreases |s.src| - s.idx
    ensures var stop := Min(NumberRunEnd(s.src, s.idx), |s.src| - 1);
            var d := dots + Dots(s.src[s.idx..stop]);
            var r := NumberScan(s, fractional, digits, dots);
            stop >= s.idx
            && (r.Err? <==> d >= 2)
            && (r.Ok? ==> r.value.0.idx == stop && r.value.2 == digits + s.src[s.idx..stop]
                          && (r.value.1 <==> d == 1))
  {
    var r := NumberScan(s, fractional, digits, dots);
    var stop := Min(NumberRunEnd(s.src, s.idx), |s.src| - 1);
    if s.CanAdvance() && IsNumberChar(s.c) {
      var u := Next(s);
      assert u.idx == s.idx + 1 && u.src == s.src;
      assert NumberRunEnd(s.src, s.idx) == NumberRunEnd(s.src, u.idx);
      assert u.idx <= stop && stop == Min(NumberRunEnd(u.src, u.idx), |u.src| - 1);
      var rest := s.src[u.idx..stop];
      assert u.src[u.idx..stop] == rest;
      assert s.src[s.idx..stop] == [s.c] + rest;
      DotsCons(s.c, rest);
      assert Dots(s.src[s.idx..stop]) == (if s.c == '.' then 1 else 0) + Dots(rest);
      assert digits + [s.c] + rest == digits + s.src[s.idx..stop];
      if s.c == '.' && dots > 0 {
        assert r.Err?;
        assert r.Err? <==> dots + Dots(s.src[s.idx..stop]) >= 2;
      } else if s.c == '.' {
        assert r == NumberScan(u, true, digits + [s.c], dots + 1);
        NumberScanReads(u, true, digits + [s.c], dots + 1);
        assert r.Err? <==> dots + Dots(s.src[s.idx..stop]) >= 2;
      } else {
        assert r == NumberScan(u, fractional, digits + [s.c], dots);
        NumberScanReads(u, fractional, digits + [s.c], dots);
        assert r.Err? <==> dots + Dots(s.src[s.idx..stop]) >= 2;
      }
    } else {
      assert stop == s.idx;
      assert r == Ok((s, fractional, digits));
      assert s.src[s.idx..stop] == [];
      assert r.Err? <==> dots + Dots(s.src[s.idx..stop]) >= 2;
    }
  }

  /** Splitting off the first character of a slice splits off its dot. */
  lemma DotsSlice(src: string, k: nat, j: nat)
    requires k < j <= |src|
    ensures Dots(src[k..j]) == (if src[k] == '.' then 1 else 0) + Dots(src[k + 1..j])
  {
    assert src[k..j] == [src[k]] + src[k + 1..j];
    DotsCons(src[k], src[k + 1..j]);
  }

  /** The `n`th `.` in `src[k..end]` (counting from one), if there is one:
      a dot with `n - 1` dots before it in the range. */
  function NthDot(src: string, k: nat, end: nat, n: nat): (r: Option<nat>)
    requires k <= end <= |src| && n >= 1
    decreases end - k
    ensures r.Some? ==> k <= r.value < end && src[r.value] == '.' && Dots(src[k..r.value]) == n - 1
    ensures r.None? <==> Dots(src[k..end]) < n
  {
    if k == end then None
    else
      DotsSlice(src, k, end);
      if src[k] == '.' && n == 1 then Some(k)
      else
        var r := NthDot(src, k + 1, end, if src[k] == '.' then n - 1 else n);
        if r.Some? then DotsSlice(src, k, r.value); r else r
  }

  /** The error `lex_number` raises on a second dot, at a line and column. */
  function DotError(line: nat, col: nat): Fault {
    Raised(Macros.LexExc(line, col, "Invalid location for '.'"))
  }

  /** Where the run of digits and dots starting at `i` makes the dot count
      two, having seen `dots` dots before it: the index of that dot. */
  function DotTarget(src: string, i: nat, dots: nat): (k: Option<nat>)
    requires i < |src|
    ensures k.Some? ==> i <= k.value < |src| && src[k.value] == '.'
  {
    var stop := Min(NumberRunEnd(src, i), |src| - 1);
    if dots >= 2 then None else NthDot(src, i, stop, 2 - dots)
  }

  /** A scan result that, if it is an error, is the "Invalid location" error
      at dot `k`, on `line`, with the column moved on from `col` as far as
      the index moved from `idx`. */
  predicate FailsAt<T>(r: Result<T>, line: nat, col: nat, idx: nat, k: Option<nat>) {
    r.Err? ==> k.Some? && k.value >= idx && r.fault == DotError(line, col + (k.value - idx))
  }

  /** Where the `while` loop of `lex_number` fails: on the dot that brings
      the count to two, on the same line and as many columns on as
      characters it passed, with the located "Invalid location" error. */
  lemma {:induction false} NumberScanFails(s: State, fractional: bool, digits: string, dots: nat)
    requires s.Valid() && dots <= 1
    decreases |s.src| - s.idx
    ensures FailsAt(NumberScan(s, fractional, digits, dots), s.line, s.col, s.idx, DotTarget(s.src, s.idx, dots))
  {
    if s.CanAdvance() && IsNumberChar(s.c) {
      if s.c == '.' && dots > 0 {
        SecondDotHere(s, fractional, digits, dots);
      } else if s.c == '.' {
        NumberScanFails(Next(s), true, digits + [s.c], dots + 1);
        FirstDotStep(s, fractional, digits, dots);
      } else {
        NumberScanFails(Next(s), fractional, digits + [s.c], dots);
        DigitStep(s, fractional, digits, dots);
      }
    } else {
      assert NumberScan(s, fractional, digits, dots).Ok?;
    }
  }

  /** The dot that makes two: the error is raised where the lexer stands. */
  lemma SecondDotHere(s: State, fractional: bool, digits: string, dots: nat)
    requires s.Valid() && dots == 1 && s.CanAdvance() && s.c == '.'
    ensures FailsAt(NumberScan(s, fractional, digits, dots), s.line, s.col, s.idx, DotTarget(s.src, s.idx, dots))
  {
    ScanStopsOnDot(s, fractional, digits, dots);
    TargetHere(s);
    FailsHere(NumberScan(s, fractional, digits, dots), s.line, s.col, s.idx, DotTarget(s.src, s.idx, dots));
  }

  /** The dot error where the lexer stands, at the target dot there. */
  lemma FailsHere<T>(r: Result<T>, line: nat, col: nat, idx: nat, k: Option<nat>)
    requires r == Err(DotError(line, col)) && k == Some(idx)
    ensures FailsAt(r, line, col, idx, k)
  {
  }

  /** After one dot, a dot under the cursor is the target. */
  lemma TargetHere(s: State)
    requires s.Valid() && s.CanAdvance() && s.c == '.'
    ensures DotTarget(s.src, s.idx, 1) == Some(s.idx)
  {
    var stop := Min(NumberRunEnd(s.src, s.idx), |s.src| - 1);
    assert NumberRunEnd(s.src, s.idx) == NumberRunEnd(s.src, s.idx + 1);
    assert NthDot(s.src, s.idx, stop, 1) == Some(s.idx);
  }

  /** A dot after a dot is the error, raised where the lexer stands. */
  lemma ScanStopsOnDot(s: State, fractional: bool, digits: string, dots: nat)
    requires s.Valid() && dots > 0 && s.CanAdvance() && s.c == '.'
    ensures NumberScan(s, fractional, digits, dots) == Err(DotError(s.line, s.col))
  {
  }

  /** One step on along the run of digits and dots keeps the target dot. */
  lemma TargetStep(s: State, dots: nat, dots': nat)
    requires s.Valid() && s.CanAdvance() && IsNumberChar(s.c)
    requires if s.c == '.' then dots == 0 && dots' == 1 else dots' == dots
    ensures DotTarget(s.src, s.idx, dots) == DotTarget(s.src, s.idx + 1, dots')
  {
    var stop := Min(NumberRunEnd(s.src, s.idx), |s.src| - 1);
    assert NumberRunEnd(s.src, s.idx) == NumberRunEnd(s.src, s.idx + 1);
    if dots < 2 {
      assert NthDot(s.src, s.idx, stop, 2 - dots) == NthDot(s.src, s.idx + 1, stop, 2 - dots');
    }
  }

  /** The first dot: the error, if any, comes at the next dot. */
  lemma FirstDotStep(s: State, fractional: bool, digits: string, dots: nat)
    requires s.Valid() && dots == 0 && s.CanAdvance() && s.c == '.'
    requires var u := Next(s);
             FailsAt(NumberScan(u, true, digits + [s.c], dots + 1), u.line, u.col, u.idx, DotTarget(u.src, u.idx, dots + 1))
    ensures FailsAt(NumberScan(s, fractional, digits, dots), s.line, s.col, s.idx, DotTarget(s.src, s.idx, dots))
  {
    var u := Next(s);
    TargetStep(s, dots, dots + 1);
    ScanPassesDot(s, fractional, digits, dots);
    StepsAlongLine(s);
    var scan := NumberScan(u, true, digits + [s.c], dots + 1);
    FailsAtShift(scan, u.line, u.col, u.idx, DotTarget(u.src, u.idx, dots + 1),
                 s.line, s.col, s.idx, DotTarget(s.src, s.idx, dots));
  }

  /** A digit: the error, if any, is the one the rest of the run raises. */
  lemma DigitStep(s: State, fractional: bool, digits: string, dots: nat)
    requires s.Valid() && dots <= 1 && s.CanAdvance() && IsNumeric(s.c)
    requires var u := Next(s);
             FailsAt(NumberScan(u, fractional, digits + [s.c], dots), u.line, u.col, u.idx, DotTarget(u.src, u.idx, dots))
    ensures FailsAt(NumberScan(s, fractional, digits, dots), s.line, s.col, s.idx, DotTarget(s.src, s.idx, dots))
  {
    var u := Next(s);
    TargetStep(s, dots, dots);
    ScanPassesDigit(s, fractional, digits, dots);
    StepsAlongLine(s);
    var scan := NumberScan(u, fractional, digits + [s.c], dots);
    FailsAtShift(scan, u.line, u.col, u.idx, DotTarget(u.src, u.idx, dots),
                 s.line, s.col, s.idx, DotTarget(s.src, s.idx, dots));
  }

  /** A first dot is taken, the number becomes fractional and the scan goes on. */
  lemma ScanPassesDot(s: State, fractional: bool, digits: string, dots: nat)
    requires s.Valid() && s.CanAdvance() && s.c == '.' && dots == 0
    ensures NumberScan(s, fractional, digits, dots) == NumberScan(Next(s), true, digits + [s.c], dots + 1)
  {
  }

  /** A step past a character that is not a line break. */
  lemma StepsAlongLine(s: State)
    requires s.CanAdvance() && !IsNewline(s.c)
    ensures Next(s).src == s.src && Next(s).line == s.line && Next(s).col == s.col + 1 && Next(s).idx == s.idx + 1
  {
  }

  /** Failing at a dot one column and one index on is failing at the same dot. */
  lemma FailsAtShift<T>(r: Result<T>, line': nat, col': nat, idx': nat, k': Option<nat>,
                        line: nat, col: nat, idx: nat, k: Option<nat>)
    requires FailsAt(r, line', col', idx', k')
    requires line' == line && col' == col + 1 && idx' == idx + 1 && k' == k
    ensures FailsAt(r, line, col, idx, k)
  {
  }

  /** A digit is taken and the scan goes on from the next character. */
  lemma ScanPassesDigit(s: State, fractional: bool, digits: string, dots: nat)
    requires s.Valid() && s.CanAdvance() && IsNumeric(s.c)
    ensures NumberScan(s, fractional, digits, dots) == NumberScan(Next(s), fractional, digits + [s.c], dots)
  {
  }

  /** Digits and dots are never line breaks, so that loop stays on the
      line and moves the column with the index. */
  lemma {:induction false} NumberScanColumn(s: State, fractional: bool, digits: string, dots: nat)
    requires s.Valid()
    decreases |s.src| - s.idx
    ensures var r := NumberScan(s, fractional, digits, dots);
            r.Ok? ==> r.value.0.line == s.line && r.value.0.col == s.col + (r.value.0.idx - s.idx)
  {
    if s.CanAdvance() && IsNumberChar(s.c) {
      if s.c == '.' && dots > 0 {
      } else if s.c == '.' {
        NumberScanColumn(Next(s), true, digits + [s.c], dots + 1);
      } else {
        NumberScanColumn(Next(s), fractional, digits + [s.c], dots);
      }
    }
  }

  /** Where `lex_number` leaves the cursor when it started before the last
      character: on the same line, as many columns on as characters it
      moved over. */
  lemma NumberCursor(s: State)
    requires s.Valid() && IsNumeric(s.c) && s.CanAdvance()
    ensures LexNumber(s).Ok? ==> LexNumber(s).value.line == s.line
                                 && LexNumber(s).value.col == s.col + (LexNumber(s).value.idx - s.idx)
  {
    NumberScanColumn(Next(s), false, [s.c], 0);
  }

  /** `lex_number` from a digit that is not the last character: it fails
      exactly on a second dot in the run of digits and dots (where, is
      `NumberTokenFails`); otherwise it pushes, at the starting position, the run (without a dot on the last
      character of the text), fractional exactly when the run held one dot,
      and leaves the cursor at the end of the run (or the last character). */
  lemma NumberToken(s: State)
    requires s.Valid() && IsNumeric(s.c) && s.CanAdvance()
    ensures var stop := Min(NumberRunEnd(s.src, s.idx), |s.src| - 1);
            var run := s.src[s.idx..stop] + (if stop == |s.src| - 1 && IsNumeric(s.src[stop]) then [s.src[stop]] else []);
            var r := LexNumber(s);
            (r.Err? <==> Dots(s.src[s.idx..stop]) >= 2)
            && (r.Ok? ==> var t := r.value.tokens[|s.tokens|];
                          t.value == run && t.typ == NumLiteral(Dots(s.src[s.idx..stop]) == 1)
                          && t.loc == Loc(s.line, s.col) && r.value.idx == stop)
  {
    var u := Next(s);
    var stop := Min(NumberRunEnd(s.src, s.idx), |s.src| - 1);
    assert u.idx == s.idx + 1 && u.src == s.src && u.tokens == s.tokens;
    assert NumberRunEnd(s.src, s.idx) == NumberRunEnd(s.src, u.idx);
    assert stop == Min(NumberRunEnd(u.src, u.idx), |u.src| - 1);
    var rest := s.src[u.idx..stop];
    assert u.src[u.idx..stop] == rest;
    assert s.src[s.idx..stop] == [s.c] + rest;
    DotsCons(s.c, rest);
    assert Dots(s.src[s.idx..stop]) == Dots(rest);
    NumberScanReads(u, false, [s.c], 0);
    var scan := NumberScan(u, false, [s.c], 0);
    if scan.Ok? {
      var (t, fractional, digits) := scan.value;
      assert t.idx == stop && t.tokens == s.tokens && digits == s.src[s.idx..stop];
      assert fractional <==> Dots(rest) == 1;
      assert t.c == s.src[stop] && (t.CanAdvance() <==> stop != |s.src| - 1);
      var token := TokenAt(NumLiteral(false), s.line, s.col);
      var text := if !t.CanAdvance() && IsNumeric(t.c) then digits + [t.c] else digits;
      assert LexNumber(s) == Ok(Pushed(t, token.(typ := NumLiteral(fractional), value := text)));
    }
  }

  /** A number that fails, fails with the "Invalid location" error at its
      second dot. */
  lemma NumberTokenFails(s: State)
    requires s.Valid() && IsNumeric(s.c) && s.CanAdvance()
    ensures FailsAt(LexNumber(s), s.line, s.col, s.idx, DotTarget(s.src, s.idx, 0))
  {
    var u := Next(s);
    var scan := NumberScan(u, false, [s.c], 0);
    NumberScanFails(u, false, [s.c], 0);
    TargetStep(s, 0, 0);
    StepsAlongLine(s);
    var k := DotTarget(s.src, s.idx, 0);
    FailsAtShift(scan, u.line, u.col, u.idx, DotTarget(u.src, u.idx, 0), s.line, s.col, s.idx, k);
    NumberFaultIsScanFault(s);
    FailsAtSame(LexNumber(s), scan, s.line, s.col, s.idx, k);
  }

  /** `lex_number` fails only where its loop fails, with the same error. */
  lemma NumberFaultIsScanFault(s: State)
    requires s.Valid() && IsNumeric(s.c) && s.CanAdvance()
    ensures var scan := NumberScan(Next(s), false, [s.c], 0);
            LexNumber(s).Err? ==> scan.Err? && LexNumber(s).fault == scan.fault
  {
  }

  /** A result failing only as another one does fails at the same dot. */
  lemma FailsAtSame<T, U>(r: Result<T>, q: Result<U>, line: nat, col: nat, idx: nat, k: Option<nat>)
    requires FailsAt(q, line, col, idx, k) && (r.Err? ==> q.Err? && r.fault == q.fault)
    ensures FailsAt(r, line, col, idx, k)
  {
  }

  /** A digit that is the last character of the text is read twice: the
      token's text is that digit doubled. */
  lemma NumberAtEndDoubles(s: State)
    requires s.Valid() && IsNumeric(s.c) && !s.CanAdvance()
    ensures LexNumber(s).Ok?
    ensures LexNumber(s).value.tokens[|s.tokens|].value == [s.c, s.c]
  {
  }

  // ---------------------------------------------------------------------
  // Strings

  predicate NoNewline(x: string) {
    forall i :: 0 <= i < |x| ==> !IsNewline(x[i])
  }

  predicate IsAscii(x: string) {
    forall i :: 0 <= i < |x| ==> x[i] as int < 0x80
  }

  /** What the `while` loop of `lex_string` leaves, from `u` on, with
      `acc` collected before. */
  predicate ScanEnd(u: State, delim: char, acc: string, t: State, content: string) {
    (t.c == delim || !t.CanAdvance()) && u.idx <= t.idx <= |u.src| - 1
    && (content == acc + u.src[u.idx..t.idx]
        || (t.c == delim && t.idx == |u.src| - 1 && content == acc + u.src[u.idx..]))
  }

  /** The `while` loop of `lex_string` stops on the delimiter or on the
      last character, and what it collects is the text it passed over (plus
      the delimiter itself when an escaped delimiter is the last
      character). A delimiter it stops on without collecting it is not
      right after a backslash. */
  lemma {:induction false} StringScanReads(u: State, delim: char, acc: string)
    requires u.Valid()
    decreases |u.src| - u.idx
    ensures ScanEnd(u, delim, acc, StringScan(u, delim, acc).0, StringScan(u, delim, acc).1)
    ensures delim != '\\' ==> StopsUnescaped(u.src, u.idx, acc, StringScan(u, delim, acc).0.idx, StringScan(u, delim, acc).1, delim)
  {
    if delim != '\\' {
      StopUnescaped(u, delim, acc);
    }
    if u.c != delim && u.CanAdvance() {
      if u.c == '\\' && PeekOr(u) == delim {
        var v := Next(Next(u));
        StringScanReads(v, delim, acc + [u.c, PeekOr(u)]);
        ScanEndEscaped(u, delim, acc, StringScan(v, delim, acc + [u.c, PeekOr(u)]));
      } else {
        var v := Next(u);
        StringScanReads(v, delim, acc + [u.c]);
        ScanEndPlain(u, delim, acc, StringScan(v, delim, acc + [u.c]));
      }
    } else {
      assert u.src[u.idx..u.idx] == [];
    }
  }

  lemma ScanEndEscaped(u: State, delim: char, acc: string, r: (State, string))
    requires u.Valid() && u.CanAdvance() && u.c == '\\' && u.src[u.idx + 1] == delim
    requires ScanEnd(Next(Next(u)), delim, acc + [u.c, delim], r.0, r.1)
    requires Next(Next(u)).idx == u.idx + 1 ==> r == (Next(Next(u)), acc + [u.c, delim])
    ensures ScanEnd(u, delim, acc, r.0, r.1)
  {
    var v := Next(Next(u));
    var pair := [u.c, delim];
    if v.idx == u.idx + 2 {
      assert u.src[u.idx..r.0.idx] == pair + u.src[v.idx..r.0.idx];
      assert u.src[u.idx..] == pair + u.src[v.idx..];
    } else {
      assert u.src[u.idx..] == pair;
      assert r.1 == acc + u.src[u.idx..];
    }
  }

  lemma ScanEndPlain(u: State, delim: char, acc: string, r: (State, string))
    requires u.Valid() && u.CanAdvance()
    requires ScanEnd(Next(u), delim, acc + [u.c], r.0, r.1)
    ensures ScanEnd(u, delim, acc, r.0, r.1)
  {
    var v := Next(u);
    assert u.src[u.idx..r.0.idx] == [u.c] + u.src[v.idx..r.0.idx];
    assert u.src[u.idx..] == [u.c] + u.src[v.idx..];
  }

  /** A stop at `stop` on a delimiter, having collected exactly the text
      from `from` on after `acc`, is not right after a backslash. */
  predicate StopsUnescaped(src: string, from: nat, acc: string, stop: nat, content: string, delim: char) {
    from < stop < |src| && src[stop] == delim && content == acc + src[from..stop] ==> src[stop - 1] != '\\'
  }

  /** A stop on a delimiter that the loop did not collect (so not an escaped
      delimiter on the last character) is not right after a backslash: a
      backslash before the delimiter does not close the string. */
  lemma {:induction false} StopUnescaped(u: State, delim: char, acc: string)
    requires u.Valid() && delim != '\\'
    decreases |u.src| - u.idx
    ensures var r := StringScan(u, delim, acc);
            StopsUnescaped(u.src, u.idx, acc, r.0.idx, r.1, delim)
  {
    if u.CanAdvance() && u.c != delim {
      if u.c == '\\' && PeekOr(u) == delim {
        var v := Next(Next(u));
        StopUnescaped(v, delim, acc + [u.c, delim]);
        ScanPassesEscape(u, delim, acc);
        var r := StringScan(v, delim, acc + [u.c, delim]);
        assert v.idx == u.idx + 1 ==> r == (v, acc + [u.c, delim]);
        StopAfterPair(u.src, u.idx, v.idx, acc, r.0.idx, r.1, delim);
      } else {
        var v := Next(u);
        StopUnescaped(v, delim, acc + [u.c]);
        ScanPassesOne(u, delim, acc);
        var r := StringScan(v, delim, acc + [u.c]);
        StopAfterOne(u.src, u.idx, acc, r.0.idx, r.1, delim);
      }
    }
  }

  /** After an escaped delimiter the stop is unescaped: right after the pair
      the character before it is the delimiter, and further on the text
      after the pair decides. */
  lemma StopAfterPair(src: string, i: nat, j: nat, acc: string, stop: nat, content: string, delim: char)
    requires i + 1 < |src| && src[i] == '\\' && src[i + 1] == delim && delim != '\\'
    requires j == i + 1 || j == i + 2
    requires j <= stop
    requires j == i + 1 ==> stop == j && content == acc + [src[i], delim]
    requires StopsUnescaped(src, j, acc + [src[i], delim], stop, content, delim)
    ensures StopsUnescaped(src, i, acc, stop, content, delim)
  {
    if i < stop < |src| && src[stop] == delim && content == acc + src[i..stop] {
      if j == i + 1 {
        assert false;
      } else if stop > j {
        assert src[i..stop] == [src[i], delim] + src[j..stop];
      }
    }
  }

  /** After a character collected alone the stop is unescaped: a backslash
      right before the delimiter would have escaped it. */
  lemma StopAfterOne(src: string, i: nat, acc: string, stop: nat, content: string, delim: char)
    requires i + 1 < |src| && src[i] != delim && !(src[i] == '\\' && src[i + 1] == delim)
    requires i + 1 <= stop
    requires StopsUnescaped(src, i + 1, acc + [src[i]], stop, content, delim)
    ensures StopsUnescaped(src, i, acc, stop, content, delim)
  {
    if i < stop < |src| && src[stop] == delim && content == acc + src[i..stop] && stop > i + 1 {
      assert src[i..stop] == [src[i]] + src[i + 1..stop];
    }
  }

  /** An escaped delimiter is collected whole and the loop goes on after it. */
  lemma ScanPassesEscape(u: State, delim: char, acc: string)
    requires u.Valid() && u.CanAdvance() && u.c != delim && u.c == '\\' && PeekOr(u) == delim
    ensures StringScan(u, delim, acc) == StringScan(Next(Next(u)), delim, acc + [u.c, delim])
  {
  }

  /** Any other character is collected alone. */
  lemma ScanPassesOne(u: State, delim: char, acc: string)
    requires u.Valid() && u.CanAdvance() && u.c != delim && !(u.c == '\\' && PeekOr(u) == delim)
    ensures StringScan(u, delim, acc) == StringScan(Next(u), delim, acc + [u.c])
  {
  }

  /** `content` extends `acc`, and every delimiter in the extension comes
      right after a backslash. */
  predicate EscapedAfter(acc: string, content: string, delim: char) {
    |acc| <= |content| && content[..|acc|] == acc
    && forall i :: |acc| <= i < |content| && content[i] == delim ==> |acc| < i && content[i - 1] == '\\'
  }

  /** Taking back a collected character other than the delimiter, or an
      escaped delimiter, keeps the delimiters escaped. */
  lemma EscapedPop(acc: string, more: string, content: string, delim: char)
    requires (|more| == 1 && more[0] != delim) || (more == ['\\', delim] && delim != '\\')
    requires EscapedAfter(acc + more, content, delim)
    ensures EscapedAfter(acc, content, delim)
  {
    assert content[..|acc|] == content[..|acc + more|][..|acc|];
    forall i | |acc| <= i < |acc + more| && content[i] == delim
      ensures |acc| < i && content[i - 1] == '\\'
    {
      assert content[i] == (acc + more)[i];
      assert i == |acc| + 1 && content[i - 1] == (acc + more)[i - 1];
    }
  }

  /** Every delimiter that loop collects comes right after a backslash. */
  lemma {:induction false} StringScanEscapes(u: State, delim: char, acc: string)
    requires u.Valid()
    decreases |u.src| - u.idx
    ensures EscapedAfter(acc, StringScan(u, delim, acc).1, delim)
  {
    if u.c != delim && u.CanAdvance() {
      if u.c == '\\' && PeekOr(u) == delim {
        StringScanEscapes(Next(Next(u)), delim, acc + [u.c, PeekOr(u)]);
        EscapedPop(acc, [u.c, PeekOr(u)], StringScan(u, delim, acc).1, delim);
      } else {
        StringScanEscapes(Next(u), delim, acc + [u.c]);
        EscapedPop(acc, [u.c], StringScan(u, delim, acc).1, delim);
      }
    }
  }

  /** The part after a prefix of a text without line breaks has none. */
  lemma NoNewlineAfter(pre: string, rest: string)
    requires NoNewline(pre + rest)
    ensures NoNewline(rest)
  {
    forall i | 0 <= i < |rest| ensures !IsNewline(rest[i]) {
      assert rest[i] == (pre + rest)[|pre| + i];
    }
  }

  /** `content` extends `acc`, and if the extension holds no line break,
      a cursor that went from `line`/`col` to `line'`/`col'` while it was
      collected stayed on the line and moved once per character. */
  predicate ColumnAfter(acc: string, content: string, line: nat, col: nat, line': nat, col': nat) {
    |acc| <= |content| && content[..|acc|] == acc
    && (NoNewline(content[|acc|..]) ==> line' == line && col' == col + (|content| - |acc|))
  }

  /** Collecting `piece` and then the rest keeps that relation. */
  lemma ColumnStep(acc: string, piece: string, content: string, line: nat, col: nat, midLine: nat, midCol: nat,
                   line': nat, col': nat)
    requires ColumnAfter(acc + piece, content, midLine, midCol, line', col')
    requires NoNewline(piece) ==> midLine == line && midCol == col + |piece|
    ensures ColumnAfter(acc, content, line, col, line', col')
  {
    assert content[..|acc|] == content[..|acc + piece|][..|acc|];
    assert content[|acc|..] == piece + content[|acc + piece|..];
    if NoNewline(content[|acc|..]) {
      forall i | 0 <= i < |piece| ensures !IsNewline(piece[i]) {
        assert piece[i] == content[|acc|..][i];
      }
      NoNewlineAfter(piece, content[|acc + piece|..]);
    }
  }

  /** Stepping over an escaped pair that holds no line break moves two columns. */
  lemma PairColumns(u: State)
    requires u.Valid() && u.CanAdvance()
    ensures NoNewline([u.c, PeekOr(u)]) ==> Next(Next(u)).line == u.line && Next(Next(u)).col == u.col + 2
  {
    if NoNewline([u.c, PeekOr(u)]) {
      assert [u.c, PeekOr(u)][0] == u.c && [u.c, PeekOr(u)][1] == Next(u).c;
    }
  }

  /** Stepping over one character that is not a line break moves one column. */
  lemma OneColumn(u: State)
    ensures NoNewline([u.c]) ==> Next(u).line == u.line && Next(u).col == u.col + 1
  {
    if NoNewline([u.c]) {
      assert [u.c][0] == u.c;
    }
  }

  /** On one line, that loop moves the column once per character it
      collects. */
  lemma {:induction false} StringScanColumn(u: State, delim: char, acc: string)
    requires u.Valid()
    decreases |u.src| - u.idx
    ensures var r := StringScan(u, delim, acc);
            ColumnAfter(acc, r.1, u.line, u.col, r.0.line, r.0.col)
  {
    if u.c != delim && u.CanAdvance() {
      if u.c == '\\' && PeekOr(u) == delim {
        var v := Next(Next(u));
        StringScanColumn(v, delim, acc + [u.c, delim]);
        ScanPassesEscape(u, delim, acc);
        var r := StringScan(v, delim, acc + [u.c, delim]);
        PairColumns(u);
        ColumnStep(acc, [u.c, delim], r.1, u.line, u.col, v.line, v.col, r.0.line, r.0.col);
      } else {
        var v := Next(u);
        StringScanColumn(v, delim, acc + [u.c]);
        ScanPassesOne(u, delim, acc);
        var r := StringScan(v, delim, acc + [u.c]);
        OneColumn(u);
        ColumnStep(acc, [u.c], r.1, u.line, u.col, v.line, v.col, r.0.line, r.0.col);
      }
    } else {
      assert StringScan(u, delim, acc).1[|acc|..] == [];
    }
  }

  /** `lex_string` on a quote: the string is closed exactly when the scan
      stops on the same quote. A closed string's token holds the collected
      text, in which every quote is escaped by a backslash; the closing
      quote is not after a backslash, unless it is an escaped quote that is
      the last character and so is part of the text. */
  lemma StringToken(s: State)
    requires s.Valid() && (s.c == '"' || s.c == '\'')
    ensures var scan := StringScan(Next(s), s.c, "");
            var r := LexString(s);
            (r.Ok? ==> scan.0.c == s.c && r.value.tokens[|s.tokens|].value == scan.1
                       && r.value.tokens[|s.tokens|].typ == StrLiteral)
            && (forall i :: 0 <= i < |scan.1| && scan.1[i] == s.c ==> 0 < i && scan.1[i - 1] == '\\')
            && StopsUnescaped(s.src, Next(s).idx, "", scan.0.idx, scan.1, s.c)
  {
    StringScanEscapes(Next(s), s.c, "");
    StopUnescaped(Next(s), s.c, "");
  }

  /** An unclosed string is an error naming the quote, reported where the
      text ends. */
  lemma StringUnclosed(s: State)
    requires s.Valid() && (s.c == '"' || s.c == '\'')
    requires StringScan(Next(s), s.c, "").0.c != s.c
    ensures var t := StringScan(Next(s), s.c, "").0;
            !t.CanAdvance() && t.idx == |s.src| - 1
            && LexString(s) == Err(LexError(t, "`" + [s.c] + "` was never closed"))
  {
    StringScanReads(Next(s), s.c, "");
  }

  /** A closed string whose text is ASCII on one line is located at its
      opening quote. */
  lemma StringAtQuote(s: State)
    requires s.Valid() && (s.c == '"' || s.c == '\'')
    requires var scan := StringScan(Next(s), s.c, "");
             scan.0.c == s.c && NoNewline(scan.1) && IsAscii(scan.1)
    ensures LexString(s).Ok? && LexString(s).value.tokens[|s.tokens|].loc == Loc(s.line, s.col)
  {
    var u := Next(s);
    StringScanColumn(u, s.c, "");
    var content := StringScan(u, s.c, "").1;
    assert content[0..] == content;
  }

  // ---------------------------------------------------------------------
  // Comments and `/=`

  /** A `/` followed by anything but `/`, `*` or `=` (or by nothing) is an
      error at the `/`, naming the character after it (`\0` for none). */
  lemma SlashInvalid(s: State)
    requires s.Valid() && s.c == '/'
    requires PeekOr(s) != '/' && PeekOr(s) != '*' && PeekOr(s) != '='
    ensures SkipComment(s, false) == Err(LexError(s, "Invalid character after a '/': '" + [PeekOr(s)] + "'"))
    ensures LexStep(s) == Failed(LexError(s, "Invalid character after a '/': '" + [PeekOr(s)] + "'"))
  {
  }

  /** `/=` is one `SlashEq` token, located at the `=`. */
  lemma SlashEqToken(s: State)
    requires s.Valid() && s.c == '/' && PeekOr(s) == '='
    ensures SkipComment(s, false).Ok?
    ensures var r := SkipComment(s, false).value;
            r.tokens == s.tokens + [Macros.MakeToken(SlashEq, "/=", s.line, s.col + 1)]
            && r.idx == s.idx + 1
  {
    var t := Next(s);
    assert t.c == '=' && t.line == s.line && t.col == s.col + 1 && t.idx == s.idx + 1;
    assert SkipComment(s, false) == SlashLoop(s, false) == Ok(PushToken(t, SlashEq, "/="));
  }

  /** The first line break at or after `i`, or the end of the text. */
  function LineEnd(src: string, i: nat): (e: nat)
    requires i <= |src|
    decreases |src| - i
    ensures i <= e <= |src|
    ensures forall k :: i <= k < e ==> !IsNewline(src[k])
    ensures e < |src| ==> IsNewline(src[e])
  {
    if i < |src| && !IsNewline(src[i]) then LineEnd(src, i + 1) else i
  }

  lemma {:induction false} LineScanReads(u: State)
    requires u.Valid()
    decreases |u.src| - u.idx
    ensures LineScan(u).idx == Min(LineEnd(u.src, u.idx), |u.src| - 1)
  {
    if u.CanAdvance() && !IsNewline(u.c) {
      LineScanReads(Next(u));
    }
  }

  /** `//` adds no token and leaves the cursor on the first line break
      after it, or on the last character. */
  lemma LineComment(s: State)
    requires s.Valid() && s.c == '/' && PeekOr(s) == '/'
    ensures SkipComment(s, false).Ok?
    ensures var r := SkipComment(s, false).value;
            r.tokens == s.tokens && r.idx == Min(LineEnd(s.src, s.idx + 1), |s.src| - 1)
  {
    var t := Next(s);
    assert s.CanAdvance() && t.c == '/' && t.idx == s.idx + 1;
    assert SlashLoop(s, false) == Ok(LineScan(t));
    assert SkipComment(s, false) == SlashLoop(s, false);
    LineScanReads(t);
  }

  /** A `*` followed by `/` at `j`. */
  predicate ClosesAt(src: string, j: nat) {
    j + 1 < |src| && src[j] == '*' && src[j + 1] == '/'
  }

  /** The first closing star-slash at or after `i`. */
  function FirstClose(src: string, i: nat): (r: Option<nat>)
    decreases |src| - i
    ensures r.Some? ==> i <= r.value && ClosesAt(src, r.value)
                        && forall k :: i <= k < r.value ==> !ClosesAt(src, k)
    ensures r.None? ==> forall k :: i <= k ==> !ClosesAt(src, k)
  {
    if i + 1 < |src| then
      if src[i] == '*' && src[i + 1] == '/' then Some(i) else FirstClose(src, i + 1)
    else None
  }

  /** The star-slash loop of `skip_comment` finds the first closing star-slash from the
      cursor on and leaves the cursor two characters on (or on the last
      character), adding no token; without one it runs out of text. */
  lemma {:induction false} MultilineScanReads(u: State)
    requires u.Valid()
    decreases |u.src| - u.idx
    ensures var r := MultilineScan(u);
            (r.Closed? <==> FirstClose(u.src, u.idx).Some?)
            && (r.Closed? ==> r.after.idx == Min(FirstClose(u.src, u.idx).value + 2, |u.src| - 1))
  {
    if u.CanAdvance() && !EndMultilineComment(u) {
      MultilineScanReads(Next(u));
    }
  }

  /** `lex_enclosures` pushes the bracket under the cursor, with the kind
      the bracket table gives it and the bracket as its text, and fails on
      any other character. */
  lemma EnclosureToken(s: State)
    ensures s.c in Enclosures
            ==> LexEnclosures(s) == Ok(Pushed(s, Macros.MakeToken(Enclosures[s.c], [s.c], s.line, s.col)))
    ensures s.c !in Enclosures
            ==> LexEnclosures(s) == Err(LexError(s, "Got unexpected enclosure: '" + [s.c] + "'"))
  {
  }

  /** The message for a `/` followed by nothing, which is also how an
      unclosed slash-star comment ends. */
  const SlashAtEnd: string := "Invalid character after a '/': '" + [NUL] + "'"

  /** What a slash-star comment whose search for the closing star-slash
      starts at `t` leaves: with a star-slash ahead, no new token and the
      cursor two characters after the first one (or on the last character);
      with none, the error for a `/` followed by nothing, reported at the
      line and column the search reached on the last character. */
  predicate BlockOutcome(t: State, r: Result<State>)
    requires t.Valid()
  {
    var k := t.idx;
    (r.Ok? <==> FirstClose(t.src, k).Some?)
    && (r.Ok? ==> r.value.tokens == t.tokens && r.value.idx == Min(FirstClose(t.src, k).value + 2, |t.src| - 1))
    && (r.Err? ==> MultilineScan(t).Exhausted? && MultilineScan(t).at.idx == |t.src| - 1
                   && r == Err(LexError(MultilineScan(t).at, SlashAtEnd)))
  }

  /** `skip_comment(lexer, true)` from the opening star: the search starts
      at that star, and an unclosed comment fails on the last character. */
  lemma BlockBody(t: State)
    requires t.Valid()
    ensures BlockOutcome(t, SkipComment(t, true))
  {
    MultilineScanReads(t);
    var m := MultilineScan(t);
    if m.Exhausted? {
      assert PeekOr(m.at) == NUL;
      assert SkipComment(t, true) == Err(LexError(m.at, SlashAtEnd));
    }
  }

  /** After a `/` whose next character is `*`, `skip_comment` moves onto
      that star and goes on as a multi-line comment. */
  lemma SlashStar(s: State)
    requires s.Valid() && s.c == '/' && PeekOr(s) == '*'
    ensures Next(s).c == '*' && Next(s).idx == s.idx + 1
    ensures SkipComment(s, false) == SkipComment(Next(s), true)
  {
    var t := Next(s);
    assert SlashLoop(s, false) == SkipComment(t, true);
  }

  /** A slash-star comment is skipped, with no token, exactly when a closing
      star-slash follows, the search starting at the `*` (so the text
      slash-star-slash is a whole comment); the cursor is left two characters
      after the first one (or on the last character). With none, it is the
      error for a `/` followed by nothing, reported on the last character. */
  lemma BlockComment(s: State)
    requires s.Valid() && s.c == '/' && PeekOr(s) == '*'
    ensures Next(s).idx == s.idx + 1 && Next(s).tokens == s.tokens
    ensures BlockOutcome(Next(s), SkipComment(s, false))
  {
    SlashStar(s);
    BlockBody(Next(s));
  }
}
