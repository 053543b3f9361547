/** Properties of the C prototype lexer: what each scan reads, where each
    comment ends, which inputs exit and which never finish. */
module CLexerProps {
  import opened CLexerSpec
  import Decimal

  // ---------------------------------------------------------------------
  // Reference positions, defined on the buffer alone

  /** The end of the alphanumeric run starting at `k`. */
  function AlnumEnd(src: seq<char>, k: nat): (j: nat)
    requires k <= |src|
    ensures k <= j <= |src| && (j < |src| ==> !IsAlnum(src[j]))
    ensures forall m :: k <= m < j ==> IsAlnum(src[m])
    decreases |src| - k
  {
    if k < |src| && IsAlnum(src[k]) then AlnumEnd(src, k + 1) else k
  }

  /** The first line break in `src[k..end]`, if there is one. */
  function NewlineFrom(src: seq<char>, k: nat, end: nat): (r: Option<nat>)
    requires k <= end <= |src|
    ensures r.Some? ==> k <= r.value < end && IsNewline(src[r.value])
                        && forall m :: k <= m < r.value ==> !IsNewline(src[m])
    ensures r.None? ==> forall m :: k <= m < end ==> !IsNewline(src[m])
    decreases end - k
  {
    if k == end then None else if IsNewline(src[k]) then Some(k) else NewlineFrom(src, k + 1, end)
  }

  /** The first `*` in `src[k..end]`, if there is one. */
  function StarFrom(src: seq<char>, k: nat, end: nat): (r: Option<nat>)
    requires k <= end <= |src|
    ensures r.Some? ==> k <= r.value < end && src[r.value] == '*'
                        && forall m :: k <= m < r.value ==> src[m] != '*'
    ensures r.None? ==> forall m :: k <= m < end ==> src[m] != '*'
    decreases end - k
  {
    if k == end then None else if src[k] == '*' then Some(k) else StarFrom(src, k + 1, end)
  }

  /** How a block comment whose body starts at `k` ends in a string of
      length `end`: at the first star followed by a slash (the index of that
      star), with an error at a star that is the last character, and never
      when neither comes. */
  function BlockEnd(src: seq<char>, k: nat, end: nat): (r: Step<nat>)
    requires k <= end <= |src|
    ensures r.Went? ==> k <= r.value && r.value + 1 < end && src[r.value] == '*' && src[r.value + 1] == '/'
    decreases end - k
  {
    if k == end then Spins
    else if src[k] == '*' && k + 1 < end && src[k + 1] == '/' then Went(k)
    else if src[k] == '*' && k + 1 == end then Exited(NeverClosed)
    else BlockEnd(src, k + 1, end)
  }

  // ---------------------------------------------------------------------
  // Peeking and moving

  /** `lexer_peek` never reads beyond the terminator, and what it reads
      ahead of the end is the buffer's character. */
  lemma PeekInBounds(s: CState, offset: nat)
    requires s.Valid()
    ensures PeekIndex(s, offset) <= s.srcLen
    ensures Peek(s, offset) == NUL <==> s.i + offset >= s.srcLen
  {
  }

  // ---------------------------------------------------------------------
  // Identifiers

  /** `lexer_parse_ident` reads exactly the alphanumeric run under the index
      and leaves the index on the first character after it. */
  lemma {:induction false} IdentScanReads(s: CState, ident: string)
    requires s.Valid()
    ensures AlnumEnd(s.src, s.i) <= s.srcLen
    ensures IdentScan(s, ident) == (Seek(s, AlnumEnd(s.src, s.i)), ident + s.src[s.i..AlnumEnd(s.src, s.i)])
    decreases s.srcLen - s.i
  {
    assert !IsAlnum(s.src[s.srcLen]);
    if IsAlnum(s.c) {
      var j := AlnumEnd(s.src, s.i);
      assert j == AlnumEnd(s.src, s.i + 1);
      IdentScanReads(Next(s), ident + [s.c]);
      assert s.src[s.i..j] == [s.c] + s.src[s.i + 1..j];
      assert (ident + [s.c]) + s.src[s.i + 1..j] == ident + s.src[s.i..j];
    } else {
      assert Seek(s, s.i) == s;
      assert ident + s.src[s.i..s.i] == ident;
    }
  }

  lemma ParseIdentReads(s: CState)
    requires s.Valid()
    ensures AlnumEnd(s.src, s.i) <= s.srcLen
    ensures ParseIdent(s) == (Seek(s, AlnumEnd(s.src, s.i)), CToken(Some(s.src[s.i..AlnumEnd(s.src, s.i)]), Ident))
  {
    IdentScanReads(s, "");
    assert "" + s.src[s.i..AlnumEnd(s.src, s.i)] == s.src[s.i..AlnumEnd(s.src, s.i)];
  }

  /** In `lexer_lex_next` an identifier is followed by one more
      `lexer_next`: the character right after the run is never looked at. */
  lemma IdentPass(s: CState, multiline: bool)
    requires s.Valid() && IsAlnum(s.c)
    ensures var j := AlnumEnd(s.src, s.i);
            j <= s.srcLen
            && LexPass(s, multiline)
               == Went(Pass(Next(Seek(s, j)), multiline, [CToken(Some(s.src[s.i..j]), Ident)]))
  {
    ParseIdentReads(s);
  }

  /** A `#` makes a `Hash` token and then an identifier from the character
      after it (possibly with no text), and the pass steps over the
      character after that run. */
  lemma HashPass(s: CState, multiline: bool)
    requires s.Valid() && s.c == '#'
    ensures s.i < s.srcLen
    ensures var j := AlnumEnd(s.src, s.i + 1);
            j <= s.srcLen
            && LexPass(s, multiline)
               == Went(Pass(Next(Seek(s, j)), multiline,
                            [CToken(Some("#"), Hash), CToken(Some(s.src[s.i + 1..j]), Ident)]))
  {
    var u := Next(s);
    assert u == Seek(s, s.i + 1);
    ParseIdentReads(u);
    SeekSame(s, u, AlnumEnd(s.src, s.i + 1));
  }

  /** An `=` always takes two characters, the one after it included. */
  lemma AssignmentPass(s: CState, multiline: bool)
    requires s.Valid() && s.c == '='
    ensures LexPass(s, multiline).Went?
    ensures LexPass(s, multiline).value.after == Next(Next(s))
    ensures LexPass(s, multiline).value.created == [ParseAssignmentExpr(s).1]
  {
  }

  // ---------------------------------------------------------------------
  // Comments

  lemma {:induction false} LineScanReads(s: CState)
    requires s.Valid()
    ensures LineScan(s) == match NewlineFrom(s.src, s.i, s.srcLen)
                           case Some(k) => Went(Seek(s, k))
                           case None => Spins
    decreases s.srcLen - s.i
  {
    if !IsNewline(s.c) && s.c != NUL {
      LineScanReads(Next(s));
    }
  }

  lemma {:induction false} StarScanReads(s: CState)
    requires s.Valid()
    ensures StarScan(s) == match StarFrom(s.src, s.i, s.srcLen)
                           case Some(k) => Went(Seek(s, k))
                           case None => Spins
    decreases s.srcLen - s.i
  {
    if s.c != '*' && s.c != NUL {
      StarScanReads(Next(s));
    }
  }

  /** A `//` comment ends just past the first line break, and never ends
      when no line break follows: at the terminator the loop spins. */
  lemma LineComment(s: CState)
    requires s.Valid() && Peek(s, 1) == '/'
    ensures SkipComment(s, false) == match NewlineFrom(s.src, s.i, s.srcLen)
                                     case Some(k) => Went(Comment(Seek(s, k + 1), false))
                                     case None => Spins
  {
    LineScanReads(s);
    match NewlineFrom(s.src, s.i, s.srcLen)
    case Some(k) =>
      assert Next(Seek(s, k)) == Seek(s, k + 1);
    case None =>
  }

  /** Characters that are not stars do not change how a block comment ends. */
  lemma {:induction false} BlockEndSkips(src: seq<char>, a: nat, b: nat, end: nat)
    requires a <= b <= end <= |src|
    requires forall m :: a <= m < b ==> src[m] != '*'
    ensures BlockEnd(src, a, end) == BlockEnd(src, b, end)
    decreases b - a
  {
    if a < b {
      BlockEndSkips(src, a + 1, b, end);
    }
  }

  /** Two states over the same buffer seek to the same place. */
  lemma SeekSame(s: CState, t: CState, k: nat)
    requires s.Valid() && t.Valid() && t.src == s.src && t.srcLen == s.srcLen && k <= s.srcLen
    ensures Seek(t, k) == Seek(s, k)
  {
  }

  /** Inside a block comment, a character that is neither a star nor the
      terminator is stepped over. */
  lemma NonStar(s: CState)
    requires s.Valid() && s.c != '*' && s.c != NUL
    ensures s.i < s.srcLen && Next(s) == Seek(s, s.i + 1)
    ensures InBlock(s) == InBlock(Seek(s, s.i + 1))
    ensures BlockEnd(s.src, s.i, s.srcLen) == BlockEnd(s.src, s.i + 1, s.srcLen)
  {
    StarStep(s);
  }

  lemma StarStep(s: CState)
    requires s.Valid() && s.c != '*' && s.c != NUL
    ensures InBlock(s) == InBlock(Next(s))
  {
  }

  /** At a star inside a block comment, the comment and `BlockEnd` look at
      the same next character. */
  lemma AtStar(s: CState)
    requires s.Valid() && s.c == '*'
    ensures s.i < s.srcLen
    ensures InBlock(s) == if Peek(s, 1) == '/' then Went(Comment(Seek(s, s.i + 2), false))
                                    else if Peek(s, 1) == NUL then Exited(NeverClosed)
                                    else InBlock(Seek(s, s.i + 1))
    ensures BlockEnd(s.src, s.i, s.srcLen) == if Peek(s, 1) == '/' then Went(s.i)
                                              else if Peek(s, 1) == NUL then Exited(NeverClosed)
                                              else BlockEnd(s.src, s.i + 1, s.srcLen)
  {
    PeekInBounds(s, 1);
    if Peek(s, 1) == '/' {
      assert Next(Next(s)) == Seek(s, s.i + 2);
    } else if Peek(s, 1) != NUL {
      assert Next(s) == Seek(s, s.i + 1);
    }
  }

  /** What reading a block comment from `s` gives when `BlockEnd` says `e`. */
  function BlockResult(s: CState, e: Step<nat>): Step<Comment>
    requires s.Valid() && (e.Went? ==> e.value + 2 <= s.srcLen)
  {
    match e
    case Went(k) => Went(Comment(Seek(s, k + 2), false))
    case Exited(m) => Exited(m)
    case Spins => Spins
  }

  /** Inside a block comment: the comment ends two characters past the first
      star that a slash follows; a star just before the terminator is the
      "never closed" error, and without either the scan spins. */
  lemma {:induction false} BlockBody(s: CState)
    requires s.Valid()
    ensures var e := BlockEnd(s.src, s.i, s.srcLen);
            (e.Went? ==> e.value + 2 <= s.srcLen) && InBlock(s) == BlockResult(s, e)
    decreases s.srcLen - s.i
  {
    var e := BlockEnd(s.src, s.i, s.srcLen);
    if s.c == NUL {
      assert Next(s) == s;
    } else if s.c == '*' && (Peek(s, 1) == '/' || Peek(s, 1) == NUL) {
      AtStar(s);
    } else {
      var u := Seek(s, s.i + 1);
      if s.c == '*' {
        AtStar(s);
      } else {
        NonStar(s);
      }
      BlockBody(u);
      assert BlockResult(u, e) == BlockResult(s, e) by {
        if e.Went? {
          SeekSame(s, u, e.value + 2);
        }
      }
    }
  }

  /** A block comment opened at the index is read by the rule above from
      the character after the opening star. */
  lemma BlockComment(s: CState)
    requires s.Valid() && s.c == '/' && Peek(s, 1) == '*'
    ensures s.i + 2 <= s.srcLen
    ensures var e := BlockEnd(s.src, s.i + 2, s.srcLen);
            (e.Went? ==> e.value + 2 <= s.srcLen) && SkipComment(s, false) == BlockResult(s, e)
  {
    var t := Next(Next(s));
    assert t == Seek(s, s.i + 2);
    assert SkipComment(s, false) == InBlock(t);
    BlockBody(t);
    var e := BlockEnd(s.src, s.i + 2, s.srcLen);
    if e.Went? {
      SeekSame(s, t, e.value + 2);
    }
    assert BlockResult(t, e) == BlockResult(s, e);
  }

  /** A `/` that starts neither kind of comment is fatal. */
  lemma SlashInvalid(s: CState, created: seq<CToken>)
    requires s.Valid() && s.c == '/' && Peek(s, 1) != '/' && Peek(s, 1) != '*'
    ensures LexLoop(s, false, created) == Exit(created, InvalidAt(s.i))
  {
  }

  // ---------------------------------------------------------------------
  // The loop of `lexer_lex_next`

  /** A `*` that the loop meets outside a comment is fatal. */
  lemma StarFatal(s: CState, created: seq<CToken>)
    requires s.Valid() && s.c == '*'
    ensures LexLoop(s, false, created) == Exit(created, InvalidAt(s.i))
  {
  }

  /** A character the loop handles in no branch, and which is not
      whitespace, leaves the lexer where it is, so the loop never ends. */
  lemma UnhandledDiverges(s: CState, multiline: bool, created: seq<CToken>)
    requires s.Valid() && s.c != NUL && !IsAlnum(s.c) && !IsWhitespace(s.c)
    requires s.c != '#' && s.c != '=' && s.c != ';' && s.c != '/' && s.c != '*'
    ensures LexPass(s, multiline) == Went(Pass(s, multiline, []))
    ensures LexLoop(s, multiline, created) == Diverged(created)
  {
  }

  /** In particular an opening parenthesis. */
  lemma ParenDiverges(s: CState, created: seq<CToken>)
    requires s.Valid() && s.c == '('
    ensures LexLoop(s, false, created) == Diverged(created)
  {
    UnhandledDiverges(s, false, created);
  }

  /** A block comment with no star after its opening never ends. */
  lemma OpenBlockDiverges(s: CState, created: seq<CToken>)
    requires s.Valid() && s.c == '/' && Peek(s, 1) == '*'
    requires forall m :: s.i + 2 <= m < s.srcLen ==> s.src[m] != '*'
    ensures LexLoop(s, false, created) == Diverged(created)
  {
    BlockComment(s);
    BlockEndSkips(s.src, s.i + 2, s.srcLen, s.srcLen);
  }

  /** A `//` comment with no line break after it never ends. */
  lemma OpenLineDiverges(s: CState, created: seq<CToken>)
    requires s.Valid() && s.c == '/' && Peek(s, 1) == '/'
    requires forall m :: s.i <= m < s.srcLen ==> !IsNewline(s.src[m])
    ensures LexLoop(s, false, created) == Diverged(created)
  {
    LineComment(s);
    assert NewlineFrom(s.src, s.i, s.srcLen).None?;
  }

  /** The tokens made along the way are only ever added to. */
  lemma {:induction false} LoopExtends(s: CState, multiline: bool, created: seq<CToken>)
    requires s.Valid()
    ensures var r := LexLoop(s, multiline, created);
            (r.Finished? ==> created <= r.created) && (r.Exit? ==> created <= r.made)
            && (r.Diverged? ==> created <= r.seen)
    decreases s.srcLen - s.i
  {
    if s.c != NUL {
      match LexPass(s, multiline)
      case Went(pass) =>
        if !(pass.after == s && pass.multiline == multiline) {
          LoopExtends(pass.after, pass.multiline, created + pass.created);
        }
      case _ =>
    }
  }
}
