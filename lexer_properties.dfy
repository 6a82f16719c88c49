/** What the Rhai lexer (src/cm_rhai_mode/token.rs) promises about the tokens
    it produces: look-alike symbols from other languages are rejected, `+`
    and `-` are unary exactly when the previous token asks for an operand,
    literals and comments are read whole, and end of input is reported only
    when nothing but whitespace is left. */
module LexerProperties {
  import opened Base
  import opened Tokens
  import opened StringLiteral
  import opened BlockComment
  import opened Numbers
  import opened Identifiers
  import opened Lexer

  // ---------------------------------------------------------------------
  // Look-alike symbols.

  /** The pairs of characters that spell a symbol of another language. */
  predicate IsLookAlike(c: char, d: char) {
    (c == '-' && d == '>') || (c == '=' && d == '>') || (c == ':' && d == '=') || (c == '<' && d == '-')
  }

  /** The message that rejects a look-alike pair. */
  function LookAlikeMessage(c: char): SymbolMessage {
    if c == '-' then ArrowMessage
    else if c == '=' then FatArrowMessage
    else if c == ':' then PascalAssignMessage
    else LeftArrowMessage
  }

  /** The dispatch rejects a symbol outright exactly for the four look-alike
      pairs, and defers to a third character exactly for `==` and `!=`. */
  lemma DispatchRejects(c: char, la: char, canBeUnary: bool)
    requires c != '\0'
    ensures var a := Dispatch(c, la, canBeUnary);
            && (a.Emit? && a.token.LexError? && a.token.error.ImproperSymbol? <==> IsLookAlike(c, la))
            && (IsLookAlike(c, la) ==> a == Emit(LexError(ImproperSymbol(LookAlikeMessage(c))), 1))
            && (a.EqualsLike? <==> (c == '=' || c == '!') && la == '=')
  {
  }

  /** `->`, `=>`, `:=` and `<-` are errors, whatever came before; the error
      covers only the first character. */
  lemma LookAlikeRejected(line: seq<char>, i: nat, hasNextLine: bool, canBeUnary: bool, c: char, d: char)
    requires NoNul(line) && IsLookAlike(c, d) && PrefixAt(line, i, [c, d])
    ensures LexFrom(line, i, hasNextLine, canBeUnary, false)
         == Lexed(LexError(ImproperSymbol(LookAlikeMessage(c))), i + 1, Nothing)
  {
    PrefixAtIndex(line, i, [c, d], 0);
    PrefixAtIndex(line, i, [c, d], 1);
    DispatchRejects(c, d, canBeUnary);
    assert LookAhead(line, i + 1, hasNextLine) == d;
    SymbolLexed(line, i, hasNextLine, canBeUnary, false);
  }

  /** `===` and `!==` are errors covering the first two characters; `==`
      and `!=` not followed by `=` are the comparison operators. */
  lemma TripleEqualsRejected(line: seq<char>, i: nat, hasNextLine: bool, canBeUnary: bool, c: char)
    requires NoNul(line) && (c == '=' || c == '!') && PrefixAt(line, i, [c, '='])
    ensures var third := i + 2 < |line| && line[i + 2] == '=';
            LexFrom(line, i, hasNextLine, canBeUnary, false)
              == if third then
                   Lexed(LexError(ImproperSymbol(if c == '=' then TripleEqualsMessage else BangDoubleEqualsMessage)), i + 2, Nothing)
                 else
                   Lexed(if c == '=' then EqualsTo else NotEqualsTo, i + 2, Nothing)
  {
    PrefixAtIndex(line, i, [c, '='], 0);
    PrefixAtIndex(line, i, [c, '='], 1);
    ComparisonLexed(line, i, hasNextLine, canBeUnary);
  }

  // ---------------------------------------------------------------------
  // The unary rule.

  /** A `+` or `-` that starts no compound symbol is the prefix operator
      when the lexer expects an operand and the binary one otherwise. */
  lemma PlusMinusUnaryRule(line: seq<char>, i: nat, hasNextLine: bool, canBeUnary: bool)
    requires NoNul(line) && i < |line| && (line[i] == '+' || line[i] == '-')
    requires var la := LookAhead(line, i + 1, hasNextLine);
             la != '=' && (line[i] == '-' ==> la != '>' && !IsAsciiDigit(la))
    ensures LexFrom(line, i, hasNextLine, canBeUnary, false)
         == Lexed(if line[i] == '+' then (if canBeUnary then UnaryPlus else Plus)
                  else (if canBeUnary then UnaryMinus else Minus), i + 1, Nothing)
  {
    var la := LookAhead(line, i + 1, hasNextLine);
    if line[i] == '+' {
      assert Dispatch('+', la, canBeUnary) == Emit(if canBeUnary then UnaryPlus else Plus, 1);
    } else {
      assert Dispatch('-', la, canBeUnary) == Emit(if canBeUnary then UnaryMinus else Minus, 1);
    }
    SymbolLexed(line, i, hasNextLine, canBeUnary, false);
  }

  /** A `-` before a digit is folded into a negative number when the lexer
      expects an operand: the token is the negated number's. */
  lemma UnaryMinusBeforeDigit(line: seq<char>, i: nat, hasNextLine: bool, tok: Token, end: nat)
    requires NoNul(line) && i + 1 < |line| && line[i] == '-' && IsAsciiDigit(line[i + 1])
    requires LexNumber(line, i + 1, true) == (tok, end)
    ensures LexFrom(line, i, hasNextLine, true, false) == Lexed(tok, end, Nothing)
  {
    assert Dispatch('-', line[i + 1], true) == NegateNext;
    var first := LexAt(line, i, hasNextLine, true, false);
    assert first == Advance(true);
    LexFromStep(line, i, hasNextLine, true, false, first);
    var second := LexAt(line, i + 1, hasNextLine, true, true);
    assert second == Done(Lexed(tok, end, Nothing));
    LexFromStep(line, i + 1, hasNextLine, true, true, second);
  }

  /** Otherwise the `-` before a digit is the binary minus. */
  lemma BinaryMinusBeforeDigit(line: seq<char>, i: nat, hasNextLine: bool)
    requires NoNul(line) && i + 1 < |line| && line[i] == '-' && IsAsciiDigit(line[i + 1])
    ensures LexFrom(line, i, hasNextLine, false, false) == Lexed(Minus, i + 1, Nothing)
  {
    assert LookAhead(line, i + 1, hasNextLine) == line[i + 1];
    assert Dispatch('-', line[i + 1], false) == Emit(Minus, 1);
    SymbolLexed(line, i, hasNextLine, false, false);
  }

  /** Round trip through the unary minus: `-` and the decimal digits of `n`
      lex as one integer when `-n` fits in an `i64` (so `i64::MIN` itself is
      an integer) and as a float below that. */
  lemma NegativeLiteral(n: nat, hasNextLine: bool)
    ensures var line := ['-'] + ToDigits(n, 10);
            && NoNul(line)
            && LexFrom(line, 0, hasNextLine, true, false)
                 == Lexed(if n <= 0x8000_0000_0000_0000 then IntegerConstant else FloatConstant, |line|, Nothing)
  {
    var ds := ToDigits(n, 10);
    var line := ['-'] + ds;
    assert IsDigitOf(ds[0], 10);
    assert line[1] == ds[0];
    forall k | 0 <= k < |line| ensures line[k] != '\0' {
      if k > 0 {
        assert line[k] == ds[k - 1];
        assert IsDigitOf(ds[k - 1], 10);
      }
    }
    DecimalLiteral(['-'], n, true);
    var fits := I64_MIN <= 0 - n <= I64_MAX;
    assert fits <==> n <= 0x8000_0000_0000_0000;
    UnaryMinusBeforeDigit(line, 0, hasNextLine, if fits then IntegerConstant else FloatConstant, |line|);
  }

  // ---------------------------------------------------------------------
  // Literals.

  /** A radix literal lexes as an integer when its value fits in an `i64`
      and as a malformed number carrying its text otherwise. */
  lemma RadixLiteralLexed(pre: seq<char>, n: nat, letter: char, hasNextLine: bool, canBeUnary: bool)
    requires RadixOf(letter).Some?
    requires NoNul(pre + (['0', letter] + ToDigits(n, RadixOf(letter).value)))
    ensures var text := ['0', letter] + ToDigits(n, RadixOf(letter).value);
            LexFrom(pre + text, |pre|, hasNextLine, canBeUnary, false)
              == Lexed(if n <= I64_MAX then IntegerConstant else LexError(MalformedNumber(text)), |pre + text|, Nothing)
  {
    var text := ['0', letter] + ToDigits(n, RadixOf(letter).value);
    assert (pre + text)[|pre|] == '0';
    RadixLiteral(pre, n, letter);
  }

  /** A unary `-` before a radix literal, as the lexer is written: the whole
      text is a malformed number whatever its digits, because the radix
      prefix is cut from the text after the `-` was put in front of it. */
  lemma NegatedRadixLexed(letter: char, ds: seq<char>, hasNextLine: bool)
    requires RadixOf(letter).Some? && AllDigitsOf(ds, RadixOf(letter).value)
    ensures var line := "-" + ['0', letter] + ds;
            && NoNul(line)
            && LexFrom(line, 0, hasNextLine, true, false) == Lexed(LexError(MalformedNumber(line)), |line|, Nothing)
  {
    var radix := RadixOf(letter).value;
    var line := "-" + ['0', letter] + ds;
    forall k | 0 <= k < |line| ensures line[k] != '\0' {
      if k > 2 {
        assert line[k] == ds[k - 3];
        assert IsDigitOf(ds[k - 3], radix);
      }
    }
    NegatedRadixNumber(letter, ds);
    UnaryMinusBeforeDigit(line, 0, hasNextLine, LexError(MalformedNumber(line)), |line|);
  }

  /** The instance `-0x10`: a malformed number, where the intended reading is
      the integer -16. */
  lemma NegatedHexLexed(hasNextLine: bool)
    ensures LexFrom("-0x10", 0, hasNextLine, true, false) == Lexed(LexError(MalformedNumber("-0x10")), 5, Nothing)
  {
    assert AllDigitsOf("10", 16) by {
      assert IsDigitOf('1', 16) && IsDigitOf('0', 16);
    }
    NegatedRadixLexed('x', "10", hasNextLine);
    assert "-" + ['0', 'x'] + "10" == "-0x10";
  }

  /** The body of a string literal, each logical character written plainly
      or escaped, lexes as one string constant ending after the closing quote. */
  lemma StringLiteralLexed(pre: seq<char>, us: seq<Unit>, post: seq<char>, hasNextLine: bool, canBeUnary: bool)
    requires StringLiteral.AllWellFormed(us, '"')
    requires NoNul(pre + ['"'] + Body(us) + ['"'] + post)
    ensures LexFrom(pre + ['"'] + Body(us) + ['"'] + post, |pre|, hasNextLine, canBeUnary, false)
         == Lexed(StringConst, |pre| + |Body(us)| + 2, Nothing)
  {
    var line := pre + ['"'] + Body(us) + ['"'] + post;
    assert line[|pre|] == '"';
    ScanRoundTrip(pre + ['"'], us, '"', post);
    assert pre + ['"'] + Body(us) + ['"'] + post == line;
  }

  /** The source's assertion that a character literal's count is 1 cannot
      fail: a scan that succeeds after a quote not followed by another quote
      counts at least one character. */
  lemma CharCountPositive(line: seq<char>, i: nat, hasNextLine: bool)
    requires i < |line| && LookAhead(line, i + 1, hasNextLine) != '\''
    ensures var s := ScanString(line, i + 1, '\'', false, 0);
            s.result.Ok? ==> s.result.value >= 1
  {
    ScanStringBounds(line, i + 1, '\'', false, 0);
  }

  /** A character literal holding one logical character is a character
      constant; one holding more is a malformed character; the error or
      constant ends after the closing quote. */
  lemma CharLiteralLexed(pre: seq<char>, us: seq<Unit>, post: seq<char>, hasNextLine: bool, canBeUnary: bool)
    requires us != [] && StringLiteral.AllWellFormed(us, '\'')
    requires NoNul(pre + ['\''] + Body(us) + ['\''] + post)
    ensures LexFrom(pre + ['\''] + Body(us) + ['\''] + post, |pre|, hasNextLine, canBeUnary, false)
         == Lexed(if |us| == 1 then CharConstant else LexError(MalformedChar), |pre| + |Body(us)| + 2, Nothing)
  {
    var line := pre + ['\''] + Body(us) + ['\''] + post;
    assert line[|pre|] == '\'';
    assert Body(us) == Encode(us[0]) + Body(us[1..]);
    assert StringLiteral.WellFormed(us[0], '\'');
    assert line[|pre| + 1] == Body(us)[0];
    ScanRoundTrip(pre + ['\''], us, '\'', post);
    assert pre + ['\''] + Body(us) + ['\''] + post == line;
  }

  /** Two quotes in a row are a malformed character covering the first. */
  lemma EmptyCharLiteral(line: seq<char>, i: nat, hasNextLine: bool, canBeUnary: bool)
    requires NoNul(line) && PrefixAt(line, i, ['\'', '\''])
    ensures LexFrom(line, i, hasNextLine, canBeUnary, false) == Lexed(LexError(MalformedChar), i + 1, Nothing)
  {
    PrefixAtIndex(line, i, ['\'', '\''], 0);
    PrefixAtIndex(line, i, ['\'', '\''], 1);
  }

  /** A keyword followed by anything but an identifier character is that
      keyword's token. */
  lemma KeywordLexed(pre: seq<char>, k: Token, post: seq<char>, hasNextLine: bool, canBeUnary: bool)
    requires IsKeywordToken(k) && (post == [] || !IsIdentChar(post[0]))
    requires NoNul(pre + KeywordText(k) + post)
    ensures LexFrom(pre + KeywordText(k) + post, |pre|, hasNextLine, canBeUnary, false)
         == Lexed(k, |pre| + |KeywordText(k)|, Nothing)
  {
    KeywordLexes(pre, k, post);
    IdentifierLexed(pre + KeywordText(k) + post, |pre|, hasNextLine, canBeUnary, false);
  }

  // ---------------------------------------------------------------------
  // Comments.

  /** A block comment that the line does not close: the token covers the
      rest of the line and the level left open is persisted. */
  lemma BlockCommentLeftOpenLexed(ps: seq<Piece>, hasNextLine: bool, canBeUnary: bool)
    requires BlockComment.AllWellFormed(ps) && StaysOpen(ps, 1)
    requires NoNul(['/', '*'] + Render(ps))
    ensures 1 + Net(ps) > 0
    ensures LexFrom(['/', '*'] + Render(ps), 0, hasNextLine, canBeUnary, false)
         == Lexed(BlockComment, 2 + |Render(ps)|, BlockCommentOpen(1 + Net(ps)))
  {
    CommentLeftOpen(['/', '*'], ps, 1);
    BlockCommentEndsAt(['/', '*'] + Render(ps), 1 + Net(ps), 2 + |Render(ps)|, hasNextLine, canBeUnary);
  }

  /** A block comment closed on its own line: the token ends just after the
      closer, with nothing left to resume. */
  lemma BlockCommentClosedLexed(ps: seq<Piece>, post: seq<char>, hasNextLine: bool, canBeUnary: bool)
    requires BlockComment.AllWellFormed(ps) && StaysOpen(ps, 1) && Net(ps) == 0
    requires NoNul(['/', '*'] + Render(ps) + ['*', '/'] + post)
    ensures LexFrom(['/', '*'] + Render(ps) + ['*', '/'] + post, 0, hasNextLine, canBeUnary, false)
         == Lexed(BlockComment, 4 + |Render(ps)|, Nothing)
  {
    var line := ['/', '*'] + Render(ps) + ['*', '/'] + post;
    PrefixAtConcat(['/', '*'], Render(ps) + ['*', '/'], post);
    assert ['/', '*'] + (Render(ps) + ['*', '/']) + post == line;
    CommentCloses(line, 2, ps, 1);
    BlockCommentEndsAt(line, 0, 4 + |Render(ps)|, hasNextLine, canBeUnary);
  }

  /** A block comment at the start of a line is one token ending where its
      scan ends, leaving the level the scan reached to resume. */
  lemma BlockCommentEndsAt(line: seq<char>, level: nat, end: nat, hasNextLine: bool, canBeUnary: bool)
    requires 1 < |line| && NoNul(line) && line[0] == '/' && line[1] == '*'
    requires BlockScan(line, 2, 1) == CommentScan(level, end)
    ensures LexFrom(line, 0, hasNextLine, canBeUnary, false)
         == Lexed(BlockComment, end, if level == 0 then Nothing else BlockCommentOpen(level))
  {
    BlockCommentStartLexed(line, 0, hasNextLine, canBeUnary, false);
  }

  /** On a later line a comment left open is resumed: it closes at the closer
      that brings the level to 0, or stays open to the end of the line. Even
      an empty line yields a block-comment token. */
  lemma BlockCommentResumed(ps: seq<Piece>, level: nat, post: seq<char>, hasNextLine: bool, canBeUnary: bool)
    requires BlockComment.AllWellFormed(ps) && level > 0 && StaysOpen(ps, level)
    requires NoNul(Render(ps) + ['*', '/'] + post)
    ensures level + Net(ps) > 0
    ensures NoNul(Render(ps)) && Lex(Render(ps), 0, hasNextLine, canBeUnary, BlockCommentOpen(level))
         == Lexed(BlockComment, |Render(ps)|, BlockCommentOpen(level + Net(ps)))
    ensures level + Net(ps) == 1 ==>
              Lex(Render(ps) + ['*', '/'] + post, 0, hasNextLine, canBeUnary, BlockCommentOpen(level))
                == Lexed(BlockComment, |Render(ps)| + 2, Nothing)
  {
    var line := Render(ps) + ['*', '/'] + post;
    forall k | 0 <= k < |Render(ps)| ensures Render(ps)[k] != '\0' {
      assert Render(ps)[k] == line[k];
    }
    CommentLeftOpen([], ps, level);
    assert [] + Render(ps) == Render(ps);
    if level + Net(ps) == 1 {
      PrefixAtConcat([], Render(ps) + ['*', '/'], post);
      assert [] + (Render(ps) + ['*', '/']) + post == line;
      CommentCloses(line, 0, ps, level);
    }
  }

  /** A line comment takes the rest of the line. */
  lemma LineCommentLexed(line: seq<char>, i: nat, hasNextLine: bool, canBeUnary: bool)
    requires NoNul(line) && PrefixAt(line, i, ['/', '/'])
    ensures LexFrom(line, i, hasNextLine, canBeUnary, false) == Lexed(LineComment, |line|, Nothing)
  {
    PrefixAtIndex(line, i, ['/', '/'], 0);
    PrefixAtIndex(line, i, ['/', '/'], 1);
  }

  // ---------------------------------------------------------------------
  // Whitespace and end of input.

  /** End of input is reported exactly when only whitespace is left. */
  lemma {:induction false} EndOfInputOnlyAfterWhitespace(line: seq<char>, i: nat, hasNextLine: bool, canBeUnary: bool, negated: bool)
    requires i <= |line| && NoNul(line)
    decreases |line| - i
    ensures LexFrom(line, i, hasNextLine, canBeUnary, negated).token.EOF?
        <==> forall k :: i <= k < |line| ==> IsWhitespace(line[k])
  {
    if i < |line| {
      if IsWhitespace(line[i]) {
        WhitespaceSkipped(line, i, hasNextLine, canBeUnary, negated);
        EndOfInputOnlyAfterWhitespace(line, i + 1, hasNextLine, canBeUnary, negated);
        assert (forall k :: i <= k < |line| ==> IsWhitespace(line[k]))
           <==> (forall k :: i + 1 <= k < |line| ==> IsWhitespace(line[k]));
      } else {
        TokenAtNonWhitespace(line, i, hasNextLine, canBeUnary, negated);
      }
    } else {
      assert LexFrom(line, i, hasNextLine, canBeUnary, negated) == Lexed(EOF, i, Nothing);
    }
  }

  /** A character that is not whitespace yields a token that is not end of
      input: only a unary `-` moves on without one, and a digit follows it. */
  lemma TokenAtNonWhitespace(line: seq<char>, i: nat, hasNextLine: bool, canBeUnary: bool, negated: bool)
    requires NoNul(line) && i < |line| && !IsWhitespace(line[i])
    ensures !LexFrom(line, i, hasNextLine, canBeUnary, negated).token.EOF?
  {
    var s := LexAt(line, i, hasNextLine, canBeUnary, negated);
    if s.Advance? {
      assert IsAsciiDigit(line[i + 1]);
      assert LexAt(line, i + 1, hasNextLine, canBeUnary, s.negated).Done?;
    }
  }

  /** Whitespace before a token is skipped, keeping a pending unary minus. */
  lemma WhitespaceSkipped(line: seq<char>, i: nat, hasNextLine: bool, canBeUnary: bool, negated: bool)
    requires NoNul(line) && i < |line| && IsWhitespace(line[i])
    ensures LexFrom(line, i, hasNextLine, canBeUnary, negated) == LexFrom(line, i + 1, hasNextLine, canBeUnary, negated)
  {
    DispatchSkipsWhitespace(line[i], LookAhead(line, i + 1, hasNextLine), canBeUnary);
    var step := LexAt(line, i, hasNextLine, canBeUnary, negated);
    assert step == Advance(negated);
    LexFromStep(line, i, hasNextLine, canBeUnary, negated, step);
  }
}
