/** The Rhai lexer's driver (src/cm_rhai_mode/token.rs, `next_token_inner`
    and `next_token`): resuming a block comment left open on an earlier line,
    the main loop that skips whitespace and dispatches on the current
    character and the one after it, and the state the lexer keeps between
    calls. */
module Lexer {
  import opened Base
  import opened Tokens
  import opened HostStream
  import opened StringLiteral
  import opened BlockComment
  import opened Numbers
  import opened Identifiers

  /** The source reaches an unreachable arm on a NUL character. */
  predicate NoNul(line: seq<char>) {
    forall k :: 0 <= k < |line| ==> line[k] != '\0'
  }

  /** The character after the cursor as the dispatch sees it: the next
      character of the line; at the end of the line a newline when another
      line follows, else NUL. */
  function LookAhead(line: seq<char>, j: nat, hasNextLine: bool): (c: char)
    requires j <= |line|
    ensures c != '\n' && c != '\0' ==> j < |line| && line[j] == c
  {
    if j < |line| then line[j] else if hasNextLine then '\n' else '\0'
  }

  /** What an arm of the dispatch does. */
  datatype Action =
    | Emit(token: Token, width: nat)             // the token, after `width` characters
    | EqualsLike(token: Token, message: SymbolMessage)  // `==` or `!=`, rejected when a third `=` follows
    | ShiftLike(token: Token, assign: Token)     // `<<` or `>>`, an assignment when `=` follows
    | NegateNext                                 // a unary `-` folded into the number after it
    | LineCommentStart
    | BlockCommentStart
    | Skip                                       // whitespace
    | Unexpected

  /** The arm reads the character after the current one. */
  predicate TakesSecond(a: Action) {
    (a.Emit? && a.width == 2) || a.EqualsLike? || a.ShiftLike? || a.BlockCommentStart?
  }

  /** What every arm promises: a token is one or two characters wide and
      never the end of input, and an arm reads the look-ahead only when it is
      a character of the line. */
  predicate ArmOk(a: Action, la: char) {
    && (a.Emit? ==> (a.width == 1 || a.width == 2) && !a.token.EOF?)
    && (a.EqualsLike? ==> !a.token.EOF?)
    && (a.ShiftLike? ==> !a.token.EOF? && !a.assign.EOF?)
    && (TakesSecond(a) ==> la != '\n' && la != '\0')
    && (a.NegateNext? ==> IsAsciiDigit(la))
    && !a.Skip?
  }

  /** The arms of the dispatch on (current character, look-ahead) that
      follow the literal and identifier arms. The source's arms for one
      character are contiguous and in order; each group is one function
      below. */
  function Dispatch(c: char, la: char, canBeUnary: bool): (a: Action)
    requires c != '\0'
    ensures a.Skip? ==> IsWhitespace(c)
    ensures a.Skip? || ArmOk(a, la)
  {
    if c == '{' then Emit(LeftBrace, 1)
    else if c == '}' then Emit(RightBrace, 1)
    else if c == '(' then Emit(LeftParen, 1)
    else if c == ')' then Emit(RightParen, 1)
    else if c == '[' then Emit(LeftBracket, 1)
    else if c == ']' then Emit(RightBracket, 1)
    else if c == '#' && la == '{' then Emit(MapStart, 2)
    else if c == '+' then PlusArms(la, canBeUnary)
    else if c == '-' then MinusArms(la, canBeUnary)
    else if c == '*' then AssignOr(la, Multiply, MultiplyAssign)
    else if c == '/' then SlashArms(la)
    else if c == ';' then Emit(SemiColon, 1)
    else if c == ',' then Emit(Comma, 1)
    else if c == '.' then Emit(Period, 1)
    else if c == '=' then EqualsArms(la)
    else if c == ':' then ColonArms(la)
    else if c == '<' then LessArms(la)
    else if c == '>' then GreaterArms(la)
    else if c == '!' then
      (if la == '=' then EqualsLike(NotEqualsTo, BangDoubleEqualsMessage) else Emit(Bang, 1))
    else if c == '|' then DoubleOrAssign(la, '|', Pipe, Or, OrAssign)
    else if c == '&' then DoubleOrAssign(la, '&', Ampersand, And, AndAssign)
    else if c == '^' then AssignOr(la, XOr, XOrAssign)
    else if c == '%' then AssignOr(la, Modulo, ModuloAssign)
    else if c == '~' then AssignOr(la, PowerOf, PowerOfAssign)
    else if IsWhitespace(c) then Skip
    else Unexpected
  }

  /** Whitespace, and only whitespace, is skipped. */
  lemma DispatchSkipsWhitespace(c: char, la: char, canBeUnary: bool)
    requires c != '\0'
    ensures Dispatch(c, la, canBeUnary) == Skip <==> IsWhitespace(c)
  {
    if IsWhitespace(c) {
      assert c < '!' || '~' < c;
    }
  }

  /** `op=` before `=`, else `op`. */
  function AssignOr(la: char, op: Token, assign: Token): (a: Action)
    requires !op.EOF? && !assign.EOF?
    ensures ArmOk(a, la)
  {
    if la == '=' then Emit(assign, 2) else Emit(op, 1)
  }

  /** `||` or `&&` before the same character, `|=` or `&=` before `=`, else
      the single character. */
  function DoubleOrAssign(la: char, c: char, single: Token, double: Token, assign: Token): (a: Action)
    requires c != '\n' && c != '\0'
    requires !single.EOF? && !double.EOF? && !assign.EOF?
    ensures ArmOk(a, la)
  {
    if la == c then Emit(double, 2)
    else if la == '=' then Emit(assign, 2)
    else Emit(single, 1)
  }

  /** The arms for `+`. */
  function PlusArms(la: char, canBeUnary: bool): (a: Action)
    ensures ArmOk(a, la)
    ensures a.Emit? && (a.token == UnaryPlus <==> canBeUnary && la != '=')
  {
    if la == '=' then Emit(PlusAssign, 2)
    else if canBeUnary then Emit(UnaryPlus, 1)
    else Emit(Plus, 1)
  }

  /** The arms for `-`. */
  function MinusArms(la: char, canBeUnary: bool): (a: Action)
    ensures ArmOk(a, la)
    ensures a.NegateNext? <==> canBeUnary && IsAsciiDigit(la)
    ensures a == Emit(UnaryMinus, 1) <==> canBeUnary && !IsAsciiDigit(la) && la != '=' && la != '>'
  {
    if IsAsciiDigit(la) && canBeUnary then NegateNext
    else if IsAsciiDigit(la) then Emit(Minus, 1)
    else if la == '=' then Emit(MinusAssign, 2)
    else if la == '>' then Emit(LexError(ImproperSymbol(ArrowMessage)), 1)
    else if canBeUnary then Emit(UnaryMinus, 1)
    else Emit(Minus, 1)
  }

  /** The arms for `/`. */
  function SlashArms(la: char): (a: Action)
    ensures ArmOk(a, la)
    ensures a.LineCommentStart? <==> la == '/'
    ensures a.BlockCommentStart? <==> la == '*'
  {
    if la == '/' then LineCommentStart
    else if la == '*' then BlockCommentStart
    else if la == '=' then Emit(DivideAssign, 2)
    else Emit(Divide, 1)
  }

  /** The arms for `=`. */
  function EqualsArms(la: char): (a: Action)
    ensures ArmOk(a, la)
    ensures a.EqualsLike? <==> la == '='
    ensures a.Emit? && a.token.LexError? <==> la == '>'
  {
    if la == '=' then EqualsLike(EqualsTo, TripleEqualsMessage)
    else if la == '>' then Emit(LexError(ImproperSymbol(FatArrowMessage)), 1)
    else Emit(Equals, 1)
  }

  /** The arms for `:`. */
  function ColonArms(la: char): (a: Action)
    ensures ArmOk(a, la)
    ensures a.Emit? && (a.token == DoubleColon <==> la == ':')
    ensures a.token.LexError? <==> la == '='
  {
    if la == ':' then Emit(DoubleColon, 2)
    else if la == '=' then Emit(LexError(ImproperSymbol(PascalAssignMessage)), 1)
    else Emit(Colon, 1)
  }

  /** The arms for `<`. */
  function LessArms(la: char): (a: Action)
    ensures ArmOk(a, la)
    ensures a.ShiftLike? <==> la == '<'
    ensures a.Emit? && a.token.LexError? <==> la == '-'
  {
    if la == '=' then Emit(LessThanEqualsTo, 2)
    else if la == '-' then Emit(LexError(ImproperSymbol(LeftArrowMessage)), 1)
    else if la == '<' then ShiftLike(LeftShift, LeftShiftAssign)
    else Emit(LessThan, 1)
  }

  /** The arms for `>`. */
  function GreaterArms(la: char): (a: Action)
    ensures ArmOk(a, la)
    ensures a.ShiftLike? <==> la == '>'
    ensures a.Emit? && a.width == 2 <==> la == '='
  {
    if la == '=' then Emit(GreaterThanEqualsTo, 2)
    else if la == '>' then ShiftLike(RightShift, RightShiftAssign)
    else Emit(GreaterThan, 1)
  }

  /** The outcome of one call: the token, the index just past the last
      character read, and what is left to resume on the next call. */
  datatype Lexed = Lexed(token: Token, end: nat, pending: InBetween)

  /** One turn of the main loop: a token, or on to the next character
      (carrying whether a unary `-` is to be folded into a number). */
  datatype Step = Done(lexed: Lexed) | Advance(negated: bool)

  predicate PendingValid(p: InBetween) {
    p.BlockCommentOpen? ==> p.level > 0
  }

  /** The state a block-comment scan leaves to the next call. */
  function PendingOf(s: CommentScan): (p: InBetween)
    ensures PendingValid(p)
    ensures p.Nothing? <==> s.level == 0
  {
    if s.level == 0 then Nothing else BlockCommentOpen(s.level)
  }

  /** The symbol, comment and whitespace arms at index `i`. */
  function SymbolStep(line: seq<char>, i: nat, hasNextLine: bool, canBeUnary: bool, negated: bool): (s: Step)
    requires i < |line| && line[i] != '\0'
    ensures s.Done? ==> i < s.lexed.end <= |line| && PendingValid(s.lexed.pending) && !s.lexed.token.EOF?
    ensures s.Advance? ==> IsWhitespace(line[i]) || (i + 1 < |line| && IsAsciiDigit(line[i + 1]) && s.negated)
  {
    var a := Dispatch(line[i], LookAhead(line, i + 1, hasNextLine), canBeUnary);
    match a
    case Emit(t, w) => Done(Lexed(t, i + w, Nothing))
    case EqualsLike(t, m) =>
      if i + 2 < |line| && line[i + 2] == '=' then Done(Lexed(LexError(ImproperSymbol(m)), i + 2, Nothing))
      else Done(Lexed(t, i + 2, Nothing))
    case ShiftLike(t, ta) =>
      if i + 2 < |line| && line[i + 2] == '=' then Done(Lexed(ta, i + 3, Nothing))
      else Done(Lexed(t, i + 2, Nothing))
    case NegateNext => Advance(true)
    case LineCommentStart => Done(Lexed(LineComment, |line|, Nothing))
    case BlockCommentStart =>
      var s := BlockScan(line, i + 2, 1);
      Done(Lexed(BlockComment, s.end, PendingOf(s)))
    case Skip => Advance(negated)
    case Unexpected => Done(Lexed(LexError(UnexpectedChar(line[i])), i + 1, Nothing))
  }

  /** The token of a character literal from the scan of its body. */
  function CharToken(r: Result<nat, LexError>): (t: Token)
    ensures t == CharConstant <==> r.Ok? && r.value <= 1
    ensures r.Err? ==> t == LexError(r.error)
    ensures r.Ok? && r.value > 1 ==> t == LexError(MalformedChar)
  {
    match r
    case Err(e) => LexError(e)
    case Ok(n) => if n > 1 then LexError(MalformedChar) else CharConstant
  }

  /** One turn of the main loop on the character at `i`, in the order of the
      source's arms. */
  function LexAt(line: seq<char>, i: nat, hasNextLine: bool, canBeUnary: bool, negated: bool): (s: Step)
    requires i < |line| && line[i] != '\0'
    ensures s.Done? ==> i < s.lexed.end <= |line| && PendingValid(s.lexed.pending) && !s.lexed.token.EOF?
    ensures s.Advance? ==> IsWhitespace(line[i]) || (i + 1 < |line| && IsAsciiDigit(line[i + 1]) && s.negated)
  {
    var c := line[i];
    if c == '\n' then Advance(negated)
    else if IsAsciiDigit(c) then
      var n := LexNumber(line, i, negated);
      Done(Lexed(n.0, n.1, Nothing))
    else if IsIdentStart(c) then
      var n := LexIdentifier(line, i);
      Done(Lexed(n.0, n.1, Nothing))
    else if c == '"' || c == '\'' then Done(QuoteStep(line, i, hasNextLine))
    else SymbolStep(line, i, hasNextLine, canBeUnary, negated)
  }

  /** The string and character literal arms at index `i`. */
  function QuoteStep(line: seq<char>, i: nat, hasNextLine: bool): (l: Lexed)
    requires i < |line| && (line[i] == '"' || line[i] == '\'')
    ensures i < l.end <= |line| && l.pending.Nothing? && !l.token.EOF?
  {
    if line[i] == '"' then
      var s := ScanString(line, i + 1, '"', false, 0);
      Lexed(if s.result.Ok? then StringConst else LexError(s.result.error), s.end, Nothing)
    else if LookAhead(line, i + 1, hasNextLine) == '\'' then
      Lexed(LexError(MalformedChar), i + 1, Nothing)
    else
      var s := ScanString(line, i + 1, '\'', false, 0);
      Lexed(CharToken(s.result), s.end, Nothing)
  }

  /** The main loop from index `i`, with no comment to resume: the first
      token found, or end of input once the line is exhausted. */
  function LexFrom(line: seq<char>, i: nat, hasNextLine: bool, canBeUnary: bool, negated: bool): (r: Lexed)
    requires i <= |line| && NoNul(line)
    decreases |line| - i
    ensures i <= r.end <= |line| && PendingValid(r.pending)
    ensures i < |line| ==> i < r.end
    ensures r.token.EOF? ==> r.end == |line| && r.pending.Nothing?
  {
    if i == |line| then Lexed(EOF, i, Nothing)
    else
      match LexAt(line, i, hasNextLine, canBeUnary, negated)
      case Done(l) => l
      case Advance(n) => LexFrom(line, i + 1, hasNextLine, canBeUnary, n)
  }

  /** LexFrom at `i` in terms of the turn of the loop there. */
  lemma LexFromStep(line: seq<char>, i: nat, hasNextLine: bool, canBeUnary: bool, negated: bool, step: Step)
    requires i < |line| && NoNul(line) && step == LexAt(line, i, hasNextLine, canBeUnary, negated)
    ensures step.Done? ==> LexFrom(line, i, hasNextLine, canBeUnary, negated) == step.lexed
    ensures step.Advance? ==> LexFrom(line, i, hasNextLine, canBeUnary, negated)
                                == LexFrom(line, i + 1, hasNextLine, canBeUnary, step.negated)
  {
  }

  /** A letter or `_` starts an identifier, whatever came before. */
  lemma IdentifierLexed(line: seq<char>, i: nat, hasNextLine: bool, canBeUnary: bool, negated: bool)
    requires i < |line| && NoNul(line) && IsIdentStart(line[i])
    ensures var n := LexIdentifier(line, i);
            LexFrom(line, i, hasNextLine, canBeUnary, negated) == Lexed(n.0, n.1, Nothing)
  {
    var n := LexIdentifier(line, i);
    assert LexAt(line, i, hasNextLine, canBeUnary, negated) == Done(Lexed(n.0, n.1, Nothing));
    LexFromStep(line, i, hasNextLine, canBeUnary, negated, Done(Lexed(n.0, n.1, Nothing)));
  }

  /** Slash-star opens a block comment, whatever came before; the token runs
      to where the comment closes or to the end of the line. */
  lemma BlockCommentStartLexed(line: seq<char>, i: nat, hasNextLine: bool, canBeUnary: bool, negated: bool)
    requires i + 1 < |line| && NoNul(line) && line[i] == '/' && line[i + 1] == '*'
    ensures var s := BlockScan(line, i + 2, 1);
            LexFrom(line, i, hasNextLine, canBeUnary, negated) == Lexed(BlockComment, s.end, PendingOf(s))
  {
    assert Dispatch('/', LookAhead(line, i + 1, hasNextLine), canBeUnary) == BlockCommentStart;
    var s := BlockScan(line, i + 2, 1);
    var step := Done(Lexed(BlockComment, s.end, PendingOf(s)));
    assert LexAt(line, i, hasNextLine, canBeUnary, negated) == step;
    LexFromStep(line, i, hasNextLine, canBeUnary, negated, step);
  }

  /** `==` and `!=` look at a third character: an error covering the first
      two characters when it is `=`, the comparison operator otherwise. */
  lemma ComparisonLexed(line: seq<char>, i: nat, hasNextLine: bool, canBeUnary: bool)
    requires i + 1 < |line| && NoNul(line) && (line[i] == '=' || line[i] == '!') && line[i + 1] == '='
    ensures var t := if line[i] == '=' then EqualsTo else NotEqualsTo;
            var m := if line[i] == '=' then TripleEqualsMessage else BangDoubleEqualsMessage;
            LexFrom(line, i, hasNextLine, canBeUnary, false)
              == if i + 2 < |line| && line[i + 2] == '=' then Lexed(LexError(ImproperSymbol(m)), i + 2, Nothing)
                 else Lexed(t, i + 2, Nothing)
  {
    assert LookAhead(line, i + 1, hasNextLine) == '=';
    if line[i] == '=' {
      assert Dispatch('=', '=', canBeUnary) == EqualsLike(EqualsTo, TripleEqualsMessage);
    } else {
      assert Dispatch('!', '=', canBeUnary) == EqualsLike(NotEqualsTo, BangDoubleEqualsMessage);
    }
    SymbolLexed(line, i, hasNextLine, canBeUnary, false);
  }

  /** A character that starts none of the newline, number, identifier and
      quote arms goes to the symbol dispatch. */
  lemma SymbolLexed(line: seq<char>, i: nat, hasNextLine: bool, canBeUnary: bool, negated: bool)
    requires i < |line| && NoNul(line)
    requires line[i] != '\n' && !IsAsciiDigit(line[i]) && !IsIdentStart(line[i])
    requires line[i] != '"' && line[i] != '\''
    ensures var step := SymbolStep(line, i, hasNextLine, canBeUnary, negated);
            step.Done? ==> LexFrom(line, i, hasNextLine, canBeUnary, negated) == step.lexed
  {
    var step := SymbolStep(line, i, hasNextLine, canBeUnary, negated);
    assert LexAt(line, i, hasNextLine, canBeUnary, negated) == step;
    LexFromStep(line, i, hasNextLine, canBeUnary, negated, step);
  }

  /** `next_token_inner`: resume a block comment left open, or run the main
      loop. */
  function Lex(line: seq<char>, i: nat, hasNextLine: bool, canBeUnary: bool, pending: InBetween): (r: Lexed)
    requires i <= |line| && NoNul(line) && PendingValid(pending)
    ensures i <= r.end <= |line| && PendingValid(r.pending)
    ensures i < |line| ==> i < r.end
  {
    match pending
    case BlockCommentOpen(level) =>
      var s := BlockScan(line, i, level);
      BlockScanStops(line, i, level);
      Lexed(BlockComment, s.end, PendingOf(s))
    case Nothing => LexFrom(line, i, hasNextLine, canBeUnary, false)
  }

  // ---------------------------------------------------------------------
  // The lexer on the stream.

  /** `State`: what the lexer keeps between calls. */
  class LexerState {
    var canBeUnary: bool
    var inBetween: InBetween

    predicate Valid()
      reads this
    {
      PendingValid(inBetween)
    }

    /** `State::new()` */
    constructor ()
      ensures Valid()
      ensures canBeUnary && inBetween == Nothing
    {
      canBeUnary := true;
      inBetween := Nothing;
    }

    /** `next_token_inner`: one token from the stream. */
    method NextTokenInner(stream: StringStream) returns (tok: Token)
      requires Valid() && stream.Valid() && NoNul(stream.line)
      modifies this`inBetween, stream`pos
      ensures Valid() && stream.Valid()
      ensures Lexed(tok, stream.pos, inBetween)
           == Lex(stream.line, old(stream.pos), stream.hasNextLine, canBeUnary, old(inBetween))
    {
      if inBetween.BlockCommentOpen? {
        tok := ResumeBlockComment(stream);
      } else {
        tok := MainLoop(stream);
      }
    }

    /** The block comment left open on an earlier line, resumed. */
    method ResumeBlockComment(stream: StringStream) returns (tok: Token)
      requires Valid() && stream.Valid() && inBetween.BlockCommentOpen?
      modifies this`inBetween, stream`pos
      ensures Valid() && stream.Valid()
      ensures var s := BlockScan(stream.line, old(stream.pos), old(inBetween).level);
              tok == BlockComment && stream.pos == s.end && inBetween == PendingOf(s)
    {
      var level := SkipBlockComment(stream, inBetween.level);
      if level != 0 {
        inBetween := BlockCommentOpen(level);
      } else {
        inBetween := Nothing;
      }
      return BlockComment;
    }

    /** The main loop: skip to the first token, or to the end of the line. */
    method MainLoop(stream: StringStream) returns (tok: Token)
      requires Valid() && stream.Valid() && NoNul(stream.line) && inBetween.Nothing?
      modifies this`inBetween, stream`pos
      ensures Valid() && stream.Valid()
      ensures Lexed(tok, stream.pos, inBetween)
           == LexFrom(stream.line, old(stream.pos), stream.hasNextLine, canBeUnary, false)
    {
      ghost var start := stream.pos;
      var negated := false;
      while true
        invariant stream.Valid() && start <= stream.pos && inBetween == Nothing
        invariant LexFrom(stream.line, start, stream.hasNextLine, canBeUnary, false)
               == LexFrom(stream.line, stream.pos, stream.hasNextLine, canBeUnary, negated)
        decreases |stream.line| - stream.pos
      {
        var done, l, n := Turn(stream, canBeUnary, negated);
        if done {
          if l.pending.BlockCommentOpen? {
            inBetween := l.pending;
          }
          return l.token;
        }
        negated := n;
      }
    }

    /** `next_token`: one token, after which a `+` or `-` is unary exactly
        when `is_next_unary` holds of that token. */
    method NextToken(stream: StringStream) returns (tok: Token)
      requires Valid() && stream.Valid() && NoNul(stream.line)
      modifies this, stream`pos
      ensures Valid() && stream.Valid()
      ensures Lexed(tok, stream.pos, inBetween)
           == Lex(stream.line, old(stream.pos), stream.hasNextLine, old(canBeUnary), old(inBetween))
      ensures canBeUnary == IsNextUnary(tok)
    {
      tok := NextTokenInner(stream);
      canBeUnary := IsNextUnary(tok);
    }
  }

  /** One turn of the main loop on the stream: read a character and act on
      it; at the end of the line, end of input. */
  method Turn(stream: StringStream, canBeUnary: bool, negated: bool) returns (done: bool, l: Lexed, negated': bool)
    requires stream.Valid() && NoNul(stream.line)
    modifies stream`pos
    ensures stream.Valid() && PendingValid(l.pending)
    ensures done ==> l == LexFrom(stream.line, old(stream.pos), stream.hasNextLine, canBeUnary, negated)
                     && stream.pos == l.end
    ensures !done ==> old(stream.pos) < stream.pos
                      && LexFrom(stream.line, old(stream.pos), stream.hasNextLine, canBeUnary, negated)
                         == LexFrom(stream.line, stream.pos, stream.hasNextLine, canBeUnary, negated')
  {
    ghost var at := stream.pos;
    var c := stream.Next();
    if c.None? {
      return true, Lexed(EOF, stream.pos, Nothing), negated;
    }
    var step := LexChar(stream, c.value, canBeUnary, negated);
    LexFromStep(stream.line, at, stream.hasNextLine, canBeUnary, negated, step);
    match step
    case Done(r) =>
      return true, r, negated;
    case Advance(n) =>
      return false, Lexed(EOF, stream.pos, Nothing), n;
  }

  /** One turn of the main loop on the stream: `c` has just been read. */
  method LexChar(stream: StringStream, c: char, canBeUnary: bool, negated: bool) returns (step: Step)
    requires stream.Valid() && 0 < stream.pos && stream.line[stream.pos - 1] == c && NoNul(stream.line)
    modifies stream`pos
    ensures stream.Valid()
    ensures step == LexAt(stream.line, old(stream.pos) - 1, stream.hasNextLine, canBeUnary, negated)
    ensures stream.pos == if step.Done? then step.lexed.end else old(stream.pos)
  {
    var p := stream.Peek();
    var la := if p.Some? then p.value else if stream.hasNextLine then '\n' else '\0';
    if c == '\n' {
      step := Advance(negated);
    } else if IsAsciiDigit(c) {
      var t := ScanNumber(stream, c, negated);
      step := Done(Lexed(t, stream.pos, Nothing));
    } else if IsIdentStart(c) {
      var t := ScanIdentifier(stream, c);
      step := Done(Lexed(t, stream.pos, Nothing));
    } else if c == '"' {
      var r := ParseStringLiteral(stream, '"');
      step := Done(Lexed(if r.Ok? then StringConst else LexError(r.error), stream.pos, Nothing));
    } else if c == '\'' && la == '\'' {
      step := Done(Lexed(LexError(MalformedChar), stream.pos, Nothing));
    } else if c == '\'' {
      var r := ParseStringLiteral(stream, '\'');
      step := Done(Lexed(CharToken(r), stream.pos, Nothing));
    } else {
      step := LexSymbol(stream, c, la, canBeUnary, negated);
    }
  }

  /** The symbol, comment and whitespace arms on the stream; `la` is the
      look-ahead character. */
  method LexSymbol(stream: StringStream, c: char, la: char, canBeUnary: bool, negated: bool) returns (step: Step)
    requires stream.Valid() && 0 < stream.pos && stream.line[stream.pos - 1] == c && c != '\0'
    requires la == LookAhead(stream.line, stream.pos, stream.hasNextLine)
    modifies stream`pos
    ensures stream.Valid()
    ensures step == SymbolStep(stream.line, old(stream.pos) - 1, stream.hasNextLine, canBeUnary, negated)
    ensures stream.pos == if step.Done? then step.lexed.end else old(stream.pos)
  {
    var a := Dispatch(c, la, canBeUnary);
    match a
    case Emit(t, w) =>
      if w == 2 {
        var _ := stream.Next();
      }
      step := Done(Lexed(t, stream.pos, Nothing));
    case EqualsLike(t, m) =>
      var _ := stream.Next();
      if stream.Peek() == Some('=') {
        step := Done(Lexed(LexError(ImproperSymbol(m)), stream.pos, Nothing));
      } else {
        step := Done(Lexed(t, stream.pos, Nothing));
      }
    case ShiftLike(t, ta) =>
      var _ := stream.Next();
      if stream.Peek() == Some('=') {
        var _ := stream.Next();
        step := Done(Lexed(ta, stream.pos, Nothing));
      } else {
        step := Done(Lexed(t, stream.pos, Nothing));
      }
    case NegateNext =>
      step := Advance(true);
    case LineCommentStart =>
      stream.SkipToEnd();
      step := Done(Lexed(LineComment, stream.pos, Nothing));
    case BlockCommentStart =>
      var _ := stream.Next();
      var level := SkipBlockComment(stream, 1);
      step := Done(Lexed(BlockComment, stream.pos, PendingOf(CommentScan(level, stream.pos))));
    case Skip =>
      step := Advance(negated);
    case Unexpected =>
      step := Done(Lexed(LexError(UnexpectedChar(c)), stream.pos, Nothing));
  }
}
