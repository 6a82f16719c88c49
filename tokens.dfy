/** The token vocabulary of the Rhai lexer (src/cm_rhai_mode/token.rs): the
    payload-free `Token` enum, the `LexError` reasons, the unary/binary
    classification `is_next_unary`, and the fixed keyword table. */
module Tokens {
  import opened Base

  /** Reasons a span of text is not a valid token. Only the variants the lexer
      builds carry text; `MalformedChar` carries nothing, as in the source. */
  datatype LexError =
    | UnexpectedChar(ch: char)
    | UnterminatedString
    | StringTooLong(limit: nat)
    | MalformedEscapeSequence(text: string)
    | MalformedNumber(text: string)
    | MalformedChar
    | MalformedIdentifier(text: string)
    | ImproperSymbol(message: SymbolMessage)

  /** The lexer rejects six look-alike symbols, each with its own fixed
      message; the error names the message and MessageText spells it. */
  datatype SymbolMessage =
    | ArrowMessage | FatArrowMessage | PascalAssignMessage | LeftArrowMessage
    | TripleEqualsMessage | BangDoubleEqualsMessage

  /** The text of each message, as the error displays it. */
  function MessageText(m: SymbolMessage): string {
    match m
    case ArrowMessage => "'->' is not a valid symbol. This is not C or C++!"
    case FatArrowMessage => "'=>' is not a valid symbol. This is not Rust! Should it be '>='?"
    case PascalAssignMessage => "':=' is not a valid assignment operator. This is not Pascal! Should it be simply '='?"
    case LeftArrowMessage => "'<-' is not a valid symbol. Should it be '<='?"
    case TripleEqualsMessage => "'===' is not a valid operator. This is not JavaScript! Should it be '=='?"
    case BangDoubleEqualsMessage => "'!==' is not a valid operator. This is not JavaScript! Should it be '!='?"
  }

  /** Tokens. Literal and identifier payloads are elided, as in the source. */
  datatype Token =
    | IntegerConstant | FloatConstant | Identifier | CharConstant | StringConst
    | LeftBrace | RightBrace | LeftParen | RightParen | LeftBracket | RightBracket
    | Plus | UnaryPlus | Minus | UnaryMinus | Multiply | Divide | Modulo | PowerOf
    | LeftShift | RightShift | SemiColon | Colon | DoubleColon | Comma | Period
    | MapStart | Equals
    | True | False | Let | Const | If | Else | While | Loop | For | In
    | LessThan | GreaterThan | LessThanEqualsTo | GreaterThanEqualsTo
    | EqualsTo | NotEqualsTo | Bang | Pipe | Or | XOr | Ampersand | And
    | Fn | Continue | Break | Return | Throw
    | PlusAssign | MinusAssign | MultiplyAssign | DivideAssign | LeftShiftAssign
    | RightShiftAssign | AndAssign | OrAssign | XOrAssign | ModuloAssign | PowerOfAssign
    | Private | Import | Export | As
    | LineComment | BlockComment
    | LexError(error: LexError)
    | EOF

  /** What the lexer has to resume on its next call. */
  datatype InBetween = Nothing | BlockCommentOpen(level: nat)

  predicate IsOpeningBracket(t: Token) {
    t.LeftBrace? || t.LeftParen? || t.LeftBracket?
  }

  predicate IsClosingBracket(t: Token) {
    t.RightBrace? || t.RightParen? || t.RightBracket?
  }

  predicate IsLiteral(t: Token) {
    t.IntegerConstant? || t.FloatConstant? || t.CharConstant? || t.StringConst?
  }

  predicate IsCompoundAssignment(t: Token) {
    || t.PlusAssign? || t.MinusAssign? || t.MultiplyAssign? || t.DivideAssign?
    || t.LeftShiftAssign? || t.RightShiftAssign? || t.AndAssign? || t.OrAssign?
    || t.XOrAssign? || t.ModuloAssign? || t.PowerOfAssign?
  }

  /** The binary and prefix operators (every operator token that is not a
      bracket, a separator or an assignment). */
  predicate IsOperator(t: Token) {
    || t.Plus? || t.UnaryPlus? || t.Minus? || t.UnaryMinus? || t.Multiply?
    || t.Divide? || t.Modulo? || t.PowerOf? || t.LeftShift? || t.RightShift?
    || t.LessThan? || t.GreaterThan? || t.LessThanEqualsTo? || t.GreaterThanEqualsTo?
    || t.EqualsTo? || t.NotEqualsTo? || t.Bang? || t.Pipe? || t.Or? || t.XOr?
    || t.Ampersand? || t.And?
  }

  /** The tokens the keyword table produces. */
  predicate IsKeywordToken(t: Token) {
    || t.True? || t.False? || t.Let? || t.Const? || t.If? || t.Else? || t.While?
    || t.Loop? || t.For? || t.In? || t.Fn? || t.Continue? || t.Break? || t.Return?
    || t.Throw? || t.Private? || t.Import? || t.Export? || t.As?
  }

  /** `Token::is_next_unary`: true when a `+` or `-` that follows this token
      is a prefix operator. */
  predicate IsNextUnary(t: Token)
    ensures IsNextUnary(t) ==> !IsClosingBracket(t) && !IsLiteral(t) && !t.Identifier? && !t.EOF?
  {
    || t.LexError?
    || t.LeftBrace? || t.LeftParen? || t.LeftBracket?
    || t.Plus? || t.UnaryPlus? || t.Minus? || t.UnaryMinus? || t.Multiply? || t.Divide?
    || t.Colon? || t.Comma? || t.Period? || t.Equals? || t.LessThan? || t.GreaterThan?
    || t.Bang? || t.LessThanEqualsTo? || t.GreaterThanEqualsTo? || t.EqualsTo?
    || t.NotEqualsTo? || t.Pipe? || t.Or? || t.Ampersand? || t.And?
    || t.If? || t.While?
    || t.PlusAssign? || t.MinusAssign? || t.MultiplyAssign? || t.DivideAssign?
    || t.LeftShiftAssign? || t.RightShiftAssign? || t.AndAssign? || t.OrAssign? || t.XOrAssign?
    || t.LeftShift? || t.RightShift? || t.XOr? || t.Modulo? || t.ModuloAssign?
    || t.Return? || t.Throw? || t.PowerOf? || t.In? || t.PowerOfAssign?
    || t.LineComment? || t.BlockComment?
  }

  /** `is_next_unary` holds after every token that can only be followed by an
      operand: errors, openers, operators, compound assignments, the
      separators `:` `,` `.`, the assignment `=` and both comment kinds. */
  lemma IsNextUnaryBeforeOperand(t: Token)
    ensures (t.LexError? || IsOpeningBracket(t) || IsOperator(t) || IsCompoundAssignment(t)
             || t.LineComment? || t.BlockComment?) ==> IsNextUnary(t)
    ensures (t.Colon? || t.Comma? || t.Period? || t.Equals?) ==> IsNextUnary(t)
  {
  }

  /** `is_next_unary` fails after every token that ends an operand (closers,
      literals, identifiers) and after `;`, `::`, `#{` and end of input. */
  lemma IsNextUnaryAfterOperand(t: Token)
    ensures (IsClosingBracket(t) || IsLiteral(t) || t.Identifier? || t.EOF?
             || t.SemiColon? || t.DoubleColon? || t.MapStart?) ==> !IsNextUnary(t)
  {
  }

  /** Among the keywords, `is_next_unary` holds exactly for `if`, `while`,
      `return`, `throw` and `in`. */
  lemma IsNextUnaryAfterKeyword(t: Token)
    ensures IsKeywordToken(t) ==>
              (IsNextUnary(t) <==> t.If? || t.While? || t.Return? || t.Throw? || t.In?)
  {
  }

  /** The fixed keyword table of the identifier scanner. */
  function Keyword(s: string): (r: Option<Token>)
    ensures r.Some? ==> IsKeywordToken(r.value)
  {
    match s
    case "true" => Some(True)
    case "false" => Some(False)
    case "let" => Some(Let)
    case "const" => Some(Const)
    case "if" => Some(If)
    case "else" => Some(Else)
    case "while" => Some(While)
    case "loop" => Some(Loop)
    case "continue" => Some(Continue)
    case "break" => Some(Break)
    case "return" => Some(Return)
    case "throw" => Some(Throw)
    case "for" => Some(For)
    case "in" => Some(In)
    case "private" => Some(Private)
    case "import" => Some(Import)
    case "export" => Some(Export)
    case "as" => Some(As)
    case "fn" => Some(Fn)
    case _ => None
  }

  /** The spelling of a keyword token: the inverse of the keyword table. */
  function KeywordText(k: Token): (s: string)
    requires IsKeywordToken(k)
    ensures |s| >= 2 && forall j :: 0 <= j < |s| ==> IsAsciiAlpha(s[j])
  {
    match k
    case True => "true"
    case False => "false"
    case Let => "let"
    case Const => "const"
    case If => "if"
    case Else => "else"
    case While => "while"
    case Loop => "loop"
    case Continue => "continue"
    case Break => "break"
    case Return => "return"
    case Throw => "throw"
    case For => "for"
    case In => "in"
    case Private => "private"
    case Import => "import"
    case Export => "export"
    case As => "as"
    case Fn => "fn"
  }

  /** The table maps every keyword's spelling back to that keyword. */
  lemma KeywordTextInTable(k: Token)
    requires IsKeywordToken(k)
    ensures Keyword(KeywordText(k)) == Some(k)
  {
  }

  /** The keyword table is injective: a keyword token has exactly one spelling. */
  lemma KeywordTableInverse(s: string)
    requires Keyword(s).Some?
    ensures KeywordText(Keyword(s).value) == s
  {
  }
}
