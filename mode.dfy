/** The editor mode driver (src/cm_rhai_mode.rs): the per-line state the
    editor keeps between calls, the `token` function that asks the Rhai
    tokenizer for one token and maps it to a display category while counting
    brackets, tracking the "defining identifier" flag and the brace depths of
    interpolated strings, and the `indent` function. The Rhai tokenizer itself
    (`rhai::get_next_token`) is external: its outcome is an input here. */
module Mode {
  import opened Base

  const U8_LIMIT: int := 0x100
  const U32_LIMIT: int := 0x1_0000_0000

  newtype u8 = x: int | 0 <= x < 0x100

  /** The tokens of the Rhai tokenizer that the driver tells apart; `Other`
      stands for every token the category table has no arm for. */
  datatype RhaiToken =
    | IntegerConstant | FloatConstant | Identifier | CharConstant | StringConstant
    | InterpolatedString
    | LeftBrace | RightBrace | LeftParen | RightParen | LeftBracket | RightBracket
    | QuestionBracket | Unit
    | Plus | UnaryPlus | Minus | UnaryMinus | Multiply | Divide | Modulo | PowerOf
    | LeftShift | RightShift | SemiColon | Colon | DoubleColon | Comma | Period
    | ExclusiveRange | InclusiveRange | MapStart | Equals
    | True | False | Let | Const | If | Else | While | Loop | For | In | NotIn
    | LessThan | GreaterThan | LessThanEqualsTo | GreaterThanEqualsTo
    | EqualsTo | NotEqualsTo | Bang | Elvis | DoubleQuestion
    | Pipe | Or | XOr | Ampersand | And
    | Fn | Continue | Break | Return | Throw
    | PlusAssign | MinusAssign | MultiplyAssign | DivideAssign | LeftShiftAssign
    | RightShiftAssign | AndAssign | OrAssign | XOrAssign | ModuloAssign | PowerOfAssign
    | Private | Import | Export | As | DoubleArrow | Underscore
    | Switch | Do | Until | Try | Catch
    | Comment | LexError | Reserved | Custom
    | EOF
    | Other

  /** The display categories the editor styles tokens with. */
  datatype Category =
    | Number | Def | Variable | String2 | String | Bracket | Operator | Keyword
    | Builtin | CommentStyle | Error

  /** The style name the editor receives. */
  function Name(c: Category): (s: string)
    ensures |s| > 0
  {
    match c
    case Number => "number"
    case Def => "def"
    case Variable => "variable"
    case String2 => "string-2"
    case String => "string"
    case Bracket => "bracket"
    case Operator => "operator"
    case Keyword => "keyword"
    case Builtin => "builtin"
    case CommentStyle => "comment"
    case Error => "error"
  }

  /** Distinct categories have distinct names. */
  lemma NameInjective(a: Category, b: Category)
    requires Name(a) == Name(b)
    ensures a == b
  {
    assert Name(a)[0] == Name(b)[0] && |Name(a)| == |Name(b)|;
    if a.String2? || b.String2? {
      assert Name(a)[6] == Name(b)[6] || |Name(a)| != 8;
    }
  }

  predicate IsOpener(t: RhaiToken) {
    t.LeftBrace? || t.LeftBracket? || t.LeftParen? || t.MapStart?
  }

  predicate IsCloser(t: RhaiToken) {
    t.RightBrace? || t.RightBracket? || t.RightParen?
  }

  /** The tokens that introduce a name being defined. */
  predicate IsDefiningKeyword(t: RhaiToken) {
    t.Fn? || t.Let? || t.Const? || t.As? || t.For?
  }

  // ---------------------------------------------------------------------
  // The per-token updates.

  /** The unclosed-bracket count after a token: an opener first clamps a
      negative count to 0 and then adds 1, a closer subtracts 1. */
  function NextBracketCount(count: int, t: RhaiToken): (r: int)
    ensures IsOpener(t) ==> r >= 1 && r > count
    ensures IsOpener(t) && count < 0 ==> r == 1
    ensures r < count <==> IsCloser(t)
    ensures r >= count - 1
    ensures !IsOpener(t) && !IsCloser(t) ==> r == count
  {
    if IsOpener(t) then (if count < 0 then 0 else count) + 1
    else if IsCloser(t) then count - 1
    else count
  }

  /** How a token moves the count when no clamping happens. */
  function Delta(t: RhaiToken): int {
    if IsOpener(t) then 1 else if IsCloser(t) then -1 else 0
  }

  /** An opener leaves the count positive, and exactly 1 when it was
      negative; only a closer makes it negative; any other token leaves it
      alone; from a non-negative count it moves by the token's delta. */
  lemma BracketCountStep(count: int, t: RhaiToken)
    ensures IsOpener(t) ==> NextBracketCount(count, t) >= 1
    ensures count < 0 && IsOpener(t) ==> NextBracketCount(count, t) == 1
    ensures !IsOpener(t) && !IsCloser(t) ==> NextBracketCount(count, t) == count
    ensures NextBracketCount(count, t) < 0 ==> IsCloser(t) || (count < 0 && !IsOpener(t))
    ensures count >= 0 ==> NextBracketCount(count, t) == count + Delta(t)
  {
  }

  /** The count after a run of tokens on one line. */
  function BracketCountAfter(count: int, ts: seq<RhaiToken>): int
    decreases |ts|
  {
    if ts == [] then count else BracketCountAfter(NextBracketCount(count, ts[0]), ts[1..])
  }

  /** Openers minus closers. */
  function Balance(ts: seq<RhaiToken>): int
    decreases |ts|
  {
    if ts == [] then 0 else Delta(ts[0]) + Balance(ts[1..])
  }

  /** When no prefix of a line closes more brackets than it opens, the
      clamp never fires and the count is openers minus closers. */
  lemma {:induction false} BracketCountIsBalance(count: int, ts: seq<RhaiToken>)
    requires count >= 0
    requires forall k :: 0 <= k <= |ts| ==> count + Balance(ts[..k]) >= 0
    decreases |ts|
    ensures BracketCountAfter(count, ts) == count + Balance(ts)
  {
    if ts != [] {
      var t, rest := ts[0], ts[1..];
      assert ts[..1] == [t] && Balance([t]) == Delta(t) + Balance([]);
      BracketCountStep(count, t);
      forall k | 0 <= k <= |rest| ensures count + Delta(t) + Balance(rest[..k]) >= 0 {
        assert ts[..k + 1] == [t] + rest[..k];
        assert ts[..k + 1][1..] == rest[..k];
      }
      BracketCountIsBalance(count + Delta(t), rest);
    }
  }

  /** The "defining identifier" flag after a token: set by `fn`, `let`,
      `const`, `as` and `for`, kept by a comment, cleared by anything else. */
  function NextDefining(defining: bool, t: RhaiToken): (r: bool)
    ensures r <==> IsDefiningKeyword(t) || (t.Comment? && defining)
  {
    if IsDefiningKeyword(t) then true
    else if t.Comment? then defining
    else false
  }

  /** The display category of a token; end of input has none. An identifier
      is a definition exactly when the flag was set before it. */
  function CategoryOf(t: RhaiToken, defining: bool): (c: Option<Category>)
    ensures c.None? <==> t.EOF?
    ensures t.Identifier? ==> c == Some(if defining then Def else Variable)
  {
    match t
    case IntegerConstant => Some(Number)
    case FloatConstant => Some(Number)
    case Identifier => Some(if defining then Def else Variable)
    case CharConstant => Some(String2)
    case StringConstant => Some(String)
    case InterpolatedString => Some(String)
    case LeftBrace => Some(Bracket)
    case RightBrace => Some(Bracket)
    case LeftParen => Some(Bracket)
    case RightParen => Some(Bracket)
    case LeftBracket => Some(Bracket)
    case RightBracket => Some(Bracket)
    case QuestionBracket => Some(Bracket)
    case Unit => Some(Keyword)
    case Plus => Some(Operator)
    case UnaryPlus => Some(Operator)
    case Minus => Some(Operator)
    case UnaryMinus => Some(Operator)
    case Multiply => Some(Operator)
    case Divide => Some(Operator)
    case Modulo => Some(Operator)
    case PowerOf => Some(Operator)
    case LeftShift => Some(Operator)
    case RightShift => Some(Operator)
    case SemiColon => Some(Operator)
    case Colon => Some(Operator)
    case DoubleColon => Some(Operator)
    case Comma => Some(Operator)
    case Period => Some(Operator)
    case ExclusiveRange => Some(Operator)
    case InclusiveRange => Some(Operator)
    case MapStart => Some(Bracket)
    case Equals => Some(Operator)
    case True => Some(Builtin)
    case False => Some(Builtin)
    case Let => Some(Keyword)
    case Const => Some(Keyword)
    case If => Some(Keyword)
    case Else => Some(Keyword)
    case While => Some(Keyword)
    case Loop => Some(Keyword)
    case For => Some(Keyword)
    case In => Some(Keyword)
    case NotIn => Some(Keyword)
    case LessThan => Some(Operator)
    case GreaterThan => Some(Operator)
    case LessThanEqualsTo => Some(Operator)
    case GreaterThanEqualsTo => Some(Operator)
    case EqualsTo => Some(Operator)
    case NotEqualsTo => Some(Operator)
    case Bang => Some(Operator)
    case Elvis => Some(Operator)
    case DoubleQuestion => Some(Operator)
    case Pipe => Some(Operator)
    case Or => Some(Operator)
    case XOr => Some(Operator)
    case Ampersand => Some(Operator)
    case And => Some(Operator)
    case Fn => Some(Keyword)
    case Continue => Some(Keyword)
    case Break => Some(Keyword)
    case Return => Some(Keyword)
    case Throw => Some(Keyword)
    case PlusAssign => Some(Operator)
    case MinusAssign => Some(Operator)
    case MultiplyAssign => Some(Operator)
    case DivideAssign => Some(Operator)
    case LeftShiftAssign => Some(Operator)
    case RightShiftAssign => Some(Operator)
    case AndAssign => Some(Operator)
    case OrAssign => Some(Operator)
    case XOrAssign => Some(Operator)
    case ModuloAssign => Some(Operator)
    case PowerOfAssign => Some(Operator)
    case Private => Some(Keyword)
    case Import => Some(Keyword)
    case Export => Some(Keyword)
    case As => Some(Keyword)
    case DoubleArrow => Some(Operator)
    case Underscore => Some(Operator)
    case Switch => Some(Keyword)
    case Do => Some(Keyword)
    case Until => Some(Keyword)
    case Try => Some(Keyword)
    case Catch => Some(Keyword)
    case Comment => Some(CommentStyle)
    case LexError => Some(Error)
    case Reserved => Some(Keyword)
    case Custom => Some(Keyword)
    case EOF => None
    case Other => Some(Error)
  }
  /** Only an identifier after a defining keyword is a definition, and only
      numeric literals are numbers. */
  lemma CategoryDefAndNumber(t: RhaiToken, defining: bool)
    ensures CategoryOf(t, defining) == Some(Def) <==> t.Identifier? && defining
    ensures CategoryOf(t, defining) == Some(Number) <==> t.IntegerConstant? || t.FloatConstant?
  {
  }

  /** The bracket category is exactly the brackets. */
  lemma CategoryBracket(t: RhaiToken, defining: bool)
    ensures CategoryOf(t, defining) == Some(Bracket) <==> IsOpener(t) || IsCloser(t) || t.QuestionBracket?
  {
  }

  /** Errors and comments each have their own category. */
  lemma CategoryErrorAndComment(t: RhaiToken, defining: bool)
    ensures CategoryOf(t, defining) == Some(Error) <==> t.LexError? || t.Other?
    ensures CategoryOf(t, defining) == Some(CommentStyle) <==> t.Comment?
  {
  }


  /** `def` is reported exactly for an identifier right after a defining
      keyword, with only comments in between. */
  lemma DefAfterDefiningKeyword(k: RhaiToken, comments: seq<RhaiToken>, defining: bool)
    requires IsDefiningKeyword(k)
    requires forall j :: 0 <= j < |comments| ==> comments[j].Comment?
    ensures CategoryOf(Identifier, DefiningAfterAll(NextDefining(defining, k), comments)) == Some(Def)
  {
    DefiningKept(true, comments);
  }

  /** The flag after a run of tokens. */
  function DefiningAfterAll(defining: bool, ts: seq<RhaiToken>): bool
    decreases |ts|
  {
    if ts == [] then defining else DefiningAfterAll(NextDefining(defining, ts[0]), ts[1..])
  }

  /** Comments leave the flag as it was. */
  lemma {:induction false} DefiningKept(defining: bool, ts: seq<RhaiToken>)
    requires forall j :: 0 <= j < |ts| ==> ts[j].Comment?
    decreases |ts|
    ensures DefiningAfterAll(defining, ts) == defining
  {
    if ts != [] {
      assert ts[0].Comment?;
      DefiningKept(defining, ts[1..]);
    }
  }

  /** Any token other than a comment or a defining keyword clears the flag,
      so the next identifier is a plain variable. */
  lemma VariableAfterOtherToken(t: RhaiToken, defining: bool)
    requires !IsDefiningKeyword(t) && !t.Comment?
    ensures CategoryOf(Identifier, NextDefining(defining, t)) == Some(Variable)
  {
  }

  /** The brace stack of interpolated strings after a token, and whether a
      `}` closed an interpolation (which tells the tokenizer to resume inside
      backtick text). Counts are `u8`, wrapping around as in a release build. */
  function NextBraceStack(stack: seq<u8>, t: RhaiToken): (r: (seq<u8>, bool))
    ensures r.1 ==> t.RightBrace? && |r.0| + 1 == |stack|
    ensures !t.InterpolatedString? ==> |r.0| <= |stack|
  {
    if t.InterpolatedString? then (stack + [0], false)
    else if t.LeftBrace? && stack != [] then
      (stack[..|stack| - 1] + [((stack[|stack| - 1] as int + 1) % U8_LIMIT) as u8], false)
    else if t.RightBrace? && stack != [] then
      var top := ((stack[|stack| - 1] as int - 1) % U8_LIMIT) as u8;
      if top == 0 then (stack[..|stack| - 1], true)
      else (stack[..|stack| - 1] + [top], false)
    else (stack, false)
  }

  /** An interpolated string pushes a zero; braces change only the top
      entry; an empty stack is never changed by braces; a `}` pops exactly
      when the top entry was 1. */
  lemma BraceStackStep(stack: seq<u8>, t: RhaiToken)
    ensures t.InterpolatedString? ==> NextBraceStack(stack, t) == (stack + [0], false)
    ensures (t.LeftBrace? || t.RightBrace?) && stack == [] ==> NextBraceStack(stack, t) == ([], false)
    ensures t.LeftBrace? && stack != [] && stack[|stack| - 1] < 255 ==>
              NextBraceStack(stack, t) == (stack[..|stack| - 1] + [stack[|stack| - 1] + 1], false)
    ensures t.RightBrace? && stack != [] ==>
              (NextBraceStack(stack, t).1 <==> stack[|stack| - 1] == 1)
    ensures t.RightBrace? && stack != [] && stack[|stack| - 1] > 1 ==>
              NextBraceStack(stack, t) == (stack[..|stack| - 1] + [stack[|stack| - 1] - 1], false)
    ensures !t.InterpolatedString? && !t.LeftBrace? && !t.RightBrace? ==> NextBraceStack(stack, t) == (stack, false)
  {
  }

  /** The stack after a run of tokens. */
  function BraceStackAfter(stack: seq<u8>, ts: seq<RhaiToken>): seq<u8>
    decreases |ts|
  {
    if ts == [] then stack else BraceStackAfter(NextBraceStack(stack, ts[0]).0, ts[1..])
  }

  /** `{` minus `}`. */
  function BraceBalance(ts: seq<RhaiToken>): int
    decreases |ts|
  {
    if ts == [] then 0
    else (if ts[0].LeftBrace? then 1 else if ts[0].RightBrace? then -1 else 0) + BraceBalance(ts[1..])
  }

  /** Inside one interpolation, with no nested interpolated string, the top
      entry follows the brace depth as long as it stays between 1 and 255. */
  lemma {:induction false} BraceDepthTracked(stack: seq<u8>, top: u8, ts: seq<RhaiToken>)
    requires top >= 1
    requires forall j :: 0 <= j < |ts| ==> !ts[j].InterpolatedString?
    requires forall k :: 0 <= k <= |ts| ==> 1 <= top as int + BraceBalance(ts[..k]) < U8_LIMIT
    decreases |ts|
    ensures 1 <= top as int + BraceBalance(ts) < U8_LIMIT
    ensures BraceStackAfter(stack + [top], ts) == stack + [(top as int + BraceBalance(ts)) as u8]
  {
    assert ts[..|ts|] == ts;
    if ts != [] {
      var t, rest := ts[0], ts[1..];
      var d := if t.LeftBrace? then 1 else if t.RightBrace? then -1 else 0;
      assert ts[..1] == [t] && BraceBalance([t]) == d + BraceBalance([]);
      var top' := (top as int + d) as u8;
      assert (stack + [top])[..|stack + [top]| - 1] == stack;
      assert NextBraceStack(stack + [top], t).0 == stack + [top'];
      forall k | 0 <= k <= |rest| ensures 1 <= top' as int + BraceBalance(rest[..k]) < U8_LIMIT {
        assert ts[..k + 1] == [t] + rest[..k];
        assert ts[..k + 1][1..] == rest[..k];
      }
      assert forall j :: 0 <= j < |rest| ==> !rest[j].InterpolatedString? by {
        forall j | 0 <= j < |rest| ensures !rest[j].InterpolatedString? {
          assert rest[j] == ts[j + 1];
        }
      }
      BraceDepthTracked(stack, top', rest);
    }
  }

  /** An interpolation `${ … }` whose inner tokens balance their braces
      (and nest fewer than 255 deep) leaves the stack as it found it, the
      closing `}` popping the entry the interpolated string pushed. */
  lemma InterpolationClosed(stack: seq<u8>, inner: seq<RhaiToken>)
    requires forall j :: 0 <= j < |inner| ==> !inner[j].InterpolatedString?
    requires forall k :: 0 <= k <= |inner| ==> 0 <= BraceBalance(inner[..k]) < 254
    requires BraceBalance(inner) == 0
    ensures BraceStackAfter(stack, [InterpolatedString, LeftBrace] + inner) == stack + [1]
    ensures NextBraceStack(stack + [1], RightBrace) == (stack, true)
  {
    var ts := [InterpolatedString, LeftBrace] + inner;
    assert ts[0] == InterpolatedString && ts[1..] == [LeftBrace] + inner;
    assert ([LeftBrace] + inner)[1..] == inner;
    assert NextBraceStack(stack + [0], LeftBrace).0 == stack + [1] by {
      assert (stack + [0])[..|stack + [0]| - 1] == stack;
    }
    assert BraceStackAfter(stack + [0], [LeftBrace] + inner) == BraceStackAfter(stack + [1], inner);
    assert forall k :: 0 <= k <= |inner| ==> 1 <= 1 + BraceBalance(inner[..k]) < U8_LIMIT;
    BraceDepthTracked(stack, 1, inner);
    assert (stack + [1])[..|stack + [1]| - 1] == stack;
  }

  // ---------------------------------------------------------------------
  // Indentation.

  /** `str::trim_start`: the text without its leading whitespace. */
  function TrimStart(s: string): (r: string)
    decreases |s|
    ensures |r| <= |s| && r == s[|s| - |r|..]
    ensures r == [] || !IsWhitespace(r[0])
  {
    if s != [] && IsWhitespace(s[0]) then TrimStart(s[1..]) else s
  }

  /** The text after the cursor starts, after whitespace, with a closer. */
  predicate ShouldDedent(textAfter: string)
    ensures textAfter == [] ==> !ShouldDedent(textAfter)
    ensures |textAfter| > 0 && (textAfter[0] == '}' || textAfter[0] == ']' || textAfter[0] == ')') ==> ShouldDedent(textAfter)
  {
    var t := TrimStart(textAfter);
    t != [] && (t[0] == '}' || t[0] == ']' || t[0] == ')')
  }

  /** The dedent test read directly: the first character that is not
      whitespace exists and is a closer. */
  lemma ShouldDedentMeans(s: string)
    ensures ShouldDedent(s) <==>
              exists k :: 0 <= k < |s| && (s[k] == '}' || s[k] == ']' || s[k] == ')')
                          && forall j :: 0 <= j < k ==> IsWhitespace(s[j])
  {
    var k := |s| - |TrimStart(s)|;
    TrimStartDropsWhitespace(s);
    if ShouldDedent(s) {
      assert s[k] == TrimStart(s)[0];
    }
    forall k' | 0 <= k' < |s| && (s[k'] == '}' || s[k'] == ']' || s[k'] == ')')
                && forall j :: 0 <= j < k' ==> IsWhitespace(s[j])
      ensures ShouldDedent(s)
    {
      TrimStartSkips(s, k');
    }
  }

  /** What TrimStart removes is whitespace. */
  lemma {:induction false} TrimStartDropsWhitespace(s: string)
    decreases |s|
    ensures forall j :: 0 <= j < |s| - |TrimStart(s)| ==> IsWhitespace(s[j])
  {
    if s != [] && IsWhitespace(s[0]) {
      TrimStartDropsWhitespace(s[1..]);
      forall j | 0 < j < |s| - |TrimStart(s)| ensures IsWhitespace(s[j]) {
        assert s[j] == s[1..][j - 1];
      }
    }
  }

  /** Whitespace up to a character that is not whitespace is all that
      TrimStart removes. */
  lemma {:induction false} TrimStartSkips(s: string, k: nat)
    requires k < |s| && !IsWhitespace(s[k])
    requires forall j :: 0 <= j < k ==> IsWhitespace(s[j])
    decreases k
    ensures TrimStart(s) == s[k..]
  {
    if k > 0 {
      forall j | 0 <= j < k - 1 ensures IsWhitespace(s[1..][j]) {
        assert s[1..][j] == s[j + 1];
      }
      TrimStartSkips(s[1..], k - 1);
      assert s[1..][k - 1..] == s[k..];
    }
  }

  /** `indent`: one unit deeper than the line's indentation inside an
      unclosed bracket, level with it when the text starts with a closer;
      outside any bracket, one unit shallower (stopping at 0) before a
      closer, and no opinion otherwise. Widths are `u32`; the deeper case
      wraps around as in a release build. */
  function Indent(unclosed: int, lineIndent: nat, indentUnit: nat, textAfter: string): (r: Option<nat>)
    requires lineIndent < U32_LIMIT && indentUnit < U32_LIMIT
    ensures r.Some? ==> r.value < U32_LIMIT
    ensures r.None? <==> unclosed <= 0 && !ShouldDedent(textAfter)
    ensures unclosed <= 0 && r.Some? ==> r.value <= lineIndent
  {
    if unclosed > 0 then
      if ShouldDedent(textAfter) then Some(lineIndent)
      else Some((lineIndent + indentUnit) % U32_LIMIT)
    else
      if ShouldDedent(textAfter) then Some(if lineIndent >= indentUnit then lineIndent - indentUnit else 0)
      else None
  }

  /** The four rows of the indentation rule, with the dedent test read
      directly on the text; widths are `u32` values, and the deeper row
      wraps around. */
  lemma IndentRule(unclosed: int, lineIndent: nat, indentUnit: nat, textAfter: string)
    requires lineIndent < U32_LIMIT && indentUnit < U32_LIMIT
    ensures var closer := exists k :: 0 <= k < |textAfter|
                            && (textAfter[k] == '}' || textAfter[k] == ']' || textAfter[k] == ')')
                            && forall j :: 0 <= j < k ==> IsWhitespace(textAfter[j]);
            && (unclosed > 0 && !closer ==> Indent(unclosed, lineIndent, indentUnit, textAfter) == Some((lineIndent + indentUnit) % U32_LIMIT))
            && (unclosed > 0 && closer ==> Indent(unclosed, lineIndent, indentUnit, textAfter) == Some(lineIndent))
            && (unclosed <= 0 && closer ==>
                  Indent(unclosed, lineIndent, indentUnit, textAfter) == Some(if lineIndent >= indentUnit then lineIndent - indentUnit else 0))
            && (unclosed <= 0 && !closer ==> Indent(unclosed, lineIndent, indentUnit, textAfter).None?)
  {
    ShouldDedentMeans(textAfter);
  }

  /** With one unclosed bracket on a line indented 0, plain text is indented
      by one unit and a closing brace is not indented. */
  lemma IndentExample()
    ensures Indent(1, 0, 2, "  foo") == Some(2)
    ensures Indent(1, 0, 2, "}") == Some(0)
  {
    var s := "  foo";
    assert s[0] == ' ' && s[1] == ' ' && s[2] == 'f';
    TrimStartSkips(s, 2);
    assert TrimStart(s)[0] == 'f';
    var t := "}";
    assert t[0] == '}';
    TrimStartSkips(t, 0);
    assert TrimStart(t)[0] == '}';
  }

  // ---------------------------------------------------------------------
  // The state and the `token` function.

  /** The part of the tokenizer's own state the driver touches: whether
      comments are reported, and the text terminator a `}` resumes. */
  datatype TokenizeState = TokenizeState(includeComments: bool, withinTextTerminatedBy: Option<char>)

  /** What one call of the Rhai tokenizer did: the token it returned (None
      when it returned nothing), its state afterwards, and the character the
      stream adapter holds back afterwards. */
  datatype TokenizerOutcome = TokenizerOutcome(token: Option<RhaiToken>, tokenState: TokenizeState, buf: Option<char>)

  const FAILED_MESSAGE := "Failed to get next token"

  /** `State`: what the editor keeps between calls to `token`. */
  class ModeState {
    var tokenState: TokenizeState
    var unclosedBracketCount: int
    var lineIndent: nat
    var isDefiningIdentifier: bool
    var buf: Option<char>
    var braceStack: seq<u8>

    predicate Valid()
      reads this
    {
      lineIndent < U32_LIMIT
    }

    /** `RhaiMode::start_state` */
    constructor ()
      ensures Valid()
      ensures tokenState == TokenizeState(true, None)
      ensures unclosedBracketCount == 0 && lineIndent == 0 && !isDefiningIdentifier
      ensures buf.None? && braceStack == []
    {
      tokenState := TokenizeState(true, None);
      unclosedBracketCount := 0;
      lineIndent := 0;
      isDefiningIdentifier := false;
      buf := None;
      braceStack := [];
    }

    /** `RhaiMode::copy_state`: an equal state that shares nothing. */
    method Copy() returns (c: ModeState)
      requires Valid()
      ensures fresh(c) && c.Valid()
      ensures c.tokenState == tokenState && c.unclosedBracketCount == unclosedBracketCount
      ensures c.lineIndent == lineIndent && c.isDefiningIdentifier == isDefiningIdentifier
      ensures c.buf == buf && c.braceStack == braceStack
    {
      c := new ModeState();
      c.tokenState := tokenState;
      c.unclosedBracketCount := unclosedBracketCount;
      c.lineIndent := lineIndent;
      c.isDefiningIdentifier := isDefiningIdentifier;
      c.buf := buf;
      c.braceStack := braceStack;
    }

    /** `token`: at the start of a line, record its indentation and reset
        the bracket count; then take the tokenizer's outcome, update the
        count, the brace stack and the defining flag, and return the token's
        category (None at end of input; an error when the tokenizer returned
        nothing). */
    method Token(sol: bool, indentation: nat, outcome: TokenizerOutcome) returns (r: Result<Option<Category>, string>)
      requires Valid() && indentation < U32_LIMIT
      modifies this
      ensures Valid()
      ensures lineIndent == if sol then indentation else old(lineIndent)
      ensures outcome.token.None? ==>
                && r == Err(FAILED_MESSAGE)
                && unclosedBracketCount == (if sol then 0 else old(unclosedBracketCount))
                && tokenState == outcome.tokenState
                && buf == old(buf) && braceStack == old(braceStack)
                && isDefiningIdentifier == old(isDefiningIdentifier)
      ensures outcome.token.Some? ==>
                var t := outcome.token.value;
                var popped := NextBraceStack(old(braceStack), t);
                && r == Ok(CategoryOf(t, old(isDefiningIdentifier)))
                && unclosedBracketCount == NextBracketCount(if sol then 0 else old(unclosedBracketCount), t)
                && buf == outcome.buf
                && braceStack == popped.0
                && tokenState == (if popped.1 then outcome.tokenState.(withinTextTerminatedBy := Some('`'))
                                  else outcome.tokenState)
                && isDefiningIdentifier == (if t.EOF? then old(isDefiningIdentifier)
                                            else NextDefining(old(isDefiningIdentifier), t))
    {
      if sol {
        lineIndent := indentation;
        unclosedBracketCount := 0;
      }
      tokenState := outcome.tokenState;
      if outcome.token.None? {
        return Err(FAILED_MESSAGE);
      }
      var t := outcome.token.value;
      buf := outcome.buf;
      if IsOpener(t) {
        if unclosedBracketCount < 0 {
          unclosedBracketCount := 0;
        }
        unclosedBracketCount := unclosedBracketCount + 1;
      } else if IsCloser(t) {
        unclosedBracketCount := unclosedBracketCount - 1;
      }
      UpdateBraceStack(t);
      var category := CategoryOf(t, isDefiningIdentifier);
      if category.None? {
        return Ok(None);
      }
      if IsDefiningKeyword(t) {
        isDefiningIdentifier := true;
      } else if !t.Comment? {
        isDefiningIdentifier := false;
      }
      return Ok(category);
    }

    /** The brace-stack arms of `token`. */
    method UpdateBraceStack(t: RhaiToken)
      modifies this`braceStack, this`tokenState
      ensures braceStack == NextBraceStack(old(braceStack), t).0
      ensures tokenState == if NextBraceStack(old(braceStack), t).1
                            then old(tokenState).(withinTextTerminatedBy := Some('`'))
                            else old(tokenState)
    {
      if t.InterpolatedString? {
        braceStack := braceStack + [0];
      } else if t.LeftBrace? && braceStack != [] {
        var top := braceStack[|braceStack| - 1];
        braceStack := braceStack[..|braceStack| - 1] + [((top as int + 1) % U8_LIMIT) as u8];
      } else if t.RightBrace? && braceStack != [] {
        var top := ((braceStack[|braceStack| - 1] as int - 1) % U8_LIMIT) as u8;
        if top == 0 {
          braceStack := braceStack[..|braceStack| - 1];
          tokenState := tokenState.(withinTextTerminatedBy := Some('`'));
        } else {
          braceStack := braceStack[..|braceStack| - 1] + [top];
        }
      }
    }
  }

  /** `RhaiMode`: the indentation unit the editor was configured with. */
  class RhaiMode {
    const indentUnit: nat

    constructor (indentUnit: nat)
      requires indentUnit < U32_LIMIT
      ensures this.indentUnit == indentUnit
    {
      this.indentUnit := indentUnit;
    }

    /** `RhaiMode::indent` on a state. */
    function IndentFor(state: ModeState, textAfter: string): (r: Option<nat>)
      reads state
      requires state.Valid() && indentUnit < U32_LIMIT
      ensures r.Some? ==> r.value < U32_LIMIT
      ensures r.None? <==> state.unclosedBracketCount <= 0 && !ShouldDedent(textAfter)
    {
      Indent(state.unclosedBracketCount, state.lineIndent, indentUnit, textAfter)
    }
  }
}
