/** `parse_string_literal` (src/cm_rhai_mode/token.rs): scanning the body of a
    string or character literal, after its opening quote, up to the unescaped
    closing quote, counting logical characters. */
module StringLiteral {
  import opened Base
  import opened Tokens
  import opened HostStream

  /** The outcome of a scan and the index just past the last character it
      consumed. */
  datatype Scan = Scan(result: Result<nat, LexError>, end: nat)

  /** The outcome of reading the digits of a numeric escape. */
  datatype HexScan = HexScan(error: Option<LexError>, end: nat)

  predicate IsQuote(c: char) {
    c == '"' || c == '\''
  }

  /** The letters that introduce `\xHH`, `\uHHHH` and `\UHHHHHHHH`. */
  predicate IsNumericEscape(k: char) {
    k == 'x' || k == 'u' || k == 'U'
  }

  /** The number of hex digits a numeric escape takes. */
  function EscapeWidth(k: char): nat
    requires IsNumericEscape(k)
  {
    if k == 'x' then 2 else if k == 'u' then 4 else 8
  }

  /** The `for _ in 0..len` loop of a numeric escape: `n` more characters are
      read from `i`, each must be a hex digit; `text` is the escape read so
      far, and the error carries it together with the character that broke it. */
  function HexDigits(line: seq<char>, i: nat, n: nat, text: string): (r: HexScan)
    requires i <= |line|
    decreases n
    ensures i <= r.end <= |line|
    ensures r.error.None? ==> r.end == i + n
    ensures r.error.Some? ==> r.error.value.MalformedEscapeSequence?
  {
    if n == 0 then HexScan(None, i)
    else if i == |line| then HexScan(Some(MalformedEscapeSequence(text)), i)
    else if !IsDigitOf(line[i], 16) then HexScan(Some(MalformedEscapeSequence(text + [line[i]])), i + 1)
    else HexDigits(line, i + 1, n - 1, text + [line[i]])
  }

  /** A numeric escape is accepted exactly when the next `n` characters are
      all hex digits. */
  lemma {:induction false} HexDigitsAccepts(line: seq<char>, i: nat, n: nat, text: string)
    requires i <= |line|
    ensures HexDigits(line, i, n, text).error.None?
        <==> i + n <= |line| && forall k :: i <= k < i + n ==> IsDigitOf(line[k], 16)
    decreases n
  {
    if n > 0 && i < |line| && IsDigitOf(line[i], 16) {
      HexDigitsAccepts(line, i + 1, n - 1, text + [line[i]]);
    }
  }

  /** The scanning loop from index `i`, with `escaped` recording whether a
      backslash is pending and `count` the logical characters seen so far. */
  function ScanString(line: seq<char>, i: nat, enclosing: char, escaped: bool, count: nat): (r: Scan)
    requires i <= |line|
    decreases |line| - i
    ensures i <= r.end <= |line|
  {
    if i == |line| then Scan(Err(UnterminatedString), i)
    else
      var ch := line[i];
      if ch == '\\' && !escaped then ScanString(line, i + 1, enclosing, true, count)
      else if ch == '\\' then ScanString(line, i + 1, enclosing, false, count + 1)
      else if (ch == 't' || ch == 'n' || ch == 'r') && escaped then
        ScanString(line, i + 1, enclosing, false, count + 1)
      else if IsNumericEscape(ch) && escaped then
        var h := HexDigits(line, i + 1, EscapeWidth(ch), ['\\', ch]);
        if h.error.Some? then Scan(Err(h.error.value), h.end)
        else ScanString(line, h.end, enclosing, false, count + 1)
      else if ch == enclosing && escaped then ScanString(line, i + 1, enclosing, false, count + 1)
      else if ch == enclosing then Scan(Ok(count), i + 1)
      else if escaped then Scan(Err(MalformedEscapeSequence("\\")), i + 1)
      else ScanString(line, i + 1, enclosing, false, count + 1)
  }

  /** What a scan promises about where it stops and what it counts. */
  lemma {:induction false} ScanStringBounds(line: seq<char>, i: nat, enclosing: char, escaped: bool, count: nat)
    requires i <= |line|
    decreases |line| - i
    ensures var r := ScanString(line, i, enclosing, escaped, count);
      // a success ends just past an unescaped closing quote ...
      && (r.result.Ok? ==> i < r.end && line[r.end - 1] == enclosing)
      // ... after at least one more logical character when a backslash was pending,
      && (r.result.Ok? ==> r.result.value >= count + (if escaped then 1 else 0))
      // ... and with no new logical character only when the quote came first;
      && (r.result.Ok? && r.result.value == count ==> r.end == i + 1 && line[i] == enclosing)
      // every logical character takes at least one character of text
      && (r.result.Ok? ==> r.result.value - count <= r.end - i - 1)
      && (r.result == Err(UnterminatedString) ==> r.end == |line|)
  {
    if i < |line| {
      var ch := line[i];
      if ch == '\\' && !escaped {
        ScanStringBounds(line, i + 1, enclosing, true, count);
      } else if ch == '\\' || ((ch == 't' || ch == 'n' || ch == 'r') && escaped) {
        ScanStringBounds(line, i + 1, enclosing, false, count + 1);
      } else if IsNumericEscape(ch) && escaped {
        var h := HexDigits(line, i + 1, EscapeWidth(ch), ['\\', ch]);
        if h.error.None? {
          ScanStringBounds(line, h.end, enclosing, false, count + 1);
        }
      } else if ch != enclosing || escaped {
        ScanStringBounds(line, i + 1, enclosing, false, count + 1);
      }
    }
  }

  /** `parse_string_literal(stream, enclosing_char)`: the stream is just past
      the opening quote; on return it is just past the last character read. */
  method ParseStringLiteral(stream: StringStream, enclosing: char) returns (r: Result<nat, LexError>)
    requires stream.Valid()
    modifies stream`pos
    ensures stream.Valid()
    ensures Scan(r, stream.pos) == ScanString(stream.line, old(stream.pos), enclosing, false, 0)
  {
    ghost var start := stream.pos;
    var charsCount := 0;
    var escape := "";
    while true
      invariant stream.Valid() && start <= stream.pos
      invariant escape == "" || escape == "\\"
      invariant ScanString(stream.line, start, enclosing, false, 0)
             == ScanString(stream.line, stream.pos, enclosing, escape != "", charsCount)
      decreases |stream.line| - stream.pos
    {
      var next := stream.Next();
      if next.None? {
        return Err(UnterminatedString);
      }
      var ch := next.value;
      if ch == '\\' && escape == "" {
        escape := "\\";
      } else if ch == '\\' {
        escape := "";
        charsCount := charsCount + 1;
      } else if (ch == 't' || ch == 'n' || ch == 'r') && escape != "" {
        escape := "";
        charsCount := charsCount + 1;
      } else if IsNumericEscape(ch) && escape != "" {
        var sq := escape + [ch];
        assert sq == ['\\', ch];
        escape := "";
        var len := EscapeWidth(ch);
        ghost var digitsStart := stream.pos;
        for k := 0 to len
          invariant stream.Valid() && digitsStart <= stream.pos
          invariant HexDigits(stream.line, digitsStart, len, ['\\', ch])
                 == HexDigits(stream.line, stream.pos, len - k, sq)
        {
          var c := stream.Next();
          if c.None? {
            return Err(MalformedEscapeSequence(sq));
          }
          sq := sq + [c.value];
          if !IsDigitOf(c.value, 16) {
            return Err(MalformedEscapeSequence(sq));
          }
        }
        charsCount := charsCount + 1;
      } else if ch == enclosing && escape != "" {
        escape := "";
        charsCount := charsCount + 1;
      } else if ch == enclosing {
        break;
      } else if escape != "" {
        return Err(MalformedEscapeSequence(escape));
      } else {
        escape := "";
        charsCount := charsCount + 1;
      }
    }
    return Ok(charsCount);
  }

  // ---------------------------------------------------------------------
  // A reference encoding: the text of a literal body as a sequence of
  // logical characters, each written plainly or as an escape.

  /** One logical character of a literal body. */
  datatype Unit =
    | Plain(c: char)                       // any character but `\` and the quote
    | Simple(k: char)                      // `\\`, `\t`, `\n`, `\r` or an escaped quote
    | Numeric(k: char, digits: seq<char>)  // `\x..`, `\u....`, `\U........`

  predicate WellFormed(u: Unit, enclosing: char) {
    match u
    case Plain(c) => c != '\\' && c != enclosing
    case Simple(k) => k == '\\' || k == 't' || k == 'n' || k == 'r' || k == enclosing
    case Numeric(k, digits) =>
      IsNumericEscape(k) && |digits| == EscapeWidth(k)
      && forall j :: 0 <= j < |digits| ==> IsDigitOf(digits[j], 16)
  }

  function Encode(u: Unit): seq<char> {
    match u
    case Plain(c) => [c]
    case Simple(k) => ['\\', k]
    case Numeric(k, digits) => ['\\', k] + digits
  }

  /** The text of a literal body. */
  function Body(us: seq<Unit>): seq<char> {
    if us == [] then [] else Encode(us[0]) + Body(us[1..])
  }

  predicate AllWellFormed(us: seq<Unit>, enclosing: char) {
    forall j :: 0 <= j < |us| ==> WellFormed(us[j], enclosing)
  }

  /** One well-formed logical character is scanned as exactly one. */
  lemma ScanUnit(line: seq<char>, i: nat, u: Unit, enclosing: char, count: nat)
    requires IsQuote(enclosing) && WellFormed(u, enclosing)
    requires PrefixAt(line, i, Encode(u))
    ensures ScanString(line, i, enclosing, false, count)
         == ScanString(line, i + |Encode(u)|, enclosing, false, count + 1)
  {
    PrefixAtIndex(line, i, Encode(u), 0);
    match u
    case Plain(c) =>
    case Simple(k) =>
      PrefixAtIndex(line, i, Encode(u), 1);
    case Numeric(k, digits) =>
      PrefixAtIndex(line, i, Encode(u), 1);
      PrefixAtSplit(line, i, ['\\', k], digits);
      HexDigitsRun(line, i + 2, digits, ['\\', k]);
  }

  lemma {:induction false} HexDigitsRun(line: seq<char>, i: nat, digits: seq<char>, text: string)
    requires PrefixAt(line, i, digits)
    requires forall j :: 0 <= j < |digits| ==> IsDigitOf(digits[j], 16)
    ensures HexDigits(line, i, |digits|, text) == HexScan(None, i + |digits|)
    decreases |digits|
  {
    if digits != [] {
      PrefixAtIndex(line, i, digits, 0);
      PrefixAtSplit(line, i, [digits[0]], digits[1..]);
      HexDigitsRun(line, i + 1, digits[1..], text + [line[i]]);
    }
  }

  /** A body of well-formed logical characters is scanned as exactly
      `|us|` logical characters. */
  lemma {:induction false} ScanBody(line: seq<char>, i: nat, us: seq<Unit>, enclosing: char, count: nat)
    returns (end: nat)
    requires IsQuote(enclosing) && AllWellFormed(us, enclosing)
    requires PrefixAt(line, i, Body(us))
    ensures end == i + |Body(us)|
    ensures ScanString(line, i, enclosing, false, count) == ScanString(line, end, enclosing, false, count + |us|)
    decreases |us|
  {
    if |us| == 0 {
      assert Body(us) == [];
      end := i;
    } else {
      var j := ScanBodyHead(line, i, us, enclosing, count);
      end := ScanBody(line, j, us[1..], enclosing, count + 1);
      assert count + 1 + |us[1..]| == count + |us|;
    }
  }

  /** A body followed by more text: after the body the scan resumes with
      `|us|` logical characters counted, at the start of that text. */
  lemma ScanBodyThen(line: seq<char>, i: nat, us: seq<Unit>, enclosing: char, w: seq<char>) returns (j: nat)
    requires IsQuote(enclosing) && AllWellFormed(us, enclosing)
    requires PrefixAt(line, i, Body(us) + w)
    ensures j == i + |Body(us)| && PrefixAt(line, j, w)
    ensures ScanString(line, i, enclosing, false, 0) == ScanString(line, j, enclosing, false, |us|)
  {
    PrefixAtSplit(line, i, Body(us), w);
    j := ScanBody(line, i, us, enclosing, 0);
  }

  /** One step of ScanBody: the first logical character is scanned and the
      rest of the body follows it. */
  lemma ScanBodyHead(line: seq<char>, i: nat, us: seq<Unit>, enclosing: char, count: nat) returns (j: nat)
    requires IsQuote(enclosing) && AllWellFormed(us, enclosing) && us != []
    requires PrefixAt(line, i, Body(us))
    ensures j == i + |Encode(us[0])| && j + |Body(us[1..])| == i + |Body(us)|
    ensures AllWellFormed(us[1..], enclosing) && PrefixAt(line, j, Body(us[1..]))
    ensures ScanString(line, i, enclosing, false, count) == ScanString(line, j, enclosing, false, count + 1)
  {
    var e, rest := Encode(us[0]), Body(us[1..]);
    assert Body(us) == e + rest;
    PrefixAtSplit(line, i, e, rest);
    assert WellFormed(us[0], enclosing);
    ScanUnit(line, i, us[0], enclosing, count);
    assert AllWellFormed(us[1..], enclosing) by {
      forall k | 0 <= k < |us[1..]| ensures WellFormed(us[1..][k], enclosing) {
        assert us[1..][k] == us[k + 1];
      }
    }
    j := i + |e|;
  }

  /** Round trip: a body followed by the closing quote scans successfully,
      consumes exactly the body and the quote, and counts one per logical
      character. */
  lemma ScanRoundTrip(pre: seq<char>, us: seq<Unit>, enclosing: char, post: seq<char>)
    requires IsQuote(enclosing) && AllWellFormed(us, enclosing)
    ensures ScanString(pre + Body(us) + [enclosing] + post, |pre|, enclosing, false, 0)
         == Scan(Ok(|us|), |pre| + |Body(us)| + 1)
  {
    var line := pre + Body(us) + ([enclosing] + post);
    assert line == pre + Body(us) + [enclosing] + post;
    PrefixAtConcat(pre, Body(us), [enclosing] + post);
    var end := ScanBody(line, |pre|, us, enclosing, 0);
    assert line[|pre| + |Body(us)|] == enclosing;
  }

  /** A line that ends inside the body, or just after a backslash, leaves the
      string unterminated. */
  lemma ScanUnterminated(pre: seq<char>, us: seq<Unit>, enclosing: char, danglingBackslash: bool)
    requires IsQuote(enclosing) && AllWellFormed(us, enclosing)
    ensures var line := pre + Body(us) + (if danglingBackslash then "\\" else "");
            ScanString(line, |pre|, enclosing, false, 0) == Scan(Err(UnterminatedString), |line|)
  {
    var line := pre + Body(us) + (if danglingBackslash then "\\" else "");
    PrefixAtConcat(pre, Body(us), if danglingBackslash then "\\" else "");
    var end := ScanBody(line, |pre|, us, enclosing, 0);
  }

  /** A backslash followed by anything but `\`, `t`, `n`, `r`, `x`, `u`, `U`
      or the closing quote is a malformed escape sequence. */
  lemma ScanUnknownEscape(line: seq<char>, i: nat, us: seq<Unit>, enclosing: char, c: char)
    requires IsQuote(enclosing) && AllWellFormed(us, enclosing)
    requires c != '\\' && c != 't' && c != 'n' && c != 'r' && !IsNumericEscape(c) && c != enclosing
    requires PrefixAt(line, i, Body(us) + ['\\', c])
    ensures ScanString(line, i, enclosing, false, 0)
         == Scan(Err(MalformedEscapeSequence("\\")), i + |Body(us)| + 2)
  {
    var j := ScanBodyThen(line, i, us, enclosing, ['\\', c]);
    UnknownEscapeAt(line, j, enclosing, |us|, c);
  }

  lemma UnknownEscapeAt(line: seq<char>, j: nat, enclosing: char, count: nat, c: char)
    requires c != '\\' && c != 't' && c != 'n' && c != 'r' && !IsNumericEscape(c) && c != enclosing
    requires PrefixAt(line, j, ['\\', c])
    ensures ScanString(line, j, enclosing, false, count) == Scan(Err(MalformedEscapeSequence("\\")), j + 2)
  {
    PrefixAtIndex(line, j, ['\\', c], 0);
    PrefixAtIndex(line, j, ['\\', c], 1);
  }

  /** A numeric escape with fewer hex digits than its width, followed by a
      character that is not a hex digit, is malformed; the error carries the
      escape up to and including that character. Stated for any line in which
      such a body and escape occur at the scan's start. */
  lemma ScanShortNumericEscape(line: seq<char>, i: nat, us: seq<Unit>, enclosing: char, k: char,
                               digits: seq<char>, c: char)
    requires IsQuote(enclosing) && AllWellFormed(us, enclosing)
    requires IsNumericEscape(k) && |digits| < EscapeWidth(k)
    requires forall j :: 0 <= j < |digits| ==> IsDigitOf(digits[j], 16)
    requires !IsDigitOf(c, 16)
    requires PrefixAt(line, i, Body(us) + (['\\', k] + digits + [c]))
    ensures ScanString(line, i, enclosing, false, 0)
         == Scan(Err(MalformedEscapeSequence(['\\', k] + digits + [c])), i + |Body(us)| + |digits| + 3)
  {
    var j := ScanBodyThen(line, i, us, enclosing, ['\\', k] + digits + [c]);
    ShortNumericEscapeAt(line, j, enclosing, |us|, k, digits, c);
  }

  lemma ShortNumericEscapeAt(line: seq<char>, j: nat, enclosing: char, count: nat, k: char,
                             digits: seq<char>, c: char)
    requires IsQuote(enclosing) && IsNumericEscape(k) && |digits| < EscapeWidth(k)
    requires forall m :: 0 <= m < |digits| ==> IsDigitOf(digits[m], 16)
    requires !IsDigitOf(c, 16)
    requires PrefixAt(line, j, ['\\', k] + digits + [c])
    ensures ScanString(line, j, enclosing, false, count)
         == Scan(Err(MalformedEscapeSequence(['\\', k] + digits + [c])), j + |digits| + 3)
  {
    var w := ['\\', k] + digits + [c];
    PrefixAtIndex(line, j, w, 0);
    PrefixAtIndex(line, j, w, 1);
    PrefixAtIndex(line, j, w, 2 + |digits|);
    PrefixAtSplit(line, j, ['\\', k] + digits, [c]);
    PrefixAtSplit(line, j, ['\\', k], digits);
    HexDigitsPrefix(line, j + 2, digits, EscapeWidth(k), ['\\', k]);
  }

  /** Reading hex digits across a prefix of valid digits. */
  lemma {:induction false} HexDigitsPrefix(line: seq<char>, i: nat, digits: seq<char>, n: nat, text: string)
    requires PrefixAt(line, i, digits) && |digits| < n
    requires forall j :: 0 <= j < |digits| ==> IsDigitOf(digits[j], 16)
    ensures HexDigits(line, i, n, text) == HexDigits(line, i + |digits|, n - |digits|, text + digits)
    decreases |digits|
  {
    if digits != [] {
      PrefixAtIndex(line, i, digits, 0);
      PrefixAtSplit(line, i, [digits[0]], digits[1..]);
      assert IsDigitOf(line[i], 16) && n > 0 && i < |line|;
      assert HexDigits(line, i, n, text) == HexDigits(line, i + 1, n - 1, text + [line[i]]);
      HexDigitsPrefix(line, i + 1, digits[1..], n - 1, text + [line[i]]);
      assert text + [line[i]] + digits[1..] == text + digits;
    } else {
      assert text + digits == text;
    }
  }
}
