/** Numeric literals in the Rhai lexer (src/cm_rhai_mode/token.rs): the
    scanning loop with its radix prefixes `0x`, `0o`, `0b`, and the choice
    between an integer, a float and a malformed number. Integer parsing
    follows Rust's `i64::from_str_radix`; float parsing is reduced to the
    question whether the text is float syntax. */
module Numbers {
  import opened Base
  import opened Tokens
  import opened HostStream

  const I64_MIN: int := -0x8000_0000_0000_0000
  const I64_MAX: int := 0x7FFF_FFFF_FFFF_FFFF

  predicate AllDigitsOf(ds: seq<char>, radix: nat) {
    forall k :: 0 <= k < |ds| ==> IsDigitOf(ds[k], radix)
  }

  /** The value of a string of digits, most significant first. */
  function DigitsValue(ds: seq<char>, radix: nat): nat
    requires AllDigitsOf(ds, radix)
    decreases |ds|
  {
    if ds == [] then 0
    else DigitsValue(ds[..|ds| - 1], radix) * radix + DigitValue(ds[|ds| - 1]).value
  }

  /** `i64::from_str_radix(s, radix)`: an optional `+` or `-`, then one or more
      digits of the radix, denoting a value in the range of `i64`. */
  function ParseI64(s: string, radix: nat): (r: Option<int>)
    requires 2 <= radix <= 36
    ensures r.Some? ==> I64_MIN <= r.value <= I64_MAX
  {
    if s == [] then None
    else if (s[0] == '+' || s[0] == '-') && |s| == 1 then None
    else
      var negative := s[0] == '-';
      var ds := if s[0] == '+' || s[0] == '-' then s[1..] else s;
      if !AllDigitsOf(ds, radix) then None
      else
        var v: int := if negative then 0 - DigitsValue(ds, radix) else DigitsValue(ds, radix);
        if I64_MIN <= v <= I64_MAX then Some(v) else None
  }

  /** The digits of `n` in `radix`, most significant first, without leading
      zeros: the reference the parser is checked against. */
  function ToDigits(n: nat, radix: nat): (ds: seq<char>)
    requires 2 <= radix <= 36
    ensures |ds| > 0 && AllDigitsOf(ds, radix)
    decreases n
  {
    if n < radix then [DigitChar(n)]
    else
      DivisionStep(n, radix);
      var front := ToDigits(n / radix, radix);
      var last := DigitChar(n % radix);
      AllDigitsOfSnoc(front, last, radix);
      front + [last]
  }

  lemma AllDigitsOfSnoc(ds: seq<char>, c: char, radix: nat)
    requires AllDigitsOf(ds, radix) && IsDigitOf(c, radix)
    ensures AllDigitsOf(ds + [c], radix)
  {
    forall k | 0 <= k < |ds + [c]| ensures IsDigitOf((ds + [c])[k], radix) {
      if k < |ds| {
        assert (ds + [c])[k] == ds[k];
      }
    }
  }

  lemma {:induction false} ToDigitsValue(n: nat, radix: nat)
    requires 2 <= radix <= 36
    ensures DigitsValue(ToDigits(n, radix), radix) == n
    decreases n
  {
    var ds := ToDigits(n, radix);
    if n >= radix {
      var q, d := n / radix, n % radix;
      DivisionStep(n, radix);
      ToDigitsValue(q, radix);
      assert ds == ToDigits(q, radix) + [DigitChar(d)];
      assert ds[..|ds| - 1] == ToDigits(q, radix);
      assert DigitValue(ds[|ds| - 1]).value == d;
      assert n == q * radix + d;
    } else {
      assert DigitValue(ds[0]).value == n;
      assert ds[..0] == [];
    }
  }

  lemma DivisionStep(n: nat, radix: nat)
    requires 2 <= radix <= n
    ensures n == (n / radix) * radix + n % radix && 0 <= n % radix < radix
    ensures 0 < n / radix < n
  {
    var q := n / radix;
    assert q * radix <= n;
    assert q * radix >= q * 2;
  }

  /** Round trip: every `i64` written in any radix, with a `-` when negative,
      parses back to itself. */
  lemma ParseToDigits(v: int, radix: nat)
    requires 2 <= radix <= 36 && I64_MIN <= v <= I64_MAX
    ensures ParseI64(if v < 0 then ['-'] + ToDigits(-v, radix) else ToDigits(v, radix), radix) == Some(v)
  {
    if v < 0 {
      ParseSigned(-v, radix, true);
    } else {
      ParseSigned(v, radix, false);
      assert "" + ToDigits(v, radix) == ToDigits(v, radix);
    }
  }

  /** Digits whose value exceeds `i64::MAX` do not parse. */
  lemma ParseOverflow(ds: seq<char>, radix: nat)
    requires 2 <= radix <= 36 && AllDigitsOf(ds, radix) && DigitsValue(ds, radix) > I64_MAX
    ensures ParseI64(ds, radix).None?
  {
    if ds != [] {
      assert DigitValue(ds[0]).Some?;
    }
  }

  /** The text with every `_` separator removed. */
  function StripSep(s: string): (r: string)
    ensures |r| <= |s|
    ensures forall k :: 0 <= k < |r| ==> r[k] != '_'
  {
    if s == [] then []
    else (if s[0] == '_' then [] else [s[0]]) + StripSep(s[1..])
  }

  lemma {:induction false} StripSepConcat(a: string, b: string)
    ensures StripSep(a + b) == StripSep(a) + StripSep(b)
    decreases |a|
  {
    if a != [] {
      assert (a + b)[0] == a[0];
      assert (a + b)[1..] == a[1..] + b;
      StripSepConcat(a[1..], b);
    } else {
      assert a + b == b;
    }
  }

  /** Removing separators changes nothing in a text without them. */
  lemma {:induction false} StripSepNone(s: string)
    requires forall k :: 0 <= k < |s| ==> s[k] != '_'
    ensures StripSep(s) == s
    decreases |s|
  {
    if s != [] {
      StripSepNone(s[1..]);
    }
  }

  /** `f64::from_str` restricted to the texts the decimal scanner produces
      (digits, `.` and a leading sign): an optional sign, then digits with at
      most one `.`, at least one of them a digit. */
  predicate IsFloatText(s: string)
    ensures IsFloatText(s) ==> |s| > 0 && forall k :: 0 < k < |s| ==> s[k] != '+' && s[k] != '-'
  {
    var body := if |s| > 0 && (s[0] == '+' || s[0] == '-') then s[1..] else s;
    && (exists k :: 0 <= k < |body| && IsAsciiDigit(body[k]))
    && (forall k :: 0 <= k < |body| ==> IsAsciiDigit(body[k]) || body[k] == '.')
    && (forall a, b :: 0 <= a < b < |body| && body[a] == '.' ==> body[b] != '.')
  }

  /** The radix a prefix letter selects after a leading `0`. */
  function RadixOf(c: char): (r: Option<nat>)
    ensures r.Some? ==> r.value == 2 || r.value == 8 || r.value == 16
  {
    if c == 'x' || c == 'X' then Some(16)
    else if c == 'o' || c == 'O' then Some(8)
    else if c == 'b' || c == 'B' then Some(2)
    else None
  }

  /** The characters a run of digits accepts: the radix's digits and `_`. */
  predicate IsRunChar(c: char, radix: nat) {
    c == '_' || IsDigitOf(c, radix)
  }

  /** The end of the run of `radix` digits and separators that starts at `j`. */
  function RunEnd(line: seq<char>, j: nat, radix: nat): (k: nat)
    requires j <= |line|
    decreases |line| - j
    ensures j <= k <= |line|
  {
    if j == |line| || !IsRunChar(line[j], radix) then j else RunEnd(line, j + 1, radix)
  }

  /** A run is the longest stretch of run characters. */
  lemma {:induction false} RunEndMaximal(line: seq<char>, j: nat, radix: nat)
    requires j <= |line|
    decreases |line| - j
    ensures var k := RunEnd(line, j, radix);
            && (forall m :: j <= m < k ==> IsRunChar(line[m], radix))
            && (k == |line| || !IsRunChar(line[k], radix))
  {
    if j < |line| && IsRunChar(line[j], radix) {
      RunEndMaximal(line, j + 1, radix);
    }
  }

  /** Where the number scan stopped and the radix its last prefix selected. */
  datatype NumberScan = NumberScan(end: nat, radix: Option<nat>)

  /** The scanning loop of a number whose first digit is `c0`, from index `j`:
      digits and `_` are taken one at a time; a `.` is taken with the run of
      decimal digits after it; after a leading `0`, a radix letter is taken
      with the run of that radix's digits after it. Anything else stops it. */
  function NumberEnd(line: seq<char>, j: nat, c0: char, radix: Option<nat>): (r: NumberScan)
    requires j <= |line|
    requires radix.Some? ==> radix.value == 2 || radix.value == 8 || radix.value == 16
    decreases |line| - j
    ensures j <= r.end <= |line|
    ensures r.radix.Some? ==> r.radix.value == 2 || r.radix.value == 8 || r.radix.value == 16
    ensures r.radix.Some? && radix.None? ==> c0 == '0' && r.end > j
  {
    if j == |line| then NumberScan(j, radix)
    else
      var ch := line[j];
      if IsAsciiDigit(ch) || ch == '_' then NumberEnd(line, j + 1, c0, radix)
      else if ch == '.' then NumberEnd(line, RunEnd(line, j + 1, 10), c0, radix)
      else if RadixOf(ch).Some? && c0 == '0' then
        NumberEnd(line, RunEnd(line, j + 1, RadixOf(ch).value), c0, RadixOf(ch))
      else NumberScan(j, radix)
  }

  /** The digits after a radix prefix, keeping a leading `-`. */
  function RadixDigits(text: string): (r: string)
    requires |text| >= 2
    ensures |r| + 2 == |text|
    ensures forall k :: 0 < k < |r| ==> r[k] == text[k + 2]
    ensures |r| > 0 ==> r[0] == if text[0] == '-' then '-' else text[2]
  {
    if |text| >= 3 && text[0] == '-' then ['-'] + text[3..] else text[2..]
  }

  /** The token of a scanned number `text` (with a leading `-` when it was
      negated): a radix literal must parse as an `i64` in its radix once the
      prefix and the separators are removed; a decimal literal is an integer
      if it parses as an `i64`, else a float if it is float syntax; otherwise
      the raw text is a malformed number. */
  function NumberToken(text: string, radix: Option<nat>): (t: Token)
    requires radix.Some? ==> (radix.value == 2 || radix.value == 8 || radix.value == 16) && |text| >= 2
    ensures t.IntegerConstant? || t.FloatConstant? || t == LexError(MalformedNumber(text))
    ensures t.FloatConstant? ==> radix.None?
  {
    match radix
    case Some(r) =>
      if ParseI64(StripSep(RadixDigits(text)), r).Some? then IntegerConstant
      else LexError(MalformedNumber(text))
    case None =>
      var out := StripSep(text);
      if ParseI64(out, 10).Some? then IntegerConstant
      else if IsFloatText(out) then FloatConstant
      else LexError(MalformedNumber(text))
  }

  /** The radix case as the source writes it: the first two characters are
      dropped even when the first is the `-` of a negated literal. */
  function NumberTokenAsWritten(text: string, radix: Option<nat>): (t: Token)
    requires radix.Some? ==> (radix.value == 2 || radix.value == 8 || radix.value == 16) && |text| >= 2
    ensures t.IntegerConstant? || t.FloatConstant? || t == LexError(MalformedNumber(text))
  {
    match radix
    case Some(r) =>
      if ParseI64(StripSep(text[2..]), r).Some? then IntegerConstant
      else LexError(MalformedNumber(text))
    case None => NumberToken(text, None)
  }

  /** As written, a negated radix literal is always malformed: the digits
      handed to the parser start with the radix letter. The corrected reading
      accepts it. */
  lemma NegatedRadixLiteral()
    ensures NumberTokenAsWritten("-0x10", Some(16)) == LexError(MalformedNumber("-0x10"))
    ensures NumberToken("-0x10", Some(16)) == IntegerConstant
  {
    var asWritten := "-0x10"[2..];
    assert asWritten == "x10";
    StripSepNone(asWritten);
    assert !IsDigitOf(asWritten[0], 16);
    assert ParseI64(asWritten, 16).None?;
    var corrected := RadixDigits("-0x10");
    assert corrected == ['-'] + "10";
    StripSepNone(corrected);
    assert ToDigits(16, 16) == "10";
    ParseToDigits(-16, 16);
  }

  /** On the texts the scanner builds, the two readings differ only on
      negated radix literals. */
  lemma NumberTokenAgrees(text: string, radix: Option<nat>)
    requires radix.Some? ==> (radix.value == 2 || radix.value == 8 || radix.value == 16) && |text| >= 2
    requires radix.None? || text[0] != '-'
    ensures NumberTokenAsWritten(text, radix) == NumberToken(text, radix)
  {
  }

  /** The number that starts with the digit at `i` (negated when a unary `-`
      preceded it): its token and the index just past it. */
  function LexNumber(line: seq<char>, i: nat, negated: bool): (r: (Token, nat))
    requires i < |line| && IsAsciiDigit(line[i])
    ensures i < r.1 <= |line|
    ensures r.0.IntegerConstant? || r.0.FloatConstant? || r.0.LexError?
  {
    var s := NumberEnd(line, i + 1, line[i], None);
    var text := (if negated then "-" else "") + line[i..s.end];
    (NumberTokenAsWritten(text, s.radix), s.end)
  }

  /** LexNumber in terms of the scan it makes. */
  lemma LexNumberIs(line: seq<char>, i: nat, negated: bool, s: NumberScan)
    requires i < |line| && IsAsciiDigit(line[i])
    requires NumberEnd(line, i + 1, line[i], None) == s
    ensures s.radix.Some? ==> |(if negated then "-" else "") + line[i..s.end]| >= 2
    ensures LexNumber(line, i, negated) == (NumberTokenAsWritten((if negated then "-" else "") + line[i..s.end], s.radix), s.end)
  {
  }

  /** One turn of the scanning loop, by the character at `j`. */
  lemma NumberEndStep(line: seq<char>, j: nat, c0: char, radix: Option<nat>)
    requires j < |line|
    requires radix.Some? ==> radix.value == 2 || radix.value == 8 || radix.value == 16
    ensures var ch := line[j];
      && (IsAsciiDigit(ch) || ch == '_' ==> NumberEnd(line, j, c0, radix) == NumberEnd(line, j + 1, c0, radix))
      && (ch == '.' ==> NumberEnd(line, j, c0, radix) == NumberEnd(line, RunEnd(line, j + 1, 10), c0, radix))
      && (RadixOf(ch).Some? && c0 == '0' ==>
            NumberEnd(line, j, c0, radix) == NumberEnd(line, RunEnd(line, j + 1, RadixOf(ch).value), c0, RadixOf(ch)))
      && (!(IsAsciiDigit(ch) || ch == '_' || ch == '.' || (RadixOf(ch).Some? && c0 == '0')) ==>
            NumberEnd(line, j, c0, radix) == NumberScan(j, radix))
  {
  }

  /** The numeric branch of the lexer: `c` is the first digit, already
      consumed; `negated` records a unary `-` folded into the literal. */
  method ScanNumber(stream: StringStream, c: char, negated: bool) returns (tok: Token)
    requires stream.Valid() && 0 < stream.pos && stream.line[stream.pos - 1] == c
    requires IsAsciiDigit(c)
    modifies stream`pos
    ensures stream.Valid()
    ensures (tok, stream.pos) == LexNumber(stream.line, old(stream.pos) - 1, negated)
  {
    ghost var start := stream.pos - 1;
    ghost var line := stream.line;
    var result := [c];
    assert result == line[start..stream.pos];
    var radixBase: Option<nat> := None;
    while true
      invariant stream.Valid() && start < stream.pos
      invariant result == line[start..stream.pos]
      invariant radixBase.Some? ==> radixBase.value == 2 || radixBase.value == 8 || radixBase.value == 16
      invariant NumberEnd(line, start + 1, c, None) == NumberEnd(line, stream.pos, c, radixBase)
      decreases |line| - stream.pos
    {
      ghost var before := stream.pos;
      var more, taken, radix := NumberStep(stream, c, radixBase);
      if !more {
        break;
      }
      assert line[start..stream.pos] == line[start..before] + line[before..stream.pos];
      result := result + taken;
      radixBase := radix;
    }
    assert NumberEnd(line, start + 1, c, None) == NumberScan(stream.pos, radixBase);
    var text := if negated then ['-'] + result else result;
    assert line[start] == c;
    assert text == (if negated then "-" else "") + line[start..stream.pos];
    LexNumberIs(line, start, negated, NumberScan(stream.pos, radixBase));
    tok := NumberTokenAsWritten(text, radixBase);
  }

  /** One turn of the scanning loop: peek at the next character and take it
      (with the run after a `.` or a radix letter), or report that the number
      ends here. */
  method NumberStep(stream: StringStream, c: char, radix: Option<nat>)
      returns (more: bool, taken: seq<char>, radix': Option<nat>)
    requires stream.Valid()
    requires radix.Some? ==> radix.value == 2 || radix.value == 8 || radix.value == 16
    modifies stream`pos
    ensures stream.Valid() && old(stream.pos) <= stream.pos
    ensures taken == stream.line[old(stream.pos)..stream.pos]
    ensures radix'.Some? ==> radix'.value == 2 || radix'.value == 8 || radix'.value == 16
    ensures if more then old(stream.pos) < stream.pos else stream.pos == old(stream.pos)
    ensures NumberEnd(stream.line, old(stream.pos), c, radix)
         == if more then NumberEnd(stream.line, stream.pos, c, radix') else NumberScan(stream.pos, radix)
  {
    ghost var line, before := stream.line, stream.pos;
    radix' := radix;
    var p := stream.Peek();
    if p.None? {
      return false, [], radix;
    }
    var next := p.value;
    NumberEndStep(line, before, c, radix);
    if IsAsciiDigit(next) || next == '_' {
      var _ := stream.Next();
      return true, [next], radix;
    } else if next == '.' {
      var _ := stream.Next();
      var run := ScanRun(stream, 10);
      return true, [next] + run, radix;
    } else if RadixOf(next).Some? && c == '0' {
      var _ := stream.Next();
      radix' := RadixOf(next);
      var run := ScanRun(stream, radix'.value);
      return true, [next] + run, radix';
    } else {
      return false, [], radix;
    }
  }

  /** The inner loops: consume the run of `radix` digits and separators at
      the cursor and return it. */
  method ScanRun(stream: StringStream, radix: nat) returns (run: seq<char>)
    requires stream.Valid()
    modifies stream`pos
    ensures stream.Valid() && old(stream.pos) <= stream.pos
    ensures stream.pos == RunEnd(stream.line, old(stream.pos), radix)
    ensures run == stream.line[old(stream.pos)..stream.pos]
  {
    ghost var start := stream.pos;
    run := [];
    while true
      invariant stream.Valid() && start <= stream.pos
      invariant run == stream.line[start..stream.pos]
      invariant RunEnd(stream.line, start, radix) == RunEnd(stream.line, stream.pos, radix)
      decreases |stream.line| - stream.pos
    {
      var p := stream.Peek();
      if p.None? || !IsRunChar(p.value, radix) {
        break;
      }
      run := run + [p.value];
      var _ := stream.Next();
    }
  }

  // ---------------------------------------------------------------------
  // Literals written from a value: what the scanner and the parser make of
  // the digits of a number.

  /** A sign and the digits of `n` parse to the signed value exactly when it
      lies in the range of `i64`. */
  lemma ParseSigned(n: nat, radix: nat, negative: bool)
    requires 2 <= radix <= 36
    ensures var v: int := if negative then 0 - n else n;
            ParseI64((if negative then "-" else "") + ToDigits(n, radix), radix)
              == if I64_MIN <= v <= I64_MAX then Some(v) else None
  {
    var ds := ToDigits(n, radix);
    ToDigitsValue(n, radix);
    var s := (if negative then "-" else "") + ds;
    if negative {
      assert s[1..] == ds;
    } else {
      assert s == ds;
      assert DigitValue(ds[0]).Some?;
    }
  }

  /** The digits a number is written with contain no separator. */
  lemma DigitsHaveNoSeparator(ds: seq<char>, radix: nat)
    requires AllDigitsOf(ds, radix)
    ensures forall k :: 0 <= k < |ds| ==> ds[k] != '_'
  {
    forall k | 0 <= k < |ds| ensures ds[k] != '_' {
      assert IsDigitOf(ds[k], radix);
    }
  }

  /** A run of `radix` digits and separators that the text then leaves ends
      where it does. */
  lemma {:induction false} RunEndOver(line: seq<char>, j: nat, run: seq<char>, radix: nat)
    requires PrefixAt(line, j, run)
    requires forall k :: 0 <= k < |run| ==> IsRunChar(run[k], radix)
    requires j + |run| == |line| || !IsRunChar(line[j + |run|], radix)
    decreases |run|
    ensures RunEnd(line, j, radix) == j + |run|
  {
    if run != [] {
      PrefixAtIndex(line, j, run, 0);
      PrefixAtSplit(line, j, [run[0]], run[1..]);
      assert [run[0]] + run[1..] == run;
      RunEndOver(line, j + 1, run[1..], radix);
    }
  }

  /** Decimal digits up to the end of the line are all taken by the scan. */
  lemma {:induction false} NumberEndDigits(line: seq<char>, j: nat, c0: char, radix: Option<nat>)
    requires j <= |line| && forall k :: j <= k < |line| ==> IsAsciiDigit(line[k])
    requires radix.Some? ==> radix.value == 2 || radix.value == 8 || radix.value == 16
    decreases |line| - j
    ensures NumberEnd(line, j, c0, radix) == NumberScan(|line|, radix)
  {
    if j < |line| {
      NumberEndDigits(line, j + 1, c0, radix);
    }
  }

  /** Round trip: `n` written in decimal is lexed as an integer when its
      value (negated when a unary `-` was folded in) fits in an `i64`, and
      as a float when it does not. */
  lemma DecimalLiteral(pre: seq<char>, n: nat, negated: bool)
    ensures var line := pre + ToDigits(n, 10);
            var v: int := if negated then 0 - n else n;
            LexNumber(line, |pre|, negated)
              == (if I64_MIN <= v <= I64_MAX then IntegerConstant else FloatConstant, |line|)
  {
    var ds := ToDigits(n, 10);
    var line := pre + ds;
    assert IsDigitOf(ds[0], 10);
    forall k | |pre| <= k < |line| ensures IsAsciiDigit(line[k]) {
      assert line[k] == ds[k - |pre|];
      assert IsDigitOf(ds[k - |pre|], 10);
    }
    NumberEndDigits(line, |pre| + 1, line[|pre|], None);
    assert line[|pre|..|line|] == ds;
    LexNumberIs(line, |pre|, negated, NumberScan(|line|, None));
    NumberTokenAgrees((if negated then "-" else "") + ds, None);
    DecimalToken(n, negated);
  }

  /** The token of a decimal literal written from a value. */
  lemma DecimalToken(n: nat, negated: bool)
    ensures var v: int := if negated then 0 - n else n;
            NumberToken((if negated then "-" else "") + ToDigits(n, 10), None)
              == if I64_MIN <= v <= I64_MAX then IntegerConstant else FloatConstant
  {
    var line := ToDigits(n, 10);
    var text := (if negated then "-" else "") + line;
    DigitsHaveNoSeparator(line, 10);
    assert forall k :: 0 <= k < |text| ==> text[k] != '_' by {
      forall k | 0 <= k < |text| ensures text[k] != '_' {
        if negated && k > 0 {
          assert text[k] == line[k - 1];
        }
      }
    }
    var v: int := if negated then 0 - n else n;
    assert ParseI64(text, 10) == (if I64_MIN <= v <= I64_MAX then Some(v) else None) by {
      ParseSigned(n, 10, negated);
    }
    assert IsFloatText(text) by {
      SignedDigitsAreFloatText(line, negated);
    }
    DecimalTextToken(text);
  }

  /** Text without separators: an integer if it parses as an `i64`, else a
      float if it reads as one, else malformed. */
  lemma DecimalTextToken(text: string)
    requires forall k :: 0 <= k < |text| ==> text[k] != '_'
    ensures NumberToken(text, None)
         == if ParseI64(text, 10).Some? then IntegerConstant
            else if IsFloatText(text) then FloatConstant
            else LexError(MalformedNumber(text))
  {
    StripSepNone(text);
  }

  /** A sign and decimal digits are float syntax. */
  lemma SignedDigitsAreFloatText(ds: seq<char>, negated: bool)
    requires |ds| > 0 && AllDigitsOf(ds, 10)
    ensures IsFloatText((if negated then "-" else "") + ds)
  {
    var text := (if negated then "-" else "") + ds;
    var body := if |text| > 0 && (text[0] == '+' || text[0] == '-') then text[1..] else text;
    assert IsDigitOf(ds[0], 10);
    assert body == ds;
    forall k | 0 <= k < |body| ensures IsAsciiDigit(body[k]) {
      assert IsDigitOf(ds[k], 10);
    }
    assert IsAsciiDigit(body[0]);
  }

  /** Round trip: `n` written after a radix prefix (`0x`, `0o`, `0b` in
      either case) is an integer when it fits in an `i64`, and otherwise a
      malformed number carrying the whole text. */
  lemma RadixLiteral(pre: seq<char>, n: nat, letter: char)
    requires RadixOf(letter).Some?
    ensures var text := ['0', letter] + ToDigits(n, RadixOf(letter).value);
            LexNumber(pre + text, |pre|, false)
              == (if n <= I64_MAX then IntegerConstant else LexError(MalformedNumber(text)), |pre + text|)
  {
    var radix := RadixOf(letter).value;
    var text := ['0', letter] + ToDigits(n, radix);
    var line := pre + text;
    RadixScan(pre, n, letter);
    assert line[|pre|..|line|] == text;
    LexNumberIs(line, |pre|, false, NumberScan(|line|, Some(radix)));
    assert "" + text == text;
    NumberTokenAgrees(text, Some(radix));
    RadixTextToken(n, letter);
  }

  /** The token of the text `0`, radix letter, digits of `n`. */
  lemma RadixTextToken(n: nat, letter: char)
    requires RadixOf(letter).Some?
    ensures var text := ['0', letter] + ToDigits(n, RadixOf(letter).value);
            NumberToken(text, RadixOf(letter))
              == if n <= I64_MAX then IntegerConstant else LexError(MalformedNumber(text))
  {
    var radix := RadixOf(letter).value;
    var ds := ToDigits(n, radix);
    RadixDigitsToken(letter, ds);
    assert ParseI64(ds, radix).Some? <==> n <= I64_MAX by {
      ParseSigned(n, radix, false);
      assert "" + ds == ds;
    }
  }

  /** As written, every negated radix literal is malformed: the text handed
      to the parser starts with the radix letter, which is never a digit of
      its own radix. */
  lemma NegatedRadixAsWritten(letter: char, ds: seq<char>)
    requires RadixOf(letter).Some?
    ensures var text := "-" + ['0', letter] + ds;
            NumberTokenAsWritten(text, RadixOf(letter)) == LexError(MalformedNumber(text))
  {
    var radix := RadixOf(letter).value;
    var text := "-" + ['0', letter] + ds;
    var parsed := StripSep(text[2..]);
    assert text[2..][0] == letter && letter != '_';
    assert parsed[0] == letter;
    assert !IsDigitOf(parsed[0], radix);
  }

  /** The number after a unary `-` and a radix prefix runs to the end of the
      digits and is malformed as written. */
  lemma NegatedRadixNumber(letter: char, ds: seq<char>)
    requires RadixOf(letter).Some? && AllDigitsOf(ds, RadixOf(letter).value)
    ensures var line := "-" + ['0', letter] + ds;
            LexNumber(line, 1, true) == (LexError(MalformedNumber(line)), |line|)
  {
    var line := "-" + ['0', letter] + ds;
    RadixRunScan(['-'], letter, ds);
    assert ['-'] + (['0', letter] + ds) == line;
    LexNumberIs(line, 1, true, NumberScan(|line|, RadixOf(letter)));
    assert "-" + line[1..|line|] == line;
    NegatedRadixAsWritten(letter, ds);
  }

  /** The corrected reading of a negated radix literal: an integer exactly
      when the negated value fits in an `i64`, i.e. when `n` is at most
      2^63. */
  lemma NegatedRadixCorrected(n: nat, letter: char)
    requires RadixOf(letter).Some?
    ensures var text := "-" + ['0', letter] + ToDigits(n, RadixOf(letter).value);
            NumberToken(text, RadixOf(letter))
              == if n <= 0x8000_0000_0000_0000 then IntegerConstant else LexError(MalformedNumber(text))
  {
    var radix := RadixOf(letter).value;
    var ds := ToDigits(n, radix);
    NegatedDigitsToken(letter, ds);
    ParseSigned(n, radix, true);
  }

  /** The corrected token of `-0`, a radix letter and a run of digits of that
      radix is decided by parsing the signed digits. */
  lemma NegatedDigitsToken(letter: char, ds: seq<char>)
    requires RadixOf(letter).Some? && AllDigitsOf(ds, RadixOf(letter).value)
    ensures var text := "-" + ['0', letter] + ds;
            NumberToken(text, RadixOf(letter))
              == if ParseI64("-" + ds, RadixOf(letter).value).Some? then IntegerConstant
                 else LexError(MalformedNumber(text))
  {
    var text := "-" + ['0', letter] + ds;
    assert RadixDigits(text) == "-" + ds;
    DigitsHaveNoSeparator(ds, RadixOf(letter).value);
    StripSepNone("-" + ds);
  }

  /** The token of `0`, a radix letter and a run of digits of that radix is
      decided by parsing the digits. */
  lemma RadixDigitsToken(letter: char, ds: seq<char>)
    requires RadixOf(letter).Some? && AllDigitsOf(ds, RadixOf(letter).value)
    ensures var text := ['0', letter] + ds;
            NumberToken(text, RadixOf(letter))
              == if ParseI64(ds, RadixOf(letter).value).Some? then IntegerConstant else LexError(MalformedNumber(text))
  {
    var text := ['0', letter] + ds;
    assert RadixDigits(text) == ds;
    DigitsHaveNoSeparator(ds, RadixOf(letter).value);
    StripSepNone(ds);
  }

  /** The scan of a radix literal takes the prefix and every digit. */
  lemma RadixScan(pre: seq<char>, n: nat, letter: char)
    requires RadixOf(letter).Some?
    ensures var line := pre + (['0', letter] + ToDigits(n, RadixOf(letter).value));
            NumberEnd(line, |pre| + 1, '0', None) == NumberScan(|line|, RadixOf(letter))
  {
    RadixRunScan(pre, letter, ToDigits(n, RadixOf(letter).value));
  }

  /** The same for any run of digits of the radix. */
  lemma RadixRunScan(pre: seq<char>, letter: char, ds: seq<char>)
    requires RadixOf(letter).Some? && AllDigitsOf(ds, RadixOf(letter).value)
    ensures var line := pre + (['0', letter] + ds);
            NumberEnd(line, |pre| + 1, '0', None) == NumberScan(|line|, RadixOf(letter))
  {
    var radix := RadixOf(letter).value;
    var line := pre + (['0', letter] + ds);
    forall k | 0 <= k < |ds| ensures IsRunChar(ds[k], radix) {
      assert IsDigitOf(ds[k], radix);
    }
    PrefixAtConcat(pre + ['0', letter], ds, []);
    assert pre + ['0', letter] + ds + [] == line;
    RunEndOver(line, |pre| + 2, ds, radix);
    assert line[|pre| + 1] == letter;
    NumberEndStep(line, |pre| + 1, '0', None);
  }
}
