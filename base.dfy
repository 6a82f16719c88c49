/** Small shared vocabulary: Option and Result types and the character classes that the
    lexer and the editor mode take from Rust's `char` API. */
module Base {

  datatype Option<+T> = None | Some(value: T)

  datatype Result<+T, +E> = Ok(value: T) | Err(error: E)

  /** `char::is_ascii_digit` */
  predicate IsAsciiDigit(c: char) {
    '0' <= c <= '9'
  }

  /** `char::is_ascii_alphabetic` */
  predicate IsAsciiAlpha(c: char) {
    'a' <= c <= 'z' || 'A' <= c <= 'Z'
  }

  /** `char::is_ascii_alphanumeric` */
  predicate IsAsciiAlphanumeric(c: char) {
    IsAsciiDigit(c) || IsAsciiAlpha(c)
  }

  /** `char::is_whitespace`: the Unicode White_Space property, written out. */
  predicate IsWhitespace(c: char)
    ensures c == ' ' || c == '\t' || c == '\n' || c == '\r' ==> IsWhitespace(c)
    ensures IsWhitespace(c) ==> !IsAsciiAlphanumeric(c) && c != '_' && c != '\0'
  {
    || '\U{9}' <= c <= '\U{D}'
    || c == '\U{20}'
    || c == '\U{85}'
    || c == '\U{A0}'
    || c == '\U{1680}'
    || '\U{2000}' <= c <= '\U{200A}'
    || c == '\U{2028}'
    || c == '\U{2029}'
    || c == '\U{202F}'
    || c == '\U{205F}'
    || c == '\U{3000}'
  }

  /** `char::to_digit(36)` without the radix bound: the value a character
      denotes as a digit, or None when it is not a digit in any radix. */
  function DigitValue(c: char): (r: Option<nat>)
    ensures r.Some? <==> IsAsciiAlphanumeric(c)
    ensures r.Some? ==> r.value < 36
    ensures r.Some? && r.value < 10 <==> IsAsciiDigit(c)
  {
    if IsAsciiDigit(c) then Some(c as int - '0' as int)
    else if 'a' <= c <= 'z' then Some(c as int - 'a' as int + 10)
    else if 'A' <= c <= 'Z' then Some(c as int - 'A' as int + 10)
    else None
  }

  /** `char::to_digit(radix).is_some()` */
  predicate IsDigitOf(c: char, radix: nat) {
    DigitValue(c).Some? && DigitValue(c).value < radix
  }

  /** The lower-case character that denotes digit `d` (the inverse of DigitValue). */
  function DigitChar(d: nat): (c: char)
    requires d < 36
    ensures DigitValue(c) == Some(d)
  {
    if d < 10 then ('0' as int + d) as char else ('a' as int + d - 10) as char
  }

  /** `w` occurs in `line` at index `i`. */
  predicate PrefixAt(line: seq<char>, i: nat, w: seq<char>) {
    i + |w| <= |line| && line[i..i + |w|] == w
  }

  lemma PrefixAtConcat(pre: seq<char>, w: seq<char>, post: seq<char>)
    ensures PrefixAt(pre + w + post, |pre|, w)
  {
    assert (pre + w + post)[|pre|..|pre| + |w|] == w;
  }

  lemma PrefixAtSplit(line: seq<char>, i: nat, a: seq<char>, b: seq<char>)
    requires PrefixAt(line, i, a + b)
    ensures PrefixAt(line, i, a) && PrefixAt(line, i + |a|, b)
  {
    assert line[i..i + |a|] == line[i..i + |a + b|][..|a|];
    assert line[i + |a|..i + |a| + |b|] == line[i..i + |a + b|][|a|..];
  }

  /** The character at offset `k` of an occurrence. */
  lemma PrefixAtIndex(line: seq<char>, i: nat, w: seq<char>, k: nat)
    requires PrefixAt(line, i, w) && k < |w|
    ensures line[i + k] == w[k]
  {
    assert line[i..i + |w|][k] == line[i + k];
  }
}
