/** The stream adapter of the editor mode (src/cm_rhai_mode.rs): the editor's
    line buffer hands out UTF-16 code units one at a time, and the adapter
    assembles them into Unicode scalar values for the tokenizer, with a
    one-character push-back buffer. Surrogate pairs are combined as in
    section 2.2 of RFC 2781; an unpaired surrogate becomes U+FFFD. */
module Utf16Stream {
  import opened Base

  newtype u16 = x: int | 0 <= x < 0x1_0000

  const REPLACEMENT_CHARACTER: char := 0xFFFD as char

  predicate IsSurrogate(u: u16) {
    0xD800 <= u <= 0xDFFF
  }

  predicate IsHighSurrogate(u: u16) {
    0xD800 <= u <= 0xDBFF
  }

  predicate IsLowSurrogate(u: u16) {
    0xDC00 <= u <= 0xDFFF
  }

  /** A code unit that is not a surrogate stands for itself. */
  function UnitChar(u: u16): (c: char)
    requires !IsSurrogate(u)
    ensures c as int == u as int
  {
    u as int as char
  }

  /** The scalar value of a surrogate pair (section 2.2 of RFC 2781). */
  function PairChar(hi: u16, lo: u16): (c: char)
    requires IsHighSurrogate(hi) && IsLowSurrogate(lo)
    ensures 0x1_0000 <= c as int < 0x11_0000
  {
    (0x1_0000 + (hi as int - 0xD800) * 0x400 + (lo as int - 0xDC00)) as char
  }

  /** Whether the units at `pos` and `pos + 1` form a surrogate pair. */
  predicate PairAt(units: seq<u16>, pos: nat) {
    pos + 1 < |units| && IsHighSurrogate(units[pos]) && IsLowSurrogate(units[pos + 1])
  }

  /** The character `get_next` reads at `pos` (None at the end) and the
      position after it: a pair takes two units, anything else one; a
      surrogate that is not the first half of a pair reads as U+FFFD. */
  function DecodeAt(units: seq<u16>, pos: nat): (r: (Option<char>, nat))
    requires pos <= |units|
    ensures r.0.None? <==> pos == |units|
    ensures r.0.None? ==> r.1 == pos
    ensures r.0.Some? ==> pos < r.1 <= |units|
  {
    if pos == |units| then (None, pos)
    else if !IsSurrogate(units[pos]) then (Some(UnitChar(units[pos])), pos + 1)
    else if pos + 1 == |units| then (Some(REPLACEMENT_CHARACTER), pos + 1)
    else if PairAt(units, pos) then (Some(PairChar(units[pos], units[pos + 1])), pos + 2)
    else (Some(REPLACEMENT_CHARACTER), pos + 1)
  }

  /** Two units are taken exactly for a surrogate pair; a surrogate that
      does not start a pair yields U+FFFD, and so does U+FFFD itself;
      every other unit yields itself. */
  lemma DecodeAtCases(units: seq<u16>, pos: nat)
    requires pos < |units|
    ensures DecodeAt(units, pos).1 == pos + 2 <==> PairAt(units, pos)
    ensures DecodeAt(units, pos).1 == pos + 1 <==> !PairAt(units, pos)
    ensures (DecodeAt(units, pos).0 == Some(REPLACEMENT_CHARACTER))
        <==> (IsSurrogate(units[pos]) && !PairAt(units, pos)) || units[pos] == 0xFFFD
    ensures !IsSurrogate(units[pos]) ==> DecodeAt(units, pos).0.value as int == units[pos] as int
  {
    if PairAt(units, pos) {
      assert DecodeAt(units, pos).0.value as int >= 0x1_0000;
    }
  }

  /** The UTF-16 encoding of one scalar value (section 2.1 of RFC 2781). */
  function Encode(c: char): (us: seq<u16>)
    ensures |us| == 1 || |us| == 2
  {
    var v := c as int;
    if v < 0x1_0000 then [v as u16]
    else
      var w := v - 0x1_0000;
      [(0xD800 + w / 0x400) as u16, (0xDC00 + w % 0x400) as u16]
  }

  /** The encoding of a string. */
  function EncodeAll(s: seq<char>): (us: seq<u16>)
    decreases |s|
  {
    if s == [] then [] else Encode(s[0]) + EncodeAll(s[1..])
  }

  /** Everything `get_next` yields from `pos` to the end. */
  function DecodeFrom(units: seq<u16>, pos: nat): (s: seq<char>)
    requires pos <= |units|
    decreases |units| - pos
    ensures |s| <= |units| - pos
  {
    var (c, next) := DecodeAt(units, pos);
    if c.None? then [] else [c.value] + DecodeFrom(units, next)
  }

  /** An encoded character is read back whatever precedes or follows it. */
  lemma DecodeEncoded(pre: seq<u16>, c: char, post: seq<u16>)
    ensures var units := pre + Encode(c) + post;
            DecodeAt(units, |pre|) == (Some(c), |pre| + |Encode(c)|)
  {
    var units := pre + Encode(c) + post;
    var us := Encode(c);
    assert units[|pre|] == us[0];
    if |us| == 2 {
      assert units[|pre| + 1] == us[1];
      var w := c as int - 0x1_0000;
      assert PairAt(units, |pre|);
      assert (w / 0x400) * 0x400 + w % 0x400 == w;
    }
  }

  /** Decoding undoes encoding: every string survives the trip through
      UTF-16 code units. */
  lemma {:induction false} DecodeEncodeAll(pre: seq<u16>, s: seq<char>)
    decreases |s|
    ensures DecodeFrom(pre + EncodeAll(s), |pre|) == s
  {
    if s == [] {
      assert pre + EncodeAll(s) == pre;
    } else {
      var c := s[0];
      var post := EncodeAll(s[1..]);
      assert pre + EncodeAll(s) == pre + Encode(c) + post;
      DecodeEncoded(pre, c, post);
      assert pre + Encode(c) + post == (pre + Encode(c)) + post;
      DecodeEncodeAll(pre + Encode(c), s[1..]);
    }
  }

  /** The editor's line buffer as code units, with a cursor. */
  class CodeUnitStream {
    const units: seq<u16>
    var pos: nat

    predicate Valid()
      reads this
    {
      pos <= |units|
    }

    constructor (units: seq<u16>)
      ensures Valid() && this.units == units && pos == 0
    {
      this.units := units;
      pos := 0;
    }

    /** `peek`: the next unit, without consuming it. */
    function Peek(): (u: Option<u16>)
      reads this
      requires Valid()
      ensures u.None? <==> pos == |units|
      ensures u.Some? ==> u.value == units[pos]
    {
      if pos == |units| then None else Some(units[pos])
    }

    /** `next`: the next unit, consumed. */
    method Next() returns (u: Option<u16>)
      requires Valid()
      modifies this`pos
      ensures Valid()
      ensures u == old(Peek())
      ensures pos == if u.None? then old(pos) else old(pos) + 1
    {
      if pos == |units| {
        u := None;
      } else {
        u := Some(units[pos]);
        pos := pos + 1;
      }
    }

    /** `back_up(n)`: give back the last `n` units. */
    method BackUp(n: nat)
      requires Valid() && n <= pos
      modifies this`pos
      ensures Valid() && pos == old(pos) - n
    {
      pos := pos - n;
    }
  }

  /** What the peek of the source computes from the cursor: the character
      and where the cursor is left. */
  function PeekAsWritten(units: seq<u16>, pos: nat): (r: (Option<char>, nat))
    requires pos <= |units|
    ensures r.0.None? <==> pos == |units|
    ensures r.1 == pos || (r.1 == pos + 1 && pos + 1 == |units| && IsSurrogate(units[pos]))
  {
    if pos == |units| then (None, pos)
    else if !IsSurrogate(units[pos]) then (Some(UnitChar(units[pos])), pos)
    else if pos + 1 == |units| then (Some(REPLACEMENT_CHARACTER), pos + 1)
    else (DecodeAt(units, pos).0, pos)
  }

  /** The peek of the source sees the character `get_next` reads, but
      leaves the cursor one unit further exactly when an unpaired surrogate
      is the last unit of the line; the following `get_next` then reads
      nothing, so that U+FFFD is never consumed. */
  lemma PeekAsWrittenMovesCursor(units: seq<u16>, pos: nat)
    requires pos <= |units|
    ensures PeekAsWritten(units, pos).0 == DecodeAt(units, pos).0
    ensures PeekAsWritten(units, pos).1 != pos <==> pos + 1 == |units| && IsSurrogate(units[pos])
    ensures PeekAsWritten(units, pos).1 != pos ==>
              DecodeAt(units, PeekAsWritten(units, pos).1).0.None? && DecodeAt(units, pos).0 == Some(REPLACEMENT_CHARACTER)
  {
  }

  /** A line holding only a high surrogate: peeking yields U+FFFD and moves
      the cursor past it. */
  lemma LoneSurrogatePeek()
    ensures PeekAsWritten([0xD800], 0) == (Some(REPLACEMENT_CHARACTER), 1)
    ensures DecodeAt([0xD800], 0) == (Some(REPLACEMENT_CHARACTER), 1)
    ensures DecodeAt([0xD800], 1) == (None, 1)
  {
  }

  /** `StreamAdapter`: the code-unit stream and the pushed-back character. */
  class StreamAdapter {
    var buf: Option<char>
    const stream: CodeUnitStream

    predicate Valid()
      reads this, stream
    {
      stream.Valid()
    }

    constructor (stream: CodeUnitStream, buf: Option<char>)
      requires stream.Valid()
      ensures Valid() && this.stream == stream && this.buf == buf
    {
      this.stream := stream;
      this.buf := buf;
    }

    /** `unget`: push a character back; it is the next one read. */
    method Unget(ch: char)
      requires Valid()
      modifies this`buf
      ensures Valid() && buf == Some(ch)
    {
      buf := Some(ch);
    }

    /** `get_next`: the pushed-back character if there is one, else the
        next decoded character. */
    method GetNext() returns (r: Option<char>)
      requires Valid()
      modifies this`buf, stream`pos
      ensures Valid() && buf.None?
      ensures old(buf).Some? ==> r == old(buf) && stream.pos == old(stream.pos)
      ensures old(buf).None? ==> (r, stream.pos) == DecodeAt(stream.units, old(stream.pos))
    {
      if buf.Some? {
        r := buf;
        buf := None;
        return;
      }
      var first := stream.Next();
      if first.None? {
        return None;
      }
      var u := first.value;
      if !IsSurrogate(u) {
        return Some(UnitChar(u));
      }
      var second := stream.Next();
      if second.None? {
        return Some(REPLACEMENT_CHARACTER);
      }
      if IsHighSurrogate(u) && IsLowSurrogate(second.value) {
        return Some(PairChar(u, second.value));
      }
      stream.BackUp(1);
      return Some(REPLACEMENT_CHARACTER);
    }

    /** `peek_next` as the source has it: on an unpaired surrogate that
        ends the line it leaves the cursor one unit further. */
    method PeekNextAsWritten() returns (r: Option<char>)
      requires Valid()
      modifies stream`pos
      ensures Valid()
      ensures old(buf).Some? ==> r == buf && stream.pos == old(stream.pos)
      ensures old(buf).None? ==> (r, stream.pos) == PeekAsWritten(stream.units, old(stream.pos))
    {
      if buf.Some? {
        return buf;
      }
      var first := stream.Peek();
      if first.None? {
        return None;
      }
      var u := first.value;
      if !IsSurrogate(u) {
        return Some(UnitChar(u));
      }
      var _ := stream.Next();
      var second := stream.Peek();
      if second.None? {
        return Some(REPLACEMENT_CHARACTER);
      }
      stream.BackUp(1);
      if IsHighSurrogate(u) && IsLowSurrogate(second.value) {
        return Some(PairChar(u, second.value));
      }
      return Some(REPLACEMENT_CHARACTER);
    }

    /** `peek_next` with the cursor restored on every path: it yields what
        `get_next` would and leaves the stream and the buffer as they were. */
    method PeekNext() returns (r: Option<char>)
      requires Valid()
      modifies stream`pos
      ensures Valid() && stream.pos == old(stream.pos)
      ensures r == if buf.Some? then buf else DecodeAt(stream.units, stream.pos).0
    {
      if buf.Some? {
        return buf;
      }
      var first := stream.Peek();
      if first.None? {
        return None;
      }
      var u := first.value;
      if !IsSurrogate(u) {
        return Some(UnitChar(u));
      }
      var _ := stream.Next();
      var second := stream.Peek();
      stream.BackUp(1);
      if second.None? {
        return Some(REPLACEMENT_CHARACTER);
      }
      if IsHighSurrogate(u) && IsLowSurrogate(second.value) {
        return Some(PairChar(u, second.value));
      }
      return Some(REPLACEMENT_CHARACTER);
    }
  }
}
