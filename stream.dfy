/** The editor's line stream (`codemirror::StringStream`, an external binding
    in src/codemirror.rs) reduced to what the lexer calls: the text of the
    current line, a cursor into it, `next`, `peek`, `skip_to_end`, and whether
    `look_ahead(1)` finds another line. */
module HostStream {
  import opened Base

  class StringStream {
    /** The current line. */
    const line: seq<char>
    /** `look_ahead(1).is_some()`: another line follows this one. */
    const hasNextLine: bool
    /** The cursor: the index of the next character `next` returns. */
    var pos: nat

    predicate Valid()
      reads this
    {
      pos <= |line|
    }

    constructor (line: seq<char>, pos: nat, hasNextLine: bool)
      requires pos <= |line|
      ensures Valid()
      ensures this.line == line && this.pos == pos && this.hasNextLine == hasNextLine
    {
      this.line := line;
      this.pos := pos;
      this.hasNextLine := hasNextLine;
    }

    /** `peek()`: the next character, not consumed; None at the end of the line. */
    function Peek(): (c: Option<char>)
      reads this
      requires Valid()
      ensures c.Some? <==> pos < |line|
      ensures c.Some? ==> c.value == line[pos]
    {
      if pos < |line| then Some(line[pos]) else None
    }

    /** `next()`: consume and return the next character; None at the end of the line. */
    method Next() returns (c: Option<char>)
      requires Valid()
      modifies this`pos
      ensures Valid()
      ensures c == old(Peek())
      ensures pos == if old(pos) < |line| then old(pos) + 1 else old(pos)
    {
      c := Peek();
      if pos < |line| {
        pos := pos + 1;
      }
    }

    /** `skip_to_end()`: discard the rest of the line. */
    method SkipToEnd()
      requires Valid()
      modifies this`pos
      ensures Valid() && pos == |line|
    {
      pos := |line|;
    }
  }
}
