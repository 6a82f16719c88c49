// The block-comment scanner of the Rhai lexer (src/cm_rhai_mode/token.rs):
// the loop that skips the body of a block comment, counting nested openers
// (slash-star) and closers (star-slash), used both when a comment starts and
// when one left open on an earlier line is resumed.
module BlockComment {
  import opened Base
  import opened HostStream

  /** Where a comment scan stopped: the nesting level left open (0 once the
      outermost comment is closed) and the index just past the last character
      read. */
  datatype CommentScan = CommentScan(level: nat, end: nat)

  // The scanning loop from index `i` with `level` comments open. After a
  // `/` or a `*` the following character is always consumed, whether or not
  // it completes an opener or a closer. The loop stops as soon as the level
  // drops to 0, or at the end of the line.
  function BlockScan(line: seq<char>, i: nat, level: nat): (r: CommentScan)
    requires i <= |line| && level > 0
    decreases |line| - i
    ensures i <= r.end <= |line|
  {
    if i == |line| then CommentScan(level, i)
    else
      var c := line[i];
      var j := if (c == '/' || c == '*') && i + 1 < |line| then i + 2 else i + 1;
      var level' :=
        if c == '/' && i + 1 < |line| && line[i + 1] == '*' then level + 1
        else if c == '*' && i + 1 < |line| && line[i + 1] == '/' then level - 1
        else level;
      if level' == 0 then CommentScan(0, j) else BlockScan(line, j, level')
  }

  // A scan either closes every open comment, just past a closer, or runs to
  // the end of the line with comments still open.
  lemma {:induction false} BlockScanStops(line: seq<char>, i: nat, level: nat)
    requires i <= |line| && level > 0
    decreases |line| - i
    ensures var r := BlockScan(line, i, level);
            && (r.level == 0 ==> i + 2 <= r.end && line[r.end - 2] == '*' && line[r.end - 1] == '/')
            && (r.level > 0 ==> r.end == |line|)
  {
    if i < |line| {
      var c := line[i];
      var j := if (c == '/' || c == '*') && i + 1 < |line| then i + 2 else i + 1;
      var level' :=
        if c == '/' && i + 1 < |line| && line[i + 1] == '*' then level + 1
        else if c == '*' && i + 1 < |line| && line[i + 1] == '/' then level - 1
        else level;
      if level' != 0 {
        BlockScanStops(line, j, level');
      }
    }
  }

  /** The comment loop on the stream: `level` comments are open and the
      cursor is just past the last character read. Returns the level left
      open. */
  method SkipBlockComment(stream: StringStream, level: nat) returns (level': nat)
    requires stream.Valid() && level > 0
    modifies stream`pos
    ensures stream.Valid()
    ensures CommentScan(level', stream.pos) == BlockScan(stream.line, old(stream.pos), level)
  {
    ghost var start := stream.pos;
    level' := level;
    while true
      invariant stream.Valid() && start <= stream.pos && level' > 0
      invariant BlockScan(stream.line, start, level) == BlockScan(stream.line, stream.pos, level')
      decreases |stream.line| - stream.pos
    {
      var c := stream.Next();
      if c.None? {
        break;
      }
      if c.value == '/' {
        var d := stream.Next();
        if d == Some('*') {
          level' := level' + 1;
        }
      } else if c.value == '*' {
        var d := stream.Next();
        if d == Some('/') {
          level' := level' - 1;
        }
      }
      if level' == 0 {
        break;
      }
    }
  }

  // ---------------------------------------------------------------------
  // A reference reading of comment text as a sequence of pieces, each of
  // which changes the nesting level by a known amount.

  // One piece of comment text: a character that is neither `/` nor `*`, an
  // opener (slash-star), a closer (star-slash), or a `/` or `*` together with
  // the character after it that does not complete a delimiter.
  datatype Piece = Char(c: char) | Open | Close | Stray(lead: char, next: char)

  predicate WellFormed(p: Piece) {
    match p
    case Char(c) => c != '/' && c != '*'
    case Open => true
    case Close => true
    case Stray(lead, next) => (lead == '/' && next != '*') || (lead == '*' && next != '/')
  }

  function Text(p: Piece): seq<char> {
    match p
    case Char(c) => [c]
    case Open => ['/', '*']
    case Close => ['*', '/']
    case Stray(lead, next) => [lead, next]
  }

  /** The change of nesting level a piece makes. */
  function Delta(p: Piece): int {
    match p
    case Open => 1
    case Close => -1
    case _ => 0
  }

  function Render(ps: seq<Piece>): seq<char> {
    if ps == [] then [] else Text(ps[0]) + Render(ps[1..])
  }

  /** The number of openers minus the number of closers. */
  function Net(ps: seq<Piece>): int {
    if ps == [] then 0 else Delta(ps[0]) + Net(ps[1..])
  }

  /** Starting at `level`, no prefix of the pieces closes the outermost comment. */
  predicate StaysOpen(ps: seq<Piece>, level: int) {
    ps == [] || (level + Delta(ps[0]) > 0 && StaysOpen(ps[1..], level + Delta(ps[0])))
  }

  predicate AllWellFormed(ps: seq<Piece>) {
    forall k :: 0 <= k < |ps| ==> WellFormed(ps[k])
  }

  /** One piece is scanned as one step of the loop. */
  lemma ScanPiece(line: seq<char>, i: nat, p: Piece, level: nat)
    requires WellFormed(p) && level > 0 && level + Delta(p) > 0
    requires PrefixAt(line, i, Text(p))
    ensures BlockScan(line, i, level) == BlockScan(line, i + |Text(p)|, level + Delta(p))
  {
    PrefixAtIndex(line, i, Text(p), 0);
    if |Text(p)| == 2 {
      PrefixAtIndex(line, i, Text(p), 1);
    }
  }

  /** Text that never closes the outermost comment leaves the level raised by
      the number of openers and lowered by the number of closers it holds. */
  lemma {:induction false} ScanPieces(line: seq<char>, i: nat, ps: seq<Piece>, level: nat)
    returns (end: nat)
    requires AllWellFormed(ps) && level > 0 && StaysOpen(ps, level)
    requires PrefixAt(line, i, Render(ps))
    ensures end == i + |Render(ps)| && level + Net(ps) > 0
    ensures BlockScan(line, i, level) == BlockScan(line, end, level + Net(ps))
    decreases |ps|
  {
    if ps == [] {
      end := i;
    } else {
      var j, level' := ScanPiecesHead(line, i, ps, level);
      end := ScanPieces(line, j, ps[1..], level');
    }
  }

  /** One step of ScanPieces: the first piece is scanned and the rest of the
      text follows it. */
  lemma ScanPiecesHead(line: seq<char>, i: nat, ps: seq<Piece>, level: nat) returns (j: nat, level': nat)
    requires AllWellFormed(ps) && level > 0 && StaysOpen(ps, level) && ps != []
    requires PrefixAt(line, i, Render(ps))
    ensures j + |Render(ps[1..])| == i + |Render(ps)| && level' + Net(ps[1..]) == level + Net(ps)
    ensures level' > 0 && AllWellFormed(ps[1..]) && StaysOpen(ps[1..], level')
    ensures PrefixAt(line, j, Render(ps[1..]))
    ensures BlockScan(line, i, level) == BlockScan(line, j, level')
  {
    var p, t, rest := ps[0], Text(ps[0]), Render(ps[1..]);
    assert Render(ps) == t + rest;
    assert WellFormed(p);
    assert AllWellFormed(ps[1..]) by {
      forall k | 0 <= k < |ps[1..]| ensures WellFormed(ps[1..][k]) {
        assert ps[1..][k] == ps[k + 1];
      }
    }
    PrefixAtSplit(line, i, t, rest);
    ScanPiece(line, i, p, level);
    j, level' := i + |t|, level + Delta(p);
  }

  /** A line that ends inside the comment: the level persisted for the next
      line is the starting level plus openers minus closers. */
  lemma CommentLeftOpen(pre: seq<char>, ps: seq<Piece>, level: nat)
    requires AllWellFormed(ps) && level > 0 && StaysOpen(ps, level)
    ensures level + Net(ps) > 0
    ensures BlockScan(pre + Render(ps), |pre|, level)
         == CommentScan(level + Net(ps), |pre| + |Render(ps)|)
  {
    PrefixAtConcat(pre, Render(ps), []);
    assert pre + Render(ps) + [] == pre + Render(ps);
    var end := ScanPieces(pre + Render(ps), |pre|, ps, level);
  }

  // A comment closes exactly at the closer that brings the level to 0; the
  // scan stops just past it, whatever follows.
  lemma CommentCloses(line: seq<char>, i: nat, ps: seq<Piece>, level: nat)
    requires AllWellFormed(ps) && level > 0 && StaysOpen(ps, level) && level + Net(ps) == 1
    requires PrefixAt(line, i, Render(ps) + ['*', '/'])
    ensures BlockScan(line, i, level) == CommentScan(0, i + |Render(ps)| + 2)
  {
    PrefixAtSplit(line, i, Render(ps), ['*', '/']);
    var j := ScanPieces(line, i, ps, level);
    PrefixAtIndex(line, j, ['*', '/'], 0);
    PrefixAtIndex(line, j, ['*', '/'], 1);
  }

  // Star-star-slash does not close a comment: the second `*` is consumed
  // with the first, and the `/` that follows is an ordinary character.
  lemma StarStarSlashStaysOpen()
    ensures BlockScan("**/", 0, 1) == CommentScan(1, 3)
  {
    assert BlockScan("**/", 2, 1) == CommentScan(1, 3);
  }

  // A comment opened on one line and closed on the next: the line
  // "slash-star a" leaves level 1 persisted, and resuming on the line
  // "b star-slash c" closes it just after the closer.
  lemma CommentAcrossLines()
    ensures BlockScan("/* a", 2, 1) == CommentScan(1, 4)
    ensures BlockScan("b */ c", 0, 1) == CommentScan(0, 4)
  {
    assert BlockScan("/* a", 3, 1) == CommentScan(1, 4);
    assert BlockScan("b */ c", 2, 1) == CommentScan(0, 4);
    assert BlockScan("b */ c", 1, 1) == CommentScan(0, 4);
  }
}
