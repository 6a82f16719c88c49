/** Identifiers and keywords in the Rhai lexer (src/cm_rhai_mode/token.rs):
    the run of ASCII alphanumerics and `_` that starts with a letter or `_`,
    the rule that its first alphanumeric character must be a letter, and the
    lookup in the fixed keyword table. */
module Identifiers {
  import opened Base
  import opened Tokens
  import opened HostStream

  /** The characters an identifier run takes after its first one. */
  predicate IsIdentChar(c: char) {
    IsAsciiAlphanumeric(c) || c == '_'
  }

  /** The characters that start an identifier run. */
  predicate IsIdentStart(c: char) {
    IsAsciiAlpha(c) || c == '_'
  }

  /** The end of the run of identifier characters that starts at `j`. */
  function IdentEnd(line: seq<char>, j: nat): (k: nat)
    requires j <= |line|
    decreases |line| - j
    ensures j <= k <= |line|
  {
    if j == |line| || !IsIdentChar(line[j]) then j else IdentEnd(line, j + 1)
  }

  /** A run is the longest stretch of identifier characters. */
  lemma {:induction false} IdentEndMaximal(line: seq<char>, j: nat)
    requires j <= |line|
    decreases |line| - j
    ensures var k := IdentEnd(line, j);
            && (forall m :: j <= m < k ==> IsIdentChar(line[m]))
            && (k == |line| || !IsIdentChar(line[k]))
  {
    if j < |line| && IsIdentChar(line[j]) {
      IdentEndMaximal(line, j + 1);
    }
  }

  /** The first ASCII alphanumeric character of `s` exists and is a letter. */
  predicate FirstAlphanumericIsLetter(s: string)
    decreases |s|
    ensures |s| > 0 && IsAsciiAlpha(s[0]) ==> FirstAlphanumericIsLetter(s)
    ensures (forall k :: 0 <= k < |s| ==> !IsAsciiAlpha(s[k])) ==> !FirstAlphanumericIsLetter(s)
  {
    if s == [] then false
    else if IsAsciiAlphanumeric(s[0]) then IsAsciiAlpha(s[0])
    else FirstAlphanumericIsLetter(s[1..])
  }

  /** For a run of identifier characters, the rule reads: a letter comes
      before any digit, with only `_` in front of it. */
  lemma {:induction false} FirstAlphanumericIsLetterMeans(s: string)
    requires forall m :: 0 <= m < |s| ==> IsIdentChar(s[m])
    decreases |s|
    ensures FirstAlphanumericIsLetter(s)
        <==> exists k :: 0 <= k < |s| && IsAsciiAlpha(s[k]) && forall m :: 0 <= m < k ==> s[m] == '_'
  {
    if s != [] {
      if IsAsciiAlphanumeric(s[0]) {
        if !IsAsciiAlpha(s[0]) {
          forall k | 0 <= k < |s| && IsAsciiAlpha(s[k])
            ensures exists m :: 0 <= m < k && s[m] != '_'
          {
            assert 0 < k && s[0] != '_';
          }
        }
      } else {
        assert s[0] == '_';
        var t := s[1..];
        FirstAlphanumericIsLetterMeans(t);
        if FirstAlphanumericIsLetter(t) {
          var k :| 0 <= k < |t| && IsAsciiAlpha(t[k]) && forall m :: 0 <= m < k ==> t[m] == '_';
          assert IsAsciiAlpha(s[k + 1]);
          forall m | 0 <= m < k + 1 ensures s[m] == '_' {
            if m > 0 {
              assert s[m] == t[m - 1];
            }
          }
        } else {
          forall k | 0 <= k < |s| && IsAsciiAlpha(s[k])
            ensures exists m :: 0 <= m < k && s[m] != '_'
          {
            assert k > 0;
            assert IsAsciiAlpha(t[k - 1]);
            var m :| 0 <= m < k - 1 && t[m] != '_';
            assert s[m + 1] == t[m];
          }
        }
      }
    }
  }

  /** The token of a scanned identifier run `text`: a malformed identifier
      unless its first alphanumeric character is a letter, else the keyword
      it spells, else a plain identifier. */
  function IdentifierToken(text: string): (t: Token)
    ensures t.LexError? || t.Identifier? || IsKeywordToken(t)
  {
    if !FirstAlphanumericIsLetter(text) then LexError(MalformedIdentifier(text))
    else if Keyword(text).Some? then Keyword(text).value
    else Identifier
  }

  /** The three outcomes, each by what the text is. */
  lemma IdentifierTokenCases(text: string)
    ensures IdentifierToken(text) == LexError(MalformedIdentifier(text)) <==> !FirstAlphanumericIsLetter(text)
    ensures IdentifierToken(text) == Identifier <==> FirstAlphanumericIsLetter(text) && Keyword(text).None?
    ensures IsKeywordToken(IdentifierToken(text)) <==> Keyword(text).Some?
    ensures Keyword(text).Some? ==> IdentifierToken(text) == Keyword(text).value
  {
    if Keyword(text).Some? {
      assert FirstAlphanumericIsLetter(text) by {
        KeywordTableInverse(text);
        var s := KeywordText(Keyword(text).value);
        assert IsAsciiAlpha(s[0]);
      }
    }
  }

  /** Every keyword's spelling lexes as that keyword. */
  lemma KeywordSpellingLexes(k: Token)
    requires IsKeywordToken(k)
    ensures IdentifierToken(KeywordText(k)) == k
  {
    var s := KeywordText(k);
    KeywordTextInTable(k);
    assert IsAsciiAlpha(s[0]);
  }

  /** `_1` and `__` are rejected; `_a` and `x1` are identifiers. */
  lemma MalformedIdentifierExamples()
    ensures IdentifierToken("_1") == LexError(MalformedIdentifier("_1"))
    ensures IdentifierToken("__") == LexError(MalformedIdentifier("__"))
    ensures IdentifierToken("_a") == Identifier
    ensures IdentifierToken("x1") == Identifier
  {
    assert "_1"[1..] == "1";
    assert "__"[1..] == "_";
    assert "_"[1..] == "";
    assert "_a"[1..] == "a";
  }

  /** The identifier that starts at `i`: its token and the index just past it. */
  function LexIdentifier(line: seq<char>, i: nat): (r: (Token, nat))
    requires i < |line| && IsIdentStart(line[i])
    ensures i < r.1 <= |line|
  {
    var e := IdentEnd(line, i + 1);
    (IdentifierToken(line[i..e]), e)
  }

  /** The identifier branch of the lexer: `c` is the first character, already
      consumed; the loop takes the rest of the run. */
  method ScanIdentifier(stream: StringStream, c: char) returns (tok: Token)
    requires stream.Valid() && 0 < stream.pos && stream.line[stream.pos - 1] == c
    requires IsIdentStart(c)
    modifies stream`pos
    ensures stream.Valid()
    ensures (tok, stream.pos) == LexIdentifier(stream.line, old(stream.pos) - 1)
  {
    ghost var start := stream.pos - 1;
    var result := [c];
    assert result == stream.line[start..stream.pos];
    while true
      invariant stream.Valid() && start < stream.pos
      invariant result == stream.line[start..stream.pos]
      invariant IdentEnd(stream.line, start + 1) == IdentEnd(stream.line, stream.pos)
      decreases |stream.line| - stream.pos
    {
      var p := stream.Peek();
      if p.None? || !IsIdentChar(p.value) {
        break;
      }
      result := result + [p.value];
      var _ := stream.Next();
    }
    tok := IdentifierToken(result);
  }

  /** A run of identifier characters that the text then leaves ends where
      it does. */
  lemma {:induction false} IdentEndOver(line: seq<char>, j: nat, run: seq<char>)
    requires PrefixAt(line, j, run)
    requires forall k :: 0 <= k < |run| ==> IsIdentChar(run[k])
    requires j + |run| == |line| || !IsIdentChar(line[j + |run|])
    decreases |run|
    ensures IdentEnd(line, j) == j + |run|
  {
    if run != [] {
      PrefixAtIndex(line, j, run, 0);
      PrefixAtSplit(line, j, [run[0]], run[1..]);
      assert [run[0]] + run[1..] == run;
      IdentEndOver(line, j + 1, run[1..]);
    }
  }

  /** A run of identifier characters that starts an identifier and is not
      followed by another identifier character lexes as the token of that
      run and ends after it. */
  lemma IdentifierRunLexes(pre: seq<char>, w: seq<char>, post: seq<char>)
    requires w != [] && IsIdentStart(w[0])
    requires forall j :: 0 <= j < |w| ==> IsIdentChar(w[j])
    requires post == [] || !IsIdentChar(post[0])
    ensures var line := pre + w + post;
            && IsIdentStart(line[|pre|])
            && LexIdentifier(line, |pre|) == (IdentifierToken(w), |pre| + |w|)
  {
    var line := pre + w + post;
    PrefixAtConcat(pre, w, post);
    PrefixAtIndex(line, |pre|, w, 0);
    PrefixAtSplit(line, |pre|, [w[0]], w[1..]);
    assert [w[0]] + w[1..] == w;
    if post != [] {
      assert line[|pre| + |w|] == post[0];
    }
    IdentEndOver(line, |pre| + 1, w[1..]);
    assert line[|pre|..|pre| + |w|] == w;
  }

  /** A keyword followed by anything but an identifier character lexes as
      that keyword and ends after its spelling. */
  lemma KeywordLexes(pre: seq<char>, k: Token, post: seq<char>)
    requires IsKeywordToken(k)
    requires post == [] || !IsIdentChar(post[0])
    ensures var line := pre + KeywordText(k) + post;
            && IsIdentStart(line[|pre|])
            && LexIdentifier(line, |pre|) == (k, |pre| + |KeywordText(k)|)
  {
    var w := KeywordText(k);
    IdentifierRunLexes(pre, w, post);
    KeywordSpellingLexes(k);
  }
}
