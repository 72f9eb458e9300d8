/** Splitting a skill document into frontmatter and body (frontmatter.rs:190-239), and rendering one
    (projection.rs:162-195). */
module SkillDocuments {
  import opened Outcome
  import opened LineEndings

  const DASHES: Text := [0x2d, 0x2d, 0x2d]

  /** The end of the line that starts at `i`: its LF, or the end of the text. */
  function LineEnd(s: Text, i: nat): (e: nat)
    requires i <= |s|
    ensures i <= e <= |s| && (e < |s| ==> s[e] == LF) && forall k | i <= k < e :: s[k] != LF
    decreases |s| - i
  {
    if i == |s| || s[i] == LF then i else LineEnd(s, i + 1)
  }

  /** The line that starts at `i` is exactly three dashes, ended by LF, CR LF or the end of the text. */
  predicate Delimiter(s: Text, i: nat)
    requires i <= |s|
  {
    var line := s[i..LineEnd(s, i)];
    line == DASHES || line == DASHES + [CR]
  }

  predicate LineStart(s: Text, from: nat, i: nat) {
    i == from <= |s| || (from < i <= |s| && s[i - 1] == LF)
  }

  /** Where the frontmatter starts, if the document opens with a delimiter line. */
  function Opening(s: Text): nat {
    if DASHES + [LF] <= s then 4 else if DASHES + [CR, LF] <= s then 5 else 0
  }

  /** The closing delimiter is the first one after the opening. */
  predicate Closing(s: Text, i: nat) {
    && 0 < Opening(s) <= i <= |s| && LineStart(s, Opening(s), i) && Delimiter(s, i)
    && forall k | Opening(s) <= k < i && LineStart(s, Opening(s), k) :: !Delimiter(s, k)
  }

  function AfterLine(s: Text, i: nat): (a: nat)
    requires i <= |s|
    ensures i <= a <= |s|
  {
    var e := LineEnd(s, i);
    if e == |s| then e else e + 1
  }

  lemma ClosingUnique(s: Text, i: nat, j: nat)
    requires Closing(s, i) && Closing(s, j)
    ensures i == j
  {
    assert !(i < j) && !(j < i);
  }

  /** Splits a document at its closing delimiter; nothing is found exactly when there is none. */
  method SplitFrontmatter(source: Text) returns (r: Option<(Text, Text)>)
    ensures r.None? <==> forall i: nat :: !Closing(source, i)
    ensures forall i: nat | Closing(source, i) ::
              r == Some((source[Opening(source)..i], source[AfterLine(source, i)..]))
  {
    var start := 0;
    if DASHES + [LF] <= source {
      start := 4;
    } else if DASHES + [CR, LF] <= source {
      start := 5;
    } else {
      return None;
    }
    var lineStart := start;
    while lineStart <= |source|
      invariant start == Opening(source) <= lineStart <= |source| && LineStart(source, start, lineStart)
      invariant forall k | start <= k < lineStart && LineStart(source, start, k) :: !Delimiter(source, k)
      decreases |source| - lineStart
    {
      var lineEnd := LineEnd(source, lineStart);
      var line := source[lineStart..lineEnd];
      if line != [] && line[|line| - 1] == CR {
        line := line[..|line| - 1];
      }
      StripSuffix(source, lineStart, line);
      var afterLine := if lineEnd == |source| then lineEnd else lineEnd + 1;
      if line == DASHES {
        assert Closing(source, lineStart);
        forall i: nat | Closing(source, i)
          ensures i == lineStart
        {
          ClosingUnique(source, i, lineStart);
        }
        return Some((source[start..lineStart], source[afterLine..]));
      }
      if lineEnd == |source| {
        assert forall k | lineStart < k <= |source| :: !LineStart(source, start, k);
        assert forall i: nat :: !Closing(source, i);
        break;
      }
      lineStart := afterLine;
    }
    return None;
  }

  lemma StripSuffix(s: Text, i: nat, line: Text)
    requires i <= |s|
    requires var whole := s[i..LineEnd(s, i)];
      line == if whole != [] && whole[|whole| - 1] == CR then whole[..|whole| - 1] else whole
    ensures line == DASHES <==> Delimiter(s, i)
  {
    var whole := s[i..LineEnd(s, i)];
    if line != whole {
      assert whole == line + [CR];
    }
    if whole == DASHES + [CR] {
      assert whole[..3] == DASHES;
    }
  }

  /** A rendered document: the printed manifest between delimiters, then the normalised body. */
  method ProjectDocument(frontmatter: Text, body: Text) returns (document: Text)
    ensures document == Document(frontmatter, NormalizedBody(body))
  {
    document := DASHES + [LF];
    document := document + frontmatter;
    document := document + (DASHES + [LF]);
    var trimmed := TrimEnd(ReplaceCr(ReplaceCrLf(body)));
    if trimmed != [] {
      document := document + trimmed;
      document := document + [LF];
    }
    assert document == Document(frontmatter, NormalizedBody(body));
  }

  function Document(frontmatter: Text, body: Text): Text {
    (DASHES + [LF]) + frontmatter + (DASHES + [LF]) + body
  }

  /** What the YAML printer is relied on for: the last line is ended, and no line is a delimiter. */
  predicate Printed(y: Text) {
    && (y == [] || y[|y| - 1] == LF)
    && forall i | 0 <= i < |y| && LineStart(y, 0, i) :: !Delimiter(y, i)
  }

  lemma {:induction false} LineEndWithin(a: Text, y: Text, b: Text, i: nat)
    requires i < |y| && y[|y| - 1] == LF
    ensures LineEnd(y, i) < |y| && LineEnd(a + y + b, |a| + i) == |a| + LineEnd(y, i)
    decreases |y| - i
  {
    assert (a + y + b)[|a| + i] == y[i];
    if y[i] != LF {
      LineEndWithin(a, y, b, i + 1);
    }
  }

  lemma DelimiterAt(a: Text, b: Text)
    ensures Delimiter(a + (DASHES + [LF]) + b, |a|)
    ensures AfterLine(a + (DASHES + [LF]) + b, |a|) == |a| + 4
  {
    var open := DASHES + [LF];
    var s := a + open + b;
    LineEndWithin(a, open, b, 0);
    assert LineEnd(open, 0) == 3 by {
      assert LineEnd(open, 3) == 3 && LineEnd(open, 2) == 3 && LineEnd(open, 1) == 3;
    }
    assert s[|a|..|a| + 3] == DASHES;
  }

  lemma NoneInside(a: Text, y: Text, b: Text, k: nat)
    requires Printed(y) && |a| <= k < |a| + |y| && LineStart(a + y + b, |a|, k)
    ensures !Delimiter(a + y + b, k)
  {
    var s, i := a + y + b, k - |a|;
    LineEndWithin(a, y, b, i);
    assert s[k..LineEnd(s, k)] == y[i..LineEnd(y, i)];
    assert i > 0 ==> s[k - 1] == y[i - 1];
    assert LineStart(y, 0, i);
  }

  /** Splitting undoes rendering: the closing delimiter is the rendered one. */
  lemma ClosingOfDocument(y: Text, body: Text)
    requires Printed(y)
    ensures var s := Document(y, body);
      && Opening(s) == 4 && Closing(s, 4 + |y|)
      && s[4..4 + |y|] == y && s[AfterLine(s, 4 + |y|)..] == body
  {
    hide Delimiter, Printed, AfterLine;
    var open, s := DASHES + [LF], Document(y, body);
    assert s == open + y + (open + body);
    assert open <= s by {
      assert s[..4] == open;
    }
    DelimiterAt(open + y, body);
    forall k | 4 <= k < 4 + |y| && LineStart(s, 4, k)
      ensures !Delimiter(s, k)
    {
      NoneInside(open, y, open + body, k);
    }
    LastLineEnded(y);
    assert LineStart(s, 4, 4 + |y|);
    assert s[|open + y| + 4..] == body;
  }

  lemma LastLineEnded(y: Text)
    requires Printed(y)
    ensures y == [] || y[|y| - 1] == LF
  {
  }

  /** So the split of a rendered document is the printed manifest and the normalised body, and rendering
      those again changes nothing. */
  lemma SplittingUndoesProjection(y: Text, body: Text)
    requires Printed(y)
    ensures var s := Document(y, NormalizedBody(body));
      && (forall i: nat :: Closing(s, i) <==> i == 4 + |y|)
      && s[Opening(s)..4 + |y|] == y && s[AfterLine(s, 4 + |y|)..] == NormalizedBody(body)
      && Document(y, NormalizedBody(s[AfterLine(s, 4 + |y|)..])) == s
  {
    hide Closing;
    ClosingOfDocument(y, NormalizedBody(body));
    NormalizedBodyHolds(body);
    var s := Document(y, NormalizedBody(body));
    forall i: nat | Closing(s, i)
      ensures i == 4 + |y|
    {
      ClosingUnique(s, i, 4 + |y|);
    }
  }
}
