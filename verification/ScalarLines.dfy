/** Lines of a YAML scalar: where they end, what is content in them, and how blank lines run. */
module ScalarLines {
  predicate IsIndentChar(c: char) {
    c == ' ' || c == '\t'
  }

  predicate IsBreak(c: char) {
    c == '\n' || c == '\r'
  }

  /** The end of the line that i is in: a line break, or the end of the source. */
  function LineEnd(src: string, i: nat): (e: nat)
    requires i <= |src|
    ensures i <= e <= |src| && (e < |src| ==> IsBreak(src[e])) && forall k :: i <= k < e ==> !IsBreak(src[k])
    decreases |src| - i
  {
    if i == |src| || IsBreak(src[i]) then i else LineEnd(src, i + 1)
  }

  /** The start of the line after a break; a carriage return and a line feed are one break. */
  function NextLineStart(src: string, nl: nat): (n: nat)
    requires nl < |src|
    ensures nl < n <= |src|
  {
    if src[nl] == '\r' && nl + 1 < |src| && src[nl + 1] == '\n' then nl + 2 else nl + 1
  }

  /** The first character from i on that is not indentation. */
  function SkipIndent(src: string, i: nat, end: nat): (s: nat)
    requires i <= end <= |src|
    ensures i <= s <= end && (s < end ==> !IsIndentChar(src[s])) && forall k :: i <= k < s ==> IsIndentChar(src[k])
    decreases end - i
  {
    if i == end || !IsIndentChar(src[i]) then i else SkipIndent(src, i + 1, end)
  }

  /** The end of the content before trailing whitespace. */
  function TrimEnd(src: string, start: nat, end: nat): (t: nat)
    requires start <= end <= |src|
    ensures start <= t <= end && (t > start ==> !IsIndentChar(src[t - 1])) && forall k :: t <= k < end ==> IsIndentChar(src[k])
    decreases end
  {
    if end == start || !IsIndentChar(src[end - 1]) then end else TrimEnd(src, start, end - 1)
  }

  predicate IsBlankLine(src: string, i: nat)
    requires i <= |src|
  {
    SkipIndent(src, i, LineEnd(src, i)) == LineEnd(src, i)
  }

  /** Blank lines in a row from i on; a blank last line counts, an empty one does not. */
  function BlankRun(src: string, i: nat): nat
    requires i <= |src|
    decreases |src| - i
  {
    if i == |src| || !IsBlankLine(src, i) then 0
    else
      var e := LineEnd(src, i);
      if e == |src| then 1 else 1 + BlankRun(src, NextLineStart(src, e))
  }

  /** Where the line after them starts. */
  function AfterBlanks(src: string, i: nat): (n: nat)
    requires i <= |src|
    ensures i <= n <= |src|
    decreases |src| - i
  {
    if i == |src| || !IsBlankLine(src, i) then i
    else
      var e := LineEnd(src, i);
      if e == |src| then e else AfterBlanks(src, NextLineStart(src, e))
  }

  // ----- the scans, as loops -----

  method ScanLineEnd(src: string, i: nat) returns (e: nat)
    requires i <= |src|
    ensures e == LineEnd(src, i)
  {
    e := i;
    while e < |src| && src[e] != '\n' && src[e] != '\r'
      invariant i <= e <= |src| && LineEnd(src, e) == LineEnd(src, i)
    {
      e := e + 1;
    }
  }

  method ScanIndent(src: string, i: nat, end: nat) returns (s: nat)
    requires i <= end <= |src|
    ensures s == SkipIndent(src, i, end)
  {
    s := i;
    while s < end && IsIndentChar(src[s])
      invariant i <= s <= end && SkipIndent(src, s, end) == SkipIndent(src, i, end)
    {
      s := s + 1;
    }
  }

  method ScanTrim(src: string, start: nat, end: nat) returns (t: nat)
    requires start <= end <= |src|
    ensures t == TrimEnd(src, start, end)
  {
    t := end;
    while t > start && IsIndentChar(src[t - 1])
      invariant start <= t <= end && TrimEnd(src, start, t) == TrimEnd(src, start, end)
    {
      t := t - 1;
    }
  }

  /** Look ahead over blank lines for the next line with content. */
  method Peek(src: string, start: nat) returns (emptyCount: nat, foundContent: bool, nextContentStart: nat)
    requires start <= |src|
    ensures emptyCount == BlankRun(src, start)
    ensures var n := AfterBlanks(src, start);
            && (foundContent <==> n < |src| && !IsBlankLine(src, n))
            && (foundContent ==> nextContentStart == SkipIndent(src, n, LineEnd(src, n)) && nextContentStart < |src|)
  {
    emptyCount, foundContent, nextContentStart := 0, false, 0;
    var peekIdx := start;
    while peekIdx < |src|
      invariant start <= peekIdx <= |src| && !foundContent
      invariant emptyCount + BlankRun(src, peekIdx) == BlankRun(src, start)
      invariant AfterBlanks(src, peekIdx) == AfterBlanks(src, start)
    {
      var peekLineEnd := ScanLineEnd(src, peekIdx);
      var peekContentStart := ScanIndent(src, peekIdx, peekLineEnd);
      var peekContentEnd := ScanTrim(src, peekContentStart, peekLineEnd);
      if peekContentStart >= peekContentEnd {
        emptyCount := emptyCount + 1;
        if peekLineEnd >= |src| {
          EmptyLastLine(src, peekIdx);
          return;
        }
        peekIdx := NextLineStart(src, peekLineEnd);
      } else {
        foundContent := true;
        nextContentStart := peekContentStart;
        return;
      }
    }
  }

  lemma EmptyLastLine(src: string, i: nat)
    requires i < |src| && IsBlankLine(src, i) && LineEnd(src, i) == |src|
    ensures BlankRun(src, i) == 1 && AfterBlanks(src, i) == |src|
  {
  }
}
