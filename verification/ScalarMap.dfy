/** Source maps of YAML scalars. */
module ScalarMap {
  // From the characters of a parsed scalar to its source.

  import opened ScalarLines

  /** Entries never go back, and none is past n. */
  ghost predicate Below(entries: seq<nat>, n: nat) {
    && (forall i, j :: 0 <= i < j < |entries| ==> entries[i] <= entries[j])
    && forall i :: 0 <= i < |entries| ==> entries[i] <= n
  }

  /** A finished map: no holes, never going back, within the source, and ending at its length. */
  ghost predicate IsMap(src: string, entries: seq<nat>) {
    |entries| > 0 && Below(entries, |src|) && entries[|entries| - 1] == |src|
  }

  // ----- plain scalars -----

  /** One character of the folded text, and whether a line break produced it. */
  datatype Cell = Cell(value: char, folded: bool)

  function Content(text: string): (cells: seq<Cell>)
    ensures |cells| == |text|
  {
    seq(|text|, i requires 0 <= i < |text| => Cell(text[i], false))
  }

  function Breaks(n: nat): (cells: seq<Cell>)
    ensures |cells| == n
  {
    seq(n, i => Cell('\n', true))
  }

  function LineStart(src: string, i: nat, first: bool): (s: nat)
    requires i <= |src|
    ensures i <= s <= LineEnd(src, i)
  {
    if first then i else SkipIndent(src, i, LineEnd(src, i))
  }

  function LineStop(src: string, i: nat, first: bool): (t: nat)
    requires i <= |src|
    ensures LineStart(src, i, first) <= t <= LineEnd(src, i)
  {
    TrimEnd(src, LineStart(src, i, first), LineEnd(src, i))
  }

  /** A line of the folded text: its content, and what its break is folded to. */
  function LineCells(src: string, i: nat, first: bool): seq<Cell>
    requires i <= |src|
  {
    var e := LineEnd(src, i);
    var text := Content(src[LineStart(src, i, first)..LineStop(src, i, first)]);
    if e == |src| then text else text + BreakCells(src, e)
  }

  function BreakCells(src: string, nl: nat): seq<Cell>
    requires nl < |src|
  {
    var blanks := BlankRun(src, NextLineStart(src, nl));
    if blanks == 0 then [Cell(' ', true)] else Breaks(blanks)
  }

  /** Line folding of YAML 1.2.2, sections 6.5 and 7.3.3: lines lose the whitespace around them; one
      break is a space, and a break before blank lines is a line feed for each of them. */
  function Folded(src: string, i: nat, first: bool): seq<Cell>
    requires i <= |src|
    decreases |src| - i
  {
    var e := LineEnd(src, i);
    if e == |src| then LineCells(src, i, first)
    else LineCells(src, i, first) + Folded(src, AfterBlanks(src, NextLineStart(src, e)), false)
  }

  predicate IsContent(c: char) {
    !IsIndentChar(c) && !IsBreak(c)
  }

  predicate InContent(src: string) {
    |src| > 0 && IsContent(src[0]) && IsContent(src[|src| - 1])
  }

  /** Entry by entry: content points at its own character, and a folded line feed at a break. */
  ghost predicate Matches(src: string, entries: seq<nat>, cells: seq<Cell>) {
    |entries| == |cells| && forall i :: 0 <= i < |cells| ==> PointsAt(src, entries[i], cells[i])
  }

  predicate PointsAt(src: string, p: nat, cell: Cell) {
    p < |src| && (if !cell.folded then src[p] == cell.value else if cell.value == '\n' then IsBreak(src[p]) else true)
  }

  lemma MatchesConcat(src: string, a: seq<nat>, b: seq<nat>, x: seq<Cell>, y: seq<Cell>)
    requires Matches(src, a, x) && Matches(src, b, y)
    ensures Matches(src, a + b, x + y)
  {
  }

  /** Every line from i on leads to one with content, when the source ends in content. */
  lemma {:induction false} ContentFollows(src: string, i: nat)
    requires i < |src| && IsContent(src[|src| - 1])
    ensures var n := AfterBlanks(src, i); n < |src| && !IsBlankLine(src, n)
    decreases |src| - i
  {
    if IsBlankLine(src, i) {
      var e := LineEnd(src, i);
      BlankHasBreak(src, i);
      BreakIsNotLast(src, e);
      ContentFollows(src, NextLineStart(src, e));
    }
  }

  lemma BlankHasBreak(src: string, i: nat)
    requires i < |src| && IsContent(src[|src| - 1]) && IsBlankLine(src, i)
    ensures LineEnd(src, i) < |src|
  {
    assert !IsIndentChar(src[|src| - 1]);
  }

  lemma BreakIsNotLast(src: string, e: nat)
    requires e < |src| && IsBreak(src[e]) && IsContent(src[|src| - 1])
    ensures NextLineStart(src, e) < |src|
  {
  }

  method MapRun(entries: seq<nat>, start: nat, end: nat, src: string) returns (r: seq<nat>)
    requires start <= end <= |src| && Below(entries, start)
    ensures Below(r, end) && |r| == |entries| + (end - start) && r[..|entries|] == entries
    ensures Matches(src, r[|entries|..], Content(src[start..end]))
  {
    r := entries;
    for p := start to end
      invariant |r| == |entries| + (p - start) && r[..|entries|] == entries && Below(r, p)
      invariant forall k :: |entries| <= k < |r| ==> r[k] == start + (k - |entries|)
    {
      r := r + [p];
    }
  }

  /** One blank line; its own break has an entry unless it is the first. */
  method MapBlank(entries: seq<nat>, src: string, start: nat, keep: bool) returns (r: seq<nat>, next: nat)
    requires start <= |src| && BlankRun(src, start) > 0 && Below(entries, start)
    ensures next <= |src| && BlankRun(src, next) == BlankRun(src, start) - 1 && AfterBlanks(src, next) == AfterBlanks(src, start)
    ensures Below(r, next) && r == if keep then entries + [LineEnd(src, start)] else entries
    ensures AfterBlanks(src, start) < |src| ==> LineEnd(src, start) < |src|
  {
    var lineEnd := ScanLineEnd(src, start);
    r := entries;
    if keep {
      r := r + [lineEnd];
    }
    next := lineEnd;
    if lineEnd < |src| {
      next := NextLineStart(src, lineEnd);
    }
  }

  /** Blank lines after a break: one entry for the break, and one for each further blank line. */
  method MapBlanks(entries: seq<nat>, src: string, nlPos: nat, emptyCount: nat) returns (r: seq<nat>, next: nat)
    requires nlPos < |src| && IsBreak(src[nlPos]) && Below(entries, nlPos)
    requires emptyCount == BlankRun(src, NextLineStart(src, nlPos)) > 0
    ensures next == AfterBlanks(src, NextLineStart(src, nlPos)) && Below(r, next)
    ensures |r| == |entries| + emptyCount
    ensures r[..|entries|] == entries
    ensures next < |src| ==> Matches(src, r[|entries|..], Breaks(emptyCount))
  {
    ghost var start := NextLineStart(src, nlPos);
    r := entries + [nlPos];
    next := NextLineStart(src, nlPos);
    for e := 0 to emptyCount
      invariant next <= |src| && BlankRun(src, next) == emptyCount - e && AfterBlanks(src, next) == AfterBlanks(src, start)
      invariant |r| == |entries| + (if e == 0 then 1 else e)
      invariant Below(r, next) && r[..|entries|] == entries
      invariant AfterBlanks(src, start) < |src| ==> forall k :: |entries| <= k < |r| ==> r[k] < |src| && IsBreak(src[r[k]])
    {
      r, next := MapBlank(r, src, next, e > 0);
    }
    assert next == AfterBlanks(src, next);
  }

  predicate HasContent(src: string, i: nat, first: bool)
    requires i <= |src|
  {
    LineStart(src, i, first) < LineStop(src, i, first)
  }

  lemma NonBlankHasContent(src: string, i: nat, first: bool)
    requires i < |src| && (if first then IsContent(src[i]) else !IsBlankLine(src, i))
    ensures HasContent(src, i, first)
  {
  }

  /** What a line with content becomes, in a source that ends in content. */
  ghost predicate LineDone(src: string, i: nat, first: bool, added: seq<nat>, next: nat, more: bool)
    requires i <= |src|
  {
    && Matches(src, added, LineCells(src, i, first))
    && (if LineEnd(src, i) == |src| then !more
        else more && next == AfterBlanks(src, NextLineStart(src, LineEnd(src, i))) && next < |src| && !IsBlankLine(src, next))
  }

  /** One line: its content, and its break folded by looking ahead. */
  method BuildPlainLine(src: string, srcIdx: nat, firstLine: bool, entries: seq<nat>) returns (r: seq<nat>, next: nat, more: bool)
    requires srcIdx <= |src| && Below(entries, LineStart(src, srcIdx, firstLine))
    ensures entries <= r && next <= |src|
    ensures if more then srcIdx < next <= |src| && Below(r, LineStart(src, next, false)) else Below(r, |src|)
    ensures InContent(src) && HasContent(src, srcIdx, firstLine) ==> LineDone(src, srcIdx, firstLine, r[|entries|..], next, more)
  {
    var lineEnd := ScanLineEnd(src, srcIdx);
    var contentStart := srcIdx;
    if !firstLine {
      contentStart := ScanIndent(src, srcIdx, lineEnd);
    }
    var contentEnd := ScanTrim(src, contentStart, lineEnd);
    r := MapRun(entries, contentStart, contentEnd, src);
    ghost var text := r[|entries|..];
    next := lineEnd;
    if lineEnd >= |src| {
      more := false;
      return;
    }
    if contentStart >= contentEnd {
      next := NextLineStart(src, lineEnd);
      more := true;
      return;
    }
    ghost var content := r;
    r, next, more := FoldBreak(src, lineEnd, r);
    assert r[|entries|..] == text + r[|content|..];
    if InContent(src) {
      MatchesConcat(src, text, r[|content|..], Content(src[contentStart..contentEnd]), BreakCells(src, lineEnd));
    }
  }

  /** The break after a line with content. */
  method FoldBreak(src: string, nlPos: nat, entries: seq<nat>) returns (r: seq<nat>, next: nat, more: bool)
    requires nlPos < |src| && IsBreak(src[nlPos]) && Below(entries, nlPos)
    ensures entries <= r && next <= |src|
    ensures if more then nlPos < next <= |src| && Below(r, LineStart(src, next, false)) else Below(r, |src|)
    ensures InContent(src) ==>
              && Matches(src, r[|entries|..], BreakCells(src, nlPos))
              && more && next == AfterBlanks(src, NextLineStart(src, nlPos)) && next < |src| && !IsBlankLine(src, next)
  {
    next := NextLineStart(src, nlPos);
    if InContent(src) {
      BreakIsNotLast(src, nlPos);
      ContentFollows(src, next);
    }
    var emptyCount, foundContent, nextContentStart := Peek(src, next);
    more := emptyCount > 0 || foundContent;
    r := entries;
    if emptyCount > 0 {
      r, next := MapBlanks(entries, src, nlPos, emptyCount);
    } else if foundContent {
      r := entries + [nextContentStart];
    }
  }

  /** The map of a plain scalar. When the scalar starts and ends in content, it has one entry for each
      character of the folded text, pointing at that character. */
  method BuildPlain(src: string) returns (entries: seq<nat>)
    ensures IsMap(src, entries)
    ensures InContent(src) ==> Matches(src, entries[..|entries| - 1], Folded(src, 0, true))
  {
    entries := [];
    var srcIdx: nat := 0;
    var firstLine := true;
    var more := true;
    ghost var done: seq<Cell> := [];
    while more && srcIdx <= |src|
      invariant srcIdx <= |src| && Below(entries, if more then LineStart(src, srcIdx, firstLine) else |src|)
      invariant InContent(src) ==> FoldedSoFar(src, entries, done, srcIdx, firstLine, more)
      decreases more, |src| - srcIdx
    {
      ghost var before, i, first := entries, srcIdx, firstLine;
      entries, srcIdx, more := BuildPlainLine(src, srcIdx, firstLine, entries);
      firstLine := false;
      if InContent(src) {
        PlainStep(src, before, entries, done, i, first, srcIdx, more);
        done := done + LineCells(src, i, first);
      }
    }
    assert (entries + [|src|])[..|entries|] == entries;
    entries := entries + [|src|];
  }

  /** The entries match the folded text read so far, and the rest of it is still ahead. */
  ghost predicate FoldedSoFar(src: string, entries: seq<nat>, done: seq<Cell>, i: nat, first: bool, more: bool)
    requires i <= |src|
  {
    && Matches(src, entries, done)
    && (if more then Ahead(src, i, first) && Folded(src, 0, true) == done + Folded(src, i, first) else Folded(src, 0, true) == done)
  }

  lemma FoldedLine(src: string, i: nat, first: bool, done: seq<Cell>)
    requires i <= |src|
    ensures var e := LineEnd(src, i);
            done + Folded(src, i, first) ==
            if e == |src| then done + LineCells(src, i, first)
            else done + LineCells(src, i, first) + Folded(src, AfterBlanks(src, NextLineStart(src, e)), false)
  {
    Assoc(done, LineCells(src, i, first), if LineEnd(src, i) == |src| then [] else Folded(src, AfterBlanks(src, NextLineStart(src, LineEnd(src, i))), false));
  }

  lemma Assoc(a: seq<Cell>, b: seq<Cell>, c: seq<Cell>)
    ensures a + (b + c) == a + b + c && (c == [] ==> a + b + c == a + b)
  {
  }

  lemma MatchesMore(src: string, before: seq<nat>, entries: seq<nat>, done: seq<Cell>, line: seq<Cell>)
    requires before <= entries && Matches(src, before, done) && Matches(src, entries[|before|..], line)
    ensures Matches(src, entries, done + line)
  {
    assert entries == before + entries[|before|..];
    MatchesConcat(src, before, entries[|before|..], done, line);
  }

  lemma PlainStep(src: string, before: seq<nat>, entries: seq<nat>, done: seq<Cell>, i: nat, first: bool, next: nat, more: bool)
    requires i <= |src| && next <= |src| && FoldedSoFar(src, before, done, i, first, true) && before <= entries
    requires HasContent(src, i, first) ==> LineDone(src, i, first, entries[|before|..], next, more)
    ensures FoldedSoFar(src, entries, done + LineCells(src, i, first), next, false, more)
  {
    NonBlankHasContent(src, i, first);
    MatchesMore(src, before, entries, done, LineCells(src, i, first));
    FoldedLine(src, i, first, done);
  }

  /** The line at i has content, as every line a well-placed scalar is read from does. */
  predicate Ahead(src: string, i: nat, first: bool) {
    i < |src| && (if first then IsContent(src[i]) else !IsBlankLine(src, i))
  }
}
