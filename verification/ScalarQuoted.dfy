/** Maps of quoted and block scalars. */
module ScalarQuoted {
  import opened ScalarLines
  import opened ScalarMap

  // ----- quoted scalars -----

  function Min(a: nat, b: nat): nat {
    if a < b then a else b
  }

  /** The source length of a double-quoted escape that is not a line break. */
  function EscapeLength(next: char): nat {
    if next == 'x' then 4 else if next == 'u' then 6 else if next == 'U' then 10 else 2
  }

  /** A single-quoted scalar without line breaks: two quotes stand for one. */
  function Unquoted(src: string, i: nat): string
    requires i <= |src|
    decreases |src| - i
  {
    if i == |src| then ""
    else if src[i] == '\'' && i + 1 < |src| && src[i + 1] == '\'' then "'" + Unquoted(src, i + 2)
    else [src[i]] + Unquoted(src, i + 1)
  }

  /** The value of a scalar on one line from here on; a double-quoted one without escapes is its own value. */
  function OneLine(src: string, isDoubleQuoted: bool, i: nat): string
    requires i <= |src|
  {
    if isDoubleQuoted then src[i..] else Unquoted(src, i)
  }

  /** On one line, and without escapes other than two quotes for one. */
  predicate IsSimple(src: string, isDoubleQuoted: bool) {
    forall i :: 0 <= i < |src| ==> !IsBreak(src[i]) && !(isDoubleQuoted && src[i] == '\\')
  }

  /** An escape in a double-quoted scalar: a line break is skipped with the indentation after it. */
  method MapEscape(src: string, srcIdx: nat, entries: seq<nat>) returns (r: seq<nat>, next: nat)
    requires srcIdx < |src| && Below(entries, srcIdx)
    ensures srcIdx < next && Below(r, Min(next, |src|)) && entries <= r
  {
    if srcIdx + 1 < |src| && IsBreak(src[srcIdx + 1]) {
      r := entries;
      next := NextLineStart(src, srcIdx + 1);
      next := ScanIndent(src, next, |src|);
    } else {
      r := entries + [srcIdx];
      next := srcIdx + if srcIdx + 1 < |src| then EscapeLength(src[srcIdx + 1]) else 2;
    }
  }

  /** A line break in a quoted scalar. */
  method MapQuotedBreak(src: string, nlPos: nat, entries: seq<nat>) returns (r: seq<nat>, next: nat)
    requires nlPos < |src| && IsBreak(src[nlPos]) && Below(entries, nlPos)
    ensures nlPos < next <= |src| && Below(r, next) && entries <= r
  {
    var nextSrcIdx := NextLineStart(src, nlPos);
    var emptyCount, foundContent, nextContentStart := Peek(src, nextSrcIdx);
    if emptyCount > 0 {
      r, next := MapBlanks(entries, src, nlPos, emptyCount);
    } else {
      r, next := entries + [nlPos], nextSrcIdx;
    }
    if foundContent {
      next := nextContentStart;
    }
  }

  /** Whether a single-quoted scalar has an escaped quote here. */
  predicate TwoQuotes(src: string, i: nat)
    requires i < |src|
  {
    src[i] == '\'' && i + 1 < |src| && src[i + 1] == '\''
  }

  /** Where the character after this one begins. */
  function NextUnit(src: string, isDoubleQuoted: bool, i: nat): nat
    requires i < |src|
  {
    if !isDoubleQuoted && TwoQuotes(src, i) then i + 2 else i + 1
  }

  /** One unit of a quoted scalar: an escape, a line break, or a character. */
  method MapUnit(src: string, isDoubleQuoted: bool, srcIdx: nat, entries: seq<nat>) returns (r: seq<nat>, next: nat)
    requires srcIdx < |src| && Below(entries, srcIdx)
    ensures srcIdx < next && Below(r, Min(next, |src|)) && entries <= r
    ensures !IsBreak(src[srcIdx]) && !(isDoubleQuoted && src[srcIdx] == '\\') ==>
              r == entries + [srcIdx] && next == NextUnit(src, isDoubleQuoted, srcIdx)
  {
    var current := src[srcIdx];
    if isDoubleQuoted && current == '\\' {
      r, next := MapEscape(src, srcIdx, entries);
    } else if !isDoubleQuoted && TwoQuotes(src, srcIdx) {
      r, next := entries + [srcIdx], srcIdx + 2;
    } else if IsBreak(current) {
      r, next := MapQuotedBreak(src, srcIdx, entries);
    } else {
      r, next := entries + [srcIdx], srcIdx + 1;
    }
  }

  /** The map of a quoted scalar. One on one line, without escapes other than two quotes for one, has one
      entry for each character of its value, pointing at that character. */
  method BuildQuoted(src: string, isDoubleQuoted: bool) returns (entries: seq<nat>)
    ensures IsMap(src, entries)
    ensures IsSimple(src, isDoubleQuoted) ==> Matches(src, entries[..|entries| - 1], Content(OneLine(src, isDoubleQuoted, 0)))
  {
    entries := [];
    var srcIdx: nat := 0;
    ghost var done: string := "";
    ghost var exact := IsSimple(src, isDoubleQuoted);
    ghost var value := OneLine(src, isDoubleQuoted, 0);
    assert [] + value == value;
    while srcIdx < |src|
      invariant Below(entries, Min(srcIdx, |src|))
      invariant exact ==> srcIdx <= |src| && value == done + OneLine(src, isDoubleQuoted, srcIdx) && Matches(src, entries, Content(done))
      decreases |src| - srcIdx
    {
      if exact {
        MatchesOne(src, entries, done, srcIdx);
        OneLineStep(src, isDoubleQuoted, srcIdx, done);
        done := done + [src[srcIdx]];
      }
      entries, srcIdx := MapUnit(src, isDoubleQuoted, srcIdx, entries);
    }
    assert (entries + [|src|])[..|entries|] == entries;
    entries := entries + [|src|];
  }

  lemma OneLineStep(src: string, isDoubleQuoted: bool, i: nat, done: string)
    requires i < |src|
    ensures var next := NextUnit(src, isDoubleQuoted, i);
            next <= |src| && done + OneLine(src, isDoubleQuoted, i) == done + [src[i]] + OneLine(src, isDoubleQuoted, next)
  {
  }

  lemma MatchesOne(src: string, entries: seq<nat>, done: string, p: nat)
    requires p < |src|
    ensures Matches(src, entries, Content(done)) ==> Matches(src, entries + [p], Content(done + [src[p]]))
  {
  }

  // ----- block scalars -----

  /** Block scalars only break at line feeds. */
  function BlockLineEnd(src: string, i: nat): (e: nat)
    requires i <= |src|
    ensures i <= e <= |src| && (e < |src| ==> src[e] == '\n')
    decreases |src| - i
  {
    if i == |src| || src[i] == '\n' then i else BlockLineEnd(src, i + 1)
  }

  method ScanBlockLine(src: string, i: nat) returns (e: nat)
    requires i <= |src|
    ensures e == BlockLineEnd(src, i)
  {
    e := i;
    while e < |src| && src[e] != '\n'
      invariant i <= e <= |src| && BlockLineEnd(src, e) == BlockLineEnd(src, i)
    {
      e := e + 1;
    }
  }

  function BlockStart(src: string, i: nat, indent: nat): (s: nat)
    requires i <= |src|
    ensures i <= s <= BlockLineEnd(src, i)
  {
    i + Min(indent, BlockLineEnd(src, i) - i)
  }

  /** The indentation of the first line that is not only whitespace. */
  function Indentation(src: string, i: nat): nat
    requires i <= |src|
    decreases |src| - i
  {
    if i == |src| then 0
    else
      var e := BlockLineEnd(src, i);
      var s := SkipIndent(src, i, e);
      if s < e then s - i else if e < |src| then Indentation(src, e + 1) else 0
  }

  method DetectIndentation(src: string) returns (trimIndent: nat)
    ensures trimIndent == Indentation(src, 0)
  {
    var i: nat := 0;
    while i < |src|
      invariant i <= |src| ==> Indentation(src, i) == Indentation(src, 0)
      invariant i > |src| ==> Indentation(src, 0) == 0
    {
      var lineEnd := ScanBlockLine(src, i);
      var j := ScanIndent(src, i, lineEnd);
      if j < lineEnd {
        return j - i;
      }
      i := lineEnd + 1;
    }
    return 0;
  }

  /** The value of a literal block: every line without the common indentation, breaks included. */
  function Literal(src: string, i: nat, indent: nat): string
    requires i <= |src|
    decreases |src| - i
  {
    var e := BlockLineEnd(src, i);
    var text := src[BlockStart(src, i, indent)..e];
    if e == |src| then text else text + "\n" + Literal(src, e + 1, indent)
  }

  /** Look ahead over empty lines; a line is empty when nothing is left of it after the indentation. */
  method PeekBlock(src: string, start: nat, indent: nat) returns (emptyCount: nat, foundContent: bool, moreIndented: bool, contentStart: nat)
    requires start <= |src|
    ensures foundContent && emptyCount == 0 ==>
              start < |src| && contentStart == BlockStart(src, start, indent) && contentStart < BlockLineEnd(src, start)
  {
    emptyCount, foundContent, moreIndented, contentStart := 0, false, false, 0;
    var peekIdx := start;
    while peekIdx < |src|
      invariant start <= peekIdx <= |src| && (emptyCount == 0 ==> peekIdx == start) && !foundContent
    {
      var lineStart := peekIdx;
      peekIdx := ScanBlockLine(src, peekIdx);
      var s := lineStart + Min(indent, peekIdx - lineStart);
      if s >= peekIdx {
        emptyCount := emptyCount + 1;
        if peekIdx < |src| {
          peekIdx := peekIdx + 1;
        }
      } else {
        foundContent := true;
        moreIndented := IsIndentChar(src[s]);
        contentStart := s;
        return;
      }
    }
  }

  method SkipEmptyLines(src: string, start: nat, emptyCount: nat, entries: seq<nat>) returns (r: seq<nat>, next: nat)
    requires start <= |src| && Below(entries, start)
    ensures start <= next <= |src| && Below(r, next) && entries <= r
  {
    r, next := entries, start;
    for e := 0 to emptyCount
      invariant start <= next <= |src| && Below(r, next) && entries <= r
    {
      next := ScanBlockLine(src, next);
      if e > 0 {
        r := r + [next];
      }
      if next < |src| {
        next := next + 1;
      }
    }
  }

  /** The break of a block line. Only a folded block folds it, and only after content. */
  method MapBlockBreak(src: string, nlPos: nat, contentStart: nat, hasContent: bool, isFolded: bool, indent: nat, entries: seq<nat>)
    returns (r: seq<nat>, next: nat)
    requires nlPos < |src| && src[nlPos] == '\n' && Below(entries, nlPos) && contentStart <= nlPos && (hasContent <==> contentStart < nlPos)
    ensures nlPos < next <= |src| && entries <= r && Below(r, BlockStart(src, next, indent))
    ensures !isFolded ==> r == entries + [nlPos] && next == nlPos + 1
  {
    next := nlPos + 1;
    if !isFolded || !hasContent {
      r := entries + [nlPos];
      return;
    }
    var currentMoreIndented := IsIndentChar(src[contentStart]);
    var emptyCount, foundContent, nextMoreIndented, nextContentStart := PeekBlock(src, next, indent);
    if emptyCount > 0 {
      r, next := SkipEmptyLines(src, next, emptyCount, entries + [nlPos]);
    } else if foundContent && !currentMoreIndented && !nextMoreIndented {
      r := entries + [nextContentStart];
    } else {
      r := entries + [nlPos];
    }
  }

  /** The map of a block scalar. For a literal one, it has one entry for each character of the value,
      pointing at that character. */
  method BuildBlock(src: string, isFolded: bool) returns (entries: seq<nat>)
    ensures IsMap(src, entries)
    ensures !isFolded ==> Matches(src, entries[..|entries| - 1], Content(Literal(src, 0, Indentation(src, 0))))
  {
    var indent := DetectIndentation(src);
    entries := [];
    var srcIdx: nat := 0;
    assert "" + Literal(src, 0, indent) == Literal(src, 0, indent);
    while srcIdx < |src|
      invariant srcIdx <= |src| && Below(entries, BlockStart(src, srcIdx, indent))
      invariant isFolded || LiteralSoFar(src, srcIdx, indent, entries)
      decreases |src| - srcIdx
    {
      ghost var i, before := srcIdx, entries;
      entries, srcIdx := MapBlockLine(src, srcIdx, isFolded, indent, entries);
      if !isFolded {
        LiteralMatches(src, i, indent, before, entries);
      }
    }
    if !isFolded {
      LiteralDone(src, indent, entries);
    }
    entries := entries + [|src|];
  }

  /** The entries so far are those of the literal text before position i. */
  ghost predicate LiteralSoFar(src: string, i: nat, indent: nat, entries: seq<nat>) {
    i <= |src| && exists done: string :: Literal(src, 0, indent) == done + Literal(src, i, indent) && Matches(src, entries, Content(done))
  }

  lemma LiteralDone(src: string, indent: nat, entries: seq<nat>)
    requires LiteralSoFar(src, |src|, indent, entries)
    ensures Matches(src, (entries + [|src|])[..|entries|], Content(Literal(src, 0, indent)))
  {
    var done :| Literal(src, 0, indent) == done + Literal(src, |src|, indent) && Matches(src, entries, Content(done));
    assert done + Literal(src, |src|, indent) == done;
    assert (entries + [|src|])[..|entries|] == entries;
  }

  function LiteralLine(src: string, i: nat, indent: nat): string
    requires i <= |src|
  {
    var e := BlockLineEnd(src, i);
    src[BlockStart(src, i, indent)..e] + if e < |src| then "\n" else ""
  }

  lemma LiteralStep(src: string, i: nat, indent: nat, done: string)
    requires i < |src|
    ensures var e := BlockLineEnd(src, i);
            done + Literal(src, i, indent) == done + LiteralLine(src, i, indent) + Literal(src, if e < |src| then e + 1 else e, indent)
  {
  }

  /** A mapped line joins what is mapped before it. */
  lemma LiteralMatches(src: string, i: nat, indent: nat, before: seq<nat>, entries: seq<nat>)
    requires i < |src| && LiteralSoFar(src, i, indent, before)
    requires before <= entries && Matches(src, entries[|before|..], Content(LiteralLine(src, i, indent)))
    ensures var e := BlockLineEnd(src, i); LiteralSoFar(src, if e < |src| then e + 1 else e, indent, entries)
  {
    var done :| Literal(src, 0, indent) == done + Literal(src, i, indent) && Matches(src, before, Content(done));
    LiteralStep(src, i, indent, done);
    MatchesText(src, before, entries, done, LiteralLine(src, i, indent));
  }

  lemma MatchesText(src: string, before: seq<nat>, entries: seq<nat>, done: string, line: string)
    requires before <= entries && Matches(src, before, Content(done)) && Matches(src, entries[|before|..], Content(line))
    ensures Matches(src, entries, Content(done + line))
  {
    MatchesConcat(src, before, entries[|before|..], Content(done), Content(line));
    assert before + entries[|before|..] == entries;
    assert Content(done) + Content(line) == Content(done + line);
  }

  method MapBlockLine(src: string, srcIdx: nat, isFolded: bool, indent: nat, entries: seq<nat>) returns (r: seq<nat>, next: nat)
    requires srcIdx < |src| && Below(entries, BlockStart(src, srcIdx, indent))
    ensures srcIdx < next <= |src| && entries <= r && Below(r, BlockStart(src, next, indent))
    ensures !isFolded ==> var e := BlockLineEnd(src, srcIdx);
                          next == (if e < |src| then e + 1 else e) && Matches(src, r[|entries|..], Content(LiteralLine(src, srcIdx, indent)))
  {
    var lineEnd := ScanBlockLine(src, srcIdx);
    var contentStart := srcIdx + Min(indent, lineEnd - srcIdx);
    r := MapRun(entries, contentStart, lineEnd, src);
    next := lineEnd;
    if lineEnd < |src| {
      ghost var line := r[|entries|..];
      ghost var before := r;
      r, next := MapBlockBreak(src, lineEnd, contentStart, contentStart < lineEnd, isFolded, indent, r);
      assert line <= r[|entries|..] && r[|entries|..][|line|..] == r[|before|..];
      if !isFolded {
        MatchesText(src, line, r[|entries|..], src[contentStart..lineEnd], "\n");
      }
    }
  }
}
