/**
 The second branch of table_markdown: content without an HTML table is accepted only as a well-formed
 pipe table.  What either branch prints is a fixed point of this branch.
 */
module TablePipes {
  import opened Characters
  import opened TableText

  // ---------- Characters ----------

  /** Characters str.splitlines ends a line at. */
  predicate IsLineEnd(c: char) {
    '\n' <= c <= '\r' || '\U{1C}' <= c <= '\U{1E}' || c == '\U{85}' || c == '\U{2028}' || c == '\U{2029}'
  }

  function Lower(c: char): char {
    if 'A' <= c <= 'Z' then c + 32 as char else c
  }

  const TABLE_TAG := "<table"

  predicate StartsWith(s: string, pattern: string) {
    pattern == [] || (s != [] && Lower(s[0]) == pattern[0] && StartsWith(s[1..], pattern[1..]))
  }

  /** The opening of an HTML table occurs in `s`, in any letter case. */
  predicate HasTableTag(s: string) {
    StartsWith(s, TABLE_TAG) || (s != [] && HasTableTag(s[1..]))
  }

  // ---------- The branch itself ----------

  function TrimLeft(s: string): string {
    if s != [] && IsSpace(s[0]) then TrimLeft(s[1..]) else s
  }

  function TrimRight(s: string): string {
    if s != [] && IsSpace(s[|s| - 1]) then TrimRight(s[..|s| - 1]) else s
  }

  function Strip(s: string): string {
    TrimRight(TrimLeft(s))
  }

  /** The stripped lines of `s` that are not blank; `current` is the line read so far. */
  function StrippedLines(s: string, current: string): seq<string>
    decreases |s|
  {
    if s == [] then Keep(Strip(current))
    else if IsLineEnd(s[0]) then Keep(Strip(current)) + StrippedLines(s[1..], [])
    else StrippedLines(s[1..], current + [s[0]])
  }

  function Keep(line: string): seq<string> {
    if line == [] then [] else [line]
  }

  /** White space, an optional colon, three or more dashes, an optional colon, white space. */
  predicate IsDashes(chunk: string) {
    var body := Strip(chunk);
    var left := if body != [] && body[0] == ':' then body[1..] else body;
    var middle := if left != [] && left[|left| - 1] == ':' then left[..|left| - 1] else left;
    |middle| >= 3 && forall i :: 0 <= i < |middle| ==> middle[i] == '-'
  }

  /** One or more dash chunks, each closed by a pipe; `chunk` is what was read of the current one. */
  predicate IsRuleTail(s: string, chunk: string)
    decreases |s|
  {
    s != []
    && if s[0] == '|' then IsDashes(chunk) && (|s| == 1 || IsRuleTail(s[1..], []))
       else IsRuleTail(s[1..], chunk + [s[0]])
  }

  predicate IsRule(line: string) {
    line != [] && line[0] == '|' && IsRuleTail(line[1..], [])
  }

  predicate IsFramed(line: string) {
    line != [] && line[0] == '|' && line[|line| - 1] == '|'
  }

  predicate IsPipeTable(lines: seq<string>) {
    && |lines| >= 2
    && IsRule(lines[1])
    && (forall i :: 0 <= i < |lines| ==> IsFramed(lines[i]))
    && (forall i :: 0 <= i < |lines| ==> |SplitPipes(lines[i], false)| == |SplitPipes(lines[0], false)|)
  }

  function PipeTable(content: string): string {
    var lines := StrippedLines(content, []);
    if IsPipeTable(lines) then Readable(Join(lines, "\n")) else ""
  }

  // ---------- Fixed points ----------

  /** A line that stripping, line splitting and the unreadable mark leave as it is. */
  predicate IsPlainLine(line: string) {
    && IsFramed(line)
    && !HasTableTag(line)
    && forall i :: 0 <= i < |line| ==> !IsLineEnd(line[i]) && line[i] != REPLACEMENT
  }

  lemma FramedIsStripped(line: string)
    requires IsFramed(line)
    ensures Strip(line) == line
  {
  }

  lemma {:induction false} LineIsRead(line: string, rest: string, current: string)
    requires forall i :: 0 <= i < |line| ==> !IsLineEnd(line[i])
    ensures StrippedLines(line + rest, current) == StrippedLines(rest, current + line)
    decreases |line|
  {
    if line == [] {
      assert line + rest == rest && current + line == current;
    } else {
      LineIsRead(line[1..], rest, current + [line[0]]);
      assert (line + rest)[1..] == line[1..] + rest;
      assert current + [line[0]] + line[1..] == current + line;
    }
  }

  lemma {:induction false} JoinedLinesAreRead(lines: seq<string>)
    requires forall i :: 0 <= i < |lines| ==> IsPlainLine(lines[i])
    ensures StrippedLines(Join(lines, "\n"), []) == lines
  {
    if lines == [] {
    } else {
      var line := lines[0];
      FramedIsStripped(line);
      assert [] + line == line;
      if |lines| == 1 {
        LineIsRead(line, [], []);
        assert line + [] == line;
      } else {
        var rest := "\n" + Join(lines[1..], "\n");
        JoinedLinesAreRead(lines[1..]);
        LineIsRead(line, rest, []);
        assert line + "\n" + Join(lines[1..], "\n") == line + rest;
        assert rest[1..] == Join(lines[1..], "\n");
      }
    }
  }

  lemma {:induction false} ReadableIsIdentity(s: string)
    requires forall i :: 0 <= i < |s| ==> s[i] != REPLACEMENT
    ensures Readable(s) == s
  {
    if s == [] {
    } else {
      ReadableIsIdentity(s[1..]);
    }
  }

  lemma {:induction false} JoinHasNoReplacement(lines: seq<string>)
    requires forall i :: 0 <= i < |lines| ==> IsPlainLine(lines[i])
    ensures forall i :: 0 <= i < |Join(lines, "\n")| ==> Join(lines, "\n")[i] != REPLACEMENT
  {
    if |lines| > 1 {
      JoinHasNoReplacement(lines[1..]);
    }
  }

  // ---------- Where a table tag can come from ----------

  /** A character no table tag contains, so that none can reach across it. */
  predicate IsBarrier(c: char) {
    Lower(c) !in TABLE_TAG
  }

  predicate PartOfTag(pattern: string) {
    pattern != [] && forall i :: 0 <= i < |pattern| ==> pattern[i] in TABLE_TAG
  }

  lemma {:induction false} StartsBeforeBarrier(a: string, b: string, pattern: string)
    requires b == [] || IsBarrier(b[0])
    requires PartOfTag(pattern) && StartsWith(a + b, pattern)
    ensures StartsWith(a, pattern)
    decreases |pattern|
  {
    assert pattern[0] in TABLE_TAG;
    assert a == [] ==> a + b == b;
    if a == [] {
    } else {
      assert (a + b)[1..] == a[1..] + b;
      if |pattern| > 1 {
        StartsBeforeBarrier(a[1..], b, pattern[1..]);
      }
    }
  }

  lemma {:induction false} TagOnOneSide(a: string, b: string)
    requires b == [] || IsBarrier(b[0])
    requires !HasTableTag(a) && !HasTableTag(b)
    ensures !HasTableTag(a + b)
  {
    if StartsWith(a + b, TABLE_TAG) {
      StartsBeforeBarrier(a, b, TABLE_TAG);
    }
    if a == [] {
      assert a + b == b;
    } else {
      TagOnOneSide(a[1..], b);
      assert (a + b)[1..] == a[1..] + b;
    }
  }

  lemma {:induction false} BarriersInFront(barriers: string, s: string)
    requires forall i :: 0 <= i < |barriers| ==> IsBarrier(barriers[i])
    requires !HasTableTag(s)
    ensures !HasTableTag(barriers + s)
  {
    if barriers == [] {
      assert barriers + s == s;
    } else {
      BarriersInFront(barriers[1..], s);
      assert (barriers + s)[1..] == barriers[1..] + s;
      assert barriers[0] == (barriers + s)[0];
    }
  }

  /** Replacing a barrier-framed image into `s` starts no tag that `s` does not start itself. */
  lemma {:induction false} ReplaceStartsNoTag(s: string, target: char, image: string, pattern: string)
    requires image != [] && IsBarrier(image[0])
    requires PartOfTag(pattern) && StartsWith(Replace(s, target, image), pattern)
    ensures StartsWith(s, pattern)
    decreases |pattern|
  {
    assert pattern[0] in TABLE_TAG;
    if s[0] != target {
      assert Replace(s, target, image)[1..] == Replace(s[1..], target, image);
      if |pattern| > 1 {
        ReplaceStartsNoTag(s[1..], target, image, pattern[1..]);
      }
    }
  }

  lemma {:induction false} ReplaceMakesNoTag(s: string, target: char, image: string)
    requires image != [] && forall i :: 0 <= i < |image| ==> IsBarrier(image[i])
    requires !HasTableTag(s)
    ensures !HasTableTag(Replace(s, target, image))
  {
    if s == [] {
    } else {
      ReplaceMakesNoTag(s[1..], target, image);
      if s[0] == target {
        BarriersInFront(image, Replace(s[1..], target, image));
      } else {
        if StartsWith(Replace(s, target, image), TABLE_TAG) {
          ReplaceStartsNoTag(s, target, image, TABLE_TAG);
        }
        assert Replace(s, target, image)[1..] == Replace(s[1..], target, image);
      }
    }
  }

  lemma {:induction false} CollapseStartsNoTag(s: string, pattern: string)
    requires PartOfTag(pattern) && StartsWith(CollapseBreaks(s), pattern)
    ensures StartsWith(s, pattern)
    decreases |pattern|
  {
    assert pattern[0] in TABLE_TAG;
    if !IsBreak(s[0]) {
      assert CollapseBreaks(s)[1..] == CollapseBreaks(s[1..]);
      if |pattern| > 1 {
        CollapseStartsNoTag(s[1..], pattern[1..]);
      }
    }
  }

  lemma {:induction false} DropBreaksMakesNoTag(s: string)
    requires !HasTableTag(s)
    ensures !HasTableTag(DropBreaks(s))
  {
    if s == [] {
    } else if IsBreak(s[0]) {
      DropBreaksMakesNoTag(s[1..]);
    }
  }

  lemma CharMakesNoTag(c: char, s: string)
    requires !HasTableTag(s) && (Lower(c) == '<' ==> s != [] && Lower(s[0]) != 't')
    ensures !HasTableTag([c] + s)
  {
    var whole := [c] + s;
    assert whole[1..] == s;
    assert whole[0] == c && TABLE_TAG[0] == '<' && TABLE_TAG[1..][0] == 't';
    assert StartsWith(whole, TABLE_TAG) ==> StartsWith(s, TABLE_TAG[1..]);
  }

  lemma BreakMakesNoTag(s: string)
    requires !HasTableTag(s)
    ensures !HasTableTag(" <br> " + s)
  {
    BarriersInFront("> ", s);
    CharMakesNoTag('r', "> " + s);
    CharMakesNoTag('b', ['r'] + ("> " + s));
    CharMakesNoTag('<', ['b'] + (['r'] + ("> " + s)));
    CharMakesNoTag(' ', ['<'] + (['b'] + (['r'] + ("> " + s))));
    assert " <br> " + s == [' '] + (['<'] + (['b'] + (['r'] + ("> " + s))));
  }

  lemma {:induction false} CollapseMakesNoTag(s: string)
    requires !HasTableTag(s)
    ensures !HasTableTag(CollapseBreaks(s))
    decreases |s|
  {
    if s == [] {
    } else {
      if IsBreak(s[0]) {
        DropBreaksMakesNoTag(s[1..]);
        CollapseMakesNoTag(DropBreaks(s[1..]));
        BreakMakesNoTag(CollapseBreaks(DropBreaks(s[1..])));
      } else {
        CollapseMakesNoTag(s[1..]);
        if StartsWith(CollapseBreaks(s), TABLE_TAG) {
          CollapseStartsNoTag(s, TABLE_TAG);
        }
        assert CollapseBreaks(s)[1..] == CollapseBreaks(s[1..]);
      }
    }
  }

  lemma CellTextMakesNoTag(text: string)
    requires !HasTableTag(text)
    ensures !HasTableTag(CellText(text))
  {
    ReplaceMakesNoTag(text, REPLACEMENT, UNREADABLE);
    ReplaceMakesNoTag(Readable(text), '|', "\\|");
    CollapseMakesNoTag(Replace(Readable(text), '|', "\\|"));
  }

  lemma {:induction false} JoinMakesNoTag(lines: seq<string>)
    requires forall i :: 0 <= i < |lines| ==> !HasTableTag(lines[i])
    ensures !HasTableTag(Join(lines, "\n"))
  {
    if lines == [] {
      assert Join(lines, "\n") == "";
    } else if |lines| > 1 {
      JoinMakesNoTag(lines[1..]);
      var rest := "\n" + Join(lines[1..], "\n");
      assert rest[1..] == Join(lines[1..], "\n");
      TagOnOneSide(lines[0], rest);
      assert lines[0] + "\n" + Join(lines[1..], "\n") == lines[0] + rest;
    }
  }

  /** A pipe table whose lines are plain is returned unchanged, and does not look like HTML. */
  lemma PlainTableIsFixed(lines: seq<string>)
    requires IsPipeTable(lines) && forall i :: 0 <= i < |lines| ==> IsPlainLine(lines[i])
    ensures PipeTable(Join(lines, "\n")) == Join(lines, "\n")
    ensures !HasTableTag(Join(lines, "\n"))
  {
    JoinedLinesAreRead(lines);
    JoinHasNoReplacement(lines);
    ReadableIsIdentity(Join(lines, "\n"));
    JoinMakesNoTag(lines);
  }
}
