/** Reading printed tables again: cell by cell, and by table_markdown itself. */
module TableRereading {
  import opened Characters
  import opened TableLayout
  import opened TableMarkdown
  import opened TablePipes
  import opened TableText

  /** What stands between two pipes, without its padding and its escapes. */
  function ReadCell(part: string): string {
    if |part| < 2 then "" else Unescape(part[1..|part| - 1])
  }

  lemma {:induction false} RowCellsAt(ps: seq<Placement>, y: nat, width: nat, x: nat)
    requires x < width
    ensures RowCells(ps, y, width)[x] == CellText(LabelAt(ps, y, x))
    decreases width
  {
    if x == width - 1 {
    } else {
      RowCellsAt(ps, y, width - 1, x);
    }
  }

  lemma RowCellsAreSealed(ps: seq<Placement>, y: nat, width: nat)
    ensures forall cell :: cell in RowCells(ps, y, width) ==> Sealed(cell, false)
  {
    forall x | 0 <= x < width ensures Sealed(RowCells(ps, y, width)[x], false) {
      RowCellsAt(ps, y, width, x);
      CellTextIsSealed(LabelAt(ps, y, x));
    }
  }

  lemma PaddedCellIsRead(cell: string)
    ensures ReadCell(Pad(cell)) == Unescape(cell)
  {
    assert Pad(cell)[1..|Pad(cell)| - 1] == cell;
  }

  lemma RowSplits(ps: seq<Placement>, y: nat, width: nat)
    requires width >= 1
    ensures SplitPipes(Line(RowCells(ps, y, width)), false) == [""] + PadAll(RowCells(ps, y, width)) + [""]
  {
    RowCellsAreSealed(ps, y, width);
    LineSplitsIntoItsCells(RowCells(ps, y, width));
  }

  /**
   A printed row has width + 2 parts, the outer two empty; a label without line breaks is recovered from
   its part exactly.
   */
  lemma RowReadsBack(ps: seq<Placement>, y: nat, width: nat, x: nat)
    requires x < width
    ensures var parts := SplitPipes(Line(RowCells(ps, y, width)), false);
            && |parts| == width + 2 && parts[0] == "" && parts[width + 1] == ""
            && ((forall c :: c in LabelAt(ps, y, x) ==> !IsBreak(c)) ==>
                  ReadCell(parts[x + 1]) == Readable(LabelAt(ps, y, x)))
  {
    RowSplits(ps, y, width);
    RowCellsAt(ps, y, width, x);
    var text := LabelAt(ps, y, x);
    PaddedCellIsRead(CellText(text));
    if forall c :: c in text ==> !IsBreak(c) {
      CellIsRecovered(text);
    }
  }

  // ---------- Printed lines are plain ----------

  /** What an HTML cell may not contain for the printed table to be readable as a pipe table again. */
  predicate IsTame(text: string) {
    !HasTableTag(text) && forall i :: 0 <= i < |text| ==> IsLineEnd(text[i]) ==> IsBreak(text[i])
  }

  predicate IsPlain(text: string) {
    !HasTableTag(text) && forall i :: 0 <= i < |text| ==> !IsLineEnd(text[i]) && text[i] != REPLACEMENT
  }

  lemma {:induction false} CollapseMembers(s: string)
    ensures forall c :: c in CollapseBreaks(s) ==> (c in s && !IsBreak(c)) || c in " <br> "
    decreases |s|
  {
    if s == [] {
    } else if IsBreak(s[0]) {
      CollapseMembers(DropBreaks(s[1..]));
      DropBreaksMembers(s[1..]);
    } else {
      CollapseMembers(s[1..]);
    }
  }

  lemma {:induction false} DropBreaksMembers(s: string)
    ensures forall c :: c in DropBreaks(s) ==> c in s
  {
    if s == [] {
    } else if IsBreak(s[0]) {
      DropBreaksMembers(s[1..]);
    }
  }

  lemma CellTextIsPlain(text: string)
    requires IsTame(text)
    ensures IsPlain(CellText(text))
  {
    CellTextMakesNoTag(text);
    var escaped := Replace(Readable(text), '|', "\\|");
    ReplaceMembers(text, REPLACEMENT, UNREADABLE);
    ReplaceMembers(Readable(text), '|', "\\|");
    CollapseMembers(escaped);
    forall c | c in CellText(text) ensures !IsLineEnd(c) && c != REPLACEMENT {
      if c !in " <br> " && c !in "\\|" && c !in UNREADABLE {
        assert c in text;
      }
    }
  }

  lemma BarriersAreTame(s: string)
    requires forall i :: 0 <= i < |s| ==> IsBarrier(s[i]) && !IsLineEnd(s[i])
    ensures IsTame(s)
  {
    BarriersInFront(s, "");
    assert s + "" == s;
  }

  lemma {:induction false} LabelIsTame(ps: seq<Placement>, y: nat, x: nat)
    requires forall i :: 0 <= i < |ps| ==> IsTame(ps[i].cell.text)
    ensures IsTame(LabelAt(ps, y, x))
  {
    BarriersAreTame(UNREADABLE);
    if ps == [] {
    } else {
      LabelIsTame(ps[..|ps| - 1], y, x);
    }
  }

  lemma PaddedIsPlain(cell: string, rest: string)
    requires IsPlain(cell) && IsPlain(rest)
    ensures IsPlain(Pad(cell) + "|" + rest)
  {
    BarriersInFront(" |", rest);
    TagOnOneSide(cell, " |" + rest);
    BarriersInFront(" ", cell + (" |" + rest));
    assert Pad(cell) + "|" + rest == " " + (cell + (" |" + rest));
  }

  lemma {:induction false} TailIsPlain(cells: seq<string>)
    requires forall i :: 0 <= i < |cells| ==> IsPlain(cells[i])
    ensures IsPlain(Tail(cells))
  {
    if cells == [] {
    } else {
      TailIsPlain(cells[1..]);
      PaddedIsPlain(cells[0], Tail(cells[1..]));
    }
  }

  lemma {:induction false} TailEndsWithPipe(cells: seq<string>)
    requires cells != []
    ensures Tail(cells) != [] && Tail(cells)[|Tail(cells)| - 1] == '|'
  {
    if |cells| > 1 {
      TailEndsWithPipe(cells[1..]);
    }
  }

  lemma LineIsPlain(cells: seq<string>)
    requires cells != [] && forall i :: 0 <= i < |cells| ==> IsPlain(cells[i])
    ensures IsPlainLine(Line(cells))
  {
    LineIsTail(cells);
    TailIsPlain(cells);
    TailEndsWithPipe(cells);
    BarriersInFront("|", Tail(cells));
  }

  // ---------- The rule ----------

  lemma DashesAreDashes()
    ensures IsDashes(Pad("---")) && IsPlain("---") && Sealed("---", false)
  {
    var body := "---";
    assert Pad(body) == [' ', '-', '-', '-', ' '];
    assert TrimLeft(Pad(body)) == ['-', '-', '-', ' '];
    assert TrimRight(['-', '-', '-', ' ']) == body;
    BarriersInFront(body, "");
    assert body + "" == body;
  }

  lemma {:induction false} ChunkIsScanned(plain: string, rest: string, chunk: string)
    requires forall i :: 0 <= i < |plain| ==> plain[i] != '|'
    requires rest != [] && IsRuleTail(rest, chunk + plain)
    ensures IsRuleTail(plain + rest, chunk)
    decreases |plain|
  {
    if plain == [] {
      assert plain + rest == rest && chunk + plain == chunk;
    } else {
      assert chunk + [plain[0]] + plain[1..] == chunk + plain;
      ChunkIsScanned(plain[1..], rest, chunk + [plain[0]]);
      assert (plain + rest)[1..] == plain[1..] + rest;
    }
  }

  lemma DashesThenPipe(rest: string)
    requires rest == [] || IsRuleTail(rest, [])
    ensures IsRuleTail(Pad("---") + ("|" + rest), [])
  {
    DashesAreDashes();
    var dashes, closing := Pad("---"), "|" + rest;
    assert closing[1..] == rest;
    assert [] + dashes == dashes;
    assert IsRuleTail(closing, dashes);
    assert forall i :: 0 <= i < |dashes| ==> dashes[i] != '|';
    ChunkIsScanned(dashes, closing, []);
  }

  lemma {:induction false} RuleTailIsRule(cells: seq<string>)
    requires cells != [] && forall i :: 0 <= i < |cells| ==> cells[i] == "---"
    ensures IsRuleTail(Tail(cells), [])
  {
    var rest := Tail(cells[1..]);
    if |cells| > 1 {
      RuleTailIsRule(cells[1..]);
    }
    DashesThenPipe(rest);
    assert Tail(cells) == Pad(cells[0]) + ("|" + rest);
  }

  lemma RuleLineIsRule(width: nat)
    requires width >= 1
    ensures IsRule(Line(RuleCells(width))) && IsPlainLine(Line(RuleCells(width)))
    ensures |SplitPipes(Line(RuleCells(width)), false)| == width + 2
  {
    var cells := RuleCells(width);
    DashesAreDashes();
    RuleTailIsRule(cells);
    LineIsTail(cells);
    assert ("|" + Tail(cells))[1..] == Tail(cells);
    LineIsPlain(cells);
    LineSplitsIntoItsCells(cells);
  }

  // ---------- Fixed points of table_markdown ----------

  lemma RowLineIsPlain(ps: seq<Placement>, y: nat, width: nat)
    requires width >= 1 && forall i :: 0 <= i < |ps| ==> IsTame(ps[i].cell.text)
    ensures IsPlainLine(Line(RowCells(ps, y, width)))
    ensures |SplitPipes(Line(RowCells(ps, y, width)), false)| == width + 2
  {
    forall x | 0 <= x < width ensures IsPlain(RowCells(ps, y, width)[x]) {
      RowCellsAt(ps, y, width, x);
      LabelIsTame(ps, y, x);
      CellTextIsPlain(LabelAt(ps, y, x));
    }
    LineIsPlain(RowCells(ps, y, width));
    RowReadsBack(ps, y, width, 0);
  }

  predicate Printable(ps: seq<Placement>) {
    ps != [] && forall i :: 0 <= i < |ps| ==> ValidCell(ps[i].cell) && IsTame(ps[i].cell.text)
  }

  lemma PrintedLineIsPlain(ps: seq<Placement>, i: nat)
    requires Printable(ps) && Bottom(ps) >= 1 && Extent(ps) >= 1 && i < |PrintedLines(ps)|
    ensures var line := PrintedLines(ps)[i];
            && IsPlainLine(line)
            && |SplitPipes(line, false)| == Extent(ps) + 2
            && (i == 1 ==> IsRule(line))
  {
    if i == 1 {
      RuleLineIsRule(Extent(ps));
    } else {
      RowLineIsPlain(ps, if i == 0 then 0 else i - 1, Extent(ps));
    }
  }

  /** The printed form of an HTML table is returned unchanged by table_markdown, through its other branch. */
  lemma PrintedTableIsFixed(ps: seq<Placement>)
    requires Printable(ps)
    ensures Bottom(ps) >= 1
    ensures var text := Join(PrintedLines(ps), "\n"); PipeTable(text) == text && !HasTableTag(text)
  {
    BottomIsReached(ps);
    ExtentIsReached(ps);
    var lines := PrintedLines(ps);
    forall i | 0 <= i < |lines|
      ensures IsPlainLine(lines[i]) && |SplitPipes(lines[i], false)| == Extent(ps) + 2
      ensures i == 1 ==> IsRule(lines[i])
    {
      PrintedLineIsPlain(ps, i);
    }
    PlainTableIsFixed(lines);
  }

  // ---------- The pipe branch is idempotent ----------

  lemma {:induction false} ReplaceConcat(a: string, b: string, target: char, image: string)
    ensures Replace(a + b, target, image) == Replace(a, target, image) + Replace(b, target, image)
  {
    if a == [] {
      assert a + b == b;
    } else {
      ReplaceConcat(a[1..], b, target, image);
      assert (a + b)[1..] == a[1..] + b;
      var head := if a[0] == target then image else [a[0]];
      assert head + (Replace(a[1..], target, image) + Replace(b, target, image))
             == head + Replace(a[1..], target, image) + Replace(b, target, image);
    }
  }

  function ReadableAll(lines: seq<string>): (readable: seq<string>)
    ensures |readable| == |lines| && forall i :: 0 <= i < |lines| ==> readable[i] == Readable(lines[i])
  {
    seq(|lines|, i requires 0 <= i < |lines| => Readable(lines[i]))
  }

  lemma {:induction false} ReadableJoin(lines: seq<string>)
    ensures Readable(Join(lines, "\n")) == Join(ReadableAll(lines), "\n")
  {
    if |lines| > 1 {
      var rest := Join(lines[1..], "\n");
      ReadableJoin(lines[1..]);
      assert ReadableAll(lines)[1..] == ReadableAll(lines[1..]);
      ReplaceConcat(lines[0] + "\n", rest, REPLACEMENT, UNREADABLE);
      ReplaceConcat(lines[0], "\n", REPLACEMENT, UNREADABLE);
      ReadableIsIdentity("\n");
    }
  }

  /** Marks hold no pipe and no backslash, so they move no separator. */
  lemma {:induction false} ReadableKeepsParts(s: string, escaped: bool)
    ensures |SplitPipes(Readable(s), escaped)| == |SplitPipes(s, escaped)|
  {
    if s == [] {
    } else {
      ReadableKeepsParts(s[1..], s[0] == '\\');
      if s[0] == REPLACEMENT {
        PlainPrefixKeepsParts(UNREADABLE, Readable(s[1..]), escaped);
      } else {
        assert ([s[0]] + Readable(s[1..]))[1..] == Readable(s[1..]);
      }
    }
  }

  lemma {:induction false} PlainPrefixKeepsParts(plain: string, s: string, escaped: bool)
    requires plain != [] && forall i :: 0 <= i < |plain| ==> plain[i] != '|' && plain[i] != '\\'
    ensures |SplitPipes(plain + s, escaped)| == |SplitPipes(s, false)|
  {
    assert (plain + s)[1..] == plain[1..] + s;
    if |plain| == 1 {
      assert plain[1..] + s == s;
    } else {
      PlainPrefixKeepsParts(plain[1..], s, false);
    }
  }

  lemma {:induction false} TrimLeftMembers(s: string)
    ensures forall c :: c in s ==> c in TrimLeft(s) || IsSpace(c)
    ensures TrimLeft(s) != [] ==> !IsSpace(TrimLeft(s)[0])
    ensures exists i :: 0 <= i <= |s| && TrimLeft(s) == s[i..]
  {
    if s != [] && IsSpace(s[0]) {
      TrimLeftMembers(s[1..]);
      var i :| 0 <= i <= |s[1..]| && TrimLeft(s[1..]) == s[1..][i..];
      assert s[1..][i..] == s[i + 1..];
    } else {
      assert s == s[0..];
    }
  }

  lemma {:induction false} TrimRightMembers(s: string)
    ensures forall c :: c in s ==> c in TrimRight(s) || IsSpace(c)
    ensures exists i :: 0 <= i <= |s| && TrimRight(s) == s[..i]
  {
    if s != [] && IsSpace(s[|s| - 1]) {
      var front := s[..|s| - 1];
      TrimRightMembers(front);
      var i :| 0 <= i <= |front| && TrimRight(front) == front[..i];
      assert front[..i] == s[..i];
      assert s == front + [s[|s| - 1]];
    } else {
      assert s == s[..|s|];
    }
  }

  /** Stripping loses only white space and keeps a contiguous piece. */
  lemma StripIsPiece(s: string)
    ensures forall c :: c in s ==> c in Strip(s) || IsSpace(c)
    ensures exists i, j :: 0 <= i <= j <= |s| && Strip(s) == s[i..j]
  {
    TrimLeftMembers(s);
    TrimRightMembers(TrimLeft(s));
    var i :| 0 <= i <= |s| && TrimLeft(s) == s[i..];
    var k :| 0 <= k <= |s[i..]| && TrimRight(s[i..]) == s[i..][..k];
    assert s[i..][..k] == s[i..i + k];
  }

  lemma DashesHoldNoMark(chunk: string)
    requires IsDashes(chunk)
    ensures REPLACEMENT !in chunk
  {
    StripIsPiece(chunk);
    var body := Strip(chunk);
    assert forall i :: 0 <= i < |body| ==> body[i] == ':' || body[i] == '-';
  }

  lemma {:induction false} RuleTailHoldsNoMark(s: string, chunk: string)
    requires IsRuleTail(s, chunk)
    ensures REPLACEMENT !in s && REPLACEMENT !in chunk
    decreases |s|
  {
    if s[0] == '|' {
      DashesHoldNoMark(chunk);
      if |s| > 1 {
        RuleTailHoldsNoMark(s[1..], []);
      }
    } else {
      RuleTailHoldsNoMark(s[1..], chunk + [s[0]]);
      assert forall c :: c in chunk ==> c in chunk + [s[0]];
      assert s[0] in chunk + [s[0]];
    }
    assert s == [s[0]] + s[1..];
  }

  lemma {:induction false} SuffixHoldsNoTag(s: string, i: nat)
    requires i <= |s| && !HasTableTag(s)
    ensures !HasTableTag(s[i..])
  {
    if i > 0 {
      SuffixHoldsNoTag(s[1..], i - 1);
      assert s[1..][i - 1..] == s[i..];
    } else {
      assert s[0..] == s;
    }
  }

  lemma {:induction false} PrefixHoldsNoTag(s: string, j: nat)
    requires j <= |s| && !HasTableTag(s)
    ensures !HasTableTag(s[..j])
  {
    if j == 0 {
    } else {
      PrefixHoldsNoTag(s[1..], j - 1);
      assert s[..j][1..] == s[1..][..j - 1];
      assert s[..j] + s[j..] == s;
      if StartsWith(s[..j], TABLE_TAG) {
        StartsWithMore(s[..j], s[j..], TABLE_TAG);
      }
    }
  }

  lemma PiecesHoldNoTag(s: string, i: nat, j: nat)
    requires i <= j <= |s| && !HasTableTag(s)
    ensures !HasTableTag(s[i..j])
  {
    PrefixHoldsNoTag(s, j);
    SuffixHoldsNoTag(s[..j], i);
    assert s[..j][i..] == s[i..j];
  }

  lemma {:induction false} StartsWithMore(a: string, b: string, pattern: string)
    requires StartsWith(a, pattern)
    ensures StartsWith(a + b, pattern)
  {
    if pattern == [] {
    } else {
      StartsWithMore(a[1..], b, pattern[1..]);
      assert (a + b)[1..] == a[1..] + b;
    }
  }

  predicate IsContentLine(line: string) {
    line != [] && forall i :: 0 <= i < |line| ==> !IsLineEnd(line[i])
  }

  lemma KeptLine(current: string)
    requires forall i :: 0 <= i < |current| ==> !IsLineEnd(current[i])
    ensures forall i :: 0 <= i < |Keep(Strip(current))| ==> IsContentLine(Keep(Strip(current))[i])
    ensures !HasTableTag(current) ==> forall i :: 0 <= i < |Keep(Strip(current))| ==>
              !HasTableTag(Keep(Strip(current))[i])
  {
    StripIsPiece(current);
    var i, j :| 0 <= i <= j <= |current| && Strip(current) == current[i..j];
    if !HasTableTag(current) {
      PiecesHoldNoTag(current, i, j);
    }
  }

  lemma {:induction false} ContentLines(s: string, current: string)
    requires forall i :: 0 <= i < |current| ==> !IsLineEnd(current[i])
    requires !HasTableTag(current + s)
    ensures forall i :: 0 <= i < |StrippedLines(s, current)| ==>
              IsContentLine(StrippedLines(s, current)[i]) && !HasTableTag(StrippedLines(s, current)[i])
    decreases |s|
  {
    PiecesHoldNoTag(current + s, 0, |current|);
    assert (current + s)[0..|current|] == current;
    if s == [] {
      KeptLine(current);
    } else if IsLineEnd(s[0]) {
      KeptLine(current);
      PiecesHoldNoTag(current + s, |current| + 1, |current + s|);
      assert (current + s)[|current| + 1..|current + s|] == [] + s[1..];
      ContentLines(s[1..], []);
    } else {
      assert current + s == current + [s[0]] + s[1..];
      ContentLines(s[1..], current + [s[0]]);
    }
  }

  lemma ReadableIsFramed(line: string)
    requires IsFramed(line)
    ensures IsFramed(Readable(line))
  {
    var n := |line| - 1;
    assert line == line[..n] + [line[n]];
    ReplaceConcat(line[..n], [line[n]], REPLACEMENT, UNREADABLE);
    assert Readable([line[n]]) == [line[n]];
  }

  lemma ReadableLineIsPlain(line: string)
    requires IsFramed(line) && IsContentLine(line) && !HasTableTag(line)
    ensures IsPlainLine(Readable(line))
  {
    ReadableIsFramed(line);
    ReplaceMembers(line, REPLACEMENT, UNREADABLE);
    ReplaceMakesNoTag(line, REPLACEMENT, UNREADABLE);
    forall i | 0 <= i < |Readable(line)| ensures !IsLineEnd(Readable(line)[i]) && Readable(line)[i] != REPLACEMENT {
      assert Readable(line)[i] in Readable(line);
    }
  }

  /** For content without an HTML table, table_markdown is idempotent. */
  lemma PipeTableIsFixed(content: string)
    requires !HasTableTag(content)
    ensures var text := PipeTable(content); PipeTable(text) == text && !HasTableTag(text)
  {
    var lines := StrippedLines(content, []);
    if IsPipeTable(lines) {
      var readable := ReadableAll(lines);
      assert [] + content == content;
      ContentLines(content, []);
      forall i | 0 <= i < |lines|
        ensures IsPlainLine(readable[i]) && |SplitPipes(readable[i], false)| == |SplitPipes(lines[i], false)|
      {
        ReadableLineIsPlain(lines[i]);
        ReadableKeepsParts(lines[i], false);
      }
      RuleTailHoldsNoMark(lines[1][1..], []);
      ReadableIsIdentity(lines[1]);
      ReadableJoin(lines);
      PlainTableIsFixed(readable);
    }
  }
}
