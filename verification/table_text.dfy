/**
 The strings of services/ocr_vl/tables.py: escaping a cell, printing a row, and splitting a printed row
 at its unescaped pipes.
 */
module TableText {

  const UNREADABLE := "[\U{43D}\U{435}\U{440}\U{430}\U{437}\U{431}\U{43E}\U{440}\U{447}\U{438}\U{432}\U{43E}]"

  const REPLACEMENT: char := '\U{FFFD}'

  function Replace(s: string, target: char, image: string): string {
    if s == [] then []
    else (if s[0] == target then image else [s[0]]) + Replace(s[1..], target, image)
  }

  predicate IsBreak(c: char) {
    c == '\r' || c == '\n'
  }

  function DropBreaks(s: string): (rest: string)
    ensures |rest| <= |s|
    ensures rest == [] || !IsBreak(rest[0])
  {
    if s != [] && IsBreak(s[0]) then DropBreaks(s[1..]) else s
  }

  /** A run of line breaks becomes one tag. */
  function CollapseBreaks(s: string): string
    decreases |s|
  {
    if s == [] then []
    else if IsBreak(s[0]) then " <br> " + CollapseBreaks(DropBreaks(s[1..]))
    else [s[0]] + CollapseBreaks(s[1..])
  }

  function Readable(text: string): string {
    Replace(text, REPLACEMENT, UNREADABLE)
  }

  function CellText(text: string): string {
    CollapseBreaks(Replace(Readable(text), '|', "\\|"))
  }

  function Join(parts: seq<string>, separator: string): string {
    if parts == [] then []
    else if |parts| == 1 then parts[0]
    else parts[0] + separator + Join(parts[1..], separator)
  }

  function Line(cells: seq<string>): string {
    "| " + Join(cells, " | ") + " |"
  }

  // ---------- Splitting at unescaped pipes ----------

  /** The parts of `s` between pipes not preceded by a backslash; `escaped` tells whether one precedes `s`. */
  function SplitPipes(s: string, escaped: bool): (parts: seq<string>)
    ensures |parts| >= 1
  {
    if s == [] then [""]
    else
      var rest := SplitPipes(s[1..], s[0] == '\\');
      if s[0] == '|' && !escaped then [""] + rest else [[s[0]] + rest[0]] + rest[1..]
  }

  /** Every pipe of `s` is escaped. */
  predicate Sealed(s: string, escaped: bool) {
    s == [] || ((s[0] == '|' ==> escaped) && Sealed(s[1..], s[0] == '\\'))
  }

  function Unescape(s: string): string {
    if s == [] then []
    else if |s| >= 2 && s[0] == '\\' && s[1] == '|' then ['|'] + Unescape(s[2..])
    else [s[0]] + Unescape(s[1..])
  }

  lemma {:induction false} EscapedIsSealed(s: string, escaped: bool)
    ensures Sealed(Replace(s, '|', "\\|"), escaped)
  {
    if s == [] {
    } else {
      var rest := Replace(s[1..], '|', "\\|");
      if s[0] == '|' {
        EscapedIsSealed(s[1..], false);
        assert ("\\|" + rest)[1..] == "|" + rest;
        assert ("|" + rest)[1..] == rest;
      } else {
        EscapedIsSealed(s[1..], s[0] == '\\');
        assert ([s[0]] + rest)[1..] == rest;
      }
    }
  }

  lemma {:induction false} DropBreaksKeepsSeal(s: string)
    requires Sealed(s, false)
    ensures Sealed(DropBreaks(s), false)
  {
    if s == [] {
    } else if IsBreak(s[0]) {
      DropBreaksKeepsSeal(s[1..]);
    }
  }

  lemma {:induction false} CollapseKeepsSeal(s: string, escaped: bool)
    requires Sealed(s, escaped)
    ensures Sealed(CollapseBreaks(s), escaped)
    decreases |s|
  {
    if s == [] {
    } else if IsBreak(s[0]) {
      DropBreaksKeepsSeal(s[1..]);
      var rest := CollapseBreaks(DropBreaks(s[1..]));
      CollapseKeepsSeal(DropBreaks(s[1..]), false);
      PrefixSealed(" <br> ", rest);
    } else {
      CollapseKeepsSeal(s[1..], s[0] == '\\');
      assert ([s[0]] + CollapseBreaks(s[1..]))[1..] == CollapseBreaks(s[1..]);
    }
  }

  lemma {:induction false} PrefixSealed(plain: string, s: string)
    requires Sealed(s, false) && forall i :: 0 <= i < |plain| ==> plain[i] != '|' && plain[i] != '\\'
    ensures Sealed(plain + s, false) && Sealed(plain + s, true)
  {
    if plain == [] {
      assert plain + s == s;
      SealedEither(s);
    } else {
      PrefixSealed(plain[1..], s);
      assert (plain + s)[1..] == plain[1..] + s;
      assert Sealed(plain[1..] + s, false);
    }
  }

  lemma SealedEither(s: string)
    requires Sealed(s, false)
    ensures Sealed(s, true)
  {
  }

  lemma CellTextIsSealed(text: string)
    ensures Sealed(CellText(text), false)
  {
    EscapedIsSealed(Readable(text), false);
    CollapseKeepsSeal(Replace(Readable(text), '|', "\\|"), false);
  }

  function EndsEscaped(s: string, escaped: bool): bool {
    if s == [] then escaped else s[|s| - 1] == '\\'
  }

  /** A sealed prefix stays within the first part. */
  lemma {:induction false} SplitAfterSealed(s: string, rest: string, escaped: bool)
    requires Sealed(s, escaped)
    ensures var parts := SplitPipes(rest, EndsEscaped(s, escaped));
            SplitPipes(s + rest, escaped) == [s + parts[0]] + parts[1..]
  {
    var parts := SplitPipes(rest, EndsEscaped(s, escaped));
    if s == [] {
      assert s + rest == rest && s + parts[0] == parts[0];
    } else {
      SplitAfterSealed(s[1..], rest, s[0] == '\\');
      var inner := SplitPipes(s[1..] + rest, s[0] == '\\');
      assert (s + rest)[1..] == s[1..] + rest;
      assert inner[0] == s[1..] + parts[0] && inner[1..] == parts[1..];
      assert [s[0]] + (s[1..] + parts[0]) == s + parts[0];
    }
  }

  function Pad(cell: string): string {
    " " + cell + " "
  }

  function PadAll(cells: seq<string>): (padded: seq<string>)
    ensures |padded| == |cells| && forall i :: 0 <= i < |cells| ==> padded[i] == Pad(cells[i])
  {
    seq(|cells|, i requires 0 <= i < |cells| => Pad(cells[i]))
  }

  /** The part of a line after its first pipe. */
  function Tail(cells: seq<string>): string {
    if cells == [] then [] else Pad(cells[0]) + "|" + Tail(cells[1..])
  }

  lemma {:induction false} LineIsTail(cells: seq<string>)
    requires cells != []
    ensures Line(cells) == "|" + Tail(cells)
  {
    if |cells| == 1 {
      assert Tail(cells[1..]) == "";
      assert "| " + cells[0] + " |" == "|" + (Pad(cells[0]) + "|" + "");
    } else {
      LineIsTail(cells[1..]);
      var more := Join(cells[1..], " | ");
      assert "| " + more + " |" == "|" + Tail(cells[1..]);
      assert ("| " + more + " |")[1..] == " " + more + " |";
      assert ("|" + Tail(cells[1..]))[1..] == Tail(cells[1..]);
      assert "| " + (cells[0] + " | " + more) + " |" == "|" + (Pad(cells[0]) + "|" + (" " + more + " |"));
    }
  }

  lemma {:induction false} SplitTail(cells: seq<string>)
    requires forall cell :: cell in cells ==> Sealed(cell, false)
    ensures SplitPipes(Tail(cells), false) == PadAll(cells) + [""]
  {
    if cells == [] {
      assert PadAll(cells) + [""] == [""];
    } else {
      var rest := "|" + Tail(cells[1..]);
      SplitTail(cells[1..]);
      PaddedIsSealed(cells[0]);
      SplitAfterSealed(Pad(cells[0]), rest, false);
      assert rest[1..] == Tail(cells[1..]);
      assert SplitPipes(rest, false) == [""] + (PadAll(cells[1..]) + [""]);
      assert Tail(cells) == Pad(cells[0]) + rest;
      assert Pad(cells[0]) + "" == Pad(cells[0]);
      assert PadAll(cells) == [Pad(cells[0])] + PadAll(cells[1..]);
    }
  }

  lemma PaddedIsSealed(cell: string)
    requires Sealed(cell, false)
    ensures Sealed(Pad(cell), false) && !EndsEscaped(Pad(cell), false)
  {
    SealedThenSpace(cell, false);
    assert Pad(cell)[1..] == cell + " ";
  }

  lemma {:induction false} SealedThenSpace(s: string, escaped: bool)
    requires Sealed(s, escaped)
    ensures Sealed(s + " ", escaped)
  {
    if s == [] {
    } else {
      SealedThenSpace(s[1..], s[0] == '\\');
      assert (s + " ")[1..] == s[1..] + " ";
    }
  }

  /** A printed row of w cells reads back as w + 2 parts: nothing, the padded cells, nothing. */
  lemma LineSplitsIntoItsCells(cells: seq<string>)
    requires cells != [] && forall cell :: cell in cells ==> Sealed(cell, false)
    ensures SplitPipes(Line(cells), false) == [""] + PadAll(cells) + [""]
    ensures |SplitPipes(Line(cells), false)| == |cells| + 2
  {
    LineIsTail(cells);
    SplitTail(cells);
    assert ("|" + Tail(cells))[1..] == Tail(cells);
  }

  lemma {:induction false} UnescapeInvertsEscape(s: string)
    ensures Unescape(Replace(s, '|', "\\|")) == s
  {
    if s == [] {
    } else {
      UnescapeInvertsEscape(s[1..]);
      var rest := Replace(s[1..], '|', "\\|");
      if s[0] == '|' {
        assert ("\\|" + rest)[2..] == rest;
      } else {
        EscapeNeverStartsWithPipe(s[1..]);
        assert ([s[0]] + rest)[1..] == rest;
      }
    }
  }

  lemma EscapeNeverStartsWithPipe(s: string)
    ensures var e := Replace(s, '|', "\\|"); e == [] || e[0] != '|'
  {
  }

  lemma {:induction false} CollapseWithoutBreaks(s: string)
    requires forall c :: c in s ==> !IsBreak(c)
    ensures CollapseBreaks(s) == s
  {
    if s == [] {
    } else {
      CollapseWithoutBreaks(s[1..]);
    }
  }

  lemma {:induction false} ReplaceMembers(s: string, target: char, image: string)
    ensures forall c :: c in Replace(s, target, image) ==> (c in s && c != target) || c in image
  {
    if s == [] {
    } else {
      ReplaceMembers(s[1..], target, image);
    }
  }

  /** A cell without line breaks is recovered from the printed row, whatever pipes and backslashes it holds. */
  lemma CellIsRecovered(text: string)
    requires forall c :: c in text ==> !IsBreak(c)
    ensures Unescape(CellText(text)) == Readable(text)
  {
    ReplaceMembers(text, REPLACEMENT, UNREADABLE);
    ReplaceMembers(Readable(text), '|', "\\|");
    CollapseWithoutBreaks(Replace(Readable(text), '|', "\\|"));
    UnescapeInvertsEscape(Readable(text));
  }
}
