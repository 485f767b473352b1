/**
 The read loop of streamChat in client/src/shared/lib/sse.ts, on decoded text.  Unlike section 9.2.6 of the WHATWG
 HTML Standard it dispatches on every data line, without waiting for a blank one.
 */
module SseReader {
  import opened Outcomes

  /** A parsed value: null, or anything else with the fields that callbacks read, where they exist. */
  datatype Json = Null | Value(body: string, error: Option<string>, stage: Option<string>, text: Option<string>)

  /** JSON.parse, which may throw, and String.trim. */
  datatype Host = Host(parse: string -> Option<Json>, trim: string -> string)

  datatype Call = OnDone(data: Json) | OnError(error: Option<string>) | OnStatus(stage: Option<string>)
      | OnChunk(text: string)

  const EVENT := "event: "
  const DATA := "data: "

  // ---------- One line ----------

  function WithoutCr(line: string): string {
    if line != "" && line[|line| - 1] == '\r' then line[..|line| - 1] else line
  }

  /** The callback of a data line.  Reading a field of null throws, like a failed parse, and is swallowed. */
  function Dispatch(event: string, parsed: Option<Json>): seq<Call> {
    match parsed
    case None => []
    case Some(value) =>
      if event == "done" then [OnDone(value)]
      else if value.Null? then []
      else if event == "error" then [OnError(value.error)]
      else if event == "status" then [OnStatus(value.stage)]
      else [OnChunk(if value.text.Some? then value.text.value else "")]
  }

  predicate IsEventLine(line: string) {
    EVENT <= WithoutCr(line)
  }

  predicate IsDataLine(line: string) {
    !IsEventLine(line) && DATA <= WithoutCr(line)
  }

  function EventName(h: Host, line: string): string
    requires IsEventLine(line)
  {
    h.trim(WithoutCr(line)[|EVENT|..])
  }

  /** The event in force after a list of lines. */
  function EventAfter(h: Host, lines: seq<string>, event: string): string {
    if lines == [] then event
    else
      var last := lines[|lines| - 1];
      if IsEventLine(last) then EventName(h, last)
      else if IsDataLine(last) then ""
      else EventAfter(h, lines[..|lines| - 1], event)
  }

  function CallsOf(h: Host, event: string, line: string): seq<Call> {
    if IsDataLine(line) then Dispatch(event, h.parse(WithoutCr(line)[|DATA|..])) else []
  }

  /** All callbacks of a list of lines, in order. */
  function CallsFor(h: Host, lines: seq<string>, event: string): seq<Call> {
    if lines == [] then []
    else
      var front, last := lines[..|lines| - 1], lines[|lines| - 1];
      CallsFor(h, front, event) + CallsOf(h, EventAfter(h, front, event), last)
  }

  // ---------- Splitting at line feeds ----------

  function Extended(parts: seq<string>, c: char): (r: seq<string>)
    requires |parts| > 0
    ensures |r| > 0
  {
    if c == '\n' then parts + [""] else parts[..|parts| - 1] + [parts[|parts| - 1] + [c]]
  }

  /** text.split("\n"). */
  function Parts(text: string): (parts: seq<string>)
    ensures |parts| > 0
  {
    if text == "" then [""] else Extended(Parts(text[..|text| - 1]), text[|text| - 1])
  }

  function Lines(text: string): seq<string> {
    Parts(text)[..|Parts(text)| - 1]
  }

  function Rest(text: string): string {
    Parts(text)[|Parts(text)| - 1]
  }

  // ---------- The reader ----------

  datatype State = State(buffer: string, event: string, calls: seq<Call>)

  /** One turn of the loop. */
  function Feed(h: Host, s: State, chunk: string): State {
    var lines := Lines(s.buffer + chunk);
    State(Rest(s.buffer + chunk), EventAfter(h, lines, s.event), s.calls + CallsFor(h, lines, s.event))
  }

  function FeedAll(h: Host, chunks: seq<string>): State {
    if chunks == [] then State("", "", []) else Feed(h, FeedAll(h, chunks[..|chunks| - 1]), chunks[|chunks| - 1])
  }

  class Stream {
    var buffer: string
    var currentEvent: string
    var calls: seq<Call>

    ghost function Now(): State
      reads this
    {
      State(buffer, currentEvent, calls)
    }

    constructor ()
      ensures Now() == State("", "", [])
    {
      buffer, currentEvent, calls := "", "", [];
    }

    method Receive(h: Host, chunk: string)
      modifies this
      ensures Now() == Feed(h, old(Now()), chunk)
    {
      buffer := buffer + chunk;
      var parts := Parts(buffer);
      var lines := parts[..|parts| - 1];
      buffer := parts[|parts| - 1];
      ghost var event, before := currentEvent, calls;
      for i := 0 to |lines|
        invariant buffer == parts[|parts| - 1]
        invariant currentEvent == EventAfter(h, lines[..i], event)
        invariant calls == before + CallsFor(h, lines[..i], event)
      {
        assert lines[..i + 1] == lines[..i] + [lines[i]];
        CallsAppend(h, lines[..i], lines[i], event);
        EventConcat(h, lines[..i], [lines[i]], event);
        Associate(before, CallsFor(h, lines[..i], event), CallsOf(h, EventAfter(h, lines[..i], event), lines[i]));
        HandleLine(h, lines[i]);
      }
      assert lines[..|lines|] == lines;
    }

    method HandleLine(h: Host, rawLine: string)
      modifies this`currentEvent, this`calls
      ensures currentEvent == EventAfter(h, [rawLine], old(currentEvent))
      ensures calls == old(calls) + CallsOf(h, old(currentEvent), rawLine)
    {
      var line := WithoutCr(rawLine);
      if EVENT <= line {
        currentEvent := h.trim(line[7..]);
      } else if DATA <= line {
        var parsed := h.parse(line[6..]);
        if parsed.Some? {
          if currentEvent == "done" {
            calls := calls + [OnDone(parsed.value)];
          } else if parsed.value.Value? {
            if currentEvent == "error" {
              calls := calls + [OnError(parsed.value.error)];
            } else if currentEvent == "status" {
              calls := calls + [OnStatus(parsed.value.stage)];
            } else {
              calls := calls + [OnChunk(if parsed.value.text.Some? then parsed.value.text.value else "")];
            }
          }
        }
        currentEvent := "";
      }
    }

    /** The whole stream, chunk by chunk. */
    method ReadAll(h: Host, chunks: seq<string>)
      requires Now() == State("", "", [])
      modifies this
      ensures Now() == FeedAll(h, chunks)
    {
      for i := 0 to |chunks|
        invariant Now() == FeedAll(h, chunks[..i])
      {
        assert chunks[..i + 1][..i] == chunks[..i];
        Receive(h, chunks[i]);
      }
      assert chunks[..|chunks|] == chunks;
    }
  }

  function Concatenated(chunks: seq<string>): string {
    if chunks == [] then "" else Concatenated(chunks[..|chunks| - 1]) + chunks[|chunks| - 1]
  }

  // ---------- Where the text is cut does not matter ----------

  lemma ExtendedConcat(first: seq<string>, parts: seq<string>, c: char)
    requires |parts| > 0
    ensures Extended(first + parts, c) == first + Extended(parts, c)
  {
    assert (first + parts)[..|first| + |parts| - 1] == first + parts[..|parts| - 1];
  }

  lemma PartsAppend(text: string, c: char)
    ensures Parts(text + [c]) == Extended(Parts(text), c)
  {
    assert (text + [c])[..|text|] == text;
  }

  lemma {:induction false} PartsConcat(a: string, b: string)
    ensures Parts(a + b) == Lines(a) + Parts(Rest(a) + b)
  {
    if b == "" {
      assert a + b == a && Rest(a) + b == Rest(a);
      RestIsOnePart(a);
    } else {
      var n := |b| - 1;
      PartsConcat(a, b[..n]);
      assert a + b == a + b[..n] + [b[n]] && Rest(a) + b == Rest(a) + b[..n] + [b[n]];
      PartsAppend(a + b[..n], b[n]);
      PartsAppend(Rest(a) + b[..n], b[n]);
      ExtendedConcat(Lines(a), Parts(Rest(a) + b[..n]), b[n]);
    }
  }

  lemma {:induction false} RestHasNoFeed(text: string)
    ensures '\n' !in Rest(text)
  {
    if text != "" {
      RestHasNoFeed(text[..|text| - 1]);
    }
  }

  lemma {:induction false} NoFeedOnePart(text: string)
    requires '\n' !in text
    ensures Parts(text) == [text]
  {
    if text != "" {
      NoFeedOnePart(text[..|text| - 1]);
      assert text == text[..|text| - 1] + [text[|text| - 1]];
    }
  }

  lemma RestIsOnePart(text: string)
    ensures Parts(Rest(text)) == [Rest(text)]
  {
    RestHasNoFeed(text);
    NoFeedOnePart(Rest(text));
  }

  lemma {:induction false} EventConcat(h: Host, first: seq<string>, second: seq<string>, event: string)
    ensures EventAfter(h, first + second, event) == EventAfter(h, second, EventAfter(h, first, event))
  {
    if second == [] {
      assert first + second == first;
    } else {
      EventConcat(h, first, second[..|second| - 1], event);
      assert (first + second)[..|first + second| - 1] == first + second[..|second| - 1];
    }
  }

  lemma CallsAppend(h: Host, lines: seq<string>, line: string, event: string)
    ensures CallsFor(h, lines + [line], event)
            == CallsFor(h, lines, event) + CallsOf(h, EventAfter(h, lines, event), line)
  {
    assert (lines + [line])[..|lines|] == lines;
  }

  lemma Associate(a: seq<Call>, b: seq<Call>, c: seq<Call>)
    ensures (a + b) + c == a + (b + c)
  {
  }

  lemma {:induction false} CallsConcat(h: Host, first: seq<string>, second: seq<string>, event: string)
    ensures CallsFor(h, first + second, event)
            == CallsFor(h, first, event) + CallsFor(h, second, EventAfter(h, first, event))
  {
    if second == [] {
      assert first + second == first;
    } else {
      var n, named := |second| - 1, EventAfter(h, first, event);
      var front, last := second[..n], second[n];
      assert second == front + [last] && first + second == first + front + [last];
      CallsConcat(h, first, front, event);
      EventConcat(h, first, front, event);
      CallsAppend(h, first + front, last, event);
      CallsAppend(h, front, last, named);
      Associate(CallsFor(h, first, event), CallsFor(h, front, named), CallsOf(h, EventAfter(h, front, named), last));
    }
  }

  /** Reading a, then b behind what a left in the buffer, is reading both at once. */
  lemma CutAnywhere(h: Host, a: string, b: string, event: string)
    ensures Rest(a + b) == Rest(Rest(a) + b)
    ensures EventAfter(h, Lines(a + b), event) == EventAfter(h, Lines(Rest(a) + b), EventAfter(h, Lines(a), event))
    ensures CallsFor(h, Lines(a + b), event)
            == CallsFor(h, Lines(a), event) + CallsFor(h, Lines(Rest(a) + b), EventAfter(h, Lines(a), event))
  {
    PartsConcat(a, b);
    assert Lines(a + b) == Lines(a) + Lines(Rest(a) + b);
    EventConcat(h, Lines(a), Lines(Rest(a) + b), event);
    CallsConcat(h, Lines(a), Lines(Rest(a) + b), event);
  }

  /** The state after reading a text in one piece. */
  function Whole(h: Host, text: string): State {
    State(Rest(text), EventAfter(h, Lines(text), ""), CallsFor(h, Lines(text), ""))
  }

  lemma FeedWhole(h: Host, text: string, chunk: string)
    ensures Feed(h, Whole(h, text), chunk) == Whole(h, text + chunk)
  {
    CutAnywhere(h, text, chunk, "");
  }

  /** Reading chunk by chunk comes to the same as reading the text in one piece. */
  lemma {:induction false} ChunksAreOneText(h: Host, chunks: seq<string>)
    ensures FeedAll(h, chunks) == Whole(h, Concatenated(chunks))
  {
    if chunks == [] {
    } else {
      ChunksAreOneText(h, chunks[..|chunks| - 1]);
      FeedWhole(h, Concatenated(chunks[..|chunks| - 1]), chunks[|chunks| - 1]);
    }
  }

  /** Two ways of cutting the same text into chunks make the same callbacks. */
  lemma ChunksDoNotMatter(h: Host, some: seq<string>, other: seq<string>)
    requires Concatenated(some) == Concatenated(other)
    ensures FeedAll(h, some) == FeedAll(h, other)
  {
    ChunksAreOneText(h, some);
    ChunksAreOneText(h, other);
  }

  // ---------- An event name serves one data line ----------

  /** The event line that names the event in force before line i, if there is one. */
  function NamedBy(lines: seq<string>, i: nat): (j: Option<nat>)
    requires i <= |lines|
    ensures j.Some? ==> j.value < i && IsEventLine(lines[j.value])
    ensures j.Some? ==> forall k :: j.value < k < i ==> !IsEventLine(lines[k]) && !IsDataLine(lines[k])
  {
    if i == 0 || IsDataLine(lines[i - 1]) then None
    else if IsEventLine(lines[i - 1]) then Some(i - 1)
    else NamedBy(lines, i - 1)
  }

  lemma {:induction false} EventIsNamed(h: Host, lines: seq<string>, i: nat)
    requires i <= |lines|
    ensures EventAfter(h, lines[..i], "")
            == if NamedBy(lines, i).Some? then EventName(h, lines[NamedBy(lines, i).value]) else ""
  {
    if i == 0 {
    } else {
      assert lines[..i][..i - 1] == lines[..i - 1];
      EventIsNamed(h, lines, i - 1);
    }
  }

  /** No event line names the event of two data lines. */
  lemma NameServesOneDataLine(lines: seq<string>, a: nat, b: nat)
    requires a < |lines| && b < |lines| && IsDataLine(lines[a]) && IsDataLine(lines[b])
    requires NamedBy(lines, a).Some? && NamedBy(lines, a) == NamedBy(lines, b)
    ensures a == b
  {
  }

  /** Each data line makes at most one callback, chosen by the event named for it. */
  lemma {:induction false} OneCallPerDataLine(h: Host, lines: seq<string>)
    ensures |CallsFor(h, lines, "")| <= |lines|
    ensures lines != [] ==>
              var n := |lines| - 1;
              CallsFor(h, lines, "") == CallsFor(h, lines[..n], "")
                + CallsOf(h, if NamedBy(lines, n).Some? then EventName(h, lines[NamedBy(lines, n).value])
                    else "", lines[n])
  {
    if lines == [] {
    } else {
      OneCallPerDataLine(h, lines[..|lines| - 1]);
      EventIsNamed(h, lines, |lines| - 1);
    }
  }

  // ---------- Line ends ----------

  function WithCrLf(text: string): string {
    if text == "" then ""
    else
      WithCrLf(text[..|text| - 1]) + if text[|text| - 1] == '\n' then "\r\n" else [text[|text| - 1]]
  }

  function AppendCr(lines: seq<string>): (r: seq<string>)
    ensures |r| == |lines| && forall i :: 0 <= i < |lines| ==> r[i] == lines[i] + "\r"
  {
    if lines == [] then [] else AppendCr(lines[..|lines| - 1]) + [lines[|lines| - 1] + "\r"]
  }

  lemma {:induction false} CrLfParts(text: string)
    ensures Lines(WithCrLf(text)) == AppendCr(Lines(text)) && Rest(WithCrLf(text)) == Rest(text)
  {
    if text != "" {
      var front, c := text[..|text| - 1], text[|text| - 1];
      CrLfParts(front);
      PartsAppend(front, c);
      assert text == front + [c];
      if c == '\n' {
        PartsAppend(WithCrLf(front), '\r');
        PartsAppend(WithCrLf(front) + "\r", '\n');
        assert WithCrLf(text) == WithCrLf(front) + "\r" + "\n";
        assert Lines(text) == Lines(front) + [Rest(front)];
        assert Lines(text)[..|Lines(front)|] == Lines(front);
      } else {
        PartsAppend(WithCrLf(front), c);
        assert Lines(text) == Lines(front);
      }
    }
  }

  lemma {:induction false} PartsAreMadeOfText(text: string, i: nat)
    requires i < |Parts(text)| && '\r' !in text
    ensures '\r' !in Parts(text)[i]
  {
    if text != "" {
      var front := text[..|text| - 1];
      if i < |Parts(front)| {
        PartsAreMadeOfText(front, i);
      }
    }
  }

  lemma SameLine(line: string)
    requires '\r' !in line
    ensures WithoutCr(line + "\r") == WithoutCr(line) == line
  {
  }

  lemma {:induction false} SameProcessing(h: Host, lines: seq<string>, event: string)
    requires forall i :: 0 <= i < |lines| ==> '\r' !in lines[i]
    ensures EventAfter(h, AppendCr(lines), event) == EventAfter(h, lines, event)
    ensures CallsFor(h, AppendCr(lines), event) == CallsFor(h, lines, event)
  {
    if lines == [] {
    } else {
      var n := |lines| - 1;
      SameProcessing(h, lines[..n], event);
      SameLine(lines[n]);
      assert AppendCr(lines)[..n] == AppendCr(lines[..n]);
    }
  }

  /** Text without carriage returns means the same when every line feed becomes a carriage return and a line feed. */
  lemma CrLfMeansTheSame(h: Host, text: string)
    requires '\r' !in text
    ensures Rest(WithCrLf(text)) == Rest(text)
    ensures EventAfter(h, Lines(WithCrLf(text)), "") == EventAfter(h, Lines(text), "")
    ensures CallsFor(h, Lines(WithCrLf(text)), "") == CallsFor(h, Lines(text), "")
  {
    CrLfParts(text);
    forall i | 0 <= i < |Lines(text)| ensures '\r' !in Lines(text)[i] {
      PartsAreMadeOfText(text, i);
    }
    SameProcessing(h, Lines(text), "");
  }
}
