/**
 Env files as read_snapshot and rewrite_env of config_migration.py see them: a list of bindings, each with
 the text it was read from.

 Assumed of dotenv's lexer, which is not modelled: reading the concatenated texts of a well-formed list gives
 that list back, and upper-casing the first occurrence of its key changes a binding's key and nothing else.
 */
module EnvFile {
  import opened Outcomes

  /** A line group of the file.  Comments and blank lines have no key; `KEY` without `=` has no value. */
  datatype Binding = Binding(key: Option<string>, value: Option<string>, text: string)

  type File = seq<Binding>

  function UpperChar(c: char): char {
    if 'a' <= c <= 'z' then c - 32 as char else c
  }

  function Upper(s: string): string {
    if s == [] then [] else [UpperChar(s[0])] + Upper(s[1..])
  }

  lemma {:induction false} UpperIsIdempotent(s: string)
    ensures Upper(Upper(s)) == Upper(s)
  {
    if s == [] {
    } else {
      UpperIsIdempotent(s[1..]);
      assert Upper(s)[1..] == Upper(s[1..]);
    }
  }

  predicate Names(b: Binding, name: string) {
    b.key.Some? && Upper(b.key.value) == name
  }

  // ---------- Reading ----------

  /** dotenv's dictionary: the last value of each spelling. */
  function Spelled(file: File): map<string, Option<string>> {
    if file == [] then map[]
    else
      var b := file[|file| - 1];
      var earlier := Spelled(file[..|file| - 1]);
      if b.key.Some? then earlier[b.key.value := b.value] else earlier
  }

  /** The order of that dictionary: a spelling keeps the place of its first occurrence. */
  function Spellings(file: File): (order: seq<string>)
    ensures forall s :: s in order <==> s in Spelled(file)
    ensures forall i, j :: 0 <= i < j < |order| ==> order[i] != order[j]
  {
    if file == [] then []
    else
      var b := file[|file| - 1];
      var earlier := Spellings(file[..|file| - 1]);
      if b.key.Some? && b.key.value !in earlier then earlier + [b.key.value] else earlier
  }

  function UpperCased(order: seq<string>, spelled: map<string, Option<string>>): map<string, Option<string>>
    requires forall s :: s in order ==> s in spelled
  {
    if order == [] then map[]
    else
      var last := order[|order| - 1];
      UpperCased(order[..|order| - 1], spelled)[Upper(last) := spelled[last]]
  }

  /** EnvSnapshot.values. */
  function ReadValues(file: File): map<string, Option<string>> {
    UpperCased(Spellings(file), Spelled(file))
  }

  /** The value of the last binding of each name, whatever its letter case. */
  function LastValues(file: File): map<string, Option<string>> {
    if file == [] then map[]
    else
      var b := file[|file| - 1];
      var earlier := LastValues(file[..|file| - 1]);
      if b.key.Some? then earlier[Upper(b.key.value) := b.value] else earlier
  }

  predicate OneSpelling(file: File) {
    forall i, j | 0 <= i < |file| && 0 <= j < |file| && file[i].key.Some? && file[j].key.Some? ::
      Upper(file[i].key.value) == Upper(file[j].key.value) ==> file[i].key == file[j].key
  }

  predicate HasSpelling(order: seq<string>, name: string) {
    exists s :: s in order && Upper(s) == name
  }

  /** Among a name's spellings, the one whose first occurrence comes last. */
  function LastSpelling(order: seq<string>, name: string): (s: string)
    requires HasSpelling(order, name)
    ensures s in order && Upper(s) == name
  {
    var front, last := order[..|order| - 1], order[|order| - 1];
    if Upper(last) == name then last
    else
      assert HasSpelling(front, name) by {
        var s :| s in order && Upper(s) == name;
        assert order == front + [last];
      }
      LastSpelling(front, name)
  }

  /** Reading lets that spelling win, whatever the other spellings say later in the file. */
  lemma {:induction false} UpperCasedTakesLastSpelling(order: seq<string>, spelled: map<string, Option<string>>,
                                                       name: string)
    requires forall s :: s in order ==> s in spelled
    ensures name in UpperCased(order, spelled) <==> HasSpelling(order, name)
    ensures HasSpelling(order, name) ==> UpperCased(order, spelled)[name] == spelled[LastSpelling(order, name)]
  {
    if order == [] {
    } else {
      var front, last := order[..|order| - 1], order[|order| - 1];
      UpperCasedTakesLastSpelling(front, spelled, name);
      assert order == front + [last];
      assert HasSpelling(order, name) <==> HasSpelling(front, name) || Upper(last) == name;
    }
  }

  lemma UpperCasedAt(order: seq<string>, spelled: map<string, Option<string>>)
    requires forall s :: s in order ==> s in spelled
    requires forall i, j :: 0 <= i < j < |order| ==> Upper(order[i]) != Upper(order[j])
    ensures forall s :: s in order ==> Upper(s) in UpperCased(order, spelled)
                                       && UpperCased(order, spelled)[Upper(s)] == spelled[s]
    ensures forall n :: n in UpperCased(order, spelled) ==> exists s :: s in order && Upper(s) == n
  {
    forall s | s in order
      ensures Upper(s) in UpperCased(order, spelled) && UpperCased(order, spelled)[Upper(s)] == spelled[s]
    {
      assert HasSpelling(order, Upper(s));
      UpperCasedTakesLastSpelling(order, spelled, Upper(s));
      OneOfEachName(order, s, LastSpelling(order, Upper(s)));
    }
    forall n | n in UpperCased(order, spelled) ensures exists s :: s in order && Upper(s) == n {
      UpperCasedTakesLastSpelling(order, spelled, n);
    }
  }

  lemma OneOfEachName(order: seq<string>, s: string, other: string)
    requires forall i, j :: 0 <= i < j < |order| ==> Upper(order[i]) != Upper(order[j])
    requires s in order && other in order && Upper(s) == Upper(other)
    ensures s == other
  {
    var i, j :| 0 <= i < |order| && 0 <= j < |order| && order[i] == s && order[j] == other;
  }

  function LastBinding(file: File, name: string): (b: Binding)
    requires name in LastValues(file)
    ensures Names(b, name) && b.value == LastValues(file)[name]
  {
    var b := file[|file| - 1];
    if Names(b, name) then b else LastBinding(file[..|file| - 1], name)
  }

  lemma {:induction false} LastIsSpelled(file: File, name: string)
    requires name in LastValues(file)
    ensures var s := LastBinding(file, name).key.value;
            s in Spelled(file) && Spelled(file)[s] == LastValues(file)[name]
    ensures exists i :: 0 <= i < |file| && file[i] == LastBinding(file, name)
  {
    var front, b := file[..|file| - 1], file[|file| - 1];
    if !Names(b, name) {
      LastIsSpelled(front, name);
      var i :| 0 <= i < |front| && front[i] == LastBinding(front, name);
      assert file[i] == front[i];
    }
  }

  lemma {:induction false} SpelledIsLast(file: File, s: string)
    requires s in Spelled(file)
    ensures Upper(s) in LastValues(file)
    ensures exists i :: 0 <= i < |file| && file[i].key == Some(s)
  {
    var front, b := file[..|file| - 1], file[|file| - 1];
    if b.key != Some(s) {
      SpelledIsLast(front, s);
      var i :| 0 <= i < |front| && front[i].key == Some(s);
      assert file[i] == front[i];
    }
  }

  lemma SpelledValue(file: File, s: string)
    requires OneSpelling(file) && s in Spelled(file)
    ensures Upper(s) in LastValues(file) && LastBinding(file, Upper(s)).key == Some(s)
    ensures Spelled(file)[s] == LastValues(file)[Upper(s)]
  {
    SpelledIsLast(file, s);
    LastIsSpelled(file, Upper(s));
    var i :| 0 <= i < |file| && file[i].key == Some(s);
    var j :| 0 <= j < |file| && file[j] == LastBinding(file, Upper(s));
    assert file[i].key == file[j].key;
  }

  /** With one spelling per name, both ways of resolving duplicates agree: the last binding counts. */
  lemma ReadingTakesTheLastBinding(file: File)
    requires OneSpelling(file)
    ensures ReadValues(file) == LastValues(file)
  {
    var order, spelled := Spellings(file), Spelled(file);
    forall i, j | 0 <= i < j < |order| ensures Upper(order[i]) != Upper(order[j]) {
      SpelledValue(file, order[i]);
      SpelledValue(file, order[j]);
    }
    UpperCasedAt(order, spelled);
    forall n | n in ReadValues(file) ensures n in LastValues(file) && ReadValues(file)[n] == LastValues(file)[n] {
      var s :| s in order && Upper(s) == n;
      SpelledValue(file, s);
    }
    forall n | n in LastValues(file) ensures n in ReadValues(file) {
      LastIsSpelled(file, n);
    }
  }

  // ---------- Rewriting ----------

  function Text(file: File): string {
    if file == [] then "" else Text(file[..|file| - 1]) + file[|file| - 1].text
  }

  predicate Terminated(text: string) {
    text != [] && text[|text| - 1] == '\n'
  }

  /** Every binding but the last ends its line, so concatenating the texts joins no two of them. */
  predicate WellFormed(file: File) {
    forall i :: 0 <= i < |file| ==> file[i].text != [] && (i < |file| - 1 ==> Terminated(file[i].text))
  }

  function Kept(file: File, dropped: set<string>): File {
    if file == [] then []
    else
      var b := file[|file| - 1];
      var earlier := Kept(file[..|file| - 1], dropped);
      if b.key.Some? && Upper(b.key.value) in dropped then earlier else earlier + [b]
  }

  function EndLine(text: string): string {
    if Terminated(text) then text else text + "\n"
  }

  function Terminate(file: File): File {
    if file == [] then []
    else
      var b := file[|file| - 1];
      file[..|file| - 1] + [b.(text := EndLine(b.text))]
  }

  function Escape(value: string): string {
    if value == [] then []
    else (if value[0] == '\\' then "\\\\" else if value[0] == '\'' then "\\'" else [value[0]]) + Escape(value[1..])
  }

  function QuotedEnvValue(value: string): string {
    "'" + Escape(value) + "'"
  }

  predicate HasPrefix(s: string, prefix: string) {
    |prefix| <= |s| && s[..|prefix|] == prefix
  }

  function ReplaceFirst(s: string, target: string, image: string): string {
    if HasPrefix(s, target) then image + s[|target|..]
    else if s == [] then []
    else [s[0]] + ReplaceFirst(s[1..], target, image)
  }

  type Updates = seq<(string, string)>

  function Keys(updates: Updates): set<string> {
    set i | 0 <= i < |updates| :: updates[i].0
  }

  /** The line written for one update: the source's own last binding of that name, or a quoted value. */
  function NewBinding(update: (string, string), source: Option<File>): Binding
    requires source.Some? ==> update.0 in LastValues(source.value)
  {
    match source
    case None => Binding(Some(update.0), Some(update.1), EndLine(update.0 + "=" + QuotedEnvValue(update.1) + "\n"))
    case Some(file) =>
      var b := LastBinding(file, update.0);
      Binding(Some(update.0), b.value, EndLine(ReplaceFirst(b.text, b.key.value, update.0)))
  }

  predicate CanWrite(updates: Updates, source: Option<File>) {
    source.Some? ==> forall i :: 0 <= i < |updates| ==> updates[i].0 in LastValues(source.value)
  }

  function NewValue(update: (string, string), source: Option<File>): Option<string>
    requires source.Some? ==> update.0 in LastValues(source.value)
  {
    if source.Some? then LastValues(source.value)[update.0] else Some(update.1)
  }

  function NewBindings(updates: Updates, source: Option<File>): (added: File)
    requires CanWrite(updates, source)
    ensures |added| == |updates| && forall i :: 0 <= i < |updates| ==> added[i] == NewBinding(updates[i], source)
  {
    if updates == [] then []
    else NewBindings(updates[..|updates| - 1], source) + [NewBinding(updates[|updates| - 1], source)]
  }

  /** What the rewritten text reads as. */
  function Rewritten(file: File, removed: set<string>, updates: Updates, source: Option<File>): File
    requires CanWrite(updates, source)
  {
    var kept := Kept(file, removed + Keys(updates));
    if updates == [] then kept else Terminate(kept) + NewBindings(updates, source)
  }

  lemma {:induction false} TextAppend(file: File, b: Binding)
    ensures Text(file + [b]) == Text(file) + b.text
  {
    assert (file + [b])[..|file|] == file;
  }

  lemma {:induction false} KeptIsWellFormed(file: File, dropped: set<string>)
    requires WellFormed(file)
    ensures WellFormed(Kept(file, dropped))
    ensures forall i :: 0 <= i < |Kept(file, dropped)| ==> Kept(file, dropped)[i] in file
    ensures file != [] && Terminated(file[|file| - 1].text) ==>
              forall i :: 0 <= i < |Kept(file, dropped)| ==> Terminated(Kept(file, dropped)[i].text)
  {
    if file == [] {
    } else {
      var front := file[..|file| - 1];
      assert forall i :: 0 <= i < |front| ==> front[i] == file[i];
      KeptIsWellFormed(front, dropped);
    }
  }

  lemma TextEndsAsLastBinding(file: File)
    requires WellFormed(file)
    ensures (Text(file) == []) <==> file == []
    ensures file != [] ==> Terminated(Text(file)) == Terminated(file[|file| - 1].text)
  {
  }

  lemma TerminateText(file: File)
    requires WellFormed(file)
    ensures Text(Terminate(file)) == if file == [] then "" else EndLine(Text(file))
  {
    if file != [] {
      TextEndsAsLastBinding(file);
      var front, b := file[..|file| - 1], file[|file| - 1];
      TextAppend(front, b.(text := EndLine(b.text)));
      assert Text(front) + (b.text + "\n") == Text(front) + b.text + "\n";
    }
  }

  lemma {:induction false} TextConcat(front: File, back: File)
    ensures Text(front + back) == Text(front) + Text(back)
  {
    if back == [] {
      assert front + back == front;
    } else {
      var n := |back| - 1;
      TextConcat(front, back[..n]);
      assert (front + back)[..|front + back| - 1] == front + back[..n];
    }
  }

  /** The loops of rewrite_env, which grow a string. */
  method RewriteEnv(file: File, removed: set<string>, updates: Updates, source: Option<File>) returns (text: string)
    requires WellFormed(file) && CanWrite(updates, source)
    ensures text == Text(Rewritten(file, removed, updates, source))
  {
    var dropped := removed + Keys(updates);
    text := JoinKept(file, dropped);
    if updates != [] {
      KeptIsWellFormed(file, dropped);
      TextEndsAsLastBinding(Kept(file, dropped));
      TerminateText(Kept(file, dropped));
      TextConcat(Terminate(Kept(file, dropped)), NewBindings(updates, source));
      if text != [] && text[|text| - 1] != '\n' {
        text := text + "\n";
      }
      var added := JoinAdded(updates, source);
      text := text + added;
    }
  }

  method JoinKept(file: File, dropped: set<string>) returns (text: string)
    ensures text == Text(Kept(file, dropped))
  {
    text := "";
    for i := 0 to |file|
      invariant text == Text(Kept(file[..i], dropped))
    {
      assert file[..i + 1][..i] == file[..i];
      if file[i].key.None? || Upper(file[i].key.value) !in dropped {
        TextAppend(Kept(file[..i], dropped), file[i]);
        text := text + file[i].text;
      }
    }
    assert file[..|file|] == file;
  }

  method JoinAdded(updates: Updates, source: Option<File>) returns (text: string)
    requires CanWrite(updates, source)
    ensures text == Text(NewBindings(updates, source))
  {
    text := "";
    for k := 0 to |updates|
      invariant text == Text(NewBindings(updates[..k], source))
    {
      var line := NewBinding(updates[k], source).text;
      NewTextStep(updates, source, k);
      text := text + line;
    }
    assert updates[..|updates|] == updates;
  }

  lemma NewTextStep(updates: Updates, source: Option<File>, k: nat)
    requires k < |updates| && CanWrite(updates, source)
    ensures Text(NewBindings(updates[..k + 1], source))
            == Text(NewBindings(updates[..k], source)) + NewBinding(updates[k], source).text
  {
    assert updates[..k + 1][..k] == updates[..k];
    TextAppend(NewBindings(updates[..k], source), NewBinding(updates[k], source));
  }

  // ---------- What a rewrite means ----------

  predicate ProperUpdates(updates: Updates) {
    && (forall i :: 0 <= i < |updates| ==> Upper(updates[i].0) == updates[i].0)
    && (forall i, j :: 0 <= i < j < |updates| ==> updates[i].0 != updates[j].0)
  }

  lemma {:induction false} KeptValues(file: File, dropped: set<string>)
    ensures LastValues(Kept(file, dropped)) == LastValues(file) - dropped
  {
    if file == [] {
    } else {
      var front, b := file[..|file| - 1], file[|file| - 1];
      KeptValues(front, dropped);
      var earlier := Kept(front, dropped);
      assert (earlier + [b])[..|earlier|] == earlier;
    }
  }

  lemma TerminateValues(file: File)
    ensures LastValues(Terminate(file)) == LastValues(file)
  {
    if file != [] {
      var front := file[..|file| - 1];
      assert Terminate(file)[..|file| - 1] == front;
    }
  }

  function UpdateValues(updates: Updates, source: Option<File>): (values: map<string, Option<string>>)
    requires CanWrite(updates, source)
  {
    if updates == [] then map[]
    else
      var last := updates[|updates| - 1];
      UpdateValues(updates[..|updates| - 1], source)[last.0 := NewValue(last, source)]
  }

  lemma KeysAppend(front: Updates, last: (string, string))
    ensures Keys(front + [last]) == Keys(front) + {last.0}
  {
    var updates := front + [last];
    forall name ensures name in Keys(updates) <==> name in Keys(front) || name == last.0 {
      if name in Keys(front) {
        var i :| 0 <= i < |front| && front[i].0 == name;
        assert updates[i].0 == name;
      }
      if name == last.0 {
        assert updates[|front|].0 == name;
      }
    }
  }

  lemma {:induction false} ValuesConcat(front: File, back: File)
    ensures LastValues(front + back) == LastValues(front) + LastValues(back)
  {
    if back == [] {
      assert front + back == front;
    } else {
      var n := |back| - 1;
      ValuesConcat(front, back[..n]);
      assert (front + back)[..|front + back| - 1] == front + back[..n];
    }
  }

  lemma {:induction false} AddedValues(updates: Updates, source: Option<File>, added: File)
    requires CanWrite(updates, source) && ProperUpdates(updates)
    requires |added| == |updates|
    requires forall i :: 0 <= i < |added| ==>
               added[i].key == Some(updates[i].0) && added[i].value == NewValue(updates[i], source)
    ensures LastValues(added) == UpdateValues(updates, source)
  {
    if updates == [] {
    } else {
      var n := |updates| - 1;
      var front, back := updates[..n], added[..n];
      assert forall i :: 0 <= i < n ==> back[i] == added[i] && front[i] == updates[i];
      AddedValues(front, source, back);
    }
  }

  lemma {:induction false} UpdatedKeys(updates: Updates, source: Option<File>)
    requires CanWrite(updates, source)
    ensures UpdateValues(updates, source).Keys == Keys(updates)
  {
    if updates == [] {
    } else {
      var n := |updates| - 1;
      UpdatedKeys(updates[..n], source);
      KeysAppend(updates[..n], updates[n]);
      assert updates == updates[..n] + [updates[n]];
    }
  }

  lemma OverriddenAnyway(m: map<string, Option<string>>, removed: set<string>, updated: map<string, Option<string>>)
    ensures (m - (removed + updated.Keys)) + updated == (m - removed) + updated
  {
  }

  /** Rereading a rewritten file gives the old values without the removed names, overridden by the updates. */
  lemma RewrittenValues(file: File, removed: set<string>, updates: Updates, source: Option<File>)
    requires CanWrite(updates, source) && ProperUpdates(updates)
    ensures LastValues(Rewritten(file, removed, updates, source))
            == (LastValues(file) - removed) + UpdateValues(updates, source)
  {
    var dropped := removed + Keys(updates);
    KeptValues(file, dropped);
    TerminateValues(Kept(file, dropped));
    AddedValues(updates, source, NewBindings(updates, source));
    UpdatedKeys(updates, source);
    ValuesConcat(Terminate(Kept(file, dropped)), NewBindings(updates, source));
    OverriddenAnyway(LastValues(file), removed, UpdateValues(updates, source));
  }

  /** No two bindings fuse, even when the last line of the old file was not terminated. */
  lemma RewrittenIsWellFormed(file: File, removed: set<string>, updates: Updates, source: Option<File>)
    requires WellFormed(file) && CanWrite(updates, source)
    ensures WellFormed(Rewritten(file, removed, updates, source))
  {
    var kept := Kept(file, removed + Keys(updates));
    KeptIsWellFormed(file, removed + Keys(updates));
    if updates != [] {
      var front, back := Terminate(kept), NewBindings(updates, source);
      assert forall i :: 0 <= i < |front| ==> Terminated(front[i].text);
      assert forall i :: 0 <= i < |back| ==> Terminated(back[i].text);
      EachTerminated(front, back);
    }
  }

  lemma EachTerminated(front: File, back: File)
    requires forall i :: 0 <= i < |front| ==> Terminated(front[i].text)
    requires forall i :: 0 <= i < |back| ==> Terminated(back[i].text)
    ensures WellFormed(front + back)
  {
  }

  /**
   Bindings that are neither removed nor updated survive in their order, first and verbatim up to the last line
   end.
   */
  lemma RewrittenKeepsTheRest(file: File, removed: set<string>, updates: Updates, source: Option<File>)
    requires CanWrite(updates, source)
    ensures var kept := Kept(file, removed + Keys(updates));
            var result := Rewritten(file, removed, updates, source);
            && |result| == |kept| + |updates|
            && (forall i :: 0 <= i < |kept| - 1 ==> result[i] == kept[i])
            && (kept != [] ==> var n := |kept| - 1;
                 result[n] == if updates == [] then kept[n] else kept[n].(text := EndLine(kept[n].text)))
  {
  }

  lemma {:induction false} KeptIsIdempotent(file: File, dropped: set<string>)
    ensures Kept(Kept(file, dropped), dropped) == Kept(file, dropped)
  {
    if file == [] {
    } else {
      var front := file[..|file| - 1];
      KeptIsIdempotent(front, dropped);
      var earlier, b := Kept(front, dropped), file[|file| - 1];
      assert (earlier + [b])[..|earlier|] == earlier;
    }
  }

  lemma KeptAfterTerminate(file: File, dropped: set<string>)
    requires Kept(file, dropped) == file
    ensures Kept(Terminate(file), dropped) == Terminate(file)
  {
    if file != [] {
      var front, b := file[..|file| - 1], file[|file| - 1];
      KeptIsShorter(front, dropped);
      assert Terminate(file)[..|file| - 1] == front;
      assert Kept(front, dropped) + [b] == front + [b];
      assert (front + [b])[..|front|] == front && (Kept(front, dropped) + [b])[..|front|] == Kept(front, dropped);
    }
  }

  lemma {:induction false} KeptIsShorter(file: File, dropped: set<string>)
    ensures |Kept(file, dropped)| <= |file|
  {
    if file == [] {
    } else {
      KeptIsShorter(file[..|file| - 1], dropped);
    }
  }

  lemma {:induction false} KeptDropsTail(base: File, tail: File, dropped: set<string>)
    requires forall i :: 0 <= i < |tail| ==> tail[i].key.Some? && Upper(tail[i].key.value) in dropped
    ensures Kept(base + tail, dropped) == Kept(base, dropped)
  {
    if tail == [] {
      assert base + tail == base;
    } else {
      KeptDropsTail(base, tail[..|tail| - 1], dropped);
      assert (base + tail)[..|base + tail| - 1] == base + tail[..|tail| - 1];
    }
  }

  /** The same rewrite a second time changes nothing. */
  lemma RewritingIsIdempotent(file: File, removed: set<string>, updates: Updates, source: Option<File>)
    requires CanWrite(updates, source) && ProperUpdates(updates)
    ensures var once := Rewritten(file, removed, updates, source);
            Rewritten(once, removed, updates, source) == once
  {
    var dropped := removed + Keys(updates);
    var kept := Kept(file, dropped);
    KeptIsIdempotent(file, dropped);
    if updates != [] {
      var added := NewBindings(updates, source);
      KeptAfterTerminate(kept, dropped);
      forall i | 0 <= i < |added| ensures added[i].key.Some? && Upper(added[i].key.value) in dropped {
        assert updates[i].0 in Keys(updates);
      }
      KeptDropsTail(Terminate(kept), added, dropped);
      assert Terminate(Terminate(kept)) == Terminate(kept);
    }
  }

  lemma {:induction false} NothingDropped(file: File, dropped: set<string>)
    requires LastValues(file).Keys !! dropped
    ensures Kept(file, dropped) == file
  {
    if file == [] {
    } else {
      var front, b := file[..|file| - 1], file[|file| - 1];
      assert LastValues(front).Keys <= LastValues(file).Keys;
      NothingDropped(front, dropped);
      assert b.key.Some? ==> Upper(b.key.value) in LastValues(file);
    }
  }

  lemma {:induction false} NamedIsRead(file: File, i: nat)
    requires i < |file| && file[i].key.Some?
    ensures Upper(file[i].key.value) in LastValues(file)
  {
    if i < |file| - 1 {
      NamedIsRead(file[..|file| - 1], i);
    }
  }

  /** A rewrite leaves one spelling of every name. */
  lemma RewrittenHasOneSpelling(file: File, removed: set<string>, updates: Updates, source: Option<File>)
    requires OneSpelling(file) && CanWrite(updates, source) && ProperUpdates(updates)
    ensures OneSpelling(Rewritten(file, removed, updates, source))
  {
    var dropped := removed + Keys(updates);
    var kept := Kept(file, dropped);
    KeptComesFrom(file, dropped);
    assert OneSpelling(kept);
    if updates != [] {
      var result, added := Rewritten(file, removed, updates, source), NewBindings(updates, source);
      KeptValues(file, dropped);
      forall i, j | 0 <= i < |result| && 0 <= j < |result| && result[i].key.Some? && result[j].key.Some?
        ensures Upper(result[i].key.value) == Upper(result[j].key.value) ==> result[i].key == result[j].key
      {
        SpelledAlike(kept, added, updates, dropped, i, j);
      }
    }
  }

  lemma SpelledAlike(kept: File, added: File, updates: Updates, dropped: set<string>, i: nat, j: nat)
    requires OneSpelling(kept) && LastValues(kept).Keys !! dropped
    requires |added| == |updates| && ProperUpdates(updates) && Keys(updates) <= dropped
    requires forall k :: 0 <= k < |added| ==> added[k].key == Some(updates[k].0)
    requires var result := Terminate(kept) + added;
             i < |result| && j < |result| && result[i].key.Some? && result[j].key.Some?
    ensures var result := Terminate(kept) + added;
            Upper(result[i].key.value) == Upper(result[j].key.value) ==> result[i].key == result[j].key
  {
    var result := Terminate(kept) + added;
    forall k | k == i || k == j
      ensures if k < |kept| then result[k].key == kept[k].key && Upper(result[k].key.value) !in Keys(updates)
              else Upper(result[k].key.value) == result[k].key.value && result[k].key.value in Keys(updates)
    {
      if k < |kept| {
        NamedIsRead(kept, k);
      } else {
        assert result[k] == added[k - |kept|];
        assert updates[k - |kept|].0 in Keys(updates);
      }
    }
  }

  lemma {:induction false} KeptComesFrom(file: File, dropped: set<string>)
    ensures forall i :: 0 <= i < |Kept(file, dropped)| ==> Kept(file, dropped)[i] in file
  {
    if file == [] {
    } else {
      KeptComesFrom(file[..|file| - 1], dropped);
    }
  }

  // ---------- Mixed letter case ----------

  /** The names that are read are those of the bindings, in whatever letter case. */
  lemma NamesHaveSpellings(file: File, name: string)
    ensures name in LastValues(file) <==> HasSpelling(Spellings(file), name)
  {
    if name in LastValues(file) {
      LastIsSpelled(file, name);
    }
    if HasSpelling(Spellings(file), name) {
      var s :| s in Spellings(file) && Upper(s) == name;
      SpelledIsLast(file, s);
    }
  }

  /** The last binding in the name's last spelling carries the value of the last binding of the name. */
  predicate LastSpellingAgrees(file: File, name: string)
    requires name in LastValues(file)
  {
    NamesHaveSpellings(file, name);
    Spelled(file)[LastSpelling(Spellings(file), name)] == LastBinding(file, name).value
  }

  /**
   Any file, any mixture of letter cases: read_snapshot and rewrite_env resolve it alike if and only if every name's
   last spelling to appear agrees with the name's last binding.
   */
  lemma ReadingAgreesWithRewriting(file: File)
    ensures ReadValues(file) == LastValues(file)
            <==> forall name :: name in LastValues(file) ==> LastSpellingAgrees(file, name)
  {
    forall name
      ensures name in ReadValues(file) <==> name in LastValues(file)
      ensures name in LastValues(file) ==>
                (ReadValues(file)[name] == LastValues(file)[name] <==> LastSpellingAgrees(file, name))
    {
      NamesHaveSpellings(file, name);
      UpperCasedTakesLastSpelling(Spellings(file), Spelled(file), name);
    }
  }

  /**
   Three bindings that are resolved differently: reading lets the spelling that first occurs last win, rewriting the
   last binding.
   */
  lemma MixedCaseIsReadDifferently(low: Binding, high: Binding, again: Binding, name: string)
    requires low.key.Some? && high.key == Some(name) && again.key == low.key
    requires Upper(low.key.value) == Upper(name) == name && low.key.value != name
    ensures var file := [low, high, again];
            ReadValues(file) == map[name := high.value] && LastValues(file) == map[name := again.value]
    ensures ReadValues([low, high, again]) == LastValues([low, high, again]) <==> high.value == again.value
  {
    TwoSpellings(low, high, again, name);
    ReadTwoSpellings([low, high, again], low.key.value, name, again.value, high.value);
    LastOfThree(low, high, again, name);
    assert map[name := high.value][name] == high.value && map[name := again.value][name] == again.value;
  }

  lemma ReadTwoSpellings(file: File, spelling: string, name: string, lower: Option<string>, upper: Option<string>)
    requires Upper(spelling) == Upper(name) == name && spelling != name
    requires Spellings(file) == [spelling, name] && Spelled(file) == map[spelling := lower, name := upper]
    ensures ReadValues(file) == map[name := upper]
  {
    assert [spelling, name][..1] == [spelling] && [spelling][..0] == [];
    assert UpperCased([spelling], Spelled(file)) == map[name := lower];
  }

  lemma LastOfThree(low: Binding, high: Binding, again: Binding, name: string)
    requires Names(low, name) && Names(high, name) && Names(again, name)
    ensures LastValues([low, high, again]) == map[name := again.value]
  {
    assert [low][..0] == [] && [low, high][..1] == [low] && [low, high, again][..2] == [low, high];
    assert LastValues([low]) == map[name := low.value];
    assert LastValues([low, high]) == map[name := high.value];
  }

  lemma SpelledAppend(file: File, b: Binding)
    requires b.key.Some?
    ensures Spelled(file + [b]) == Spelled(file)[b.key.value := b.value]
    ensures Spellings(file + [b])
            == if b.key.value in Spellings(file) then Spellings(file) else Spellings(file) + [b.key.value]
  {
    assert (file + [b])[..|file|] == file;
  }

  lemma TwoSpellings(low: Binding, high: Binding, again: Binding, name: string)
    requires low.key.Some? && high.key == Some(name) && again.key == low.key && low.key.value != name
    ensures var file := [low, high, again];
            && Spellings(file) == [low.key.value, name]
            && Spelled(file) == map[low.key.value := again.value, name := high.value]
  {
    SpelledAppend([], low);
    assert [] + [low] == [low];
    SpelledAppend([low], high);
    assert [low] + [high] == [low, high];
    SpelledAppend([low, high], again);
    assert [low, high] + [again] == [low, high, again];
  }
}
