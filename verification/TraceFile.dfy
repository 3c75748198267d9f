/**
  The text of a trace file, with events as opaque texts: its framing by the
  ChromeLogger constructor and destructor (tools/unitrace/src/chromelogger.h) and
  the merging, repair and rollback of
  tools/unitrace/scripts/tracemerge/mergetrace.py.
 */
module TraceFile {
  import opened Prelude

  const OPENING := "{ \"traceEvents\":[\n"
  const MERGED_OPENING := "{\n\"traceEvents\": [\n"
  const CLOSING := "\n]\n}\n"

  function Join(items: seq<string>): string
    requires items != []
  {
    if |items| == 1 then items[0] else items[0] + ",\n" + Join(items[1..])
  }

  function Document(opening: string, items: seq<string>): string
    requires items != []
  {
    opening + Join(items) + CLOSING
  }

  // ------------------------------------------------------------------
  // Reading a document back
  // ------------------------------------------------------------------

  predicate OneLine(text: string) {
    text != "" && '\n' !in text
  }

  /** The items of a joined text: every line but the last ends with a comma, which is not part of the item. */
  function ParseItems(text: string, item: string): Option<seq<string>>
    decreases |text|
  {
    if text == "" then Some([item])
    else if text[0] != '\n' then ParseItems(text[1..], item + [text[0]])
    else if item == "" || item[|item| - 1] != ',' then None
    else
      match ParseItems(text[1..], "")
      case None => None
      case Some(rest) => Some([item[..|item| - 1]] + rest)
  }

  function Parse(opening: string, text: string): Option<seq<string>> {
    var n, m := |opening|, |text| - |CLOSING|;
    if opening <= text && n <= m && text[m..] == CLOSING then ParseItems(text[n..m], "") else None
  }

  lemma {:induction false} ParseLine(line: string, rest: string, item: string)
    requires '\n' !in line
    ensures ParseItems(line + rest, item) == ParseItems(rest, item + line)
    decreases |line|
  {
    if line == "" {
      assert line + rest == rest && item + line == item;
    } else {
      assert (line + rest)[1..] == line[1..] + rest;
      ParseLine(line[1..], rest, item + [line[0]]);
      assert item + [line[0]] + line[1..] == item + line;
    }
  }

  lemma ParseFirstLine(first: string, rest: string, items: seq<string>)
    requires OneLine(first) && ParseItems(rest, "") == Some(items)
    ensures ParseItems((first + ",") + ("\n" + rest), "") == Some([first] + items)
  {
    var line := first + ",";
    ParseLine(line, "\n" + rest, "");
    assert "" + line == line && ("\n" + rest)[1..] == rest && line[..|line| - 1] == first;
  }

  lemma {:induction false} JoinParses(items: seq<string>)
    requires items != [] && forall i :: 0 <= i < |items| ==> OneLine(items[i])
    ensures ParseItems(Join(items), "") == Some(items)
    decreases |items|
  {
    var first := items[0];
    if |items| == 1 {
      ParseLine(first, "", "");
      assert first + "" == first && "" + first == first && items == [first];
    } else {
      var rest := Join(items[1..]);
      JoinParses(items[1..]);
      assert Join(items) == (first + ",") + ("\n" + rest);
      ParseFirstLine(first, rest, items[1..]);
      assert items == [first] + items[1..];
    }
  }

  /** A document parses to exactly its items. */
  lemma DocumentParses(opening: string, items: seq<string>)
    requires items != [] && forall i :: 0 <= i < |items| ==> OneLine(items[i])
    ensures Parse(opening, Document(opening, items)) == Some(items)
  {
    var text := Document(opening, items);
    JoinParses(items);
    assert text[|text| - |CLOSING|..] == CLOSING;
    assert text[|opening|..|text| - |CLOSING|] == Join(items);
  }

  // ------------------------------------------------------------------
  // The trace of one process
  // ------------------------------------------------------------------

  /** The file after the process record and some events: each event is logged with ",\n" in front. */
  function LogText(process: string, events: seq<string>): string {
    if events == [] then OPENING + process
    else LogText(process, events[..|events| - 1]) + (",\n" + events[|events| - 1])
  }

  lemma {:induction false} JoinSnoc(items: seq<string>, item: string)
    requires items != []
    ensures Join(items + [item]) == Join(items) + (",\n" + item)
    decreases |items|
  {
    if |items| > 1 {
      assert (items + [item])[1..] == items[1..] + [item];
      JoinSnoc(items[1..], item);
    }
  }

  /** At every event boundary the log lacks only the closing tag. */
  lemma {:induction false} LogIsUnclosedDocument(process: string, events: seq<string>)
    ensures LogText(process, events) + CLOSING == Document(OPENING, [process] + events)
    ensures LogText(process, events) == OPENING + Join([process] + events)
  {
    if events == [] {
      assert [process] + events == [process];
    } else {
      var init, last := events[..|events| - 1], events[|events| - 1];
      LogIsUnclosedDocument(process, init);
      JoinSnoc([process] + init, last);
      assert [process] + init + [last] == [process] + events;
    }
  }

  /** From the logger's constructor to its destructor; None is the removal of a file without events. */
  method WriteTrace(process: string, events: seq<string>) returns (file: Option<string>)
    requires forall i :: 0 <= i < |events| ==> events[i] != ""
    ensures file == if events == [] then None else Some(Document(OPENING, [process] + events))
    ensures file.Some? ==> file.value == "{ \"traceEvents\":[\n" + Join([process] + events) + "\n]\n}\n"
  {
    var text := OPENING;
    text := text + process;
    var dataStart := |text|;
    for i := 0 to |events|
      invariant text == LogText(process, events[..i])
      invariant dataStart <= |text| && (|text| == dataStart <==> i == 0)
    {
      assert events[..i + 1][..i] == events[..i];
      text := text + (",\n" + events[i]);
    }
    assert events[..|events|] == events;
    LogIsUnclosedDocument(process, events);
    if |text| == dataStart {
      return None;
    }
    return Some(text + "\n]\n}\n");
  }

  // ------------------------------------------------------------------
  // Merging
  // ------------------------------------------------------------------

  /** What json.load returns: the texts of the trace events, when the document has that key. */
  datatype Data = Data(events: Option<seq<string>>)

  /** json.load; None when it raises. */
  type Loader = string -> Option<Data>

  /** The input file after the merge: closing tags are added when that makes it load. */
  function Repaired(load: Loader, text: string): string {
    if text != "" && load(text) == None && load(text + CLOSING).Some? then text + CLOSING else text
  }

  function EventsOf(load: Loader, text: string): seq<string> {
    var final := Repaired(load, text);
    if final == "" || load(final) == None || load(final).value.events == None then []
    else load(final).value.events.value
  }

  function AllEvents(load: Loader, names: seq<string>, files: map<string, string>): seq<string>
    requires forall i :: 0 <= i < |names| ==> names[i] in files
  {
    if names == [] then []
    else AllEvents(load, names[..|names| - 1], files) + EventsOf(load, files[names[|names| - 1]])
  }

  /** What the loops have written: every event followed by ",\n". */
  function Trailed(events: seq<string>): string {
    if events == [] then "" else Trailed(events[..|events| - 1]) + (events[|events| - 1] + ",\n")
  }

  lemma {:induction false} TrailedConcat(a: seq<string>, b: seq<string>)
    ensures Trailed(a + b) == Trailed(a) + Trailed(b)
  {
    if b == [] {
      assert a + b == a;
    } else {
      assert (a + b)[..|a + b| - 1] == a + b[..|b| - 1];
      TrailedConcat(a, b[..|b| - 1]);
    }
  }

  lemma TrailedAfter(before: string, a: seq<string>, b: seq<string>)
    ensures before + Trailed(a) + Trailed(b) == before + Trailed(a + b)
  {
    TrailedConcat(a, b);
  }

  lemma {:induction false} TrailedIsJoin(events: seq<string>)
    requires events != []
    ensures Trailed(events) == Join(events) + ",\n"
  {
    var init, last := events[..|events| - 1], events[|events| - 1];
    if init == [] {
      assert events == [last];
      assert Trailed(init) == "";
    } else {
      TrailedIsJoin(init);
      JoinSnoc(init, last);
      assert events == init + [last];
    }
  }

  /** A text file open for writing, with its cursor. */
  class OutputFile {
    var text: string
    var cursor: nat

    constructor ()
      ensures text == "" && cursor == 0
    {
      text, cursor := "", 0;
    }

    /** Overwrites from the cursor on. */
    method Write(s: string)
      requires cursor <= |text|
      modifies this
      ensures cursor == old(cursor) + |s|
      ensures text == old(text[..cursor]) + s + old(text)[if cursor <= |old(text)| then cursor else |old(text)|..]
    {
      var end := cursor + |s|;
      text := text[..cursor] + s + text[if end <= |text| then end else |text|..];
      cursor := end;
    }

    method Seek(position: nat)
      requires position <= |text|
      modifies this`cursor
      ensures cursor == position
    {
      cursor := position;
    }
  }

  method WriteEvents(out: OutputFile, events: seq<string>)
    requires out.cursor == |out.text|
    modifies out
    ensures out.text == old(out.text) + Trailed(events) && out.cursor == |out.text|
  {
    for i := 0 to |events|
      invariant out.text == old(out.text) + Trailed(events[..i]) && out.cursor == |out.text|
    {
      assert events[..i + 1][..i] == events[..i];
      out.Write(events[i]);
      out.Write(",\n");
    }
    assert events[..|events|] == events;
  }

  /** Reads one input, adding closing tags or rolling them back; None when the file is skipped. */
  method LoadInput(load: Loader, text: string) returns (data: Option<Data>, after: string)
    requires text != ""
    ensures after == Repaired(load, text) && data == load(after)
    ensures after == if load(text) == None && load(text + "\n]\n}\n").Some? then text + "\n]\n}\n" else text
  {
    var fsize := |text|;
    after := text;
    data := load(after);
    if data == None {
      after := after + "\n]\n}\n";
      data := load(after);
      if data == None {
        after := after[..fsize];
        assert after == text;
      }
    }
  }

  /** Undoing the last separator and closing the document. */
  method CloseMerged(out: OutputFile, ghost events: seq<string>)
    requires out.text == MERGED_OPENING + Trailed(events) && out.cursor == |out.text|
    modifies out
    ensures out.text == if events == [] then "{\n\"traceEvents\": " + CLOSING else Document(MERGED_OPENING, events)
  {
    ghost var body := if events == [] then "{\n\"traceEvents\": " else MERGED_OPENING + Join(events);
    if events == [] {
      assert MERGED_OPENING + "" == body + "[\n";
    } else {
      TrailedIsJoin(events);
    }
    assert out.text[..|out.text| - 2] == body;
    out.Seek(out.cursor - 2);
    out.Write("\n]\n");
    out.Write("}\n");
    assert out.text == body + "\n]\n" + "}\n";
    assert "\n]\n" + "}\n" == CLOSING;
  }

  /** After i rounds the named files have been repaired and the others are as before. */
  ghost predicate Progress(load: Loader, names: seq<string>, i: nat, before: map<string, string>,
                           now: map<string, string>)
    requires i <= |names|
  {
    && now.Keys == before.Keys
    && forall f <- before :: now[f] == if f in names[..i] then Repaired(load, before[f]) else before[f]
  }

  lemma RepairedOnce(load: Loader, text: string)
    ensures Repaired(load, Repaired(load, text)) == Repaired(load, text)
    ensures EventsOf(load, Repaired(load, text)) == EventsOf(load, text)
  {}

  lemma ProgressStep(load: Loader, names: seq<string>, i: nat, before: map<string, string>, now: map<string, string>)
    requires i < |names| && names[i] in before && Progress(load, names, i, before, now)
    ensures Progress(load, names, i + 1, before, now[names[i] := Repaired(load, now[names[i]])])
    ensures EventsOf(load, now[names[i]]) == EventsOf(load, before[names[i]])
  {
    RepairedOnce(load, before[names[i]]);
    assert names[..i + 1] == names[..i] + [names[i]];
  }

  /** One round of the merge; the result is the input file's text afterwards. */
  method MergeInput(load: Loader, text: string, out: OutputFile) returns (after: string)
    requires out.cursor == |out.text|
    modifies out
    ensures after == Repaired(load, text)
    ensures out.text == old(out.text) + Trailed(EventsOf(load, text)) && out.cursor == |out.text|
  {
    after := text;
    if |text| != 0 {
      var data;
      data, after := LoadInput(load, text);
      if data.Some? && data.value.events.Some? {
        WriteEvents(out, data.value.events.value);
      }
    }
  }

  method Merge(load: Loader, names: seq<string>, files: map<string, string>)
    returns (output: string, after: map<string, string>)
    requires forall i :: 0 <= i < |names| ==> names[i] in files
    ensures Progress(load, names, |names|, files, after)
    ensures var events := AllEvents(load, names, files);
            output == if events == [] then "{\n\"traceEvents\": " + CLOSING else Document(MERGED_OPENING, events)
  {
    var out := new OutputFile();
    out.Write("{\n");
    out.Write("\"traceEvents\": [\n");
    after := files;
    ghost var events: seq<string> := [];
    for i := 0 to |names|
      invariant Progress(load, names, i, files, after)
      invariant events == AllEvents(load, names[..i], files)
      invariant out.text == MERGED_OPENING + Trailed(events) && out.cursor == |out.text|
    {
      ProgressStep(load, names, i, files, after);
      assert names[..i + 1][..i] == names[..i];
      ghost var more := EventsOf(load, after[names[i]]);
      TrailedAfter(MERGED_OPENING, events, more);
      var final := MergeInput(load, after[names[i]], out);
      after := after[names[i] := final];
      events := events + more;
    }
    assert names[..|names|] == names;
    CloseMerged(out, events);
    output := out.text;
  }

  // ------------------------------------------------------------------
  // What a merge means for traces
  // ------------------------------------------------------------------

  /** The merged output is a document exactly when there is at least one event to merge. */
  lemma MergedIsDocumentIff(events: seq<string>, output: string)
    requires output == if events == [] then "{\n\"traceEvents\": " + CLOSING else Document(MERGED_OPENING, events)
    requires forall i :: 0 <= i < |events| ==> OneLine(events[i])
    ensures Parse(MERGED_OPENING, output) == if events == [] then None else Some(events)
  {
    if events == [] {
      assert output[17] == '\n' && MERGED_OPENING[17] == '[';
    } else {
      DocumentParses(MERGED_OPENING, events);
    }
  }

  /** A loader that reads trace documents as their items and nothing else. */
  function LoadTrace(text: string): Option<Data> {
    match Parse(OPENING, text)
    case None => None
    case Some(items) => Some(Data(Some(items)))
  }

  /** A log cut off at an event boundary does not load; closing it recovers the process record and every event. */
  lemma {:induction false} KilledLogIsRecovered(process: string, events: seq<string>)
    requires OneLine(process) && forall i :: 0 <= i < |events| ==> OneLine(events[i])
    ensures Repaired(LoadTrace, LogText(process, events)) == Document(OPENING, [process] + events)
    ensures EventsOf(LoadTrace, LogText(process, events)) == [process] + events
  {
    var text, items := LogText(process, events), [process] + events;
    LogIsUnclosedDocument(process, events);
    DocumentParses(OPENING, items);
    LastCharacter(items);
    assert text[|text| - 1] == Join(items)[|Join(items)| - 1];
    Unclosed(OPENING, text);
  }

  lemma Unclosed(opening: string, text: string)
    requires text != "" && text[|text| - 1] != '\n'
    ensures Parse(opening, text) == None
  {
    assert CLOSING[|CLOSING| - 1] == '\n';
    if |CLOSING| <= |text| {
      assert text[|text| - |CLOSING|..][|CLOSING| - 1] == text[|text| - 1];
    }
  }

  lemma {:induction false} LastCharacter(items: seq<string>)
    requires items != [] && forall i :: 0 <= i < |items| ==> OneLine(items[i])
    ensures Join(items) != "" && Join(items)[|Join(items)| - 1] != '\n'
    decreases |items|
  {
    if |items| > 1 {
      LastCharacter(items[1..]);
    }
  }

  /** A trace that was closed is merged as it is. */
  lemma {:induction false} ClosedTraceIsKept(process: string, events: seq<string>)
    requires OneLine(process) && forall i :: 0 <= i < |events| ==> OneLine(events[i])
    ensures Repaired(LoadTrace, Document(OPENING, [process] + events)) == Document(OPENING, [process] + events)
    ensures EventsOf(LoadTrace, Document(OPENING, [process] + events)) == [process] + events
  {
    DocumentParses(OPENING, [process] + events);
  }
}
