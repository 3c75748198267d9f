/**
  What merging does to trace files as the logger leaves them, by modules TraceFile's
  writing and merging together.
 */
module MergedTraces {
  import opened Prelude
  import opened TraceFile

  /** A trace file as the logger leaves it: killed at an event boundary, closed, or never begun. */
  datatype Trace = Killed(process: string, events: seq<string>) | Closed(process: string, events: seq<string>) | Empty

  ghost predicate IsFileOf(text: string, trace: Trace) {
    match trace
    case Killed(process, events) =>
      && OneLine(process) && (forall i :: 0 <= i < |events| ==> OneLine(events[i]))
      && text == LogText(process, events)
    case Closed(process, events) =>
      && OneLine(process) && (forall i :: 0 <= i < |events| ==> OneLine(events[i]))
      && text == Document(OPENING, [process] + events)
    case Empty => text == ""
  }

  /** The process record and the events of a trace. */
  function RecordedBy(trace: Trace): seq<string> {
    match trace
    case Killed(process, events) => [process] + events
    case Closed(process, events) => [process] + events
    case Empty => []
  }

  /** Those of a list of traces, trace after trace. */
  function Recorded(traces: seq<Trace>): seq<string> {
    if traces == [] then [] else Recorded(traces[..|traces| - 1]) + RecordedBy(traces[|traces| - 1])
  }

  ghost predicate Lines(items: seq<string>) {
    forall i :: 0 <= i < |items| ==> OneLine(items[i])
  }

  lemma TraceIsLoaded(text: string, trace: Trace)
    requires IsFileOf(text, trace)
    ensures EventsOf(LoadTrace, text) == RecordedBy(trace) && Lines(RecordedBy(trace))
  {
    match trace
    case Killed(process, events) => KilledLogIsRecovered(process, events);
    case Closed(process, events) => ClosedTraceIsKept(process, events);
    case Empty =>
  }

  /** The named files hold the traces. */
  ghost predicate HoldTraces(names: seq<string>, files: map<string, string>, traces: seq<Trace>) {
    && |names| == |traces|
    && forall i :: 0 <= i < |names| ==> names[i] in files && IsFileOf(files[names[i]], traces[i])
  }

  lemma {:induction false} TracesAreMerged(names: seq<string>, files: map<string, string>, traces: seq<Trace>)
    requires HoldTraces(names, files, traces)
    ensures AllEvents(LoadTrace, names, files) == Recorded(traces) && Lines(Recorded(traces))
  {
    if names == [] {
    } else {
      var last := |names| - 1;
      assert HoldTraces(names[..last], files, traces[..last]);
      TracesAreMerged(names[..last], files, traces[..last]);
      TraceIsLoaded(files[names[last]], traces[last]);
      LinesConcat(Recorded(traces[..last]), RecordedBy(traces[last]));
    }
  }

  lemma LinesConcat(a: seq<string>, b: seq<string>)
    requires Lines(a) && Lines(b)
    ensures Lines(a + b)
  {}

  /** Merging traces: the output parses to everything they recorded, file after file, if there is anything at all. */
  method MergeTraces(names: seq<string>, files: map<string, string>, ghost traces: seq<Trace>)
    returns (output: string, after: map<string, string>)
    requires HoldTraces(names, files, traces)
    ensures Parse("{\n\"traceEvents\": [\n", output)
            == if Recorded(traces) == [] then None else Some(Recorded(traces))
  {
    output, after := Merge(LoadTrace, names, files);
    TracesAreMerged(names, files, traces);
    MergedIsDocumentIff(Recorded(traces), output);
  }
}
