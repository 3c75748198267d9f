/**
  The ITT collector of tools/unitrace/src/itt/itt_collector.h: one thread's task
  stack and event map, behind the collection gate of
  tools/unitrace/src/unicontrol.h.
 */
module IttTasks {
  import opened Prelude

  /** A metadata argument that has been accepted: its key, element kind, element count and bytes. */
  datatype Arg = Arg(key: string, kind: nat, count: nat, payload: seq<bv8>)

  /** An open task: the thread-local task descriptor, with the names that were copied into it. */
  datatype Task = Task(domain: string, name: string, start: nat, args: seq<Arg>)

  /** The kind of call that logs a record: an end of a task, one of the two internal ends, or an event's end. */
  datatype Origin = TaskEnded | MpiEnded | EventEnded

  /** What the collector hands to its logging callbacks. */
  datatype Record = Record(origin: Origin, name: string, start: nat, finish: nat, args: seq<Arg>)

  /** What the collector hands to AddFunctionTime, with the two clock readings it was computed from. */
  datatype Timing = Timing(origin: Origin, name: string, elapsed: nat, start: nat, finish: nat)

  /** Times of a task that has been popped. */
  datatype Span = Span(start: nat, finish: nat)

  /** The process environment as the gate sees it: the value of PTI_ENABLE_COLLECTION, if there is an environment. */
  datatype Environment = NoEnvironment | Environment(value: Option<string>)

  datatype Gate = Gate(paused: bool, env: Environment)

  /** Fixed for a run: conditional collection, and the two outputs of the collector. */
  datatype Config = Config(conditional: bool, summary: bool, chrome: bool)

  datatype Call =
    | Begin(domain: string, name: string)  // as copied into the descriptor
    | End(of: Option<string>)
    | EndInternal(mpi: string)
    | AddArg(arg: Arg)
    | EventCreate(text: string)
    | EventStart(id: int)
    | EventEnd(id: int)
    | Pause
    | Resume
    | SetEnvironment(env: Environment)

  datatype Timed = Timed(call: Call, now: nat)

  datatype State = State(
    stack: seq<Task>,            // innermost task last
    eventStarts: map<int, nat>,
    eventNames: seq<string>,
    gate: Gate,
    logged: seq<Record>,         // calls of the logging callback
    timings: seq<Timing>, // calls of AddFunctionTime
    closed: seq<Span>            // popped tasks, in the order of their ends
  )

  const INITIAL := State([], map[], [], Gate(false, Environment(None)), [], [], [])

  predicate CollectionEnabled(conditional: bool, gate: Gate) {
    !conditional
    || (!gate.paused
        && (gate.env.Environment? ==> gate.env.value.Some? && !("0" <= gate.env.value.value)))
  }

  predicate On(c: Config, s: State) {
    CollectionEnabled(c.conditional, s.gate) && (c.summary || c.chrome)
  }

  const FIELD_WIDTH: nat := 510
  const TITLE_WIDTH: nat := 1055

  /**
    What strncpy leaves in a field of the descriptor. A text that does not fit gets
    no terminator; `stale` is what is read behind it.
   */
  function Copied(text: Option<string>, stale: string): string {
    if text == None then ""
    else if |text.value| < FIELD_WIDTH then text.value
    else text.value[..FIELD_WIDTH] + stale
  }

  function Title(t: Task): string {
    t.domain + "::" + t.name
  }

  /** What snprintf keeps of a title. */
  function Clipped(title: string): string {
    if |title| <= TITLE_WIDTH then title else title[..TITLE_WIDTH]
  }

  /** The record of an ordinary end: the clipped title, with the arguments. */
  function TaskRecord(t: Task, now: nat): Record {
    Record(TaskEnded, Clipped(Title(t)), t.start, now, t.args)
  }

  /** The record of an internal end: the whole title, without the arguments. */
  function MpiRecord(t: Task, now: nat): Record {
    Record(MpiEnded, Title(t), t.start, now, [])
  }

  function RecordOf(t: Task, mpi: bool, end: nat): Record {
    if mpi then MpiRecord(t, end) else TaskRecord(t, end)
  }

  function EventRecord(name: string, start: nat, now: nat): Record {
    Record(EventEnded, name, start, now, [])
  }

  /** A further argument goes right after the head of the list. */
  function Insert(args: seq<Arg>, arg: Arg): seq<Arg> {
    if args == [] then [arg] else [args[0], arg] + args[1..]
  }

  function Top(s: State): Task
    requires s.stack != []
  {
    s.stack[|s.stack| - 1]
  }

  function Pop(s: State, now: nat): State
    requires s.stack != []
  {
    s.(stack := s.stack[..|s.stack| - 1], closed := s.closed + [Span(Top(s).start, now)])
  }

  const WORD: nat := 0x1_0000_0000_0000_0000

  /** Durations are unsigned 64-bit differences. */
  function Measured(origin: Origin, name: string, start: nat, now: nat): Timing {
    Timing(origin, name, (now - start) % WORD, start, now)
  }

  function Next(c: Config, s: State, call: Call, now: nat): State {
    match call
    case Begin(domain, name) =>
      if On(c, s) then s.(stack := s.stack + [Task(domain, name, now, [])]) else s
    case End(of) =>
      if On(c, s) && s.stack != [] && of == Some(Top(s).domain) then
        var t := Top(s);
        Pop(s, now).(
          timings := s.timings + (if c.summary then [Measured(TaskEnded, Title(t), t.start, now)] else []),
          logged := s.logged + (if c.chrome then [TaskRecord(t, now)] else []))
      else s
    case EndInternal(mpi) =>
      if CollectionEnabled(c.conditional, s.gate) && c.chrome && s.stack != [] && mpi == Top(s).domain then
        Pop(s, now).(logged := s.logged + [MpiRecord(Top(s), now)])
      else s
    case AddArg(arg) =>
      if On(c, s) && s.stack != [] then
        s.(stack := s.stack[|s.stack| - 1 := Top(s).(args := Insert(Top(s).args, arg))])
      else s
    case EventCreate(text) => s.(eventNames := s.eventNames + [text])
    case EventStart(id) =>
      if On(c, s) && 0 <= id < |s.eventNames| && id !in s.eventStarts then
        s.(eventStarts := s.eventStarts[id := now])
      else s
    case EventEnd(id) =>
      if On(c, s) && 0 <= id < |s.eventNames| && id in s.eventStarts then
        var start := s.eventStarts[id];
        s.(eventStarts := s.eventStarts - {id},
           timings := s.timings + (if c.summary then [Measured(EventEnded, s.eventNames[id], start, now)] else []),
           logged := s.logged + (if c.chrome then [EventRecord(s.eventNames[id], start, now)] else []))
      else s
    case _ => s.(gate := GateNext(s.gate, call))
  }

  function GateNext(gate: Gate, call: Call): Gate {
    match call
    case Pause => Gate(true, Environment(Some("0")))
    case Resume => Gate(false, Environment(Some("1")))
    case SetEnvironment(env) => gate.(env := env)
    case _ => gate
  }

  function Run(c: Config, s: State, calls: seq<Timed>): State
    decreases |calls|
  {
    if calls == [] then s else Run(c, Next(c, s, calls[0].call, calls[0].now), calls[1..])
  }

  lemma {:induction false} RunConcat(c: Config, s: State, a: seq<Timed>, b: seq<Timed>)
    ensures Run(c, s, a + b) == Run(c, Run(c, s, a), b)
    decreases |a|
  {
    if a == [] {
      assert a + b == b;
    } else {
      assert (a + b)[1..] == a[1..] + b;
      RunConcat(c, Next(c, s, a[0].call, a[0].now), a[1..], b);
    }
  }

  // ------------------------------------------------------------------
  // The collector's methods
  // ------------------------------------------------------------------

  datatype Status = Success | NoSymbol

  class Collector {
    const config: Config
    var stack: seq<Task>
    var eventStarts: map<int, nat>
    var eventNames: seq<string>
    var gate: Gate
    var logged: seq<Record>
    var timings: seq<Timing>
    ghost var closed: seq<Span>

    ghost function Abs(): State
      reads this
    {
      State(stack, eventStarts, eventNames, gate, logged, timings, closed)
    }

    constructor (config: Config)
      ensures this.config == config && Abs() == INITIAL
    {
      this.config := config;
      stack, eventStarts, eventNames := [], map[], [];
      gate := Gate(false, Environment(None));
      logged, timings, closed := [], [], [];
    }

    method IsCollectionEnabled() returns (enabled: bool)
      ensures enabled == CollectionEnabled(config.conditional, gate)
    {
      if config.conditional {
        if gate.paused {
          return false;
        }
        if gate.env != NoEnvironment {
          if gate.env.value == None || (gate.env.value.value != "" && gate.env.value.value[0] == '0') {
            return false;
          }
        }
      }
      return true;
    }

    method IttPause()
      modifies this
      ensures Abs() == Next(config, old(Abs()), Pause, 0)
      ensures gate.paused && gate.env == Environment(Some("0"))
      ensures config.conditional ==> !CollectionEnabled(config.conditional, gate)
    {
      gate := gate.(paused := true);
      gate := gate.(env := Environment(Some("0")));
    }

    method IttResume()
      modifies this
      ensures Abs() == Next(config, old(Abs()), Resume, 0)
      ensures !gate.paused && gate.env == Environment(Some("1"))
      ensures CollectionEnabled(config.conditional, gate)
    {
      gate := gate.(paused := false);
      gate := gate.(env := Environment(Some("1")));
      assert "0"[0] != "1"[0];
    }

    method TaskBegin(domain: Option<string>, name: Option<string>, staleDomain: string, staleName: string, now: nat)
      modifies this
      ensures Abs() == Next(config, old(Abs()), Begin(Copied(domain, staleDomain), Copied(name, staleName)), now)
    {
      var enabled := IsCollectionEnabled();
      if !enabled {
        return;
      }
      if !config.summary && !config.chrome {
        return;
      }
      var descDomain, descName := "", "";
      if domain.Some? {
        descDomain := CopyField(domain.value, staleDomain);
      }
      if name.Some? {
        descName := CopyField(name.value, staleName);
      }
      stack := stack + [Task(descDomain, descName, now, [])];
    }

    /** strncpy of at most 510 characters, read back up to the next terminator. */
    static method CopyField(text: string, stale: string) returns (field: string)
      ensures field == Copied(Some(text), stale)
      ensures field == if |text| < 510 then text else text[..510] + stale
    {
      field := "";
      var i := 0;
      while i < FIELD_WIDTH && i < |text|
        invariant 0 <= i <= FIELD_WIDTH && i <= |text| && field == text[..i]
      {
        field := field + [text[i]];
        i := i + 1;
      }
      if i == FIELD_WIDTH {
        field := field + stale;
      }
    }

    method TaskEnd(domain: Option<string>, now: nat)
      modifies this
      ensures Abs() == Next(config, old(Abs()), End(domain), now)
    {
      var enabled := IsCollectionEnabled();
      if !enabled {
        return;
      }
      if !config.summary && !config.chrome {
        return;
      }
      if stack != [] && domain.Some? && stack[|stack| - 1].domain == domain.value {
        var top := stack[|stack| - 1];
        var task := Clipped(top.domain + "::" + top.name);
        var name := top.domain;
        name := name + "::";
        name := name + top.name;
        if config.summary {
          timings := timings + [Measured(TaskEnded, name, top.start, now)];
        }
        if config.chrome {
          logged := logged + [Record(TaskEnded, task, top.start, now, top.args)];
        }
        stack := stack[..|stack| - 1];
        closed := closed + [Span(top.start, now)];
      }
    }

    /** Both internal ends; they dereference the domain whenever a task is open. */
    method TaskEndInternal(domain: string, now: nat)
      modifies this
      ensures Abs() == Next(config, old(Abs()), EndInternal(domain), now)
    {
      var enabled := IsCollectionEnabled();
      if !enabled || !config.chrome {
        return;
      }
      if stack == [] || stack[|stack| - 1].domain != domain {
        return;
      }
      var top := stack[|stack| - 1];
      var display := top.domain;
      display := display + "::";
      display := display + top.name;
      logged := logged + [Record(MpiEnded, display, top.start, now, [])];
      stack := stack[..|stack| - 1];
      closed := closed + [Span(top.start, now)];
    }

    /** The gate of the metadata calls; `arg` is what module IttMetadata builds from an accepted call. */
    method MetadataAdd(arg: Arg)
      modifies this
      ensures Abs() == Next(config, old(Abs()), AddArg(arg), 0)
    {
      var enabled := IsCollectionEnabled();
      if !enabled {
        return;
      }
      if !config.summary && !config.chrome {
        return;
      }
      if stack != [] {
        var top := stack[|stack| - 1];
        stack := stack[|stack| - 1 := top.(args := Insert(top.args, arg))];
      }
    }

    method EventCreateCall(name: string) returns (event: int)
      modifies this
      ensures Abs() == Next(config, old(Abs()), EventCreate(name), 0)
      ensures 0 <= event < |eventNames| && eventNames[event] == name
    {
      eventNames := eventNames + [name];
      return |eventNames| - 1;
    }

    method EventStartCall(event: int, now: nat) returns (status: Status)
      modifies this
      ensures Abs() == Next(config, old(Abs()), EventStart(event), now)
      ensures status == if On(config, old(Abs())) && !(0 <= event < |eventNames|) then NoSymbol else Success
    {
      var enabled := IsCollectionEnabled();
      if !enabled {
        return Success;
      }
      if !config.summary && !config.chrome {
        return Success;
      }
      if event < 0 || event >= |eventNames| {
        return NoSymbol;
      }
      if event !in eventStarts {  // std::map::insert keeps an existing entry
        eventStarts := eventStarts[event := now];
      }
      return Success;
    }

    method EventEndCall(event: int, now: nat) returns (status: Status)
      modifies this
      ensures Abs() == Next(config, old(Abs()), EventEnd(event), now)
      ensures status == if On(config, old(Abs())) && (event !in old(eventStarts) || !(0 <= event < |eventNames|))
                        then NoSymbol else Success
    {
      var enabled := IsCollectionEnabled();
      if !enabled {
        return Success;
      }
      if !config.summary && !config.chrome {
        return Success;
      }
      if event < 0 || event >= |eventNames| {
        return NoSymbol;
      }
      if event in eventStarts {
        var start := eventStarts[event];
        eventStarts := eventStarts - {event};
        if config.summary {
          timings := timings + [Measured(EventEnded, eventNames[event], start, now)];
        }
        if config.chrome {
          logged := logged + [EventRecord(eventNames[event], start, now)];
        }
        return Success;
      }
      return NoSymbol;
    }
  }

  // ------------------------------------------------------------------
  // Safety over every run: a laminar family, and no wrap-around
  // ------------------------------------------------------------------

  /** Disjoint up to a shared endpoint, or one inside the other. */
  predicate Laminar(a: Span, b: Span) {
    a.finish <= b.start || b.finish <= a.start
    || (a.start <= b.start && b.finish <= a.finish)
    || (b.start <= a.start && a.finish <= b.finish)
  }

  predicate LaminarFamily(spans: seq<Span>) {
    && (forall i :: 0 <= i < |spans| ==> spans[i].start <= spans[i].finish)
    && (forall i, j :: 0 <= i < j < |spans| ==> Laminar(spans[i], spans[j]))
  }

  /** The invariant of a run whose clock has reached `now`. */
  ghost predicate Nested(s: State, now: nat) {
    && LaminarFamily(s.closed)
    && (forall i :: 0 <= i < |s.closed| ==> s.closed[i].finish <= now)
    && (forall i :: 0 <= i < |s.stack| ==> s.stack[i].start <= now)
    && (forall i, j :: 0 <= i < j < |s.stack| ==> s.stack[i].start <= s.stack[j].start)
    && (forall i, k :: 0 <= i < |s.closed| && 0 <= k < |s.stack| ==>
          s.closed[i].finish <= s.stack[k].start || s.stack[k].start <= s.closed[i].start)
    && (forall id <- s.eventStarts :: s.eventStarts[id] <= now)
    && (forall i :: 0 <= i < |s.logged| ==> s.logged[i].start <= s.logged[i].finish)
    && (forall i :: 0 <= i < |s.timings| ==> Timely(s.timings[i], now))
  }

  predicate Timely(t: Timing, now: nat) {
    t.start <= t.finish <= now && t.elapsed == (t.finish - t.start) % WORD
  }

  predicate Monotone(calls: seq<Timed>, from: nat) {
    calls == [] || (from <= calls[0].now && Monotone(calls[1..], calls[0].now))
  }

  function LastTime(calls: seq<Timed>, from: nat): nat {
    if calls == [] then from else calls[|calls| - 1].now
  }

  lemma PopNested(s: State, before: nat, now: nat)
    requires Nested(s, before) && before <= now && s.stack != []
    ensures Nested(Pop(s, now), now)
  {
    var after := Pop(s, now);
    forall i, j | 0 <= i < j < |after.closed| ensures Laminar(after.closed[i], after.closed[j]) {
      if j < |s.closed| {
        assert Laminar(s.closed[i], s.closed[j]);
      }
    }
  }

  lemma PushNested(s: State, before: nat, t: Task)
    requires Nested(s, before) && before <= t.start
    ensures Nested(s.(stack := s.stack + [t]), t.start)
  {}

  lemma LaterNested(s: State, before: nat, now: nat)
    requires Nested(s, before) && before <= now
    ensures Nested(s, now)
  {}

  lemma LogNested(s: State, origin: Origin, name: string, start: nat, now: nat, timed: bool, records: seq<Record>)
    requires Nested(s, now) && start <= now && forall r <- records :: r.start <= r.finish
    ensures var timings := if timed then [Measured(origin, name, start, now)] else [];
            Nested(s.(timings := s.timings + timings, logged := s.logged + records), now)
  {}

  lemma EndNested(c: Config, s: State, before: nat, of: Option<string>, now: nat)
    requires Nested(s, before) && before <= now
    ensures Nested(Next(c, s, End(of), now), now)
  {
    LaterNested(s, before, now);
    if s.stack != [] {
      PopNested(s, before, now);
      var t := Top(s);
      var records := if c.chrome then [TaskRecord(t, now)] else [];
      LogNested(Pop(s, now), TaskEnded, Title(t), t.start, now, c.summary, records);
    }
  }

  lemma EndInternalNested(c: Config, s: State, before: nat, mpi: string, now: nat)
    requires Nested(s, before) && before <= now
    ensures Nested(Next(c, s, EndInternal(mpi), now), now)
  {
    LaterNested(s, before, now);
    if s.stack != [] {
      PopNested(s, before, now);
      assert s.timings + [] == s.timings;
      LogNested(Pop(s, now), MpiEnded, "", now, now, false, [MpiRecord(Top(s), now)]);
    }
  }

  lemma EventEndNested(c: Config, s: State, before: nat, id: int, now: nat)
    requires Nested(s, before) && before <= now
    ensures Nested(Next(c, s, EventEnd(id), now), now)
  {
    LaterNested(s, before, now);
    if id in s.eventStarts && 0 <= id < |s.eventNames| {
      var start, name := s.eventStarts[id], s.eventNames[id];
      var rest := s.(eventStarts := s.eventStarts - {id});
      var records := if c.chrome then [EventRecord(name, start, now)] else [];
      LogNested(rest, EventEnded, name, start, now, c.summary, records);
    }
  }

  lemma AddArgNested(c: Config, s: State, now: nat, arg: Arg)
    requires Nested(s, now)
    ensures Nested(Next(c, s, AddArg(arg), now), now)
  {}

  lemma QuietNested(c: Config, s: State, now: nat, call: Call)
    requires Nested(s, now)
    requires call.EventCreate? || call.EventStart? || call.Pause? || call.Resume? || call.SetEnvironment?
    ensures Nested(Next(c, s, call, now), now)
  {}

  lemma {:induction false} StepNested(c: Config, s: State, before: nat, call: Call, now: nat)
    requires Nested(s, before) && before <= now
    ensures Nested(Next(c, s, call, now), now)
  {
    match call
    case Begin(domain, name) =>
      LaterNested(s, before, now);
      PushNested(s, before, Task(domain, name, now, []));
    case End(of) => EndNested(c, s, before, of, now);
    case EndInternal(mpi) => EndInternalNested(c, s, before, mpi, now);
    case EventEnd(id) => EventEndNested(c, s, before, id, now);
    case AddArg(arg) =>
      LaterNested(s, before, now);
      AddArgNested(c, s, now, arg);
    case _ =>
      LaterNested(s, before, now);
      QuietNested(c, s, now, call);
  }

  /** However begins, ends, wrong-domain ends, events and pauses are mixed, task intervals nest or are disjoint. */
  lemma {:induction false} RunNested(c: Config, s: State, calls: seq<Timed>, from: nat)
    requires Nested(s, from) && Monotone(calls, from)
    ensures Nested(Run(c, s, calls), LastTime(calls, from))
    decreases |calls|
  {
    if calls == [] {
    } else {
      StepNested(c, s, from, calls[0].call, calls[0].now);
      RunNested(c, Next(c, s, calls[0].call, calls[0].now), calls[1..], calls[0].now);
    }
  }

  /** The records that come from tasks. */
  function TasksOf(records: seq<Record>): seq<Record> {
    if records == [] then []
    else
      var init, last := TasksOf(records[..|records| - 1]), records[|records| - 1];
      if last.origin.EventEnded? then init else init + [last]
  }

  lemma TasksOfSnoc(records: seq<Record>, last: Record)
    ensures TasksOf(records + [last]) == TasksOf(records) + if last.origin.EventEnded? then [] else [last]
  {
    assert (records + [last])[..|records|] == records;
  }

  /** The timings that come from tasks. */
  function TasksTimed(timings: seq<Timing>): seq<Timing> {
    if timings == [] then []
    else
      var init, last := TasksTimed(timings[..|timings| - 1]), timings[|timings| - 1];
      if last.origin.EventEnded? then init else init + [last]
  }

  lemma TasksTimedSnoc(timings: seq<Timing>, last: Timing)
    ensures TasksTimed(timings + [last]) == TasksTimed(timings) + if last.origin.EventEnded? then [] else [last]
  {
    assert (timings + [last])[..|timings|] == timings;
  }

  function Spans(records: seq<Record>): seq<Span> {
    seq(|records|, i requires 0 <= i < |records| => Span(records[i].start, records[i].finish))
  }

  /** With Chrome logging on, exactly the popped tasks have been logged. */
  ghost predicate ClosedAreLogged(s: State) {
    Spans(TasksOf(s.logged)) == s.closed
  }

  lemma StepLogsClosed(c: Config, s: State, call: Call, now: nat)
    requires c.chrome && ClosedAreLogged(s)
    ensures ClosedAreLogged(Next(c, s, call, now))
  {
    if (call.End? || call.EndInternal?) && s.stack != [] {
      TasksOfSnoc(s.logged, RecordOf(Top(s), call.EndInternal?, now));
    } else if call.EventEnd? && call.id in s.eventStarts && 0 <= call.id < |s.eventNames| {
      TasksOfSnoc(s.logged, EventRecord(s.eventNames[call.id], s.eventStarts[call.id], now));
    }
  }

  lemma {:induction false} RunLogsClosed(c: Config, s: State, calls: seq<Timed>)
    requires c.chrome && ClosedAreLogged(s)
    ensures ClosedAreLogged(Run(c, s, calls))
    decreases |calls|
  {
    if calls == [] {
    } else {
      StepLogsClosed(c, s, calls[0].call, calls[0].now);
      RunLogsClosed(c, Next(c, s, calls[0].call, calls[0].now), calls[1..]);
    }
  }

  /** The intervals of all tasks that have ended, and, with Chrome logging on, of all task records. */
  lemma {:induction false} RunsAreLaminar(c: Config, calls: seq<Timed>, from: nat)
    requires Monotone(calls, from)
    ensures LaminarFamily(Run(c, INITIAL, calls).closed)
    ensures c.chrome ==> Spans(TasksOf(Run(c, INITIAL, calls).logged)) == Run(c, INITIAL, calls).closed
    ensures forall r <- Run(c, INITIAL, calls).logged :: r.start <= r.finish
  {
    RunNested(c, INITIAL, calls, from);
    if c.chrome {
      RunLogsClosed(c, INITIAL, calls);
    }
  }

  /** As long as the clock fits 64 bits, every duration added to the statistics is the true one. */
  lemma {:induction false} NoDurationWraps(c: Config, calls: seq<Timed>, from: nat)
    requires Monotone(calls, from) && LastTime(calls, from) < WORD
    ensures forall t <- Run(c, INITIAL, calls).timings :: t.elapsed == t.finish - t.start
  {
    RunNested(c, INITIAL, calls, from);
    forall t | t in Run(c, INITIAL, calls).timings ensures t.elapsed == t.finish - t.start {
      assert 0 <= t.finish - t.start < WORD;
    }
  }

  // ------------------------------------------------------------------
  // The gate over a run
  // ------------------------------------------------------------------

  /** The gate after a list of calls: only pauses, resumes and changes of the environment matter. */
  function GateAfter(gate: Gate, calls: seq<Timed>): Gate {
    if calls == [] then gate
    else GateNext(GateAfter(gate, calls[..|calls| - 1]), calls[|calls| - 1].call)
  }

  lemma RunSnoc(c: Config, s: State, calls: seq<Timed>, last: Timed)
    ensures Run(c, s, calls + [last]) == Next(c, Run(c, s, calls), last.call, last.now)
  {
    RunConcat(c, s, calls, [last]);
    assert [last][1..] == [];
  }

  lemma {:induction false} RunGate(c: Config, s: State, calls: seq<Timed>)
    ensures Run(c, s, calls).gate == GateAfter(s.gate, calls)
  {
    if calls == [] {
    } else {
      var init, last := calls[..|calls| - 1], calls[|calls| - 1];
      assert calls == init + [last];
      RunGate(c, s, init);
      RunSnoc(c, s, init, last);
    }
  }

  predicate Open(c: Config, gate: Gate) {
    CollectionEnabled(c.conditional, gate)
  }

  /**
    What the gate lets through: everything when collection is unconditional; else
    nothing during a pause, and otherwise what the variable says, which has to be set
    and not to begin with '0' wherever there is an environment.
   */
  lemma EnabledIff(c: Config, gate: Gate)
    ensures Open(c, gate) <==>
            !c.conditional
            || (!gate.paused
                && match gate.env
                   case NoEnvironment => true
                   case Environment(None) => false
                   case Environment(Some(value)) => value == "" || value[0] != '0')
  {}

  /** Collection can only be switched by a pause, a resume or a change of the environment. */
  lemma GateCalls(gate: Gate, call: Call)
    ensures GateNext(gate, call) ==
            if call.Pause? then Gate(true, Environment(Some("0")))
            else if call.Resume? then Gate(false, Environment(Some("1")))
            else if call.SetEnvironment? then Gate(gate.paused, call.env)
            else gate
  {}

  /** A run that starts with the variable unset collects nothing before it is resumed or the variable is set. */
  lemma UnsetIsOff(c: Config)
    requires c.conditional
    ensures !Open(c, INITIAL.gate)
  {}

  /**
    Between a pause and the next resume nothing is collected, whatever is called
    and however the environment is changed meanwhile.
   */
  lemma {:induction false} PausedIsSilent(c: Config, s: State, calls: seq<Timed>)
    requires c.conditional && s.gate.paused && forall i :: 0 <= i < |calls| ==> !calls[i].call.Resume?
    ensures var after := Run(c, s, calls);
            && after.gate.paused
            && after.stack == s.stack && after.eventStarts == s.eventStarts
            && after.logged == s.logged && after.timings == s.timings && after.closed == s.closed
    decreases |calls|
  {
    if calls == [] {
    } else {
      assert !calls[0].call.Resume?;
      PausedIsSilent(c, Next(c, s, calls[0].call, calls[0].now), calls[1..]);
    }
  }

  // ------------------------------------------------------------------
  // Well-bracketed runs: one record per begin/end pair
  // ------------------------------------------------------------------

  /** The calls that are neither a task's begin or end nor a metadata call: events and gate changes. */
  type Neutral = call: Call | !call.Begin? && !call.End? && !call.EndInternal? && !call.AddArg? witness Pause

  /**
    A well-bracketed piece of a run: tasks with their bodies, metadata calls and any
    other calls, in sequence; `mpi` tells whether a task is closed by one of the
    internal ends. An end names the domain that its begin has stored.
   */
  datatype Forest =
    | Done
    | Bracket(domain: string, name: string, begin: nat, body: Forest, mpi: bool, end: nat, rest: Forest)
    | Meta(arg: Arg, at: nat, rest: Forest)
    | Other(call: Neutral, at: nat, rest: Forest)

  function Close(domain: string, mpi: bool): Call {
    if mpi then EndInternal(domain) else End(Some(domain))
  }

  function Calls(f: Forest): seq<Timed> {
    match f
    case Done => []
    case Bracket(domain, name, begin, body, mpi, end, rest) =>
      [Timed(Begin(domain, name), begin)] + Calls(body) + [Timed(Close(domain, mpi), end)] + Calls(rest)
    case Meta(arg, at, rest) => [Timed(AddArg(arg), at)] + Calls(rest)
    case Other(call, at, rest) => [Timed(call, at)] + Calls(rest)
  }

  /** The metadata calls made directly at this level, outside any task of the piece, while collection is on. */
  function ArgsOf(c: Config, gate: Gate, f: Forest): seq<Arg>
    decreases f
  {
    match f
    case Done => []
    case Bracket(_, _, _, body, _, _, rest) => ArgsOf(c, GateAfter(gate, Calls(body)), rest)
    case Meta(arg, _, rest) => (if Open(c, gate) then [arg] else []) + ArgsOf(c, gate, rest)
    case Other(call, _, rest) => ArgsOf(c, GateNext(gate, call), rest)
  }

  /** How n arguments a1, ..., an are listed: a1, an, ..., a2. */
  function Listed(args: seq<Arg>): seq<Arg> {
    if args == [] then [] else [args[0]] + Reversed(args[1..])
  }

  function Reversed(args: seq<Arg>): seq<Arg> {
    if args == [] then [] else Reversed(args[1..]) + [args[0]]
  }

  /** The record of one pair: an ordinary end cuts the name and keeps the arguments, an internal end the other way. */
  function PairRecord(domain: string, name: string, begin: nat, args: seq<Arg>, mpi: bool, end: nat): Record {
    var title := domain + "::" + name;
    if mpi then Record(MpiEnded, title, begin, end, [])
    else Record(TaskEnded, if |title| <= 1055 then title else title[..1055], begin, end, args)
  }

  /**
    One record per task, in the order of the ends, with the task's own name, times
    and, unless an internal end drops them, arguments.
   */
  function Records(c: Config, gate: Gate, f: Forest): seq<Record>
    decreases f
  {
    match f
    case Done => []
    case Bracket(domain, name, begin, body, mpi, end, rest) =>
      Records(c, gate, body) + [PairRecord(domain, name, begin, Listed(ArgsOf(c, gate, body)), mpi, end)]
      + Records(c, GateAfter(gate, Calls(body)), rest)
    case Meta(_, _, rest) => Records(c, gate, rest)
    case Other(call, _, rest) => Records(c, GateNext(gate, call), rest)
  }

  /** Collection is on at every begin and at every end of the piece. */
  predicate OnAtBrackets(c: Config, gate: Gate, f: Forest)
    decreases f
  {
    match f
    case Done => true
    case Bracket(_, _, _, body, _, _, rest) =>
      var atEnd := GateAfter(gate, Calls(body));
      Open(c, gate) && OnAtBrackets(c, gate, body) && Open(c, atEnd) && OnAtBrackets(c, atEnd, rest)
    case Meta(_, _, rest) => OnAtBrackets(c, gate, rest)
    case Other(call, _, rest) => OnAtBrackets(c, GateNext(gate, call), rest)
  }

  function InsertAll(args: seq<Arg>, more: seq<Arg>): seq<Arg>
    decreases |more|
  {
    if more == [] then args else InsertAll(Insert(args, more[0]), more[1..])
  }

  /** Inserting behind a head puts the latest argument first. */
  lemma {:induction false} InsertAllBehind(head: Arg, tail: seq<Arg>, more: seq<Arg>)
    ensures InsertAll([head] + tail, more) == [head] + (Reversed(more) + tail)
    decreases |more|
  {
    if more == [] {
    } else {
      assert Insert([head] + tail, more[0]) == [head] + ([more[0]] + tail);
      InsertAllBehind(head, [more[0]] + tail, more[1..]);
      Associate(Reversed(more[1..]), [more[0]], tail);
    }
  }

  lemma MetadataOrder(more: seq<Arg>)
    ensures InsertAll([], more) == Listed(more) && |Listed(more)| == |more|
    ensures more != [] ==> Listed(more)[0] == more[0]
    ensures forall k :: 1 <= k < |more| ==> Listed(more)[k] == more[|more| - k]
  {
    if more == [] {
    } else {
      assert Insert([], more[0]) == [more[0]] + [];
      InsertAllBehind(more[0], [], more[1..]);
      assert Reversed(more[1..]) + [] == Reversed(more[1..]);
      ReversedAt(more[1..]);
    }
  }

  lemma {:induction false} ReversedAt(args: seq<Arg>)
    ensures |Reversed(args)| == |args|
    ensures forall k :: 0 <= k < |args| ==> Reversed(args)[k] == args[|args| - 1 - k]
  {
    if args == [] {
    } else {
      ReversedAt(args[1..]);
    }
  }

  /** The stack after a piece of a run: only the innermost open task may have gained arguments. */
  function Decorated(stack: seq<Task>, args: seq<Arg>): seq<Task> {
    if stack == [] then stack
    else
      var top := stack[|stack| - 1];
      stack[|stack| - 1 := top.(args := InsertAll(top.args, args))]
  }

  /** The piece logs exactly one record per task, each its own, and leaves the open tasks open. */
  ghost predicate Logs(c: Config, s: State, f: Forest) {
    var after := Run(c, s, Calls(f));
    && TasksOf(after.logged) == TasksOf(s.logged) + Records(c, s.gate, f)
    && after.stack == Decorated(s.stack, ArgsOf(c, s.gate, f))
  }

  lemma RunFirst(c: Config, s: State, first: Timed, rest: seq<Timed>)
    ensures Run(c, s, [first] + rest) == Run(c, Next(c, s, first.call, first.now), rest)
  {
    assert ([first] + rest)[1..] == rest;
  }

  lemma RunBracket(c: Config, s: State, open: Timed, body: seq<Timed>, close: Timed, rest: seq<Timed>)
    ensures var s2 := Run(c, Next(c, s, open.call, open.now), body);
            Run(c, s, [open] + body + [close] + rest) == Run(c, Next(c, s2, close.call, close.now), rest)
  {
    var s1 := Next(c, s, open.call, open.now);
    assert [open] + body + [close] + rest == [open] + (body + ([close] + rest));
    RunFirst(c, s, open, body + ([close] + rest));
    RunConcat(c, s1, body, [close] + rest);
    RunFirst(c, Run(c, s1, body), close, rest);
  }

  /** An event or a gate change neither logs a task nor touches the stack. */
  lemma OtherKeeps(c: Config, s: State, call: Neutral, at: nat)
    ensures var t := Next(c, s, call, at);
            t.stack == s.stack && TasksOf(t.logged) == TasksOf(s.logged) && t.gate == GateNext(s.gate, call)
            && TasksTimed(t.timings) == TasksTimed(s.timings)
  {
    assert s.logged + [] == s.logged && s.timings + [] == s.timings;
    if call.EventEnd? && call.id in s.eventStarts && 0 <= call.id < |s.eventNames| {
      var name, start := s.eventNames[call.id], s.eventStarts[call.id];
      TasksOfSnoc(s.logged, EventRecord(name, start, at));
      TasksTimedSnoc(s.timings, Measured(EventEnded, name, start, at));
    }
  }

  // ------------------------------------------------------------------
  // Pairs that find collection in the same state at both ends
  // ------------------------------------------------------------------

  /** At the end of every pair collection is on if and only if it was on at the begin. */
  predicate Matched(c: Config, gate: Gate, f: Forest)
    decreases f
  {
    match f
    case Done => true
    case Bracket(_, _, _, body, _, _, rest) =>
      var atEnd := GateAfter(gate, Calls(body));
      (Open(c, gate) <==> Open(c, atEnd)) && Matched(c, gate, body) && Matched(c, atEnd, rest)
    case Meta(_, _, rest) => Matched(c, gate, rest)
    case Other(call, _, rest) => Matched(c, GateNext(gate, call), rest)
  }

  /** The accepted metadata calls outside any task that has been opened. */
  function KeptArgs(c: Config, gate: Gate, f: Forest): seq<Arg>
    decreases f
  {
    match f
    case Done => []
    case Bracket(_, _, _, body, _, _, rest) =>
      (if Open(c, gate) then [] else KeptArgs(c, gate, body)) + KeptArgs(c, GateAfter(gate, Calls(body)), rest)
    case Meta(arg, _, rest) => (if Open(c, gate) then [arg] else []) + KeptArgs(c, gate, rest)
    case Other(call, _, rest) => KeptArgs(c, GateNext(gate, call), rest)
  }

  /** The record of a pair, if it finds collection on. */
  function KeptRecord(c: Config, gate: Gate, domain: string, name: string, begin: nat, body: Forest, mpi: bool,
                      end: nat): seq<Record>
  {
    if Open(c, gate) then [PairRecord(domain, name, begin, Listed(KeptArgs(c, gate, body)), mpi, end)] else []
  }

  /** One record per pair that finds collection on, in the order of the ends. */
  function KeptRecords(c: Config, gate: Gate, f: Forest): seq<Record>
    decreases f
  {
    match f
    case Done => []
    case Bracket(domain, name, begin, body, mpi, end, rest) =>
      KeptRecords(c, gate, body) + KeptRecord(c, gate, domain, name, begin, body, mpi, end)
      + KeptRecords(c, GateAfter(gate, Calls(body)), rest)
    case Meta(_, _, rest) => KeptRecords(c, gate, rest)
    case Other(call, _, rest) => KeptRecords(c, GateNext(gate, call), rest)
  }

  /** Some output is on, and Chrome logging if there is an internal end, which does nothing without it. */
  predicate Closable(c: Config, f: Forest) {
    match f
    case Done => c.summary || c.chrome
    case Bracket(_, _, _, body, mpi, _, rest) => (mpi ==> c.chrome) && Closable(c, body) && Closable(c, rest)
    case Meta(_, _, rest) => Closable(c, rest)
    case Other(_, _, rest) => Closable(c, rest)
  }

  lemma {:induction false} ClosableHasOutput(c: Config, f: Forest)
    ensures Closable(c, f) ==> c.summary || c.chrome
    ensures c.chrome ==> Closable(c, f)
    decreases f
  {
    match f
    case Done =>
    case Bracket(_, _, _, body, _, _, rest) =>
      ClosableHasOutput(c, body);
      ClosableHasOutput(c, rest);
    case Meta(_, _, rest) => ClosableHasOutput(c, rest);
    case Other(_, _, rest) => ClosableHasOutput(c, rest);
  }

  function IfOn<T>(on: bool, items: seq<T>): seq<T> {
    if on then items else []
  }

  ghost predicate Keeps(c: Config, s: State, f: Forest) {
    var after := Run(c, s, Calls(f));
    && TasksOf(after.logged) == TasksOf(s.logged) + IfOn(c.chrome, KeptRecords(c, s.gate, f))
    && after.stack == Decorated(s.stack, KeptArgs(c, s.gate, f))
  }

  lemma {:induction false} InsertAllThen(args: seq<Arg>, a: seq<Arg>, b: seq<Arg>)
    ensures InsertAll(args, a + b) == InsertAll(InsertAll(args, a), b)
    decreases |a|
  {
    if a == [] {
      assert a + b == b;
    } else {
      assert (a + b)[1..] == a[1..] + b;
      InsertAllThen(Insert(args, a[0]), a[1..], b);
    }
  }

  lemma DecoratedThen(stack: seq<Task>, a: seq<Arg>, b: seq<Arg>)
    ensures Decorated(Decorated(stack, a), b) == Decorated(stack, a + b)
  {
    if stack != [] {
      InsertAllThen(stack[|stack| - 1].args, a, b);
    }
  }

  lemma MetaKeeps(c: Config, s: State, arg: Arg, at: nat, rest: Forest)
    requires (c.summary || c.chrome) && Keeps(c, Next(c, s, AddArg(arg), at), rest)
    ensures Keeps(c, s, Meta(arg, at, rest))
  {
    RunFirst(c, s, Timed(AddArg(arg), at), Calls(rest));
    if Open(c, s.gate) {
      var more := KeptArgs(c, s.gate, rest);
      assert ([arg] + more)[1..] == more;
    } else {
      assert [] + KeptArgs(c, s.gate, rest) == KeptArgs(c, s.gate, rest);
    }
  }

  lemma EventOrGateKeeps(c: Config, s: State, call: Neutral, at: nat, rest: Forest)
    requires Keeps(c, Next(c, s, call, at), rest)
    ensures Keeps(c, s, Other(call, at, rest))
  {
    RunFirst(c, s, Timed(call, at), Calls(rest));
    OtherKeeps(c, s, call, at);
  }

  /**
    The end of a pair. When the pair finds collection on, its own descriptor carries
    its own arguments and its end pops exactly it; otherwise both calls do nothing.
   */
  lemma EndOfBracket(c: Config, s: State, domain: string, name: string, begin: nat, body: Forest, mpi: bool, end: nat)
    requires (c.summary || c.chrome) && (mpi ==> c.chrome)
    requires Open(c, s.gate) <==> Open(c, GateAfter(s.gate, Calls(body)))
    requires Keeps(c, Next(c, s, Begin(domain, name), begin), body)
    ensures var s2 := Run(c, Next(c, s, Begin(domain, name), begin), Calls(body));
            var s3 := Next(c, s2, Close(domain, mpi), end);
            var record := KeptRecord(c, s.gate, domain, name, begin, body, mpi, end);
            && s3.gate == GateAfter(s.gate, Calls(body))
            && s3.stack == (if Open(c, s.gate) then s.stack else Decorated(s.stack, KeptArgs(c, s.gate, body)))
            && TasksOf(s3.logged) == TasksOf(s.logged) + IfOn(c.chrome, KeptRecords(c, s.gate, body) + record)
            && (Open(c, s.gate) ==>
                  s2.stack == s.stack + [Task(domain, name, begin, Listed(KeptArgs(c, s.gate, body)))])
  {
    var s1 := Next(c, s, Begin(domain, name), begin);
    var s2 := Run(c, s1, Calls(body));
    RunGate(c, s1, Calls(body));
    if Open(c, s.gate) {
      var t := Task(domain, name, begin, Listed(KeptArgs(c, s.gate, body)));
      MetadataOrder(KeptArgs(c, s.gate, body));
      assert s2.stack == s.stack + [t];
      CloseTop(c, s2, t, mpi, end);
      Associate(TasksOf(s.logged), KeptRecords(c, s.gate, body),
                [PairRecord(domain, name, begin, t.args, mpi, end)]);
    } else {
      assert KeptRecords(c, s.gate, body) + [] == KeptRecords(c, s.gate, body);
    }
  }

  /** An end that names the domain of the innermost task, while collection is on. */
  lemma CloseTop(c: Config, s: State, t: Task, mpi: bool, end: nat)
    requires (c.summary || c.chrome) && (mpi ==> c.chrome) && Open(c, s.gate) && s.stack != [] && Top(s) == t
    ensures var after := Next(c, s, Close(t.domain, mpi), end);
            && after.gate == s.gate && after.stack == s.stack[..|s.stack| - 1]
            && TasksOf(after.logged)
               == TasksOf(s.logged) + IfOn(c.chrome, [PairRecord(t.domain, t.name, t.start, t.args, mpi, end)])
  {
    if c.chrome {
      TasksOfSnoc(s.logged, RecordOf(t, mpi, end));
    } else {
      assert s.logged + [] == s.logged && TasksOf(s.logged) + [] == TasksOf(s.logged);
    }
  }

  lemma BracketKeeps(c: Config, s: State, domain: string, name: string, begin: nat, body: Forest, mpi: bool,
                     end: nat, rest: Forest)
    requires (c.summary || c.chrome) && (mpi ==> c.chrome)
    requires Open(c, s.gate) <==> Open(c, GateAfter(s.gate, Calls(body)))
    requires Keeps(c, Next(c, s, Begin(domain, name), begin), body)
    requires var s2 := Run(c, Next(c, s, Begin(domain, name), begin), Calls(body));
             Keeps(c, Next(c, s2, Close(domain, mpi), end), rest)
    ensures Keeps(c, s, Bracket(domain, name, begin, body, mpi, end, rest))
  {
    var atEnd := GateAfter(s.gate, Calls(body));
    EndOfBracket(c, s, domain, name, begin, body, mpi, end);
    RunBracket(c, s, Timed(Begin(domain, name), begin), Calls(body), Timed(Close(domain, mpi), end), Calls(rest));
    IfOnThen(TasksOf(s.logged), c.chrome,
             KeptRecords(c, s.gate, body) + KeptRecord(c, s.gate, domain, name, begin, body, mpi, end),
             KeptRecords(c, atEnd, rest));
    ArgsThen(s.stack, Open(c, s.gate), KeptArgs(c, s.gate, body), KeptArgs(c, atEnd, rest));
  }

  lemma IfOnThen<T>(before: seq<T>, on: bool, a: seq<T>, b: seq<T>)
    ensures (before + IfOn(on, a)) + IfOn(on, b) == before + IfOn(on, a + b)
  {}

  /** The arguments of a pair that is not opened go to the task around it. */
  lemma ArgsThen(stack: seq<Task>, taken: bool, inside: seq<Arg>, behind: seq<Arg>)
    ensures Decorated(if taken then stack else Decorated(stack, inside), behind)
            == Decorated(stack, (if taken then [] else inside) + behind)
  {
    DecoratedThen(stack, inside, behind);
    assert [] + behind == behind;
  }

  /** On any stack: when begin and end of every pair agree, exactly the pairs that find collection on are logged. */
  lemma {:induction false} MatchedKeeps(c: Config, s: State, f: Forest)
    requires Closable(c, f) && Matched(c, s.gate, f)
    ensures Keeps(c, s, f)
    decreases f
  {
    ClosableHasOutput(c, f);
    match f
    case Done =>
    case Meta(arg, at, rest) =>
      MatchedKeeps(c, Next(c, s, AddArg(arg), at), rest);
      MetaKeeps(c, s, arg, at, rest);
    case Other(call, at, rest) =>
      OtherKeeps(c, s, call, at);
      MatchedKeeps(c, Next(c, s, call, at), rest);
      EventOrGateKeeps(c, s, call, at, rest);
    case Bracket(domain, name, begin, body, mpi, end, rest) =>
      var s1 := Next(c, s, Begin(domain, name), begin);
      MatchedKeeps(c, s1, body);
      EndOfBracket(c, s, domain, name, begin, body, mpi, end);
      MatchedKeeps(c, Next(c, Run(c, s1, Calls(body)), Close(domain, mpi), end), rest);
      BracketKeeps(c, s, domain, name, begin, body, mpi, end, rest);
  }

  lemma {:induction false} OnIsMatched(c: Config, gate: Gate, f: Forest)
    requires OnAtBrackets(c, gate, f)
    ensures Matched(c, gate, f)
    ensures KeptArgs(c, gate, f) == ArgsOf(c, gate, f) && KeptRecords(c, gate, f) == Records(c, gate, f)
    decreases f
  {
    match f
    case Done =>
    case Bracket(_, _, _, body, _, _, rest) =>
      OnIsMatched(c, gate, body);
      OnIsMatched(c, GateAfter(gate, Calls(body)), rest);
    case Meta(_, _, rest) => OnIsMatched(c, gate, rest);
    case Other(call, _, rest) => OnIsMatched(c, GateNext(gate, call), rest);
  }

  /** On any stack, a piece whose begins and ends all find collection on logs exactly its records. */
  lemma {:induction false} BracketsLog(c: Config, s: State, f: Forest)
    requires c.chrome && OnAtBrackets(c, s.gate, f)
    ensures Logs(c, s, f)
  {
    OnIsMatched(c, s.gate, f);
    ClosableHasOutput(c, f);
    MatchedKeeps(c, s, f);
  }

  // ------------------------------------------------------------------
  // What the statistics are fed
  // ------------------------------------------------------------------

  /** The timing of a pair, if it finds collection on and is closed by an ordinary end. */
  function KeptTiming(c: Config, gate: Gate, domain: string, name: string, begin: nat, mpi: bool, end: nat)
    : seq<Timing>
  {
    if Open(c, gate) && !mpi then
      [Timing(TaskEnded, domain + "::" + name, (end - begin) % 0x1_0000_0000_0000_0000, begin, end)]
    else []
  }

  /** One timing per such pair, in the order of the ends. */
  function KeptTimings(c: Config, gate: Gate, f: Forest): seq<Timing>
    decreases f
  {
    match f
    case Done => []
    case Bracket(domain, name, begin, body, mpi, end, rest) =>
      KeptTimings(c, gate, body) + KeptTiming(c, gate, domain, name, begin, mpi, end)
      + KeptTimings(c, GateAfter(gate, Calls(body)), rest)
    case Meta(_, _, rest) => KeptTimings(c, gate, rest)
    case Other(call, _, rest) => KeptTimings(c, GateNext(gate, call), rest)
  }

  ghost predicate Times(c: Config, s: State, f: Forest) {
    TasksTimed(Run(c, s, Calls(f)).timings) == TasksTimed(s.timings) + IfOn(c.summary, KeptTimings(c, s.gate, f))
  }

  lemma BeginTimes(c: Config, s: State, call: Call, at: nat)
    requires call.Begin? || call.AddArg?
    ensures Next(c, s, call, at).timings == s.timings && Next(c, s, call, at).gate == s.gate
  {}

  /** The end of a pair whose descriptor is on top, or of a pair that finds collection off. */
  lemma CloseTimes(c: Config, s: State, gate: Gate, t: Task, mpi: bool, end: nat)
    requires (c.summary || c.chrome) && (mpi ==> c.chrome) && (Open(c, gate) <==> Open(c, s.gate))
    requires Open(c, gate) ==> s.stack != [] && Top(s) == t
    ensures TasksTimed(Next(c, s, Close(t.domain, mpi), end).timings)
            == TasksTimed(s.timings) + IfOn(c.summary, KeptTiming(c, gate, t.domain, t.name, t.start, mpi, end))
  {
    assert s.timings + [] == s.timings && TasksTimed(s.timings) + [] == TasksTimed(s.timings);
    if Open(c, gate) && !mpi && c.summary {
      TasksTimedSnoc(s.timings, Measured(TaskEnded, Title(t), t.start, end));
    }
  }

  lemma BracketTimes(c: Config, s: State, domain: string, name: string, begin: nat, body: Forest, mpi: bool,
                     end: nat, rest: Forest)
    requires (c.summary || c.chrome) && (mpi ==> c.chrome)
    requires Open(c, s.gate) <==> Open(c, GateAfter(s.gate, Calls(body)))
    requires var s1 := Next(c, s, Begin(domain, name), begin);
             Keeps(c, s1, body) && Times(c, s1, body)
    requires var s2 := Run(c, Next(c, s, Begin(domain, name), begin), Calls(body));
             Times(c, Next(c, s2, Close(domain, mpi), end), rest)
    ensures Times(c, s, Bracket(domain, name, begin, body, mpi, end, rest))
  {
    var atEnd := GateAfter(s.gate, Calls(body));
    var s1 := Next(c, s, Begin(domain, name), begin);
    var s2 := Run(c, s1, Calls(body));
    BeginTimes(c, s, Begin(domain, name), begin);
    RunGate(c, s1, Calls(body));
    EndOfBracket(c, s, domain, name, begin, body, mpi, end);
    var t := Task(domain, name, begin, Listed(KeptArgs(c, s.gate, body)));
    CloseTimes(c, s2, s.gate, t, mpi, end);
    RunBracket(c, s, Timed(Begin(domain, name), begin), Calls(body), Timed(Close(domain, mpi), end), Calls(rest));
    var own := KeptTiming(c, s.gate, domain, name, begin, mpi, end);
    IfOnThen(TasksTimed(s.timings), c.summary, KeptTimings(c, s.gate, body), own);
    IfOnThen(TasksTimed(s.timings), c.summary, KeptTimings(c, s.gate, body) + own, KeptTimings(c, atEnd, rest));
  }

  /**
    On any stack: when begin and end of every pair agree, exactly the pairs that find
    collection on and end ordinarily are timed, each with its own name and times.
   */
  lemma {:induction false} MatchedTimes(c: Config, s: State, f: Forest)
    requires Closable(c, f) && Matched(c, s.gate, f)
    ensures Times(c, s, f)
    decreases f
  {
    ClosableHasOutput(c, f);
    match f
    case Done =>
    case Meta(arg, at, rest) =>
      BeginTimes(c, s, AddArg(arg), at);
      MatchedTimes(c, Next(c, s, AddArg(arg), at), rest);
      RunFirst(c, s, Timed(AddArg(arg), at), Calls(rest));
    case Other(call, at, rest) =>
      OtherKeeps(c, s, call, at);
      MatchedTimes(c, Next(c, s, call, at), rest);
      RunFirst(c, s, Timed(call, at), Calls(rest));
    case Bracket(domain, name, begin, body, mpi, end, rest) =>
      var s1 := Next(c, s, Begin(domain, name), begin);
      MatchedKeeps(c, s1, body);
      MatchedTimes(c, s1, body);
      EndOfBracket(c, s, domain, name, begin, body, mpi, end);
      MatchedTimes(c, Next(c, Run(c, s1, Calls(body)), Close(domain, mpi), end), rest);
      BracketTimes(c, s, domain, name, begin, body, mpi, end, rest);
  }

  // ------------------------------------------------------------------
  // Exactly when each pair keeps its own record
  // ------------------------------------------------------------------

  /** The number of tasks of a piece. */
  function Size(f: Forest): nat {
    match f
    case Done => 0
    case Bracket(_, _, _, body, _, _, rest) => Size(body) + 1 + Size(rest)
    case Meta(_, _, rest) => Size(rest)
    case Other(_, _, rest) => Size(rest)
  }

  function Unit(b: bool): nat {
    if b then 1 else 0
  }

  /** How many begins find collection on. */
  function OpenBegins(c: Config, gate: Gate, f: Forest): nat
    decreases f
  {
    match f
    case Done => 0
    case Bracket(_, _, _, body, _, _, rest) =>
      Unit(Open(c, gate)) + OpenBegins(c, gate, body) + OpenBegins(c, GateAfter(gate, Calls(body)), rest)
    case Meta(_, _, rest) => OpenBegins(c, gate, rest)
    case Other(call, _, rest) => OpenBegins(c, GateNext(gate, call), rest)
  }

  /** How many ends find collection on. */
  function OpenEnds(c: Config, gate: Gate, f: Forest): nat
    decreases f
  {
    match f
    case Done => 0
    case Bracket(_, _, _, body, _, _, rest) =>
      var atEnd := GateAfter(gate, Calls(body));
      OpenEnds(c, gate, body) + Unit(Open(c, atEnd)) + OpenEnds(c, atEnd, rest)
    case Meta(_, _, rest) => OpenEnds(c, gate, rest)
    case Other(call, _, rest) => OpenEnds(c, GateNext(gate, call), rest)
  }

  lemma {:induction false} AllOpenIff(c: Config, gate: Gate, f: Forest)
    ensures OpenBegins(c, gate, f) <= Size(f) && OpenEnds(c, gate, f) <= Size(f)
    ensures OpenBegins(c, gate, f) == Size(f) == OpenEnds(c, gate, f) <==> OnAtBrackets(c, gate, f)
    ensures |Records(c, gate, f)| == Size(f)
    decreases f
  {
    match f
    case Done =>
    case Bracket(_, _, _, body, _, _, rest) =>
      AllOpenIff(c, gate, body);
      AllOpenIff(c, GateAfter(gate, Calls(body)), rest);
    case Meta(_, _, rest) => AllOpenIff(c, gate, rest);
    case Other(call, _, rest) => AllOpenIff(c, GateNext(gate, call), rest);
  }

  /** From s to t, `begins` tasks were opened, and of all open tasks at most `ends` were logged and closed. */
  ghost predicate Counts(s: State, t: State, begins: nat, ends: nat) {
    && |TasksOf(t.logged)| <= |TasksOf(s.logged)| + ends
    && |t.stack| + |TasksOf(t.logged)| == |s.stack| + |TasksOf(s.logged)| + begins
  }

  lemma BeginCounts(c: Config, s: State, domain: string, name: string, at: nat)
    requires c.chrome
    ensures Counts(s, Next(c, s, Begin(domain, name), at), Unit(Open(c, s.gate)), 0)
  {}

  lemma CloseCounts(c: Config, s: State, domain: string, mpi: bool, at: nat)
    requires c.chrome
    ensures Counts(s, Next(c, s, Close(domain, mpi), at), 0, Unit(Open(c, s.gate)))
    ensures Next(c, s, Close(domain, mpi), at).gate == s.gate
  {
    if s.stack != [] {
      TasksOfSnoc(s.logged, RecordOf(Top(s), mpi, at));
    }
  }

  /** Whatever the gate does: tasks opened minus tasks closed is the change of the stack's height. */
  lemma {:induction false} RunCounts(c: Config, s: State, f: Forest)
    requires c.chrome
    ensures Counts(s, Run(c, s, Calls(f)), OpenBegins(c, s.gate, f), OpenEnds(c, s.gate, f))
    decreases f
  {
    match f
    case Done =>
    case Bracket(domain, name, begin, body, mpi, end, rest) =>
      var s1 := Next(c, s, Begin(domain, name), begin);
      var s2 := Run(c, s1, Calls(body));
      BeginCounts(c, s, domain, name, begin);
      RunCounts(c, s1, body);
      RunGate(c, s1, Calls(body));
      CloseCounts(c, s2, domain, mpi, end);
      RunCounts(c, Next(c, s2, Close(domain, mpi), end), rest);
      RunBracket(c, s, Timed(Begin(domain, name), begin), Calls(body), Timed(Close(domain, mpi), end), Calls(rest));
    case Meta(arg, at, rest) =>
      RunFirst(c, s, Timed(AddArg(arg), at), Calls(rest));
      RunCounts(c, Next(c, s, AddArg(arg), at), rest);
    case Other(call, at, rest) =>
      RunFirst(c, s, Timed(call, at), Calls(rest));
      OtherKeeps(c, s, call, at);
      RunCounts(c, Next(c, s, call, at), rest);
  }

  /**
    Every begin/end pair keeps its own record, and the open tasks stay open, if and
    only if collection is on at every begin and every end. In between it may be off.
   */
  lemma {:induction false} BracketsLogIff(c: Config, s: State, f: Forest)
    requires c.chrome
    ensures Logs(c, s, f) <==> OnAtBrackets(c, s.gate, f)
  {
    if OnAtBrackets(c, s.gate, f) {
      BracketsLog(c, s, f);
    }
    if Logs(c, s, f) {
      AllOpenIff(c, s.gate, f);
      RunCounts(c, s, f);
    }
  }

  /**
    A begin that falls into a pause opens nothing, so its end closes the enclosing
    task of that domain.
   */
  lemma PausedBeginMispairs()
    ensures var c := Config(true, false, true);
            var on := INITIAL.(gate := Gate(false, Environment(Some("1"))));
            var inner := Other(Pause, 2, Bracket("d", "inner", 3, Other(Resume, 4, Done), false, 5, Done));
            && !OnAtBrackets(c, on.gate, Bracket("d", "outer", 1, inner, false, 6, Done))
            && Run(c, Next(c, on, Begin("d", "outer"), 1), Calls(inner)).logged
               == [Record(TaskEnded, "d" + "::" + "outer", 1, 5, [])]
  {
    var c := Config(true, false, true);
    var on := INITIAL.(gate := Gate(false, Environment(Some("1"))));
    assert "0"[0] != "1"[0];
    var s1 := Next(c, on, Begin("d", "outer"), 1);
    assert s1.stack == [Task("d", "outer", 1, [])];
    var s2 := Next(c, s1, Pause, 2);
    var s3 := Next(c, s2, Begin("d", "inner"), 3);
    var s4 := Next(c, s3, Resume, 4);
    assert Top(s4) == s1.stack[0];
    RunFirst(c, s1, Timed(Pause, 2), Calls(Bracket("d", "inner", 3, Other(Resume, 4, Done), false, 5, Done)));
    RunBracket(c, s2, Timed(Begin("d", "inner"), 3), [Timed(Resume, 4)] + [], Timed(Close("d", false), 5), []);
    RunFirst(c, s3, Timed(Resume, 4), []);
  }

  /** A task whose domain had to be cut is closed by its own end only if what is read behind the cut is the rest. */
  lemma OwnEndMatchesIff(c: Config, s: State, domain: string, stale: string, name: string, begin: nat, end: nat)
    requires On(c, s)
    ensures var s1 := Next(c, s, Begin(Copied(Some(domain), stale), name), begin);
            Next(c, s1, End(Some(domain)), end).stack == s.stack
            <==> (|domain| < FIELD_WIDTH || stale == domain[FIELD_WIDTH..])
  {
    var stored := Copied(Some(domain), stale);
    var s1 := Next(c, s, Begin(stored, name), begin);
    assert s1.stack[..|s1.stack| - 1] == s.stack && Top(s1).domain == stored;
    if FIELD_WIDTH <= |domain| {
      assert domain == domain[..FIELD_WIDTH] + domain[FIELD_WIDTH..];
      assert stored[FIELD_WIDTH..] == stale;
    }
  }

  /** A domain one character too long, cut and terminated right behind the cut: its own end leaves the task open. */
  lemma LongDomainStaysOpen(name: string)
    ensures var c, domain := Config(false, false, true), seq(511, _ => 'd');
            var s1 := Next(c, INITIAL, Begin(Copied(Some(domain), ""), name), 1);
            Next(c, s1, End(Some(domain)), 2).stack != INITIAL.stack
  {
    OwnEndMatchesIff(Config(false, false, true), INITIAL, seq(511, _ => 'd'), "", name, 1, 2);
  }

  // ------------------------------------------------------------------
  // Events: an end is paired with the first start since the last end
  // ------------------------------------------------------------------

  /** The names of all events created so far. */
  function NamesAfter(names: seq<string>, calls: seq<Timed>): seq<string> {
    if calls == [] then names
    else
      var before, last := NamesAfter(names, calls[..|calls| - 1]), calls[|calls| - 1];
      if last.call.EventCreate? then before + [last.call.text] else before
  }

  /** After the calls, with an output on: does a call for the event take effect? */
  predicate Heard(c: Config, s: State, calls: seq<Timed>, id: int) {
    Open(c, GateAfter(s.gate, calls)) && 0 <= id < |NamesAfter(s.eventNames, calls)|
  }

  /** The start time of an event that is open. */
  function OpenIn(s: State, id: int): Option<nat> {
    if id in s.eventStarts then Some(s.eventStarts[id]) else None
  }

  /** The time of the first start of the event that took effect and that no effective end has followed yet. */
  function OpenSince(c: Config, s: State, calls: seq<Timed>, id: int): Option<nat> {
    if calls == [] then OpenIn(s, id)
    else
      var init, last := calls[..|calls| - 1], calls[|calls| - 1];
      var before := OpenSince(c, s, init, id);
      match last.call
      case EventStart(i) => if i == id && Heard(c, s, init, id) && before == None then Some(last.now) else before
      case EventEnd(i) => if i == id && Heard(c, s, init, id) then None else before
      case _ => before
  }

  lemma CallOpens(c: Config, s: State, call: Call, now: nat, id: int)
    requires c.summary || c.chrome
    ensures var heard := Open(c, s.gate) && 0 <= id < |s.eventNames|;
            OpenIn(Next(c, s, call, now), id) ==
            match call
            case EventStart(i) => if i == id && heard && OpenIn(s, id) == None then Some(now) else OpenIn(s, id)
            case EventEnd(i) => if i == id && heard then None else OpenIn(s, id)
            case _ => OpenIn(s, id)
  {}

  lemma {:induction false} RunNames(c: Config, s: State, calls: seq<Timed>)
    ensures Run(c, s, calls).eventNames == NamesAfter(s.eventNames, calls)
  {
    if calls == [] {
    } else {
      var init, last := calls[..|calls| - 1], calls[|calls| - 1];
      assert calls == init + [last];
      RunNames(c, s, init);
      RunSnoc(c, s, init, last);
    }
  }

  /** After any run the event map holds exactly the open events, each with its first start. */
  lemma {:induction false} EventMapIsOpenSince(c: Config, s: State, calls: seq<Timed>, id: int)
    requires c.summary || c.chrome
    ensures OpenIn(Run(c, s, calls), id) == OpenSince(c, s, calls, id)
  {
    if calls == [] {
    } else {
      var init, last := calls[..|calls| - 1], calls[|calls| - 1];
      assert calls == init + [last];
      EventMapIsOpenSince(c, s, init, id);
      RunGate(c, s, init);
      RunNames(c, s, init);
      RunSnoc(c, s, init, last);
      CallOpens(c, Run(c, s, init), last.call, last.now, id);
    }
  }

  /**
    An event's end that takes effect is timed and logged once, from that first start
    to now; without an open start, or while collection is off, it does nothing.
   */
  lemma {:induction false} EventEndLogs(c: Config, s: State, calls: seq<Timed>, id: int, now: nat)
    requires c.summary || c.chrome
    ensures var before, after := Run(c, s, calls), Run(c, s, calls + [Timed(EventEnd(id), now)]);
            if Heard(c, s, calls, id) && OpenSince(c, s, calls, id).Some? then
              var name, start := NamesAfter(s.eventNames, calls)[id], OpenSince(c, s, calls, id).value;
              var timing := Timing(EventEnded, name, (now - start) % 0x1_0000_0000_0000_0000, start, now);
              && after.logged == before.logged + (if c.chrome then [Record(EventEnded, name, start, now, [])] else [])
              && after.timings == before.timings + (if c.summary then [timing] else [])
            else after == before
  {
    EventMapIsOpenSince(c, s, calls, id);
    RunGate(c, s, calls);
    RunNames(c, s, calls);
    RunSnoc(c, s, calls, Timed(EventEnd(id), now));
  }
}
