/**
  Runs over many trace buffers: threads come and go, log events, and at some
  point the logger is torn down. Each step is one lock-held section or one
  callback of tools/unitrace/src/chromelogger.h; module TraceThreads shows that
  the objects of module TraceBuffer take exactly these steps.
 */
module TraceRun {
  import opened TraceQueue

  datatype Step =
    | Create(tid: nat, mode: Mode)
    | Event(tid: nat, record: Record)
    | Exit(tid: nat)
    | Shutdown(order: seq<nat>)

  /**
    The last buffer of every thread id, the registry of buffers to drain, and the
    trace file. Once a thread has exited, the system may give its id to another one.
   */
  datatype State = State(buffers: map<nat, Queue>, registry: set<nat>, log: seq<Entry>, down: bool)

  /** The queue of a thread; a thread without a buffer holds nothing back. */
  function At(buffers: map<nat, Queue>, tid: nat): Queue {
    if tid in buffers then buffers[tid] else Queue(Unbounded, [], true)
  }

  ghost predicate Enabled(s: State, step: Step) {
    match step
    case Create(tid, mode) => !s.down && At(s.buffers, tid).finalized && (mode.Bounded? ==> 0 < mode.capacity)
    case Event(tid, _) => tid in s.buffers
    case Exit(tid) => tid in s.buffers
    case Shutdown(order) =>
      && !s.down
      && (forall t :: t in order <==> t in s.registry)
      && (forall i, j :: 0 <= i < j < |order| ==> order[i] != order[j])
  }

  function PendingOf(buffers: map<nat, Queue>, order: seq<nat>): seq<Entry> {
    if order == [] then []
    else Tag(order[0], At(buffers, order[0]).pending) + PendingOf(buffers, order[1..])
  }

  function Next(s: State, step: Step): State {
    match step
    case Create(tid, mode) =>
      s.(buffers := s.buffers[tid := Queue(mode, [], false)], registry := s.registry + {tid})
    case Event(tid, record) =>
      var q := At(s.buffers, tid);
      s.(buffers := s.buffers[tid := Pushed(q, record)], log := s.log + Tag(tid, Emitted(q, record)))
    case Exit(tid) =>
      var q := At(s.buffers, tid);
      if q.finalized then s
      else s.(buffers := s.buffers[tid := Closed(q)], registry := s.registry - {tid},
              log := s.log + Tag(tid, q.pending))
    case Shutdown(order) =>
      State(map t | t in s.buffers :: if t in order then Closed(s.buffers[t]) else s.buffers[t],
            {}, s.log + PendingOf(s.buffers, order), true)
  }

  function Run(steps: seq<Step>): State {
    if steps == [] then State(map[], {}, [], false)
    else Next(Run(steps[..|steps| - 1]), steps[|steps| - 1])
  }

  /** Every step was enabled when it was taken. */
  ghost predicate ValidRun(steps: seq<Step>) {
    steps == [] || (ValidRun(steps[..|steps| - 1]) && Enabled(Run(steps[..|steps| - 1]), steps[|steps| - 1]))
  }

  // ------------------------------------------------------------------
  // What a run should have written, read off the steps alone
  // ------------------------------------------------------------------

  /** After the steps, has a buffer of the thread id been created and neither exited nor shut down since? */
  predicate Live(steps: seq<Step>, tid: nat) {
    if steps == [] then false
    else
      match steps[|steps| - 1]
      case Create(t, _) => t == tid || Live(steps[..|steps| - 1], tid)
      case Exit(t) => t != tid && Live(steps[..|steps| - 1], tid)
      case Shutdown(_) => false
      case Event(_, _) => Live(steps[..|steps| - 1], tid)
  }

  /** The events issued under the thread id while its buffer was live, in order. */
  function Issued(steps: seq<Step>, tid: nat): seq<Record> {
    if steps == [] then []
    else
      var init, last := steps[..|steps| - 1], steps[|steps| - 1];
      Issued(init, tid) + if last.Event? && last.tid == tid && Live(init, tid) then [last.record] else []
  }

  /** The subsequence of the trace file that carries the thread id. */
  function Own(log: seq<Entry>, tid: nat): seq<Record> {
    if log == [] then []
    else Own(log[..|log| - 1], tid) + if log[|log| - 1].tid == tid then [log[|log| - 1].record] else []
  }

  lemma {:induction false} OwnConcat(a: seq<Entry>, b: seq<Entry>, tid: nat)
    ensures Own(a + b, tid) == Own(a, tid) + Own(b, tid)
  {
    if b == [] {
      assert a + b == a;
    } else {
      var c := a + b;
      assert c[..|c| - 1] == a + b[..|b| - 1];
      OwnConcat(a, b[..|b| - 1], tid);
    }
  }

  lemma {:induction false} OwnTag(t: nat, records: seq<Record>, tid: nat)
    ensures Own(Tag(t, records), tid) == if t == tid then records else []
  {
    if records == [] {
    } else {
      var init := records[..|records| - 1];
      assert Tag(t, records)[..|records| - 1] == Tag(t, init);
      OwnTag(t, init, tid);
      assert records == init + [records[|records| - 1]];
    }
  }

  lemma OwnAppend(log: seq<Entry>, t: nat, records: seq<Record>, tid: nat)
    ensures Own(log + Tag(t, records), tid) == Own(log, tid) + if t == tid then records else []
  {
    OwnConcat(log, Tag(t, records), tid);
    OwnTag(t, records, tid);
  }

  /** Draining a list of distinct buffers gives each of them its own pending records, once. */
  lemma {:induction false} OwnPending(buffers: map<nat, Queue>, order: seq<nat>, tid: nat)
    requires forall i, j :: 0 <= i < j < |order| ==> order[i] != order[j]
    ensures Own(PendingOf(buffers, order), tid) == if tid in order then At(buffers, tid).pending else []
  {
    if order == [] {
    } else {
      OwnConcat(Tag(order[0], At(buffers, order[0]).pending), PendingOf(buffers, order[1..]), tid);
      OwnTag(order[0], At(buffers, order[0]).pending, tid);
      OwnPending(buffers, order[1..], tid);
      assert order == [order[0]] + order[1..];
    }
  }

  // ------------------------------------------------------------------
  // Safety over whole runs
  // ------------------------------------------------------------------

  /** The state accounts for every event of one thread. */
  ghost predicate Accounted(s: State, tid: nat, live: bool, issued: seq<Record>) {
    && (tid in s.registry <==> live)
    && (live <==> !At(s.buffers, tid).finalized)
    && Consistent(At(s.buffers, tid))
    && Own(s.log, tid) + At(s.buffers, tid).pending == issued
  }

  lemma Regroup<T>(a: seq<T>, b: seq<T>, c: seq<T>, d: seq<T>, e: seq<T>)
    requires b + c == d + e
    ensures (a + b) + c == (a + d) + e
  {
    assert (a + b) + c == a + (b + c);
    assert (a + d) + e == a + (d + e);
  }

  lemma EventAccounts(s: State, t: nat, record: Record, tid: nat, live: bool, issued: seq<Record>)
    requires Accounted(s, tid, live, issued) && t in s.buffers
    ensures Accounted(Next(s, Event(t, record)), tid, live, issued + if t == tid && live then [record] else [])
  {
    var q := At(s.buffers, t);
    OwnAppend(s.log, t, Emitted(q, record), tid);
    if t == tid {
      PushConserves(q, record);
      Regroup(Own(s.log, tid), Emitted(q, record), Pushed(q, record).pending, q.pending, if live then [record] else []);
    }
  }

  lemma ExitAccounts(s: State, t: nat, tid: nat, live: bool, issued: seq<Record>)
    requires Accounted(s, tid, live, issued) && t in s.buffers
    ensures Accounted(Next(s, Exit(t)), tid, t != tid && live, issued)
  {
    OwnAppend(s.log, t, At(s.buffers, t).pending, tid);
  }

  lemma ShutdownAccounts(s: State, order: seq<nat>, tid: nat, live: bool, issued: seq<Record>)
    requires Accounted(s, tid, live, issued) && Enabled(s, Shutdown(order))
    ensures Accounted(Next(s, Shutdown(order)), tid, false, issued)
  {
    OwnPending(s.buffers, order, tid);
    OwnConcat(s.log, PendingOf(s.buffers, order), tid);
  }

  /** In every reachable state, what is written plus what is pending is what was issued, for every thread. */
  lemma {:induction false} RunAccounts(steps: seq<Step>, tid: nat)
    requires ValidRun(steps)
    ensures Accounted(Run(steps), tid, Live(steps, tid), Issued(steps, tid))
  {
    if steps == [] {
    } else {
      var init, last := steps[..|steps| - 1], steps[|steps| - 1];
      RunAccounts(init, tid);
      match last
      case Create(_, _) =>
      case Event(t, record) => EventAccounts(Run(init), t, record, tid, Live(init, tid), Issued(init, tid));
      case Exit(t) => ExitAccounts(Run(init), t, tid, Live(init, tid), Issued(init, tid));
      case Shutdown(order) => ShutdownAccounts(Run(init), order, tid, Live(init, tid), Issued(init, tid));
    }
  }

  /** The registry holds exactly the live buffers, which are exactly the unfinalized ones. */
  lemma {:induction false} RegistryIsLive(steps: seq<Step>, tid: nat)
    requires ValidRun(steps)
    ensures tid in Run(steps).registry <==> Live(steps, tid)
    ensures tid in Run(steps).registry <==> tid in Run(steps).buffers && !Run(steps).buffers[tid].finalized
  {
    RunAccounts(steps, tid);
  }

  /**
    Once a thread has exited or the logger is down, the lines of its id are exactly
    the events issued under it, in order, once each.
   */
  lemma {:induction false} FinishedThreadIsComplete(steps: seq<Step>, tid: nat)
    requires ValidRun(steps) && !Live(steps, tid)
    ensures Own(Run(steps).log, tid) == Issued(steps, tid)
  {
    RunAccounts(steps, tid);
  }

  /**
    While a thread is live the lines of its id are a prefix of its events: at most
    `capacity` behind, none behind when flushing at once.
   */
  lemma {:induction false} LiveThreadLag(steps: seq<Step>, tid: nat)
    requires ValidRun(steps) && Live(steps, tid)
    ensures tid in Run(steps).buffers && Own(Run(steps).log, tid) <= Issued(steps, tid)
    ensures var mode := Run(steps).buffers[tid].mode;
            && (mode == Immediate ==> Own(Run(steps).log, tid) == Issued(steps, tid))
            && (mode.Bounded? ==> |Issued(steps, tid)| <= |Own(Run(steps).log, tid)| + mode.capacity)
  {
    RunAccounts(steps, tid);
  }

  /** After the teardown every buffer is finalized, and no step writes anything. */
  lemma NothingAfterShutdown(steps: seq<Step>, step: Step)
    requires ValidRun(steps + [step]) && Run(steps).down
    ensures Run(steps + [step]).log == Run(steps).log && Run(steps + [step]).down
  {
    assert (steps + [step])[..|steps|] == steps;
    if step.Event? || step.Exit? {
      DownNotLive(steps, step.tid);
      RunAccounts(steps, step.tid);
    }
  }

  lemma {:induction false} DownNotLive(steps: seq<Step>, tid: nat)
    requires ValidRun(steps) && Run(steps).down
    ensures !Live(steps, tid)
  {
    if !steps[|steps| - 1].Shutdown? {
      DownNotLive(steps[..|steps| - 1], tid);
    }
  }
}
