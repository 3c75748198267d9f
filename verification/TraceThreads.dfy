/**
  Module TraceBuffer refines module TraceRun: the objects of a process take the
  steps of the step system.
 */
module TraceThreads {
  import opened TraceQueue
  import opened TraceBuffer
  import Runs = TraceRun

  /** The queue of a registered buffer is the one the state has under its thread id. */
  ghost predicate Holds(b: TraceBuffer, s: Runs.State)
    requires b.Valid()
    reads b, b.footprint
  {
    b.tid in s.registry && b.tid in s.buffers && s.buffers[b.tid] == b.Abs()
  }

  /** The logger and its registered buffers are in a state of the step system. */
  ghost predicate Represents(log: ChromeLogger, s: Runs.State)
    reads log, log.registry, set b, a | b in log.registry && a in b.footprint :: a
  {
    && log.Valid() && log.entries == s.log
    && (forall b <- log.registry :: Holds(b, s))
    && (forall b, c | b in log.registry && c in log.registry && b != c :: b.tid != c.tid)
    && (forall t <- s.registry :: exists b <- log.registry :: b.tid == t)
    && (forall t <- s.buffers :: t in s.registry <==> !s.buffers[t].finalized)
  }

  method Create(log: ChromeLogger, tid: nat, capacity: int, ghost mode: Mode, ghost s: Runs.State)
    returns (b: TraceBuffer)
    requires Represents(log, s) && -1 <= capacity && Runs.Enabled(s, Runs.Create(tid, mode))
    requires mode == if capacity == -1 then Unbounded else if capacity == 0 then Immediate else Bounded(capacity)
    modifies log`registry
    ensures Represents(log, Runs.Next(s, Runs.Create(tid, mode)))
    ensures fresh(b) && b.tid == tid && Owns(log, b, Runs.Next(s, Runs.Create(tid, mode)))
  {
    assert forall c <- log.registry :: Holds(c, s) && c.tid != tid;
    b := StartThread(log, tid, capacity);
    ghost var t := Runs.Next(s, Runs.Create(tid, mode));
    assert Holds(b, t);
  }

  /** The buffer of a running thread, whose id no other registered buffer has. */
  ghost predicate Owns(log: ChromeLogger, b: TraceBuffer, s: Runs.State)
    reads log, log.registry, b, b.footprint
  {
    log.Owns(b) && b.tid in s.buffers && (b in log.registry <==> b.tid in s.registry)
  }

  method Event(log: ChromeLogger, b: TraceBuffer, record: Record, ghost s: Runs.State)
    requires Represents(log, s) && Owns(log, b, s)
    modifies log`entries, b, b.footprint
    ensures Represents(log, Runs.Next(s, Runs.Event(b.tid, record)))
    ensures Owns(log, b, Runs.Next(s, Runs.Event(b.tid, record)))
  {
    assert forall c <- log.registry :: Holds(c, s);
    if b in log.registry {
      LogLive(log, b, record, s);
    } else {
      LogInThread(log, b, record);
      assert forall c <- log.registry :: Holds(c, s);
      assert Tag(b.tid, []) == [];
      SameState(log, s, Runs.Next(s, Runs.Event(b.tid, record)));
    }
  }

  lemma SameState(log: ChromeLogger, s: Runs.State, t: Runs.State)
    requires Represents(log, s) && t.buffers == s.buffers && t.registry == s.registry && t.log == s.log
    ensures Represents(log, t)
  {
    assert forall c <- log.registry :: Holds(c, s);
    assert forall c <- log.registry :: Holds(c, t);
  }

  /** The registered buffers but b are in the state s, and b has taken one more record. */
  ghost predicate AfterPush(log: ChromeLogger, b: TraceBuffer, record: Record, s: Runs.State)
    reads log, log.registry, set b, a | b in log.registry && a in b.footprint :: a
  {
    && log.Valid() && b in log.registry && b.tid in s.registry && b.tid in s.buffers
    && b.Abs() == Pushed(s.buffers[b.tid], record)
    && log.entries == s.log + Tag(b.tid, Emitted(s.buffers[b.tid], record))
    && (forall c <- log.registry :: c != b ==> Holds(c, s) && c.tid != b.tid)
    && (forall c, d | c in log.registry && d in log.registry && c != d :: c.tid != d.tid)
    && (forall t <- s.registry :: exists c <- log.registry :: c.tid == t)
    && (forall t <- s.buffers :: t in s.registry <==> !s.buffers[t].finalized)
  }

  lemma PushedRepresents(log: ChromeLogger, b: TraceBuffer, record: Record, s: Runs.State)
    requires AfterPush(log, b, record, s)
    ensures Represents(log, Runs.Next(s, Runs.Event(b.tid, record)))
  {
    var t := Runs.Next(s, Runs.Event(b.tid, record));
    assert t.buffers == s.buffers[b.tid := b.Abs()] && t.registry == s.registry;
    assert forall c <- log.registry :: Holds(c, t);
  }

  /** A callback on a registered buffer. */
  method LogLive(log: ChromeLogger, b: TraceBuffer, record: Record, ghost s: Runs.State)
    requires Represents(log, s) && b in log.registry && b.logger == log
    modifies log`entries, b, b.footprint
    ensures Represents(log, Runs.Next(s, Runs.Event(b.tid, record))) && log.registry == old(log.registry)
  {
    assert forall c <- log.registry :: Holds(c, s);
    LogInThread(log, b, record);
    assert forall c <- log.registry :: c != b ==> Holds(c, s);
    PushedRepresents(log, b, record, s);
  }

  /** All registered buffers but b are in the state s, and b has just left the registry. */
  ghost predicate WithoutOne(log: ChromeLogger, tid: nat, s: Runs.State)
    reads log, log.registry, set b, a | b in log.registry && a in b.footprint :: a
  {
    && log.Valid()
    && tid in s.registry && tid in s.buffers && log.entries == s.log + Tag(tid, s.buffers[tid].pending)
    && (forall c <- log.registry :: Holds(c, s) && c.tid != tid)
    && (forall b, c | b in log.registry && c in log.registry && b != c :: b.tid != c.tid)
    && (forall t <- s.registry :: t == tid || exists b <- log.registry :: b.tid == t)
    && (forall t <- s.buffers :: t in s.registry <==> !s.buffers[t].finalized)
  }

  lemma ExitedRepresents(log: ChromeLogger, tid: nat, s: Runs.State)
    requires WithoutOne(log, tid, s)
    ensures Represents(log, Runs.Next(s, Runs.Exit(tid)))
  {
    var t := Runs.Next(s, Runs.Exit(tid));
    assert t.buffers == s.buffers[tid := Closed(s.buffers[tid])] && t.registry == s.registry - {tid};
    assert forall c <- log.registry :: Holds(c, t);
  }

  method Exit(log: ChromeLogger, b: TraceBuffer, ghost s: Runs.State)
    requires Represents(log, s) && Owns(log, b, s)
    modifies log, b, b.footprint
    ensures Represents(log, Runs.Next(s, Runs.Exit(b.tid)))
  {
    assert forall c <- log.registry :: Holds(c, s);
    ghost var live := b in log.registry;
    ExitThread(log, b);
    assert forall c <- log.registry :: Holds(c, s);
    if live {
      ExitedRepresents(log, b.tid, s);
    } else {
      assert Tag(b.tid, []) == [];
      SameState(log, s, Runs.Next(s, Runs.Exit(b.tid)));
    }
  }

  function Ids(order: seq<TraceBuffer>): seq<nat> {
    seq(|order|, i requires 0 <= i < |order| => order[i].tid)
  }

  lemma {:induction false} AllOfIsPending(order: seq<TraceBuffer>, pending: seq<seq<Record>>, s: Runs.State)
    requires |order| == |pending|
    requires forall i :: 0 <= i < |order| ==> Runs.At(s.buffers, order[i].tid).pending == pending[i]
    ensures AllOf(order, pending) == Runs.PendingOf(s.buffers, Ids(order))
  {
    if order == [] {
    } else {
      AllOfIsPending(order[1..], pending[1..], s);
      assert Ids(order)[1..] == Ids(order[1..]);
    }
  }

  /** A list of as many distinct elements as the set has lists the whole set. */
  lemma {:induction false} DistinctCover(order: seq<TraceBuffer>, all: set<TraceBuffer>)
    requires |order| == |all| && forall i :: 0 <= i < |order| ==> order[i] in all
    requires forall i, j :: 0 <= i < j < |order| ==> order[i] != order[j]
    ensures forall b <- all :: b in order
  {
    if order == [] {
    } else {
      var first := order[0];
      DistinctCover(order[1..], all - {first});
      forall b | b in all ensures b in order {
        assert b == first || b in order[1..];
      }
    }
  }

  lemma RegistryListed(log: ChromeLogger, order: seq<TraceBuffer>, s: Runs.State)
    requires Represents(log, s) && forall b <- log.registry :: b in order
    ensures forall t <- s.registry :: t in Ids(order)
  {
    forall t | t in s.registry ensures t in Ids(order) {
      var b :| b in log.registry && b.tid == t;
      var i :| 0 <= i < |order| && order[i] == b;
      assert Ids(order)[i] == t;
    }
  }

  /** What the teardown does to the state, given the order in which the registry is iterated. */
  lemma DrainRepresents(log: ChromeLogger, order: seq<TraceBuffer>, s: Runs.State)
    requires log.Valid() && log.registry == {} && log.entries == s.log + Runs.PendingOf(s.buffers, Ids(order))
    requires forall t <- s.registry :: t in Ids(order)
    requires forall t <- s.buffers :: t in s.registry <==> !s.buffers[t].finalized
    ensures Represents(log, Runs.Next(s, Runs.Shutdown(Ids(order))))
  {}

  /** The order in which the registry is iterated, and what its buffers hold back. */
  ghost predicate Order(log: ChromeLogger, order: seq<TraceBuffer>, pending: seq<seq<Record>>)
    requires log.Valid()
    reads log, log.registry, set b, a | b in log.registry && a in b.footprint :: a
  {
    && |order| == |pending| == |log.registry|
    && (forall i :: 0 <= i < |order| ==> order[i] in log.registry && order[i].Abs().pending == pending[i])
    && (forall i, j :: 0 <= i < j < |order| ==> order[i] != order[j])
  }

  lemma OrderIsStep(log: ChromeLogger, order: seq<TraceBuffer>, pending: seq<seq<Record>>, s: Runs.State)
    requires Represents(log, s) && !s.down && Order(log, order, pending)
    ensures Runs.Enabled(s, Runs.Shutdown(Ids(order)))
    ensures AllOf(order, pending) == Runs.PendingOf(s.buffers, Ids(order))
    ensures forall i :: 0 <= i < |order| ==> order[i].tid in s.buffers && order[i].logger == log
  {
    assert forall i :: 0 <= i < |order| ==> Holds(order[i], s);
    AllOfIsPending(order, pending, s);
    DistinctCover(order, log.registry);
    RegistryListed(log, order, s);
  }

  /** The destructor of the logger. */
  method Shutdown(log: ChromeLogger, order: seq<TraceBuffer>, ghost pending: seq<seq<Record>>, ghost s: Runs.State)
    requires Represents(log, s) && !s.down && Order(log, order, pending)
    modifies log, log.registry, set b, a | b in log.registry && a in b.footprint :: a
    ensures Runs.Enabled(s, Runs.Shutdown(Ids(order)))
    ensures Represents(log, Runs.Next(s, Runs.Shutdown(Ids(order))))
    ensures forall i :: 0 <= i < |order| ==> Owns(log, order[i], Runs.Next(s, Runs.Shutdown(Ids(order))))
  {
    OrderIsStep(log, order, pending, s);
    log.Drain(order, pending);
    DrainRepresents(log, order, s);
    forall i | 0 <= i < |order| ensures Owns(log, order[i], Runs.Next(s, Runs.Shutdown(Ids(order)))) {
      DrainedIsOwned(log, order[i], s, Ids(order));
    }
  }

  lemma DrainedIsOwned(log: ChromeLogger, b: TraceBuffer, s: Runs.State, ids: seq<nat>)
    requires log.registry == {} && b.logger == log && b.Valid() && b.finalized && b.tid in s.buffers
    ensures Owns(log, b, Runs.Next(s, Runs.Shutdown(ids)))
  {}

  method Startup() returns (log: ChromeLogger)
    ensures fresh(log) && Represents(log, Runs.Run([]))
  {
    log := new ChromeLogger();
  }

  /** What the file of a run holds of a thread id once its threads have exited, or the logger is torn down. */
  lemma FileIsComplete(log: ChromeLogger, steps: seq<Runs.Step>, tid: nat)
    requires Runs.ValidRun(steps) && Represents(log, Runs.Run(steps)) && !Runs.Live(steps, tid)
    ensures Runs.Own(log.entries, tid) == Runs.Issued(steps, tid)
    ensures forall b <- log.registry :: b.tid != tid
  {
    Runs.FinishedThreadIsComplete(steps, tid);
    Runs.RegistryIsLive(steps, tid);
    forall b | b in log.registry ensures b.tid != tid {
      assert Holds(b, Runs.Run(steps));
    }
  }
}
