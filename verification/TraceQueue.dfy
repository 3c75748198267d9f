/**
  What a per-thread trace buffer of tools/unitrace/src/chromelogger.h amounts
  to: a queue of records that have been accepted but not yet written.
 */
module TraceQueue {

  /** A host event record; `name` is None once the record has been written and its name freed. */
  datatype Record = Record(name: Name, api: int, start: int, finish: int)

  datatype Name = NoName | Named(text: string)

  /** A line of the trace file: who wrote it, and the record. */
  datatype Entry = Entry(tid: nat, record: Record)

  /** How a buffer was configured: no limit, a number of slots, or one slot written at once. */
  datatype Mode = Unbounded | Bounded(capacity: nat) | Immediate

  datatype Queue = Queue(mode: Mode, pending: seq<Record>, finalized: bool)

  function Tag(tid: nat, records: seq<Record>): seq<Entry> {
    seq(|records|, i requires 0 <= i < |records| => Entry(tid, records[i]))
  }

  /** The records a logging callback writes to the file. */
  function Emitted(q: Queue, r: Record): seq<Record> {
    if q.finalized then []
    else match q.mode
         case Unbounded => []
         case Bounded(capacity) => if |q.pending| == capacity then q.pending else []
         case Immediate => [r]
  }

  /** The queue after a logging callback. */
  function Pushed(q: Queue, r: Record): Queue {
    if q.finalized || q.mode == Immediate then q
    else if q.mode.Bounded? && |q.pending| == q.mode.capacity then q.(pending := [r])
    else q.(pending := q.pending + [r])
  }

  /** The queue after the buffer has been finalized. */
  function Closed(q: Queue): Queue {
    q.(pending := [], finalized := true)
  }

  predicate Consistent(q: Queue) {
    && (q.mode == Immediate || q.finalized ==> q.pending == [])
    && (q.mode.Bounded? ==> 0 < q.mode.capacity && |q.pending| <= q.mode.capacity)
  }

  /** A callback loses and reorders nothing: written ++ pending grows by exactly the record. */
  lemma PushConserves(q: Queue, r: Record)
    requires Consistent(q)
    ensures Consistent(Pushed(q, r))
    ensures Emitted(q, r) + Pushed(q, r).pending == q.pending + if q.finalized then [] else [r]
  {}

  function PushAll(q: Queue, records: seq<Record>): Queue {
    if records == [] then q else Pushed(PushAll(q, records[..|records| - 1]), records[|records| - 1])
  }

  /**
    What a new queue holds back of the records it was given: all of them without a
    limit, none when it writes at once, and otherwise what has come since a number of
    full buffers was written.
   */
  lemma {:induction false} PushAllHolds(mode: Mode, records: seq<Record>) returns (full: nat)
    requires mode.Bounded? ==> 0 < mode.capacity
    ensures var q := PushAll(Queue(mode, [], false), records);
            && q.mode == mode && !q.finalized
            && |q.pending| <= |records| && q.pending == records[|records| - |q.pending|..]
            && match mode
               case Unbounded => q.pending == records
               case Immediate => q.pending == []
               case Bounded(capacity) =>
                 && |records| == full * capacity + |q.pending| && |q.pending| <= capacity
                 && (records != [] ==> q.pending != [])
  {
    full := 0;
    if records == [] {
    } else {
      var init, last := records[..|records| - 1], records[|records| - 1];
      full := PushAllHolds(mode, init);
      var q := PushAll(Queue(mode, [], false), init);
      assert records == init + [last];
      if mode.Bounded? && |q.pending| == mode.capacity {
        OneMore(full, mode.capacity);
        full := full + 1;
      }
    }
  }

  lemma OneMore(n: nat, capacity: nat)
    ensures (n + 1) * capacity == n * capacity + capacity
  {}
}
