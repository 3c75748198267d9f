/**
  TraceBuffer and the logger it drains into (tools/unitrace/src/chromelogger.h):
  slices of slots filled in place, refining the queue of module TraceQueue.
 */
module TraceBuffer {
  import opened TraceQueue

  /** The first n slices of a buffer, one after the other. */
  ghost function Flat(slices: seq<seq<Record>>, n: nat): seq<Record>
    requires n <= |slices|
  {
    if n == 0 then [] else Flat(slices, n - 1) + slices[n - 1]
  }

  /** Flat looks at the first n slices only. */
  lemma {:induction false} FlatOfSame(a: seq<seq<Record>>, b: seq<seq<Record>>, n: nat)
    requires n <= |a| && n <= |b|
    requires forall i :: 0 <= i < n ==> a[i] == b[i]
    ensures Flat(a, n) == Flat(b, n)
  {
    if n == 0 {
    } else {
      FlatOfSame(a, b, n - 1);
    }
  }

  /** Moving on from a full slice to an empty one. */
  lemma SliceAdded(was: seq<seq<Record>>, now: seq<seq<Record>>, current: nat)
    requires current < |was| < |now| && forall i :: 0 <= i < |was| ==> now[i] == was[i]
    ensures Flat(now, current + 1) + [] == Flat(was, current) + was[current]
  {
    FlatOfSame(now, was, current);
  }

  lemma TagConcat(tid: nat, a: seq<Record>, b: seq<Record>)
    ensures Tag(tid, a + b) == Tag(tid, a) + Tag(tid, b)
  {}

  /** The shared trace file and the global set of buffers, both guarded by one lock. */
  class ChromeLogger {
    var entries: seq<Entry>
    var registry: set<TraceBuffer>

    constructor ()
      ensures entries == [] && registry == {}
    {
      entries, registry := [], {};
    }

    method Log(entry: Entry)
      modifies this`entries
      ensures entries == old(entries) + [entry]
    {
      entries := entries + [entry];
    }

    /** Every registered buffer is live, writes to this file, and shares no slice with another one. */
    ghost predicate Valid()
      reads this, registry, set b, a | b in registry && a in b.footprint :: a
    {
      && (forall b <- registry :: b.logger == this && b.Valid() && !b.finalized)
      && (forall b, c | b in registry && c in registry && b != c :: b.footprint !! c.footprint)
    }

    /** Neither the other registered buffers nor those finalized before are touched. */
    method FinalizeAlone(b: TraceBuffer, ghost done: set<TraceBuffer>)
      requires Valid() && b in registry && forall d <- done :: Done(d)
      modifies this`entries, b, b.footprint
      ensures b.Valid() && b.footprint == old(b.footprint) && b.Abs() == Closed(old(b.Abs()))
      ensures entries == old(entries) + Tag(b.tid, old(b.Abs()).pending)
      ensures registry == old(registry)
      ensures forall c <- registry - {b} ::
                c.Valid() && !c.finalized && c.Abs() == old(c.Abs()) && c.footprint == old(c.footprint)
      ensures forall d <- done :: Done(d)
    {
      assert forall c <- registry - {b} :: c.footprint !! b.footprint;
      b.Finalize();
    }

    /** One round of the destructor's loop. */
    method FinalizeOne(b: TraceBuffer, ghost done: set<TraceBuffer>)
      requires Valid() && b in registry && forall d <- done :: Done(d)
      modifies this, b, b.footprint
      ensures Valid() && registry == old(registry) - {b}
      ensures b.Valid() && b.footprint == old(b.footprint) && b.Abs() == Closed(old(b.Abs()))
      ensures entries == old(entries) + Tag(b.tid, old(b.Abs()).pending)
      ensures forall c <- registry :: c.Abs() == old(c.Abs()) && c.footprint == old(c.footprint)
      ensures forall d <- done + {b} :: Done(d)
    {
      FinalizeAlone(b, done);
      Unregister(b, done);
    }

    method Unregister(b: TraceBuffer, ghost done: set<TraceBuffer>)
      requires b in registry && b.Valid() && b.finalized && forall d <- done :: Done(d)
      requires forall c <- registry - {b} :: c.logger == this && c.Valid() && !c.finalized
      requires forall c, d | c in registry && d in registry && c != d :: c.footprint !! d.footprint
      modifies this`registry
      ensures Valid() && registry == old(registry) - {b} && forall d <- done + {b} :: Done(d)
    {
      registry := registry - {b};
    }

    /**
      The destructor's loop over the registry: `order` is the order in which the
      set is iterated, `pending` what each buffer holds back.
     */
    method Drain(order: seq<TraceBuffer>, ghost pending: seq<seq<Record>>)
      requires Valid()
      requires |order| == |pending| == |registry|
      requires forall i :: 0 <= i < |order| ==> order[i] in registry && order[i].Abs().pending == pending[i]
      requires forall i, j :: 0 <= i < j < |order| ==> order[i] != order[j]
      modifies this, registry, set b, a | b in registry && a in b.footprint :: a
      ensures registry == {}
      ensures forall i :: 0 <= i < |order| ==> order[i].Valid() && order[i].finalized
      ensures entries == old(entries) + AllOf(order, pending)
    {
      ghost var done: set<TraceBuffer> := {};
      ghost var all := old(entries) + AllOf(order, pending);
      var i := 0;
      while i < |order|
        invariant 0 <= i <= |order| && Valid() && |registry| == |order| - i
        invariant registry <= old(registry) && forall b <- registry :: b.footprint == old(b.footprint)
        invariant forall k :: i <= k < |order| ==> order[k] in registry && order[k].Abs().pending == pending[k]
        invariant forall k :: 0 <= k < i ==> order[k] in done
        invariant forall d <- done :: Done(d)
        invariant entries + AllOf(order[i..], pending[i..]) == all
      {
        AllOfFirst(entries, order[i..], pending[i..]);
        assert order[i..][1..] == order[i + 1..] && pending[i..][1..] == pending[i + 1..];
        FinalizeOne(order[i], done);
        done := done + {order[i]};
        i := i + 1;
      }
    }

    /** The buffer is finalized and has nothing in common with the registered ones. */
    ghost predicate Done(b: TraceBuffer)
      reads this, registry, b, b.footprint
    {
      b.Valid() && b.finalized && b !in registry && forall c <- registry :: c.footprint !! b.footprint
    }

    /** The buffer of a running thread: registered, or already finalized by the teardown. */
    ghost predicate Owns(b: TraceBuffer)
      reads this, registry, b, b.footprint
    {
      b.logger == this && (b in registry || Done(b))
    }
  }

  /** What a list of buffers holds back, one buffer after the other. */
  ghost function AllOf(order: seq<TraceBuffer>, pending: seq<seq<Record>>): seq<Entry>
    requires |order| == |pending|
  {
    if order == [] then []
    else Tag(order[0].tid, pending[0]) + AllOf(order[1..], pending[1..])
  }

  lemma AllOfFirst(before: seq<Entry>, order: seq<TraceBuffer>, pending: seq<seq<Record>>)
    requires 0 < |order| == |pending|
    ensures before + Tag(order[0].tid, pending[0]) + AllOf(order[1..], pending[1..]) == before + AllOf(order, pending)
  {}

  class TraceBuffer {
    const logger: ChromeLogger
    const tid: nat
    const bufferCapacity: int
    const sliceCapacity: nat
    const flushImmediately: bool
    var slices: seq<array<Record>>
    ghost var footprint: set<array<Record>>
    var current: nat
    var next: nat
    var flushed: bool
    var finalized: bool

    ghost predicate Valid()
      reads this, footprint
    {
      && (forall i :: 0 <= i < |slices| ==> slices[i] in footprint)
      && 0 < sliceCapacity && current < |slices| && next <= sliceCapacity
      && (forall i :: 0 <= i < |slices| ==> slices[i].Length == sliceCapacity)
      && (forall i, j :: 0 <= i < j < |slices| ==> slices[i] != slices[j])
      && (bufferCapacity != -1 ==> |slices| == 1 && bufferCapacity == sliceCapacity)
      && (flushImmediately ==> bufferCapacity == 1 && next == 0)
      && (flushed && !finalized ==> current == 0 && next == 0)
    }

    ghost function Contents(): seq<seq<Record>>
      reads this, slices
    {
      seq(|slices|, i requires 0 <= i < |slices| reads this, slices => slices[i][..])
    }

    ghost function Mode(): Mode {
      if bufferCapacity == -1 then Unbounded
      else if flushImmediately then Immediate
      else Bounded(sliceCapacity)
    }

    /** The full slices below the current one, then the first `next` slots of the current slice. */
    ghost function Pending(): seq<Record>
      requires Valid()
      reads this, footprint
    {
      Flat(Contents(), current) + slices[current][..next]
    }

    ghost function Abs(): Queue
      requires Valid()
      reads this, footprint
    {
      Queue(Mode(), if finalized then [] else Pending(), finalized)
    }

    /** `capacity` is the parsed event buffer size, -1 when there is no limit. */
    constructor (logger: ChromeLogger, tid: nat, capacity: int)
      requires -1 <= capacity
      modifies logger`registry
      ensures Valid() && this.logger == logger && this.tid == tid
      ensures fresh(footprint)
      ensures var mode := if capacity == -1 then Unbounded else if capacity == 0 then Immediate else Bounded(capacity);
              Abs() == Queue(mode, [], false)
      ensures logger.registry == old(logger.registry) + {this}
    {
      this.logger, this.tid := logger, tid;
      var slots := if capacity == -1 then 0x10_0000 else if capacity == 0 then 1 else capacity;
      bufferCapacity := if capacity == 0 then 1 else capacity;
      sliceCapacity := slots;
      flushImmediately := capacity == 0;
      var first := new Record[slots](_ => Record(NoName, 0, 0, 0));
      slices, footprint := [first], {first};
      current, next := 0, 0;
      flushed, finalized := false, false;
      new;
      logger.registry := logger.registry + {this};
    }

    /** Writes one slot; its name is freed by the writing. */
    method FlushHostEvent(i: nat, j: nat)
      requires Valid() && i < |slices| && j < sliceCapacity
      modifies slices[i], logger`entries
      ensures logger.entries == old(logger.entries) + [Entry(tid, old(slices[i][j]))]
      ensures slices[i][..] == old(slices[i][..][j := slices[i][j].(name := NoName)])
    {
      logger.Log(Entry(tid, slices[i][j]));
      slices[i][j] := slices[i][j].(name := NoName);
    }

    /** The inner loops of the three flushing methods: the first n slots of slice i. */
    method FlushSlice(i: nat, n: nat)
      requires Valid() && i < |slices| && n <= sliceCapacity
      modifies slices[i], logger`entries
      ensures logger.entries == old(logger.entries) + Tag(tid, old(slices[i][..n]))
    {
      for j := 0 to n
        invariant logger.entries == old(logger.entries) + Tag(tid, old(slices[i][..n])[..j])
        invariant forall k :: j <= k < sliceCapacity ==> slices[i][k] == old(slices[i][k])
      {
        FlushHostEvent(i, j);
      }
    }

    /** The full slices below the current one. */
    method FlushFull()
      requires Valid()
      modifies footprint, logger`entries
      ensures logger.entries == old(logger.entries) + Tag(tid, old(Flat(Contents(), current)))
      ensures slices[current][..] == old(slices[current][..])
    {
      ghost var was := Contents();
      for i := 0 to current
        invariant logger.entries == old(logger.entries) + Tag(tid, Flat(was, i))
        invariant forall k :: i <= k < |slices| ==> slices[k][..] == was[k]
      {
        FlushSlice(i, sliceCapacity);
        assert slices[i] in slices;
        TagConcat(tid, Flat(was, i), was[i]);
      }
    }

    /** Everything pending, in slot order. */
    method FlushPending()
      requires Valid()
      modifies footprint, logger`entries
      ensures logger.entries == old(logger.entries) + Tag(tid, old(Pending()))
    {
      TagConcat(tid, Flat(Contents(), current), slices[current][..next]);
      FlushFull();
      FlushSlice(current, next);
    }

    method FlushHostBuffer()
      requires Valid() && !finalized
      modifies this`current, this`next, this`flushed, footprint, logger`entries
      ensures Valid()
      ensures Abs() == old(Abs()).(pending := []) && current == 0 && next == 0
      ensures logger.entries == old(logger.entries) + Tag(tid, old(Pending()))
    {
      if flushed {
        return;
      }
      FlushPending();
      current, next, flushed := 0, 0, true;
    }

    /** A full unbounded buffer gets a new slice and moves on to the slice after the current one. */
    method AddSlice()
      requires Valid() && bufferCapacity == -1 && next == sliceCapacity
      modifies this`slices, this`footprint, this`current, this`next
      ensures Valid() && fresh(footprint - old(footprint))
      ensures next == 0 && Pending() == old(Pending())
    {
      ghost var was := Contents();
      var more := new Record[sliceCapacity](_ => Record(NoName, 0, 0, 0));
      slices, footprint := slices + [more], footprint + {more};
      current := current + 1;
      next := 0;
      assert slices[current - 1][..] == slices[current - 1][..sliceCapacity] && slices[current][..0] == [];
      SliceAdded(was, Contents(), current - 1);
    }

    /** The slot the next event goes to; always an existing slot, whatever was flushed and reused before. */
    method GetHostEvent() returns (slice: nat, slot: nat)
      requires Valid() && !finalized
      modifies this`slices, this`footprint, this`current, this`next, this`flushed, footprint, logger`entries
      ensures Valid() && fresh(footprint - old(footprint))
      ensures slice == current < |slices| && slot == next < slices[slice].Length
      ensures var full := old(Mode().Bounded? && |Pending()| == sliceCapacity);
              && Pending() == (if full then [] else old(Pending()))
              && logger.entries == old(logger.entries) + Tag(tid, if full then old(Pending()) else [])
    {
      if next == sliceCapacity {
        if bufferCapacity == -1 {
          AddSlice();
        } else {
          FlushHostBuffer();
        }
      }
      return current, next;
    }

    /** The callback's assignments to the fields of the slot it was given. */
    method FillSlot(slice: nat, slot: nat, record: Record)
      requires Valid() && slice == current && slot == next < sliceCapacity
      modifies slices[slice]
      ensures Valid() && Pending() == old(Pending()) && slices[slice][slot] == record
    {
      ghost var was := Contents();
      slices[slice][slot] := record;
      FlatOfSame(Contents(), was, current);
    }

    method BufferHostEvent()
      requires Valid() && !finalized && next < sliceCapacity
      modifies this`next, this`flushed, footprint, logger`entries
      ensures Valid()
      ensures var record := old(slices[current][next]);
              if flushImmediately
              then Pending() == [] && logger.entries == old(logger.entries) + [Entry(tid, record)]
              else Pending() == old(Pending()) + [record] && logger.entries == old(logger.entries)
    {
      if flushImmediately {
        FlushHostEvent(current, next);
        flushed := true;
      } else {
        ghost var was := Contents();
        next := next + 1;
        flushed := false;
        FlatOfSame(Contents(), was, current);
      }
    }

    /** A logging callback on this thread: nothing after finalization, else one record accepted. */
    method LogEvent(record: Record)
      requires Valid()
      modifies this`slices, this`footprint, this`current, this`next, this`flushed, footprint, logger`entries
      ensures Valid() && fresh(footprint - old(footprint))
      ensures Abs() == Pushed(old(Abs()), record)
      ensures logger.entries == old(logger.entries) + Tag(tid, Emitted(old(Abs()), record))
    {
      if !finalized {
        var slice, slot := GetHostEvent();
        FillSlot(slice, slot, record);
        BufferHostEvent();
      }
    }

    method Finalize()
      requires Valid()
      modifies this`flushed, this`finalized, footprint, logger`entries
      ensures Valid()
      ensures Abs() == Closed(old(Abs()))
      ensures logger.entries == old(logger.entries) + Tag(tid, old(Abs()).pending)
    {
      ghost var was := Contents();
      if !finalized {
        finalized := true;
        if !flushed {
          FlatOfSame(Contents(), was, current);
          FlushPending();
          flushed := true;
        }
      }
    }

    /** The destructor, run when the thread exits. */
    method Destroy()
      requires Valid()
      modifies this`flushed, this`finalized, footprint, logger`entries, logger`registry
      ensures Valid()
      ensures Abs() == Closed(old(Abs()))
      ensures logger.entries == old(logger.entries) + Tag(tid, old(Abs()).pending)
      ensures logger.registry == if old(finalized) then old(logger.registry) else old(logger.registry) - {this}
    {
      ghost var was := Contents();
      if !finalized {
        finalized := true;
        if !flushed {
          FlatOfSame(Contents(), was, current);
          FlushPending();
          flushed := true;
        }
        logger.registry := logger.registry - {this};
      }
    }
  }

  // ------------------------------------------------------------------
  // Threads: each works on its own buffer only
  // ------------------------------------------------------------------

  /** A thread's first event creates its buffer. */
  method StartThread(log: ChromeLogger, tid: nat, capacity: int) returns (b: TraceBuffer)
    requires log.Valid() && -1 <= capacity
    modifies log`registry
    ensures log.Valid() && fresh(b) && log.registry == old(log.registry) + {b} && b.tid == tid
    ensures var mode := if capacity == -1 then Unbounded else if capacity == 0 then Immediate else Bounded(capacity);
            b.Abs() == Queue(mode, [], false)
    ensures forall c <- old(log.registry) :: c.Abs() == old(c.Abs())
  {
    b := new TraceBuffer(log, tid, capacity);
  }

  /** A callback; a thread that outlives the teardown may still call. */
  method LogInThread(log: ChromeLogger, b: TraceBuffer, record: Record)
    requires log.Valid() && log.Owns(b)
    modifies log`entries, b, b.footprint
    ensures log.Valid() && log.Owns(b) && log.registry == old(log.registry)
    ensures b.Valid() && b.Abs() == Pushed(old(b.Abs()), record)
    ensures log.entries == old(log.entries) + Tag(b.tid, Emitted(old(b.Abs()), record))
    ensures forall c <- log.registry :: c != b ==> c.Abs() == old(c.Abs())
  {
    b.LogEvent(record);
  }

  /** The destructor of a thread's buffer; it may run after the teardown. */
  method ExitThread(log: ChromeLogger, b: TraceBuffer)
    requires log.Valid() && log.Owns(b)
    modifies log, b, b.footprint
    ensures log.Valid() && log.registry == old(log.registry) - {b}
    ensures b.Valid() && b.Abs() == Closed(old(b.Abs()))
    ensures log.entries == old(log.entries) + Tag(b.tid, old(b.Abs()).pending)
    ensures forall c <- log.registry :: c.Abs() == old(c.Abs())
  {
    b.Destroy();
  }
}
