/**
  The metadata list of a task: built node by node by __itt_metadata_add and
  __itt_metadata_str_add (tools/unitrace/src/itt/itt_collector.h), then printed
  and freed when the task's record is written (tools/unitrace/src/chromelogger.h).
 */
module IttMetadata {
  import opened Prelude
  import opened IttTasks

  const WORD_BYTES: nat := 8

  /** Element sizes by kind: string, u64, s64, u32, s32, u16, s16, float, double. */
  function SizeOf(kind: nat): nat {
    if kind == 1 || kind == 2 || kind == 8 then 8
    else if kind == 3 || kind == 4 || kind == 7 then 4
    else if kind == 5 || kind == 6 then 2
    else 1
  }

  /** An IttArgs structure: its fields, its inline storage and, when isIndirect, a separate block. */
  class MetadataNode {
    var key: string
    var kind: nat
    var count: nat
    var isIndirect: bool
    var next: MetadataNode?
    const data: array<bv8>
    var block: array?<bv8>
    ghost var arg: Arg

    /** An empty structure with room for `capacity` payload bytes. */
    constructor (capacity: nat)
      ensures Valid() && count == 0 && !isIndirect && next == null
      ensures fresh(data) && data.Length == capacity
    {
      key, kind, count, isIndirect := "", 0, 0, false;
      next, block := null, null;
      data := new bv8[capacity];
      arg := Arg("", 0, 0, []);
    }

    /** The payload fits the storage it is kept in. */
    ghost predicate Fits()
      reads this
    {
      if isIndirect then block != null && |arg.payload| <= block.Length else |arg.payload| <= data.Length
    }

    /** The fields and the stored bytes are those of `arg`. */
    ghost predicate Valid()
      reads this, data, block
    {
      && key == arg.key && kind == arg.kind && count == arg.count
      && |arg.payload| == count * SizeOf(kind)
      && Fits()
      && arg.payload == (if isIndirect then block[..|arg.payload|] else data[..|arg.payload|])
    }

    /** Fills an empty structure, in a separate block when asked to. */
    method Fill(key: string, kind: nat, count: nat, bytes: seq<bv8>, indirect: bool)
      requires |bytes| == count * SizeOf(kind)
      requires !indirect ==> |bytes| <= data.Length
      modifies this, data
      ensures Valid() && arg == Arg(key, kind, count, bytes)
      ensures isIndirect == indirect && next == old(next)
      ensures indirect ==> fresh(block)
    {
      isIndirect := indirect;
      if indirect {
        block := new bv8[|bytes|];
        CopyBytes(block, bytes);
      } else {
        CopyBytes(data, bytes);
      }
      this.key, this.count, this.kind := key, count, kind;
      arg := Arg(key, kind, count, bytes);
    }

    /** What convertDataToString reads: `count` elements from wherever the payload is. */
    method ReadBack() returns (bytes: seq<bv8>)
      requires Valid()
      ensures bytes == arg.payload
    {
      if count == 0 {
        return [];
      }
      var n := count * SizeOf(kind);
      if isIndirect {
        bytes := block[..n];
      } else {
        bytes := data[..n];
      }
    }
  }

  method CopyBytes(dest: array<bv8>, src: seq<bv8>)
    requires |src| <= dest.Length
    modifies dest
    ensures dest[..|src|] == src
  {
    for i := 0 to |src|
      invariant dest[..i] == src[..i]
    {
      dest[i] := src[i];
    }
  }

  /** The head sits in the task descriptor; `rest` lists the heap nodes behind it, in order. */
  class MetadataList {
    const head: MetadataNode
    ghost var rest: seq<MetadataNode>

    constructor ()
      ensures Valid() && Args() == [] && fresh(head) && fresh(head.data)
    {
      head := new MetadataNode(WORD_BYTES);
      rest := [];
    }

    ghost predicate Valid()
      reads this, head, rest, head.data, head.block, set n | n in rest :: n.data, set n | n in rest :: n.block
    {
      && head !in rest && NoRepeats(rest) && Chain(head.next, rest)
      && head.data.Length == WORD_BYTES
      && head.Valid() && (head.count == 0 ==> rest == [])
      && (forall n <- rest :: HeapNode(n))
    }

    /** A node behind the head keeps its payload inline. */
    static ghost predicate HeapNode(n: MetadataNode)
      reads n, n.data, n.block
    {
      n.Valid() && !n.isIndirect && n.count > 0
    }

    /** Following `next` from `first` visits exactly `nodes`, in order. */
    static ghost predicate Chain(first: MetadataNode?, nodes: seq<MetadataNode>)
      reads nodes
    {
      if nodes == [] then first == null else first == nodes[0] && Chain(nodes[0].next, nodes[1..])
    }

    static ghost predicate NoRepeats(nodes: seq<MetadataNode>) {
      nodes == [] || (nodes[0] !in nodes[1..] && NoRepeats(nodes[1..]))
    }

    static ghost function ArgsOf(nodes: seq<MetadataNode>): seq<Arg>
      reads nodes
    {
      if nodes == [] then [] else [nodes[0].arg] + ArgsOf(nodes[1..])
    }

    ghost function Args(): seq<Arg>
      reads this, head, rest
    {
      if head.count == 0 then [] else [head.arg] + ArgsOf(rest)
    }

    /** Links a filled node in right behind the head. */
    method Link(node: MetadataNode)
      requires Valid() && 0 < head.count
      requires node != head && node !in rest && HeapNode(node)
      modifies this`rest, head`next, node`next
      ensures Valid() && rest == [node] + old(rest)
      ensures Args() == Insert(old(Args()), node.arg)
    {
      ghost var before := rest;
      node.next := head.next;
      head.next := node;
      rest := [node] + rest;
      assert rest[1..] == before;
    }

    /** A further argument: a new node right behind the head. */
    method AddBehindHead(key: string, kind: nat, count: nat, bytes: seq<bv8>)
      requires Valid() && 0 < head.count && 0 < count && |bytes| == count * SizeOf(kind)
      modifies this, head
      ensures Valid()
      ensures Args() == Insert(old(Args()), Arg(key, kind, count, bytes))
    {
      var node := new MetadataNode(if |bytes| > WORD_BYTES then |bytes| else WORD_BYTES);
      node.Fill(key, kind, count, bytes, false);
      Link(node);
    }

    /** Both metadata calls after their checks; kind 0 is a string of `count` characters. */
    method Add(key: string, kind: nat, count: nat, data: seq<bv8>)
      requires Valid() && 0 < count && count * SizeOf(kind) <= |data|
      modifies this, head, head.data
      ensures Valid()
      ensures Args() == Insert(old(Args()), Arg(key, kind, count, data[..count * SizeOf(kind)]))
    {
      var bytes := data[..count * SizeOf(kind)];
      if head.count != 0 {
        AddBehindHead(key, kind, count, bytes);
      } else {
        head.Fill(key, kind, count, bytes, |bytes| > WORD_BYTES);
      }
    }

    /** __itt_metadata_add on an open task: kind 8 (double) has a size and a printer but is turned away here. */
    method MetadataAdd(key: string, kind: nat, count: nat, data: Option<seq<bv8>>)
      requires Valid() && (data.Some? ==> count * SizeOf(kind) <= |data.value|)
      modifies this, head, head.data
      ensures Valid()
      ensures Args() == if 0 < count && data.Some? && 0 < kind < 8
                        then Insert(old(Args()), Arg(key, kind, count, data.value[..count * SizeOf(kind)]))
                        else old(Args())
    {
      if count != 0 && data.Some? && kind > 0 && kind < 8 {
        Add(key, kind, count, data.value);
      }
    }

    /** __itt_metadata_str_add on an open task. */
    method MetadataStrAdd(key: string, data: Option<seq<bv8>>, length: nat)
      requires Valid() && (data.Some? ==> length <= |data.value|)
      modifies this, head, head.data
      ensures Valid()
      ensures Args() == if 0 < length && data.Some?
                        then Insert(old(Args()), Arg(key, 0, length, data.value[..length]))
                        else old(Args())
    {
      if length != 0 && data.Some? {
        Add(key, 0, length, data.value);
      }
    }

    /** The heap blocks the list owns: the head's separate block, then the nodes behind the head. */
    ghost function Blocks(): seq<object>
      requires Valid()
      reads this, head, rest, head.data, head.block, set n | n in rest :: n.data, set n | n in rest :: n.block
    {
      (if head.isIndirect then [head.block as object] else []) + AsObjects(rest)
    }

    static ghost function AsObjects(nodes: seq<MetadataNode>): seq<object> {
      seq(|nodes|, i requires 0 <= i < |nodes| => nodes[i])
    }

    static lemma {:induction false} NoRepeatsDistinct(nodes: seq<MetadataNode>)
      requires NoRepeats(nodes)
      ensures forall i, j :: 0 <= i < j < |nodes| ==> nodes[i] != nodes[j]
    {
      if nodes != [] {
        NoRepeatsDistinct(nodes[1..]);
      }
    }

    /** One argument of the printed record. */
    static method PrintArg(n: MetadataNode) returns (arg: Arg)
      requires n.Valid()
      ensures arg == n.arg
    {
      var bytes := n.ReadBack();
      return Arg(n.key, n.kind, n.count, bytes);
    }

    /** The loop over the nodes behind the head: each is printed, then freed, and never looked at again. */
    static method PrintAndFreeRest(first: MetadataNode?, ghost nodes: seq<MetadataNode>)
      returns (printed: seq<Arg>, ghost freed: seq<MetadataNode>)
      requires Chain(first, nodes) && NoRepeats(nodes) && forall n <- nodes :: HeapNode(n)
      ensures printed == ArgsOf(nodes) && freed == nodes
    {
      var args := first;
      printed, freed := [], [];
      ghost var todo := nodes;
      while args != null
        invariant Chain(args, todo) && NoRepeats(todo) && forall n <- todo :: HeapNode(n) && n !in freed
        invariant freed + todo == nodes
        invariant printed + ArgsOf(todo) == ArgsOf(nodes)
        decreases |todo|
      {
        var toFree: MetadataNode := args;
        assert toFree == todo[0] && toFree !in freed;
        var arg := PrintArg(toFree);
        printed := printed + [arg];
        args := toFree.next;
        assert todo == [toFree] + todo[1..];
        freed, todo := freed + [toFree], todo[1..];
      }
    }

    /** The argument walk of StringifyHostEvent: prints every argument and frees every block of the list, once. */
    method PrintAndFree() returns (printed: seq<Arg>, ghost freed: seq<object>)
      requires Valid() && 0 < head.count
      modifies head`count
      ensures printed == old(Args())
      ensures freed == old(Blocks())
      ensures forall i, j :: 0 <= i < j < |freed| ==> freed[i] != freed[j]
    {
      var first := PrintArg(head);
      ghost var own: seq<object> := if head.isIndirect then [head.block as object] else [];
      var others;
      ghost var nodes;
      others, nodes := PrintAndFreeRest(head.next, rest);
      NoRepeatsDistinct(rest);
      printed, freed := [first] + others, own + AsObjects(nodes);
      head.count := 0;
    }
  }

  /** The sizes of the element kinds, in bytes: strings, then 64, 32 and 16 bits of either sign, float and double. */
  lemma ElementSizes(kind: nat)
    requires kind <= 8
    ensures SizeOf(kind) == [1, 8, 8, 4, 4, 2, 2, 4, 8][kind]
  {}
}
