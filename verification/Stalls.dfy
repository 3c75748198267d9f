/**
  The backward search of AnalyzeStalls
  (tools/unitrace/scripts/metrics/analyzeperfmetrics.py): from a stalled
  instruction through the predecessor blocks to the instructions that set the
  scoreboard tokens it waits for.
 */
module Stalls {
  import opened Prelude
  import opened Cfg

  // ------------------------------------------------------------------
  // Tokens
  // ------------------------------------------------------------------

  function Base(token: string): string {
    if token == "" || token[0] == '.' then "" else [token[0]] + Base(token[1..])
  }

  predicate Dotted(token: string) {
    '.' in token
  }

  /** Token `waited` of the stalled instruction is set by token `found` of an earlier instruction. */
  predicate Hits(waited: string, found: string, isSync: bool) {
    if Dotted(waited) then found == Base(waited)
    else waited == Base(found) && waited == found && !isSync
  }

  lemma {:induction false} BaseHasNoDot(token: string)
    ensures !Dotted(Base(token)) && (!Dotted(token) ==> Base(token) == token)
  {
    if token != "" && token[0] != '.' {
      assert token == [token[0]] + token[1..];
      BaseHasNoDot(token[1..]);
    }
  }

  /** A hit is always on the same scoreboard identifier, by an instruction that sets it and does not wait for it. */
  lemma {:induction false} HitsSameScoreboard(waited: string, found: string, isSync: bool)
    requires Hits(waited, found, isSync)
    ensures Base(waited) == found == Base(found) && !Dotted(found)
  {
    BaseHasNoDot(waited);
    BaseHasNoDot(found);
  }

  /** A blamed instruction, with the token it is blamed for. */
  datatype Blame = Blame(line: int, token: string)

  /** The tokens still waited for and the blames so far, or the ValueError of list.remove. */
  datatype Scan = Scan(waiting: seq<string>, blamed: seq<Blame>) | ValueError

  function RemoveFirst(list: seq<string>, x: string): seq<string>
    requires x in list
  {
    if list[0] == x then list[1..] else [list[0]] + RemoveFirst(list[1..], x)
  }

  lemma {:induction false} RemoveFirstRemovesOne(list: seq<string>, x: string)
    requires x in list
    ensures multiset(RemoveFirst(list, x)) + multiset{x} == multiset(list)
    ensures |RemoveFirst(list, x)| == |list| - 1
  {
    assert list == [list[0]] + list[1..];
    if list[0] != x {
      RemoveFirstRemovesOne(list[1..], x);
    }
  }

  // ------------------------------------------------------------------
  // One instruction: Python's loops over a list that shrinks meanwhile
  // ------------------------------------------------------------------

  /** for sbid2 in sbids_stall, for one waited token. */
  function MatchToken(s: Scan, waited: string, found: seq<string>, isSync: bool, line: int): Scan
    requires s.Scan?
    decreases |found|
  {
    if found == [] then s
    else if !Hits(waited, found[0], isSync) then MatchToken(s, waited, found[1..], isSync, line)
    else if waited !in s.waiting then ValueError
    else MatchToken(Take(s, waited, line), waited, found[1..], isSync, line)
  }

  /** The token is removed from the waiting list and the line blamed for it. */
  function Take(s: Scan, waited: string, line: int): Scan
    requires s.Scan? && waited in s.waiting
  {
    Scan(RemoveFirst(s.waiting, waited), s.blamed + [Blame(line, waited)])
  }

  lemma {:induction false} MatchTokenShrinks(s: Scan, waited: string, found: seq<string>, isSync: bool, line: int)
    requires s.Scan?
    ensures var r := MatchToken(s, waited, found, isSync, line); r.Scan? ==> |r.waiting| <= |s.waiting|
    decreases |found|
  {
    if found == [] {
    } else {
      if !Hits(waited, found[0], isSync) {
        MatchTokenShrinks(s, waited, found[1..], isSync, line);
      } else if waited in s.waiting {
        RemoveFirstRemovesOne(s.waiting, waited);
        MatchTokenShrinks(Take(s, waited, line), waited, found[1..], isSync, line);
      }
    }
  }

  /** for sbid in sbids_stalled: the iterator's position advances even when the list has shrunk. */
  function MatchFrom(s: Scan, at: nat, found: seq<string>, isSync: bool, line: int): Scan
    requires s.Scan?
    decreases |s.waiting| - at
  {
    if at >= |s.waiting| then s
    else
      MatchTokenShrinks(s, s.waiting[at], found, isSync, line);
      var r := MatchToken(s, s.waiting[at], found, isSync, line);
      if r == ValueError then r else MatchFrom(r, at + 1, found, isSync, line)
  }

  /** The instructions of lines[start..n], last one first, until nothing is waited for. */
  function ScanBack(lines: seq<Line>, start: nat, n: nat, s: Scan): Scan
    requires start <= n <= |lines| && s.Scan?
    decreases n
  {
    if start == n || s.waiting == [] then s
    else
      var line := lines[n - 1];
      var r := if line.addressed then MatchFrom(s, 0, line.tokens, line.isSync, n - 1) else s;
      if r == ValueError then r else ScanBack(lines, start, n - 1, r)
  }

  method MatchInstruction(s: Scan, line: Line, at: int) returns (r: Scan)
    requires s.Scan?
    ensures r == MatchFrom(s, 0, line.tokens, line.isSync, at)
  {
    var waiting, blamed := s.waiting, s.blamed;
    var i := 0;
    while i < |waiting|
      invariant MatchFrom(Scan(waiting, blamed), i, line.tokens, line.isSync, at)
             == MatchFrom(s, 0, line.tokens, line.isSync, at)
      decreases |waiting| - i
    {
      var sbid := waiting[i];
      ghost var before := Scan(waiting, blamed);
      MatchTokenShrinks(before, sbid, line.tokens, line.isSync, at);
      for j := 0 to |line.tokens|
        invariant MatchToken(Scan(waiting, blamed), sbid, line.tokens[j..], line.isSync, at)
               == MatchToken(before, sbid, line.tokens, line.isSync, at)
      {
        assert line.tokens[j..][1..] == line.tokens[j + 1..];
        if Hits(sbid, line.tokens[j], line.isSync) {
          if sbid !in waiting {
            return ValueError;
          }
          waiting := RemoveFirst(waiting, sbid);
          blamed := blamed + [Blame(at, sbid)];
        }
      }
      i := i + 1;
    }
    return Scan(waiting, blamed);
  }

  method ScanBlock(lines: seq<Line>, start: nat, end: int, s: Scan) returns (r: Scan)
    requires start <= end + 1 <= |lines| && s.Scan?
    ensures r == ScanBack(lines, start, end + 1, s)
  {
    r := s;
    var n := end + 1;
    while n > start
      invariant start <= n <= end + 1 && r.Scan?
      invariant ScanBack(lines, start, n, r) == ScanBack(lines, start, end + 1, s)
    {
      if |r.waiting| > 0 {
        if lines[n - 1].addressed {
          r := MatchInstruction(r, lines[n - 1], n - 1);
          if r == ValueError {
            return;
          }
        }
      }
      if |r.waiting| == 0 {
        break;
      }
      n := n - 1;
    }
  }

  // ------------------------------------------------------------------
  // The worklist
  // ------------------------------------------------------------------

  /** A stretch of lines to scan: a block, or the part of it before the stalled instruction. */
  datatype Item = Item(bid: string, start: nat, end: int)

  datatype Status = Running | Finished | Raised

  /** `next` is the position j in the growing list bbs_to_check. */
  datatype Search = Search(waiting: seq<string>, blamed: seq<Blame>, queue: seq<Item>, next: nat, status: Status)

  datatype Problem = Problem(lines: seq<Line>, bbs: seq<BB>, addr: nat, tokens: seq<string>)

  /** The stalled instruction is in a block, and every block is a stretch of the listing. */
  predicate WellPosed(p: Problem) {
    && p.addr < |p.lines|
    && FindBB(p.bbs, p.addr).Some?
    && FindBB(p.bbs, p.addr).value.InBB(p.addr)
    && forall bb <- p.bbs :: 0 <= bb.start <= bb.end + 1 <= |p.lines|
  }

  function Own(p: Problem): BB
    requires WellPosed(p)
  {
    FindBB(p.bbs, p.addr).value
  }

  lemma {:induction false} LookupFinds(bbs: seq<BB>, bid: string)
    ensures match Lookup(bbs, bid)
            case Some(bb) => bb in bbs && bb.bid == bid
            case None => forall bb <- bbs :: bb.bid != bid
  {
    if bbs == [] {
    } else {
      assert bbs == [bbs[0]] + bbs[1..];
      LookupFinds(bbs[1..], bid);
    }
  }

  function Preds(p: Problem, bid: string): seq<string> {
    var bb := Lookup(p.bbs, bid);
    if bb == None then [] else bb.value.preds
  }

  lemma {:induction false} LookupIsMember(bbs: seq<BB>, bb: BB)
    requires UniqueIds(bbs) && bb in bbs
    ensures Lookup(bbs, bb.bid) == Some(bb)
  {
    var i :| 0 <= i < |bbs| && bbs[i] == bb;
    if i == 0 {
    } else {
      assert bbs[1..][i - 1] == bb && bbs[0].bid != bbs[i].bid;
      LookupIsMember(bbs[1..], bb);
    }
  }

  /** On the blocks of a listing, the predecessors of a label are those named in its last header line. */
  lemma {:induction false} PredsAreOfHeaders(p: Problem, b: string, q: string)
    requires HasHeader(p.lines) && p.bbs == Blocks(p.lines)
    ensures q in Preds(p, b) <==>
            exists h: nat :: LastOfLabel(p.lines, h) && p.lines[h].header.value.bid == b
                             && q in p.lines[h].header.value.preds
  {
    LookupFinds(p.bbs, b);
    BlocksAreUnique(p.lines);
    if h: nat :| LastOfLabel(p.lines, h) && p.lines[h].header.value.bid == b {
      var bb := BlockAt(p.lines, h);
      OfHeaderIsBlockAt(p.lines, h, bb);
      BlocksAreOfHeaders(p.lines, bb);
      LookupIsMember(p.bbs, bb);
      forall g: nat | LastOfLabel(p.lines, g) && p.lines[g].header.value.bid == b ensures g == h {}
    } else if q in Preds(p, b) {
      BlocksAreOfHeaders(p.lines, Lookup(p.bbs, b).value);
    }
  }

  /** Appends the blocks of the given labels; None is the KeyError of an unknown label. */
  function Enqueue(p: Problem, preds: seq<string>): Option<seq<Item>>
    requires forall bb <- p.bbs :: 0 <= bb.start
  {
    if preds == [] then Some([])
    else
      LookupFinds(p.bbs, preds[0]);
      var bb, rest := Lookup(p.bbs, preds[0]), Enqueue(p, preds[1..]);
      if bb == None || rest == None then None
      else Some([Item(preds[0], bb.value.start, bb.value.end)] + rest.value)
  }

  predicate InRange(p: Problem, item: Item) {
    item.start <= item.end + 1 <= |p.lines|
  }

  /** The item is the whole block of its label. */
  predicate WholeBlock(p: Problem, item: Item) {
    Lookup(p.bbs, item.bid) == Some(BB(item.bid, item.start, item.end, Preds(p, item.bid)))
  }

  predicate QueueInRange(p: Problem, s: Search) {
    forall i :: 0 <= i < |s.queue| ==> InRange(p, s.queue[i])
  }

  function Start(p: Problem): (s: Search)
    requires WellPosed(p)
    ensures QueueInRange(p, s)
  {
    FindBBFinds(p.bbs, p.addr);
    Search(p.tokens, [], [Item(Own(p).bid, Own(p).start, p.addr - 1)], 0, Running)
  }

  lemma {:induction false} EnqueueInRange(p: Problem, preds: seq<string>)
    requires WellPosed(p) && Enqueue(p, preds).Some?
    ensures |Enqueue(p, preds).value| == |preds|
    ensures forall i :: 0 <= i < |preds| ==>
              var item := Enqueue(p, preds).value[i];
              item.bid == preds[i] && WholeBlock(p, item) && InRange(p, item)
  {
    if preds == [] {
    } else {
      LookupFinds(p.bbs, preds[0]);
      EnqueueInRange(p, preds[1..]);
    }
  }

  /** One round of the outer loop. */
  function Round(p: Problem, s: Search): (r: Search)
    requires WellPosed(p) && QueueInRange(p, s)
    ensures QueueInRange(p, r)
  {
    if s.status != Running then s
    else if |s.queue| <= s.next then s.(status := Finished)
    else
      var item := s.queue[s.next];
      var scan := ScanBack(p.lines, item.start, item.end + 1, Scan(s.waiting, s.blamed));
      if scan == ValueError then s.(status := Raised)
      else
        var t := s.(waiting := scan.waiting, blamed := scan.blamed);
        if t.waiting == [] then t.(status := Finished)
        else
          var more := Enqueue(p, Preds(p, item.bid));
          if more == None then t.(status := Raised)
          else
            EnqueueInRange(p, Preds(p, item.bid));
            t.(queue := t.queue + more.value, next := t.next + 1)
  }

  /** The search after n rounds. */
  function After(p: Problem, n: nat): (s: Search)
    requires WellPosed(p)
    ensures QueueInRange(p, s)
  {
    if n == 0 then Start(p) else Round(p, After(p, n - 1))
  }
}
