/**
  What the backward search of module Stalls guarantees: blames are sound and
  conserve the tokens at every point of every run, and the search ends when no
  cycle of predecessor edges can be reached.
 */
module StallProofs {
  import opened Prelude
  import opened Cfg
  import opened Stalls

  // ------------------------------------------------------------------
  // Soundness and conservation
  // ------------------------------------------------------------------

  function Tokens(blamed: seq<Blame>): seq<string> {
    seq(|blamed|, i requires 0 <= i < |blamed| => blamed[i].token)
  }

  /** Tokens waited for plus tokens resolved. */
  ghost function Balance(waiting: seq<string>, blamed: seq<Blame>): multiset<string> {
    multiset(waiting) + multiset(Tokens(blamed))
  }

  /** The blamed line is an addressed instruction among lines[lo..hi] that carries a token hitting the blamed one. */
  ghost predicate Justified(lines: seq<Line>, b: Blame, lo: int, hi: int) {
    && lo <= b.line < hi && 0 <= b.line < |lines| && lines[b.line].addressed
    && exists f <- lines[b.line].tokens :: Hits(b.token, f, lines[b.line].isSync)
  }

  /** From s to r nothing is lost, old blames stay, and new ones are justified. */
  ghost predicate Follows(s: Scan, r: Scan, lines: seq<Line>, lo: int, hi: int)
    requires s.Scan?
  {
    r.Scan? ==>
      && s.blamed <= r.blamed
      && Balance(r.waiting, r.blamed) == Balance(s.waiting, s.blamed)
      && forall k :: |s.blamed| <= k < |r.blamed| ==> Justified(lines, r.blamed[k], lo, hi)
  }

  lemma TakeOne(s: Scan, waited: string, line: int)
    requires s.Scan? && waited in s.waiting
    ensures Balance(RemoveFirst(s.waiting, waited), s.blamed + [Blame(line, waited)]) == Balance(s.waiting, s.blamed)
  {
    RemoveFirstRemovesOne(s.waiting, waited);
    assert Tokens(s.blamed + [Blame(line, waited)]) == Tokens(s.blamed) + [waited];
  }

  lemma {:induction false} MatchTokenFollows(s: Scan, waited: string, found: seq<string>, lines: seq<Line>, line: nat)
    requires s.Scan? && line < |lines| && lines[line].addressed
    requires forall f <- found :: f in lines[line].tokens
    ensures Follows(s, MatchToken(s, waited, found, lines[line].isSync, line), lines, line, line + 1)
    decreases |found|
  {
    if found == [] {
    } else {
      var rest := found[1..];
      if !Hits(waited, found[0], lines[line].isSync) {
        MatchTokenFollows(s, waited, rest, lines, line);
      } else if waited in s.waiting {
        var t := Scan(RemoveFirst(s.waiting, waited), s.blamed + [Blame(line, waited)]);
        TakeOne(s, waited, line);
        assert Justified(lines, Blame(line, waited), line, line + 1) by {
          assert found[0] in lines[line].tokens;
        }
        MatchTokenFollows(t, waited, rest, lines, line);
        assert t.blamed[|s.blamed|] == Blame(line, waited);
      }
    }
  }

  lemma {:induction false} MatchFromFollows(s: Scan, at: nat, lines: seq<Line>, line: nat)
    requires s.Scan? && line < |lines| && lines[line].addressed
    ensures Follows(s, MatchFrom(s, at, lines[line].tokens, lines[line].isSync, line), lines, line, line + 1)
    decreases |s.waiting| - at
  {
    if |s.waiting| <= at {
    } else {
      MatchTokenFollows(s, s.waiting[at], lines[line].tokens, lines, line);
      MatchTokenShrinks(s, s.waiting[at], lines[line].tokens, lines[line].isSync, line);
      var r := MatchToken(s, s.waiting[at], lines[line].tokens, lines[line].isSync, line);
      if r.Scan? {
        MatchFromFollows(r, at + 1, lines, line);
      }
    }
  }

  lemma FollowsWider(s: Scan, r: Scan, lines: seq<Line>, lo: int, hi: int, lo': int, hi': int)
    requires s.Scan? && Follows(s, r, lines, lo, hi) && lo' <= lo && hi <= hi'
    ensures Follows(s, r, lines, lo', hi')
  {}

  lemma FollowsThen(s: Scan, t: Scan, r: Scan, lines: seq<Line>, lo: int, hi: int)
    requires s.Scan? && t.Scan? && Follows(s, t, lines, lo, hi) && Follows(t, r, lines, lo, hi)
    ensures Follows(s, r, lines, lo, hi)
  {
    if r.Scan? {
      forall k | |s.blamed| <= k < |t.blamed| ensures r.blamed[k] == t.blamed[k] {}
    }
  }

  lemma {:induction false} ScanBackFollows(lines: seq<Line>, start: nat, n: nat, s: Scan)
    requires start <= n <= |lines| && s.Scan?
    ensures Follows(s, ScanBack(lines, start, n, s), lines, start, n)
    decreases n
  {
    if start == n || s.waiting == [] {
    } else {
      var r := if lines[n - 1].addressed then MatchFrom(s, 0, lines[n - 1].tokens, lines[n - 1].isSync, n - 1) else s;
      if lines[n - 1].addressed {
        MatchFromFollows(s, 0, lines, n - 1);
      }
      FollowsWider(s, r, lines, n - 1, n, start, n);
      if r.Scan? {
        ScanBackFollows(lines, start, n - 1, r);
        FollowsWider(r, ScanBack(lines, start, n - 1, r), lines, start, n - 1, start, n);
        FollowsThen(s, r, ScanBack(lines, start, n - 1, r), lines, start, n);
      }
    }
  }

  /** A walk from the stalled block along predecessor edges. */
  ghost predicate Walk(p: Problem, path: seq<string>)
    requires WellPosed(p)
  {
    && path != [] && path[0] == Own(p).bid
    && forall i :: 0 < i < |path| ==> path[i] in Preds(p, path[i - 1])
  }

  /** Some last header line with label b names q as a predecessor. */
  ghost predicate HeaderEdge(lines: seq<Line>, b: string, q: string) {
    exists h: nat :: LastOfLabel(lines, h) && lines[h].header.value.bid == b && q in lines[h].header.value.preds
  }

  /** On the blocks of a listing, a walk starts at the header above the stalled line and follows header lines. */
  lemma {:induction false} WalkFollowsHeaders(p: Problem, path: seq<string>)
    requires WellPosed(p) && HasHeader(p.lines) && p.bbs == Blocks(p.lines) && Walk(p, path)
    ensures exists h: nat :: h <= p.addr && p.lines[h].header.Some? && path[0] == p.lines[h].header.value.bid
                             && forall k :: h < k <= p.addr ==> p.lines[k].header == None
    ensures forall i :: 0 < i < |path| ==> HeaderEdge(p.lines, path[i - 1], path[i])
  {
    FindBBFinds(p.bbs, p.addr);
    BlocksAreOfHeaders(p.lines, Own(p));
    forall i | 0 < i < |path| ensures HeaderEdge(p.lines, path[i - 1], path[i]) {
      PredsAreOfHeaders(p, path[i - 1], path[i]);
    }
  }

  /** The item is the stalled block up to the stalled instruction, or the whole block at the end of a longer walk. */
  ghost predicate ReachedBy(p: Problem, item: Item, path: seq<string>)
    requires WellPosed(p)
  {
    && Walk(p, path) && path[|path| - 1] == item.bid
    && if |path| == 1 then item.start == Own(p).start && item.end == p.addr - 1 else WholeBlock(p, item)
  }

  ghost predicate Reached(p: Problem, item: Item)
    requires WellPosed(p)
  {
    exists path :: ReachedBy(p, item, path)
  }

  /** The blame lies in a reached stretch of the listing. */
  ghost predicate SoundIn(p: Problem, b: Blame, item: Item)
    requires WellPosed(p)
  {
    Reached(p, item) && Justified(p.lines, b, item.start, item.end + 1)
  }

  ghost predicate Sound(p: Problem, b: Blame)
    requires WellPosed(p)
  {
    exists item :: SoundIn(p, b, item)
  }

  ghost predicate Correct(p: Problem, s: Search)
    requires WellPosed(p)
  {
    && Balance(s.waiting, s.blamed) == multiset(p.tokens)
    && AllSound(p, s.blamed) && AllReached(p, s.queue)
  }

  ghost predicate AllSound(p: Problem, blamed: seq<Blame>)
    requires WellPosed(p)
  {
    forall k :: 0 <= k < |blamed| ==> Sound(p, blamed[k])
  }

  ghost predicate AllReached(p: Problem, queue: seq<Item>)
    requires WellPosed(p)
  {
    forall i :: 0 <= i < |queue| ==> Reached(p, queue[i])
  }

  lemma EnqueuedReached(p: Problem, item: Item)
    requires WellPosed(p) && Reached(p, item) && Enqueue(p, Preds(p, item.bid)).Some?
    ensures AllReached(p, Enqueue(p, Preds(p, item.bid)).value)
  {
    var preds := Preds(p, item.bid);
    var more := Enqueue(p, preds).value;
    EnqueueInRange(p, preds);
    var path :| ReachedBy(p, item, path);
    forall i | 0 <= i < |more| ensures Reached(p, more[i]) {
      assert more[i].bid == preds[i];
      assert ReachedBy(p, more[i], path + [more[i].bid]);
    }
  }

  /** Scanning a reached stretch keeps all blames sound. */
  lemma ScanIsSound(p: Problem, item: Item, from: Scan)
    requires WellPosed(p) && InRange(p, item) && Reached(p, item) && from.Scan?
    requires AllSound(p, from.blamed)
    ensures var scan := ScanBack(p.lines, item.start, item.end + 1, from);
            scan.Scan? ==>
              && Balance(scan.waiting, scan.blamed) == Balance(from.waiting, from.blamed)
              && AllSound(p, scan.blamed)
  {
    var scan := ScanBack(p.lines, item.start, item.end + 1, from);
    ScanBackFollows(p.lines, item.start, item.end + 1, from);
    if scan.Scan? {
      forall k | 0 <= k < |scan.blamed| ensures Sound(p, scan.blamed[k]) {
        if k < |from.blamed| {
          assert scan.blamed[k] == from.blamed[k];
        } else {
          assert SoundIn(p, scan.blamed[k], item);
        }
      }
    }
  }

  lemma ReachedConcat(p: Problem, a: seq<Item>, b: seq<Item>)
    requires WellPosed(p) && AllReached(p, a) && AllReached(p, b)
    ensures AllReached(p, a + b)
  {}

  lemma RoundCorrect(p: Problem, s: Search)
    requires WellPosed(p) && QueueInRange(p, s) && Correct(p, s)
    ensures Correct(p, Round(p, s))
  {
    if s.status == Running && s.next < |s.queue| {
      var item := s.queue[s.next];
      assert Reached(p, item);
      ScanIsSound(p, item, Scan(s.waiting, s.blamed));
      if Enqueue(p, Preds(p, item.bid)).Some? {
        EnqueuedReached(p, item);
        ReachedConcat(p, s.queue, Enqueue(p, Preds(p, item.bid)).value);
      }
    }
  }

  /**
    At every point of every run: tokens waited for plus tokens resolved are the
    stalled instruction's tokens, and every blame is an instruction in a stretch
    reached along predecessor edges that carries a matching token.
   */
  lemma {:induction false} SearchIsCorrect(p: Problem, n: nat)
    requires WellPosed(p)
    ensures Correct(p, After(p, n))
  {
    if n == 0 {
      var first := Start(p).queue[0];
      assert ReachedBy(p, first, [first.bid]);
      assert Tokens([]) == [];
    } else {
      SearchIsCorrect(p, n - 1);
      RoundCorrect(p, After(p, n - 1));
    }
  }

  // ------------------------------------------------------------------
  // Termination
  // ------------------------------------------------------------------

  /** Every label of the region has its predecessors in the region, with a smaller rank: the region has no cycle. */
  ghost predicate Ranks(p: Problem, region: set<string>, rank: map<string, nat>) {
    && region <= rank.Keys
    && forall b <- region :: forall q <- Preds(p, b) :: q in region && rank[q] < rank[b]
  }

  /** weight(b) = 1 + the weights of b's predecessors. */
  ghost function Weight(p: Problem, region: set<string>, rank: map<string, nat>, b: string): nat
    requires Ranks(p, region, rank) && b in region
    decreases rank[b], 1, 0
  {
    1 + Weights(p, region, rank, Preds(p, b), b)
  }

  ghost function Weights(p: Problem, region: set<string>, rank: map<string, nat>, labels: seq<string>,
                         above: string): nat
    requires Ranks(p, region, rank) && above in region
    requires forall q <- labels :: q in region && rank[q] < rank[above]
    decreases rank[above], 0, |labels|
  {
    if labels == [] then 0
    else Weight(p, region, rank, labels[0]) + Weights(p, region, rank, labels[1..], above)
  }

  ghost function QueueWeight(p: Problem, region: set<string>, rank: map<string, nat>, queue: seq<Item>): nat
    requires Ranks(p, region, rank) && forall i :: 0 <= i < |queue| ==> queue[i].bid in region
  {
    if queue == [] then 0
    else Weight(p, region, rank, queue[0].bid) + QueueWeight(p, region, rank, queue[1..])
  }

  lemma {:induction false} QueueWeightConcat(p: Problem, region: set<string>, rank: map<string, nat>,
                                             a: seq<Item>, b: seq<Item>)
    requires Ranks(p, region, rank)
    requires forall i :: 0 <= i < |a| ==> a[i].bid in region
    requires forall i :: 0 <= i < |b| ==> b[i].bid in region
    ensures QueueWeight(p, region, rank, a + b) == QueueWeight(p, region, rank, a) + QueueWeight(p, region, rank, b)
  {
    if a == [] {
      assert a + b == b;
    } else {
      assert (a + b)[1..] == a[1..] + b;
      QueueWeightConcat(p, region, rank, a[1..], b);
    }
  }

  /** The items enqueued for a block weigh one less than the block. */
  lemma {:induction false} EnqueuedWeight(p: Problem, region: set<string>, rank: map<string, nat>,
                                          labels: seq<string>, above: string)
    requires WellPosed(p) && Ranks(p, region, rank) && above in region && Enqueue(p, labels).Some?
    requires forall q <- labels :: q in region && rank[q] < rank[above]
    ensures var more := Enqueue(p, labels).value;
            && (forall i :: 0 <= i < |more| ==> more[i].bid in region)
            && QueueWeight(p, region, rank, more) == Weights(p, region, rank, labels, above)
  {
    EnqueueInRange(p, labels);
    if labels == [] {
    } else {
      EnqueuedWeight(p, region, rank, labels[1..], above);
      var more := Enqueue(p, labels).value;
      assert more[1..] == Enqueue(p, labels[1..]).value;
    }
  }

  ghost predicate InRegion(s: Search, region: set<string>) {
    && s.next <= |s.queue| && forall i :: 0 <= i < |s.queue| ==> s.queue[i].bid in region
  }

  ghost function Left(p: Problem, region: set<string>, rank: map<string, nat>, s: Search): nat
    requires Ranks(p, region, rank) && InRegion(s, region)
  {
    if s.status != Running then 0 else 1 + QueueWeight(p, region, rank, s.queue[s.next..])
  }

  /** A block is replaced in the queue by items that together weigh one less. */
  lemma ReplacedIsLighter(p: Problem, region: set<string>, rank: map<string, nat>, queue: seq<Item>, more: seq<Item>)
    requires WellPosed(p) && Ranks(p, region, rank) && queue != []
    requires forall i :: 0 <= i < |queue| ==> queue[i].bid in region
    requires Enqueue(p, Preds(p, queue[0].bid)) == Some(more)
    ensures forall i :: 0 <= i < |more| ==> more[i].bid in region
    ensures QueueWeight(p, region, rank, queue[1..] + more) < QueueWeight(p, region, rank, queue)
  {
    EnqueuedWeight(p, region, rank, Preds(p, queue[0].bid), queue[0].bid);
    QueueWeightConcat(p, region, rank, queue[1..], more);
  }

  /** A round after which the search goes on has replaced one item by its predecessors. */
  lemma RoundAppends(p: Problem, s: Search)
    requires WellPosed(p) && QueueInRange(p, s) && s.status == Running
    ensures var r := Round(p, s);
            if r.status == Running then
              && s.next < |s.queue| && r.next == s.next + 1
              && Enqueue(p, Preds(p, s.queue[s.next].bid)).Some?
              && r.queue == s.queue + Enqueue(p, Preds(p, s.queue[s.next].bid)).value
            else r.queue == s.queue && r.next == s.next
  {}

  /** Without a cycle every round makes the queue that is left strictly lighter. */
  lemma RoundGetsLighter(p: Problem, region: set<string>, rank: map<string, nat>, s: Search)
    requires WellPosed(p) && QueueInRange(p, s) && Ranks(p, region, rank) && InRegion(s, region)
    ensures InRegion(Round(p, s), region)
    ensures s.status == Running ==> Left(p, region, rank, Round(p, s)) < Left(p, region, rank, s)
  {
    var r := Round(p, s);
    if s.status == Running {
      RoundAppends(p, s);
    }
    if s.status == Running && r.status == Running {
      var left := s.queue[s.next..];
      var more := Enqueue(p, Preds(p, left[0].bid)).value;
      ReplacedIsLighter(p, region, rank, left, more);
      assert r.queue[r.next..] == left[1..] + more;
    }
  }

  lemma {:induction false} EndsWithin(p: Problem, region: set<string>, rank: map<string, nat>, n: nat)
    requires WellPosed(p) && Ranks(p, region, rank) && Own(p).bid in region
    ensures InRegion(After(p, n), region)
    ensures After(p, n).status == Running ==>
              Left(p, region, rank, After(p, n)) + n <= 1 + Weight(p, region, rank, Own(p).bid)
  {
    if n == 0 {
      var q := Start(p).queue;
      assert q[0..] == q && q[1..] == [];
      assert QueueWeight(p, region, rank, q[1..]) == 0;
      assert QueueWeight(p, region, rank, q) == Weight(p, region, rank, Own(p).bid);
    } else {
      EndsWithin(p, region, rank, n - 1);
      RoundGetsLighter(p, region, rank, After(p, n - 1));
    }
  }

  /** Without a cycle the search is over after at most weight(stalled block) + 1 rounds. */
  lemma AcyclicEnds(p: Problem, region: set<string>, rank: map<string, nat>)
    requires WellPosed(p) && Ranks(p, region, rank) && Own(p).bid in region
    ensures After(p, 1 + Weight(p, region, rank, Own(p).bid)).status != Running
  {
    EndsWithin(p, region, rank, 1 + Weight(p, region, rank, Own(p).bid));
  }

  lemma {:induction false} EnqueueConcat(p: Problem, a: seq<string>, b: seq<string>)
    requires WellPosed(p)
    ensures Enqueue(p, a + b) == if Enqueue(p, a).Some? && Enqueue(p, b).Some?
                                 then Some(Enqueue(p, a).value + Enqueue(p, b).value)
                                 else None
  {
    if a == [] {
      assert a + b == b;
      if b' :| Enqueue(p, b) == Some(b') {
        assert [] + b' == b';
      }
    } else {
      assert (a + b)[1..] == a[1..] + b;
      EnqueueConcat(p, a[1..], b);
      LookupFinds(p.bbs, a[0]);
      if Enqueue(p, a).Some? && Enqueue(p, b).Some? {
        var first, rest, more := Enqueue(p, a).value[0], Enqueue(p, a[1..]).value, Enqueue(p, b).value;
        assert [first] + (rest + more) == ([first] + rest) + more;
      }
    }
  }

  /** The loop over the predecessors; an unknown label raises KeyError. */
  method EnqueueAll(p: Problem, preds: seq<string>) returns (more: Option<seq<Item>>)
    requires WellPosed(p)
    ensures more == Enqueue(p, preds)
  {
    var items: seq<Item> := [];
    for i := 0 to |preds|
      invariant Enqueue(p, preds[..i]) == Some(items)
    {
      assert preds == preds[..i] + preds[i..] && preds[..i + 1] == preds[..i] + [preds[i]];
      assert preds[i..][0] == preds[i];
      EnqueueConcat(p, preds[..i], preds[i..]);
      EnqueueConcat(p, preds[..i], [preds[i]]);
      LookupFinds(p.bbs, preds[i]);
      var bb := Lookup(p.bbs, preds[i]);
      if bb == None {
        return None;
      }
      assert Enqueue(p, [preds[i]][1..]) == Some([]);
      var item := Item(preds[i], bb.value.start, bb.value.end);
      assert [item] + [] == [item];
      assert Enqueue(p, [preds[i]]) == Some([item]);
      items := items + [item];
    }
    assert preds[..|preds|] == preds;
    return Some(items);
  }

  /** The body of the outer loop. */
  method RunRound(p: Problem, s: Search) returns (r: Search)
    requires WellPosed(p) && QueueInRange(p, s) && s.status == Running
    ensures r == Round(p, s)
  {
    if |s.queue| <= s.next {
      return s.(status := Finished);
    }
    var Item(bid, start, end) := s.queue[s.next];
    var scan := ScanBlock(p.lines, start, end, Scan(s.waiting, s.blamed));
    if scan == ValueError {
      return s.(status := Raised);
    }
    r := s.(waiting := scan.waiting, blamed := scan.blamed);
    if |r.waiting| == 0 {
      return r.(status := Finished);
    }
    var more := EnqueueAll(p, Preds(p, bid));
    if more == None {
      return r.(status := Raised);
    }
    r := r.(queue := r.queue + more.value, next := r.next + 1);
  }

  /** The outer loop, under the hypothesis that makes it end. */
  method SearchBackward(p: Problem, ghost region: set<string>, ghost rank: map<string, nat>)
    returns (r: Search, ghost rounds: nat)
    requires WellPosed(p) && Ranks(p, region, rank) && Own(p).bid in region
    ensures r == After(p, rounds) && r.status != Running
    ensures Balance(r.waiting, r.blamed) == multiset(p.tokens)
    ensures forall k :: 0 <= k < |r.blamed| ==> Sound(p, r.blamed[k])
  {
    r := Start(p);
    rounds := 0;
    while r.status == Running
      invariant r == After(p, rounds) && InRegion(r, region)
      decreases Left(p, region, rank, r)
    {
      RoundGetsLighter(p, region, rank, r);
      r := RunRound(p, r);
      rounds := rounds + 1;
    }
    SearchIsCorrect(p, rounds);
  }
}
