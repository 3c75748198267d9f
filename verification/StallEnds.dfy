/**
  Whether the backward search of module Stalls ends when some token is set nowhere:
  it keeps no set of visited blocks, so everything depends on the cycles of
  predecessor edges.
 */
module StallEnds {
  import opened Prelude
  import opened Cfg
  import opened Stalls
  import opened StallProofs

  // ------------------------------------------------------------------
  // Tokens that are set nowhere
  // ------------------------------------------------------------------

  /** The line, if it is an addressed instruction, sets the token. */
  ghost predicate Sets(line: Line, waited: string) {
    line.addressed && exists f <- line.tokens :: Hits(waited, f, line.isSync)
  }

  /** Some line of the stretch sets the token. */
  ghost predicate SetIn(p: Problem, item: Item, waited: string) {
    exists k: nat :: item.start <= k <= item.end && k < |p.lines| && Sets(p.lines[k], waited)
  }

  /** The token is set in no stretch that can be reached. */
  ghost predicate Unset(p: Problem, waited: string)
    requires WellPosed(p)
  {
    waited in p.tokens && forall item :: Reached(p, item) ==> !SetIn(p, item, waited)
  }

  /** The line does not set the token twice. */
  predicate HitOnce(waited: string, found: seq<string>, isSync: bool) {
    forall i, j :: 0 <= i < j < |found| ==> !(Hits(waited, found[i], isSync) && Hits(waited, found[j], isSync))
  }

  /** No addressed line of the stretch sets one of the tokens twice. */
  ghost predicate HitOnceIn(p: Problem, item: Item) {
    forall k: nat, w | item.start <= k <= item.end && k < |p.lines| && p.lines[k].addressed && w in p.tokens ::
      HitOnce(w, p.lines[k].tokens, p.lines[k].isSync)
  }

  ghost predicate Tidy(p: Problem)
    requires WellPosed(p)
  {
    forall item :: Reached(p, item) ==> HitOnceIn(p, item)
  }

  predicate Distinct(tokens: seq<string>) {
    forall i, j :: 0 <= i < j < |tokens| ==> tokens[i] != tokens[j]
  }

  /** A listing is tidy when the tokens of each reached line are distinct. */
  lemma DistinctIsTidy(p: Problem)
    requires WellPosed(p)
    requires forall item, k: nat :: Reached(p, item) && item.start <= k <= item.end && k < |p.lines| ==>
               Distinct(p.lines[k].tokens)
    ensures Tidy(p)
  {
    forall item, k: nat, w | Reached(p, item) && item.start <= k <= item.end && k < |p.lines| && w in p.tokens
      ensures HitOnce(w, p.lines[k].tokens, p.lines[k].isSync)
    {
      DistinctHitOnce(w, p.lines[k].tokens, p.lines[k].isSync);
    }
  }

  lemma DistinctHitOnce(waited: string, found: seq<string>, isSync: bool)
    requires Distinct(found)
    ensures HitOnce(waited, found, isSync)
  {
    forall i, j | 0 <= i < j < |found| ensures !(Hits(waited, found[i], isSync) && Hits(waited, found[j], isSync)) {
      if Hits(waited, found[i], isSync) && Hits(waited, found[j], isSync) {
        HitsSameScoreboard(waited, found[i], isSync);
        HitsSameScoreboard(waited, found[j], isSync);
      }
    }
  }

  /** Every block of the set has a predecessor in the set. */
  ghost predicate SelfFed(p: Problem, cycle: set<string>) {
    forall b {:trigger HasPredIn(p, b, cycle)} :: b in cycle ==> HasPredIn(p, b, cycle)
  }

  ghost predicate HasPredIn(p: Problem, b: string, cycle: set<string>) {
    exists q <- Preds(p, b) :: q in cycle
  }

  lemma {:induction false} NoMatch(s: Scan, waited: string, found: seq<string>, isSync: bool, line: int)
    requires s.Scan? && forall f <- found :: !Hits(waited, f, isSync)
    ensures MatchToken(s, waited, found, isSync, line) == s
    decreases |found|
  {
    if found == [] {
    } else {
      assert found[0] in found;
      NoMatch(s, waited, found[1..], isSync, line);
    }
  }

  /** A scan of lines that never set w and set no other token twice: no ValueError, and w is still waited for. */
  ghost predicate Keeps(s: Scan, r: Scan, w: string)
    requires s.Scan?
  {
    r.Scan? && w in r.waiting && forall x <- r.waiting :: x in s.waiting
  }

  lemma {:induction false} MatchTokenKeeps(s: Scan, waited: string, found: seq<string>, isSync: bool, line: int,
                                           w: string)
    requires s.Scan? && waited in s.waiting && w in s.waiting
    requires HitOnce(waited, found, isSync) && forall f <- found :: !Hits(w, f, isSync)
    ensures Keeps(s, MatchToken(s, waited, found, isSync, line), w)
    decreases |found|
  {
    if found == [] {
    } else {
      assert found[0] in found;
      var rest := found[1..];
      if Hits(waited, found[0], isSync) {
        RemoveFirstRemovesOne(s.waiting, waited);
        var t := Take(s, waited, line);
        OthersStay(s.waiting, waited, w);
        forall f | f in rest ensures !Hits(waited, f, isSync) {
          var i :| 0 <= i < |rest| && rest[i] == f;
          assert found[i + 1] == f;
        }
        NoMatch(t, waited, rest, isSync, line);
      } else {
        assert forall i :: 0 <= i < |rest| ==> rest[i] == found[i + 1];
        MatchTokenKeeps(s, waited, rest, isSync, line, w);
      }
    }
  }

  lemma OthersStay(list: seq<string>, x: string, w: string)
    requires x in list && w in list && w != x
    ensures w in RemoveFirst(list, x) && forall y <- RemoveFirst(list, x) :: y in list
  {
    RemoveFirstRemovesOne(list, x);
    assert w in multiset(RemoveFirst(list, x)) + multiset{x};
    forall y | y in RemoveFirst(list, x) ensures y in list {
      assert y in multiset(RemoveFirst(list, x)) + multiset{x};
    }
  }

  lemma {:induction false} MatchFromKeeps(s: Scan, at: nat, found: seq<string>, isSync: bool, line: int, w: string)
    requires s.Scan? && w in s.waiting && forall f <- found :: !Hits(w, f, isSync)
    requires forall x <- s.waiting :: HitOnce(x, found, isSync)
    ensures Keeps(s, MatchFrom(s, at, found, isSync, line), w)
    decreases |s.waiting| - at
  {
    if |s.waiting| <= at {
    } else {
      MatchTokenKeeps(s, s.waiting[at], found, isSync, line, w);
      MatchTokenShrinks(s, s.waiting[at], found, isSync, line);
      MatchFromKeeps(MatchToken(s, s.waiting[at], found, isSync, line), at + 1, found, isSync, line, w);
    }
  }

  lemma {:induction false} ScanBackKeeps(p: Problem, item: Item, n: nat, s: Scan, w: string)
    requires item.start <= n <= item.end + 1 <= |p.lines| && s.Scan?
    requires w in s.waiting && forall x <- s.waiting :: x in p.tokens
    requires HitOnceIn(p, item) && !SetIn(p, item, w)
    ensures Keeps(s, ScanBack(p.lines, item.start, n, s), w)
    decreases n
  {
    if n <= item.start {
    } else {
      var l := p.lines[n - 1];
      if l.addressed {
        assert !Sets(l, w);
        MatchFromKeeps(s, 0, l.tokens, l.isSync, n - 1, w);
        ScanBackKeeps(p, item, n - 1, MatchFrom(s, 0, l.tokens, l.isSync, n - 1), w);
      } else {
        ScanBackKeeps(p, item, n - 1, s, w);
      }
    }
  }

  lemma {:induction false} KnownLabelsEnqueue(p: Problem, labels: seq<string>)
    requires WellPosed(p) && forall q <- labels :: Lookup(p.bbs, q).Some?
    ensures Enqueue(p, labels).Some?
  {
    if labels == [] {
    } else {
      assert labels[0] in labels;
      KnownLabelsEnqueue(p, labels[1..]);
    }
  }

  /** The search still waits for w and has to visit some block of the set. */
  ghost predicate Pursues(s: Search, w: string, cycle: set<string>) {
    && s.status == Running && w in s.waiting
    && exists i :: s.next <= i < |s.queue| && s.queue[i].bid in cycle
  }

  lemma WaitedAreTokens(p: Problem, s: Search)
    requires WellPosed(p) && Correct(p, s)
    ensures forall x <- s.waiting :: x in p.tokens
  {
    forall x | x in s.waiting ensures x in p.tokens {
      assert x in Balance(s.waiting, s.blamed);
    }
  }

  /** Enqueueing the predecessors of the visited item keeps a block of the set in the queue. */
  lemma CycleStaysQueued(p: Problem, queue: seq<Item>, next: nat, more: seq<Item>, cycle: set<string>)
    requires WellPosed(p) && next < |queue| && Enqueue(p, Preds(p, queue[next].bid)) == Some(more)
    requires SelfFed(p, cycle) && exists i :: next <= i < |queue| && queue[i].bid in cycle
    ensures exists i :: next + 1 <= i < |queue + more| && (queue + more)[i].bid in cycle
  {
    var preds := Preds(p, queue[next].bid);
    EnqueueInRange(p, preds);
    var i :| next <= i < |queue| && queue[i].bid in cycle;
    if i == next {
      assert HasPredIn(p, queue[next].bid, cycle);
      var q :| q in preds && q in cycle;
      var k :| 0 <= k < |preds| && preds[k] == q;
      assert (queue + more)[|queue| + k].bid in cycle;
    } else {
      assert (queue + more)[i].bid in cycle;
    }
  }

  lemma RoundPursues(p: Problem, s: Search, w: string, cycle: set<string>)
    requires WellPosed(p) && QueueInRange(p, s) && Correct(p, s) && Unset(p, w) && Tidy(p)
    requires s.next < |s.queue| ==> Enqueue(p, Preds(p, s.queue[s.next].bid)).Some?
    requires SelfFed(p, cycle) && Pursues(s, w, cycle)
    ensures Pursues(Round(p, s), w, cycle)
  {
    var item := s.queue[s.next];
    assert Reached(p, item);
    WaitedAreTokens(p, s);
    ScanBackKeeps(p, item, item.end + 1, Scan(s.waiting, s.blamed), w);
    CycleStaysQueued(p, s.queue, s.next, Enqueue(p, Preds(p, item.bid)).value, cycle);
  }

  /** Every label that can be reached names a block. */
  ghost predicate Known(p: Problem)
    requires WellPosed(p)
  {
    forall path, b :: WalkTo(p, path, b) ==> Lookup(p.bbs, b).Some?
  }

  lemma KnownEnqueues(p: Problem, item: Item)
    requires WellPosed(p) && Known(p) && Reached(p, item)
    ensures Enqueue(p, Preds(p, item.bid)).Some?
  {
    var path :| ReachedBy(p, item, path);
    forall q | q in Preds(p, item.bid) ensures Lookup(p.bbs, q).Some? {
      assert WalkTo(p, path + [q], q);
    }
    KnownLabelsEnqueue(p, Preds(p, item.bid));
  }

  /** With a token that is set nowhere and an endless backward walk from the stalled block, the search never ends. */
  lemma {:induction false} CyclicNeverEnds(p: Problem, w: string, cycle: set<string>, n: nat)
    requires WellPosed(p) && Unset(p, w) && Tidy(p) && Known(p)
    requires SelfFed(p, cycle) && Own(p).bid in cycle
    ensures Pursues(After(p, n), w, cycle)
  {
    if n == 0 {
      assert Start(p).queue[0].bid in cycle;
    } else {
      CyclicNeverEnds(p, w, cycle, n - 1);
      SearchIsCorrect(p, n - 1);
      var s := After(p, n - 1);
      KnownEnqueues(p, s.queue[s.next]);
      RoundPursues(p, s, w, cycle);
    }
  }

  /** Ranks that decrease along the edges inside a set. */
  ghost predicate RanksWithin(p: Problem, part: set<string>, rank: map<string, nat>) {
    && part <= rank.Keys
    && forall b <- part :: forall q <- Preds(p, b) :: q in part ==> rank[q] < rank[b]
  }

  /** A finite set of labels has decreasing ranks, or a non-empty part that feeds itself. */
  lemma {:induction false} RanksOrCycle(p: Problem, part: set<string>)
    returns (rank: map<string, nat>, cycle: set<string>)
    ensures RanksWithin(p, part, rank) || (cycle != {} && cycle <= part && SelfFed(p, cycle))
    decreases |part|
  {
    rank, cycle := map[], {};
    if part == {} {
    } else {
      if SelfFed(p, part) {
        cycle := part;
      } else {
        var b :| b in part && !HasPredIn(p, b, part);
        var rest := part - {b};
        rank, cycle := RanksOrCycle(p, rest);
        if RanksWithin(p, rest, rank) {
          rank := map x | x in part :: if x == b then 0 else rank[x] + 1;
        }
      }
    }
  }

  ghost predicate WalkTo(p: Problem, path: seq<string>, b: string)
    requires WellPosed(p)
  {
    Walk(p, path) && path[|path| - 1] == b
  }

  /** The labels that can be reached from the stalled block along predecessor edges. */
  ghost function Region(p: Problem): set<string>
    requires WellPosed(p)
  {
    set b | b in Labels(p) && exists path :: WalkTo(p, path, b)
  }

  /** The label of the stalled block and all labels named as predecessors. */
  function Labels(p: Problem): set<string>
    requires WellPosed(p)
  {
    {Own(p).bid} + set bb, q | bb in p.bbs && q in bb.preds :: q
  }

  lemma PredsAreLabels(p: Problem, b: string)
    requires WellPosed(p)
    ensures forall q <- Preds(p, b) :: q in Labels(p)
  {
    LookupFinds(p.bbs, b);
  }

  /** The region is exactly the set of labels at the end of a walk, and nothing leads out of it. */
  lemma {:induction false} InRegionIff(p: Problem, b: string)
    requires WellPosed(p)
    ensures b in Region(p) <==> exists path :: WalkTo(p, path, b)
  {
    if path :| WalkTo(p, path, b) {
      if |path| > 1 {
        assert b in Preds(p, path[|path| - 2]);
        PredsAreLabels(p, path[|path| - 2]);
      }
    }
  }

  lemma RegionClosed(p: Problem)
    requires WellPosed(p)
    ensures Own(p).bid in Region(p)
    ensures forall b <- Region(p) :: forall q <- Preds(p, b) :: q in Region(p)
  {
    assert WalkTo(p, [Own(p).bid], Own(p).bid);
    InRegionIff(p, Own(p).bid);
    forall b, q | b in Region(p) && q in Preds(p, b) ensures q in Region(p) {
      var path :| WalkTo(p, path, b);
      assert WalkTo(p, path + [q], q);
      InRegionIff(p, q);
    }
  }

  /** A label on a walk into the set either is in the set or is followed on the walk. */
  lemma WalkGoesOn(p: Problem, cycle: set<string>, path: seq<string>, x: string)
    requires WellPosed(p) && Walk(p, path) && path[|path| - 1] in cycle && SelfFed(p, cycle)
    requires x in cycle || x in path
    ensures HasPredIn(p, x, cycle + set i | 0 <= i < |path| :: path[i])
  {
    var around := cycle + set i | 0 <= i < |path| :: path[i];
    if x in cycle {
      assert HasPredIn(p, x, cycle);
      var q :| q in Preds(p, x) && q in cycle;
      assert q in around;
    } else {
      var i :| 0 <= i < |path| && path[i] == x;
      assert path[i + 1] in Preds(p, path[i]) && path[i + 1] in around;
    }
  }

  /** A reached self-fed set and a walk into it form a self-fed set around the stalled block. */
  lemma CycleAroundStart(p: Problem, cycle: set<string>) returns (around: set<string>)
    requires WellPosed(p) && cycle != {} && cycle <= Region(p) && SelfFed(p, cycle)
    ensures Own(p).bid in around && SelfFed(p, around)
  {
    var b :| b in cycle;
    var path :| WalkTo(p, path, b);
    around := cycle + set i | 0 <= i < |path| :: path[i];
    forall x | x in around ensures HasPredIn(p, x, around) {
      WalkGoesOn(p, cycle, path, x);
    }
    assert path[0] in around;
  }

  ghost predicate Ends(p: Problem)
    requires WellPosed(p)
  {
    exists n: nat :: After(p, n).status != Running
  }

  /** No cycle of predecessor edges can be reached from the stalled block. */
  ghost predicate Acyclic(p: Problem)
    requires WellPosed(p)
  {
    exists rank :: Ranks(p, Region(p), rank)
  }

  lemma AcyclicSearchEnds(p: Problem)
    requires WellPosed(p) && Acyclic(p)
    ensures Ends(p)
  {
    RegionClosed(p);
    var rank :| Ranks(p, Region(p), rank);
    AcyclicEnds(p, Region(p), rank);
  }

  /** With a token that is set nowhere, and every label known, only the absence of a cycle lets the search end. */
  lemma UnsetEndsOnlyAcyclic(p: Problem, w: string)
    requires WellPosed(p) && Unset(p, w) && Tidy(p) && Known(p) && Ends(p)
    ensures Acyclic(p)
  {
    RegionClosed(p);
    var rank, cycle := RanksOrCycle(p, Region(p));
    if RanksWithin(p, Region(p), rank) {
      assert Ranks(p, Region(p), rank);
    } else {
      var around := CycleAroundStart(p, cycle);
      var n: nat :| After(p, n).status != Running;
      CyclicNeverEnds(p, w, around, n);
    }
  }

  // ------------------------------------------------------------------
  // Rounds, and the items they visit
  // ------------------------------------------------------------------

  /** The search goes on from s to t with a queue that has only grown. */
  ghost predicate GoesOn(s: Search, t: Search, rounds: int) {
    && s.status == Running && t.status == Running
    && t.next == s.next + rounds && s.queue <= t.queue
  }

  lemma GoesOnThen(s: Search, t: Search, u: Search, a: int, b: int)
    requires GoesOn(s, t, a) && GoesOn(t, u, b)
    ensures GoesOn(s, u, a + b)
  {}

  lemma RoundGoesOn(p: Problem, s: Search)
    requires WellPosed(p) && QueueInRange(p, s) && Round(p, s).status == Running
    ensures GoesOn(s, Round(p, s), 1)
  {
    RoundAppends(p, s);
  }

  /** Every round of a search that goes on visits one position of the queue. */
  lemma {:induction false} StillRunning(p: Problem, i: nat, n: nat)
    requires WellPosed(p) && i <= n && After(p, n).status == Running
    ensures GoesOn(After(p, i), After(p, n), n - i)
    decreases n
  {
    if n <= i {
    } else {
      RoundGoesOn(p, After(p, n - 1));
      StillRunning(p, i, n - 1);
      GoesOnThen(After(p, i), After(p, n - 1), After(p, n), n - 1 - i, 1);
    }
  }

  /** The item is visited in round i. */
  ghost predicate VisitedAt(p: Problem, item: Item, i: nat)
    requires WellPosed(p)
  {
    var s := After(p, i);
    s.status == Running && s.next == i < |s.queue| && s.queue[i] == item
  }

  /** Whatever is in the queue of the search at round m gets its turn, and the search goes on after it. */
  ghost predicate Passes(p: Problem, m: nat, i: nat)
    requires WellPosed(p)
  {
    After(p, m).status == Running && i < |After(p, m).queue| ==> After(p, i + 1).status == Running
  }

  ghost predicate Thorough(p: Problem)
    requires WellPosed(p)
  {
    forall m: nat, i: nat :: Passes(p, m, i)
  }

  lemma EndlessIsThorough(p: Problem)
    requires WellPosed(p) && !Ends(p)
    ensures Thorough(p)
  {}

  lemma ReachesPosition(s: Search, t: Search, m: nat, i: nat)
    requires GoesOn(s, t, i - m) && s.next == m <= i < |s.queue|
    ensures t.next == i < |t.queue| && t.queue[i] == s.queue[i]
  {}

  lemma QueuedIsVisited(p: Problem, m: nat, i: nat)
    requires WellPosed(p) && Thorough(p) && After(p, m).status == Running && m <= i < |After(p, m).queue|
    ensures VisitedAt(p, After(p, m).queue[i], i)
  {
    assert Passes(p, m, i);
    StillRunning(p, i, i + 1);
    StillRunning(p, 0, m);
    StillRunning(p, m, i);
    ReachesPosition(After(p, m), After(p, i), m, i);
  }

  /** A round after which the search goes on has enqueued the block of every predecessor. */
  lemma PredIsQueued(p: Problem, s: Search, q: string) returns (j: nat)
    requires WellPosed(p) && QueueInRange(p, s) && s.status == Running && Round(p, s).status == Running
    requires s.next < |s.queue| && q in Preds(p, s.queue[s.next].bid)
    ensures |s.queue| <= j < |Round(p, s).queue|
    ensures Round(p, s).queue[j].bid == q && WholeBlock(p, Round(p, s).queue[j])
  {
    var preds := Preds(p, s.queue[s.next].bid);
    RoundAppends(p, s);
    EnqueueInRange(p, preds);
    var k :| 0 <= k < |preds| && preds[k] == q;
    j := |s.queue| + k;
    assert Round(p, s).queue[j] == Enqueue(p, preds).value[k];
  }

  /** A visited item that does not end the search lets its predecessors be visited later. */
  lemma PredIsVisited(p: Problem, item: Item, i: nat, q: string) returns (next: Item, j: nat)
    requires WellPosed(p) && Thorough(p) && VisitedAt(p, item, i) && q in Preds(p, item.bid)
    ensures next.bid == q && WholeBlock(p, next) && VisitedAt(p, next, j) && i < j
  {
    assert Passes(p, i, i);
    j := PredIsQueued(p, After(p, i), q);
    next := After(p, i + 1).queue[j];
    QueuedIsVisited(p, i + 1, j);
  }

  /** A thorough search visits the stretch at the end of every walk, the later the longer the walk. */
  lemma {:induction false} WalkIsVisited(p: Problem, path: seq<string>) returns (item: Item, i: nat)
    requires WellPosed(p) && Thorough(p) && Walk(p, path)
    ensures ReachedBy(p, item, path) && VisitedAt(p, item, i) && |path| - 1 <= i
    decreases |path|
  {
    if |path| == 1 {
      item, i := Start(p).queue[0], 0;
    } else {
      var init := path[..|path| - 1];
      assert path[|path| - 1] in Preds(p, path[|path| - 2]);
      item, i := WalkIsVisited(p, init);
      item, i := PredIsVisited(p, item, i, path[|path| - 1]);
    }
  }

  lemma StretchOfWalk(p: Problem, a: Item, b: Item, path: seq<string>)
    requires WellPosed(p) && ReachedBy(p, a, path) && ReachedBy(p, b, path)
    ensures a == b
  {}

  /** A search that does not end never meets an unknown label. */
  lemma EndlessIsKnown(p: Problem)
    requires WellPosed(p) && !Ends(p)
    ensures Known(p)
  {
    EndlessIsThorough(p);
    FindBBFinds(p.bbs, p.addr);
    forall path, b | WalkTo(p, path, b) ensures Lookup(p.bbs, b).Some? {
      var item, i := WalkIsVisited(p, path);
      if |path| == 1 {
        LookupFinds(p.bbs, b);
      }
    }
  }

  /**
    The exact condition for a search with a token that no reached stretch sets: it
    ends if and only if no cycle can be reached, or some reached label is unknown.
   */
  lemma {:induction false} UnsetEndsIff(p: Problem, w: string)
    requires WellPosed(p) && Unset(p, w) && Tidy(p)
    ensures Ends(p) <==> Acyclic(p) || !Known(p)
  {
    if Acyclic(p) {
      AcyclicSearchEnds(p);
    }
    if !Ends(p) {
      EndlessIsKnown(p);
    }
    if Ends(p) && Known(p) {
      UnsetEndsOnlyAcyclic(p, w);
    }
  }

  // ------------------------------------------------------------------
  // A listing on which the search never ends
  // ------------------------------------------------------------------

  const PLAIN := Line(None, true, [], false)
  const LOAD := Line(None, true, ["$0"], false)

  /** A loop that waits for a token set in a later block of the listing, which no walk reaches. */
  const LOOP := Problem([PLAIN, PLAIN, PLAIN, LOAD], [BB("B1", 0, 1, ["B1"]), BB("B2", 2, 3, [])], 1, ["$0.dst"])

  lemma LoopWellPosed()
    ensures WellPosed(LOOP) && Own(LOOP).bid == "B1" && Preds(LOOP, "B1") == ["B1"]
    ensures Lookup(LOOP.bbs, "B1") == Some(BB("B1", 0, 1, ["B1"]))
  {}

  lemma {:induction false} LoopWalk(path: seq<string>, i: nat)
    requires WellPosed(LOOP) && Walk(LOOP, path) && i < |path|
    ensures path[i] == "B1"
  {
    LoopWellPosed();
    if i == 0 {
    } else {
      LoopWalk(path, i - 1);
    }
  }

  lemma LoopStretch(item: Item)
    requires WellPosed(LOOP) && Reached(LOOP, item)
    ensures 0 <= item.start && item.end <= 1
  {
    var path :| ReachedBy(LOOP, item, path);
    LoopWalk(path, |path| - 1);
    LoopWellPosed();
  }

  lemma LoopTidy()
    requires WellPosed(LOOP)
    ensures Unset(LOOP, "$0.dst") && Tidy(LOOP) && Known(LOOP)
  {
    assert LOOP.tokens[0] == "$0.dst";
    forall item | Reached(LOOP, item) ensures !SetIn(LOOP, item, "$0.dst") && HitOnceIn(LOOP, item) {
      LoopStretch(item);
    }
    forall path, b | WalkTo(LOOP, path, b) ensures Lookup(LOOP.bbs, b).Some? {
      LoopWalk(path, |path| - 1);
      LoopWellPosed();
    }
  }

  /** The search of the loop never ends. */
  lemma LoopNeverEnds(n: nat)
    ensures WellPosed(LOOP) && After(LOOP, n).status == Running
  {
    LoopWellPosed();
    LoopTidy();
    assert HasPredIn(LOOP, "B1", {"B1"}) by { assert Preds(LOOP, "B1")[0] == "B1"; }
    CyclicNeverEnds(LOOP, "$0.dst", {"B1"}, n);
  }
}
