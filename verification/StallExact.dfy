/**
  Exactly when the backward search of module Stalls ends, and exactly which tokens
  it resolves when it does.
 */
module StallExact {
  import opened Prelude
  import opened Cfg
  import opened Stalls
  import opened StallProofs
  import opened StallEnds

  // ------------------------------------------------------------------
  // A scan that leaves as many tokens as it found has hit none of them
  // ------------------------------------------------------------------

  lemma {:induction false} MatchTokenSame(s: Scan, waited: string, found: seq<string>, isSync: bool, line: int)
    requires s.Scan?
    requires var r := MatchToken(s, waited, found, isSync, line); r.Scan? && |r.waiting| == |s.waiting|
    ensures MatchToken(s, waited, found, isSync, line) == s && forall f <- found :: !Hits(waited, f, isSync)
    decreases |found|
  {
    if found == [] {
    } else if Hits(waited, found[0], isSync) {
      RemoveFirstRemovesOne(s.waiting, waited);
      MatchTokenShrinks(Take(s, waited, line), waited, found[1..], isSync, line);
    } else {
      MatchTokenSame(s, waited, found[1..], isSync, line);
      assert found == [found[0]] + found[1..];
    }
  }

  lemma {:induction false} MatchFromShrinks(s: Scan, at: nat, found: seq<string>, isSync: bool, line: int)
    requires s.Scan?
    ensures var r := MatchFrom(s, at, found, isSync, line); r.Scan? ==> |r.waiting| <= |s.waiting|
    decreases |s.waiting| - at
  {
    if at >= |s.waiting| {
    } else {
      MatchTokenShrinks(s, s.waiting[at], found, isSync, line);
      var r := MatchToken(s, s.waiting[at], found, isSync, line);
      if r.Scan? {
        MatchFromShrinks(r, at + 1, found, isSync, line);
      }
    }
  }

  lemma {:induction false} MatchFromSame(s: Scan, at: nat, found: seq<string>, isSync: bool, line: int)
    requires s.Scan?
    requires var r := MatchFrom(s, at, found, isSync, line); r.Scan? && |r.waiting| == |s.waiting|
    ensures MatchFrom(s, at, found, isSync, line) == s
    ensures forall k, f :: at <= k < |s.waiting| && f in found ==> !Hits(s.waiting[k], f, isSync)
    decreases |s.waiting| - at
  {
    if at >= |s.waiting| {
    } else {
      var r := MatchToken(s, s.waiting[at], found, isSync, line);
      MatchTokenShrinks(s, s.waiting[at], found, isSync, line);
      MatchFromShrinks(r, at + 1, found, isSync, line);
      MatchTokenSame(s, s.waiting[at], found, isSync, line);
      MatchFromSame(s, at + 1, found, isSync, line);
    }
  }

  lemma {:induction false} ScanBackShrinks(lines: seq<Line>, start: nat, n: nat, s: Scan)
    requires start <= n <= |lines| && s.Scan?
    ensures var r := ScanBack(lines, start, n, s); r.Scan? ==> multiset(r.waiting) <= multiset(s.waiting)
    ensures var r := ScanBack(lines, start, n, s); r.Scan? ==> |r.waiting| <= |s.waiting|
  {
    var r := ScanBack(lines, start, n, s);
    ScanBackFollows(lines, start, n, s);
    if r.Scan? {
      var more := r.blamed[|s.blamed|..];
      assert Tokens(r.blamed) == Tokens(s.blamed) + Tokens(more);
      Cancel(s.waiting, Tokens(s.blamed), r.waiting, Tokens(more));
    }
  }

  lemma Cancel(a: seq<string>, x: seq<string>, b: seq<string>, more: seq<string>)
    requires multiset(a) + multiset(x) == multiset(b) + multiset(x + more)
    ensures multiset(b) <= multiset(a) && |b| <= |a|
  {
    assert multiset(x + more) == multiset(x) + multiset(more);
    forall e ensures multiset(a)[e] == multiset(b)[e] + multiset(more)[e] {
      assert (multiset(a) + multiset(x))[e] == (multiset(b) + (multiset(x) + multiset(more)))[e];
    }
    assert multiset(a) == multiset(b) + multiset(more);
    assert |multiset(a)| == |multiset(b)| + |multiset(more)|;
  }

  /** The stretch sets no token that is waited for. */
  ghost predicate Idle(p: Problem, item: Item, waiting: seq<string>) {
    forall w <- waiting :: !SetIn(p, item, w)
  }

  ghost predicate IdleLines(lines: seq<Line>, start: nat, n: nat, waiting: seq<string>)
    requires n <= |lines|
  {
    forall k: nat, w :: start <= k < n && w in waiting ==> !Sets(lines[k], w)
  }

  lemma {:induction false} ScanBackSame(lines: seq<Line>, start: nat, n: nat, s: Scan)
    requires start <= n <= |lines| && s.Scan?
    requires var r := ScanBack(lines, start, n, s); r.Scan? && |r.waiting| == |s.waiting|
    ensures ScanBack(lines, start, n, s) == s && IdleLines(lines, start, n, s.waiting)
    decreases n
  {
    if start == n || s.waiting == [] {
    } else {
      var l := lines[n - 1];
      if l.addressed {
        var r := MatchFrom(s, 0, l.tokens, l.isSync, n - 1);
        MatchFromShrinks(s, 0, l.tokens, l.isSync, n - 1);
        ScanBackShrinks(lines, start, n - 1, r);
        MatchFromSame(s, 0, l.tokens, l.isSync, n - 1);
        assert forall w <- s.waiting :: !Sets(l, w);
      }
      ScanBackSame(lines, start, n - 1, s);
    }
  }

  lemma {:induction false} MatchFromIdle(s: Scan, at: nat, found: seq<string>, isSync: bool, line: int)
    requires s.Scan? && forall w <- s.waiting, f <- found :: !Hits(w, f, isSync)
    ensures MatchFrom(s, at, found, isSync, line) == s
    decreases |s.waiting| - at
  {
    if at >= |s.waiting| {
    } else {
      NoMatch(s, s.waiting[at], found, isSync, line);
      MatchFromIdle(s, at + 1, found, isSync, line);
    }
  }

  lemma {:induction false} ScanBackIdle(lines: seq<Line>, start: nat, n: nat, s: Scan)
    requires start <= n <= |lines| && s.Scan? && IdleLines(lines, start, n, s.waiting)
    ensures ScanBack(lines, start, n, s) == s
    decreases n
  {
    if start == n || s.waiting == [] {
    } else {
      var l := lines[n - 1];
      if l.addressed {
        assert forall w <- s.waiting :: !Sets(l, w);
        MatchFromIdle(s, 0, l.tokens, l.isSync, n - 1);
      }
      ScanBackIdle(lines, start, n - 1, s);
    }
  }

  // ------------------------------------------------------------------
  // What is waited for from round to round
  // ------------------------------------------------------------------

  lemma RoundShrinks(p: Problem, s: Search)
    requires WellPosed(p) && QueueInRange(p, s)
    ensures multiset(Round(p, s).waiting) <= multiset(s.waiting) && |Round(p, s).waiting| <= |s.waiting|
  {
    if s.status == Running && s.next < |s.queue| {
      var item := s.queue[s.next];
      ScanBackShrinks(p.lines, item.start, item.end + 1, Scan(s.waiting, s.blamed));
    }
  }

  lemma {:induction false} WaitingShrinks(p: Problem, m: nat, n: nat)
    requires WellPosed(p) && m <= n
    ensures multiset(After(p, n).waiting) <= multiset(After(p, m).waiting)
    ensures |After(p, n).waiting| <= |After(p, m).waiting|
    decreases n
  {
    if m == n {
    } else {
      RoundShrinks(p, After(p, n - 1));
      WaitingShrinks(p, m, n - 1);
    }
  }

  /** A search that goes on still waits for something. */
  lemma {:induction false} RunningWaits(p: Problem, n: nat)
    requires WellPosed(p) && p.tokens != [] && After(p, n).status == Running
    ensures After(p, n).waiting != []
  {
    if n == 0 {
    } else {
      RoundWaits(p, After(p, n - 1));
    }
  }

  lemma RoundWaits(p: Problem, s: Search)
    requires WellPosed(p) && QueueInRange(p, s) && Round(p, s).status == Running && s.status == Running
    ensures Round(p, s).waiting != []
  {}

  /** A round that resolves nothing has visited an idle stretch. */
  lemma RoundSame(p: Problem, s: Search)
    requires WellPosed(p) && QueueInRange(p, s) && s.status == Running && s.next < |s.queue|
    requires Round(p, s).status == Running && |Round(p, s).waiting| == |s.waiting|
    ensures Idle(p, s.queue[s.next], s.waiting)
  {
    var item := s.queue[s.next];
    ScanBackSame(p.lines, item.start, item.end + 1, Scan(s.waiting, s.blamed));
  }

  /** From round n on the search waits for the same number of tokens. */
  ghost predicate Stable(p: Problem, n: nat)
    requires WellPosed(p)
  {
    forall k: nat :: n <= k ==> |After(p, k).waiting| == |After(p, n).waiting|
  }

  lemma {:induction false} GetsStable(p: Problem, m: nat) returns (n: nat)
    requires WellPosed(p)
    ensures m <= n && Stable(p, n)
    decreases |After(p, m).waiting|
  {
    if k: nat :| m <= k && |After(p, k).waiting| < |After(p, m).waiting| {
      n := GetsStable(p, k);
    } else {
      n := m;
      forall k: nat | n <= k ensures |After(p, k).waiting| == |After(p, n).waiting| {
        WaitingShrinks(p, n, k);
      }
    }
  }

  lemma RoundVisits(p: Problem, i: nat)
    requires WellPosed(p) && !Ends(p)
    ensures i < |After(p, i).queue| && VisitedAt(p, After(p, i).queue[i], i)
  {
    assert After(p, i + 1).status == Running && After(p, i + 1) == Round(p, After(p, i));
    StillRunning(p, 0, i);
    StillRunning(p, i, i + 1);
    RoundAppends(p, After(p, i));
  }

  lemma SameTokens(p: Problem, n: nat, i: nat)
    requires WellPosed(p) && Stable(p, n) && n <= i
    ensures multiset(After(p, i).waiting) == multiset(After(p, n).waiting)
  {
    WaitingShrinks(p, n, i);
    EqualBySize(After(p, i).waiting, After(p, n).waiting);
  }

  lemma EqualBySize(a: seq<string>, b: seq<string>)
    requires multiset(a) <= multiset(b) && |a| == |b|
    ensures multiset(a) == multiset(b)
  {
    var rest := multiset(b) - multiset(a);
    assert multiset(b) == multiset(a) + rest;
    assert |multiset(b)| == |multiset(a)| + |rest|;
  }

  /** From round n on only idle stretches are visited. */
  lemma IdleVisit(p: Problem, n: nat, i: nat)
    requires WellPosed(p) && !Ends(p) && Stable(p, n) && n <= i
    ensures i < |After(p, i).queue| && Idle(p, After(p, i).queue[i], After(p, i).waiting)
  {
    RoundVisits(p, i);
    assert After(p, i + 1).status == Running && After(p, i + 1) == Round(p, After(p, i));
    assert |After(p, i + 1).waiting| == |After(p, n).waiting| == |After(p, i).waiting|;
    RoundSame(p, After(p, i));
  }

  // ------------------------------------------------------------------
  // Stuck searches
  // ------------------------------------------------------------------

  /** The label names a block, and the block sets no token that is waited for. */
  ghost predicate BlockIdle(p: Problem, b: string, waiting: seq<string>) {
    Lookup(p.bbs, b).Some? && forall item: Item :: item.bid == b && WholeBlock(p, item) ==> Idle(p, item, waiting)
  }

  ghost predicate Pending(s: Search, cycle: set<string>) {
    exists i :: s.next <= i < |s.queue| && s.queue[i].bid in cycle
  }

  /**
    The blocks that are still to be visited lie in a region that no predecessor edge
    leaves and whose blocks set nothing that is waited for; one of them is on, or
    leads to, a cycle.
   */
  ghost predicate StuckIn(p: Problem, s: Search, region: set<string>, cycle: set<string>) {
    && s.status == Running && s.waiting != []
    && SelfFed(p, cycle) && Pending(s, cycle)
    && (forall i :: s.next <= i < |s.queue| ==> s.queue[i].bid in region && WholeBlock(p, s.queue[i]))
    && (forall b <- region :: BlockIdle(p, b, s.waiting) && forall q <- Preds(p, b) :: q in region)
  }

  /** The search is stuck after n rounds. */
  ghost predicate StuckAt(p: Problem, n: nat)
    requires WellPosed(p)
  {
    exists region, cycle :: StuckIn(p, After(p, n), region, cycle)
  }

  lemma IdleRound(p: Problem, s: Search)
    requires WellPosed(p) && QueueInRange(p, s) && s.status == Running && s.waiting != [] && s.next < |s.queue|
    requires Idle(p, s.queue[s.next], s.waiting) && Enqueue(p, Preds(p, s.queue[s.next].bid)).Some?
    ensures Round(p, s) ==
            s.(queue := s.queue + Enqueue(p, Preds(p, s.queue[s.next].bid)).value, next := s.next + 1)
  {
    var item := s.queue[s.next];
    assert forall w <- s.waiting :: !SetIn(p, item, w);
    ScanBackIdle(p.lines, item.start, item.end + 1, Scan(s.waiting, s.blamed));
  }

  lemma StuckRound(p: Problem, s: Search, region: set<string>, cycle: set<string>)
    requires WellPosed(p) && QueueInRange(p, s) && StuckIn(p, s, region, cycle)
    ensures StuckIn(p, Round(p, s), region, cycle)
  {
    var item := s.queue[s.next];
    var preds := Preds(p, item.bid);
    assert BlockIdle(p, item.bid, s.waiting);
    forall q | q in preds ensures Lookup(p.bbs, q).Some? {
      assert BlockIdle(p, q, s.waiting);
    }
    KnownLabelsEnqueue(p, preds);
    EnqueueInRange(p, preds);
    IdleRound(p, s);
    CycleStaysQueued(p, s.queue, s.next, Enqueue(p, preds).value, cycle);
  }

  lemma {:induction false} StuckStays(p: Problem, n: nat, m: nat, region: set<string>, cycle: set<string>)
    requires WellPosed(p) && n <= m && StuckIn(p, After(p, n), region, cycle)
    ensures StuckIn(p, After(p, m), region, cycle)
    decreases m
  {
    if m == n {
    } else {
      StuckStays(p, n, m - 1, region, cycle);
      StuckRound(p, After(p, m - 1), region, cycle);
    }
  }

  lemma StuckNeverEnds(p: Problem, n: nat)
    requires WellPosed(p) && StuckAt(p, n)
    ensures !Ends(p)
  {
    var region, cycle :| StuckIn(p, After(p, n), region, cycle);
    forall m: nat ensures After(p, m).status == Running {
      StuckStays(p, n, if n <= m then m else n, region, cycle);
      StillRunning(p, m, if n <= m then m else n);
    }
  }

  /** Every item but the first is a whole block. */
  lemma {:induction false} QueueIsWhole(p: Problem, n: nat)
    requires WellPosed(p)
    ensures After(p, n).queue != []
    ensures forall i :: 0 < i < |After(p, n).queue| ==> WholeBlock(p, After(p, n).queue[i])
  {
    if n == 0 {
    } else {
      QueueIsWhole(p, n - 1);
      RoundWhole(p, After(p, n - 1));
    }
  }

  lemma RoundWhole(p: Problem, s: Search)
    requires WellPosed(p) && QueueInRange(p, s) && s.queue != []
    requires forall i :: 0 < i < |s.queue| ==> WholeBlock(p, s.queue[i])
    ensures Round(p, s).queue != []
    ensures forall i :: 0 < i < |Round(p, s).queue| ==> WholeBlock(p, Round(p, s).queue[i])
  {
    if s.status == Running {
      RoundAppends(p, s);
      if Round(p, s).status == Running {
        EnqueueInRange(p, Preds(p, s.queue[s.next].bid));
      }
    }
  }

  /** A self-fed set around the stalled block always has a block still to be visited. */
  lemma {:induction false} CycleIsPending(p: Problem, cycle: set<string>, n: nat)
    requires WellPosed(p) && !Ends(p) && SelfFed(p, cycle) && Own(p).bid in cycle
    ensures Pending(After(p, n), cycle)
  {
    if n == 0 {
      assert After(p, 0).queue[0].bid in cycle;
    } else {
      CycleIsPending(p, cycle, n - 1);
      assert After(p, n).status == Running && After(p, n - 1).status == Running;
      RoundPending(p, After(p, n - 1), cycle);
    }
  }

  lemma RoundPending(p: Problem, s: Search, cycle: set<string>)
    requires WellPosed(p) && QueueInRange(p, s) && s.status == Running && Round(p, s).status == Running
    requires SelfFed(p, cycle) && Pending(s, cycle)
    ensures Pending(Round(p, s), cycle)
  {
    RoundAppends(p, s);
    CycleStaysQueued(p, s.queue, s.next, Enqueue(p, Preds(p, s.queue[s.next].bid)).value, cycle);
  }

  /** The label of a stretch that is visited in round n or later. */
  ghost predicate SeenFrom(p: Problem, b: string, n: nat)
    requires WellPosed(p)
  {
    exists i: nat, item: Item :: n <= i && VisitedAt(p, item, i) && item.bid == b
  }

  ghost function SeenLabels(p: Problem, n: nat): set<string>
    requires WellPosed(p)
  {
    set b | b in Labels(p) && SeenFrom(p, b, n)
  }

  lemma VisitedIsSeen(p: Problem, item: Item, i: nat, n: nat)
    requires WellPosed(p) && VisitedAt(p, item, i) && n <= i
    ensures item.bid in SeenLabels(p, n)
  {
    SearchIsCorrect(p, i);
    assert Reached(p, item);
    var path :| ReachedBy(p, item, path);
    assert WalkTo(p, path, item.bid);
    InRegionIff(p, item.bid);
    assert SeenFrom(p, item.bid, n);
  }

  lemma SeenIsClosed(p: Problem, n: nat, b: string)
    requires WellPosed(p) && !Ends(p) && b in SeenLabels(p, n)
    ensures forall q <- Preds(p, b) :: q in SeenLabels(p, n)
  {
    EndlessIsThorough(p);
    var i: nat, item :| n <= i && VisitedAt(p, item, i) && item.bid == b;
    forall q | q in Preds(p, b) ensures q in SeenLabels(p, n) {
      var next, j := PredIsVisited(p, item, i, q);
      VisitedIsSeen(p, next, j, n);
    }
  }

  lemma SeenIsIdle(p: Problem, n: nat, b: string)
    requires WellPosed(p) && !Ends(p) && Stable(p, n) && 0 < n && b in SeenLabels(p, n)
    ensures BlockIdle(p, b, After(p, n).waiting)
  {
    var i: nat, item :| n <= i && VisitedAt(p, item, i) && item.bid == b;
    QueueIsWhole(p, i);
    IdleVisit(p, n, i);
    SameTokens(p, n, i);
    assert WholeBlock(p, item);
    forall other: Item, w | other.bid == b && WholeBlock(p, other) && w in After(p, n).waiting
      ensures !SetIn(p, other, w)
    {
      assert other == item && w in multiset(After(p, i).waiting);
    }
  }

  lemma EndlessGetsStuck(p: Problem) returns (n: nat)
    requires WellPosed(p) && !Ends(p)
    ensures StuckAt(p, n)
  {
    EndlessIsThorough(p);
    n := GetsStable(p, 1);
    var rank, part := RanksOrCycle(p, Region(p));
    if RanksWithin(p, Region(p), rank) {
      RegionClosed(p);
      assert Ranks(p, Region(p), rank);
      AcyclicSearchEnds(p);
    }
    var cycle := CycleAroundStart(p, part);
    var s, region := After(p, n), SeenLabels(p, n);
    CycleIsPending(p, cycle, n);
    assert s.status == Running;
    StillRunning(p, 0, n);
    SomethingWaits(p);
    RunningWaits(p, n);
    QueueIsWhole(p, n);
    forall i | s.next <= i < |s.queue| ensures s.queue[i].bid in region && WholeBlock(p, s.queue[i]) {
      QueuedIsVisited(p, n, i);
      VisitedIsSeen(p, s.queue[i], i, n);
    }
    forall b | b in region ensures BlockIdle(p, b, s.waiting) && forall q <- Preds(p, b) :: q in region {
      SeenIsIdle(p, n, b);
      SeenIsClosed(p, n, b);
    }
    assert StuckIn(p, s, region, cycle);
  }

  lemma SomethingWaits(p: Problem)
    requires WellPosed(p) && !Ends(p)
    ensures p.tokens != []
  {
    assert After(p, 1).status == Running;
    assert After(p, 1) == Round(p, Start(p));
    RoundWaits(p, Start(p));
    RoundShrinks(p, Start(p));
  }

  /**
    For every problem: the search does not end if and only if after some round it is
    stuck, that is, a cycle is still to be visited and nothing that can still be
    visited sets a token that is waited for, or is unknown.
   */
  lemma {:induction false} EndlessIffStuck(p: Problem)
    requires WellPosed(p)
    ensures !Ends(p) <==> exists n: nat :: StuckAt(p, n)
  {
    if !Ends(p) {
      var n := EndlessGetsStuck(p);
      assert StuckAt(p, n);
    } else {
      forall n: nat ensures !StuckAt(p, n) {
        if StuckAt(p, n) {
          StuckNeverEnds(p, n);
        }
      }
    }
  }
}
