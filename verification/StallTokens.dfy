/**
  What the backward search of module Stalls does about each single token: when
  every token is set somewhere the search ends, and it resolves exactly the tokens
  that are set, unless a line can make the loop over the shrinking list skip one.
 */
module StallTokens {
  import opened Prelude
  import opened Cfg
  import opened Stalls
  import opened StallProofs
  import opened StallEnds
  import opened StallExact

  // ------------------------------------------------------------------
  // Lines that set a single token
  // ------------------------------------------------------------------

  /** At most one position of the list is set by the line. */
  ghost predicate LoneLine(tokens: seq<string>, line: Line) {
    forall i, j :: 0 <= i < j < |tokens| ==> !(Sets(line, tokens[i]) && Sets(line, tokens[j]))
  }

  ghost predicate LoneIn(p: Problem, item: Item) {
    forall k: nat :: item.start <= k <= item.end && k < |p.lines| ==> LoneLine(p.tokens, p.lines[k])
  }

  lemma LonePosition(tokens: seq<string>, line: Line, w: string, x: string)
    requires LoneLine(tokens, line) && w in tokens && x in tokens && Sets(line, w) && Sets(line, x)
    ensures x == w && multiset(tokens)[w] == 1
  {
    var i :| 0 <= i < |tokens| && tokens[i] == w;
    var j :| 0 <= j < |tokens| && tokens[j] == x;
    assert i == j;
    forall k | 0 <= k < |tokens| && k != i ensures tokens[k] != w {}
    OccursOnce(tokens, i);
  }

  lemma OccursOnce(tokens: seq<string>, i: nat)
    requires i < |tokens| && forall k :: 0 <= k < |tokens| && k != i ==> tokens[k] != tokens[i]
    ensures multiset(tokens)[tokens[i]] == 1
  {
    var before, after := tokens[..i], tokens[i + 1..];
    assert tokens == before + [tokens[i]] + after;
    assert tokens[i] !in before && tokens[i] !in after;
  }

  /** What is waited for, given that a line sets w: w once, and no other token that the line sets. */
  ghost predicate OnlyOne(waiting: seq<string>, line: Line, w: string) {
    && Sets(line, w) && multiset(waiting)[w] <= 1
    && forall x <- waiting :: Sets(line, x) ==> x == w
  }

  lemma LoneIsOnlyOne(tokens: seq<string>, waiting: seq<string>, line: Line, w: string)
    requires LoneLine(tokens, line) && Sets(line, w) && w in tokens && multiset(waiting) <= multiset(tokens)
    ensures OnlyOne(waiting, line, w)
  {
    LonePosition(tokens, line, w, w);
    forall x | x in waiting && Sets(line, x) ensures x == w {
      assert x in multiset(waiting);
      LonePosition(tokens, line, w, x);
    }
  }

  lemma {:induction false} MatchTokenTakes(s: Scan, waited: string, found: seq<string>, isSync: bool, line: int)
    requires s.Scan? && exists f <- found :: Hits(waited, f, isSync)
    ensures var r := MatchToken(s, waited, found, isSync, line);
            r.Scan? ==> multiset(r.waiting) + multiset{waited} <= multiset(s.waiting)
    decreases |found|
  {
    if !Hits(waited, found[0], isSync) {
      var f :| f in found && Hits(waited, f, isSync);
      assert found == [found[0]] + found[1..];
      MatchTokenTakes(s, waited, found[1..], isSync, line);
    } else if waited in s.waiting {
      RemoveFirstRemovesOne(s.waiting, waited);
      MatchTokenOnlyTakes(Take(s, waited, line), waited, found[1..], isSync, line);
    }
  }

  lemma {:induction false} MatchTokenOnlyTakes(s: Scan, waited: string, found: seq<string>, isSync: bool, line: int)
    requires s.Scan?
    ensures var r := MatchToken(s, waited, found, isSync, line);
            r.Scan? ==> multiset(r.waiting) <= multiset(s.waiting)
    decreases |found|
  {
    if found == [] {
    } else if !Hits(waited, found[0], isSync) {
      MatchTokenOnlyTakes(s, waited, found[1..], isSync, line);
    } else if waited in s.waiting {
      RemoveFirstRemovesOne(s.waiting, waited);
      MatchTokenOnlyTakes(Take(s, waited, line), waited, found[1..], isSync, line);
    }
  }

  lemma {:induction false} MatchFromOnlyTakes(s: Scan, at: nat, found: seq<string>, isSync: bool, line: int)
    requires s.Scan?
    ensures var r := MatchFrom(s, at, found, isSync, line); r.Scan? ==> multiset(r.waiting) <= multiset(s.waiting)
    decreases |s.waiting| - at
  {
    if at >= |s.waiting| {
    } else {
      MatchTokenOnlyTakes(s, s.waiting[at], found, isSync, line);
      MatchTokenShrinks(s, s.waiting[at], found, isSync, line);
      var r := MatchToken(s, s.waiting[at], found, isSync, line);
      if r.Scan? {
        MatchFromOnlyTakes(r, at + 1, found, isSync, line);
      }
    }
  }

  /** A line that sets w, and no other token that is waited for, removes w or raises. */
  lemma {:induction false} LineRemoves(s: Scan, at: nat, l: Line, n: int, w: string)
    requires s.Scan? && OnlyOne(s.waiting, l, w) && w !in s.waiting[..if at < |s.waiting| then at else |s.waiting|]
    ensures var r := MatchFrom(s, at, l.tokens, l.isSync, n); r.Scan? ==> w !in r.waiting
    decreases |s.waiting| - at
  {
    if at >= |s.waiting| {
    } else if s.waiting[at] == w {
      MatchTokenTakes(s, w, l.tokens, l.isSync, n);
      MatchTokenShrinks(s, w, l.tokens, l.isSync, n);
      var r := MatchToken(s, w, l.tokens, l.isSync, n);
      if r.Scan? {
        MatchFromOnlyTakes(r, at + 1, l.tokens, l.isSync, n);
        Gone(s.waiting, MatchFrom(r, at + 1, l.tokens, l.isSync, n), r.waiting, w);
      }
    } else {
      assert !Sets(l, s.waiting[at]);
      NoMatch(s, s.waiting[at], l.tokens, l.isSync, n);
      LineRemoves(s, at + 1, l, n, w);
    }
  }

  lemma Gone(waiting: seq<string>, last: Scan, left: seq<string>, w: string)
    requires multiset(waiting)[w] <= 1 && multiset(left) + multiset{w} <= multiset(waiting)
    requires last.Scan? ==> multiset(last.waiting) <= multiset(left)
    ensures last.Scan? ==> w !in last.waiting
  {
    assert (multiset(left) + multiset{w})[w] == multiset(left)[w] + 1;
    if last.Scan? {
      assert multiset(last.waiting)[w] <= multiset(left)[w];
    }
  }

  lemma StaysGone(a: seq<string>, b: seq<string>, w: string)
    requires multiset(b) <= multiset(a) && w !in a
    ensures w !in b
  {
    assert multiset(b)[w] <= multiset(a)[w];
  }

  lemma ScanStaysGone(lines: seq<Line>, start: nat, n: nat, s: Scan, w: string)
    requires start <= n <= |lines| && s.Scan? && w !in s.waiting
    ensures var r := ScanBack(lines, start, n, s); r.Scan? ==> w !in r.waiting
  {
    ScanBackShrinks(lines, start, n, s);
    if ScanBack(lines, start, n, s).Scan? {
      StaysGone(s.waiting, ScanBack(lines, start, n, s).waiting, w);
    }
  }

  /** A stretch with such a line leaves w resolved, or raises. */
  lemma {:induction false} ScanRemoves(p: Problem, start: nat, n: nat, s: Scan, k: nat, w: string)
    requires start <= k < n <= |p.lines| && s.Scan? && multiset(s.waiting) <= multiset(p.tokens)
    requires w in p.tokens && Sets(p.lines[k], w) && LoneLine(p.tokens, p.lines[k])
    ensures var r := ScanBack(p.lines, start, n, s); r.Scan? ==> w !in r.waiting
    decreases n
  {
    var l := p.lines[n - 1];
    if w !in s.waiting {
      ScanStaysGone(p.lines, start, n, s, w);
    } else if k == n - 1 {
      LoneIsOnlyOne(p.tokens, s.waiting, l, w);
      LineRemoves(s, 0, l, n - 1, w);
      var r := MatchFrom(s, 0, l.tokens, l.isSync, n - 1);
      if r.Scan? {
        ScanStaysGone(p.lines, start, n - 1, r, w);
      }
    } else if l.addressed {
      MatchFromOnlyTakes(s, 0, l.tokens, l.isSync, n - 1);
      var r := MatchFrom(s, 0, l.tokens, l.isSync, n - 1);
      if r.Scan? {
        ScanRemoves(p, start, n - 1, r, k, w);
      }
    } else {
      ScanRemoves(p, start, n - 1, s, k, w);
    }
  }

  lemma WaitedFor(p: Problem, i: nat)
    requires WellPosed(p)
    ensures multiset(After(p, i).waiting) <= multiset(p.tokens)
  {
    WaitingShrinks(p, 0, i);
  }

  /** Once a stretch that sets w, by a line that sets only w, has been passed, w stays resolved. */
  lemma VisitRemoves(p: Problem, item: Item, i: nat, n: nat, w: string)
    requires WellPosed(p) && VisitedAt(p, item, i) && After(p, i + 1).status == Running && i < n
    requires w in p.tokens && SetIn(p, item, w) && LoneIn(p, item)
    ensures w !in After(p, n).waiting
  {
    var k: nat :| item.start <= k <= item.end && k < |p.lines| && Sets(p.lines[k], w);
    WaitedFor(p, i);
    RoundRemoves(p, After(p, i), k, w);
    assert w !in After(p, i + 1).waiting;
    WaitingShrinks(p, i + 1, n);
    StaysGone(After(p, i + 1).waiting, After(p, n).waiting, w);
  }

  lemma RoundRemoves(p: Problem, s: Search, k: nat, w: string)
    requires WellPosed(p) && QueueInRange(p, s) && s.status == Running && s.next < |s.queue| && w in p.tokens
    requires Round(p, s).status == Running && multiset(s.waiting) <= multiset(p.tokens)
    requires s.queue[s.next].start <= k <= s.queue[s.next].end && k < |p.lines|
    requires Sets(p.lines[k], w) && LoneLine(p.tokens, p.lines[k])
    ensures w !in Round(p, s).waiting
  {
    var item := s.queue[s.next];
    ScanRemoves(p, item.start, item.end + 1, Scan(s.waiting, s.blamed), k, w);
  }

  // ------------------------------------------------------------------
  // Blocks behind a cycle
  // ------------------------------------------------------------------

  /** The walk to the label passes some block twice. */
  ghost predicate LoopsAt(p: Problem, path: seq<string>, i: nat, j: nat, b: string)
    requires WellPosed(p)
  {
    WalkTo(p, path, b) && i < j < |path| && path[i] == path[j]
  }

  /** The label can be reached from a cycle, so walks to it can be as long as one likes. */
  ghost predicate Loops(p: Problem, b: string)
    requires WellPosed(p)
  {
    exists path, i: nat, j: nat :: LoopsAt(p, path, i, j, b)
  }

  /** Going round once more. */
  lemma Longer(p: Problem, path: seq<string>, i: nat, j: nat, b: string)
    requires WellPosed(p) && LoopsAt(p, path, i, j, b)
    ensures LoopsAt(p, path[..j] + path[i..], i, j, b)
  {
    var longer := path[..j] + path[i..];
    forall k | 0 < k < |longer| ensures longer[k] in Preds(p, longer[k - 1]) {
      if k < j {
        assert longer[k] == path[k] && longer[k - 1] == path[k - 1];
      } else if k == j {
        assert longer[k] == path[i] == path[j] && longer[k - 1] == path[j - 1];
      } else {
        assert longer[k] == path[i + (k - j)] && longer[k - 1] == path[i + (k - 1 - j)];
      }
    }
  }

  lemma {:induction false} LongWalk(p: Problem, path: seq<string>, i: nat, j: nat, b: string, n: nat)
    returns (long: seq<string>)
    requires WellPosed(p) && LoopsAt(p, path, i, j, b)
    ensures WalkTo(p, long, b) && n < |long|
    decreases n - |path|
  {
    if n < |path| {
      long := path;
    } else {
      Longer(p, path, i, j, b);
      long := LongWalk(p, path[..j] + path[i..], i, j, b, n);
    }
  }

  /** A thorough search visits such a block later than any given round. */
  lemma LoopIsVisited(p: Problem, item: Item, path: seq<string>, a: nat, b: nat, n: nat) returns (i: nat)
    requires WellPosed(p) && LoopsAt(p, path, a, b, item.bid) && WholeBlock(p, item) && Thorough(p)
    ensures n < i && VisitedAt(p, item, i)
  {
    var long := LongWalk(p, path, a, b, item.bid, n + 1);
    var visited;
    visited, i := WalkIsVisited(p, long);
    assert ReachedBy(p, item, long);
    StretchOfWalk(p, item, visited, long);
  }

  // ------------------------------------------------------------------
  // Exactly when the search ends
  // ------------------------------------------------------------------

  /** Every reached stretch that sets two tokens by one line is a block that can be reached from a cycle. */
  ghost predicate Lonely(p: Problem)
    requires WellPosed(p)
  {
    forall item :: Reached(p, item) && !LoneIn(p, item) ==> WholeBlock(p, item) && Loops(p, item.bid)
  }

  /** Every token is set in some reached stretch. */
  ghost predicate AllSet(p: Problem)
    requires WellPosed(p)
  {
    forall w <- p.tokens :: !Unset(p, w)
  }

  /** A stretch that sets a token for which an endless search waits forever is visited early, and sets two tokens. */
  lemma EndlessLeavesUnset(p: Problem)
    requires WellPosed(p) && Lonely(p) && !Ends(p)
    ensures !AllSet(p)
  {
    EndlessIsThorough(p);
    var n := GetsStable(p, 0);
    SomethingWaits(p);
    assert After(p, n).status == Running;
    RunningWaits(p, n);
    var w := After(p, n).waiting[0];
    WaitingShrinks(p, 0, n);
    assert w in multiset(After(p, n).waiting) && w in p.tokens;
    forall item | Reached(p, item) ensures !SetIn(p, item, w) {
      if SetIn(p, item, w) {
        SetIsResolved(p, item, w, n);
      }
    }
    assert Unset(p, w);
  }

  lemma SetIsResolved(p: Problem, item: Item, w: string, n: nat)
    requires WellPosed(p) && Lonely(p) && !Ends(p) && Stable(p, n) && w in p.tokens
    requires Reached(p, item) && SetIn(p, item, w)
    ensures w !in After(p, n).waiting
  {
    EndlessIsThorough(p);
    var path :| ReachedBy(p, item, path);
    var visited, i := WalkIsVisited(p, path);
    StretchOfWalk(p, item, visited, path);
    if n <= i {
      LateVisit(p, item, i, n, w);
    } else if LoneIn(p, item) {
      assert After(p, i + 1).status == Running;
      VisitRemoves(p, item, i, n, w);
    } else {
      var loop, a: nat, b: nat :| LoopsAt(p, loop, a, b, item.bid);
      var late := LoopIsVisited(p, item, loop, a, b, n);
      LateVisit(p, item, late, n, w);
    }
  }

  lemma LateVisit(p: Problem, item: Item, i: nat, n: nat, w: string)
    requires WellPosed(p) && !Ends(p) && Stable(p, n) && n <= i && VisitedAt(p, item, i) && SetIn(p, item, w)
    ensures w !in After(p, n).waiting
  {
    IdleVisit(p, n, i);
    SameTokens(p, n, i);
    StaysGone(After(p, i).waiting, After(p, n).waiting, w);
  }

  /**
    When no line sets two of the tokens, except behind a cycle, a search whose tokens
    are all set ends; when some token is not set and no line sets a token twice, it
    ends only without a cycle or at an unknown label.
   */
  lemma {:induction false} SearchEndsIff(p: Problem)
    requires WellPosed(p) && if AllSet(p) then Lonely(p) else Tidy(p)
    ensures Ends(p) <==> Acyclic(p) || !Known(p) || AllSet(p)
  {
    if AllSet(p) {
      if !Ends(p) {
        EndlessLeavesUnset(p);
      }
    } else {
      var w :| w in p.tokens && Unset(p, w);
      UnsetEndsIff(p, w);
    }
  }

  lemma UnsetSingleIsTidy(p: Problem, w: string)
    requires WellPosed(p) && p.tokens == [w] && Unset(p, w)
    ensures Tidy(p)
  {
    forall item, k: nat | Reached(p, item) && item.start <= k <= item.end && k < |p.lines| && p.lines[k].addressed
      ensures HitOnce(w, p.lines[k].tokens, p.lines[k].isSync)
    {
      assert !SetIn(p, item, w);
      assert !Sets(p.lines[k], w);
    }
  }

  lemma SingleIsLonely(p: Problem)
    requires WellPosed(p) && |p.tokens| == 1
    ensures Lonely(p)
  {
    forall item | Reached(p, item) ensures LoneIn(p, item) {}
  }

  /** For a single token there is no condition on the listing. */
  lemma {:induction false} SingleTokenEndsIff(p: Problem, w: string)
    requires WellPosed(p) && p.tokens == [w]
    ensures Ends(p) <==> Acyclic(p) || !Known(p) || !Unset(p, w)
  {
    SingleIsLonely(p);
    if Unset(p, w) {
      UnsetSingleIsTidy(p, w);
    }
    SearchEndsIff(p);
  }

  // ------------------------------------------------------------------
  // Exactly which tokens are resolved
  // ------------------------------------------------------------------

  /** Round k is the last one, and has found nothing left to visit. */
  ghost predicate LastAt(p: Problem, k: nat)
    requires WellPosed(p)
  {
    After(p, k).status == Running && |After(p, k).queue| <= k && After(p, k + 1).status != Running
  }

  /** A search that finishes with something left to wait for has visited everything in its queue. */
  lemma {:induction false} LastRound(p: Problem, n: nat) returns (k: nat)
    requires WellPosed(p) && After(p, n).status == Finished && After(p, n).waiting != []
    ensures LastAt(p, k)
  {
    if n == 0 {
    } else if After(p, n - 1).status == Running {
      k := n - 1;
      assert After(p, n) == Round(p, After(p, k));
      RoundGivesUp(p, After(p, k));
      StillRunning(p, 0, k);
    } else {
      assert After(p, n) == After(p, n - 1);
      k := LastRound(p, n - 1);
    }
  }

  lemma RoundGivesUp(p: Problem, s: Search)
    requires WellPosed(p) && QueueInRange(p, s) && s.status == Running
    requires Round(p, s).status == Finished && Round(p, s).waiting != []
    ensures |s.queue| <= s.next
  {}

  lemma RunningBefore(p: Problem, i: nat, n: nat)
    requires WellPosed(p) && After(p, i).status == Running && After(p, n).status != Running
    ensures i < n
  {
    if n <= i {
      StillRunning(p, n, i);
    }
  }

  lemma EarlierQueue(p: Problem, m: nat, k: nat)
    requires WellPosed(p) && m <= k && After(p, k).status == Running
    ensures |After(p, m).queue| <= |After(p, k).queue|
  {
    StillRunning(p, m, k);
  }

  lemma EarlierRuns(p: Problem, m: nat, k: nat)
    requires WellPosed(p) && m <= k && After(p, k).status == Running
    ensures After(p, m).status == Running
  {
    StillRunning(p, m, k);
  }

  /** Round k visits no item, so no queue before it holds more than k items. */
  lemma QueueWithin(p: Problem, k: nat, n: nat, m: nat)
    requires WellPosed(p) && After(p, k).status == Running && |After(p, k).queue| <= k
    requires n == k + 1 && After(p, n).status != Running && After(p, m).status == Running
    ensures |After(p, m).queue| <= k
  {
    RunningBefore(p, m, n);
    EarlierQueue(p, m, k);
  }

  lemma PassesBefore(p: Problem, k: nat, n: nat, m: nat, i: nat)
    requires WellPosed(p) && After(p, k).status == Running && |After(p, k).queue| <= k
    requires n == k + 1 && After(p, n).status != Running
    ensures Passes(p, m, i)
  {
    if After(p, m).status == Running {
      QueueWithin(p, k, n, m);
      if i < |After(p, m).queue| {
        EarlierRuns(p, i + 1, k);
      }
    }
  }

  lemma LastIsThorough(p: Problem, k: nat)
    requires WellPosed(p) && LastAt(p, k)
    ensures Thorough(p)
  {
    forall m: nat, i: nat ensures Passes(p, m, i) {
      PassesBefore(p, k, k + 1, m, i);
    }
  }

  lemma GivenUpIsThorough(p: Problem, n: nat)
    requires WellPosed(p) && After(p, n).status == Finished && After(p, n).waiting != []
    ensures Thorough(p)
  {
    var k := LastRound(p, n);
    LastIsThorough(p, k);
  }

  /** A search that gives up has no block behind a cycle, so no reached line sets two tokens. */
  lemma GivenUpIsLone(p: Problem, n: nat, item: Item)
    requires WellPosed(p) && Lonely(p) && After(p, n).status == Finished && After(p, n).waiting != []
    requires Reached(p, item)
    ensures LoneIn(p, item)
  {
    if !LoneIn(p, item) {
      GivenUpIsThorough(p, n);
      var loop, a: nat, b: nat :| LoopsAt(p, loop, a, b, item.bid);
      var late := LoopIsVisited(p, item, loop, a, b, n);
      RunningBefore(p, late, n);
    }
  }

  lemma SetIsNotLeft(p: Problem, n: nat, item: Item, w: string)
    requires WellPosed(p) && Lonely(p) && After(p, n).status == Finished && w in p.tokens
    requires Reached(p, item) && SetIn(p, item, w)
    ensures w !in After(p, n).waiting
  {
    if After(p, n).waiting != [] {
      GivenUpIsThorough(p, n);
      GivenUpIsLone(p, n, item);
      var path :| ReachedBy(p, item, path);
      var visited, i := WalkIsVisited(p, path);
      StretchOfWalk(p, item, visited, path);
      assert Passes(p, i, i);
      RunningBefore(p, i, n);
      VisitRemoves(p, item, i, n, w);
    }
  }

  lemma ResolvedIsSet(p: Problem, s: Search, w: string)
    requires WellPosed(p) && Correct(p, s) && w in p.tokens && w !in s.waiting
    ensures !Unset(p, w)
  {
    assert w in Balance(s.waiting, s.blamed);
    assert w in Tokens(s.blamed);
    var k :| 0 <= k < |s.blamed| && s.blamed[k].token == w;
    assert Sound(p, s.blamed[k]);
    var item :| SoundIn(p, s.blamed[k], item);
    assert Sets(p.lines[s.blamed[k].line], w);
    assert SetIn(p, item, w);
  }

  /** A search that finishes has resolved exactly the tokens that some reached stretch sets. */
  lemma {:induction false} FinishedResolvesIff(p: Problem, n: nat, w: string)
    requires WellPosed(p) && Lonely(p) && After(p, n).status == Finished && w in p.tokens
    ensures w in After(p, n).waiting <==> Unset(p, w)
  {
    SearchIsCorrect(p, n);
    if w !in After(p, n).waiting {
      ResolvedIsSet(p, After(p, n), w);
    } else {
      forall item | Reached(p, item) ensures !SetIn(p, item, w) {
        if SetIn(p, item, w) {
          SetIsNotLeft(p, n, item, w);
        }
      }
    }
  }

  /** With a single token: a search that finishes blames an instruction iff a reached stretch sets the token. */
  lemma {:induction false} SingleTokenBlamedIff(p: Problem, n: nat, w: string)
    requires WellPosed(p) && p.tokens == [w] && After(p, n).status == Finished
    ensures After(p, n).blamed != [] <==> !Unset(p, w)
  {
    SingleIsLonely(p);
    FinishedResolvesIff(p, n, w);
    SearchIsCorrect(p, n);
    OneOfTwo(After(p, n).waiting, Tokens(After(p, n).blamed), w);
  }

  lemma OneOfTwo(a: seq<string>, b: seq<string>, w: string)
    requires multiset(a) + multiset(b) == multiset([w])
    ensures b != [] <==> w !in a
  {
    assert |multiset(a)| + |multiset(b)| == 1;
    if a != [] {
      assert a[0] in multiset(a) + multiset(b);
    }
  }

  // ------------------------------------------------------------------
  // A listing on which a token is skipped
  // ------------------------------------------------------------------

  const BOTH := Line(None, true, ["$0", "$1"], false)

  /** Both tokens are set by the line above the stalled one, in front of a loop that sets neither. */
  const SKIP :=
    Problem([BOTH, PLAIN, PLAIN], [BB("B1", 0, 1, ["B2"]), BB("B2", 2, 2, ["B2"])], 1, ["$0.dst", "$1.dst"])

  lemma BaseOfDst(token: string)
    requires |token| == 2 && token[0] != '.' && token[1] != '.'
    ensures Base(token + ".dst") == token && Dotted(token + ".dst")
  {
    var dst := token + ".dst";
    assert dst[1..][1..][0] == '.' && Base(dst[1..][1..]) == "";
    assert Base(dst[1..]) == [token[1]] + "";
    assert dst[2] == '.';
    assert Base(dst) == [token[0]] + Base(dst[1..]);
  }

  lemma SkipHits()
    ensures Hits("$0.dst", "$0", false) && !Hits("$0.dst", "$1", false)
    ensures Hits("$1.dst", "$1", false) && !Hits("$1.dst", "$0", false)
  {
    BaseOfDst("$0");
    BaseOfDst("$1");
    assert "$0" + ".dst" == "$0.dst" && "$1" + ".dst" == "$1.dst";
    assert "$0"[1] != "$1"[1];
  }

  lemma SkipScan()
    ensures ScanBack(SKIP.lines, 0, 1, Scan(SKIP.tokens, [])) == Scan(["$1.dst"], [Blame(0, "$0.dst")])
  {
    SkipHits();
    var s, found := Scan(SKIP.tokens, []), ["$0", "$1"];
    var t := Scan(["$1.dst"], [Blame(0, "$0.dst")]);
    assert Take(s, "$0.dst", 0) == t;
    assert found[1..] == ["$1"] && ["$1"][1..] == [];
    assert MatchToken(t, "$0.dst", ["$1"], false, 0) == t;
    assert MatchToken(s, "$0.dst", found, false, 0) == t;
    assert MatchFrom(s, 0, found, false, 0) == MatchFrom(t, 1, found, false, 0) == t;
  }

  lemma SkipWellPosed()
    ensures WellPosed(SKIP) && Own(SKIP).bid == "B1" && Preds(SKIP, "B1") == Preds(SKIP, "B2") == ["B2"]
    ensures Start(SKIP) == Search(SKIP.tokens, [], [Item("B1", 0, 0)], 0, Running)
  {}

  /** After one round the second token is still waited for, and only the loop is left to visit. */
  lemma SkipRound()
    ensures WellPosed(SKIP)
    ensures After(SKIP, 1) ==
            Search(["$1.dst"], [Blame(0, "$0.dst")], [Item("B1", 0, 0), Item("B2", 2, 2)], 1, Running)
  {
    SkipWellPosed();
    SkipScan();
    assert ["B2"][1..] == [];
    assert Enqueue(SKIP, ["B2"]) == Some([Item("B2", 2, 2)] + []);
    assert After(SKIP, 1) == Round(SKIP, Start(SKIP));
  }

  lemma SkipStuck(s: Search)
    requires WellPosed(SKIP)
    requires s == Search(["$1.dst"], [Blame(0, "$0.dst")], [Item("B1", 0, 0), Item("B2", 2, 2)], 1, Running)
    ensures StuckIn(SKIP, s, {"B2"}, {"B2"})
  {
    SkipWellPosed();
    assert HasPredIn(SKIP, "B2", {"B2"}) by { assert Preds(SKIP, "B2")[0] == "B2"; }
    assert s.queue[1].bid in {"B2"};
    forall item: Item | item.bid == "B2" && WholeBlock(SKIP, item) ensures Idle(SKIP, item, ["$1.dst"]) {
      assert item == Item("B2", 2, 2);
    }
  }

  /**
    Both tokens are set by one line in front of the loop. The iteration over the
    shrinking list skips the second one, and the search never ends.
   */
  lemma SkippedNeverEnds()
    ensures WellPosed(SKIP) && AllSet(SKIP) && !Ends(SKIP)
  {
    SkipWellPosed();
    SkipRound();
    SkipAllSet();
    SkipStuck(After(SKIP, 1));
    StuckNeverEnds(SKIP, 1);
  }

  lemma SkipAllSet()
    requires WellPosed(SKIP)
    ensures AllSet(SKIP)
  {
    SkipWellPosed();
    SkipHits();
    var item := Item("B1", 0, 0);
    assert ReachedBy(SKIP, item, ["B1"]);
    assert BOTH.tokens[0] == "$0" && BOTH.tokens[1] == "$1";
    assert Sets(SKIP.lines[0], "$0.dst") && Sets(SKIP.lines[0], "$1.dst");
    assert SetIn(SKIP, item, "$0.dst") && SetIn(SKIP, item, "$1.dst");
  }
}
