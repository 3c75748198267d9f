/**
  What a single line, a single stretch and the first round of the backward search
  of module Stalls do, said without the functions that compute it.
 */
module StallScans {
  import opened Prelude
  import opened Cfg
  import opened Stalls
  import opened StallProofs
  import opened StallEnds
  import opened StallExact
  import opened StallTokens

  // ------------------------------------------------------------------
  // When a token hits
  // ------------------------------------------------------------------

  lemma {:induction false} BaseEndsAtDot(token: string)
    requires Dotted(token)
    ensures Base(token) + "." <= token
  {
    if token[0] == '.' {
      assert Base(token) == "";
    } else {
      assert token == [token[0]] + token[1..];
      BaseEndsAtDot(token[1..]);
      assert Base(token) + "." == [token[0]] + (Base(token[1..]) + ".");
    }
  }

  lemma {:induction false} BaseOfPrefix(found: string, token: string)
    requires '.' !in found && found + "." <= token
    ensures Base(token) == found
  {
    if found == "" {
      assert token[0] == '.';
    } else {
      assert token[0] == found[0] && found == [found[0]] + found[1..];
      assert found[1..] + "." <= token[1..] by {
        assert (found + ".")[1..] == found[1..] + ".";
        assert (found + ".")[1..] == token[..|found| + 1][1..] == token[1..][..|found|];
      }
      BaseOfPrefix(found[1..], token[1..]);
    }
  }

  /**
    A token without a suffix is what a ".dst" or ".src" token waits for; two equal
    tokens without a suffix hit as well, unless the line is a sync.
   */
  lemma {:induction false} HitsIff(waited: string, found: string, isSync: bool)
    ensures Hits(waited, found, isSync) <==>
            '.' !in found && (found + "." <= waited || (waited == found && !isSync))
  {
    BaseHasNoDot(waited);
    BaseHasNoDot(found);
    if found + "." <= waited {
      PrefixHasDot(found, waited);
    }
    if Dotted(waited) {
      BaseEndsAtDot(waited);
      if '.' !in found && found + "." <= waited {
        BaseOfPrefix(found, waited);
      }
    }
  }

  lemma PrefixHasDot(found: string, token: string)
    requires found + "." <= token
    ensures Dotted(token)
  {
    assert token[|found|] == '.';
  }

  // ------------------------------------------------------------------
  // One token against one line
  // ------------------------------------------------------------------

  /** How often the line sets the token. */
  function HitCount(waited: string, found: seq<string>, isSync: bool): nat {
    if found == [] then 0
    else (if Hits(waited, found[0], isSync) then 1 else 0) + HitCount(waited, found[1..], isSync)
  }

  /** n blames of the line for the token. */
  function Blames(line: int, waited: string, n: nat): seq<Blame> {
    seq(n, i requires 0 <= i < n => Blame(line, waited))
  }

  /**
    The inner loop raises exactly when the line sets the token more often than it is
    waited for; otherwise each hit resolves one occurrence and blames the line once.
   */
  lemma {:induction false} MatchTokenCounts(s: Scan, waited: string, found: seq<string>, isSync: bool, line: int)
    requires s.Scan?
    ensures var r, n := MatchToken(s, waited, found, isSync, line), HitCount(waited, found, isSync);
            && (r == ValueError <==> multiset(s.waiting)[waited] < n)
            && (r.Scan? ==>
                  && multiset(r.waiting) == multiset(s.waiting)[waited := multiset(s.waiting)[waited] - n]
                  && r.blamed == s.blamed + Blames(line, waited, n))
    decreases |found|
  {
    if found == [] {
      assert s.blamed + Blames(line, waited, 0) == s.blamed;
    } else if !Hits(waited, found[0], isSync) {
      MatchTokenCounts(s, waited, found[1..], isSync, line);
    } else if waited in s.waiting {
      var t := Take(s, waited, line);
      TakeCounts(s, waited, line);
      MatchTokenCounts(t, waited, found[1..], isSync, line);
      MoreBlames(s.blamed, line, waited, HitCount(waited, found[1..], isSync));
    }
  }

  lemma TakeCounts(s: Scan, waited: string, line: int)
    requires s.Scan? && waited in s.waiting
    ensures multiset(Take(s, waited, line).waiting) == multiset(s.waiting)[waited := multiset(s.waiting)[waited] - 1]
  {
    RemoveFirstRemovesOne(s.waiting, waited);
  }

  lemma MoreBlames(blamed: seq<Blame>, line: int, waited: string, n: nat)
    ensures (blamed + [Blame(line, waited)]) + Blames(line, waited, n) == blamed + Blames(line, waited, n + 1)
  {}

  // ------------------------------------------------------------------
  // One line: the right neighbour of a resolved token is skipped
  // ------------------------------------------------------------------

  /** What is still waited for after the line. */
  ghost function Survivors(waiting: seq<string>, l: Line): seq<string> {
    if waiting == [] then []
    else if !Sets(l, waiting[0]) then [waiting[0]] + Survivors(waiting[1..], l)
    else if |waiting| == 1 then []
    else [waiting[1]] + Survivors(waiting[2..], l)
  }

  /** What the line is blamed for. */
  ghost function Resolved(waiting: seq<string>, l: Line, line: int): seq<Blame> {
    if waiting == [] then []
    else if !Sets(l, waiting[0]) then Resolved(waiting[1..], l, line)
    else if |waiting| == 1 then [Blame(line, waiting[0])]
    else [Blame(line, waiting[0])] + Resolved(waiting[2..], l, line)
  }

  lemma {:induction false} RemoveAt(before: seq<string>, x: string, after: seq<string>)
    requires x !in before
    ensures x in before + [x] + after && RemoveFirst(before + [x] + after, x) == before + after
  {
    var list := before + [x] + after;
    assert list[|before|] == x;
    if before == [] {
      assert list[1..] == before + after;
    } else {
      assert list[1..] == before[1..] + [x] + after;
      RemoveAt(before[1..], x, after);
      assert [before[0]] + (before[1..] + after) == before + after;
    }
  }

  lemma MatchTokenOnce(s: Scan, waited: string, l: Line, line: int)
    requires s.Scan? && waited in s.waiting && l.addressed && HitOnce(waited, l.tokens, l.isSync)
    ensures MatchToken(s, waited, l.tokens, l.isSync, line) == if Sets(l, waited) then Take(s, waited, line) else s
  {
    if Sets(l, waited) {
      TakesOnce(s, waited, l.tokens, l.isSync, line);
    } else {
      NoMatch(s, waited, l.tokens, l.isSync, line);
    }
  }

  lemma {:induction false} TakesOnce(s: Scan, waited: string, found: seq<string>, isSync: bool, line: int)
    requires s.Scan? && waited in s.waiting && HitOnce(waited, found, isSync)
    requires exists f <- found :: Hits(waited, f, isSync)
    ensures MatchToken(s, waited, found, isSync, line) == Take(s, waited, line)
    decreases |found|
  {
    var rest := found[1..];
    if Hits(waited, found[0], isSync) {
      forall f | f in rest ensures !Hits(waited, f, isSync) {
        var i :| 0 <= i < |rest| && rest[i] == f;
        assert found[i + 1] == f;
      }
      NoMatch(Take(s, waited, line), waited, rest, isSync, line);
    } else {
      assert found == [found[0]] + rest;
      assert forall i :: 0 <= i < |rest| ==> rest[i] == found[i + 1];
      TakesOnce(s, waited, rest, isSync, line);
    }
  }

  /** The loop from position |done| on. */
  ghost predicate Skips(done: seq<string>, todo: seq<string>, blamed: seq<Blame>, l: Line, line: int) {
    MatchFrom(Scan(done + todo, blamed), |done|, l.tokens, l.isSync, line)
    == Scan(done + Survivors(todo, l), blamed + Resolved(todo, l, line))
  }

  lemma KeepNext(done: seq<string>, todo: seq<string>, blamed: seq<Blame>, l: Line, line: int)
    requires todo != [] && !Sets(l, todo[0]) && l.addressed && Skips(done + [todo[0]], todo[1..], blamed, l, line)
    ensures Skips(done, todo, blamed, l, line)
  {
    var w, s := todo[0], Scan(done + todo, blamed);
    assert s.waiting[|done|] == w;
    NoMatch(s, w, l.tokens, l.isSync, line);
    assert todo == [w] + todo[1..];
    Associate(done, [w], todo[1..]);
    Associate(done, [w], Survivors(todo[1..], l));
  }

  lemma SkipNext(done: seq<string>, todo: seq<string>, blamed: seq<Blame>, l: Line, line: int)
    requires Distinct(done + todo) && |todo| > 1 && Sets(l, todo[0]) && l.addressed
    requires HitOnce(todo[0], l.tokens, l.isSync)
    requires Skips(done + [todo[1]], todo[2..], blamed + [Blame(line, todo[0])], l, line)
    ensures Skips(done, todo, blamed, l, line)
  {
    var s := Scan(done + todo, blamed);
    ResolveNext(done, todo, blamed, l, line);
    MatchTokenOnce(s, todo[0], l, line);
    assert s.waiting[|done|] == todo[0];
    assert todo[1..] == [todo[1]] + todo[2..];
    Associate(done, [todo[1]], todo[2..]);
    Associate(done, [todo[1]], Survivors(todo[2..], l));
    Associate(blamed, [Blame(line, todo[0])], Resolved(todo[2..], l, line));
  }

  lemma LastNext(done: seq<string>, todo: seq<string>, blamed: seq<Blame>, l: Line, line: int)
    requires Distinct(done + todo) && |todo| == 1 && Sets(l, todo[0]) && l.addressed
    requires HitOnce(todo[0], l.tokens, l.isSync)
    ensures Skips(done, todo, blamed, l, line)
  {
    var s := Scan(done + todo, blamed);
    ResolveNext(done, todo, blamed, l, line);
    MatchTokenOnce(s, todo[0], l, line);
    assert s.waiting[|done|] == todo[0];
    assert done + todo[1..] == done && done + [] == done;
  }

  lemma DistinctWithout(done: seq<string>, todo: seq<string>)
    requires Distinct(done + todo) && |todo| > 1
    ensures Distinct(done + [todo[1]] + todo[2..])
  {
    var all, less := done + todo, done + [todo[1]] + todo[2..];
    forall i, j | 0 <= i < j < |less| ensures less[i] != less[j] {
      var i', j' := if i < |done| then i else i + 1, if j < |done| then j else j + 1;
      assert all[i'] == less[i] && all[j'] == less[j];
    }
  }

  lemma {:induction false} MatchFromSkips(done: seq<string>, todo: seq<string>, blamed: seq<Blame>, l: Line, line: int)
    requires Distinct(done + todo) && l.addressed && forall w <- todo :: HitOnce(w, l.tokens, l.isSync)
    ensures Skips(done, todo, blamed, l, line)
    decreases |todo|
  {
    if todo == [] {
      assert done + [] == done && blamed + [] == blamed;
    } else if !Sets(l, todo[0]) {
      assert done + todo == done + [todo[0]] + todo[1..];
      MatchFromSkips(done + [todo[0]], todo[1..], blamed, l, line);
      KeepNext(done, todo, blamed, l, line);
    } else if |todo| == 1 {
      LastNext(done, todo, blamed, l, line);
    } else {
      DistinctWithout(done, todo);
      MatchFromSkips(done + [todo[1]], todo[2..], blamed + [Blame(line, todo[0])], l, line);
      SkipNext(done, todo, blamed, l, line);
    }
  }

  lemma ResolveNext(done: seq<string>, todo: seq<string>, blamed: seq<Blame>, l: Line, line: int)
    requires Distinct(done + todo) && todo != [] && l.addressed && Sets(l, todo[0])
    requires HitOnce(todo[0], l.tokens, l.isSync)
    ensures todo[0] in done + todo
    ensures Take(Scan(done + todo, blamed), todo[0], line)
            == Scan(done + todo[1..], blamed + [Blame(line, todo[0])])
  {
    forall i | 0 <= i < |done| ensures done[i] != todo[0] {
      assert (done + todo)[i] == done[i] && (done + todo)[|done|] == todo[0];
    }
    assert done + todo == done + [todo[0]] + todo[1..];
    RemoveAt(done, todo[0], todo[1..]);
  }

  /** A line against distinct tokens, none of which it sets twice. */
  lemma {:induction false} LineSkips(waiting: seq<string>, blamed: seq<Blame>, l: Line, line: int)
    requires Distinct(waiting) && l.addressed && forall w <- waiting :: HitOnce(w, l.tokens, l.isSync)
    ensures MatchFrom(Scan(waiting, blamed), 0, l.tokens, l.isSync, line)
            == Scan(Survivors(waiting, l), blamed + Resolved(waiting, l, line))
  {
    assert [] + waiting == waiting;
    MatchFromSkips([], waiting, blamed, l, line);
    assert [] + Survivors(waiting, l) == Survivors(waiting, l);
  }

  // ------------------------------------------------------------------
  // One stretch: the nearest setter is blamed
  // ------------------------------------------------------------------

  /** Line k sets the token, and no later line of lines[..n] does. */
  ghost predicate Nearest(lines: seq<Line>, start: nat, n: nat, k: int, w: string)
    requires n <= |lines|
  {
    start <= k < n && Sets(lines[k], w) && forall j :: k < j < n ==> !Sets(lines[j], w)
  }

  lemma {:induction false} NearestInStretch(lines: seq<Line>, start: nat, n: nat, k: int, w: string, blamed: seq<Blame>)
    requires start <= n <= |lines| && Nearest(lines, start, n, k, w)
    requires HitOnce(w, lines[k].tokens, lines[k].isSync)
    ensures ScanBack(lines, start, n, Scan([w], blamed)) == Scan([], blamed + [Blame(k, w)])
    decreases n
  {
    var l, s := lines[n - 1], Scan([w], blamed);
    if k == n - 1 {
      MatchTokenOnce(s, w, l, n - 1);
      assert Take(s, w, n - 1) == Scan([], blamed + [Blame(k, w)]);
      assert MatchFrom(s, 0, l.tokens, l.isSync, n - 1) == Take(s, w, n - 1);
    } else {
      assert !Sets(l, w);
      if l.addressed {
        MatchFromIdle(s, 0, l.tokens, l.isSync, n - 1);
      }
      NearestInStretch(lines, start, n - 1, k, w, blamed);
    }
  }

  lemma NothingInStretch(lines: seq<Line>, start: nat, n: nat, w: string, blamed: seq<Blame>)
    requires start <= n <= |lines| && forall j :: start <= j < n ==> !Sets(lines[j], w)
    ensures ScanBack(lines, start, n, Scan([w], blamed)) == Scan([w], blamed)
  {
    ScanBackIdle(lines, start, n, Scan([w], blamed));
  }

  /** The first round looks at the lines of the own block above the stalled one, and at no other line. */
  lemma {:induction false} FirstRound(p: Problem, w: string)
    requires WellPosed(p) && p.tokens == [w]
    requires forall k: nat :: Own(p).start <= k < p.addr ==> HitOnce(w, p.lines[k].tokens, p.lines[k].isSync)
    ensures 0 <= Own(p).start <= p.addr
    ensures forall k :: Nearest(p.lines, Own(p).start, p.addr, k, w) ==>
              After(p, 1).blamed == [Blame(k, w)] && After(p, 1).waiting == [] && After(p, 1).status == Finished
    ensures (forall k :: Own(p).start <= k < p.addr ==> !Sets(p.lines[k], w)) ==>
              After(p, 1).blamed == [] && After(p, 1).waiting == [w]
  {
    FindBBFinds(p.bbs, p.addr);
    assert After(p, 1) == Round(p, Start(p));
    forall k | Nearest(p.lines, Own(p).start, p.addr, k, w)
      ensures After(p, 1).blamed == [Blame(k, w)] && After(p, 1).waiting == [] && After(p, 1).status == Finished
    {
      NearestInStretch(p.lines, Own(p).start, p.addr, k, w, []);
      assert [] + [Blame(k, w)] == [Blame(k, w)];
    }
    if forall k :: Own(p).start <= k < p.addr ==> !Sets(p.lines[k], w) {
      NothingInStretch(p.lines, Own(p).start, p.addr, w, []);
    }
  }

  // ------------------------------------------------------------------
  // How a search ends
  // ------------------------------------------------------------------

  lemma ThoroughIsKnown(p: Problem)
    requires WellPosed(p) && Thorough(p)
    ensures Known(p)
  {
    FindBBFinds(p.bbs, p.addr);
    forall path, b | WalkTo(p, path, b) ensures Lookup(p.bbs, b).Some? {
      var item, i := WalkIsVisited(p, path);
      if |path| == 1 {
        LookupFinds(p.bbs, b);
      }
    }
  }

  /** The search still waits for w, and has not raised as long as all labels are known. */
  ghost predicate Holding(p: Problem, s: Search, w: string)
    requires WellPosed(p)
  {
    Correct(p, s) && w in s.waiting && (Known(p) ==> s.status != Raised)
  }

  lemma RoundHolds(p: Problem, s: Search, w: string)
    requires WellPosed(p) && QueueInRange(p, s) && Holding(p, s, w) && Unset(p, w) && Tidy(p)
    ensures Holding(p, Round(p, s), w)
  {
    RoundCorrect(p, s);
    if s.status == Running && s.next < |s.queue| {
      var item := s.queue[s.next];
      assert Reached(p, item);
      WaitedAreTokens(p, s);
      ScanBackKeeps(p, item, item.end + 1, Scan(s.waiting, s.blamed), w);
      if Known(p) {
        KnownEnqueues(p, item);
      }
    }
  }

  lemma {:induction false} UnsetHolds(p: Problem, n: nat, w: string)
    requires WellPosed(p) && Unset(p, w) && Tidy(p)
    ensures Holding(p, After(p, n), w)
  {
    if n == 0 {
      SearchIsCorrect(p, 0);
    } else {
      UnsetHolds(p, n - 1, w);
      RoundHolds(p, After(p, n - 1), w);
    }
  }

  /** A search for a token set nowhere, when it ends, has raised exactly if it can reach an unknown label. */
  lemma {:induction false} UnsetRaisesIff(p: Problem, n: nat, w: string)
    requires WellPosed(p) && Unset(p, w) && Tidy(p) && After(p, n).status != Running
    ensures After(p, n).status == Raised <==> !Known(p)
  {
    UnsetHolds(p, n, w);
    if After(p, n).status == Finished {
      GivenUpIsThorough(p, n);
      ThoroughIsKnown(p);
    }
  }
}
