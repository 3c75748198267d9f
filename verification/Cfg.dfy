/**
  Basic blocks of a GPU assembly listing: ConstructCFG and FindBB in
  tools/unitrace/scripts/metrics/analyzeperfmetrics.py.
 */
module Cfg {
  import opened Prelude

  /** A block header line: its label and the labels of the predecessors. */
  datatype Header = Header(bid: string, preds: seq<string>)

  /** What the analysis looks at in a line of the listing. */
  datatype Line = Line(
    header: Option<Header>,
    addressed: bool,      // an instruction with an address in front
    tokens: seq<string>,  // the tokens starting with '$' in its first brace group
    isSync: bool          // contains "sync."
  )

  datatype BB = BB(bid: string, start: int, end: int, preds: seq<string>) {
    predicate InBB(ins: int) {
      start <= ins <= end
    }
  }

  // ------------------------------------------------------------------
  // The blocks of a listing
  // ------------------------------------------------------------------

  predicate IsHead(lines: seq<Line>, i: nat) {
    i < |lines| && lines[i].header.Some?
  }

  function Id(lines: seq<Line>, h: nat): string
    requires IsHead(lines, h)
  {
    lines[h].header.value.bid
  }

  /** The first header line at or after i, or the number of lines. */
  function NextHead(lines: seq<Line>, i: nat): (next: nat)
    requires i <= |lines|
    ensures i <= next <= |lines| && (next < |lines| ==> IsHead(lines, next))
    ensures forall k :: i <= k < next ==> !IsHead(lines, k)
    decreases |lines| - i
  {
    if i == |lines| || IsHead(lines, i) then i else NextHead(lines, i + 1)
  }

  /** The block of a header: up to the line before the next header, or the last line. */
  function BlockAt(lines: seq<Line>, h: nat): BB
    requires IsHead(lines, h)
  {
    BB(Id(lines, h), h, NextHead(lines, h + 1) - 1, lines[h].header.value.preds)
  }

  /** bbs[bid] = bb on an insertion-ordered dictionary. */
  function Put(bbs: seq<BB>, bb: BB): seq<BB> {
    if bbs == [] then [bb]
    else if bbs[0].bid == bb.bid then [bb] + bbs[1..]
    else [bbs[0]] + Put(bbs[1..], bb)
  }

  /** The dictionary after the blocks of all header lines before line n have been stored. */
  function Stored(lines: seq<Line>, n: nat): seq<BB>
    requires n <= |lines|
  {
    if n == 0 then []
    else if IsHead(lines, n - 1) then Put(Stored(lines, n - 1), BlockAt(lines, n - 1))
    else Stored(lines, n - 1)
  }

  function Blocks(lines: seq<Line>): seq<BB> {
    var bbs := Stored(lines, |lines|);
    if bbs == [] then [BB("B000", 0, |lines| - 1, [])] else bbs
  }

  /** bbs[bb_id] = bb */
  method Store(bbs: seq<BB>, bb: BB) returns (result: seq<BB>)
    ensures result == Put(bbs, bb)
  {
    var i := 0;
    while i < |bbs| && bbs[i].bid != bb.bid
      invariant 0 <= i <= |bbs|
      invariant Put(bbs, bb) == bbs[..i] + Put(bbs[i..], bb)
    {
      assert bbs[i..][1..] == bbs[i + 1..];
      i := i + 1;
    }
    if i == |bbs| {
      result := bbs + [bb];
    } else {
      result := bbs[i := bb];
    }
  }

  lemma {:induction false} StoredSkips(lines: seq<Line>, m: nat, n: nat)
    requires m <= n <= |lines| && forall k :: m <= k < n ==> !IsHead(lines, k)
    ensures Stored(lines, n) == Stored(lines, m)
  {
    if n <= m {
    } else {
      StoredSkips(lines, m, n - 1);
    }
  }

  /** A block of the last header of some label. */
  ghost predicate IsBlock(lines: seq<Line>, bb: BB) {
    exists h: nat :: LastOfLabel(lines, h) && OfHeader(lines, h, bb)
  }

  method ConstructCFG(lines: seq<Line>) returns (bbs: seq<BB>)
    ensures bbs == Blocks(lines)
    ensures HasHeader(lines) ==> forall bb :: bb in bbs <==> IsBlock(lines, bb)
  {
    var bbHead, inBB := 0, false;
    var bid: string, preds: seq<string> := "", [];
    bbs := [];
    for addr := 0 to |lines|
      invariant !inBB ==> bbs == [] && forall k :: 0 <= k < addr ==> !IsHead(lines, k)
      invariant inBB ==> bbHead < addr && IsHead(lines, bbHead) && lines[bbHead].header.value == Header(bid, preds)
      invariant inBB ==> bbs == Stored(lines, bbHead) && forall k :: bbHead < k < addr ==> !IsHead(lines, k)
    {
      if lines[addr].header.Some? {
        assert IsHead(lines, addr);
        if inBB {
          assert NextHead(lines, bbHead + 1) == addr;
          bbs := Store(bbs, BB(bid, bbHead, addr - 1, preds));
          StoredSkips(lines, bbHead + 1, addr);
        } else {
          StoredSkips(lines, 0, addr);
        }
        inBB := true;
        bbHead := addr;
        bid, preds := lines[addr].header.value.bid, lines[addr].header.value.preds;
      }
    }
    if inBB {
      assert NextHead(lines, bbHead + 1) == |lines|;
      bbs := Store(bbs, BB(bid, bbHead, |lines| - 1, preds));
      StoredSkips(lines, bbHead + 1, |lines|);
    } else {
      StoredSkips(lines, 0, |lines|);
    }
    if |bbs| == 0 {
      bbs := [BB("B000", 0, |lines| - 1, [])];
    }
    if HasHeader(lines) {
      forall bb ensures bb in bbs <==> IsBlock(lines, bb) {
        BlocksAreOfHeaders(lines, bb);
      }
    }
  }

  /** The first block, in dictionary order, that contains the line. */
  function FindBB(bbs: seq<BB>, ins: int): Option<BB> {
    if bbs == [] then None
    else if bbs[0].InBB(ins) then Some(bbs[0])
    else FindBB(bbs[1..], ins)
  }

  method FindBlock(bbs: seq<BB>, ins: int) returns (found: Option<BB>)
    ensures found == FindBB(bbs, ins)
  {
    for i := 0 to |bbs|
      invariant FindBB(bbs[i..], ins) == FindBB(bbs, ins)
    {
      if bbs[i].InBB(ins) {
        return Some(bbs[i]);
      }
      assert bbs[i..][1..] == bbs[i + 1..];
    }
    return None;
  }

  /** bbs[bid], if the bid is a key. */
  function Lookup(bbs: seq<BB>, bid: string): Option<BB> {
    if bbs == [] then None
    else if bbs[0].bid == bid then Some(bbs[0])
    else Lookup(bbs[1..], bid)
  }

  // ------------------------------------------------------------------
  // The blocks are those of the headers
  // ------------------------------------------------------------------

  ghost predicate HasHeader(lines: seq<Line>) {
    exists h :: 0 <= h < |lines| && lines[h].header.Some?
  }

  /** No later header line has the label of header line h. */
  ghost predicate LastOfLabel(lines: seq<Line>, h: nat) {
    && h < |lines| && lines[h].header.Some?
    && forall g :: h < g < |lines| && lines[g].header.Some? ==> lines[g].header.value.bid != lines[h].header.value.bid
  }

  /** The block takes label and predecessors from header line h and reaches up to the next header line, or the end. */
  ghost predicate OfHeader(lines: seq<Line>, h: nat, bb: BB) {
    && h < |lines| && lines[h].header == Some(Header(bb.bid, bb.preds))
    && bb.start == h <= bb.end < |lines|
    && (forall k :: h < k <= bb.end ==> lines[k].header == None)
    && (bb.end + 1 < |lines| ==> lines[bb.end + 1].header.Some?)
  }

  lemma OfHeaderIsBlockAt(lines: seq<Line>, h: nat, bb: BB)
    requires h < |lines| && lines[h].header.Some?
    ensures OfHeader(lines, h, bb) <==> bb == BlockAt(lines, h)
  {
    var next := NextHead(lines, h + 1);
    assert lines[h].header == Some(Header(Id(lines, h), lines[h].header.value.preds));
    forall k | h < k < next ensures lines[k].header == None {
      assert !IsHead(lines, k);
    }
    if OfHeader(lines, h, bb) {
      NextHeadIs(lines, h + 1, bb.end + 1);
    }
  }

  lemma {:induction false} NextHeadIs(lines: seq<Line>, i: nat, next: int)
    requires i <= next <= |lines| && forall k :: i <= k < next ==> lines[k].header == None
    requires next < |lines| ==> lines[next].header.Some?
    ensures NextHead(lines, i) == next
    decreases next - i
  {
    if i == next {
    } else {
      NextHeadIs(lines, i + 1, next);
    }
  }

  /** The dictionary of a listing with a header holds exactly the blocks of the last header of each label. */
  lemma {:induction false} BlocksAreOfHeaders(lines: seq<Line>, bb: BB)
    requires HasHeader(lines)
    ensures bb in Blocks(lines) <==> IsBlock(lines, bb)
  {
    var k: nat :| k < |lines| && lines[k].header.Some?;
    assert IsHead(lines, k) && HeadedBy(lines, |lines|);
    HeadersStored(lines);
    StoredMember(lines, |lines|, bb);
    forall h: nat ensures LastOfLabel(lines, h) <==> Survives(lines, h, |lines|) {
      assert forall g: nat :: g < |lines| ==> (lines[g].header.Some? <==> IsHead(lines, g));
    }
    forall h: nat | LastOfLabel(lines, h) ensures OfHeader(lines, h, bb) <==> bb == BlockAt(lines, h) {
      OfHeaderIsBlockAt(lines, h, bb);
    }
  }

  lemma BlocksAreUnique(lines: seq<Line>)
    requires HasHeader(lines)
    ensures UniqueIds(Blocks(lines))
  {
    var k: nat :| k < |lines| && lines[k].header.Some?;
    assert IsHead(lines, k) && HeadedBy(lines, |lines|);
    HeadersStored(lines);
    StoredMember(lines, |lines|, Blocks(lines)[0]);
  }

  // ------------------------------------------------------------------
  // The blocks tile the listing
  // ------------------------------------------------------------------

  ghost predicate UniqueIds(bbs: seq<BB>) {
    forall i, j :: 0 <= i < j < |bbs| ==> bbs[i].bid != bbs[j].bid
  }

  lemma {:induction false} PutMember(bbs: seq<BB>, bb: BB)
    requires UniqueIds(bbs)
    ensures UniqueIds(Put(bbs, bb))
    ensures forall x :: x in Put(bbs, bb) <==> x == bb || (x in bbs && x.bid != bb.bid)
  {
    if bbs == [] {
    } else {
      var rest := bbs[1..];
      assert bbs == [bbs[0]] + rest;
      PutMember(rest, bb);
      if bbs[0].bid != bb.bid {
        var tail := Put(rest, bb);
        forall i | 0 <= i < |tail| ensures tail[i].bid != bbs[0].bid {
          assert tail[i] in tail;
        }
      }
    }
  }

  /** The header is the last one before line n with its label. */
  ghost predicate Survives(lines: seq<Line>, h: nat, n: nat) {
    && h < n && IsHead(lines, h)
    && forall g: nat :: h < g < n && IsHead(lines, g) ==> Id(lines, g) != Id(lines, h)
  }

  /** The dictionary keeps, of every label, the block of its last header. */
  lemma {:induction false} StoredMember(lines: seq<Line>, n: nat, x: BB)
    requires n <= |lines|
    ensures UniqueIds(Stored(lines, n))
    ensures x in Stored(lines, n) <==> exists h: nat :: Survives(lines, h, n) && x == BlockAt(lines, h)
  {
    if n == 0 {
    } else {
      StoredMember(lines, n - 1, x);
      if IsHead(lines, n - 1) {
        PutMember(Stored(lines, n - 1), BlockAt(lines, n - 1));
        assert Survives(lines, n - 1, n);
      }
      forall h: nat | h != n - 1
        ensures Survives(lines, h, n) <==>
                  Survives(lines, h, n - 1) && (IsHead(lines, n - 1) ==> Id(lines, n - 1) != Id(lines, h))
      {}
    }
  }

  lemma {:induction false} FindBBFinds(bbs: seq<BB>, ins: int)
    ensures match FindBB(bbs, ins)
            case Some(bb) => bb in bbs && bb.InBB(ins)
            case None => forall bb <- bbs :: !bb.InBB(ins)
  {
    if bbs == [] {
    } else {
      assert bbs == [bbs[0]] + bbs[1..];
      FindBBFinds(bbs[1..], ins);
    }
  }

  ghost predicate DistinctIds(lines: seq<Line>) {
    forall g: nat, h: nat :: IsHead(lines, g) && IsHead(lines, h) && g != h ==> Id(lines, g) != Id(lines, h)
  }

  ghost predicate HeadedBy(lines: seq<Line>, line: nat) {
    exists k: nat :: k <= line && IsHead(lines, k)
  }

  /** The last header line at or before the line. */
  function OwnHead(lines: seq<Line>, line: nat): (h: nat)
    requires line < |lines| && HeadedBy(lines, line)
    ensures h <= line && IsHead(lines, h) && forall k: nat :: h < k <= line ==> !IsHead(lines, k)
  {
    if IsHead(lines, line) then line else OwnHead(lines, line - 1)
  }

  /** A line lies in the block of its own header and in the block of no other header. */
  lemma OnlyOwnBlock(lines: seq<Line>, line: nat, h: nat)
    requires line < |lines| && IsHead(lines, h)
    ensures BlockAt(lines, h).InBB(line) <==> HeadedBy(lines, line) && h == OwnHead(lines, line)
  {
    if h <= line {
      var own := OwnHead(lines, line);
      if h < own {
        assert NextHead(lines, h + 1) <= own;
      }
    }
  }

  /**
    FindBB on a listing with headers: it finds the block of the line's own header,
    unless no header precedes the line or a later header reuses that label.
   */
  lemma FindBBIsOwnBlock(lines: seq<Line>, line: nat)
    requires line < |lines| && HeadedBy(lines, |lines|)
    ensures FindBB(Blocks(lines), line) ==
            if HeadedBy(lines, line) && Survives(lines, OwnHead(lines, line), |lines|)
            then Some(BlockAt(lines, OwnHead(lines, line))) else None
    ensures forall bb <- Blocks(lines) :: bb.InBB(line) ==> FindBB(Blocks(lines), line) == Some(bb)
  {
    var bbs := Stored(lines, |lines|);
    HeadersStored(lines);
    FindBBFinds(bbs, line);
    forall x | x in bbs && x.InBB(line)
      ensures HeadedBy(lines, line) && Survives(lines, OwnHead(lines, line), |lines|)
      ensures x == BlockAt(lines, OwnHead(lines, line))
    {
      StoredMember(lines, |lines|, x);
      var h: nat :| Survives(lines, h, |lines|) && x == BlockAt(lines, h);
      OnlyOwnBlock(lines, line, h);
    }
    if HeadedBy(lines, line) && Survives(lines, OwnHead(lines, line), |lines|) {
      StoredMember(lines, |lines|, BlockAt(lines, OwnHead(lines, line)));
      OnlyOwnBlock(lines, line, OwnHead(lines, line));
    }
  }

  /** A listing with a header has no dummy block. */
  lemma HeadersStored(lines: seq<Line>)
    requires HeadedBy(lines, |lines|)
    ensures Stored(lines, |lines|) != [] && Blocks(lines) == Stored(lines, |lines|)
  {
    var k: nat :| k <= |lines| && IsHead(lines, k);
    assert HeadedBy(lines, |lines| - 1);
    var last := OwnHead(lines, |lines| - 1);
    assert Survives(lines, last, |lines|);
    StoredMember(lines, |lines|, BlockAt(lines, last));
  }

  /** Every line from the first header on is found exactly when no two headers share a label. */
  lemma TilesIffDistinct(lines: seq<Line>)
    requires HeadedBy(lines, |lines|)
    ensures DistinctIds(lines) <==>
            forall line: nat :: line < |lines| && HeadedBy(lines, line) ==> FindBB(Blocks(lines), line).Some?
  {
    forall line: nat | line < |lines| && HeadedBy(lines, line)
      ensures FindBB(Blocks(lines), line).Some? <==> Survives(lines, OwnHead(lines, line), |lines|)
    {
      FindBBIsOwnBlock(lines, line);
    }
    if !DistinctIds(lines) {
      var g: nat, h: nat :| IsHead(lines, g) && IsHead(lines, h) && g != h && Id(lines, g) == Id(lines, h);
      var early := if g < h then g else h;
      assert HeadedBy(lines, early) && OwnHead(lines, early) == early;
      assert !Survives(lines, early, |lines|);
    }
  }

  /** Two headers with one label: the first one's line is in no block. */
  lemma RepeatedLabelIsLost()
    ensures var header := Line(Some(Header("A", [])), false, [], false);
            !DistinctIds([header, header]) && FindBB(Blocks([header, header]), 0) == None
  {
    var header := Line(Some(Header("A", [])), false, [], false);
    var lines := [header, header];
    assert IsHead(lines, 0) && IsHead(lines, 1) && Id(lines, 0) == Id(lines, 1);
    assert HeadedBy(lines, |lines|) && HeadedBy(lines, 0) && OwnHead(lines, 0) == 0;
    assert !Survives(lines, 0, |lines|);
    FindBBIsOwnBlock(lines, 0);
  }

  /** Without headers, one dummy block holds every line. */
  lemma NoHeadersOneBlock(lines: seq<Line>, line: nat)
    requires line < |lines| && !HeadedBy(lines, |lines|)
    ensures FindBB(Blocks(lines), line) == Some(BB("B000", 0, |lines| - 1, []))
  {
    forall k: nat ensures !IsHead(lines, k) {
      assert k <= |lines| || !IsHead(lines, k);
    }
    StoredSkips(lines, 0, |lines|);
  }
}
