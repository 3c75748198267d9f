/**
  Pagination of the stall report: WriteOutStallReport in
  tools/unitrace/scripts/metrics/analyzeperfmetrics.py. A page is kept as the
  list of its printed lines.
 */
module ReportPages {

  const PAGE_SIZE: nat := 48
  const LINE_WIDTH: nat := 160

  /** The printed lines of a non-empty line: pieces of LINE_WIDTH characters and a rest. */
  function Chunks(line: string): seq<string> {
    if |line| <= LINE_WIDTH then [line] else [line[..LINE_WIDTH]] + Chunks(line[LINE_WIDTH..])
  }

  function LineChunks(line: string): seq<string> {
    Chunks(if line == "" then "\n" else line)
  }

  function AllChunks(lines: seq<string>): seq<string> {
    if lines == [] then [] else AllChunks(lines[..|lines| - 1]) + LineChunks(lines[|lines| - 1])
  }

  /** Cuts a list into pages of PAGE_SIZE. */
  function Pages(chunks: seq<string>): seq<seq<string>> {
    if chunks == [] then []
    else if |chunks| <= PAGE_SIZE then [chunks]
    else [chunks[..PAGE_SIZE]] + Pages(chunks[PAGE_SIZE..])
  }

  function Flatten(parts: seq<seq<string>>): seq<string> {
    if parts == [] then [] else parts[0] + Flatten(parts[1..])
  }

  function Rejoin(chunks: seq<string>): string {
    if chunks == [] then "" else chunks[0] + Rejoin(chunks[1..])
  }

  /** Full pages so far, and the page being filled. */
  ghost predicate Filled(pages: seq<seq<string>>, page: seq<string>, chunks: seq<string>) {
    && |page| < PAGE_SIZE
    && (forall i :: 0 <= i < |pages| ==> |pages[i]| == PAGE_SIZE)
    && Flatten(pages) + page == chunks
  }

  lemma {:induction false} FlattenSnoc(parts: seq<seq<string>>, part: seq<string>)
    ensures Flatten(parts + [part]) == Flatten(parts) + part
  {
    if parts == [] {
      assert parts + [part] == [part];
      assert Flatten([part][1..]) == [];
    } else {
      assert (parts + [part])[1..] == parts[1..] + [part];
      FlattenSnoc(parts[1..], part);
    }
  }

  /** page += chunk, and the page is written out when it is full. */
  method AddChunk(pages: seq<seq<string>>, page: seq<string>, chunk: string, ghost chunks: seq<string>)
    returns (pages': seq<seq<string>>, page': seq<string>)
    requires Filled(pages, page, chunks)
    ensures Filled(pages', page', chunks + [chunk])
  {
    pages', page' := pages, page + [chunk];
    if |page'| == PAGE_SIZE {
      FlattenSnoc(pages, page');
      pages', page' := pages + [page'], [];
    }
    assert Flatten(pages) + (page + [chunk]) == chunks + [chunk];
  }

  /** The while loop over one line. */
  method AddLine(pages: seq<seq<string>>, page: seq<string>, line: string, ghost chunks: seq<string>)
    returns (pages': seq<seq<string>>, page': seq<string>)
    requires line != "" && Filled(pages, page, chunks)
    ensures Filled(pages', page', chunks + Chunks(line))
  {
    pages', page' := pages, page;
    var s := 0;
    ghost var added: seq<string> := [];
    while |line[s..]| > LINE_WIDTH
      invariant 0 <= s < |line|
      invariant added + Chunks(line[s..]) == Chunks(line)
      invariant Filled(pages', page', chunks + added)
      decreases |line| - s
    {
      var chunk := line[s..s + LINE_WIDTH];
      assert line[s..][..LINE_WIDTH] == chunk && line[s..][LINE_WIDTH..] == line[s + LINE_WIDTH..];
      pages', page' := AddChunk(pages', page', chunk, chunks + added);
      assert chunks + added + [chunk] == chunks + (added + [chunk]);
      added := added + [chunk];
      s := s + LINE_WIDTH;
    }
    pages', page' := AddChunk(pages', page', line[s..], chunks + added);
    assert chunks + added + [line[s..]] == chunks + Chunks(line);
  }

  method WriteOutStallReport(lines: seq<string>) returns (pages: seq<seq<string>>)
    ensures pages == Pages(AllChunks(lines))
  {
    pages := [];
    var page: seq<string> := [];
    for i := 0 to |lines|
      invariant Filled(pages, page, AllChunks(lines[..i]))
    {
      assert lines[..i + 1][..i] == lines[..i];
      var line := lines[i];
      if |line| == 0 {
        line := "\n";
      }
      pages, page := AddLine(pages, page, line, AllChunks(lines[..i]));
    }
    assert lines[..|lines|] == lines;
    FilledIsPages(pages, page, AllChunks(lines));
    if |page| != 0 {
      pages := pages + [page];
    }
  }

  lemma {:induction false} FilledIsPages(pages: seq<seq<string>>, page: seq<string>, chunks: seq<string>)
    requires Filled(pages, page, chunks)
    ensures Pages(chunks) == pages + if page == [] then [] else [page]
    decreases |pages|
  {
    if pages == [] {
      assert chunks == page;
    } else {
      var rest := Flatten(pages[1..]) + page;
      assert chunks == pages[0] + rest;
      assert chunks[..PAGE_SIZE] == pages[0] && chunks[PAGE_SIZE..] == rest;
      FilledIsPages(pages[1..], page, rest);
      assert |pages| > 1 ==> pages[1..][0] == pages[1] && |rest| >= |pages[1]|;
    }
  }

  // ------------------------------------------------------------------
  // Nothing is lost
  // ------------------------------------------------------------------

  /** Pages put together are the printed lines; all but the last are full and none is empty. */
  lemma {:induction false} PagesCoverAll(chunks: seq<string>)
    ensures Flatten(Pages(chunks)) == chunks
    ensures forall i :: 0 <= i < |Pages(chunks)| ==> 0 < |Pages(chunks)[i]| <= PAGE_SIZE
    ensures forall i :: 0 <= i < |Pages(chunks)| - 1 ==> |Pages(chunks)[i]| == PAGE_SIZE
    decreases |chunks|
  {
    if chunks == [] {
    } else {
      if |chunks| <= PAGE_SIZE {
        assert [chunks][1..] == [];
      } else {
        PagesCoverAll(chunks[PAGE_SIZE..]);
        var pages := Pages(chunks);
        assert pages[1..] == Pages(chunks[PAGE_SIZE..]);
        forall i | 0 < i < |pages| ensures pages[i] == pages[1..][i - 1] {}
      }
    }
  }

  /** The printed lines of a line put together are the line; all but the last have full width and none is empty. */
  lemma {:induction false} ChunksRejoin(line: string)
    requires line != ""
    ensures Rejoin(Chunks(line)) == line && Chunks(line) != []
    ensures forall i :: 0 <= i < |Chunks(line)| ==> 0 < |Chunks(line)[i]| <= LINE_WIDTH
    ensures forall i :: 0 <= i < |Chunks(line)| - 1 ==> |Chunks(line)[i]| == LINE_WIDTH
    decreases |line|
  {
    if |line| <= LINE_WIDTH {
      assert [line][1..] == [];
    } else {
      ChunksRejoin(line[LINE_WIDTH..]);
      var chunks := Chunks(line);
      assert chunks[1..] == Chunks(line[LINE_WIDTH..]);
      forall i | 0 < i < |chunks| ensures chunks[i] == chunks[1..][i - 1] {}
    }
  }

  // ------------------------------------------------------------------
  // The whole report
  // ------------------------------------------------------------------

  /** What a line of the report stands for: itself, or a line break when it is empty. */
  function Shown(line: string): string {
    if line == "" then "\n" else line
  }

  function ReportText(lines: seq<string>): string {
    if lines == [] then "" else ReportText(lines[..|lines| - 1]) + Shown(lines[|lines| - 1])
  }

  /** The printed lines that the first lines of the report take: one for every 160 characters begun. */
  function PrintedLines(lines: seq<string>): nat {
    if lines == [] then 0
    else PrintedLines(lines[..|lines| - 1]) + (|Shown(lines[|lines| - 1])| + 159) / 160
  }

  lemma {:induction false} RejoinConcat(a: seq<string>, b: seq<string>)
    ensures Rejoin(a + b) == Rejoin(a) + Rejoin(b)
  {
    if a == [] {
      assert a + b == b;
    } else {
      assert (a + b)[1..] == a[1..] + b;
      RejoinConcat(a[1..], b);
    }
  }

  lemma {:induction false} ChunksCount(line: string)
    requires line != ""
    ensures |Chunks(line)| == (|line| + 159) / 160
    decreases |line|
  {
    if |line| <= LINE_WIDTH {
    } else {
      ChunksCount(line[LINE_WIDTH..]);
    }
  }

  /** All printed lines put together are all lines of the report, in order; empty ones are shown as line breaks. */
  lemma {:induction false} AllChunksRejoin(lines: seq<string>)
    ensures Rejoin(AllChunks(lines)) == ReportText(lines) && |AllChunks(lines)| == PrintedLines(lines)
  {
    if lines == [] {
    } else {
      var init, last := lines[..|lines| - 1], lines[|lines| - 1];
      AllChunksRejoin(init);
      RejoinConcat(AllChunks(init), LineChunks(last));
      ChunksRejoin(Shown(last));
      ChunksCount(Shown(last));
    }
  }

  /** Where the printed lines of line i stand: full width up to the last one, and together the line. */
  ghost predicate StandsAt(printed: seq<string>, from: nat, to: nat, line: string) {
    && from < to <= |printed|
    && Rejoin(printed[from..to]) == Shown(line)
    && 0 < |printed[to - 1]| <= 160
    && forall k :: from <= k < to - 1 ==> |printed[k]| == 160
  }

  lemma StandsStill(before: seq<string>, more: seq<string>, from: nat, to: nat, line: string)
    requires StandsAt(before, from, to, line)
    ensures StandsAt(before + more, from, to, line)
  {
    assert (before + more)[from..to] == before[from..to];
  }

  lemma StandsLast(before: seq<string>, line: string)
    ensures StandsAt(before + LineChunks(line), |before|, |before + LineChunks(line)|, line)
  {
    var all := before + LineChunks(line);
    ChunksRejoin(Shown(line));
    assert all[|before|..|all|] == LineChunks(line);
    forall k | |before| <= k < |all| ensures all[k] == LineChunks(line)[k - |before|] {}
  }

  lemma {:induction false} ChunksStand(lines: seq<string>, i: nat)
    requires i < |lines|
    ensures StandsAt(AllChunks(lines), |AllChunks(lines[..i])|, |AllChunks(lines[..i + 1])|, lines[i])
  {
    var n := |lines| - 1;
    var init := lines[..n];
    if i < n {
      ChunksStand(init, i);
      assert init[..i] == lines[..i] && init[..i + 1] == lines[..i + 1];
      StandsStill(AllChunks(init), LineChunks(lines[n]),
                  |AllChunks(lines[..i])|, |AllChunks(lines[..i + 1])|, lines[i]);
    } else {
      assert lines[..n + 1] == lines;
      StandsLast(AllChunks(init), lines[n]);
    }
  }

  lemma LinesStand(lines: seq<string>, i: nat)
    requires i < |lines|
    ensures StandsAt(AllChunks(lines), PrintedLines(lines[..i]), PrintedLines(lines[..i + 1]), lines[i])
  {
    ChunksStand(lines, i);
    AllChunksRejoin(lines[..i]);
    AllChunksRejoin(lines[..i + 1]);
  }

  /** The pages of a report: at most 48 printed lines each, all but the last full, and together the whole report. */
  lemma {:induction false} PagesShowReport(lines: seq<string>)
    ensures var pages := Pages(AllChunks(lines));
            && Rejoin(Flatten(pages)) == ReportText(lines) && |Flatten(pages)| == PrintedLines(lines)
            && (forall i :: 0 <= i < |pages| ==> 0 < |pages[i]| <= 48)
            && (forall i :: 0 <= i < |pages| - 1 ==> |pages[i]| == 48)
            && (forall i :: 0 <= i < |lines| ==>
                  StandsAt(Flatten(pages), PrintedLines(lines[..i]), PrintedLines(lines[..i + 1]), lines[i]))
  {
    PagesCoverAll(AllChunks(lines));
    AllChunksRejoin(lines);
    forall i | 0 <= i < |lines|
      ensures StandsAt(AllChunks(lines), PrintedLines(lines[..i]), PrintedLines(lines[..i + 1]), lines[i])
    {
      LinesStand(lines, i);
    }
  }
}
