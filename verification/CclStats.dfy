/**
  The collective-communication statistics of
  tools/unitrace/src/itt/itt_collector.h: the running per-function statistics and
  the sorted report, ordered by Comparator of utils/utils.h.
 */
module CclStats {

  const WORD: nat := 0x1_0000_0000_0000_0000

  datatype Stats = Stats(total: nat, min: nat, max: nat, count: nat)

  /** A call of AddFunctionTime. */
  datatype Sample = Sample(name: string, time: nat)

  // ------------------------------------------------------------------
  // What the statistics of a list of times should be
  // ------------------------------------------------------------------

  function Sum(times: seq<nat>): nat {
    if times == [] then 0 else Sum(times[..|times| - 1]) + times[|times| - 1]
  }

  ghost predicate IsMin(m: nat, times: seq<nat>) {
    m in times && forall i :: 0 <= i < |times| ==> m <= times[i]
  }

  ghost predicate IsMax(m: nat, times: seq<nat>) {
    m in times && forall i :: 0 <= i < |times| ==> times[i] <= m
  }

  /** Statistics of a non-empty list of times; total and count are 64-bit counters. */
  ghost predicate Describes(s: Stats, times: seq<nat>) {
    && times != []
    && s.total == Sum(times) % WORD && s.count == |times| % WORD
    && IsMin(s.min, times) && IsMax(s.max, times)
  }

  predicate Counted(name: string) {
    "oneCCL::" <= name
  }

  function TimesOf(samples: seq<Sample>, name: string): seq<nat> {
    if samples == [] then []
    else TimesOf(samples[..|samples| - 1], name)
         + if samples[|samples| - 1].name == name then [samples[|samples| - 1].time] else []
  }

  /** The table holds the counted functions that were sampled, each with the statistics of all its times. */
  ghost predicate Tracks(table: map<string, Stats>, samples: seq<Sample>) {
    && (forall name :: name in table <==> Counted(name) && TimesOf(samples, name) != [])
    && (forall name <- table :: Describes(table[name], TimesOf(samples, name)))
  }

  class FunctionInfo {
    var table: map<string, Stats>
    ghost var samples: seq<Sample>

    ghost predicate Valid()
      reads this
    {
      Tracks(table, samples)
    }

    constructor ()
      ensures Valid() && samples == []
    {
      table, samples := map[], [];
    }

    method AddFunctionTime(name: string, time: nat)
      requires Valid() && time < WORD
      modifies this
      ensures Valid() && samples == old(samples) + [Sample(name, time)]
    {
      if Counted(name) {
        if name !in table {
          TracksFirst(table, samples, name, time);
          table := table[name := Stats(time, time, time, 1)];
        } else {
          TracksMore(table, samples, name, time);
          var f := AddTime(table[name], time);
          table := table[name := f];
        }
      } else {
        TracksOther(table, samples, name, time);
      }
      samples := samples + [Sample(name, time)];
    }
  }

  /** The assignments to the fields of an existing entry. */
  method AddTime(entry: Stats, time: nat) returns (f: Stats)
    ensures f == Updated(entry, time)
  {
    f := entry.(total := (entry.total + time) % WORD);
    if time < f.min {
      f := f.(min := time);
    }
    if time > f.max {
      f := f.(max := time);
    }
    f := f.(count := (f.count + 1) % WORD);
  }

  function Updated(s: Stats, time: nat): Stats {
    Stats((s.total + time) % WORD,
          if time < s.min then time else s.min,
          if time > s.max then time else s.max,
          (s.count + 1) % WORD)
  }

  lemma TracksFirst(table: map<string, Stats>, samples: seq<Sample>, name: string, time: nat)
    requires Tracks(table, samples) && Counted(name) && name !in table && time < WORD
    ensures Tracks(table[name := Stats(time, time, time, 1)], samples + [Sample(name, time)])
  {
    DescribesFirst(time);
    OtherTimes(samples, Sample(name, time));
    assert TimesOf(samples, name) + [time] == [time];
  }

  lemma {:induction false} TracksMore(table: map<string, Stats>, samples: seq<Sample>, name: string, time: nat)
    requires Tracks(table, samples) && name in table
    ensures Tracks(table[name := Updated(table[name], time)], samples + [Sample(name, time)])
  {
    DescribesMore(table[name], TimesOf(samples, name), time);
    OtherTimes(samples, Sample(name, time));
  }

  lemma TracksOther(table: map<string, Stats>, samples: seq<Sample>, name: string, time: nat)
    requires Tracks(table, samples) && !Counted(name)
    ensures Tracks(table, samples + [Sample(name, time)])
  {
    OtherTimes(samples, Sample(name, time));
  }

  lemma OtherTimes(samples: seq<Sample>, s: Sample)
    ensures TimesOf(samples + [s], s.name) == TimesOf(samples, s.name) + [s.time]
    ensures forall other :: other != s.name ==> TimesOf(samples + [s], other) == TimesOf(samples, other)
  {
    TimesOfSnoc(samples, s, s.name);
    forall other | other != s.name ensures TimesOf(samples + [s], other) == TimesOf(samples, other) {
      TimesOfSnoc(samples, s, other);
    }
  }

  lemma TimesOfSnoc(samples: seq<Sample>, s: Sample, name: string)
    ensures TimesOf(samples + [s], name) == TimesOf(samples, name) + if s.name == name then [s.time] else []
  {
    assert (samples + [s])[..|samples|] == samples;
  }

  lemma DescribesFirst(time: nat)
    requires time < WORD
    ensures Describes(Stats(time, time, time, 1), [time])
  {
    assert Sum([time]) == Sum([]) + time;
  }

  lemma DescribesMore(s: Stats, times: seq<nat>, time: nat)
    requires Describes(s, times)
    ensures Describes(Updated(s, time), times + [time])
  {
    assert (times + [time])[..|times|] == times;
    assert Sum(times + [time]) == Sum(times) + time;
    WrapAdd(Sum(times), time);
    WrapAdd(|times|, 1);
    assert time in times + [time] && forall t :: t in times ==> t in times + [time];
  }

  lemma WrapAdd(a: nat, b: nat)
    ensures (a % WORD + b) % WORD == (a + b) % WORD
  {}

  /** While the counters fit 64 bits: min * count <= total <= max * count, so min <= average <= max. */
  lemma {:induction false} AverageBetween(s: Stats, times: seq<nat>)
    requires Describes(s, times) && Sum(times) < WORD && |times| < WORD
    ensures 0 < s.count && s.min * s.count <= s.total <= s.max * s.count
    ensures s.min <= s.total / s.count <= s.max
  {
    NoWrap(s, times);
    SumBetween(times, s.min, s.max);
    QuotientBetween(s.total, s.count, s.min, s.max);
  }

  lemma NoWrap(s: Stats, times: seq<nat>)
    requires Describes(s, times) && Sum(times) < WORD && |times| < WORD
    ensures s.total == Sum(times) && s.count == |times| > 0
  {}

  lemma {:induction false} SumBetween(times: seq<nat>, lo: nat, hi: nat)
    requires forall i :: 0 <= i < |times| ==> lo <= times[i] <= hi
    ensures lo * |times| <= Sum(times) <= hi * |times|
  {
    if times == [] {
    } else {
      var init := times[..|times| - 1];
      SumBetween(init, lo, hi);
      assert lo * |times| == lo * |init| + lo && hi * |times| == hi * |init| + hi;
    }
  }

  lemma {:induction false} QuotientBetween(total: nat, count: nat, lo: nat, hi: nat)
    requires 0 < count && lo * count <= total <= hi * count
    ensures lo <= total / count <= hi
  {
    QuotientAtLeast(total, count, lo);
    QuotientAtMost(total, count, hi);
  }

  lemma {:induction false} QuotientAtLeast(total: nat, count: nat, lo: nat)
    requires 0 < count && lo * count <= total
    ensures lo <= total / count
  {
    var q := total / count;
    assert total < (q + 1) * count;
    if q < lo {
      TimesCount(q + 1, lo, count);
    }
  }

  lemma QuotientAtMost(total: nat, count: nat, hi: nat)
    requires 0 < count && total <= hi * count
    ensures total / count <= hi
  {
    var q := total / count;
    assert q * count <= total;
    if hi < q {
      TimesCount(hi + 1, q, count);
    }
  }

  lemma TimesCount(a: nat, b: nat, count: nat)
    requires a <= b
    ensures a * count <= b * count
  {}

  // ------------------------------------------------------------------
  // The order of the report
  // ------------------------------------------------------------------

  datatype Entry = Entry(name: string, stats: Stats)

  /** std::string's operator>. */
  predicate Greater(a: string, b: string) {
    a != "" && (b == "" || a[0] > b[0] || (a[0] == b[0] && Greater(a[1..], b[1..])))
  }

  /** utils::Comparator: larger total first, then more calls, then larger name. */
  predicate Before(a: Entry, b: Entry) {
    if a.stats.total != b.stats.total then a.stats.total > b.stats.total
    else if a.stats.count != b.stats.count then a.stats.count > b.stats.count
    else Greater(a.name, b.name)
  }

  lemma {:induction false} GreaterIrreflexive(a: string)
    ensures !Greater(a, a)
  {
    if a == "" {
    } else {
      GreaterIrreflexive(a[1..]);
    }
  }

  lemma {:induction false} GreaterTransitive(a: string, b: string, c: string)
    requires Greater(a, b) && Greater(b, c)
    ensures Greater(a, c)
  {
    if c != "" && a[0] == b[0] == c[0] {
      GreaterTransitive(a[1..], b[1..], c[1..]);
    }
  }

  lemma {:induction false} GreaterTotal(a: string, b: string)
    requires a != b
    ensures Greater(a, b) || Greater(b, a)
  {
    if a != "" && b != "" && a[0] == b[0] {
      assert a == [a[0]] + a[1..] && b == [b[0]] + b[1..];
      GreaterTotal(a[1..], b[1..]);
    }
  }

  /** The comparator is a strict total order on entries of different functions. */
  lemma BeforeIsStrictTotalOrder(a: Entry, b: Entry, c: Entry)
    ensures !Before(a, a)
    ensures Before(a, b) && Before(b, c) ==> Before(a, c)
    ensures a.name != b.name ==> Before(a, b) || Before(b, a)
    ensures !(Before(a, b) && Before(b, a))
  {
    GreaterIrreflexive(a.name);
    if Greater(a.name, b.name) && Greater(b.name, c.name) {
      GreaterTransitive(a.name, b.name, c.name);
    }
    if Greater(a.name, b.name) && Greater(b.name, a.name) {
      GreaterTransitive(a.name, b.name, a.name);
    }
    if a.name != b.name {
      GreaterTotal(a.name, b.name);
    }
  }

  /** a comes behind b in the dictionary: it extends b, or has the larger character where they first differ. */
  lemma {:induction false} GreaterIff(a: string, b: string)
    ensures Greater(a, b) <==> exists k :: Behind(a, b, k)
  {
    if a == "" {
    } else if b == "" {
      assert Behind(a, b, 0);
    } else if a[0] != b[0] {
      if a[0] > b[0] {
        assert Behind(a, b, 0);
      }
    } else {
      GreaterIff(a[1..], b[1..]);
      if k :| Behind(a[1..], b[1..], k) {
        BehindFurther(a, b, k);
      }
      if k :| Behind(a, b, k) {
        assert k > 0;
        BehindNearer(a, b, k);
      }
    }
  }

  /** The texts agree up to position k, where b ends and a does not, or a has the larger character. */
  ghost predicate Behind(a: string, b: string, k: int) {
    && 0 <= k < |a| && k <= |b| && a[..k] == b[..k] && (k == |b| || a[k] > b[k])
  }

  lemma BehindFurther(a: string, b: string, k: int)
    requires a != "" && b != "" && a[0] == b[0] && Behind(a[1..], b[1..], k)
    ensures Behind(a, b, k + 1)
  {
    assert a[..k + 1] == [a[0]] + a[1..][..k] && b[..k + 1] == [b[0]] + b[1..][..k];
  }

  lemma BehindNearer(a: string, b: string, k: int)
    requires a != "" && b != "" && 0 < k && Behind(a, b, k)
    ensures Behind(a[1..], b[1..], k - 1)
  {
    assert a[1..][..k - 1] == a[..k][1..] && b[1..][..k - 1] == b[..k][1..];
  }

  predicate Sorted(entries: seq<Entry>) {
    forall i, j :: 0 <= i < j < |entries| ==> Before(entries[i], entries[j])
  }

  /** Insertion into an ordered set: an entry equivalent to one already there is dropped. */
  function InsertOrdered(entries: seq<Entry>, e: Entry): seq<Entry> {
    if entries == [] then [e]
    else if Before(e, entries[0]) then [e] + entries
    else if Before(entries[0], e) then [entries[0]] + InsertOrdered(entries[1..], e)
    else entries
  }

  lemma {:induction false} InsertKeepsAll(entries: seq<Entry>, e: Entry)
    requires forall x <- entries :: x.name != e.name
    ensures multiset(InsertOrdered(entries, e)) == multiset(entries) + multiset{e}
  {
    if entries == [] {
    } else {
      var rest := entries[1..];
      assert entries == [entries[0]] + rest;
      BeforeIsStrictTotalOrder(entries[0], e, e);
      if !Before(e, entries[0]) {
        InsertKeepsAll(rest, e);
      }
    }
  }

  lemma {:induction false} InsertKeepsSorted(entries: seq<Entry>, e: Entry)
    requires Sorted(entries) && forall x <- entries :: x.name != e.name
    ensures Sorted(InsertOrdered(entries, e))
  {
    if entries == [] {
    } else {
      var first, rest := entries[0], entries[1..];
      if Before(e, first) {
        forall i | 0 < i < |entries| ensures Before(e, entries[i]) {
          BeforeIsStrictTotalOrder(e, first, entries[i]);
        }
      } else {
        BeforeIsStrictTotalOrder(first, e, e);
        InsertKeepsSorted(rest, e);
        InsertKeepsAll(rest, e);
        var tail := InsertOrdered(rest, e);
        forall i | 0 <= i < |tail| ensures Before(first, tail[i]) {
          assert tail[i] in multiset(tail);
          assert tail[i] in rest || tail[i] == e;
        }
      }
    }
  }

  function TotalOf(entries: seq<Entry>): nat {
    if entries == [] then 0 else entries[0].stats.total + TotalOf(entries[1..])
  }

  lemma {:induction false} TotalOfInserted(entries: seq<Entry>, e: Entry)
    requires Sorted(entries) && forall x <- entries :: x.name != e.name
    ensures TotalOf(InsertOrdered(entries, e)) == TotalOf(entries) + e.stats.total
  {
    if entries == [] {
    } else {
      BeforeIsStrictTotalOrder(entries[0], e, e);
      if !Before(e, entries[0]) {
        TotalOfInserted(entries[1..], e);
        var tail := InsertOrdered(entries[1..], e);
        assert ([entries[0]] + tail)[1..] == tail;
      } else {
        assert ([e] + entries)[1..] == entries;
      }
    }
  }

  lemma {:induction false} TotalOfConcat(a: seq<Entry>, b: seq<Entry>)
    ensures TotalOf(a + b) == TotalOf(a) + TotalOf(b)
  {
    if a == [] {
      assert a + b == b;
    } else {
      assert (a + b)[1..] == a[1..] + b;
      TotalOfConcat(a[1..], b);
    }
  }

  /** A row of the report. */
  datatype Row = Row(name: string, calls: nat, time: nat, percent: real, average: nat, min: nat, max: nat)

  function RowOf(e: Entry, total: nat): Row
    requires 0 < total && e.stats.count != 0
  {
    var s := e.stats;
    Row(e.name, s.count, s.total, 100.0 * s.total as real / total as real, s.total / s.count, s.min, s.max)
  }

  function RowsOf(entries: seq<Entry>, total: nat): seq<Row>
    requires 0 < total && forall i :: 0 <= i < |entries| ==> entries[i].stats.count != 0
  {
    seq(|entries|, i requires 0 <= i < |entries| => RowOf(entries[i], total))
  }

  /** The ordered set built from the map's entries. */
  function OrderedSet(entries: seq<Entry>): seq<Entry> {
    if entries == [] then [] else InsertOrdered(OrderedSet(entries[..|entries| - 1]), entries[|entries| - 1])
  }

  ghost predicate DistinctNames(entries: seq<Entry>) {
    forall i, j :: 0 <= i < j < |entries| ==> entries[i].name != entries[j].name
  }

  /** No entry is dropped: the set is a sorted permutation of the map's entries, with the same total. */
  lemma {:induction false} OrderedSetKeepsAll(entries: seq<Entry>)
    requires DistinctNames(entries)
    ensures Sorted(OrderedSet(entries)) && multiset(OrderedSet(entries)) == multiset(entries)
    ensures TotalOf(OrderedSet(entries)) == TotalOf(entries)
  {
    if entries == [] {
    } else {
      var init, last := entries[..|entries| - 1], entries[|entries| - 1];
      OrderedSetKeepsAll(init);
      NameNotIn(OrderedSet(init), entries);
      InsertKeepsAll(OrderedSet(init), last);
      InsertKeepsSorted(OrderedSet(init), last);
      TotalOfInserted(OrderedSet(init), last);
      TotalOfConcat(init, [last]);
      assert entries == init + [last];
    }
  }

  lemma NameNotIn(list: seq<Entry>, entries: seq<Entry>)
    requires entries != [] && DistinctNames(entries) && multiset(list) == multiset(entries[..|entries| - 1])
    ensures forall x <- list :: x.name != entries[|entries| - 1].name
  {
    forall x | x in list ensures x.name != entries[|entries| - 1].name {
      assert x in multiset(entries[..|entries| - 1]);
    }
  }

  method SortEntries(entries: seq<Entry>) returns (list: seq<Entry>)
    ensures list == OrderedSet(entries)
  {
    list := [];
    for i := 0 to |entries|
      invariant list == OrderedSet(entries[..i])
    {
      assert entries[..i + 1][..i] == entries[..i];
      list := InsertOrdered(list, entries[i]);
    }
    assert entries[..|entries|] == entries;
  }

  method TotalDuration(list: seq<Entry>) returns (total: nat)
    ensures total == TotalOf(list) % WORD
  {
    total := 0;
    for i := 0 to |list|
      invariant total == TotalOf(list[..i]) % WORD
    {
      assert list[..i + 1] == list[..i] + [list[i]];
      TotalOfConcat(list[..i], [list[i]]);
      total := (total + list[i].stats.total) % WORD;
    }
    assert list[..|list|] == list;
  }

  method BuildRows(list: seq<Entry>, total: nat) returns (rows: seq<Row>)
    requires 0 < total && forall i :: 0 <= i < |list| ==> list[i].stats.count != 0
    ensures rows == RowsOf(list, total)
  {
    rows := [];
    for i := 0 to |list|
      invariant rows == RowsOf(list, total)[..i]
    {
      var s := list[i].stats;
      var percent := 100.0 * s.total as real / total as real;
      rows := rows + [Row(list[i].name, s.count, s.total, percent, s.total / s.count, s.min, s.max)];
    }
  }

  lemma CountsCarryOver(list: seq<Entry>, entries: seq<Entry>)
    requires multiset(list) == multiset(entries)
    requires forall e <- entries :: e.stats.count != 0
    ensures forall i :: 0 <= i < |list| ==> list[i].stats.count != 0
  {
    forall i | 0 <= i < |list| ensures list[i].stats.count != 0 {
      assert list[i] in multiset(entries);
    }
  }

  /** No row at all when nothing or no time was recorded, else one row for every entry, in the comparator's order. */
  ghost predicate Reports(rows: seq<Row>, entries: seq<Entry>) {
    var total := TotalOf(entries) % WORD;
    if total == 0 then rows == []
    else
      && |rows| == |OrderedSet(entries)|
      && (forall i :: 0 <= i < |rows| ==> OrderedSet(entries)[i].stats.count != 0)
      && rows == RowsOf(OrderedSet(entries), total)
  }

  /** The report over the map's entries. */
  method CclSummaryReport(entries: seq<Entry>) returns (rows: seq<Row>)
    requires DistinctNames(entries)
    requires forall e <- entries :: e.stats.count != 0
    ensures Reports(rows, entries)
  {
    OrderedSetKeepsAll(entries);
    if entries == [] {
      return [];
    }
    var list := SortEntries(entries);
    var total := TotalDuration(list);
    if total == 0 {
      return [];
    }
    CountsCarryOver(list, entries);
    rows := BuildRows(list, total);
  }

  // ------------------------------------------------------------------
  // The percentages
  // ------------------------------------------------------------------

  function PercentOf(rows: seq<Row>): real {
    if rows == [] then 0.0 else rows[0].percent + PercentOf(rows[1..])
  }

  lemma {:induction false} PercentOfRows(list: seq<Entry>, total: nat)
    requires 0 < total && forall i :: 0 <= i < |list| ==> list[i].stats.count != 0
    ensures PercentOf(RowsOf(list, total)) == 100.0 * TotalOf(list) as real / total as real
  {
    if list == [] {
    } else {
      assert RowsOf(list, total)[1..] == RowsOf(list[1..], total);
      PercentOfRows(list[1..], total);
      SharesAdd(list[0].stats.total as real, TotalOf(list[1..]) as real, total as real);
    }
  }

  lemma SharesAdd(a: real, b: real, total: real)
    requires 0.0 < total
    ensures 100.0 * a / total + 100.0 * b / total == 100.0 * (a + b) / total
  {}

  lemma HundredIff(sum: nat, total: nat)
    requires 0 < total
    ensures 100.0 * sum as real / total as real == 100.0 <==> sum == total
  {
    if 100.0 * sum as real / total as real == 100.0 {
      assert 100.0 * sum as real == 100.0 * total as real;
    }
  }

  /** The column of percentages adds up to 100 if and only if the total of the report has not wrapped around. */
  lemma {:induction false} PercentagesAddUpIff(rows: seq<Row>, entries: seq<Entry>)
    requires DistinctNames(entries) && Reports(rows, entries) && rows != []
    ensures PercentOf(rows) == 100.0 <==> TotalOf(entries) < WORD
  {
    OrderedSetKeepsAll(entries);
    PercentOfRows(OrderedSet(entries), TotalOf(entries) % WORD);
    HundredIff(TotalOf(entries), TotalOf(entries) % WORD);
  }

  /** Two functions that together exceed 64 bits. */
  lemma WrappedPercentages(rows: seq<Row>)
    ensures var most := Stats(WORD - 1, WORD - 1, WORD - 1, 1);
            var entries := [Entry("oneCCL::a", most), Entry("oneCCL::b", most)];
            Reports(rows, entries) ==> PercentOf(rows) != 100.0
  {
    var most := Stats(WORD - 1, WORD - 1, WORD - 1, 1);
    var a, b := Entry("oneCCL::a", most), Entry("oneCCL::b", most);
    var entries := [a, b];
    assert a.name[8] != b.name[8];
    assert entries[1..] == [b] && [b][1..] == [];
    assert TotalOf([b][1..]) == 0;
    assert TotalOf([b]) == WORD - 1;
    assert TotalOf(entries) == (WORD - 1) + TotalOf(entries[1..]);
    if Reports(rows, entries) && rows != [] {
      PercentagesAddUpIff(rows, entries);
    }
  }

  // ------------------------------------------------------------------
  // The report of a run
  // ------------------------------------------------------------------

  /** The entries list the table, every function once. */
  ghost predicate Lists(entries: seq<Entry>, table: map<string, Stats>) {
    && DistinctNames(entries)
    && (forall i :: 0 <= i < |entries| ==> entries[i].name in table && entries[i].stats == table[entries[i].name])
    && (forall name <- table :: HasName(entries, name))
  }

  ghost predicate HasName(entries: seq<Entry>, name: string) {
    exists i :: 0 <= i < |entries| && entries[i].name == name
  }

  /** Everything recorded for functions that count. */
  function CountedTime(samples: seq<Sample>): nat {
    if samples == [] then 0
    else
      var last := samples[|samples| - 1];
      CountedTime(samples[..|samples| - 1]) + if "oneCCL::" <= last.name then last.time else 0
  }

  /** What was recorded for the functions of a list. */
  function ListedTime(entries: seq<Entry>, samples: seq<Sample>): nat {
    if entries == [] then 0 else Sum(TimesOf(samples, entries[0].name)) + ListedTime(entries[1..], samples)
  }

  lemma TimesAdd(samples: seq<Sample>, s: Sample, name: string)
    ensures Sum(TimesOf(samples + [s], name)) == Sum(TimesOf(samples, name)) + if s.name == name then s.time else 0
  {
    TimesOfSnoc(samples, s, name);
    var times := TimesOf(samples, name);
    assert (times + [s.time])[..|times|] == times;
    assert times + [] == times;
  }

  /** A sample adds its time to a list of distinct functions that holds its own, and nothing to another list. */
  lemma {:induction false} SampleAdds(entries: seq<Entry>, samples: seq<Sample>, s: Sample)
    requires DistinctNames(entries)
    ensures ListedTime(entries, samples + [s]) ==
            ListedTime(entries, samples) + if HasName(entries, s.name) then s.time else 0
  {
    if entries == [] {
    } else {
      var rest := entries[1..];
      SampleAdds(rest, samples, s);
      TimesAdd(samples, s, entries[0].name);
      assert HasName(entries, s.name) <==> entries[0].name == s.name || HasName(rest, s.name) by {
        if i :| 0 <= i < |entries| && entries[i].name == s.name {
          assert i == 0 || rest[i - 1].name == s.name;
        }
        if i :| 0 <= i < |rest| && rest[i].name == s.name {
          assert entries[i + 1].name == s.name;
        }
      }
      assert !(entries[0].name == s.name && HasName(rest, s.name));
    }
  }

  lemma {:induction false} ListedIsCounted(entries: seq<Entry>, samples: seq<Sample>, all: seq<Sample>)
    requires DistinctNames(entries) && samples <= all
    requires forall s <- all :: Counted(s.name) <==> HasName(entries, s.name)
    ensures ListedTime(entries, samples) == CountedTime(samples)
  {
    if samples == [] {
      NothingListed(entries);
    } else {
      var init, last := samples[..|samples| - 1], samples[|samples| - 1];
      assert samples == init + [last] && last in all;
      ListedIsCounted(entries, init, all);
      SampleAdds(entries, init, last);
    }
  }

  lemma {:induction false} NothingListed(entries: seq<Entry>)
    ensures ListedTime(entries, []) == 0
  {
    if entries == [] {
    } else {
      NothingListed(entries[1..]);
    }
  }

  lemma {:induction false} SampledHasTimes(samples: seq<Sample>, s: Sample)
    requires s in samples
    ensures TimesOf(samples, s.name) != []
  {
    var init, last := samples[..|samples| - 1], samples[|samples| - 1];
    assert samples == init + [last];
    if s != last {
      SampledHasTimes(init, s);
    }
  }

  lemma {:induction false} TotalIsListed(entries: seq<Entry>, samples: seq<Sample>)
    requires forall i :: 0 <= i < |entries| ==> Describes(entries[i].stats, TimesOf(samples, entries[i].name))
    ensures TotalOf(entries) % WORD == ListedTime(entries, samples) % WORD
  {
    if entries == [] {
    } else {
      TotalIsListed(entries[1..], samples);
      WrapBoth(Sum(TimesOf(samples, entries[0].name)), TotalOf(entries[1..]), ListedTime(entries[1..], samples));
    }
  }

  lemma WrapBoth(a: nat, b: nat, c: nat)
    requires b % WORD == c % WORD
    ensures (a % WORD + b) % WORD == (a + c) % WORD
  {}

  lemma {:induction false} FewTimes(samples: seq<Sample>, name: string)
    ensures |TimesOf(samples, name)| <= |samples|
  {
    if samples == [] {
    } else {
      FewTimes(samples[..|samples| - 1], name);
    }
  }

  /** The row describes one function by all its times. */
  ghost predicate DescribesRow(row: Row, times: seq<nat>, total: nat)
    requires 0 < total
  {
    && times != []
    && row.calls == |times| && row.time == Sum(times) % WORD
    && IsMin(row.min, times) && IsMax(row.max, times)
    && row.average == row.time / |times|
    && row.percent == 100.0 * row.time as real / total as real
  }

  predicate RowBefore(a: Row, b: Row) {
    if a.time != b.time then a.time > b.time
    else if a.calls != b.calls then a.calls > b.calls
    else Greater(a.name, b.name)
  }

  ghost predicate HasRow(rows: seq<Row>, name: string) {
    exists i :: 0 <= i < |rows| && rows[i].name == name
  }

  /**
    The report of a list of samples: nothing when their times add up to zero, else
    exactly one row for every oneCCL function sampled, by total, calls and name.
   */
  ghost predicate ReportOf(rows: seq<Row>, samples: seq<Sample>) {
    var total := CountedTime(samples) % WORD;
    if total == 0 then rows == []
    else
      && (forall i :: 0 <= i < |rows| ==>
            "oneCCL::" <= rows[i].name && DescribesRow(rows[i], TimesOf(samples, rows[i].name), total))
      && (forall name :: "oneCCL::" <= name && TimesOf(samples, name) != [] ==> HasRow(rows, name))
      && (forall i, j :: 0 <= i < j < |rows| ==> rows[i].name != rows[j].name && RowBefore(rows[i], rows[j]))
  }

  /** The entries of a table that keeps track of the samples. */
  lemma {:induction false} EntriesOfTable(entries: seq<Entry>, table: map<string, Stats>, samples: seq<Sample>)
    requires Tracks(table, samples) && Lists(entries, table) && |samples| < WORD
    ensures forall i :: 0 <= i < |entries| ==>
              Counted(entries[i].name) && Describes(entries[i].stats, TimesOf(samples, entries[i].name))
              && entries[i].stats.count == |TimesOf(samples, entries[i].name)|
    ensures TotalOf(entries) % WORD == CountedTime(samples) % WORD
  {
    forall i | 0 <= i < |entries|
      ensures Describes(entries[i].stats, TimesOf(samples, entries[i].name))
      ensures entries[i].stats.count == |TimesOf(samples, entries[i].name)|
    {
      FewTimes(samples, entries[i].name);
    }
    TotalIsListed(entries, samples);
    forall s | s in samples ensures Counted(s.name) <==> HasName(entries, s.name) {
      SampledHasTimes(samples, s);
    }
    ListedIsCounted(entries, samples, samples);
  }

  /** The ordered set holds the same entries. */
  lemma SameEntries(list: seq<Entry>, entries: seq<Entry>, table: map<string, Stats>)
    requires multiset(list) == multiset(entries) && Lists(entries, table) && Sorted(list)
    ensures Lists(list, table)
  {
    forall i | 0 <= i < |list| ensures list[i].name in table && list[i].stats == table[list[i].name] {
      assert list[i] in multiset(entries);
    }
    forall name | name in table ensures HasName(list, name) {
      assert HasName(entries, name);
      var i :| 0 <= i < |entries| && entries[i].name == name;
      assert entries[i] in multiset(list);
      var k :| 0 <= k < |list| && list[k] == entries[i];
    }
    forall i, j | 0 <= i < j < |list| ensures list[i].name != list[j].name {
      BeforeIsStrictTotalOrder(list[i], list[j], list[j]);
    }
  }

  lemma RowDescribes(e: Entry, times: seq<nat>, total: nat)
    requires 0 < total && Describes(e.stats, times) && e.stats.count == |times|
    ensures DescribesRow(RowOf(e, total), times, total)
  {}

  lemma RowsCover(rows: seq<Row>, list: seq<Entry>, total: nat, name: string)
    requires 0 < total && forall i :: 0 <= i < |list| ==> list[i].stats.count != 0
    requires rows == RowsOf(list, total) && HasName(list, name)
    ensures HasRow(rows, name)
  {
    var k :| 0 <= k < |list| && list[k].name == name;
    assert rows[k].name == name;
  }

  lemma RowsOrdered(rows: seq<Row>, list: seq<Entry>, total: nat, i: nat, j: nat)
    requires 0 < total && forall i :: 0 <= i < |list| ==> list[i].stats.count != 0
    requires rows == RowsOf(list, total) && Sorted(list) && DistinctNames(list) && i < j < |rows|
    ensures rows[i].name != rows[j].name && RowBefore(rows[i], rows[j])
  {
    assert Before(list[i], list[j]);
  }

  /** The report over a listing of the table is the report of the samples. */
  lemma {:induction false} ReportsSamples(rows: seq<Row>, entries: seq<Entry>, table: map<string, Stats>,
                                          samples: seq<Sample>)
    requires Tracks(table, samples) && Lists(entries, table) && |samples| < WORD && Reports(rows, entries)
    ensures ReportOf(rows, samples)
  {
    var list, total := OrderedSet(entries), CountedTime(samples) % WORD;
    EntriesOfTable(entries, table, samples);
    OrderedSetKeepsAll(entries);
    SameEntries(list, entries, table);
    EntriesOfTable(list, table, samples);
    if total != 0 {
      forall i | 0 <= i < |rows|
        ensures Counted(rows[i].name) && DescribesRow(rows[i], TimesOf(samples, rows[i].name), total)
      {
        RowDescribes(list[i], TimesOf(samples, list[i].name), total);
      }
      forall name | Counted(name) && TimesOf(samples, name) != [] ensures HasRow(rows, name) {
        RowsCover(rows, list, total, name);
      }
      forall i, j | 0 <= i < j < |rows| ensures rows[i].name != rows[j].name && RowBefore(rows[i], rows[j]) {
        RowsOrdered(rows, list, total, i, j);
      }
    }
  }

  /** Lists a table; the order in which std::map is iterated does not matter to the ordered set. */
  method ListTable(table: map<string, Stats>) returns (entries: seq<Entry>)
    ensures Lists(entries, table)
  {
    entries := [];
    var left := table.Keys;
    while left != {}
      invariant left <= table.Keys && DistinctNames(entries)
      invariant forall i :: 0 <= i < |entries| ==>
                  && entries[i].name in table && entries[i].name !in left
                  && entries[i].stats == table[entries[i].name]
      invariant forall name <- table :: name in left || HasName(entries, name)
      decreases |left|
    {
      var name :| name in left;
      ghost var before := entries;
      entries := entries + [Entry(name, table[name])];
      left := left - {name};
      assert entries[|before|].name == name;
      forall n | n in table && HasName(before, n) ensures HasName(entries, n) {
        var i :| 0 <= i < |before| && before[i].name == n;
        assert entries[i].name == n;
      }
    }
  }

  /** The report of everything that has been recorded, as long as the call counters fit 64 bits. */
  method Summarize(info: FunctionInfo) returns (rows: seq<Row>)
    requires info.Valid() && |info.samples| < WORD
    ensures ReportOf(rows, info.samples)
  {
    var entries := ListTable(info.table);
    EntriesOfTable(entries, info.table, info.samples);
    rows := CclSummaryReport(entries);
    ReportsSamples(rows, entries, info.table, info.samples);
  }
}
