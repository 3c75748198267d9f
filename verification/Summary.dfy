/**
  The per-category totals of summary.py: names are categorized and their
  aggregated times and call counts are added up under "<category>_<label>".
 */
module Summary {
  import opened Prelude
  import opened SchemaRules
  import opened Categorizer

  /** One function or kernel: its name and the (time, calls) pair of every file it occurs in. */
  datatype Item = Item(name: string, values: seq<(int, int)>)

  datatype Metric = Time | Calls

  /** A categorized item with its aggregated values. */
  datatype Row = Row(category: string, time: real, calls: real)

  type Aggregator = seq<int> -> real

  function Text(metric: Metric): string {
    match metric case Time => "time" case Calls => "calls"
  }

  function Key(category: string, metric: Metric): string {
    category + "_" + Text(metric)
  }

  function Value(row: Row, metric: Metric): real {
    match metric case Time => row.time case Calls => row.calls
  }

  function Column(values: seq<(int, int)>, metric: Metric): seq<int> {
    seq(|values|, i requires 0 <= i < |values| => if metric == Time then values[i].0 else values[i].1)
  }

  function CategoryOf(schema: Schema, item: Item, default: string): Outcome {
    Categorize(schema, if schema.ignoreSpaces then RemoveSpaces(item.name) else item.name, default)
  }

  /** The rows of the items with a non-empty category, in order; None if some lookup raises. */
  function RowsOf(schema: Schema, items: seq<Item>, default: string, aggregate: Aggregator): Option<seq<Row>> {
    if items == [] then Some([])
    else
      var init := RowsOf(schema, items[..|items| - 1], default, aggregate);
      var last := items[|items| - 1];
      match (init, CategoryOf(schema, last, default))
      case (Some(rows), Category(c)) =>
        if c == "" then Some(rows)
        else Some(rows + [Row(c, aggregate(Column(last.values, Time)), aggregate(Column(last.values, Calls)))])
      case _ => None
  }

  // ------------------------------------------------------------------
  // Totals
  // ------------------------------------------------------------------

  function TotalIf(hit: bool, value: real): real {
    if hit then value else 0.0
  }

  /** What the rows add up to under one output key, whichever category and label it stands for. */
  function KeyTotal(rows: seq<Row>, key: string): real {
    if rows == [] then 0.0
    else
      var last := rows[|rows| - 1];
      KeyTotal(rows[..|rows| - 1], key)
      + TotalIf(Key(last.category, Time) == key, last.time)
      + TotalIf(Key(last.category, Calls) == key, last.calls)
  }

  /** What the rows add up to under one label. */
  function MetricTotal(rows: seq<Row>, metric: Metric): real {
    if rows == [] then 0.0
    else MetricTotal(rows[..|rows| - 1], metric) + Value(rows[|rows| - 1], metric)
  }

  /** The sum of the totals of a list of categories under one label. */
  function CategoriesTotal(rows: seq<Row>, categories: seq<string>, metric: Metric): real {
    if categories == [] then 0.0
    else CategoriesTotal(rows, categories[..|categories| - 1], metric)
         + KeyTotal(rows, Key(categories[|categories| - 1], metric))
  }

  function KeysOf(rows: seq<Row>): set<string> {
    if rows == [] then {}
    else
      var last := rows[|rows| - 1];
      KeysOf(rows[..|rows| - 1]) + {Key(last.category, Time), Key(last.category, Calls)}
  }

  ghost predicate Totals(output: map<string, real>, rows: seq<Row>) {
    && output.Keys == KeysOf(rows)
    && (forall key <- output :: output[key] == KeyTotal(rows, key))
  }

  function Add(output: map<string, real>, key: string, value: real): map<string, real> {
    output[key := if key in output then output[key] + value else value]
  }

  lemma {:induction false} NoRowNoTotal(rows: seq<Row>, key: string)
    requires key !in KeysOf(rows)
    ensures KeyTotal(rows, key) == 0.0
  {
    if rows == [] {
    } else {
      NoRowNoTotal(rows[..|rows| - 1], key);
    }
  }

  /** Distinct (category, metric) pairs never share an output key. */
  lemma KeyInjective(c1: string, l1: Metric, c2: string, l2: Metric)
    requires Key(c1, l1) == Key(c2, l2)
    ensures c1 == c2 && l1 == l2
  {
    var k1, k2 := Key(c1, l1), Key(c2, l2);
    assert k1[|k1| - 1] == Text(l1)[|Text(l1)| - 1];
    assert k2[|k2| - 1] == Text(l2)[|Text(l2)| - 1];
    assert l1 == l2;
    assert c1 == k1[..|k1| - |Text(l1)| - 1];
    assert c2 == k2[..|k2| - |Text(l2)| - 1];
  }

  lemma AddRow(output: map<string, real>, rows: seq<Row>, row: Row)
    requires Totals(output, rows)
    ensures var output' := Add(output, Key(row.category, Time), row.time);
            Totals(Add(output', Key(row.category, Calls), row.calls), rows + [row])
  {
    var kt, kc := Key(row.category, Time), Key(row.category, Calls);
    if kt == kc {
      KeyInjective(row.category, Time, row.category, Calls);
    }
    assert (rows + [row])[..|rows|] == rows;
    if kt !in output {
      NoRowNoTotal(rows, kt);
    }
    if kc !in output {
      NoRowNoTotal(rows, kc);
    }
  }

  /** The rows one more item adds: none under the empty category. */
  function RowsFor(item: Item, category: string, aggregate: Aggregator): seq<Row> {
    if category == "" then []
    else [Row(category, aggregate(Column(item.values, Time)), aggregate(Column(item.values, Calls)))]
  }

  lemma RowsOfSnoc(schema: Schema, items: seq<Item>, i: nat, default: string, aggregate: Aggregator, seen: seq<Row>)
    requires i < |items| && RowsOf(schema, items[..i], default, aggregate) == Some(seen)
    ensures RowsOf(schema, items[..i + 1], default, aggregate) ==
            match CategoryOf(schema, items[i], default)
            case Raised => None
            case Category(c) => Some(seen + RowsFor(items[i], c, aggregate))
  {
    assert items[..i + 1][..i] == items[..i];
    assert seen + [] == seen;
  }

  lemma KeyTexts(category: string)
    ensures Key(category, Time) == category + "_time" && Key(category, Calls) == category + "_calls"
    ensures category + "_time" != category + "_calls"
  {
    if Key(category, Time) == Key(category, Calls) {
      KeyInjective(category, Time, category, Calls);
    }
  }

  /** The output with a time and a number of calls added under a category. */
  function Extended(output: map<string, real>, category: string, time: real, calls: real): map<string, real> {
    output[category + "_time" := Held(output, category + "_time") + time]
          [category + "_calls" := Held(output, category + "_calls") + calls]
  }

  lemma AddBoth(output: map<string, real>, category: string, time: real, calls: real)
    ensures Add(Add(output, Key(category, Time), time), Key(category, Calls), calls)
            == Extended(output, category, time, calls)
  {
    KeyTexts(category);
  }

  /** The loop over the two labels for one name. */
  method AddItem(before: map<string, real>, item: Item, category: string, aggregate: Aggregator, ghost rows: seq<Row>)
    returns (output: map<string, real>)
    requires Totals(before, rows)
    ensures Totals(output, rows + RowsFor(item, category, aggregate))
    ensures category == "" ==> output == before
    ensures category != "" ==>
              output == Extended(before, category, aggregate(Firsts(item.values)), aggregate(Seconds(item.values)))
  {
    output := before;
    ColumnsOf(item.values);
    if category != "" {
      var time := aggregate(Column(item.values, Time));
      var calls := aggregate(Column(item.values, Calls));
      AddRow(output, rows, Row(category, time, calls));
      AddBoth(before, category, time, calls);
      output := Add(output, Key(category, Time), time);
      output := Add(output, Key(category, Calls), calls);
    } else {
      assert rows + [] == rows;
    }
  }

  /** The accumulation loop over one section; `failed` is the KeyError of a lookup. */
  method AccumulateSection(schema: Schema, items: seq<Item>, default: string, aggregate: Aggregator,
                           before: map<string, real>, ghost rows: seq<Row>)
    returns (output: map<string, real>, failed: bool)
    requires Totals(before, rows)
    ensures failed <==> RowsOf(schema, items, default, aggregate) == None
    ensures !failed ==> Totals(output, rows + RowsOf(schema, items, default, aggregate).value)
  {
    output, failed := before, false;
    ghost var seen: seq<Row> := [];
    assert items[..0] == [] && rows + [] == rows;
    for i := 0 to |items|
      invariant RowsOf(schema, items[..i], default, aggregate) == Some(seen)
      invariant Totals(output, rows + seen)
    {
      var item := items[i];
      RowsOfSnoc(schema, items, i, default, aggregate, seen);
      var name := if schema.ignoreSpaces then RemoveSpaces(item.name) else item.name;
      var outcome := Categorize(schema, name, default);
      if outcome == Raised {
        RowsStayNone(schema, items, i + 1, default, aggregate);
        return output, true;
      }
      var category := outcome.category;
      ghost var more := RowsFor(item, category, aggregate);
      Associate(rows, seen, more);
      output := AddItem(output, item, category, aggregate, rows + seen);
      seen := seen + more;
    }
    assert items[..|items|] == items;
  }

  lemma {:induction false} RowsStayNone(schema: Schema, items: seq<Item>, i: nat, default: string,
                                        aggregate: Aggregator)
    requires i <= |items| && RowsOf(schema, items[..i], default, aggregate) == None
    ensures RowsOf(schema, items, default, aggregate) == None
  {
    if i == |items| {
      assert items[..i] == items;
    } else {
      var init := items[..|items| - 1];
      assert init[..i] == items[..i];
      RowsStayNone(schema, init, i, default, aggregate);
    }
  }

  method Summarize(schema: Schema, device: seq<Item>, comm: seq<Item>, aggregate: Aggregator)
    returns (output: map<string, real>, failed: bool)
    ensures failed <==>
              RowsOf(schema, device, "device", aggregate) == None || RowsOf(schema, comm, "comm", aggregate) == None
    ensures !failed ==> Totals(output, RowsOf(schema, device, "device", aggregate).value
                                       + RowsOf(schema, comm, "comm", aggregate).value)
  {
    output, failed := AccumulateSection(schema, device, "device", aggregate, map[], []);
    if !failed {
      ghost var rows := RowsOf(schema, device, "device", aggregate).value;
      assert [] + rows == rows;
      output, failed := AccumulateSection(schema, comm, "comm", aggregate, output, rows);
    }
  }

  // ------------------------------------------------------------------
  // Conservation
  // ------------------------------------------------------------------

  lemma {:induction false} RowOutside(rows: seq<Row>, row: Row, categories: seq<string>, metric: Metric)
    requires row.category !in categories
    ensures CategoriesTotal(rows + [row], categories, metric) == CategoriesTotal(rows, categories, metric)
  {
    if categories == [] {
    } else {
      var c := categories[|categories| - 1];
      RowOutside(rows, row, categories[..|categories| - 1], metric);
      OneRow(rows, row, c, metric);
    }
  }

  lemma OneRow(rows: seq<Row>, row: Row, category: string, metric: Metric)
    ensures KeyTotal(rows + [row], Key(category, metric)) ==
            KeyTotal(rows, Key(category, metric)) + TotalIf(row.category == category, Value(row, metric))
  {
    assert (rows + [row])[..|rows|] == rows;
    forall l: Metric | Key(row.category, l) == Key(category, metric) ensures row.category == category && l == metric {
      KeyInjective(row.category, l, category, metric);
    }
  }

  lemma {:induction false} RowInside(rows: seq<Row>, row: Row, categories: seq<string>, metric: Metric)
    requires row.category in categories
    requires forall i, j :: 0 <= i < j < |categories| ==> categories[i] != categories[j]
    ensures CategoriesTotal(rows + [row], categories, metric) ==
            CategoriesTotal(rows, categories, metric) + Value(row, metric)
  {
    var init, c := categories[..|categories| - 1], categories[|categories| - 1];
    assert categories == init + [c];
    OneRow(rows, row, c, metric);
    if c == row.category {
      RowOutside(rows, row, init, metric);
    } else {
      RowInside(rows, row, init, metric);
    }
  }

  lemma {:induction false} NoRowsNoTotals(categories: seq<string>, metric: Metric)
    ensures CategoriesTotal([], categories, metric) == 0.0
  {
    if categories == [] {
    } else {
      NoRowsNoTotals(categories[..|categories| - 1], metric);
    }
  }

  lemma {:induction false} RowsAddUp(rows: seq<Row>, categories: seq<string>, metric: Metric)
    requires forall row <- rows :: row.category in categories
    requires forall i, j :: 0 <= i < j < |categories| ==> categories[i] != categories[j]
    ensures CategoriesTotal(rows, categories, metric) == MetricTotal(rows, metric)
  {
    if rows == [] {
      NoRowsNoTotals(categories, metric);
    } else {
      var init, last := rows[..|rows| - 1], rows[|rows| - 1];
      assert rows == init + [last];
      RowsAddUp(init, categories, metric);
      RowInside(init, last, categories, metric);
    }
  }

  /** What the output map holds under a key. */
  function Held(output: map<string, real>, key: string): real {
    if key in output then output[key] else 0.0
  }

  /** What the output map holds under one label, for a list of categories. */
  function OutputTotal(output: map<string, real>, categories: seq<string>, metric: Metric): real {
    if categories == [] then 0.0
    else
      OutputTotal(output, categories[..|categories| - 1], metric)
      + Held(output, Key(categories[|categories| - 1], metric))
  }

  lemma HeldIsTotal(output: map<string, real>, rows: seq<Row>, key: string)
    requires Totals(output, rows)
    ensures Held(output, key) == KeyTotal(rows, key)
  {
    if key !in output {
      NoRowNoTotal(rows, key);
    }
  }

  lemma {:induction false} OutputIsTotals(output: map<string, real>, rows: seq<Row>, categories: seq<string>,
                                          metric: Metric)
    requires Totals(output, rows)
    ensures OutputTotal(output, categories, metric) == CategoriesTotal(rows, categories, metric)
  {
    if categories == [] {
    } else {
      OutputIsTotals(output, rows, categories[..|categories| - 1], metric);
      HeldIsTotal(output, rows, Key(categories[|categories| - 1], metric));
    }
  }

  /** Listing every category once, the entries of a label in the output add up to everything recorded under it. */
  lemma {:induction false} NothingLost(output: map<string, real>, rows: seq<Row>, categories: seq<string>,
                                       metric: Metric)
    requires Totals(output, rows) && forall row <- rows :: row.category in categories
    requires forall i, j :: 0 <= i < j < |categories| ==> categories[i] != categories[j]
    ensures OutputTotal(output, categories, metric) == MetricTotal(rows, metric)
  {
    OutputIsTotals(output, rows, categories, metric);
    RowsAddUp(rows, categories, metric);
  }

  // ------------------------------------------------------------------
  // The output, read off the items
  // ------------------------------------------------------------------

  function Firsts(values: seq<(int, int)>): seq<int> {
    if values == [] then [] else Firsts(values[..|values| - 1]) + [values[|values| - 1].0]
  }

  function Seconds(values: seq<(int, int)>): seq<int> {
    if values == [] then [] else Seconds(values[..|values| - 1]) + [values[|values| - 1].1]
  }

  /** The lookup of an item's name, without its blanks and tabs when the schema says so. */
  function Looked(schema: Schema, item: Item, default: string): Outcome {
    Categorize(schema, if schema.ignoreSpaces then RemoveSpaces(item.name) else item.name, default)
  }

  /** The aggregated times of the items of a category. */
  function TimesIn(schema: Schema, items: seq<Item>, default: string, aggregate: Aggregator, category: string): real {
    if items == [] then 0.0
    else
      var last := items[|items| - 1];
      TimesIn(schema, items[..|items| - 1], default, aggregate, category)
      + if Looked(schema, last, default) == Category(category) then aggregate(Firsts(last.values)) else 0.0
  }

  /** The aggregated calls of the items of a category. */
  function CallsIn(schema: Schema, items: seq<Item>, default: string, aggregate: Aggregator, category: string): real {
    if items == [] then 0.0
    else
      var last := items[|items| - 1];
      CallsIn(schema, items[..|items| - 1], default, aggregate, category)
      + if Looked(schema, last, default) == Category(category) then aggregate(Seconds(last.values)) else 0.0
  }

  ghost predicate Raises(schema: Schema, items: seq<Item>, default: string) {
    exists i :: 0 <= i < |items| && Looked(schema, items[i], default) == Raised
  }

  lemma {:induction false} ColumnsOf(values: seq<(int, int)>)
    ensures Column(values, Time) == Firsts(values) && Column(values, Calls) == Seconds(values)
  {
    if values == [] {
    } else {
      var init := values[..|values| - 1];
      ColumnsOf(init);
      assert Column(values, Time) == Column(init, Time) + [values[|values| - 1].0];
      assert Column(values, Calls) == Column(init, Calls) + [values[|values| - 1].1];
    }
  }

  lemma {:induction false} RowsNoneIff(schema: Schema, items: seq<Item>, default: string, aggregate: Aggregator)
    ensures RowsOf(schema, items, default, aggregate) == None <==> Raises(schema, items, default)
  {
    if items == [] {
    } else {
      var init, n := items[..|items| - 1], |items| - 1;
      RowsNoneIff(schema, init, default, aggregate);
      if i :| 0 <= i < |init| && Looked(schema, init[i], default) == Raised {
        assert Looked(schema, items[i], default) == Raised;
      }
      if i :| 0 <= i < |items| && Looked(schema, items[i], default) == Raised {
        assert i < n ==> Looked(schema, init[i], default) == Raised;
      }
    }
  }

  /** The rows of the items hold, for every category, exactly its items' times and calls. */
  lemma {:induction false} RowsHold(schema: Schema, items: seq<Item>, default: string, aggregate: Aggregator,
                                    category: string)
    requires RowsOf(schema, items, default, aggregate).Some? && category != ""
    ensures var rows := RowsOf(schema, items, default, aggregate).value;
            && KeyTotal(rows, Key(category, Time)) == TimesIn(schema, items, default, aggregate, category)
            && KeyTotal(rows, Key(category, Calls)) == CallsIn(schema, items, default, aggregate, category)
  {
    if items == [] {
    } else {
      var init, last := items[..|items| - 1], items[|items| - 1];
      RowsHold(schema, init, default, aggregate, category);
      var rows := RowsOf(schema, init, default, aggregate).value;
      ColumnsOf(last.values);
      var c := Looked(schema, last, default).category;
      if c != "" {
        var row := Row(c, aggregate(Firsts(last.values)), aggregate(Seconds(last.values)));
        OneRow(rows, row, category, Time);
        OneRow(rows, row, category, Calls);
      }
    }
  }

  lemma {:induction false} KeyTotalConcat(a: seq<Row>, b: seq<Row>, key: string)
    ensures KeyTotal(a + b, key) == KeyTotal(a, key) + KeyTotal(b, key)
    ensures KeysOf(a + b) == KeysOf(a) + KeysOf(b)
  {
    if b == [] {
      assert a + b == a;
    } else {
      assert (a + b)[..|a + b| - 1] == a + b[..|b| - 1];
      KeyTotalConcat(a, b[..|b| - 1], key);
    }
  }

  ghost predicate KeyFor(key: string, category: string) {
    category != "" && (key == category + "_time" || key == category + "_calls")
  }

  /** The key is "<category>_time" or "<category>_calls" for the category of some item. */
  ghost predicate IsNamed(schema: Schema, items: seq<Item>, default: string, key: string) {
    exists i, c :: 0 <= i < |items| && Looked(schema, items[i], default) == Category(c) && KeyFor(key, c)
  }

  lemma LastNames(schema: Schema, items: seq<Item>, default: string, key: string, n: nat)
    requires n + 1 == |items| && Looked(schema, items[n], default).Category?
    ensures IsNamed(schema, items, default, key) <==>
            IsNamed(schema, items[..n], default, key) || KeyFor(key, Looked(schema, items[n], default).category)
  {
    var init := items[..n];
    if i, c :| 0 <= i < |init| && Looked(schema, init[i], default) == Category(c) && KeyFor(key, c) {
      assert Looked(schema, items[i], default) == Category(c);
    }
    if i, c :| 0 <= i < |items| && Looked(schema, items[i], default) == Category(c) && KeyFor(key, c) {
      assert i < n ==> Looked(schema, init[i], default) == Category(c);
    }
  }

  lemma RowKeys(rows: seq<Row>, row: Row, key: string)
    requires row.category != ""
    ensures key in KeysOf(rows + [row]) <==> key in KeysOf(rows) || KeyFor(key, row.category)
  {
    assert (rows + [row])[..|rows|] == rows;
    assert Key(row.category, Time) == row.category + "_time" && Key(row.category, Calls) == row.category + "_calls";
  }

  lemma {:induction false} KeysAreNamed(schema: Schema, items: seq<Item>, default: string, aggregate: Aggregator,
                                        key: string)
    requires RowsOf(schema, items, default, aggregate).Some?
    ensures key in KeysOf(RowsOf(schema, items, default, aggregate).value) <==> IsNamed(schema, items, default, key)
  {
    if items == [] {
    } else {
      var init, last := items[..|items| - 1], items[|items| - 1];
      var rows, c := RowsOf(schema, init, default, aggregate).value, Looked(schema, last, default).category;
      KeysAreNamed(schema, init, default, aggregate, key);
      LastNames(schema, items, default, key, |items| - 1);
      if c != "" {
        RowKeys(rows, Row(c, aggregate(Column(last.values, Time)), aggregate(Column(last.values, Calls))), key);
      }
    }
  }

  /** Under every category the output holds exactly the aggregated times and calls of its items, and nothing else. */
  ghost predicate Describes(output: map<string, real>, schema: Schema, device: seq<Item>, comm: seq<Item>,
                            aggregate: Aggregator)
  {
    && (forall c :: c != "" ==>
          && Held(output, c + "_time")
             == TimesIn(schema, device, "device", aggregate, c) + TimesIn(schema, comm, "comm", aggregate, c)
          && Held(output, c + "_calls")
             == CallsIn(schema, device, "device", aggregate, c) + CallsIn(schema, comm, "comm", aggregate, c))
    && (forall key :: key in output <==>
          IsNamed(schema, device, "device", key) || IsNamed(schema, comm, "comm", key))
  }

  lemma {:induction false} OutputDescribes(output: map<string, real>, schema: Schema, device: seq<Item>,
                                           comm: seq<Item>, aggregate: Aggregator)
    requires RowsOf(schema, device, "device", aggregate).Some? && RowsOf(schema, comm, "comm", aggregate).Some?
    requires Totals(output, RowsOf(schema, device, "device", aggregate).value
                            + RowsOf(schema, comm, "comm", aggregate).value)
    ensures Describes(output, schema, device, comm, aggregate)
  {
    var a, b := RowsOf(schema, device, "device", aggregate).value, RowsOf(schema, comm, "comm", aggregate).value;
    forall c | c != ""
      ensures Held(output, c + "_time")
              == TimesIn(schema, device, "device", aggregate, c) + TimesIn(schema, comm, "comm", aggregate, c)
      ensures Held(output, c + "_calls")
              == CallsIn(schema, device, "device", aggregate, c) + CallsIn(schema, comm, "comm", aggregate, c)
    {
      assert Key(c, Time) == c + "_time" && Key(c, Calls) == c + "_calls";
      HeldIsTotal(output, a + b, c + "_time");
      HeldIsTotal(output, a + b, c + "_calls");
      KeyTotalConcat(a, b, c + "_time");
      KeyTotalConcat(a, b, c + "_calls");
      RowsHold(schema, device, "device", aggregate, c);
      RowsHold(schema, comm, "comm", aggregate, c);
    }
    forall key
      ensures key in output <==> IsNamed(schema, device, "device", key) || IsNamed(schema, comm, "comm", key)
    {
      KeyTotalConcat(a, b, key);
      KeysAreNamed(schema, device, "device", aggregate, key);
      KeysAreNamed(schema, comm, "comm", aggregate, key);
    }
  }

  // ------------------------------------------------------------------
  // With the sum as the aggregator
  // ------------------------------------------------------------------

  function Sum(values: seq<int>): int {
    if values == [] then 0 else Sum(values[..|values| - 1]) + values[|values| - 1]
  }

  function PairTimes(values: seq<(int, int)>): int {
    if values == [] then 0 else PairTimes(values[..|values| - 1]) + values[|values| - 1].0
  }

  function PairCalls(values: seq<(int, int)>): int {
    if values == [] then 0 else PairCalls(values[..|values| - 1]) + values[|values| - 1].1
  }

  /** All times of all items that have a category. */
  function AllTimes(schema: Schema, items: seq<Item>, default: string): int {
    if items == [] then 0
    else
      var last := items[|items| - 1];
      AllTimes(schema, items[..|items| - 1], default)
      + if Looked(schema, last, default) == Category("") then 0 else PairTimes(last.values)
  }

  /** All calls of all items that have a category. */
  function AllCalls(schema: Schema, items: seq<Item>, default: string): int {
    if items == [] then 0
    else
      var last := items[|items| - 1];
      AllCalls(schema, items[..|items| - 1], default)
      + if Looked(schema, last, default) == Category("") then 0 else PairCalls(last.values)
  }

  lemma {:induction false} SumOfPairs(values: seq<(int, int)>)
    ensures Sum(Firsts(values)) == PairTimes(values) && Sum(Seconds(values)) == PairCalls(values)
  {
    if values == [] {
    } else {
      var init := values[..|values| - 1];
      SumOfPairs(init);
      assert Firsts(values)[..|Firsts(values)| - 1] == Firsts(init);
      assert Seconds(values)[..|Seconds(values)| - 1] == Seconds(init);
    }
  }

  lemma {:induction false} RowsSum(schema: Schema, items: seq<Item>, default: string, aggregate: Aggregator)
    requires (forall s :: aggregate(s) == Sum(s) as real) && RowsOf(schema, items, default, aggregate).Some?
    ensures var rows := RowsOf(schema, items, default, aggregate).value;
            && MetricTotal(rows, Time) == AllTimes(schema, items, default) as real
            && MetricTotal(rows, Calls) == AllCalls(schema, items, default) as real
  {
    if items == [] {
    } else {
      var init, last := items[..|items| - 1], items[|items| - 1];
      RowsSum(schema, init, default, aggregate);
      ColumnsOf(last.values);
      SumOfPairs(last.values);
      var rows, c := RowsOf(schema, init, default, aggregate).value, Looked(schema, last, default).category;
      if c != "" {
        var row := Row(c, aggregate(Firsts(last.values)), aggregate(Seconds(last.values)));
        assert (rows + [row])[..|rows|] == rows;
      }
    }
  }

  lemma {:induction false} MetricTotalConcat(a: seq<Row>, b: seq<Row>, metric: Metric)
    ensures MetricTotal(a + b, metric) == MetricTotal(a, metric) + MetricTotal(b, metric)
  {
    if b == [] {
      assert a + b == a;
    } else {
      assert (a + b)[..|a + b| - 1] == a + b[..|b| - 1];
      MetricTotalConcat(a, b[..|b| - 1], metric);
    }
  }

  /** Over distinct categories that cover the rows, the output adds up to all times, and all calls, of all items. */
  lemma {:induction false} SumsAddUp(output: map<string, real>, schema: Schema, device: seq<Item>, comm: seq<Item>,
                                     aggregate: Aggregator, categories: seq<string>)
    requires forall s :: aggregate(s) == Sum(s) as real
    requires RowsOf(schema, device, "device", aggregate).Some? && RowsOf(schema, comm, "comm", aggregate).Some?
    requires var rows := RowsOf(schema, device, "device", aggregate).value
                         + RowsOf(schema, comm, "comm", aggregate).value;
             Totals(output, rows) && forall row <- rows :: row.category in categories
    requires forall i, j :: 0 <= i < j < |categories| ==> categories[i] != categories[j]
    ensures OutputTotal(output, categories, Time)
            == (AllTimes(schema, device, "device") + AllTimes(schema, comm, "comm")) as real
    ensures OutputTotal(output, categories, Calls)
            == (AllCalls(schema, device, "device") + AllCalls(schema, comm, "comm")) as real
  {
    var a, b := RowsOf(schema, device, "device", aggregate).value, RowsOf(schema, comm, "comm", aggregate).value;
    RowsSum(schema, device, "device", aggregate);
    RowsSum(schema, comm, "comm", aggregate);
    forall metric: Metric
      ensures OutputTotal(output, categories, metric) == MetricTotal(a, metric) + MetricTotal(b, metric)
    {
      NothingLost(output, a + b, categories, metric);
      MetricTotalConcat(a, b, metric);
    }
  }

  // ------------------------------------------------------------------
  // The script
  // ------------------------------------------------------------------

  /** Both sections, summarized: the output, or the KeyError of some lookup. */
  method Report(schema: Schema, device: seq<Item>, comm: seq<Item>, aggregate: Aggregator)
    returns (output: map<string, real>, failed: bool)
    ensures failed <==> Raises(schema, device, "device") || Raises(schema, comm, "comm")
    ensures !failed ==> Describes(output, schema, device, comm, aggregate)
  {
    output, failed := Summarize(schema, device, comm, aggregate);
    RowsNoneIff(schema, device, "device", aggregate);
    RowsNoneIff(schema, comm, "comm", aggregate);
    if !failed {
      OutputDescribes(output, schema, device, comm, aggregate);
    }
  }
}
