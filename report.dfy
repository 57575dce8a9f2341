/** `data_for_html`: flattens the finalized table into the ordered list of
    eight-field rows that the HTML report embeds. */
module Report {
  import opened Numeric
  import opened Aggregate

  /** One row of the report table. */
  datatype Row = Row(
    url: string,
    count: nat,
    countPers: real,
    timeSum: real,
    timePers: real,
    timeAvg: real,
    timeMax: real,
    timeMed: real)

  /** `rows` lists the keys of `parsed` in their order, one row per key;
      every field is copied from the key's statistics unchanged except
      `time_sum`, which is rounded to 3 decimals here. */
  ghost predicate Flattens(parsed: Aggregation, rows: seq<Row>)
    requires forall u :: u in parsed.order ==> u in parsed.stats
  {
    && |rows| == |parsed.order|
    && forall i :: 0 <= i < |rows| ==>
         var s := parsed.stats[parsed.order[i]];
         && rows[i].url == parsed.order[i]
         && rows[i].count == s.count
         && rows[i].countPers == s.countPers
         && rows[i].timeSum == Round3(s.timeSum)
         && rows[i].timePers == s.timePers
         && rows[i].timeAvg == s.timeAvg
         && rows[i].timeMax == s.timeMax
         && rows[i].timeMed == s.timeMed
  }

  /** `data_for_html`: appends one row per key of the table, in order. */
  method DataForHtml(parsed: Aggregation) returns (rows: seq<Row>)
    requires forall u :: u in parsed.order ==> u in parsed.stats
    ensures Flattens(parsed, rows)
  {
    rows := [];
    for i := 0 to |parsed.order|
      invariant |rows| == i
      invariant Flattens(Aggregation(parsed.order[..i], parsed.stats), rows)
    {
      var url := parsed.order[i];
      var values := parsed.stats[url];
      rows := rows + [Row(url, values.count, values.countPers, Round3(values.timeSum),
                          values.timePers, values.timeAvg, values.timeMax, values.timeMed)];
    }
    assert parsed.order[..|parsed.order|] == parsed.order;
  }

  /** Sum of the `count` column. */
  function RowCountTotal(rows: seq<Row>): nat
  {
    if rows == [] then 0 else RowCountTotal(rows[..|rows| - 1]) + rows[|rows| - 1].count
  }

  /** A report whose table has the input's URLs as keys, in order of
      first appearance, and each URL's occurrence count as its `count` (as
      `Calculate` produces) has one row per distinct URL in that order, and
      its `count` column adds up to the number of input pairs. */
  lemma ReportCoversInput(pairs: seq<Pair>, parsed: Aggregation, rows: seq<Row>)
    requires parsed.order == Urls(pairs)
    requires forall u :: u in parsed.order ==> u in parsed.stats && parsed.stats[u].count == Occurrences(pairs, u)
    requires Flattens(parsed, rows)
    ensures |rows| == |Urls(pairs)|
    ensures forall i :: 0 <= i < |rows| ==> rows[i].url == Urls(pairs)[i]
    ensures RowCountTotal(rows) == |pairs|
  {
    RowCountsArePrefixTotals(pairs, parsed, rows, |rows|);
    assert rows[..|rows|] == rows;
    assert parsed.order[..|rows|] == Urls(pairs);
    CountsAddUp(pairs);
  }

  lemma {:induction false} RowCountsArePrefixTotals(pairs: seq<Pair>, parsed: Aggregation, rows: seq<Row>, n: nat)
    requires forall u :: u in parsed.order ==> u in parsed.stats && parsed.stats[u].count == Occurrences(pairs, u)
    requires Flattens(parsed, rows)
    requires n <= |rows|
    ensures RowCountTotal(rows[..n]) == CountTotal(pairs, parsed.order[..n])
  {
    if n > 0 {
      RowCountsArePrefixTotals(pairs, parsed, rows, n - 1);
      assert rows[..n][..n - 1] == rows[..n - 1];
      assert parsed.order[..n][..n - 1] == parsed.order[..n - 1];
      CountIsOccurrences(pairs, parsed.order[n - 1]);
    }
  }
}
