/** The per-URL aggregator `calculate` of the nginx log analyzer: one pass
    over the extracted (url, request time) pairs that builds an
    insertion-ordered table of accumulators, then a finalization pass that
    turns every accumulator into shares, average, maximum and median and
    drops the working list of times. */
module Aggregate {
  import opened Numeric

  /** One extracted log entry: the request URL and its request time. */
  type Pair = (string, real)

  /** The working accumulator of one URL during the pass. */
  datatype Accum = Accum(count: nat, timeSum: real, times: seq<real>)

  /** The finalized statistics of one URL; the list of times is gone. */
  datatype Stats = Stats(
    count: nat,
    timeSum: real,
    countPers: real,
    timePers: real,
    timeAvg: real,
    timeMax: real,
    timeMed: real)

  /** An insertion-ordered dictionary: `order` lists the keys of `stats`
      in the order they were first inserted. */
  datatype Aggregation = Aggregation(order: seq<string>, stats: map<string, Stats>)

  /** The only failure of `calculate`: a float division by a zero total time. */
  datatype Error = ZeroDivision

  datatype Result<T> = Ok(value: T) | Err(error: Error)

  ghost predicate Distinct(s: seq<string>)
  {
    forall i, j :: 0 <= i < j < |s| ==> s[i] != s[j]
  }

  // ---------------------------------------------------------------------
  // Specification of the accumulation pass, one input pair at a time.

  /** The URLs of `p` in the order of their first appearance. */
  function Urls(p: seq<Pair>): seq<string>
  {
    if p == [] then []
    else
      var seen := Urls(p[..|p| - 1]);
      if p[|p| - 1].0 in seen then seen else seen + [p[|p| - 1].0]
  }

  /** The request times recorded for URL `u`, in input order. */
  function TimesOf(p: seq<Pair>, u: string): seq<real>
  {
    if p == [] then []
    else TimesOf(p[..|p| - 1], u) + (if p[|p| - 1].0 == u then [p[|p| - 1].1] else [])
  }

  /** The running total `total_time` after the pairs `p`. */
  function TotalTime(p: seq<Pair>): real
  {
    if p == [] then 0.0 else TotalTime(p[..|p| - 1]) + p[|p| - 1].1
  }

  /** The accumulator that the pass holds for URL `u` after the pairs `p`. */
  function AccumOf(p: seq<Pair>, u: string): Accum
  {
    var t := TimesOf(p, u);
    Accum(|t|, Sum(t), t)
  }

  /** Number of pairs of `p` whose URL is `u`, counted from the front. */
  function Occurrences(p: seq<Pair>, u: string): nat
  {
    if p == [] then 0
    else (if p[0].0 == u then 1 else 0) + Occurrences(p[1..], u)
  }

  // ---------------------------------------------------------------------
  // The finalization of one accumulator (the body of the second loop).

  /** The unrounded share of requests, `count / total_requests * 100`. */
  function CountShare(count: nat, totalRequests: nat): real
    requires totalRequests > 0
  {
    (count as real / totalRequests as real) * 100.0
  }

  /** The unrounded share of time, `time_sum / total_time * 100`. */
  function TimeShare(timeSum: real, totalTime: real): real
    requires totalTime != 0.0
  {
    (timeSum / totalTime) * 100.0
  }

  /** Derives the five rounded fields of one accumulator and drops its list
      of times; `count` and `time_sum` pass through unchanged. */
  function Finalize(a: Accum, totalRequests: nat, totalTime: real): (s: Stats)
    requires WellFormed(a) && totalRequests > 0 && totalTime != 0.0
    ensures s.count == a.count && s.timeSum == a.timeSum
  {
    Stats(
      a.count,
      a.timeSum,
      Round3(CountShare(a.count, totalRequests)),
      Round3(TimeShare(a.timeSum, totalTime)),
      Round3(a.timeSum / a.count as real),
      Round3(Max(a.times)),
      Round3(Median(a.times)))
  }

  /** `time_max` is (the rounding of) one of the URL's times, and no time
      of the URL rounds above it. */
  lemma FinalizedMax(a: Accum, totalRequests: nat, totalTime: real)
    requires WellFormed(a) && totalRequests > 0 && totalTime != 0.0
    ensures exists i :: 0 <= i < |a.times| && Finalize(a, totalRequests, totalTime).timeMax == Round3(a.times[i])
    ensures forall i :: 0 <= i < |a.times| ==> Round3(a.times[i]) <= Finalize(a, totalRequests, totalTime).timeMax
  {
    var top := Max(a.times);
    assert Finalize(a, totalRequests, totalTime).timeMax == Round3(top);
    forall i | 0 <= i < |a.times| ensures Round3(a.times[i]) <= Round3(top) {
      Round3Monotone(a.times[i], top);
    }
  }

  /** `time_avg` and `time_med` lie between the URL's rounded minimum time
      and `time_max`. */
  lemma FinalizedAvgAndMedianBounds(a: Accum, totalRequests: nat, totalTime: real)
    requires WellFormed(a) && totalRequests > 0 && totalTime != 0.0
    ensures var s := Finalize(a, totalRequests, totalTime);
            Round3(Min(a.times)) <= s.timeAvg <= s.timeMax &&
            Round3(Min(a.times)) <= s.timeMed <= s.timeMax
  {
    var lo, top := Min(a.times), Max(a.times);
    var avg := a.timeSum / a.count as real;
    var med := Median(a.times);
    assert lo <= avg <= top by {
      MeanBetweenMinMax(a.times);
    }
    assert Round3(lo) <= Round3(avg) <= Round3(top) by {
      Round3Monotone(lo, avg);
      Round3Monotone(avg, top);
    }
    assert Round3(lo) <= Round3(med) <= Round3(top) by {
      Round3Monotone(lo, med);
      Round3Monotone(med, top);
    }
  }

  /** The finalized statistics `calculate` reports for URL `u` of `p`. */
  function FinalStats(p: seq<Pair>, u: string): Stats
    requires u in Urls(p) && TotalTime(p) != 0.0
  {
    TimesOfNonEmpty(p, u);
    Finalize(AccumOf(p, u), |p|, TotalTime(p))
  }

  // ---------------------------------------------------------------------
  // The imperative aggregator.

  /** `calculate`: accumulates the pairs, then finalizes every URL. Fails
      exactly when there is at least one pair and the total time is zero
      (the time-share division); empty input gives an empty table. */
  method Calculate(pairs: seq<Pair>) returns (result: Result<Aggregation>)
    ensures pairs == [] ==> result == Ok(Aggregation([], map[]))
    ensures result.Err? <==> pairs != [] && TotalTime(pairs) == 0.0
    ensures result.Ok? ==> result.value.order == Urls(pairs)
    ensures result.Ok? ==> forall u :: u in result.value.stats <==> u in Urls(pairs)
    ensures result.Ok? ==> forall u :: u in result.value.stats ==>
              u in Urls(pairs) && TotalTime(pairs) != 0.0 &&
              result.value.stats[u] == FinalStats(pairs, u)
  {
    var order, acc, totalRequests, totalTime := Accumulate(pairs);
    if pairs != [] {
      UrlsOccur(pairs, pairs[0].0);
    }
    forall u | u in order ensures WellFormed(acc[u]) {
      TimesOfNonEmpty(pairs, u);
    }
    var finalized := FinalizeAll(order, acc, totalRequests, totalTime);
    if finalized.Err? {
      return Err(finalized.error);
    }
    var stats := finalized.value;
    forall u | u in stats ensures stats[u] == FinalStats(pairs, u) {
      TimesOfNonEmpty(pairs, u);
    }
    return Ok(Aggregation(order, stats));
  }

  /** An accumulator as the pass leaves it: at least one time recorded,
      `count` its number and `time_sum` their sum. */
  ghost predicate WellFormed(a: Accum)
  {
    a.count == |a.times| > 0 && a.timeSum == Sum(a.times)
  }

  /** The finalization loop of `calculate`: derives the fields of every
      accumulator in key order; the first division by a zero `total_time`
      aborts the whole call. */
  method FinalizeAll(order: seq<string>, acc: map<string, Accum>, totalRequests: nat, totalTime: real)
    returns (result: Result<map<string, Stats>>)
    requires forall u :: u in order ==> u in acc && WellFormed(acc[u])
    requires order != [] ==> totalRequests > 0
    ensures result.Err? <==> order != [] && totalTime == 0.0
    ensures result.Ok? ==> forall u :: u in result.value <==> u in order
    ensures result.Ok? ==> forall u :: u in result.value ==>
              u in acc && WellFormed(acc[u]) && totalRequests > 0 && totalTime != 0.0 &&
              result.value[u] == Finalize(acc[u], totalRequests, totalTime)
  {
    var stats: map<string, Stats> := map[];
    for j := 0 to |order|
      invariant 0 < j ==> totalTime != 0.0
      invariant forall u :: u in stats <==> u in order[..j]
      invariant forall u :: u in stats ==>
                  u in acc && WellFormed(acc[u]) && totalRequests > 0 && totalTime != 0.0 &&
                  stats[u] == Finalize(acc[u], totalRequests, totalTime)
    {
      var u := order[j];
      if totalTime == 0.0 {
        return Err(ZeroDivision);
      }
      stats := stats[u := Finalize(acc[u], totalRequests, totalTime)];
      assert order[..j + 1] == order[..j] + [u];
    }
    assert order[..|order|] == order;
    return Ok(stats);
  }

  /** The accumulation loop of `calculate`: a single forward pass that
      looks up or creates the accumulator of each pair's URL, records the
      pair in it, and advances the totals `total_requests` and `total_time`. */
  method Accumulate(pairs: seq<Pair>)
    returns (order: seq<string>, acc: map<string, Accum>, totalRequests: nat, totalTime: real)
    ensures order == Urls(pairs)
    ensures forall u :: u in acc <==> u in order
    ensures forall u :: u in acc ==> acc[u] == AccumOf(pairs, u)
    ensures totalRequests == |pairs| && totalTime == TotalTime(pairs)
  {
    order, acc, totalRequests, totalTime := [], map[], 0, 0.0;
    var i := 0;
    while i < |pairs|
      invariant 0 <= i <= |pairs|
      invariant Accumulated(pairs[..i], order, acc)
      invariant totalRequests == i && totalTime == TotalTime(pairs[..i])
    {
      var url, time := pairs[i].0, pairs[i].1;
      ghost var before, prevOrder, prevAcc := pairs[..i], order, acc;
      var a := if url in acc then acc[url] else Accum(0, 0.0, []);
      if url !in acc {
        order := order + [url];
      }
      acc := acc[url := Record(a, time)];
      totalRequests := totalRequests + 1;
      totalTime := totalTime + time;
      AccumulatedStep(before, prevOrder, prevAcc, url, time, order, acc);
      assert pairs[..i + 1] == before + [(url, time)];
      i := i + 1;
    }
    assert pairs[..i] == pairs;
  }

  /** One more request time in an accumulator. */
  function Record(a: Accum, time: real): (r: Accum)
    ensures r.count == a.count + 1 && r.timeSum == a.timeSum + time && r.times == a.times + [time]
  {
    Accum(a.count + 1, a.timeSum + time, a.times + [time])
  }

  /** What the accumulation loop holds after the pairs `p`: the keys in
      order of first appearance, and for each the accumulator of its times. */
  ghost predicate Accumulated(p: seq<Pair>, order: seq<string>, acc: map<string, Accum>)
  {
    && order == Urls(p)
    && (forall u :: u in acc <==> u in order)
    && forall u :: u in acc ==> acc[u] == AccumOf(p, u)
  }

  /** One iteration of the accumulation loop keeps `Accumulated`. */
  lemma AccumulatedStep(p: seq<Pair>, order: seq<string>, acc: map<string, Accum>, url: string, time: real,
                        order': seq<string>, acc': map<string, Accum>)
    requires Accumulated(p, order, acc)
    requires order' == if url in acc then order else order + [url]
    requires acc' == acc[url := Record(if url in acc then acc[url] else Accum(0, 0.0, []), time)]
    ensures Accumulated(p + [(url, time)], order', acc')
  {
    var q := p + [(url, time)];
    assert q[..|q| - 1] == p;
    if url !in acc {
      TimesOfNonEmpty(p, url);
    }
    forall u | u in acc' ensures acc'[u] == AccumOf(q, u) {
      AccumStep(q, u);
    }
  }

  // ---------------------------------------------------------------------
  // Facts used by the loop.

  /** A URL has a non-empty list of times exactly when it has a key. */
  lemma {:induction false} TimesOfNonEmpty(p: seq<Pair>, u: string)
    ensures TimesOf(p, u) != [] <==> u in Urls(p)
  {
    if p != [] {
      TimesOfNonEmpty(p[..|p| - 1], u);
    }
  }

  /** How one more pair changes the accumulator of a URL. */
  lemma AccumStep(p: seq<Pair>, u: string)
    requires p != []
    ensures var prev := AccumOf(p[..|p| - 1], u);
            AccumOf(p, u) ==
              if p[|p| - 1].0 == u
              then Accum(prev.count + 1, prev.timeSum + p[|p| - 1].1, prev.times + [p[|p| - 1].1])
              else prev
  {
    var t := TimesOf(p, u);
    if p[|p| - 1].0 == u {
      assert t[..|t| - 1] == TimesOf(p[..|p| - 1], u);
    } else {
      assert t == TimesOf(p[..|p| - 1], u);
    }
  }

  // ---------------------------------------------------------------------
  // The keys of the table.

  /** The keys are exactly the URLs that occur in the input. */
  lemma {:induction false} UrlsOccur(p: seq<Pair>, u: string)
    ensures u in Urls(p) <==> exists k :: 0 <= k < |p| && p[k].0 == u
  {
    if p != [] {
      var q := p[..|p| - 1];
      UrlsOccur(q, u);
      if u in Urls(q) {
        var k :| 0 <= k < |q| && q[k].0 == u;
        assert p[k].0 == u;
      }
      if exists k :: 0 <= k < |p| && p[k].0 == u {
        var k :| 0 <= k < |p| && p[k].0 == u;
        if k < |q| {
          assert q[k].0 == u;
        }
      }
    }
  }

  /** No URL is listed twice. */
  lemma {:induction false} UrlsDistinct(p: seq<Pair>)
    ensures Distinct(Urls(p))
  {
    if p != [] {
      UrlsDistinct(p[..|p| - 1]);
    }
  }

  /** The keys follow first appearance: before any occurrence of the
      `j`-th key, the `i`-th key (`i < j`) has already occurred. */
  lemma {:induction false} UrlsInFirstAppearanceOrder(p: seq<Pair>, i: nat, j: nat, m: nat)
    requires i < j < |Urls(p)|
    requires m < |p| && p[m].0 == Urls(p)[j]
    ensures exists k :: 0 <= k < m && p[k].0 == Urls(p)[i]
  {
    var n := |p|;
    var q := p[..n - 1];
    var x := p[n - 1];
    var seen := Urls(q);
    if x.0 in seen {
      if m < n - 1 {
        assert q[m].0 == seen[j];
        UrlsInFirstAppearanceOrder(q, i, j, m);
        var k :| 0 <= k < m && q[k].0 == seen[i];
        assert p[k].0 == seen[i];
      } else {
        UrlsOccur(q, seen[j]);
        var m' :| 0 <= m' < |q| && q[m'].0 == seen[j];
        UrlsInFirstAppearanceOrder(q, i, j, m');
        var k :| 0 <= k < m' && q[k].0 == seen[i];
        assert p[k].0 == seen[i];
      }
    } else if j < |seen| {
      assert Urls(p)[j] == seen[j] && Urls(p)[i] == seen[i];
      assert seen[j] in seen;
      assert m < n - 1;
      assert q[m].0 == seen[j];
      UrlsInFirstAppearanceOrder(q, i, j, m);
      var k :| 0 <= k < m && q[k].0 == seen[i];
      assert p[k].0 == seen[i];
    } else {
      assert Urls(p)[j] == x.0 && Urls(p)[i] == seen[i];
      UrlsOccur(q, x.0);
      assert forall k :: 0 <= k < n - 1 ==> q[k] == p[k];
      assert m == n - 1;
      UrlsOccur(q, seen[i]);
      var k :| 0 <= k < |q| && q[k].0 == seen[i];
      assert p[k].0 == seen[i];
    }
  }

  // ---------------------------------------------------------------------
  // Counts and sums.

  lemma {:induction false} OccurrencesSnoc(p: seq<Pair>, x: Pair, u: string)
    ensures Occurrences(p + [x], u) == Occurrences(p, u) + (if x.0 == u then 1 else 0)
  {
    if p != [] {
      assert (p + [x])[1..] == p[1..] + [x];
      OccurrencesSnoc(p[1..], x, u);
    }
  }

  /** `count` of a URL is its number of occurrences in the input. */
  lemma {:induction false} CountIsOccurrences(p: seq<Pair>, u: string)
    ensures AccumOf(p, u).count == Occurrences(p, u)
  {
    if p != [] {
      var q := p[..|p| - 1];
      CountIsOccurrences(q, u);
      assert p == q + [p[|p| - 1]];
      OccurrencesSnoc(q, p[|p| - 1], u);
    }
  }

  /** In the finalized table, `count` is the number of occurrences of the
      URL in the input and `time_sum` the sum of its request times. */
  lemma FinalCountAndSum(p: seq<Pair>, u: string)
    requires u in Urls(p) && TotalTime(p) != 0.0
    ensures FinalStats(p, u).count == Occurrences(p, u)
    ensures FinalStats(p, u).timeSum == Sum(TimesOf(p, u))
  {
    CountIsOccurrences(p, u);
  }

  /** Sum of `count` over the given keys. */
  function CountTotal(p: seq<Pair>, keys: seq<string>): nat
  {
    if keys == [] then 0
    else CountTotal(p, keys[..|keys| - 1]) + |TimesOf(p, keys[|keys| - 1])|
  }

  /** Sum of `time_sum` over the given keys. */
  function TimeTotal(p: seq<Pair>, keys: seq<string>): real
  {
    if keys == [] then 0.0
    else TimeTotal(p, keys[..|keys| - 1]) + Sum(TimesOf(p, keys[|keys| - 1]))
  }

  /** One more pair adds one to the count total and its time to the time
      total when its URL is among the (distinct) keys. */
  lemma {:induction false} TotalsStep(p: seq<Pair>, keys: seq<string>)
    requires p != [] && Distinct(keys)
    ensures var x := p[|p| - 1];
            CountTotal(p, keys) == CountTotal(p[..|p| - 1], keys) + (if x.0 in keys then 1 else 0)
    ensures var x := p[|p| - 1];
            TimeTotal(p, keys) == TimeTotal(p[..|p| - 1], keys) + (if x.0 in keys then x.1 else 0.0)
  {
    if keys != [] {
      var init := keys[..|keys| - 1];
      var last := keys[|keys| - 1];
      TotalsStep(p, init);
      AccumStep(p, last);
      assert keys == init + [last];
      var x := p[|p| - 1];
      assert x.0 in keys <==> x.0 in init || x.0 == last;
      assert x.0 == last ==> x.0 !in init;
      var t := TimesOf(p[..|p| - 1], last);
      if x.0 == last {
        assert (t + [x.1])[..|t|] == t;
      }
    }
  }

  /** Counts over all keys add up to `total_requests`, the number of pairs. */
  lemma {:induction false} CountsAddUp(p: seq<Pair>)
    ensures CountTotal(p, Urls(p)) == |p|
  {
    if p != [] {
      var q := p[..|p| - 1];
      var x := p[|p| - 1];
      CountsAddUp(q);
      UrlsDistinct(q);
      UrlsDistinct(p);
      if x.0 in Urls(q) {
        TotalsStep(p, Urls(q));
      } else {
        var keys := Urls(q) + [x.0];
        assert keys[..|keys| - 1] == Urls(q);
        TotalsStep(p, Urls(q));
        TimesOfNonEmpty(q, x.0);
        AccumStep(p, x.0);
      }
    }
  }

  /** Time sums over all keys add up to `total_time`. */
  lemma {:induction false} TimesAddUp(p: seq<Pair>)
    ensures TimeTotal(p, Urls(p)) == TotalTime(p)
  {
    if p != [] {
      var q := p[..|p| - 1];
      var x := p[|p| - 1];
      TimesAddUp(q);
      UrlsDistinct(q);
      if x.0 in Urls(q) {
        TotalsStep(p, Urls(q));
      } else {
        var keys := Urls(q) + [x.0];
        assert keys[..|keys| - 1] == Urls(q);
        TotalsStep(p, Urls(q));
        TimesOfNonEmpty(q, x.0);
        var t := TimesOf(p, x.0);
        assert t == [x.1];
        assert t[..0] == [];
        assert Sum(t) == x.1;
        assert Urls(p) == keys;
        assert TimeTotal(p, keys) == TimeTotal(p, Urls(q)) + Sum(t);
        assert TimeTotal(p, Urls(q)) == TimeTotal(q, Urls(q));
      }
    }
  }

  // ---------------------------------------------------------------------
  // Shares.

  /** Sum of the unrounded request shares over the given keys. */
  function CountShareTotal(p: seq<Pair>, keys: seq<string>): real
    requires p != []
  {
    if keys == [] then 0.0
    else CountShareTotal(p, keys[..|keys| - 1]) + CountShare(|TimesOf(p, keys[|keys| - 1])|, |p|)
  }

  /** Sum of the unrounded time shares over the given keys. */
  function TimeShareTotal(p: seq<Pair>, keys: seq<string>): real
    requires TotalTime(p) != 0.0
  {
    if keys == [] then 0.0
    else TimeShareTotal(p, keys[..|keys| - 1]) + TimeShare(Sum(TimesOf(p, keys[|keys| - 1])), TotalTime(p))
  }

  lemma ShareAdd(a: real, b: real, n: real)
    requires n != 0.0
    ensures (a / n) * 100.0 + (b / n) * 100.0 == ((a + b) / n) * 100.0
  {
  }

  lemma WholeShare(n: real)
    requires n != 0.0
    ensures (n / n) * 100.0 == 100.0
  {
  }

  lemma {:induction false} CountShareTotalIsShareOfTotal(p: seq<Pair>, keys: seq<string>)
    requires p != []
    ensures CountShareTotal(p, keys) == CountShare(CountTotal(p, keys), |p|)
  {
    if keys != [] {
      var init := keys[..|keys| - 1];
      CountShareTotalIsShareOfTotal(p, init);
      ShareAdd(CountTotal(p, init) as real, |TimesOf(p, keys[|keys| - 1])| as real, |p| as real);
    }
  }

  lemma {:induction false} TimeShareTotalIsShareOfTotal(p: seq<Pair>, keys: seq<string>)
    requires TotalTime(p) != 0.0
    ensures TimeShareTotal(p, keys) == TimeShare(TimeTotal(p, keys), TotalTime(p))
  {
    if keys != [] {
      var init := keys[..|keys| - 1];
      TimeShareTotalIsShareOfTotal(p, init);
      ShareAdd(TimeTotal(p, init), Sum(TimesOf(p, keys[|keys| - 1])), TotalTime(p));
    }
  }

  /** Before rounding, the request shares of all URLs add up to 100. */
  lemma CountSharesSumTo100(p: seq<Pair>)
    requires p != []
    ensures CountShareTotal(p, Urls(p)) == 100.0
  {
    CountShareTotalIsShareOfTotal(p, Urls(p));
    CountsAddUp(p);
    WholeShare(|p| as real);
  }

  /** Before rounding, the time shares of all URLs add up to 100. */
  lemma TimeSharesSumTo100(p: seq<Pair>)
    requires TotalTime(p) != 0.0
    ensures TimeShareTotal(p, Urls(p)) == 100.0
  {
    TimeShareTotalIsShareOfTotal(p, Urls(p));
    TimesAddUp(p);
    WholeShare(TotalTime(p));
  }

  /** Sum of the reported (rounded) `count_pers` over the given keys. */
  function CountPersTotal(p: seq<Pair>, keys: seq<string>): real
    requires TotalTime(p) != 0.0
    requires forall k :: k in keys ==> k in Urls(p)
  {
    if keys == [] then 0.0
    else CountPersTotal(p, keys[..|keys| - 1]) + FinalStats(p, keys[|keys| - 1]).countPers
  }

  /** Sum of the reported (rounded) `time_pers` over the given keys. */
  function TimePersTotal(p: seq<Pair>, keys: seq<string>): real
    requires TotalTime(p) != 0.0
    requires forall k :: k in keys ==> k in Urls(p)
  {
    if keys == [] then 0.0
    else TimePersTotal(p, keys[..|keys| - 1]) + FinalStats(p, keys[|keys| - 1]).timePers
  }

  /** Each rounded share is within 0.0005 of its unrounded value, so the
      rounded sums stay within 0.0005 per key of the unrounded sums. */
  lemma {:induction false} RoundedSharesNear(p: seq<Pair>, keys: seq<string>)
    requires TotalTime(p) != 0.0
    requires forall k :: k in keys ==> k in Urls(p)
    ensures p != []
    ensures CountShareTotal(p, keys) - 0.0005 * |keys| as real <= CountPersTotal(p, keys)
              <= CountShareTotal(p, keys) + 0.0005 * |keys| as real
    ensures TimeShareTotal(p, keys) - 0.0005 * |keys| as real <= TimePersTotal(p, keys)
              <= TimeShareTotal(p, keys) + 0.0005 * |keys| as real
  {
    if keys != [] {
      var init := keys[..|keys| - 1];
      var last := keys[|keys| - 1];
      RoundedSharesNear(p, init);
      TimesOfNonEmpty(p, last);
      var s := FinalStats(p, last);
      var t := TimesOf(p, last);
      assert s.countPers == Round3(CountShare(|t|, |p|));
      assert s.timePers == Round3(TimeShare(Sum(t), TotalTime(p)));
    }
  }

  /** The reported `count_pers` and `time_pers` of all URLs add up to 100
      within 0.0005 per URL, the rounding error. */
  lemma ReportedSharesNear100(p: seq<Pair>)
    requires TotalTime(p) != 0.0
    ensures p != []
    ensures 100.0 - 0.0005 * |Urls(p)| as real <= CountPersTotal(p, Urls(p)) <= 100.0 + 0.0005 * |Urls(p)| as real
    ensures 100.0 - 0.0005 * |Urls(p)| as real <= TimePersTotal(p, Urls(p)) <= 100.0 + 0.0005 * |Urls(p)| as real
  {
    RoundedSharesNear(p, Urls(p));
    CountSharesSumTo100(p);
    TimeSharesSumTo100(p);
  }
}
