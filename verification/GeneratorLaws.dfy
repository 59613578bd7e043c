/** What the line of a relay says about the results it is made from. */
module GeneratorLaws {
  import opened Arithmetic
  import opened BandwidthLines
  import opened Generator
  import opened Results
  import opened Rounding
  import opened Sequences
  import opened Torflow
  import opened Wrappers

  // ----- Which results are used

  /** Two or more results that all lie within the given time of each other. */
  predicate WithinTime(rs: seq<Result>, secs: real) {
    |rs| >= 2 && forall i, j :: 0 <= i < |rs| && 0 <= j < |rs| ==> rs[i].time - rs[j].time <= secs
  }

  function SuccessWithin(secsRecent: Option<real>, now: real): Result -> bool {
    (r: Result) => r.ResultSuccess? && (secsRecent.None? || now - r.time < secsRecent.value)
  }

  function Succeeded(r: Result): bool { r.ResultSuccess? }

  lemma SuccessesAre(rs: seq<Result>)
    ensures Successes(rs) == Filter(rs, Succeeded)
  {
    FilterSame(rs, IsSuccess(), Succeeded);
  }

  lemma {:induction false} FilterSame(rs: seq<Result>, p: Result -> bool, q: Result -> bool)
    requires forall r :: p(r) == q(r)
    ensures Filter(rs, p) == Filter(rs, q)
  {
    if rs != [] { FilterSame(rs[1..], p, q); }
  }

  lemma {:induction false} FilterBoth(rs: seq<Result>, p: Result -> bool, q: Result -> bool, both: Result -> bool)
    requires forall r :: both(r) <==> p(r) && q(r)
    ensures Filter(Filter(rs, p), q) == Filter(rs, both)
  {
    if rs != [] {
      var r, rest := rs[0], rs[1..];
      FilterBoth(rest, p, q, both);
      assert rs == [r] + rest;
      FilterCons(r, rest, p);
      FilterCons(r, rest, both);
      if p(r) { FilterCons(r, Filter(rest, p), q); } else { assert [] + Filter(rest, p) == Filter(rest, p); }
    }
  }

  lemma WithinTimeIff(rs: seq<Result>, secsAway: Option<real>)
    ensures TooNear(rs, secsAway) <==> secsAway.Some? && WithinTime(rs, secsAway.value)
  {
    if secsAway.Some? && |rs| >= 2 { var i, j := Extremes(rs); }
  }

  /** The results used are the successful ones that are recent enough, in their order, unless
      all successful ones are too near each other; then there are none. */
  lemma UsedExactly(rs: seq<Result>, rules: Rules, now: real)
    ensures var s := Filter(rs, Succeeded);
            Used(rs, rules, now)
            == if rules.secsAway.Some? && WithinTime(s, rules.secsAway.value) then []
               else Filter(rs, SuccessWithin(rules.secsRecent, now))
  {
    var s := Successes(rs);
    SuccessesAre(rs);
    AwayIff(s, rules.secsAway);
    WithinTimeIff(s, rules.secsAway);
    RecentSuccesses(rs, rules.secsRecent, now);
  }

  lemma RecentSuccesses(rs: seq<Result>, secsRecent: Option<real>, now: real)
    ensures ResultsRecent(Successes(rs), secsRecent, now) == Filter(rs, SuccessWithin(secsRecent, now))
    ensures ResultsRecent([], secsRecent, now) == []
  {
    if secsRecent.None? {
      FilterSame(rs, IsSuccess(), SuccessWithin(secsRecent, now));
    } else {
      FilterBoth(rs, IsSuccess(), NewerThan(secsRecent.value, now), SuccessWithin(secsRecent, now));
    }
  }

  // ----- What the measurements are

  /** All downloads of the successful results, in order. */
  function Transfers(rs: seq<Result>): seq<Transfer> {
    if rs == [] then [] else (if rs[0].ResultSuccess? then rs[0].downloads else []) + Transfers(rs[1..])
  }

  /** The rates of the downloads, in bytes a second. */
  predicate RatesOf(rates: seq<real>, ts: seq<Transfer>) {
    |rates| == |ts| && forall k :: 0 <= k < |ts| ==> rates[k] * ts[k].duration == ts[k].amount as real
  }

  /** Results count alike, whether they come first or last. */
  lemma {:induction false} BandwidthsConcat(xs: seq<Result>, ys: seq<Result>)
    ensures Bandwidths(xs + ys) == Bandwidths(xs) + Bandwidths(ys)
  {
    if ys == [] {
      assert xs + ys == xs;
      assert Bandwidths(xs) + [] == Bandwidths(xs);
    } else {
      var n := |ys| - 1;
      var last := if ys[n].ResultSuccess? then Map(ys[n].downloads, BandwidthOf) else [];
      BandwidthsConcat(xs, ys[..n]);
      assert (xs + ys)[..|xs| + n] == xs + ys[..n];
      Associative(Bandwidths(xs), Bandwidths(ys[..n]), last);
    }
  }

  lemma RateOf(t: Transfer)
    ensures BandwidthOf(t) * t.duration == t.amount as real
  {
    Quotient(t.amount as real, t.duration);
  }

  lemma RatesOfAll(ts: seq<Transfer>)
    ensures RatesOf(Map(ts, BandwidthOf), ts)
  {
    forall k | 0 <= k < |ts| ensures BandwidthOf(ts[k]) * ts[k].duration == ts[k].amount as real { RateOf(ts[k]); }
  }

  lemma BandwidthsOfSingle(r: Result)
    ensures Bandwidths([r]) == if r.ResultSuccess? then Map(r.downloads, BandwidthOf) else []
  {
    assert [r][..0] == [] && [r][0] == r;
  }

  /** One result counts with every one of its downloads. */
  lemma BandwidthsOfOne(r: Result)
    ensures RatesOf(Bandwidths([r]), if r.ResultSuccess? then r.downloads else [])
  {
    BandwidthsOfSingle(r);
    if r.ResultSuccess? { RatesOfAll(r.downloads); }
  }

  lemma RatesConcat(a: seq<real>, b: seq<real>, s: seq<Transfer>, t: seq<Transfer>)
    requires RatesOf(a, s) && RatesOf(b, t)
    ensures RatesOf(a + b, s + t)
  {
  }

  /** The measurements are the rates of all downloads. */
  lemma {:induction false} BandwidthsAreRates(rs: seq<Result>)
    ensures RatesOf(Bandwidths(rs), Transfers(rs))
  {
    if rs != [] {
      BandwidthsAreRates(rs[1..]);
      BandwidthsOfOne(rs[0]);
      BandwidthsConcat([rs[0]], rs[1..]);
      assert rs == [rs[0]] + rs[1..];
      RatesConcat(Bandwidths([rs[0]]), Bandwidths(rs[1..]), if rs[0].ResultSuccess? then rs[0].downloads else [],
                  Transfers(rs[1..]));
    }
  }

  lemma SameQuotient(a: real, b: real, d: real)
    requires d > 0.0 && a * d == b * d
    ensures a == b
  {
    assert (a - b) * d == 0.0;
  }

  lemma RatesAreUnique(a: seq<real>, b: seq<real>, ts: seq<Transfer>)
    requires RatesOf(a, ts) && RatesOf(b, ts)
    ensures a == b
  {
    forall k | 0 <= k < |ts| ensures a[k] == b[k] { SameQuotient(a[k], b[k], ts[k].duration); }
  }

  // ----- What the line says

  /** m is the integer nearest to the mean of n numbers with this sum, of two the even one. */
  predicate NearestToMean(m: int, n: nat, sum: real) {
    var off := Distance(m as real * n as real, sum);
    2.0 * off < n as real || (2.0 * off == n as real && m % 2 == 0)
  }

  /** The mean, rounded; zero of nothing. */
  ghost predicate RoundsMean(x: real, xs: seq<real>) {
    if xs == [] then x == 0.0 else exists m :: x == m as real && NearestToMean(m, |xs|, Sum(xs))
  }

  lemma DistanceTimes(a: real, b: real, n: real)
    requires n > 0.0
    ensures Distance(a, b / n) * n == Distance(a * n, b)
  {
    Quotient(b, n);
    if a <= b / n { ScaleRealOrder(a, b / n, n); } else { ScaleRealOrder(b / n, a, n); }
  }

  lemma HalfTimes(d: real, n: real)
    requires n > 0.0
    ensures d < 0.5 <==> 2.0 * (d * n) < n
    ensures d == 0.5 <==> 2.0 * (d * n) == n
  {
    if d < 0.5 { assert (0.5 - d) * n > 0.0; }
    if d > 0.5 { assert (d - 0.5) * n > 0.0; }
  }

  lemma RoundedMeanRounds(xs: seq<real>)
    ensures RoundsMean(RoundedMean(xs) as real, xs)
  {
    if xs != [] {
      RoundsQuotient(Sum(xs), |xs|, RoundedMean(xs));
    }
  }

  lemma RoundsQuotient(sum: real, n: nat, m: int)
    requires n > 0 && m == RoundHalfEven(sum / n as real)
    ensures NearestToMean(m, n, sum)
  {
    var d := Distance(m as real, sum / n as real);
    RoundHalfEvenIff(sum / n as real, m);
    DistanceTimes(m as real, sum, n as real);
    HalfTimes(d, n as real);
    assert d * n as real == Distance(m as real * n as real, sum);
  }

  function AtLeast(bound: real): real -> bool { (x: real) => x >= bound }

  /** The filtered bandwidth is the rounded mean of the rates that are not below the rounded
      mean of all; when all are, it is that mean itself. */
  ghost predicate FiltersMean(filt: real, mean: real, rates: seq<real>) {
    var fast := Filter(rates, AtLeast(mean));
    if fast == [] then filt == mean else RoundsMean(filt, fast)
  }

  lemma BwFiltFilters(xs: seq<real>)
    ensures FiltersMean(BwFilt(xs) as real, RoundedMean(xs) as real, xs)
  {
    var mu := RoundedMean(xs) as real;
    FilterRealsSame(xs, AtLeastReal(mu), AtLeast(mu));
    RoundedMeanRounds(Filter(xs, AtLeastReal(mu)));
  }

  lemma {:induction false} FilterRealsSame(xs: seq<real>, p: real -> bool, q: real -> bool)
    requires forall x :: p(x) == q(x)
    ensures Filter(xs, p) == Filter(xs, q)
  {
    if xs != [] { FilterRealsSame(xs[1..], p, q); }
  }

  predicate Ascends(xs: seq<real>) { forall i, j :: 0 <= i < j < |xs| ==> xs[i] <= xs[j] }

  /** In ascending order, m lies midway between the two in the middle. */
  ghost predicate IsMedian(m: real, xs: seq<real>) {
    && xs != []
    && exists ys :: multiset(ys) == multiset(xs) && Ascends(ys) && |ys| == |xs|
                    && 2.0 * m == ys[(|xs| - 1) / 2] + ys[|xs| / 2]
  }

  lemma SortAscends(xs: seq<real>)
    ensures Ascends(StableSort(xs, Itself))
  {
    var sorted := StableSort(xs, Itself);
    forall i, j | 0 <= i < j < |sorted| ensures sorted[i] <= sorted[j] {
      assert Itself(sorted[i]) <= Itself(sorted[j]);
    }
  }

  lemma Middle(n: nat)
    ensures n % 2 == 1 ==> (n - 1) / 2 == n / 2
    ensures n % 2 == 0 && n > 0 ==> (n - 1) / 2 == n / 2 - 1
  {
  }

  lemma Midway(sorted: seq<real>, m: real, n: nat)
    requires |sorted| == n > 0
    requires m == if n % 2 == 1 then sorted[n / 2] else (sorted[n / 2 - 1] + sorted[n / 2]) / 2.0
    ensures 2.0 * m == sorted[(n - 1) / 2] + sorted[n / 2]
  {
    Middle(n);
  }

  lemma MedianIsMidway(xs: seq<real>)
    requires xs != []
    ensures var sorted := StableSort(xs, Itself);
            |sorted| == |xs| && 2.0 * Median(xs) == sorted[(|xs| - 1) / 2] + sorted[|xs| / 2]
  {
    SameMultisetSameLength(xs, StableSort(xs, Itself));
    Midway(StableSort(xs, Itself), Median(xs), |xs|);
  }

  lemma MedianIsMedian(xs: seq<real>)
    requires xs != []
    ensures IsMedian(Median(xs), xs)
  {
    SortAscends(xs);
    MedianIsMidway(xs);
  }

  /** The unscaled bandwidth of a line is the rounded median, but at least one. */
  ghost predicate RoundsMedian(bw: real, rates: seq<real>) {
    if rates == [] then bw == 1.0
    else exists m :: IsMedian(m, rates) && bw == (if RoundHalfEven(m) >= 1 then RoundHalfEven(m) else 1) as real
  }

  lemma BwMedianRounds(xs: seq<real>)
    ensures RoundsMedian(BwMedian(xs) as real, xs)
  {
    if xs != [] { MedianIsMedian(xs); }
  }

  /** The line of an eligible relay has the mean, the filtered mean and the median of the rates
      of all downloads of all results that are used. */
  lemma LineMeasures(rs: seq<Result>, rules: Rules, now: real, rates: seq<real>)
    requires rs != [] && FromResults(rs, rules, now).1.None?
    requires RatesOf(rates, Transfers(Used(rs, rules, now)))
    ensures var l := FromResults(rs, rules, now).0;
            && RoundsMean(BwMeanOf(l), rates) && FiltersMean(BwFiltOf(l), BwMeanOf(l), rates)
            && RoundsMedian(l.bw, rates)
  {
    var used := Used(rs, rules, now);
    EligibleHasStats(rs, rules, now);
    BandwidthsAreRates(used);
    RatesAreUnique(rates, Bandwidths(used), Transfers(used));
    RoundedMeanRounds(rates);
    BwFiltFilters(rates);
    BwMedianRounds(rates);
    EligibleBw(rs[0].fingerprint, StagesOf(rs, rules, now), rules.minNum);
  }

  lemma EligibleBw(nodeId: string, s: Stages, minNum: int)
    requires LineFrom(nodeId, s, minNum).1.None?
    ensures LineFrom(nodeId, s, minNum).0.bw == BwMedian(Bandwidths(s.used)) as real
  {
  }

  lemma {:induction false} SumOfSame(xs: seq<real>, b: real)
    requires forall k :: 0 <= k < |xs| ==> xs[k] == b
    ensures Sum(xs) == |xs| as real * b
  {
    if xs != [] { SumOfSame(xs[..|xs| - 1], b); }
  }

  lemma SameMean(sum: real, n: real, b: real)
    requires n > 0.0 && sum == n * b
    ensures sum / n == b
  {
    Quotient(sum, n);
    SameQuotient(sum / n, b, n);
  }

  lemma MeanOfSame(xs: seq<real>, b: real)
    requires xs != [] && forall k :: 0 <= k < |xs| ==> xs[k] == b
    ensures RoundedMean(xs) == RoundHalfEven(b)
  {
    SumOfSame(xs, b);
    SameMean(Sum(xs), |xs| as real, b);
  }

  lemma FiltOfSame(xs: seq<real>, b: real)
    requires xs != [] && forall k :: 0 <= k < |xs| ==> xs[k] == b
    ensures BwFilt(xs) == RoundHalfEven(b)
  {
    var fast := Filter(xs, AtLeastReal(RoundedMean(xs) as real));
    MeanOfSame(xs, b);
    FilterMembers(xs, AtLeastReal(RoundedMean(xs) as real));
    if fast != [] {
      forall k | 0 <= k < |fast| ensures fast[k] == b { assert fast[k] in fast; }
      MeanOfSame(fast, b);
    }
  }

  /** A relay that always has the same rate gets that rate, rounded. */
  lemma ConstantRate(rs: seq<Result>, rules: Rules, now: real, b: real)
    requires rs != [] && FromResults(rs, rules, now).1.None? && Transfers(Used(rs, rules, now)) != []
    requires forall t :: t in Transfers(Used(rs, rules, now)) ==> t.amount as real == b * t.duration
    ensures var l := FromResults(rs, rules, now).0;
            BwMeanOf(l) == BwFiltOf(l) == RoundHalfEven(b) as real
  {
    var used := Used(rs, rules, now);
    EligibleHasStats(rs, rules, now);
    BandwidthsAreRates(used);
    SameRates(Bandwidths(used), Transfers(used), b);
    MeanOfSame(Bandwidths(used), b);
    FiltOfSame(Bandwidths(used), b);
  }

  lemma SameRates(rates: seq<real>, ts: seq<Transfer>, b: real)
    requires RatesOf(rates, ts) && forall t :: t in ts ==> t.amount as real == b * t.duration
    ensures |rates| == |ts| && forall k :: 0 <= k < |rates| ==> rates[k] == b
  {
    forall k | 0 <= k < |rates| ensures rates[k] == b {
      assert ts[k] in ts;
      SameQuotient(rates[k], b, ts[k].duration);
    }
  }

  // ----- What the descriptors say

  /** v is what the last result that knows says. */
  predicate LastSaid(v: Option<int>, said: seq<Option<int>>) {
    if v.None? then forall i :: 0 <= i < |said| ==> said[i] == None
    else exists i :: 0 <= i < |said| && said[i] == v && forall j :: i < j < |said| ==> said[j] == None
  }

  lemma LastKnownIsLastSaid(xs: seq<Option<int>>)
    ensures LastSaid(LastKnown(xs), xs)
  {
    LastKnownIffKnown(xs);
    if LastKnown(xs).Some? { LastKnownIsLast(xs, LastKnown(xs).value); }
  }

  /** What is known of some values, in order. */
  function KnownOf(said: seq<Option<int>>): seq<real> {
    if said == [] then []
    else (if said[0].Some? then [said[0].value as real] else []) + KnownOf(said[1..])
  }

  lemma {:induction false} KnownConcat(xs: seq<Option<int>>, ys: seq<Option<int>>)
    ensures KnownOf(xs + ys) == KnownOf(xs) + KnownOf(ys)
  {
    if xs == [] {
      assert xs + ys == ys;
      assert [] + KnownOf(ys) == KnownOf(ys);
    } else {
      assert (xs + ys)[0] == xs[0] && (xs + ys)[1..] == xs[1..] + ys;
      KnownConcat(xs[1..], ys);
      Associative(if xs[0].Some? then [xs[0].value as real] else [], KnownOf(xs[1..]), KnownOf(ys));
    }
  }

  lemma {:induction false} KnownIsKnownOf(xs: seq<Option<int>>)
    ensures Known(xs) == KnownOf(xs)
  {
    if xs != [] {
      var n := |xs| - 1;
      KnownIsKnownOf(xs[..n]);
      KnownConcat(xs[..n], [xs[n]]);
      assert xs == xs[..n] + [xs[n]] && [xs[n]][1..] == [];
    }
  }

  /** The last average, the last burst, and the last and the mean observed bandwidth of what
      the results say. */
  ghost predicate Describes(s: Stats, average: seq<Option<int>>, burst: seq<Option<int>>, observed: seq<Option<int>>) {
    && LastSaid(s.descAvg, average) && LastSaid(s.descBur, burst) && LastSaid(s.obsLast, observed)
    && (s.obsMean.None? <==> KnownOf(observed) == [])
    && (s.obsMean.Some? ==> RoundsMean(s.obsMean.value as real, KnownOf(observed)))
  }

  lemma StatsDescribe(rs: seq<Result>)
    ensures Describes(StatsOf(rs), Map(rs, AverageBwOf), Map(rs, BurstBwOf), ObservedBws(rs))
  {
    LastKnownIsLastSaid(Map(rs, AverageBwOf));
    LastKnownIsLastSaid(Map(rs, BurstBwOf));
    LastKnownIsLastSaid(ObservedBws(rs));
    KnownIsKnownOf(ObservedBws(rs));
    RoundedMeanRounds(Known(ObservedBws(rs)));
  }

  /** The line of an eligible relay describes it as the results that are used do. */
  lemma LineDescribes(rs: seq<Result>, rules: Rules, now: real, average: seq<Option<int>>, burst: seq<Option<int>>,
                      observed: seq<Option<int>>)
    requires rs != [] && FromResults(rs, rules, now).1.None?
    requires var used := Used(rs, rules, now);
             && |average| == |burst| == |observed| == |used|
             && forall k :: 0 <= k < |used| ==>
                  && average[k] == (if used[k].ResultSuccess? then used[k].averageBw else None)
                  && burst[k] == (if used[k].ResultSuccess? then used[k].burstBw else None)
                  && observed[k] == (if used[k].ResultSuccess? then used[k].observedBw else None)
    ensures var l := FromResults(rs, rules, now).0;
            l.stats.Some? && Describes(l.stats.value, average, burst, observed)
  {
    var used := Used(rs, rules, now);
    EligibleHasStats(rs, rules, now);
    StatsDescribe(used);
    assert average == Map(used, AverageBwOf);
    assert burst == Map(used, BurstBwOf);
    assert observed == ObservedBws(used);
  }
}
