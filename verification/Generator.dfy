/** From the results of each relay to the lines of a bandwidth file: the rules that
    exclude relays, the counts they leave, and the report when there are too few. */
module Generator {
  import opened Arithmetic
  import opened BandwidthLines
  import opened Results
  import opened Rounding
  import opened Sequences
  import opened Torflow
  import opened Wrappers

  // ----- Measurements of one relay

  function Bandwidths(rs: seq<Result>): seq<real> {
    if rs == [] then []
    else Bandwidths(rs[..|rs| - 1])
         + if rs[|rs| - 1].ResultSuccess? then Map(rs[|rs| - 1].downloads, BandwidthOf) else []
  }

  function BandwidthOf(t: Transfer): real { t.amount as real / t.duration }

  /** `round(mean(xs))`, or zero of nothing. */
  function RoundedMean(xs: seq<real>): int {
    if xs == [] then 0 else RoundHalfEven(Mean(xs))
  }

  function AtLeastReal(bound: real): real -> bool { (x: real) => x >= bound }

  /** Torflow's filtered bandwidth: the mean of the measurements not below the mean. */
  function BwFilt(xs: seq<real>): int {
    var mu := RoundedMean(xs);
    var fast := Filter(xs, AtLeastReal(mu as real));
    if fast == [] then mu else RoundedMean(fast)
  }

  lemma {:induction false} SumAtLeast(xs: seq<real>, bound: real)
    requires forall i :: 0 <= i < |xs| ==> xs[i] >= bound
    ensures Sum(xs) >= |xs| as real * bound
  {
    if xs != [] { SumAtLeast(xs[..|xs| - 1], bound); }
  }

  lemma MeanAtLeast(xs: seq<real>, bound: real)
    requires xs != [] && forall i :: 0 <= i < |xs| ==> xs[i] >= bound
    ensures Mean(xs) >= bound
  {
    SumAtLeast(xs, bound);
    var n := |xs| as real;
    QuotientOfProduct(bound, n);
    QuotientOrder(n * bound, Sum(xs), n);
  }

  /** Filtering never lowers a relay's bandwidth, although the mean is rounded first. */
  lemma BwFiltAtLeastMean(xs: seq<real>)
    ensures BwFilt(xs) >= RoundedMean(xs)
  {
    var mu := RoundedMean(xs);
    var fast := Filter(xs, AtLeastReal(mu as real));
    FilterMembers(xs, AtLeastReal(mu as real));
    if fast != [] {
      forall i | 0 <= i < |fast| ensures fast[i] >= mu as real { assert fast[i] in fast; }
      MeanAtLeast(fast, mu as real);
      RoundHalfEvenMonotone(mu as real, Mean(fast));
      RoundHalfEvenOfInt(mu);
    }
  }

  function Median(xs: seq<real>): real
    requires xs != []
  {
    var sorted := StableSort(xs, Itself);
    var mid := |xs| / 2;
    if |xs| % 2 == 1 then sorted[mid] else (sorted[mid - 1] + sorted[mid]) / 2.0
  }

  function BwMedian(xs: seq<real>): int {
    if xs == [] then 1 else var m := RoundHalfEven(Median(xs)); if m >= 1 then m else 1
  }

  /** The last value that is not None. */
  function LastKnown(xs: seq<Option<int>>): Option<int> {
    if xs == [] then None
    else if xs[|xs| - 1].Some? then xs[|xs| - 1] else LastKnown(xs[..|xs| - 1])
  }

  /** It is the value after which there are only Nones. */
  lemma {:induction false} LastKnownIsLast(xs: seq<Option<int>>, v: int)
    ensures LastKnown(xs) == Some(v)
       <==> exists i :: 0 <= i < |xs| && xs[i] == Some(v) && forall j :: i < j < |xs| ==> xs[j] == None
  {
    if xs != [] {
      var n := |xs| - 1;
      LastKnownIsLast(xs[..n], v);
      if xs[n].Some? {
        if i :| 0 <= i < |xs| && xs[i] == Some(v) && forall j :: i < j < |xs| ==> xs[j] == None {
          assert i == n;
        }
      } else if LastKnown(xs) == Some(v) {
        var i :| 0 <= i < n && xs[..n][i] == Some(v) && forall j :: i < j < n ==> xs[..n][j] == None;
        assert xs[i] == Some(v);
        forall j | i < j < |xs| ensures xs[j] == None { if j < n { assert xs[..n][j] == xs[j]; } }
      } else {
        forall i | 0 <= i < |xs| && xs[i] == Some(v) ensures !(forall j :: i < j < |xs| ==> xs[j] == None) {
          assert xs[..n][i] == Some(v);
          var j :| i < j < n && xs[..n][j] != None;
          assert xs[j] != None;
        }
      }
    }
  }

  function Known(xs: seq<Option<int>>): seq<real> {
    if xs == [] then []
    else Known(xs[..|xs| - 1]) + if xs[|xs| - 1].Some? then [xs[|xs| - 1].value as real] else []
  }

  function ObservedBws(rs: seq<Result>): seq<Option<int>> {
    Map(rs, (r: Result) => if r.ResultSuccess? then r.observedBw else None)
  }

  function AverageBwOf(r: Result): Option<int> { if r.ResultSuccess? then r.averageBw else None }

  function BurstBwOf(r: Result): Option<int> { if r.ResultSuccess? then r.burstBw else None }

  function StatsOf(rs: seq<Result>): Stats {
    var observed := Known(ObservedBws(rs));
    Stats(RoundedMean(Bandwidths(rs)) as real, BwFilt(Bandwidths(rs)) as real,
          LastKnown(Map(rs, AverageBwOf)), LastKnown(Map(rs, BurstBwOf)),
          LastKnown(ObservedBws(rs)),
          if observed == [] then None else Some(RoundedMean(observed)))
  }

  lemma {:induction false} LastKnownIffKnown(xs: seq<Option<int>>)
    ensures LastKnown(xs).Some? <==> Known(xs) != []
    ensures LastKnown(xs).Some? <==> exists x :: x in xs && x.Some?
  {
    if xs != [] {
      LastKnownIffKnown(xs[..|xs| - 1]);
      assert xs == xs[..|xs| - 1] + [xs[|xs| - 1]];
    }
  }

  // ----- The rules

  datatype Rules = Rules(secsRecent: Option<real>, secsAway: Option<real>, minNum: int)

  datatype Reason = ErrorCount | NearCount | OldCount | FewCount | NoObservedBw

  function Successes(rs: seq<Result>): seq<Result> { Filter(rs, IsSuccess()) }

  /** Some two results are more than `secs` apart. */
  predicate SomeAway(rs: seq<Result>, secs: real) {
    exists i, j :: 0 <= i < j < |rs| && Distance(rs[i].time, rs[j].time) > secs
  }

  function ResultsAway(rs: seq<Result>, secsAway: Option<real>): seq<Result> {
    if secsAway.None? || |rs| < 2 || SomeAway(rs, secsAway.value) then rs else []
  }

  function NewerThan(secs: real, now: real): Result -> bool { (r: Result) => now - r.time < secs }

  function ResultsRecent(rs: seq<Result>, secsRecent: Option<real>, now: real): seq<Result> {
    if secsRecent.None? then rs else Filter(rs, NewerThan(secsRecent.value, now))
  }

  function Latest(rs: seq<Result>): real
    requires rs != []
  {
    if |rs| == 1 then rs[0].time else MaxReal(Latest(rs[..|rs| - 1]), rs[|rs| - 1].time)
  }

  function Earliest(rs: seq<Result>): real
    requires rs != []
  {
    if |rs| == 1 then rs[0].time else MinReal(Earliest(rs[..|rs| - 1]), rs[|rs| - 1].time)
  }

  lemma {:induction false} Extremes(rs: seq<Result>) returns (i: nat, j: nat)
    requires rs != []
    ensures i < |rs| && j < |rs| && rs[i].time == Latest(rs) && rs[j].time == Earliest(rs)
    ensures forall k :: 0 <= k < |rs| ==> Earliest(rs) <= rs[k].time <= Latest(rs)
  {
    if |rs| == 1 {
      i, j := 0, 0;
    } else {
      var n := |rs| - 1;
      i, j := Extremes(rs[..n]);
      if rs[n].time >= Latest(rs[..n]) { i := n; }
      if rs[n].time < Earliest(rs[..n]) { j := n; }
    }
  }

  /** Comparing all pairs comes down to comparing the first and the last. */
  lemma NearFilterIsSpan(rs: seq<Result>, secs: real)
    requires |rs| >= 2
    ensures SomeAway(rs, secs) <==> Latest(rs) - Earliest(rs) > secs
  {
    var i, j := Extremes(rs);
    if Latest(rs) - Earliest(rs) > secs {
      if i == j {
        assert Distance(rs[0].time, rs[1].time) > secs;
      } else {
        var a, b := if i < j then i else j, if i < j then j else i;
        assert Distance(rs[a].time, rs[b].time) > secs;
      }
    }
  }

  function CountOrNone(n: nat): Option<nat> { if n > 0 then Some(n) else None }

  function Excluded(nodeId: string, counters: Counters): LineVal {
    LineVal(nodeId, 1.0, None, counters, None, Some(0), Some(1), None)
  }

  lemma {:induction false} FilterShrinks<T>(xs: seq<T>, keep: T -> bool)
    ensures |Filter(xs, keep)| <= |xs|
  {
    if xs != [] { FilterShrinks(xs[1..], keep); }
  }

  function Missing(before: seq<Result>, after: seq<Result>): nat {
    if |before| >= |after| then |before| - |after| else 0
  }

  /** The results of a relay that are left after each rule. */
  datatype Stages = Stages(all: seq<Result>, successes: seq<Result>, away: seq<Result>, used: seq<Result>) {
    predicate Shrink() { |all| >= |successes| >= |away| >= |used| }
  }

  function StagesOf(rs: seq<Result>, rules: Rules, now: real): Stages {
    var successes := Successes(rs);
    var away := ResultsAway(successes, rules.secsAway);
    Stages(rs, successes, away, ResultsRecent(away, rules.secsRecent, now))
  }

  function LineFrom(nodeId: string, s: Stages, minNum: int): (LineVal, Option<Reason>) {
    var c1 := NO_COUNTERS.(error := CountOrNone(Missing(s.all, s.successes)));
    if s.successes == [] then (Excluded(nodeId, c1), Some(ErrorCount)) else
    var c2 := c1.(near := CountOrNone(Missing(s.successes, s.away)));
    if s.away == [] then (Excluded(nodeId, c2), Some(NearCount)) else
    var c3 := c2.(stale := CountOrNone(Missing(s.away, s.used)));
    if s.used == [] then (Excluded(nodeId, c3), Some(OldCount))
    else if !(|s.used| >= minNum) then
      (Excluded(nodeId, c3.(few := Some(|s.used|))), Some(FewCount))
    else if LastKnown(ObservedBws(s.used)).None? then
      (LineVal(nodeId, 1.0, None, NO_COUNTERS, None, None, None, None), Some(NoObservedBw))
    else
      (LineVal(nodeId, BwMedian(Bandwidths(s.used)) as real, Some(StatsOf(s.used)), c3, None, None, None, None), None)
  }

  /** The line of a relay, and why it is excluded if it is. */
  function FromResults(rs: seq<Result>, rules: Rules, now: real): (LineVal, Option<Reason>)
    requires rs != []
  {
    LineFrom(rs[0].fingerprint, StagesOf(rs, rules, now), rules.minNum)
  }

  /** The results a relay's bandwidth is computed from. */
  function Used(rs: seq<Result>, rules: Rules, now: real): seq<Result> { StagesOf(rs, rules, now).used }

  function OrZero(n: Option<nat>): nat { if n.Some? then n.value else 0 }

  lemma StagesShrink(rs: seq<Result>, rules: Rules, now: real)
    ensures StagesOf(rs, rules, now).Shrink()
  {
    FilterShrinks(rs, IsSuccess());
    if rules.secsRecent.Some? {
      FilterShrinks(ResultsAway(Successes(rs), rules.secsAway), NewerThan(rules.secsRecent.value, now));
    }
  }

  /** Each count is what its stage leaves out. */
  lemma StageCounts(nodeId: string, s: Stages, minNum: int)
    requires s.Shrink() && LineFrom(nodeId, s, minNum).1 != Some(NoObservedBw)
    ensures var c := LineFrom(nodeId, s, minNum).0.counters;
            && OrZero(c.error) == |s.all| - |s.successes|
            && OrZero(c.near) == |s.successes| - |s.away|
            && OrZero(c.stale) == |s.away| - |s.used|
  {
  }

  lemma FewCounts(nodeId: string, s: Stages, minNum: int)
    requires s.Shrink() && LineFrom(nodeId, s, minNum).1 != Some(NoObservedBw)
    ensures var (line, reason) := LineFrom(nodeId, s, minNum);
            && (line.counters.few.Some? <==> reason == Some(FewCount))
            && OrZero(line.counters.few) + (if reason.None? then |s.used| else 0) == |s.used|
  {
  }

  /** Every result of a relay is counted once: as error, near, old, too few or used. The
      line of a relay without observed bandwidth carries no counts at all. */
  lemma ResultsAreAccountedFor(rs: seq<Result>, rules: Rules, now: real)
    requires rs != []
    ensures var (line, reason) := FromResults(rs, rules, now);
            if reason == Some(NoObservedBw) then line.counters == NO_COUNTERS
            else
              && |rs| == OrZero(line.counters.error) + OrZero(line.counters.near) + OrZero(line.counters.stale)
                         + OrZero(line.counters.few)
                         + (if reason.None? then |Used(rs, rules, now)| else 0)
              && (line.counters.few.Some? <==> reason == Some(FewCount))
  {
    var s := StagesOf(rs, rules, now);
    StagesShrink(rs, rules, now);
    if FromResults(rs, rules, now).1 != Some(NoObservedBw) {
      StageCounts(rs[0].fingerprint, s, rules.minNum);
      FewCounts(rs[0].fingerprint, s, rules.minNum);
    }
  }

  function Not(p: Result -> bool): Result -> bool { (r: Result) => !p(r) }

  lemma {:induction false} FilterSplits(rs: seq<Result>, p: Result -> bool)
    ensures |Filter(rs, p)| + |Filter(rs, Not(p))| == |rs|
  {
    if rs != [] { FilterSplits(rs[1..], p); }
  }

  /** Two or more results are too near when they all lie within the given time. */
  predicate TooNear(rs: seq<Result>, secsAway: Option<real>) {
    secsAway.Some? && |rs| >= 2 && Latest(rs) - Earliest(rs) <= secsAway.value
  }

  lemma AwayIff(rs: seq<Result>, secsAway: Option<real>)
    ensures ResultsAway(rs, secsAway) == if TooNear(rs, secsAway) then [] else rs
  {
    if secsAway.Some? && |rs| >= 2 { NearFilterIsSpan(rs, secsAway.value); }
  }

  lemma OldOnes(away: seq<Result>, secsRecent: Option<real>, now: real)
    ensures |away| - |ResultsRecent(away, secsRecent, now)|
         == if secsRecent.None? then 0 else |Filter(away, Not(NewerThan(secsRecent.value, now)))|
  {
    if secsRecent.Some? { FilterSplits(away, NewerThan(secsRecent.value, now)); }
  }

  /** What each count of a line means: the failed results; the successful ones, if they are
      too near each other; those that are too old. */
  lemma CountersMean(rs: seq<Result>, rules: Rules, now: real)
    requires rs != [] && FromResults(rs, rules, now).1 != Some(NoObservedBw)
    ensures var c, s := FromResults(rs, rules, now).0.counters, Successes(rs);
            && OrZero(c.error) == |Filter(rs, Not(IsSuccess()))|
            && OrZero(c.near) == (if TooNear(s, rules.secsAway) then |s| else 0)
            && OrZero(c.stale) == (if TooNear(s, rules.secsAway) || rules.secsRecent.None? then 0
                                   else |Filter(s, Not(NewerThan(rules.secsRecent.value, now)))|)
  {
    var s := Successes(rs);
    StagesShrink(rs, rules, now);
    StageCounts(rs[0].fingerprint, StagesOf(rs, rules, now), rules.minNum);
    FilterSplits(rs, IsSuccess());
    AwayIff(s, rules.secsAway);
    OldOnes(ResultsAway(s, rules.secsAway), rules.secsRecent, now);
  }

  /** Which rule excludes a relay: the first it breaks. */
  lemma ReasonIsFirstRuleBroken(rs: seq<Result>, rules: Rules, now: real)
    requires rs != []
    ensures var reason, s, used := FromResults(rs, rules, now).1, Successes(rs), Used(rs, rules, now);
            && (reason == Some(ErrorCount) <==> s == [])
            && (reason == Some(NearCount) <==> TooNear(s, rules.secsAway))
            && (reason == Some(OldCount) <==> s != [] && !TooNear(s, rules.secsAway) && used == [])
            && (reason == Some(FewCount) <==> 0 < |used| < rules.minNum)
            && (reason == Some(NoObservedBw) <==>
                  used != [] && |used| >= rules.minNum && forall x :: x in ObservedBws(used) ==> x == None)
  {
    var s := Successes(rs);
    AwayIff(s, rules.secsAway);
    LastKnownIffKnown(ObservedBws(Used(rs, rules, now)));
    StagesShrink(rs, rules, now);
  }

  /** A relay is eligible exactly when it has successful results, spread out enough, of
      which enough are recent and one knows the observed bandwidth. */
  lemma EligibleIff(rs: seq<Result>, rules: Rules, now: real)
    requires rs != []
    ensures FromResults(rs, rules, now).1.None? <==>
              var s, used := Successes(rs), Used(rs, rules, now);
              && s != []
              && (rules.secsAway.None? || |s| < 2 || Latest(s) - Earliest(s) > rules.secsAway.value)
              && used != [] && |used| >= rules.minNum
              && exists x :: x in ObservedBws(used) && x.Some?
  {
    var s := Successes(rs);
    LastKnownIffKnown(ObservedBws(Used(rs, rules, now)));
    if rules.secsAway.Some? && |s| >= 2 { NearFilterIsSpan(s, rules.secsAway.value); }
    if rules.secsRecent.Some? { assert Filter([], NewerThan(rules.secsRecent.value, now)) == []; }
  }

  /** The statistics are those of the results that were used. */
  lemma EligibleHasStats(rs: seq<Result>, rules: Rules, now: real)
    requires rs != [] && FromResults(rs, rules, now).1.None?
    ensures FromResults(rs, rules, now).0.stats == Some(StatsOf(Used(rs, rules, now)))
    ensures LastKnown(ObservedBws(Used(rs, rules, now))).Some?
  {
    StatsOfUsed(rs[0].fingerprint, StagesOf(rs, rules, now), rules.minNum);
    ObservedIsKnown(rs[0].fingerprint, StagesOf(rs, rules, now), rules.minNum);
  }

  lemma StatsOfUsed(nodeId: string, s: Stages, minNum: int)
    requires LineFrom(nodeId, s, minNum).1.None?
    ensures LineFrom(nodeId, s, minNum).0.stats == Some(StatsOf(s.used))
  {
  }

  lemma ObservedIsKnown(nodeId: string, s: Stages, minNum: int)
    requires LineFrom(nodeId, s, minNum).1.None?
    ensures LastKnown(ObservedBws(s.used)).Some?
  {
  }

  /** With an observed bandwidth there is a descriptor bandwidth of either kind. */
  lemma StatsAreScalable(rs: seq<Result>, obs: ObsType)
    requires LastKnown(ObservedBws(rs)).Some?
    ensures DescBw(StatsOf(rs), obs).Some?
  {
    LastKnownIffKnown(ObservedBws(rs));
  }

  /** The line of an eligible relay can be scaled, and nothing forbids to vote on it. */
  lemma EligibleLine(rs: seq<Result>, rules: Rules, now: real, obs: ObsType)
    requires rs != [] && FromResults(rs, rules, now).1.None?
    ensures var line := FromResults(rs, rules, now).0;
            && Scalable(line, obs) && BwFiltOf(line) >= BwMeanOf(line)
            && line.Votable() && line.unmeasured == None && line.ratios == None && line.underMinReport == None
  {
    var used := Used(rs, rules, now);
    EligibleHasStats(rs, rules, now);
    StatsAreScalable(used, obs);
    BwFiltAtLeastMean(Bandwidths(used));
  }

  /** An excluded line has none of the statistics. */
  lemma ExcludedHasNoStats(rs: seq<Result>, rules: Rules, now: real)
    requires rs != [] && FromResults(rs, rules, now).1.Some?
    ensures FromResults(rs, rules, now).0.stats.None?
  {
  }

  /** Excluded lines tell Tor not to vote, except without observed bandwidth. */
  lemma ExcludedLine(rs: seq<Result>, rules: Rules, now: real)
    requires rs != [] && FromResults(rs, rules, now).1.Some?
    ensures var (line, reason) := FromResults(rs, rules, now);
            && (line.Votable() <==> reason == Some(NoObservedBw))
            && line.unmeasured == (if reason == Some(NoObservedBw) then None else Some(1))
            && line.bw == 1.0 && line.ratios == None && line.underMinReport == None
  {
  }
}
