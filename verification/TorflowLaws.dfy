/** What Torflow's scaling promises about the network as a whole. */
module TorflowLaws {
  import opened Arithmetic
  import opened BandwidthLines
  import opened Rounding
  import opened Sequences
  import opened Torflow
  import opened Wrappers

  // ----- Permutation, order and bounds

  predicate InOrder(ls: seq<LineVal>, reverse: bool) {
    forall i, j :: 0 <= i < j < |ls| ==> if reverse then ls[i].bw >= ls[j].bw else ls[i].bw <= ls[j].bw
  }

  lemma SortedInOrder(ls: seq<LineVal>, reverse: bool)
    requires SortedBy(ls, ByBw(reverse))
    ensures InOrder(ls, reverse)
  {
    forall i, j | 0 <= i < j < |ls| ensures if reverse then ls[i].bw >= ls[j].bw else ls[i].bw <= ls[j].bw {
      assert ByBw(reverse)(ls[i]) <= ByBw(reverse)(ls[j]);
    }
  }

  /** The result has the relays of the input, each as often, by bandwidth. */
  lemma SortedPermutation(ls: seq<LineVal>, p: Params)
    requires p.Valid() && ls != []
    ensures InOrder(TorflowScaled(ls, p), p.reverse)
    ensures multiset(Map(TorflowScaled(ls, p), NodeIdOf)) == multiset(Map(ls, NodeIdOf))
  {
    var mu, muf := Mu(ls), Muf(ls);
    var final := ScaledAndCapped(ls, mu, muf, p);
    SortedInOrder(TorflowScaled(ls, p), p.reverse);
    SortKeepsImages(final, NodeIdOf, ByBw(p.reverse));
    assert Map(final, NodeIdOf) == Map(ls, NodeIdOf);
  }

  lemma FinalBwMonotone(x: real, y: real, limit: real, digits: nat)
    requires digits >= 1 && x <= y
    ensures FinalBw(x, limit, digits) <= FinalBw(y, limit, digits)
  {
    RoundSigDigMonotone(MinReal(limit, x) / 1000.0, MinReal(limit, y) / 1000.0, digits);
  }

  /** Cap and rounding keep the order of the scaled bandwidths. */
  lemma OrderIsPreserved(ls: seq<LineVal>, mu: real, muf: real, p: Params, i: nat, j: nat)
    requires p.Valid() && i < |ls| && j < |ls|
    requires ScaleLine(ls[i], mu, muf, p.obs).bw <= ScaleLine(ls[j], mu, muf, p.obs).bw
    ensures ScaledAndCapped(ls, mu, muf, p)[i].bw <= ScaledAndCapped(ls, mu, muf, p)[j].bw
  {
    var scaled := Map(ls, Scaler(mu, muf, p.obs));
    FinalBwMonotone(scaled[i].bw, scaled[j].bw, CapLimit(Total(scaled, p.obs, p.statuses), p.cap), p.digits);
  }

  lemma FinalBwBounds(bw: real, limit: real, digits: nat)
    requires digits >= 1
    ensures 1 <= FinalBw(bw, limit, digits) <= KbRoundSigDig(limit, digits)
  {
    RoundSigDigAtLeastOne(MinReal(limit, bw) / 1000.0, digits);
    RoundSigDigMonotone(MinReal(limit, bw) / 1000.0, limit / 1000.0, digits);
  }

  lemma BoundedByLimit(ls: seq<LineVal>, mu: real, muf: real, p: Params, i: nat)
    requires p.Valid() && i < |ls|
    ensures var total := Total(Map(ls, Scaler(mu, muf, p.obs)), p.obs, p.statuses);
            1.0 <= ScaledAndCapped(ls, mu, muf, p)[i].bw <= KbRoundSigDig(CapLimit(total, p.cap), p.digits) as real
  {
    var scaled := Map(ls, Scaler(mu, muf, p.obs));
    FinalBwBounds(scaled[i].bw, CapLimit(Total(scaled, p.obs, p.statuses), p.cap), p.digits);
  }

  lemma {:induction false} SumOfZeros(xs: seq<real>)
    requires forall i :: 0 <= i < |xs| ==> xs[i] == 0.0
    ensures Sum(xs) == 0.0
  {
    if xs != [] { SumOfZeros(xs[..|xs| - 1]); }
  }

  /** With a consensus that has none of the relays, every bandwidth is one. */
  lemma UncountedNetworkGetsOnes(ls: seq<LineVal>, mu: real, muf: real, p: Params, i: nat)
    requires p.Valid() && i < |ls|
    requires forall j :: 0 <= j < |ls| ==> !Counted(ls[j].nodeId, p.statuses)
    ensures ScaledAndCapped(ls, mu, muf, p)[i].bw == 1.0
  {
    var scaled := Map(ls, Scaler(mu, muf, p.obs));
    SumOfZeros(Map(scaled, Counter(p.obs, p.statuses)));
    assert CapLimit(0.0, p.cap) == 0.0;
    BoundedByLimit(ls, mu, muf, p, i);
  }

  // ----- What every relay gets

  /** What a relay adds to the sum: its scaled bandwidth, if it is in the consensus or that is
      not known; nothing if it cannot be scaled. */
  function Contribution(l: LineVal, mu: real, muf: real, obs: ObsType, statuses: Option<set<string>>): real {
    if Scalable(l, obs)
       && (statuses.None? || statuses.value == {} || WithoutDollars(l.nodeId) in statuses.value)
    then ScaleLine(l, mu, muf, obs).bw else 0.0
  }

  function Contributor(mu: real, muf: real, obs: ObsType, statuses: Option<set<string>>): LineVal -> real {
    (l: LineVal) => Contribution(l, mu, muf, obs, statuses)
  }

  function ScaledSum(ls: seq<LineVal>, mu: real, muf: real, obs: ObsType, statuses: Option<set<string>>): real {
    Sum(Map(ls, Contributor(mu, muf, obs, statuses)))
  }

  lemma CountedLine(l: LineVal, mu: real, muf: real, obs: ObsType, statuses: Option<set<string>>)
    ensures Counter(obs, statuses)(ScaleLine(l, mu, muf, obs)) == Contribution(l, mu, muf, obs, statuses)
  {
  }

  lemma TotalIsScaledSum(ls: seq<LineVal>, mu: real, muf: real, obs: ObsType, statuses: Option<set<string>>)
    ensures Total(Map(ls, Scaler(mu, muf, obs)), obs, statuses) == ScaledSum(ls, mu, muf, obs, statuses)
  {
    var scale, count, add := Scaler(mu, muf, obs), Counter(obs, statuses), Contributor(mu, muf, obs, statuses);
    forall k | 0 <= k < |ls| ensures count(scale(ls[k])) == add(ls[k]) { CountedLine(ls[k], mu, muf, obs, statuses); }
    assert Map(Map(ls, scale), count) == Map(ls, add);
  }

  /** The bandwidth w in kilobytes, rounded to significant digits, or the limit if w is more. */
  predicate CappedAt(bw: real, w: real, limit: real, digits: nat)
    requires digits >= 1
  {
    bw == RoundSigDig((if w <= limit then w else limit) / 1000.0, digits) as real
  }

  /** Every relay gets its scaled bandwidth, limited to the cap's share of the sum. */
  lemma CappedAtShareOfSum(ls: seq<LineVal>, mu: real, muf: real, p: Params, i: nat, limit: real)
    requires p.Valid() && i < |ls| && limit == p.cap * ScaledSum(ls, mu, muf, p.obs, p.statuses)
    ensures CappedAt(ScaledAndCapped(ls, mu, muf, p)[i].bw, ScaleLine(ls[i], mu, muf, p.obs).bw, limit, p.digits)
  {
    LimitIsShareOfSum(ls, mu, muf, p, ScaledSum(ls, mu, muf, p.obs, p.statuses));
    CappedAtLimit(ls, mu, muf, p, i, limit);
  }

  lemma LimitIsShareOfSum(ls: seq<LineVal>, mu: real, muf: real, p: Params, sum: real)
    requires sum == ScaledSum(ls, mu, muf, p.obs, p.statuses)
    ensures CapLimit(Total(Map(ls, Scaler(mu, muf, p.obs)), p.obs, p.statuses), p.cap) == p.cap * sum
  {
    TotalIsScaledSum(ls, mu, muf, p.obs, p.statuses);
    ShareOf(Total(Map(ls, Scaler(mu, muf, p.obs)), p.obs, p.statuses), sum, p.cap);
  }

  lemma ShareOf(total: real, sum: real, cap: real)
    requires total == sum
    ensures CapLimit(total, cap) == cap * sum
  {
  }

  lemma CappedAtLimit(ls: seq<LineVal>, mu: real, muf: real, p: Params, i: nat, limit: real)
    requires p.Valid() && i < |ls|
    requires limit == CapLimit(Total(Map(ls, Scaler(mu, muf, p.obs)), p.obs, p.statuses), p.cap)
    ensures CappedAt(ScaledAndCapped(ls, mu, muf, p)[i].bw, ScaleLine(ls[i], mu, muf, p.obs).bw, limit, p.digits)
  {
    assert ScaledAndCapped(ls, mu, muf, p)[i] == CapLine(ScaleLine(ls[i], mu, muf, p.obs), limit, p.digits);
  }

  /** Every bandwidth is between one and the rounding of the cap times the sum of the scaled
      bandwidths of the relays in the consensus. */
  lemma BandwidthsAreBounded(ls: seq<LineVal>, mu: real, muf: real, p: Params, i: nat, limit: real)
    requires p.Valid() && i < |ls| && limit == p.cap * ScaledSum(ls, mu, muf, p.obs, p.statuses)
    ensures 1.0 <= ScaledAndCapped(ls, mu, muf, p)[i].bw <= RoundSigDig(limit / 1000.0, p.digits) as real
  {
    CappedAtShareOfSum(ls, mu, muf, p, i, limit);
    CappedIsBounded(ScaledAndCapped(ls, mu, muf, p)[i].bw, ScaleLine(ls[i], mu, muf, p.obs).bw, limit, p.digits);
  }

  lemma CappedIsBounded(bw: real, w: real, limit: real, digits: nat)
    requires digits >= 1 && CappedAt(bw, w, limit, digits)
    ensures 1.0 <= bw <= RoundSigDig(limit / 1000.0, digits) as real
  {
    FinalBwBounds(w, limit, digits);
  }

  /** Dollar signs, and nothing else, are dropped from a name. */
  lemma {:induction false} DollarsAreDropped(s: string)
    ensures '$' !in WithoutDollars(s) && WithoutDollars(['$'] + s) == WithoutDollars(s)
    ensures '$' !in s ==> WithoutDollars(s) == s
  {
    FilterMembers(s, c => c != '$');
    FilterCons('$', s, c => c != '$');
    if '$' !in s { FilterAll(s, c => c != '$'); }
  }

  // ----- One relay

  /** The observed bandwidth is the last one, unless it is missing or zero or the mean is
      asked for; the descriptor bandwidth is the least of it, the burst and the average
      (section 2.3 of the Tor bandwidth file specification). */
  lemma DescriptorClamp(s: Stats, obs: ObsType)
    ensures DescBw(s, obs).Some? <==> s.obsMean.Some? || (obs == ObsLast && s.obsLast.Some? && s.obsLast != Some(0))
    ensures DescBw(s, obs).Some? ==>
              var d, observed := DescBw(s, obs).value, Observed(s, obs);
              && d <= observed.value
              && (s.descBur.Some? ==> d <= s.descBur.value) && (s.descAvg.Some? ==> d <= s.descAvg.value)
              && (observed == Some(d) || s.descBur == Some(d) || s.descAvg == Some(d))
    ensures obs == ObsMean || s.obsLast == None || s.obsLast == Some(0) ==> Observed(s, obs) == s.obsMean
    ensures obs == ObsLast && s.obsLast.Some? && s.obsLast.value != 0 ==> Observed(s, obs) == s.obsLast
  {
  }

  /** A scaled relay gets its descriptor bandwidth times the larger of its two ratios, which
      are its bandwidths over the network's; nothing else of its line changes. */
  lemma ScaledByLargerRatio(l: LineVal, mu: real, muf: real, obs: ObsType)
    requires Scalable(l, obs) && mu > 0.0 && muf > 0.0
    ensures var r, d := ScaleLine(l, mu, muf, obs), DescBw(l.stats.value, obs).value as real;
            && r.ratios.Some? && r.ratios.value.0 * mu == BwMeanOf(l) && r.ratios.value.1 * muf == BwFiltOf(l)
            && r.bw == (if r.ratios.value.0 >= r.ratios.value.1 then r.ratios.value.0 else r.ratios.value.1) * d
            && (d >= 0.0 ==> r.bw >= r.ratios.value.0 * d && r.bw >= r.ratios.value.1 * d)
            && r.(ratios := l.ratios, bw := l.bw) == l
  {
    var d := DescBw(l.stats.value, obs).value as real;
    Quotient(BwMeanOf(l), mu);
    Quotient(BwFiltOf(l), muf);
    var a, b := RatioOf(BwMeanOf(l), mu), RatioOf(BwFiltOf(l), muf);
    if d >= 0.0 { if a <= b { ScaleRealOrder(a, b, d); } else { ScaleRealOrder(b, a, d); } }
  }

  // ----- Ratios

  predicate AllScalable(ls: seq<LineVal>, obs: ObsType) {
    forall i :: 0 <= i < |ls| ==> Scalable(ls[i], obs)
  }

  function StreamRatio(l: LineVal): real { if l.ratios.Some? then l.ratios.value.0 else 0.0 }

  function FilteredRatio(l: LineVal): real { if l.ratios.Some? then l.ratios.value.1 else 0.0 }

  function ChosenRatio(l: LineVal): real { MaxReal(StreamRatio(l), FilteredRatio(l)) }

  function DividedBy(m: real): real -> real { (x: real) => RatioOf(x, m) }

  lemma SumStep(a: real, b: real, m: real)
    requires m != 0.0
    ensures RatioOf(a, m) + RatioOf(b, m) == RatioOf(a + b, m)
  {
  }

  lemma {:induction false} SumOfRatios(xs: seq<real>, m: real)
    requires m != 0.0
    ensures Sum(Map(xs, DividedBy(m))) == RatioOf(Sum(xs), m)
  {
    if xs == [] {
    } else {
      var n := |xs| - 1;
      SumOfRatios(xs[..n], m);
      assert Map(xs, DividedBy(m))[..n] == Map(xs[..n], DividedBy(m));
      SumStep(Sum(xs[..n]), xs[n], m);
    }
  }

  /** Dividing numbers by their mean makes them sum to how many they are. */
  lemma RatiosToMeanSumToCount(xs: seq<real>)
    requires xs != [] && Mean(xs) != 0.0
    ensures Sum(Map(xs, DividedBy(Mean(xs)))) == |xs| as real
  {
    SumOfRatios(xs, Mean(xs));
    CountTimesMean(Sum(xs), |xs| as real);
  }

  lemma CountTimesMean(sum: real, n: real)
    requires n > 0.0 && sum / n != 0.0
    ensures sum / (sum / n) == n
  {
    Quotient(sum, n);
    var mean := sum / n;
    assert sum == n * mean;
    if mean > 0.0 { QuotientOfProduct(n, mean); } else {
      var q := n * mean / mean;
      assert q * mean == n * mean;
      assert (q - n) * mean == 0.0;
    }
  }

  /** The stream ratios sum to the number of relays, and so do the filtered ones. */
  lemma RatiosSumToCount(ls: seq<LineVal>, obs: ObsType)
    requires ls != [] && AllScalable(ls, obs) && Mu(ls) != 0.0 && Muf(ls) != 0.0
    ensures var scaled := Map(ls, Scaler(Mu(ls), Muf(ls), obs));
            && Sum(Map(scaled, StreamRatio)) == |ls| as real
            && Sum(Map(scaled, FilteredRatio)) == |ls| as real
  {
    StreamRatios(ls, Mu(ls), Muf(ls), obs);
    RatiosToMeanSumToCount(Map(ls, BwMeanOf));
    RatiosToMeanSumToCount(Map(ls, BwFiltOf));
  }

  lemma StreamRatios(ls: seq<LineVal>, mu: real, muf: real, obs: ObsType)
    requires AllScalable(ls, obs)
    ensures var scaled := Map(ls, Scaler(mu, muf, obs));
            && Map(scaled, StreamRatio) == Map(Map(ls, BwMeanOf), DividedBy(mu))
            && Map(scaled, FilteredRatio) == Map(Map(ls, BwFiltOf), DividedBy(muf))
  {
  }

  lemma {:induction false} SumBetween(ls: seq<LineVal>)
    requires forall i :: 0 <= i < |ls| ==> StreamRatio(ls[i]) >= 0.0 && FilteredRatio(ls[i]) >= 0.0
    ensures Sum(Map(ls, StreamRatio)) <= Sum(Map(ls, ChosenRatio))
         <= Sum(Map(ls, StreamRatio)) + Sum(Map(ls, FilteredRatio))
  {
    if ls != [] {
      var n := |ls| - 1;
      SumBetween(ls[..n]);
      assert Map(ls, StreamRatio)[..n] == Map(ls[..n], StreamRatio);
      assert Map(ls, FilteredRatio)[..n] == Map(ls[..n], FilteredRatio);
      assert Map(ls, ChosenRatio)[..n] == Map(ls[..n], ChosenRatio);
    }
  }

  lemma RatioIsNonNegative(x: real, m: real)
    requires x >= 0.0 && m > 0.0
    ensures RatioOf(x, m) >= 0.0
  {
  }

  /** The chosen ratios of n relays sum to between n and 2n. */
  lemma ChosenRatiosSum(ls: seq<LineVal>, obs: ObsType)
    requires ls != [] && AllScalable(ls, obs) && Mu(ls) > 0.0 && Muf(ls) > 0.0
    requires forall i :: 0 <= i < |ls| ==> BwMeanOf(ls[i]) >= 0.0 && BwFiltOf(ls[i]) >= 0.0
    ensures var sum := Sum(Map(Map(ls, Scaler(Mu(ls), Muf(ls), obs)), ChosenRatio));
            |ls| as real <= sum <= 2.0 * |ls| as real
  {
    var scaled := Map(ls, Scaler(Mu(ls), Muf(ls), obs));
    RatiosSumToCount(ls, obs);
    forall i | 0 <= i < |scaled| ensures StreamRatio(scaled[i]) >= 0.0 && FilteredRatio(scaled[i]) >= 0.0 {
      RatioIsNonNegative(BwMeanOf(ls[i]), Mu(ls));
      RatioIsNonNegative(BwFiltOf(ls[i]), Muf(ls));
    }
    SumBetween(scaled);
  }

  // ----- Only ratios matter

  /** A relay all of whose measurements are c times as fast. */
  function FasterBy(c: real): LineVal -> LineVal {
    (l: LineVal) =>
      if l.stats.None? then l
      else l.(stats := Some(l.stats.value.(bwMean := c * l.stats.value.bwMean, bwFilt := c * l.stats.value.bwFilt)))
  }

  /** A line without the measurements it was computed from. */
  function Published(l: LineVal): LineVal { l.(stats := None) }

  lemma SumStepTimes(c: real, a: real, b: real)
    ensures c * a + c * b == c * (a + b)
  {
  }

  lemma {:induction false} SumTimes(c: real, xs: seq<real>, ys: seq<real>)
    requires |xs| == |ys| && forall i :: 0 <= i < |xs| ==> ys[i] == c * xs[i]
    ensures Sum(ys) == c * Sum(xs)
  {
    if xs != [] {
      var n := |xs| - 1;
      SumTimes(c, xs[..n], ys[..n]);
      SumStepTimes(c, Sum(xs[..n]), xs[n]);
    }
  }

  lemma QuotientTimes(c: real, a: real, n: real)
    requires n > 0.0
    ensures c * a / n == c * (a / n)
  {
    Quotient(a, n);
    QuotientOfProduct(c * (a / n), n);
    assert c * (a / n) * n == c * (a / n * n);
  }

  lemma MeanTimes(c: real, xs: seq<real>, ys: seq<real>)
    requires xs != [] && |xs| == |ys| && forall i :: 0 <= i < |xs| ==> ys[i] == c * xs[i]
    ensures Mean(ys) == c * Mean(xs)
  {
    SumTimes(c, xs, ys);
    QuotientTimes(c, Sum(xs), |xs| as real);
  }

  /** A common factor cancels out of a ratio. */
  lemma RatioTimes(c: real, b: real, m: real)
    requires c > 0.0
    ensures RatioOf(c * b, c * m) == RatioOf(b, m)
  {
    if m != 0.0 {
      var q := b / m;
      assert q * m == b;
      assert c * m != 0.0;
      var r := (c * b) / (c * m);
      assert r * (c * m) == c * b;
      assert (r - q) * (c * m) == 0.0;
    }
  }

  lemma MeansTimes(ls: seq<LineVal>, c: real)
    requires ls != []
    ensures Mu(Map(ls, FasterBy(c))) == c * Mu(ls) && Muf(Map(ls, FasterBy(c))) == c * Muf(ls)
  {
    MuTimes(ls, c);
    MufTimes(ls, c);
  }

  lemma MuTimes(ls: seq<LineVal>, c: real)
    requires ls != []
    ensures Mu(Map(ls, FasterBy(c))) == c * Mu(ls)
  {
    MeanTimes(c, Map(ls, BwMeanOf), Map(Map(ls, FasterBy(c)), BwMeanOf));
  }

  lemma MufTimes(ls: seq<LineVal>, c: real)
    requires ls != []
    ensures Muf(Map(ls, FasterBy(c))) == c * Muf(ls)
  {
    MeanTimes(c, Map(ls, BwFiltOf), Map(Map(ls, FasterBy(c)), BwFiltOf));
  }

  lemma SortsAlike(a: seq<LineVal>, b: seq<LineVal>, reverse: bool)
    requires Map(a, Published) == Map(b, Published)
    ensures Map(StableSort(a, ByBw(reverse)), Published) == Map(StableSort(b, ByBw(reverse)), Published)
  {
    SortOfMap(a, Published, ByBw(reverse), ByBw(reverse));
    SortOfMap(b, Published, ByBw(reverse), ByBw(reverse));
  }

  /** Measurements of a network all of whose relays are c times as fast fail alike, and
      scale to the same bandwidths, in the same order. */
  lemma OnlyRatiosMatter(ls: seq<LineVal>, c: real, p: Params)
    requires p.Valid() && ls != [] && c > 0.0
    ensures Fails(Map(ls, FasterBy(c)), p.obs) <==> Fails(ls, p.obs)
    ensures Map(TorflowScaled(Map(ls, FasterBy(c)), p), Published) == Map(TorflowScaled(ls, p), Published)
  {
    var faster := Map(ls, FasterBy(c));
    MeansTimes(ls, c);
    FailsAlike(ls, c, p.obs);
    SameScaled(ls, c, Mu(ls), Muf(ls), Mu(faster), Muf(faster), p);
    SortsAlike(ScaledAndCapped(faster, Mu(faster), Muf(faster), p), ScaledAndCapped(ls, Mu(ls), Muf(ls), p),
               p.reverse);
  }

  lemma FasterIsScalable(l: LineVal, c: real, obs: ObsType)
    ensures Scalable(FasterBy(c)(l), obs) <==> Scalable(l, obs)
    ensures Scalable(l, obs) ==>
              && DescBw(FasterBy(c)(l).stats.value, obs) == DescBw(l.stats.value, obs)
              && BwMeanOf(FasterBy(c)(l)) == c * BwMeanOf(l)
              && BwFiltOf(FasterBy(c)(l)) == c * BwFiltOf(l)
  {
  }

  lemma FailsAlike(ls: seq<LineVal>, c: real, obs: ObsType)
    requires ls != [] && c > 0.0
    ensures Fails(Map(ls, FasterBy(c)), obs) <==> Fails(ls, obs)
  {
    MeansTimes(ls, c);
    var faster := Map(ls, FasterBy(c));
    forall i | 0 <= i < |ls| ensures Scalable(faster[i], obs) <==> Scalable(ls[i], obs) {
      FasterIsScalable(ls[i], c, obs);
    }
    assert c * Mu(ls) == 0.0 <==> Mu(ls) == 0.0;
    assert c * Muf(ls) == 0.0 <==> Muf(ls) == 0.0;
  }

  lemma ScalesAlike(l: LineVal, f: LineVal, mu: real, muf: real, mu': real, muf': real, obs: ObsType)
    requires Published(l) == Published(f) && (Scalable(l, obs) <==> Scalable(f, obs))
    requires Scalable(l, obs) ==>
               && DescBw(f.stats.value, obs) == DescBw(l.stats.value, obs)
               && RatioOf(BwMeanOf(f), mu') == RatioOf(BwMeanOf(l), mu)
               && RatioOf(BwFiltOf(f), muf') == RatioOf(BwFiltOf(l), muf)
    ensures Published(ScaleLine(f, mu', muf', obs)) == Published(ScaleLine(l, mu, muf, obs))
    ensures Scalable(ScaleLine(f, mu', muf', obs), obs) <==> Scalable(ScaleLine(l, mu, muf, obs), obs)
  {
  }

  lemma SameScaledLine(l: LineVal, c: real, mu: real, muf: real, mu': real, muf': real, obs: ObsType)
    requires c > 0.0 && mu' == c * mu && muf' == c * muf
    ensures Published(ScaleLine(FasterBy(c)(l), mu', muf', obs)) == Published(ScaleLine(l, mu, muf, obs))
    ensures Scalable(ScaleLine(FasterBy(c)(l), mu', muf', obs), obs) <==> Scalable(ScaleLine(l, mu, muf, obs), obs)
  {
    FasterIsScalable(l, c, obs);
    RatioTimes(c, BwMeanOf(l), mu);
    RatioTimes(c, BwFiltOf(l), muf);
    ScalesAlike(l, FasterBy(c)(l), mu, muf, mu', muf', obs);
  }

  lemma SameScaled(ls: seq<LineVal>, c: real, mu: real, muf: real, mu': real, muf': real, p: Params)
    requires p.Valid() && c > 0.0 && mu' == c * mu && muf' == c * muf
    ensures Map(ScaledAndCapped(Map(ls, FasterBy(c)), mu', muf', p), Published)
         == Map(ScaledAndCapped(ls, mu, muf, p), Published)
  {
    var a, b := Map(Map(ls, FasterBy(c)), Scaler(mu', muf', p.obs)), Map(ls, Scaler(mu, muf, p.obs));
    forall i | 0 <= i < |ls|
      ensures Published(a[i]) == Published(b[i]) && (Scalable(a[i], p.obs) <==> Scalable(b[i], p.obs))
    {
      SameScaledLine(ls[i], c, mu, muf, mu', muf', p.obs);
    }
    TotalsAlike(a, b, p.obs, p.statuses);
    CapsAlike(a, b, CapLimit(Total(a, p.obs, p.statuses), p.cap), p.digits);
  }

  lemma TotalsAlike(a: seq<LineVal>, b: seq<LineVal>, obs: ObsType, statuses: Option<set<string>>)
    requires |a| == |b|
    requires forall i :: 0 <= i < |a| ==>
               Published(a[i]) == Published(b[i]) && (Scalable(a[i], obs) <==> Scalable(b[i], obs))
    ensures Total(a, obs, statuses) == Total(b, obs, statuses)
  {
    var count := Counter(obs, statuses);
    forall i | 0 <= i < |a| ensures count(a[i]) == count(b[i]) {
      assert Published(a[i]).bw == Published(b[i]).bw && Published(a[i]).nodeId == Published(b[i]).nodeId;
    }
    assert Map(a, count) == Map(b, count);
  }

  lemma CapsAlike(a: seq<LineVal>, b: seq<LineVal>, limit: real, digits: nat)
    requires digits >= 1 && |a| == |b|
    requires forall i :: 0 <= i < |a| ==> Published(a[i]) == Published(b[i])
    ensures Map(Map(a, Capper(limit, digits)), Published) == Map(Map(b, Capper(limit, digits)), Published)
  {
    forall i | 0 <= i < |a|
      ensures Published(CapLine(a[i], limit, digits)) == Published(CapLine(b[i], limit, digits))
    {
      assert Published(a[i]).bw == Published(b[i]).bw;
    }
  }
}
