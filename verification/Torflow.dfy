/** Torflow's scaling (section B.4 of the Tor bandwidth file specification): every
    relay's descriptor bandwidth times its ratio to the network, capped and rounded. */
module Torflow {
  import opened Arithmetic
  import opened BandwidthLines
  import opened Rounding
  import opened Sequences
  import opened Wrappers

  datatype ObsType = ObsLast | ObsMean

  function BwMeanOf(l: LineVal): real { if l.stats.Some? then l.stats.value.bwMean else 0.0 }

  function BwFiltOf(l: LineVal): real { if l.stats.Some? then l.stats.value.bwFilt else 0.0 }

  function Mean(xs: seq<real>): real
    requires xs != []
  {
    Sum(xs) / |xs| as real
  }

  /** The network's mean stream bandwidth. */
  function Mu(ls: seq<LineVal>): real
    requires ls != []
  {
    Mean(Map(ls, BwMeanOf))
  }

  /** The network's mean filtered bandwidth. */
  function Muf(ls: seq<LineVal>): real
    requires ls != []
  {
    Mean(Map(ls, BwFiltOf))
  }

  /** The observed bandwidth; a last one of zero counts as missing. */
  function Observed(s: Stats, obs: ObsType): Option<int> {
    if obs.ObsLast? && s.obsLast.Some? && s.obsLast.value != 0 then s.obsLast else s.obsMean
  }

  function MinOption(a: int, b: Option<int>): int { if b.Some? then MinInt(a, b.value) else a }

  /** The descriptor bandwidth: the observed one, limited by burst and average. */
  function DescBw(s: Stats, obs: ObsType): Option<int> {
    var observed := Observed(s, obs);
    if observed.None? then None else Some(MinOption(MinOption(observed.value, s.descBur), s.descAvg))
  }

  predicate Scalable(l: LineVal, obs: ObsType) { l.stats.Some? && DescBw(l.stats.value, obs).Some? }

  /** A relay's ratio to the network; the division by zero is an error, see `Fails`. */
  function RatioOf(bw: real, mu: real): real { if mu == 0.0 then 0.0 else bw / mu }

  /** The larger ratio times the descriptor bandwidth. */
  function ScaledBw(rStrm: real, rStrmFilt: real, descBw: int): real {
    MaxReal(rStrm, rStrmFilt) * descBw as real
  }

  /** One relay scaled, before the cap; a relay without observed bandwidth is skipped. */
  function ScaleLine(l: LineVal, mu: real, muf: real, obs: ObsType): LineVal {
    if !Scalable(l, obs) then l
    else
      var rStrm, rStrmFilt := RatioOf(BwMeanOf(l), mu), RatioOf(BwFiltOf(l), muf);
      l.(ratios := Some((rStrm, rStrmFilt)),
         bw := ScaledBw(rStrm, rStrmFilt, DescBw(l.stats.value, obs).value))
  }

  function WithoutDollars(s: string): string { Filter(s, c => c != '$') }

  /** The relays whose bandwidth counts for the cap: those in the consensus, if known. */
  predicate Counted(nodeId: string, statuses: Option<set<string>>) {
    statuses.Some? && statuses.value != {} ==> WithoutDollars(nodeId) in statuses.value
  }

  function CountedBw(l: LineVal, obs: ObsType, statuses: Option<set<string>>): real {
    if Scalable(l, obs) && Counted(l.nodeId, statuses) then l.bw else 0.0
  }

  /** The total of the scaled bandwidths that count. */
  function Total(scaled: seq<LineVal>, obs: ObsType, statuses: Option<set<string>>): real {
    Sum(Map(scaled, Counter(obs, statuses)))
  }

  function Counter(obs: ObsType, statuses: Option<set<string>>): LineVal -> real {
    (l: LineVal) => CountedBw(l, obs, statuses)
  }

  /** The final bandwidth, in kilobytes. */
  function FinalBw(bw: real, limit: real, digits: nat): int
    requires digits >= 1
  {
    KbRoundSigDig(MinReal(limit, bw), digits)
  }

  function CapLine(l: LineVal, limit: real, digits: nat): LineVal
    requires digits >= 1
  {
    l.(bw := FinalBw(l.bw, limit, digits) as real)
  }

  datatype Params = Params(obs: ObsType, cap: real, digits: nat, statuses: Option<set<string>>, reverse: bool) {
    predicate Valid() { digits >= 1 }
  }

  predicate AnyScalable(ls: seq<LineVal>, obs: ObsType) { exists i :: 0 <= i < |ls| && Scalable(ls[i], obs) }

  /** The statistics cannot be taken of no relays, nor ratios to a mean of zero. */
  predicate Fails(ls: seq<LineVal>, obs: ObsType) {
    ls == [] || (AnyScalable(ls, obs) && (Mu(ls) == 0.0 || Muf(ls) == 0.0))
  }

  function Scaler(mu: real, muf: real, obs: ObsType): LineVal -> LineVal {
    (l: LineVal) => ScaleLine(l, mu, muf, obs)
  }

  function Capper(limit: real, digits: nat): LineVal -> LineVal
    requires digits >= 1
  {
    (l: LineVal) => CapLine(l, limit, digits)
  }

  /** The largest bandwidth any relay may have. */
  function CapLimit(total: real, cap: real): real { total * cap }

  /** The lines scaled by the given means, then capped, in the order of the input. */
  function ScaledAndCapped(ls: seq<LineVal>, mu: real, muf: real, p: Params): (r: seq<LineVal>)
    requires p.Valid()
    ensures |r| == |ls|
  {
    var scaled := Map(ls, Scaler(mu, muf, p.obs));
    Map(scaled, Capper(CapLimit(Total(scaled, p.obs, p.statuses), p.cap), p.digits))
  }

  /** Ascending or descending; either way lines with the same bandwidth keep their order. */
  function ByBw(reverse: bool): LineVal -> real { (l: LineVal) => if reverse then -l.bw else l.bw }

  function TorflowScaled(ls: seq<LineVal>, p: Params): (r: seq<LineVal>)
    requires p.Valid() && ls != []
    ensures SortedBy(r, ByBw(p.reverse))
  {
    StableSort(ScaledAndCapped(ls, Mu(ls), Muf(ls), p), ByBw(p.reverse))
  }

  // ----- The method

  datatype Scaling = Failed | Scaled(lines: seq<V3BWLine>, mu: real, muf: real)

  /** `copy.deepcopy` of the lines. */
  method DeepCopy(ls: seq<V3BWLine>) returns (copies: seq<V3BWLine>)
    ensures Distinct(copies) && fresh(copies) && Vals(copies) == Vals(ls)
  {
    copies := [];
    while |copies| < |ls|
      invariant |copies| <= |ls|
      invariant Distinct(copies) && fresh(copies)
      invariant forall j :: 0 <= j < |copies| ==> copies[j].Val() == ls[j].Val()
    {
      var c := new V3BWLine(ls[|copies|].Val());
      copies := copies + [c];
    }
  }

  /** The body of the first loop: scales one line, unless it would divide by zero, and
      tells what it adds to the total. */
  method ScaleOne(l: V3BWLine, mu: real, muf: real, p: Params) returns (ok: bool, added: real)
    modifies l
    ensures ok <==> !(Scalable(old(l.Val()), p.obs) && (mu == 0.0 || muf == 0.0))
    ensures ok ==> l.Val() == ScaleLine(old(l.Val()), mu, muf, p.obs)
    ensures ok ==> added == CountedBw(l.Val(), p.obs, p.statuses)
  {
    added := 0.0;
    if l.stats.Some? && DescBw(l.stats.value, p.obs).Some? {
      if mu == 0.0 || muf == 0.0 { return false, added; }
      var rStrm, rStrmFilt := RatioOf(l.stats.value.bwMean, mu), RatioOf(l.stats.value.bwFilt, muf);
      l.ratios := Some((rStrm, rStrmFilt));
      l.bw := ScaledBw(rStrm, rStrmFilt, DescBw(l.stats.value, p.obs).value);
      if p.statuses.None? || p.statuses.value == {} || WithoutDollars(l.nodeId) in p.statuses.value {
        added := l.bw;
      }
    }
    ok := true;
  }

  /** The lines and their total when the first i are scaled. */
  function ScaledUpTo(ls: seq<LineVal>, i: nat, scale: LineVal -> LineVal, p: Params): (r: (seq<LineVal>, real))
    requires i <= |ls|
    ensures |r.0| == |ls|
  {
    if i == 0 then (ls, 0.0)
    else
      var (scaled, sum) := ScaledUpTo(ls, i - 1, scale, p);
      var l := scale(ls[i - 1]);
      (scaled[i - 1 := l], sum + CountedBw(l, p.obs, p.statuses))
  }

  lemma {:induction false} ScaledUpToIsMap(ls: seq<LineVal>, i: nat, scale: LineVal -> LineVal, p: Params)
    requires i <= |ls|
    ensures ScaledUpTo(ls, i, scale, p).0 == Map(ls[..i], scale) + ls[i..]
    ensures ScaledUpTo(ls, i, scale, p).1 == Total(Map(ls[..i], scale), p.obs, p.statuses)
  {
    if i > 0 {
      ScaledUpToIsMap(ls, i - 1, scale, p);
      MapPrefix(ls, i - 1, scale);
      TotalSnoc(Map(ls[..i - 1], scale), scale(ls[i - 1]), p.obs, p.statuses);
      ReplaceFirst(Map(ls[..i - 1], scale), ls[i - 1..], scale(ls[i - 1]));
    }
  }

  lemma ReplaceFirst<T>(xs: seq<T>, ys: seq<T>, y: T)
    requires ys != []
    ensures (xs + ys)[|xs| := y] == xs + [y] + ys[1..]
  {
  }

  lemma ScaledAll(ls: seq<LineVal>, scale: LineVal -> LineVal, p: Params)
    ensures ScaledUpTo(ls, |ls|, scale, p).0 == Map(ls, scale)
    ensures ScaledUpTo(ls, |ls|, scale, p).1 == Total(Map(ls, scale), p.obs, p.statuses)
  {
    ScaledUpToIsMap(ls, |ls|, scale, p);
    assert ls[..|ls|] == ls;
    assert Map(ls, scale) + [] == Map(ls, scale);
  }

  /** One turn of the first loop. */
  method ScaleAt(ls: seq<V3BWLine>, i: nat, sum: real, mu: real, muf: real, p: Params, ghost before: seq<LineVal>)
    returns (ok: bool, sumBw: real)
    requires Distinct(ls) && i < |ls| == |before|
    requires (Vals(ls), sum) == ScaledUpTo(before, i, Scaler(mu, muf, p.obs), p)
    modifies ls[i]
    ensures ok <==> !(Scalable(before[i], p.obs) && (mu == 0.0 || muf == 0.0))
    ensures ok ==> (Vals(ls), sumBw) == ScaledUpTo(before, i + 1, Scaler(mu, muf, p.obs), p)
  {
    ScaledUpToIsMap(before, i, Scaler(mu, muf, p.obs), p);
    var added;
    assert before[i] == Vals(ls)[i];
    ghost var vals := Vals(ls);
    ok, added := ScaleOne(ls[i], mu, muf, p);
    assert ok ==> Vals(ls) == vals[i := ScaleLine(before[i], mu, muf, p.obs)];
    sumBw := sum + added;
  }

  /** The first loop: scales the lines in place and totals those that count. */
  method ScaleInPlace(ls: seq<V3BWLine>, mu: real, muf: real, p: Params) returns (ok: bool, sumBw: real)
    requires Distinct(ls)
    modifies ls
    ensures ok <==> !(AnyScalable(old(Vals(ls)), p.obs) && (mu == 0.0 || muf == 0.0))
    ensures ok ==> Vals(ls) == Map(old(Vals(ls)), Scaler(mu, muf, p.obs))
    ensures ok ==> sumBw == Total(Vals(ls), p.obs, p.statuses)
  {
    ghost var before := Vals(ls);
    sumBw := 0.0;
    var i := 0;
    while i < |ls|
      invariant i <= |ls|
      invariant (Vals(ls), sumBw) == ScaledUpTo(before, i, Scaler(mu, muf, p.obs), p)
      invariant mu == 0.0 || muf == 0.0 ==> !AnyScalable(before[..i], p.obs)
    {
      AnyScalableSnoc(before, i, p.obs);
      ok, sumBw := ScaleAt(ls, i, sumBw, mu, muf, p, before);
      if !ok { return; }
      i := i + 1;
    }
    assert before[..i] == before;
    ScaledAll(before, Scaler(mu, muf, p.obs), p);
    ok := true;
  }

  lemma AnyScalableSnoc(ls: seq<LineVal>, i: nat, obs: ObsType)
    requires i < |ls|
    ensures AnyScalable(ls[..i + 1], obs) <==> AnyScalable(ls[..i], obs) || Scalable(ls[i], obs)
    ensures Scalable(ls[i], obs) ==> AnyScalable(ls, obs)
  {
    if AnyScalable(ls[..i], obs) {
      var j :| 0 <= j < i && Scalable(ls[..i][j], obs);
      assert ls[..i + 1][j] == ls[..i][j];
    }
    if Scalable(ls[i], obs) { assert ls[..i + 1][i] == ls[i]; }
  }

  lemma MapPrefix(ls: seq<LineVal>, i: nat, f: LineVal -> LineVal)
    requires i < |ls|
    ensures Map(ls[..i + 1], f) == Map(ls[..i], f) + [f(ls[i])]
  {
  }

  lemma TotalSnoc(ls: seq<LineVal>, l: LineVal, obs: ObsType, statuses: Option<set<string>>)
    ensures Total(ls + [l], obs, statuses) == Total(ls, obs, statuses) + CountedBw(l, obs, statuses)
  {
    var xs := Map(ls + [l], Counter(obs, statuses));
    assert xs[..|ls|] == Map(ls, Counter(obs, statuses));
  }

  /** The second loop: caps and rounds in place. */
  method CapInPlace(ls: seq<V3BWLine>, limit: real, digits: nat)
    requires Distinct(ls) && digits >= 1
    modifies ls
    ensures Vals(ls) == Map(old(Vals(ls)), Capper(limit, digits))
  {
    ghost var before, cap := Vals(ls), Capper(limit, digits);
    var i := 0;
    while i < |ls|
      invariant i <= |ls|
      invariant forall j :: 0 <= j < |ls| ==> ls[j].Val() == if j < i then cap(before[j]) else before[j]
    {
      ls[i].bw := KbRoundSigDig(MinReal(limit, ls[i].bw), digits) as real;
      i := i + 1;
    }
  }

  /** A line and what is in it when the lines are sorted. */
  datatype Keyed = Keyed(line: V3BWLine, val: LineVal)

  function KeyedByBw(reverse: bool): Keyed -> real { (k: Keyed) => ByBw(reverse)(k.val) }

  function KeyedVal(k: Keyed): LineVal { k.val }

  method Snapshot(ls: seq<V3BWLine>) returns (keyed: seq<Keyed>)
    requires Distinct(ls)
    ensures Map(keyed, KeyedVal) == Vals(ls) && Unique(keyed)
    ensures forall k :: k in keyed ==> k.line in ls && k.line.Val() == k.val
  {
    keyed := [];
    while |keyed| < |ls|
      invariant |keyed| <= |ls|
      invariant forall j :: 0 <= j < |keyed| ==> keyed[j] == Keyed(ls[j], ls[j].Val())
    {
      keyed := keyed + [Keyed(ls[|keyed|], ls[|keyed|].Val())];
    }
  }

  function KeyedLine(k: Keyed): V3BWLine { k.line }

  lemma LinesOfSnapshot(keyed: seq<Keyed>, ls: seq<V3BWLine>)
    requires Unique(keyed)
    requires forall i :: 0 <= i < |keyed| ==> keyed[i].line in ls && keyed[i].line.Val() == keyed[i].val
    ensures Vals(Map(keyed, KeyedLine)) == Map(keyed, KeyedVal)
    ensures Distinct(Map(keyed, KeyedLine))
  {
  }

  method SortByBw(ls: seq<V3BWLine>, reverse: bool) returns (sorted: seq<V3BWLine>)
    requires Distinct(ls)
    ensures Vals(sorted) == StableSort(Vals(ls), ByBw(reverse))
    ensures Distinct(sorted) && forall i :: 0 <= i < |sorted| ==> sorted[i] in ls
  {
    var keyed := Snapshot(ls);
    var byBw := StableSort(keyed, KeyedByBw(reverse));
    SortMembers(keyed, KeyedByBw(reverse));
    UniquePermuted(keyed, byBw);
    LinesOfSnapshot(byBw, ls);
    SortOfMap(keyed, KeyedVal, KeyedByBw(reverse), ByBw(reverse));
    sorted := Map(byBw, KeyedLine);
  }

  /** Both loops, on lines nobody else refers to. */
  method ScaleAndCap(ls: seq<V3BWLine>, mu: real, muf: real, p: Params) returns (ok: bool)
    requires Distinct(ls) && p.Valid()
    modifies ls
    ensures ok <==> !(AnyScalable(old(Vals(ls)), p.obs) && (mu == 0.0 || muf == 0.0))
    ensures ok ==> Vals(ls) == ScaledAndCapped(old(Vals(ls)), mu, muf, p)
  {
    var sumBw;
    ok, sumBw := ScaleInPlace(ls, mu, muf, p);
    if ok { CapInPlace(ls, CapLimit(sumBw, p.cap), p.digits); }
  }

  /** Scales copies of the lines, whose order is that of the lines. */
  method ScaleCopies(ls: seq<V3BWLine>, mu: real, muf: real, p: Params) returns (ok: bool, lines: seq<V3BWLine>)
    requires p.Valid()
    ensures ok <==> !(AnyScalable(Vals(ls), p.obs) && (mu == 0.0 || muf == 0.0))
    ensures ok ==> Vals(lines) == ScaledAndCapped(Vals(ls), mu, muf, p)
    ensures Distinct(lines) && fresh(lines)
  {
    lines := DeepCopy(ls);
    ok := ScaleAndCap(lines, mu, muf, p);
  }

  method BwTorflowScale(ls: seq<V3BWLine>, p: Params) returns (r: Scaling)
    requires p.Valid()
    ensures r.Failed? <==> Fails(Vals(ls), p.obs)
    ensures r.Scaled? ==>
              && Vals(r.lines) == TorflowScaled(Vals(ls), p)
              && r.mu == Mu(Vals(ls)) && r.muf == Muf(Vals(ls))
              && Distinct(r.lines) && fresh(r.lines)
  {
    if ls == [] { return Failed; }
    var mu, muf := Mu(Vals(ls)), Muf(Vals(ls));
    var ok, tf := ScaleCopies(ls, mu, muf, p);
    if !ok { return Failed; }
    var sorted := SortByBw(tf, p.reverse);
    r := Scaled(sorted, mu, muf);
  }
}
