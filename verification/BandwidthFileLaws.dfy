/** What the generated bandwidth file says about the relays that have results. */
module BandwidthFileLaws {
  import opened BandwidthFiles
  import opened BandwidthLines
  import opened Generator
  import opened Results
  import opened Rounding
  import opened Sequences
  import opened Torflow
  import opened TorflowLaws
  import opened Wrappers

  function NodeIdOfMark(m: Marked): string { m.line.nodeId }

  // ----- One line per relay

  lemma {:induction false} MarksArePartitioned(ms: seq<Marked>)
    ensures multiset(Map(EligibleOf(ms), NodeIdOf)) + multiset(Map(ExcludedOf(ms), NodeIdOf))
         == multiset(Map(ms, NodeIdOfMark))
  {
    if ms == [] {
    } else {
      var n := |ms| - 1;
      var init, m := ms[..n], ms[n];
      assert ms == init + [m];
      MarksArePartitioned(init);
      NodeIdsOfLists(init, m);
      assert Map(ms, NodeIdOfMark) == Map(init, NodeIdOfMark) + [m.line.nodeId];
    }
  }

  lemma NodeIdsOfLists(ms: seq<Marked>, m: Marked)
    ensures var id := [m.line.nodeId];
            && Map(EligibleOf(ms + [m]), NodeIdOf) == Map(EligibleOf(ms), NodeIdOf) + (if IsEligible(m) then id else [])
            && Map(ExcludedOf(ms + [m]), NodeIdOf) == Map(ExcludedOf(ms), NodeIdOf) + (if IsEligible(m) then [] else id)
  {
    MarksSnoc(ms, m);
    NodeIdsSnoc(EligibleOf(ms), m.line);
    NodeIdsSnoc(ExcludedOf(ms), m.line);
  }

  lemma NodeIdsSnoc(ls: seq<LineVal>, l: LineVal)
    ensures Map(ls + [l], NodeIdOf) == Map(ls, NodeIdOf) + [l.nodeId]
  {
  }

  lemma NodeIdsConcat(a: seq<LineVal>, b: seq<LineVal>)
    ensures Map(a + b, NodeIdOf) == Map(a, NodeIdOf) + Map(b, NodeIdOf)
  {
  }

  lemma UnderMinReportKeepsNodeIds(ls: seq<LineVal>)
    ensures Map(Map(ls, UnderMinReportOf), NodeIdOf) == Map(ls, NodeIdOf)
  {
  }

  lemma MarksKeepFingerprints(i: Input)
    requires WellFiled(i.entries)
    ensures Map(i.Marks(), NodeIdOfMark) == Map(i.entries, FingerprintOf)
  {
    forall k | 0 <= k < |i.entries| ensures NodeIdOfMark(i.Marks()[k]) == i.entries[k].fingerprint {
      LineNamesRelay(i.entries[k], i.rules, i.now);
    }
  }

  lemma LineNamesRelay(e: Entry, rules: Rules, now: real)
    ensures MarkOf(e, rules, now).line.nodeId == e.results[0].fingerprint
  {
  }

  lemma LinesNodeIds(i: Input)
    requires i.Valid() && Generated(i).Some?
    ensures multiset(Map(Generated(i).value.lines, NodeIdOf))
         == multiset(Map(i.Eligible(), NodeIdOf)) + multiset(Map(i.Excluded(), NodeIdOf))
  {
    var eligible, excluded := i.Eligible(), i.Excluded();
    if eligible == [] {
      UnderMinReportKeepsNodeIds(excluded);
    } else {
      var scaled := TorflowScaled(eligible, i.Params());
      SortedPermutation(eligible, i.Params());
      UnderMinReportKeepsNodeIds(scaled);
      NodeIdsConcat(UnlessReached(scaled, i.consensus), excluded);
    }
  }

  /** A generated file has exactly one line for every relay with results. */
  lemma OneLinePerRelay(i: Input)
    requires i.Valid() && WellFiled(i.entries) && Generated(i).Some?
    ensures multiset(Map(Generated(i).value.lines, NodeIdOf)) == multiset(Map(i.entries, FingerprintOf))
    ensures Unique(Map(Generated(i).value.lines, NodeIdOf))
  {
    LinesNodeIds(i);
    MarksArePartitioned(i.Marks());
    MarksKeepFingerprints(i);
    UniquePermuted(Map(i.entries, FingerprintOf), Map(Generated(i).value.lines, NodeIdOf));
  }

  // ----- The counts of excluded relays

  function ReasonsTotal(ms: seq<Marked>): nat {
    CountOf(ms, ErrorCount) + CountOf(ms, NearCount) + CountOf(ms, OldCount) + CountOf(ms, FewCount)
    + CountOf(ms, NoObservedBw)
  }

  lemma ReasonsTotalSnoc(ms: seq<Marked>, m: Marked)
    ensures ReasonsTotal(ms + [m]) == ReasonsTotal(ms) + if IsExcluded(m) then 1 else 0
  {
    CountSnoc(ms, m, ErrorCount);
    CountSnoc(ms, m, NearCount);
    CountSnoc(ms, m, OldCount);
    CountSnoc(ms, m, FewCount);
    CountSnoc(ms, m, NoObservedBw);
    match m.reason
    case None =>
    case Some(ErrorCount) =>
    case Some(NearCount) =>
    case Some(OldCount) =>
    case Some(FewCount) =>
    case Some(NoObservedBw) =>
  }

  lemma {:induction false} ReasonsPartition(ms: seq<Marked>)
    ensures |ExcludedOf(ms)| == ReasonsTotal(ms)
    ensures |EligibleOf(ms)| + |ExcludedOf(ms)| == |ms|
  {
    if ms == [] {
    } else {
      var n := |ms| - 1;
      assert ms == ms[..n] + [ms[n]];
      ReasonsPartition(ms[..n]);
      MarksSnoc(ms[..n], ms[n]);
      ReasonsTotalSnoc(ms[..n], ms[n]);
    }
  }

  ghost predicate AddUp(h: map<Reason, nat>, excluded: nat) {
    && h.Keys >= {ErrorCount, NearCount, OldCount, FewCount}
    && h[ErrorCount] + h[NearCount] + h[OldCount] + h[FewCount]
       == excluded - (if NoObservedBw in h then h[NoObservedBw] else 0)
    && (NoObservedBw in h ==> h[NoObservedBw] > 0)
  }

  lemma CountsAddUp(ms: seq<Marked>)
    ensures AddUp(Exclusions(ms), |ExcludedOf(ms)|)
  {
    ReasonsPartition(ms);
    var h := Exclusions(ms);
    assert ErrorCount in h && NearCount in h && OldCount in h && FewCount in h;
  }

  /** The header's four counts add up to the excluded relays but those without observed
      bandwidth, which are counted only when there are any. */
  lemma ExclusionsAddUp(i: Input)
    requires i.Valid() && Generated(i).Some?
    ensures AddUp(Generated(i).value.header.exclusions, |i.Excluded()|)
    ensures |i.Eligible()| + |i.Excluded()| == |i.entries|
  {
    CountsAddUp(i.Marks());
    ReasonsPartition(i.Marks());
    HeaderCounts(i);
  }

  lemma HeaderCounts(i: Input)
    requires i.Valid() && Generated(i).Some?
    ensures Generated(i).value.header.exclusions == Exclusions(i.Marks())
  {
  }

  // ----- Who may be voted on

  lemma FilteredFrom(ms: seq<Marked>, keep: Marked -> bool, k: nat) returns (j: nat)
    requires k < |Filter(ms, keep)|
    ensures j < |ms| && ms[j] == Filter(ms, keep)[k] && keep(ms[j])
  {
    FilterMembers(ms, keep);
    assert Filter(ms, keep)[k] in Filter(ms, keep);
    j :| 0 <= j < |ms| && ms[j] == Filter(ms, keep)[k];
  }

  /** Where a scaled line comes from, and what scaling leaves alone. */
  lemma ScaledFrom(ls: seq<LineVal>, p: Params, k: nat) returns (j: nat)
    requires p.Valid() && ls != [] && k < |TorflowScaled(ls, p)|
    ensures j < |ls|
    ensures var l := TorflowScaled(ls, p)[k];
            && l.nodeId == ls[j].nodeId && l.vote == ls[j].vote && l.unmeasured == ls[j].unmeasured
            && l.underMinReport == ls[j].underMinReport && l.bw >= 1.0
  {
    var final := ScaledAndCapped(ls, Mu(ls), Muf(ls), p);
    SortMembers(final, ByBw(p.reverse));
    j :| 0 <= j < |final| && final[j] == TorflowScaled(ls, p)[k];
    BoundedByLimit(ls, Mu(ls), Muf(ls), p, j);
  }

  predicate EligibleEntry(i: Input, e: Entry) { FromResults(e.results, i.rules, i.now).1.None? }

  predicate NoObservedEntry(i: Input, e: Entry) { FromResults(e.results, i.rules, i.now).1 == Some(NoObservedBw) }

  /** A line may be voted on exactly in these cases. */
  ghost predicate MayVote(i: Input, e: Entry) {
    || (EligibleEntry(i, e) && Reached(|i.Eligible()|, i.consensus))
    || (NoObservedEntry(i, e) && i.Eligible() != [])
  }

  ghost predicate LineFits(i: Input, l: LineVal, j: nat)
    requires j < |i.entries|
  {
    l.nodeId == i.entries[j].fingerprint && (l.Votable() <==> MayVote(i, i.entries[j])) && l.bw >= 1.0
  }

  /** The line is that of some relay, and says whether it may be voted on. */
  ghost predicate Fits(i: Input, l: LineVal) { exists j :: 0 <= j < |i.entries| && LineFits(i, l, j) }

  ghost predicate AllFit(i: Input, ls: seq<LineVal>) { forall k :: 0 <= k < |ls| ==> Fits(i, ls[k]) }

  lemma OnlyExcludedFit(i: Input)
    requires i.Valid() && WellFiled(i.entries) && i.Eligible() == []
    ensures AllFit(i, Map(i.Excluded(), UnderMinReportOf))
  {
    forall k | 0 <= k < |i.Excluded()| ensures Fits(i, UnderMinReportOf(i.Excluded()[k])) {
      var j := FilteredFrom(i.Marks(), IsExcluded, k);
      ExcludedEntry(i, j);
      assert LineFits(i, UnderMinReportOf(i.Excluded()[k]), j);
    }
  }

  lemma ExcludedFit(i: Input)
    requires i.Valid() && WellFiled(i.entries) && i.Eligible() != []
    ensures AllFit(i, i.Excluded())
  {
    forall k | 0 <= k < |i.Excluded()| ensures Fits(i, i.Excluded()[k]) {
      var j := FilteredFrom(i.Marks(), IsExcluded, k);
      ExcludedEntry(i, j);
      assert LineFits(i, i.Excluded()[k], j);
    }
  }

  ghost function ScaledOf(i: Input): seq<LineVal>
    requires i.Valid() && i.Eligible() != []
  {
    UnlessReached(TorflowScaled(i.Eligible(), i.Params()), i.consensus)
  }

  lemma EligibleFits(i: Input, k: nat)
    requires i.Valid() && WellFiled(i.entries) && i.Eligible() != [] && k < |ScaledOf(i)|
    ensures Fits(i, ScaledOf(i)[k])
  {
    SortKeepsCount(i.Eligible(), i.Params());
    var m := ScaledFrom(i.Eligible(), i.Params(), k);
    var j := FilteredFrom(i.Marks(), IsEligible, m);
    EligibleMark(i, j);
    assert LineFits(i, ScaledOf(i)[k], j);
  }

  lemma EligibleFit(i: Input)
    requires i.Valid() && WellFiled(i.entries) && i.Eligible() != []
    ensures AllFit(i, ScaledOf(i))
  {
    forall k | 0 <= k < |ScaledOf(i)| ensures Fits(i, ScaledOf(i)[k]) { EligibleFits(i, k); }
  }

  lemma FitConcat(i: Input, a: seq<LineVal>, b: seq<LineVal>)
    requires AllFit(i, a) && AllFit(i, b)
    ensures AllFit(i, a + b)
  {
  }

  lemma LinesOf(i: Input)
    requires i.Valid() && Generated(i).Some?
    ensures Generated(i).value.lines
         == if i.Eligible() == [] then Map(i.Excluded(), UnderMinReportOf) else ScaledOf(i) + i.Excluded()
  {
  }

  lemma LinesFit(i: Input)
    requires i.Valid() && WellFiled(i.entries) && Generated(i).Some?
    ensures AllFit(i, Generated(i).value.lines)
  {
    LinesOf(i);
    if i.Eligible() == [] {
      OnlyExcludedFit(i);
    } else {
      EligibleFit(i);
      ExcludedFit(i);
      FitConcat(i, ScaledOf(i), i.Excluded());
    }
  }

  lemma ExcludedEntry(i: Input, j: nat)
    requires WellFiled(i.entries) && j < |i.entries| && IsExcluded(i.Marks()[j])
    ensures var l := i.Marks()[j].line;
            && l.nodeId == i.entries[j].fingerprint && l.bw == 1.0
            && !EligibleEntry(i, i.entries[j])
            && (l.Votable() <==> NoObservedEntry(i, i.entries[j]))
  {
    LineNamesRelay(i.entries[j], i.rules, i.now);
    ExcludedLine(i.entries[j].results, i.rules, i.now);
  }

  lemma EligibleMark(i: Input, j: nat)
    requires WellFiled(i.entries) && j < |i.entries| && IsEligible(i.Marks()[j])
    ensures var l := i.Marks()[j].line;
            && l.nodeId == i.entries[j].fingerprint && l.vote == None
            && EligibleEntry(i, i.entries[j]) && !NoObservedEntry(i, i.entries[j])
  {
    LineNamesRelay(i.entries[j], i.rules, i.now);
  }

  /** The line of an eligible relay may be voted on exactly when the consensus is known
      and enough relays are eligible; that of an excluded one never, except that of a
      relay without observed bandwidth when any relay is eligible. */
  lemma VotableExactly(i: Input, k: nat, e: Entry)
    requires i.Valid() && WellFiled(i.entries) && Generated(i).Some?
    requires k < |Generated(i).value.lines| && e in i.entries
    requires Generated(i).value.lines[k].nodeId == e.fingerprint
    ensures Generated(i).value.lines[k].Votable() <==> MayVote(i, e)
    ensures Generated(i).value.lines[k].bw >= 1.0
  {
    LinesFit(i);
    var j :| 0 <= j < |i.entries| && LineFits(i, Generated(i).value.lines[k], j);
    var m :| 0 <= m < |i.entries| && i.entries[m] == e;
    var fps := Map(i.entries, FingerprintOf);
    assert fps[m] == fps[j];
    assert m == j;
  }

  // ----- What the header tells

  predicate Rounds(x: real, n: int) { Distance(n as real, x) <= 0.5 }

  /** The counts, their percentages rounded, and whether the minimum is reached. */
  ghost predicate Tells(p: Progress, eligible: nat, consensus: seq<string>) {
    && p.eligible == eligible && p.consensus == |consensus| > 0
    && Rounds(0.6 * p.consensus as real, p.minimum)
    && Rounds(100.0 * p.eligible as real / p.consensus as real, p.percent)
    && (Reached(eligible, Some(consensus)) <==> p.eligible >= p.minimum)
  }

  lemma ProgressIsRounded(eligible: nat, consensus: seq<string>)
    requires consensus != []
    ensures Tells(MeasuredProgressStats(eligible, |consensus|).value.0, eligible, consensus)
  {
    RoundHalfEvenNearest((|consensus| * MIN_REPORT) as real / 100.0, 0);
    RoundHalfEvenNearest((eligible * 100) as real / |consensus| as real, 0);
  }

  lemma ProgressIs(i: Input)
    requires i.Valid() && Generated(i).Some?
    ensures i.consensus != Some([])
    ensures Generated(i).value.header.progress == ProgressOf(|i.Eligible()|, i.consensus)
  {
  }

  /** The header tells the progress exactly when the consensus is known. */
  lemma HeaderTellsProgress(i: Input)
    requires i.Valid() && Generated(i).Some?
    ensures var h := Generated(i).value.header;
            && (h.progress.Some? <==> i.consensus.Some?)
            && (h.progress.Some? ==> Tells(h.progress.value, |i.Eligible()|, i.consensus.value))
  {
    ProgressIs(i);
    if i.consensus.Some? { ProgressIsRounded(|i.Eligible()|, i.consensus.value); }
  }

  /** The averages are there exactly when a relay is eligible, rounded. */
  lemma HeaderTellsAverages(i: Input)
    requires i.Valid() && Generated(i).Some?
    ensures var a := Generated(i).value.header.averages;
            && (a.Some? <==> i.Eligible() != [])
            && (a.Some? ==> Rounds(Mu(i.Eligible()), a.value.0) && Rounds(Muf(i.Eligible()), a.value.1))
  {
    if i.Eligible() != [] {
      RoundHalfEvenNearest(Mu(i.Eligible()), 0);
      RoundHalfEvenNearest(Muf(i.Eligible()), 0);
    }
  }

  // ----- When nothing can be written

  predicate NonNegative(rs: seq<Result>) {
    forall k, d :: 0 <= k < |rs| && rs[k].ResultSuccess? && 0 <= d < |rs[k].downloads| ==>
      rs[k].downloads[d].amount >= 0
  }

  lemma BandwidthIsNonNegative(t: Transfer)
    requires t.amount >= 0
    ensures BandwidthOf(t) >= 0.0
  {
  }

  lemma {:induction false} BandwidthsAreNonNegative(rs: seq<Result>)
    requires NonNegative(rs)
    ensures forall k :: 0 <= k < |Bandwidths(rs)| ==> Bandwidths(rs)[k] >= 0.0
  {
    if rs != [] {
      var n := |rs| - 1;
      BandwidthsAreNonNegative(rs[..n]);
      if rs[n].ResultSuccess? {
        forall d | 0 <= d < |rs[n].downloads| ensures BandwidthOf(rs[n].downloads[d]) >= 0.0 {
          BandwidthIsNonNegative(rs[n].downloads[d]);
        }
      }
    }
  }

  lemma RoundedMeanIsNonNegative(xs: seq<real>)
    requires forall k :: 0 <= k < |xs| ==> xs[k] >= 0.0
    ensures RoundedMean(xs) >= 0
  {
    if xs != [] {
      MeanAtLeast(xs, 0.0);
      RoundHalfEvenMonotone(0.0, Mean(xs));
      RoundHalfEvenOfInt(0);
    }
  }

  lemma {:induction false} SumIsZeroIff(xs: seq<real>)
    requires forall k :: 0 <= k < |xs| ==> xs[k] >= 0.0
    ensures Sum(xs) >= 0.0
    ensures Sum(xs) == 0.0 <==> forall k :: 0 <= k < |xs| ==> xs[k] == 0.0
  {
    if xs != [] { SumIsZeroIff(xs[..|xs| - 1]); }
  }

  lemma MeanIsZeroIff(xs: seq<real>)
    requires xs != [] && forall k :: 0 <= k < |xs| ==> xs[k] >= 0.0
    ensures Mean(xs) == 0.0 <==> forall k :: 0 <= k < |xs| ==> xs[k] == 0.0
  {
    SumIsZeroIff(xs);
    assert Mean(xs) * |xs| as real == Sum(xs);
  }

  /** Both means of a non-negative network are zero together, when every mean is. */
  lemma MeansVanish(ls: seq<LineVal>)
    requires ls != [] && forall k :: 0 <= k < |ls| ==> 0.0 <= BwMeanOf(ls[k]) <= BwFiltOf(ls[k])
    ensures Mu(ls) == 0.0 || Muf(ls) == 0.0 <==> forall k :: 0 <= k < |ls| ==> BwMeanOf(ls[k]) == 0.0
  {
    var means, filts := Map(ls, BwMeanOf), Map(ls, BwFiltOf);
    MeanIsZeroIff(means);
    MeanIsZeroIff(filts);
    if Muf(ls) == 0.0 {
      forall k | 0 <= k < |ls| ensures BwMeanOf(ls[k]) == 0.0 { assert filts[k] == 0.0; }
    }
    if Mu(ls) == 0.0 {
      forall k | 0 <= k < |ls| ensures BwMeanOf(ls[k]) == 0.0 { assert means[k] == 0.0; }
    }
  }

  lemma EligibleStats(rs: seq<Result>, rules: Rules, now: real, obs: ObsType)
    requires rs != [] && FromResults(rs, rules, now).1.None? && NonNegative(Used(rs, rules, now))
    ensures var l := FromResults(rs, rules, now).0;
            && Scalable(l, obs) && 0.0 <= BwMeanOf(l) <= BwFiltOf(l)
            && BwMeanOf(l) == RoundedMean(Bandwidths(Used(rs, rules, now))) as real
  {
    EligibleLine(rs, rules, now, obs);
    BandwidthsAreNonNegative(Used(rs, rules, now));
    RoundedMeanIsNonNegative(Bandwidths(Used(rs, rules, now)));
  }

  predicate Measures(i: Input, e: Entry) {
    EligibleEntry(i, e) && RoundedMean(Bandwidths(Used(e.results, i.rules, i.now))) != 0
  }

  lemma EligibleLineOf(i: Input, k: nat) returns (j: nat)
    requires k < |i.Eligible()|
    ensures j < |i.entries| && EligibleEntry(i, i.entries[j])
    ensures i.Eligible()[k] == FromResults(i.entries[j].results, i.rules, i.now).0
  {
    j := FilteredFrom(i.Marks(), IsEligible, k);
  }

  lemma EligibleEntryLine(i: Input, j: nat) returns (k: nat)
    requires j < |i.entries| && EligibleEntry(i, i.entries[j])
    ensures k < |i.Eligible()| && i.Eligible()[k] == FromResults(i.entries[j].results, i.rules, i.now).0
  {
    var ms := i.Marks();
    FilterMembers(ms, IsEligible);
    assert ms[j] in Filter(ms, IsEligible);
    k :| 0 <= k < |Filter(ms, IsEligible)| && Filter(ms, IsEligible)[k] == ms[j];
  }

  predicate AllNonNegative(i: Input) {
    forall e :: e in i.entries ==> NonNegative(Used(e.results, i.rules, i.now))
  }

  predicate SomeEligible(i: Input) { exists e :: e in i.entries && EligibleEntry(i, e) }

  predicate SomeMeasures(i: Input) { exists e :: e in i.entries && Measures(i, e) }

  lemma SomeEligibleIff(i: Input)
    ensures SomeEligible(i) <==> i.Eligible() != []
  {
    if e :| e in i.entries && EligibleEntry(i, e) {
      var j :| 0 <= j < |i.entries| && i.entries[j] == e;
      var k := EligibleEntryLine(i, j);
    }
    if i.Eligible() != [] {
      var j := EligibleLineOf(i, 0);
      assert i.entries[j] in i.entries;
    }
  }

  /** Scaling the eligible lines fails exactly when none has a bandwidth. */
  lemma FailsIffNothingMeasured(i: Input)
    requires AllNonNegative(i) && i.Eligible() != []
    ensures Fails(i.Eligible(), i.obs) <==> !SomeMeasures(i)
  {
    var j := EligibleLineOf(i, 0);
    EligibleStats(i.entries[j].results, i.rules, i.now, i.obs);
    assert AnyScalable(i.Eligible(), i.obs);
    AllEligibleStats(i);
    MeansVanish(i.Eligible());
    MeasuresIff(i);
  }

  /** A file is generated exactly when there are results, the consensus is not empty, and
      some relay's bandwidth does not round to zero unless none is eligible. */
  lemma GeneratedIff(i: Input)
    requires i.Valid() && AllNonNegative(i)
    ensures Generated(i).Some? <==>
              && i.entries != [] && i.consensus != Some([])
              && (SomeEligible(i) ==> SomeMeasures(i))
  {
    SomeEligibleIff(i);
    if i.Eligible() != [] { FailsIffNothingMeasured(i); }
  }

  lemma AllEligibleStats(i: Input)
    requires AllNonNegative(i)
    ensures forall k :: 0 <= k < |i.Eligible()| ==> 0.0 <= BwMeanOf(i.Eligible()[k]) <= BwFiltOf(i.Eligible()[k])
  {
    forall k | 0 <= k < |i.Eligible()|
      ensures 0.0 <= BwMeanOf(i.Eligible()[k]) <= BwFiltOf(i.Eligible()[k])
    {
      var j := EligibleLineOf(i, k);
      EligibleStats(i.entries[j].results, i.rules, i.now, i.obs);
    }
  }

  lemma MeasuresIff(i: Input)
    requires AllNonNegative(i)
    ensures SomeMeasures(i)
       <==> exists k :: 0 <= k < |i.Eligible()| && BwMeanOf(i.Eligible()[k]) != 0.0
  {
    if e :| e in i.entries && Measures(i, e) {
      var j :| 0 <= j < |i.entries| && i.entries[j] == e;
      var k := EligibleEntryLine(i, j);
      EligibleStats(e.results, i.rules, i.now, i.obs);
    }
    if k :| 0 <= k < |i.Eligible()| && BwMeanOf(i.Eligible()[k]) != 0.0 {
      var j := EligibleLineOf(i, k);
      EligibleStats(i.entries[j].results, i.rules, i.now, i.obs);
      assert Measures(i, i.entries[j]);
    }
  }
}
