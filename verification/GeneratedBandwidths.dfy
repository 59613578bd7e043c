/** Which bandwidth a generated file gives a relay. */
module GeneratedBandwidths {
  import opened BandwidthFileLaws
  import opened BandwidthFiles
  import opened BandwidthLines
  import opened Generator
  import opened Results
  import opened Rounding
  import opened Sequences
  import opened Torflow
  import opened TorflowLaws
  import opened Wrappers

  /** The scaled bandwidth of an eligible relay, before the cap, in a network with these means. */
  function ScaledBandwidth(i: Input, e: Entry, mu: real, muf: real): real {
    ScaleLine(FromResults(e.results, i.rules, i.now).0, mu, muf, i.obs).bw
  }

  /** The consensus has the relay, or is not known. */
  predicate MayBeListed(i: Input, e: Entry) {
    i.consensus.None? || WithoutDollars(e.fingerprint) in i.consensus.value
  }

  /** What a relay adds to the sum of the network. */
  function Counts(i: Input, e: Entry, mu: real, muf: real): real {
    if EligibleEntry(i, e) && MayBeListed(i, e) then ScaledBandwidth(i, e, mu, muf) else 0.0
  }

  function Counter(i: Input, mu: real, muf: real): Entry -> real { (e: Entry) => Counts(i, e, mu, muf) }

  /** What the scaled bandwidths of the eligible relays in the consensus sum to. */
  function NetworkSum(i: Input, mu: real, muf: real): real { Sum(Map(i.entries, Counter(i, mu, muf))) }

  function IfEligible(add: LineVal -> real): Marked -> real {
    (m: Marked) => if IsEligible(m) then add(m.line) else 0.0
  }

  lemma SumSnoc(xs: seq<real>, x: real)
    ensures Sum(xs + [x]) == Sum(xs) + x
  {
    SumConcat(xs, [x]);
  }

  lemma MapSnoc<T, U>(xs: seq<T>, x: T, f: T -> U)
    ensures Map(xs + [x], f) == Map(xs, f) + [f(x)]
  {
  }

  /** Relays that are not eligible add nothing. */
  lemma {:induction false} SumOfEligible(ms: seq<Marked>, add: LineVal -> real)
    ensures Sum(Map(EligibleOf(ms), add)) == Sum(Map(ms, IfEligible(add)))
  {
    if ms != [] {
      var before, m := ms[..|ms| - 1], ms[|ms| - 1];
      SumOfEligible(before, add);
      assert ms == before + [m];
      MarksSnoc(before, m);
      MapSnoc(before, m, IfEligible(add));
      SumSnoc(Map(before, IfEligible(add)), IfEligible(add)(m));
      if IsEligible(m) {
        MapSnoc(EligibleOf(before), m.line, add);
        SumSnoc(Map(EligibleOf(before), add), add(m.line));
      } else {
        assert EligibleOf(before) + [] == EligibleOf(before);
      }
    }
  }

  lemma StatusesOfConsensus(consensus: Option<seq<string>>, fp: string)
    requires consensus != Some([])
    ensures var statuses := Statuses(consensus);
            statuses.None? || statuses.value == {} || fp in statuses.value
            <==> consensus.None? || fp in consensus.value
  {
    if consensus.Some? { assert consensus.value[0] in Statuses(consensus).value; }
  }

  /** What the line of a relay adds is what the relay counts. */
  lemma OneCounts(i: Input, e: Entry, mu: real, muf: real)
    requires e.results[0].fingerprint == e.fingerprint && i.consensus != Some([])
    ensures IfEligible(Contributor(mu, muf, i.obs, Statuses(i.consensus)))(MarkOf(e, i.rules, i.now))
         == Counts(i, e, mu, muf)
  {
    var m := MarkOf(e, i.rules, i.now);
    LineNamesRelay(e, i.rules, i.now);
    StatusesOfConsensus(i.consensus, WithoutDollars(e.fingerprint));
    if IsEligible(m) { EligibleLine(e.results, i.rules, i.now, i.obs); }
  }

  lemma SumIsNetworkSum(i: Input, mu: real, muf: real)
    requires WellFiled(i.entries) && i.consensus != Some([])
    ensures ScaledSum(i.Eligible(), mu, muf, i.obs, Statuses(i.consensus)) == NetworkSum(i, mu, muf)
  {
    var add := IfEligible(Contributor(mu, muf, i.obs, Statuses(i.consensus)));
    SumOfEligible(i.Marks(), Contributor(mu, muf, i.obs, Statuses(i.consensus)));
    forall k | 0 <= k < |i.entries| ensures add(i.Marks()[k]) == Counter(i, mu, muf)(i.entries[k]) {
      OneCounts(i, i.entries[k], mu, muf);
    }
    assert Map(i.Marks(), add) == Map(i.entries, Counter(i, mu, muf));
  }

  /** The limit that scaling computes. */
  predicate IsLimit(limit: real, ls: seq<LineVal>, mu: real, muf: real, p: Params) {
    limit == CapLimit(Total(Map(ls, Scaler(mu, muf, p.obs)), p.obs, p.statuses), p.cap)
  }

  lemma LineIsCapped(ls: seq<LineVal>, mu: real, muf: real, p: Params, j: nat, limit: real)
    requires p.Valid() && j < |ls| && IsLimit(limit, ls, mu, muf, p)
    ensures var l := ScaledAndCapped(ls, mu, muf, p)[j];
            l.nodeId == ls[j].nodeId && CappedAt(l.bw, ScaleLine(ls[j], mu, muf, p.obs).bw, limit, p.digits)
  {
    CappedAtLimit(ls, mu, muf, p, j, limit);
  }

  /** Where a scaled line comes from, and the bandwidth it gets. */
  lemma ScaledLineFrom(ls: seq<LineVal>, p: Params, k: nat, mu: real, muf: real, limit: real) returns (j: nat)
    requires p.Valid() && ls != [] && k < |TorflowScaled(ls, p)| && mu == Mu(ls) && muf == Muf(ls)
    requires IsLimit(limit, ls, mu, muf, p)
    ensures j < |ls| && TorflowScaled(ls, p)[k].nodeId == ls[j].nodeId
    ensures CappedAt(TorflowScaled(ls, p)[k].bw, ScaleLine(ls[j], mu, muf, p.obs).bw, limit, p.digits)
  {
    j := SortedFrom(ScaledAndCapped(ls, mu, muf, p), ByBw(p.reverse), k);
    LineIsCapped(ls, mu, muf, p, j, limit);
  }

  lemma SortedFrom(ls: seq<LineVal>, key: LineVal -> real, k: nat) returns (j: nat)
    requires k < |StableSort(ls, key)|
    ensures j < |ls| && ls[j] == StableSort(ls, key)[k]
  {
    SortMembers(ls, key);
    assert StableSort(ls, key)[k] in ls;
    j :| 0 <= j < |ls| && ls[j] == StableSort(ls, key)[k];
  }

  lemma SameRelay(i: Input, j: nat, e: Entry)
    requires WellFiled(i.entries) && e in i.entries && j < |i.entries| && i.entries[j].fingerprint == e.fingerprint
    ensures i.entries[j] == e
  {
    var m :| 0 <= m < |i.entries| && i.entries[m] == e;
    assert Map(i.entries, FingerprintOf)[m] == Map(i.entries, FingerprintOf)[j];
  }

  /** A line that only says whether to vote on it has the bandwidth it had. */
  lemma MarkedLine(ls: seq<LineVal>, consensus: Option<seq<string>>, k: nat)
    requires k < |ls|
    ensures var marked := UnlessReached(ls, consensus);
            |marked| == |ls| && marked[k].bw == ls[k].bw && marked[k].nodeId == ls[k].nodeId
  {
  }

  /** The relay of the k-th eligible line, and what it gets. */
  lemma EligibleLineGets(i: Input, k: nat, mu: real, muf: real, limit: real) returns (e: Entry)
    requires i.Valid() && WellFiled(i.entries) && Generated(i).Some? && k < |i.Eligible()|
    requires mu == Mu(i.Eligible()) && muf == Muf(i.Eligible()) && IsLimit(limit, i.Eligible(), mu, muf, i.Params())
    ensures k < |Generated(i).value.lines| && e in i.entries && EligibleEntry(i, e)
    ensures var l := Generated(i).value.lines[k];
            l.nodeId == e.fingerprint && CappedAt(l.bw, ScaledBandwidth(i, e, mu, muf), limit, i.digits)
  {
    LinesOf(i);
    SortKeepsCount(i.Eligible(), i.Params());
    MarkedLine(TorflowScaled(i.Eligible(), i.Params()), i.consensus, k);
    var j := ScaledLineFrom(i.Eligible(), i.Params(), k, mu, muf, limit);
    var m := EligibleLineOf(i, j);
    e := i.entries[m];
    LineNamesRelay(e, i.rules, i.now);
  }

  lemma LimitOfNetwork(i: Input, mu: real, muf: real, sum: real)
    requires WellFiled(i.entries) && i.consensus != Some([]) && sum == NetworkSum(i, mu, muf)
    ensures CapLimit(Total(Map(i.Eligible(), Scaler(mu, muf, i.obs)), i.obs, Statuses(i.consensus)), i.cap)
         == i.cap * sum
  {
    SumIsNetworkSum(i, mu, muf);
    LimitIsShareOfSum(i.Eligible(), mu, muf, i.Params(), sum);
  }

  /** The line of an eligible relay has its scaled bandwidth in kilobytes, limited to the cap's
      share of what the eligible relays of the consensus have together, and rounded. */
  lemma EligibleBandwidth(i: Input, k: nat, e: Entry, mu: real, muf: real, limit: real)
    requires i.Valid() && WellFiled(i.entries) && Generated(i).Some? && k < |i.Eligible()|
    requires mu == Mu(i.Eligible()) && muf == Muf(i.Eligible())
    requires limit == i.cap * NetworkSum(i, mu, muf)
    requires k < |Generated(i).value.lines| && e in i.entries && Generated(i).value.lines[k].nodeId == e.fingerprint
    ensures EligibleEntry(i, e)
    ensures CappedAt(Generated(i).value.lines[k].bw, ScaledBandwidth(i, e, mu, muf), limit, i.digits)
  {
    LimitOfNetwork(i, mu, muf, NetworkSum(i, mu, muf));
    var f := EligibleLineGets(i, k, mu, muf, limit);
    var m :| 0 <= m < |i.entries| && i.entries[m] == f;
    SameRelay(i, m, e);
  }

  /** The lines of the eligible relays come first, in ascending order of their bandwidths, and
      all others have a bandwidth of one. */
  lemma EligibleComeFirst(i: Input)
    requires i.Valid() && WellFiled(i.entries) && Generated(i).Some?
    ensures var ls, n := Generated(i).value.lines, |i.Eligible()|;
            && n <= |ls|
            && (forall a, b :: 0 <= a < b < n ==> ls[a].bw <= ls[b].bw)
            && (forall k :: n <= k < |ls| ==> ls[k].bw == 1.0 && OfExcluded(i, ls[k]))
  {
    LinesOf(i);
    var n := |i.Eligible()|;
    if n == 0 {
      forall k | 0 <= k < |i.Excluded()| ensures OfExcluded(i, UnderMinReportOf(i.Excluded()[k])) {
        ExcludedLineOf(i, k);
      }
    } else {
      AscendingScaled(i);
      forall k | 0 <= k < |i.Excluded()| ensures OfExcluded(i, i.Excluded()[k]) && i.Excluded()[k].bw == 1.0 {
        ExcludedLineOf(i, k);
      }
    }
  }

  /** The line is that of a relay that is not eligible. */
  ghost predicate OfExcluded(i: Input, l: LineVal) {
    l.bw == 1.0 && exists e :: e in i.entries && !EligibleEntry(i, e) && l.nodeId == e.fingerprint
  }

  lemma ExcludedLineOf(i: Input, k: nat)
    requires WellFiled(i.entries) && k < |i.Excluded()|
    ensures OfExcluded(i, i.Excluded()[k]) && OfExcluded(i, UnderMinReportOf(i.Excluded()[k]))
  {
    var j := FilteredFrom(i.Marks(), IsExcluded, k);
    ExcludedEntry(i, j);
    assert i.entries[j] in i.entries;
  }

  lemma AscendingScaled(i: Input)
    requires i.Valid() && i.Eligible() != []
    ensures var ls := ScaledOf(i);
            |ls| == |i.Eligible()| && forall a, b :: 0 <= a < b < |ls| ==> ls[a].bw <= ls[b].bw
  {
    var scaled := TorflowScaled(i.Eligible(), i.Params());
    SortKeepsCount(i.Eligible(), i.Params());
    SortedInOrder(scaled, false);
    forall k | 0 <= k < |scaled| ensures ScaledOf(i)[k].bw == scaled[k].bw { MarkedLine(scaled, i.consensus, k); }
  }

  // ----- The marks

  lemma EligibleHasNoMarks(i: Input, j: nat)
    requires j < |i.Eligible()|
    ensures var l := i.Eligible()[j]; l.vote == None && l.unmeasured == None && l.underMinReport == None
  {
    var m := EligibleLineOf(i, j);
    EligibleLine(i.entries[m].results, i.rules, i.now, i.obs);
    EligibleHasNoVote(i.entries[m].results, i.rules, i.now);
  }

  lemma EligibleHasNoVote(rs: seq<Result>, rules: Rules, now: real)
    requires rs != [] && FromResults(rs, rules, now).1.None?
    ensures FromResults(rs, rules, now).0.vote == None
  {
  }

  /** An eligible line is marked with both marks or none: none if and only if the consensus is
      known and the eligible relays are as many as its minimum. */
  lemma EligibleMarks(i: Input, k: nat)
    requires i.Valid() && Generated(i).Some? && k < |i.Eligible()|
    ensures k < |Generated(i).value.lines|
    ensures var l := Generated(i).value.lines[k];
            && l.unmeasured == None
            && if i.consensus.Some? && |i.Eligible()| >= MinimumRelays(|i.consensus.value|)
               then l.vote == None && l.underMinReport == None
               else l.vote == Some(0) && l.underMinReport == Some(1)
  {
    var scaled := TorflowScaled(i.Eligible(), i.Params());
    LinesOf(i);
    SortKeepsCount(i.Eligible(), i.Params());
    var j := ScaledFrom(i.Eligible(), i.Params(), k);
    EligibleHasNoMarks(i, j);
    MarksOfMarked(scaled, i.consensus, k);
  }

  lemma MarksOfMarked(ls: seq<LineVal>, consensus: Option<seq<string>>, k: nat)
    requires k < |ls|
    ensures var l := UnlessReached(ls, consensus)[k];
            && l.unmeasured == ls[k].unmeasured
            && if consensus.Some? && |ls| >= MinimumRelays(|consensus.value|)
               then l.vote == ls[k].vote && l.underMinReport == ls[k].underMinReport
               else l.vote == Some(0) && l.underMinReport == Some(1)
  {
  }
}
