/** The bandwidth file generated from the results of all relays: which relays are in it,
    how they are counted, and whether Tor may vote on them. */
module BandwidthFiles {
  import opened BandwidthLines
  import opened Generator
  import opened Results
  import opened Rounding
  import opened Sequences
  import opened Torflow
  import opened Wrappers

  /** A relay's results; a relay without any is not in the dictionary. */
  type Measured = rs: seq<Result> | rs != [] witness [ResultError("", 0.0, ErrorMisc)]

  datatype Entry = Entry(fingerprint: string, results: Measured)

  function FingerprintOf(e: Entry): string { e.fingerprint }

  /** Results are filed once, under the fingerprint they name. */
  ghost predicate WellFiled(entries: seq<Entry>) {
    && (forall i :: 0 <= i < |entries| ==> entries[i].results[0].fingerprint == entries[i].fingerprint)
    && Unique(Map(entries, FingerprintOf))
  }

  /** A line and why it is excluded, if it is. */
  datatype Marked = Marked(line: LineVal, reason: Option<Reason>)

  function MarkOf(e: Entry, rules: Rules, now: real): Marked {
    var (line, reason) := FromResults(e.results, rules, now);
    Marked(line, reason)
  }

  function Marker(rules: Rules, now: real): Entry -> Marked { (e: Entry) => MarkOf(e, rules, now) }

  predicate IsEligible(m: Marked) { m.reason.None? }

  predicate IsExcluded(m: Marked) { m.reason.Some? }

  function HasReason(r: Reason): Marked -> bool { (m: Marked) => m.reason == Some(r) }

  function LineOf(m: Marked): LineVal { m.line }

  function EligibleOf(ms: seq<Marked>): seq<LineVal> { Map(Filter(ms, IsEligible), LineOf) }

  function ExcludedOf(ms: seq<Marked>): seq<LineVal> { Map(Filter(ms, IsExcluded), LineOf) }

  function CountOf(ms: seq<Marked>, r: Reason): nat { |Filter(ms, HasReason(r))| }

  /** The excluded relays by reason. A missing observed bandwidth is not one of the
      header's four counts; it is there only when it occurred. */
  ghost function Exclusions(ms: seq<Marked>): map<Reason, nat> {
    map r: Reason | r != NoObservedBw || CountOf(ms, r) > 0 :: CountOf(ms, r)
  }

  // ----- Progress

  const MIN_REPORT := 60

  datatype Progress = Progress(eligible: nat, consensus: nat, minimum: int, percent: int)

  function MinimumRelays(consensus: nat): int { RoundHalfEven((consensus * MIN_REPORT) as real / 100.0) }

  /** Fails on an empty consensus, dividing by its size. */
  function MeasuredProgressStats(eligible: nat, consensus: nat): Option<(Progress, bool)> {
    if consensus == 0 then None
    else
      var minimum := MinimumRelays(consensus);
      Some((Progress(eligible, consensus, minimum, RoundHalfEven((eligible * 100) as real / consensus as real)),
            eligible >= minimum))
  }

  function ProgressOf(eligible: nat, consensus: Option<seq<string>>): Option<Progress>
    requires consensus != Some([])
  {
    if consensus.None? then None else Some(MeasuredProgressStats(eligible, |consensus.value|).value.0)
  }

  /** Enough relays are eligible to vote on them. */
  predicate Reached(eligible: nat, consensus: Option<seq<string>>) {
    consensus.Some? && eligible >= MinimumRelays(|consensus.value|)
  }

  /** Sixty percent of a positive number is never rounded past the number itself, and
      never to less than half of it. */
  lemma MinimumIsAttainable(n: nat)
    requires n > 0
    ensures 0 < MinimumRelays(n) <= n && n <= 2 * MinimumRelays(n)
  {
    var exact := (n * MIN_REPORT) as real / 100.0;
    assert exact == n as real * 0.6;
    RoundHalfEvenNearest(exact, n);
  }

  // ----- The whole file

  datatype HeaderStats = HeaderStats(exclusions: map<Reason, nat>, progress: Option<Progress>,
                                     averages: Option<(int, int)>)

  datatype FileVal = FileVal(header: HeaderStats, lines: seq<LineVal>)

  datatype Input = Input(entries: seq<Entry>, rules: Rules, now: real, obs: ObsType, cap: real, digits: nat,
                         consensus: Option<seq<string>>)
  {
    predicate Valid() { digits >= 1 }

    function Marks(): seq<Marked> { Map(entries, Marker(rules, now)) }

    function Eligible(): seq<LineVal> { EligibleOf(Marks()) }

    function Excluded(): seq<LineVal> { ExcludedOf(Marks()) }

    function Params(): Params { Torflow.Params(obs, cap, digits, Statuses(consensus), false) }
  }

  function Statuses(consensus: Option<seq<string>>): Option<set<string>> {
    if consensus.None? then None else Some(set fp | fp in consensus.value)
  }

  function UnlessReached(lines: seq<LineVal>, consensus: Option<seq<string>>): seq<LineVal> {
    if Reached(|lines|, consensus) then lines else Map(lines, UnderMinReportOf)
  }

  /** What is generated, or None when an exception leaves nothing to write. */
  ghost function Generated(i: Input): Option<FileVal>
    requires i.Valid()
  {
    var eligible, excluded := i.Eligible(), i.Excluded();
    if i.entries == [] || i.consensus == Some([]) then None
    else
      var progress := ProgressOf(|eligible|, i.consensus);
      if eligible == [] then
        Some(FileVal(HeaderStats(Exclusions(i.Marks()), progress, None), Map(excluded, UnderMinReportOf)))
      else if Fails(eligible, i.obs) then None
      else
        Some(FileVal(
               HeaderStats(Exclusions(i.Marks()), progress,
                           Some((RoundHalfEven(Mu(eligible)), RoundHalfEven(Muf(eligible))))),
               UnlessReached(TorflowScaled(eligible, i.Params()), i.consensus) + excluded))
  }

  // ----- The methods

  /** Some progress to report if the consensus is known, and whether enough relays are
      eligible; it fails on an empty consensus. */
  method UpdateProgress(eligible: nat, consensus: Option<seq<string>>)
    returns (ok: bool, progress: Option<Progress>, reached: bool)
    ensures ok <==> consensus != Some([])
    ensures ok ==> reached == Reached(eligible, consensus)
    ensures ok ==> progress == ProgressOf(eligible, consensus)
  {
    ok, progress, reached := true, None, false;
    if consensus.Some? {
      var stats := MeasuredProgressStats(eligible, |consensus.value|);
      if stats.None? { return false, None, false; }
      progress := Some(stats.value.0);
      reached := stats.value.1;
    }
  }

  lemma MarksSnoc(ms: seq<Marked>, m: Marked)
    ensures EligibleOf(ms + [m]) == EligibleOf(ms) + if IsEligible(m) then [m.line] else []
    ensures ExcludedOf(ms + [m]) == ExcludedOf(ms) + if IsExcluded(m) then [m.line] else []
  {
    FilterSnoc(ms, m, IsEligible);
    FilterSnoc(ms, m, IsExcluded);
  }

  lemma CountSnoc(ms: seq<Marked>, m: Marked, r: Reason)
    ensures CountOf(ms + [m], r) == CountOf(ms, r) + if m.reason == Some(r) then 1 else 0
  {
    FilterSnoc(ms, m, HasReason(r));
  }

  lemma ExclusionsSnoc(ms: seq<Marked>, m: Marked)
    ensures Exclusions(ms + [m]) ==
              if m.reason.None? then Exclusions(ms)
              else Exclusions(ms)[m.reason.value := CountOf(ms, m.reason.value) + 1]
  {
    forall r: Reason ensures CountOf(ms + [m], r) == CountOf(ms, r) + if m.reason == Some(r) then 1 else 0 {
      CountSnoc(ms, m, r);
    }
  }

  predicate Extends(longer: seq<V3BWLine>, ls: seq<V3BWLine>) {
    |ls| <= |longer| && longer[..|ls|] == ls
  }

  method AddLine(lines: seq<V3BWLine>, v: LineVal) returns (r: seq<V3BWLine>)
    requires Distinct(lines)
    ensures Distinct(r) && Vals(r) == Vals(lines) + [v]
    ensures Extends(r, lines) && fresh(r[|lines|..])
  {
    var l := new V3BWLine(v);
    r := lines + [l];
  }

  function Counted(counts: map<Reason, nat>, r: Reason): map<Reason, nat> {
    counts[r := (if r in counts then counts[r] else 0) + 1]
  }

  const NO_EXCLUSIONS: map<Reason, nat> := map[ErrorCount := 0, NearCount := 0, OldCount := 0, FewCount := 0]

  /** The lists and counts are those of the relays seen so far. */
  ghost predicate Tallied(marks: seq<Marked>, raw: seq<V3BWLine>, excluded: seq<V3BWLine>, counts: map<Reason, nat>)
    reads raw, excluded
  {
    && Distinct(raw) && Distinct(excluded)
    && Vals(raw) == EligibleOf(marks) && Vals(excluded) == ExcludedOf(marks) && counts == Exclusions(marks)
  }

  /** The body of the loop: one more line, counted if it is excluded. */
  method AddMarked(m: Marked, raw: seq<V3BWLine>, excluded: seq<V3BWLine>, counts: map<Reason, nat>,
                   ghost marks: seq<Marked>)
    returns (raw': seq<V3BWLine>, excluded': seq<V3BWLine>, counts': map<Reason, nat>)
    requires Tallied(marks, raw, excluded, counts)
    ensures Tallied(marks + [m], raw', excluded', counts')
    ensures Extends(raw', raw) && fresh(raw'[|raw|..])
    ensures Extends(excluded', excluded) && fresh(excluded'[|excluded|..])
  {
    raw', excluded', counts' := raw, excluded, counts;
    MarksSnoc(marks, m);
    ExclusionsSnoc(marks, m);
    if m.reason.None? {
      raw' := AddLine(raw, m.line);
    } else {
      excluded' := AddLine(excluded, m.line);
      counts' := Counted(counts, m.reason.value);
    }
  }

  lemma NothingExcludedYet()
    ensures Exclusions([]) == NO_EXCLUSIONS
  {
    var none := Exclusions([]);
    forall r: Reason ensures r in none <==> r in NO_EXCLUSIONS { }
  }

  lemma NextMark(i: Input, k: nat)
    requires k < |i.entries|
    ensures i.Marks()[..k + 1] == i.Marks()[..k] + [MarkOf(i.entries[k], i.rules, i.now)]
  {
  }

  method NextRelay(i: Input, k: nat, raw: seq<V3BWLine>, excluded: seq<V3BWLine>, counts: map<Reason, nat>)
    returns (raw': seq<V3BWLine>, excluded': seq<V3BWLine>, counts': map<Reason, nat>)
    requires k < |i.entries| && Tallied(i.Marks()[..k], raw, excluded, counts)
    ensures Tallied(i.Marks()[..k + 1], raw', excluded', counts')
    ensures Extends(raw', raw) && fresh(raw'[|raw|..])
    ensures Extends(excluded', excluded) && fresh(excluded'[|excluded|..])
  {
    NextMark(i, k);
    var m := MarkOf(i.entries[k], i.rules, i.now);
    raw', excluded', counts' := AddMarked(m, raw, excluded, counts, i.Marks()[..k]);
  }

  lemma Extension(longer: seq<V3BWLine>, ls: seq<V3BWLine>)
    requires Extends(longer, ls)
    ensures longer == ls + longer[|ls|..]
  {
  }

  /** The loop over the relays: a line for each, and the excluded ones counted. */
  method LinesFromResults(i: Input)
    returns (raw: seq<V3BWLine>, excluded: seq<V3BWLine>, counts: map<Reason, nat>)
    ensures Tallied(i.Marks(), raw, excluded, counts)
    ensures fresh(raw) && fresh(excluded)
  {
    raw, excluded, counts := [], [], NO_EXCLUSIONS;
    NothingExcludedYet();
    var n, k := |i.entries|, 0;
    while k < n
      invariant k <= n == |i.Marks()|
      invariant Tallied(i.Marks()[..k], raw, excluded, counts)
      invariant fresh(raw) && fresh(excluded)
    {
      var raw', excluded';
      raw', excluded', counts := NextRelay(i, k, raw, excluded, counts);
      Extension(raw', raw);
      Extension(excluded', excluded);
      raw, excluded, k := raw', excluded', k + 1;
    }
    assert i.Marks()[..k] == i.Marks();
  }

  datatype Generation = Failure | File(header: HeaderStats, lines: seq<V3BWLine>)

  /** Marks the scaled lines if there are too few of them. */
  method MarkUnlessReached(lines: seq<V3BWLine>, consensus: Option<seq<string>>, reached: bool)
    requires Distinct(lines) && reached == Reached(|lines|, consensus)
    modifies lines
    ensures Vals(lines) == UnlessReached(old(Vals(lines)), consensus)
  {
    if !reached { SetUnderMinReport(lines); }
  }

  lemma ValsConcat(a: seq<V3BWLine>, b: seq<V3BWLine>)
    ensures Vals(a + b) == Vals(a) + Vals(b)
  {
  }

  /** What follows the loop when some relays are eligible. */
  method ScaledLines(raw: seq<V3BWLine>, excluded: seq<V3BWLine>, p: Params, consensus: Option<seq<string>>)
    returns (ok: bool, lines: seq<V3BWLine>, progress: Option<Progress>, averages: (int, int))
    requires p.Valid() && raw != []
    ensures ok <==> !Fails(old(Vals(raw)), p.obs) && consensus != Some([])
    ensures ok ==> Vals(lines) == UnlessReached(TorflowScaled(old(Vals(raw)), p), consensus) + old(Vals(excluded))
    ensures ok ==> progress == ProgressOf(|raw|, consensus)
    ensures ok ==> averages == (RoundHalfEven(Mu(old(Vals(raw)))), RoundHalfEven(Muf(old(Vals(raw)))))
  {
    ghost var before, others := Vals(raw), Vals(excluded);
    SortKeepsCount(before, p);
    var scaling := BwTorflowScale(raw, p);
    assert Vals(excluded) == others;
    if scaling.Failed? { return false, [], None, (0, 0); }
    lines := scaling.lines;
    averages := (RoundHalfEven(scaling.mu), RoundHalfEven(scaling.muf));
    var reached;
    ok, progress, reached := UpdateProgress(|lines|, consensus);
    if ok { lines := MarkedWithExcluded(lines, excluded, consensus, reached); }
  }

  /** The scaled lines, marked if there are too few, and the excluded ones after them. */
  method MarkedWithExcluded(scaled: seq<V3BWLine>, excluded: seq<V3BWLine>, consensus: Option<seq<string>>,
                            reached: bool) returns (lines: seq<V3BWLine>)
    requires Distinct(scaled) && reached == Reached(|scaled|, consensus)
    requires forall i :: 0 <= i < |excluded| ==> excluded[i] !in scaled
    modifies scaled
    ensures Vals(lines) == UnlessReached(old(Vals(scaled)), consensus) + old(Vals(excluded))
  {
    MarkUnlessReached(scaled, consensus, reached);
    ValsConcat(scaled, excluded);
    lines := scaled + excluded;
    assert Vals(excluded) == old(Vals(excluded));
  }

  lemma SortKeepsCount(ls: seq<LineVal>, p: Params)
    requires p.Valid() && ls != []
    ensures |TorflowScaled(ls, p)| == |ls|
  {
  }

  method FileFromResults(i: Input) returns (r: Generation)
    requires i.Valid()
    ensures r.Failure? <==> Generated(i).None?
    ensures r.File? ==> FileVal(r.header, Vals(r.lines)) == Generated(i).value
  {
    // The header needs the time of the latest result.
    if i.entries == [] { return Failure; }
    var raw, excluded, counts := LinesFromResults(i);
    if raw == [] {
      var ok, progress, _ := UpdateProgress(0, i.consensus);
      if !ok { return Failure; }
      SetUnderMinReport(excluded);
      r := File(HeaderStats(counts, progress, None), excluded);
    } else {
      var ok, lines, progress, averages := ScaledLines(raw, excluded, i.Params(), i.consensus);
      if !ok { return Failure; }
      r := File(HeaderStats(counts, progress, Some(averages)), lines);
    }
  }
}
