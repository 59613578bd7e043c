/** Which relays to measure next: those whose results are the oldest or fewest first. */
module Prioritizer {
  import opened Arithmetic
  import opened Downloads
  import opened Results
  import opened ResultStore
  import opened Sequences
  import opened StateFiles
  import opened Timestamps
  import opened Wrappers

  /** How much a failed measurement counts less than a successful one. */
  function FreshnessReduction(e: ErrorType): real {
    match e
    case ErrorAuth => 0.9
    case ErrorCirc => 0.6
    case _ => 0.5
  }

  function Weight(r: Result, prioritizeErrors: bool): (w: real)
    ensures w > 0.0
  {
    if r.ResultError? && prioritizeErrors then
      var weight := 1.0 - FreshnessReduction(r.errorType);
      if weight >= 0.0 then weight else 0.0
    else 1.0
  }

  /** What one result adds to the priority of its relay: nothing when it is too old. */
  function Freshness(r: Result, oldestAllowed: real, prioritizeErrors: bool): (f: real)
    ensures f >= 0.0
    ensures f > 0.0 <==> r.time > oldestAllowed
  {
    if r.time < oldestAllowed then 0.0 else (r.time - oldestAllowed) * Weight(r, prioritizeErrors)
  }

  function Priority(results: seq<Result>, oldestAllowed: real, prioritizeErrors: bool): (p: real)
    ensures p >= 0.0
  {
    if results == [] then 0.0
    else Priority(results[..|results| - 1], oldestAllowed, prioritizeErrors)
         + Freshness(results[|results| - 1], oldestAllowed, prioritizeErrors)
  }

  /** Only a relay with a result that is still fresh is put behind unmeasured ones. */
  lemma {:induction false} PriorityIsPositive(results: seq<Result>, oldestAllowed: real, prioritizeErrors: bool)
    ensures Priority(results, oldestAllowed, prioritizeErrors) > 0.0
       <==> exists r :: r in results && r.time > oldestAllowed
  {
    if results != [] {
      var n := |results| - 1;
      PriorityIsPositive(results[..n], oldestAllowed, prioritizeErrors);
      assert results == results[..n] + [results[n]];
    }
  }

  /** Of two fresh results alike in kind, the later one adds more, by the difference in time;
      a tenth of it for an authentication error, four tenths for a circuit error and half of it
      for another error, when errors are given priority. */
  lemma LaterAddsDifference(r: Result, later: Result, oldestAllowed: real, prioritizeErrors: bool)
    requires oldestAllowed <= r.time <= later.time && r.ResultError? == later.ResultError?
    requires r.ResultError? ==> r.errorType == later.errorType
    ensures var gap := later.time - r.time;
            Freshness(later, oldestAllowed, prioritizeErrors) - Freshness(r, oldestAllowed, prioritizeErrors)
            == if r.ResultSuccess? || !prioritizeErrors then gap
               else if r.errorType == ErrorAuth then gap * 0.1
               else if r.errorType == ErrorCirc then gap * 0.4
               else gap * 0.5
  {
  }

  /** Results add up, whichever come first. */
  lemma {:induction false} PriorityAddsUp(xs: seq<Result>, ys: seq<Result>, oldestAllowed: real, prioritizeErrors: bool)
    ensures Priority(xs + ys, oldestAllowed, prioritizeErrors)
         == Priority(xs, oldestAllowed, prioritizeErrors) + Priority(ys, oldestAllowed, prioritizeErrors)
    ensures forall r :: Priority([r], oldestAllowed, prioritizeErrors) == Freshness(r, oldestAllowed, prioritizeErrors)
  {
    if ys == [] {
      assert xs + ys == xs;
    } else {
      var n := |ys| - 1;
      assert (xs + ys)[..|xs| + n] == xs + ys[..n];
      PriorityAddsUp(xs, ys[..n], oldestAllowed, prioritizeErrors);
    }
    forall r ensures Priority([r], oldestAllowed, prioritizeErrors) == Freshness(r, oldestAllowed, prioritizeErrors) {
      assert [r][..0] == [];
    }
  }

  lemma {:induction false} SetOfLength(xs: seq<string>)
    requires Unique(xs)
    ensures |SetOf(xs)| == |xs|
  {
    if xs != [] {
      var n := |xs| - 1;
      SetOfLength(xs[..n]);
      assert SetOf(xs) == SetOf(xs[..n]) + {xs[n]};
      assert xs[n] !in SetOf(xs[..n]);
    }
  }

  /** r lists the `limit` relays of least priority, in order of priority. */
  ghost predicate BestPrefix(r: seq<string>, relays: set<string>, priority: string -> real, limit: nat) {
    && Unique(r)
    && SetOf(r) <= relays
    && |r| == MinInt(|relays|, limit)
    && SortedBy(r, priority)
    && (forall i, fp :: 0 <= i < |r| && fp in relays - SetOf(r) ==> priority(r[i]) <= priority(fp))
  }

  /** What the priorities are computed from: the results, the period for which they
      count, and the clock when each relay is looked at. */
  datatype Inputs = Inputs(results: ResultDict, freshSeconds: real, clock: string -> real, prioritizeErrors: bool) {
    function PriorityOf(fp: string): real {
      Priority(Get(results, fp), clock(fp) - freshSeconds, prioritizeErrors)
    }
  }

  /** A relay comes after unmeasured ones if and only if it has a result of within the period. */
  lemma PositiveIffWithinPeriod(inputs: Inputs, fp: string)
    ensures inputs.PriorityOf(fp) > 0.0
       <==> fp in inputs.results
            && exists r :: r in inputs.results[fp] && inputs.clock(fp) - r.time < inputs.freshSeconds
  {
    PriorityIsPositive(Get(inputs.results, fp), inputs.clock(fp) - inputs.freshSeconds, inputs.prioritizeErrors);
  }

  lemma {:induction false} OneMorePriority(results: seq<Result>, i: nat, oldestAllowed: real, prioritizeErrors: bool)
    requires i < |results|
    ensures Priority(results[..i + 1], oldestAllowed, prioritizeErrors)
         == Priority(results[..i], oldestAllowed, prioritizeErrors)
            + Freshness(results[i], oldestAllowed, prioritizeErrors)
  {
    assert results[..i + 1][..i] == results[..i];
  }

  /** The loop over the results of one relay. */
  method ComputePriority(results: seq<Result>, oldestAllowed: real, prioritizeErrors: bool) returns (priority: real)
    ensures priority == Priority(results, oldestAllowed, prioritizeErrors)
  {
    priority := 0.0;
    var i := 0;
    while i < |results|
      invariant i <= |results|
      invariant priority == Priority(results[..i], oldestAllowed, prioritizeErrors)
    {
      var r := results[i];
      OneMorePriority(results, i, oldestAllowed, prioritizeErrors);
      i := i + 1;
      if r.time < oldestAllowed { continue; }
      var freshness := r.time - oldestAllowed;
      freshness := freshness * Weight(r, prioritizeErrors);
      priority := priority + freshness;
    }
    assert results[..i] == results;
  }

  datatype Prioritized = Prioritized(fp: string, priority: real)

  function KeyOf(p: Prioritized): real { p.priority }

  function Names(ps: seq<Prioritized>): seq<string> { Map(ps, (p: Prioritized) => p.fp) }

  /** A prefix of all relays in order of priority is a best prefix. */
  lemma PrefixIsBest(names: seq<string>, relays: set<string>, priority: string -> real, limit: nat)
    requires Unique(names) && SetOf(names) == relays && SortedBy(names, priority)
    ensures |names| == |relays|
    ensures BestPrefix(names[..MinInt(|relays|, limit)], relays, priority, limit)
  {
    SetOfLength(names);
    var n := MinInt(|relays|, limit);
    forall i, fp | 0 <= i < n && fp in relays - SetOf(names[..n]) ensures priority(names[i]) <= priority(fp) {
      assert fp in names && fp !in names[..n];
      assert names == names[..n] + names[n..];
      var j :| n <= j < |names| && names[j] == fp;
    }
  }

  lemma SortedByKeyIsByPriority(sorted: seq<Prioritized>, priority: string -> real)
    requires SortedBy(sorted, KeyOf)
    requires forall p :: p in sorted ==> p.priority == priority(p.fp)
    ensures SortedBy(Names(sorted), priority)
  {
    forall i, j | 0 <= i < j < |sorted| ensures priority(Names(sorted)[i]) <= priority(Names(sorted)[j]) {
      assert sorted[i] in sorted && sorted[j] in sorted;
      assert KeyOf(sorted[i]) <= KeyOf(sorted[j]);
    }
  }

  /** The relays with the least priorities, best first. */
  lemma SortedPrefixIsBest(ps: seq<Prioritized>, priority: string -> real, limit: nat)
    requires Unique(Names(ps))
    requires forall p :: p in ps ==> p.priority == priority(p.fp)
    ensures BestPrefix(Names(StableSort(ps, KeyOf))[..MinInt(|ps|, limit)], SetOf(Names(ps)), priority, limit)
  {
    var sorted := StableSort(ps, KeyOf);
    SortedMembers(ps, sorted);
    SortedDistinct(ps, sorted);
    SortedByKeyIsByPriority(sorted, priority);
    PrefixIsBest(Names(sorted), SetOf(Names(ps)), priority, limit);
  }

  lemma SortedMembers(ps: seq<Prioritized>, sorted: seq<Prioritized>)
    requires multiset(ps) == multiset(sorted)
    ensures forall p :: p in ps <==> p in sorted
  {
    forall p ensures p in ps <==> p in sorted {
      assert p in ps <==> p in multiset(ps);
      assert p in sorted <==> p in multiset(sorted);
    }
  }

  lemma NamesMembers(ps: seq<Prioritized>, fp: string)
    ensures fp in Names(ps) <==> exists p :: p in ps && p.fp == fp
  {
    if fp in Names(ps) {
      var i :| 0 <= i < |ps| && Names(ps)[i] == fp;
      assert ps[i] in ps;
    }
    if p :| p in ps && p.fp == fp {
      var i :| 0 <= i < |ps| && ps[i] == p;
      assert Names(ps)[i] == fp;
    }
  }

  /** A permutation of entries with distinct names has the same, distinct names. */
  lemma SortedDistinct(ps: seq<Prioritized>, sorted: seq<Prioritized>)
    requires multiset(ps) == multiset(sorted) && Unique(Names(ps))
    ensures SetOf(Names(sorted)) == SetOf(Names(ps)) && Unique(Names(sorted))
  {
    SameMultisetSameLength(ps, sorted);
    SetOfLength(Names(ps));
    SortedMembers(ps, sorted);
    forall fp ensures fp in Names(sorted) <==> fp in Names(ps) {
      NamesMembers(ps, fp);
      NamesMembers(sorted, fp);
    }
    assert SetOf(Names(sorted)) == SetOf(Names(ps));
    FullSetIsDistinct(Names(sorted));
  }

  lemma AddOne(xs: set<string>, x: string)
    ensures |xs + {x}| == |xs| + if x in xs then 0 else 1
  {
    if x in xs { assert xs + {x} == xs; }
  }

  lemma SetOfLast(xs: seq<string>)
    requires xs != []
    ensures SetOf(xs) == SetOf(xs[..|xs| - 1]) + {xs[|xs| - 1]}
  {
    assert xs == xs[..|xs| - 1] + [xs[|xs| - 1]];
  }

  lemma {:induction false} SetOfAtMost(xs: seq<string>)
    ensures |SetOf(xs)| <= |xs|
  {
    if xs != [] {
      var n := |xs| - 1;
      SetOfAtMost(xs[..n]);
      SetOfLast(xs);
      AddOne(SetOf(xs[..n]), xs[n]);
    }
  }

  lemma {:induction false} FullSetIsDistinct(xs: seq<string>)
    requires |SetOf(xs)| == |xs|
    ensures Unique(xs)
  {
    if xs != [] {
      var n := |xs| - 1;
      SetOfAtMost(xs[..n]);
      SetOfLast(xs);
      AddOne(SetOf(xs[..n]), xs[n]);
      FullSetIsDistinct(xs[..n]);
    }
  }

  /** The loop over the relays. */
  method Prioritize(relays: seq<string>, inputs: Inputs) returns (prioritized: seq<Prioritized>)
    ensures |prioritized| == |relays| && Names(prioritized) == relays
    ensures forall p :: p in prioritized ==> p.priority == inputs.PriorityOf(p.fp)
  {
    prioritized := [];
    var i := 0;
    while i < |relays|
      invariant i <= |relays|
      invariant Names(prioritized) == relays[..i]
      invariant forall p :: p in prioritized ==> p.priority == inputs.PriorityOf(p.fp)
    {
      var fp := relays[i];
      var priority := ComputePriority(Get(inputs.results, fp), inputs.clock(fp) - inputs.freshSeconds,
                                      inputs.prioritizeErrors);
      prioritized := prioritized + [Prioritized(fp, priority)];
      i := i + 1;
    }
    assert relays[..i] == relays;
  }

  /** The part of a run that only reads: the relays to return. */
  method Best(relays: seq<string>, inputs: Inputs, limit: nat) returns (best: seq<string>)
    requires Unique(relays)
    ensures BestPrefix(best, SetOf(relays), inputs.PriorityOf, limit)
  {
    var prioritized := Prioritize(relays, inputs);
    SortedPrefixIsBest(prioritized, inputs.PriorityOf, limit);
    best := Names(StableSort(prioritized, KeyOf))[..MinInt(|relays|, limit)];
  }

  const MAX_RECENT_PRIORITY_LIST_COUNT: nat := 120
  const MAX_RECENT_PRIORITY_RELAY_COUNT: nat := 48000

  class RelayPrioritizer {
    const freshSeconds: real
    const minToReturn: nat
    const fractionToReturn: real
    const recentPriorityList: DateTimeSeq
    const recentPriorityRelay: DateTimeIntSeq

    ghost predicate Valid()
      reads this, recentPriorityList, recentPriorityRelay
    {
      recentPriorityList.Valid() && recentPriorityRelay.Valid()
    }

    ghost function Footprint(): set<object> {
      {recentPriorityList, recentPriorityRelay}
      + (if recentPriorityList.state == null then {}
         else {recentPriorityList.state, recentPriorityList.state.file})
      + (if recentPriorityRelay.state == null then {}
         else {recentPriorityRelay.state, recentPriorityRelay.state.file})
    }

    /** Both windows start empty and share one state of the file. */
    constructor (dataPeriod: nat, minToReturn: nat, fractionToReturn: real, file: StateFile)
      ensures Valid() && fresh(recentPriorityList) && fresh(recentPriorityRelay)
      ensures freshSeconds == dataPeriod as real * DAY && this.minToReturn == minToReturn
      ensures this.fractionToReturn == fractionToReturn
      ensures recentPriorityList.items == [] && recentPriorityRelay.items == []
      ensures recentPriorityList.log == [] && recentPriorityRelay.log == []
      ensures recentPriorityList.maxlen == Some(120)
      ensures recentPriorityRelay.maxlen == Some(48000)
      ensures recentPriorityList.key == "recent_priority_list" && recentPriorityRelay.key == "recent_priority_relay"
      ensures var state := recentPriorityList.state;
              state != null && state == recentPriorityRelay.state && fresh(state) && state.file == file
    {
      this.freshSeconds, this.minToReturn := dataPeriod as real * DAY, minToReturn;
      this.fractionToReturn := fractionToReturn;
      var state := new State(file);
      recentPriorityList := new DateTimeSeq([], Some(MAX_RECENT_PRIORITY_LIST_COUNT), state, "recent_priority_list");
      recentPriorityRelay :=
        new DateTimeIntSeq([], Some(MAX_RECENT_PRIORITY_RELAY_COUNT), state, "recent_priority_relay");
    }

    /** How many of n relays to return. */
    function UpperLimit(n: nat, returnFraction: bool): (limit: nat)
      ensures !returnFraction ==> limit == n
      ensures returnFraction ==>
                && limit >= minToReturn && n as real * fractionToReturn < limit as real + 1.0
                && (limit == minToReturn || limit as real <= n as real * fractionToReturn)
    {
      var fraction := Truncate(n as real * fractionToReturn);
      if !returnFraction then n else if fraction >= minToReturn then fraction else minToReturn
    }

    /** The relays are given in any order and each once; `now` is when the run and its
        size are recorded. */
    method BestPriority(relays: seq<string>, results: ResultDict, clock: string -> real,
                        prioritizeErrors: bool, returnFraction: bool, now: real)
      returns (best: seq<string>)
      requires Valid() && Unique(relays)
      modifies Footprint()
      ensures Valid()
      ensures BestPrefix(best, SetOf(relays), Inputs(results, freshSeconds, clock, prioritizeErrors).PriorityOf,
                         UpperLimit(|relays|, returnFraction))
      ensures recentPriorityList.log == old(recentPriorityList.log) + [Added(now, StampOr(None, now))]
      ensures recentPriorityRelay.log
           == old(recentPriorityRelay.log) + [Added(now, (StampOr(None, now), |best|))]
    {
      best := Best(relays, Inputs(results, freshSeconds, clock, prioritizeErrors),
                   UpperLimit(|relays|, returnFraction));
      var list := recentPriorityList.Update(None, now);
      var counts := recentPriorityRelay.Update(None, |best|, now);
    }
  }

  // ----- Coverage over rounds

  /** What a round returned, and what its priorities were computed from: everything stored
      since the start of the run, when the store was empty, and the clock. */
  datatype Round = Round(returned: seq<string>, log: seq<Stored>, freshDays: nat, clock: string -> real,
                         prioritizeErrors: bool)
  {
    function Given(): Inputs {
      Inputs(StoreAll(map[], log, freshDays), freshDays as real * DAY, clock, prioritizeErrors)
    }
  }

  function ReturnedIn(rounds: seq<Round>): set<string> {
    if rounds == [] then {} else ReturnedIn(rounds[..|rounds| - 1]) + SetOf(rounds[|rounds| - 1].returned)
  }

  predicate HasResultOf(log: seq<Stored>, fp: string) { exists k :: 0 <= k < |log| && log[k].result.fingerprint == fp }

  /** The results stored since the start are of the relays returned before, one or more of
      each, and the round is still within the data period. */
  ghost predicate StoredInTime(round: Round, before: set<string>, relays: set<string>, start: real) {
    var end := start + round.freshDays as real * DAY;
    && StoredInOrder(round.log)
    && (forall fp :: fp in relays ==> (fp in before <==> HasResultOf(round.log, fp)))
    && (forall k :: 0 <= k < |round.log| ==> start <= round.log[k].result.time && round.log[k].now < end)
    && (forall fp :: fp in relays ==> round.clock(fp) < end)
  }

  /** A round returns a best prefix. */
  ghost predicate RoundOk(round: Round, before: set<string>, relays: set<string>, limit: nat, start: real) {
    && BestPrefix(round.returned, relays, round.Given().PriorityOf, limit)
    && StoredInTime(round, before, relays, start)
  }

  /** A run from an empty store, whose log only grows, shorter than the data period. */
  ghost predicate Scheduled(rounds: seq<Round>, relays: set<string>, limit: nat, start: real) {
    rounds != [] ==>
      var n := |rounds| - 1;
      && Scheduled(rounds[..n], relays, limit, start)
      && RoundOk(rounds[n], ReturnedIn(rounds[..n]), relays, limit, start)
      && (n > 0 ==> rounds[n - 1].log <= rounds[n].log && rounds[n - 1].freshDays == rounds[n].freshDays)
  }

  ghost predicate MeasuredInTime(inputs: Inputs, before: set<string>, relays: set<string>) {
    forall fp :: fp in relays ==>
      if fp in before then
        exists r :: r in Get(inputs.results, fp) && r.time > inputs.clock(fp) - inputs.freshSeconds
      else Get(inputs.results, fp) == []
  }

  lemma LoggedOf(log: seq<Stored>, fp: string)
    ensures forall r :: r in Filter(Logged(log), Of(fp)) ==> r.fingerprint == fp
    ensures HasResultOf(log, fp) ==> exists k :: 0 <= k < |log| && log[k].result in Filter(Logged(log), Of(fp))
    ensures !HasResultOf(log, fp) ==> Filter(Logged(log), Of(fp)) == []
  {
    FilterMembers(Logged(log), Of(fp));
    if HasResultOf(log, fp) {
      var k :| 0 <= k < |log| && log[k].result.fingerprint == fp;
      assert Logged(log)[k] == log[k].result;
    } else {
      forall r | r in Logged(log) ensures !Of(fp)(r) {
        var k :| 0 <= k < |log| && Logged(log)[k] == r;
      }
      FilterNone(Logged(log), Of(fp));
    }
  }

  /** What the store holds for one relay after everything of a round's log. */
  lemma StoredFor(round: Round, before: set<string>, relays: set<string>, start: real, fp: string)
    requires StoredInTime(round, before, relays, start) && round.log != []
    ensures Get(round.Given().results, fp)
         == Filter(Filter(Logged(round.log), Of(fp)),
                   IsFresh(OldestAllowed(round.freshDays, round.log[|round.log| - 1].now)))
  {
    StoreAllIsOneTrim(map[], round.log, round.freshDays, fp);
    assert Everything(map[], round.log, fp) == Filter(Logged(round.log), Of(fp));
  }

  lemma StoredIsStillFresh(round: Round, before: set<string>, relays: set<string>, start: real, fp: string)
    requires StoredInTime(round, before, relays, start) && fp in relays && fp in before
    ensures exists r :: r in Get(round.Given().results, fp)
                        && r.time > round.clock(fp) - round.freshDays as real * DAY
  {
    LoggedOf(round.log, fp);
    var k :| 0 <= k < |round.log| && round.log[k].result in Filter(Logged(round.log), Of(fp));
    var r := round.log[k].result;
    StoredFor(round, before, relays, start, fp);
    StaysInFilter(round, before, relays, start, Filter(Logged(round.log), Of(fp)), r);
    assert r in Get(round.Given().results, fp);
  }

  lemma StaysInFilter(round: Round, before: set<string>, relays: set<string>, start: real, rs: seq<Result>, r: Result)
    requires StoredInTime(round, before, relays, start) && round.log != [] && r in rs && r.time >= start
    ensures r in Filter(rs, IsFresh(OldestAllowed(round.freshDays, round.log[|round.log| - 1].now)))
  {
    FilterMembers(rs, IsFresh(OldestAllowed(round.freshDays, round.log[|round.log| - 1].now)));
  }

  lemma NothingStored(round: Round, before: set<string>, relays: set<string>, start: real, fp: string)
    requires StoredInTime(round, before, relays, start) && fp in relays && fp !in before
    ensures Get(round.Given().results, fp) == []
  {
    if round.log != [] {
      LoggedOf(round.log, fp);
      StoredFor(round, before, relays, start, fp);
    }
  }

  /** In a run shorter than the data period that started from an empty store, at every round
      the relays returned before have a result that is still fresh, and the others none. */
  lemma ShortRunIsMeasuredInTime(round: Round, before: set<string>, relays: set<string>, start: real)
    requires StoredInTime(round, before, relays, start)
    ensures MeasuredInTime(round.Given(), before, relays)
  {
    forall fp | fp in relays
      ensures if fp in before then
                exists r :: r in Get(round.Given().results, fp)
                            && r.time > round.clock(fp) - round.freshDays as real * DAY
              else Get(round.Given().results, fp) == []
    {
      if fp in before {
        StoredIsStillFresh(round, before, relays, start, fp);
      } else {
        NothingStored(round, before, relays, start, fp);
      }
    }
  }

  /** A round that leaves an unmeasured relay out returns only unmeasured relays. */
  lemma UnmeasuredComeFirst(round: Round, before: set<string>, relays: set<string>, limit: nat, start: real,
                          fp: string, g: string)
    requires RoundOk(round, before, relays, limit, start)
    requires fp in relays - before && fp !in round.returned
    requires g in round.returned
    ensures g !in before
  {
    var i :| 0 <= i < |round.returned| && round.returned[i] == g;
    assert g in SetOf(round.returned);
    ShortRunIsMeasuredInTime(round, before, relays, start);
    var inputs := round.Given();
    assert inputs.PriorityOf(g) <= inputs.PriorityOf(fp) == 0.0;
    PriorityIsPositive(Get(inputs.results, g), inputs.clock(g) - inputs.freshSeconds, inputs.prioritizeErrors);
  }

  predicate Covers(returned: set<string>, relays: set<string>) { relays <= returned }

  /** All relays have been returned, or as many as the quota. */
  predicate Progress(returned: set<string>, relays: set<string>, quota: nat) {
    Covers(returned, relays) || |relays - returned| + quota == |relays|
  }

  /** A round that leaves an unmeasured relay out returns `limit` new relays. */
  lemma RoundShrinks(round: Round, before: set<string>, relays: set<string>, limit: nat, start: real, fp: string)
    requires RoundOk(round, before, relays, limit, start)
    requires fp in relays - before && fp !in SetOf(round.returned)
    ensures SetOf(round.returned) <= relays - before && |SetOf(round.returned)| == limit
  {
    var returned := SetOf(round.returned);
    forall g | g in returned ensures g in relays - before {
      UnmeasuredComeFirst(round, before, relays, limit, start, fp, g);
    }
    SetOfLength(round.returned);
    assert fp in relays - returned;
    assert |relays - returned| == |relays| - |returned|;
  }

  lemma RemovedSize(relays: set<string>, before: set<string>, returned: set<string>)
    requires returned <= relays - before
    ensures |relays - (before + returned)| == |relays - before| - |returned|
  {
    assert relays - (before + returned) == (relays - before) - returned;
  }

  lemma RoundProgresses(round: Round, before: set<string>, relays: set<string>, limit: nat, start: real, quota: nat)
    requires RoundOk(round, before, relays, limit, start)
    requires Progress(before, relays, quota)
    ensures Progress(before + SetOf(round.returned), relays, quota + limit)
  {
    var returned := SetOf(round.returned);
    if fp :| fp in relays && fp !in before + returned {
      assert fp in relays - before;
      RoundShrinks(round, before, relays, limit, start, fp);
      RemovedSize(relays, before, returned);
    } else {
      assert Covers(before + returned, relays);
    }
  }

  lemma EnoughProgressCovers(returned: set<string>, relays: set<string>, quota: nat)
    requires Progress(returned, relays, quota) && quota >= |relays|
    ensures Covers(returned, relays)
  {
    if relays - returned == {} {
      forall fp | fp in relays ensures fp in returned { assert fp !in relays - returned; }
    }
  }

  /** How many relays k rounds return. */
  function Quota(k: nat, limit: nat): nat { k * limit }

  lemma QuotaStep(k: nat, limit: nat)
    ensures Quota(k + 1, limit) == Quota(k, limit) + limit
  {
  }

  lemma {:induction false} CoverageGrows(rounds: seq<Round>, relays: set<string>, limit: nat, start: real)
    requires Scheduled(rounds, relays, limit, start)
    ensures Progress(ReturnedIn(rounds), relays, Quota(|rounds|, limit))
  {
    if rounds == [] {
      assert relays - {} == relays;
    } else {
      var n := |rounds| - 1;
      CoverageGrows(rounds[..n], relays, limit, start);
      RoundProgresses(rounds[n], ReturnedIn(rounds[..n]), relays, limit, start, Quota(n, limit));
      QuotaStep(n, limit);
    }
  }

  /** After ceil(n / limit) rounds every relay has been returned. */
  lemma EveryRelayIsReturned(rounds: seq<Round>, relays: set<string>, limit: nat, start: real)
    requires Scheduled(rounds, relays, limit, start) && Quota(|rounds|, limit) >= |relays|
    ensures Covers(ReturnedIn(rounds), relays)
  {
    CoverageGrows(rounds, relays, limit, start);
    EnoughProgressCovers(ReturnedIn(rounds), relays, Quota(|rounds|, limit));
  }
}
