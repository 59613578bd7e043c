/** Choosing the two hops of a measurement circuit: which position the measured relay
    takes, which relays may help, and the retry with the positions exchanged. */
module Circuits {
  import opened RelayLists
  import opened Sequences
  import opened Wrappers

  /** What the choice reads of the network: the list of relays, the consensus
      parameters and the minimum bandwidths of second hops. */
  datatype Network = Network(relays: seq<Relay>, params: map<string, int>, testing: bool,
                             exitMinBw: int, nonExitMinBw: int)
  {
    function Param(name: string): int { if name in params then params[name] else 0 }

    predicate IsConsensusCcAlg2() { Param("cc_alg") == 2 }

    predicate IsConsensusBwscannerCcGte1() { Param("bwscanner_cc") >= 1 }

    predicate IsConsensusBwscannerCc2() { Param("bwscanner_cc") == 2 }

    function ExitsNotBadAllowingPort(port: int): seq<Relay> {
      Filter(Exits(relays), IsGoodExit(port))
    }

    /** In a testing network with no such exit, any relay with the exit flag will do. */
    function ExitsWith2InFlowCtrl(port: int): seq<Relay> {
      var exits := Filter(ExitsNotBadAllowingPort(port), WithFlowCtrl2());
      if exits == [] && testing then Filter(Exits(relays), WithFlowCtrl2()) else exits
    }

    function ExitsWithout2InFlowCtrl(port: int): seq<Relay> {
      Filter(ExitsNotBadAllowingPort(port), WithoutFlowCtrl2())
    }
  }

  predicate UseRelayAsEntry(relay: Relay, net: Network, port: int) {
    if net.IsConsensusCcAlg2() then
      if net.IsConsensusBwscannerCcGte1() then
        !(relay.IsExitNotBadAllowingPort(port) && relay.HasFlowCtrl2())
      else
        !(relay.IsExitNotBadAllowingPort(port) && !relay.HasFlowCtrl2())
    else
      !relay.IsExitNotBadAllowingPort(port)
  }

  function SelectHelperCandidates(relay: Relay, net: Network, port: int, relayAsEntry: bool): seq<Relay> {
    var candidates :=
      if net.IsConsensusCcAlg2() then
        if net.IsConsensusBwscannerCcGte1() then
          if relay.IsExitNotBadAllowingPort(port) && relay.HasFlowCtrl2() && !relayAsEntry
          then NonExits(net.relays) else net.ExitsWith2InFlowCtrl(port)
        else
          if relay.IsExitNotBadAllowingPort(port) && !relay.HasFlowCtrl2() && !relayAsEntry
          then NonExits(net.relays) else net.ExitsWithout2InFlowCtrl(port)
      else
        if relay.IsExitNotBadAllowingPort(port) && !relayAsEntry
        then NonExits(net.relays) else net.ExitsNotBadAllowingPort(port);
    if relayAsEntry then candidates
    else Filter(candidates, (c: Relay) => c.Fingerprint() != relay.Fingerprint())
  }

  // ----- Who may exit

  /** What the relay in exit position must be, outside a testing network. */
  predicate SuitableExit(net: Network, port: int, r: Relay) {
    && r.IsExitNotBadAllowingPort(port)
    && (net.IsConsensusCcAlg2() ==> (r.HasFlowCtrl2() <==> net.IsConsensusBwscannerCcGte1()))
  }

  /** What is left of that when a testing network falls back to any exit. */
  predicate TestingExit(net: Network, r: Relay) {
    && Exit in r.status.flags
    && (net.IsConsensusCcAlg2() ==> (r.HasFlowCtrl2() <==> net.IsConsensusBwscannerCcGte1()))
  }

  predicate AcceptableExit(net: Network, port: int, r: Relay) {
    if net.testing then TestingExit(net, r) else SuitableExit(net, port, r)
  }

  /** Whether there is an exit for congestion control without the testing network's fallback. */
  predicate FallsBack(net: Network, port: int) {
    && net.testing && net.IsConsensusCcAlg2() && net.IsConsensusBwscannerCcGte1()
    && forall r :: r in net.relays ==> !SuitableExit(net, port, r)
  }

  /** What a helper in exit position is, in any network. */
  predicate HelperExit(net: Network, port: int, r: Relay) {
    SuitableExit(net, port, r) || (FallsBack(net, port) && Exit in r.status.flags && r.HasFlowCtrl2())
  }

  /** What that comes to in the relay's status and descriptor and the consensus parameters. */
  lemma SuitableExactly(net: Network, port: int, r: Relay)
    ensures SuitableExit(net, port, r) <==>
              && {Exit} <= r.status.flags && BadExit !in r.status.flags
              && r.desc.Some? && r.desc.value.exitPorts.Some? && port in r.desc.value.exitPorts.value
              && ("cc_alg" in net.params && net.params["cc_alg"] == 2 ==>
                    (2 in r.desc.value.flowCtrl <==> "bwscanner_cc" in net.params && net.params["bwscanner_cc"] >= 1))
  {
  }

  /** A relay is measured as exit if and only if it is a suitable one. */
  lemma AsExitIffSuitable(relay: Relay, net: Network, port: int)
    ensures UseRelayAsEntry(relay, net, port) <==> !SuitableExit(net, port, relay)
  {
  }

  function IsGoodExit(port: int): Relay -> bool { (r: Relay) => r.IsExitNotBadAllowingPort(port) }

  function WithFlowCtrl2(): Relay -> bool { (r: Relay) => r.HasFlowCtrl2() }

  function WithoutFlowCtrl2(): Relay -> bool { (r: Relay) => !r.HasFlowCtrl2() }

  lemma ExitsMembers(net: Network, port: int)
    ensures forall r :: r in Exits(net.relays) <==> r in net.relays && Exit in r.status.flags
    ensures forall r :: r in net.ExitsNotBadAllowingPort(port)
              <==> r in net.relays && r.IsExitNotBadAllowingPort(port)
    ensures forall r :: r in net.ExitsWithout2InFlowCtrl(port)
              <==> r in net.relays && r.IsExitNotBadAllowingPort(port) && !r.HasFlowCtrl2()
  {
    FilterMembers(net.relays, HasExitFlag());
    FilterMembers(Exits(net.relays), IsGoodExit(port));
    FilterMembers(net.ExitsNotBadAllowingPort(port), WithoutFlowCtrl2());
  }

  lemma ExitsWith2Members(net: Network, port: int)
    ensures var some := exists o :: o in net.relays && o.IsExitNotBadAllowingPort(port) && o.HasFlowCtrl2();
            forall r :: r in net.ExitsWith2InFlowCtrl(port)
              <==> r in net.relays && r.HasFlowCtrl2()
                   && (r.IsExitNotBadAllowingPort(port) || (net.testing && !some && Exit in r.status.flags))
  {
    ExitsMembers(net, port);
    FilterMembers(Exits(net.relays), WithFlowCtrl2());
    FilterMembers(net.ExitsNotBadAllowingPort(port), WithFlowCtrl2());
    var exits := Filter(net.ExitsNotBadAllowingPort(port), WithFlowCtrl2());
    if exits != [] { assert exits[0] in exits; }
  }

  /** As entry, the candidates are exactly the suitable exits of the network, or those of
      the testing network's fallback. */
  lemma EntryCandidates(relay: Relay, net: Network, port: int)
    ensures forall c :: c in SelectHelperCandidates(relay, net, port, true)
              <==> c in net.relays && HelperExit(net, port, c)
    ensures forall c :: HelperExit(net, port, c) ==> AcceptableExit(net, port, c)
  {
    ExitsMembers(net, port);
    ExitsWith2Members(net, port);
  }

  /** As exit, the measured relay is suitable itself and its helpers are other relays
      that are not exits. */
  lemma ExitCandidates(relay: Relay, net: Network, port: int)
    requires !UseRelayAsEntry(relay, net, port)
    ensures SuitableExit(net, port, relay)
    ensures forall c :: c in SelectHelperCandidates(relay, net, port, false)
              <==> c in net.relays && Exit !in c.status.flags && c.Fingerprint() != relay.Fingerprint()
  {
    FilterMembers(net.relays, HasNoExitFlag());
    FilterMembers(NonExits(net.relays), (c: Relay) => c.Fingerprint() != relay.Fingerprint());
  }

  /** The list has the relay under its fingerprint, and that entry may be its helper. The
      measured relay is a copy taken earlier, so the entry may differ from it. */
  predicate ListedAsExit(relay: Relay, net: Network, port: int) {
    exists c :: c in net.relays && c.Fingerprint() == relay.Fingerprint() && HelperExit(net, port, c)
  }

  predicate OffersItself(relay: Relay, net: Network, port: int, relayAsEntry: bool) {
    exists c :: c in SelectHelperCandidates(relay, net, port, relayAsEntry)
                && c.Fingerprint() == relay.Fingerprint()
  }

  /** As entry, so at every retry, a relay is offered itself as helper exactly when the list
      has it as a suitable exit: nothing filters it out. */
  lemma RetryOffersRelayItself(relay: Relay, net: Network, port: int)
    ensures OffersItself(relay, net, port, true) <==> ListedAsExit(relay, net, port)
  {
    EntryCandidates(relay, net, port);
  }

  /** The first attempt offers a relay itself exactly when it is measured as entry although
      the list by now has it as a suitable exit. */
  lemma FirstAttemptOffersItselfIff(relay: Relay, net: Network, port: int)
    ensures OffersItself(relay, net, port, UseRelayAsEntry(relay, net, port))
       <==> UseRelayAsEntry(relay, net, port) && ListedAsExit(relay, net, port)
  {
    EntryCandidates(relay, net, port);
    if !UseRelayAsEntry(relay, net, port) { ExitCandidates(relay, net, port); }
  }

  /** The measured copy is what the list still has, where the list has it. */
  predicate SameSnapshot(relay: Relay, net: Network) {
    forall c :: c in net.relays && c.Fingerprint() == relay.Fingerprint() ==>
      c.status == relay.status && c.desc == relay.desc
  }

  /** Outside a testing network a copy that is up to date is not offered itself at first,
      and is at the retry if the list has it. */
  lemma UpToDateCopies(relay: Relay, net: Network, port: int)
    requires SameSnapshot(relay, net) && !net.testing
    ensures !OffersItself(relay, net, port, UseRelayAsEntry(relay, net, port))
    ensures !UseRelayAsEntry(relay, net, port) ==>
              (OffersItself(relay, net, port, true)
               <==> exists c :: c in net.relays && c.Fingerprint() == relay.Fingerprint())
  {
    FirstAttemptOffersItselfIff(relay, net, port);
    RetryOffersRelayItself(relay, net, port);
    if !UseRelayAsEntry(relay, net, port) {
      ExitCandidates(relay, net, port);
      if c :| c in net.relays && c.Fingerprint() == relay.Fingerprint() { assert HelperExit(net, port, c); }
    }
  }

  // ----- Picking a helper

  const LADDER := [2.0, 1.75, 1.5, 1.25, 1.0]

  /** The bandwidth asked of a helper on one rung of the ladder. */
  function RungBw(relay: Relay, net: Network, relayAsEntry: bool, factor: real): real {
    var minBw := Bandwidth(relay) * factor;
    var minRelayBw := (if relayAsEntry then net.exitMinBw else net.nonExitMinBw) as real;
    if minBw < minRelayBw then minRelayBw else minBw
  }

  function FastEnough(bw: real): Relay -> bool { (r: Relay) => Bandwidth(r) >= bw }

  /** Some candidate is fast enough for the i-th rung. */
  predicate RungMet(relay: Relay, net: Network, relayAsEntry: bool, candidates: seq<Relay>, i: nat)
    requires i < |LADDER|
  {
    exists c :: c in candidates && Bandwidth(c) >= RungBw(relay, net, relayAsEntry, LADDER[i])
  }

  /** A helper good enough for the highest rung any candidate meets, or else the fastest. */
  ghost predicate IdealHelper(relay: Relay, net: Network, relayAsEntry: bool, candidates: seq<Relay>, h: Relay) {
    && h in candidates
    && (forall i :: 0 <= i < |LADDER| && RungMet(relay, net, relayAsEntry, candidates, i)
                    && (forall j :: 0 <= j < i ==> !RungMet(relay, net, relayAsEntry, candidates, j))
          ==> Bandwidth(h) >= RungBw(relay, net, relayAsEntry, LADDER[i]))
    && ((forall i :: 0 <= i < |LADDER| ==> !RungMet(relay, net, relayAsEntry, candidates, i))
          ==> forall c :: c in candidates ==> Bandwidth(c) <= Bandwidth(h))
  }

  /** As fast as a multiple of the relay, and as what the other position asks. */
  predicate MeetsFactor(relay: Relay, net: Network, relayAsEntry: bool, c: Relay, factor: real) {
    && c.ConsensusBandwidth() as real >= factor * relay.ConsensusBandwidth() as real
    && c.ConsensusBandwidth() >= if relayAsEntry then net.exitMinBw else net.nonExitMinBw
  }

  predicate SomeMeets(relay: Relay, net: Network, relayAsEntry: bool, candidates: seq<Relay>, factor: real) {
    exists c :: c in candidates && MeetsFactor(relay, net, relayAsEntry, c, factor)
  }

  lemma RungMeets(relay: Relay, net: Network, relayAsEntry: bool, c: Relay, factor: real)
    ensures Bandwidth(c) >= RungBw(relay, net, relayAsEntry, factor)
       <==> MeetsFactor(relay, net, relayAsEntry, c, factor)
  {
  }

  lemma RungMetIff(relay: Relay, net: Network, relayAsEntry: bool, candidates: seq<Relay>, i: nat)
    requires i < |LADDER|
    ensures RungMet(relay, net, relayAsEntry, candidates, i)
       <==> SomeMeets(relay, net, relayAsEntry, candidates, LADDER[i])
  {
    forall c ensures Bandwidth(c) >= RungBw(relay, net, relayAsEntry, LADDER[i])
                <==> MeetsFactor(relay, net, relayAsEntry, c, LADDER[i])
    {
      RungMeets(relay, net, relayAsEntry, c, LADDER[i]);
    }
  }

  /** An ideal helper meets the largest of these factors that any candidate meets, and is the
      fastest when none is met. */
  ghost predicate MeetsLargest(relay: Relay, net: Network, relayAsEntry: bool, candidates: seq<Relay>, h: Relay) {
    if SomeMeets(relay, net, relayAsEntry, candidates, 2.0) then MeetsFactor(relay, net, relayAsEntry, h, 2.0)
    else if SomeMeets(relay, net, relayAsEntry, candidates, 1.75) then MeetsFactor(relay, net, relayAsEntry, h, 1.75)
    else if SomeMeets(relay, net, relayAsEntry, candidates, 1.5) then MeetsFactor(relay, net, relayAsEntry, h, 1.5)
    else if SomeMeets(relay, net, relayAsEntry, candidates, 1.25) then MeetsFactor(relay, net, relayAsEntry, h, 1.25)
    else if SomeMeets(relay, net, relayAsEntry, candidates, 1.0) then MeetsFactor(relay, net, relayAsEntry, h, 1.0)
    else forall c :: c in candidates ==> c.ConsensusBandwidth() <= h.ConsensusBandwidth()
  }

  /** Which of the five comes first, and that it holds. */
  lemma FirstOfFive(met: seq<bool>, holds: seq<bool>)
    requires |met| == |holds| == 5
    ensures (forall i :: 0 <= i < 5 && met[i] && (forall j :: 0 <= j < i ==> !met[j]) ==> holds[i])
       <==> if met[0] then holds[0] else if met[1] then holds[1] else if met[2] then holds[2]
            else if met[3] then holds[3] else met[4] ==> holds[4]
  {
    if i :| 0 <= i < 5 && met[i] && (forall j :: 0 <= j < i ==> !met[j]) && !holds[i] {
      assert i == 0 || i == 1 || i == 2 || i == 3 || i == 4;
    }
  }

  lemma LadderFactors()
    ensures |LADDER| == 5 && LADDER[0] == 2.0 && LADDER[1] == 1.75 && LADDER[2] == 1.5 && LADDER[3] == 1.25
    ensures LADDER[4] == 1.0
  {
  }

  ghost function RungsMet(relay: Relay, net: Network, relayAsEntry: bool, candidates: seq<Relay>): (met: seq<bool>)
    ensures |met| == |LADDER|
    ensures forall i :: 0 <= i < |met| ==> met[i] == RungMet(relay, net, relayAsEntry, candidates, i)
  {
    seq(|LADDER|, i requires 0 <= i < |LADDER| => RungMet(relay, net, relayAsEntry, candidates, i))
  }

  ghost function RungsOf(relay: Relay, net: Network, relayAsEntry: bool, h: Relay): (holds: seq<bool>)
    ensures |holds| == |LADDER|
    ensures forall i :: 0 <= i < |holds| ==> holds[i] == (Bandwidth(h) >= RungBw(relay, net, relayAsEntry, LADDER[i]))
  {
    seq(|LADDER|, i requires 0 <= i < |LADDER| => Bandwidth(h) >= RungBw(relay, net, relayAsEntry, LADDER[i]))
  }

  lemma IdealHelperByRungs(relay: Relay, net: Network, relayAsEntry: bool, candidates: seq<Relay>, h: Relay)
    ensures var met, holds := RungsMet(relay, net, relayAsEntry, candidates), RungsOf(relay, net, relayAsEntry, h);
            IdealHelper(relay, net, relayAsEntry, candidates, h)
            <==> && h in candidates
                 && (forall i :: 0 <= i < |met| && met[i] && (forall j :: 0 <= j < i ==> !met[j]) ==> holds[i])
                 && ((forall i :: 0 <= i < |met| ==> !met[i])
                       ==> forall c :: c in candidates ==> Bandwidth(c) <= Bandwidth(h))
  {
  }

  lemma NoneOfFive(met: seq<bool>)
    requires |met| == 5
    ensures (forall i :: 0 <= i < 5 ==> !met[i]) <==> !met[0] && !met[1] && !met[2] && !met[3] && !met[4]
  {
  }

  lemma Rung(relay: Relay, net: Network, relayAsEntry: bool, candidates: seq<Relay>, h: Relay, i: nat, factor: real)
    requires i < |LADDER| && LADDER[i] == factor
    ensures RungsMet(relay, net, relayAsEntry, candidates)[i]
         == SomeMeets(relay, net, relayAsEntry, candidates, factor)
    ensures RungsOf(relay, net, relayAsEntry, h)[i] == MeetsFactor(relay, net, relayAsEntry, h, factor)
  {
    RungMetIff(relay, net, relayAsEntry, candidates, i);
    RungMeets(relay, net, relayAsEntry, h, factor);
  }

  lemma IdealHelperIff(relay: Relay, net: Network, relayAsEntry: bool, candidates: seq<Relay>, h: Relay)
    ensures IdealHelper(relay, net, relayAsEntry, candidates, h)
       <==> h in candidates && MeetsLargest(relay, net, relayAsEntry, candidates, h)
  {
    LadderFactors();
    IdealHelperByRungs(relay, net, relayAsEntry, candidates, h);
    FirstOfFive(RungsMet(relay, net, relayAsEntry, candidates), RungsOf(relay, net, relayAsEntry, h));
    NoneOfFive(RungsMet(relay, net, relayAsEntry, candidates));
    Rung(relay, net, relayAsEntry, candidates, h, 0, 2.0);
    Rung(relay, net, relayAsEntry, candidates, h, 1, 1.75);
    Rung(relay, net, relayAsEntry, candidates, h, 2, 1.5);
    Rung(relay, net, relayAsEntry, candidates, h, 3, 1.25);
    Rung(relay, net, relayAsEntry, candidates, h, 4, 1.0);
  }

  /** One rung: any candidate that is fast enough for it. */
  method TryRung(candidates: seq<Relay>, minBw: real) returns (chosen: Option<Relay>)
    ensures chosen.None? <==> forall c :: c in candidates ==> Bandwidth(c) < minBw
    ensures chosen.Some? ==> chosen.value in candidates && Bandwidth(chosen.value) >= minBw
  {
    var newCandidates := Filter(candidates, FastEnough(minBw));
    FilterMembers(candidates, FastEnough(minBw));
    if newCandidates == [] { return None; }
    var k :| 0 <= k < |newCandidates|;
    assert newCandidates[k] in newCandidates;
    chosen := Some(newCandidates[k]);
  }

  function Slowness(r: Relay): real { -Bandwidth(r) }

  lemma FirstIsFastest(candidates: seq<Relay>)
    requires candidates != []
    ensures var fastest := StableSort(candidates, Slowness)[0];
            fastest in candidates && forall c :: c in candidates ==> Bandwidth(c) <= Bandwidth(fastest)
  {
    var fastestFirst := StableSort(candidates, Slowness);
    assert fastestFirst[0] in multiset(fastestFirst);
    forall c | c in candidates ensures Slowness(fastestFirst[0]) <= Slowness(c) {
      assert c in multiset(fastestFirst);
      var k :| 0 <= k < |fastestFirst| && fastestFirst[k] == c;
      assert k > 0 ==> Slowness(fastestFirst[0]) <= Slowness(fastestFirst[k]);
    }
  }

  method PickIdealSecondHop(relay: Relay, net: Network, relayAsEntry: bool, candidates: seq<Relay>)
    returns (helper: Relay)
    requires candidates != []
    ensures IdealHelper(relay, net, relayAsEntry, candidates, helper)
    ensures helper in candidates && MeetsLargest(relay, net, relayAsEntry, candidates, helper)
  {
    helper := FirstRungHelper(relay, net, relayAsEntry, candidates);
    IdealHelperIff(relay, net, relayAsEntry, candidates, helper);
  }

  /** The rungs one after the other, and then the fastest. */
  method FirstRungHelper(relay: Relay, net: Network, relayAsEntry: bool, candidates: seq<Relay>)
    returns (helper: Relay)
    requires candidates != []
    ensures IdealHelper(relay, net, relayAsEntry, candidates, helper)
  {
    var i := 0;
    while i < |LADDER|
      invariant i <= |LADDER|
      invariant forall j :: 0 <= j < i ==> !RungMet(relay, net, relayAsEntry, candidates, j)
    {
      var chosen := TryRung(candidates, RungBw(relay, net, relayAsEntry, LADDER[i]));
      if chosen.Some? {
        assert RungMet(relay, net, relayAsEntry, candidates, i);
        return chosen.value;
      }
      i := i + 1;
    }
    FirstIsFastest(candidates);
    helper := StableSort(candidates, Slowness)[0];
  }

  datatype Path = Path(entry: Relay, exit: Relay)

  /** None stands for the error that no helper was found. */
  method CreatePathRelay(relay: Relay, net: Network, port: int, relayAsEntry: bool, candidates: seq<Relay>)
    returns (path: Option<Path>)
    ensures path.None? <==> candidates == []
    ensures path.Some? && candidates == SelectHelperCandidates(relay, net, port, relayAsEntry) ==>
              PathFor(relay, net, port, relayAsEntry, path.value)
  {
    if candidates == [] { return None; }
    var helper := PickIdealSecondHop(relay, net, relayAsEntry, candidates);
    path := Some(if relayAsEntry then Path(relay, helper) else Path(helper, relay));
  }

  /** The path has the measured relay in its position and an ideal helper in the other. */
  ghost predicate PathFor(relay: Relay, net: Network, port: int, relayAsEntry: bool, p: Path) {
    var helper := if relayAsEntry then p.exit else p.entry;
    && p == (if relayAsEntry then Path(relay, helper) else Path(helper, relay))
    && IdealHelper(relay, net, relayAsEntry, SelectHelperCandidates(relay, net, port, relayAsEntry), helper)
  }

  /** Either position of the measured relay leaves an acceptable exit at the end. */
  lemma PathExitsAcceptably(relay: Relay, net: Network, port: int, relayAsEntry: bool, p: Path)
    requires PathFor(relay, net, port, relayAsEntry, p)
    requires relayAsEntry || !UseRelayAsEntry(relay, net, port)
    ensures AcceptableExit(net, port, p.exit)
  {
    if relayAsEntry { EntryCandidates(relay, net, port); } else { ExitCandidates(relay, net, port); }
  }

  /** Whether some choice of an ideal helper gives a first path with one relay in it twice. */
  ghost predicate MayPairWithItself(relay: Relay, net: Network, port: int) {
    exists p :: PathFor(relay, net, port, UseRelayAsEntry(relay, net, port), p)
                && p.entry.Fingerprint() == p.exit.Fingerprint()
  }

  lemma FirstHopsOffered(relay: Relay, net: Network, port: int, p: Path)
    requires PathFor(relay, net, port, UseRelayAsEntry(relay, net, port), p)
    requires p.entry.Fingerprint() == p.exit.Fingerprint()
    ensures UseRelayAsEntry(relay, net, port) && ListedAsExit(relay, net, port)
  {
    FirstAttemptOffersItselfIff(relay, net, port);
  }

  /** The hops of the first attempt are always different relays exactly when the relay is
      measured as exit, or no entry the list has of it is an ideal helper for it. */
  lemma FirstHopsAreDistinct(relay: Relay, net: Network, port: int)
    ensures !MayPairWithItself(relay, net, port) <==>
              !UseRelayAsEntry(relay, net, port)
              || forall c :: c in net.relays && c.Fingerprint() == relay.Fingerprint() && HelperExit(net, port, c) ==>
                   !IdealHelper(relay, net, true, SelectHelperCandidates(relay, net, port, true), c)
  {
    EntryCandidates(relay, net, port);
    if MayPairWithItself(relay, net, port) {
      var p :| PathFor(relay, net, port, UseRelayAsEntry(relay, net, port), p)
               && p.entry.Fingerprint() == p.exit.Fingerprint();
      FirstHopsOffered(relay, net, port, p);
    }
    if UseRelayAsEntry(relay, net, port) {
      forall c | c in net.relays && c.Fingerprint() == relay.Fingerprint() && HelperExit(net, port, c)
                 && IdealHelper(relay, net, true, SelectHelperCandidates(relay, net, port, true), c)
        ensures MayPairWithItself(relay, net, port)
      {
        assert PathFor(relay, net, port, true, Path(relay, c));
      }
    }
  }

  /** A relay copied before it became an exit is paired with itself when it is the only one. */
  lemma OldCopyIsPairedWithItself(relay: Relay, listed: Relay, net: Network)
    requires relay == Relay(Status("A", {}, 1), listed.desc, []) && listed.status == Status("A", {Exit}, 1)
    requires listed.desc == Some(Descriptor(Some({443}), {}))
    requires net == Network([listed], map[], false, 0, 0)
    ensures UseRelayAsEntry(relay, net, 443) && MayPairWithItself(relay, net, 443)
  {
    EntryCandidates(relay, net, 443);
    assert listed in net.relays;
    var candidates := SelectHelperCandidates(relay, net, 443, true);
    assert forall c :: c in candidates ==> c == listed;
    assert listed in candidates;
    assert IdealHelper(relay, net, true, candidates, listed);
    FirstHopsAreDistinct(relay, net, 443);
  }

  // ----- Measuring a relay

  /** What building a circuit and connecting over it turns out to do. */
  datatype Attempt = CircuitFails | ConnectionFails | Connects

  datatype Outcome = NoHelper | NoCircuit | StreamError | Ready(path: Path)

  /** A relay measured as exit that could not reach the server is tried as entry, unless
      data is uploaded. */
  predicate Retries(relay: Relay, net: Network, port: int, first: Attempt) {
    !UseRelayAsEntry(relay, net, port) && first == ConnectionFails && !net.IsConsensusBwscannerCc2()
  }

  /** In the consensus parameters: a suitable exit that could not connect, unless the parameter
      says to upload. */
  lemma RetriesIff(relay: Relay, net: Network, port: int, first: Attempt)
    ensures Retries(relay, net, port, first) <==>
              && SuitableExit(net, port, relay) && first == ConnectionFails
              && !("bwscanner_cc" in net.params && net.params["bwscanner_cc"] == 2)
  {
    AsExitIffSuitable(relay, net, port);
  }

  /** Chooses the path, and once more with the relay as entry when it could not exit to
      the server; returns the paths it built circuits for. */
  method MeasureRelay(relay: Relay, net: Network, port: int, first: Attempt, second: Attempt)
    returns (outcome: Outcome, paths: seq<Path>)
    ensures |paths| <= 2
    ensures forall p :: p in paths ==> AcceptableExit(net, port, p.exit)
    ensures |paths| > 0 ==> PathFor(relay, net, port, UseRelayAsEntry(relay, net, port), paths[0])
    ensures |paths| > 0 && paths[0].entry.Fingerprint() == paths[0].exit.Fingerprint() ==>
              UseRelayAsEntry(relay, net, port) && ListedAsExit(relay, net, port)
    ensures |paths| == 2 ==> Retries(relay, net, port, first) && PathFor(relay, net, port, true, paths[1])
    ensures outcome.Ready? ==> paths != [] && outcome.path == paths[|paths| - 1]
    ensures |paths| > 0 ==> (outcome.Ready? <==> (if |paths| == 2 then second else first) == Connects)
    ensures |paths| > 0 && !outcome.NoHelper? ==>
              var last := if |paths| == 2 then second else first;
              (outcome.NoCircuit? <==> last == CircuitFails) && (outcome.StreamError? <==> last == ConnectionFails)
    ensures |paths| == (if SelectHelperCandidates(relay, net, port, UseRelayAsEntry(relay, net, port)) == [] then 0
                        else if Retries(relay, net, port, first) && SelectHelperCandidates(relay, net, port, true) != []
                        then 2 else 1)
    ensures outcome.NoHelper? <==>
              || SelectHelperCandidates(relay, net, port, UseRelayAsEntry(relay, net, port)) == []
              || (Retries(relay, net, port, first) && SelectHelperCandidates(relay, net, port, true) == [])
  {
    paths := [];
    var relayAsEntry := UseRelayAsEntry(relay, net, port);
    var candidates := SelectHelperCandidates(relay, net, port, relayAsEntry);
    var path := CreatePathRelay(relay, net, port, relayAsEntry, candidates);
    if path.None? { return NoHelper, paths; }
    PathExitsAcceptably(relay, net, port, relayAsEntry, path.value);
    if path.value.entry.Fingerprint() == path.value.exit.Fingerprint() {
      FirstHopsOffered(relay, net, port, path.value);
    }
    paths := [path.value];
    if first == CircuitFails { return NoCircuit, paths; }
    if net.IsConsensusBwscannerCc2() {
      // Data is uploaded over this circuit; there is no retry.
      return (if first == ConnectionFails then StreamError else Ready(path.value)), paths;
    }
    var isUsable := first == Connects;
    if !isUsable && !relayAsEntry {
      relayAsEntry := true;
      candidates := SelectHelperCandidates(relay, net, port, relayAsEntry);
      path := CreatePathRelay(relay, net, port, relayAsEntry, candidates);
      if path.None? { return NoHelper, paths; }
      PathExitsAcceptably(relay, net, port, relayAsEntry, path.value);
      paths := paths + [path.value];
      if second == CircuitFails { return NoCircuit, paths; }
      isUsable := second == Connects;
    }
    if !isUsable { return StreamError, paths; }
    outcome := Ready(path.value);
  }
}
