/** The list of relays of the last consensus, with the consensuses each was in. */
module RelayLists {
  import opened Sequences
  import opened Timestamps
  import opened Wrappers

  const MAX_RECENT_CONSENSUS_COUNT: nat := 120

  datatype Flag = Exit | BadExit | Guard | Fast | Authority | Other(name: string)

  /** The router status of a relay in a consensus. */
  datatype Status = Status(fingerprint: string, flags: set<Flag>, bandwidth: int)

  /** A server descriptor; without exit policy the relay cannot exit. */
  datatype Descriptor = Descriptor(exitPorts: Option<set<int>>, flowCtrl: set<int>)

  datatype Relay = Relay(status: Status, desc: Option<Descriptor>, inConsensus: seq<real>) {

    function Fingerprint(): string { status.fingerprint }

    /** In bytes; the consensus has kilobytes. */
    function ConsensusBandwidth(): int { status.bandwidth * 1000 }

    predicate HasFlowCtrl2() { desc.Some? && 2 in desc.value.flowCtrl }

    predicate CanExitToPort(port: int) {
      desc.Some? && desc.value.exitPorts.Some? && port in desc.value.exitPorts.value
    }

    predicate IsExitNotBadAllowingPort(port: int) {
      BadExit !in status.flags && Exit in status.flags && CanExitToPort(port)
    }
  }

  // ----- One refresh

  /** `dict([(r.fingerprint, r) for r in statuses])`: the last status of a relay wins. */
  function ByFingerprint(statuses: seq<Status>): (d: map<string, Status>)
    ensures d.Keys == set s | s in statuses :: s.fingerprint
    ensures forall fp :: fp in d ==> d[fp].fingerprint == fp
  {
    if statuses == [] then map[]
    else
      var last := |statuses| - 1;
      assert statuses == statuses[..last] + [statuses[last]];
      ByFingerprint(statuses[..last])[statuses[last].fingerprint := statuses[last]]
  }

  /** The keys of that dictionary, in the order of their first occurrence. */
  function KeyOrder(statuses: seq<Status>): (fps: seq<string>)
    ensures SetOf(fps) == ByFingerprint(statuses).Keys
    ensures Unique(fps)
  {
    if statuses == [] then []
    else
      var last := |statuses| - 1;
      var before := KeyOrder(statuses[..last]);
      assert statuses == statuses[..last] + [statuses[last]];
      if statuses[last].fingerprint in before then before else before + [statuses[last].fingerprint]
  }

  /** Of two keys, the one that is listed first comes first. */
  lemma {:induction false} KeyOrderIsFirstListed(statuses: seq<Status>, i: nat, j: nat)
    requires i < j < |KeyOrder(statuses)|
    ensures exists k :: 0 <= k < |statuses| && statuses[k].fingerprint == KeyOrder(statuses)[i]
                        && forall m :: 0 <= m <= k ==> statuses[m].fingerprint != KeyOrder(statuses)[j]
  {
    var n := |statuses| - 1;
    var before, order := KeyOrder(statuses[..n]), KeyOrder(statuses);
    if j < |before| {
      KeyOrderIsFirstListed(statuses[..n], i, j);
      var k :| 0 <= k < n && statuses[..n][k].fingerprint == before[i]
               && forall m :: 0 <= m <= k ==> statuses[..n][m].fingerprint != before[j];
      forall m | 0 <= m <= k ensures statuses[m].fingerprint != order[j] { assert statuses[..n][m] == statuses[m]; }
      assert statuses[k].fingerprint == order[i];
    } else {
      assert before[i] in SetOf(before);
      var k :| 0 <= k < n && statuses[..n][k].fingerprint == before[i];
      forall m | 0 <= m <= k ensures statuses[m].fingerprint != order[j] {
        assert statuses[m] in statuses[..n];
        assert statuses[m].fingerprint in SetOf(before);
      }
      assert statuses[k].fingerprint == order[i];
    }
  }

  function Fingerprints(relays: seq<Relay>): seq<string> { Map(relays, (r: Relay) => r.Fingerprint()) }

  /** What a refresh is given: the statuses and descriptors of the consensus, its
      valid-after time, and the clock when the list and when each relay is updated. */
  datatype Consensus = Consensus(statuses: seq<Status>, descs: map<string, Descriptor>, validAfter: real,
                                 now: real, clock: map<string, real>)
  {
    function ClockOf(fp: string): (t: real)
      ensures t >= now && (fp in clock && clock[fp] >= now ==> t == clock[fp])
    {
      if fp in clock && clock[fp] >= now then clock[fp] else now
    }

    function DescOf(fp: string): Option<Descriptor> { if fp in descs then Some(descs[fp]) else None }
  }

  function Seen(window: seq<real>, now: real, validAfter: real): seq<real> {
    Updated(window, Some(MAX_RECENT_CONSENSUS_COUNT), now, validAfter, Itself)
  }

  /** Consensuses are counted for five days, but no more than 120 of them. */
  lemma SeenExactly(window: seq<real>, now: real, validAfter: real)
    ensures Seen(window, now, validAfter) == LastN(DropOld(window, now, Itself) + [validAfter], Some(120))
  {
  }

  /** A relay of the previous list that is in the new consensus. */
  function Kept(r: Relay, status: Status, c: Consensus): Relay {
    Relay(status, c.DescOf(r.Fingerprint()), Seen(r.inConsensus, c.ClockOf(r.Fingerprint()), c.validAfter))
  }

  /** A relay that was not in the previous list. */
  function New(status: Status, c: Consensus): Relay {
    Relay(status, c.DescOf(status.fingerprint), Seen([], c.ClockOf(status.fingerprint), c.validAfter))
  }

  /** a is the end of b. */
  predicate Suffix(a: seq<real>, b: seq<real>) { |a| <= |b| && b[|b| - |a|..] == a }

  /** A relay cannot have been in more consensuses than were seen: updating a suffix of
      the list's window, at the same time or later, leaves a suffix of it. */
  lemma SeenKeepsSuffix(window: seq<real>, all: seq<real>, now: real, later: real, validAfter: real)
    requires Ascending(all, Itself) && Suffix(window, all) && now <= later
    ensures Suffix(Seen(window, later, validAfter), Seen(all, now, validAfter))
  {
    var maxlen := Some(MAX_RECENT_CONSENSUS_COUNT);
    UpdatedIsSuffix(all, |all| - |window|, maxlen, later, validAfter, Itself);
    UpdatedIsSuffix(all, 0, maxlen, now, validAfter, Itself);
    assert all[0..] == all;
    StartGrows(all, |all| - |window|, maxlen, now, later, Itself);
    LaterStartIsSuffix(all + [validAfter], StartAfter(all, 0, maxlen, now, Itself),
                       StartAfter(all, |all| - |window|, maxlen, later, Itself));
  }

  lemma StartGrows(all: seq<real>, s: nat, maxlen: Option<nat>, now: real, later: real, stamp: real -> real)
    requires now <= later
    ensures StartAfter(all, 0, maxlen, now, stamp) <= StartAfter(all, s, maxlen, later, stamp)
  {
    OldCountGrows(all, |all|, now, later, stamp);
    assert all[..|all|] == all;
  }

  lemma LaterStartIsSuffix(xs: seq<real>, i: nat, j: nat)
    requires i <= j <= |xs|
    ensures Suffix(xs[j..], xs[i..])
  {
  }

  lemma SeenStaysAscending(all: seq<real>, now: real, validAfter: real)
    requires Ascending(all + [validAfter], Itself)
    ensures Ascending(Seen(all, now, validAfter), Itself)
    ensures Seen(all, now, validAfter) != []
    ensures Seen(all, now, validAfter)[|Seen(all, now, validAfter)| - 1] == validAfter
  {
    assert Ascending(all, Itself) by { assert forall i :: 0 <= i < |all| ==> all[i] == (all + [validAfter])[i]; }
    UpdatedIsSuffix(all, 0, Some(MAX_RECENT_CONSENSUS_COUNT), now, validAfter, Itself);
    assert all[0..] == all;
  }

  function InSet(fps: set<string>): string -> bool { (fp: string) => fp in fps }

  function NotInSet(fps: set<string>): string -> bool { (fp: string) => fp !in fps }

  function KeptRelays(prev: seq<Relay>, d: map<string, Status>, c: Consensus): seq<Relay> {
    if prev == [] then []
    else
      var last := prev[|prev| - 1];
      KeptRelays(prev[..|prev| - 1], d, c)
      + if last.Fingerprint() in d then [Kept(last, d[last.Fingerprint()], c)] else []
  }

  function NewRelays(order: seq<string>, d: map<string, Status>, known: set<string>, c: Consensus): seq<Relay> {
    if order == [] then []
    else
      var last := order[|order| - 1];
      NewRelays(order[..|order| - 1], d, known, c)
      + if last in d && last !in known then [New(d[last], c)] else []
  }

  lemma NextKept(prev: seq<Relay>, i: nat, d: map<string, Status>, c: Consensus)
    requires i < |prev| && Unique(Fingerprints(prev))
    ensures var fp, seen := prev[i].Fingerprint(), SetOf(Fingerprints(prev[..i]));
            && fp !in seen && SetOf(Fingerprints(prev[..i + 1])) == seen + {fp}
            && KeptRelays(prev[..i + 1], d, c)
               == KeptRelays(prev[..i], d, c) + if fp in d then [Kept(prev[i], d[fp], c)] else []
  {
    assert prev[..i + 1][..i] == prev[..i];
    assert Fingerprints(prev[..i + 1]) == Fingerprints(prev[..i]) + [prev[i].Fingerprint()];
    assert forall j :: 0 <= j < i ==> Fingerprints(prev)[j] != Fingerprints(prev)[i];
  }

  lemma NextNewRelay(order: seq<string>, j: nat, d: map<string, Status>, known: set<string>, c: Consensus)
    requires j < |order|
    ensures NewRelays(order[..j + 1], d, known, c)
         == NewRelays(order[..j], d, known, c)
            + if order[j] in d && order[j] !in known then [New(d[order[j]], c)] else []
  {
    assert order[..j + 1][..j] == order[..j];
  }

  /** The relays that stay, in their order, then the new ones in the consensus' order. */
  function Refreshed(prev: seq<Relay>, c: Consensus): seq<Relay> {
    var d := ByFingerprint(c.statuses);
    KeptRelays(prev, d, c) + NewRelays(KeyOrder(c.statuses), d, SetOf(Fingerprints(prev)), c)
  }

  lemma {:induction false} KeptFingerprints(prev: seq<Relay>, d: map<string, Status>, c: Consensus)
    requires forall fp :: fp in d ==> d[fp].fingerprint == fp
    ensures Fingerprints(KeptRelays(prev, d, c)) == Filter(Fingerprints(prev), InSet(d.Keys))
  {
    if prev != [] {
      var n := |prev| - 1;
      KeptFingerprints(prev[..n], d, c);
      assert Fingerprints(prev) == Fingerprints(prev[..n]) + [prev[n].Fingerprint()];
      FilterSnoc(Fingerprints(prev[..n]), prev[n].Fingerprint(), InSet(d.Keys));
    }
  }

  lemma {:induction false} NewFingerprints(order: seq<string>, d: map<string, Status>, known: set<string>, c: Consensus)
    requires forall fp :: fp in d ==> d[fp].fingerprint == fp
    requires forall fp :: fp in order ==> fp in d
    ensures Fingerprints(NewRelays(order, d, known, c)) == Filter(order, NotInSet(known))
  {
    if order != [] {
      var n := |order| - 1;
      NewFingerprints(order[..n], d, known, c);
      assert order == order[..n] + [order[n]];
      FilterSnoc(order[..n], order[n], NotInSet(known));
    }
  }

  lemma {:induction false} FilterUnique(fps: seq<string>, keep: string -> bool)
    requires Unique(fps)
    ensures Unique(Filter(fps, keep))
  {
    if fps != [] {
      FilterUnique(fps[1..], keep);
      FilterMembers(fps[1..], keep);
    }
  }

  lemma FingerprintsConcat(xs: seq<Relay>, ys: seq<Relay>)
    ensures Fingerprints(xs + ys) == Fingerprints(xs) + Fingerprints(ys)
  {
  }

  lemma UniqueConcat(xs: seq<string>, ys: seq<string>)
    requires Unique(xs) && Unique(ys)
    requires forall fp :: fp in xs ==> fp !in ys
    ensures Unique(xs + ys)
  {
    forall i, j | 0 <= i < j < |xs + ys| ensures (xs + ys)[i] != (xs + ys)[j] {
      if i < |xs| <= j { assert xs[i] in xs && ys[j - |xs|] in ys; }
    }
  }

  /** The list has exactly the relays of the consensus, each once: those it had, in
      their order, before the new ones, in the order of the consensus. */
  lemma RefreshedFingerprints(prev: seq<Relay>, c: Consensus)
    requires Unique(Fingerprints(prev))
    ensures var fps, listed := Fingerprints(Refreshed(prev, c)), ByFingerprint(c.statuses).Keys;
            && Unique(fps)
            && SetOf(fps) == listed
            && fps == Filter(Fingerprints(prev), InSet(listed))
                      + Filter(KeyOrder(c.statuses), NotInSet(SetOf(Fingerprints(prev))))
  {
    var d, order, known := ByFingerprint(c.statuses), KeyOrder(c.statuses), SetOf(Fingerprints(prev));
    KeptFingerprints(prev, d, c);
    forall fp | fp in order ensures fp in d { assert fp in SetOf(order); }
    NewFingerprints(order, d, known, c);
    FingerprintsConcat(KeptRelays(prev, d, c), NewRelays(order, d, known, c));
    RefreshedConcat(Fingerprints(prev), d.Keys, order);
  }

  lemma RefreshedConcat(prev: seq<string>, listed: set<string>, order: seq<string>)
    requires Unique(prev) && Unique(order) && SetOf(order) == listed
    ensures var fps := Filter(prev, InSet(listed)) + Filter(order, NotInSet(SetOf(prev)));
            Unique(fps) && SetOf(fps) == listed
  {
    var kept, added := Filter(prev, InSet(listed)), Filter(order, NotInSet(SetOf(prev)));
    FilterMembers(prev, InSet(listed));
    FilterMembers(order, NotInSet(SetOf(prev)));
    FilterUnique(prev, InSet(listed));
    FilterUnique(order, NotInSet(SetOf(prev)));
    UniqueConcat(kept, added);
    forall fp ensures fp in kept + added <==> fp in listed {
      assert fp in listed <==> fp in order;
      assert fp in prev <==> fp in SetOf(prev);
    }
  }

  lemma {:induction false} LastStatusWins(statuses: seq<Status>, i: nat)
    requires i < |statuses|
    requires forall j :: i < j < |statuses| ==> statuses[j].fingerprint != statuses[i].fingerprint
    ensures statuses[i].fingerprint in ByFingerprint(statuses)
    ensures ByFingerprint(statuses)[statuses[i].fingerprint] == statuses[i]
  {
    var last := |statuses| - 1;
    if i < last {
      assert statuses[..last][i] == statuses[i];
      LastStatusWins(statuses[..last], i);
    }
  }

  /** What a refreshed relay shows: status and descriptor of the consensus, whose time is
      the last in its window. */
  predicate UpToDate(r: Relay, d: map<string, Status>, c: Consensus) {
    && r.Fingerprint() in d && r.status == d[r.Fingerprint()] && (r.desc.Some? <==> r.Fingerprint() in c.descs)
    && (r.desc.Some? ==> r.desc.value == c.descs[r.Fingerprint()])
    && r.inConsensus != [] && r.inConsensus[|r.inConsensus| - 1] == c.validAfter
  }

  lemma {:induction false} KeptAreUpToDate(prev: seq<Relay>, d: map<string, Status>, c: Consensus)
    requires forall fp :: fp in d ==> d[fp].fingerprint == fp
    ensures forall r :: r in KeptRelays(prev, d, c) ==> UpToDate(r, d, c)
  {
    if prev != [] { KeptAreUpToDate(prev[..|prev| - 1], d, c); }
  }

  lemma {:induction false} NewAreUpToDate(order: seq<string>, d: map<string, Status>, known: set<string>, c: Consensus)
    requires forall fp :: fp in d ==> d[fp].fingerprint == fp
    ensures forall r :: r in NewRelays(order, d, known, c) ==> UpToDate(r, d, c)
  {
    if order != [] { NewAreUpToDate(order[..|order| - 1], d, known, c); }
  }

  /** Known or new, every relay of a refreshed list is up to date. */
  lemma RefreshedAreUpToDate(prev: seq<Relay>, c: Consensus)
    ensures forall r :: r in Refreshed(prev, c) ==> UpToDate(r, ByFingerprint(c.statuses), c)
  {
    var d := ByFingerprint(c.statuses);
    KeptAreUpToDate(prev, d, c);
    NewAreUpToDate(KeyOrder(c.statuses), d, SetOf(Fingerprints(prev)), c);
  }

  predicate SuffixesOf(relays: seq<Relay>, consensuses: seq<real>) {
    forall i :: 0 <= i < |relays| ==> Suffix(relays[i].inConsensus, consensuses)
  }

  lemma {:induction false} KeptSuffixes(prev: seq<Relay>, d: map<string, Status>, c: Consensus, all: seq<real>)
    requires Ascending(all, Itself) && SuffixesOf(prev, all)
    ensures SuffixesOf(KeptRelays(prev, d, c), Seen(all, c.now, c.validAfter))
  {
    if prev != [] {
      var r := prev[|prev| - 1];
      KeptSuffixes(prev[..|prev| - 1], d, c, all);
      SeenKeepsSuffix(r.inConsensus, all, c.now, c.ClockOf(r.Fingerprint()), c.validAfter);
    }
  }

  lemma {:induction false} NewSuffixes(order: seq<string>, d: map<string, Status>, known: set<string>,
                                       c: Consensus, all: seq<real>)
    requires Ascending(all, Itself)
    ensures SuffixesOf(NewRelays(order, d, known, c), Seen(all, c.now, c.validAfter))
  {
    if order != [] {
      var fp := order[|order| - 1];
      NewSuffixes(order[..|order| - 1], d, known, c, all);
      if fp in d {
        assert all[|all|..] == [];
        SeenKeepsSuffix([], all, c.now, c.ClockOf(d[fp].fingerprint), c.validAfter);
      }
    }
  }

  /** What holds of the list and its window of consensuses between refreshes. */
  ghost predicate Consistent(relays: seq<Relay>, consensuses: seq<real>) {
    && Ascending(consensuses, Itself)
    && Unique(Fingerprints(relays))
    && SuffixesOf(relays, consensuses)
  }

  /** The list has the relays of these statuses and no others. */
  predicate ListsExactly(relays: seq<Relay>, statuses: seq<Status>) {
    SetOf(Fingerprints(relays)) == set s | s in statuses :: s.fingerprint
  }

  /** Valid-after times do not decrease. */
  predicate Follows(validAfter: real, consensuses: seq<real>) {
    consensuses != [] ==> consensuses[|consensuses| - 1] <= validAfter
  }

  lemma AscendingExtends(all: seq<real>, validAfter: real)
    requires Ascending(all, Itself) && Follows(validAfter, all)
    ensures Ascending(all + [validAfter], Itself)
  {
    forall i | 0 <= i < |all| ensures all[i] <= validAfter {
      if i < |all| - 1 { assert Itself(all[i]) <= Itself(all[|all| - 1]); }
    }
  }

  lemma RefreshKeepsConsistent(prev: seq<Relay>, all: seq<real>, c: Consensus)
    requires Consistent(prev, all) && Follows(c.validAfter, all)
    ensures Consistent(Refreshed(prev, c), Seen(all, c.now, c.validAfter))
    ensures ListsExactly(Refreshed(prev, c), c.statuses)
    ensures forall later :: later >= c.validAfter <==> Follows(later, Seen(all, c.now, c.validAfter))
  {
    AscendingExtends(all, c.validAfter);
    SeenStaysAscending(all, c.now, c.validAfter);
    RefreshedFingerprints(prev, c);
    KeptSuffixes(prev, ByFingerprint(c.statuses), c, all);
    NewSuffixes(KeyOrder(c.statuses), ByFingerprint(c.statuses), SetOf(Fingerprints(prev)), c, all);
  }

  /** So the same consensus may come again. */
  lemma RefreshMayRepeat(prev: seq<Relay>, all: seq<real>, c: Consensus)
    requires Consistent(prev, all) && Follows(c.validAfter, all)
    ensures Consistent(Refreshed(prev, c), Seen(all, c.now, c.validAfter))
    ensures ListsExactly(Refreshed(prev, c), c.statuses)
    ensures Follows(c.validAfter, Seen(all, c.now, c.validAfter))
  {
    RefreshKeepsConsistent(prev, all, c);
  }

  // ----- Any run of refreshes

  datatype Listing = Listing(relays: seq<Relay>, consensuses: seq<real>)

  /** The list and its window after some refreshes, from the empty ones. */
  function AfterRefreshes(cs: seq<Consensus>): Listing {
    if cs == [] then Listing([], [])
    else
      var before, c := AfterRefreshes(cs[..|cs| - 1]), cs[|cs| - 1];
      Listing(Refreshed(before.relays, c), Seen(before.consensuses, c.now, c.validAfter))
  }

  predicate InOrder(cs: seq<Consensus>) {
    forall i, j :: 0 <= i < j < |cs| ==> cs[i].validAfter <= cs[j].validAfter
  }

  /** After any refreshes in order, every relay's window is a suffix of the list's, so no
      relay was in more consensuses than were seen, and the relays are those of the last
      consensus, each once. */
  lemma {:induction false} EveryListIsConsistent(cs: seq<Consensus>)
    requires InOrder(cs)
    ensures var l := AfterRefreshes(cs);
            && Consistent(l.relays, l.consensuses)
            && (forall r :: r in l.relays ==> |r.inConsensus| <= |l.consensuses|)
            && (cs != [] ==> ListsExactly(l.relays, cs[|cs| - 1].statuses)
                             && forall later :: later >= cs[|cs| - 1].validAfter <==> Follows(later, l.consensuses))
  {
    if cs != [] {
      var before, c := cs[..|cs| - 1], cs[|cs| - 1];
      EveryListIsConsistent(before);
      if before != [] { assert before[|before| - 1] == cs[|cs| - 2]; }
      RefreshKeepsConsistent(AfterRefreshes(before).relays, AfterRefreshes(before).consensuses, c);
    }
    NoMoreThanSeen(AfterRefreshes(cs));
  }

  lemma NoMoreThanSeen(l: Listing)
    requires SuffixesOf(l.relays, l.consensuses)
    ensures forall r :: r in l.relays ==> |r.inConsensus| <= |l.consensuses|
  {
  }

  class RelayList {
    var relays: seq<Relay>
    var recentConsensus: seq<real>
    var exitMinBw: int
    var nonExitMinBw: int

    ghost predicate Valid()
      reads this
    {
      Consistent(relays, recentConsensus)
    }

    /** Before the first refresh, which the source does while constructing. */
    constructor ()
      ensures Valid() && relays == [] && recentConsensus == []
      ensures exitMinBw == nonExitMinBw == 0
    {
      relays, recentConsensus, exitMinBw, nonExitMinBw := [], [], 0, 0;
    }

    /** What constructing does in all; None stands for the error of a consensus without exits. */
    static method Create(c: Consensus) returns (list: Option<RelayList>)
      ensures list.None? <==> Exits(Refreshed([], c)) == []
      ensures list.Some? ==>
                && fresh(list.value) && list.value.Valid()
                && list.value.relays == Refreshed([], c) && ListsExactly(list.value.relays, c.statuses)
                && list.value.recentConsensus == Seen([], c.now, c.validAfter)
                && list.value.exitMinBw == MinBwSecondHop(Exits(list.value.relays))
                && list.value.nonExitMinBw == if |NonExits(list.value.relays)| >= 4
                                              then MinBwSecondHop(NonExits(list.value.relays)) else 0
    {
      var l := new RelayList();
      var ok := l.Refresh(c);
      list := if ok then Some(l) else None;
    }

    method InitRelays(c: Consensus) returns (newRelays: seq<Relay>)
      requires Valid()
      modifies `recentConsensus
      ensures recentConsensus == Seen(old(recentConsensus), c.now, c.validAfter)
      ensures newRelays == Refreshed(relays, c)
    {
      var newRelaysDict := ByFingerprint(c.statuses);
      ghost var d := newRelaysDict;
      recentConsensus := Seen(recentConsensus, c.now, c.validAfter);
      newRelays, newRelaysDict := KeepRelays(relays, newRelaysDict, c);
      var added := AddNewRelays(newRelaysDict, d, SetOf(Fingerprints(relays)), c);
      newRelays := newRelays + added;
    }

    /** The relays of the previous list that are in the dictionary, which are taken out of it. */
    static method KeepRelays(prev: seq<Relay>, d: map<string, Status>, c: Consensus)
      returns (kept: seq<Relay>, left: map<string, Status>)
      requires Unique(Fingerprints(prev))
      ensures kept == KeptRelays(prev, d, c) && left == d - SetOf(Fingerprints(prev))
    {
      kept, left := [], d;
      var i := 0;
      while i < |prev|
        invariant i <= |prev|
        invariant kept == KeptRelays(prev[..i], d, c)
        invariant left == d - SetOf(Fingerprints(prev[..i]))
      {
        var fp := prev[i].Fingerprint();
        NextKept(prev, i, d, c);
        if fp in left {
          kept := kept + [Kept(prev[i], left[fp], c)];
          left := left - {fp};
        }
        i := i + 1;
      }
      assert prev[..i] == prev;
    }

    /** The relays left in the dictionary once the known ones have been taken out of it. */
    static method AddNewRelays(newRelaysDict: map<string, Status>, ghost d: map<string, Status>,
                               ghost known: set<string>, c: Consensus) returns (added: seq<Relay>)
      requires newRelaysDict == d - known
      ensures added == NewRelays(KeyOrder(c.statuses), d, known, c)
    {
      var order := KeyOrder(c.statuses);
      added := [];
      var j := 0;
      while j < |order|
        invariant j <= |order|
        invariant added == NewRelays(order[..j], d, known, c)
      {
        NextNewRelay(order, j, d, known, c);
        if order[j] in newRelaysDict { added := added + [New(newRelaysDict[order[j]], c)]; }
        j := j + 1;
      }
      assert order[..j] == order;
    }

    /** False stands for the IndexError of a consensus without exits, which comes after
        the list has been replaced. */
    method Refresh(c: Consensus) returns (ok: bool)
      requires Valid() && Follows(c.validAfter, recentConsensus)
      modifies this
      ensures Valid() && Follows(c.validAfter, recentConsensus)
      ensures relays == Refreshed(old(relays), c) && ListsExactly(relays, c.statuses)
      ensures recentConsensus == Seen(old(recentConsensus), c.now, c.validAfter)
      ensures ok <==> Exits(relays) != []
      ensures exitMinBw == if ok then MinBwSecondHop(Exits(relays)) else old(exitMinBw)
      ensures nonExitMinBw == if ok && |NonExits(relays)| >= 4 then MinBwSecondHop(NonExits(relays))
                              else old(nonExitMinBw)
    {
      ReplaceRelays(c);
      ok := CalculateMinBwSecondHop();
    }

    method ReplaceRelays(c: Consensus)
      requires Valid() && Follows(c.validAfter, recentConsensus)
      modifies `relays, `recentConsensus
      ensures Valid() && Follows(c.validAfter, recentConsensus)
      ensures relays == Refreshed(old(relays), c) && ListsExactly(relays, c.statuses)
      ensures recentConsensus == Seen(old(recentConsensus), c.now, c.validAfter)
    {
      RefreshMayRepeat(relays, recentConsensus, c);
      var newRelays := InitRelays(c);
      relays := newRelays;
    }

    method CalculateMinBwSecondHop() returns (ok: bool)
      modifies `exitMinBw, `nonExitMinBw
      ensures ok <==> Exits(relays) != []
      ensures exitMinBw == if ok then MinBwSecondHop(Exits(relays)) else old(exitMinBw)
      ensures nonExitMinBw == if ok && |NonExits(relays)| >= 4 then MinBwSecondHop(NonExits(relays))
                              else old(nonExitMinBw)
    {
      var exitCandidates := SortedByBandwidth(Exits(relays));
      var nonExitCandidates := SortedByBandwidth(NonExits(relays));
      var pos := |exitCandidates| / 4;
      if pos >= |exitCandidates| { return false; }
      exitMinBw := exitCandidates[pos].ConsensusBandwidth();
      pos := |nonExitCandidates| / 4;
      if pos > 0 { nonExitMinBw := nonExitCandidates[pos].ConsensusBandwidth(); }
      ok := true;
    }
  }

  // ----- The minimum bandwidth of second hops

  function HasExitFlag(): Relay -> bool { (r: Relay) => Exit in r.status.flags }

  function HasNoExitFlag(): Relay -> bool { (r: Relay) => Exit !in r.status.flags }

  function Exits(relays: seq<Relay>): seq<Relay> { Filter(relays, HasExitFlag()) }

  function NonExits(relays: seq<Relay>): seq<Relay> { Filter(relays, HasNoExitFlag()) }

  function Bandwidth(r: Relay): real { r.ConsensusBandwidth() as real }

  function SortedByBandwidth(relays: seq<Relay>): seq<Relay> { StableSort(relays, Bandwidth) }

  /** The lowest bandwidth of the top three quarters. */
  function MinBwSecondHop(relays: seq<Relay>): int
    requires relays != []
  {
    SortedByBandwidth(relays)[|relays| / 4].ConsensusBandwidth()
  }

  function AtLeast(bw: int): Relay -> bool { (r: Relay) => r.ConsensusBandwidth() >= bw }

  lemma SuffixAtLeast(sorted: seq<Relay>, pos: nat)
    requires SortedBy(sorted, Bandwidth) && pos < |sorted|
    ensures |Filter(sorted, AtLeast(sorted[pos].ConsensusBandwidth()))| >= |sorted| - pos
  {
    var enough := AtLeast(sorted[pos].ConsensusBandwidth());
    forall r | r in sorted[pos..] ensures enough(r) {
      var i :| pos <= i < |sorted| && sorted[i] == r;
      assert i > pos ==> Bandwidth(sorted[pos]) <= Bandwidth(sorted[i]);
    }
    assert sorted == sorted[..pos] + sorted[pos..];
    FilterConcat(sorted[..pos], sorted[pos..], enough);
    FilterAll(sorted[pos..], enough);
  }

  function AtMost(bw: int): Relay -> bool { (r: Relay) => r.ConsensusBandwidth() <= bw }

  function Below(bw: int): Relay -> bool { (r: Relay) => r.ConsensusBandwidth() < bw }

  lemma PrefixAtMost(sorted: seq<Relay>, pos: nat)
    requires SortedBy(sorted, Bandwidth) && pos < |sorted|
    ensures |Filter(sorted, AtMost(sorted[pos].ConsensusBandwidth()))| >= pos + 1
    ensures |Filter(sorted, Below(sorted[pos].ConsensusBandwidth()))| <= pos
  {
    var bw := sorted[pos].ConsensusBandwidth();
    var first, rest := sorted[..pos + 1], sorted[pos + 1..];
    forall i | 0 <= i <= pos ensures sorted[i].ConsensusBandwidth() <= bw {
      assert i < pos ==> Bandwidth(sorted[i]) <= Bandwidth(sorted[pos]);
    }
    assert sorted == first + rest;
    FilterConcat(first, rest, AtMost(bw));
    FilterAll(first, AtMost(bw));
    NoneBelow(sorted, pos);
  }

  lemma NoneBelow(sorted: seq<Relay>, pos: nat)
    requires SortedBy(sorted, Bandwidth) && pos < |sorted|
    ensures |Filter(sorted, Below(sorted[pos].ConsensusBandwidth()))| <= pos
  {
    var below := Below(sorted[pos].ConsensusBandwidth());
    forall r | r in sorted[pos..] ensures !below(r) {
      var i :| pos <= i < |sorted| && sorted[i] == r;
      assert i > pos ==> Bandwidth(sorted[pos]) <= Bandwidth(sorted[i]);
    }
    assert sorted == sorted[..pos] + sorted[pos..];
    FilterConcat(sorted[..pos], sorted[pos..], below);
    FilterNone(sorted[pos..], below);
    FilterAtMost(sorted[..pos], below);
  }

  lemma {:induction false} FilterAtMost(relays: seq<Relay>, keep: Relay -> bool)
    ensures |Filter(relays, keep)| <= |relays|
  {
    if relays != [] { FilterAtMost(relays[1..], keep); }
  }

  /** At most a quarter of the relays are below the minimum, and more than a quarter are not
      above it. */
  lemma MinBwIsQuartile(relays: seq<Relay>)
    requires relays != []
    ensures |Filter(relays, Below(MinBwSecondHop(relays)))| <= |relays| / 4
    ensures |Filter(relays, AtMost(MinBwSecondHop(relays)))| >= |relays| / 4 + 1
  {
    var sorted := SortedByBandwidth(relays);
    PrefixAtMost(sorted, |relays| / 4);
    FilterPermuted(sorted, relays, Below(MinBwSecondHop(relays)));
    FilterPermuted(sorted, relays, AtMost(MinBwSecondHop(relays)));
  }

  /** All but at most a quarter of the relays have the minimum, and one has exactly it. */
  lemma MinBwKeepsThreeQuarters(relays: seq<Relay>)
    requires relays != []
    ensures |Filter(relays, AtLeast(MinBwSecondHop(relays)))| >= |relays| - |relays| / 4
    ensures exists r :: r in relays && r.ConsensusBandwidth() == MinBwSecondHop(relays) == 1000 * r.status.bandwidth
  {
    var sorted := SortedByBandwidth(relays);
    SuffixAtLeast(sorted, |relays| / 4);
    FilterPermuted(sorted, relays, AtLeast(MinBwSecondHop(relays)));
    assert sorted[|relays| / 4] in multiset(sorted);
    assert sorted[|relays| / 4] in relays;
  }
}
