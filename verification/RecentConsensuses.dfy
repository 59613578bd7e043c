/** Which consensuses a relay of the list is said to have been in. */
module RecentConsensuses {
  import opened RelayLists
  import opened Sequences
  import opened Timestamps
  import opened Wrappers

  /** The consensus has a relay with the fingerprint. */
  predicate Has(c: Consensus, fp: string) { exists s :: s in c.statuses && s.fingerprint == fp }

  /** The relay was in all consensuses from the i-th on, and not in the one before. */
  predicate SinceMissing(cs: seq<Consensus>, fp: string, i: nat) {
    && i <= |cs|
    && (forall j :: i <= j < |cs| ==> Has(cs[j], fp))
    && (i > 0 ==> !Has(cs[i - 1], fp))
  }

  /** The window of a relay that has seen these consensuses, each when it was updated. */
  function SeenBy(cs: seq<Consensus>, fp: string): seq<real> {
    if cs == [] then []
    else
      var last := cs[|cs| - 1];
      Seen(SeenBy(cs[..|cs| - 1], fp), last.ClockOf(fp), last.validAfter)
  }

  /** The relay is updated when the list is. */
  predicate OwnClock(cs: seq<Consensus>, fp: string) { forall j :: 0 <= j < |cs| ==> cs[j].ClockOf(fp) == cs[j].now }

  lemma {:induction false} HasIffListed(c: Consensus, fp: string)
    ensures Has(c, fp) <==> fp in ByFingerprint(c.statuses)
  {
  }

  /** A relay that stays goes on from its window. */
  lemma {:induction false} KeptFrom(prev: seq<Relay>, d: map<string, Status>, c: Consensus, r: Relay) returns (p: Relay)
    requires forall fp :: fp in d ==> d[fp].fingerprint == fp
    requires r in KeptRelays(prev, d, c)
    ensures p in prev && p.Fingerprint() == r.Fingerprint()
    ensures r.inConsensus == Seen(p.inConsensus, c.ClockOf(r.Fingerprint()), c.validAfter)
  {
    var n := |prev| - 1;
    if r in KeptRelays(prev[..n], d, c) { p := KeptFrom(prev[..n], d, c, r); } else { p := prev[n]; }
  }

  /** A new relay starts with this consensus. */
  lemma {:induction false} NewFrom(order: seq<string>, d: map<string, Status>, known: set<string>, c: Consensus,
                                   r: Relay)
    requires forall fp :: fp in d ==> d[fp].fingerprint == fp
    requires r in NewRelays(order, d, known, c)
    ensures r.Fingerprint() !in known
    ensures r.inConsensus == Seen([], c.ClockOf(r.Fingerprint()), c.validAfter)
  {
    var n := |order| - 1;
    if r in NewRelays(order[..n], d, known, c) { NewFrom(order[..n], d, known, c, r); }
  }

  /** Where the window of a refreshed relay comes from. */
  lemma {:induction false} RefreshedFrom(prev: seq<Relay>, c: Consensus, r: Relay) returns (p: Option<Relay>)
    requires r in Refreshed(prev, c)
    ensures p.Some? ==> p.value in prev && p.value.Fingerprint() == r.Fingerprint()
    ensures p.None? ==> r.Fingerprint() !in SetOf(Fingerprints(prev))
    ensures r.inConsensus
         == Seen(if p.Some? then p.value.inConsensus else [], c.ClockOf(r.Fingerprint()), c.validAfter)
  {
    var d := ByFingerprint(c.statuses);
    if r in KeptRelays(prev, d, c) {
      var q := KeptFrom(prev, d, c, r);
      p := Some(q);
    } else {
      NewFrom(KeyOrder(c.statuses), d, SetOf(Fingerprints(prev)), c, r);
      p := None;
    }
  }

  /** The list before the first and after every refresh. */
  predicate Listings(cs: seq<Consensus>, ls: seq<seq<Relay>>) {
    && |ls| == |cs| + 1 && ls[0] == []
    && forall n :: 0 <= n < |cs| ==> IsRefreshed(cs, ls, n)
  }

  predicate IsRefreshed(cs: seq<Consensus>, ls: seq<seq<Relay>>, n: nat)
    requires n < |cs| && n + 1 < |ls|
  {
    ls[n + 1] == Refreshed(ls[n], cs[n])
  }

  lemma {:induction false} NextListing(cs: seq<Consensus>, ls: seq<seq<Relay>>, n: nat)
    requires Listings(cs, ls) && n < |cs|
    ensures ls[n + 1] == Refreshed(ls[n], cs[n])
  {
    assert IsRefreshed(cs, ls, n);
  }

  lemma {:induction false} Distinct(cs: seq<Consensus>, ls: seq<seq<Relay>>, n: nat)
    requires Listings(cs, ls) && n <= |cs|
    ensures Unique(Fingerprints(ls[n]))
  {
    if n > 0 {
      Distinct(cs, ls, n - 1);
      NextListing(cs, ls, n - 1);
      RefreshedFingerprints(ls[n - 1], cs[n - 1]);
    }
  }

  lemma {:induction false} RefreshedLists(prev: seq<Relay>, c: Consensus, fp: string)
    requires Unique(Fingerprints(prev))
    ensures fp in SetOf(Fingerprints(Refreshed(prev, c))) <==> Has(c, fp)
  {
    RefreshedFingerprints(prev, c);
    HasIffListed(c, fp);
  }

  lemma {:induction false} NoneListed(fp: string)
    ensures fp !in SetOf(Fingerprints([]))
  {
  }

  /** Each list has exactly the relays of its consensus. */
  lemma {:induction false} Listed(cs: seq<Consensus>, ls: seq<seq<Relay>>, n: nat, fp: string)
    requires Listings(cs, ls) && n <= |cs|
    ensures fp in SetOf(Fingerprints(ls[n])) <==> n > 0 && Has(cs[n - 1], fp)
  {
    if n > 0 {
      Distinct(cs, ls, n - 1);
      NextListing(cs, ls, n - 1);
      RefreshedLists(ls[n - 1], cs[n - 1], fp);
    } else {
      NoneListed(fp);
    }
  }

  lemma {:induction false} MemberIsListed(relays: seq<Relay>, r: Relay)
    requires r in relays
    ensures r.Fingerprint() in SetOf(Fingerprints(relays))
  {
    var k :| 0 <= k < |relays| && relays[k] == r;
    assert Fingerprints(relays)[k] == r.Fingerprint();
  }

  /** The window of a relay that has seen the consensuses from the i-th to before the n-th. */
  function SeenFrom(cs: seq<Consensus>, fp: string, i: nat, n: nat): seq<real>
    requires n <= |cs|
  {
    if n <= i then [] else Seen(SeenFrom(cs, fp, i, n - 1), cs[n - 1].ClockOf(fp), cs[n - 1].validAfter)
  }

  predicate SinceIndex(cs: seq<Consensus>, fp: string, i: nat, n: nat) {
    && i <= n <= |cs|
    && (forall j :: i <= j < n ==> Has(cs[j], fp))
    && (i > 0 ==> !Has(cs[i - 1], fp))
  }

  lemma {:induction false} OneLess(cs: seq<Consensus>, fp: string, i: nat, n: nat)
    requires SinceIndex(cs, fp, i, n) && n > 0 && Has(cs[n - 1], fp)
    ensures i < n && SinceIndex(cs, fp, i, n - 1)
    ensures n - 1 > 0 && Has(cs[n - 2], fp) <==> i < n - 1
  {
  }

  /** A relay that is listed, and goes on from the window it had unless it was not. */
  lemma {:induction false} ListedFrom(cs: seq<Consensus>, ls: seq<seq<Relay>>, i: nat, n: nat, r: Relay, fp: string)
    returns (p: Option<Relay>)
    requires Listings(cs, ls) && SinceIndex(cs, fp, i, n) && r in ls[n] && r.Fingerprint() == fp
    ensures i < n && SinceIndex(cs, fp, i, n - 1)
    ensures p.Some? ==> p.value in ls[n - 1] && p.value.Fingerprint() == fp
    ensures p.None? ==> i == n - 1
    ensures r.inConsensus
         == Seen(if p.Some? then p.value.inConsensus else [], cs[n - 1].ClockOf(fp), cs[n - 1].validAfter)
  {
    MemberIsListed(ls[n], r);
    Listed(cs, ls, n, fp);
    OneLess(cs, fp, i, n);
    Listed(cs, ls, n - 1, fp);
    NextListing(cs, ls, n - 1);
    p := RefreshedFrom(ls[n - 1], cs[n - 1], r);
  }

  /** What a relay has seen of the consensuses since it was missing is its window. */
  lemma {:induction false} WindowAt(cs: seq<Consensus>, ls: seq<seq<Relay>>, i: nat, n: nat, r: Relay, fp: string)
    requires Listings(cs, ls) && SinceIndex(cs, fp, i, n) && r in ls[n] && r.Fingerprint() == fp
    ensures i < n && r.inConsensus == SeenFrom(cs, fp, i, n)
  {
    var p := ListedFrom(cs, ls, i, n, r, fp);
    if p.Some? { WindowAt(cs, ls, i, n - 1, p.value, fp); }
  }

  lemma {:induction false} SeenByOneMore(cs: seq<Consensus>, c: Consensus, fp: string)
    ensures SeenBy(cs + [c], fp) == Seen(SeenBy(cs, fp), c.ClockOf(fp), c.validAfter)
  {
    assert (cs + [c])[..|cs|] == cs;
  }

  lemma {:induction false} SeenFromIsSeenBy(cs: seq<Consensus>, fp: string, i: nat, n: nat)
    requires i <= n <= |cs|
    ensures SeenFrom(cs, fp, i, n) == SeenBy(cs[i..n], fp)
  {
    if i < n {
      SeenFromIsSeenBy(cs, fp, i, n - 1);
      assert cs[i..n] == cs[i..n - 1] + [cs[n - 1]];
      SeenByOneMore(cs[i..n - 1], cs[n - 1], fp);
    }
  }

  function ListsOf(cs: seq<Consensus>): (ls: seq<seq<Relay>>)
    ensures |ls| == |cs| + 1 && forall n :: 0 <= n <= |cs| ==> ls[n] == AfterRefreshes(cs[..n]).relays
  {
    seq(|cs| + 1, n requires 0 <= n <= |cs| => AfterRefreshes(cs[..n]).relays)
  }

  lemma {:induction false} OneRefresh(cs: seq<Consensus>, n: nat)
    requires n < |cs|
    ensures AfterRefreshes(cs[..n + 1]).relays == Refreshed(AfterRefreshes(cs[..n]).relays, cs[n])
  {
    assert cs[..n + 1][..n] == cs[..n];
  }

  lemma {:induction false} ListsOfRun(cs: seq<Consensus>)
    ensures Listings(cs, ListsOf(cs)) && ListsOf(cs)[|cs|] == AfterRefreshes(cs).relays
  {
    forall n | 0 <= n < |cs| ensures IsRefreshed(cs, ListsOf(cs), n) { OneRefresh(cs, n); }
    assert cs[..|cs|] == cs;
  }

  lemma {:induction false} SeenToTheEnd(cs: seq<Consensus>, fp: string, i: nat)
    requires i <= |cs|
    ensures SeenFrom(cs, fp, i, |cs|) == SeenBy(cs[i..], fp)
  {
    SeenFromIsSeenBy(cs, fp, i, |cs|);
    assert cs[i..|cs|] == cs[i..];
  }

  lemma {:induction false} WindowAtEnd(cs: seq<Consensus>, ls: seq<seq<Relay>>, i: nat, r: Relay)
    requires Listings(cs, ls) && r in ls[|cs|] && SinceMissing(cs, r.Fingerprint(), i)
    ensures i < |cs| && r.inConsensus == SeenFrom(cs, r.Fingerprint(), i, |cs|)
  {
    WindowAt(cs, ls, i, |cs|, r, r.Fingerprint());
  }

  /** A relay has the window of those of the last consensuses in a row that had it, whatever
      it saw before it was missing from one. */
  lemma {:induction false} WindowSinceMissing(cs: seq<Consensus>, r: Relay, i: nat)
    requires r in AfterRefreshes(cs).relays && SinceMissing(cs, r.Fingerprint(), i)
    ensures i < |cs| && r.inConsensus == SeenBy(cs[i..], r.Fingerprint())
  {
    ListsOfRun(cs);
    WindowAtEnd(cs, ListsOf(cs), i, r);
    SeenToTheEnd(cs, r.Fingerprint(), i);
  }

  /** With the list's own clock, that is what the list's window would be. */
  lemma {:induction false} OwnClockSees(cs: seq<Consensus>, fp: string)
    requires OwnClock(cs, fp)
    ensures SeenBy(cs, fp) == AfterRefreshes(cs).consensuses
  {
    if cs != [] { OwnClockSees(cs[..|cs| - 1], fp); }
  }

  /** A relay that was in the last consensuses in a row has the window the list would have had
      it seen only those. */
  lemma {:induction false} RelayHasListsWindow(cs: seq<Consensus>, r: Relay, i: nat)
    requires r in AfterRefreshes(cs).relays && SinceMissing(cs, r.Fingerprint(), i)
    requires OwnClock(cs[i..], r.Fingerprint())
    ensures r.inConsensus == AfterRefreshes(cs[i..]).consensuses
  {
    WindowSinceMissing(cs, r, i);
    OwnClockSees(cs[i..], r.Fingerprint());
  }

  /** One that was in all of them has the list's, and so its count. */
  lemma {:induction false} AlwaysThereHasListsWindow(cs: seq<Consensus>, r: Relay)
    requires r in AfterRefreshes(cs).relays && OwnClock(cs, r.Fingerprint())
    requires forall j :: 0 <= j < |cs| ==> Has(cs[j], r.Fingerprint())
    ensures r.inConsensus == AfterRefreshes(cs).consensuses && |r.inConsensus| == |AfterRefreshes(cs).consensuses|
  {
    assert cs[0..] == cs;
    RelayHasListsWindow(cs, r, 0);
  }
}
