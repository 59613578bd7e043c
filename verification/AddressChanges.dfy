/** Dropping the results a relay got under an address it no longer has. */
module AddressChanges {
  import opened Results
  import opened ResultStore
  import opened Sequences

  /** The address a result was measured at. */
  type AddressOf = Result -> string

  function TimeOf(r: Result): real { r.time }

  predicate OneAddress(rs: seq<Result>, addressOf: AddressOf) {
    forall i, j :: 0 <= i < j < |rs| ==> addressOf(rs[i]) == addressOf(rs[j])
  }

  /** The address of the result with the latest time; of several, the last in the list. */
  function LatestAddress(rs: seq<Result>, addressOf: AddressOf): string
    requires rs != []
  {
    addressOf(StableSort(rs, TimeOf)[|rs| - 1])
  }

  function HasAddress(addressOf: AddressOf, address: string): Result -> bool {
    (r: Result) => addressOf(r) == address
  }

  /** The results of one relay under its latest address. */
  function Current(rs: seq<Result>, addressOf: AddressOf): seq<Result> {
    if rs == [] then [] else Filter(rs, HasAddress(addressOf, LatestAddress(rs, addressOf)))
  }

  lemma LatestIsThere(rs: seq<Result>) returns (i: nat)
    requires rs != []
    ensures i < |rs| && rs[i] == StableSort(rs, TimeOf)[|rs| - 1]
    ensures forall j :: 0 <= j < |rs| ==> rs[j].time <= rs[i].time
  {
    var sorted := StableSort(rs, TimeOf);
    SortMembers(rs, TimeOf);
    i :| 0 <= i < |rs| && rs[i] == sorted[|rs| - 1];
    forall j | 0 <= j < |rs| ensures rs[j].time <= sorted[|rs| - 1].time {
      assert rs[j] in multiset(sorted);
      LastIsLatest(sorted, rs[j]);
    }
  }

  lemma LastIsLatest(sorted: seq<Result>, r: Result)
    requires SortedBy(sorted, TimeOf) && r in sorted
    ensures r.time <= sorted[|sorted| - 1].time
  {
    var k :| 0 <= k < |sorted| && sorted[k] == r;
    assert k < |sorted| - 1 ==> TimeOf(sorted[k]) <= TimeOf(sorted[|sorted| - 1]);
  }

  lemma CurrentMembers(rs: seq<Result>, addressOf: AddressOf, r: Result)
    requires rs != []
    ensures r in Current(rs, addressOf) <==> r in rs && addressOf(r) == LatestAddress(rs, addressOf)
  {
    FilterMembers(rs, HasAddress(addressOf, LatestAddress(rs, addressOf)));
  }

  /** Under the address of its newest result, which is kept, a relay keeps everything, in
      order, and nothing else. */
  ghost predicate KeepsLatest(rs: seq<Result>, kept: seq<Result>, addressOf: AddressOf) {
    exists newest ::
      && newest in kept && (forall r :: r in rs ==> r.time <= newest.time)
      && kept == Filter(rs, HasAddress(addressOf, addressOf(newest)))
  }

  /** A relay that never changed its address keeps everything. */
  lemma OneAddressKeepsAll(rs: seq<Result>, addressOf: AddressOf)
    requires OneAddress(rs, addressOf)
    ensures Current(rs, addressOf) == rs
  {
    if rs != [] {
      var i := LatestIsThere(rs);
      forall r | r in rs ensures HasAddress(addressOf, addressOf(rs[i]))(r) {
        var j :| 0 <= j < |rs| && rs[j] == r;
      }
      FilterAll(rs, HasAddress(addressOf, addressOf(rs[i])));
    }
  }

  lemma CurrentKeepsLatest(rs: seq<Result>, addressOf: AddressOf)
    requires rs != []
    ensures KeepsLatest(rs, Current(rs, addressOf), addressOf)
  {
    var i := LatestIsThere(rs);
    CurrentMembers(rs, addressOf, rs[i]);
  }

  /** The body of the loop over the relays. */
  method TrimRelayIpChanged(rs: seq<Result>, addressOf: AddressOf) returns (kept: seq<Result>)
    ensures kept == Current(rs, addressOf)
    ensures rs != [] ==> KeepsLatest(rs, kept, addressOf)
  {
    if rs != [] { CurrentKeepsLatest(rs, addressOf); }
    if OneAddress(rs, addressOf) {
      OneAddressKeepsAll(rs, addressOf);
      return rs;
    }
    var ordered := StableSort(rs, TimeOf);
    var latest := addressOf(ordered[|ordered| - 1]);
    assert latest == LatestAddress(rs, addressOf);
    kept := Filter(rs, HasAddress(addressOf, latest));
  }

  function Currents(d: ResultDict, addressOf: AddressOf): ResultDict {
    map fp | fp in d :: Current(d[fp], addressOf)
  }

  lemma OneMoreCurrent(d: ResultDict, keys: set<string>, fp: string, addressOf: AddressOf)
    requires fp in keys && fp in d
    ensures Currents(d - (keys - {fp}), addressOf) == Currents(d - keys, addressOf)[fp := Current(d[fp], addressOf)]
  {
  }

  method TrimResultsIpChanged(d: ResultDict, onChangedIpv4: bool, addressOf: AddressOf) returns (r: ResultDict)
    ensures r == if onChangedIpv4 then Currents(d, addressOf) else d
  {
    if !onChangedIpv4 { return d; }
    r := map[];
    var keys := d.Keys;
    while keys != {}
      invariant keys <= d.Keys
      invariant r == Currents(d - keys, addressOf)
      decreases |keys|
    {
      var fp :| fp in keys;
      var kept := TrimRelayIpChanged(d[fp], addressOf);
      OneMoreCurrent(d, keys, fp, addressOf);
      r := r[fp := kept];
      keys := keys - {fp};
    }
    assert d - keys == d;
  }

  lemma CurrentHasOneAddress(rs: seq<Result>, addressOf: AddressOf)
    ensures OneAddress(Current(rs, addressOf), addressOf)
  {
    var kept := Current(rs, addressOf);
    forall i, j | 0 <= i < j < |kept| ensures addressOf(kept[i]) == addressOf(kept[j]) {
      assert kept[i] in kept && kept[j] in kept;
      CurrentMembers(rs, addressOf, kept[i]);
      CurrentMembers(rs, addressOf, kept[j]);
    }
  }

  /** What is kept of a relay is everything it got under the address of its newest result,
      which is kept too, and nothing else; trimming again keeps it all. */
  lemma CurrentIsOneAddress(rs: seq<Result>, addressOf: AddressOf)
    ensures OneAddress(Current(rs, addressOf), addressOf)
    ensures rs != [] ==> KeepsLatest(rs, Current(rs, addressOf), addressOf)
    ensures Current(Current(rs, addressOf), addressOf) == Current(rs, addressOf)
  {
    CurrentHasOneAddress(rs, addressOf);
    if rs != [] { CurrentKeepsLatest(rs, addressOf); }
    OneAddressKeepsAll(Current(rs, addressOf), addressOf);
  }
}
