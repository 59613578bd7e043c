/** The results kept in memory and on disk: merging, trimming, storing and loading. */
module ResultStore {
  import opened Results
  import opened Sequences

  const DAY := 86400.0

  type ResultDict = map<string, seq<Result>>

  function Get(d: ResultDict, fp: string): seq<Result> { if fp in d then d[fp] else [] }

  function Merge(d1: ResultDict, d2: ResultDict): ResultDict {
    map fp | fp in d1.Keys + d2.Keys :: Get(d1, fp) + Get(d2, fp)
  }

  /** The body of the loop: one list of the second dictionary. */
  method MergeRelay(d: ResultDict, key: string, results: seq<Result>) returns (r: ResultDict)
    ensures r == d[key := Get(d, key) + results]
  {
    r := d;
    if key !in r { r := r[key := []]; }
    r := r[key := r[key] + results];
  }

  /** d is the first dictionary merged with the lists of the second one that are not under `keys`. */
  predicate MergedBut(d: ResultDict, d1: ResultDict, d2: ResultDict, keys: set<string>) {
    d == Merge(d1, d2 - keys)
  }

  lemma MergeOneMore(d: ResultDict, d1: ResultDict, d2: ResultDict, keys: set<string>, key: string)
    requires key in keys && key in d2 && MergedBut(d, d1, d2, keys)
    ensures MergedBut(d[key := Get(d, key) + d2[key]], d1, d2, keys - {key})
  {
    var before, after := d2 - keys, d2 - (keys - {key});
    assert after == before[key := d2[key]];
    assert Get(d1, key) + [] == Get(d1, key);
    MergeOther(d1, before, after, key);
  }

  lemma MergeOther(d1: ResultDict, before: ResultDict, after: ResultDict, key: string)
    requires key in after && key !in before && after == before[key := after[key]]
    ensures Merge(d1, after) == Merge(d1, before)[key := Get(d1, key) + after[key]]
  {
    forall fp | fp != key ensures Get(after, fp) == Get(before, fp) { }
  }

  lemma MergeNothing(d1: ResultDict, d2: ResultDict)
    ensures MergedBut(d1, d1, d2, d2.Keys)
  {
    forall fp | fp in d1 ensures Get(d1, fp) + [] == d1[fp] { }
  }

  lemma MergeAll(d: ResultDict, d1: ResultDict, d2: ResultDict)
    requires MergedBut(d, d1, d2, {})
    ensures d == Merge(d1, d2)
  {
    assert d2 - {} == d2;
  }

  method MergeResultDicts(d1: ResultDict, d2: ResultDict) returns (r: ResultDict)
    ensures r == Merge(d1, d2)
  {
    r := d1;
    var keys := d2.Keys;
    MergeNothing(d1, d2);
    while keys != {}
      invariant keys <= d2.Keys
      invariant MergedBut(r, d1, d2, keys)
      decreases |keys|
    {
      var key :| key in keys;
      MergeOneMore(r, d1, d2, keys, key);
      r := MergeRelay(r, key, d2[key]);
      keys := keys - {key};
    }
    MergeAll(r, d1, d2);
  }

  function IsFresh(oldestAllowed: real): Result -> bool { (r: Result) => r.time >= oldestAllowed }

  function Trim(d: ResultDict, oldestAllowed: real): ResultDict {
    map fp | fp in d && Filter(d[fp], IsFresh(oldestAllowed)) != [] :: Filter(d[fp], IsFresh(oldestAllowed))
  }

  function OldestAllowed(freshDays: nat, now: real): real { now - freshDays as real * DAY }

  /** A result is fresh for that many days, to the second. */
  lemma FreshForDays(freshDays: nat, now: real, r: Result)
    ensures IsFresh(OldestAllowed(freshDays, now))(r) <==> now - r.time <= 86400.0 * freshDays as real
  {
  }

  /** d holds for the relay exactly the fresh ones of `all`, and no empty list. */
  predicate HoldsFresh(d: ResultDict, fp: string, all: seq<Result>, oldestAllowed: real) {
    var kept := Filter(all, IsFresh(oldestAllowed));
    Get(d, fp) == kept && (fp in d <==> kept != [])
  }

  /** The inner loop of trimming: the results of one relay. */
  method TrimRelay(out: ResultDict, fp: string, results: seq<Result>, oldest: real) returns (r: ResultDict)
    requires fp !in out
    ensures HoldsFresh(r, fp, results, oldest)
    ensures r - {fp} == out
  {
    r := out;
    var i := 0;
    while i < |results|
      invariant i <= |results|
      invariant HoldsFresh(r, fp, results[..i], oldest)
      invariant r - {fp} == out
    {
      assert results[..i + 1] == results[..i] + [results[i]];
      FilterSnoc(results[..i], results[i], IsFresh(oldest));
      if results[i].time >= oldest {
        if fp !in r { r := r[fp := []]; }
        r := r[fp := r[fp] + [results[i]]];
      }
      i := i + 1;
    }
    assert results[..i] == results;
  }

  method TrimResults(freshDays: nat, d: ResultDict, now: real) returns (out: ResultDict)
    ensures out == Trim(d, OldestAllowed(freshDays, now))
  {
    var oldest := now - freshDays as real * DAY;
    out := map[];
    var keys := d.Keys;
    while keys != {}
      invariant keys <= d.Keys
      invariant out.Keys <= d.Keys - keys
      invariant forall fp :: fp in d.Keys - keys ==> HoldsFresh(out, fp, d[fp], oldest)
      decreases |keys|
    {
      var fp :| fp in keys;
      keys := keys - {fp};
      ghost var before := out;
      out := TrimRelay(out, fp, d[fp], oldest);
      forall g | g in out ensures g == fp || g in before {
        if g != fp { OtherRelay(before, out, fp, g); }
      }
      forall g | g in d.Keys - keys ensures HoldsFresh(out, g, d[g], oldest) {
        if g != fp { OtherRelay(before, out, fp, g); }
      }
    }
  }

  lemma OtherRelay(before: ResultDict, after: ResultDict, fp: string, g: string)
    requires after - {fp} == before && g != fp
    ensures Get(after, g) == Get(before, g) && (g in after <==> g in before)
  {
    assert g in after - {fp} <==> g in after;
  }

  lemma GetOfTrim(d: ResultDict, oldest: real, fp: string)
    ensures HoldsFresh(Trim(d, oldest), fp, Get(d, fp), oldest)
  {
  }

  // ----- Storing results one at a time

  datatype Stored = Stored(now: real, result: Result)

  function Store(d: ResultDict, s: Stored, freshDays: nat): ResultDict {
    var fp := s.result.fingerprint;
    Trim(d[fp := Get(d, fp) + [s.result]], OldestAllowed(freshDays, s.now))
  }

  function StoreAll(initial: ResultDict, log: seq<Stored>, freshDays: nat): ResultDict {
    if log == [] then initial
    else Store(StoreAll(initial, log[..|log| - 1], freshDays), log[|log| - 1], freshDays)
  }

  /** The clock does not go back between stores. */
  predicate StoredInOrder(log: seq<Stored>) { forall i, j :: 0 <= i < j < |log| ==> log[i].now <= log[j].now }

  /** Storing is merging a dictionary of one result, then trimming. */
  lemma StoreMergesOne(d: ResultDict, s: Stored, freshDays: nat)
    ensures Store(d, s, freshDays)
         == Trim(Merge(d, map[s.result.fingerprint := [s.result]]), OldestAllowed(freshDays, s.now))
  {
    var r := s.result;
    var one := map[r.fingerprint := [r]];
    var merged, direct := Merge(d, one), d[r.fingerprint := Get(d, r.fingerprint) + [r]];
    assert merged.Keys == direct.Keys;
    forall fp | fp in merged ensures merged[fp] == direct[fp] {
      if fp != r.fingerprint { assert Get(one, fp) == []; }
    }
    assert merged == direct;
  }

  lemma StoreAllExtends(initial: ResultDict, log: seq<Stored>, s: Stored, freshDays: nat)
    ensures StoreAll(initial, log + [s], freshDays) == Store(StoreAll(initial, log, freshDays), s, freshDays)
  {
    assert (log + [s])[..|log|] == log;
  }

  class ResultDump {
    const freshDays: nat
    var data: ResultDict
    ghost const initial: ResultDict
    ghost var log: seq<Stored>

    ghost predicate Valid()
      reads this
    {
      data == StoreAll(initial, log, freshDays)
    }

    /** Starts from what was loaded from the data directory. */
    constructor (freshDays: nat, loaded: ResultDict)
      ensures Valid() && log == [] && initial == loaded && this.freshDays == freshDays
    {
      this.freshDays, data, initial, log := freshDays, loaded, loaded, [];
    }

    method StoreResult(result: Result, now: real)
      requires Valid()
      modifies this
      ensures Valid() && log == old(log) + [Stored(now, result)]
      ensures data == Store(old(data), Stored(now, result), freshDays)
    {
      var fp := result.fingerprint;
      StoreAllExtends(initial, log, Stored(now, result), freshDays);
      log := log + [Stored(now, result)];
      if fp !in data { data := data[fp := []]; }
      data := data[fp := data[fp] + [result]];
      assert data == old(data)[fp := Get(old(data), fp) + [result]];
      data := TrimResults(freshDays, data, now);
    }

    /** Everything of the relay, loaded or stored, that was fresh at the last store. */
    method ResultsForRelay(fp: string) returns (r: seq<Result>)
      requires Valid()
      ensures r == Get(data, fp)
      ensures log == [] ==> r == Get(initial, fp)
      ensures log != [] && StoredInOrder(log) ==>
                r == Filter(Everything(initial, log, fp), IsFresh(OldestAllowed(freshDays, log[|log| - 1].now)))
    {
      if log != [] && StoredInOrder(log) { StoreAllIsOneTrim(initial, log, freshDays, fp); }
      r := if fp !in data then [] else data[fp];
    }
  }

  function Of(fp: string): Result -> bool { (r: Result) => r.fingerprint == fp }

  function Logged(log: seq<Stored>): seq<Result> { Map(log, (s: Stored) => s.result) }

  /** All results of one relay, the loaded ones first, in the order they were stored. */
  function Everything(initial: ResultDict, log: seq<Stored>, fp: string): seq<Result> {
    Get(initial, fp) + Filter(Logged(log), Of(fp))
  }

  /** Trimming at every store equals one trim at the time of the last store, relay by
      relay and in order, without empty lists. */
  lemma {:induction false} StoreAllIsOneTrim(initial: ResultDict, log: seq<Stored>, freshDays: nat, fp: string)
    requires log != []
    requires StoredInOrder(log)
    ensures HoldsFresh(StoreAll(initial, log, freshDays), fp, Everything(initial, log, fp),
                       OldestAllowed(freshDays, log[|log| - 1].now))
    decreases |log|
  {
    var before, s := log[..|log| - 1], log[|log| - 1];
    var d, all := StoreAll(initial, before, freshDays), Everything(initial, before, fp);
    var added := if s.result.fingerprint == fp then [s.result] else [];
    GetOfStore(d, s, freshDays, fp);
    EverythingExtends(initial, log, fp);
    if before != [] {
      StoreAllIsOneTrim(initial, before, freshDays, fp);
      TrimTwice(all, added, OldestAllowed(freshDays, before[|before| - 1].now),
                OldestAllowed(freshDays, s.now));
    } else {
      assert Logged(before) == [] && all == Get(d, fp);
    }
  }

  lemma TrimTwice(all: seq<Result>, added: seq<Result>, first: real, second: real)
    requires first <= second
    ensures Filter(Filter(all, IsFresh(first)) + added, IsFresh(second)) == Filter(all + added, IsFresh(second))
  {
    FilterConcat(Filter(all, IsFresh(first)), added, IsFresh(second));
    FilterConcat(all, added, IsFresh(second));
    FilterTwice(all, IsFresh(first), IsFresh(second));
  }

  lemma GetOfStore(d: ResultDict, s: Stored, freshDays: nat, fp: string)
    ensures HoldsFresh(Store(d, s, freshDays), fp,
                       Get(d, fp) + if s.result.fingerprint == fp then [s.result] else [],
                       OldestAllowed(freshDays, s.now))
  {
    var own := s.result.fingerprint;
    assert own != fp ==> Get(d, fp) + [] == Get(d, fp);
    GetOfTrim(d[own := Get(d, own) + [s.result]], OldestAllowed(freshDays, s.now), fp);
  }

  lemma EverythingExtends(initial: ResultDict, log: seq<Stored>, fp: string)
    requires log != []
    ensures Everything(initial, log, fp)
         == Everything(initial, log[..|log| - 1], fp)
            + if log[|log| - 1].result.fingerprint == fp then [log[|log| - 1].result] else []
  {
    var before, r := log[..|log| - 1], log[|log| - 1].result;
    assert Logged(log) == Logged(before) + [r];
    FilterSnoc(Logged(before), r, Of(fp));
  }
}
