/** Bounded windows of timestamps that are trimmed every time one is added, and
    the state file they mirror themselves into. */
module Timestamps {
  import opened Sequences
  import opened Wrappers

  /** Five days, in seconds. */
  const MEASUREMENTS_PERIOD := 432000.0

  predicate IsOld(stamp: real, now: real) { stamp < now - MEASUREMENTS_PERIOD }

  /** A timestamp of exactly five days ago is kept. */
  lemma OldAfterFiveDays(stamp: real, now: real)
    ensures IsOld(stamp, now) <==> now - stamp > 5.0 * 86400.0
  {
  }

  /** `deque(xs, maxlen)`: the last maxlen elements, all of them without a maximum. */
  function LastN<T>(xs: seq<T>, maxlen: Option<nat>): seq<T> {
    if maxlen.None? || |xs| <= maxlen.value then xs else xs[|xs| - maxlen.value..]
  }

  function DropOld<T>(xs: seq<T>, now: real, stamp: T -> real): seq<T> {
    Filter(xs, NotOld(now, stamp))
  }

  function NotOld<T>(now: real, stamp: T -> real): T -> bool {
    x => !IsOld(stamp(x), now)
  }

  /** One update of a window: trim, append, keep the last maxlen. */
  function Updated<T>(xs: seq<T>, maxlen: Option<nat>, now: real, entry: T, stamp: T -> real): seq<T> {
    LastN(DropOld(xs, now, stamp) + [entry], maxlen)
  }

  // ----- A window over its whole history

  datatype Added<T> = Added(now: real, entry: T)

  function Window<T>(initial: seq<T>, maxlen: Option<nat>, log: seq<Added<T>>, stamp: T -> real): seq<T> {
    if log == [] then LastN(initial, maxlen)
    else
      var last := log[|log| - 1];
      Updated(Window(initial, maxlen, log[..|log| - 1], stamp), maxlen, last.now, last.entry, stamp)
  }

  /** Everything ever put in the window. */
  function History<T>(initial: seq<T>, log: seq<Added<T>>): seq<T> {
    initial + Map(log, (u: Added<T>) => u.entry)
  }

  predicate Ascending<T>(xs: seq<T>, stamp: T -> real) { SortedBy(xs, stamp) }

  predicate MonotoneClock<T>(log: seq<Added<T>>) {
    forall i, j :: 0 <= i < j < |log| ==> log[i].now <= log[j].now
  }

  function Max(a: int, b: int): int { if a >= b then a else b }

  /** How many of the leading entries of an ascending sequence are old. */
  function OldCount<T>(xs: seq<T>, now: real, stamp: T -> real): (c: nat)
    ensures c <= |xs|
  {
    if xs == [] || !IsOld(stamp(xs[0]), now) then 0 else 1 + OldCount(xs[1..], now, stamp)
  }

  lemma {:induction false} OldCountSplits<T>(xs: seq<T>, now: real, stamp: T -> real)
    requires Ascending(xs, stamp)
    ensures var c := OldCount(xs, now, stamp);
            && (forall i :: 0 <= i < c ==> IsOld(stamp(xs[i]), now))
            && (forall i :: c <= i < |xs| ==> !IsOld(stamp(xs[i]), now))
  {
    if xs != [] { OldCountSplits(xs[1..], now, stamp); }
  }

  /** Trimming any suffix of an ascending history leaves a suffix of it. */
  lemma DropOldOfSuffix<T>(xs: seq<T>, i: nat, now: real, stamp: T -> real)
    requires Ascending(xs, stamp) && i <= |xs|
    ensures DropOld(xs[i..], now, stamp) == xs[Max(i, OldCount(xs, now, stamp))..]
  {
    OldCountSplits(xs, now, stamp);
    var c := Max(i, OldCount(xs, now, stamp));
    FilterFrom(xs, i, c, NotOld(now, stamp));
  }

  lemma LastNOfSuffix<T>(xs: seq<T>, i: nat, maxlen: Option<nat>)
    requires i <= |xs|
    ensures LastN(xs[i..], maxlen) == xs[Max(i, Overflow(|xs|, maxlen))..]
  {
  }

  /** How many of n entries a window of the given maximum cannot hold. */
  function Overflow(n: nat, maxlen: Option<nat>): int {
    if maxlen.None? then 0 else n - maxlen.value
  }

  lemma {:induction false} OldCountGrows<T>(xs: seq<T>, n: nat, now: real, later: real, stamp: T -> real)
    requires n <= |xs| && now <= later
    ensures OldCount(xs[..n], now, stamp) <= OldCount(xs, later, stamp)
  {
    if n > 0 {
      assert xs[..n][1..] == xs[1..][..n - 1];
      OldCountGrows(xs[1..], n - 1, now, later, stamp);
    }
  }

  /** Where the window starts in the history. */
  function WindowStart<T>(h: seq<T>, maxlen: Option<nat>, log: seq<Added<T>>, stamp: T -> real): int
    requires log != [] ==> h != []
  {
    var trimmed := if log == [] then 0 else OldCount(h[..|h| - 1], log[|log| - 1].now, stamp);
    Max(trimmed, Overflow(|h|, maxlen))
  }

  /** Where it starts after one more update, if it started at s. */
  function StartAfter<T>(h: seq<T>, s: nat, maxlen: Option<nat>, now: real, stamp: T -> real): int {
    Max(Max(s, OldCount(h, now, stamp)), Overflow(|h| + 1, maxlen))
  }

  /** One update of a window that is a suffix of an ascending history. */
  lemma UpdatedIsSuffix<T>(h: seq<T>, s: nat, maxlen: Option<nat>, now: real, entry: T, stamp: T -> real)
    requires Ascending(h, stamp) && s <= |h|
    ensures var a := StartAfter(h, s, maxlen, now, stamp);
            && 0 <= a <= |h| + 1
            && Updated(h[s..], maxlen, now, entry, stamp) == (h + [entry])[a..]
  {
    DropOldOfSuffix(h, s, now, stamp);
    var c := Max(s, OldCount(h, now, stamp));
    assert h[c..] + [entry] == (h + [entry])[c..];
    LastNOfSuffix(h + [entry], c, maxlen);
  }

  lemma HistoryExtends<T>(initial: seq<T>, log: seq<Added<T>>)
    requires log != []
    ensures var h, before := History(initial, log), log[..|log| - 1];
            && h == History(initial, before) + [log[|log| - 1].entry]
            && h[..|h| - 1] == History(initial, before)
  {
  }

  /** The last trim cuts at least as much as the ones before it. */
  lemma WindowStartGrows<T>(h: seq<T>, maxlen: Option<nat>, log: seq<Added<T>>, now: real, stamp: T -> real)
    requires log != [] ==> h != [] && log[|log| - 1].now <= now
    requires WindowStart(h, maxlen, log, stamp) >= 0
    ensures StartAfter(h, WindowStart(h, maxlen, log, stamp), maxlen, now, stamp)
         == StartAfter(h, 0, maxlen, now, stamp)
  {
    var trimmed := if log == [] then 0 else OldCount(h[..|h| - 1], log[|log| - 1].now, stamp);
    if log != [] { OldCountGrows(h, |h| - 1, log[|log| - 1].now, now, stamp); }
    LargerMax(trimmed, Overflow(|h|, maxlen), OldCount(h, now, stamp), Overflow(|h| + 1, maxlen));
  }

  lemma LargerMax(a: int, b: int, c: int, d: int)
    requires a <= c && b <= d
    ensures Max(Max(Max(a, b), c), d) == Max(c, d)
  {
  }

  /** So the window starts where the last update alone would start it. */
  lemma WindowStartIsLast<T>(initial: seq<T>, maxlen: Option<nat>, log: seq<Added<T>>, stamp: T -> real)
    requires log != []
    ensures var h, before := History(initial, log), History(initial, log[..|log| - 1]);
            && h != []
            && WindowStart(h, maxlen, log, stamp) == StartAfter(before, 0, maxlen, log[|log| - 1].now, stamp)
  {
    HistoryExtends(initial, log);
  }

  /** The window is a suffix of the history, cut once: by the last trim or by the
      maximum length, whichever cuts more. */
  lemma {:induction false} WindowIsSuffix<T>(initial: seq<T>, maxlen: Option<nat>, log: seq<Added<T>>, stamp: T -> real)
    requires Ascending(History(initial, log), stamp) && MonotoneClock(log)
    ensures var h := History(initial, log);
            && (log != [] ==> h != [])
            && 0 <= WindowStart(h, maxlen, log, stamp) <= |h|
            && Window(initial, maxlen, log, stamp) == h[WindowStart(h, maxlen, log, stamp)..]
    decreases |log|, 1
  {
    if log == [] {
      assert History(initial, log) == initial == initial[0..];
      LastNOfSuffix(initial, 0, maxlen);
    } else {
      WindowIsSuffixStep(initial, maxlen, log, stamp);
    }
  }

  lemma {:induction false} WindowIsSuffixStep<T>(initial: seq<T>, maxlen: Option<nat>, log: seq<Added<T>>,
                                                 stamp: T -> real)
    requires log != []
    requires Ascending(History(initial, log), stamp) && MonotoneClock(log)
    ensures var h := History(initial, log);
            && h != []
            && 0 <= WindowStart(h, maxlen, log, stamp) <= |h|
            && Window(initial, maxlen, log, stamp) == h[WindowStart(h, maxlen, log, stamp)..]
    decreases |log|, 0
  {
    var before, last := log[..|log| - 1], log[|log| - 1];
    var h := History(initial, before);
    HistoryExtends(initial, log);
    WindowIsSuffix(initial, maxlen, before, stamp);
    UpdatedIsSuffix(h, WindowStart(h, maxlen, before, stamp), maxlen, last.now, last.entry, stamp);
    WindowStartGrows(h, maxlen, before, last.now, stamp);
    WindowStartIsLast(initial, maxlen, log, stamp);
  }

  /** The incremental window is the history filtered once, by the clock of the last
      update, which never trims the entry it adds itself. */
  lemma WindowIsFilteredHistory<T>(initial: seq<T>, maxlen: Option<nat>, log: seq<Added<T>>, stamp: T -> real)
    requires log != [] && Ascending(History(initial, log), stamp) && MonotoneClock(log)
    ensures var last := log[|log| - 1];
            Window(initial, maxlen, log, stamp)
            == Updated(History(initial, log[..|log| - 1]), maxlen, last.now, last.entry, stamp)
  {
    var last := log[|log| - 1];
    var h := History(initial, log[..|log| - 1]);
    HistoryExtends(initial, log);
    WindowIsSuffix(initial, maxlen, log, stamp);
    WindowStartIsLast(initial, maxlen, log, stamp);
    assert h[0..] == h;
    UpdatedIsSuffix(h, 0, maxlen, last.now, last.entry, stamp);
  }

  /** So it is the last maxlen of all the entries that are not old, when the entry
      just added is not. */
  lemma WindowIsLastFreshEntries<T>(initial: seq<T>, maxlen: Option<nat>, log: seq<Added<T>>, stamp: T -> real)
    requires log != [] && Ascending(History(initial, log), stamp) && MonotoneClock(log)
    requires !IsOld(stamp(log[|log| - 1].entry), log[|log| - 1].now)
    ensures Window(initial, maxlen, log, stamp)
         == LastN(DropOld(History(initial, log), log[|log| - 1].now, stamp), maxlen)
  {
    var last := log[|log| - 1];
    var h := History(initial, log[..|log| - 1]);
    WindowIsFilteredHistory(initial, maxlen, log, stamp);
    HistoryExtends(initial, log);
    DropOldKeepsNew(h, last.entry, last.now, stamp);
  }

  lemma DropOldKeepsNew<T>(xs: seq<T>, x: T, now: real, stamp: T -> real)
    requires !IsOld(stamp(x), now)
    ensures DropOld(xs + [x], now, stamp) == DropOld(xs, now, stamp) + [x]
  {
    FilterSnoc(xs, x, NotOld(now, stamp));
  }

  // ----- Timestamps in any order

  lemma DropOldTwice<T>(xs: seq<T>, x: T, first: real, second: real, stamp: T -> real)
    requires first <= second
    ensures DropOld(DropOld(xs, first, stamp) + [x], second, stamp) == DropOld(xs + [x], second, stamp)
  {
    FilterConcat(DropOld(xs, first, stamp), [x], NotOld(second, stamp));
    FilterConcat(xs, [x], NotOld(second, stamp));
    FilterTwice(xs, NotOld(first, stamp), NotOld(second, stamp));
  }

  /** A window without maximum needs no order: it is the history filtered once. */
  lemma {:induction false} UnboundedWindow<T>(initial: seq<T>, log: seq<Added<T>>, stamp: T -> real)
    requires log != [] && MonotoneClock(log)
    ensures var last := log[|log| - 1];
            Window(initial, None, log, stamp)
            == DropOld(History(initial, log[..|log| - 1]), last.now, stamp) + [last.entry]
    decreases |log|
  {
    var before, last := log[..|log| - 1], log[|log| - 1];
    if before == [] {
      assert History(initial, before) == initial;
    } else {
      var n := |before| - 1;
      UnboundedWindow(initial, before, stamp);
      HistoryExtends(initial, before);
      DropOldTwice(History(initial, before[..n]), before[n].entry, before[n].now, last.now, stamp);
    }
  }

  /** How many leading entries of h an update at that time leaves no room for. */
  function Crowded<T>(h: seq<T>, now: real, m: nat, stamp: T -> real): (c: nat)
    ensures c <= |h|
  {
    if h == [] || |DropOld(h, now, stamp)| < m then 0 else 1 + Crowded(h[1..], now, m, stamp)
  }

  lemma DropOldCons<T>(h: seq<T>, now: real, stamp: T -> real)
    requires h != []
    ensures DropOld(h, now, stamp)
         == (if IsOld(stamp(h[0]), now) then [] else [h[0]]) + DropOld(h[1..], now, stamp)
  {
  }

  /** An entry is crowded out exactly when, with it, m or more entries are not old. */
  lemma {:induction false} CrowdedIff<T>(h: seq<T>, p: nat, now: real, m: nat, stamp: T -> real)
    requires p < |h|
    ensures p < Crowded(h, now, m, stamp) <==> |DropOld(h[p..], now, stamp)| >= m
  {
    DropOldCons(h, now, stamp);
    if p == 0 {
      assert h[0..] == h;
    } else {
      CrowdedIff(h[1..], p - 1, now, m, stamp);
      assert h[1..][p - 1..] == h[p..];
      DropOldShrinks(h, p, now, stamp);
    }
  }

  lemma {:induction false} DropOldShrinks<T>(h: seq<T>, p: nat, now: real, stamp: T -> real)
    requires p <= |h|
    ensures |DropOld(h[p..], now, stamp)| <= |DropOld(h, now, stamp)|
  {
    if p == 0 {
      assert h[0..] == h;
    } else {
      DropOldCons(h, now, stamp);
      assert h[1..][p - 1..] == h[p..];
      DropOldShrinks(h[1..], p - 1, now, stamp);
    }
  }

  lemma LastNOfLonger<T>(xs: seq<T>, x: T, y: T, m: nat)
    requires |xs| + 1 >= m
    ensures LastN(([x] + xs) + [y], Some(m)) == LastN(xs + [y], Some(m))
  {
  }

  lemma CrowdedStep<T>(h: seq<T>, now: real, m: nat, stamp: T -> real)
    requires h != [] && |DropOld(h, now, stamp)| >= m
    ensures h[Crowded(h, now, m, stamp)..] == h[1..][Crowded(h[1..], now, m, stamp)..]
  {
  }

  lemma NoRoomForFirst<T>(h: seq<T>, now: real, m: nat, entry: T, stamp: T -> real)
    requires h != [] && |DropOld(h, now, stamp)| >= m
    ensures LastN(DropOld(h, now, stamp) + [entry], Some(m)) == LastN(DropOld(h[1..], now, stamp) + [entry], Some(m))
  {
    var kept, rest := DropOld(h, now, stamp), DropOld(h[1..], now, stamp);
    DropOldCons(h, now, stamp);
    if kept == [h[0]] + rest { LastNOfLonger(rest, h[0], entry, m); } else { assert kept == rest; }
  }

  /** Keeping the last m cuts what is crowded out. */
  lemma {:induction false} LastNIsCut<T>(h: seq<T>, now: real, m: nat, entry: T, stamp: T -> real)
    requires m > 0
    ensures LastN(DropOld(h, now, stamp) + [entry], Some(m))
         == DropOld(h[Crowded(h, now, m, stamp)..], now, stamp) + [entry]
  {
    if h == [] || |DropOld(h, now, stamp)| < m {
      assert h[0..] == h;
    } else {
      CrowdedStep(h, now, m, stamp);
      NoRoomForFirst(h, now, m, entry, stamp);
      LastNIsCut(h[1..], now, m, entry, stamp);
    }
  }

  lemma {:induction false} CrowdedOfSuffix<T>(h: seq<T>, c: nat, now: real, m: nat, stamp: T -> real)
    requires c <= |h|
    ensures c + Crowded(h[c..], now, m, stamp) == Max(c, Crowded(h, now, m, stamp))
  {
    if c == 0 {
      assert h[0..] == h;
    } else {
      assert h[1..][c - 1..] == h[c..];
      CrowdedOfSuffix(h[1..], c - 1, now, m, stamp);
      DropOldShrinks(h, c, now, stamp);
    }
  }

  /** How many leading entries of the history the updates so far had no room for. */
  function CutSoFar<T>(initial: seq<T>, log: seq<Added<T>>, m: nat, stamp: T -> real): (c: int)
    ensures 0 <= c <= |initial| + |log|
  {
    if log == [] then Max(0, |initial| - m)
    else
      var before, last := log[..|log| - 1], log[|log| - 1];
      Max(CutSoFar(initial, before, m, stamp), Crowded(History(initial, before), last.now, m, stamp))
  }

  lemma {:induction false} CutWithinHistory<T>(initial: seq<T>, log: seq<Added<T>>, m: nat, stamp: T -> real)
    requires log != []
    ensures CutSoFar(initial, log, m, stamp) <= |History(initial, log[..|log| - 1])|
  {
    var before := log[..|log| - 1];
    if before == [] {
      assert History(initial, before) == initial;
    } else {
      CutWithinHistory(initial, before, m, stamp);
    }
  }

  /** One update of what is left of the history after a cut. */
  lemma UpdatedAfterCut<T>(h: seq<T>, c: nat, m: nat, now: real, entry: T, stamp: T -> real)
    requires m > 0 && c <= |h|
    ensures Updated(h[c..], Some(m), now, entry, stamp)
         == DropOld(h[Max(c, Crowded(h, now, m, stamp))..], now, stamp) + [entry]
  {
    LastNIsCut(h[c..], now, m, entry, stamp);
    CrowdedOfSuffix(h, c, now, m, stamp);
    assert h[c..][Crowded(h[c..], now, m, stamp)..] == h[Max(c, Crowded(h, now, m, stamp))..];
  }

  /** In any order, a bounded window is what is not old of the history after its largest cut. */
  lemma {:induction false} WindowAfterCuts<T>(initial: seq<T>, log: seq<Added<T>>, m: nat, stamp: T -> real)
    requires m > 0 && log != [] && MonotoneClock(log)
    ensures var h, last := History(initial, log[..|log| - 1]), log[|log| - 1];
            && CutSoFar(initial, log, m, stamp) <= |h|
            && Window(initial, Some(m), log, stamp)
               == DropOld(h[CutSoFar(initial, log, m, stamp)..], last.now, stamp) + [last.entry]
    decreases |log|
  {
    var before, last := log[..|log| - 1], log[|log| - 1];
    var h := History(initial, before);
    CutWithinHistory(initial, log, m, stamp);
    if before == [] {
      assert h == initial;
      UpdatedAfterCut(initial, Max(0, |initial| - m), m, last.now, last.entry, stamp);
    } else {
      var n, c := |before| - 1, CutSoFar(initial, before, m, stamp);
      var h' := History(initial, before[..n]);
      WindowAfterCuts(initial, before, m, stamp);
      HistoryExtends(initial, before);
      assert h[c..] == h'[c..] + [before[n].entry];
      DropOldTwice(h'[c..], before[n].entry, before[n].now, last.now, stamp);
      UpdatedOnlySeesFresh(Window(initial, Some(m), before, stamp), h[c..], Some(m), last.now, last.entry, stamp);
      UpdatedAfterCut(h, c, m, last.now, last.entry, stamp);
    }
  }

  lemma UpdatedOnlySeesFresh<T>(xs: seq<T>, ys: seq<T>, maxlen: Option<nat>, now: real, entry: T, stamp: T -> real)
    requires DropOld(xs, now, stamp) == DropOld(ys, now, stamp)
    ensures Updated(xs, maxlen, now, entry, stamp) == Updated(ys, maxlen, now, entry, stamp)
  {
  }

  /** At the initial bound or at an update before the last, m entries after the one at
      position p of the history were there to be kept. */
  predicate WasCrowdedOut<T>(initial: seq<T>, log: seq<Added<T>>, p: nat, m: nat, stamp: T -> real) {
    || p < |initial| - m
    || exists i :: 0 <= i < |log| && CrowdsOut(initial, log, i, p, m, stamp)
  }

  /** The entry the i-th update adds, and those not old between it and position p, are m or
      more: among the entries from p on that are not old, p itself stands for the added one. */
  predicate CrowdsOut<T>(initial: seq<T>, log: seq<Added<T>>, i: nat, p: nat, m: nat, stamp: T -> real)
    requires i < |log|
  {
    var h := History(initial, log[..i]);
    p < |h| && |DropOld(h[p..], log[i].now, stamp)| >= m
  }

  lemma {:induction false} CutSoFarIff<T>(initial: seq<T>, log: seq<Added<T>>, p: nat, m: nat, stamp: T -> real)
    ensures p < CutSoFar(initial, log, m, stamp) <==> WasCrowdedOut(initial, log, p, m, stamp)
  {
    if log != [] {
      var n := |log| - 1;
      CutSoFarIff(initial, log[..n], p, m, stamp);
      CrowdedOutSnoc(initial, log, p, m, stamp);
      var h := History(initial, log[..n]);
      if p < |h| { CrowdedIff(h, p, log[n].now, m, stamp); }
    }
  }

  lemma CrowdedOutSnoc<T>(initial: seq<T>, log: seq<Added<T>>, p: nat, m: nat, stamp: T -> real)
    requires log != []
    ensures var n := |log| - 1;
            WasCrowdedOut(initial, log, p, m, stamp)
            <==> WasCrowdedOut(initial, log[..n], p, m, stamp) || CrowdsOut(initial, log, n, p, m, stamp)
  {
    var n := |log| - 1;
    forall i | 0 <= i < n
      ensures CrowdsOut(initial, log[..n], i, p, m, stamp) == CrowdsOut(initial, log, i, p, m, stamp)
    {
      assert log[..n][..i] == log[..i];
    }
  }

  lemma {:induction false} SameAfterCut<T>(h: seq<T>, k: nat, c: nat, now: real, stamp: T -> real)
    requires k <= c <= |h|
    ensures |DropOld(h[c..], now, stamp)| <= |DropOld(h[k..], now, stamp)|
    ensures DropOld(h[k..], now, stamp) == DropOld(h[c..], now, stamp)
       <==> forall p :: k <= p < c ==> IsOld(stamp(h[p]), now)
    decreases c - k
  {
    if k < c {
      SameAfterCut(h, k + 1, c, now, stamp);
      DropOldCons(h[k..], now, stamp);
      assert h[k..][1..] == h[k + 1..];
    }
  }

  /** Some entry is still not old at the last update, with fewer than m after it then, but
      an earlier update had no room for it. */
  ghost predicate Forgets<T>(initial: seq<T>, log: seq<Added<T>>, m: nat, stamp: T -> real)
    requires log != []
  {
    var before, last := log[..|log| - 1], log[|log| - 1];
    var h := History(initial, before);
    exists p :: 0 <= p < |h| && !IsOld(stamp(h[p]), last.now) && |DropOld(h[p..], last.now, stamp)| < m
                && WasCrowdedOut(initial, before, p, m, stamp)
  }

  lemma ForgetsBetweenCuts<T>(initial: seq<T>, log: seq<Added<T>>, m: nat, stamp: T -> real)
    requires log != [] && CutSoFar(initial, log, m, stamp) <= |History(initial, log[..|log| - 1])|
    ensures var h, last := History(initial, log[..|log| - 1]), log[|log| - 1];
            Forgets(initial, log, m, stamp)
            <==> exists p :: Crowded(h, last.now, m, stamp) <= p < CutSoFar(initial, log, m, stamp)
                             && !IsOld(stamp(h[p]), last.now)
  {
    var before, last := log[..|log| - 1], log[|log| - 1];
    var h := History(initial, before);
    forall p | 0 <= p < |h|
      ensures Crowded(h, last.now, m, stamp) <= p < CutSoFar(initial, log, m, stamp)
         <==> |DropOld(h[p..], last.now, stamp)| < m && WasCrowdedOut(initial, before, p, m, stamp)
    {
      CrowdedIff(h, p, last.now, m, stamp);
      CutSoFarIff(initial, before, p, m, stamp);
    }
  }

  /** In any order of timestamps, updating a bounded window entry by entry equals filtering
      and cutting the whole history once if and only if it does not forget an entry. */
  lemma WindowForgetsIff<T>(initial: seq<T>, log: seq<Added<T>>, m: nat, stamp: T -> real)
    requires log != [] && MonotoneClock(log)
    ensures var last := log[|log| - 1];
            Window(initial, Some(m), log, stamp)
            == Updated(History(initial, log[..|log| - 1]), Some(m), last.now, last.entry, stamp)
            <==> !Forgets(initial, log, m, stamp)
  {
    var h, last := History(initial, log[..|log| - 1]), log[|log| - 1];
    if m > 0 {
      var k, c := Crowded(h, last.now, m, stamp), CutSoFar(initial, log, m, stamp);
      WindowAfterCuts(initial, log, m, stamp);
      LastNIsCut(h, last.now, m, last.entry, stamp);
      ForgetsBetweenCuts(initial, log, m, stamp);
      SameAfterCut(h, k, c, last.now, stamp);
      SameButLast(DropOld(h[c..], last.now, stamp), DropOld(h[k..], last.now, stamp), last.entry);
    }
  }

  lemma SameButLast<T>(xs: seq<T>, ys: seq<T>, x: T)
    ensures xs + [x] == ys + [x] <==> xs == ys
  {
    if xs + [x] == ys + [x] {
      assert (xs + [x])[..|xs|] == xs && (ys + [x])[..|ys|] == ys;
    }
  }

  lemma NotOldApplied<T>(now: real, stamp: T -> real, x: T)
    ensures NotOld(now, stamp)(x) == !IsOld(stamp(x), now)
  {
  }

  lemma OutOfOrderTrims()
    ensures DropOld([1000000.0], 1000000.0, Itself) == [1000000.0]
    ensures DropOld([1000000.0, 600000.0], 1000000.0, Itself) == [1000000.0, 600000.0]
    ensures DropOld([600000.0, 600000.0], 1100000.0, Itself) == []
  {
    assert Itself(1000000.0) == 1000000.0 && Itself(600000.0) == 600000.0;
    NotOldApplied(1000000.0, Itself, 1000000.0);
    NotOldApplied(1000000.0, Itself, 600000.0);
    NotOldApplied(1100000.0, Itself, 600000.0);
    FilterAll([1000000.0, 600000.0], NotOld(1000000.0, Itself));
    FilterNone([600000.0, 600000.0], NotOld(1100000.0, Itself));
  }

  lemma OutOfOrderHistory()
    ensures DropOld([1000000.0] + [600000.0, 600000.0] + [1100000.0], 1100000.0, Itself)
         == [1000000.0, 1100000.0]
  {
    OutOfOrderTrims();
    assert Itself(1000000.0) == 1000000.0 && Itself(1100000.0) == 1100000.0;
    DropOldKeepsNew([1000000.0] + [600000.0, 600000.0], 1100000.0, 1100000.0, Itself);
    FilterConcat([1000000.0], [600000.0, 600000.0], NotOld(1100000.0, Itself));
    NotOldApplied(1100000.0, Itself, 1000000.0);
    FilterAll([1000000.0], NotOld(1100000.0, Itself));
  }

  /** What the window of the run below was before the last update, and what it had seen. */
  lemma OutOfOrderWindow(log: seq<Added<real>>)
    requires log == [Added(1000000.0, 1000000.0), Added(1000000.0, 600000.0), Added(1000000.0, 600000.0)]
    ensures Window([], Some(2), log, Itself) == [600000.0, 600000.0]
    ensures History([], log) == [1000000.0] + [600000.0, 600000.0]
  {
    var none: seq<real> := [];
    OutOfOrderTrims();
    assert log[..2][..1] == log[..1] && log[..1][..0] == [];
    assert Window(none, Some(2), log[..1], Itself) == [1000000.0];
    assert Window(none, Some(2), log[..2], Itself) == [1000000.0, 600000.0];
  }

  /** Such a run: two older stamps push
      a newer one out and are trimmed later, although the newer one is still fresh. */
  lemma OutOfOrderWindowForgets(log: seq<Added<real>>)
    requires log == [Added(1000000.0, 1000000.0), Added(1000000.0, 600000.0),
                     Added(1000000.0, 600000.0), Added(1100000.0, 1100000.0)]
    ensures Window([], Some(2), log, Itself) == [1100000.0]
    ensures LastN(DropOld(History([], log), 1100000.0, Itself), Some(2)) == [1000000.0, 1100000.0]
    ensures Forgets([], log, 2, Itself)
  {
    var none: seq<real> := [];
    OutOfOrderWindow(log[..3]);
    OutOfOrderTrims();
    OutOfOrderHistory();
    assert History(none, log) == [1000000.0] + [600000.0, 600000.0] + [1100000.0];
    DropOldKeepsNew(History(none, log[..3]), 1100000.0, 1100000.0, Itself);
    WindowForgetsIff(none, log, 2, Itself);
  }
}
