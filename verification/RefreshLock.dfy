/** The double-checked lock around refreshing the relay list, for any number of
    threads and any interleaving of their steps with the clock. */
module RefreshLock {
  import opened Wrappers

  /** One hour, in seconds: how often there is a new consensus. */
  const HOUR := 3600.0

  /** Where a thread is in reading the `relays` property. */
  datatype Thread =
    | Idle
    | Waiting      // saw a stale list without the lock, waits for it
    | Locked       // has the lock, tests again
    | Fetching     // has to refresh, the consensus is not recorded yet
    | Installing   // the consensus is recorded, the new list is not assigned yet
    | Ranking      // computes minimum bandwidths, reading the `relays` property itself
    | Deadlocked   // waits for the lock it holds
    | Releasing

  /** `relays` is the valid-after time of the consensus the current list comes from. */
  datatype System = System(now: real, lastConsensus: real, relays: real, holder: Option<nat>,
                           threads: seq<Thread>, refreshes: nat, episodes: nat)

  predicate Stale(s: System) { s.now >= s.lastConsensus + HOUR }

  /** A list is stale an hour after its consensus became valid. */
  lemma StaleAfterAnHour(s: System)
    ensures Stale(s) <==> s.now - s.lastConsensus >= 3600.0
  {
  }

  datatype Step =
    | Tick(to: real)
    | Check(i: nat)
    | Acquire(i: nat)
    | Recheck(i: nat)
    | Record(i: nat, validAfter: real)
    | Install(i: nat)
    | Rank(i: nat)
    | Release(i: nat)

  predicate At(s: System, i: nat, t: Thread) { i < |s.threads| && s.threads[i] == t }

  function Move(s: System, i: nat, t: Thread): System
    requires i < |s.threads|
  {
    s.(threads := s.threads[i := t])
  }

  /** One step; a step that is not possible changes nothing. A stale episode starts
      when the clock makes a fresh list stale. */
  function Next(s: System, step: Step): System {
    match step
    case Tick(to) =>
      if to >= s.now then
        var t := s.(now := to);
        t.(episodes := s.episodes + if !Stale(s) && Stale(t) then 1 else 0)
      else s
    case Check(i) => if At(s, i, Idle) && Stale(s) then Move(s, i, Waiting) else s
    case Acquire(i) =>
      if At(s, i, Waiting) && s.holder.None? then Move(s, i, Locked).(holder := Some(i)) else s
    case Recheck(i) =>
      if At(s, i, Locked) then Move(s, i, if Stale(s) then Fetching else Releasing) else s
    case Record(i, validAfter) =>
      if At(s, i, Fetching)
      then Move(s, i, Installing).(lastConsensus := validAfter, refreshes := s.refreshes + 1) else s
    case Install(i) =>
      if At(s, i, Installing) then Move(s, i, Ranking).(relays := s.lastConsensus) else s
    case Rank(i) =>
      if At(s, i, Ranking) then Move(s, i, if Stale(s) then Deadlocked else Releasing) else s
    case Release(i) =>
      if At(s, i, Releasing) then Move(s, i, Idle).(holder := None) else s
  }

  /** Whoever reads a list that is not stale does not wait for the lock. */
  lemma FreshReadersDoNotWait(s: System, i: nat)
    requires !Stale(s)
    ensures Next(s, Check(i)) == s
  {
  }

  function Initial(now: real, validAfter: real, threads: nat): System {
    var s := System(now, validAfter, validAfter, None, seq(threads, i => Idle), 0, 0);
    s.(episodes := if Stale(s) then 1 else 0)
  }

  function Run(s: System, steps: seq<Step>): System {
    if steps == [] then s else Next(Run(s, steps[..|steps| - 1]), steps[|steps| - 1])
  }

  /** A refresh records a consensus less than one hour old. */
  predicate RecordsFresh(s: System, step: Step) {
    step.Record? && At(s, step.i, Fetching) ==> s.now < step.validAfter + HOUR
  }

  predicate AllRecordsFresh(s: System, steps: seq<Step>) {
    forall k :: 0 <= k < |steps| ==> RecordsFresh(Run(s, steps[..k]), steps[k])
  }

  predicate InCritical(t: Thread) { t != Idle && t != Waiting }

  /** Only the holder of the lock is in the critical section. */
  ghost predicate Exclusive(s: System) {
    && (forall i :: 0 <= i < |s.threads| && InCritical(s.threads[i]) ==> s.holder == Some(i))
    && (s.holder.Some? ==> s.holder.value < |s.threads| && InCritical(s.threads[s.holder.value]))
  }

  ghost predicate FetchesWhenStale(s: System) {
    forall i :: 0 <= i < |s.threads| && s.threads[i] == Fetching ==> Stale(s)
  }

  /** Besides, it refreshes only when the list is stale, and in between the list is the one
      of the recorded consensus. */
  ghost predicate Inv(s: System) {
    Exclusive(s) && FetchesWhenStale(s) && (NoneInstalls(s) ==> s.relays == s.lastConsensus)
  }

  /** Every stale episode that is over was ended by exactly one refresh. */
  predicate OneRefreshPerEpisode(s: System) {
    s.episodes == s.refreshes + if Stale(s) then 1 else 0
  }

  /** No thread is about to assign a new list. */
  predicate NoneInstalls(s: System) { forall i :: 0 <= i < |s.threads| ==> s.threads[i] != Installing }

  lemma NextKeepsExclusion(s: System, step: Step)
    requires Exclusive(s)
    ensures Exclusive(Next(s, step))
  {
  }

  lemma NextKeepsStale(s: System, step: Step)
    requires Inv(s)
    ensures FetchesWhenStale(Next(s, step))
  {
  }

  lemma NextKeepsList(s: System, step: Step)
    requires Inv(s)
    ensures NoneInstalls(Next(s, step)) ==> Next(s, step).relays == Next(s, step).lastConsensus
  {
    var t := Next(s, step);
    if step.Record? && t != s {
      assert t.threads[step.i] == Installing;
    } else if !step.Tick? && !step.Install? && t != s && NoneInstalls(t) {
      forall j | 0 <= j < |s.threads| ensures s.threads[j] != Installing {
        assert j != step.i ==> t.threads[j] == s.threads[j];
      }
    }
  }

  lemma NextKeepsInv(s: System, step: Step)
    requires Inv(s)
    ensures Inv(Next(s, step))
  {
    NextKeepsExclusion(s, step);
    NextKeepsStale(s, step);
    NextKeepsList(s, step);
  }

  lemma NextKeepsCount(s: System, step: Step)
    requires Inv(s) && OneRefreshPerEpisode(s)
    ensures OneRefreshPerEpisode(Next(s, step)) <==> RecordsFresh(s, step)
  {
  }

  lemma InitialInv(now: real, validAfter: real, threads: nat)
    ensures Inv(Initial(now, validAfter, threads))
    ensures OneRefreshPerEpisode(Initial(now, validAfter, threads))
  {
  }

  /** Mutual exclusion in every run, whatever consensuses the refreshes record. */
  lemma {:induction false} RefreshesAreExclusive(now: real, validAfter: real, threads: nat, steps: seq<Step>)
    ensures Inv(Run(Initial(now, validAfter, threads), steps))
  {
    if steps == [] {
      InitialInv(now, validAfter, threads);
    } else {
      var before := steps[..|steps| - 1];
      RefreshesAreExclusive(now, validAfter, threads, before);
      NextKeepsInv(Run(Initial(now, validAfter, threads), before), steps[|steps| - 1]);
    }
  }

  /** Exactly one refresh per stale episode, after every prefix of a run, if and only if
      every refresh records a consensus less than one hour old. */
  lemma {:induction false} OneRefreshPerEpisodeIffFresh(now: real, validAfter: real, threads: nat, steps: seq<Step>)
    ensures var s := Initial(now, validAfter, threads);
            (forall k :: 0 <= k <= |steps| ==> OneRefreshPerEpisode(Run(s, steps[..k])))
            <==> AllRecordsFresh(s, steps)
  {
    var s := Initial(now, validAfter, threads);
    InitialInv(now, validAfter, threads);
    if AllRecordsFresh(s, steps) {
      forall k | 0 <= k <= |steps| ensures OneRefreshPerEpisode(Run(s, steps[..k])) {
        CountAfterPrefix(now, validAfter, threads, steps, k);
      }
    }
    if forall k :: 0 <= k <= |steps| ==> OneRefreshPerEpisode(Run(s, steps[..k])) {
      forall k | 0 <= k < |steps| ensures RecordsFresh(Run(s, steps[..k]), steps[k]) {
        RefreshesAreExclusive(now, validAfter, threads, steps[..k]);
        NextKeepsCount(Run(s, steps[..k]), steps[k]);
        RunExtends(s, steps, k);
        assert OneRefreshPerEpisode(Run(s, steps[..k])) && OneRefreshPerEpisode(Run(s, steps[..k + 1]));
      }
    }
  }

  lemma RunExtends(s: System, steps: seq<Step>, k: nat)
    requires k < |steps|
    ensures Run(s, steps[..k + 1]) == Next(Run(s, steps[..k]), steps[k])
  {
    assert steps[..k + 1][..k] == steps[..k];
  }

  lemma {:induction false} CountAfterPrefix(now: real, validAfter: real, threads: nat, steps: seq<Step>, k: nat)
    requires AllRecordsFresh(Initial(now, validAfter, threads), steps) && k <= |steps|
    ensures OneRefreshPerEpisode(Run(Initial(now, validAfter, threads), steps[..k]))
  {
    var s := Initial(now, validAfter, threads);
    if k == 0 {
      InitialInv(now, validAfter, threads);
    } else {
      CountAfterPrefix(now, validAfter, threads, steps, k - 1);
      RefreshesAreExclusive(now, validAfter, threads, steps[..k - 1]);
      NextKeepsCount(Run(s, steps[..k - 1]), steps[k - 1]);
      RunExtends(s, steps, k - 1);
    }
  }

  /** A list that is not stale is the list of the recorded consensus, except while its
      thread is between recording the consensus and assigning the list. */
  lemma FreshReadersSeeLastConsensus(now: real, validAfter: real, threads: nat, steps: seq<Step>)
    requires var s := Run(Initial(now, validAfter, threads), steps);
             s.relays != s.lastConsensus
    ensures var s := Run(Initial(now, validAfter, threads), steps);
            s.holder.Some? && At(s, s.holder.value, Installing)
  {
    RefreshesAreExclusive(now, validAfter, threads, steps);
  }

  predicate DeadlockedAs(s: System, t: System, i: nat) {
    && At(t, i, Deadlocked) && t.holder == Some(i)
    && t.refreshes == s.refreshes && t.lastConsensus == s.lastConsensus
  }

  lemma DeadlockStep(s: System, i: nat, step: Step)
    requires Inv(s) && At(s, i, Deadlocked)
    ensures DeadlockedAs(s, Next(s, step), i)
  {
  }

  /** A refresh whose consensus is an hour old again before the minimum bandwidths are
      computed waits for its own lock; after that the list is never refreshed again. */
  lemma {:induction false} DeadlockIsForever(s: System, i: nat, steps: seq<Step>)
    requires Inv(s) && At(s, i, Deadlocked)
    ensures Inv(Run(s, steps)) && DeadlockedAs(s, Run(s, steps), i)
    decreases |steps|
  {
    if steps != [] {
      var t := Run(s, steps[..|steps| - 1]);
      DeadlockIsForever(s, i, steps[..|steps| - 1]);
      NextKeepsInv(t, steps[|steps| - 1]);
      DeadlockStep(t, i, steps[|steps| - 1]);
    }
  }

  predicate SomeDeadlocked(s: System) { exists i :: 0 <= i < |s.threads| && s.threads[i] == Deadlocked }

  /** A thread computes the minimum bandwidths while the list is stale again. */
  predicate RanksStale(s: System, step: Step) { step.Rank? && At(s, step.i, Ranking) && Stale(s) }

  lemma DeadlocksNow(s: System, step: Step)
    requires Inv(s)
    ensures SomeDeadlocked(Next(s, step)) <==> SomeDeadlocked(s) || RanksStale(s, step)
  {
    var t := Next(s, step);
    if SomeDeadlocked(s) {
      var i :| 0 <= i < |s.threads| && s.threads[i] == Deadlocked;
      DeadlockStep(s, i, step);
      assert t.threads[i] == Deadlocked;
    } else if RanksStale(s, step) {
      assert t.threads[step.i] == Deadlocked;
    } else if i :| 0 <= i < |t.threads| && t.threads[i] == Deadlocked {
      assert i < |s.threads| && s.threads[i] != Deadlocked;
    }
  }

  /** Some step of the run was that. */
  ghost predicate RanStale(s: System, steps: seq<Step>) {
    exists k :: 0 <= k < |steps| && RanStaleAt(s, steps, k)
  }

  predicate RanStaleAt(s: System, steps: seq<Step>, k: nat)
    requires k < |steps|
  {
    RanksStale(Run(s, steps[..k]), steps[k])
  }

  lemma RanStaleSnoc(s: System, steps: seq<Step>)
    requires steps != []
    ensures var n := |steps| - 1; RanStale(s, steps) <==> RanStale(s, steps[..n]) || RanStaleAt(s, steps, n)
  {
    var n := |steps| - 1;
    forall k | 0 <= k < n ensures RanStaleAt(s, steps[..n], k) == RanStaleAt(s, steps, k) {
      assert steps[..n][..k] == steps[..k];
    }
  }

  /** In every run some thread ends up waiting for its own lock exactly when some thread
      computed the minimum bandwidths while its list was stale again. */
  lemma {:induction false} DeadlocksIffStale(now: real, validAfter: real, threads: nat, steps: seq<Step>)
    ensures SomeDeadlocked(Run(Initial(now, validAfter, threads), steps))
       <==> RanStale(Initial(now, validAfter, threads), steps)
    decreases |steps|
  {
    if steps != [] {
      var n := |steps| - 1;
      DeadlocksIffStale(now, validAfter, threads, steps[..n]);
      RefreshesAreExclusive(now, validAfter, threads, steps[..n]);
      DeadlocksNow(Run(Initial(now, validAfter, threads), steps[..n]), steps[n]);
      RanStaleSnoc(Initial(now, validAfter, threads), steps);
    }
  }

  lemma RunSnoc(s: System, steps: seq<Step>, step: Step)
    ensures Run(s, steps + [step]) == Next(Run(s, steps), step)
  {
    assert (steps + [step])[..|steps|] == steps;
  }

  /** A refresh by a single thread, up to computing the minimum bandwidths. */
  function RefreshSteps(validAfter: real): seq<Step> {
    [Check(0)] + [Acquire(0)] + [Recheck(0)] + [Record(0, validAfter)] + [Install(0)]
  }

  lemma RefreshStarts(s: System)
    requires s.threads == [Idle] && s.holder == None && Stale(s)
    ensures Run(s, [Check(0)] + [Acquire(0)]) == s.(threads := [Locked], holder := Some(0))
  {
    assert Run(s, [Check(0)][..0]) == s;
    assert Run(s, [Check(0)]) == s.(threads := [Waiting]);
    RunSnoc(s, [Check(0)], Acquire(0));
  }

  lemma RefreshFetches(s: System)
    requires s.threads == [Idle] && s.holder == None && Stale(s)
    ensures Run(s, [Check(0)] + [Acquire(0)] + [Recheck(0)]) == s.(threads := [Fetching], holder := Some(0))
  {
    RefreshStarts(s);
    RunSnoc(s, [Check(0)] + [Acquire(0)], Recheck(0));
  }

  lemma RefreshRuns(s: System, validAfter: real)
    requires s.threads == [Idle] && s.holder == None && Stale(s)
    ensures Run(s, RefreshSteps(validAfter))
         == System(s.now, validAfter, validAfter, Some(0), [Ranking], s.refreshes + 1, s.episodes)
  {
    RefreshFetches(s);
    RunSnoc(s, [Check(0)] + [Acquire(0)] + [Recheck(0)], Record(0, validAfter));
    RunSnoc(s, [Check(0)] + [Acquire(0)] + [Recheck(0)] + [Record(0, validAfter)], Install(0));
  }

  /** One thread is enough, when its refresh outlasts the hour of its consensus. */
  lemma SlowRefreshDeadlocks(s: System, validAfter: real, later: real)
    requires s == Initial(3600.0, 0.0, 1) && later >= validAfter + HOUR && later >= s.now
    ensures SomeDeadlocked(Run(s, RefreshSteps(validAfter) + [Tick(later)] + [Rank(0)]))
  {
    assert s.threads == [Idle];
    RefreshRuns(s, validAfter);
    RunSnoc(s, RefreshSteps(validAfter), Tick(later));
    RunSnoc(s, RefreshSteps(validAfter) + [Tick(later)], Rank(0));
    assert Run(s, RefreshSteps(validAfter) + [Tick(later)] + [Rank(0)]).threads[0] == Deadlocked;
  }
}
