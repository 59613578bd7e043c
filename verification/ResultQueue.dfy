/** The queue between the measurement threads and the thread that stores results,
    as a state machine whose steps any scheduler may interleave. */
module ResultQueue {
  import opened Results
  import opened Sequences

  /** What producers put in the queue. */
  datatype Item = Nothing | Single(result: Result) | Batch(results: seq<Result>) | Junk

  function Contents(item: Item): seq<Result> {
    match item
    case Single(r) => [r]
    case Batch(rs) => rs
    case _ => []
  }

  function Flat(items: seq<Item>): seq<Result> {
    if items == [] then [] else Contents(items[0]) + Flat(items[1..])
  }

  /** A list of results counts with all of them, and what is no result with none. */
  lemma ContentsOfOne(item: Item)
    ensures Flat([item]) == match item
                            case Nothing => []
                            case Single(r) => [r]
                            case Batch(rs) => rs
                            case Junk => []
  {
    assert [item][1..] == [];
  }

  datatype Fate = Stored | Ignored

  datatype Handled = Handled(result: Result, fate: Fate)

  /** Where the consumer thread is in its loop. */
  datatype Consumer =
    | AtLoopTest
    | EndSeen                       // the end event was set, the queue is not tested yet
    | AtGet
    | InHand(rest: seq<Result>)     // results of the item it took, not handled yet
    | Exited(seen: nat)             // left the loop when `seen` items had been put

  datatype System = System(endSet: bool, queue: seq<Item>, consumer: Consumer,
                           put: seq<Item>, handled: seq<Handled>)

  datatype Step = Put(item: Item) | Shutdown | TestEnd | TestEmpty | Get | GetTimeout | Handle

  const INITIAL := System(false, [], AtLoopTest, [], [])

  /** The types of results, as they are written. */
  datatype Kind = SuccessKind | MiscKind | CircKind | StreamKind | AuthKind | SecondRelayKind | DestinationKind

  /** An error about destinations has the type of one about second relays. */
  function KindOf(r: Result): Kind {
    match r
    case ResultSuccess(_, _, _, _, _, _) => SuccessKind
    case ResultError(_, _, e) =>
      match e
      case ErrorMisc => MiscKind
      case ErrorCirc => CircKind
      case ErrorStream => StreamKind
      case ErrorAuth => AuthKind
      case ErrorSecondRelay => SecondRelayKind
      case ErrorDestination => SecondRelayKind
  }

  /** Each kind of result is written as its own, except that of an error about destinations. */
  lemma KindsDiffer(fp: string, time: real, a: ErrorType, b: ErrorType)
    ensures KindOf(ResultError(fp, time, a)) == KindOf(ResultError(fp, time, b))
       <==> a == b || {a, b} == {ErrorSecondRelay, ErrorDestination}
  {
  }

  /** One handled result: errors are ignored while shutting down, everything else is
      stored, and a result of the destination type then sets the end event. */
  function HandleResult(s: System): System
    requires s.consumer.InHand? && s.consumer.rest != []
  {
    var r, rest := s.consumer.rest[0], s.consumer.rest[1..];
    if r.ResultError? && s.endSet then
      s.(consumer := InHand(rest), handled := s.handled + [Handled(r, Ignored)])
    else
      s.(consumer := InHand(rest), handled := s.handled + [Handled(r, Stored)],
         endSet := s.endSet || KindOf(r) == DestinationKind)
  }

  /** One step of any thread; a step that is not possible changes nothing. */
  function Next(s: System, step: Step): System {
    match step
    case Put(item) => s.(queue := s.queue + [item], put := s.put + [item])
    case Shutdown => s.(endSet := true)
    case TestEnd =>
      if s.consumer.AtLoopTest? then s.(consumer := if s.endSet then EndSeen else AtGet) else s
    case TestEmpty =>
      if s.consumer.EndSeen? then s.(consumer := if s.queue == [] then Exited(|s.put|) else AtGet) else s
    case Get =>
      if s.consumer.AtGet? && s.queue != []
      then s.(queue := s.queue[1..], consumer := InHand(Contents(s.queue[0]))) else s
    case GetTimeout =>
      if s.consumer.AtGet? && s.queue == [] then s.(consumer := AtLoopTest) else s
    case Handle =>
      if s.consumer.InHand? then
        if s.consumer.rest == [] then s.(consumer := AtLoopTest) else HandleResult(s)
      else s
  }

  function Run(steps: seq<Step>): System {
    if steps == [] then INITIAL else Next(Run(steps[..|steps| - 1]), steps[|steps| - 1])
  }

  function HandledResults(hs: seq<Handled>): seq<Result> { Map(hs, (h: Handled) => h.result) }

  function Rest(c: Consumer): seq<Result> { if c.InHand? then c.rest else [] }

  /** Nothing is lost, duplicated or reordered. */
  ghost predicate Conserved(s: System) {
    Flat(s.put) == HandledResults(s.handled) + Rest(s.consumer) + Flat(s.queue)
  }

  /** Only errors are ignored, and only once the end event is set. */
  ghost predicate IgnoresErrorsOnly(s: System) {
    forall h :: h in s.handled && h.fate.Ignored? ==> h.result.ResultError? && s.endSet
  }

  /** The consumer leaves once the end event is set, with everything handled. */
  ghost predicate LeavesNothing(s: System) {
    && (s.consumer.EndSeen? ==> s.endSet)
    && (s.consumer.Exited? ==>
          && s.endSet
          && s.consumer.seen <= |s.put|
          && s.queue == s.put[s.consumer.seen..]
          && HandledResults(s.handled) == Flat(s.put[..s.consumer.seen]))
  }

  ghost predicate Inv(s: System) { Conserved(s) && IgnoresErrorsOnly(s) && LeavesNothing(s) }

  lemma {:induction false} FlatConcat(xs: seq<Item>, ys: seq<Item>)
    ensures Flat(xs + ys) == Flat(xs) + Flat(ys)
  {
    if xs == [] {
      assert xs + ys == ys;
    } else {
      assert (xs + ys)[1..] == xs[1..] + ys;
      FlatConcat(xs[1..], ys);
    }
  }

  lemma PrefixAndRest(items: seq<Item>, item: Item, n: nat)
    requires n <= |items|
    ensures (items + [item])[..n] == items[..n] && (items + [item])[n..] == items[n..] + [item]
  {
  }

  lemma PutConserves(s: System, item: Item)
    requires Conserved(s)
    ensures Conserved(Next(s, Put(item)))
  {
    FlatConcat(s.put, [item]);
    FlatConcat(s.queue, [item]);
    Associative(HandledResults(s.handled) + Rest(s.consumer), Flat(s.queue), Flat([item]));
  }

  lemma PutKeepsInv(s: System, item: Item)
    requires Inv(s)
    ensures Inv(Next(s, Put(item)))
  {
    PutConserves(s, item);
    if s.consumer.Exited? { PrefixAndRest(s.put, item, s.consumer.seen); }
  }

  lemma HandledSnoc(hs: seq<Handled>, h: Handled)
    ensures HandledResults(hs + [h]) == HandledResults(hs) + [h.result]
  {
  }

  lemma HandleConserves(s: System)
    requires Conserved(s) && s.consumer.InHand? && s.consumer.rest != []
    ensures Conserved(HandleResult(s))
  {
    var r, rest := s.consumer.rest[0], s.consumer.rest[1..];
    assert s.consumer.rest == [r] + rest;
    HandledSnoc(s.handled, Handled(r, if r.ResultError? && s.endSet then Ignored else Stored));
    Associative(HandledResults(s.handled), [r], rest);
  }

  lemma HandleIgnoresErrorsOnly(s: System)
    requires IgnoresErrorsOnly(s) && s.consumer.InHand? && s.consumer.rest != []
    ensures IgnoresErrorsOnly(HandleResult(s))
  {
  }

  lemma HandleKeepsInv(s: System)
    requires Inv(s)
    ensures Inv(Next(s, Handle))
  {
    if s.consumer.InHand? && s.consumer.rest != [] {
      HandleConserves(s);
      HandleIgnoresErrorsOnly(s);
    }
  }

  lemma GetKeepsInv(s: System)
    requires Inv(s)
    ensures Inv(Next(s, Get))
  {
    if s.consumer.AtGet? && s.queue != [] { assert s.queue == [s.queue[0]] + s.queue[1..]; }
  }

  lemma TestEmptyKeepsInv(s: System)
    requires Inv(s)
    ensures Inv(Next(s, TestEmpty))
  {
    if s.consumer.EndSeen? && s.queue == [] { assert s.put[..|s.put|] == s.put; }
  }

  lemma NextKeepsInv(s: System, step: Step)
    requires Inv(s)
    ensures Inv(Next(s, step))
  {
    match step
    case Put(item) => PutKeepsInv(s, item);
    case Handle => HandleKeepsInv(s);
    case TestEmpty => TestEmptyKeepsInv(s);
    case Get => GetKeepsInv(s);
    case _ =>
  }

  /** The invariant holds after every interleaving of producers, shutdown and consumer. */
  lemma {:induction false} RunKeepsInv(steps: seq<Step>)
    ensures Inv(Run(steps))
  {
    if steps != [] {
      RunKeepsInv(steps[..|steps| - 1]);
      NextKeepsInv(Run(steps[..|steps| - 1]), steps[|steps| - 1]);
    }
  }

  function IsStored(): Handled -> bool { (h: Handled) => h.fate.Stored? }

  function IsIgnored(): Handled -> bool { (h: Handled) => h.fate.Ignored? }

  function StoredResults(s: System): seq<Result> { HandledResults(Filter(s.handled, IsStored())) }

  lemma {:induction false} StoredPlusIgnored(hs: seq<Handled>)
    ensures |hs| == |Filter(hs, IsStored())| + |Filter(hs, IsIgnored())|
  {
    if hs != [] { StoredPlusIgnored(hs[1..]); }
  }

  /** Results put = stored + ignored + in the consumer's hand + still queued. */
  lemma ResultsAreConserved(steps: seq<Step>)
    ensures var s := Run(steps);
            |Flat(s.put)| == |StoredResults(s)| + |Filter(s.handled, IsIgnored())|
                             + |Rest(s.consumer)| + |Flat(s.queue)|
  {
    RunKeepsInv(steps);
    StoredPlusIgnored(Run(steps).handled);
  }

  lemma {:induction false} SuccessesAreStored(hs: seq<Handled>)
    requires forall h :: h in hs && h.fate.Ignored? ==> h.result.ResultError?
    ensures Filter(HandledResults(hs), IsSuccess())
         == Filter(HandledResults(Filter(hs, IsStored())), IsSuccess())
  {
    if hs != [] {
      var h, rest := hs[0], hs[1..];
      SuccessesAreStored(rest);
      assert hs == [h] + rest;
      StoredOfCons(h, rest);
      FilterCons(h.result, HandledResults(rest), IsSuccess());
      var stored := HandledResults(Filter(rest, IsStored()));
      FilterCons(h.result, stored, IsSuccess());
      assert [] + stored == stored && [] + Filter(stored, IsSuccess()) == Filter(stored, IsSuccess());
      assert h in hs;
    }
  }

  lemma StoredOfCons(h: Handled, rest: seq<Handled>)
    ensures HandledResults([h] + rest) == [h.result] + HandledResults(rest)
    ensures HandledResults(Filter([h] + rest, IsStored()))
         == (if h.fate.Stored? then [h.result] else []) + HandledResults(Filter(rest, IsStored()))
  {
    FilterCons(h, rest, IsStored());
  }

  /** When the consumer has left, every success put before that is stored, in order. */
  lemma NoSuccessIsLost(steps: seq<Step>)
    requires Run(steps).consumer.Exited?
    ensures var s := Run(steps);
            && s.consumer.seen <= |s.put|
            && Filter(StoredResults(s), IsSuccess())
               == Filter(Flat(s.put[..s.consumer.seen]), IsSuccess())
  {
    RunKeepsInv(steps);
    SuccessesAreStored(Run(steps).handled);
  }

  /** What is put after the consumer has left is never handled. */
  lemma {:induction false} LatePutsAreLost(steps: seq<Step>, more: seq<Step>)
    requires Run(steps).consumer.Exited?
    ensures Run(steps + more).handled == Run(steps).handled
    ensures Run(steps + more).consumer == Run(steps).consumer
    decreases |more|
  {
    if more == [] {
      assert steps + more == steps;
    } else {
      var fewer := more[..|more| - 1];
      assert (steps + more)[..|steps + more| - 1] == steps + fewer;
      LatePutsAreLost(steps, fewer);
    }
  }

  lemma EndSetBy(s: System, step: Step)
    ensures Next(s, step).endSet <==> s.endSet || step == Shutdown
  {
  }

  /** No result sets the end event, not even an error about destinations: in every run it is
      set exactly when somebody else has shut the scanner down. */
  lemma {:induction false} OnlyShutdownEnds(steps: seq<Step>)
    ensures Run(steps).endSet <==> Shutdown in steps
  {
    if steps != [] {
      var n := |steps| - 1;
      OnlyShutdownEnds(steps[..n]);
      EndSetBy(Run(steps[..n]), steps[n]);
      assert steps == steps[..n] + [steps[n]];
    }
  }

  lemma StepHandles(s: System, step: Step)
    ensures s.handled <= Next(s, step).handled && |Next(s, step).handled| <= |s.handled| + 1
    ensures |Next(s, step).handled| > |s.handled| ==>
              var h := Next(s, step).handled[|s.handled|];
              h.fate.Ignored? <==> h.result.ResultError? && s.endSet
  {
  }

  /** Once the scanner is shut down, of what is handled exactly the errors are not stored. */
  lemma {:induction false} ErrorsAreIgnoredOnceShutDown(steps: seq<Step>, more: seq<Step>)
    requires Shutdown in steps
    ensures var s, t := Run(steps), Run(steps + more);
            && s.handled <= t.handled
            && forall k :: |s.handled| <= k < |t.handled| ==>
                 (t.handled[k].fate.Ignored? <==> t.handled[k].result.ResultError?)
    decreases |more|
  {
    if more == [] {
      assert steps + more == steps;
    } else {
      var fewer := more[..|more| - 1];
      assert (steps + more)[..|steps + more| - 1] == steps + fewer;
      ErrorsAreIgnoredOnceShutDown(steps, fewer);
      OnlyShutdownEnds(steps + fewer);
      StepHandles(Run(steps + fewer), more[|more| - 1]);
    }
  }

  /** Before that everything that is handled is stored. */
  lemma {:induction false} AllIsStoredBeforeShutDown(steps: seq<Step>)
    requires Shutdown !in steps
    ensures forall h :: h in Run(steps).handled ==> h.fate.Stored?
  {
    if steps != [] {
      var n := |steps| - 1;
      assert steps == steps[..n] + [steps[n]];
      AllIsStoredBeforeShutDown(steps[..n]);
      OnlyShutdownEnds(steps[..n]);
      StepHandles(Run(steps[..n]), steps[n]);
    }
  }

  /** Once the consumer has left, every success ever put is stored if and only if none is
      left in the queue. */
  lemma AllSuccessesStoredIff(steps: seq<Step>)
    requires Run(steps).consumer.Exited?
    ensures var s := Run(steps);
            Filter(StoredResults(s), IsSuccess()) == Filter(Flat(s.put), IsSuccess())
            <==> Filter(Flat(s.queue), IsSuccess()) == []
  {
    var s := Run(steps);
    RunKeepsInv(steps);
    NoSuccessIsLost(steps);
    var stored, late := Filter(StoredResults(s), IsSuccess()), Filter(Flat(s.queue), IsSuccess());
    SplitSuccesses(s.put, s.consumer.seen);
    SameIffNothingMore(stored, late);
  }

  /** The successes of some puts are those of the first n of them and of the others. */
  lemma SplitSuccesses(puts: seq<Item>, n: nat)
    requires n <= |puts|
    ensures Filter(Flat(puts), IsSuccess())
         == Filter(Flat(puts[..n]), IsSuccess()) + Filter(Flat(puts[n..]), IsSuccess())
  {
    assert puts == puts[..n] + puts[n..];
    FlatConcat(puts[..n], puts[n..]);
    FilterConcat(Flat(puts[..n]), Flat(puts[n..]), IsSuccess());
  }

  lemma SameIffNothingMore(xs: seq<Result>, more: seq<Result>)
    ensures xs == xs + more <==> more == []
  {
    if more == [] { assert xs + more == xs; } else { assert |xs + more| > |xs|; }
  }

  lemma RunSnoc(steps: seq<Step>, step: Step)
    ensures Run(steps + [step]) == Next(Run(steps), step)
  {
    assert (steps + [step])[..|steps|] == steps;
  }

  /** What the consumer does next. */
  function NextMove(s: System): Step {
    match s.consumer
    case AtLoopTest => TestEnd
    case EndSeen => TestEmpty
    case AtGet => if s.queue == [] then GetTimeout else Get
    case _ => Handle
  }

  /** How far it is from leaving, once the queue is empty. */
  function Distance(s: System): nat {
    match s.consumer
    case InHand(rest) => 5 + |rest|
    case AtGet => if s.queue == [] then 4 else 1
    case AtLoopTest => 3
    case EndSeen => 2
    case Exited(_) => 0
  }

  lemma MoveIsCloser(s: System)
    requires s.endSet && !s.consumer.Exited?
    ensures var t := Next(s, NextMove(s));
            && t.endSet && t.put == s.put
            && (|t.queue| < |s.queue| || (t.queue == s.queue && Distance(t) < Distance(s)))
  {
  }

  /** The consumer has left in u with every success stored that was put in s. */
  ghost predicate LeftWithAll(s: System, u: System) {
    && u.consumer.Exited? && u.put == s.put
    && Filter(StoredResults(u), IsSuccess()) == Filter(Flat(s.put), IsSuccess())
  }

  lemma {:induction false} LeavesNow(steps: seq<Step>, step: Step)
    requires !Run(steps).consumer.Exited? && step == NextMove(Run(steps)) && Run(steps + [step]).consumer.Exited?
    ensures LeftWithAll(Run(steps), Run(steps + [step]))
  {
    var t := Run(steps + [step]);
    RunSnoc(steps, step);
    NoSuccessIsLost(steps + [step]);
    assert t.put[..t.consumer.seen] == t.put;
  }

  lemma {:induction false} OneMove(steps: seq<Step>, step: Step)
    requires Run(steps).endSet && !Run(steps).consumer.Exited? && step == NextMove(Run(steps))
    ensures var s, t := Run(steps), Run(steps + [step]);
            && t.endSet && t.put == s.put
            && (|t.queue| < |s.queue| || (t.queue == s.queue && Distance(t) < Distance(s)))
  {
    RunSnoc(steps, step);
    MoveIsCloser(Run(steps));
  }

  lemma {:induction false} LeftWithAllBefore(s: System, t: System, u: System)
    requires t.put == s.put && LeftWithAll(t, u)
    ensures LeftWithAll(s, u)
  {
  }

  /** However far a run has got, once the end event is set the consumer can go on alone until
      it leaves, and then every success put so far is stored. */
  lemma {:induction false} ConsumerCanLeave(steps: seq<Step>) returns (more: seq<Step>)
    requires Run(steps).endSet && !Run(steps).consumer.Exited?
    ensures LeftWithAll(Run(steps), Run(steps + more))
    decreases |Run(steps).queue|, Distance(Run(steps))
  {
    var step := NextMove(Run(steps));
    OneMove(steps, step);
    if Run(steps + [step]).consumer.Exited? {
      LeavesNow(steps, step);
      more := [step];
    } else {
      var rest := ConsumerCanLeave(steps + [step]);
      more := [step] + rest;
      Associative(steps, [step], rest);
      LeftWithAllBefore(Run(steps), Run(steps + [step]), Run(steps + more));
    }
  }

  /** Such a run: a success that is put once the consumer has left stays in the queue. */
  lemma SuccessPutTooLate(r: Result)
    requires r.ResultSuccess?
    ensures var s := Run([Shutdown] + [TestEnd] + [TestEmpty] + [Put(Single(r))]);
            && s.consumer.Exited?
            && Filter(StoredResults(s), IsSuccess()) == [] && Filter(Flat(s.queue), IsSuccess()) == [r]
  {
    assert Run([Shutdown][..0]) == INITIAL;
    assert Run([Shutdown]) == INITIAL.(endSet := true);
    RunSnoc([Shutdown], TestEnd);
    RunSnoc([Shutdown] + [TestEnd], TestEmpty);
    RunSnoc([Shutdown] + [TestEnd] + [TestEmpty], Put(Single(r)));
    var s := Run([Shutdown] + [TestEnd] + [TestEmpty] + [Put(Single(r))]);
    assert s == System(true, [Single(r)], Exited(0), [Single(r)], []);
    assert Flat(s.queue) == [r] by { assert s.queue[1..] == []; }
    assert Filter([r], IsSuccess()) == [r] by { assert [r][1..] == []; }
  }
}
