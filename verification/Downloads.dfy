/** The adaptive download loop of the scanner: how many bytes to request next,
    which measurements to keep, and when the loop ends. */
module Downloads {
  import opened Arithmetic
  import opened Wrappers

  type Seconds = t: real | 0.0 <= t

  datatype Thresholds = Thresholds(tooFast: real, min: real, target: real, max: real)

  const DEFAULT_TIMES := Thresholds(1.0, 5.0, 6.0, 10.0)

  /** The `[scanner]` options the loop reads. */
  datatype Settings = Settings(numDownloads: nat, initial: int, minDl: int, maxDl: int,
                               times: Thresholds)
  {
    /** What the validation of the configuration file enforces. */
    predicate Valid() { initial >= 1 && minDl >= 1 && maxDl >= 1 && times.tooFast > 0.0 }
  }

  datatype Download = Download(duration: Seconds, amount: int)

  datatype Reply = Failed | Took(seconds: Seconds)

  /** What the web server does with the i-th request, for the given number of bytes. */
  type Server = (nat, int) -> Reply

  /** Python's `int` of a float: truncation toward zero. */
  function Truncate(x: real): (i: int)
    ensures if x >= 0.0 then i as real <= x < i as real + 1.0 else i as real - 1.0 < x <= i as real
  {
    if x >= 0.0 then x.Floor else -((-x).Floor)
  }

  predicate ShouldKeepResult(didRequestMaximum: bool, time: real, times: Thresholds) {
    if !didRequestMaximum && time >= times.min && time < times.max then true
    else if didRequestMaximum && time < times.max then true
    else false
  }

  /** The size that would have taken the target time at the observed rate. */
  function Aimed(amount: int, target: real, time: real): real
    requires time > 0.0
  {
    amount as real * target / time
  }

  function NextExpectedAmount(amount: int, time: Seconds, s: Settings): int
    requires s.times.tooFast > 0.0
  {
    var adjusted :=
      if time < s.times.tooFast then amount * 5
      else if time < s.times.min || time >= s.times.max
      then Truncate(Aimed(amount, s.times.target, time))
      else amount;
    var atLeast := if s.minDl >= adjusted then s.minDl else adjusted;
    if s.maxDl <= atLeast then s.maxDl else atLeast
  }

  // ----- The loop as a state machine over its requests

  datatype Loop = Loop(requests: nat, amount: int, results: seq<Download>, failed: bool)

  predicate Finished(s: Settings, l: Loop) { l.failed || |l.results| >= s.numDownloads }

  function StepLoop(s: Settings, server: Server, l: Loop): Loop
    requires s.Valid()
  {
    if Finished(s, l) then l
    else match server(l.requests, l.amount)
      case Failed => l.(requests := l.requests + 1, failed := true)
      case Took(time) =>
        Loop(l.requests + 1,
             NextExpectedAmount(l.amount, time, s),
             if ShouldKeepResult(l.amount == s.maxDl, time, s.times)
             then l.results + [Download(time, l.amount)] else l.results,
             false)
  }

  /** The loop after n turns, or as soon as it has finished. */
  function RunLoop(s: Settings, server: Server, n: nat): Loop
    requires s.Valid()
  {
    if n == 0 then Loop(0, s.initial, [], false) else StepLoop(s, server, RunLoop(s, server, n - 1))
  }

  /** The range asks for exactly `size` bytes, all of them in the content. */
  predicate Fits(range: (int, int), size: int, contentLength: int) {
    0 <= range.0 <= range.1 < contentLength && range.1 - range.0 + 1 == size
  }

  /** The i-th range asks for what the loop requests at its i-th turn. */
  ghost predicate FollowsLoop(s: Settings, server: Server, ranges: seq<(int, int)>, contentLength: int)
    requires s.Valid()
  {
    forall i :: 0 <= i < |ranges| ==> Fits(ranges[i], RunLoop(s, server, i).amount, contentLength)
  }

  /** A random range of `size` bytes of the content, both ends included; None stands for the
      error of choosing from no range, when the content is smaller. */
  method GetRandomRange(contentLength: int, size: int) returns (range: Option<(int, int)>)
    requires size >= 1
    ensures range.None? <==> size > contentLength
    ensures range.Some? ==> Fits(range.value, size, contentLength)
  {
    if size > contentLength { return None; }
    var start :| 0 <= start < contentLength - size + 1;
    range := Some((start, start + size - 1));
  }

  /** What measuring comes to: an error that is raised, a request that failed, or results. */
  datatype Measurement = Raised | RequestFailed | Measured(results: seq<Download>)

  /** Some request that is made within the first n is for more than the content. */
  ghost predicate AsksTooMuch(s: Settings, server: Server, contentLength: int, n: nat)
    requires s.Valid()
  {
    exists i :: 0 <= i < n && !Finished(s, RunLoop(s, server, i)) && RunLoop(s, server, i).amount > contentLength
  }

  function SizeOf(range: (int, int)): int { range.1 - range.0 + 1 }

  /** What the server answers to the k-th request made. */
  function Answer(server: Server, ranges: seq<(int, int)>, k: nat): Reply
    requires k < |ranges|
  {
    server(k, SizeOf(ranges[k]))
  }

  /** A reply counts if it takes less than the maximum time and, unless it has the largest
      size, no less than the minimum. */
  predicate Counts(s: Settings, size: int, reply: Reply) {
    reply.Took? && reply.seconds < s.times.max && (reply.seconds >= s.times.min || size == s.maxDl)
  }

  /** The replies to the first n requests made that count, with their sizes, in order. */
  function Counting(s: Settings, server: Server, ranges: seq<(int, int)>, n: nat): seq<Download>
    requires n <= |ranges|
  {
    if n == 0 then []
    else
      var size, reply := SizeOf(ranges[n - 1]), Answer(server, ranges, n - 1);
      Counting(s, server, ranges, n - 1) + if Counts(s, size, reply) then [Download(reply.seconds, size)] else []
  }

  /** The k-th request is made with too few results so far; its size is that of the settings,
      or follows from the reply to the one before it, which did not fail. */
  predicate IsRequest(s: Settings, server: Server, ranges: seq<(int, int)>, k: nat)
    requires s.times.tooFast > 0.0 && k < |ranges|
  {
    && |Counting(s, server, ranges, k)| < s.numDownloads
    && if k == 0 then SizeOf(ranges[0]) == s.initial
       else
         var reply := Answer(server, ranges, k - 1);
         reply.Took? && SizeOf(ranges[k]) == NextExpectedAmount(SizeOf(ranges[k - 1]), reply.seconds, s)
  }

  /** What measuring comes to, by the requests that were made and the replies to them: a
      failed one is the last, and the results are those that count. */
  ghost predicate Transcript(s: Settings, server: Server, ranges: seq<(int, int)>, n: nat, outcome: Measurement)
    requires s.times.tooFast > 0.0
  {
    && (forall k :: 0 <= k < |ranges| ==> IsRequest(s, server, ranges, k))
    && (outcome.RequestFailed? <==> exists k :: 0 <= k < |ranges| && Answer(server, ranges, k).Failed?)
    && (outcome.RequestFailed? ==> ranges != [] && Answer(server, ranges, |ranges| - 1).Failed?)
    && (outcome.Measured? ==>
          && outcome.results == Counting(s, server, ranges, |ranges|)
          && (|outcome.results| >= s.numDownloads || |ranges| == n))
  }

  /** What counts is the reply to a request that was made, with its size and duration. */
  lemma {:induction false} CountingAreReplies(s: Settings, server: Server, ranges: seq<(int, int)>, n: nat, d: Download)
    requires n <= |ranges|
    ensures d in Counting(s, server, ranges, n)
       <==> exists k :: 0 <= k < n && Answer(server, ranges, k) == Took(d.duration) && SizeOf(ranges[k]) == d.amount
                        && Counts(s, d.amount, Took(d.duration))
  {
    if n > 0 {
      CountingAreReplies(s, server, ranges, n - 1, d);
      var reply := Answer(server, ranges, n - 1);
      assert reply.Took? ==> reply == Took(reply.seconds);
    }
  }

  lemma {:induction false} OneTurn(s: Settings, server: Server, i: nat, amount: int, kept: seq<Download>)
    requires s.Valid() && RunLoop(s, server, i) == Loop(i, amount, kept, false) && |kept| < s.numDownloads
    ensures RunLoop(s, server, i + 1)
         == match server(i, amount)
            case Failed => Loop(i + 1, amount, kept, true)
            case Took(time) =>
              Loop(i + 1, NextExpectedAmount(amount, time, s),
                   if ShouldKeepResult(amount == s.maxDl, time, s.times) then kept + [Download(time, amount)] else kept,
                   false)
  {
  }

  /** How far the loop got in n turns, with an error if it was raised. */
  ghost predicate ComesTo(s: Settings, server: Server, contentLength: int, n: nat, outcome: Measurement, made: nat)
    requires s.Valid()
  {
    if outcome.Raised? then
      && AsksTooMuch(s, server, contentLength, n)
      && RunLoop(s, server, made).requests == made && !RunLoop(s, server, made).failed
    else
      var l := RunLoop(s, server, n);
      && !AsksTooMuch(s, server, contentLength, n)
      && outcome == (if l.failed then RequestFailed else Measured(l.results)) && made == l.requests
  }

  /** The loop: until it has enough results, a request fails, or the end event is set, which
      happens after `shutdownAfter` requests. */
  method MakeRequests(s: Settings, server: Server, contentLength: int, shutdownAfter: nat)
    returns (outcome: Measurement, ranges: seq<(int, int)>)
    requires s.Valid()
    ensures ComesTo(s, server, contentLength, shutdownAfter, outcome, |ranges|)
    ensures FollowsLoop(s, server, ranges, contentLength)
  {
    var kept, amount, i := [], s.initial, 0;
    ranges := [];
    while |kept| < s.numDownloads && i < shutdownAfter
      invariant i <= shutdownAfter && |ranges| == i
      invariant RunLoop(s, server, i) == Loop(i, amount, kept, false)
      invariant amount >= 1 && !AsksTooMuch(s, server, contentLength, i)
      invariant FollowsLoop(s, server, ranges, contentLength)
    {
      var range := GetRandomRange(contentLength, amount);
      if range.None? { return Raised, ranges; }
      OneMoreAsked(s, server, ranges, range.value, contentLength);
      ranges := ranges + [range.value];
      var reply := server(i, amount);
      OneTurn(s, server, i, amount, kept);
      i := i + 1;
      if reply.Failed? {
        NothingAskedAfter(s, server, contentLength, i, shutdownAfter);
        return RequestFailed, ranges;
      }
      if ShouldKeepResult(amount == s.maxDl, reply.seconds, s.times) {
        kept := kept + [Download(reply.seconds, amount)];
      }
      amount := NextExpectedAmount(amount, reply.seconds, s);
    }
    NothingAskedAfter(s, server, contentLength, i, shutdownAfter);
    outcome := Measured(kept);
  }

  /** What measuring comes to, told by the loop's state and by the requests that were made. */
  method MeasureBandwidthToServer(s: Settings, server: Server, contentLength: int, shutdownAfter: nat)
    returns (outcome: Measurement, ranges: seq<(int, int)>)
    requires s.Valid()
    ensures outcome.Raised? <==> AsksTooMuch(s, server, contentLength, shutdownAfter)
    ensures var l := RunLoop(s, server, shutdownAfter);
            !outcome.Raised? ==>
              && outcome == (if l.failed then RequestFailed else Measured(l.results))
              && |ranges| == l.requests
    ensures FollowsLoop(s, server, ranges, contentLength)
    ensures Transcript(s, server, ranges, shutdownAfter, outcome)
  {
    outcome, ranges := MakeRequests(s, server, contentLength, shutdownAfter);
    if outcome.Raised? {
      RaisedTranscribed(s, server, ranges, contentLength, shutdownAfter);
    } else {
      OutcomeTranscribed(s, server, ranges, contentLength, shutdownAfter, outcome);
    }
  }

  /** A loop that has made a request in each of n turns had not finished before the last. */
  lemma LastTurn(s: Settings, server: Server, n: nat)
    requires s.Valid() && n > 0 && RunLoop(s, server, n).requests == n
    ensures var l := RunLoop(s, server, n - 1);
            l.requests == n - 1 && !Finished(s, l) && RunLoop(s, server, n) == StepLoop(s, server, l)
  {
    RunStops(s, server, n - 1);
  }

  lemma TurnKeeps(s: Settings, server: Server, l: Loop)
    requires s.Valid() && !Finished(s, l)
    ensures var reply, next := server(l.requests, l.amount), StepLoop(s, server, l);
            && (next.failed <==> reply.Failed?)
            && next.results
               == l.results + (if Counts(s, l.amount, reply) then [Download(reply.seconds, l.amount)] else [])
            && (reply.Took? ==> next.amount == NextExpectedAmount(l.amount, reply.seconds, s))
  {
  }

  /** What a turn that makes the k-th request does with the reply. */
  predicate IsTurn(s: Settings, server: Server, ranges: seq<(int, int)>, k: nat, l: Loop, next: Loop)
    requires k < |ranges|
  {
    var size, reply := SizeOf(ranges[k]), Answer(server, ranges, k);
    && (next.failed <==> reply.Failed?)
    && next.results == l.results + if Counts(s, size, reply) then [Download(reply.seconds, size)] else []
  }

  lemma {:induction false} CountingOfTurns(s: Settings, server: Server, ranges: seq<(int, int)>, ls: seq<Loop>, n: nat)
    requires n < |ls| <= |ranges| + 1 && ls[0].results == [] && !ls[0].failed
    requires forall k :: 0 <= k < n ==> IsTurn(s, server, ranges, k, ls[k], ls[k + 1])
    ensures ls[n].results == Counting(s, server, ranges, n)
    ensures ls[n].failed <==> n > 0 && Answer(server, ranges, n - 1).Failed?
  {
    if n > 0 {
      CountingOfTurns(s, server, ranges, ls, n - 1);
      assert IsTurn(s, server, ranges, n - 1, ls[n - 1], ls[n]);
    }
  }

  lemma {:induction false} LoopTurns(s: Settings, server: Server, ranges: seq<(int, int)>, contentLength: int, k: nat)
    requires s.Valid() && k < |ranges| && FollowsLoop(s, server, ranges, contentLength)
    requires RunLoop(s, server, k + 1).requests == k + 1
    ensures IsTurn(s, server, ranges, k, RunLoop(s, server, k), RunLoop(s, server, k + 1))
  {
    LastTurn(s, server, k + 1);
    SizeIsAmount(s, server, ranges, contentLength, k);
    TurnKeeps(s, server, RunLoop(s, server, k));
  }

  /** After n requests the loop has failed if the last one did, and has kept what counts. */
  lemma {:induction false} LoopKeepsCounting(s: Settings, server: Server, ranges: seq<(int, int)>, contentLength: int,
                                             n: nat)
    requires s.Valid() && n <= |ranges| && FollowsLoop(s, server, ranges, contentLength)
    requires RunLoop(s, server, n).requests == n
    ensures RunLoop(s, server, n).results == Counting(s, server, ranges, n)
    ensures RunLoop(s, server, n).failed <==> n > 0 && Answer(server, ranges, n - 1).Failed?
  {
    var ls := LoopsOf(s, server, n);
    forall k | 0 <= k < n ensures IsTurn(s, server, ranges, k, ls[k], ls[k + 1]) {
      if k + 1 < n { NotFinishedYet(s, server, k + 1, n); }
      LoopTurns(s, server, ranges, contentLength, k);
    }
    CountingOfTurns(s, server, ranges, ls, n);
  }

  function LoopsOf(s: Settings, server: Server, n: nat): (ls: seq<Loop>)
    requires s.Valid()
    ensures |ls| == n + 1 && forall k :: 0 <= k <= n ==> ls[k] == RunLoop(s, server, k)
  {
    seq(n + 1, k requires 0 <= k <= n => RunLoop(s, server, k))
  }

  lemma SizeIsAmount(s: Settings, server: Server, ranges: seq<(int, int)>, contentLength: int, k: nat)
    requires s.Valid() && k < |ranges| && FollowsLoop(s, server, ranges, contentLength)
    ensures SizeOf(ranges[k]) == RunLoop(s, server, k).amount
  {
    assert Fits(ranges[k], RunLoop(s, server, k).amount, contentLength);
  }

  /** The size of a request follows from the reply to the one before it. */
  lemma SizeFollows(s: Settings, server: Server, ranges: seq<(int, int)>, contentLength: int, k: nat)
    requires s.Valid() && 0 < k < |ranges| && FollowsLoop(s, server, ranges, contentLength)
    requires RunLoop(s, server, k).requests == k && !RunLoop(s, server, k).failed
    ensures var reply := Answer(server, ranges, k - 1);
            reply.Took? && SizeOf(ranges[k]) == NextExpectedAmount(SizeOf(ranges[k - 1]), reply.seconds, s)
  {
    LastTurn(s, server, k);
    SizeIsAmount(s, server, ranges, contentLength, k - 1);
    SizeIsAmount(s, server, ranges, contentLength, k);
    TurnKeeps(s, server, RunLoop(s, server, k - 1));
  }

  /** Before it has made all its requests the loop has not finished. */
  lemma {:induction false} NotFinishedYet(s: Settings, server: Server, k: nat, n: nat)
    requires s.Valid() && k < n && RunLoop(s, server, n).requests == n
    ensures RunLoop(s, server, k).requests == k && !Finished(s, RunLoop(s, server, k))
    decreases n
  {
    LastTurn(s, server, n);
    if k < n - 1 { NotFinishedYet(s, server, k, n - 1); }
  }

  /** The requests are made one after the other. */
  lemma LoopRequests(s: Settings, server: Server, ranges: seq<(int, int)>, contentLength: int, k: nat)
    requires s.Valid() && k < |ranges| && FollowsLoop(s, server, ranges, contentLength)
    requires RunLoop(s, server, |ranges|).requests == |ranges|
    ensures IsRequest(s, server, ranges, k)
  {
    NotFinishedYet(s, server, k, |ranges|);
    LoopKeepsCounting(s, server, ranges, contentLength, k);
    SizeIsAmount(s, server, ranges, contentLength, k);
    if k > 0 { SizeFollows(s, server, ranges, contentLength, k); }
  }

  lemma OnlyLastFails(s: Settings, server: Server, ranges: seq<(int, int)>, k: nat)
    requires s.Valid() && k < |ranges| && Answer(server, ranges, k).Failed?
    requires forall j :: 0 <= j < |ranges| ==> IsRequest(s, server, ranges, j)
    ensures k == |ranges| - 1
  {
    assert k + 1 < |ranges| ==> !IsRequest(s, server, ranges, k + 1);
  }

  lemma RequestsMade(s: Settings, server: Server, ranges: seq<(int, int)>, contentLength: int)
    requires s.Valid() && FollowsLoop(s, server, ranges, contentLength)
    requires RunLoop(s, server, |ranges|).requests == |ranges|
    ensures forall k :: 0 <= k < |ranges| ==> IsRequest(s, server, ranges, k)
    ensures RunLoop(s, server, |ranges|).failed <==> exists k :: 0 <= k < |ranges| && Answer(server, ranges, k).Failed?
  {
    forall k | 0 <= k < |ranges| ensures IsRequest(s, server, ranges, k) {
      LoopRequests(s, server, ranges, contentLength, k);
    }
    LoopKeepsCounting(s, server, ranges, contentLength, |ranges|);
    FailsLast(s, server, ranges);
  }

  lemma FailsLast(s: Settings, server: Server, ranges: seq<(int, int)>)
    requires s.Valid() && forall k :: 0 <= k < |ranges| ==> IsRequest(s, server, ranges, k)
    ensures (exists k :: 0 <= k < |ranges| && Answer(server, ranges, k).Failed?)
       <==> ranges != [] && Answer(server, ranges, |ranges| - 1).Failed?
  {
    if k :| 0 <= k < |ranges| && Answer(server, ranges, k).Failed? { OnlyLastFails(s, server, ranges, k); }
  }

  /** What the loop comes to, in terms of the requests that were made. */
  lemma OutcomeTranscribed(s: Settings, server: Server, ranges: seq<(int, int)>, contentLength: int, n: nat,
                           outcome: Measurement)
    requires s.Valid() && FollowsLoop(s, server, ranges, contentLength)
    requires var l := RunLoop(s, server, n);
             |ranges| == l.requests && outcome == if l.failed then RequestFailed else Measured(l.results)
    ensures Transcript(s, server, ranges, n, outcome)
  {
    RunStops(s, server, n);
    RequestsMade(s, server, ranges, contentLength);
    LoopKeepsCounting(s, server, ranges, contentLength, |ranges|);
  }

  /** The loop is at rest after as many turns as it made requests. */
  lemma {:induction false} RunStops(s: Settings, server: Server, n: nat)
    requires s.Valid()
    ensures var l := RunLoop(s, server, n); l.requests <= n && RunLoop(s, server, l.requests) == l
    ensures RunLoop(s, server, n).requests == n || Finished(s, RunLoop(s, server, n))
  {
    if n > 0 { RunStops(s, server, n - 1); }
  }

  /** An error that is raised comes after requests that did not fail. */
  lemma RaisedTranscribed(s: Settings, server: Server, ranges: seq<(int, int)>, contentLength: int, n: nat)
    requires s.Valid() && FollowsLoop(s, server, ranges, contentLength)
    requires RunLoop(s, server, |ranges|).requests == |ranges| && !RunLoop(s, server, |ranges|).failed
    ensures Transcript(s, server, ranges, n, Raised)
  {
    RequestsMade(s, server, ranges, contentLength);
  }

  /** A request within the content is one more that the loop makes. */
  lemma OneMoreAsked(s: Settings, server: Server, ranges: seq<(int, int)>, range: (int, int), contentLength: int)
    requires s.Valid() && FollowsLoop(s, server, ranges, contentLength)
    requires !AsksTooMuch(s, server, contentLength, |ranges|)
    requires Fits(range, RunLoop(s, server, |ranges|).amount, contentLength)
    ensures FollowsLoop(s, server, ranges + [range], contentLength)
    ensures !AsksTooMuch(s, server, contentLength, |ranges| + 1)
  {
  }

  lemma NothingAskedAfter(s: Settings, server: Server, contentLength: int, i: nat, n: nat)
    requires s.Valid() && i <= n && (i == n || Finished(s, RunLoop(s, server, i)))
    requires !AsksTooMuch(s, server, contentLength, i)
    ensures !AsksTooMuch(s, server, contentLength, n) && RunLoop(s, server, n) == RunLoop(s, server, i)
  {
    FinishedStays(s, server, i, n);
    forall j | i <= j < n ensures Finished(s, RunLoop(s, server, j)) { FinishedStays(s, server, i, j); }
  }

  lemma {:induction false} LaterAmounts(s: Settings, server: Server, n: nat)
    requires s.Valid() && n >= 1
    ensures Finished(s, RunLoop(s, server, n)) || RunLoop(s, server, n).amount <= s.maxDl
  {
    if n > 1 { LaterAmounts(s, server, n - 1); }
  }

  /** For a content as large as the largest request, which is what connecting checks, the error
      is raised exactly when the first request is larger. */
  lemma RaisedIffFirstTooLarge(s: Settings, server: Server, contentLength: int, n: nat)
    requires s.Valid() && s.maxDl <= contentLength
    ensures AsksTooMuch(s, server, contentLength, n) <==> n >= 1 && s.numDownloads >= 1 && s.initial > contentLength
  {
    if i :| 0 <= i < n && !Finished(s, RunLoop(s, server, i)) && RunLoop(s, server, i).amount > contentLength {
      if i >= 1 { LaterAmounts(s, server, i); }
    }
    if n >= 1 && s.numDownloads >= 1 && s.initial > contentLength {
      assert !Finished(s, RunLoop(s, server, 0));
    }
  }

  lemma {:induction false} FinishedStays(s: Settings, server: Server, i: nat, n: nat)
    requires s.Valid() && i <= n && (i == n || Finished(s, RunLoop(s, server, i)))
    ensures RunLoop(s, server, n) == RunLoop(s, server, i)
    decreases n
  {
    if i < n { FinishedStays(s, server, i, n - 1); }
  }

  // ----- A link of constant rate

  /** How long a link of b bytes per second takes. */
  function LinkTime(a: int, b: real): (t: Seconds)
    requires b > 0.0
  {
    if a <= 0 then 0.0 else PositiveQuotient(a as real, b); a as real / b
  }

  /** A server behind a link of b bytes per second. */
  function ConstantLink(b: real): Server
    requires b > 0.0
  {
    (i: nat, amount: int) => Took(LinkTime(amount, b))
  }

  /** Thresholds for which the controller works on a link of b bytes per second;
      the defaults are among them for every b of at least one. */
  predicate Workable(s: Settings, b: real) {
    && s.Valid() && s.minDl <= s.maxDl && b > 0.0
    && var t := s.times;
       && t.tooFast <= t.min <= t.target < t.max && 5.0 * t.tooFast <= t.max
       && (t.target - t.min) * b >= 1.0
  }

  lemma DefaultsAreWorkable(s: Settings, b: real)
    requires s.initial >= 1 && 1 <= s.minDl <= s.maxDl && s.times == DEFAULT_TIMES
    ensures Workable(s, b) <==> b >= 1.0
  {
    assert (s.times.target - s.times.min) * b == b;
  }

  /** The number of bytes a constant link delivers in the given time. */
  function Bytes(time: real, b: real): real { time * b }

  lemma LinkTimeOrder(a: int, b: real, t: real)
    requires a >= 1 && b > 0.0
    ensures LinkTime(a, b) < t <==> a as real < Bytes(t, b)
  {
    QuotientOfProduct(t, b);
    QuotientOrder(t * b, a as real, b);
  }

  lemma LinkAims(a: int, b: real, target: real)
    requires a >= 1 && b > 0.0
    ensures LinkTime(a, b) > 0.0
    ensures Aimed(a, target, LinkTime(a, b)) == Bytes(target, b)
  {
    var x := a as real;
    PositiveQuotient(x, b);
    Quotient(x, b);
    var t := x / b;
    QuotientOfProduct(target * b, t);
    assert target * b * t == target * (t * b);
    assert x * target == target * x;
  }

  predicate LinkKeeps(s: Settings, b: real, a: int) {
    a as real < Bytes(s.times.max, b) && (a == s.maxDl || a as real >= Bytes(s.times.min, b))
  }

  function Clamp(s: Settings, a: int): int {
    var atLeast := if s.minDl >= a then s.minDl else a;
    if s.maxDl <= atLeast then s.maxDl else atLeast
  }

  function LinkNext(s: Settings, b: real, a: int): int {
    var x := a as real;
    Clamp(s, if x < Bytes(s.times.tooFast, b) then a * 5
             else if x < Bytes(s.times.min, b) || x >= Bytes(s.times.max, b)
             then Truncate(Bytes(s.times.target, b))
             else a)
  }

  /** On a constant link times can be read as sizes. */
  lemma LinkStep(s: Settings, b: real, a: int)
    requires s.Valid() && b > 0.0 && a >= 1
    ensures ShouldKeepResult(a == s.maxDl, LinkTime(a, b), s.times) == LinkKeeps(s, b, a)
    ensures NextExpectedAmount(a, LinkTime(a, b), s) == LinkNext(s, b, a)
  {
    LinkTimeOrder(a, b, s.times.tooFast);
    LinkTimeOrder(a, b, s.times.min);
    LinkTimeOrder(a, b, s.times.max);
    LinkAims(a, b, s.times.target);
  }

  /** A size the controller never leaves again. */
  predicate Settled(s: Settings, b: real, a: int) {
    && LinkKeeps(s, b, a)
    && LinkNext(s, b, a) == a
  }

  /** The thresholds in bytes, with the relations the proofs need. */
  lemma ThresholdsInBytes(s: Settings, b: real)
    requires Workable(s, b)
    ensures var t := s.times;
            && 0.0 < Bytes(t.tooFast, b) <= Bytes(t.min, b)
            && Bytes(t.min, b) + 1.0 <= Bytes(t.target, b) < Bytes(t.max, b)
            && 5.0 * Bytes(t.tooFast, b) <= Bytes(t.max, b)
  {
    var t := s.times;
    assert t.tooFast * b > 0.0;
    ScaleRealOrder(t.tooFast, t.min, b);
    ScaleRealOrder(5.0 * t.tooFast, t.max, b);
    assert t.target * b < t.max * b;
  }

  /** Whatever is kept settles the controller. */
  lemma KeptSettles(s: Settings, b: real, a: int)
    requires Workable(s, b) && s.minDl as real < Bytes(s.times.max, b)
    requires a >= 1 && LinkKeeps(s, b, a)
    ensures Settled(s, b, LinkNext(s, b, a))
  {
    ThresholdsInBytes(s, b);
  }

  /** Aiming at the target settles the controller at once. */
  lemma TargetSettles(s: Settings, b: real, a: int)
    requires Workable(s, b) && s.minDl as real < Bytes(s.times.max, b)
    requires a >= 1 && a as real >= Bytes(s.times.tooFast, b) && !LinkKeeps(s, b, a)
    ensures Settled(s, b, LinkNext(s, b, a))
  {
    ThresholdsInBytes(s, b);
  }

  lemma MaxSettles(s: Settings, b: real)
    requires Workable(s, b) && s.maxDl as real < Bytes(s.times.max, b)
    ensures Settled(s, b, s.maxDl)
  {
    ThresholdsInBytes(s, b);
  }

  /** How many times a can be multiplied by five before reaching the limit. */
  function Growth(a: nat, limit: real): (g: nat)
    requires a >= 1
    decreases if limit.Floor >= a then limit.Floor - a + 1 else 0
  {
    if a as real >= limit then 0 else 1 + Growth(5 * a, limit)
  }

  function Pow5(k: nat): nat { if k == 0 then 1 else 5 * Pow5(k - 1) }

  lemma {:induction false} GrowthIsLogarithmic(a: nat, limit: real)
    requires a >= 1 && Growth(a, limit) > 0
    ensures (Pow5(Growth(a, limit) - 1) * a) as real < limit
    decreases Growth(a, limit)
  {
    var g := Growth(5 * a, limit);
    if g > 0 {
      GrowthIsLogarithmic(5 * a, limit);
      assert Pow5(g - 1) * (5 * a) == Pow5(g) * a;
    }
  }

  lemma {:induction false} GrowthAntitone(a: nat, c: nat, limit: real)
    requires 1 <= a <= c
    ensures Growth(c, limit) <= Growth(a, limit)
    decreases Growth(a, limit)
  {
    if a as real < limit { GrowthAntitone(5 * a, 5 * c, limit); }
  }

  /** The size from which the controller stops multiplying by five. */
  function GrowthLimit(s: Settings, b: real): real {
    var tooFast := Bytes(s.times.tooFast, b);
    if tooFast < s.maxDl as real then tooFast else s.maxDl as real
  }

  /** An upper bound on the requests still to be discarded. */
  function Wasted(s: Settings, b: real, a: nat): nat
    requires a >= 1
  {
    if Settled(s, b, a) then 0 else Growth(a, GrowthLimit(s, b)) + 1
  }

  /** Every discarded request uses up some of the bound. */
  lemma DiscardDecreases(s: Settings, b: real, a: nat)
    requires Workable(s, b) && s.minDl as real < Bytes(s.times.max, b)
    requires a >= 1 && !LinkKeeps(s, b, a)
    ensures LinkNext(s, b, a) >= 1
    ensures Wasted(s, b, LinkNext(s, b, a)) < Wasted(s, b, a)
  {
    ThresholdsInBytes(s, b);
    if a as real >= Bytes(s.times.tooFast, b) {
      TargetSettles(s, b, a);
    } else if LinkNext(s, b, a) == s.maxDl {
      MaxSettles(s, b);
    } else {
      GrowthAntitone(5 * a, LinkNext(s, b, a), GrowthLimit(s, b));
    }
  }

  function Discarded(l: Loop): int { l.requests - |l.results| }

  /** The whole run on a constant link: what has been wasted and what can still be. */
  lemma {:induction false} ConstantLinkInvariant(s: Settings, b: real, n: nat)
    requires Workable(s, b) && s.minDl as real < Bytes(s.times.max, b)
    ensures var l := RunLoop(s, ConstantLink(b), n);
            && !l.failed && l.amount >= 1
            && |l.results| <= s.numDownloads
            && (|l.results| < s.numDownloads ==> l.requests == n)
            && (|l.results| > 0 ==> Settled(s, b, l.amount))
            && Discarded(l) + Wasted(s, b, l.amount) <= Growth(s.initial, GrowthLimit(s, b)) + 1
  {
    if n > 0 {
      ConstantLinkInvariant(s, b, n - 1);
      var l := RunLoop(s, ConstantLink(b), n - 1);
      LinkStep(s, b, l.amount);
      if !Finished(s, l) {
        if LinkKeeps(s, b, l.amount) {
          KeptSettles(s, b, l.amount);
          assert LinkNext(s, b, l.amount) >= 1;
        } else {
          DiscardDecreases(s, b, l.amount);
        }
      }
    }
  }

  /** Only logarithmically many requests (base five) and two more are discarded. */
  lemma FewRequestsAreDiscarded(s: Settings, b: real, n: nat)
    requires Workable(s, b) && s.minDl as real < Bytes(s.times.max, b)
    ensures var d := Discarded(RunLoop(s, ConstantLink(b), n));
            d >= 2 ==> (Pow5(d - 2) * s.initial) as real < GrowthLimit(s, b)
  {
    ConstantLinkInvariant(s, b, n);
    var d := Discarded(RunLoop(s, ConstantLink(b), n));
    var g := Growth(s.initial, GrowthLimit(s, b));
    if d >= 2 {
      GrowthIsLogarithmic(s.initial, GrowthLimit(s, b));
      Pow5Monotone(d - 2, g - 1);
      ScaleOrder(Pow5(d - 2), Pow5(g - 1), s.initial);
    }
  }

  lemma {:induction false} Pow5Monotone(i: nat, j: nat)
    requires i <= j
    ensures Pow5(i) <= Pow5(j)
    decreases j
  {
    if i < j { Pow5Monotone(i, j - 1); }
  }

  /** Once a request is kept, so is every later one. */
  lemma KeptThenAlwaysKept(s: Settings, b: real, n: nat)
    requires Workable(s, b) && s.minDl as real < Bytes(s.times.max, b)
    requires 0 < |RunLoop(s, ConstantLink(b), n).results| < s.numDownloads
    ensures var l := RunLoop(s, ConstantLink(b), n);
            RunLoop(s, ConstantLink(b), n + 1).results
            == l.results + [Download(LinkTime(l.amount, b), l.amount)]
  {
    ConstantLinkInvariant(s, b, n);
    LinkStep(s, b, RunLoop(s, ConstantLink(b), n).amount);
  }

  /** The loop ends with exactly the wanted number of results. */
  lemma EndsWithAllResults(s: Settings, b: real, n: nat)
    requires Workable(s, b) && s.minDl as real < Bytes(s.times.max, b)
    requires n >= Growth(s.initial, GrowthLimit(s, b)) + 1 + s.numDownloads
    ensures var l := RunLoop(s, ConstantLink(b), n);
            !l.failed && |l.results| == s.numDownloads
  {
    ConstantLinkInvariant(s, b, n);
  }

  // ----- Exactly when the loop collects its results

  ghost predicate Collects(s: Settings, b: real)
    requires s.Valid() && b > 0.0
  {
    exists n: nat :: |RunLoop(s, ConstantLink(b), n).results| == s.numDownloads
  }

  /** One turn on a constant link, in sizes. */
  lemma LinkTurn(s: Settings, b: real, n: nat)
    requires s.Valid() && b > 0.0 && RunLoop(s, ConstantLink(b), n).amount >= 1
    requires !RunLoop(s, ConstantLink(b), n).failed
    ensures var l, m := RunLoop(s, ConstantLink(b), n), RunLoop(s, ConstantLink(b), n + 1);
            m == if |l.results| >= s.numDownloads then l
                 else Loop(l.requests + 1, LinkNext(s, b, l.amount),
                           if LinkKeeps(s, b, l.amount)
                           then l.results + [Download(LinkTime(l.amount, b), l.amount)] else l.results,
                           false)
  {
    LinkStep(s, b, RunLoop(s, ConstantLink(b), n).amount);
  }

  /** The size of the n-th request of a loop that never has enough. */
  function SizeAt(s: Settings, b: real, n: nat): int {
    if n == 0 then s.initial else LinkNext(s, b, SizeAt(s, b, n - 1))
  }

  function One(kept: bool): nat { if kept then 1 else 0 }

  /** How many of the first n requests it keeps. */
  function KeptUpTo(s: Settings, b: real, n: nat): nat {
    if n == 0 then 0 else KeptUpTo(s, b, n - 1) + One(LinkKeeps(s, b, SizeAt(s, b, n - 1)))
  }

  /** Within the limits of a request, the upper one first. */
  predicate Clamped(s: Settings, a: int) { 1 <= a <= s.maxDl && (a >= s.minDl || a == s.maxDl) }

  lemma {:induction false} SizesAreClamped(s: Settings, b: real, n: nat)
    requires s.Valid()
    ensures SizeAt(s, b, n) >= 1 && (n >= 1 ==> Clamped(s, SizeAt(s, b, n)))
  {
    if n > 0 { SizesAreClamped(s, b, n - 1); }
  }

  /** The loop keeps what is kept in all, up to as many as it wants. */
  lemma {:induction false} RunKeepsUpTo(s: Settings, b: real, n: nat)
    requires s.Valid() && b > 0.0
    ensures var l, kept := RunLoop(s, ConstantLink(b), n), KeptUpTo(s, b, n);
            && !l.failed && l.amount >= 1
            && |l.results| == (if kept <= s.numDownloads then kept else s.numDownloads)
            && (kept < s.numDownloads ==> l.amount == SizeAt(s, b, n))
  {
    if n > 0 {
      RunKeepsUpTo(s, b, n - 1);
      LinkTurn(s, b, n - 1);
      SizesAreClamped(s, b, n - 1);
      SizesAreClamped(s, b, n);
    }
  }

  // Where the sizes go: a size grows as long as it comes back too fast; the size it has then
  // stays, or is followed by the target size, which grows in its turn.

  /** The size of every request that aims at the target time. */
  function TargetSize(s: Settings, b: real): int { Clamp(s, Truncate(Bytes(s.times.target, b))) }

  predicate Grows(s: Settings, b: real, a: int) { a < s.maxDl && a as real < Bytes(s.times.tooFast, b) }

  /** What a size has grown to when it no longer grows. */
  function Grown(s: Settings, b: real, a: int): (g: int)
    requires s.Valid() && a >= 1
    ensures g >= a && !Grows(s, b, g)
    decreases s.maxDl - a
  {
    if Grows(s, b, a) then Grown(s, b, Clamp(s, a * 5)) else a
  }

  /** How many of the sizes from a to what it grows to are kept. */
  function KeptGrowing(s: Settings, b: real, a: int): (k: nat)
    requires s.Valid() && a >= 1
    ensures k >= One(LinkKeeps(s, b, Grown(s, b, a)))
    decreases s.maxDl - a
  {
    One(LinkKeeps(s, b, a)) + if Grows(s, b, a) then KeptGrowing(s, b, Clamp(s, a * 5)) else 0
  }

  predicate Stays(s: Settings, b: real, a: int) { LinkNext(s, b, a) == a }

  /** How many requests are kept from size a on; None when there is no end to them. */
  function Supply(s: Settings, b: real, a: int): Option<nat>
    requires s.Valid() && a >= 1
  {
    var g, t := Grown(s, b, a), TargetSize(s, b);
    if Stays(s, b, g) then
      if LinkKeeps(s, b, g) then None else Some(KeptGrowing(s, b, a))
    else if Stays(s, b, Grown(s, b, t)) then
      if LinkKeeps(s, b, Grown(s, b, t)) then None
      else Some(KeptGrowing(s, b, a) + KeptGrowing(s, b, t))
    else if KeptGrowing(s, b, t) > 0 then None
    else Some(KeptGrowing(s, b, a))
  }

  lemma GrownIsClamped(s: Settings, b: real, a: int)
    requires s.Valid() && Clamped(s, a)
    ensures Clamped(s, Grown(s, b, a))
    decreases s.maxDl - a
  {
    if Grows(s, b, a) { GrownIsClamped(s, b, Clamp(s, a * 5)); }
  }

  /** A size that no longer grows stays or is followed by the target size. */
  lemma AfterGrowth(s: Settings, b: real, g: int)
    requires s.Valid() && Clamped(s, g) && !Grows(s, b, g)
    ensures Stays(s, b, g) || LinkNext(s, b, g) == TargetSize(s, b)
  {
  }

  /** Of what is kept from a size on, the next size leaves the rest. */
  lemma SupplyStep(s: Settings, b: real, a: int)
    requires s.Valid() && Clamped(s, a)
    ensures LinkNext(s, b, a) >= 1
    ensures Supply(s, b, a).None? <==> Supply(s, b, LinkNext(s, b, a)).None?
    ensures Supply(s, b, a).Some? ==>
              Supply(s, b, a).value == One(LinkKeeps(s, b, a)) + Supply(s, b, LinkNext(s, b, a)).value
  {
    if !Grows(s, b, a) { AfterGrowth(s, b, a); }
  }

  lemma {:induction false} SupplyInvariant(s: Settings, b: real, n: nat)
    requires s.Valid() && n >= 1
    ensures SizeAt(s, b, n) >= 1 && SizeAt(s, b, 1) >= 1
    ensures var first, rest := Supply(s, b, SizeAt(s, b, 1)), Supply(s, b, SizeAt(s, b, n));
            && (first.None? <==> rest.None?)
            && (first.Some? ==> KeptUpTo(s, b, n) + rest.value == KeptUpTo(s, b, 1) + first.value)
  {
    SizesAreClamped(s, b, n);
    SizesAreClamped(s, b, 1);
    if n > 1 {
      SupplyInvariant(s, b, n - 1);
      SizesAreClamped(s, b, n - 1);
      SupplyStep(s, b, SizeAt(s, b, n - 1));
    }
  }

  /** The growth of the n-th size ends at a later one. */
  lemma {:induction false} GrowthEnds(s: Settings, b: real, n: nat, a: int) returns (m: nat)
    requires s.Valid() && n >= 1 && SizeAt(s, b, n) == a >= 1
    ensures m >= n && SizeAt(s, b, m) == Grown(s, b, a)
    ensures KeptUpTo(s, b, m + 1) == KeptUpTo(s, b, n) + KeptGrowing(s, b, a)
    decreases s.maxDl - a
  {
    if Grows(s, b, a) {
      m := GrowthEnds(s, b, n + 1, Clamp(s, a * 5));
    } else {
      m := n;
    }
  }

  /** After the growth of the n-th size and, unless it stays, of the target size. */
  lemma BothGrowthsEnd(s: Settings, b: real, n: nat) returns (m: nat)
    requires s.Valid() && n >= 1 && SizeAt(s, b, n) >= 1 && !Stays(s, b, Grown(s, b, SizeAt(s, b, n)))
    ensures m > n
    ensures KeptUpTo(s, b, m)
         == KeptUpTo(s, b, n) + KeptGrowing(s, b, SizeAt(s, b, n)) + KeptGrowing(s, b, TargetSize(s, b))
  {
    var i := GrowthEnds(s, b, n, SizeAt(s, b, n));
    TargetFollows(s, b, i);
    var j := GrowthEnds(s, b, i + 1, TargetSize(s, b));
    m := j + 1;
  }

  lemma TargetFollows(s: Settings, b: real, i: nat)
    requires s.Valid() && i >= 1 && !Grows(s, b, SizeAt(s, b, i)) && !Stays(s, b, SizeAt(s, b, i))
    ensures SizeAt(s, b, i + 1) == TargetSize(s, b) && TargetSize(s, b) >= 1
  {
    SizesAreClamped(s, b, i);
    AfterGrowth(s, b, SizeAt(s, b, i));
  }

  /** A limited supply is delivered in full. */
  lemma SupplyIsDelivered(s: Settings, b: real) returns (m: nat)
    requires s.Valid() && SizeAt(s, b, 1) >= 1 && Supply(s, b, SizeAt(s, b, 1)).Some?
    ensures KeptUpTo(s, b, m) == KeptUpTo(s, b, 1) + Supply(s, b, SizeAt(s, b, 1)).value
  {
    if Stays(s, b, Grown(s, b, SizeAt(s, b, 1))) {
      m := GrowthEnds(s, b, 1, SizeAt(s, b, 1));
      m := m + 1;
    } else {
      m := BothGrowthsEnd(s, b, 1);
    }
  }

  /** An unlimited one always has one more. */
  lemma OneMoreIsKept(s: Settings, b: real, n: nat) returns (m: nat)
    requires s.Valid() && n >= 1 && SizeAt(s, b, n) >= 1 && Supply(s, b, SizeAt(s, b, n)).None?
    ensures m > n && KeptUpTo(s, b, m) > KeptUpTo(s, b, n)
  {
    if Stays(s, b, Grown(s, b, SizeAt(s, b, n))) {
      m := GrowthEnds(s, b, n, SizeAt(s, b, n));
      m := m + 1;
    } else {
      m := BothGrowthsEnd(s, b, n);
    }
  }

  lemma {:induction false} UnlimitedSupply(s: Settings, b: real, k: nat) returns (n: nat)
    requires s.Valid() && SizeAt(s, b, 1) >= 1 && Supply(s, b, SizeAt(s, b, 1)).None?
    ensures n >= 1 && KeptUpTo(s, b, n) >= k
  {
    if k == 0 {
      n := 1;
    } else {
      var before := UnlimitedSupply(s, b, k - 1);
      SupplyInvariant(s, b, before);
      n := OneMoreIsKept(s, b, before);
    }
  }

  /** For any thresholds, sizes and limits and any constant link: the loop ends if and only if
      the first request and the supply from the second on are as many as it wants. */
  lemma CollectsIff(s: Settings, b: real)
    requires s.Valid() && b > 0.0
    ensures LinkNext(s, b, s.initial) >= 1
    ensures var supply := Supply(s, b, LinkNext(s, b, s.initial));
            Collects(s, b) <==>
              supply.None? || One(LinkKeeps(s, b, s.initial)) + supply.value >= s.numDownloads
  {
    SizesAreClamped(s, b, 1);
    assert SizeAt(s, b, 0) == s.initial && SizeAt(s, b, 1) == LinkNext(s, b, s.initial);
    var supply := Supply(s, b, SizeAt(s, b, 1));
    assert KeptUpTo(s, b, 1) == One(LinkKeeps(s, b, s.initial));
    if supply.None? {
      var n := UnlimitedSupply(s, b, s.numDownloads);
      RunKeepsUpTo(s, b, n);
    } else {
      var m := SupplyIsDelivered(s, b);
      RunKeepsUpTo(s, b, m);
      forall n: nat ensures |RunLoop(s, ConstantLink(b), n).results| <= KeptUpTo(s, b, 1) + supply.value {
        NoMoreThanSupply(s, b, n, supply.value);
      }
    }
  }

  lemma NoMoreThanSupply(s: Settings, b: real, n: nat, supply: nat)
    requires s.Valid() && b > 0.0 && SizeAt(s, b, 1) >= 1 && Supply(s, b, SizeAt(s, b, 1)) == Some(supply)
    ensures |RunLoop(s, ConstantLink(b), n).results| <= KeptUpTo(s, b, 1) + supply
  {
    RunKeepsUpTo(s, b, n);
    if n >= 1 { SupplyInvariant(s, b, n); }
  }

  // ----- Thresholds in ascending order

  predicate Ascending(t: Thresholds) { 0.0 < t.tooFast <= t.min <= t.target < t.max }

  lemma AscendingInBytes(s: Settings, b: real)
    requires Ascending(s.times) && b > 0.0
    ensures var t := s.times;
            0.0 < Bytes(t.tooFast, b) <= Bytes(t.min, b) <= Bytes(t.target, b) < Bytes(t.max, b)
  {
    var t := s.times;
    assert t.tooFast * b > 0.0;
    ScaleRealOrder(t.tooFast, t.min, b);
    ScaleRealOrder(t.min, t.target, b);
    assert t.target * b < t.max * b;
  }

  /** Then a size that is kept stays, and one that grows is not kept. */
  lemma KeptStays(s: Settings, b: real, a: int)
    requires s.Valid() && Ascending(s.times) && b > 0.0 && Clamped(s, a)
    ensures LinkKeeps(s, b, a) ==> Stays(s, b, a)
    ensures Grows(s, b, a) ==> !LinkKeeps(s, b, a)
  {
    AscendingInBytes(s, b);
  }

  lemma {:induction false} OnlyGrownIsKept(s: Settings, b: real, a: int)
    requires s.Valid() && Ascending(s.times) && b > 0.0 && Clamped(s, a)
    ensures KeptGrowing(s, b, a) == One(LinkKeeps(s, b, Grown(s, b, a)))
    ensures LinkKeeps(s, b, Grown(s, b, a)) ==> Stays(s, b, Grown(s, b, a))
    decreases s.maxDl - a
  {
    KeptStays(s, b, a);
    if Grows(s, b, a) { OnlyGrownIsKept(s, b, Clamp(s, a * 5)); }
  }

  /** What is not kept and stays is the target size. */
  lemma StuckAtTarget(s: Settings, b: real, g: int)
    requires s.Valid() && Ascending(s.times) && b > 0.0 && Clamped(s, g) && !Grows(s, b, g)
    requires !LinkKeeps(s, b, g)
    ensures LinkNext(s, b, g) == TargetSize(s, b)
  {
    AscendingInBytes(s, b);
  }

  lemma AscendingSupply(s: Settings, b: real, a: int)
    requires s.Valid() && Ascending(s.times) && b > 0.0 && Clamped(s, a)
    ensures Supply(s, b, a)
         == if LinkKeeps(s, b, Grown(s, b, a)) || LinkKeeps(s, b, Grown(s, b, TargetSize(s, b))) then None
            else Some(0)
  {
    var g, t := Grown(s, b, a), TargetSize(s, b);
    OnlyGrownIsKept(s, b, a);
    OnlyGrownIsKept(s, b, t);
    GrownIsClamped(s, b, a);
    if !LinkKeeps(s, b, g) { StuckAtTarget(s, b, g); }
  }

  /** With thresholds in ascending order the loop ends if and only if what the second request
      or the target size grows to is kept, or the first request is all that is wanted. */
  lemma CollectsAscendingIff(s: Settings, b: real)
    requires s.Valid() && Ascending(s.times) && b > 0.0 && s.numDownloads >= 1
    ensures LinkNext(s, b, s.initial) >= 1
    ensures Collects(s, b) <==>
              || (s.numDownloads == 1 && LinkKeeps(s, b, s.initial))
              || LinkKeeps(s, b, Grown(s, b, LinkNext(s, b, s.initial)))
              || LinkKeeps(s, b, Grown(s, b, TargetSize(s, b)))
  {
    CollectsIff(s, b);
    AscendingSupply(s, b, LinkNext(s, b, s.initial));
  }

  /** Where the first request is within the limits, that is: what it or the target size grows
      to is kept. */
  lemma CollectsWithinClampsIff(s: Settings, b: real)
    requires s.Valid() && Ascending(s.times) && b > 0.0 && s.numDownloads >= 1
    requires s.minDl <= s.initial <= s.maxDl
    ensures Collects(s, b) <==>
              LinkKeeps(s, b, Grown(s, b, s.initial)) || LinkKeeps(s, b, Grown(s, b, TargetSize(s, b)))
  {
    CollectsAscendingIff(s, b);
    KeptStays(s, b, s.initial);
    if !Grows(s, b, s.initial) && !LinkKeeps(s, b, s.initial) { StuckAtTarget(s, b, s.initial); }
  }

  // ----- Thresholds with room for growth and truncation

  /** The target is as far above the minimum as what is too fast, and growing by five from
      there does not reach the maximum. */
  predicate Roomy(t: Thresholds) { Ascending(t) && t.tooFast <= t.target - t.min && 5.0 * t.tooFast <= t.max }

  lemma RoomInBytes(s: Settings, b: real)
    requires Roomy(s.times) && b > 0.0
    ensures var t := s.times;
            && Bytes(t.min, b) + Bytes(t.tooFast, b) <= Bytes(t.target, b)
            && 5.0 * Bytes(t.tooFast, b) <= Bytes(t.max, b)
  {
    ScaleRealOrder(s.times.min + s.times.tooFast, s.times.target, b);
    ScaleRealOrder(5.0 * s.times.tooFast, s.times.max, b);
  }

  /** Growing to a size that is kept means that the target size is kept as well. */
  lemma {:induction false} GrowthNeedsTarget(s: Settings, b: real, a: int)
    requires s.Valid() && Roomy(s.times) && b > 0.0 && Clamped(s, a)
    requires Grows(s, b, a) && LinkKeeps(s, b, Grown(s, b, a))
    ensures LinkKeeps(s, b, TargetSize(s, b))
    decreases s.maxDl - a
  {
    AscendingInBytes(s, b);
    RoomInBytes(s, b);
    if Grows(s, b, Clamp(s, a * 5)) { GrowthNeedsTarget(s, b, Clamp(s, a * 5)); }
  }

  lemma TargetDoesNotGrow(s: Settings, b: real)
    requires s.Valid() && Roomy(s.times) && b > 0.0
    ensures Grown(s, b, TargetSize(s, b)) == TargetSize(s, b)
  {
    AscendingInBytes(s, b);
    RoomInBytes(s, b);
  }

  /** Then growth need not be followed: the second request or the target size is kept itself. */
  lemma CollectsRoomyIff(s: Settings, b: real)
    requires s.Valid() && Roomy(s.times) && b > 0.0 && s.numDownloads >= 1
    ensures Collects(s, b) <==>
              || (s.numDownloads == 1 && LinkKeeps(s, b, s.initial))
              || LinkKeeps(s, b, LinkNext(s, b, s.initial))
              || LinkKeeps(s, b, TargetSize(s, b))
  {
    var second := LinkNext(s, b, s.initial);
    CollectsAscendingIff(s, b);
    TargetDoesNotGrow(s, b);
    if Grows(s, b, second) {
      KeptStays(s, b, second);
      if LinkKeeps(s, b, Grown(s, b, second)) { GrowthNeedsTarget(s, b, second); }
    }
  }

  /** Without that room it does matter: here only the third size is kept. */
  lemma GrowthCanMatter(s: Settings)
    requires s == Settings(1, 1, 1, 1000, Thresholds(1.0, 4.1, 4.15, 10.0))
    ensures Ascending(s.times) && Collects(s, 6.0)
    ensures !LinkKeeps(s, 6.0, s.initial) && !LinkKeeps(s, 6.0, LinkNext(s, 6.0, s.initial))
    ensures !LinkKeeps(s, 6.0, TargetSize(s, 6.0))
  {
    assert LinkNext(s, 6.0, 1) == 5;
    assert Grown(s, 6.0, 5) == 25;
    CollectsAscendingIff(s, 6.0);
  }

  // ----- Links that are too slow

  lemma NextAtLeastSmallest(s: Settings, b: real, a: int)
    requires s.minDl <= s.maxDl
    ensures LinkNext(s, b, a) >= s.minDl
  {
  }

  lemma TooSlowIsNotKept(s: Settings, b: real, a: int)
    requires s.minDl as real >= Bytes(s.times.max, b) && a >= s.minDl
    ensures !LinkKeeps(s, b, a)
  {
  }

  /** When the smallest request takes too long, at most the first request is ever kept. */
  lemma {:induction false} TooSlowForSmallest(s: Settings, b: real, n: nat)
    requires s.Valid() && s.minDl <= s.maxDl && b > 0.0 && s.minDl as real >= Bytes(s.times.max, b)
    ensures var l := RunLoop(s, ConstantLink(b), n);
            && !l.failed && l.amount >= 1
            && l.results == (if n >= 1 && s.numDownloads >= 1 && LinkKeeps(s, b, s.initial)
                             then [Download(LinkTime(s.initial, b), s.initial)] else [])
            && (n >= 1 && s.numDownloads >= 1 ==> l.amount >= s.minDl)
  {
    if n > 0 {
      TooSlowForSmallest(s, b, n - 1);
      LinkTurn(s, b, n - 1);
      var l := RunLoop(s, ConstantLink(b), n - 1);
      NextAtLeastSmallest(s, b, l.amount);
      if n > 1 && s.numDownloads >= 1 { TooSlowIsNotKept(s, b, l.amount); }
    }
  }

  /** Where the target is a byte or more above the minimum, the loop ends if and only if the
      link can deliver the smallest request within the maximum time, or one result is
      wanted and the first request, below the smallest size, gives it. */
  lemma CollectsIffSmallestIsFastEnough(s: Settings, b: real)
    requires Workable(s, b) && s.numDownloads >= 1
    ensures Collects(s, b) <==>
              s.minDl as real < Bytes(s.times.max, b) || (s.numDownloads == 1 && LinkKeeps(s, b, s.initial))
  {
    if s.minDl as real < Bytes(s.times.max, b) {
      var n := Growth(s.initial, GrowthLimit(s, b)) + 1 + s.numDownloads;
      EndsWithAllResults(s, b, n);
      assert |RunLoop(s, ConstantLink(b), n).results| == s.numDownloads;
    } else {
      forall n: nat
        ensures |RunLoop(s, ConstantLink(b), n).results|
             == if n >= 1 && LinkKeeps(s, b, s.initial) then 1 else 0
      {
        TooSlowForSmallest(s, b, n);
      }
      assert |RunLoop(s, ConstantLink(b), 1).results| == if LinkKeeps(s, b, s.initial) then 1 else 0;
    }
  }

  /** With the default thresholds, starting from the smallest size of one byte, the links
      that are starved by truncation are those whose truncated target is too small. */
  lemma TruncationStarvesSlowLink(s: Settings, b: real)
    requires s.Valid() && s.times == DEFAULT_TIMES && s.initial == s.minDl == 1 && s.maxDl >= 6
    requires 0.1 < b < 1.0 && s.numDownloads >= 1
    ensures s.minDl as real < Bytes(s.times.max, b)
    ensures Collects(s, b) <==> b <= 0.2 || (6.0 * b).Floor as real >= 5.0 * b
    ensures b == 0.3 ==> !Collects(s, b)
  {
    CollectsWithinClampsIff(s, b);
    assert !Grows(s, b, 1) && !Grows(s, b, TargetSize(s, b));
    assert Bytes(s.times.max, b) == 10.0 * b && Bytes(s.times.min, b) == 5.0 * b;
    assert Bytes(s.times.target, b) == 6.0 * b;
  }
}
