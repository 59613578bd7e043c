/** Loading the recent results back from the daily files of the data directory. */
module ResultLoading {
  import opened AddressChanges
  import opened Arithmetic
  import opened Results
  import opened ResultStore
  import opened Sequences
  import opened Wrappers

  /** A line of a result file; None when it cannot be decoded. */
  type Line = Option<Result>

  /** For every day, the files named after it, in the order they are visited. */
  type Datadir = map<int, seq<seq<Line>>>

  function KeptLine(line: Line, successOnly: bool): seq<Result> {
    if line.None? || (successOnly && line.value.ResultError?) then [] else [line.value]
  }

  function Kept(lines: seq<Line>, successOnly: bool): seq<Result> {
    if lines == [] then [] else KeptLine(lines[0], successOnly) + Kept(lines[1..], successOnly)
  }

  lemma KeptSnoc(lines: seq<Line>, line: Line, successOnly: bool)
    ensures Kept(lines + [line], successOnly) == Kept(lines, successOnly) + KeptLine(line, successOnly)
  {
    KeptConcat(lines, [line], successOnly);
    assert [line][1..] == [];
  }

  lemma {:induction false} KeptConcat(xs: seq<Line>, ys: seq<Line>, successOnly: bool)
    ensures Kept(xs + ys, successOnly) == Kept(xs, successOnly) + Kept(ys, successOnly)
  {
    if xs == [] {
      assert xs + ys == ys;
    } else {
      assert (xs + ys)[1..] == xs[1..] + ys;
      KeptConcat(xs[1..], ys, successOnly);
    }
  }

  /** What is kept are the results that can be decoded, or the successes among them. */
  lemma {:induction false} KeptMembers(lines: seq<Line>, successOnly: bool, r: Result)
    ensures r in Kept(lines, successOnly) <==> Some(r) in lines && (successOnly ==> r.ResultSuccess?)
  {
    if lines != [] {
      KeptMembers(lines[1..], successOnly, r);
      assert lines == [lines[0]] + lines[1..];
    }
  }

  /** One line keeps one result at most; more lines keep what each of them does. */
  lemma {:induction false} KeptOnce(line: Line, successOnly: bool)
    ensures |Kept([line], successOnly)| <= 1
  {
    assert [line][1..] == [];
  }

  /** The dictionary of a list of results. */
  function ByRelay(rs: seq<Result>): ResultDict {
    map fp | fp in (set r | r in rs :: r.fingerprint) :: Filter(rs, Of(fp))
  }

  lemma GetOfByRelay(rs: seq<Result>, fp: string)
    ensures Get(ByRelay(rs), fp) == Filter(rs, Of(fp))
    ensures fp in ByRelay(rs) <==> Filter(rs, Of(fp)) != []
  {
    FilterMembers(rs, Of(fp));
    var own := Filter(rs, Of(fp));
    if own != [] { assert own[0] in own; }
    if fp in ByRelay(rs) {
      var r :| r in rs && r.fingerprint == fp;
      assert r in own;
    }
  }

  /** Dictionaries without empty lists are determined by what they hold for each relay. */
  lemma SameDict(d: ResultDict, e: ResultDict)
    requires forall fp :: Get(d, fp) == Get(e, fp)
    requires forall fp :: fp in d <==> fp in e
    ensures d == e
  {
    forall fp | fp in d ensures d[fp] == e[fp] { assert Get(d, fp) == Get(e, fp); }
  }

  lemma MergeByRelay(xs: seq<Result>, ys: seq<Result>)
    ensures Merge(ByRelay(xs), ByRelay(ys)) == ByRelay(xs + ys)
  {
    var d, e := Merge(ByRelay(xs), ByRelay(ys)), ByRelay(xs + ys);
    forall fp ensures Get(d, fp) == Get(e, fp) && (fp in d <==> fp in e) {
      GetOfByRelay(xs, fp);
      GetOfByRelay(ys, fp);
      GetOfByRelay(xs + ys, fp);
      FilterConcat(xs, ys, Of(fp));
    }
    SameDict(d, e);
  }

  lemma ByRelaySnoc(rs: seq<Result>, r: Result)
    ensures ByRelay(rs + [r]) == ByRelay(rs)[r.fingerprint := Get(ByRelay(rs), r.fingerprint) + [r]]
  {
    var d := ByRelay(rs)[r.fingerprint := Get(ByRelay(rs), r.fingerprint) + [r]];
    var e := ByRelay(rs + [r]);
    forall fp ensures Get(d, fp) == Get(e, fp) && (fp in d <==> fp in e) {
      GetOfByRelay(rs, fp);
      GetOfByRelay(rs + [r], fp);
      FilterSnoc(rs, r, Of(fp));
    }
    SameDict(d, e);
  }

  /** What the loop over the lines of a file does with one of them. */
  method AddLine(before: ResultDict, ghost lines: seq<Line>, line: Line, successOnly: bool) returns (d: ResultDict)
    requires before == ByRelay(Kept(lines, successOnly))
    ensures d == ByRelay(Kept(lines + [line], successOnly))
  {
    d := before;
    KeptSnoc(lines, line, successOnly);
    if line.Some? && !(successOnly && line.value.ResultError?) {
      var r := line.value;
      ByRelaySnoc(Kept(lines, successOnly), r);
      if r.fingerprint !in d { d := d[r.fingerprint := []]; }
      d := d[r.fingerprint := d[r.fingerprint] + [r]];
      assert d == before[r.fingerprint := Get(before, r.fingerprint) + [r]];
    } else {
      assert Kept(lines, successOnly) + [] == Kept(lines, successOnly);
    }
  }

  method LoadResultFile(lines: seq<Line>, successOnly: bool) returns (d: ResultDict)
    ensures d == ByRelay(Kept(lines, successOnly))
  {
    d := map[];
    var i := 0;
    while i < |lines|
      invariant i <= |lines|
      invariant d == ByRelay(Kept(lines[..i], successOnly))
    {
      assert lines[..i + 1] == lines[..i] + [lines[i]];
      d := AddLine(d, lines[..i], lines[i], successOnly);
      i := i + 1;
    }
    assert lines[..i] == lines;
  }

  function DayOf(time: real): int { (time / DAY).Floor }

  function FilesOf(dir: Datadir, day: int): seq<seq<Line>> { if day in dir then dir[day] else [] }

  function Concat(files: seq<seq<Line>>): seq<Line> {
    if files == [] then [] else Concat(files[..|files| - 1]) + files[|files| - 1]
  }

  /** All lines of the files from day lo up to but without day hi. */
  function LinesOfDays(dir: Datadir, lo: int, hi: int): seq<Line>
    decreases hi - lo
  {
    if hi <= lo then [] else LinesOfDays(dir, lo, hi - 1) + Concat(FilesOf(dir, hi - 1))
  }

  /** What loading the files of those days and trimming once gives. */
  function Loaded(dir: Datadir, lo: int, hi: int, successOnly: bool, oldestAllowed: real): ResultDict {
    Trim(ByRelay(Kept(LinesOfDays(dir, lo, hi), successOnly)), oldestAllowed)
  }

  function OldestDay(freshDays: nat, now: real): int { DayOf(now) - (freshDays + 2) }

  /** The days visited are that of the clock and as many before it as results are fresh, and two. */
  lemma VisitedDays(freshDays: nat, now: real)
    ensures OldestDay(freshDays, now) + freshDays + 2 == DayOf(now)
    ensures DayOf(now) as real * 86400.0 <= now < (DayOf(now) + 1) as real * 86400.0
  {
    DayBounds(now);
  }

  /** An address that changed is looked at only in the results that are still fresh. */
  method LoadRecentResults(freshDays: nat, dir: Datadir, successOnly: bool, onChangedIpv4: bool,
                           addressOf: AddressOf, now: real)
    returns (results: ResultDict)
    ensures var loaded := Loaded(dir, OldestDay(freshDays, now), DayOf(now) + 1, successOnly,
                                 OldestAllowed(freshDays, now));
            results == if onChangedIpv4 then Currents(loaded, addressOf) else loaded
  {
    var today := DayOf(now);
    var workingDay := OldestDay(freshDays, now);
    results := map[];
    ghost var seen: seq<Line> := [];
    while workingDay <= today
      invariant OldestDay(freshDays, now) <= workingDay <= today + 1
      invariant seen == LinesOfDays(dir, OldestDay(freshDays, now), workingDay)
      invariant results == ByRelay(Kept(seen, successOnly))
    {
      var files := FilesOf(dir, workingDay);
      ghost var before := seen;
      var i := 0;
      while i < |files|
        invariant i <= |files|
        invariant seen == before + Concat(files[..i])
        invariant results == ByRelay(Kept(seen, successOnly))
      {
        var newResults := LoadResultFile(files[i], successOnly);
        results := MergeResultDicts(results, newResults);
        MergeByRelay(Kept(seen, successOnly), Kept(files[i], successOnly));
        KeptConcat(seen, files[i], successOnly);
        assert files[..i + 1][..i] == files[..i];
        Associative(before, Concat(files[..i]), files[i]);
        seen := seen + files[i];
        i := i + 1;
      }
      assert files[..i] == files;
      workingDay := workingDay + 1;
    }
    results := TrimResults(freshDays, results, now);
    results := TrimResultsIpChanged(results, onChangedIpv4, addressOf);
  }

  // ----- Nothing fresh is missed

  /** Every result is in a file of the day it was measured. */
  predicate WellFiled(dir: Datadir) {
    forall day, i, j :: day in dir && 0 <= i < |dir[day]| && 0 <= j < |dir[day][i]| && dir[day][i][j].Some?
      ==> DayOf(dir[day][i][j].value.time) == day
  }

  /** Appends a result to the first file of its day. */
  function Written(dir: Datadir, r: Result): Datadir {
    var day := DayOf(r.time);
    var files := FilesOf(dir, day);
    dir[day := if files == [] then [[Some(r)]] else files[0 := files[0] + [Some(r)]]]
  }

  /** The result is the last of its file, and nothing else of the directory changes. */
  lemma WrittenIsLast(dir: Datadir, r: Result)
    ensures var day, files := DayOf(r.time), FilesOf(Written(dir, r), DayOf(r.time));
            && files != [] && files[0] == (if FilesOf(dir, day) == [] then [] else FilesOf(dir, day)[0]) + [Some(r)]
            && files[1..] == (if FilesOf(dir, day) == [] then [] else FilesOf(dir, day)[1..])
            && forall other :: other != day ==> FilesOf(Written(dir, r), other) == FilesOf(dir, other)
  {
  }

  lemma WrittenStaysWellFiled(dir: Datadir, r: Result)
    requires WellFiled(dir)
    ensures WellFiled(Written(dir, r))
  {
  }

  lemma {:induction false} ConcatMembers(files: seq<seq<Line>>, line: Line) returns (i: nat, j: nat)
    requires line in Concat(files)
    ensures i < |files| && j < |files[i]| && files[i][j] == line
  {
    var last := |files| - 1;
    if line in files[last] {
      i := last;
      j :| 0 <= j < |files[last]| && files[last][j] == line;
    } else {
      i, j := ConcatMembers(files[..last], line);
    }
  }

  lemma {:induction false} ConcatHas(files: seq<seq<Line>>, i: nat, line: Line)
    requires i < |files| && line in files[i]
    ensures line in Concat(files)
  {
    if i < |files| - 1 { ConcatHas(files[..|files| - 1], i, line); }
  }

  /** What is visited are all lines of all files of the days. */
  lemma {:induction false} VisitedLines(dir: Datadir, lo: int, hi: int, line: Line)
    ensures line in LinesOfDays(dir, lo, hi)
       <==> exists day, i :: lo <= day < hi && day in dir && 0 <= i < |dir[day]| && line in dir[day][i]
    decreases hi - lo
  {
    if lo < hi {
      VisitedLines(dir, lo, hi - 1, line);
      if line in Concat(FilesOf(dir, hi - 1)) {
        var i, j := ConcatMembers(FilesOf(dir, hi - 1), line);
        assert line in dir[hi - 1][i];
      }
      if day, i :| lo <= day < hi && day in dir && 0 <= i < |dir[day]| && line in dir[day][i] && day == hi - 1 {
        ConcatHas(dir[day], i, line);
      }
    }
  }

  lemma {:induction false} DaysOfLines(dir: Datadir, lo: int, hi: int, r: Result)
    requires WellFiled(dir) && Some(r) in LinesOfDays(dir, lo, hi)
    ensures lo <= DayOf(r.time) < hi
    decreases hi - lo
  {
    if Some(r) in Concat(FilesOf(dir, hi - 1)) {
      var i, j := ConcatMembers(FilesOf(dir, hi - 1), Some(r));
    } else {
      DaysOfLines(dir, lo, hi - 1, r);
    }
  }

  lemma {:induction false} LinesSplit(dir: Datadir, lo: int, mid: int, hi: int)
    requires lo <= mid <= hi
    ensures LinesOfDays(dir, lo, hi) == LinesOfDays(dir, lo, mid) + LinesOfDays(dir, mid, hi)
    decreases hi - mid
  {
    if mid < hi { LinesSplit(dir, lo, mid, hi - 1); }
  }

  lemma DayBounds(time: real)
    ensures DayOf(time) as real * DAY <= time < (DayOf(time) + 1) as real * DAY
  {
    Quotient(time, DAY);
  }

  lemma BeforeVisitedDaysIsOld(freshDays: nat, now: real, time: real)
    requires DayOf(time) < OldestDay(freshDays, now)
    ensures time < OldestAllowed(freshDays, now)
  {
    DayBounds(time);
    DayBounds(now);
  }

  lemma AfterTodayIsFresh(freshDays: nat, now: real, time: real)
    requires DayOf(time) > DayOf(now)
    ensures time >= OldestAllowed(freshDays, now)
  {
    DayBounds(time);
    DayBounds(now);
  }

  lemma TrimOfByRelay(rs: seq<Result>, oldest: real)
    ensures Trim(ByRelay(rs), oldest) == ByRelay(Filter(rs, IsFresh(oldest)))
  {
    var d, e := Trim(ByRelay(rs), oldest), ByRelay(Filter(rs, IsFresh(oldest)));
    forall fp ensures Get(d, fp) == Get(e, fp) && (fp in d <==> fp in e) {
      GetOfByRelay(rs, fp);
      GetOfTrim(ByRelay(rs), oldest, fp);
      GetOfByRelay(Filter(rs, IsFresh(oldest)), fp);
      FilterCommutes(rs, Of(fp), IsFresh(oldest));
    }
    SameDict(d, e);
  }

  lemma NothingFreshBefore(dir: Datadir, lo: int, freshDays: nat, now: real, successOnly: bool)
    requires WellFiled(dir)
    ensures Filter(Kept(LinesOfDays(dir, lo, OldestDay(freshDays, now)), successOnly),
                   IsFresh(OldestAllowed(freshDays, now))) == []
  {
    var kept := Kept(LinesOfDays(dir, lo, OldestDay(freshDays, now)), successOnly);
    forall r | r in kept ensures !IsFresh(OldestAllowed(freshDays, now))(r) {
      KeptMembers(LinesOfDays(dir, lo, OldestDay(freshDays, now)), successOnly, r);
      DaysOfLines(dir, lo, OldestDay(freshDays, now), r);
      BeforeVisitedDaysIsOld(freshDays, now, r.time);
    }
    FilterNone(kept, IsFresh(OldestAllowed(freshDays, now)));
  }

  lemma AllFreshAfter(dir: Datadir, hi: int, freshDays: nat, now: real, successOnly: bool)
    requires WellFiled(dir)
    ensures var kept := Kept(LinesOfDays(dir, DayOf(now) + 1, hi), successOnly);
            Filter(kept, IsFresh(OldestAllowed(freshDays, now))) == kept
  {
    var kept := Kept(LinesOfDays(dir, DayOf(now) + 1, hi), successOnly);
    forall r | r in kept ensures IsFresh(OldestAllowed(freshDays, now))(r) {
      KeptMembers(LinesOfDays(dir, DayOf(now) + 1, hi), successOnly, r);
      DaysOfLines(dir, DayOf(now) + 1, hi, r);
      AfterTodayIsFresh(freshDays, now, r.time);
    }
    FilterAll(kept, IsFresh(OldestAllowed(freshDays, now)));
  }

  /** The fresh results of a wider range of days: those of the visited days, then
      everything dated after today. */
  lemma {:induction false} FreshOfAllDays(dir: Datadir, lo: int, hi: int, freshDays: nat, now: real, successOnly: bool)
    requires WellFiled(dir) && lo <= OldestDay(freshDays, now) && DayOf(now) < hi
    ensures var first, today, recent := OldestDay(freshDays, now), DayOf(now), IsFresh(OldestAllowed(freshDays, now));
            Filter(Kept(LinesOfDays(dir, lo, hi), successOnly), recent)
            == Filter(Kept(LinesOfDays(dir, first, today + 1), successOnly), recent)
               + Kept(LinesOfDays(dir, today + 1, hi), successOnly)
  {
    var first, today, recent := OldestDay(freshDays, now), DayOf(now), IsFresh(OldestAllowed(freshDays, now));
    KeptOfThree(dir, lo, first, today + 1, hi, successOnly);
    NothingFreshBefore(dir, lo, freshDays, now, successOnly);
    AllFreshAfter(dir, hi, freshDays, now, successOnly);
    FilterMiddle(Kept(LinesOfDays(dir, lo, first), successOnly),
                 Kept(LinesOfDays(dir, first, today + 1), successOnly),
                 Kept(LinesOfDays(dir, today + 1, hi), successOnly), recent);
  }

  lemma KeptOfThree(dir: Datadir, lo: int, i: int, j: int, hi: int, successOnly: bool)
    requires lo <= i <= j <= hi
    ensures Kept(LinesOfDays(dir, lo, hi), successOnly)
         == Kept(LinesOfDays(dir, lo, i), successOnly)
            + (Kept(LinesOfDays(dir, i, j), successOnly) + Kept(LinesOfDays(dir, j, hi), successOnly))
  {
    LinesSplit(dir, lo, i, hi);
    LinesSplit(dir, i, j, hi);
    KeptConcat(LinesOfDays(dir, lo, i), LinesOfDays(dir, i, hi), successOnly);
    KeptConcat(LinesOfDays(dir, i, j), LinesOfDays(dir, j, hi), successOnly);
  }

  lemma FilterMiddle(xs: seq<Result>, ys: seq<Result>, zs: seq<Result>, keep: Result -> bool)
    requires Filter(xs, keep) == [] && Filter(zs, keep) == zs
    ensures Filter(xs + (ys + zs), keep) == Filter(ys, keep) + zs
  {
    FilterConcat(xs, ys + zs, keep);
    FilterConcat(ys, zs, keep);
  }

  lemma ByRelayOfLonger(xs: seq<Result>, ys: seq<Result>)
    ensures ByRelay(xs + ys) == ByRelay(xs) <==> ys == []
  {
    if ys == [] {
      assert xs + ys == xs;
    } else {
      var fp := ys[0].fingerprint;
      FilterConcat(xs, ys, Of(fp));
      FilterMembers(ys, Of(fp));
      GetOfByRelay(xs, fp);
      GetOfByRelay(xs + ys, fp);
      assert ys[0] in Filter(ys, Of(fp));
    }
  }

  /** Loading the visited days equals loading any wider range of days, so the whole
      data directory, if and only if nothing that counts is dated after today. */
  lemma RecentDaysSuffice(dir: Datadir, lo: int, hi: int, freshDays: nat, now: real, successOnly: bool)
    requires WellFiled(dir) && lo <= OldestDay(freshDays, now) && DayOf(now) < hi
    ensures Loaded(dir, lo, hi, successOnly, OldestAllowed(freshDays, now))
         == Loaded(dir, OldestDay(freshDays, now), DayOf(now) + 1, successOnly, OldestAllowed(freshDays, now))
       <==> Kept(LinesOfDays(dir, DayOf(now) + 1, hi), successOnly) == []
  {
    var oldest := OldestAllowed(freshDays, now);
    var all := Kept(LinesOfDays(dir, lo, hi), successOnly);
    var visited := Kept(LinesOfDays(dir, OldestDay(freshDays, now), DayOf(now) + 1), successOnly);
    FreshOfAllDays(dir, lo, hi, freshDays, now, successOnly);
    TrimOfByRelay(all, oldest);
    TrimOfByRelay(visited, oldest);
    ByRelayOfLonger(Filter(visited, IsFresh(oldest)), Kept(LinesOfDays(dir, DayOf(now) + 1, hi), successOnly));
  }
}
