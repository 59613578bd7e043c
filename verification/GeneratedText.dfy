/** A generated bandwidth file as text: whether what the generator writes can be read back. */
module GeneratedText {
  import opened BandwidthFileLaws
  import opened BandwidthFileText
  import BandwidthFiles
  import opened BandwidthLines
  import opened FileKeys
  import opened FileRoundTrip
  import opened Generator
  import opened HeaderRoundTrip
  import opened LineRoundTrip
  import opened Results
  import opened Sequences
  import opened Text
  import opened Torflow
  import opened TorflowLaws
  import opened Wrappers

  // ----- The format

  const LIMITS := {"desc_bw_avg", "desc_bw_bur", "desc_bw_obs_last", "desc_bw_obs_mean"}

  /** What the generator needs of a format: averages of its own, ratios that are no integers
      and descriptor bandwidths that are. */
  ghost predicate FitsGenerator(f: Format) {
    && f.Valid() && f.averages == {"mu", "muf"}
    && "r_strm" !in f.ints && "r_strm_filt" !in f.ints && LIMITS <= f.ints * f.line
  }

  lemma V1FitsGenerator()
    ensures FitsGenerator(V1)
  {
    V1IsValid();
    RatiosAreTexts();
    StatsKeysAreInts();
  }

  // ----- The attributes of a line

  function IntOrNone(o: Option<int>): Value { if o.Some? then IntValue(o.value) else NoneValue }

  /** An attribute that is there only when it has a value. */
  function IntAttr(k: string, o: Option<int>): Line { if o.Some? then map[k := IntValue(o.value)] else map[] }

  function CounterAttrs(c: Counters): Line {
    IntAttr(RELAY_EXCLUDED + "error_count", c.error) + IntAttr(RELAY_EXCLUDED + "near_count", c.near)
    + IntAttr(RELAY_EXCLUDED + "old_count", c.stale) + IntAttr(RELAY_EXCLUDED + "few_count", c.few)
  }

  function MarkAttrs(l: LineVal): Line {
    IntAttr("vote", l.vote) + IntAttr("unmeasured", l.unmeasured) + IntAttr("under_min_report", l.underMinReport)
  }

  function RatioAttrs(ratios: Option<(real, real)>): Line {
    if ratios.None? then map[]
    else map["r_strm" := FloatValue(ratios.value.0), "r_strm_filt" := FloatValue(ratios.value.1)]
  }

  /** The descriptor's bandwidths are there even when they are not known. */
  function StatsAttrs(stats: Option<Stats>): Line {
    if stats.None? then map[]
    else
      var s := stats.value;
      map["bw_mean" := IntValue(s.bwMean.Floor),
          "desc_bw_obs_last" := IntOrNone(s.obsLast), "desc_bw_obs_mean" := IntOrNone(s.obsMean),
          "desc_bw_bur" := IntOrNone(s.descBur), "desc_bw_avg" := IntOrNone(s.descAvg)]
  }

  function NameAttrs(l: LineVal): Line { map["node_id" := TextValue(l.nodeId), "bw" := IntValue(l.bw.Floor)] }

  /** What the generator computes for a line, but its statistics. */
  function Rest(l: LineVal): Line {
    RatioAttrs(l.ratios) + (CounterAttrs(l.counters) + MarkAttrs(l)) + NameAttrs(l)
  }

  function Computed(l: LineVal): Line { Rest(l) + StatsAttrs(l.stats) }

  /** All of a line: also what only passes through the generator. */
  function AttrsOf(l: LineVal, passed: Line): Line { passed + Computed(l) }

  lemma StatsKeysDiffer()
    ensures "desc_bw_obs_last" != "desc_bw_obs_mean" && "desc_bw_bur" != "desc_bw_avg"
  {
    assert "desc_bw_obs_last"[12] != "desc_bw_obs_mean"[12];
    assert "desc_bw_bur"[8] != "desc_bw_avg"[8];
  }

  lemma StatsKeyLengths()
    ensures |"bw_mean"| == 7 && |"desc_bw_obs_last"| == |"desc_bw_obs_mean"| == 16
    ensures |"desc_bw_bur"| == |"desc_bw_avg"| == 11
  {
  }

  lemma FiveKeys<V>(a: string, b: string, c: string, d: string, e: string, v: V, w: V, x: V, y: V, z: V)
    requires a != b && a != c && a != d && a != e && b != c && b != d && b != e && c != d && c != e && d != e
    ensures var m := map[a := v, b := w, c := x, d := y, e := z];
            m[a] == v && m[b] == w && m[c] == x && m[d] == y && m[e] == z
  {
  }

  /** The statistics under their keys, also those that are not known. */
  lemma StatsUnderKeys(s: Stats)
    ensures var m := StatsAttrs(Some(s));
            && m.Keys == {"bw_mean", "desc_bw_obs_last", "desc_bw_obs_mean", "desc_bw_bur", "desc_bw_avg"}
            && m["bw_mean"] == IntValue(s.bwMean.Floor)
            && m["desc_bw_obs_last"] == IntOrNone(s.obsLast) && m["desc_bw_obs_mean"] == IntOrNone(s.obsMean)
            && m["desc_bw_bur"] == IntOrNone(s.descBur) && m["desc_bw_avg"] == IntOrNone(s.descAvg)
  {
    StatsKeysDiffer();
    StatsKeyLengths();
    FiveKeys("bw_mean", "desc_bw_obs_last", "desc_bw_obs_mean", "desc_bw_bur", "desc_bw_avg",
             IntValue(s.bwMean.Floor), IntOrNone(s.obsLast), IntOrNone(s.obsMean), IntOrNone(s.descBur),
             IntOrNone(s.descAvg));
  }

  lemma CountersUnderKeys(c: Counters)
    ensures var m := CounterAttrs(c);
            && m.Keys <= RELAY_EXCLUDED_COUNTS
            && Under(m, RELAY_EXCLUDED + "error_count", c.error) && Under(m, RELAY_EXCLUDED + "near_count", c.near)
            && Under(m, RELAY_EXCLUDED + "old_count", c.stale) && Under(m, RELAY_EXCLUDED + "few_count", c.few)
  {
    CountKeysDiffer(RELAY_EXCLUDED);
    FourUnder(RELAY_EXCLUDED + "error_count", RELAY_EXCLUDED + "near_count", RELAY_EXCLUDED + "old_count",
              RELAY_EXCLUDED + "few_count", c);
  }

  /** The key is there exactly when the number is known, and has it. */
  predicate Under(m: Line, k: string, n: Option<int>) {
    if n.Some? then k in m && m[k] == IntValue(n.value) else k !in m
  }

  lemma CountKeysDiffer(prefix: string)
    ensures var e, n, o, f := prefix + "error_count", prefix + "near_count", prefix + "old_count", prefix + "few_count";
            |e| != |n| && |e| != |o| && |e| != |f| && |n| != |o| && |n| != |f| && o != f
  {
    var o, f := prefix + "old_count", prefix + "few_count";
    assert o[|prefix|] == 'o' && f[|prefix|] == 'f';
  }

  lemma FourUnder(e: string, n: string, o: string, f: string, c: Counters)
    requires e != n && e != o && e != f && n != o && n != f && o != f
    ensures var m := IntAttr(e, c.error) + IntAttr(n, c.near) + IntAttr(o, c.stale) + IntAttr(f, c.few);
            && m.Keys <= {e, n, o, f}
            && Under(m, e, c.error) && Under(m, n, c.near) && Under(m, o, c.stale) && Under(m, f, c.few)
  {
  }

  lemma MarksUnderKeys(l: LineVal)
    ensures var m := MarkAttrs(l);
            && m.Keys <= VOTE_KEYS
            && Under(m, "vote", l.vote) && Under(m, "unmeasured", l.unmeasured)
            && Under(m, "under_min_report", l.underMinReport)
  {
    assert |"vote"| == 4 && |"unmeasured"| == 10 && |"under_min_report"| == 16;
  }

  lemma RatiosUnderKeys(r: (real, real))
    ensures RatioAttrs(Some(r)) == map["r_strm" := FloatValue(r.0)] + map["r_strm_filt" := FloatValue(r.1)]
    ensures RatioAttrs(Some(r)).Keys == RATIOS && RatioAttrs(None) == map[]
  {
  }

  lemma StatsKeysAre(stats: Option<Stats>)
    ensures StatsAttrs(stats).Keys <= LINE_INTS_V1_2
  {
  }

  /** All of a part is in the whole. */
  predicate Within<V(==)>(part: map<string, V>, whole: map<string, V>) {
    forall k :: k in part ==> k in whole && whole[k] == part[k]
  }

  lemma WithinUnion<V>(a: map<string, V>, b: map<string, V>)
    ensures Within(b, a + b) && (a.Keys !! b.Keys ==> Within(a, a + b))
  {
  }

  /** Five parts with no key in common are all in their union, whatever is before it. */
  lemma FiveWithin(p: Line, a: Line, b: Line, c: Line, d: Line, e: Line)
    requires a.Keys !! b.Keys + c.Keys + d.Keys + e.Keys && b.Keys !! c.Keys + d.Keys + e.Keys
    requires c.Keys !! d.Keys + e.Keys && d.Keys !! e.Keys
    ensures var m := p + (a + (b + c) + d + e);
            Within(a, m) && Within(b, m) && Within(c, m) && Within(d, m) && Within(e, m)
  {
    WithinUnion(p, a + (b + c) + d + e);
    WithinUnion(a + (b + c) + d, e);
    WithinUnion(a + (b + c), d);
    WithinUnion(a, b + c);
    WithinUnion(b, c);
  }

  lemma PartsApart(l: LineVal)
    ensures RatioAttrs(l.ratios).Keys !! RELAY_EXCLUDED_COUNTS + VOTE_KEYS + NAMES + LINE_INTS_V1_2
    ensures RELAY_EXCLUDED_COUNTS !! VOTE_KEYS + NAMES + LINE_INTS_V1_2
    ensures VOTE_KEYS !! NAMES + LINE_INTS_V1_2 && NAMES !! LINE_INTS_V1_2
  {
    RatiosApart();
    NamesApart();
    VotesApart();
    CountsApart();
    if l.ratios.Some? { RatiosUnderKeys(l.ratios.value); } else { RatiosUnderKeys((0.0, 0.0)); }
  }

  /** Everything the generator computes for a line is written: the relay and its bandwidth, the
      ratios, the counts, the marks and the statistics. */
  lemma AllIsWritten(l: LineVal, passed: Line)
    ensures var m := AttrsOf(l, passed);
            && Within(map["node_id" := TextValue(l.nodeId)] + map["bw" := IntValue(l.bw.Floor)], m)
            && Within(RatioAttrs(l.ratios), m) && Within(CounterAttrs(l.counters), m) && Within(MarkAttrs(l), m)
            && Within(StatsAttrs(l.stats), m)
  {
    PartsApart(l);
    CountersUnderKeys(l.counters);
    MarksUnderKeys(l);
    StatsKeysAre(l.stats);
    NamesUnderKeys(l);
    FiveWithin(passed, RatioAttrs(l.ratios), CounterAttrs(l.counters), MarkAttrs(l), NameAttrs(l), StatsAttrs(l.stats));
  }

  lemma NamesUnderKeys(l: LineVal)
    ensures NameAttrs(l).Keys == NAMES
    ensures NameAttrs(l) == map["node_id" := TextValue(l.nodeId)] + map["bw" := IntValue(l.bw.Floor)]
  {
  }

  // ----- Whether its integers can be read

  predicate OnlyInts(m: Line) { forall k :: k in m ==> m[k].IntValue? }

  lemma OnlyIntsParse(m: Line, f: Format)
    requires OnlyInts(m)
    ensures IntsParse(m, f) && IntsCanonical(m, f)
  {
    forall k | k in m && k in f.ints ensures ParseInt(Print(m[k])).Some? && IsCanonical(Print(m[k])) {
      ParseDecimal(m[k].i);
      assert Print(m[k]) == Decimal(m[k].i);
    }
  }

  /** No integer key has an attribute that is no integer. */
  ghost predicate NoInts(m: Line, f: Format) { forall k :: k in m ==> k !in f.ints }

  lemma UnionParses(a: Line, b: Line, f: Format)
    requires IntsParse(b, f)
    ensures IntsParse(a, f) ==> IntsParse(a + b, f)
    ensures a.Keys !! b.Keys && IntsParse(a + b, f) ==> IntsParse(a, f)
  {
    if a.Keys !! b.Keys && IntsParse(a + b, f) {
      forall k | k in a && k in f.ints && k in f.line ensures ParseInt(Print(a[k])).Some? { assert (a + b)[k] == a[k]; }
    }
  }

  lemma UnionIsCanonical(a: Line, b: Line, f: Format)
    requires IntsCanonical(b, f)
    ensures IntsCanonical(a, f) ==> IntsCanonical(a + b, f)
    ensures a.Keys !! b.Keys && IntsCanonical(a + b, f) ==> IntsCanonical(a, f)
  {
    if a.Keys !! b.Keys && IntsCanonical(a + b, f) {
      forall k | k in a && k in f.ints ensures IsCanonical(Print(a[k])) { assert (a + b)[k] == a[k]; }
    }
  }

  lemma UnionParsesIff(a: Line, b: Line, f: Format)
    requires IntsParse(a, f)
    ensures IntsParse(a + b, f) <==> IntsParse(b, f)
  {
    if IntsParse(a + b, f) {
      forall k | k in b && k in f.ints && k in f.line ensures ParseInt(Print(b[k])).Some? { assert (a + b)[k] == b[k]; }
    } else if IntsParse(b, f) {
      UnionParses(a, b, f);
    }
  }

  lemma UnionOnlyInts(a: Line, b: Line)
    requires OnlyInts(a) && OnlyInts(b)
    ensures OnlyInts(a + b)
  {
  }

  lemma CountsAreInts(c: Counters)
    ensures OnlyInts(CounterAttrs(c))
  {
    var error, near := IntAttr(RELAY_EXCLUDED + "error_count", c.error), IntAttr(RELAY_EXCLUDED + "near_count", c.near);
    var stale, few := IntAttr(RELAY_EXCLUDED + "old_count", c.stale), IntAttr(RELAY_EXCLUDED + "few_count", c.few);
    UnionOnlyInts(error, near);
    UnionOnlyInts(error + near, stale);
    UnionOnlyInts(error + near + stale, few);
  }

  lemma MarksAreInts(l: LineVal)
    ensures OnlyInts(MarkAttrs(l))
  {
    UnionOnlyInts(IntAttr("vote", l.vote), IntAttr("unmeasured", l.unmeasured));
    UnionOnlyInts(IntAttr("vote", l.vote) + IntAttr("unmeasured", l.unmeasured),
                  IntAttr("under_min_report", l.underMinReport));
  }

  lemma CountsAndMarksAreInts(l: LineVal)
    ensures OnlyInts(CounterAttrs(l.counters) + MarkAttrs(l))
  {
    CountsAreInts(l.counters);
    MarksAreInts(l);
    UnionOnlyInts(CounterAttrs(l.counters), MarkAttrs(l));
  }

  lemma RatiosAreNoInts(l: LineVal, f: Format)
    requires FitsGenerator(f)
    ensures NoInts(RatioAttrs(l.ratios), f)
  {
  }

  lemma NamesParse(l: LineVal, f: Format)
    requires FitsGenerator(f)
    ensures IntsParse(NameAttrs(l), f) && IntsCanonical(NameAttrs(l), f)
  {
    var m := NameAttrs(l);
    forall k | k in m && k in f.ints ensures ParseInt(Print(m[k])).Some? && IsCanonical(Print(m[k])) {
      assert k == "bw";
      ParseDecimal(l.bw.Floor);
      assert Print(m[k]) == Decimal(l.bw.Floor);
    }
  }

  /** Without the statistics everything computed can be read. */
  lemma RestParses(l: LineVal, f: Format)
    requires FitsGenerator(f)
    ensures IntsParse(Rest(l), f) && IntsCanonical(Rest(l), f)
  {
    var ints := CounterAttrs(l.counters) + MarkAttrs(l);
    RatiosAreNoInts(l, f);
    CountsAndMarksAreInts(l);
    OnlyIntsParse(ints, f);
    UnionParses(RatioAttrs(l.ratios), ints, f);
    UnionIsCanonical(RatioAttrs(l.ratios), ints, f);
    NamesParse(l, f);
    UnionParses(RatioAttrs(l.ratios) + ints, NameAttrs(l), f);
    UnionIsCanonical(RatioAttrs(l.ratios) + ints, NameAttrs(l), f);
  }

  predicate AllKnown(s: Stats) { s.obsLast.Some? && s.obsMean.Some? && s.descBur.Some? && s.descAvg.Some? }

  lemma IntOrNoneParses(o: Option<int>)
    ensures ParseInt(Print(IntOrNone(o))).Some? <==> o.Some?
  {
    NoneIsNoInteger();
    if o.Some? { ParseDecimal(o.value); }
  }

  lemma StatsValues(s: Stats)
    ensures var m := StatsAttrs(Some(s));
            && m["desc_bw_avg"] == IntOrNone(s.descAvg) && m["desc_bw_bur"] == IntOrNone(s.descBur)
            && m["desc_bw_obs_mean"] == IntOrNone(s.obsMean) && m["desc_bw_obs_last"] == IntOrNone(s.obsLast)
  {
  }

  lemma ParsesAt(m: Line, k: string, o: Option<int>, f: Format)
    requires FitsGenerator(f)
    requires IntsParse(m, f) && k in m && m[k] == IntOrNone(o)
    requires k in LIMITS
    ensures o.Some?
  {
    IntOrNoneParses(o);
  }

  lemma StatsParseIff(s: Stats, f: Format)
    requires FitsGenerator(f)
    ensures IntsParse(StatsAttrs(Some(s)), f) <==> AllKnown(s)
  {
    var m := StatsAttrs(Some(s));
    if AllKnown(s) {
      OnlyIntsParse(m, f);
    } else if IntsParse(m, f) {
      StatsValues(s);
      ParsesAt(m, "desc_bw_avg", s.descAvg, f);
      ParsesAt(m, "desc_bw_bur", s.descBur, f);
      ParsesAt(m, "desc_bw_obs_mean", s.obsMean, f);
      ParsesAt(m, "desc_bw_obs_last", s.obsLast, f);
    }
  }

  /** What the generator computes for a line can be read exactly when its statistics are known. */
  lemma ComputedParsesIff(l: LineVal, f: Format)
    requires FitsGenerator(f)
    ensures IntsParse(Computed(l), f) <==> (l.stats.Some? ==> AllKnown(l.stats.value))
  {
    RestParses(l, f);
    UnionParsesIff(Rest(l), StatsAttrs(l.stats), f);
    if l.stats.Some? { StatsParseIff(l.stats.value, f); }
  }

  lemma ComputedIsCanonical(l: LineVal, f: Format)
    requires FitsGenerator(f)
    requires l.stats.None?
    ensures IntsCanonical(Computed(l), f)
  {
    RestParses(l, f);
    OnlyIntsParse(map[], f);
    UnionIsCanonical(Rest(l), map[], f);
  }

  /** What passes through is kept apart from what is computed. */
  ghost predicate Passes(passed: Line, l: LineVal) {
    passed.Keys !! Computed(l).Keys && forall k :: k in passed && passed[k].TextValue? ==> HasNoSeparator(passed[k].s)
  }

  lemma LineParsesIff(l: LineVal, passed: Line, f: Format)
    requires FitsGenerator(f)
    requires Passes(passed, l)
    ensures IntsParse(AttrsOf(l, passed), f)
       <==> IntsParse(passed, f) && (l.stats.Some? ==> AllKnown(l.stats.value))
  {
    ComputedParsesIff(l, f);
    UnionOfApart(passed, Computed(l), f);
  }

  lemma UnionOfApart(a: Line, b: Line, f: Format)
    requires a.Keys !! b.Keys
    ensures IntsParse(a + b, f) <==> IntsParse(a, f) && IntsParse(b, f)
  {
    if IntsParse(a + b, f) {
      forall k | k in b && k in f.ints && k in f.line ensures ParseInt(Print(b[k])).Some? { assert (a + b)[k] == b[k]; }
    }
    if IntsParse(b, f) { UnionParses(a, b, f); }
  }

  lemma LineIsCanonicalIff(l: LineVal, passed: Line, f: Format)
    requires FitsGenerator(f)
    requires Passes(passed, l) && l.stats.None?
    ensures IntsCanonical(AttrsOf(l, passed), f) <==> IntsCanonical(passed, f)
  {
    ComputedIsCanonical(l, f);
    UnionIsCanonical(passed, Computed(l), f);
  }

  /** The only text is the relay's fingerprint. */
  ghost predicate OnlyText(m: Line, s: string) { forall k :: k in m && m[k].TextValue? ==> m[k].s == s }

  lemma UnionOnlyText(a: Line, b: Line, s: string)
    requires OnlyText(a, s) && OnlyText(b, s)
    ensures OnlyText(a + b, s)
  {
  }

  lemma StatsHaveNoText(stats: Option<Stats>, s: string)
    ensures OnlyText(StatsAttrs(stats), s)
  {
  }

  lemma ComputedTexts(l: LineVal)
    ensures OnlyText(Computed(l), l.nodeId)
  {
    var ints := CounterAttrs(l.counters) + MarkAttrs(l);
    CountsAndMarksAreInts(l);
    UnionOnlyText(RatioAttrs(l.ratios), ints, l.nodeId);
    UnionOnlyText(RatioAttrs(l.ratios) + ints, NameAttrs(l), l.nodeId);
    StatsHaveNoText(l.stats, l.nodeId);
    UnionOnlyText(Rest(l), StatsAttrs(l.stats), l.nodeId);
  }

  lemma ComputedNames(l: LineVal)
    ensures "node_id" in Computed(l) && "bw" in Computed(l)
  {
    assert "node_id" in NameAttrs(l) && "bw" in NameAttrs(l);
    assert "node_id" in Rest(l) && "bw" in Rest(l);
  }

  lemma LineIsPlain(l: LineVal, passed: Line)
    requires Passes(passed, l) && HasNoSeparator(l.nodeId)
    ensures PlainLine(AttrsOf(l, passed))
  {
    ComputedTexts(l);
    ComputedNames(l);
    PlainLineIff(AttrsOf(l, passed));
  }

  // ----- The attributes of the header

  function CountText(exclusions: map<Reason, nat>, r: Reason): string {
    Decimal(if r in exclusions then exclusions[r] else 0)
  }

  function ExclusionAttrs(exclusions: map<Reason, nat>): map<string, string> {
    map[EXCLUDED + "error_count" := CountText(exclusions, ErrorCount),
        EXCLUDED + "near_count" := CountText(exclusions, NearCount),
        EXCLUDED + "old_count" := CountText(exclusions, OldCount),
        EXCLUDED + "few_count" := CountText(exclusions, FewCount)]
  }

  function ProgressAttrs(progress: Option<BandwidthFiles.Progress>): map<string, string> {
    if progress.None? then map[]
    else
      var p := progress.value;
      map["number_eligible_relays" := Decimal(p.eligible), "number_consensus_relays" := Decimal(p.consensus),
          "minimum_number_eligible_relays" := Decimal(p.minimum), "percent_eligible_relays" := Decimal(p.percent),
          "minimum_percent_eligible_relays" := Decimal(BandwidthFiles.MIN_REPORT)]
  }

  function AverageAttrs(averages: Option<(int, int)>): map<string, string> {
    if averages.None? then map[]
    else map["mu" := Decimal(averages.value.0), "muf" := Decimal(averages.value.1)]
  }

  /** What the generator adds to an initialized header. */
  function Added(h: BandwidthFiles.HeaderStats): map<string, string> {
    ExclusionAttrs(h.exclusions) + ProgressAttrs(h.progress) + AverageAttrs(h.averages)
  }

  lemma FourKeys<V>(a: string, b: string, c: string, d: string, v: V, w: V, x: V, y: V)
    requires a != b && a != c && a != d && b != c && b != d && c != d
    ensures var m := map[a := v, b := w, c := x, d := y]; m[a] == v && m[b] == w && m[c] == x && m[d] == y
  {
  }

  /** Each of the four counts under its key; a reason that did not occur counts zero. */
  lemma ExclusionsUnderKeys(exclusions: map<Reason, nat>)
    requires {ErrorCount, NearCount, OldCount, FewCount} <= exclusions.Keys
    ensures var m := ExclusionAttrs(exclusions);
            && m.Keys == EXCLUDED_COUNTS
            && m[EXCLUDED + "error_count"] == Decimal(exclusions[ErrorCount])
            && m[EXCLUDED + "near_count"] == Decimal(exclusions[NearCount])
            && m[EXCLUDED + "old_count"] == Decimal(exclusions[OldCount])
            && m[EXCLUDED + "few_count"] == Decimal(exclusions[FewCount])
  {
    CountKeysDiffer(EXCLUDED);
    FourKeys(EXCLUDED + "error_count", EXCLUDED + "near_count", EXCLUDED + "old_count", EXCLUDED + "few_count",
             CountText(exclusions, ErrorCount), CountText(exclusions, NearCount), CountText(exclusions, OldCount),
             CountText(exclusions, FewCount));
  }

  lemma ProgressKeysDiffer()
    ensures |"number_eligible_relays"| == 22 && |"number_consensus_relays"| == |"percent_eligible_relays"| == 23
    ensures |"minimum_number_eligible_relays"| == 30 && |"minimum_percent_eligible_relays"| == 31
    ensures "number_consensus_relays"[0] != "percent_eligible_relays"[0]
  {
  }

  /** The progress under its keys, with the minimum of sixty percent. */
  lemma ProgressUnderKeys(p: BandwidthFiles.Progress)
    ensures var m := ProgressAttrs(Some(p));
            && m.Keys == HEADER_V1_2
            && m["number_eligible_relays"] == Decimal(p.eligible)
            && m["number_consensus_relays"] == Decimal(p.consensus)
            && m["minimum_number_eligible_relays"] == Decimal(p.minimum)
            && m["percent_eligible_relays"] == Decimal(p.percent)
            && m["minimum_percent_eligible_relays"] == Decimal(60)
  {
    ProgressKeysDiffer();
    FiveKeys("number_eligible_relays", "number_consensus_relays", "minimum_number_eligible_relays",
             "percent_eligible_relays", "minimum_percent_eligible_relays", Decimal(p.eligible), Decimal(p.consensus),
             Decimal(p.minimum), Decimal(p.percent), Decimal(60));
  }

  lemma AveragesUnderKeys(mu: int, muf: int)
    ensures AverageAttrs(Some((mu, muf))) == map["mu" := Decimal(mu)] + map["muf" := Decimal(muf)]
    ensures AverageAttrs(Some((mu, muf))).Keys == NETWORK_AVERAGES
  {
    assert |"mu"| != |"muf"|;
  }

  lemma AddedPartsApart(h: BandwidthFiles.HeaderStats)
    requires {ErrorCount, NearCount, OldCount, FewCount} <= h.exclusions.Keys
    ensures ExclusionAttrs(h.exclusions).Keys !! ProgressAttrs(h.progress).Keys + AverageAttrs(h.averages).Keys
    ensures ProgressAttrs(h.progress).Keys !! AverageAttrs(h.averages).Keys
  {
    ExclusionsUnderKeys(h.exclusions);
    if h.progress.Some? { ProgressUnderKeys(h.progress.value); }
    if h.averages.Some? { AveragesUnderKeys(h.averages.value.0, h.averages.value.1); }
    AveragesApart();
    AveragesApartFromExcludedCounts();
    ProgressApartFromExcludedCounts();
  }

  lemma ProgressApartFromExcludedCounts()
    ensures HEADER_V1_2 !! EXCLUDED_COUNTS
  {
    assert forall k :: k in EXCLUDED_COUNTS ==> |k| > 0 && k[0] == 'r';
    ProgressKeysStart();
  }

  lemma ProgressKeysStart()
    ensures forall k :: k in HEADER_V1_2 ==> |k| > 0 && k[0] != 'r'
  {
  }

  /** All that the generator adds to the header is written. */
  lemma AddedIsWritten(base: Header, h: BandwidthFiles.HeaderStats)
    requires {ErrorCount, NearCount, OldCount, FewCount} <= h.exclusions.Keys
    ensures var m := base.attrs + Added(h);
            && Within(ExclusionAttrs(h.exclusions), m) && Within(ProgressAttrs(h.progress), m)
            && Within(AverageAttrs(h.averages), m)
  {
    AddedPartsApart(h);
    WithinUnion(base.attrs, Added(h));
    WithinUnion(ExclusionAttrs(h.exclusions) + ProgressAttrs(h.progress), AverageAttrs(h.averages));
    WithinUnion(ExclusionAttrs(h.exclusions), ProgressAttrs(h.progress));
  }

  predicate IsDecimal(text: string) { forall i :: 0 <= i < |text| ==> text[i] == '-' || IsDigit(text[i]) }

  predicate AllDecimal(m: map<string, string>) { forall k :: k in m ==> IsDecimal(m[k]) }

  lemma UnionAllDecimal(a: map<string, string>, b: map<string, string>)
    requires AllDecimal(a) && AllDecimal(b)
    ensures AllDecimal(a + b)
  {
  }

  lemma DecimalsAreDecimal()
    ensures forall n: int :: IsDecimal(Decimal(n))
  {
    forall n: int ensures IsDecimal(Decimal(n)) { DecimalChars(n); }
  }

  lemma ExclusionsAreDecimal(exclusions: map<Reason, nat>)
    ensures AllDecimal(ExclusionAttrs(exclusions))
  {
    DecimalsAreDecimal();
  }

  lemma ProgressIsDecimal(progress: Option<BandwidthFiles.Progress>)
    ensures AllDecimal(ProgressAttrs(progress))
  {
    DecimalsAreDecimal();
  }

  lemma AveragesAreDecimal(averages: Option<(int, int)>)
    ensures AllDecimal(AverageAttrs(averages))
  {
    DecimalsAreDecimal();
  }

  lemma AddedAreDecimal(h: BandwidthFiles.HeaderStats)
    ensures AllDecimal(Added(h))
  {
    ExclusionsAreDecimal(h.exclusions);
    ProgressIsDecimal(h.progress);
    AveragesAreDecimal(h.averages);
    UnionAllDecimal(ExclusionAttrs(h.exclusions), ProgressAttrs(h.progress));
    UnionAllDecimal(ExclusionAttrs(h.exclusions) + ProgressAttrs(h.progress), AverageAttrs(h.averages));
  }

  predicate NoAverage(m: map<string, string>) { "mu" !in m && "muf" !in m }

  lemma NoAverageInExclusions(exclusions: map<Reason, nat>)
    ensures NoAverage(ExclusionAttrs(exclusions))
  {
  }

  lemma NoAverageInProgress(progress: Option<BandwidthFiles.Progress>)
    ensures NoAverage(ProgressAttrs(progress))
  {
  }

  lemma NoAverageInUnion(a: map<string, string>, b: map<string, string>)
    requires NoAverage(a) && NoAverage(b)
    ensures NoAverage(a + b)
  {
  }

  lemma AveragesAdded(h: BandwidthFiles.HeaderStats)
    ensures h.averages.Some? ==> "mu" in Added(h)
    ensures h.averages.None? ==> NoAverage(Added(h))
  {
    if h.averages.Some? {
      assert "mu" in AverageAttrs(h.averages);
    } else {
      NoAverageInExclusions(h.exclusions);
      NoAverageInProgress(h.progress);
      NoAverageInUnion(ExclusionAttrs(h.exclusions), ProgressAttrs(h.progress));
      NoAverageInUnion(ExclusionAttrs(h.exclusions) + ProgressAttrs(h.progress), AverageAttrs(h.averages));
    }
  }

  /** The header the generator starts from has nothing of what it adds. */
  ghost predicate StartsFrom(base: Header, h: BandwidthFiles.HeaderStats, env: Env, f: Format) {
    && Initialized(base, env) && PlainHeader(base, f) && PlainEnv(env)
    && base.attrs.Keys !! Added(h).Keys && "mu" !in base.attrs && "muf" !in base.attrs
  }

  function HeaderOf(base: Header, h: BandwidthFiles.HeaderStats): Header { base.(attrs := base.attrs + Added(h)) }

  lemma HeaderOfIsPlain(base: Header, h: BandwidthFiles.HeaderStats, env: Env, f: Format)
    requires FitsGenerator(f)
    requires StartsFrom(base, h, env, f)
    ensures Initialized(HeaderOf(base, h), env) && PlainHeader(HeaderOf(base, h), f)
    ensures VersionOf(HeaderOf(base, h)) == VersionOf(base)
  {
    AddedAreDecimal(h);
    var attrs := HeaderOf(base, h).attrs;
    assert "version" in base.attrs && "latest_bandwidth" in base.attrs;
    forall k | k in attrs ensures Plain(attrs[k]) {
      if k in Added(h) { assert IsDecimal(Added(h)[k]); } else { assert attrs[k] == base.attrs[k]; }
    }
  }

  lemma HeaderHasAveragesIff(base: Header, h: BandwidthFiles.HeaderStats, env: Env, f: Format)
    requires StartsFrom(base, h, env, f)
    ensures "mu" !in HeaderOf(base, h).attrs && "muf" !in HeaderOf(base, h).attrs <==> h.averages.None?
  {
    AveragesAdded(h);
  }

  // ----- The file

  /** The generated file, with what passes through it, as it is written. */
  ghost function FileOf(g: BandwidthFiles.FileVal, base: Header, passed: seq<Line>): File
    requires |passed| == |g.lines|
  {
    File(HeaderOf(base, g.header), seq(|g.lines|, k requires 0 <= k < |g.lines| => AttrsOf(g.lines[k], passed[k])))
  }

  ghost predicate Writable(g: BandwidthFiles.FileVal, base: Header, passed: seq<Line>, env: Env, f: Format) {
    && |passed| == |g.lines| && StartsFrom(base, g.header, env, f)
    && forall k :: 0 <= k < |g.lines| ==> Passes(passed[k], g.lines[k]) && HasNoSeparator(g.lines[k].nodeId)
  }

  lemma FileOfIsPlain(g: BandwidthFiles.FileVal, base: Header, passed: seq<Line>, env: Env, f: Format)
    requires FitsGenerator(f)
    requires Writable(g, base, passed, env, f)
    ensures PlainFile(FileOf(g, base, passed), f, env)
  {
    HeaderOfIsPlain(base, g.header, env, f);
    forall k | 0 <= k < |g.lines| ensures PlainLine(FileOf(g, base, passed).lines[k]) {
      LineIsPlain(g.lines[k], passed[k]);
    }
  }

  // ----- The statistics in the file

  function StatsIn(l: LineVal): Option<Stats> { l.stats }

  lemma ScaledKeepsStats(ls: seq<LineVal>, p: Params)
    requires p.Valid() && ls != []
    ensures multiset(Map(TorflowScaled(ls, p), StatsIn)) == multiset(Map(ls, StatsIn))
  {
    var final := ScaledAndCapped(ls, Mu(ls), Muf(ls), p);
    SortKeepsImages(final, StatsIn, ByBw(p.reverse));
    assert Map(final, StatsIn) == Map(ls, StatsIn);
  }

  lemma UnlessReachedKeepsStats(ls: seq<LineVal>, consensus: Option<seq<string>>)
    ensures Map(BandwidthFiles.UnlessReached(ls, consensus), StatsIn) == Map(ls, StatsIn)
  {
  }

  lemma SameImages(xs: seq<LineVal>, ys: seq<LineVal>, k: nat) returns (j: nat)
    requires multiset(Map(xs, StatsIn)) == multiset(Map(ys, StatsIn)) && k < |xs|
    ensures j < |ys| && ys[j].stats == xs[k].stats
  {
    assert Map(xs, StatsIn)[k] in multiset(Map(ys, StatsIn));
    j :| 0 <= j < |ys| && Map(ys, StatsIn)[j] == Map(xs, StatsIn)[k];
  }

  lemma ScaledHasStats(i: BandwidthFiles.Input)
    requires i.Valid() && i.Eligible() != []
    ensures multiset(Map(ScaledOf(i), StatsIn)) == multiset(Map(i.Eligible(), StatsIn))
  {
    ScaledKeepsStats(i.Eligible(), i.Params());
    UnlessReachedKeepsStats(TorflowScaled(i.Eligible(), i.Params()), i.consensus);
  }

  lemma MarkHasNoStats(e: BandwidthFiles.Entry, rules: Rules, now: real)
    requires BandwidthFiles.IsExcluded(BandwidthFiles.MarkOf(e, rules, now))
    ensures BandwidthFiles.MarkOf(e, rules, now).line.stats.None?
  {
    ExcludedHasNoStats(e.results, rules, now);
  }

  lemma ExcludedLinesHaveNoStats(i: BandwidthFiles.Input, k: nat)
    requires k < |i.Excluded()|
    ensures i.Excluded()[k].stats.None?
  {
    var j := FilteredFrom(i.Marks(), BandwidthFiles.IsExcluded, k);
    MarkHasNoStats(i.entries[j], i.rules, i.now);
  }

  // ----- Whether the file can be read, and prints the same again

  /** Some result that counts for the relay knows the average, and some the burst. */
  predicate KnowsLimits(i: BandwidthFiles.Input, e: BandwidthFiles.Entry) {
    var used := Used(e.results, i.rules, i.now);
    && (exists r :: r in used && r.ResultSuccess? && r.averageBw.Some?)
    && (exists r :: r in used && r.ResultSuccess? && r.burstBw.Some?)
  }

  ghost predicate LimitsKnown(i: BandwidthFiles.Input) {
    forall e :: e in i.entries && EligibleEntry(i, e) ==> KnowsLimits(i, e)
  }

  lemma LastKnownOf(rs: seq<Result>, get: Result -> Option<int>)
    ensures LastKnown(Map(rs, get)).Some? <==> exists r :: r in rs && get(r).Some?
  {
    var xs := Map(rs, get);
    LastKnownIffKnown(xs);
    if x :| x in xs && x.Some? {
      var k :| 0 <= k < |xs| && xs[k] == x;
      assert rs[k] in rs && get(rs[k]).Some?;
    }
    if r :| r in rs && get(r).Some? {
      var k :| 0 <= k < |rs| && rs[k] == r;
      assert xs[k] in xs;
    }
  }

  lemma LimitsOf(used: seq<Result>)
    requires LastKnown(ObservedBws(used)).Some?
    ensures AllKnown(StatsOf(used)) <==>
              && (exists r :: r in used && r.ResultSuccess? && r.averageBw.Some?)
              && (exists r :: r in used && r.ResultSuccess? && r.burstBw.Some?)
  {
    LastKnownIffKnown(ObservedBws(used));
    LastKnownOf(used, AverageBwOf);
    LastKnownOf(used, BurstBwOf);
    SuccessesKnow(used);
  }

  lemma SuccessesKnow(used: seq<Result>)
    ensures (exists r :: r in used && AverageBwOf(r).Some?)
       <==> exists r :: r in used && r.ResultSuccess? && r.averageBw.Some?
    ensures (exists r :: r in used && BurstBwOf(r).Some?)
       <==> exists r :: r in used && r.ResultSuccess? && r.burstBw.Some?
  {
  }

  /** The statistics of an eligible relay are all known exactly when both limits are. */
  lemma EligibleStatsKnown(i: BandwidthFiles.Input, e: BandwidthFiles.Entry)
    requires EligibleEntry(i, e)
    ensures FromResults(e.results, i.rules, i.now).0.stats == Some(StatsOf(Used(e.results, i.rules, i.now)))
    ensures AllKnown(StatsOf(Used(e.results, i.rules, i.now))) <==> KnowsLimits(i, e)
  {
    EligibleHasStats(e.results, i.rules, i.now);
    LimitsOf(Used(e.results, i.rules, i.now));
  }

  /** Every line's statistics are known. */
  ghost predicate StatsKnown(ls: seq<LineVal>) {
    forall k :: 0 <= k < |ls| && ls[k].stats.Some? ==> AllKnown(ls[k].stats.value)
  }

  lemma EligibleLinesKnown(i: BandwidthFiles.Input)
    ensures StatsKnown(i.Eligible()) <==> LimitsKnown(i)
  {
    if LimitsKnown(i) {
      forall k | 0 <= k < |i.Eligible()| && i.Eligible()[k].stats.Some? ensures AllKnown(i.Eligible()[k].stats.value) {
        var j := EligibleLineOf(i, k);
        EligibleStatsKnown(i, i.entries[j]);
      }
    }
    if StatsKnown(i.Eligible()) {
      forall e | e in i.entries && EligibleEntry(i, e) ensures KnowsLimits(i, e) {
        var j :| 0 <= j < |i.entries| && i.entries[j] == e;
        var k := EligibleEntryLine(i, j);
        EligibleStatsKnown(i, e);
      }
    }
  }

  lemma SameStatsKnown(xs: seq<LineVal>, ys: seq<LineVal>)
    requires multiset(Map(xs, StatsIn)) == multiset(Map(ys, StatsIn)) && StatsKnown(ys)
    ensures StatsKnown(xs)
  {
    forall k | 0 <= k < |xs| && xs[k].stats.Some? ensures AllKnown(xs[k].stats.value) {
      var j := SameImages(xs, ys, k);
    }
  }

  /** The file's statistics are known exactly when the limits of all eligible relays are. */
  lemma GeneratedStatsKnown(i: BandwidthFiles.Input)
    requires i.Valid() && BandwidthFiles.Generated(i).Some?
    ensures StatsKnown(BandwidthFiles.Generated(i).value.lines) <==> LimitsKnown(i)
  {
    LinesOf(i);
    EligibleLinesKnown(i);
    forall k | 0 <= k < |i.Excluded()| ensures i.Excluded()[k].stats.None? { ExcludedLinesHaveNoStats(i, k); }
    if i.Eligible() != [] {
      ScaledHasStats(i);
      ConcatStatsKnown(ScaledOf(i), i.Excluded());
      if StatsKnown(ScaledOf(i)) { SameStatsKnown(i.Eligible(), ScaledOf(i)); }
      if StatsKnown(i.Eligible()) { SameStatsKnown(ScaledOf(i), i.Eligible()); }
    }
  }

  lemma ConcatStatsKnown(a: seq<LineVal>, b: seq<LineVal>)
    requires forall k :: 0 <= k < |b| ==> b[k].stats.None?
    ensures StatsKnown(a + b) <==> StatsKnown(a)
  {
    if StatsKnown(a + b) {
      forall k | 0 <= k < |a| && a[k].stats.Some? ensures AllKnown(a[k].stats.value) { assert (a + b)[k] == a[k]; }
    }
  }

  lemma FileParsesIff(g: BandwidthFiles.FileVal, base: Header, passed: seq<Line>, env: Env, f: Format)
    requires FitsGenerator(f)
    requires Writable(g, base, passed, env, f)
    ensures AllParse(FileOf(g, base, passed).lines, f)
       <==> AllParse(passed, f) && StatsKnown(g.lines)
  {
    var lines := FileOf(g, base, passed).lines;
    forall k | 0 <= k < |g.lines|
      ensures IntsParse(lines[k], f)
         <==> IntsParse(passed[k], f) && (g.lines[k].stats.Some? ==> AllKnown(g.lines[k].stats.value))
    {
      LineParsesIff(g.lines[k], passed[k], f);
    }
    if AllParse(lines, f) {
      forall k | 0 <= k < |passed| ensures IntsParse(passed[k], f) { assert IntsParse(lines[k], f); }
      forall k | 0 <= k < |g.lines| && g.lines[k].stats.Some? ensures AllKnown(g.lines[k].stats.value) {
        assert IntsParse(lines[k], f);
      }
    }
  }

  lemma WrittenReadableIff(g: BandwidthFiles.FileVal, base: Header, passed: seq<Line>, env: Env, f: Format)
    requires FitsGenerator(f)
    requires Writable(g, base, passed, env, f)
    ensures ParseFile(FileText(FileOf(g, base, passed), f), f, env).Some?
       <==> StatsKnown(g.lines) && AllParse(passed, f)
  {
    FileOfIsPlain(g, base, passed, env, f);
    FileIsReread(FileOf(g, base, passed), f, env);
    FileParsesIff(g, base, passed, env, f);
  }

  /** A generated file can be read back if and only if the average and the burst of every
      eligible relay are known, and the integers that pass through it are integers. */
  lemma GeneratedReadableIff(i: BandwidthFiles.Input, base: Header, passed: seq<Line>, env: Env, f: Format)
    requires FitsGenerator(f)
    requires i.Valid() && BandwidthFiles.Generated(i).Some?
    requires Writable(BandwidthFiles.Generated(i).value, base, passed, env, f)
    ensures ParseFile(FileText(FileOf(BandwidthFiles.Generated(i).value, base, passed), f), f, env).Some?
       <==> LimitsKnown(i) && AllParse(passed, f)
  {
    WrittenReadableIff(BandwidthFiles.Generated(i).value, base, passed, env, f);
    GeneratedStatsKnown(i);
  }

  lemma NothingEligible(i: BandwidthFiles.Input)
    requires i.Valid() && BandwidthFiles.Generated(i).Some? && i.Eligible() == []
    ensures forall k :: 0 <= k < |BandwidthFiles.Generated(i).value.lines| ==>
              BandwidthFiles.Generated(i).value.lines[k].stats.None?
  {
    LinesOf(i);
    forall k | 0 <= k < |i.Excluded()| ensures i.Excluded()[k].stats.None? { ExcludedLinesHaveNoStats(i, k); }
  }

  lemma FileIsCanonicalIff(g: BandwidthFiles.FileVal, base: Header, passed: seq<Line>, env: Env, f: Format)
    requires FitsGenerator(f)
    requires Writable(g, base, passed, env, f) && forall k :: 0 <= k < |g.lines| ==> g.lines[k].stats.None?
    ensures AllCanonical(FileOf(g, base, passed).lines, f) <==> AllCanonical(passed, f)
  {
    var lines := FileOf(g, base, passed).lines;
    forall k | 0 <= k < |g.lines| ensures IntsCanonical(lines[k], f) <==> IntsCanonical(passed[k], f) {
      LineIsCanonicalIff(g.lines[k], passed[k], f);
    }
    if AllCanonical(lines, f) {
      forall k | 0 <= k < |passed| ensures IntsCanonical(passed[k], f) { assert IntsCanonical(lines[k], f); }
    }
  }

  lemma RoundTripsWithout(file: File, f: Format, env: Env, none: bool)
    requires FitsGenerator(f) && PlainFile(file, f, env)
    requires "mu" !in file.header.attrs && "muf" !in file.header.attrs <==> none
    ensures RoundTrips(file, f, env) <==> "1." <= VersionOf(file.header) && none && AllCanonical(file.lines, f)
  {
    RoundTripsIffNoAverages(file, f, env);
  }

  lemma WrittenRoundTripsIff(g: BandwidthFiles.FileVal, base: Header, passed: seq<Line>, env: Env, f: Format)
    requires FitsGenerator(f)
    requires Writable(g, base, passed, env, f)
    ensures RoundTrips(FileOf(g, base, passed), f, env)
       <==> "1." <= VersionOf(base) && g.header.averages.None? && AllCanonical(FileOf(g, base, passed).lines, f)
  {
    FileOfIsPlain(g, base, passed, env, f);
    HeaderOfIsPlain(base, g.header, env, f);
    HeaderHasAveragesIff(base, g.header, env, f);
    RoundTripsWithout(FileOf(g, base, passed), f, env, g.header.averages.None?);
  }

  /** A generated file prints the same after being read if and only if no relay is eligible,
      because the header of the others has averages, its version starts with one, and the
      integers that pass through it are canonical. */
  lemma GeneratedRoundTripsIff(i: BandwidthFiles.Input, base: Header, passed: seq<Line>, env: Env, f: Format)
    requires FitsGenerator(f)
    requires i.Valid() && BandwidthFiles.Generated(i).Some?
    requires Writable(BandwidthFiles.Generated(i).value, base, passed, env, f)
    ensures RoundTrips(FileOf(BandwidthFiles.Generated(i).value, base, passed), f, env)
       <==> i.Eligible() == [] && "1." <= VersionOf(base) && AllCanonical(passed, f)
  {
    WrittenRoundTripsIff(BandwidthFiles.Generated(i).value, base, passed, env, f);
    HeaderTellsAverages(i);
    if i.Eligible() == [] {
      NothingEligible(i);
      FileIsCanonicalIff(BandwidthFiles.Generated(i).value, base, passed, env, f);
    }
  }
}
