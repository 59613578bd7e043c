/** Bandwidth files letter by letter: what the simplest header and line look like. */
module FileFormat {
  import opened BandwidthFileText
  import opened FileKeys
  import opened HeaderRoundTrip
  import opened Rounding
  import opened Sequences
  import opened Text
  import opened Wrappers

  // ----- Keys in order

  lemma {:induction false} FirstIsUnique(k: string, o: string, keys: set<string>)
    requires IsFirst(k, keys) && IsFirst(o, keys)
    ensures k == o
  {
    if k != o { BeforeIsTotal(k, o); }
  }

  lemma {:induction false} SortedFirst(k: string, keys: set<string>)
    requires IsFirst(k, keys)
    ensures SortedKeys(keys) == [k] + SortedKeys(keys - {k})
  {
    FirstIsUnique(k, SortedKeys(keys)[0], keys);
  }

  lemma {:induction false} SetOfRest(ks: seq<string>)
    requires ks != [] && StrictlySorted(ks)
    ensures IsFirst(ks[0], SetOf(ks)) && SetOf(ks) - {ks[0]} == SetOf(ks[1..])
  {
    BeforeIsTotal(ks[0], ks[0]);
    forall o | o in SetOf(ks) && o != ks[0] ensures Before(ks[0], o) {
      var i :| 0 <= i < |ks| && ks[i] == o;
    }
    forall k ensures k in SetOf(ks) - {ks[0]} <==> k in SetOf(ks[1..]) {
      assert ks == [ks[0]] + ks[1..];
      if k in ks[1..] { var i :| 1 <= i < |ks| && ks[i] == k; }
    }
  }

  /** Keys that are in order are what sorting their set gives. */
  lemma {:induction false} SortedAsListed(ks: seq<string>)
    requires StrictlySorted(ks)
    ensures SortedKeys(SetOf(ks)) == ks
  {
    if ks != [] {
      SetOfRest(ks);
      SortedFirst(ks[0], SetOf(ks));
      SortedAsListed(ks[1..]);
    } else {
      assert SetOf(ks) == {};
    }
  }

  lemma {:induction false} FourSorted(a: string, b: string, c: string, d: string)
    requires Before(a, b) && Before(b, c) && Before(c, d)
    ensures StrictlySorted([a, b, c, d])
  {
    BeforeIsTransitive(a, b, c);
    BeforeIsTransitive(a, c, d);
    BeforeIsTransitive(b, c, d);
  }

  lemma {:induction false} BeforeLonger(a: string, b: string)
    requires b != []
    ensures Before(a, a + b)
  {
    if a == [] {
      assert a + b == b;
    } else {
      assert (a + b)[1..] == a[1..] + b;
      BeforeLonger(a[1..], b);
    }
  }

  const SELF_KEYS := ["file_created", "latest_bandwidth", "software", "software_version"]

  lemma {:induction false} SelfKeysInOrder()
    ensures Before("file_created", "latest_bandwidth") && Before("latest_bandwidth", "software")
    ensures Before("software", "software_version")
  {
    BeforeLonger("software", "_version");
    assert "software" + "_version" == "software_version";
  }

  lemma {:induction false} FourSortedKeys(a: string, b: string, c: string, d: string)
    requires Before(a, b) && Before(b, c) && Before(c, d)
    ensures SortedKeys({c, d, a, b}) == [a, b, c, d]
  {
    FourSorted(a, b, c, d);
    SortedAsListed([a, b, c, d]);
    assert SetOf([a, b, c, d]) == {c, d, a, b};
  }

  lemma {:induction false} SelfInitializedSorted()
    ensures SortedKeys(SELF_INITIALIZED) == SELF_KEYS
  {
    SelfKeysInOrder();
    FourSortedKeys("file_created", "latest_bandwidth", "software", "software_version");
  }

  // ----- A header without arguments

  lemma {:induction false} DefaultAttrs(f: Format)
    requires f.Valid()
    ensures ({"version"} + SELF_INITIALIZED) * f.Unordered() == SELF_INITIALIZED
  {
  }

  /** The attributes of a header without arguments, in the order in which they are printed. */
  lemma {:induction false} DefaultTokens(timestamp: string, f: Format, env: Env)
    requires f.Valid() && env.iso(timestamp).Some?
    ensures var h := InitHeader(timestamp, map[], f, env);
            && h.Some? && VersionOf(h.value) == "1.9.0"
            && HeaderTokens(h.value, f, '=') == [timestamp] + Map(["version"] + SELF_KEYS, Field(h.value.attrs, '='))
  {
    var h := InitHeader(timestamp, map[], f, env).value;
    assert h.attrs.Keys == {"version"} + SELF_INITIALIZED;
    DefaultAttrs(f);
    SelfInitializedSorted();
  }

  lemma {:induction false} DefaultFields(timestamp: string, f: Format, env: Env)
    requires f.Valid() && env.iso(timestamp).Some?
    ensures var attrs := InitHeader(timestamp, map[], f, env).value.attrs;
            Map(["version"] + SELF_KEYS, Field(attrs, '='))
            == ["version" + ['='] + "1.9.0", "file_created" + ['='] + env.now,
                "latest_bandwidth" + ['='] + env.iso(timestamp).value, "software" + ['='] + "sbws",
                "software_version" + ['='] + env.softwareVersion]
  {
    var attrs := InitHeader(timestamp, map[], f, env).value.attrs;
    DefaultValues(timestamp, f, env);
    MapFive("version", "file_created", "latest_bandwidth", "software", "software_version", Field(attrs, '='));
    assert ["version"] + SELF_KEYS == ["version", "file_created", "latest_bandwidth", "software", "software_version"];
  }

  lemma {:induction false} MapFive(a: string, b: string, c: string, d: string, e: string, g: string -> string)
    ensures Map([a, b, c, d, e], g) == [g(a), g(b), g(c), g(d), g(e)]
  {
  }

  lemma {:induction false} DefaultValues(timestamp: string, f: Format, env: Env)
    requires env.iso(timestamp).Some?
    ensures var attrs := InitHeader(timestamp, map[], f, env).value.attrs;
            && Get(attrs, "version") == "1.9.0" && Get(attrs, "file_created") == env.now
            && Get(attrs, "latest_bandwidth") == env.iso(timestamp).value
            && Get(attrs, "software") == "sbws" && Get(attrs, "software_version") == env.softwareVersion
  {
  }

  /** The timestamp, the version of the format and the other attributes by their keys, each on
      a line of its own, and then the terminator. */
  lemma {:induction false} DefaultHeaderText(timestamp: string, f: Format, env: Env)
    requires f.Valid() && env.iso(timestamp).Some?
    ensures InitHeader(timestamp, map[], f, env).Some?
    ensures HeaderText(InitHeader(timestamp, map[], f, env).value, f)
         == Join([timestamp] + ["version" + "=" + "1.9.0", "file_created" + "=" + env.now,
                                "latest_bandwidth" + "=" + env.iso(timestamp).value, "software" + "=" + "sbws",
                                "software_version" + "=" + env.softwareVersion], '\n')
            + "\n" + "=====\n"
  {
    DefaultTokens(timestamp, f, env);
    DefaultFields(timestamp, f, env);
    TerminatorLine();
    OneSeparator();
  }

  lemma {:induction false} TerminatorLine()
    ensures LineText(TERMINATOR) == "=====\n"
  {
  }

  lemma {:induction false} OneSeparator()
    ensures SeparatorOf("1.9.0") == '='
  {
  }

  // ----- The simplest line

  lemma {:induction false} BwBeforeNodeId()
    ensures Before("bw", "node_id")
  {
  }

  lemma {:induction false} TwoSorted(a: string, b: string)
    requires Before(a, b)
    ensures SortedKeys({b, a}) == [a, b]
  {
    SortedAsListed([a, b]);
    assert SetOf([a, b]) == {b, a};
  }

  lemma {:induction false} JoinTwo(a: string, b: string, sep: char)
    ensures Join([a, b], sep) == a + [sep] + b
  {
    assert [a, b][1..] == [b];
  }

  /** Bandwidth and relay, in this order, with a blank in between. */
  lemma {:induction false} SimplestLine(l: Line, id: string, n: int, f: Format)
    requires l == map["node_id" := TextValue(id), "bw" := IntValue(n)] && {"bw", "node_id"} <= f.line
    ensures LineBody(f)(l) == "bw" + ['='] + Decimal(n) + [' '] + ("node_id" + ['='] + id)
  {
    SimplestKeys(l, f);
    SimplestTokens(l, id, n);
    TwoFields(l, f, "bw" + ['='] + Decimal(n), "node_id" + ['='] + id);
  }

  lemma {:induction false} TwoFields(l: Line, f: Format, a: string, b: string)
    requires LineTokens(l, f) == [a, b]
    ensures LineBody(f)(l) == a + [' '] + b
  {
    JoinTwo(a, b, ' ');
  }

  lemma {:induction false} SimplestKeys(l: Line, f: Format)
    requires l.Keys == {"node_id", "bw"} <= f.line
    ensures SortedKeys(l.Keys * f.line) == ["bw", "node_id"]
  {
    BwBeforeNodeId();
    TwoSorted("bw", "node_id");
    assert l.Keys * f.line == {"node_id", "bw"};
  }

  lemma {:induction false} SimplestTokens(l: Line, id: string, n: int)
    requires l == map["node_id" := TextValue(id), "bw" := IntValue(n)]
    ensures Map(["bw", "node_id"], Field(Printed(l), '=')) == ["bw" + ['='] + Decimal(n), "node_id" + ['='] + id]
  {
    assert "bw" != "node_id";
    assert Get(Printed(l), "bw") == Decimal(n) && Get(Printed(l), "node_id") == id;
  }

  // ----- Values

  lemma {:induction false} WordsAndMissing()
    ensures Print(BoolValue(true)) == "True" && Print(BoolValue(false)) == "False" && Print(NoneValue) == "None"
  {
  }

  /** The last digit of a number follows those of the rest, and zero to nine are themselves. */
  lemma {:induction false} DecimalDigits(n: nat, d: nat)
    requires d < 10
    ensures n > 0 ==> Decimal(10 * n + d) == Decimal(n) + ["0123456789"[d]]
    ensures Decimal(d) == ["0123456789"[d]]
    ensures n > 0 ==> Decimal(-(n as int)) == "-" + Decimal(n)
  {
    assert (10 * n + d) / 10 == n && (10 * n + d) % 10 == d;
    DigitChar(d);
  }

  lemma {:induction false} DigitChar(d: nat)
    requires d < 10
    ensures Digit(d) == "0123456789"[d]
  {
  }

  /** A number is printed with two decimals as the nearest multiple of a hundredth, of two the
      even one, and with its sign. */
  lemma {:induction false} TwoDecimalsNearest(x: real) returns (h: nat)
    ensures var size := if x < 0.0 then -x else x;
            && Distance(h as real, size * 100.0) <= 0.5
            && (Distance(h as real, size * 100.0) == 0.5 ==> h % 2 == 0)
            && TwoDecimals(x)
               == (if x < 0.0 then "-" else "") + Decimal(h / 100) + "." + [Digit(h / 10 % 10)] + [Digit(h % 10)]
  {
    h := HundredthsOf(x);
    RoundHalfEvenIff(if x < 0.0 then -x * 100.0 else x * 100.0, h);
  }
}
