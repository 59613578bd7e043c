/** Printing the header of a bandwidth file, parsing it and printing it again. */
module HeaderRoundTrip {
  import opened BandwidthFileText
  import opened FileKeys
  import opened LineRoundTrip
  import opened Sequences
  import opened Text
  import opened Wrappers

  /** The timestamp is no key, and nothing has a separator in it but spaces. */
  ghost predicate PlainHeader(h: Header, f: Format) {
    && Plain(h.timestamp) && h.timestamp !in f.Header()
    && ValuesFree(h.attrs, '=') && ValuesFree(h.attrs, '\n') && ValuesFree(h.attrs, '\r')
  }

  predicate Plain(s: string) { '=' !in s && '\n' !in s && '\r' !in s }

  ghost predicate PlainEnv(env: Env) { Plain(env.softwareVersion) && Plain(env.now) }

  /** The timestamps the generator writes are plain. */
  lemma DecimalTimestampIsPlain(n: int, f: Format)
    requires f.Valid()
    ensures Plain(Decimal(n)) && Decimal(n) !in f.Header()
  {
    DecimalChars(n);
    assert Decimal(n) != [];
  }

  function VersionOf(h: Header): string { Get(h.attrs, "version") }

  ghost function PrintedHeader(h: Header, f: Format): seq<string> { HeaderTokens(h, f, SeparatorOf(VersionOf(h))) }

  // ----- What is printed

  ghost function HeaderKeys(h: Header, f: Format): seq<string> { ["version"] + UnorderedKeys(h, f) }

  lemma SortedWithVersion(attrs: set<string>, unordered: set<string>)
    requires "version" in attrs
    ensures forall k :: k in ["version"] + SortedKeys(attrs * unordered) <==> k in attrs && k in {"version"} + unordered
  {
    forall k
      ensures k in ["version"] + SortedKeys(attrs * unordered) <==> k in attrs && k in {"version"} + unordered
    {
      assert k in SortedKeys(attrs * unordered) <==> k in attrs * unordered;
    }
  }

  lemma MembersAreKeys(ks: seq<string>, keys: set<string>)
    requires (forall k :: k in keys ==> IsKey(k)) && forall k :: k in ks ==> k in keys
    ensures AreKeys(ks)
  {
    forall i | 0 <= i < |ks| ensures IsKey(ks[i]) { assert ks[i] in ks; }
  }

  lemma HeaderKeysFacts(h: Header, f: Format, env: Env)
    requires f.Valid() && Initialized(h, env)
    ensures AreKeys(HeaderKeys(h, f))
    ensures forall k :: k in HeaderKeys(h, f) <==> k in h.attrs && k in f.Header()
  {
    SortedWithVersion(h.attrs.Keys, f.Unordered());
    MembersAreKeys(HeaderKeys(h, f), f.Header());
  }

  lemma FieldIsNoTerminator(k: string, sep: char, v: string)
    requires IsKey(k)
    ensures k + [sep] + v != TERMINATOR
  {
    assert (k + [sep] + v)[0] == k[0] && IsKeyChar(k[0]);
  }

  lemma FieldsAreNoTerminator(ks: seq<string>, m: map<string, string>, sep: char)
    requires AreKeys(ks)
    ensures TERMINATOR !in Map(ks, Field(m, sep))
  {
    forall i | 0 <= i < |ks| ensures Field(m, sep)(ks[i]) != TERMINATOR {
      FieldIsNoTerminator(ks[i], sep, Get(m, ks[i]));
    }
  }

  lemma KeysAreFree(ks: seq<string>)
    requires AreKeys(ks)
    ensures forall i :: 0 <= i < |ks| ==> Plain(ks[i])
  {
    forall i | 0 <= i < |ks| ensures Plain(ks[i]) { KeyIsFree(ks[i]); }
  }

  lemma FreeIsNoTerminator(s: string)
    requires '=' !in s
    ensures s != TERMINATOR
  {
    assert TERMINATOR[0] == '=';
  }

  lemma OneMoreToken(token: string, tokens: seq<string>, c: char)
    requires c !in token && AllFree(tokens, c)
    ensures AllFree([token] + tokens, c)
  {
  }

  predicate IsLineEnd(c: char) { c == '\n' || c == '\r' }

  /** No line of a header is broken in two. */
  lemma HeaderTokensAreFree(h: Header, f: Format, env: Env, sep: char, c: char)
    requires f.Valid() && Initialized(h, env) && PlainHeader(h, f) && IsLineEnd(c) && !IsLineEnd(sep)
    ensures AllFree(HeaderTokens(h, f, sep), c)
  {
    var ks := HeaderKeys(h, f);
    HeaderKeysFacts(h, f, env);
    KeysAreFree(ks);
    FieldsAreFree(ks, h.attrs, sep, c);
    OneMoreToken(h.timestamp, Map(ks, Field(h.attrs, sep)), c);
  }

  /** None is the terminator. */
  lemma NoTokenIsTerminator(h: Header, f: Format, env: Env, sep: char)
    requires f.Valid() && Initialized(h, env) && PlainHeader(h, f)
    ensures TERMINATOR !in HeaderTokens(h, f, sep)
  {
    var ks := HeaderKeys(h, f);
    HeaderKeysFacts(h, f, env);
    FieldsAreNoTerminator(ks, h.attrs, sep);
    FreeIsNoTerminator(h.timestamp);
    NeitherIsTerminator(h.timestamp, Map(ks, Field(h.attrs, sep)));
  }

  lemma NeitherIsTerminator(token: string, tokens: seq<string>)
    requires token != TERMINATOR && TERMINATOR !in tokens
    ensures TERMINATOR !in [token] + tokens
  {
  }

  // ----- Reading it

  lemma TimestampIsIgnored(timestamp: string, keys: set<string>)
    requires '=' !in timestamp && timestamp !in keys
    ensures ParseFields([timestamp], keys) == Some(map[])
  {
    SplitFree(timestamp, '=');
    assert [timestamp][..0] == [];
  }

  ghost function ShownHeader(h: Header, f: Format): map<string, string> {
    map k | k in h.attrs && k in f.Header() :: h.attrs[k]
  }

  lemma ReadV1(h: Header, f: Format, env: Env)
    requires f.Valid() && Initialized(h, env) && PlainHeader(h, f)
    ensures ParseFields(HeaderTokens(h, f, '='), f.Header()) == Some(ShownHeader(h, f))
  {
    TimestampIsIgnored(h.timestamp, f.Header());
    HeaderKeysFacts(h, f, env);
    FieldsRoundTrip([h.timestamp], HeaderKeys(h, f), h.attrs, f.Header());
    KnownHeader(h, HeaderKeys(h, f), f.Header());
  }

  lemma KnownHeader(h: Header, ks: seq<string>, keys: set<string>)
    requires forall k :: k in ks <==> k in h.attrs && k in keys
    ensures Known(h.attrs, ks, keys) == map k | k in h.attrs && k in keys :: h.attrs[k]
  {
  }

  /** A field with a space for a separator has no known key. */
  lemma SpacedFieldIsIgnored(tokens: seq<string>, k: string, v: string, f: Format)
    requires f.Valid() && '=' !in k && '=' !in v && ParseFields(tokens, f.Header()) == Some(map[])
    ensures ParseFields(tokens + [k + [' '] + v], f.Header()) == Some(map[])
  {
    var token := k + [' '] + v;
    SplitFree(token, '=');
    assert ' ' in token by { assert token[|k|] == ' '; }
    if token in f.Header() { KeyIsFree(token); }
    assert (tokens + [token])[..|tokens|] == tokens;
  }

  lemma {:induction false} SpacedFieldsAreIgnored(pre: seq<string>, ks: seq<string>, m: map<string, string>, f: Format)
    requires f.Valid() && ParseFields(pre, f.Header()) == Some(map[])
    requires AreKeys(ks) && ValuesFree(m, '=')
    ensures ParseFields(pre + Map(ks, Field(m, ' ')), f.Header()) == Some(map[])
  {
    if ks == [] {
      assert pre + Map(ks, Field(m, ' ')) == pre;
    } else {
      var n := |ks| - 1;
      SpacedFieldsAreIgnored(pre, ks[..n], m, f);
      KeyIsFree(ks[n]);
      PrintOneMore(pre, ks, Field(m, ' '));
      SpacedFieldIsIgnored(pre + Map(ks[..n], Field(m, ' ')), ks[n], Get(m, ks[n]), f);
    }
  }

  lemma ReadV2(h: Header, f: Format, env: Env)
    requires f.Valid() && Initialized(h, env) && PlainHeader(h, f)
    ensures ParseFields(HeaderTokens(h, f, ' '), f.Header()) == Some(map[])
  {
    TimestampIsIgnored(h.timestamp, f.Header());
    HeaderKeysFacts(h, f, env);
    SpacedFieldsAreIgnored([h.timestamp], HeaderKeys(h, f), h.attrs, f);
  }

  /** A header without the averages, nor anything that is not printed. */
  ghost function WithoutAverages(h: Header, f: Format): Header {
    Header(h.timestamp, map k | k in h.attrs && k in {"version"} + SELF_INITIALIZED + f.init :: h.attrs[k])
  }

  lemma ShownHasSelf(h: Header, f: Format, env: Env)
    requires Initialized(h, env)
    ensures forall k :: k in {"version"} + SELF_INITIALIZED ==>
              k in ShownHeader(h, f) && ShownHeader(h, f)[k] == h.attrs[k]
  {
    assert SELF_INITIALIZED <= f.Header() && "version" in f.Header();
  }

  /** Given all five, a header sets itself what it was given. */
  lemma SelfFromGiven(given: map<string, string>, latest: string, env: Env)
    requires {"version"} + SELF_INITIALIZED <= given.Keys && given["latest_bandwidth"] == latest
    ensures SelfInitialized(given, latest, env) == map k | k in {"version"} + SELF_INITIALIZED :: given[k]
  {
  }

  lemma InitFromGiven(given: map<string, string>, timestamp: string, f: Format, env: Env)
    requires {"version"} + SELF_INITIALIZED <= given.Keys
    requires env.iso(timestamp) == Some(given["latest_bandwidth"])
    ensures InitHeader(timestamp, given, f, env)
         == Some(Header(timestamp, map k | k in given && k in {"version"} + SELF_INITIALIZED + f.init :: given[k]))
  {
    SelfFromGiven(given, given["latest_bandwidth"], env);
    RestrictedTwice(given, {"version"} + SELF_INITIALIZED, f.init);
  }

  lemma RestrictedTwice(given: map<string, string>, first: set<string>, second: set<string>)
    requires first <= given.Keys
    ensures (map k | k in first :: given[k]) + (map k | k in given && k in second :: given[k])
         == map k | k in given && k in first + second :: given[k]
  {
  }

  lemma InitFromShown(h: Header, f: Format, env: Env)
    requires Initialized(h, env)
    ensures InitHeader(h.timestamp, ShownHeader(h, f), f, env) == Some(WithoutAverages(h, f))
  {
    ShownHasSelf(h, f, env);
    InitFromGiven(ShownHeader(h, f), h.timestamp, f, env);
    RestrictShown(h, f);
  }

  lemma RestrictShown(h: Header, f: Format)
    ensures var known := {"version"} + SELF_INITIALIZED + f.init;
            (map k | k in ShownHeader(h, f) && k in known :: ShownHeader(h, f)[k]) == WithoutAverages(h, f).attrs
  {
  }

  /** What a header that has only a timestamp says. */
  ghost function Defaults(timestamp: string, f: Format, env: Env): Header
    requires env.iso(timestamp).Some?
  {
    InitHeader(timestamp, map[], f, env).value
  }

  /** What is left of a printed header once it is read. */
  ghost function RereadHeader(h: Header, f: Format, env: Env): (r: Header)
    requires Initialized(h, env)
    ensures r.timestamp == h.timestamp
  {
    if "1." <= VersionOf(h) then WithoutAverages(h, f) else Defaults(h.timestamp, f, env)
  }

  ghost predicate ReadAs(tokens: seq<string>, h: Header, f: Format, env: Env) {
    var kwargs := ParseFields(tokens, f.Header());
    kwargs.Some? && InitHeader(h.timestamp, kwargs.value, f, env) == Some(h)
  }

  lemma V1IsReread(h: Header, f: Format, env: Env)
    requires f.Valid() && Initialized(h, env) && PlainHeader(h, f)
    ensures ReadAs(HeaderTokens(h, f, '='), WithoutAverages(h, f), f, env)
  {
    ReadV1(h, f, env);
    InitFromShown(h, f, env);
  }

  lemma V2IsReread(h: Header, f: Format, env: Env)
    requires f.Valid() && Initialized(h, env) && PlainHeader(h, f)
    ensures ReadAs(HeaderTokens(h, f, ' '), Defaults(h.timestamp, f, env), f, env)
  {
    ReadV2(h, f, env);
  }

  lemma HeaderIsReread(h: Header, f: Format, env: Env)
    requires f.Valid() && Initialized(h, env) && PlainHeader(h, f)
    ensures ReadAs(PrintedHeader(h, f), RereadHeader(h, f, env), f, env)
  {
    if "1." <= VersionOf(h) { V1IsReread(h, f, env); } else { V2IsReread(h, f, env); }
  }

  // ----- Printing it again

  lemma DefaultsAre(timestamp: string, f: Format, env: Env)
    requires env.iso(timestamp).Some?
    ensures Defaults(timestamp, f, env)
         == Header(timestamp, SelfInitialized(map[], env.iso(timestamp).value, env))
  {
  }

  lemma SelfInitializedIsPlain(latest: string, env: Env)
    requires Plain(latest) && PlainEnv(env)
    ensures forall k :: k in SelfInitialized(map[], latest, env) ==> Plain(SelfInitialized(map[], latest, env)[k])
  {
    assert Plain("sbws") && Plain(SPEC_VERSION);
  }

  lemma SelfInitializedHas(latest: string, env: Env)
    ensures var m := SelfInitialized(map[], latest, env);
            && {"version"} + SELF_INITIALIZED <= m.Keys
            && Get(m, "latest_bandwidth") == latest && Get(m, "version") == SPEC_VERSION
  {
  }

  lemma DefaultsArePlain(h: Header, f: Format, env: Env)
    requires Initialized(h, env) && PlainHeader(h, f) && PlainEnv(env)
    ensures Initialized(Defaults(h.timestamp, f, env), env) && PlainHeader(Defaults(h.timestamp, f, env), f)
    ensures VersionOf(Defaults(h.timestamp, f, env)) == SPEC_VERSION
  {
    var latest := env.iso(h.timestamp).value;
    assert latest == h.attrs["latest_bandwidth"] && Plain(latest);
    DefaultsAre(h.timestamp, f, env);
    SelfInitializedIsPlain(latest, env);
    SelfInitializedHas(latest, env);
  }

  lemma RereadHeaderIsPlain(h: Header, f: Format, env: Env)
    requires f.Valid() && Initialized(h, env) && PlainHeader(h, f) && PlainEnv(env)
    ensures Initialized(RereadHeader(h, f, env), env) && PlainHeader(RereadHeader(h, f, env), f)
  {
    if "1." <= VersionOf(h) {
    } else {
      DefaultsArePlain(h, f, env);
    }
  }

  lemma SameFields(ks: seq<string>, m: map<string, string>, n: map<string, string>, sep: char)
    requires forall k :: k in ks ==> Get(m, k) == Get(n, k)
    ensures Map(ks, Field(m, sep)) == Map(ks, Field(n, sep))
  {
  }

  lemma FewerKeys(a: set<string>, b: set<string>, k: string)
    requires a <= b && k in b - a
    ensures |a| < |b|
  {
    assert a < b;
    SubsetIsSmaller(a, b);
  }

  lemma {:induction false} SubsetIsSmaller(a: set<string>, b: set<string>)
    requires a < b
    ensures |a| < |b|
  {
    if a != {} {
      var k :| k in a;
      SubsetIsSmaller(a - {k}, b - {k});
    }
  }

  lemma KeptKeys(h: Header, f: Format)
    requires f.Valid()
    ensures WithoutAverages(h, f).attrs.Keys * f.Unordered() == h.attrs.Keys * f.Unordered() - f.averages
    ensures forall k :: k in h.attrs && k in f.Header() - f.averages ==>
              Get(WithoutAverages(h, f).attrs, k) == h.attrs[k]
  {
  }

  lemma FewerTokens(h: Header, f: Format, k: string)
    requires f.Valid() && k in h.attrs && k in f.averages
    ensures |HeaderTokens(WithoutAverages(h, f), f, '=')| < |HeaderTokens(h, f, '=')|
  {
    KeptKeys(h, f);
    var all := h.attrs.Keys * f.Unordered();
    FewerKeys(all - f.averages, all, k);
  }

  lemma SameTokens(h: Header, f: Format, env: Env)
    requires f.Valid() && Initialized(h, env) && h.attrs.Keys !! f.averages
    ensures HeaderTokens(WithoutAverages(h, f), f, '=') == HeaderTokens(h, f, '=')
  {
    KeptKeys(h, f);
    var all := h.attrs.Keys * f.Unordered();
    assert all - f.averages == all;
    HeaderKeysFacts(h, f, env);
    NoAverages(h, f);
    SameFields(HeaderKeys(h, f), WithoutAverages(h, f).attrs, h.attrs, '=');
  }

  /** Without its averages a header has the same tokens exactly when it had none. */
  lemma ReprintV1(h: Header, f: Format, env: Env)
    requires f.Valid() && Initialized(h, env)
    ensures HeaderTokens(WithoutAverages(h, f), f, '=') == HeaderTokens(h, f, '=') <==> h.attrs.Keys !! f.averages
  {
    if k :| k in h.attrs && k in f.averages { FewerTokens(h, f, k); } else { SameTokens(h, f, env); }
  }

  lemma NoAverages(h: Header, f: Format)
    requires f.Valid() && h.attrs.Keys !! f.averages
    ensures forall k :: k in h.attrs && k in f.Header() ==> Get(WithoutAverages(h, f).attrs, k) == Get(h.attrs, k)
  {
    KeptKeys(h, f);
  }

  lemma OtherSeparator(h: Header, d: Header, f: Format)
    ensures HeaderTokens(d, f, '=') != HeaderTokens(h, f, ' ')
  {
    var a, b := HeaderTokens(d, f, '=')[1], HeaderTokens(h, f, ' ')[1];
    assert a == "version" + ['='] + Get(d.attrs, "version") && a[7] == '=';
    assert b == "version" + [' '] + Get(h.attrs, "version") && b[7] == ' ';
  }

  lemma V1Survives(h: Header, f: Format, env: Env)
    requires f.Valid() && Initialized(h, env) && "1." <= VersionOf(h)
    ensures PrintedHeader(WithoutAverages(h, f), f) == PrintedHeader(h, f) <==> h.attrs.Keys !! f.averages
  {
    assert VersionOf(WithoutAverages(h, f)) == VersionOf(h);
    ReprintV1(h, f, env);
  }

  lemma V2DoesNotSurvive(h: Header, f: Format, env: Env)
    requires Initialized(h, env) && PlainHeader(h, f) && PlainEnv(env) && !("1." <= VersionOf(h))
    ensures PrintedHeader(Defaults(h.timestamp, f, env), f) != PrintedHeader(h, f)
  {
    DefaultsArePlain(h, f, env);
    OtherSeparator(h, Defaults(h.timestamp, f, env), f);
  }

  /** A header survives being printed, read and printed exactly when its version starts with
      one and it has no network averages. */
  lemma HeaderSurvivesIff(h: Header, f: Format, env: Env)
    requires f.Valid() && Initialized(h, env) && PlainHeader(h, f) && PlainEnv(env)
    ensures PrintedHeader(RereadHeader(h, f, env), f) == PrintedHeader(h, f)
       <==> "1." <= VersionOf(h) && h.attrs.Keys !! f.averages
  {
    if "1." <= VersionOf(h) { V1Survives(h, f, env); } else { V2DoesNotSurvive(h, f, env); }
  }
}
