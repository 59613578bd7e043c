/** Printing a bandwidth line, parsing it and printing it again. */
module LineRoundTrip {
  import opened BandwidthFileText
  import opened FileKeys
  import opened Sequences
  import opened Text
  import opened Wrappers

  // ----- Fields

  /** Nothing in a text ends the text itself, its field or its line; a carriage return does
      once it is read back. */
  predicate HasNoSeparator(s: string) { ' ' !in s && '=' !in s && '\n' !in s && '\r' !in s }

  lemma KeyIsFree(k: string)
    requires IsKey(k)
    ensures HasNoSeparator(k)
  {
    forall i | 0 <= i < |k| ensures k[i] != '=' && k[i] != ' ' && k[i] != '\n' && k[i] != '\r' {
      assert IsKeyChar(k[i]);
    }
  }

  /** The known part of some fields. */
  function Known(m: map<string, string>, ks: seq<string>, keys: set<string>): map<string, string> {
    map k | k in ks && k in keys :: Get(m, k)
  }

  ghost predicate AreKeys(ks: seq<string>) { forall i :: 0 <= i < |ks| ==> IsKey(ks[i]) }

  ghost predicate ValuesFree(m: map<string, string>, c: char) { forall k :: k in m ==> c !in m[k] }

  lemma SplitField(k: string, v: string)
    requires '=' !in k && '=' !in v
    ensures Split(k + ['='] + v, '=') == [k, v]
  {
    SplitAfter(k, '=', v);
    SplitFree(v, '=');
  }

  lemma ParseOneMore(tokens: seq<string>, k: string, v: string, keys: set<string>, m: map<string, string>)
    requires '=' !in k && '=' !in v && ParseFields(tokens, keys) == Some(m)
    ensures ParseFields(tokens + [k + ['='] + v], keys) == Some(if k in keys then m[k := v] else m)
  {
    SplitField(k, v);
    assert (tokens + [k + ['='] + v])[..|tokens|] == tokens;
  }

  lemma PrintOneMore(pre: seq<string>, ks: seq<string>, field: string -> string)
    requires ks != []
    ensures var n := |ks| - 1; pre + Map(ks, field) == (pre + Map(ks[..n], field)) + [field(ks[n])]
  {
  }

  lemma NextField(pre: seq<string>, ks: seq<string>, m: map<string, string>, keys: set<string>)
    requires ks != [] && IsKey(ks[|ks| - 1]) && ValuesFree(m, '=')
    requires ParseFields(pre + Map(ks[..|ks| - 1], Field(m, '=')), keys) == Some(Known(m, ks[..|ks| - 1], keys))
    ensures ParseFields(pre + Map(ks, Field(m, '=')), keys) == Some(Known(m, ks, keys))
  {
    var n := |ks| - 1;
    var tokens := pre + Map(ks[..n], Field(m, '='));
    KeyIsFree(ks[n]);
    PrintOneMore(pre, ks, Field(m, '='));
    ParseOneMore(tokens, ks[n], Get(m, ks[n]), keys, Known(m, ks[..n], keys));
    KnownSnoc(m, ks, keys);
  }

  /** Parsing printed fields gives the known ones back. */
  lemma {:induction false} FieldsRoundTrip(pre: seq<string>, ks: seq<string>, m: map<string, string>, keys: set<string>)
    requires ParseFields(pre, keys) == Some(map[])
    requires AreKeys(ks) && ValuesFree(m, '=')
    ensures ParseFields(pre + Map(ks, Field(m, '=')), keys) == Some(Known(m, ks, keys))
  {
    if ks == [] {
      assert pre + Map(ks, Field(m, '=')) == pre;
    } else {
      FieldsRoundTrip(pre, ks[..|ks| - 1], m, keys);
      NextField(pre, ks, m, keys);
    }
  }

  lemma KnownSnoc(m: map<string, string>, ks: seq<string>, keys: set<string>)
    requires ks != []
    ensures var n := |ks| - 1;
            Known(m, ks, keys) == if ks[n] in keys then Known(m, ks[..n], keys)[ks[n] := Get(m, ks[n])]
                                  else Known(m, ks[..n], keys)
  {
  }

  lemma FieldsAreFree(ks: seq<string>, m: map<string, string>, sep: char, c: char)
    requires c != sep && ValuesFree(m, c) && forall i :: 0 <= i < |ks| ==> c !in ks[i]
    ensures AllFree(Map(ks, Field(m, sep)), c)
  {
  }

  // ----- Lines

  /** The relay and its bandwidth are there, and no value has a separator in it. */
  ghost predicate PlainLine(l: Line) {
    "node_id" in l && "bw" in l && forall k :: k in l ==> HasNoSeparator(Print(l[k]))
  }

  lemma PlainValues(l: Line)
    requires PlainLine(l)
    ensures ValuesFree(Printed(l), ' ') && ValuesFree(Printed(l), '=')
    ensures ValuesFree(Printed(l), '\n') && ValuesFree(Printed(l), '\r')
  {
    forall k | k in Printed(l) ensures HasNoSeparator(Printed(l)[k]) { }
  }

  lemma OnlyTextHasSeparators(v: Value)
    requires !v.TextValue?
    ensures HasNoSeparator(Print(v))
  {
    match v
    case IntValue(i) => DecimalChars(i);
    case FloatValue(x) => TwoDecimalsChars(x);
    case BoolValue(b) =>
    case NoneValue =>
    case TextValue(_) =>
  }

  /** Only texts can have a separator; numbers, floats included, never do. */
  lemma PlainLineIff(l: Line)
    ensures PlainLine(l) <==>
              "node_id" in l && "bw" in l && forall k :: k in l && l[k].TextValue? ==> HasNoSeparator(l[k].s)
  {
    forall k | k in l && !l[k].TextValue? ensures HasNoSeparator(Print(l[k])) { OnlyTextHasSeparators(l[k]); }
    if PlainLine(l) {
      forall k | k in l && l[k].TextValue? ensures HasNoSeparator(l[k].s) { assert Print(l[k]) == l[k].s; }
    }
  }

  /** The text of some integer. */
  ghost predicate IsCanonical(text: string) { exists n: int :: text == Decimal(n) }

  /** Every integer key has the text of an integer. */
  ghost predicate IntsCanonical(l: Line, f: Format) {
    forall k :: k in l && k in f.ints ==> IsCanonical(Print(l[k]))
  }

  lemma LineTokensFacts(l: Line, f: Format)
    requires f.Valid() && PlainLine(l)
    ensures var ks, tokens := SortedKeys(l.Keys * f.line), LineTokens(l, f);
            AreKeys(ks) && tokens != [] && AllFree(tokens, ' ') && AllFree(tokens, '\n') && AllFree(tokens, '\r')
  {
    var ks := SortedKeys(l.Keys * f.line);
    assert "bw" in ks;
    PlainValues(l);
    forall i | 0 <= i < |ks| ensures IsKey(ks[i]) && HasNoSeparator(ks[i]) {
      assert ks[i] in ks;
      KeyIsFree(ks[i]);
    }
    FieldsAreFree(ks, Printed(l), '=', ' ');
    FieldsAreFree(ks, Printed(l), '=', '\n');
    FieldsAreFree(ks, Printed(l), '=', '\r');
  }

  /** The fields read from a printed line are those printed. */
  lemma LineFields(l: Line, f: Format)
    requires f.Valid() && PlainLine(l)
    ensures ParseFields(Split(LineBody(f)(l), ' '), f.line)
         == Some(Known(Printed(l), SortedKeys(l.Keys * f.line), f.line))
  {
    var ks, tokens := SortedKeys(l.Keys * f.line), LineTokens(l, f);
    LineTokensFacts(l, f);
    PlainValues(l);
    SplitJoin(tokens, ' ');
    FieldsRoundTrip([], ks, Printed(l), f.line);
    assert [] + tokens == tokens;
  }

  /** What a printed line is read as, provided its integers can be read. */
  ghost function Reread(l: Line, f: Format): Line
    requires forall k :: k in l && k in f.ints && k in f.line ==> ParseInt(Print(l[k])).Some?
  {
    map k | k in l && k in f.line :: ReadValue(Print(l[k]), k in f.ints)
  }

  ghost predicate IntsParse(l: Line, f: Format) {
    forall k :: k in l && k in f.ints && k in f.line ==> ParseInt(Print(l[k])).Some?
  }

  lemma KnownFields(l: Line, f: Format)
    ensures Known(Printed(l), SortedKeys(l.Keys * f.line), f.line) == Shown(l, f)
  {
  }

  /** The text of the known attributes. */
  ghost function Shown(l: Line, f: Format): map<string, string> { map k | k in l && k in f.line :: Print(l[k]) }

  lemma ReadShown(l: Line, f: Format)
    requires f.Valid() && "node_id" in l && "bw" in l
    ensures Readable(Shown(l, f), f) <==> IntsParse(l, f)
    ensures IntsParse(l, f) ==>
              Reread(l, f) == map k | k in Shown(l, f) :: ReadValue(Shown(l, f)[k], k in f.ints)
  {
    if k :| k in l && k in f.ints && k in f.line && ParseInt(Print(l[k])).None? {
      assert k in Shown(l, f);
    }
  }

  /** A printed line can be read exactly when its integer keys hold integers. */
  lemma ParsePrintedLine(l: Line, f: Format)
    requires f.Valid() && PlainLine(l)
    ensures ParseLine(LineBody(f)(l), f) == if IntsParse(l, f) then Some(Reread(l, f)) else None
  {
    LineFields(l, f);
    KnownFields(l, f);
    ReadShown(l, f);
  }

  lemma RereadText(l: Line, f: Format, k: string)
    requires IntsParse(l, f) && k in l && k in f.line
    ensures k in Reread(l, f)
    ensures Print(Reread(l, f)[k]) == Print(l[k]) <==> (k in f.ints ==> IsCanonical(Print(l[k])))
    ensures forall c :: c in Print(Reread(l, f)[k]) ==> c in Print(l[k]) || c == '-' || IsDigit(c)
  {
    var text := Print(l[k]);
    if k in f.ints {
      var n := ParseInt(text).value;
      DecimalChars(n);
      if m: int :| text == Decimal(m) { ParseDecimal(m); }
    }
  }

  lemma RereadIsPlain(l: Line, f: Format)
    requires f.Valid() && PlainLine(l) && IntsParse(l, f)
    ensures PlainLine(Reread(l, f))
  {
    var r := Reread(l, f);
    forall k | k in r ensures HasNoSeparator(Print(r[k])) {
      RereadText(l, f, k);
      assert HasNoSeparator(Print(l[k]));
    }
  }

  lemma RereadToken(l: Line, f: Format, k: string)
    requires IntsParse(l, f) && k in l && k in f.line
    ensures Field(Printed(Reread(l, f)), '=')(k) == Field(Printed(l), '=')(k)
       <==> (k in f.ints ==> IsCanonical(Print(l[k])))
  {
    RereadText(l, f, k);
    SameField(k, Print(Reread(l, f)[k]), Print(l[k]));
  }

  ghost predicate SameTokenIffCanonical(l: Line, f: Format, again: string -> string, once: string -> string, k: string)
    requires k in l
  {
    again(k) == once(k) <==> (k in f.ints ==> IsCanonical(Print(l[k])))
  }

  lemma SameTokensIffCanonical(l: Line, f: Format, again: string -> string, once: string -> string)
    requires f.Valid() && forall k :: k in l && k in f.line ==> SameTokenIffCanonical(l, f, again, once, k)
    ensures var ks := SortedKeys(l.Keys * f.line); Map(ks, again) == Map(ks, once) <==> IntsCanonical(l, f)
  {
    var ks := SortedKeys(l.Keys * f.line);
    SameMaps(ks, again, once);
    if Map(ks, again) == Map(ks, once) {
      forall k | k in l && k in f.ints ensures IsCanonical(Print(l[k])) {
        assert k in ks && SameTokenIffCanonical(l, f, again, once, k);
      }
    }
    if IntsCanonical(l, f) {
      forall i | 0 <= i < |ks| ensures again(ks[i]) == once(ks[i]) {
        assert ks[i] in ks && SameTokenIffCanonical(l, f, again, once, ks[i]);
      }
    }
  }

  /** The tokens read and printed again are the same exactly when the integers are canonical. */
  lemma RereadTokens(l: Line, f: Format)
    requires f.Valid() && IntsParse(l, f)
    ensures LineTokens(Reread(l, f), f) == LineTokens(l, f) <==> IntsCanonical(l, f)
  {
    var again, once := Field(Printed(Reread(l, f)), '='), Field(Printed(l), '=');
    assert Reread(l, f).Keys * f.line == l.Keys * f.line;
    forall k | k in l && k in f.line ensures SameTokenIffCanonical(l, f, again, once, k) { RereadToken(l, f, k); }
    SameTokensIffCanonical(l, f, again, once);
  }

  lemma SameMaps(ks: seq<string>, a: string -> string, b: string -> string)
    ensures Map(ks, a) == Map(ks, b) <==> forall i :: 0 <= i < |ks| ==> a(ks[i]) == b(ks[i])
  {
    if Map(ks, a) == Map(ks, b) {
      forall i | 0 <= i < |ks| ensures a(ks[i]) == b(ks[i]) { assert Map(ks, a)[i] == Map(ks, b)[i]; }
    }
  }

  lemma SameField(k: string, v: string, w: string)
    ensures k + ['='] + v == k + ['='] + w <==> v == w
  {
    assert (k + ['='] + v)[|k| + 1..] == v;
    assert (k + ['='] + w)[|k| + 1..] == w;
  }

  lemma CanonicalIntsParse(l: Line, f: Format)
    requires IntsCanonical(l, f)
    ensures IntsParse(l, f)
  {
    forall k | k in l && k in f.ints && k in f.line ensures ParseInt(Print(l[k])).Some? {
      var n: int :| Print(l[k]) == Decimal(n);
      ParseDecimal(n);
    }
  }

  /** A line survives being printed, parsed and printed exactly when each integer key holds
      the text of an integer. */
  lemma LineSurvivesIff(l: Line, f: Format)
    requires f.Valid() && PlainLine(l)
    ensures var p := ParseLine(LineBody(f)(l), f);
            (p.Some? && LineBody(f)(p.value) == LineBody(f)(l)) <==> IntsCanonical(l, f)
  {
    ParsePrintedLine(l, f);
    if IntsCanonical(l, f) { CanonicalIntsParse(l, f); }
    if IntsParse(l, f) {
      RereadTokens(l, f);
      RereadIsPlain(l, f);
      LineTokensFacts(l, f);
      LineTokensFacts(Reread(l, f), f);
      if LineBody(f)(Reread(l, f)) == LineBody(f)(l) {
        JoinIsInjective(LineTokens(Reread(l, f), f), LineTokens(l, f), ' ');
      }
    }
  }
}
