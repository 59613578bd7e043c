/** Printing a bandwidth file, parsing it and printing it again. */
module FileRoundTrip {
  import opened BandwidthFileText
  import opened FileKeys
  import opened HeaderRoundTrip
  import opened LineRoundTrip
  import opened Sequences
  import opened Text
  import opened Wrappers

  // ----- A file is its lines

  ghost function Bodies(lines: seq<Line>, f: Format): seq<string> { Map(lines, LineBody(f)) }

  /** The lines of a text: the header's, the terminator, the relays', and an empty one. */
  function AllLines(header: seq<string>, bodies: seq<string>): seq<string> {
    header + ([TERMINATOR] + (bodies + [""]))
  }

  lemma {:induction false} ConcatIsJoin(bodies: seq<string>)
    ensures Concat(Map(bodies, LineText)) == Join(bodies + [""], '\n')
  {
    if bodies != [] {
      ConcatIsJoin(bodies[1..]);
      assert Map(bodies, LineText)[1..] == Map(bodies[1..], LineText);
      assert (bodies + [""])[1..] == bodies[1..] + [""];
    }
  }

  lemma FileIsJoin(file: File, f: Format)
    ensures FileText(file, f) == Join(AllLines(PrintedHeader(file.header, f), Bodies(file.lines, f)), '\n')
  {
    var header, bodies := PrintedHeader(file.header, f), Bodies(file.lines, f);
    ConcatIsJoin(bodies);
    JoinConcat([TERMINATOR], bodies + [""], '\n');
    JoinConcat(header, [TERMINATOR] + (bodies + [""]), '\n');
    TextsAgree(Join(header, '\n'), Join(bodies + [""], '\n'));
  }

  lemma TextsAgree(a: string, b: string)
    ensures a + "\n" + LineText(TERMINATOR) + b == a + ['\n'] + (TERMINATOR + ['\n'] + b)
  {
  }

  ghost predicate PlainFile(file: File, f: Format, env: Env) {
    && Initialized(file.header, env) && PlainHeader(file.header, f) && PlainEnv(env)
    && forall i :: 0 <= i < |file.lines| ==> PlainLine(file.lines[i])
  }

  lemma {:induction false} JoinIsFree(parts: seq<string>, sep: char, c: char)
    requires c != sep && AllFree(parts, c)
    ensures c !in Join(parts, sep)
  {
    if |parts| > 1 { JoinIsFree(parts[1..], sep, c); }
  }

  lemma BodiesAreFree(lines: seq<Line>, f: Format, c: char)
    requires f.Valid() && IsLineEnd(c) && forall i :: 0 <= i < |lines| ==> PlainLine(lines[i])
    ensures AllFree(Bodies(lines, f), c)
  {
    forall i | 0 <= i < |lines| ensures c !in LineBody(f)(lines[i]) {
      LineTokensFacts(lines[i], f);
      JoinIsFree(LineTokens(lines[i], f), ' ', c);
    }
  }

  lemma AllLinesAreFree(header: seq<string>, bodies: seq<string>, c: char)
    requires AllFree(header, c) && AllFree(bodies, c) && IsLineEnd(c)
    ensures AllFree(AllLines(header, bodies), c)
  {
  }

  lemma PrintedLinesAreFree(file: File, f: Format, env: Env, c: char)
    requires f.Valid() && PlainFile(file, f, env) && IsLineEnd(c)
    ensures AllFree(AllLines(PrintedHeader(file.header, f), Bodies(file.lines, f)), c)
  {
    HeaderTokensAreFree(file.header, f, env, SeparatorOf(VersionOf(file.header)), c);
    BodiesAreFree(file.lines, f, c);
    AllLinesAreFree(PrintedHeader(file.header, f), Bodies(file.lines, f), c);
  }

  lemma PrintedHeaderFacts(h: Header, f: Format, env: Env)
    requires f.Valid() && Initialized(h, env) && PlainHeader(h, f)
    ensures TERMINATOR !in PrintedHeader(h, f)
  {
    NoTokenIsTerminator(h, f, env, SeparatorOf(VersionOf(h)));
  }

  /** The lines read back from a printed file, whatever line ends reading translates. */
  lemma FileSplits(file: File, f: Format, env: Env)
    requires f.Valid() && PlainFile(file, f, env)
    ensures Split(UniversalNewlines(FileText(file, f)), '\n')
         == AllLines(PrintedHeader(file.header, f), Bodies(file.lines, f))
  {
    var all := AllLines(PrintedHeader(file.header, f), Bodies(file.lines, f));
    FileIsJoin(file, f);
    PrintedLinesAreFree(file, f, env, '\n');
    PrintedLinesAreFree(file, f, env, '\r');
    JoinIsFree(all, '\n', '\r');
    NoCarriageReturns(FileText(file, f));
    SplitJoin(all, '\n');
  }

  lemma {:induction false} FirstIndex(lines: seq<string>, x: string, i: nat)
    requires i < |lines| && lines[i] == x && x !in lines[..i]
    ensures IndexOf(lines, x) == Some(i)
  {
    if i > 0 {
      assert lines[0] == lines[..i][0];
      assert lines[1..][..i - 1] == lines[..i][1..];
      FirstIndex(lines[1..], x, i - 1);
    }
  }

  lemma TerminatorIsFound(header: seq<string>, rest: seq<string>)
    requires TERMINATOR !in header
    ensures IndexOf(header + ([TERMINATOR] + rest), TERMINATOR) == Some(|header|)
  {
    var all := header + ([TERMINATOR] + rest);
    assert all[..|header|] == header;
    FirstIndex(all, TERMINATOR, |header|);
  }

  lemma BodiesFollow(header: seq<string>, bodies: seq<string>)
    ensures AllLines(header, bodies)[..|header|] == header && LinesAfter(AllLines(header, bodies), |header|) == bodies
  {
  }

  lemma HeaderEnds(header: seq<string>, bodies: seq<string>)
    requires TERMINATOR !in header
    ensures var all := AllLines(header, bodies);
            && IndexOf(all, TERMINATOR) == Some(|header|)
            && all[..|header|] == header && LinesAfter(all, |header|) == bodies
  {
    TerminatorIsFound(header, bodies + [""]);
    BodiesFollow(header, bodies);
  }

  lemma HeaderIsParsed(tokens: seq<string>, bodies: seq<string>, h: Header, f: Format, env: Env)
    requires tokens != [] && TERMINATOR !in tokens && tokens[0] == h.timestamp && ReadAs(tokens, h, f, env)
    ensures ParseHeader(AllLines(tokens, bodies), f, env) == Some((h, bodies))
  {
    HeaderEnds(tokens, bodies);
    assert AllLines(tokens, bodies)[0] == tokens[0];
  }

  /** Reading all the lines of a printed file finds its header and its bodies. */
  lemma HeaderIsFound(file: File, f: Format, env: Env)
    requires f.Valid() && PlainFile(file, f, env)
    ensures ParseHeader(Split(UniversalNewlines(FileText(file, f)), '\n'), f, env)
         == Some((RereadHeader(file.header, f, env), Bodies(file.lines, f)))
  {
    FileSplits(file, f, env);
    PrintedHeaderFacts(file.header, f, env);
    HeaderIsReread(file.header, f, env);
    HeaderIsParsed(PrintedHeader(file.header, f), Bodies(file.lines, f), RereadHeader(file.header, f, env), f, env);
  }

  // ----- Relays' lines

  ghost predicate AllParse(lines: seq<Line>, f: Format) {
    forall i :: 0 <= i < |lines| ==> IntsParse(lines[i], f)
  }

  ghost predicate AllCanonical(lines: seq<Line>, f: Format) {
    forall i :: 0 <= i < |lines| ==> IntsCanonical(lines[i], f)
  }

  ghost predicate RereadLines(again: seq<Line>, lines: seq<Line>, f: Format)
    requires AllParse(lines, f)
  {
    |again| == |lines| && forall i :: 0 <= i < |lines| ==> again[i] == Reread(lines[i], f)
  }

  lemma AllParseCons(lines: seq<Line>, f: Format)
    requires lines != []
    ensures AllParse(lines, f) <==> IntsParse(lines[0], f) && AllParse(lines[1..], f)
  {
    if IntsParse(lines[0], f) && AllParse(lines[1..], f) {
      forall i | 0 <= i < |lines| ensures IntsParse(lines[i], f) {
        if i > 0 { assert lines[i] == lines[1..][i - 1]; }
      }
    }
  }

  lemma RereadLinesCons(again: seq<Line>, lines: seq<Line>, f: Format)
    requires lines != [] && AllParse(lines, f) && AllParse(lines[1..], f) && RereadLines(again, lines[1..], f)
    ensures RereadLines([Reread(lines[0], f)] + again, lines, f)
  {
  }

  lemma BodiesCons(lines: seq<Line>, f: Format)
    requires lines != []
    ensures var bodies := Bodies(lines, f); bodies[0] == LineBody(f)(lines[0]) && bodies[1..] == Bodies(lines[1..], f)
  {
  }

  lemma ParseOneLine(bodies: seq<string>, f: Format, first: Option<Line>, rest: Option<seq<Line>>)
    requires bodies != [] && ParseLine(bodies[0], f) == first && ParseLines(bodies[1..], f) == rest
    ensures ParseLines(bodies, f) == if first.None? || rest.None? then None else Some([first.value] + rest.value)
  {
  }

  ghost predicate LinesReadAs(r: Option<seq<Line>>, lines: seq<Line>, f: Format) {
    if AllParse(lines, f) then r.Some? && RereadLines(r.value, lines, f) else r.None?
  }

  lemma OneMoreLine(lines: seq<Line>, f: Format, first: Option<Line>, rest: Option<seq<Line>>)
    requires lines != [] && LinesReadAs(rest, lines[1..], f)
    requires first == if IntsParse(lines[0], f) then Some(Reread(lines[0], f)) else None
    ensures LinesReadAs(if first.None? || rest.None? then None else Some([first.value] + rest.value), lines, f)
  {
    AllParseCons(lines, f);
    if AllParse(lines, f) { RereadLinesCons(rest.value, lines, f); }
  }

  /** The lines can all be read, or the file cannot. */
  lemma {:induction false} LinesAreReread(lines: seq<Line>, f: Format)
    requires f.Valid() && forall i :: 0 <= i < |lines| ==> PlainLine(lines[i])
    ensures LinesReadAs(ParseLines(Bodies(lines, f), f), lines, f)
  {
    if lines == [] {
    } else {
      LinesAreReread(lines[1..], f);
      NextLineIsReread(lines, f);
    }
  }

  lemma NextLineIsReread(lines: seq<Line>, f: Format)
    requires f.Valid() && lines != [] && PlainLine(lines[0])
    requires LinesReadAs(ParseLines(Bodies(lines[1..], f), f), lines[1..], f)
    ensures LinesReadAs(ParseLines(Bodies(lines, f), f), lines, f)
  {
    BodiesCons(lines, f);
    ParsePrintedLine(lines[0], f);
    var first, rest := ParseLine(LineBody(f)(lines[0]), f), ParseLines(Bodies(lines[1..], f), f);
    ParseOneLine(Bodies(lines, f), f, first, rest);
    OneMoreLine(lines, f, first, rest);
  }

  lemma ParsedFile(text: string, f: Format, env: Env, h: Header, bodies: seq<string>)
    requires ParseHeader(Split(UniversalNewlines(text), '\n'), f, env) == Some((h, bodies))
    ensures ParseFile(text, f, env) == if ParseLines(bodies, f).None? then None
                                       else Some(File(h, ParseLines(bodies, f).value))
  {
  }

  /** A printed file can be read exactly when every integer key holds an integer. */
  lemma FileIsReread(file: File, f: Format, env: Env)
    requires f.Valid() && PlainFile(file, f, env)
    ensures ParseFile(FileText(file, f), f, env).Some? <==> AllParse(file.lines, f)
    ensures AllParse(file.lines, f) ==>
              var again := ParseFile(FileText(file, f), f, env).value;
              again.header == RereadHeader(file.header, f, env) && RereadLines(again.lines, file.lines, f)
  {
    HeaderIsFound(file, f, env);
    ParsedFile(FileText(file, f), f, env, RereadHeader(file.header, f, env), Bodies(file.lines, f));
    LinesAreReread(file.lines, f);
  }

  /** An integer key that holds None, as the descriptor's average does when it is not
      known, makes the whole file unreadable. */
  lemma UnknownIntegerCannotBeRead(file: File, f: Format, env: Env, i: nat, k: string)
    requires f.Valid() && PlainFile(file, f, env) && i < |file.lines|
    requires k in file.lines[i] && k in f.ints && file.lines[i][k] == NoneValue
    ensures ParseFile(FileText(file, f), f, env) == None
  {
    FileIsReread(file, f, env);
    NoneDoesNotParse(file.lines[i], f, k);
  }

  lemma NoneDoesNotParse(l: Line, f: Format, k: string)
    requires f.Valid() && k in l && k in f.ints && l[k] == NoneValue
    ensures !IntsParse(l, f)
  {
    NoneIsNoInteger();
    assert Print(l[k]) == "None";
  }

  lemma NoneIsNoInteger()
    ensures ParseInt("None") == None
  {
    var s := "None";
    assert !IsSpace(s[0]) && !IsSpace(s[3]) && !IsDigit(s[3]);
    assert Strip(s) == s;
  }

  // ----- The round trip

  lemma SameLinesIff(header: seq<string>, bodies: seq<string>, header': seq<string>, bodies': seq<string>)
    requires header != [] && header' != [] && TERMINATOR !in header && TERMINATOR !in header'
    ensures AllLines(header, bodies) == AllLines(header', bodies') <==> header == header' && bodies == bodies'
  {
    HeaderEnds(header, bodies);
    HeaderEnds(header', bodies');
  }

  /** Plain files have the same text exactly when they print the same lines. */
  lemma SameTextIff(a: File, b: File, f: Format, env: Env)
    requires f.Valid() && PlainFile(a, f, env) && PlainFile(b, f, env)
    ensures FileText(a, f) == FileText(b, f)
       <==> PrintedHeader(a.header, f) == PrintedHeader(b.header, f) && Bodies(a.lines, f) == Bodies(b.lines, f)
  {
    FileSplits(a, f, env);
    FileSplits(b, f, env);
    FileIsJoin(a, f);
    FileIsJoin(b, f);
    PrintedHeaderFacts(a.header, f, env);
    PrintedHeaderFacts(b.header, f, env);
    SameLinesIff(PrintedHeader(a.header, f), Bodies(a.lines, f), PrintedHeader(b.header, f), Bodies(b.lines, f));
  }

  lemma BodiesSurviveIff(lines: seq<Line>, again: seq<Line>, f: Format)
    requires f.Valid() && AllParse(lines, f) && forall i :: 0 <= i < |lines| ==> PlainLine(lines[i])
    requires RereadLines(again, lines, f)
    ensures Bodies(again, f) == Bodies(lines, f) <==> AllCanonical(lines, f)
    ensures forall i :: 0 <= i < |again| ==> PlainLine(again[i])
  {
    var a, b := Bodies(again, f), Bodies(lines, f);
    forall i | 0 <= i < |lines| ensures (a[i] == b[i] <==> IntsCanonical(lines[i], f)) && PlainLine(again[i]) {
      ParsePrintedLine(lines[i], f);
      LineSurvivesIff(lines[i], f);
      RereadIsPlain(lines[i], f);
    }
    if a == b {
      forall i | 0 <= i < |lines| ensures IntsCanonical(lines[i], f) { assert a[i] == b[i]; }
    }
  }

  /** The file can be read back, and prints as the same text again. */
  ghost predicate RoundTrips(file: File, f: Format, env: Env) {
    var r := ParseFile(FileText(file, f), f, env);
    r.Some? && FileText(r.value, f) == FileText(file, f)
  }

  lemma CanonicalParse(lines: seq<Line>, f: Format)
    requires AllCanonical(lines, f)
    ensures AllParse(lines, f)
  {
    forall i | 0 <= i < |lines| ensures IntsParse(lines[i], f) { CanonicalIntsParse(lines[i], f); }
  }

  /** Printing, parsing and printing a file again gives the same text exactly when its
      version starts with one, it has no network averages, and every integer key of its
      lines holds the text of an integer. */
  lemma RoundTripsIff(file: File, f: Format, env: Env)
    requires f.Valid() && PlainFile(file, f, env)
    ensures RoundTrips(file, f, env) <==>
              && "1." <= VersionOf(file.header) && file.header.attrs.Keys !! f.averages
              && AllCanonical(file.lines, f)
  {
    FileIsReread(file, f, env);
    if AllCanonical(file.lines, f) { CanonicalParse(file.lines, f); }
    if AllParse(file.lines, f) {
      var again := ParseFile(FileText(file, f), f, env).value;
      BodiesSurviveIff(file.lines, again.lines, f);
      RereadHeaderIsPlain(file.header, f, env);
      HeaderSurvivesIff(file.header, f, env);
      SameTextIff(again, file, f, env);
    }
  }

  lemma RoundTripsIffNoAverages(file: File, f: Format, env: Env)
    requires f.Valid() && f.averages == {"mu", "muf"} && PlainFile(file, f, env)
    ensures RoundTrips(file, f, env) <==>
              && "1." <= VersionOf(file.header)
              && "mu" !in file.header.attrs && "muf" !in file.header.attrs
              && AllCanonical(file.lines, f)
  {
    RoundTripsIff(file, f, env);
    WithoutBoth(file.header.attrs.Keys);
  }

  lemma WithoutBoth(keys: set<string>)
    ensures keys !! {"mu", "muf"} <==> "mu" !in keys && "muf" !in keys
  {
  }

  /** The same for the keys the program knows. */
  lemma V1RoundTripsIff(file: File, env: Env)
    requires PlainFile(file, V1, env)
    ensures RoundTrips(file, V1, env) <==>
              && "1." <= VersionOf(file.header)
              && "mu" !in file.header.attrs && "muf" !in file.header.attrs
              && AllCanonical(file.lines, V1)
  {
    V1IsValid();
    RoundTripsIffNoAverages(file, V1, env);
  }
}
