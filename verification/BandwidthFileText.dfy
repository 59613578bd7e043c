/** Bandwidth files as text: how headers and lines are printed, and how they are parsed. */
module BandwidthFileText {
  import opened FileKeys
  import opened Sequences
  import opened Text
  import opened Wrappers

  const TERMINATOR := "====="
  const SPEC_VERSION := "1.9.0"

  function Get(m: map<string, string>, k: string): string { if k in m then m[k] else "" }

  /** A key, a separator and a value. */
  function Field(m: map<string, string>, sep: char): string -> string { (k: string) => k + [sep] + Get(m, k) }

  /** The fields of a dictionary, each `key=value`, whose key is known. A field with a
      known key and not exactly one `=` is a ValueError, here None. */
  function ParseFields(tokens: seq<string>, keys: set<string>): Option<map<string, string>> {
    if tokens == [] then Some(map[])
    else
      var before := ParseFields(tokens[..|tokens| - 1], keys);
      var parts := Split(tokens[|tokens| - 1], '=');
      if before.None? || parts[0] !in keys then before
      else if |parts| != 2 then None
      else Some(before.value[parts[0] := parts[1]])
  }

  // ----- The header

  /** A header's timestamp and its other attributes, all of them strings. */
  datatype Header = Header(timestamp: string, attrs: map<string, string>)

  /** What a header is initialized from besides its arguments; `iso` prints a timestamp,
      and raises an exception for a string that is not a number. */
  datatype Env = Env(iso: string -> Option<string>, softwareVersion: string, now: string)

  function GetOr(m: map<string, string>, k: string, default: string): string { if k in m then m[k] else default }

  /** The attributes a header sets itself, unless its arguments have them. */
  function SelfInitialized(kwargs: map<string, string>, latest: string, env: Env): map<string, string> {
    map["version" := GetOr(kwargs, "version", SPEC_VERSION),
        "software" := GetOr(kwargs, "software", "sbws"),
        "software_version" := GetOr(kwargs, "software_version", env.softwareVersion),
        "file_created" := GetOr(kwargs, "file_created", env.now),
        "latest_bandwidth" := latest]
  }

  function InitHeader(timestamp: string, kwargs: map<string, string>, f: Format, env: Env): Option<Header> {
    var latest := env.iso(timestamp);
    if latest.None? then None
    else
      Some(Header(timestamp,
                  SelfInitialized(kwargs, latest.value, env) + map k | k in kwargs && k in f.init :: kwargs[k]))
  }

  /** What every header keeps from its initialization on. */
  ghost predicate Initialized(h: Header, env: Env) {
    && {"version"} + SELF_INITIALIZED <= h.attrs.Keys
    && env.iso(h.timestamp) == Some(Get(h.attrs, "latest_bandwidth"))
  }

  ghost function UnorderedKeys(h: Header, f: Format): seq<string> { SortedKeys(h.attrs.Keys * f.Unordered()) }

  /** The header's lines, before the terminator. */
  ghost function HeaderTokens(h: Header, f: Format, sep: char): (r: seq<string>)
    ensures r != []
  {
    [h.timestamp] + Map(["version"] + UnorderedKeys(h, f), Field(h.attrs, sep))
  }

  function SeparatorOf(version: string): char { if "1." <= version then '=' else ' ' }

  function LineText(body: string): string { body + "\n" }

  ghost function HeaderText(h: Header, f: Format): string {
    Join(HeaderTokens(h, f, SeparatorOf(Get(h.attrs, "version"))), '\n') + "\n" + LineText(TERMINATOR)
  }

  function IndexOf(lines: seq<string>, x: string): (i: Option<nat>)
    ensures i.None? <==> x !in lines
    ensures i.Some? ==> i.value < |lines| && lines[i.value] == x && x !in lines[..i.value]
  {
    if lines == [] then None
    else if lines[0] == x then Some(0)
    else
      var rest := IndexOf(lines[1..], x);
      if rest.None? then None else Some(rest.value + 1)
  }

  /** `lines[end + 1 : -1]` */
  function LinesAfter(lines: seq<string>, end: nat): seq<string> {
    if end + 1 < |lines| then lines[end + 1..|lines| - 1] else []
  }

  /** The header, and the lines after it but the last, which is the empty one after the
      last newline. None without a terminator. */
  function ParseHeader(lines: seq<string>, f: Format, env: Env): Option<(Header, seq<string>)>
  {
    var end := IndexOf(lines, TERMINATOR);
    if end.None? then None
    else
      var kwargs := ParseFields(lines[..end.value], f.Header());
      if kwargs.None? then None
      else
        var h := InitHeader(lines[0], kwargs.value, f, env);
        if h.None? then None
        else
          Some((h.value, LinesAfter(lines, end.value)))
  }

  // ----- Lines

  datatype Value = IntValue(i: int) | TextValue(s: string) | FloatValue(x: real) | BoolValue(b: bool) | NoneValue

  function Print(v: Value): string {
    match v
    case IntValue(i) => Decimal(i)
    case TextValue(s) => s
    case FloatValue(x) => TwoDecimals(x)
    case BoolValue(b) => if b then "True" else "False"
    case NoneValue => "None"
  }

  /** The attributes of a line. */
  type Line = map<string, Value>

  function Printed(l: Line): (m: map<string, string>)
    ensures m.Keys == l.Keys
  {
    map k | k in l :: Print(l[k])
  }

  ghost function LineTokens(l: Line, f: Format): seq<string> {
    Map(SortedKeys(l.Keys * f.line), Field(Printed(l), '='))
  }

  ghost function LineBody(f: Format): Line -> string { (l: Line) => Join(LineTokens(l, f), ' ') }

  predicate Readable(fields: map<string, string>, f: Format) {
    && (forall k :: k in fields && k in f.ints ==> ParseInt(fields[k]).Some?)
    && "node_id" in fields && "bw" in fields
  }

  function ReadValue(text: string, isInt: bool): Value
    requires isInt ==> ParseInt(text).Some?
  {
    if isInt then IntValue(ParseInt(text).value) else TextValue(text)
  }

  /** None when a field cannot be read or the relay or its bandwidth is missing. */
  function ParseLine(body: string, f: Format): Option<Line> {
    var fields := ParseFields(Split(body, ' '), f.line);
    if fields.None? || !Readable(fields.value, f) then None
    else Some(map k | k in fields.value :: ReadValue(fields.value[k], k in f.ints))
  }

  // ----- Files

  datatype File = File(header: Header, lines: seq<Line>)

  function Concat(texts: seq<string>): string {
    if texts == [] then "" else texts[0] + Concat(texts[1..])
  }

  ghost function FileText(file: File, f: Format): string {
    HeaderText(file.header, f) + Concat(Map(Map(file.lines, LineBody(f)), LineText))
  }

  function ParseLines(bodies: seq<string>, f: Format): Option<seq<Line>> {
    if bodies == [] then Some([])
    else
      var first, rest := ParseLine(bodies[0], f), ParseLines(bodies[1..], f);
      if first.None? || rest.None? then None else Some([first.value] + rest.value)
  }

  function ParseFile(text: string, f: Format, env: Env): Option<File> {
    var header := ParseHeader(Split(UniversalNewlines(text), '\n'), f, env);
    if header.None? then None
    else
      var lines := ParseLines(header.value.1, f);
      if lines.None? then None else Some(File(header.value.0, lines.value))
  }
}
