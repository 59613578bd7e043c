/** Strings: splitting and joining, decimal numbers, and keys in alphabetical order. */
module Text {
  import opened Rounding
  import opened Sequences
  import opened Wrappers

  // ----- `str.split` and `str.join`

  function Split(s: string, sep: char): (parts: seq<string>)
    ensures parts != []
    decreases |s|
  {
    if s == [] then [""]
    else
      var rest := Split(s[1..], sep);
      if s[0] == sep then [""] + rest else [[s[0]] + rest[0]] + rest[1..]
  }

  function Join(parts: seq<string>, sep: char): string {
    if parts == [] then "" else if |parts| == 1 then parts[0] else parts[0] + [sep] + Join(parts[1..], sep)
  }

  /** No part has the separator in it. */
  predicate AllFree(parts: seq<string>, sep: char) { forall i :: 0 <= i < |parts| ==> sep !in parts[i] }

  lemma {:induction false} SplitFree(s: string, sep: char)
    requires sep !in s
    ensures Split(s, sep) == [s]
  {
    if s != [] {
      SplitFree(s[1..], sep);
      assert [s[0]] + s[1..] == s && s[0] in s;
    }
  }

  lemma {:induction false} SplitAfter(a: string, sep: char, b: string)
    requires sep !in a
    ensures Split(a + [sep] + b, sep) == [a] + Split(b, sep)
  {
    var s := a + [sep] + b;
    if a == [] {
      assert s[1..] == b;
    } else {
      assert s[1..] == a[1..] + [sep] + b;
      SplitAfter(a[1..], sep, b);
      assert [a[0]] + a[1..] == a && a[0] in a;
    }
  }

  /** Splitting undoes joining when no part has the separator. */
  lemma {:induction false} SplitJoin(parts: seq<string>, sep: char)
    requires parts != [] && AllFree(parts, sep)
    ensures Split(Join(parts, sep), sep) == parts
  {
    if |parts| == 1 {
      SplitFree(parts[0], sep);
    } else {
      SplitJoin(parts[1..], sep);
      SplitAfter(parts[0], sep, Join(parts[1..], sep));
    }
  }

  /** Joining undoes splitting, always. */
  lemma {:induction false} JoinSplit(s: string, sep: char)
    ensures Join(Split(s, sep), sep) == s && AllFree(Split(s, sep), sep)
  {
    if s != [] {
      var parts, rest := Split(s, sep), Split(s[1..], sep);
      JoinSplit(s[1..], sep);
      assert s == [s[0]] + s[1..];
      if s[0] == sep {
        assert parts[1..] == rest;
      } else if |rest| > 1 {
        assert parts[1..] == rest[1..];
      }
    }
  }

  lemma JoinIsInjective(a: seq<string>, b: seq<string>, sep: char)
    requires a != [] && b != [] && AllFree(a, sep) && AllFree(b, sep) && Join(a, sep) == Join(b, sep)
    ensures a == b
  {
    SplitJoin(a, sep);
    SplitJoin(b, sep);
  }

  lemma {:induction false} JoinConcat(a: seq<string>, b: seq<string>, sep: char)
    requires a != [] && b != []
    ensures Join(a + b, sep) == Join(a, sep) + [sep] + Join(b, sep)
  {
    if |a| == 1 {
      assert (a + b)[1..] == b;
    } else {
      JoinConcat(a[1..], b, sep);
      assert (a + b)[1..] == a[1..] + b;
    }
  }

  /** What reading a file as text makes of its line ends. */
  function UniversalNewlines(s: string): string {
    if s == "" then ""
    else if s[0] != '\r' then [s[0]] + UniversalNewlines(s[1..])
    else "\n" + UniversalNewlines(if |s| > 1 && s[1] == '\n' then s[2..] else s[1..])
  }

  /** A carriage return with or without a newline after it becomes a newline. */
  lemma {:induction false} CarriageReturnIsNewline(s: string)
    ensures UniversalNewlines("\r\n" + s) == "\n" + UniversalNewlines(s)
    ensures (s == "" || s[0] != '\n') ==> UniversalNewlines("\r" + s) == "\n" + UniversalNewlines(s)
  {
    assert ("\r\n" + s)[2..] == s && ("\r" + s)[1..] == s;
  }

  lemma {:induction false} NoCarriageReturns(s: string)
    requires '\r' !in s
    ensures UniversalNewlines(s) == s
  {
    if s != "" {
      NoCarriageReturns(s[1..]);
      assert [s[0]] + s[1..] == s && s[0] in s;
    }
  }

  // ----- Decimal numbers

  function Digit(d: nat): char
    requires d < 10
  {
    '0' + d as char
  }

  predicate IsDigit(c: char) { '0' <= c <= '9' }

  function DigitValue(c: char): nat
    requires IsDigit(c)
  {
    (c - '0') as nat
  }

  function DecimalNat(n: nat): (s: string)
    ensures s != [] && forall i :: 0 <= i < |s| ==> IsDigit(s[i])
  {
    if n < 10 then [Digit(n)] else DecimalNat(n / 10) + [Digit(n % 10)]
  }

  /** `str` of an integer. */
  function Decimal(n: int): string { if n < 0 then "-" + DecimalNat(-n) else DecimalNat(n) }

  /** Digits, with single underscores between them. */
  function ParseDigits(s: string): Option<nat> {
    var n := |s|;
    if n == 0 || !IsDigit(s[n - 1]) then None
    else if n == 1 then Some(DigitValue(s[0]))
    else
      var before := ParseDigits(if s[n - 2] == '_' then s[..n - 2] else s[..n - 1]);
      if before.None? then None else Some(10 * before.value + DigitValue(s[n - 1]))
  }

  /** At this place there is a digit, or a single underscore between two. */
  predicate FitsAt(s: string, i: nat)
    requires i < |s|
  {
    IsDigit(s[i]) || (s[i] == '_' && 0 < i < |s| - 1 && IsDigit(s[i - 1]) && IsDigit(s[i + 1]))
  }

  /** Digits from the first to the last character, with single underscores between some. */
  predicate Grouped(s: string) { s != [] && forall i :: 0 <= i < |s| ==> FitsAt(s, i) }

  lemma {:induction false} GroupedSnoc(s: string, c: char)
    requires s != [] && IsDigit(c)
    ensures Grouped(s + [c]) <==> Grouped(if s[|s| - 1] == '_' then s[..|s| - 1] else s)
  {
    var t, n := s + [c], |s|;
    var before := if s[n - 1] == '_' then s[..n - 1] else s;
    if Grouped(t) {
      assert FitsAt(t, n - 1);
      forall i | 0 <= i < |before| ensures FitsAt(before, i) { assert FitsAt(t, i); }
    }
    if Grouped(before) {
      assert FitsAt(before, |before| - 1);
      forall i | 0 <= i < |t| ensures FitsAt(t, i) { if i < |before| { assert FitsAt(before, i); } }
    }
  }

  lemma {:induction false} ParsesIffGrouped(s: string)
    ensures ParseDigits(s).Some? <==> Grouped(s)
  {
    var n := |s|;
    if n > 0 { assert FitsAt(s, n - 1) <==> IsDigit(s[n - 1]); }
    if n > 1 && IsDigit(s[n - 1]) {
      assert s == s[..n - 1] + [s[n - 1]];
      GroupedSnoc(s[..n - 1], s[n - 1]);
      assert s[..n - 1][..n - 2] == s[..n - 2];
      ParsesIffGrouped(if s[n - 2] == '_' then s[..n - 2] else s[..n - 1]);
    }
  }

  /** What the digits amount to, one after the other. */
  function NumberOf(s: string): nat {
    if s == [] then 0
    else if IsDigit(s[|s| - 1]) then 10 * NumberOf(s[..|s| - 1]) + DigitValue(s[|s| - 1])
    else NumberOf(s[..|s| - 1])
  }

  lemma {:induction false} ParsedIsNumber(s: string)
    ensures ParseDigits(s).Some? ==> ParseDigits(s).value == NumberOf(s)
  {
    var n := |s|;
    if n > 1 && IsDigit(s[n - 1]) {
      if s[n - 2] == '_' {
        ParsedIsNumber(s[..n - 2]);
        assert s[..n - 1][..n - 2] == s[..n - 2];
      } else {
        ParsedIsNumber(s[..n - 1]);
      }
    }
  }

  predicate IsSpace(c: char) { c == ' ' || '\t' <= c <= '\r' }

  function Strip(s: string): string {
    if s == [] then s
    else if IsSpace(s[0]) then Strip(s[1..])
    else if IsSpace(s[|s| - 1]) then Strip(s[..|s| - 1])
    else s
  }

  function Negated(n: Option<int>): Option<int> { if n.None? then None else Some(-n.value) }

  /** `int` of a string of ASCII characters; None is its ValueError. */
  function ParseInt(s: string): Option<int> {
    var t := Strip(s);
    if t == [] then None
    else if t[0] == '-' then Negated(ParseDigits(t[1..]))
    else if t[0] == '+' then ParseDigits(t[1..])
    else ParseDigits(t)
  }

  /** A sign in front of the digits counts. */
  lemma {:induction false} ParseSigned(t: string)
    requires Grouped(t)
    ensures ParseInt(t) == ParseInt("+" + t) == Some(NumberOf(t)) && ParseInt("-" + t) == Some(-(NumberOf(t) as int))
  {
    ParsesIffGrouped(t);
    ParsedIsNumber(t);
    assert FitsAt(t, 0) && FitsAt(t, |t| - 1);
    assert Strip(t) == t && Strip("+" + t) == "+" + t && Strip("-" + t) == "-" + t;
    assert ("+" + t)[1..] == t && ("-" + t)[1..] == t;
  }

  /** White space around a number does not. */
  lemma {:induction false} ParseIgnoresSpace(c: char, t: string)
    requires IsSpace(c)
    ensures ParseInt([c] + t) == ParseInt(t) && ParseInt(t + [c]) == ParseInt(t)
  {
    assert ([c] + t)[1..] == t;
    StripLast(t, c);
  }

  lemma {:induction false} StripLast(t: string, c: char)
    requires IsSpace(c)
    ensures Strip(t + [c]) == Strip(t)
  {
    if t == [] {
      assert (t + [c])[1..] == [];
    } else if IsSpace(t[0]) {
      assert (t + [c])[1..] == t[1..] + [c];
      StripLast(t[1..], c);
    } else {
      assert (t + [c])[..|t|] == t;
    }
  }

  lemma {:induction false} ParseDecimalNat(n: nat)
    ensures ParseDigits(DecimalNat(n)) == Some(n)
  {
    if n >= 10 {
      ParseDecimalNat(n / 10);
      var s := DecimalNat(n);
      assert s[..|s| - 1] == DecimalNat(n / 10);
      assert IsDigit(s[|s| - 2]);
    }
  }

  /** Parsing undoes printing. */
  lemma ParseDecimal(n: int)
    ensures ParseInt(Decimal(n)) == Some(n)
  {
    ParseDecimalNat(if n < 0 then -n else n);
    var s := Decimal(n);
    assert Strip(s) == s;
    if n < 0 { assert s[1..] == DecimalNat(-n); }
  }

  lemma DecimalChars(n: int)
    ensures forall i :: 0 <= i < |Decimal(n)| ==> Decimal(n)[i] == '-' || IsDigit(Decimal(n)[i])
  {
  }

  /** `"{:.2f}".format(x)`; the sign stays even when the rest rounds to zero. */
  function TwoDecimals(x: real): string
  {
    var h := HundredthsOf(x);
    (if x < 0.0 then "-" else "") + DecimalNat(h / 100) + "." + [Digit(h / 10 % 10), Digit(h % 10)]
  }

  function HundredthsOf(x: real): nat { RoundHalfEven(if x < 0.0 then -x * 100.0 else x * 100.0) }

  lemma TwoDecimalsChars(x: real)
    ensures forall i :: 0 <= i < |TwoDecimals(x)| ==>
              TwoDecimals(x)[i] == '-' || TwoDecimals(x)[i] == '.' || IsDigit(TwoDecimals(x)[i])
  {
  }

  // ----- Alphabetical order

  predicate Before(a: string, b: string) {
    if b == [] then false
    else if a == [] then true
    else a[0] < b[0] || (a[0] == b[0] && Before(a[1..], b[1..]))
  }

  lemma {:induction false} BeforeIsTotal(a: string, b: string)
    ensures a == b || Before(a, b) || Before(b, a)
    ensures !(Before(a, b) && Before(b, a)) && !Before(a, a)
  {
    if a != [] { BeforeIsTotal(a[1..], a[1..]); }
    if a != [] && b != [] {
      BeforeIsTotal(a[1..], b[1..]);
      assert a == [a[0]] + a[1..] && b == [b[0]] + b[1..];
    }
  }

  lemma {:induction false} BeforeIsTransitive(a: string, b: string, c: string)
    requires Before(a, b) && Before(b, c)
    ensures Before(a, c)
  {
    if a != [] && a[0] == b[0] == c[0] { BeforeIsTransitive(a[1..], b[1..], c[1..]); }
  }

  ghost predicate IsFirst(k: string, keys: set<string>) {
    k in keys && forall o :: o in keys && o != k ==> Before(k, o)
  }

  lemma {:induction false} FirstExists(keys: set<string>) returns (first: string)
    requires keys != {}
    ensures IsFirst(first, keys)
  {
    var k :| k in keys;
    if keys == {k} {
      first := k;
    } else {
      var rest := FirstExists(keys - {k});
      BeforeIsTotal(k, rest);
      first := if Before(k, rest) then k else rest;
      forall o | o in keys && o != first ensures Before(first, o) {
        if first == k && o != rest { BeforeIsTransitive(k, rest, o); }
      }
    }
  }

  /** The keys, sorted. */
  ghost function SortedKeys(keys: set<string>): (r: seq<string>)
    ensures |r| == |keys| && (forall k :: k in r <==> k in keys)
    ensures keys != {} ==> IsFirst(r[0], keys)
  {
    if keys == {} then []
    else
      assert exists k :: IsFirst(k, keys) by { var f := FirstExists(keys); }
      var k :| IsFirst(k, keys);
      [k] + SortedKeys(keys - {k})
  }

  ghost predicate StrictlySorted(ks: seq<string>) { forall i, j :: 0 <= i < j < |ks| ==> Before(ks[i], ks[j]) }

  lemma {:induction false} SortedKeysAreSorted(keys: set<string>)
    ensures StrictlySorted(SortedKeys(keys)) && Unique(SortedKeys(keys))
  {
    if keys != {} {
      var ks := SortedKeys(keys);
      var rest := SortedKeys(keys - {ks[0]});
      assert ks == [ks[0]] + rest;
      SortedKeysAreSorted(keys - {ks[0]});
      forall j | 0 <= j < |rest| ensures Before(ks[0], rest[j]) && ks[0] != rest[j] { assert rest[j] in rest; }
    }
  }
}
