/** The text operations that the change-request tool relies on, and when they undo each other. */
module Text {
  import opened Common

  function Join(parts: seq<string>, separator: char): string {
    if parts == [] then "" else if |parts| == 1 then parts[0] else parts[0] + [separator] + Join(parts[1..], separator)
  }

  lemma {:induction false} SplitConcat(a: string, separator: char, b: string)
    ensures Split(a + [separator] + b, separator) == Split(a, separator) + Split(b, separator)
  {
    var s := a + [separator] + b;
    if a == "" {
      assert s[1..] == b;
    } else {
      assert s[1..] == a[1..] + [separator] + b;
      SplitConcat(a[1..], separator, b);
    }
  }

  lemma {:induction false} SplitPlain(a: string, separator: char)
    requires separator !in a
    ensures Split(a, separator) == [a]
  {
    if a != "" {
      SplitPlain(a[1..], separator);
      assert [a[0]] + a[1..] == a;
    }
  }

  lemma {:induction false} JoinSplit(s: string, separator: char)
    ensures Join(Split(s, separator), separator) == s
  {
    if s != "" {
      var rest := Split(s[1..], separator);
      JoinSplit(s[1..], separator);
      var parts := Split(s, separator);
      if s[0] == separator {
        assert parts[1..] == rest;
        assert Join(parts, separator) == [separator] + s[1..];
      } else {
        assert parts[1..] == rest[1..];
        assert Join(parts, separator) == [s[0]] + Join(rest, separator);
      }
    }
  }

  lemma {:induction false} SplitJoin(parts: seq<string>, separator: char)
    requires parts != [] && forall part | part in parts :: separator !in part
    ensures Split(Join(parts, separator), separator) == parts
  {
    SplitPlain(parts[0], separator);
    if |parts| > 1 {
      SplitConcat(parts[0], separator, Join(parts[1..], separator));
      SplitJoin(parts[1..], separator);
      assert parts == [parts[0]] + parts[1..];
    }
  }

  lemma {:induction false} SplitPieces(s: string, separator: char)
    ensures forall part | part in Split(s, separator) :: separator !in part
  {
    if s != "" { SplitPieces(s[1..], separator); }
  }

  // ----- Lines -----

  /** What ends a line for Python's splitlines. */
  predicate IsBreak(c: char) {
    '\n' <= c <= '\r' || '\U{1C}' <= c <= '\U{1E}' || c == '\U{85}' || c == '\U{2028}' || c == '\U{2029}'
  }

  predicate OneLine(s: string) {
    forall i | 0 <= i < |s| :: !IsBreak(s[i])
  }

  function FirstBreak(s: string): (n: nat)
    ensures n <= |s| && OneLine(s[..n]) && (n < |s| ==> IsBreak(s[n]))
  {
    if s == "" || IsBreak(s[0]) then 0
    else
      var n := 1 + FirstBreak(s[1..]);
      assert s[..n] == [s[0]] + s[1..][..n - 1];
      n
  }

  function SplitLines(s: string): seq<string> {
    if s == "" then []
    else
      var n := FirstBreak(s);
      if n == |s| then [s]
      else [s[..n]] + SplitLines(s[if s[n..n + 1] == "\r" && n + 1 < |s| && s[n + 1] == '\n' then n + 2 else n + 1..])
  }

  lemma FirstBreakIs(s: string, n: nat)
    requires n < |s| && OneLine(s[..n]) && IsBreak(s[n])
    ensures FirstBreak(s) == n
  {
    var k := FirstBreak(s);
    forall i | 0 <= i < n ensures !IsBreak(s[i]) { assert s[..n][i] == s[i]; }
    forall i | 0 <= i < k ensures !IsBreak(s[i]) { assert s[..k][i] == s[i]; }
  }

  lemma FirstLine(a: string, rest: string)
    requires OneLine(a)
    ensures SplitLines(a + "\n" + rest) == [a] + SplitLines(rest)
  {
    var s := a + "\n" + rest;
    assert s[..|a|] == a && s[|a|] == '\n';
    FirstBreakIs(s, |a|);
    assert s[|a| + 1..] == rest;
  }

  lemma {:induction false} LinesOfJoin(parts: seq<string>)
    requires parts != [] && parts[|parts| - 1] != "" && forall part | part in parts :: OneLine(part)
    ensures SplitLines(Join(parts, '\n')) == parts
  {
    hide SplitLines, OneLine;
    if |parts| == 1 {
      assert parts == [parts[0]];
      OnlyLine(parts[0]);
    } else {
      LinesOfJoin(parts[1..]);
      FirstLine(parts[0], Join(parts[1..], '\n'));
      assert parts == [parts[0]] + parts[1..];
    }
  }

  lemma OnlyLine(s: string)
    requires OneLine(s) && s != ""
    ensures SplitLines(s) == [s]
  {
    assert FirstBreak(s) == |s|;
  }

  /** The same with a terminated last line and a blank one after it. */
  lemma {:induction false} LinesOfParagraph(parts: seq<string>)
    requires parts != [] && forall part | part in parts :: OneLine(part)
    ensures SplitLines(Join(parts, '\n') + "\n\n") == parts + [""]
  {
    hide SplitLines, OneLine;
    var rest := if |parts| == 1 then "\n" else Join(parts[1..], '\n') + "\n\n";
    assert Join(parts, '\n') + "\n\n" == parts[0] + "\n" + rest;
    FirstLine(parts[0], rest);
    assert parts == [parts[0]] + parts[1..];
    if |parts| == 1 { BlankLine(); } else { LinesOfParagraph(parts[1..]); }
  }

  lemma BlankLine()
    ensures SplitLines("\n") == [""]
  {
    assert "" + "\n" + "" == "\n";
    FirstLine("", "");
  }

  // ----- Words -----

  /** White space for Python's split and strip. */
  predicate IsBlank(c: char) { IsSpace(c) || '\U{1C}' <= c <= '\U{1F}' }

  predicate OneWord(s: string) {
    s != "" && forall i | 0 <= i < |s| :: !IsBlank(s[i])
  }

  function FirstBlank(s: string): (n: nat)
    ensures n <= |s| && (forall i | 0 <= i < n :: !IsBlank(s[i])) && (n < |s| ==> IsBlank(s[n]))
  {
    if s == "" || IsBlank(s[0]) then 0 else 1 + FirstBlank(s[1..])
  }

  function Words(s: string): seq<string>
    decreases |s|
  {
    if s == "" then []
    else if IsBlank(s[0]) then Words(s[1..])
    else [s[..FirstBlank(s)]] + Words(s[FirstBlank(s)..])
  }

  lemma FirstWord(a: string, rest: string)
    requires OneWord(a)
    ensures Words(a + " " + rest) == [a] + Words(rest) && Words(a) == [a]
  {
    var s := a + " " + rest;
    assert s[0] == a[0] && s[|a|] == ' ' && forall i | 0 <= i < |a| :: s[i] == a[i];
    var n := FirstBlank(s);
    assert forall i | 0 <= i < |a| :: !IsBlank(s[i]);
    assert n == |a| && s[..n] == a && s[n..] == " " + rest && s[n..][1..] == rest;
    var k := FirstBlank(a);
    assert k == |a| && a[..k] == a && a[k..] == "";
  }

  lemma NoWords()
    ensures Words("") == []
  {
  }

  lemma {:induction false} WordsOfJoin(parts: seq<string>)
    requires forall part | part in parts :: OneWord(part)
    ensures Words(Join(parts, ' ')) == parts
  {
    hide Words, OneWord;
    if parts == [] {
      NoWords();
    } else {
      WordsOfJoin(parts[1..]);
      FirstWord(parts[0], Join(parts[1..], ' '));
      assert parts == [parts[0]] + parts[1..];
    }
  }

  function Strip(s: string): string
    decreases |s|
  {
    if s == "" then ""
    else if IsBlank(s[0]) then Strip(s[1..])
    else if IsBlank(s[|s| - 1]) then Strip(s[..|s| - 1])
    else s
  }

  // ----- Decimal numbers -----

  predicate IsDigit(c: char) { '0' <= c <= '9' }

  function DigitOf(n: nat): char
    requires n < 10
  {
    '0' + n as char
  }

  function DigitValue(c: char): nat
    requires IsDigit(c)
  {
    (c - '0') as int
  }

  function Decimal(n: nat): string {
    if n < 10 then [DigitOf(n)] else Decimal(n / 10) + [DigitOf(n % 10)]
  }

  function Value(s: string): nat
    requires forall c | c in s :: IsDigit(c)
  {
    if s == "" then 0
    else
      assert s[|s| - 1] in s;
      10 * Value(s[..|s| - 1]) + DigitValue(s[|s| - 1])
  }

  /** A positive number without leading zeros. */
  predicate PositiveNumeral(s: string) {
    s != "" && (forall c | c in s :: IsDigit(c)) && s[0] != '0'
  }

  lemma {:induction false} DecimalRoundTrip(n: nat)
    ensures forall c | c in Decimal(n) :: IsDigit(c)
    ensures Value(Decimal(n)) == n && (n > 0 ==> PositiveNumeral(Decimal(n)))
  {
    if n >= 10 {
      DecimalRoundTrip(n / 10);
      var s := Decimal(n);
      assert s[..|s| - 1] == Decimal(n / 10);
      assert s[0] == Decimal(n / 10)[0];
    } else {
      assert Decimal(n)[..0] == "";
      assert Value("") == 0;
    }
  }

  // ----- Order -----

  predicate StringLeq(a: string, b: string) {
    if a == "" then true
    else if b == "" then false
    else if a[0] != b[0] then a[0] < b[0]
    else StringLeq(a[1..], b[1..])
  }

  lemma {:induction false} StringLeqOrders(a: string, b: string, c: string)
    ensures StringLeq(a, b) || StringLeq(b, a)
    ensures StringLeq(a, b) && StringLeq(b, c) ==> StringLeq(a, c)
    ensures StringLeq(a, b) && StringLeq(b, a) ==> a == b
  {
    if a != "" && b != "" {
      StringLeqOrders(a[1..], b[1..], if c == "" then "" else c[1..]);
      assert a == [a[0]] + a[1..] && b == [b[0]] + b[1..];
    }
  }
}
