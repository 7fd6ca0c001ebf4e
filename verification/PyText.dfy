/** The parts of Python's `str` that the bridge relies on. */
module PyText {
  import opened Separators

  const CRLF := "\r\n"

  /** Where `splitlines` ends a line. */
  predicate IsLineBreak(c: char) {
    (10 <= c as int <= 13) || (28 <= c as int <= 30) || c as int in {133, 8232, 8233}
  }

  /** What `strip` removes. */
  predicate IsSpace(c: char) {
    || (9 <= c as int <= 13) || (28 <= c as int <= 32) || (8192 <= c as int <= 8202)
    || c as int in {133, 160, 5760, 8232, 8233, 8239, 8287, 12288}
  }

  predicate NoBreaks(s: string) {
    forall i :: 0 <= i < |s| ==> !IsLineBreak(s[i])
  }

  /** The first line break at or after `from`, or the end. */
  function NextBreak(s: string, from: nat): (i: nat)
    requires from <= |s|
    ensures from <= i <= |s|
    ensures i < |s| ==> IsLineBreak(s[i])
    ensures forall j :: from <= j < i ==> !IsLineBreak(s[j])
    decreases |s| - from
  {
    if from == |s| || IsLineBreak(s[from]) then from else NextBreak(s, from + 1)
  }

  /** CRLF is one break. */
  function BreakWidth(s: string, i: nat): nat
    requires i < |s|
  {
    if i + 1 < |s| && s[i] == '\r' && s[i + 1] == '\n' then 2 else 1
  }

  /** `str.splitlines`: a break at the end opens no further line. */
  function SplitLines(s: string): seq<string>
    decreases |s|
  {
    if s == [] then []
    else
      var i := NextBreak(s, 0);
      if i == |s| then [s] else [s[..i]] + SplitLines(s[i + BreakWidth(s, i)..])
  }

  function LStrip(s: string): string
    decreases |s|
  {
    if s != [] && IsSpace(s[0]) then LStrip(s[1..]) else s
  }

  function RStrip(s: string): string
    decreases |s|
  {
    if s != [] && IsSpace(s[|s| - 1]) then RStrip(s[..|s| - 1]) else s
  }

  function Strip(s: string): string {
    RStrip(LStrip(s))
  }

  predicate StartsWith(s: string, p: string) {
    p <= s
  }

  function Decimal(n: nat): string {
    (if n < 10 then [] else Decimal(n / 10)) + [(n % 10 + 48) as char]
  }

  /** `str.lower` as far as ASCII letters go. */
  function Lower(s: string): (r: string)
    ensures |r| == |s|
  {
    seq(|s|, i requires 0 <= i < |s| => if 'A' <= s[i] <= 'Z' then (s[i] as int + 32) as char else s[i])
  }

  predicate AllSpace(s: string) {
    forall i :: 0 <= i < |s| ==> IsSpace(s[i])
  }

  /** No blank at either end. */
  predicate IsStrip(s: string) {
    s != [] ==> !IsSpace(s[0]) && !IsSpace(s[|s| - 1])
  }

  lemma {:induction false} LStripOf(a: string, w: string)
    requires AllSpace(a) && (w != [] ==> !IsSpace(w[0]))
    ensures LStrip(a + w) == w
    decreases |a|
  {
    if a == [] {
      assert a + w == w;
    } else {
      assert (a + w)[1..] == a[1..] + w;
      LStripOf(a[1..], w);
    }
  }

  lemma {:induction false} RStripOf(w: string, b: string)
    requires AllSpace(b) && (w != [] ==> !IsSpace(w[|w| - 1]))
    ensures RStrip(w + b) == w
    decreases |b|
  {
    if b == [] {
      assert w + b == w;
    } else {
      assert (w + b)[..|w + b| - 1] == w + b[..|b| - 1];
      RStripOf(w, b[..|b| - 1]);
    }
  }

  /** `strip` removes the blanks at both ends. */
  lemma StripOf(a: string, w: string, b: string)
    requires AllSpace(a) && IsStrip(w) && AllSpace(b)
    ensures Strip(a + w + b) == w
  {
    if w == [] {
      assert a + w + b == (a + b) + [];
      LStripOf(a + b, []);
    } else {
      ConcatAssoc(a, w, b);
      LStripOf(a, w + b);
      RStripOf(w, b);
    }
  }

  lemma {:induction false} LStripSplits(s: string) returns (a: string)
    ensures AllSpace(a) && s == a + LStrip(s) && (LStrip(s) != [] ==> !IsSpace(LStrip(s)[0]))
    decreases |s|
  {
    a := [];
    if s != [] && IsSpace(s[0]) {
      a := LStripSplits(s[1..]);
      a := [s[0]] + a;
    }
  }

  lemma {:induction false} RStripSplits(s: string) returns (b: string)
    ensures AllSpace(b) && s == RStrip(s) + b && (RStrip(s) != [] ==> !IsSpace(RStrip(s)[|RStrip(s)| - 1]))
    decreases |s|
  {
    b := [];
    if s != [] && IsSpace(s[|s| - 1]) {
      b := RStripSplits(s[..|s| - 1]);
      b := b + [s[|s| - 1]];
    }
  }

  /** Every text is what `strip` leaves of it between two stretches of blanks. */
  lemma StripSplits(s: string) returns (a: string, b: string)
    ensures AllSpace(a) && AllSpace(b) && IsStrip(Strip(s)) && s == a + Strip(s) + b
  {
    a := LStripSplits(s);
    b := RStripSplits(LStrip(s));
    ConcatAssoc(a, Strip(s), b);
    assert Strip(s) != [] ==> LStrip(s)[0] == Strip(s)[0];
  }

  function DigitsValue(s: string): int
    decreases |s|
  {
    if s == [] then 0 else 10 * DigitsValue(s[..|s| - 1]) + (s[|s| - 1] as int - '0' as int)
  }

  /** `str` of a natural number: its digits, which read back as it, without a zero in front. */
  lemma {:induction false} DecimalReadsBack(n: nat)
    ensures var s := Decimal(n);
            && DigitsValue(s) == n && (forall i :: 0 <= i < |s| ==> '0' <= s[i] <= '9')
            && s != [] && (n > 0 ==> s[0] != '0') && (n == 0 ==> s == "0")
    decreases n
  {
    var s := Decimal(n);
    if n >= 10 {
      DecimalReadsBack(n / 10);
      assert s[..|s| - 1] == Decimal(n / 10);
    } else {
      assert s[..|s| - 1] == [];
    }
  }

  lemma FirstLine(s: string, line: string, rest: string)
    requires |line| < |s| && line <= s && NoBreaks(line) && IsLineBreak(s[|line|])
    requires rest == s[|line| + BreakWidth(s, |line|)..]
    ensures SplitLines(s) == [line] + SplitLines(rest)
  {
    assert forall j :: 0 <= j < |line| ==> s[j] == line[j];
    assert NextBreak(s, 0) == |line| && s[..|line|] == line;
  }

  /** Behind any CRLF the lines begin anew. */
  lemma {:induction false} SplitLinesAtCrlf(a: string, b: string)
    ensures SplitLines(a + CRLF + b) == SplitLines(a + CRLF) + SplitLines(b)
    decreases |a|
  {
    var i := NextBreak(a, 0);
    if i == |a| {
      UnbrokenAtCrlf(a, b);
    } else {
      SplitLinesAtCrlf(a[i + BreakWidth(a, i)..], b);
      BrokenAtCrlf(a, i, b);
    }
  }

  lemma UnbrokenAtCrlf(a: string, b: string)
    requires NoBreaks(a)
    ensures SplitLines(a + CRLF + b) == SplitLines(a + CRLF) + SplitLines(b)
  {
    FirstLine(a + CRLF + b, a, b);
    FirstLine(a + CRLF, a, []);
  }

  lemma BrokenAtCrlf(a: string, i: nat, b: string)
    requires i < |a| && IsLineBreak(a[i]) && NoBreaks(a[..i])
    requires var rest := a[i + BreakWidth(a, i)..];
             SplitLines(rest + CRLF + b) == SplitLines(rest + CRLF) + SplitLines(b)
    ensures SplitLines(a + CRLF + b) == SplitLines(a + CRLF) + SplitLines(b)
  {
    var rest := a[i + BreakWidth(a, i)..];
    SplitOffLine(a, i, CRLF + b);
    SplitOffLine(a, i, CRLF);
    ConcatAssoc(a, CRLF, b);
    ConcatAssoc(rest, CRLF, b);
    ConcatAssoc([a[..i]], SplitLines(rest + CRLF), SplitLines(b));
  }

  /** A line that ends within a is the same whatever CRLF-led text follows a. */
  lemma SplitOffLine(a: string, i: nat, more: string)
    requires i < |a| && IsLineBreak(a[i]) && NoBreaks(a[..i])
    requires more != [] && more[0] == '\r'
    ensures SplitLines(a + more) == [a[..i]] + SplitLines(a[i + BreakWidth(a, i)..] + more)
  {
    var k := BreakWidth(a, i);
    assert (a + more)[i + k..] == a[i + k..] + more;
    FirstLine(a + more, a[..i], a[i + k..] + more);
  }

  /** A line without breaks of its own, ended by CRLF. */
  lemma SplitLinesOfOne(line: string)
    requires NoBreaks(line)
    ensures SplitLines(line + CRLF) == [line]
    ensures SplitLines(line) == if line == [] then [] else [line]
  {
    FirstLine(line + CRLF, line, []);
  }

  /** A CRLF at the end of a text adds at most an empty line. */
  lemma {:induction false} SplitLinesBeforeLastCrlf(a: string)
    ensures SplitLines(a + CRLF) in {SplitLines(a), SplitLines(a) + [""]}
    decreases |a|
  {
    var t := a + CRLF;
    var i := NextBreak(a, 0);
    var line := a[..i];
    if i == |a| {
      FirstLine(t, line, []);
      assert a == line && SplitLines(t) == [a];
      assert a == [] ==> SplitLines(a) + [""] == [a];
    } else {
      var k := BreakWidth(a, i);
      var rest := a[i + k..];
      assert t[i + k..] == rest + CRLF;
      FirstLine(t, line, rest + CRLF);
      FirstLine(a, line, rest);
      SplitLinesBeforeLastCrlf(rest);
      ConcatAssoc([line], SplitLines(rest), [""]);
    }
  }

  lemma {:induction false} RStripKeepsPrefix(s: string, p: string)
    requires StartsWith(s, p) && p != [] && !IsSpace(p[|p| - 1])
    ensures StartsWith(RStrip(s), p)
    decreases |s|
  {
    if IsSpace(s[|s| - 1]) {
      RStripKeepsPrefix(s[..|s| - 1], p);
    }
  }
}
