/**
 Searching, splitting and joining around a separator, for sequences of any type.

 `Find`, `Split`, `Join` and `Replace` are Python's `find`, `split`, `join` and
 `replace` on `bytes` and `str`. The central fact is that a separator which
 cannot overlap itself (`Unbordered`) makes splitting and joining inverse to
 each other: the H.264 start code and CRLF are both of this kind.
 */
module Separators {

  predicate OccursAt<T(==)>(s: seq<T>, p: seq<T>, i: int) {
    0 <= i && i + |p| <= |s| && s[i..i + |p|] == p
  }

  ghost predicate Contains<T>(s: seq<T>, p: seq<T>) {
    exists i :: OccursAt(s, p, i)
  }

  /** No proper suffix of p is also a prefix of p, so two occurrences of p never overlap. */
  ghost predicate Unbordered<T>(p: seq<T>) {
    |p| > 0 && forall k :: 0 < k < |p| ==> p[k..] != p[..|p| - k]
  }

  /** The first occurrence of p at or after `from`, or -1. */
  function Find<T(==)>(s: seq<T>, p: seq<T>, from: nat): (r: int)
    ensures -1 <= r
    ensures r == -1 ==> forall i :: from <= i ==> !OccursAt(s, p, i)
    ensures r != -1 ==> from <= r && OccursAt(s, p, r) && forall i :: from <= i < r ==> !OccursAt(s, p, i)
    decreases |s| - from
  {
    if from + |p| > |s| then -1
    else if OccursAt(s, p, from) then from
    else Find(s, p, from + 1)
  }

  function Split<T(==)>(s: seq<T>, sep: seq<T>): (parts: seq<seq<T>>)
    requires |sep| > 0
    ensures |parts| > 0
  {
    var i := Find(s, sep, 0);
    if i < 0 then [s] else [s[..i]] + Split(s[i + |sep|..], sep)
  }

  function Join<T>(parts: seq<seq<T>>, sep: seq<T>): seq<T> {
    if |parts| == 0 then []
    else if |parts| == 1 then parts[0]
    else parts[0] + sep + Join(parts[1..], sep)
  }

  function Replace<T(==)>(s: seq<T>, before: seq<T>, after: seq<T>): seq<T>
    requires |before| > 0
  {
    Join(Split(s, before), after)
  }

  ghost predicate Free<T>(parts: seq<seq<T>>, sep: seq<T>) {
    forall k :: 0 <= k < |parts| ==> !Contains(parts[k], sep)
  }

  lemma ConcatAssoc<T>(a: seq<T>, b: seq<T>, c: seq<T>)
    ensures (a + b) + c == a + (b + c)
  {
  }

  lemma OccursInSuffix<T>(s: seq<T>, p: seq<T>, k: nat, i: int)
    requires k <= |s| && 0 <= i
    ensures OccursAt(s[k..], p, i) <==> OccursAt(s, p, k + i)
  {
    if i + |p| <= |s| - k {
      assert s[k..][i..i + |p|] == s[k + i..k + i + |p|];
    }
  }

  lemma OccursInPrefix<T>(s: seq<T>, p: seq<T>, k: nat, i: int)
    requires k <= |s|
    ensures OccursAt(s[..k], p, i) <==> OccursAt(s, p, i) && i + |p| <= k
  {
    if 0 <= i && i + |p| <= k {
      assert s[..k][i..i + |p|] == s[i..i + |p|];
    }
  }

  /** Joining what was split gives the text back, for every text and separator. */
  lemma {:induction false} JoinSplit<T>(s: seq<T>, sep: seq<T>)
    requires |sep| > 0
    ensures Join(Split(s, sep), sep) == s
    decreases |s|
  {
    var i := Find(s, sep, 0);
    if i >= 0 {
      var rest := s[i + |sep|..];
      JoinSplit(rest, sep);
      var parts := Split(s, sep);
      assert parts == [s[..i]] + Split(rest, sep) && parts[1..] == Split(rest, sep);
      assert s == s[..i] + sep + rest;
    }
  }

  /** No part of a split holds the separator any more. */
  lemma {:induction false} SplitIsFree<T>(s: seq<T>, sep: seq<T>)
    requires |sep| > 0
    ensures Free(Split(s, sep), sep)
    decreases |s|
  {
    var i := Find(s, sep, 0);
    if i >= 0 {
      var rest := s[i + |sep|..];
      SplitIsFree(rest, sep);
      forall j ensures !OccursAt(s[..i], sep, j) {
        OccursInPrefix(s, sep, i, j);
      }
      var parts := Split(s, sep);
      forall k | 0 <= k < |parts| ensures !Contains(parts[k], sep) {
        assert k > 0 ==> parts[k] == Split(rest, sep)[k - 1];
      }
    }
  }

  /** Two overlapping occurrences give p a border. */
  lemma OverlapGivesBorder<T>(s: seq<T>, p: seq<T>, i: int, k: int)
    requires OccursAt(s, p, i) && OccursAt(s, p, i + k) && 0 < k < |p|
    ensures p[k..] == p[..|p| - k]
  {
    assert p[k..] == s[i + k..i + |p|];
    assert p[..|p| - k] == s[i + k..i + k + |p|][..|p| - k];
  }

  /** An occurrence of an unbordered separator excludes every overlapping one. */
  lemma NoOverlap<T>(s: seq<T>, sep: seq<T>, i: int, j: int)
    requires Unbordered(sep) && OccursAt(s, sep, i) && OccursAt(s, sep, j) && i < j
    ensures i + |sep| <= j
  {
    if j < i + |sep| {
      OverlapGivesBorder(s, sep, i, j - i);
    }
  }

  /** In `p + sep + rest` with p free of sep, the first occurrence is the written one. */
  lemma FirstCut<T>(p: seq<T>, sep: seq<T>, rest: seq<T>)
    requires Unbordered(sep) && !Contains(p, sep)
    ensures Find(p + sep + rest, sep, 0) == |p|
  {
    var s := p + sep + rest;
    assert OccursAt(s, sep, |p|);
    var i := Find(s, sep, 0);
    if i < |p| {
      NoOverlap(s, sep, i, |p|);
      assert s[..|p|] == p;
      OccursInPrefix(s, sep, |p|, i);
    }
  }

  /** Splitting what was joined gives the parts back, when none holds the separator. */
  lemma {:induction false} SplitJoin<T>(parts: seq<seq<T>>, sep: seq<T>)
    requires |parts| > 0 && Unbordered(sep) && Free(parts, sep)
    ensures Split(Join(parts, sep), sep) == parts
    decreases |parts|
  {
    if |parts| == 1 {
      assert !Contains(parts[0], sep);
    } else {
      var rest := Join(parts[1..], sep);
      var s := parts[0] + sep + rest;
      FirstCut(parts[0], sep, rest);
      assert s[..|parts[0]|] == parts[0] && s[|parts[0]| + |sep|..] == rest;
      SplitJoin(parts[1..], sep);
    }
  }

  lemma {:induction false} JoinConcat<T>(a: seq<seq<T>>, b: seq<seq<T>>, sep: seq<T>)
    requires |a| > 0 && |b| > 0
    ensures Join(a + b, sep) == Join(a, sep) + sep + Join(b, sep)
    decreases |a|
  {
    if |a| == 1 {
      assert (a + b)[1..] == b;
    } else {
      JoinConcat(a[1..], b, sep);
      assert (a + b)[1..] == a[1..] + b;
    }
  }

  /** Splitting distributes over a written separator, whatever stands on its two sides. */
  lemma SplitConcat<T>(x: seq<T>, sep: seq<T>, y: seq<T>)
    requires Unbordered(sep)
    ensures Split(x + sep + y, sep) == Split(x, sep) + Split(y, sep)
  {
    var a, b := Split(x, sep), Split(y, sep);
    JoinSplit(x, sep);
    JoinSplit(y, sep);
    SplitIsFree(x, sep);
    SplitIsFree(y, sep);
    JoinConcat(a, b, sep);
    SplitJoin(a + b, sep);
  }

  /** A text without the separator is its own only part. */
  lemma SplitFreeText<T>(s: seq<T>, sep: seq<T>)
    requires |sep| > 0 && !Contains(s, sep)
    ensures Split(s, sep) == [s]
  {
  }

  /** A separator in front only adds an empty first part. */
  lemma SplitFromFront<T>(sep: seq<T>, y: seq<T>)
    requires Unbordered(sep)
    ensures Split(sep + y, sep) == [[]] + Split(y, sep)
  {
    SplitConcat([], sep, y);
    SplitFreeText([], sep);
    assert [] + sep + y == sep + y;
  }

  /** Executable form of `Contains`. */
  predicate Has<T(==)>(s: seq<T>, p: seq<T>) {
    Find(s, p, 0) >= 0
  }

  lemma HasIsContains<T>(s: seq<T>, p: seq<T>)
    ensures Has(s, p) <==> Contains(s, p)
  {
    if i :| OccursAt(s, p, i) {
      assert Find(s, p, 0) != -1;
    }
  }

  lemma ContainsInside<T>(a: seq<T>, p: seq<T>, b: seq<T>)
    ensures Contains(a + p + b, p)
  {
    assert OccursAt(a + p + b, p, |a|);
  }

  lemma ContainsTransitive<T>(s: seq<T>, p: seq<T>, q: seq<T>)
    requires Contains(s, p) && Contains(p, q)
    ensures Contains(s, q)
  {
    var i :| OccursAt(s, p, i);
    var j :| OccursAt(p, q, j);
    assert s[i..][..|p|] == p;
    OccursInPrefix(s[i..], q, |p|, j);
    OccursInSuffix(s, q, i, j);
  }

  /** Replacing something that is not there changes nothing. */
  lemma ReplaceNothing<T>(s: seq<T>, before: seq<T>, after: seq<T>)
    requires |before| > 0 && !Contains(s, before)
    ensures Replace(s, before, after) == s
  {
    SplitFreeText(s, before);
  }

  ghost predicate NothingInCommon<T(!new)>(p: seq<T>, sep: seq<T>) {
    forall c :: c in p ==> c !in sep
  }

  lemma LetterOf<T>(s: seq<T>, p: seq<T>, i: int, j: int)
    requires OccursAt(s, p, i) && i <= j < i + |p|
    ensures s[j] in p
  {
    assert s[j] == s[i..i + |p|][j - i];
  }

  lemma NothingInCommonExcludes<T(!new)>(p: seq<T>, sep: seq<T>)
    requires |sep| > 0 && NothingInCommon(p, sep)
    ensures !Contains(p, sep)
  {
    forall i ensures !OccursAt(p, sep, i) {
      if OccursAt(p, sep, i) {
        LetterOf(p, sep, i, i);
      }
    }
  }

  lemma NoStraddle<T(!new)>(x: seq<T>, sep: seq<T>, y: seq<T>, p: seq<T>, i: int)
    requires |p| > 0 && |sep| > 0 && NothingInCommon(p, sep)
    requires OccursAt(x + sep + y, p, i)
    ensures i + |p| <= |x| || |x| + |sep| <= i
  {
    var s := x + sep + y;
    assert OccursAt(s, sep, |x|);
    if |x| < i + |p| && i < |x| + |sep| {
      var j := if i < |x| then |x| else i;
      LetterOf(s, p, i, j);
      LetterOf(s, sep, |x|, j);
    }
  }

  /** A pattern without the separator's letters lies on one side of it. */
  lemma ContainsBeside<T(!new)>(x: seq<T>, sep: seq<T>, y: seq<T>, p: seq<T>)
    requires |p| > 0 && |sep| > 0 && NothingInCommon(p, sep)
    ensures Contains(x + sep + y, p) <==> Contains(x, p) || Contains(y, p)
  {
    var s := x + sep + y;
    var n := |x| + |sep|;
    assert s[..|x|] == x && s[n..] == y;
    forall i | OccursAt(s, p, i) ensures Contains(x, p) || Contains(y, p) {
      NoStraddle(x, sep, y, p, i);
      if i + |p| <= |x| {
        OccursInPrefix(s, p, |x|, i);
      } else {
        OccursInSuffix(s, p, n, i - n);
      }
    }
    forall i | OccursAt(x, p, i) ensures Contains(s, p) {
      OccursInPrefix(s, p, |x|, i);
    }
    forall i | OccursAt(y, p, i) ensures Contains(s, p) {
      OccursInSuffix(s, p, n, i);
    }
  }

  /** A line written between two separators is a part of the text. */
  lemma LineBetween<T>(x: seq<T>, sep: seq<T>, line: seq<T>, y: seq<T>)
    requires Unbordered(sep) && !Contains(line, sep)
    ensures Split(x + sep + (line + sep + y), sep) == Split(x, sep) + [line] + Split(y, sep)
  {
    SplitConcat(x, sep, line + sep + y);
    SplitConcat(line, sep, y);
    SplitFreeText(line, sep);
    ConcatAssoc(Split(x, sep), [line], Split(y, sep));
  }

  lemma Regroup<T>(x: seq<T>, p: seq<T>, sep: seq<T>, line: seq<T>, y: seq<T>)
    ensures x + (p + sep + line + sep) + y == (x + p) + sep + (line + sep + y)
    ensures x + (p + sep + line + sep) + y == (x + p + sep) + line + (sep + y)
  {
  }

  ghost predicate SomeContains<T>(parts: seq<seq<T>>, p: seq<T>) {
    exists k :: 0 <= k < |parts| && Contains(parts[k], p)
  }

  lemma {:induction false} ContainsInJoin<T(!new)>(parts: seq<seq<T>>, sep: seq<T>, p: seq<T>)
    requires |p| > 0 && |sep| > 0 && NothingInCommon(p, sep)
    ensures Contains(Join(parts, sep), p) <==> SomeContains(parts, p)
    decreases |parts|
  {
    if |parts| > 1 {
      ContainsInJoin(parts[1..], sep, p);
      ContainsBeside(parts[0], sep, Join(parts[1..], sep), p);
      if SomeContains(parts, p) {
        var k :| 0 <= k < |parts| && Contains(parts[k], p);
        assert k > 0 ==> parts[k] == parts[1..][k - 1];
      }
      if SomeContains(parts[1..], p) {
        var k :| 0 <= k < |parts[1..]| && Contains(parts[1..][k], p);
        assert parts[k + 1] == parts[1..][k];
      }
    } else if |parts| == 1 {
      assert parts[0] == Join(parts, sep);
    }
  }

  predicate EndsWith<T(==)>(s: seq<T>, p: seq<T>) {
    |p| <= |s| && s[|s| - |p|..] == p
  }

  /** Some part but the last ends with p. */
  ghost predicate SomeLineEnds<T>(parts: seq<seq<T>>, p: seq<T>) {
    exists k :: 0 <= k < |parts| - 1 && EndsWith(parts[k], p)
  }

  lemma LineEndAt<T>(s: seq<T>, sep: seq<T>, p: seq<T>, i: int)
    requires OccursAt(s, p + sep, i)
    ensures OccursAt(s, p, i) && OccursAt(s, sep, i + |p|)
  {
    var both := s[i..i + |p + sep|];
    assert both[..|p|] == p && both[|p|..] == sep;
    assert s[i..i + |p|] == both[..|p|] && s[i + |p|..i + |p| + |sep|] == both[|p|..];
  }

  lemma LineEndBeside<T(!new)>(x: seq<T>, sep: seq<T>, y: seq<T>, p: seq<T>)
    requires |p| > 0 && Unbordered(sep) && NothingInCommon(p, sep) && !Contains(x, sep)
    ensures Contains(x + sep + y, p + sep) <==> EndsWith(x, p) || Contains(y, p + sep)
  {
    var s, n := x + sep + y, |x| + |sep|;
    assert s[..|x|] == x && s[n..] == y && OccursAt(s, sep, |x|);
    forall i | OccursAt(s, p + sep, i) ensures EndsWith(x, p) || Contains(y, p + sep) {
      LineEndAt(s, sep, p, i);
      NoStraddle(x, sep, y, p, i);
      if i + |p| == |x| {
        assert x[i..] == s[i..i + |p|];
      } else if i + |p| < |x| {
        NoOverlap(s, sep, i + |p|, |x|);
        OccursInPrefix(s, sep, |x|, i + |p|);
      } else {
        OccursInSuffix(s, p + sep, n, i - n);
      }
    }
    if EndsWith(x, p) {
      ContainsInside(x[..|x| - |p|], p + sep, y);
      assert x[..|x| - |p|] + (p + sep) + y == s by {
        assert x == x[..|x| - |p|] + p;
      }
    }
    forall i | OccursAt(y, p + sep, i) ensures Contains(s, p + sep) {
      OccursInSuffix(s, p + sep, n, i);
    }
  }

  lemma {:induction false} LineEndInJoin<T(!new)>(parts: seq<seq<T>>, sep: seq<T>, p: seq<T>)
    requires |p| > 0 && Unbordered(sep) && NothingInCommon(p, sep) && Free(parts, sep)
    ensures Contains(Join(parts, sep), p + sep) <==> SomeLineEnds(parts, p)
    decreases |parts|
  {
    if |parts| > 1 {
      LineEndInJoin(parts[1..], sep, p);
      LineEndBeside(parts[0], sep, Join(parts[1..], sep), p);
      if SomeLineEnds(parts, p) {
        var k :| 0 <= k < |parts| - 1 && EndsWith(parts[k], p);
        assert k > 0 ==> parts[k] == parts[1..][k - 1];
      }
      if SomeLineEnds(parts[1..], p) {
        var k :| 0 <= k < |parts[1..]| - 1 && EndsWith(parts[1..][k], p);
        assert parts[k + 1] == parts[1..][k];
      }
    } else {
      var s := Join(parts, sep);
      assert |parts| == 1 ==> s == parts[0];
      forall i ensures !OccursAt(s, p + sep, i) {
        if OccursAt(s, p + sep, i) {
          LineEndAt(s, sep, p, i);
        }
      }
    }
  }

  lemma {:induction false} JoinLast<T>(parts: seq<seq<T>>, sep: seq<T>, w: seq<T>)
    requires |parts| > 0
    ensures var n := |parts| - 1;
            Join(parts[..n] + [parts[n] + w], sep) == Join(parts, sep) + w
    decreases |parts|
  {
    var n := |parts| - 1;
    var longer := parts[..n] + [parts[n] + w];
    if n > 0 {
      JoinLast(parts[1..], sep, w);
      assert longer[1..] == parts[1..][..n - 1] + [parts[1..][n - 1] + w];
      ConcatAssoc(parts[0] + sep, Join(parts[1..], sep), w);
    }
  }

  /** Text without the separator's letters only lengthens the last part. */
  lemma SplitAppend<T(!new)>(s: seq<T>, sep: seq<T>, w: seq<T>)
    requires Unbordered(sep) && NothingInCommon(w, sep)
    ensures var parts := Split(s, sep);
            var n := |parts| - 1;
            Split(s + w, sep) == parts[..n] + [parts[n] + w]
  {
    var parts := Split(s, sep);
    var n := |parts| - 1;
    JoinSplit(s, sep);
    SplitIsFree(s, sep);
    JoinLast(parts, sep, w);
    AppendStaysFree(parts[n], sep, w);
    assert Free(parts[..n] + [parts[n] + w], sep);
    SplitJoin(parts[..n] + [parts[n] + w], sep);
  }

  lemma AppendStaysFree<T(!new)>(s: seq<T>, sep: seq<T>, w: seq<T>)
    requires |sep| > 0 && !Contains(s, sep) && NothingInCommon(w, sep)
    ensures !Contains(s + w, sep)
  {
    var t := s + w;
    forall i ensures !OccursAt(t, sep, i) {
      if OccursAt(t, sep, i) {
        if i + |sep| <= |s| {
          assert t[..|s|] == s;
          OccursInPrefix(t, sep, |s|, i);
        } else {
          LetterOf(t, sep, i, i + |sep| - 1);
        }
      }
    }
  }
}
