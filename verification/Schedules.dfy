/**
 Which moments of a run belong to which process, when a process may start at the
 moments that `opens` marks and dies at the first one that `lethal` marks.
 */
module Schedules {

  datatype Mark = Mark(opens: bool, lethal: bool)

  /** The moments `first..last`: a process that started at `first` and was served until `last`. */
  datatype Span = Span(first: nat, last: nat)

  /** A process is served on its span and dies at the moment behind it, unless it is alive at the end. */
  predicate IsLife(marks: seq<Mark>, span: Span, dead: bool) {
    && span.first <= span.last <= |marks| && span.first < |marks|
    && marks[span.first].opens
    && (forall j :: span.first <= j < span.last ==> !marks[j].lethal)
    && (if dead then span.last < |marks| && marks[span.last].lethal else span.last == |marks|)
  }

  ghost predicate Covered(spans: seq<Span>, j: nat) {
    exists k :: 0 <= k < |spans| && spans[k].first <= j <= spans[k].last
  }

  /**
   The lives in order: each begins where a process can start, lasts up to the first lethal
   moment, and every moment where a process can start falls into one.
   */
  ghost predicate IsSchedule(marks: seq<Mark>, spans: seq<Span>, live: bool) {
    && (forall k :: 0 <= k < |spans| ==> IsLife(marks, spans[k], k < |spans| - 1 || !live))
    && (forall i, k :: 0 <= i < k < |spans| ==> spans[i].last < spans[k].first)
    && (live ==> |spans| > 0)
    && (forall j {:trigger Covered(spans, j)} :: 0 <= j < |marks| && marks[j].opens ==> Covered(spans, j))
  }

  /** The open life goes on or ends, or a new one begins. */
  function NextSpans(n: nat, spans: seq<Span>, live: bool, m: Mark): seq<Span>
    requires live ==> |spans| > 0
  {
    var now := if live || !m.opens then spans else spans + [Span(n, n)];
    if (live || m.opens) && !m.lethal then now[|now| - 1 := now[|now| - 1].(last := n + 1)] else now
  }

  lemma CoveredStep(marks: seq<Mark>, spans: seq<Span>, live: bool, m: Mark, j: nat)
    requires IsSchedule(marks, spans, live)
    requires j <= |marks| && (marks + [m])[j].opens
    ensures Covered(NextSpans(|marks|, spans, live, m), j)
  {
    var spans' := NextSpans(|marks|, spans, live, m);
    if j < |marks| {
      assert Covered(spans, j);
      var k :| 0 <= k < |spans| && spans[k].first <= j <= spans[k].last;
      assert spans'[k].first <= j <= spans'[k].last;
    } else {
      var k := |spans'| - 1;
      assert spans'[k].first <= j <= spans'[k].last;
    }
  }

  lemma LivesStep(marks: seq<Mark>, spans: seq<Span>, live: bool, m: Mark, k: nat)
    requires IsSchedule(marks, spans, live)
    requires k < |NextSpans(|marks|, spans, live, m)|
    ensures var spans' := NextSpans(|marks|, spans, live, m);
            IsLife(marks + [m], spans'[k], k < |spans'| - 1 || m.lethal || !(live || m.opens))
  {
    assert k < |spans| ==> IsLife(marks, spans[k], k < |spans| - 1 || !live);
  }

  lemma ScheduleStep(marks: seq<Mark>, spans: seq<Span>, live: bool, m: Mark)
    requires IsSchedule(marks, spans, live)
    ensures IsSchedule(marks + [m], NextSpans(|marks|, spans, live, m), (live || m.opens) && !m.lethal)
  {
    var spans', live' := NextSpans(|marks|, spans, live, m), (live || m.opens) && !m.lethal;
    forall k | 0 <= k < |spans'| ensures IsLife(marks + [m], spans'[k], k < |spans'| - 1 || !live') {
      LivesStep(marks, spans, live, m, k);
    }
    forall i, k | 0 <= i < k < |spans'| ensures spans'[i].last < spans'[k].first {
      assert IsLife(marks, spans[i], i < |spans| - 1 || !live);
    }
    forall j | 0 <= j < |marks + [m]| && (marks + [m])[j].opens ensures Covered(spans', j) {
      CoveredStep(marks, spans, live, m, j);
    }
  }

  /** The k-th lives of two schedules agree when all earlier ones do. */
  lemma SameLife(marks: seq<Mark>, a: seq<Span>, liveA: bool, b: seq<Span>, liveB: bool, k: nat)
    requires IsSchedule(marks, a, liveA) && IsSchedule(marks, b, liveB)
    requires k < |a| && k <= |b| && a[..k] == b[..k]
    ensures k < |b| && a[k] == b[k]
    ensures (k == |a| - 1 && liveA) == (k == |b| - 1 && liveB)
  {
    StartsInTime(marks, a, liveA, b, liveB, k);
    StartsInTime(marks, b, liveB, a, liveA, k);
    var x, y := a[k], b[k];
    assert IsLife(marks, x, k < |a| - 1 || !liveA) && IsLife(marks, y, k < |b| - 1 || !liveB);
  }

  lemma SameBefore(a: seq<Span>, b: seq<Span>, k: nat, i: nat)
    requires i < k <= |a| && k <= |b| && a[..k] == b[..k]
    ensures a[i] == b[i]
  {
    assert a[i] == a[..k][i] == b[..k][i];
  }

  lemma StartsInTime(marks: seq<Mark>, a: seq<Span>, liveA: bool, b: seq<Span>, liveB: bool, k: nat)
    requires IsSchedule(marks, a, liveA) && IsSchedule(marks, b, liveB)
    requires k < |a| && k <= |b| && a[..k] == b[..k]
    ensures k < |b| && b[k].first <= a[k].first
  {
    var j := a[k].first;
    assert Covered(b, j);
    var i :| 0 <= i < |b| && b[i].first <= j <= b[i].last;
    if i < k {
      SameBefore(a, b, k, i);
    } else if k < i {
      assert IsLife(marks, b[k], true);
    }
  }

  lemma {:induction false} SameLives(marks: seq<Mark>, a: seq<Span>, liveA: bool, b: seq<Span>, liveB: bool, k: nat)
    requires IsSchedule(marks, a, liveA) && IsSchedule(marks, b, liveB) && k <= |a|
    ensures k <= |b| && a[..k] == b[..k]
    decreases k
  {
    if k > 0 {
      SameLives(marks, a, liveA, b, liveB, k - 1);
      SameLife(marks, a, liveA, b, liveB, k - 1);
      assert a[..k] == a[..k - 1] + [a[k - 1]] && b[..k] == b[..k - 1] + [b[k - 1]];
    }
  }

  /** The marks leave no choice: there is only one schedule. */
  lemma ScheduleIsUnique(marks: seq<Mark>, a: seq<Span>, liveA: bool, b: seq<Span>, liveB: bool)
    requires IsSchedule(marks, a, liveA) && IsSchedule(marks, b, liveB)
    ensures a == b && liveA == liveB
  {
    SameLives(marks, a, liveA, b, liveB, |a|);
    SameLives(marks, b, liveB, a, liveA, |b|);
    if |a| > 0 {
      var k := |a| - 1;
      SameLife(marks, a, liveA, b, liveB, k);
    }
  }
}
