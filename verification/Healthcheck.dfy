/** The container health check of `docker/healthcheck.py`: a grace timer kept in a file between invocations. */
module Healthcheck {
  import opened Wrappers

  /** What one invocation finds: the off sentinel, a dead control API, or the path publishing or not, at some time. */
  datatype Sight = Off | ApiDown | Ready | NotReady(now: real)

  /** Whether the state file can be written and removed at this invocation. */
  datatype Check = Check(sight: Sight, fileWorks: bool)

  class Timer {
    var downSince: Option<real>

    constructor ()
      ensures downSince == None
    {
      downSince := None;
    }

    /** `_write_down_since`. */
    method Write(ts: real, works: bool)
      modifies this
      ensures downSince == if works then Some(ts) else old(downSince)
    {
      if works {
        downSince := Some(ts);
      }
    }

    /** `_clear_down_since`. */
    method Clear(works: bool)
      modifies this
      ensures downSince == if works then None else old(downSince)
    {
      if works {
        downSince := None;
      }
    }

    /** `main`: the exit code. */
    method RunCheck(c: Check, grace: real) returns (code: int)
      modifies this
      ensures downSince == Next(old(downSince), c)
      ensures code == ExitCode(old(downSince), c, grace)
    {
      match c.sight
      case Off =>
        Clear(c.fileWorks);
        return 0;
      case ApiDown =>
        return 1;
      case Ready =>
        Clear(c.fileWorks);
        return 0;
      case NotReady(now) =>
        var since := downSince;
        if since == None {
          since := Some(now);
          Write(now, c.fileWorks);
        }
        var downFor := now - since.value;
        if downFor < grace {
          return 0;
        }
        return 1;
    }
  }

  function Next(downSince: Option<real>, c: Check): Option<real> {
    match c.sight
    case ApiDown => downSince
    case NotReady(now) => if downSince.None? && c.fileWorks then Some(now) else downSince
    case _ => if c.fileWorks then None else downSince
  }

  function ExitCode(downSince: Option<real>, c: Check, grace: real): int {
    match c.sight
    case ApiDown => 1
    case NotReady(now) =>
      var since := if downSince.Some? then downSince.value else now;
      if now - since < grace then 0 else 1
    case _ => 0
  }

  function TimerAfter(checks: seq<Check>): Option<real>
    decreases |checks|
  {
    if checks == [] then None else Next(TimerAfter(checks[..|checks| - 1]), checks[|checks| - 1])
  }

  /** A check that finds the path ready or the bridge off, and can remove the state file. */
  predicate Clears(c: Check) {
    (c.sight == Off || c.sight == Ready) && c.fileWorks
  }

  /** A check that finds the path down, and could write the state file. */
  predicate Notes(c: Check) {
    c.sight.NotReady? && c.fileWorks
  }

  ghost predicate ClearBetween(checks: seq<Check>, j: nat, k: nat)
    requires k <= |checks|
  {
    exists i :: j < i < k && Clears(checks[i])
  }

  /** Check k is the first that noted the path down since the last that cleared the timer. */
  ghost predicate FirstDown(checks: seq<Check>, k: nat) {
    && k < |checks| && Notes(checks[k])
    && (forall j :: k < j < |checks| ==> !Clears(checks[j]))
    && (forall j :: 0 <= j < k && Notes(checks[j]) ==> ClearBetween(checks, j, k))
  }

  /** No check since the last that cleared the timer noted the path down. */
  ghost predicate NoneDown(checks: seq<Check>) {
    forall j :: 0 <= j < |checks| && Notes(checks[j]) ==> ClearBetween(checks, j, |checks|)
  }

  lemma ClearBetweenGrows(checks: seq<Check>, c: Check, j: nat, k: nat)
    requires k <= |checks|
    ensures ClearBetween(checks + [c], j, k) <==> ClearBetween(checks, j, k)
    ensures k == |checks| && j < k ==>
              (ClearBetween(checks + [c], j, k + 1) <==> ClearBetween(checks, j, k) || Clears(c))
  {
    if k == |checks| && j < k && Clears(c) {
      assert Clears((checks + [c])[k]);
    }
    forall i | 0 <= i < |checks| ensures (checks + [c])[i] == checks[i] {
    }
  }

  /**
   The timer holds the time of the first sighting of the path down that was noted since the timer
   was last cleared, if there is one, whatever became of the writes and removals in between.
   */
  lemma {:induction false} TimerIsFirstDown(checks: seq<Check>) returns (k: nat)
    ensures TimerAfter(checks).None? ==> NoneDown(checks)
    ensures TimerAfter(checks).Some? ==> FirstDown(checks, k) && TimerAfter(checks) == Some(checks[k].sight.now)
    decreases |checks|
  {
    k := 0;
    if checks != [] {
      var before, c := checks[..|checks| - 1], checks[|checks| - 1];
      k := TimerIsFirstDown(before);
      assert checks == before + [c];
      forall j | 0 <= j < |before|
        ensures ClearBetween(checks, j, |checks|) <==> ClearBetween(before, j, |before|) || Clears(c)
        ensures ClearBetween(checks, j, |before|) <==> ClearBetween(before, j, |before|)
      {
        ClearBetweenGrows(before, c, j, |before|);
      }
      if TimerAfter(before).Some? {
        forall j | 0 <= j < k ensures ClearBetween(checks, j, k) <==> ClearBetween(before, j, k) {
          ClearBetweenGrows(before, c, j, k);
        }
      } else if Notes(c) {
        k := |before|;
      }
    }
  }

  lemma FirstDownIsUnique(checks: seq<Check>, a: nat, b: nat)
    requires FirstDown(checks, a) && FirstDown(checks, b)
    ensures a == b
  {
    assert a < b ==> !ClearBetween(checks, a, b);
    assert b < a ==> !ClearBetween(checks, b, a);
  }

  /** The path has been down for the grace period: since the first such sighting noted, or since now if none was. */
  ghost predicate Overdue(checks: seq<Check>, now: real, grace: real) {
    || (exists k: nat :: FirstDown(checks, k) && now - checks[k].sight.now >= grace)
    || ((forall k: nat :: !FirstDown(checks, k)) && grace <= 0.0)
  }

  /** A dead API fails at once; the path down fails when it is overdue; nothing else fails. */
  ghost predicate Fails(checks: seq<Check>, c: Check, grace: real) {
    c.sight == ApiDown || (c.sight.NotReady? && Overdue(checks, c.sight.now, grace))
  }

  /**
   The exact account of "unhealthy", for any history and any state file: a check fails exactly
   when it finds the API dead, or the path down and the first sighting noted since the timer
   was last cleared at least the grace period old.
   */
  lemma UnhealthyIff(checks: seq<Check>, c: Check, grace: real)
    ensures ExitCode(TimerAfter(checks), c, grace) == if Fails(checks, c, grace) then 1 else 0
  {
    var k := TimerIsFirstDown(checks);
    forall j: nat | FirstDown(checks, j) ensures TimerAfter(checks).Some? && j == k {
      assert !ClearBetween(checks, j, |checks|);
      FirstDownIsUnique(checks, j, k);
    }
  }

  /** Invocation after invocation, with only the state file between them. */
  method RunChecks(timer: Timer, checks: seq<Check>, grace: real) returns (codes: seq<int>)
    requires timer.downSince == None
    modifies timer
    ensures timer.downSince == TimerAfter(checks) && |codes| == |checks|
    ensures forall k :: 0 <= k < |checks| ==> codes[k] == if Fails(checks[..k], checks[k], grace) then 1 else 0
  {
    codes := [];
    var i := 0;
    while i < |checks|
      invariant 0 <= i <= |checks| && |codes| == i && timer.downSince == TimerAfter(checks[..i])
      invariant forall k :: 0 <= k < i ==> codes[k] == if Fails(checks[..k], checks[k], grace) then 1 else 0
    {
      assert checks[..i + 1][..i] == checks[..i];
      UnhealthyIff(checks[..i], checks[i], grace);
      var code := timer.RunCheck(checks[i], grace);
      codes := codes + [code];
      i := i + 1;
    }
    assert checks[..i] == checks;
  }

  /** The clock of the sightings never runs backwards, and all are at or after the given time. */
  ghost predicate NotBefore(checks: seq<Check>, time: real) {
    forall k :: 0 <= k < |checks| && checks[k].sight.NotReady? ==> checks[k].sight.now >= time
  }

  function TimerFrom(downSince: Option<real>, checks: seq<Check>): Option<real>
    decreases |checks|
  {
    if checks == [] then downSince else Next(TimerFrom(downSince, checks[..|checks| - 1]), checks[|checks| - 1])
  }

  lemma {:induction false} TimerStands(since: real, checks: seq<Check>)
    requires forall k :: 0 <= k < |checks| ==> !Clears(checks[k])
    ensures TimerFrom(Some(since), checks) == Some(since)
    decreases |checks|
  {
    if checks != [] {
      TimerStands(since, checks[..|checks| - 1]);
    }
  }

  /**
   Unhealthy is not a flicker: with a clock that does not run backwards, once a check has found
   the path down too long, every later one that finds it down fails too, until one finds it ready or off.
   */
  lemma UnhealthyStays(downSince: Option<real>, c: Check, more: seq<Check>, d: Check, grace: real)
    requires c.sight.NotReady? && d.sight.NotReady? && (c.fileWorks || downSince.Some?)
    requires NotBefore(more + [d], c.sight.now)
    requires forall k :: 0 <= k < |more| ==> !Clears(more[k])
    requires ExitCode(downSince, c, grace) == 1
    ensures ExitCode(TimerFrom(Next(downSince, c), more), d, grace) == 1
  {
    TimerStands(Next(downSince, c).value, more);
    assert (more + [d])[|more|] == d;
  }
}
