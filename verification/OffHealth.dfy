/**
 Off mode as the container health check sees it: the session loop of `main.py` leaves a
 sentinel file, and the checks of `docker/healthcheck.py` that run beside it honour it.
 */
module OffHealth {
  import opened Wrappers
  import opened SessionLoop
  import opened Healthcheck

  /** What a check finds during a pass: the sentinel comes before anything else. */
  function Seen(e: Entry, c: Check): Check {
    if e.sentinel then c.(sight := Off) else c
  }

  function SeenAll(e: Entry, checks: seq<Check>): seq<Check> {
    seq(|checks|, i requires 0 <= i < |checks| => Seen(e, checks[i]))
  }

  /** All that the checks saw in the first n passes; `probes` says what they would have found without the sentinel. */
  function ChecksUpTo(log: seq<Entry>, probes: seq<seq<Check>>, n: nat): seq<Check>
    requires n <= |log| == |probes|
  {
    if n == 0 then [] else ChecksUpTo(log, probes, n - 1) + SeenAll(log[n - 1], probes[n - 1])
  }

  /** A check in pass k is held healthy by the sentinel exactly if that was left standing by then. */
  lemma MaskedIff(config: SessionLoop.Config, s: Loop, passes: seq<Pass>, k: nat, c: Check)
    requires k < |passes| && c.sight != Off
    ensures Seen(Log(config, s, passes)[k], c).sight == Off
       <==> LeftStanding(Log(config, s, passes[..k + 1]), passes[..k + 1], s.sentinel)
  {
    var upTo := passes[..k + 1];
    assert upTo[..k] == passes[..k];
    LogAt(config, s, passes, k);
    SentinelStandsIff(config, s, upTo);
  }

  /** Behind the sentinel even a dead API is healthy; without it, it fails at once, whatever the timer says. */
  lemma DeadApi(config: SessionLoop.Config, s: Loop, passes: seq<Pass>, k: nat, c: Check,
                downSince: Option<real>, grace: real)
    requires k < |passes| && c.sight == ApiDown
    ensures ExitCode(downSince, Seen(Log(config, s, passes)[k], c), grace)
         == if LeftStanding(Log(config, s, passes[..k + 1]), passes[..k + 1], s.sentinel) then 0 else 1
  {
    MaskedIff(config, s, passes, k, c);
  }

  lemma {:induction false} ChecksGrow(log: seq<Entry>, probes: seq<seq<Check>>, k: nat, n: nat)
    requires k <= n <= |log| == |probes|
    ensures ChecksUpTo(log, probes, k) <= ChecksUpTo(log, probes, n)
    decreases n
  {
    if k < n {
      ChecksGrow(log, probes, k, n - 1);
    }
  }

  /** Where the last check of pass k stands among all checks. */
  lemma LastCheckOf(log: seq<Entry>, probes: seq<seq<Check>>, k: nat)
    requires k < |log| == |probes| && probes[k] != []
    ensures var all, i := ChecksUpTo(log, probes, |log|), |ChecksUpTo(log, probes, k + 1)| - 1;
            0 <= i < |all| && all[i] == Seen(log[k], probes[k][|probes[k]| - 1])
  {
    ChecksGrow(log, probes, k + 1, |log|);
  }

  /** Nothing is left of the timer behind a pass whose last check ran under the sentinel. */
  lemma OffClearsTimer(log: seq<Entry>, probes: seq<seq<Check>>, k: nat)
    requires k < |log| == |probes| && probes[k] != [] && log[k].sentinel
    requires probes[k][|probes[k]| - 1].fileWorks
    ensures TimerAfter(ChecksUpTo(log, probes, k + 1)) == None
  {
    var checks, last := ChecksUpTo(log, probes, k + 1), probes[k][|probes[k]| - 1];
    assert checks[|checks| - 1] == Seen(log[k], last);
  }

  /**
   No check fails in an off pass whose sentinel could be created, whatever the timer holds and
   the path does; and the last one leaves no timer behind, if its file works.
   */
  lemma OffIsHealthy(config: SessionLoop.Config, s: Loop, passes: seq<Pass>, probes: seq<seq<Check>>, k: nat,
                     grace: real)
    requires k < |passes| == |probes|
    requires !IsSession(Log(config, s, passes)[k].kind) && passes[k].sentinelOp != NotBegun
    ensures var log := Log(config, s, passes);
            && (forall c, downSince :: ExitCode(downSince, Seen(log[k], c), grace) == 0)
            && (probes[k] != [] && probes[k][|probes[k]| - 1].fileWorks ==>
                  TimerAfter(ChecksUpTo(log, probes, k + 1)) == None)
  {
    var log := Log(config, s, passes);
    LogAt(config, s, passes, k);
    EntrySentinel(config, Run(config, s, passes[..k]), passes[k]);
    if probes[k] != [] && probes[k][|probes[k]| - 1].fileWorks {
      OffClearsTimer(log, probes, k);
    }
  }

  /**
   The grace period starts anew behind off mode: when a later check fails with the API alive, the
   path was first seen down after the checks that ran under the sentinel, and at least the grace
   period ago.
   */
  lemma GraceBehindOff(log: seq<Entry>, probes: seq<seq<Check>>, k: nat, c: Check, grace: real) returns (j: nat)
    requires k < |log| == |probes| && probes[k] != [] && log[k].sentinel && probes[k][|probes[k]| - 1].fileWorks
    requires c.sight != ApiDown && ExitCode(TimerAfter(ChecksUpTo(log, probes, |log|)), c, grace) == 1
    ensures var all := ChecksUpTo(log, probes, |log|) + [c];
            && |ChecksUpTo(log, probes, k + 1)| <= j < |all|
            && all[j].sight.NotReady? && c.sight.NotReady? && c.sight.now - all[j].sight.now >= grace
  {
    var checks := ChecksUpTo(log, probes, |log|);
    UnhealthyIff(checks, c, grace);
    LastCheckOf(log, probes, k);
    var i := |ChecksUpTo(log, probes, k + 1)| - 1;
    assert Clears(checks[i]);
    if j' :| 0 <= j' && FirstDown(checks, j') && c.sight.now - checks[j'].sight.now >= grace {
      j := j';
    } else {
      j := |checks|;
    }
  }

  /** A stretch of checks that all find the path down and can note it. */
  ghost predicate AllDown(checks: seq<Check>) {
    forall k :: 0 <= k < |checks| ==> Notes(checks[k])
  }

  /**
   And it ends on time: a path that is down from the first check behind a cleared timer on fails
   the first check that comes the grace period later, and none before.
   */
  lemma GraceIsExact(before: seq<Check>, clear: Check, down: seq<Check>, c: Check, grace: real)
    requires Clears(clear) && AllDown(down) && c.sight.NotReady?
    ensures var first := if down == [] then c else down[0];
            first.sight.NotReady?
            && (ExitCode(TimerAfter(before + [clear] + down), c, grace) == 1
                <==> c.sight.now - first.sight.now >= grace)
  {
    var checks, n := before + [clear] + down, |before| + 1;
    UnhealthyIff(checks, c, grace);
    if down == [] {
      assert Clears(checks[n - 1]);
      forall j: nat ensures !FirstDown(checks, j) {
      }
    } else {
      FirstBehindClear(before, clear, down);
      assert checks[n] == down[0];
      forall j: nat | FirstDown(checks, j) ensures j == n {
        FirstDownIsUnique(checks, j, n);
      }
    }
  }

  lemma FirstBehindClear(before: seq<Check>, clear: Check, down: seq<Check>)
    requires Clears(clear) && AllDown(down) && down != []
    ensures FirstDown(before + [clear] + down, |before| + 1)
  {
    var all, first := before + [clear] + down, |before| + 1;
    assert Clears(all[first - 1]);
    forall j | first <= j < |all| ensures Notes(all[j]) {
      assert all[j] == down[j - first];
    }
    forall j | 0 <= j < first && Notes(all[j]) ensures ClearBetween(all, j, first) {
      assert j < first - 1;
    }
  }
}
