/**
 What the session loop does over whole runs, told by the passes alone: what happened in
 them, how long it took, and what the mode was at the top of each.
 */
module SessionRuns {
  import opened MqttMode
  import opened SessionLoop

  /** The mode at the top of pass k. */
  function TopMode(mode: Mode, passes: seq<Pass>, k: nat): Mode
    requires k <= |passes|
  {
    ModeThrough(mode, passes[..k])
  }

  /** A session that the camera was there for and that did not last a minute. */
  predicate IsShort(mode: Mode, p: Pass) {
    mode != "off" && p.outcome != Offline && p.elapsed < 60.0
  }

  predicate IsLong(mode: Mode, p: Pass) {
    mode != "off" && p.outcome != Offline && p.elapsed >= 60.0
  }

  lemma KindOf(config: Config, s: Loop, p: Pass)
    ensures var e := EntryOf(config, s, p);
            && (e.kind == OfflineSession <==> s.mode != "off" && p.outcome == Offline)
            && (e.kind == LongSession <==> IsLong(s.mode, p))
            && (e.kind == ShortSession <==> IsShort(s.mode, p))
  {
  }

  /** What a pass counts as depends on the mode at its top, its outcome and its length only. */
  lemma KindOfPass(config: Config, s: Loop, passes: seq<Pass>, k: nat)
    requires k < |passes|
    ensures var e, p, off := Log(config, s, passes)[k], passes[k], TopMode(s.mode, passes, k) == "off";
            && (e.kind == OfflineSession <==> !off && p.outcome == Offline)
            && (e.kind == LongSession <==> !off && p.outcome != Offline && p.elapsed >= 60.0)
            && (e.kind == ShortSession <==> !off && p.outcome != Offline && p.elapsed < 60.0)
            && (e.kind in {OffRetry, OffSteady} <==> off)
  {
    LogAt(config, s, passes, k);
    RunMode(config, s, passes[..k]);
    KindOf(config, Run(config, s, passes[..k]), passes[k]);
  }

  // ---- The ladder ----

  /** Short sessions since the last long one. */
  function ShortSince(mode: Mode, passes: seq<Pass>): nat
    decreases |passes|
  {
    if passes == [] then 0
    else
      var before, p := passes[..|passes| - 1], passes[|passes| - 1];
      var top := ModeThrough(mode, before);
      if IsLong(top, p) then 0 else ShortSince(mode, before) + if IsShort(top, p) then 1 else 0
  }

  lemma {:induction false} FailuresAreShortSince(config: Config, s: Loop, passes: seq<Pass>)
    requires s.failures == 0
    ensures Run(config, s, passes).failures == ShortSince(s.mode, passes)
    decreases |passes|
  {
    if passes != [] {
      var before, p := passes[..|passes| - 1], passes[|passes| - 1];
      FailuresAreShortSince(config, s, before);
      RunMode(config, s, before);
      KindOf(config, Run(config, s, before), p);
    }
  }

  lemma DelayOf(config: Config, s: Loop, p: Pass)
    ensures s.mode != "off" ==>
              EntryOf(config, s, p).delay
              == if p.outcome == Offline then 300
                 else if p.elapsed >= 60.0 then 2
                 else if s.failures < 5 then [2, 10, 30, 60, 120][s.failures]
                 else 300
  {
  }

  /**
   How long the loop pauses after a session: after a short one, by the number of short sessions
   since the last long one, whatever offline and off-mode passes lie between.
   */
  lemma PauseAfterSession(config: Config, s: Loop, passes: seq<Pass>, k: nat)
    requires k < |passes| && s.failures == 0 && TopMode(s.mode, passes, k) != "off"
    ensures var p, tries := passes[k], ShortSince(s.mode, passes[..k]);
            Log(config, s, passes)[k].delay
            == if p.outcome == Offline then 300
               else if p.elapsed >= 60.0 then 2
               else if tries < 5 then [2, 10, 30, 60, 120][tries]
               else 300
  {
    LogAt(config, s, passes, k);
    RunMode(config, s, passes[..k]);
    FailuresAreShortSince(config, s, passes[..k]);
    DelayOf(config, Run(config, s, passes[..k]), passes[k]);
  }

  // ---- How fast the loop can try ----

  function ShortTries(mode: Mode, passes: seq<Pass>): nat
    decreases |passes|
  {
    if passes == [] then 0
    else
      var before := passes[..|passes| - 1];
      ShortTries(mode, before) + if IsShort(ModeThrough(mode, before), passes[|passes| - 1]) then 1 else 0
  }

  ghost predicate NoneLong(mode: Mode, passes: seq<Pass>) {
    forall k :: 0 <= k < |passes| ==> !IsLong(TopMode(mode, passes, k), passes[k])
  }

  lemma {:induction false} TriesAreShortSessions(config: Config, s: Loop, passes: seq<Pass>)
    ensures ShortTries(s.mode, passes) == ShortSessions(Log(config, s, passes))
    decreases |passes|
  {
    if passes != [] {
      var before, p := passes[..|passes| - 1], passes[|passes| - 1];
      TriesAreShortSessions(config, s, before);
      ShortSessionsStep(config, s, passes);
      RunMode(config, s, before);
      KindOf(config, Run(config, s, before), p);
    }
  }

  /**
   The attempt rate: since boot or the last long session, n sessions of less than a minute (n at
   least 5) with their pauses take at least 222 + 300 (n - 5) seconds, less 300 for every real
   mode change.
   */
  lemma AttemptRate(config: Config, s: Loop, passes: seq<Pass>)
    requires s.failures == 0 && TakeTheirTime(config, s, passes) && NoneLong(s.mode, passes)
    ensures var n, m := ShortTries(s.mode, passes), RealChanges(s.mode, passes);
            n >= 5 ==> TimeTaken(passes) >= (222 + 300 * (n - 5) - 300 * m) as real
  {
    forall k | 0 <= k < |passes| ensures Log(config, s, passes)[k].kind != LongSession {
      KindOfPass(config, s, passes, k);
    }
    LadderTakesTime(config, s, passes);
    TriesAreShortSessions(config, s, passes);
    if ShortTries(s.mode, passes) >= 5 {
      LadderSumFrom5(ShortTries(s.mode, passes));
    }
  }

  // ---- Off mode ----

  /** From pass j on the mode was off at the top of every pass. */
  ghost predicate OffFrom(mode: Mode, passes: seq<Pass>, j: nat) {
    forall i :: j <= i < |passes| ==> TopMode(mode, passes, i) == "off"
  }

  /** Pass j published a poll, and the mode has been off since. */
  ghost predicate PolledAt(mode: Mode, passes: seq<Pass>, j: nat) {
    j < |passes| && passes[j].polled && OffFrom(mode, passes, j)
  }

  /** Some pass of the present stretch of off mode published a poll, or the stretch began with one published. */
  ghost predicate Polled(s: Loop, passes: seq<Pass>) {
    (s.wasOff && OffFrom(s.mode, passes, 0)) || exists j: nat :: PolledAt(s.mode, passes, j)
  }

  lemma OffFromLast(mode: Mode, passes: seq<Pass>, j: nat)
    requires j < |passes|
    ensures var n := |passes| - 1;
            OffFrom(mode, passes, j) <==> OffFrom(mode, passes[..n], j) && TopMode(mode, passes, n) == "off"
  {
    var n := |passes| - 1;
    forall i | 0 <= i < n ensures TopMode(mode, passes, i) == TopMode(mode, passes[..n], i) {
      assert passes[..n][..i] == passes[..i];
    }
  }

  lemma PolledAtLast(mode: Mode, passes: seq<Pass>, j: nat)
    requires passes != []
    ensures var n := |passes| - 1;
            PolledAt(mode, passes, j)
            <==> && TopMode(mode, passes, n) == "off"
                 && if j == n then passes[n].polled else PolledAt(mode, passes[..n], j)
  {
    if j < |passes| {
      OffFromLast(mode, passes, j);
    }
  }

  lemma PolledLast(s: Loop, passes: seq<Pass>)
    requires passes != []
    ensures var n := |passes| - 1;
            Polled(s, passes) <==> TopMode(s.mode, passes, n) == "off" && (passes[n].polled || Polled(s, passes[..n]))
  {
    var n := |passes| - 1;
    OffFromLast(s.mode, passes, 0);
    PolledAtLast(s.mode, passes, n);
    forall j: nat | j != n
      ensures PolledAt(s.mode, passes, j) <==> TopMode(s.mode, passes, n) == "off" && PolledAt(s.mode, passes[..n], j)
    {
      PolledAtLast(s.mode, passes, j);
    }
  }

  lemma {:induction false} LatchedIffPolled(config: Config, s: Loop, passes: seq<Pass>)
    ensures Run(config, s, passes).wasOff <==> Polled(s, passes)
    decreases |passes|
  {
    if passes != [] {
      var n := |passes| - 1;
      LatchedIffPolled(config, s, passes[..n]);
      RunMode(config, s, passes[..n]);
      PolledLast(s, passes);
    }
  }

  /**
   In off mode the loop retries every two seconds until a poll of the present stretch of off mode
   has published, and keeps the configured cadence, or five minutes, from that pass on.
   */
  lemma SteadyIffPolled(config: Config, s: Loop, passes: seq<Pass>, k: nat)
    requires k < |passes| && TopMode(s.mode, passes, k) == "off"
    ensures var e := Log(config, s, passes)[k];
            if Polled(s, passes[..k + 1])
            then e.kind == OffSteady && e.delay == if config.offPollSeconds > 0 then config.offPollSeconds else 300
            else e.kind == OffRetry && e.delay == 2
  {
    LogAt(config, s, passes, k);
    RunMode(config, s, passes[..k]);
    LatchedIffPolled(config, s, passes[..k]);
    PolledLast(s, passes[..k + 1]);
    assert passes[..k + 1][..k] == passes[..k];
  }
}
