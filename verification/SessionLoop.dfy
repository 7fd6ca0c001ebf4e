/**
 The session loop of `main.py`: sessions with a back-off ladder, off mode with its
 sentinel file and entry poll, and pauses that a mode change cuts short.
 */
module SessionLoop {
  import opened MqttMode

  const SESSION_OK_SECONDS := 60.0

  const BACKOFF_SCHEDULE: seq<nat> := [2, 10, 30, 60, 120, 300]

  datatype Outcome = Ended | Failed | Offline

  /** What becomes of writing or removing the sentinel: a write may break off once the file is there. */
  datatype FileOp = Done | NotBegun | BrokenOff

  /**
   How the outside world behaves during one pass of the loop: what becomes of the operation
   on the sentinel file, which mode messages arrive while the pass works (a session,
   or a state poll) and while it pauses, and how long both take.
   */
  datatype Pass = Pass(
    sentinelOp: FileOp,
    polled: bool,
    outcome: Outcome,
    worked: seq<Arrival>,
    elapsed: real,
    paused: seq<Arrival>,
    slept: real)

  datatype Kind = OffRetry | OffSteady | OfflineSession | ShortSession | LongSession

  /** What the loop did in a pass. */
  datatype Entry = Entry(kind: Kind, delay: nat, sentinel: bool)

  /** `sentinel` says whether the sentinel file exists. */
  datatype Loop = Loop(mode: Mode, failures: nat, wasOff: bool, sentinel: bool)

  datatype Config = Config(offPollSeconds: int)

  function Ladder(failures: nat): (delay: nat)
    ensures delay <= 300
  {
    BACKOFF_SCHEDULE[if failures < 5 then failures else 5]
  }

  /** The steady cadence of off mode. */
  function Cadence(config: Config): nat {
    if config.offPollSeconds > 0 then config.offPollSeconds else BACKOFF_SCHEDULE[5]
  }

  /** Whether the sentinel exists after it was to be written (`active`) or removed. */
  predicate SentinelAfter(present: bool, active: bool, op: FileOp) {
    if active then present || op != NotBegun else present && op != Done
  }

  /** What a pass does, given the state at its top. */
  function EntryOf(config: Config, s: Loop, p: Pass): Entry {
    var sentinel := SentinelAfter(s.sentinel, s.mode == OFF, p.sentinelOp);
    if s.mode == OFF then
      if s.wasOff || p.polled then Entry(OffSteady, Cadence(config), sentinel)
      else Entry(OffRetry, BACKOFF_SCHEDULE[0], sentinel)
    else
      if p.outcome == Offline then Entry(OfflineSession, BACKOFF_SCHEDULE[5], sentinel)
      else if p.elapsed >= SESSION_OK_SECONDS then Entry(LongSession, BACKOFF_SCHEDULE[0], sentinel)
      else Entry(ShortSession, Ladder(s.failures), sentinel)
  }

  function Next(config: Config, s: Loop, p: Pass): Loop {
    var e := EntryOf(config, s, p);
    Loop(ModeAfter(ModeAfter(s.mode, p.worked), p.paused),
         match e.kind case ShortSession => s.failures + 1 case LongSession => 0 case _ => s.failures,
         e.kind == OffSteady,
         e.sentinel)
  }

  function Run(config: Config, s: Loop, passes: seq<Pass>): Loop
    decreases |passes|
  {
    if passes == [] then s else Next(config, Run(config, s, passes[..|passes| - 1]), passes[|passes| - 1])
  }

  function Log(config: Config, s: Loop, passes: seq<Pass>): (log: seq<Entry>)
    ensures |log| == |passes|
    decreases |passes|
  {
    if passes == [] then []
    else
      var before := passes[..|passes| - 1];
      Log(config, s, before) + [EntryOf(config, Run(config, s, before), passes[|passes| - 1])]
  }

  /** The body of the loop in `main`. */
  method OnePass(config: Config, mqtt: MqttControl, failures: nat, wasOff: bool, sentinel: bool, p: Pass)
    returns (entry: Entry, failures': nat, wasOff': bool, sentinel': bool)
    modifies mqtt
    ensures var s := Loop(old(mqtt.mode), failures, wasOff, sentinel);
            entry == EntryOf(config, s, p) && Loop(mqtt.mode, failures', wasOff', sentinel') == Next(config, s, p)
  {
    failures', wasOff' := failures, wasOff;
    var kind, delay;
    if mqtt.mode == OFF {
      sentinel' := SetOffSentinel(sentinel, true, p.sentinelOp);
      HandleAll(mqtt, p.worked);
      kind, delay := OffSteady, if config.offPollSeconds > 0 then config.offPollSeconds else BACKOFF_SCHEDULE[5];
      if !wasOff {
        if p.polled {
          wasOff' := true;
        } else {
          kind, delay := OffRetry, BACKOFF_SCHEDULE[0];
        }
      }
    } else {
      sentinel' := SetOffSentinel(sentinel, false, p.sentinelOp);
      wasOff' := false;
      HandleAll(mqtt, p.worked);
      if p.outcome == Offline {
        kind, delay := OfflineSession, BACKOFF_SCHEDULE[5];
      } else if p.elapsed >= SESSION_OK_SECONDS {
        failures' := 0;
        kind, delay := LongSession, BACKOFF_SCHEDULE[0];
      } else {
        var idx := if failures < |BACKOFF_SCHEDULE| - 1 then failures else |BACKOFF_SCHEDULE| - 1;
        kind, delay := ShortSession, BACKOFF_SCHEDULE[idx];
        failures' := failures + 1;
      }
    }
    entry := Entry(kind, delay, sentinel');
    var interrupted := mqtt.SleepUntilModeChange(delay as real, p.paused);
  }

  /** The loop of `main`, for as many passes as the outside world grants. */
  method RunSessions(config: Config, mqtt: MqttControl, sentinelAtBoot: bool, passes: seq<Pass>)
    returns (log: seq<Entry>, consecutiveFailures: nat, wasOff: bool, sentinel: bool)
    modifies mqtt
    ensures var boot := Loop(old(mqtt.mode), 0, false, sentinelAtBoot);
            && log == Log(config, boot, passes)
            && Loop(mqtt.mode, consecutiveFailures, wasOff, sentinel) == Run(config, boot, passes)
  {
    log, consecutiveFailures, wasOff, sentinel := [], 0, false, sentinelAtBoot;
    ghost var boot := Loop(mqtt.mode, 0, false, sentinelAtBoot);
    var i := 0;
    while i < |passes|
      invariant 0 <= i <= |passes|
      invariant log == Log(config, boot, passes[..i])
      invariant Loop(mqtt.mode, consecutiveFailures, wasOff, sentinel) == Run(config, boot, passes[..i])
    {
      assert passes[..i + 1][..i] == passes[..i];
      var entry;
      entry, consecutiveFailures, wasOff, sentinel :=
        OnePass(config, mqtt, consecutiveFailures, wasOff, sentinel, passes[i]);
      log := log + [entry];
      i := i + 1;
    }
    assert passes[..i] == passes;
  }

  /** `_set_off_sentinel`: opening the file creates it, whether or not the write goes through. */
  method SetOffSentinel(present: bool, active: bool, op: FileOp) returns (now: bool)
    ensures now == SentinelAfter(present, active, op)
  {
    now := present;
    if active {
      match op
      case Done => now := true;
      case BrokenOff => now := true;
      case NotBegun =>
    } else if op == Done {
      now := false;
    }
  }

  /** Mode messages that arrive while nothing pauses for them. */
  method HandleAll(mqtt: MqttControl, arrivals: seq<Arrival>)
    modifies mqtt
    ensures mqtt.mode == ModeAfter(old(mqtt.mode), arrivals)
  {
    var i := 0;
    while i < |arrivals|
      invariant 0 <= i <= |arrivals|
      invariant mqtt.mode == ModeAfter(old(mqtt.mode), arrivals[..i])
    {
      assert arrivals[..i + 1][..i] == arrivals[..i];
      mqtt.ApplyMode(arrivals[i]);
      i := i + 1;
    }
    assert arrivals[..i] == arrivals;
  }

  // ---- How fast the loop can try ----

  /** A pass takes time, and its pause the full delay unless a message in it changes the mode. */
  ghost predicate TakesItsTime(config: Config, s: Loop, p: Pass) {
    && p.elapsed >= 0.0 && p.slept >= 0.0
    && (Changes(ModeAfter(s.mode, p.worked), p.paused) == 0 ==> p.slept >= EntryOf(config, s, p).delay as real)
  }

  ghost predicate TakeTheirTime(config: Config, s: Loop, passes: seq<Pass>)
    decreases |passes|
  {
    passes != [] ==>
      var before := passes[..|passes| - 1];
      TakeTheirTime(config, s, before) && TakesItsTime(config, Run(config, s, before), passes[|passes| - 1])
  }

  function TimeTaken(passes: seq<Pass>): real
    decreases |passes|
  {
    if passes == [] then 0.0
    else TimeTaken(passes[..|passes| - 1]) + passes[|passes| - 1].elapsed + passes[|passes| - 1].slept
  }

  function RealChanges(mode: Mode, passes: seq<Pass>): nat
    decreases |passes|
  {
    if passes == [] then 0
    else
      var before, p := passes[..|passes| - 1], passes[|passes| - 1];
      var top := ModeThrough(mode, before);
      RealChanges(mode, before) + Changes(top, p.worked) + Changes(ModeAfter(top, p.worked), p.paused)
  }

  function ModeThrough(mode: Mode, passes: seq<Pass>): Mode
    decreases |passes|
  {
    if passes == [] then mode
    else
      var p := passes[|passes| - 1];
      ModeAfter(ModeAfter(ModeThrough(mode, passes[..|passes| - 1]), p.worked), p.paused)
  }

  function ShortSessions(log: seq<Entry>): nat
    decreases |log|
  {
    if log == [] then 0 else ShortSessions(log[..|log| - 1]) + if log[|log| - 1].kind == ShortSession then 1 else 0
  }

  /** The sum of the ladder's first n delays. */
  function LadderSum(n: nat): nat {
    if n == 0 then 0 else LadderSum(n - 1) + Ladder(n - 1)
  }

  lemma {:induction false} LadderSumFrom5(n: nat)
    requires n >= 5
    ensures LadderSum(n) == 222 + 300 * (n - 5)
    decreases n
  {
    if n > 5 {
      LadderSumFrom5(n - 1);
    } else {
      assert LadderSum(1) == 2 && LadderSum(2) == 12 && LadderSum(3) == 42 && LadderSum(4) == 102;
    }
  }

  lemma {:induction false} RunMode(config: Config, s: Loop, passes: seq<Pass>)
    ensures Run(config, s, passes).mode == ModeThrough(s.mode, passes)
    decreases |passes|
  {
    if passes != [] {
      RunMode(config, s, passes[..|passes| - 1]);
    }
  }

  /** Without a long session the ladder counts the short ones; offline and off-mode passes leave it alone. */
  lemma {:induction false} LadderCountsShortSessions(config: Config, s: Loop, passes: seq<Pass>)
    requires forall k :: 0 <= k < |passes| ==> Log(config, s, passes)[k].kind != LongSession
    ensures Run(config, s, passes).failures == s.failures + ShortSessions(Log(config, s, passes))
    decreases |passes|
  {
    if passes != [] {
      var before, log := passes[..|passes| - 1], Log(config, s, passes);
      assert log[..|log| - 1] == Log(config, s, before) && log[|log| - 1].kind != LongSession;
      NoLongBefore(config, s, passes);
      LadderCountsShortSessions(config, s, before);
    }
  }

  /** What a pass adds to the rungs climbed. */
  function Rung(config: Config, s: Loop, p: Pass): nat {
    if EntryOf(config, s, p).kind == ShortSession then Ladder(s.failures) else 0
  }

  /** One pass: a short session costs its rung of the ladder, but for 300 seconds if the mode changes in its pause. */
  lemma PassTakesTime(config: Config, s: Loop, p: Pass)
    requires TakesItsTime(config, s, p)
    ensures Pays(p.elapsed + p.slept, Rung(config, s, p), Changes(ModeAfter(s.mode, p.worked), p.paused))
  {
    var changes := Changes(ModeAfter(s.mode, p.worked), p.paused);
    if changes > 0 {
      assert 300 <= 300 * changes;
    }
  }

  /** A time that pays for so many seconds of pauses, but for 300 per change. */
  predicate Pays(time: real, rungs: int, changes: int) {
    time >= (rungs - 300 * changes) as real
  }

  lemma PayOn(time: real, more: real, rungs: int, rung: int, before: int, now: int, after: int)
    requires Pays(time, rungs, before) && Pays(more, rung, now) && after >= before + now
    ensures Pays(time + more, rungs + rung, after)
  {
  }

  lemma NoLongBefore(config: Config, s: Loop, passes: seq<Pass>)
    requires passes != [] && forall k :: 0 <= k < |passes| ==> Log(config, s, passes)[k].kind != LongSession
    ensures var before := passes[..|passes| - 1];
            forall k :: 0 <= k < |before| ==> Log(config, s, before)[k].kind != LongSession
  {
    var before, log := passes[..|passes| - 1], Log(config, s, passes);
    assert log[..|log| - 1] == Log(config, s, before);
    forall k | 0 <= k < |before| ensures Log(config, s, before)[k].kind != LongSession {
      assert log[k] == Log(config, s, before)[k];
    }
  }

  lemma ShortSessionsStep(config: Config, s: Loop, passes: seq<Pass>)
    requires passes != []
    ensures var before, p := passes[..|passes| - 1], passes[|passes| - 1];
            ShortSessions(Log(config, s, passes))
            == ShortSessions(Log(config, s, before))
               + if EntryOf(config, Run(config, s, before), p).kind == ShortSession then 1 else 0
  {
    var log := Log(config, s, passes);
    assert log[..|log| - 1] == Log(config, s, passes[..|passes| - 1]);
  }

  lemma RealChangesStep(config: Config, s: Loop, passes: seq<Pass>)
    requires passes != []
    ensures var before, p := passes[..|passes| - 1], passes[|passes| - 1];
            RealChanges(s.mode, passes)
            >= RealChanges(s.mode, before) + Changes(ModeAfter(Run(config, s, before).mode, p.worked), p.paused)
  {
    RunMode(config, s, passes[..|passes| - 1]);
  }

  /** Each short session costs its rung of the ladder in time, but for at most 300 seconds per real mode change. */
  lemma {:induction false} LadderTakesTime(config: Config, s: Loop, passes: seq<Pass>)
    requires s.failures == 0 && TakeTheirTime(config, s, passes)
    requires forall k :: 0 <= k < |passes| ==> Log(config, s, passes)[k].kind != LongSession
    ensures Pays(TimeTaken(passes), LadderSum(ShortSessions(Log(config, s, passes))), RealChanges(s.mode, passes))
    decreases |passes|
  {
    if passes != [] {
      NoLongBefore(config, s, passes);
      LadderTakesTime(config, s, passes[..|passes| - 1]);
      LadderCountsShortSessions(config, s, passes[..|passes| - 1]);
      LadderTimeStep(config, s, passes);
    }
  }

  lemma RungAdded(config: Config, s: Loop, p: Pass, n: nat, after: nat)
    requires s.failures == n && after == n + if EntryOf(config, s, p).kind == ShortSession then 1 else 0
    ensures LadderSum(after) == LadderSum(n) + Rung(config, s, p)
  {
  }

  lemma RungStep(config: Config, s: Loop, passes: seq<Pass>)
    requires passes != []
    requires var before := passes[..|passes| - 1];
             Run(config, s, before).failures == ShortSessions(Log(config, s, before))
    ensures var before := passes[..|passes| - 1];
            LadderSum(ShortSessions(Log(config, s, passes)))
            == LadderSum(ShortSessions(Log(config, s, before))) + Rung(config, Run(config, s, before), passes[|before|])
  {
    var before := passes[..|passes| - 1];
    ShortSessionsStep(config, s, passes);
    RungAdded(config, Run(config, s, before), passes[|before|],
              ShortSessions(Log(config, s, before)), ShortSessions(Log(config, s, passes)));
  }

  lemma LadderTimeStep(config: Config, s: Loop, passes: seq<Pass>)
    requires passes != []
    requires var before := passes[..|passes| - 1];
             && TakesItsTime(config, Run(config, s, before), passes[|passes| - 1])
             && Run(config, s, before).failures == ShortSessions(Log(config, s, before))
             && Pays(TimeTaken(before), LadderSum(ShortSessions(Log(config, s, before))), RealChanges(s.mode, before))
    ensures Pays(TimeTaken(passes), LadderSum(ShortSessions(Log(config, s, passes))), RealChanges(s.mode, passes))
  {
    var before, p := passes[..|passes| - 1], passes[|passes| - 1];
    var now := Run(config, s, before);
    PassTakesTime(config, now, p);
    RungStep(config, s, passes);
    RealChangesStep(config, s, passes);
    PayOn(TimeTaken(before), p.elapsed + p.slept,
          LadderSum(ShortSessions(Log(config, s, before))), Rung(config, now, p),
          RealChanges(s.mode, before), Changes(ModeAfter(now.mode, p.worked), p.paused), RealChanges(s.mode, passes));
  }

  // ---- Off mode ----

  predicate IsSession(kind: Kind) {
    kind in {OfflineSession, ShortSession, LongSession}
  }

  lemma LogLast(config: Config, s: Loop, passes: seq<Pass>, n: nat)
    requires |passes| == n + 1
    ensures Log(config, s, passes)[n] == EntryOf(config, Run(config, s, passes[..n]), passes[n])
  {
  }

  lemma LogBefore(config: Config, s: Loop, passes: seq<Pass>, n: nat, k: nat)
    requires k < n && |passes| == n + 1
    ensures Log(config, s, passes)[k] == Log(config, s, passes[..n])[k]
  {
    assert |Log(config, s, passes[..n])| == n;
  }

  lemma PrefixAt<T>(s: seq<T>, n: nat, k: nat)
    requires k < n <= |s|
    ensures s[..n][..k] == s[..k] && s[..n][k] == s[k]
  {
  }

  lemma LogAtStep(config: Config, s: Loop, passes: seq<Pass>, n: nat, k: nat)
    requires k < n && |passes| == n + 1
    requires Log(config, s, passes[..n])[k] == EntryOf(config, Run(config, s, passes[..n][..k]), passes[..n][k])
    ensures Log(config, s, passes)[k] == EntryOf(config, Run(config, s, passes[..k]), passes[k])
  {
    LogBefore(config, s, passes, n, k);
    PrefixAt(passes, n, k);
  }

  lemma {:induction false} LogAt(config: Config, s: Loop, passes: seq<Pass>, k: nat)
    requires k < |passes|
    ensures Log(config, s, passes)[k] == EntryOf(config, Run(config, s, passes[..k]), passes[k])
    decreases |passes|
  {
    var n := |passes| - 1;
    if k < n {
      LogAt(config, s, passes[..n], k);
      LogAtStep(config, s, passes, n, k);
    } else {
      LogLast(config, s, passes, k);
    }
  }

  predicate Creates(e: Entry, p: Pass) {
    !IsSession(e.kind) && p.sentinelOp != NotBegun
  }

  predicate Removes(e: Entry, p: Pass) {
    IsSession(e.kind) && p.sentinelOp == Done
  }

  ghost predicate NoneRemoves(log: seq<Entry>, passes: seq<Pass>, from: nat)
    requires |log| == |passes|
  {
    forall i :: from <= i < |log| ==> !Removes(log[i], passes[i])
  }

  /** Pass j wrote the sentinel, and no session has removed it since. */
  ghost predicate LeftBy(log: seq<Entry>, passes: seq<Pass>, j: nat)
    requires |log| == |passes|
  {
    j < |log| && Creates(log[j], passes[j]) && NoneRemoves(log, passes, j + 1)
  }

  /** Some off pass wrote the sentinel, or it was there at the start, and no session has removed it since. */
  ghost predicate LeftStanding(log: seq<Entry>, passes: seq<Pass>, atStart: bool)
    requires |log| == |passes|
  {
    (atStart && NoneRemoves(log, passes, 0)) || exists j: nat :: LeftBy(log, passes, j)
  }

  lemma EntrySentinel(config: Config, s: Loop, p: Pass)
    ensures var e := EntryOf(config, s, p);
            && (IsSession(e.kind) <==> s.mode != OFF)
            && (e.sentinel <==> Creates(e, p) || (s.sentinel && !Removes(e, p)))
  {
  }

  lemma NoneRemovesLast(log: seq<Entry>, passes: seq<Pass>, from: nat)
    requires |log| == |passes| && from < |log|
    ensures NoneRemoves(log, passes, from)
       <==> NoneRemoves(log[..|log| - 1], passes[..|log| - 1], from) && !Removes(log[|log| - 1], passes[|log| - 1])
  {
    var n := |log| - 1;
    assert forall i :: 0 <= i < n ==> log[..n][i] == log[i] && passes[..n][i] == passes[i];
  }

  lemma LeftByLast(log: seq<Entry>, passes: seq<Pass>, j: nat)
    requires |log| == |passes| > 0
    ensures var n := |log| - 1;
            LeftBy(log, passes, j)
            <==> if j == n then Creates(log[n], passes[n])
                 else LeftBy(log[..n], passes[..n], j) && !Removes(log[n], passes[n])
  {
    if j < |log| - 1 {
      NoneRemovesLast(log, passes, j + 1);
    }
  }

  lemma LeftStandingLast(log: seq<Entry>, passes: seq<Pass>, atStart: bool)
    requires |log| == |passes| > 0
    ensures var e, p := log[|log| - 1], passes[|log| - 1];
            LeftStanding(log, passes, atStart)
            <==> Creates(e, p) || (LeftStanding(log[..|log| - 1], passes[..|log| - 1], atStart) && !Removes(e, p))
  {
    var n := |log| - 1;
    NoneRemovesLast(log, passes, 0);
    LeftByLast(log, passes, n);
    forall j: nat | j != n
      ensures LeftBy(log, passes, j) <==> LeftBy(log[..n], passes[..n], j) && !Removes(log[n], passes[n])
    {
      LeftByLast(log, passes, j);
    }
  }

  /** After any run the sentinel exists exactly if it was left standing. */
  lemma {:induction false} SentinelStandsIff(config: Config, s: Loop, passes: seq<Pass>)
    ensures Run(config, s, passes).sentinel <==> LeftStanding(Log(config, s, passes), passes, s.sentinel)
    decreases |passes|
  {
    if passes != [] {
      var n := |passes| - 1;
      SentinelStandsIff(config, s, passes[..n]);
      EntrySentinel(config, Run(config, s, passes[..n]), passes[n]);
      LeftStandingLast(Log(config, s, passes), passes, s.sentinel);
      assert Log(config, s, passes)[..n] == Log(config, s, passes[..n]);
    }
  }
}
