/**
 The periodic re-NACK loop of `_aiortc_media_patches.py`: a table of retries per
 missing packet (Generic NACK, section 6.2.1 of RFC 4585), and the history it stands for.
 */
module ReNack {

  /** `missing` is what sorting a set gives. */
  predicate Ascending(missing: seq<int>) {
    forall i, j :: 0 <= i < j < |missing| ==> missing[i] < missing[j]
  }

  function Get(retries: map<int, int>, q: int): int {
    if q in retries then retries[q] else 0
  }

  /** The packets still under the cap, in the order of `missing`. */
  function Requests(retries: map<int, int>, missing: seq<int>, cap: int): seq<int>
    decreases |missing|
  {
    if missing == [] then []
    else
      Requests(retries, missing[..|missing| - 1], cap)
      + var q := missing[|missing| - 1]; if Get(retries, q) < cap then [q] else []
  }

  /** The table a tick leaves behind. */
  function After(retries: map<int, int>, missing: seq<int>, cap: int): map<int, int> {
    map q | q in missing && (q in retries || 0 < cap) ::
      if Get(retries, q) < cap then Get(retries, q) + 1 else Get(retries, q)
  }

  class ReNackLoop {
    const cap: int
    var retries: map<int, int>
    var totalRenacks: nat

    constructor (cap: int)
      ensures this.cap == cap && retries == map[] && totalRenacks == 0
    {
      this.cap, retries, totalRenacks := cap, map[], 0;
    }

    /** One pass of the loop; `active` says whether an SSRC is being received, `delivered` whether the send succeeds. */
    method Tick(missing: seq<int>, active: bool, delivered: bool) returns (toRequest: seq<int>, sent: bool)
      requires Ascending(missing)
      modifies this
      ensures retries == After(old(retries), missing, cap)
      ensures toRequest == Requests(old(retries), missing, cap)
      ensures sent <==> toRequest != [] && active
      ensures totalRenacks == old(totalRenacks) + if sent && delivered then 1 else 0
    {
      toRequest, sent := [], false;
      if missing == [] {
        if retries != map[] {
          retries := map[];
        }
        return;
      }
      DropRecovered(missing);
      ghost var kept := retries;
      toRequest := RequestMissing(missing);
      CountedIsAfter(kept, missing, cap);
      AfterForgets(old(retries), kept, missing, cap);
      RequestsDependOn(kept, old(retries), missing, cap);
      if toRequest == [] || !active {
        return;
      }
      sent := true;
      if delivered {
        totalRenacks := totalRenacks + 1;
      }
    }

    /** Count a request for every missing packet still under the cap. */
    method RequestMissing(missing: seq<int>) returns (toRequest: seq<int>)
      requires Ascending(missing)
      modifies this`retries
      ensures retries == Counted(old(retries), missing, cap)
      ensures toRequest == Requests(old(retries), missing, cap)
    {
      toRequest := [];
      var i := 0;
      ghost var before := retries;
      while i < |missing|
        invariant 0 <= i <= |missing|
        invariant retries == Counted(before, missing[..i], cap)
        invariant toRequest == Requests(before, missing[..i], cap)
      {
        var q := missing[i];
        CountedStep(before, missing, i, cap);
        var count := Get(retries, q);
        if count < cap {
          toRequest := toRequest + [q];
          retries := retries[q := count + 1];
        }
        i := i + 1;
      }
      assert missing[..i] == missing;
    }

    /** Delete the counters of packets that are no longer missing. */
    method DropRecovered(missing: seq<int>)
      modifies this`retries
      ensures IsKept(old(retries), retries, missing)
    {
      var keys := retries.Keys;
      while exists q :: q in keys
        invariant keys <= old(retries).Keys
        invariant forall q :: q in retries <==> q in old(retries) && (q in keys || q in missing)
        invariant forall q :: q in retries ==> retries[q] == old(retries)[q]
        decreases |keys|
      {
        var q :| q in keys;
        keys := keys - {q};
        if q !in missing {
          retries := retries - {q};
        }
      }
    }
  }

  /** The counters after one request for each listed packet that is under the cap. */
  function Counted(m: map<int, int>, missing: seq<int>, cap: int): map<int, int>
    decreases |missing|
  {
    if missing == [] then m
    else
      var c, q := Counted(m, missing[..|missing| - 1], cap), missing[|missing| - 1];
      if Get(c, q) < cap then c[q := Get(c, q) + 1] else c
  }

  lemma {:induction false} CountedElsewhere(m: map<int, int>, missing: seq<int>, q: int, cap: int)
    requires q !in missing
    ensures Get(Counted(m, missing, cap), q) == Get(m, q) && (q in Counted(m, missing, cap) <==> q in m)
    decreases |missing|
  {
    if missing != [] {
      CountedElsewhere(m, missing[..|missing| - 1], q, cap);
    }
  }

  lemma CountedStep(m: map<int, int>, missing: seq<int>, i: nat, cap: int)
    requires i < |missing| && Ascending(missing)
    ensures var q, c := missing[i], Counted(m, missing[..i], cap);
            if Get(c, q) < cap
            then && Counted(m, missing[..i + 1], cap) == c[q := Get(c, q) + 1]
                 && Requests(m, missing[..i + 1], cap) == Requests(m, missing[..i], cap) + [q]
            else && Counted(m, missing[..i + 1], cap) == c
                 && Requests(m, missing[..i + 1], cap) == Requests(m, missing[..i], cap)
  {
    assert missing[..i + 1][..i] == missing[..i];
    CountedElsewhere(m, missing[..i], missing[i], cap);
  }

  /** Each missing packet is counted once. */
  lemma {:induction false} CountedIsAfter(m: map<int, int>, missing: seq<int>, cap: int)
    requires Ascending(missing)
    ensures Counted(m, missing, cap) == m + After(m, missing, cap)
    decreases |missing|
  {
    if missing != [] {
      var n := |missing| - 1;
      CountedIsAfter(m, missing[..n], cap);
      CountedLast(m, missing[..n], missing[n], cap);
      assert missing[..n] + [missing[n]] == missing;
    }
  }

  lemma CountedLast(m: map<int, int>, before: seq<int>, q: int, cap: int)
    requires q !in before && Counted(m, before, cap) == m + After(m, before, cap)
    ensures Counted(m, before + [q], cap) == m + After(m, before + [q], cap)
  {
    assert (before + [q])[..|before|] == before;
    CountedElsewhere(m, before, q, cap);
    AfterOneMore(m, before, q, cap);
  }

  lemma AfterOneMore(m: map<int, int>, before: seq<int>, q: int, cap: int)
    requires q !in before
    ensures Get(m, q) < cap ==> m + After(m, before + [q], cap) == (m + After(m, before, cap))[q := Get(m, q) + 1]
    ensures Get(m, q) >= cap ==> m + After(m, before + [q], cap) == m + After(m, before, cap)
  {
  }

  /** `kept` is m without the counters of packets that are not missing. */
  ghost predicate IsKept(m: map<int, int>, kept: map<int, int>, missing: seq<int>) {
    && (forall q :: q in kept <==> q in m && q in missing)
    && (forall q :: q in kept ==> kept[q] == m[q])
  }

  /** Counters of recovered packets make no difference. */
  lemma AfterForgets(m: map<int, int>, kept: map<int, int>, missing: seq<int>, cap: int)
    requires IsKept(m, kept, missing)
    ensures kept + After(kept, missing, cap) == After(m, missing, cap)
  {
    AfterDependsOn(kept, m, missing, cap);
    var after := After(m, missing, cap);
    assert forall q :: q in kept ==> q in after;
  }

  lemma AfterDependsOn(a: map<int, int>, b: map<int, int>, missing: seq<int>, cap: int)
    requires forall q :: q in missing ==> (q in a <==> q in b) && Get(a, q) == Get(b, q)
    ensures After(a, missing, cap) == After(b, missing, cap)
  {
  }

  lemma {:induction false} RequestsDependOn(a: map<int, int>, b: map<int, int>, missing: seq<int>, cap: int)
    requires forall q :: q in missing ==> Get(a, q) == Get(b, q)
    ensures Requests(a, missing, cap) == Requests(b, missing, cap)
    decreases |missing|
  {
    if missing != [] {
      RequestsDependOn(a, b, missing[..|missing| - 1], cap);
    }
  }

  // ---- The table against history ----

  /** The table after the given ticks, each the list of packets missing then. */
  function Table(ticks: seq<seq<int>>, cap: int): map<int, int>
    decreases |ticks|
  {
    if ticks == [] then map[] else After(Table(ticks[..|ticks| - 1], cap), ticks[|ticks| - 1], cap)
  }

  /** The request lists of the given ticks. */
  function AllRequests(ticks: seq<seq<int>>, cap: int): seq<seq<int>>
    decreases |ticks|
  {
    if ticks == [] then []
    else
      var before := ticks[..|ticks| - 1];
      AllRequests(before, cap) + [Requests(Table(before, cap), ticks[|ticks| - 1], cap)]
  }

  lemma OneMoreTick(ticks: seq<seq<int>>, missing: seq<int>, cap: int)
    ensures Table(ticks + [missing], cap) == After(Table(ticks, cap), missing, cap)
    ensures AllRequests(ticks + [missing], cap) == AllRequests(ticks, cap) + [Requests(Table(ticks, cap), missing, cap)]
  {
    assert (ticks + [missing])[..|ticks|] == ticks;
  }

  /** What one pass of the loop meets: the missing packets, whether an SSRC is received, whether a send succeeds. */
  datatype Pass = Pass(missing: seq<int>, active: bool, delivered: bool)

  /** How many of the request lists, one a pass, were not empty and went out. */
  function SentOut(requests: seq<seq<int>>, passes: seq<Pass>): nat
    requires |requests| <= |passes|
    decreases |requests|
  {
    if requests == [] then 0
    else
      var k := |requests| - 1;
      SentOut(requests[..k], passes) + if requests[k] != [] && passes[k].active && passes[k].delivered then 1 else 0
  }

  lemma OneMoreSent(requests: seq<seq<int>>, toRequest: seq<int>, passes: seq<Pass>)
    requires |requests| < |passes|
    ensures var p := passes[|requests|];
            SentOut(requests + [toRequest], passes)
            == SentOut(requests, passes) + if toRequest != [] && p.active && p.delivered then 1 else 0
  {
    assert (requests + [toRequest])[..|requests|] == requests;
  }

  /** The loop itself, for as many passes as the receiver lives; `ticks` lists what was missing at each. */
  method RunLoop(loop: ReNackLoop, passes: seq<Pass>) returns (requests: seq<seq<int>>, ghost ticks: seq<seq<int>>)
    requires loop.retries == map[] && loop.totalRenacks == 0
    requires forall k :: 0 <= k < |passes| ==> Ascending(passes[k].missing)
    modifies loop
    ensures |ticks| == |passes| && forall k :: 0 <= k < |passes| ==> ticks[k] == passes[k].missing
    ensures loop.retries == Table(ticks, loop.cap) && requests == AllRequests(ticks, loop.cap)
    ensures |requests| == |passes| && loop.totalRenacks == SentOut(requests, passes)
  {
    requests, ticks := [], [];
    var i := 0;
    while i < |passes|
      invariant 0 <= i <= |passes| && |ticks| == i && forall k :: 0 <= k < i ==> ticks[k] == passes[k].missing
      invariant loop.retries == Table(ticks, loop.cap) && requests == AllRequests(ticks, loop.cap)
      invariant |requests| == i && loop.totalRenacks == SentOut(requests, passes)
    {
      var m := passes[i];
      var toRequest, sent := loop.Tick(m.missing, m.active, m.delivered);
      OneMoreTick(ticks, m.missing, loop.cap);
      OneMoreSent(requests, toRequest, passes);
      requests, ticks := requests + [toRequest], ticks + [m.missing];
      i := i + 1;
    }
  }

  /** For how many of the latest ticks in a row a packet has been missing. */
  function Streak(ticks: seq<seq<int>>, q: int): nat
    decreases |ticks|
  {
    if ticks == [] || q !in ticks[|ticks| - 1] then 0 else 1 + Streak(ticks[..|ticks| - 1], q)
  }

  function Capped(streak: nat, cap: int): int {
    if cap <= 0 then 0 else if streak < cap then streak else cap
  }

  /** The stored count of a packet is the length of its streak, capped; packets not missing have none. */
  lemma {:induction false} TableIsStreak(ticks: seq<seq<int>>, cap: int, q: int)
    ensures Get(Table(ticks, cap), q) == Capped(Streak(ticks, q), cap)
    ensures q in Table(ticks, cap) <==> Streak(ticks, q) > 0 && cap > 0
    decreases |ticks|
  {
    if ticks != [] {
      TableIsStreak(ticks[..|ticks| - 1], cap, q);
    }
  }

  lemma {:induction false} RequestsAreExact(retries: map<int, int>, missing: seq<int>, cap: int, q: int)
    ensures q in Requests(retries, missing, cap) <==> q in missing && Get(retries, q) < cap
    decreases |missing|
  {
    if missing != [] {
      RequestsAreExact(retries, missing[..|missing| - 1], cap, q);
    }
  }

  lemma {:induction false} RequestsAscend(retries: map<int, int>, missing: seq<int>, cap: int)
    requires Ascending(missing)
    ensures Ascending(Requests(retries, missing, cap))
    decreases |missing|
  {
    if missing != [] {
      var before, last := missing[..|missing| - 1], missing[|missing| - 1];
      RequestsAscend(retries, before, cap);
      var r := Requests(retries, before, cap);
      forall i | 0 <= i < |r| ensures r[i] < last {
        RequestsAreExact(retries, before, cap, r[i]);
        assert r[i] in r;
      }
    }
  }

  /** A tick requests, in ascending order, exactly the missing packets whose streak has not passed the cap. */
  lemma RequestsAreFreshStreaks(ticks: seq<seq<int>>, missing: seq<int>, cap: int, q: int)
    requires Ascending(missing)
    ensures Ascending(Requests(Table(ticks, cap), missing, cap))
    ensures q in Requests(Table(ticks, cap), missing, cap)
       <==> q in missing && Streak(ticks + [missing], q) <= cap
  {
    RequestsAscend(Table(ticks, cap), missing, cap);
    RequestsAreExact(Table(ticks, cap), missing, cap, q);
    assert (ticks + [missing])[..|ticks|] == ticks;
    TableIsStreak(ticks, cap, q);
  }

  /** How often a packet was requested during its current streak. */
  function RequestedInStreak(ticks: seq<seq<int>>, cap: int, q: int): nat
    decreases |ticks|
  {
    if ticks == [] || q !in ticks[|ticks| - 1] then 0
    else
      var before, missing := ticks[..|ticks| - 1], ticks[|ticks| - 1];
      RequestedInStreak(before, cap, q) + if q in Requests(Table(before, cap), missing, cap) then 1 else 0
  }

  /** The table counts requests: no packet is asked for more than `cap` times before it recovers. */
  lemma {:induction false} TableCountsRequests(ticks: seq<seq<int>>, cap: int, q: int)
    ensures RequestedInStreak(ticks, cap, q) == Get(Table(ticks, cap), q)
    ensures cap >= 0 ==> RequestedInStreak(ticks, cap, q) <= cap
    decreases |ticks|
  {
    if ticks != [] {
      var before := ticks[..|ticks| - 1];
      TableCountsRequests(before, cap, q);
      TableIsStreak(before, cap, q);
      RequestsAreExact(Table(before, cap), ticks[|ticks| - 1], cap, q);
    }
  }

  /** Once the missing set has stood still for `cap` ticks, nothing is requested any more. */
  lemma StandstillGoesQuiet(ticks: seq<seq<int>>, missing: seq<int>, cap: int)
    requires |ticks| >= cap
    requires forall k :: |ticks| - cap <= k < |ticks| ==> ticks[k] == missing
    ensures Requests(Table(ticks, cap), missing, cap) == []
  {
    forall q | q in missing ensures Get(Table(ticks, cap), q) >= cap {
      TableIsStreak(ticks, cap, q);
      if cap > 0 {
        LongStreak(ticks, missing, cap, q);
      }
    }
    NothingToRequest(Table(ticks, cap), missing, cap);
  }

  lemma {:induction false} NothingToRequest(retries: map<int, int>, missing: seq<int>, cap: int)
    requires forall q :: q in missing ==> Get(retries, q) >= cap
    ensures Requests(retries, missing, cap) == []
    decreases |missing|
  {
    if missing != [] {
      NothingToRequest(retries, missing[..|missing| - 1], cap);
    }
  }

  lemma {:induction false} LongStreak(ticks: seq<seq<int>>, missing: seq<int>, n: nat, q: int)
    requires n <= |ticks| && q in missing
    requires forall k :: |ticks| - n <= k < |ticks| ==> ticks[k] == missing
    ensures Streak(ticks, q) >= n
    decreases n
  {
    if n > 0 {
      LongStreak(ticks[..|ticks| - 1], missing, n - 1, q);
    }
  }
}
