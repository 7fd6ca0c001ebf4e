/**
 The forwarding loop's books: where every dequeued frame went, how many processes
 and pumps exist, and what is left open when the loop has ended.
 */
module Accounts {
  import opened Wrappers
  import opened AnnexB
  import opened Schedules
  import opened Forwarder
  import opened Delivery
  import Queues

  function TotalChunks(procs: seq<Process>): nat
    decreases |procs|
  {
    if procs == [] then 0 else TotalChunks(procs[..|procs| - 1]) + |procs[|procs| - 1].chunks|
  }

  function TotalBytes(chunks: seq<Bytes>): nat
    decreases |chunks|
  {
    if chunks == [] then 0 else TotalBytes(chunks[..|chunks| - 1]) + |chunks[|chunks| - 1]|
  }

  function TotalProcessBytes(procs: seq<Process>): nat
    decreases |procs|
  {
    if procs == [] then 0 else TotalProcessBytes(procs[..|procs| - 1]) + TotalBytes(procs[|procs| - 1].chunks)
  }

  /** Every frame is in exactly one column, and every process but the live one began a restart. */
  ghost predicate FramesBalance(s: State) {
    && s.seen == s.counters.garbageSkipped + s.gateDropsEver + s.counters.restarts + s.counters.framesIn
              + (if s.raised then 1 else 0)
    && s.counters.gateDrops <= s.gateDropsEver
    && s.counters.framesIn == TotalChunks(s.procs)
    && s.counters.bytesIn == TotalProcessBytes(s.procs)
    && |s.procs| == s.counters.restarts + (if s.proc.Some? then 1 else 0)
  }

  /** Starting a process raised: its pump had been opened by then. */
  predicate StartFailed(s: State) {
    s.raised && s.proc.None?
  }

  /** All processes but the live one are reaped, and each has a pump beside it that is closed with it. */
  ghost predicate ResourcesBalance(s: State, audio: bool) {
    && (forall k :: 0 <= k < |s.procs| ==> (s.procs[k].reaped <==> s.proc != Some(k)))
    && (if audio
        then |s.pumps| == |s.procs| + (if StartFailed(s) then 1 else 0) && s.pump == s.proc
        else s.pumps == [] && s.pump.None?)
    && (forall k :: 0 <= k < |s.pumps| ==> (s.pumps[k] <==> k < |s.procs| && s.pump != Some(k)))
    && (s.proc.Some? ==> s.params.Ready())
  }

  lemma TotalsStart(procs: seq<Process>)
    ensures TotalChunks(procs + [Process([], false)]) == TotalChunks(procs)
    ensures TotalProcessBytes(procs + [Process([], false)]) == TotalProcessBytes(procs)
  {
    var more := procs + [Process([], false)];
    assert more[..|more| - 1] == procs;
  }

  lemma TotalsReap(procs: seq<Process>)
    requires procs != []
    ensures var k := |procs| - 1;
            var r := procs[k := procs[k].(reaped := true)];
            TotalChunks(r) == TotalChunks(procs) && TotalProcessBytes(r) == TotalProcessBytes(procs)
  {
    var k := |procs| - 1;
    assert procs[k := procs[k].(reaped := true)][..k] == procs[..k];
  }

  lemma TotalsWrite(procs: seq<Process>, chunk: Bytes)
    requires procs != []
    ensures var k := |procs| - 1;
            var r := procs[k := procs[k].(chunks := procs[k].chunks + [chunk])];
            TotalChunks(r) == TotalChunks(procs) + 1 && TotalProcessBytes(r) == TotalProcessBytes(procs) + |chunk|
  {
    var k := |procs| - 1;
    var more := procs[k].chunks + [chunk];
    assert procs[k := procs[k].(chunks := more)][..k] == procs[..k];
    assert more[..|more| - 1] == procs[k].chunks;
  }

  /** A frame has been dequeued but not yet booked: the columns lack one. */
  ghost predicate Pending(s: State, audio: bool) {
    && s.Consistent() && s.seen > 0 && !s.raised
    && FramesBalance(s.(seen := s.seen - 1)) && ResourcesBalance(s, audio)
  }

  lemma StartKeepsFrames(s: State, starts: bool, audio: bool)
    requires s.seen > 0 && !s.raised && s.proc.None? && FramesBalance(s.(seen := s.seen - 1))
    ensures var r := Start(s, starts, audio);
            FramesBalance(if r.raised then r else r.(seen := r.seen - 1))
  {
    TotalsStart(s.procs);
  }

  lemma StartKeepsResources(s: State, starts: bool, audio: bool)
    requires s.Consistent() && s.seen > 0 && !s.raised && s.proc.None? && s.params.Ready() && ResourcesBalance(s, audio)
    ensures ResourcesBalance(Start(s, starts, audio), audio)
  {
  }

  lemma StartBalances(s: State, starts: bool, audio: bool)
    requires Pending(s, audio) && s.proc.None? && s.params.Ready()
    ensures var r := Start(s, starts, audio);
            if r.raised then FramesBalance(r) && ResourcesBalance(r, audio) else Pending(r, audio)
  {
    StartKeepsFrames(s, starts, audio);
    StartKeepsResources(s, starts, audio);
    StartKeepsConsistent(s, starts, audio);
  }

  lemma LoseBalances(s: State, audio: bool)
    requires Pending(s, audio) && s.proc.Some?
    ensures FramesBalance(Lose(s)) && ResourcesBalance(Lose(s), audio)
  {
    TotalsReap(s.procs);
  }

  lemma DeliverBalances(s: State, chunk: Bytes, audio: bool)
    requires Pending(s, audio) && s.proc.Some?
    ensures FramesBalance(Deliver(s, chunk)) && ResourcesBalance(Deliver(s, chunk), audio)
  {
    TotalsWrite(s.procs, chunk);
  }

  lemma OfferBalances(s: State, v: View, audio: bool)
    requires Pending(s, audio) && s.proc.Some?
    ensures FramesBalance(Offer(s, v)) && ResourcesBalance(Offer(s, v), audio)
  {
    LoseBalances(s, audio);
    DeliverBalances(s, v.image, audio);
  }

  lemma AdvanceBalances(s: State, v: View, audio: bool)
    requires Pending(s, audio)
    ensures FramesBalance(Advance(s, v, audio)) && ResourcesBalance(Advance(s, v, audio), audio)
  {
    if v.garbage || (s.proc.None? && !(s.params.Ready() && v.idr)) {
    } else if s.proc.None? {
      StartBalances(s, v.starts, audio);
      var started := Start(s, v.starts, audio);
      if !started.raised {
        OfferBalances(started, v, audio);
      }
    } else {
      OfferBalances(s, v, audio);
    }
  }

  /**
   The books balance at every moment of every run: each dequeued frame was skipped as garbage,
   dropped at the gate, lost at a restart, forwarded, or is the one something raised at;
   processes and pumps exist side by side, and a live process has both parameter sets.
   */
  lemma {:induction false} RunBalances(turns: seq<Turn>, audio: bool)
    ensures FramesBalance(Run(turns, audio)) && ResourcesBalance(Run(turns, audio), audio)
    decreases |turns|
  {
    if turns != [] {
      var before, t := turns[..|turns| - 1], turns[|turns| - 1];
      RunBalances(before, audio);
      var s := Run(before, audio);
      if !s.raised {
        var a := Arrive(s, t.data);
        if s.params.Ready() {
          ReadyStays(s.params, Nals(t.data));
        }
        AdvanceBalances(a, ViewOf(a.params, t), audio);
      }
    }
  }

  /**
   On exit every process has been reaped, and every pump is closed exactly when no start
   of a process failed with audio on.
   */
  lemma ExitCleansUp(turns: seq<Turn>, audio: bool)
    ensures var s := Run(turns, audio);
            var end := Release(s);
            && (forall k :: 0 <= k < |end.procs| ==> end.procs[k].reaped)
            && ((forall k :: 0 <= k < |end.pumps| ==> end.pumps[k]) <==> !(audio && StartFailed(s)))
  {
    RunBalances(turns, audio);
    var s := Run(turns, audio);
    if audio && StartFailed(s) {
      assert !s.pumps[|s.procs|];
    }
  }

  // ---- What becomes of a frame, from frames and deaths alone ----

  datatype Fate = Skipped | AtGate | NotStarted | Lost | WriteRaised | Written

  /** The schedule of these frames leaves a process alive behind the last of them. */
  ghost predicate LiveAfter(turns: seq<Turn>) {
    exists spans :: IsSchedule(Marks(turns), spans, true)
  }

  /** What becomes of a frame, given whether a process is alive before it and whether it opens the gate. */
  function Meets(t: Turn, live: bool, opens: bool): Fate {
    if Garbage(t.data) then Skipped
    else if !live && !opens then AtGate
    else if !live && !t.starts then NotStarted
    else if Lethal(t) then Lost
    else if t.write == Raised then WriteRaised
    else Written
  }

  /** What becomes of the last frame, if nothing raised before it. */
  ghost function FateOf(turns: seq<Turn>): Fate
    requires turns != []
  {
    Meets(turns[|turns| - 1], LiveAfter(turns[..|turns| - 1]), Opens(turns))
  }

  lemma LiveIffScheduled(turns: seq<Turn>, audio: bool)
    requires !Run(turns, audio).raised
    ensures Run(turns, audio).proc.Some? <==> LiveAfter(turns)
    ensures Run(turns, audio).params == Cached(turns)
  {
    var s := Run(turns, audio);
    RunDelivers(turns, audio);
    if spans :| IsSchedule(Marks(turns), spans, true) {
      ScheduleIsUnique(Marks(turns), s.spans, s.proc.Some?, spans, true);
    }
  }

  /** What one more frame does to the books, by its fate and the bytes it is due. */
  ghost predicate Books(s: State, r: State, fate: Fate, size: nat) {
    var c, d := s.counters, r.counters;
    && (r.raised <==> fate in {NotStarted, WriteRaised})
    && (StartFailed(r) <==> fate == NotStarted)
    && d.garbageSkipped == c.garbageSkipped + (if fate == Skipped then 1 else 0)
    && d.restarts == c.restarts + (if fate == Lost then 1 else 0)
    && d.framesIn == c.framesIn + (if fate == Written then 1 else 0)
    && d.bytesIn == c.bytesIn + (if fate == Written then size else 0)
    && d.gateDrops == (if fate == Lost then 0 else c.gateDrops + (if fate == AtGate then 1 else 0))
    && r.gateDropsEver == s.gateDropsEver + (if fate == AtGate then 1 else 0)
  }

  lemma AdvanceBooks(s: State, v: View, audio: bool)
    requires s.Consistent() && s.seen > 0 && !s.raised
    ensures var opens := s.params.Ready() && v.idr;
            Books(s, Advance(s, v, audio),
                  if v.garbage then Skipped
                  else if s.proc.None? && !opens then AtGate
                  else if s.proc.None? && !v.starts then NotStarted
                  else if !v.alive || v.write == BrokenPipe then Lost
                  else if v.write == Raised then WriteRaised
                  else Written,
                  |v.image|)
  {
  }

  lemma StepBooks(turns: seq<Turn>, s: State, t: Turn, audio: bool)
    requires s.Consistent() && !s.raised && s.params == Cached(turns)
    ensures Books(s, Step(s, t, audio), Meets(t, s.proc.Some?, Opens(turns + [t])), |Due(turns + [t])|)
  {
    ArriveCaches(turns, s, t);
    ImageIsDue(turns + [t]);
    var a := Arrive(s, t.data);
    AdvanceBooks(a, ViewOf(a.params, t), audio);
  }

  lemma RunBooks(turns: seq<Turn>, t: Turn, audio: bool)
    requires !Run(turns, audio).raised
    ensures Books(Run(turns, audio), Run(turns + [t], audio), FateOf(turns + [t]), |Due(turns + [t])|)
  {
    LiveIffScheduled(turns, audio);
    RunStep(turns, t, audio);
    StepBooks(turns, Run(turns, audio), t, audio);
    assert (turns + [t])[..|turns|] == turns;
  }

  ghost function CountFates(turns: seq<Turn>, fate: Fate): nat
    decreases |turns|
  {
    if turns == [] then 0 else CountFates(turns[..|turns| - 1], fate) + if FateOf(turns) == fate then 1 else 0
  }

  /** The bytes due for the frames that were written. */
  ghost function BytesDue(turns: seq<Turn>): nat
    decreases |turns|
  {
    if turns == [] then 0 else BytesDue(turns[..|turns| - 1]) + if FateOf(turns) == Written then |Due(turns)| else 0
  }

  /** Frames dropped at the gate since the last frame that was lost with its process. */
  ghost function AtGateSinceLoss(turns: seq<Turn>): nat
    decreases |turns|
  {
    if turns == [] || FateOf(turns) == Lost then 0
    else AtGateSinceLoss(turns[..|turns| - 1]) + if FateOf(turns) == AtGate then 1 else 0
  }

  /** The counters count frames by their fate, the gate's own since the last loss. */
  ghost predicate CountsFates(s: State, turns: seq<Turn>) {
    && s.counters.garbageSkipped == CountFates(turns, Skipped)
    && s.counters.restarts == CountFates(turns, Lost)
    && s.counters.framesIn == CountFates(turns, Written)
    && s.counters.bytesIn == BytesDue(turns)
    && s.gateDropsEver == CountFates(turns, AtGate)
    && s.counters.gateDrops == AtGateSinceLoss(turns)
  }

  lemma CountsStep(s: State, r: State, turns: seq<Turn>, t: Turn)
    requires CountsFates(s, turns) && Books(s, r, FateOf(turns + [t]), |Due(turns + [t])|)
    ensures CountsFates(r, turns + [t])
  {
    assert (turns + [t])[..|turns|] == turns;
  }

  /** Every counter of a run is a count of frames, by what keyframes and deaths make of them. */
  lemma {:induction false} CountersAreFates(turns: seq<Turn>, audio: bool)
    requires !Run(turns, audio).raised
    ensures CountsFates(Run(turns, audio), turns)
    decreases |turns|
  {
    if turns != [] {
      var before, t := turns[..|turns| - 1], turns[|turns| - 1];
      assert before + [t] == turns;
      CountersAreFates(before, audio);
      RunBooks(before, t, audio);
      CountsStep(Run(before, audio), Run(turns, audio), before, t);
    }
  }

  ghost predicate NoneRaises(turns: seq<Turn>)
    decreases |turns|
  {
    turns == [] || (NoneRaises(turns[..|turns| - 1]) && FateOf(turns) !in {NotStarted, WriteRaised})
  }

  /** Frame n is the first at which something raises, and what raises is the start of a process. */
  ghost predicate FailsToStart(turns: seq<Turn>, n: nat) {
    n < |turns| && NoneRaises(turns[..n]) && FateOf(turns[..n + 1]) == NotStarted
  }

  ghost predicate SomeStartFails(turns: seq<Turn>) {
    exists n: nat :: FailsToStart(turns, n)
  }

  lemma FailsBefore(turns: seq<Turn>, t: Turn, n: nat)
    requires n < |turns|
    ensures FailsToStart(turns + [t], n) <==> FailsToStart(turns, n)
  {
    assert (turns + [t])[..n] == turns[..n] && (turns + [t])[..n + 1] == turns[..n + 1];
  }

  lemma SomeStartFailsSnoc(turns: seq<Turn>, t: Turn)
    ensures SomeStartFails(turns + [t])
       <==> SomeStartFails(turns) || (NoneRaises(turns) && FateOf(turns + [t]) == NotStarted)
  {
    var all := turns + [t];
    assert all[..|turns|] == turns && all[..|turns| + 1] == all;
    assert FailsToStart(all, |turns|) <==> NoneRaises(turns) && FateOf(all) == NotStarted;
    forall n: nat | n < |turns| ensures FailsToStart(all, n) <==> FailsToStart(turns, n) {
      FailsBefore(turns, t, n);
    }
  }

  /**
   Frames and deaths alone say whether something raises, and whether that is the start of a
   process: a frame that opens the gate, with no process there, and no process to be had.
   */
  lemma {:induction false} StartFailedIff(turns: seq<Turn>, audio: bool)
    ensures Run(turns, audio).raised <==> !NoneRaises(turns)
    ensures StartFailed(Run(turns, audio)) <==> SomeStartFails(turns)
    decreases |turns|
  {
    if turns != [] {
      var before, t := turns[..|turns| - 1], turns[|turns| - 1];
      assert before + [t] == turns;
      StartFailedIff(before, audio);
      SomeStartFailsSnoc(before, t);
      if !Run(before, audio).raised {
        RunBooks(before, t, audio);
      }
    }
  }

  function DataOf(turns: seq<Turn>): seq<Bytes> {
    seq(|turns|, k requires 0 <= k < |turns| => turns[k].data)
  }

  /**
   From the camera to ffmpeg: whatever the interleaving of arrivals and the loop, the frames the
   loop handled are an in-order selection of those that arrived, and each arrival is accounted
   for: refused by the full queue, still queued, or in one column of the loop's books.
   */
  lemma EveryFrameIsAccountedFor(maxsize: int, ops: seq<Queues.Op<Bytes>>, turns: seq<Turn>, audio: bool)
    requires DataOf(turns) == Queues.RunRefusing(maxsize, ops).taken
    requires Run(turns, audio).seen == |turns|
    ensures var q, s := Queues.RunRefusing(maxsize, ops), Run(turns, audio);
            && Queues.Subsequence(DataOf(turns), Queues.Offers(ops))
            && |Queues.Offers(ops)| == q.drops + |q.items| + s.counters.garbageSkipped + s.gateDropsEver
                 + s.counters.restarts + s.counters.framesIn + (if s.raised then 1 else 0)
  {
    var q := Queues.RunRefusing(maxsize, ops);
    Queues.RefusingKeepsOrder(maxsize, ops);
    Queues.SubsequencePrefix(q.taken, q.items, Queues.Offers(ops));
    RunBalances(turns, audio);
  }
}
