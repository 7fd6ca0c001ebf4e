/**
 The forwarding loop of `_rtp_forwarder.py`: frames come in, parameter sets are
 cached, a keyframe starts an ffmpeg process, and each frame is written to it
 until it dies. The loop is a method over objects; `Run` is the fold it computes.
 */
module Forwarder {
  import opened Wrappers
  import opened AnnexB
  import opened Schedules

  datatype Write = Accepted | BrokenPipe | Raised

  /**
   One frame and how the outside world behaves while the loop handles it: whether a
   process can be started, whether it is alive when polled, and what the write does.
   */
  datatype Turn = Turn(data: Bytes, starts: bool, alive: bool, write: Write)

  datatype Params = Params(sps: Option<Bytes>, pps: Option<Bytes>) {
    predicate Ready() {
      sps.Some? && pps.Some?
    }

    function Observe(nal: Nal): Params {
      if nal.kind == NAL_SPS then this.(sps := Some(nal.bytes))
      else if nal.kind == NAL_PPS then this.(pps := Some(nal.bytes))
      else this
    }

    function ObserveAll(nals: seq<Nal>): Params
      decreases |nals|
    {
      if nals == [] then this else ObserveAll(nals[..|nals| - 1]).Observe(nals[|nals| - 1])
    }
  }

  predicate Garbage(data: Bytes) {
    Nals(data) == []
  }

  predicate HasKind(data: Bytes, kind: nat) {
    kind in Kinds(Nals(data))
  }

  predicate NeedsParams(data: Bytes) {
    HasKind(data, NAL_IDR) && !HasKind(data, NAL_SPS) && !HasKind(data, NAL_PPS)
  }

  function OrEmpty(bytes: Option<Bytes>): Bytes {
    if bytes.Some? then bytes.value else []
  }

  /** What is written for a frame: the cached parameter sets in front of an IDR frame that has neither. */
  function Image(params: Params, data: Bytes): Bytes {
    if NeedsParams(data) then OrEmpty(params.sps) + OrEmpty(params.pps) + data else data
  }

  /** An ffmpeg process as the loop sees it: what was written to it and whether it was reaped. */
  datatype Process = Process(chunks: seq<Bytes>, reaped: bool)

  datatype Counters = Counters(garbageSkipped: nat, gateDrops: nat, restarts: nat, framesIn: nat, bytesIn: nat) {
    function SkipGarbage(): Counters {
      this.(garbageSkipped := garbageSkipped + 1)
    }

    function DropAtGate(): Counters {
      this.(gateDrops := gateDrops + 1)
    }

    /** A restart re-arms the gate, which resets its own counter. */
    function Restart(): Counters {
      this.(restarts := restarts + 1, gateDrops := 0)
    }

    function Forward(bytes: nat): Counters {
      this.(framesIn := framesIn + 1, bytesIn := bytesIn + bytes)
    }
  }

  /**
   The loop's variables. `procs` and `pumps` list every process and audio pump ever
   created (a pump is true once closed); `spans` and `gateDropsEver` are bookkeeping
   that the source does not keep.
   */
  datatype State = State(
    params: Params,
    proc: Option<nat>,
    pump: Option<nat>,
    procs: seq<Process>,
    pumps: seq<bool>,
    seen: nat,
    counters: Counters,
    raised: bool,
    spans: seq<Span>,
    gateDropsEver: nat)
  {
    ghost predicate Consistent() {
      && (proc.Some? ==> proc.value == |procs| - 1)
      && (pump.Some? ==> pump.value == |pumps| - 1 && proc.Some?)
      && |spans| == |procs|
    }
  }

  const INITIAL := State(Params(None, None), None, None, [], [], 0, Counters(0, 0, 0, 0, 0), false, [], 0)

  function Start(s: State, starts: bool, audio: bool): State
    requires s.seen > 0
  {
    var s := if audio then s.(pumps := s.pumps + [false]) else s;
    if !starts then s.(raised := true)
    else s.(proc := Some(|s.procs|), pump := if audio then Some(|s.pumps| - 1) else None,
            procs := s.procs + [Process([], false)], spans := s.spans + [Span(s.seen - 1, s.seen - 1)])
  }

  /** Close the pump and reap the process, if any. */
  function Release(s: State): State
    requires s.Consistent()
  {
    var s := if s.pump.Some? then s.(pumps := s.pumps[s.pump.value := true], pump := None) else s;
    if s.proc.None? then s
    else s.(procs := s.procs[s.proc.value := s.procs[s.proc.value].(reaped := true)], proc := None)
  }

  function Lose(s: State): State
    requires s.Consistent()
  {
    Release(s).(counters := s.counters.Restart())
  }

  function ExtendSpan(s: State): State
    requires s.Consistent()
  {
    if s.proc.None? then s
    else s.(spans := s.spans[s.proc.value := s.spans[s.proc.value].(last := s.seen)])
  }

  function Deliver(s: State, chunk: Bytes): State
    requires s.Consistent() && s.proc.Some?
  {
    var p := s.procs[s.proc.value];
    ExtendSpan(s.(procs := s.procs[s.proc.value := p.(chunks := p.chunks + [chunk])],
                  counters := s.counters.Forward(|chunk|)))
  }

  /** A frame is dequeued and its NAL units are observed. */
  function Arrive(s: State, data: Bytes): State {
    s.(params := s.params.ObserveAll(Nals(data)), seen := s.seen + 1)
  }

  /** What the loop needs to know of a frame once it is parsed, and how the outside world behaves. */
  datatype View = View(garbage: bool, idr: bool, image: Bytes, starts: bool, alive: bool, write: Write)

  function ViewOf(params: Params, t: Turn): View {
    View(Garbage(t.data), HasKind(t.data, NAL_IDR), Image(params, t.data), t.starts, t.alive, t.write)
  }

  /** Poll the process and write the frame to it. */
  function Offer(s: State, v: View): State
    requires s.Consistent() && s.proc.Some?
  {
    if !v.alive then Lose(s)
    else match v.write
      case Accepted => Deliver(s, v.image)
      case BrokenPipe => Lose(s)
      case Raised => s.(raised := true)
  }

  /** What becomes of a parsed frame: skipped, dropped at the gate, or offered to a process, new if need be. */
  function Advance(s: State, v: View, audio: bool): State
    requires s.Consistent() && s.seen > 0
  {
    if v.garbage then
      ExtendSpan(s.(counters := s.counters.SkipGarbage()))
    else if s.proc.None? && !(s.params.Ready() && v.idr) then
      s.(counters := s.counters.DropAtGate(), gateDropsEver := s.gateDropsEver + 1)
    else
      var s := if s.proc.None? then Start(s, v.starts, audio) else s;
      if s.raised then s else Offer(s, v)
  }

  /** One pass of the loop body. */
  function Step(s: State, t: Turn, audio: bool): State
    requires s.Consistent()
  {
    if s.raised then s
    else
      var s := Arrive(s, t.data);
      Advance(s, ViewOf(s.params, t), audio)
  }

  lemma StartKeepsConsistent(s: State, starts: bool, audio: bool)
    requires s.seen > 0 && s.Consistent() && s.proc.None?
    ensures Start(s, starts, audio).Consistent()
  {
  }

  lemma OfferKeepsConsistent(s: State, v: View)
    requires s.Consistent() && s.proc.Some?
    ensures Offer(s, v).Consistent()
  {
  }

  lemma AdvanceKeepsConsistent(s: State, v: View, audio: bool)
    requires s.Consistent() && s.seen > 0
    ensures Advance(s, v, audio).Consistent()
  {
    if s.proc.None? {
      StartKeepsConsistent(s, v.starts, audio);
      var s := Start(s, v.starts, audio);
      if !s.raised {
        OfferKeepsConsistent(s, v);
      }
    } else {
      OfferKeepsConsistent(s, v);
    }
  }

  lemma StepKeepsConsistent(s: State, t: Turn, audio: bool)
    requires s.Consistent()
    ensures Step(s, t, audio).Consistent()
  {
    if !s.raised {
      var a := Arrive(s, t.data);
      AdvanceKeepsConsistent(a, ViewOf(a.params, t), audio);
    }
  }

  function Run(turns: seq<Turn>, audio: bool): (r: State)
    ensures r.Consistent()
    decreases |turns|
  {
    if turns == [] then INITIAL
    else
      var s, t := Run(turns[..|turns| - 1], audio), turns[|turns| - 1];
      StepKeepsConsistent(s, t, audio);
      Step(s, t, audio)
  }

  lemma {:induction false} ReadyStays(p: Params, nals: seq<Nal>)
    requires p.Ready()
    ensures p.ObserveAll(nals).Ready()
    decreases |nals|
  {
    if nals != [] {
      ReadyStays(p, nals[..|nals| - 1]);
    }
  }

  // ---- The loop itself ----

  class ParamSetCache {
    var sps: Option<Bytes>
    var pps: Option<Bytes>

    constructor ()
      ensures Value() == Params(None, None)
    {
      sps, pps := None, None;
    }

    ghost function Value(): Params
      reads this
    {
      Params(sps, pps)
    }

    method Observe(kind: nat, nal: Bytes)
      modifies this
      ensures Value() == old(Value()).Observe(Nal(kind, nal))
    {
      if kind == NAL_SPS {
        sps := Some(nal);
      } else if kind == NAL_PPS {
        pps := Some(nal);
      }
    }
  }

  class Ffmpeg {
    var chunks: seq<Bytes>
    var reaped: bool

    constructor ()
      ensures Value() == Process([], false)
    {
      chunks, reaped := [], false;
    }

    ghost function Value(): Process
      reads this
    {
      Process(chunks, reaped)
    }

    method Write(chunk: Bytes)
      modifies this`chunks
      ensures chunks == old(chunks) + [chunk]
    {
      chunks := chunks + [chunk];
    }

    method Reap()
      modifies this`reaped
      ensures reaped
    {
      reaped := true;
    }
  }

  class AudioPump {
    var closed: bool

    constructor ()
      ensures !closed
    {
      closed := false;
    }

    method Close()
      modifies this
      ensures closed
    {
      if closed {
        return;
      }
      closed := true;
    }
  }

  ghost predicate Distinct<T>(objects: seq<T>) {
    forall i, j :: 0 <= i < j < |objects| ==> objects[i] != objects[j]
  }

  /** The objects created so far are what the state says they are. */
  ghost predicate Mirrors(procs: seq<Ffmpeg>, pumps: seq<AudioPump>, s: State)
    reads procs, pumps
  {
    && Distinct(procs) && Distinct(pumps)
    && |procs| == |s.procs| && |pumps| == |s.pumps|
    && (forall k :: 0 <= k < |procs| ==> procs[k].Value() == s.procs[k])
    && (forall k :: 0 <= k < |pumps| ==> pumps[k].closed == s.pumps[k])
  }

  /** The loop's variables hold what the state says. */
  ghost predicate Current(params: ParamSetCache, proc: Ffmpeg?, pump: AudioPump?,
                          procs: seq<Ffmpeg>, pumps: seq<AudioPump>, s: State)
    reads params, procs, pumps
  {
    && Mirrors(procs, pumps, s)
    && params.Value() == s.params
    && s.Consistent()
    && (proc == null <==> s.proc.None?)
    && (pump == null <==> s.pump.None?)
    && (proc != null ==> proc == procs[s.proc.value] && s.params.Ready())
    && (pump != null ==> pump == pumps[s.pump.value])
  }

  /** Split a frame, note its NAL types and cache its parameter sets. */
  method ObserveFrame(params: ParamSetCache, data: Bytes) returns (nalTypes: seq<nat>)
    modifies params
    ensures nalTypes == Kinds(Nals(data))
    ensures params.Value() == old(params.Value()).ObserveAll(Nals(data))
  {
    nalTypes := [];
    var nals := IterNals(data);
    var k := 0;
    while k < |nals|
      invariant 0 <= k <= |nals|
      invariant params.Value() == old(params.Value()).ObserveAll(nals[..k])
      invariant nalTypes == Kinds(nals[..k])
    {
      nalTypes := nalTypes + [nals[k].kind];
      params.Observe(nals[k].kind, nals[k].bytes);
      assert nals[..k + 1][..k] == nals[..k];
      k := k + 1;
    }
    assert nals[..k] == nals;
  }

  /** Create an audio pump and then a process; when that raises, the pump stays behind, open. */
  method StartFfmpeg(params: ParamSetCache, starts: bool, audio: bool,
                     procs: seq<Ffmpeg>, pumps: seq<AudioPump>, ghost s: State)
    returns (proc: Ffmpeg?, pump: AudioPump?, procs': seq<Ffmpeg>, pumps': seq<AudioPump>)
    requires Current(params, null, null, procs, pumps, s)
    requires s.seen > 0 && s.params.Ready()
    ensures Current(params, proc, pump, procs', pumps', Start(s, starts, audio))
    ensures (proc != null ==> fresh(proc)) && (pump != null ==> fresh(pump))
  {
    proc, pump, procs', pumps' := null, null, procs, pumps;
    StartKeepsConsistent(s, starts, audio);
    if audio {
      pump := new AudioPump();
      pumps' := pumps + [pump];
    }
    if !starts {
      pump := null;
      return;
    }
    proc := new Ffmpeg();
    procs' := procs + [proc];
  }

  /** Reap the process and close its pump. */
  method Shut(params: ParamSetCache, proc: Ffmpeg?, pump: AudioPump?,
              procs: seq<Ffmpeg>, pumps: seq<AudioPump>, ghost s: State)
    requires Current(params, proc, pump, procs, pumps, s)
    modifies proc, pump
    ensures Current(params, null, null, procs, pumps, Release(s))
  {
    if proc != null {
      proc.Reap();
    }
    if pump != null {
      pump.Close();
    }
  }

  /** Write a frame, behind the cached parameter sets when it is an IDR frame with neither. */
  method WriteFrame(params: ParamSetCache, proc: Ffmpeg, pump: AudioPump?, data: Bytes, nalTypes: seq<nat>,
                    procs: seq<Ffmpeg>, pumps: seq<AudioPump>, ghost s: State)
    returns (written: nat)
    requires Current(params, proc, pump, procs, pumps, s)
    requires nalTypes == Kinds(Nals(data))
    modifies proc
    ensures Current(params, proc, pump, procs, pumps, Deliver(s, Image(s.params, data)))
    ensures written == |Image(s.params, data)|
  {
    var out := data;
    if NAL_IDR in nalTypes && NAL_SPS !in nalTypes && NAL_PPS !in nalTypes {
      out := params.sps.value + params.pps.value + data;
    }
    assert out == Image(s.params, data);
    proc.Write(out);
    written := |out|;
  }

  /** Poll the process, write the frame, and give the process up if either finds it dead. */
  method OfferFrame(params: ParamSetCache, proc: Ffmpeg, pump: AudioPump?, procs: seq<Ffmpeg>, pumps: seq<AudioPump>,
                    counters: Counters, t: Turn, nalTypes: seq<nat>, ghost s: State)
    returns (proc': Ffmpeg?, pump': AudioPump?, counters': Counters, raised: bool)
    requires Current(params, proc, pump, procs, pumps, s)
    requires counters == s.counters && !s.raised && nalTypes == Kinds(Nals(t.data))
    modifies proc, pump
    ensures var r := Offer(s, ViewOf(s.params, t));
            && Current(params, proc', pump', procs, pumps, r)
            && counters' == r.counters && raised == r.raised
    ensures proc' in {null, proc} && pump' in {null, pump}
  {
    proc', pump', counters', raised := proc, pump, counters, false;
    if t.alive {
      if t.write == Accepted {
        var written := WriteFrame(params, proc, pump, t.data, nalTypes, procs, pumps, s);
        counters' := counters.Forward(written);
        return;
      }
      if t.write == Raised {
        raised := true;
        return;
      }
    }
    // Dead when polled, or the pipe broke: wait for the next keyframe.
    Shut(params, proc, pump, procs, pumps, s);
    proc', pump', counters' := null, null, counters.Restart();
  }

  /** One parsed frame against the current process, or against the gate. */
  method ServeFrame(params: ParamSetCache, proc: Ffmpeg?, pump: AudioPump?, procs: seq<Ffmpeg>, pumps: seq<AudioPump>,
                    counters: Counters, t: Turn, nalTypes: seq<nat>, audio: bool, ghost s: State)
    returns (proc': Ffmpeg?, pump': AudioPump?, procs': seq<Ffmpeg>, pumps': seq<AudioPump>,
             counters': Counters, raised: bool)
    requires Current(params, proc, pump, procs, pumps, s)
    requires counters == s.counters && !s.raised && s.seen > 0 && nalTypes == Kinds(Nals(t.data))
    modifies proc, pump
    ensures var r := Advance(s, ViewOf(s.params, t), audio);
            && Current(params, proc', pump', procs', pumps', r)
            && counters' == r.counters && raised == r.raised
    ensures (proc' != null && proc' != proc ==> fresh(proc')) && (pump' != null && pump' != pump ==> fresh(pump'))
  {
    proc', pump', procs', pumps', counters', raised := proc, pump, procs, pumps, counters, false;
    AdvanceKeepsConsistent(s, ViewOf(s.params, t), audio);
    ghost var now := s;
    if nalTypes == [] {
      counters' := counters.SkipGarbage();
      return;
    }
    if proc == null {
      if !(params.sps.Some? && params.pps.Some? && NAL_IDR in nalTypes) {
        counters' := counters.DropAtGate();
        return;
      }
      proc', pump', procs', pumps' := StartFfmpeg(params, t.starts, audio, procs, pumps, s);
      now := Start(s, t.starts, audio);
      if proc' == null {
        raised := true;
        return;
      }
    }
    proc', pump', counters', raised := OfferFrame(params, proc', pump', procs', pumps', counters, t, nalTypes, now);
  }

  /** The loop body: one frame is parsed, then served. */
  method HandleFrame(params: ParamSetCache, proc: Ffmpeg?, pump: AudioPump?, procs: seq<Ffmpeg>, pumps: seq<AudioPump>,
                     counters: Counters, t: Turn, audio: bool, ghost s: State)
    returns (proc': Ffmpeg?, pump': AudioPump?, procs': seq<Ffmpeg>, pumps': seq<AudioPump>,
             counters': Counters, raised: bool, ghost s': State)
    requires Current(params, proc, pump, procs, pumps, s)
    requires counters == s.counters && !s.raised
    modifies params, proc, pump
    ensures s' == Step(s, t, audio)
    ensures Current(params, proc', pump', procs', pumps', s')
    ensures counters' == s'.counters && raised == s'.raised
    ensures (proc' != null && proc' != proc ==> fresh(proc')) && (pump' != null && pump' != pump ==> fresh(pump'))
  {
    s' := Step(s, t, audio);
    if s.params.Ready() {
      ReadyStays(s.params, Nals(t.data));
    }
    var nalTypes := ObserveFrame(params, t.data);
    proc', pump', procs', pumps', counters', raised :=
      ServeFrame(params, proc, pump, procs, pumps, counters, t, nalTypes, audio, Arrive(s, t.data));
  }

  /** The `while True` of `forward_video`: ends when the frames do (time-out, cancellation) or when something raises. */
  method ForwardLoop(params: ParamSetCache, turns: seq<Turn>, audio: bool)
    returns (proc: Ffmpeg?, pump: AudioPump?, procs: seq<Ffmpeg>, pumps: seq<AudioPump>, counters: Counters)
    requires params.Value() == Params(None, None)
    modifies params
    ensures Current(params, proc, pump, procs, pumps, Run(turns, audio))
    ensures counters == Run(turns, audio).counters
    ensures (proc != null ==> fresh(proc)) && (pump != null ==> fresh(pump))
  {
    proc, pump, procs, pumps, counters := null, null, [], [], Counters(0, 0, 0, 0, 0);
    var i, raised := 0, false;
    ghost var s, done := INITIAL, [];
    while i < |turns| && !raised
      invariant 0 <= i <= |turns|
      invariant done == turns[..i] && s == Run(done, audio)
      invariant (proc != null ==> fresh(proc)) && (pump != null ==> fresh(pump))
      invariant Current(params, proc, pump, procs, pumps, s)
      invariant counters == s.counters && raised == s.raised
    {
      RunStep(done, turns[i], audio);
      assert turns[..i + 1] == turns[..i] + [turns[i]];
      done := done + [turns[i]];
      proc, pump, procs, pumps, counters, raised, s :=
        HandleFrame(params, proc, pump, procs, pumps, counters, turns[i], audio, s);
      i := i + 1;
    }
    RaisedStays(turns, i, audio);
  }

  /** `forward_video`: the loop, then the `finally` block. */
  method ForwardVideo(turns: seq<Turn>, audio: bool)
    returns (procs: seq<Ffmpeg>, pumps: seq<AudioPump>, counters: Counters)
    ensures Mirrors(procs, pumps, Release(Run(turns, audio)))
    ensures counters == Run(turns, audio).counters
  {
    var params := new ParamSetCache();
    var proc: Ffmpeg?, pump: AudioPump?;
    proc, pump, procs, pumps, counters := ForwardLoop(params, turns, audio);
    Shut(params, proc, pump, procs, pumps, Run(turns, audio));
  }

  lemma RunStep(turns: seq<Turn>, t: Turn, audio: bool)
    ensures Run(turns + [t], audio) == Step(Run(turns, audio), t, audio)
  {
    assert (turns + [t])[..|turns|] == turns;
  }

  /** Once something raised, further frames change nothing. */
  lemma {:induction false} RaisedStays(turns: seq<Turn>, i: nat, audio: bool)
    requires i <= |turns|
    requires i < |turns| ==> Run(turns[..i], audio).raised
    ensures Run(turns[..i], audio) == Run(turns, audio)
    decreases |turns|
  {
    if i == |turns| {
      assert turns[..i] == turns;
    } else {
      var shorter := turns[..|turns| - 1];
      assert shorter[..i] == turns[..i];
      RaisedStays(shorter, i, audio);
    }
  }
}
