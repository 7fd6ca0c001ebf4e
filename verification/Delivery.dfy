/**
 What the forwarding loop delivers: a description of each process's input from the
 frames and the deaths alone, and the proof that the loop's fold meets it.
 */
module Delivery {
  import opened Wrappers
  import opened Separators
  import opened AnnexB
  import opened Schedules
  import opened Forwarder

  function AllNals(turns: seq<Turn>): seq<Nal>
    decreases |turns|
  {
    if turns == [] then [] else AllNals(turns[..|turns| - 1]) + Nals(turns[|turns| - 1].data)
  }

  /** The bytes of the last NAL unit of a kind. */
  function Latest(nals: seq<Nal>, kind: nat): Option<Bytes>
    decreases |nals|
  {
    if nals == [] then None
    else
      var last := nals[|nals| - 1];
      if last.kind == kind then Some(last.bytes) else Latest(nals[..|nals| - 1], kind)
  }

  /** The last SPS and the last PPS of the given frames, whatever became of those frames. */
  function Cached(turns: seq<Turn>): Params {
    Params(Latest(AllNals(turns), NAL_SPS), Latest(AllNals(turns), NAL_PPS))
  }

  /** The last of the frames can start a process: it holds a keyframe, and both parameter sets were seen by then. */
  predicate Opens(turns: seq<Turn>)
    requires turns != []
  {
    HasKind(turns[|turns| - 1].data, NAL_IDR) && Cached(turns).Ready()
  }

  /** A frame that a process offered it does not survive. */
  predicate Lethal(t: Turn) {
    !Garbage(t.data) && (!t.alive || t.write == BrokenPipe)
  }

  function Marks(turns: seq<Turn>): seq<Mark> {
    seq(|turns|, j requires 0 <= j < |turns| => Mark(Opens(turns[..j + 1]), Lethal(turns[j])))
  }

  /** What the last of the frames looks like on a pipe: nothing if garbage, else its image under the cache then. */
  function Piped(turns: seq<Turn>): Option<Bytes>
    requires turns != []
  {
    var data := turns[|turns| - 1].data;
    if Garbage(data) then None else Some(Image(Cached(turns), data))
  }

  function OnPipe(turns: seq<Turn>): seq<Option<Bytes>> {
    seq(|turns|, j requires 0 <= j < |turns| => Piped(turns[..j + 1]))
  }

  function Present(images: seq<Option<Bytes>>): seq<Bytes>
    decreases |images|
  {
    if images == [] then []
    else
      var last := images[|images| - 1];
      Present(images[..|images| - 1]) + if last.Some? then [last.value] else []
  }

  /** The images of the non-garbage frames of a span, in order. */
  function Delivered(turns: seq<Turn>, span: Span): seq<Bytes>
    requires span.first <= span.last <= |turns|
  {
    Present(OnPipe(turns)[span.first..span.last])
  }

  // ---- The cache holds the latest parameter sets ----

  lemma {:induction false} LatestOfConcat(a: seq<Nal>, b: seq<Nal>, kind: nat)
    ensures Latest(a + b, kind) == if Latest(b, kind).Some? then Latest(b, kind) else Latest(a, kind)
    decreases |b|
  {
    if b == [] {
      assert a + b == a;
    } else {
      LatestOfConcat(a, b[..|b| - 1], kind);
      assert (a + b)[..|a + b| - 1] == a + b[..|b| - 1];
    }
  }

  lemma {:induction false} ObserveAllIsLatest(p: Params, nals: seq<Nal>)
    ensures p.ObserveAll(nals).sps == if Latest(nals, NAL_SPS).Some? then Latest(nals, NAL_SPS) else p.sps
    ensures p.ObserveAll(nals).pps == if Latest(nals, NAL_PPS).Some? then Latest(nals, NAL_PPS) else p.pps
    decreases |nals|
  {
    if nals != [] {
      ObserveAllIsLatest(p, nals[..|nals| - 1]);
    }
  }

  lemma CachedStep(turns: seq<Turn>, t: Turn)
    ensures Cached(turns + [t]) == Cached(turns).ObserveAll(Nals(t.data))
  {
    var all := AllNals(turns);
    assert (turns + [t])[..|turns|] == turns;
    LatestOfConcat(all, Nals(t.data), NAL_SPS);
    LatestOfConcat(all, Nals(t.data), NAL_PPS);
    ObserveAllIsLatest(Cached(turns), Nals(t.data));
  }

  // ---- One frame more ----

  lemma PrefixStays(turns: seq<Turn>, t: Turn, j: nat)
    requires j < |turns|
    ensures (turns + [t])[..j + 1] == turns[..j + 1]
  {
  }

  lemma MarksStep(turns: seq<Turn>, t: Turn)
    ensures Marks(turns + [t]) == Marks(turns) + [Mark(Opens(turns + [t]), Lethal(t))]
  {
    assert (turns + [t])[..|turns| + 1] == turns + [t];
    forall j | 0 <= j < |turns| ensures Marks(turns + [t])[j] == Marks(turns)[j] {
      PrefixStays(turns, t, j);
    }
  }

  lemma OnPipeStep(turns: seq<Turn>, t: Turn)
    ensures OnPipe(turns + [t]) == OnPipe(turns) + [Piped(turns + [t])]
  {
    assert (turns + [t])[..|turns| + 1] == turns + [t];
    forall j | 0 <= j < |turns| ensures OnPipe(turns + [t])[j] == OnPipe(turns)[j] {
      PrefixStays(turns, t, j);
    }
  }

  lemma DeliveredStep(turns: seq<Turn>, t: Turn, span: Span)
    requires span.first <= span.last <= |turns|
    ensures Delivered(turns + [t], span) == Delivered(turns, span)
    ensures span.last == |turns| ==>
      Delivered(turns + [t], span.(last := |turns| + 1)) == Delivered(turns, span) + Present([Piped(turns + [t])])
  {
    OnPipeStep(turns, t);
    var a, b := OnPipe(turns), OnPipe(turns + [t]);
    assert b[span.first..span.last] == a[span.first..span.last];
    if span.last == |turns| {
      var more := b[span.first..|turns| + 1];
      assert more[..|more| - 1] == a[span.first..span.last] && more[|more| - 1] == b[|turns|];
    }
  }

  lemma ArriveCaches(turns: seq<Turn>, s: State, t: Turn)
    requires s.params == Cached(turns)
    ensures Arrive(s, t.data).params == Cached(turns + [t])
    ensures Opens(turns + [t]) <==> HasKind(t.data, NAL_IDR) && Arrive(s, t.data).params.Ready()
    ensures Opens(turns + [t]) ==> !Garbage(t.data)
  {
    CachedStep(turns, t);
  }

  /** The fold's lives are the schedule's. */
  lemma AdvanceSpans(s: State, v: View, audio: bool)
    requires s.Consistent() && s.seen > 0 && !s.raised && !Advance(s, v, audio).raised
    requires v.idr ==> !v.garbage
    ensures var r := Advance(s, v, audio);
            var m := Mark(v.idr && s.params.Ready(), !v.garbage && (!v.alive || v.write == BrokenPipe));
            && r.spans == NextSpans(s.seen - 1, s.spans, s.proc.Some?, m)
            && (r.proc.Some? <==> (s.proc.Some? || m.opens) && !m.lethal)
            && r.params == s.params && r.seen == s.seen
  {
  }

  lemma OfferChunks(s: State, v: View, k: nat)
    requires s.Consistent() && s.proc.Some? && !s.raised && k < |s.procs|
    ensures var r := Offer(s, v);
            && |r.procs| == |s.procs|
            && r.procs[k].chunks == s.procs[k].chunks + (if r.proc == Some(k) && !r.raised then [v.image] else [])
  {
  }

  /** Only the process that is live when the frame has been handled received anything: the frame's image. */
  lemma AdvanceChunks(s: State, v: View, audio: bool, k: nat)
    requires s.Consistent() && s.seen > 0 && !s.raised
    requires k < |Advance(s, v, audio).procs|
    ensures var r := Advance(s, v, audio);
            r.procs[k].chunks == (if k < |s.procs| then s.procs[k].chunks else [])
                               + (if r.proc == Some(k) && !v.garbage && !r.raised then [v.image] else [])
  {
    if v.garbage || (s.proc.None? && !(s.params.Ready() && v.idr)) {
      assert s.procs[k].chunks + [] == s.procs[k].chunks;
    } else if s.proc.None? {
      StartKeepsConsistent(s, v.starts, audio);
      var started := Start(s, v.starts, audio);
      if !started.raised {
        OfferChunks(started, v, k);
      }
    } else {
      OfferChunks(s, v, k);
    }
  }

  lemma AdvanceKeeps(s: State, v: View, audio: bool)
    requires s.Consistent() && s.seen > 0
    ensures var r := Advance(s, v, audio);
            r.seen == s.seen && r.params == s.params && |s.procs| <= |r.procs| <= |s.procs| + 1
  {
  }

  lemma PresentOne(image: Option<Bytes>)
    ensures Present([image]) == if image.Some? then [image.value] else []
  {
    assert [image][..0] == [];
  }

  /** What a state must be after the given frames. */
  ghost predicate Delivers(turns: seq<Turn>, s: State) {
    && s.Consistent() && s.seen == |turns| && s.params == Cached(turns)
    && IsSchedule(Marks(turns), s.spans, s.proc.Some?)
    && forall k :: 0 <= k < |s.procs| ==>
         && s.spans[k].first <= s.spans[k].last <= |turns|
         && s.procs[k].chunks == Delivered(turns, s.spans[k])
  }

  lemma StepSpans(turns: seq<Turn>, s: State, t: Turn, audio: bool)
    requires s.Consistent() && s.seen == |turns| && s.params == Cached(turns)
    requires !s.raised && !Step(s, t, audio).raised
    ensures var r, m := Step(s, t, audio), Mark(Opens(turns + [t]), Lethal(t));
            && r.spans == NextSpans(|turns|, s.spans, s.proc.Some?, m)
            && (r.proc.Some? <==> (s.proc.Some? || m.opens) && !m.lethal)
            && r.params == Cached(turns + [t]) && r.seen == |turns| + 1
  {
    var a := Arrive(s, t.data);
    ArriveCaches(turns, s, t);
    AdvanceSpans(a, ViewOf(a.params, t), audio);
  }

  lemma StepChunks(turns: seq<Turn>, s: State, t: Turn, audio: bool, k: nat)
    requires s.Consistent() && s.seen == |turns| && s.params == Cached(turns) && !s.raised
    requires k < |Step(s, t, audio).procs|
    ensures var r := Step(s, t, audio);
            r.procs[k].chunks == (if k < |s.procs| then s.procs[k].chunks else [])
                               + (if r.proc == Some(k) && !r.raised then Present([Piped(turns + [t])]) else [])
  {
    var a := Arrive(s, t.data);
    ArriveCaches(turns, s, t);
    AdvanceChunks(a, ViewOf(a.params, t), audio, k);
    PresentOne(Piped(turns + [t]));
  }

  lemma StepDelivers(turns: seq<Turn>, s: State, t: Turn, audio: bool, k: nat)
    requires Delivers(turns, s) && !s.raised && !Step(s, t, audio).raised
    requires k < |Step(s, t, audio).procs|
    requires Step(s, t, audio).Consistent()
    ensures var r := Step(s, t, audio);
            && r.spans[k].first <= r.spans[k].last <= |turns + [t]|
            && r.procs[k].chunks == Delivered(turns + [t], r.spans[k])
  {
    StepSpans(turns, s, t, audio);
    StepChunks(turns, s, t, audio, k);
    if k < |s.spans| {
      assert s.proc == Some(k) ==> IsLife(Marks(turns), s.spans[k], false);
      DeliveredStep(turns, t, s.spans[k]);
    } else {
      DeliveredStep(turns, t, Span(|turns|, |turns|));
    }
  }

  lemma DeliversStep(turns: seq<Turn>, s: State, t: Turn, audio: bool)
    requires Delivers(turns, s) && !s.raised && !Step(s, t, audio).raised
    ensures Delivers(turns + [t], Step(s, t, audio))
  {
    var r := Step(s, t, audio);
    StepKeepsConsistent(s, t, audio);
    StepSpans(turns, s, t, audio);
    MarksStep(turns, t);
    ScheduleStep(Marks(turns), s.spans, s.proc.Some?, Mark(Opens(turns + [t]), Lethal(t)));
    forall k | 0 <= k < |r.procs|
      ensures r.spans[k].first <= r.spans[k].last <= |turns + [t]|
      ensures r.procs[k].chunks == Delivered(turns + [t], r.spans[k])
    {
      StepDelivers(turns, s, t, audio, k);
    }
  }

  /**
   The loop delivers as promised: as long as nothing raises, each process has received exactly
   the images of its own stretch of frames, and the stretches are the one schedule that
   keyframes and deaths allow.
   */
  lemma {:induction false} RunDelivers(turns: seq<Turn>, audio: bool)
    requires !Run(turns, audio).raised
    ensures Delivers(turns, Run(turns, audio))
    decreases |turns|
  {
    if turns != [] {
      var before, t := turns[..|turns| - 1], turns[|turns| - 1];
      assert turns == before + [t];
      RunDelivers(before, audio);
      DeliversStep(before, Run(before, audio), t, audio);
    }
  }

  /** `raised` is `prior` plus at most one process that received nothing. */
  ghost predicate NothingMore(prior: State, raised: State) {
    && |prior.procs| <= |raised.procs| <= |prior.procs| + 1
    && forall k :: 0 <= k < |raised.procs| ==>
         raised.procs[k].chunks == if k < |prior.procs| then prior.procs[k].chunks else []
  }

  lemma StepRaises(turns: seq<Turn>, s: State, t: Turn, audio: bool)
    requires s.Consistent() && s.seen == |turns| && s.params == Cached(turns)
    requires !s.raised && Step(s, t, audio).raised
    ensures NothingMore(s, Step(s, t, audio)) && Step(s, t, audio).seen == |turns| + 1
  {
    var r, a := Step(s, t, audio), Arrive(s, t.data);
    AdvanceKeeps(a, ViewOf(a.params, t), audio);
    forall k | 0 <= k < |r.procs|
      ensures r.procs[k].chunks == if k < |s.procs| then s.procs[k].chunks else []
    {
      StepChunks(turns, s, t, audio, k);
    }
  }

  /**
   Raising costs the frame it happens at and nothing else: what was delivered before
   stands, and a process begun at that very frame received nothing.
   */
  lemma {:induction false} RaisedDelivers(turns: seq<Turn>, audio: bool) returns (n: nat)
    requires Run(turns, audio).raised
    ensures n < |turns| && Run(turns, audio).seen == n + 1
    ensures !Run(turns[..n], audio).raised && Delivers(turns[..n], Run(turns[..n], audio))
    ensures NothingMore(Run(turns[..n], audio), Run(turns, audio))
    decreases |turns|
  {
    var before, t := turns[..|turns| - 1], turns[|turns| - 1];
    if Run(before, audio).raised {
      n := RaisedDelivers(before, audio);
      assert before[..n] == turns[..n];
    } else {
      n := |before|;
      RunDelivers(before, audio);
      StepRaises(before, Run(before, audio), t, audio);
    }
  }

  // ---- Byte for byte ----

  /**
   What the last of the frames should leave on the pipe: its own bytes, and in front of them the
   last SPS and the last PPS seen if it holds a keyframe and brings neither.
   */
  function Due(turns: seq<Turn>): Bytes
    requires turns != []
  {
    var data, all := turns[|turns| - 1].data, AllNals(turns);
    var kinds := Kinds(Nals(data));
    if 5 !in kinds || 7 in kinds || 8 in kinds then data
    else OrEmpty(Latest(all, 7)) + OrEmpty(Latest(all, 8)) + data
  }

  lemma ImageIsDue(turns: seq<Turn>)
    requires turns != []
    ensures Image(Cached(turns), turns[|turns| - 1].data) == Due(turns)
  {
  }

  /** How many of the frames from lo up to hi hold a NAL unit. */
  function Sendable(turns: seq<Turn>, lo: nat, hi: nat): nat
    requires lo <= hi <= |turns|
    decreases hi
  {
    if lo == hi then 0 else Sendable(turns, lo, hi - 1) + if Nals(turns[hi - 1].data) != [] then 1 else 0
  }

  lemma PresentSnoc(images: seq<Option<Bytes>>, lo: nat, m: nat)
    requires lo <= m < |images|
    ensures Present(images[lo..m + 1]) == Present(images[lo..m]) + if images[m].Some? then [images[m].value] else []
  {
    var more := images[lo..m + 1];
    assert more[..|more| - 1] == images[lo..m] && more[|more| - 1] == images[m];
  }

  lemma DeliveredSnoc(turns: seq<Turn>, lo: nat, m: nat, hi: nat)
    requires lo <= m < hi == m + 1 <= |turns|
    ensures var image := Piped(turns[..hi]);
            Delivered(turns, Span(lo, hi)) == Delivered(turns, Span(lo, m)) + if image.Some? then [image.value] else []
  {
    PresentSnoc(OnPipe(turns), lo, m);
  }

  lemma PipedIff(turns: seq<Turn>, m: nat, hi: nat)
    requires m < hi == m + 1 <= |turns|
    ensures Piped(turns[..hi]) == if Nals(turns[m].data) == [] then None else Some(Due(turns[..hi]))
  {
    assert turns[..hi][m] == turns[m];
    ImageIsDue(turns[..hi]);
  }

  lemma PipedSomeIff(turns: seq<Turn>, m: nat, hi: nat)
    requires m < hi == m + 1 <= |turns|
    ensures Piped(turns[..hi]).Some? <==> Nals(turns[m].data) != []
  {
    assert turns[..hi][m] == turns[m];
  }

  lemma DeliveredLength(turns: seq<Turn>, lo: nat, m: nat, hi: nat)
    requires lo <= m < hi == m + 1 <= |turns|
    ensures |Delivered(turns, Span(lo, hi))|
         == |Delivered(turns, Span(lo, m))| + if Piped(turns[..hi]).Some? then 1 else 0
  {
    DeliveredSnoc(turns, lo, m, hi);
  }

  lemma SendableStep(turns: seq<Turn>, lo: nat, m: nat, hi: nat)
    requires lo <= m < hi == m + 1 <= |turns|
    ensures Sendable(turns, lo, hi) == Sendable(turns, lo, m) + if Piped(turns[..hi]).Some? then 1 else 0
  {
    PipedSomeIff(turns, m, hi);
  }

  lemma CountNone(turns: seq<Turn>, lo: nat, hi: nat)
    requires lo == hi <= |turns|
    ensures |Delivered(turns, Span(lo, hi))| == Sendable(turns, lo, hi)
  {
    assert OnPipe(turns)[lo..hi] == [];
  }

  lemma CountStep(turns: seq<Turn>, lo: nat, m: nat, hi: nat)
    requires lo <= m < hi == m + 1 <= |turns| && |Delivered(turns, Span(lo, m))| == Sendable(turns, lo, m)
    ensures |Delivered(turns, Span(lo, hi))| == Sendable(turns, lo, hi)
  {
    DeliveredLength(turns, lo, m, hi);
    SendableStep(turns, lo, m, hi);
  }

  lemma {:induction false} DeliveredCount(turns: seq<Turn>, lo: nat, hi: nat)
    requires lo <= hi <= |turns|
    ensures |Delivered(turns, Span(lo, hi))| == Sendable(turns, lo, hi)
    decreases hi
  {
    if lo == hi {
      CountNone(turns, lo, hi);
    } else {
      DeliveredCount(turns, lo, hi - 1);
      CountStep(turns, lo, hi - 1, hi);
    }
  }

  lemma DeliveredLast(turns: seq<Turn>, lo: nat, j: nat, hi: nat)
    requires lo <= j < hi == j + 1 <= |turns| && Nals(turns[j].data) != []
    ensures var chunks, c := Delivered(turns, Span(lo, hi)), Sendable(turns, lo, j);
            c < |chunks| && chunks[c] == Due(turns[..hi])
  {
    DeliveredCount(turns, lo, j);
    DeliveredSnoc(turns, lo, j, hi);
    PipedIff(turns, j, hi);
  }

  lemma {:induction false} ChunkStays(turns: seq<Turn>, lo: nat, m: nat, hi: nat, c: nat)
    requires lo <= m <= hi <= |turns| && c < |Delivered(turns, Span(lo, m))|
    ensures c < |Delivered(turns, Span(lo, hi))|
    ensures Delivered(turns, Span(lo, hi))[c] == Delivered(turns, Span(lo, m))[c]
    decreases hi
  {
    if m < hi {
      ChunkStays(turns, lo, m, hi - 1, c);
      DeliveredSnoc(turns, lo, hi - 1, hi);
    }
  }

  ghost predicate SomeKind(nals: seq<Nal>, kind: nat) {
    exists k :: 0 <= k < |nals| && nals[k].kind == kind
  }

  lemma {:induction false} LatestIff(nals: seq<Nal>, kind: nat)
    ensures Latest(nals, kind).Some? <==> SomeKind(nals, kind)
    decreases |nals|
  {
    if nals != [] {
      var n := |nals| - 1;
      LatestIff(nals[..n], kind);
      assert forall k :: 0 <= k < n ==> nals[..n][k] == nals[k];
    }
  }

  /** The gate opens at a frame with an IDR unit, once an SPS and a PPS have come, at any time and in any frames. */
  lemma OpensIff(turns: seq<Turn>)
    requires turns != []
    ensures Opens(turns)
       <==> && 5 in Kinds(Nals(turns[|turns| - 1].data))
            && SomeKind(AllNals(turns), 7) && SomeKind(AllNals(turns), 8)
  {
    LatestIff(AllNals(turns), 7);
    LatestIff(AllNals(turns), 8);
  }
}
