/** Small runs of the forwarding loop that show where its promises end. */
module Witnesses {
  import opened Wrappers
  import opened Separators
  import opened AnnexB
  import opened Forwarder
  import opened Delivery
  import opened Stream
  import opened Accounts

  /** A frame of NAL units with the given bodies. */
  function Frame(bodies: seq<Bytes>): Bytes {
    Flatten(Prefixed(bodies))
  }

  /** A turn at which nothing goes wrong. */
  function Fine(data: Bytes): Turn {
    Turn(data, true, true, Accepted)
  }

  predicate IsBody(body: Bytes, kind: nat) {
    0 < |body| < 4 && body[0] % 32 == kind
  }

  lemma TwoUnits(a: Bytes, b: Bytes, kindA: nat, kindB: nat)
    requires IsBody(a, kindA) && IsBody(b, kindB)
    ensures Nals(Frame([a, b])) == [Nal(kindA, START_CODE + a), Nal(kindB, START_CODE + b)]
  {
    assert forall i :: !OccursAt(a, START_CODE, i) && !OccursAt(b, START_CODE, i);
    SplittingUndoesBuilding([a, b]);
  }

  lemma SetsAreCached(data: Bytes, sps: Bytes, pps: Bytes)
    requires Nals(data) == [Nal(NAL_SPS, sps), Nal(NAL_PPS, pps)]
    ensures Cached([Fine(data)]) == Params(Some(sps), Some(pps))
  {
    var nals, none := Nals(data), Params(None, None);
    CachedStep([], Fine(data));
    assert [] + [Fine(data)] == [Fine(data)];
    assert nals[..1] == [nals[0]] && nals[..1][..0] == [];
    assert none.ObserveAll(nals[..1]) == none.Observe(nals[0]);
  }

  lemma KeyframeCaches(sets: Bytes, key: Bytes, sps: Bytes, pps: Bytes)
    requires Nals(sets) == [Nal(NAL_SPS, sps), Nal(NAL_PPS, pps)]
    ensures Cached([Fine(sets), Fine(key)]) == Params(Some(sps), Some(pps)).ObserveAll(Nals(key))
  {
    SetsAreCached(sets, sps, pps);
    CachedStep([Fine(sets)], Fine(key));
    assert [Fine(sets)] + [Fine(key)] == [Fine(sets), Fine(key)];
  }

  lemma HalfKeyframe(sets: Bytes, key: Bytes, sps: Bytes, pps: Bytes, sps': Bytes, idr: Bytes)
    requires Nals(sets) == [Nal(NAL_SPS, sps), Nal(NAL_PPS, pps)]
    requires Nals(key) == [Nal(NAL_SPS, sps'), Nal(NAL_IDR, idr)]
    ensures var cached := Cached([Fine(sets), Fine(key)]);
            cached.Ready() && !Decodable(Image(cached, key))
  {
    KeyframeCaches(sets, key, sps, pps);
    ReadyStays(Params(Some(sps), Some(pps)), Nals(key));
    assert Kinds(Nals(key)) == [NAL_SPS, NAL_IDR];
    assert Kinds(Nals(key))[0] == NAL_SPS;
  }

  /** Parameter sets, then a keyframe with an SPS and no PPS: it is written without a PPS, though one is cached. */
  lemma KeyframeWithoutPps()
    ensures var cached := Cached([Fine(Frame([[7], [8]])), Fine(Frame([[7], [5]]))]);
            cached.Ready() && !Decodable(Image(cached, Frame([[7], [5]])))
  {
    TwoUnits([7], [8], NAL_SPS, NAL_PPS);
    TwoUnits([7], [5], NAL_SPS, NAL_IDR);
    HalfKeyframe(Frame([[7], [8]]), Frame([[7], [5]]),
                 START_CODE + [7], START_CODE + [8], START_CODE + [7], START_CODE + [5]);
  }

  lemma ThreeUnits(a: Bytes, b: Bytes, c: Bytes, kindA: nat, kindB: nat, kindC: nat)
    requires IsBody(a, kindA) && IsBody(b, kindB) && IsBody(c, kindC)
    ensures Nals((START_CODE + a) + (START_CODE + b) + (START_CODE + c))
         == [Nal(kindA, START_CODE + a), Nal(kindB, START_CODE + b), Nal(kindC, START_CODE + c)]
  {
    assert forall i :: !OccursAt(a, START_CODE, i) && !OccursAt(b, START_CODE, i) && !OccursAt(c, START_CODE, i);
    UnitOfBody(a, kindA);
    UnitOfBody(b, kindB);
    UnitOfBody(c, kindC);
    StartsSplitsOff(START_CODE + a, START_CODE + b);
    StartsSplitsOff((START_CODE + a) + (START_CODE + b), START_CODE + c);
  }

  lemma UnitOfBody(body: Bytes, kind: nat)
    requires IsBody(body, kind)
    ensures Nals(START_CODE + body) == [Nal(kind, START_CODE + body)] && HasStartCode(START_CODE + body)
  {
    assert forall i :: !OccursAt(body, START_CODE, i);
    PrefixedHasOneStartCode(body);
    NalUnitSplits(START_CODE + body);
  }

  lemma StrayKeyframe(stray: Bytes, body: Bytes)
    requires |stray| < 4 && IsBody(body, NAL_IDR)
    ensures Nals(stray + (START_CODE + body)) == [Nal(NAL_IDR, START_CODE + body)]
  {
    assert forall i :: !OccursAt(stray, START_CODE, i);
    SegmentsOfFree(stray);
    UnitOfBody(body, NAL_IDR);
    StartsSplitsOff(stray, START_CODE + body);
  }

  lemma StrayGroups(a: Bytes, b: Bytes, stray: Bytes, c: Bytes)
    ensures (START_CODE + a) + (START_CODE + b) + (stray + (START_CODE + c))
         == (START_CODE + a) + (START_CODE + (b + stray)) + (START_CODE + c)
  {
  }

  /** Parameter sets, then a keyframe behind a stray byte: a decoder finds that byte inside the PPS. */
  lemma StrayByteInPps()
    ensures var key := [1] + (START_CODE + [5]);
            var cached := Cached([Fine(Frame([[7], [8]])), Fine(key)]);
            && cached == Params(Some(START_CODE + [7]), Some(START_CODE + [8]))
            && Nals(Image(cached, key))
               == [Nal(NAL_SPS, START_CODE + [7]), Nal(NAL_PPS, START_CODE + [8, 1]), Nal(NAL_IDR, START_CODE + [5])]
  {
    TwoUnits([7], [8], NAL_SPS, NAL_PPS);
    StrayKeyframe([1], [5]);
    StrayInside(Frame([[7], [8]]), [1] + (START_CODE + [5]), START_CODE + [7], START_CODE + [8], START_CODE + [5]);
    StrayGroups([7], [8], [1], [5]);
    assert [8] + [1] == [8, 1];
    ThreeUnits([7], [8, 1], [5], NAL_SPS, NAL_PPS, NAL_IDR);
  }

  lemma StrayInside(sets: Bytes, key: Bytes, sps: Bytes, pps: Bytes, idr: Bytes)
    requires Nals(sets) == [Nal(NAL_SPS, sps), Nal(NAL_PPS, pps)] && Nals(key) == [Nal(NAL_IDR, idr)]
    ensures var cached := Cached([Fine(sets), Fine(key)]);
            cached == Params(Some(sps), Some(pps)) && Image(cached, key) == sps + pps + key
  {
    KeyframeCaches(sets, key, sps, pps);
    var nals, p := Nals(key), Params(Some(sps), Some(pps));
    assert nals[..0] == [] && p.ObserveAll(nals) == p.ObserveAll(nals[..0]).Observe(nals[0]);
    assert Kinds(nals) == [NAL_IDR] && Kinds(nals)[0] == NAL_IDR;
  }

  // ---- A start that fails ----

  lemma AllCached(data: Bytes, sps: Bytes, pps: Bytes, idr: Bytes, t: Turn)
    requires Nals(data) == [Nal(NAL_SPS, sps), Nal(NAL_PPS, pps), Nal(NAL_IDR, idr)] && t.data == data
    ensures Opens([t]) && !Garbage(t.data)
  {
    var nals, none := Nals(data), Params(None, None);
    CachedStep([], t);
    assert [] + [t] == [t];
    var two := nals[..2];
    assert nals[..|nals| - 1] == two && two[..1][..0] == [];
    assert two[..|two| - 1] == two[..1];
    assert none.ObserveAll(two[..1]) == none.Observe(two[0]);
    assert none.ObserveAll(two).Ready();
    assert Kinds(nals)[2] == NAL_IDR;
  }

  lemma OpensAndFails(t: Turn)
    requires Opens([t]) && !Garbage(t.data) && !t.starts
    ensures SomeStartFails([t])
  {
    LiveIffScheduled([], true);
    assert [t][..0] == [] && [t][..1] == [t];
    assert FailsToStart([t], 0);
  }

  /** Parameter sets and a keyframe in one frame, audio on, and no process to be had: a pump is still open on exit. */
  lemma PumpStaysOpen()
    ensures var t := Turn((START_CODE + [7]) + (START_CODE + [8]) + (START_CODE + [5]), false, true, Accepted);
            var end := Release(Run([t], true));
            exists k :: 0 <= k < |end.pumps| && !end.pumps[k]
  {
    var data := (START_CODE + [7]) + (START_CODE + [8]) + (START_CODE + [5]);
    ThreeUnits([7], [8], [5], NAL_SPS, NAL_PPS, NAL_IDR);
    StartThatFails(Turn(data, false, true, Accepted), START_CODE + [7], START_CODE + [8], START_CODE + [5]);
  }

  lemma StartThatFails(t: Turn, sps: Bytes, pps: Bytes, idr: Bytes)
    requires Nals(t.data) == [Nal(NAL_SPS, sps), Nal(NAL_PPS, pps), Nal(NAL_IDR, idr)] && !t.starts
    ensures var end := Release(Run([t], true));
            exists k :: 0 <= k < |end.pumps| && !end.pumps[k]
  {
    AllCached(t.data, sps, pps, idr, t);
    OpensAndFails(t);
    StartFailedIff([t], true);
    ExitCleansUp([t], true);
  }
}
