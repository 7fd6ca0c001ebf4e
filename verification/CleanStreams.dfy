/**
 The byte stream of a process splits as promised exactly when its frames are clean, for
 a camera whose frames end in a NAL unit.
 */
module CleanStreams {
  import opened Wrappers
  import opened Separators
  import opened AnnexB
  import opened Schedules
  import opened Forwarder
  import opened Delivery
  import opened Stream

  /** The bytes end in a NAL unit whose type is not 0, which is unspecified. */
  ghost predicate EndsInUnit(x: Bytes) {
    exists a, unit :: EndsIn(x, a, unit)
  }

  ghost predicate EndsIn(x: Bytes, a: Bytes, unit: Bytes) {
    x == a + unit && IsNalUnit(unit) && unit[4] % 32 > 0
  }

  lemma EndsInUnitAfter(x: Bytes, y: Bytes)
    requires EndsInUnit(y)
    ensures EndsInUnit(x + y)
  {
    var a, unit :| EndsIn(y, a, unit);
    ConcatAssoc(x, a, unit);
    assert EndsIn(x + y, x + a, unit);
  }

  /** Bytes that do not begin with a start code spoil the unit that they are put behind. */
  lemma JunkBehind(x: Bytes, y: Bytes)
    requires EndsInUnit(x) && !HasStartCode(y) && y != []
    ensures !(Nals(x) <= Nals(x + y))
  {
    var a, unit :| EndsIn(x, a, unit);
    var kind := unit[4] % 32;
    UnitStarts(unit, kind);
    StartsStays(unit, y);
    StartsSplitsOff(a, unit);
    StartsSplitsOff(a, unit + y);
    ConcatAssoc(a, unit, y);
    JunkInside(unit, kind, y);
    var n := |Nals(a)|;
    assert Nals(x)[n] == Nal(kind, unit) && Nals(x + y)[n] == Nals(unit + y)[0];
  }

  /** The frames of a stretch, but for garbage, end in a NAL unit. */
  ghost predicate Whole(turns: seq<Turn>, lo: nat, hi: nat) {
    forall j :: lo <= j < hi && j < |turns| && !Garbage(turns[j].data) ==> EndsInUnit(turns[j].data)
  }

  lemma FrameAdds(turns: seq<Turn>, lo: nat, m: nat)
    requires lo <= m < |turns| && !Garbage(turns[m].data)
    ensures Flatten(Delivered(turns, Span(lo, m + 1)))
         == Flatten(Delivered(turns, Span(lo, m))) + Image(Cached(turns[..m + 1]), turns[m].data)
  {
    DeliveredGrows(turns, lo, m + 1);
    PresentOne(Piped(turns[..m + 1]));
    FlattenOne(Image(Cached(turns[..m + 1]), turns[m].data));
  }

  lemma FlattenLast(chunks: seq<Bytes>)
    requires chunks != []
    ensures Flatten(chunks) == Flatten(chunks[..|chunks| - 1]) + chunks[|chunks| - 1]
  {
    FlattenSnoc(chunks[..|chunks| - 1], chunks[|chunks| - 1]);
    assert chunks[..|chunks| - 1] + [chunks[|chunks| - 1]] == chunks;
  }

  lemma LastChunkEnds(chunks: seq<Bytes>)
    requires chunks != [] && EndsInUnit(chunks[|chunks| - 1])
    ensures EndsInUnit(Flatten(chunks))
  {
    FlattenLast(chunks);
    EndsInUnitAfter(Flatten(chunks[..|chunks| - 1]), chunks[|chunks| - 1]);
  }

  lemma ImageEndsInUnit(turns: seq<Turn>, j: nat, chunk: Bytes)
    requires j < |turns| && Piped(turns[..j + 1]) == Some(chunk) && Whole(turns, j, j + 1)
    ensures EndsInUnit(chunk)
  {
    var p := Cached(turns[..j + 1]);
    EndsInUnitAfter(OrEmpty(p.sps) + OrEmpty(p.pps), turns[j].data);
  }

  lemma WholeAt(turns: seq<Turn>, lo: nat, hi: nat, j: nat)
    requires lo <= j < hi && Whole(turns, lo, hi)
    ensures Whole(turns, j, j + 1)
  {
  }

  lemma DeliveredEndsInUnit(turns: seq<Turn>, lo: nat, hi: nat)
    requires lo < hi <= |turns| && Whole(turns, lo, hi) && Piped(turns[..lo + 1]).Some?
    ensures EndsInUnit(Flatten(Delivered(turns, Span(lo, hi))))
  {
    var span := Span(lo, hi);
    var chunks := Delivered(turns, span);
    var c := ImageIsChunk(turns, span, lo);
    var j := ChunkIsImage(turns, span, chunks, |chunks| - 1);
    WholeAt(turns, lo, hi, j);
    ImageEndsInUnit(turns, j, chunks[|chunks| - 1]);
    LastChunkEnds(chunks);
  }

  lemma ShortIsGarbage(data: Bytes)
    ensures |data| < 4 ==> Garbage(data)
  {
    if |data| < 4 {
      assert forall i :: !OccursAt(data, START_CODE, i);
      SegmentsOfFree(data);
    }
  }

  lemma StillNoStartCode(data: Bytes, rest: Bytes)
    requires !Garbage(data) && !HasStartCode(data)
    ensures !HasStartCode(data + rest)
  {
    ShortIsGarbage(data);
    assert (data + rest)[..4] == data[..4];
  }

  lemma BehindSets(x: Bytes, sps: Bytes, pps: Bytes)
    requires IsUnitOfKind(sps, NAL_SPS) && IsUnitOfKind(pps, NAL_PPS)
    ensures EndsInUnit(x + sps + pps)
    ensures Nals(x + sps + pps) == Nals(x) + [Nal(NAL_SPS, sps), Nal(NAL_PPS, pps)]
  {
    assert EndsIn(x + sps + pps, x + sps, pps);
    UnitStarts(sps, NAL_SPS);
    UnitStarts(pps, NAL_PPS);
    StartsSplitsOff(x, sps);
    StartsSplitsOff(x + sps, pps);
    ConcatAssoc(Nals(x), [Nal(NAL_SPS, sps)], [Nal(NAL_PPS, pps)]);
  }

  lemma Regrouped(x: Bytes, sps: Bytes, pps: Bytes, data: Bytes)
    ensures x + (sps + pps + data) == (x + sps + pps) + data
  {
  }

  /** What stands in front of the frame's own bytes ends in a unit and splits as expected, up to the frame. */
  ghost predicate IsFront(front: Bytes, x: Bytes, now: seq<Turn>)
    requires now != []
  {
    && EndsInUnit(front)
    && x + Image(Cached(now), now[|now| - 1].data) == front + now[|now| - 1].data
    && Nals(front) <= Nals(x) + FrameNals(now)
  }

  lemma FrontOf(x: Bytes, now: seq<Turn>) returns (front: Bytes)
    requires now != [] && Cached(now).Ready() && (EndsInUnit(x) || NeedsParams(now[|now| - 1].data))
    ensures IsFront(front, x, now)
  {
    var data, p := now[|now| - 1].data, Cached(now);
    if NeedsParams(data) {
      CachedAreUnits(now);
      BehindSets(x, p.sps.value, p.pps.value);
      Regrouped(x, p.sps.value, p.pps.value, data);
      front := x + p.sps.value + p.pps.value;
      ConcatAssoc(Nals(x), [Nal(NAL_SPS, p.sps.value), Nal(NAL_PPS, p.pps.value)], Nals(data));
    } else {
      front := x;
    }
  }

  lemma FrontShows(x: Bytes, now: seq<Turn>, front: Bytes, rest: Bytes)
    requires now != [] && IsFront(front, x, now)
    requires !Garbage(now[|now| - 1].data) && !HasStartCode(now[|now| - 1].data)
    ensures !(Nals(x) + FrameNals(now) <= Nals(x + Image(Cached(now), now[|now| - 1].data) + rest))
  {
    var data := now[|now| - 1].data;
    StillNoStartCode(data, rest);
    ConcatAssoc(front, data, rest);
    ShortIsGarbage(data);
    JunkBehind(front, data + rest);
  }

  /** Once a frame is not clean, nothing that follows makes up for it. */
  lemma DirtyShows(turns: seq<Turn>, lo: nat, m: nat, rest: Bytes)
    requires lo <= m < |turns| && !Clean(turns, lo, m) && Whole(turns, lo, m)
    requires Piped(turns[..lo + 1]).Some? && Cached(turns[..m + 1]).Ready()
    ensures var expected := Nals(Flatten(Delivered(turns, Span(lo, m)))) + FrameNals(turns[..m + 1]);
            !(expected <= Nals(Flatten(Delivered(turns, Span(lo, m + 1))) + rest))
  {
    var x, now := Flatten(Delivered(turns, Span(lo, m))), turns[..m + 1];
    assert now[|now| - 1] == turns[m];
    if m > lo {
      DeliveredEndsInUnit(turns, lo, m);
    }
    var front := FrontOf(x, now);
    FrontShows(x, now, front, rest);
    FrameAdds(turns, lo, m);
  }

  lemma {:induction false} FirstDirty(turns: seq<Turn>, lo: nat, hi: nat) returns (m: nat)
    requires !CleanFrom(turns, lo, hi)
    ensures lo <= m < hi <= |turns| && CleanFrom(turns, lo, m) && !Clean(turns, lo, m)
    decreases hi
  {
    if CleanFrom(turns, lo, hi - 1) {
      m := hi - 1;
    } else {
      m := FirstDirty(turns, lo, hi - 1);
    }
  }

  lemma {:induction false} DeliveredRest(turns: seq<Turn>, lo: nat, m: nat, hi: nat) returns (rest: Bytes)
    requires lo <= m <= hi <= |turns|
    ensures Flatten(Delivered(turns, Span(lo, hi))) == Flatten(Delivered(turns, Span(lo, m))) + rest
    decreases hi
  {
    rest := [];
    if m < hi {
      rest := DeliveredRest(turns, lo, m, hi - 1);
      DeliveredGrows(turns, lo, hi);
      ConcatAssoc(Flatten(Delivered(turns, Span(lo, m))), rest, Flatten(Present([Piped(turns[..hi])])));
      rest := rest + Flatten(Present([Piped(turns[..hi])]));
    }
  }

  lemma {:induction false} ExpectedRest(turns: seq<Turn>, lo: nat, m: nat, hi: nat) returns (rest: seq<Nal>)
    requires lo <= m <= hi <= |turns|
    ensures ExpectedNals(turns, lo, hi) == ExpectedNals(turns, lo, m) + rest
    decreases hi
  {
    rest := [];
    if m < hi {
      rest := ExpectedRest(turns, lo, m, hi - 1);
      ConcatAssoc(ExpectedNals(turns, lo, m), rest, FrameNals(turns[..hi]));
      rest := rest + FrameNals(turns[..hi]);
    }
  }

  lemma CleanUntil(turns: seq<Turn>, lo: nat, m: nat)
    requires lo <= m < |turns| && CleanFrom(turns, lo, m) && Cached(turns[..lo + 1]).Ready()
    ensures ExpectedNals(turns, lo, m + 1)
         == Nals(Flatten(Delivered(turns, Span(lo, m)))) + FrameNals(turns[..m + 1])
  {
    SpanSplits(turns, lo, m);
  }

  lemma DirtyAt(turns: seq<Turn>, lo: nat, m: nat, hi: nat)
    requires lo <= m < hi <= |turns| && CleanFrom(turns, lo, m) && !Clean(turns, lo, m) && Whole(turns, lo, m)
    requires Piped(turns[..lo + 1]).Some? && Cached(turns[..lo + 1]).Ready()
    ensures !(ExpectedNals(turns, lo, m + 1) <= Nals(Flatten(Delivered(turns, Span(lo, hi)))))
  {
    CleanUntil(turns, lo, m);
    ReadyFrom(turns, lo + 1, m + 1);
    var more := DeliveredRest(turns, lo, m + 1, hi);
    DirtyShows(turns, lo, m, more);
  }

  lemma NotPrefix<T>(start: seq<T>, rest: seq<T>, found: seq<T>)
    requires !(start <= found)
    ensures found != start + rest
  {
    assert start <= start + rest;
  }

  lemma StaysDirty(turns: seq<Turn>, lo: nat, m: nat, hi: nat)
    requires lo <= m <= hi <= |turns|
    requires !(ExpectedNals(turns, lo, m) <= Nals(Flatten(Delivered(turns, Span(lo, hi)))))
    ensures Nals(Flatten(Delivered(turns, Span(lo, hi)))) != ExpectedNals(turns, lo, hi)
  {
    var rest := ExpectedRest(turns, lo, m, hi);
    NotPrefix(ExpectedNals(turns, lo, m), rest, Nals(Flatten(Delivered(turns, Span(lo, hi)))));
  }

  lemma DirtyThrough(turns: seq<Turn>, lo: nat, m: nat, hi: nat)
    requires lo <= m < hi <= |turns| && CleanFrom(turns, lo, m) && !Clean(turns, lo, m) && Whole(turns, lo, hi)
    requires Piped(turns[..lo + 1]).Some? && Cached(turns[..lo + 1]).Ready()
    ensures Nals(Flatten(Delivered(turns, Span(lo, hi)))) != ExpectedNals(turns, lo, hi)
  {
    DirtyAt(turns, lo, m, hi);
    StaysDirty(turns, lo, m + 1, hi);
  }

  lemma DirtySpan(turns: seq<Turn>, lo: nat, hi: nat)
    requires lo < hi <= |turns| && !CleanFrom(turns, lo, hi) && Whole(turns, lo, hi)
    requires Piped(turns[..lo + 1]).Some? && Cached(turns[..lo + 1]).Ready()
    ensures Nals(Flatten(Delivered(turns, Span(lo, hi)))) != ExpectedNals(turns, lo, hi)
  {
    var m := FirstDirty(turns, lo, hi);
    DirtyThrough(turns, lo, m, hi);
  }

  /**
   For a camera whose frames end in a NAL unit, the byte stream piped into a process splits
   into the units of its frames, with the parameter sets of the time in front of each keyframe
   that lacks them, exactly when the frames of its stretch are clean.
   */
  lemma ProcessStreamSplitsIff(turns: seq<Turn>, audio: bool, k: nat)
    requires !Run(turns, audio).raised && k < |Run(turns, audio).procs|
    requires Whole(turns, Run(turns, audio).spans[k].first, Run(turns, audio).spans[k].last)
    ensures var s := Run(turns, audio);
            var span := s.spans[k];
            && span.first <= span.last <= |turns|
            && (Nals(Flatten(s.procs[k].chunks)) == ExpectedNals(turns, span.first, span.last)
                <==> CleanFrom(turns, span.first, span.last))
  {
    var span := ProcessLife(turns, audio, k);
    if CleanFrom(turns, span.first, span.last) {
      SpanSplits(turns, span.first, span.last);
    } else {
      DirtySpan(turns, span.first, span.last);
    }
  }
}
