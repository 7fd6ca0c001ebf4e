/**
 What a process's decoder finds in its input: parameter sets in front of every
 keyframe, and the camera's own NAL units otherwise unchanged.
 */
module Stream {
  import opened Wrappers
  import opened Separators
  import opened AnnexB
  import opened Schedules
  import opened Forwarder
  import opened Delivery

  /** `has_start_code`: the frame begins with one. */
  predicate HasStartCode(data: Bytes) {
    START_CODE <= data
  }

  lemma HasStartCodeIff(data: Bytes)
    ensures HasStartCode(data) <==> OccursAt(data, START_CODE, 0)
  {
  }

  // ---- Cached parameter sets are NAL units of their kind ----

  ghost predicate IsUnitOfKind(bytes: Bytes, kind: nat) {
    IsNalUnit(bytes) && bytes[4] % 32 == kind
  }

  lemma {:induction false} LatestIsUnit(nals: seq<Nal>, kind: nat)
    requires forall k :: 0 <= k < |nals| ==> IsUnitOfKind(nals[k].bytes, nals[k].kind)
    ensures Latest(nals, kind).Some? ==> IsUnitOfKind(Latest(nals, kind).value, kind)
    decreases |nals|
  {
    if nals != [] {
      LatestIsUnit(nals[..|nals| - 1], kind);
    }
  }

  lemma {:induction false} AllNalsAreUnits(turns: seq<Turn>)
    ensures forall k :: 0 <= k < |AllNals(turns)| ==> IsUnitOfKind(AllNals(turns)[k].bytes, AllNals(turns)[k].kind)
    decreases |turns|
  {
    if turns != [] {
      var before, data := turns[..|turns| - 1], turns[|turns| - 1].data;
      AllNalsAreUnits(before);
      forall k | 0 <= k < |Nals(data)| ensures IsUnitOfKind(Nals(data)[k].bytes, Nals(data)[k].kind) {
        YieldedIsNalUnit(data, k);
      }
    }
  }

  lemma CachedAreUnits(turns: seq<Turn>)
    requires Cached(turns).Ready()
    ensures IsUnitOfKind(Cached(turns).sps.value, NAL_SPS)
    ensures IsUnitOfKind(Cached(turns).pps.value, NAL_PPS)
  {
    AllNalsAreUnits(turns);
    LatestIsUnit(AllNals(turns), NAL_SPS);
    LatestIsUnit(AllNals(turns), NAL_PPS);
  }

  // ---- One written frame ----

  lemma StartsSplitsOff(x: Bytes, data: Bytes)
    requires HasStartCode(data)
    ensures Nals(x + data) == Nals(x) + Nals(data)
  {
    var y := data[4..];
    assert data == START_CODE + y && x + data == x + START_CODE + y;
    NalsConcat(x, y);
  }

  lemma UnitStarts(bytes: Bytes, kind: nat)
    requires IsUnitOfKind(bytes, kind)
    ensures HasStartCode(bytes) && Nals(bytes) == [Nal(kind, bytes)]
  {
    assert OccursAt(bytes, START_CODE, 0);
    NalUnitSplits(bytes);
  }

  /** A frame that begins with a start code keeps its NAL units behind the two parameter sets. */
  lemma PrefixedFrameSplits(sps: Bytes, pps: Bytes, data: Bytes)
    requires IsUnitOfKind(sps, NAL_SPS) && IsUnitOfKind(pps, NAL_PPS) && HasStartCode(data)
    ensures Nals(sps + pps + data) == [Nal(NAL_SPS, sps), Nal(NAL_PPS, pps)] + Nals(data)
  {
    UnitStarts(sps, NAL_SPS);
    UnitStarts(pps, NAL_PPS);
    StartsSplitsOff(sps, pps);
    StartsSplitsOff(sps + pps, data);
  }

  lemma StartsStays(a: Bytes, b: Bytes)
    requires HasStartCode(a)
    ensures HasStartCode(a + b)
  {
    assert (a + b)[0..4] == a[0..4];
    HasStartCodeIff(a + b);
  }

  /** Bytes without a start code of their own in front become part of the unit they are appended to. */
  lemma JunkInside(unit: Bytes, kind: nat, data: Bytes)
    requires IsUnitOfKind(unit, kind) && kind > 0 && !HasStartCode(data) && data != []
    ensures |Nals(unit + data)| >= 1
    ensures Nals(unit + data)[0].kind == kind && Nals(unit + data)[0].bytes != unit
  {
    var tail := unit + data;
    UnitStarts(unit, kind);
    StartsStays(unit, data);
    HasStartCodeIff(data);
    NalsStep(tail, 0);
    assert tail[0..] == tail && tail[4] == unit[4];
    assert |tail| >= 8 ==> tail[4..8][0] != 0;
    assert tail[|unit|..] == data;
    OccursInSuffix(tail, START_CODE, |unit|, 0);
  }

  /** Bytes in front of a frame's first start code end up inside the PPS glued before them. */
  lemma JunkSpoilsPps(sps: Bytes, pps: Bytes, data: Bytes)
    requires IsUnitOfKind(sps, NAL_SPS) && IsUnitOfKind(pps, NAL_PPS)
    requires !HasStartCode(data) && data != []
    ensures |Nals(sps + pps + data)| >= 2
    ensures Nals(sps + pps + data)[0] == Nal(NAL_SPS, sps)
    ensures Nals(sps + pps + data)[1].kind == NAL_PPS && Nals(sps + pps + data)[1].bytes != pps
  {
    UnitStarts(sps, NAL_SPS);
    UnitStarts(pps, NAL_PPS);
    StartsStays(pps, data);
    StartsSplitsOff(sps, pps + data);
    ConcatAssoc(sps, pps, data);
    JunkInside(pps, NAL_PPS, data);
  }

  /** What a decoder should find for the last of the frames. */
  function FrameNals(turns: seq<Turn>): seq<Nal>
    requires turns != []
  {
    var data, p := turns[|turns| - 1].data, Cached(turns);
    (if NeedsParams(data) then [Nal(NAL_SPS, OrEmpty(p.sps)), Nal(NAL_PPS, OrEmpty(p.pps))] else []) + Nals(data)
  }

  /**
   Behind a keyframe that has neither parameter set of its own, splitting what was written
   gives the last SPS and the last PPS of all frames so far and then the frame's own NAL
   units: exactly when the frame begins with a start code.
   */
  lemma ImageSplits(turns: seq<Turn>)
    requires turns != [] && Cached(turns).Ready()
    requires NeedsParams(turns[|turns| - 1].data)
    ensures var data := turns[|turns| - 1].data;
            Nals(Image(Cached(turns), data)) == FrameNals(turns) <==> HasStartCode(data)
  {
    var data, p := turns[|turns| - 1].data, Cached(turns);
    CachedAreUnits(turns);
    if HasStartCode(data) {
      PrefixedFrameSplits(p.sps.value, p.pps.value, data);
    } else {
      assert data != [] by {
        NalsOfNothing([]);
      }
      JunkSpoilsPps(p.sps.value, p.pps.value, data);
      assert FrameNals(turns)[1] == Nal(NAL_PPS, p.pps.value);
    }
  }

  // ---- Keyframes carry their parameter sets ----

  lemma HasKindIn(data: Bytes, x: seq<Nal>, y: seq<Nal>, kind: nat)
    requires Nals(data) == x + y
    ensures HasKind(data, kind) <==> kind in Kinds(x) || kind in Kinds(y)
  {
    assert Kinds(x + y) == Kinds(x) + Kinds(y);
  }

  /** In a frame's first start code's wake, whatever was put in front of the frame. */
  lemma PrefixKeepsKinds(x: Bytes, data: Bytes, kind: nat)
    requires HasKind(data, kind)
    ensures HasKind(x + data, kind)
  {
    SegmentsFromFirst(data);
    var f := Find(data, START_CODE, 0);
    if f >= 0 {
      var a := x + data[..f];
      assert x + data == a + data[f..];
      assert data[f..][..4] == data[f..f + 4];
      StartsSplitsOff(a, data[f..]);
      HasKindIn(x + data, Nals(a), Nals(data[f..]), kind);
    }
  }

  /** A prefixed keyframe holds both parameter sets, junk in front of its first start code or not. */
  lemma PrefixedHasAll(sps: Bytes, pps: Bytes, data: Bytes)
    requires IsUnitOfKind(sps, NAL_SPS) && IsUnitOfKind(pps, NAL_PPS) && HasKind(data, NAL_IDR)
    ensures forall kind :: kind in {NAL_SPS, NAL_PPS, NAL_IDR} ==> HasKind(sps + pps + data, kind)
  {
    PrefixKeepsKinds(sps + pps, data, NAL_IDR);
    UnitStarts(sps, NAL_SPS);
    UnitStarts(pps, NAL_PPS);
    assert data != [] by {
      NalsOfNothing([]);
    }
    if HasStartCode(data) {
      PrefixedFrameSplits(sps, pps, data);
    } else {
      JunkSpoilsPps(sps, pps, data);
    }
    var kinds := Kinds(Nals(sps + pps + data));
    assert kinds[0] == NAL_SPS && kinds[1] == NAL_PPS;
  }

  ghost predicate TogetherOrNot(data: Bytes) {
    HasKind(data, NAL_SPS) <==> HasKind(data, NAL_PPS)
  }

  predicate Decodable(chunk: Bytes) {
    HasKind(chunk, NAL_SPS) && HasKind(chunk, NAL_PPS)
  }

  /** A keyframe is written with both parameter sets exactly when it came with both or with neither. */
  lemma KeyframeIsDecodableIff(turns: seq<Turn>)
    requires turns != [] && Cached(turns).Ready()
    requires HasKind(turns[|turns| - 1].data, NAL_IDR)
    ensures var data := turns[|turns| - 1].data;
            && HasKind(Image(Cached(turns), data), NAL_IDR)
            && (Decodable(Image(Cached(turns), data)) <==> TogetherOrNot(data))
  {
    var data, p := turns[|turns| - 1].data, Cached(turns);
    CachedAreUnits(turns);
    if NeedsParams(data) {
      PrefixedHasAll(p.sps.value, p.pps.value, data);
    }
  }

  lemma {:induction false} ReadyFrom(turns: seq<Turn>, i: nat, j: nat)
    requires i <= j <= |turns| && Cached(turns[..i]).Ready()
    ensures Cached(turns[..j]).Ready()
    decreases j
  {
    if i < j {
      ReadyFrom(turns, i, j - 1);
      assert turns[..j] == turns[..j - 1] + [turns[j - 1]];
      CachedStep(turns[..j - 1], turns[j - 1]);
      ReadyStays(Cached(turns[..j - 1]), Nals(turns[j - 1].data));
    }
  }

  lemma {:induction false} PresentIsFrom(images: seq<Option<Bytes>>, k: nat) returns (j: nat)
    requires k < |Present(images)|
    ensures j < |images| && images[j] == Some(Present(images)[k])
    decreases |images|
  {
    var before := images[..|images| - 1];
    if k < |Present(before)| {
      j := PresentIsFrom(before, k);
    } else {
      j := |images| - 1;
    }
  }

  lemma {:induction false} PresentFirst(images: seq<Option<Bytes>>)
    requires images != [] && images[0].Some?
    ensures Present(images) != [] && Present(images)[0] == images[0].value
    decreases |images|
  {
    if |images| > 1 {
      PresentFirst(images[..|images| - 1]);
    } else {
      PresentOne(images[0]);
      assert images == [images[0]];
    }
  }

  lemma LifeBegins(turns: seq<Turn>, span: Span, dead: bool)
    requires IsLife(Marks(turns), span, dead)
    ensures span.first <= span.last <= |turns| && span.first < |turns|
    ensures Cached(turns[..span.first + 1]).Ready() && HasKind(turns[span.first].data, NAL_IDR)
  {
    assert Opens(turns[..span.first + 1]);
  }

  /** Every chunk of a span is the image of one of its frames. */
  lemma ChunkIsImage(turns: seq<Turn>, span: Span, chunks: seq<Bytes>, c: nat) returns (j: nat)
    requires span.first <= span.last <= |turns| && chunks == Delivered(turns, span) && c < |chunks|
    ensures span.first <= j < span.last && Piped(turns[..j + 1]) == Some(chunks[c])
  {
    var i := PresentIsFrom(OnPipe(turns)[span.first..span.last], c);
    j := span.first + i;
  }

  lemma FirstChunkIsKeyframe(turns: seq<Turn>, span: Span)
    requires span.first < span.last <= |turns|
    requires Cached(turns[..span.first + 1]).Ready() && HasKind(turns[span.first].data, NAL_IDR)
    ensures Delivered(turns, span) != [] && HasKind(Delivered(turns, span)[0], NAL_IDR)
  {
    var data, p := turns[span.first].data, Cached(turns[..span.first + 1]);
    PresentFirst(OnPipe(turns)[span.first..span.last]);
    if NeedsParams(data) {
      PrefixKeepsKinds(p.sps.value + p.pps.value, data, NAL_IDR);
    }
  }

  lemma {:induction false} PresentHas(images: seq<Option<Bytes>>, i: nat) returns (c: nat)
    requires i < |images| && images[i].Some?
    ensures c < |Present(images)| && Present(images)[c] == images[i].value
    decreases |images|
  {
    var before := images[..|images| - 1];
    if i < |before| {
      c := PresentHas(before, i);
    } else {
      c := |Present(before)|;
    }
  }

  lemma PipedIsDecodableIff(turns: seq<Turn>)
    requires turns != [] && Cached(turns).Ready()
    ensures var data, image := turns[|turns| - 1].data, Piped(turns);
            && (image.Some? ==> (HasKind(image.value, NAL_IDR) <==> HasKind(data, NAL_IDR)))
            && (HasKind(data, NAL_IDR) ==> image.Some? && (Decodable(image.value) <==> TogetherOrNot(data)))
  {
    if HasKind(turns[|turns| - 1].data, NAL_IDR) {
      KeyframeIsDecodableIff(turns);
    }
  }

  lemma FrameIsDecodableIff(turns: seq<Turn>, first: nat, j: nat)
    requires first <= j < |turns| && Cached(turns[..first + 1]).Ready()
    ensures var data, image := turns[j].data, Piped(turns[..j + 1]);
            && (image.Some? ==> (HasKind(image.value, NAL_IDR) <==> HasKind(data, NAL_IDR)))
            && (HasKind(data, NAL_IDR) ==> image.Some? && (Decodable(image.value) <==> TogetherOrNot(data)))
  {
    var now := turns[..j + 1];
    assert now[|now| - 1] == turns[j];
    ReadyFrom(turns, first + 1, j + 1);
    PipedIsDecodableIff(now);
  }

  /** Every keyframe among the chunks holds both parameter sets. */
  predicate AllDecodable(chunks: seq<Bytes>) {
    forall c :: 0 <= c < |chunks| && HasKind(chunks[c], NAL_IDR) ==> Decodable(chunks[c])
  }

  /** Each keyframe of a stretch came from the camera with both parameter sets or with neither. */
  ghost predicate AllTogether(turns: seq<Turn>, span: Span) {
    forall j :: span.first <= j < span.last && j < |turns| && HasKind(turns[j].data, NAL_IDR) ==>
      TogetherOrNot(turns[j].data)
  }

  lemma ChunkIsDecodable(turns: seq<Turn>, span: Span, c: nat)
    requires span.first <= span.last <= |turns| && AllTogether(turns, span) && c < |Delivered(turns, span)|
    requires span.first < |turns| && Cached(turns[..span.first + 1]).Ready()
    ensures var chunk := Delivered(turns, span)[c];
            HasKind(chunk, NAL_IDR) ==> Decodable(chunk)
  {
    var j := ChunkIsImage(turns, span, Delivered(turns, span), c);
    FrameIsDecodableIff(turns, span.first, j);
  }

  lemma TogetherIsDecodable(turns: seq<Turn>, span: Span)
    requires span.first <= span.last <= |turns| && AllTogether(turns, span)
    requires span.first < |turns| && Cached(turns[..span.first + 1]).Ready()
    ensures AllDecodable(Delivered(turns, span))
  {
    forall c | 0 <= c < |Delivered(turns, span)| && HasKind(Delivered(turns, span)[c], NAL_IDR)
      ensures Decodable(Delivered(turns, span)[c])
    {
      ChunkIsDecodable(turns, span, c);
    }
  }

  /** Every non-garbage frame of a span left a chunk. */
  lemma ImageIsChunk(turns: seq<Turn>, span: Span, j: nat) returns (c: nat)
    requires span.first <= j < span.last <= |turns| && Piped(turns[..j + 1]).Some?
    ensures c < |Delivered(turns, span)| && Delivered(turns, span)[c] == Piped(turns[..j + 1]).value
  {
    c := PresentHas(OnPipe(turns)[span.first..span.last], j - span.first);
  }

  lemma DecodableIsTogether(turns: seq<Turn>, span: Span)
    requires span.first <= span.last <= |turns| && AllDecodable(Delivered(turns, span))
    requires span.first < |turns| && Cached(turns[..span.first + 1]).Ready()
    ensures AllTogether(turns, span)
  {
    forall j | span.first <= j < span.last && j < |turns| && HasKind(turns[j].data, NAL_IDR)
      ensures TogetherOrNot(turns[j].data)
    {
      FrameIsDecodableIff(turns, span.first, j);
      var c := ImageIsChunk(turns, span, j);
    }
  }

  /**
   Every process begins with a keyframe, and every keyframe it received holds both parameter
   sets exactly when each keyframe of its stretch came with both or with neither.
   */
  lemma EveryProcessIsDecodable(turns: seq<Turn>, audio: bool, k: nat)
    requires !Run(turns, audio).raised && k < |Run(turns, audio).procs|
    ensures var chunks := Run(turns, audio).procs[k].chunks;
            && (chunks != [] ==> HasKind(chunks[0], NAL_IDR))
            && (AllDecodable(chunks) <==> AllTogether(turns, Run(turns, audio).spans[k]))
  {
    var span := ProcessLife(turns, audio, k);
    if Run(turns, audio).procs[k].chunks != [] {
      var j := ChunkIsImage(turns, span, Delivered(turns, span), 0);
      FirstChunkIsKeyframe(turns, span);
    }
    if AllTogether(turns, span) {
      TogetherIsDecodable(turns, span);
    }
    if AllDecodable(Delivered(turns, span)) {
      DecodableIsTogether(turns, span);
    }
  }

  /** The facts about one process that the delivery theorem gives. */
  lemma ProcessLife(turns: seq<Turn>, audio: bool, k: nat) returns (span: Span)
    requires !Run(turns, audio).raised && k < |Run(turns, audio).procs|
    ensures k < |Run(turns, audio).spans| && span == Run(turns, audio).spans[k]
    ensures span.first <= span.last <= |turns| && span.first < |turns|
    ensures Cached(turns[..span.first + 1]).Ready() && HasKind(turns[span.first].data, NAL_IDR)
    ensures Run(turns, audio).procs[k].chunks == Delivered(turns, span)
  {
    var s := Run(turns, audio);
    RunDelivers(turns, audio);
    span := s.spans[k];
    LifeBegins(turns, span, k < |s.spans| - 1 || !s.proc.Some?);
  }

  // ---- The whole byte stream of one process ----

  lemma FlattenOne(chunk: Bytes)
    ensures Flatten([chunk]) == chunk
  {
    assert [chunk] == [chunk] + [];
  }

  lemma {:induction false} FlattenSnoc(chunks: seq<Bytes>, last: Bytes)
    ensures Flatten(chunks + [last]) == Flatten(chunks) + last
    decreases |chunks|
  {
    if chunks == [] {
      assert chunks + [last] == [last] && Flatten([last][1..]) == [];
    } else {
      FlattenSnoc(chunks[1..], last);
      assert (chunks + [last])[1..] == chunks[1..] + [last];
      ConcatAssoc(chunks[0], Flatten(chunks[1..]), last);
    }
  }

  /** The NAL units of the frames from lo up to hi, each as a decoder should find it. */
  function ExpectedNals(turns: seq<Turn>, lo: nat, hi: nat): seq<Nal>
    requires lo <= hi <= |turns|
    decreases hi
  {
    if lo == hi then [] else ExpectedNals(turns, lo, hi - 1) + FrameNals(turns[..hi])
  }

  lemma ImageStarts(turns: seq<Turn>)
    requires turns != [] && HasStartCode(turns[|turns| - 1].data) && Cached(turns).Ready()
    ensures HasStartCode(Image(Cached(turns), turns[|turns| - 1].data))
  {
    var data, p := turns[|turns| - 1].data, Cached(turns);
    if NeedsParams(data) {
      CachedAreUnits(turns);
      UnitStarts(p.sps.value, NAL_SPS);
      assert Image(p, data)[0..4] == p.sps.value[0..4];
    }
  }

  lemma GarbageNals(turns: seq<Turn>)
    requires turns != [] && Garbage(turns[|turns| - 1].data)
    ensures FrameNals(turns) == []
  {
    assert !HasKind(turns[|turns| - 1].data, NAL_IDR);
  }

  lemma ImageNals(turns: seq<Turn>)
    requires turns != [] && HasStartCode(turns[|turns| - 1].data) && Cached(turns).Ready()
    ensures Nals(Image(Cached(turns), turns[|turns| - 1].data)) == FrameNals(turns)
  {
    if NeedsParams(turns[|turns| - 1].data) {
      ImageSplits(turns);
    }
  }

  /**
   A frame that leaves the units on both its sides whole: garbage, which is never written; a frame
   that begins with a start code; or the first frame of a process, when nothing is put in front of it.
   */
  predicate Clean(turns: seq<Turn>, lo: nat, j: nat)
    requires j < |turns|
  {
    var data := turns[j].data;
    Garbage(data) || HasStartCode(data) || (j == lo && !NeedsParams(data))
  }

  predicate CleanFrom(turns: seq<Turn>, lo: nat, hi: nat)
    decreases hi
  {
    lo < hi <= |turns| ==> CleanFrom(turns, lo, hi - 1) && Clean(turns, lo, hi - 1)
  }

  lemma PipedSplits(turns: seq<Turn>, x: Bytes)
    requires turns != [] && Cached(turns).Ready()
    requires var data := turns[|turns| - 1].data;
             Garbage(data) || HasStartCode(data) || (x == [] && !NeedsParams(data))
    ensures Nals(x + Flatten(Present([Piped(turns)]))) == Nals(x) + FrameNals(turns)
  {
    var data := turns[|turns| - 1].data;
    PresentOne(Piped(turns));
    if Garbage(data) {
      GarbageNals(turns);
      assert x + [] == x && Nals(x) + [] == Nals(x);
    } else if HasStartCode(data) {
      FlattenOne(Image(Cached(turns), data));
      ImageStarts(turns);
      ImageNals(turns);
      StartsSplitsOff(x, Image(Cached(turns), data));
    } else {
      FlattenOne(data);
      NalsOfNothing([]);
      assert [] + data == data && [] + Nals(data) == Nals(data);
    }
  }

  lemma FlattenPresentSnoc(images: seq<Option<Bytes>>, image: Option<Bytes>)
    ensures Flatten(Present(images + [image])) == Flatten(Present(images)) + Flatten(Present([image]))
  {
    assert (images + [image])[..|images|] == images;
    PresentOne(image);
    if image.Some? {
      FlattenSnoc(Present(images), image.value);
      FlattenOne(image.value);
    } else {
      assert Present(images) + [] == Present(images);
    }
  }

  lemma DeliveredGrows(turns: seq<Turn>, lo: nat, hi: nat)
    requires lo < hi <= |turns|
    ensures Flatten(Delivered(turns, Span(lo, hi)))
         == Flatten(Delivered(turns, Span(lo, hi - 1))) + Flatten(Present([Piped(turns[..hi])]))
  {
    var images := OnPipe(turns);
    assert images[lo..hi] == images[lo..hi - 1] + [images[hi - 1]];
    FlattenPresentSnoc(images[lo..hi - 1], images[hi - 1]);
  }

  lemma {:induction false} SpanSplits(turns: seq<Turn>, lo: nat, hi: nat)
    requires lo <= hi <= |turns| && CleanFrom(turns, lo, hi)
    requires lo < hi ==> Cached(turns[..lo + 1]).Ready()
    ensures Nals(Flatten(Delivered(turns, Span(lo, hi)))) == ExpectedNals(turns, lo, hi)
    decreases hi
  {
    if lo == hi {
      NothingDelivered(turns, lo);
      NalsOfNothing([]);
    } else {
      SpanSplits(turns, lo, hi - 1);
      SpanSplitsStep(turns, lo, hi);
    }
  }

  lemma NothingDelivered(turns: seq<Turn>, lo: nat)
    requires lo <= |turns|
    ensures Flatten(Delivered(turns, Span(lo, lo))) == []
  {
    assert OnPipe(turns)[lo..lo] == [];
  }

  lemma SpanSplitsStep(turns: seq<Turn>, lo: nat, hi: nat)
    requires lo < hi <= |turns| && Clean(turns, lo, hi - 1) && Cached(turns[..lo + 1]).Ready()
    requires Nals(Flatten(Delivered(turns, Span(lo, hi - 1)))) == ExpectedNals(turns, lo, hi - 1)
    ensures Nals(Flatten(Delivered(turns, Span(lo, hi)))) == ExpectedNals(turns, lo, hi)
  {
    DeliveredGrows(turns, lo, hi);
    if hi - 1 == lo {
      NothingDelivered(turns, lo);
    }
    FrameSplits(turns, lo, hi, Flatten(Delivered(turns, Span(lo, hi - 1))));
  }

  lemma FrameSplits(turns: seq<Turn>, lo: nat, hi: nat, x: Bytes)
    requires lo < hi <= |turns| && Clean(turns, lo, hi - 1) && Cached(turns[..lo + 1]).Ready()
    requires hi - 1 == lo ==> x == []
    ensures Nals(x + Flatten(Present([Piped(turns[..hi])]))) == Nals(x) + FrameNals(turns[..hi])
  {
    var now := turns[..hi];
    assert now[|now| - 1] == turns[hi - 1];
    ReadyFrom(turns, lo + 1, hi);
    PipedSplits(now, x);
  }

  /**
   From camera to decoder: when the frames of a process's own stretch are clean, the byte
   stream piped into it splits into the NAL units of those frames in order, with the parameter
   sets of the time in front of each keyframe that lacks them.
   */
  lemma ProcessStreamSplits(turns: seq<Turn>, audio: bool, k: nat)
    requires !Run(turns, audio).raised && k < |Run(turns, audio).procs|
    requires CleanFrom(turns, Run(turns, audio).spans[k].first, Run(turns, audio).spans[k].last)
    ensures var s := Run(turns, audio);
            && s.spans[k].first <= s.spans[k].last <= |turns|
            && Nals(Flatten(s.procs[k].chunks)) == ExpectedNals(turns, s.spans[k].first, s.spans[k].last)
  {
    var span := ProcessLife(turns, audio, k);
    SpanSplits(turns, span.first, span.last);
  }

  // ---- Byte for byte ----

  lemma ChunkIsDue(turns: seq<Turn>, span: Span, j: nat)
    requires span.first <= j < span.last <= |turns| && Nals(turns[j].data) != []
    ensures var chunks, c := Delivered(turns, span), Sendable(turns, span.first, j);
            c < |chunks| && chunks[c] == Due(turns[..j + 1])
  {
    DeliveredLast(turns, span.first, j, j + 1);
    ChunkStays(turns, span.first, j + 1, span.last, Sendable(turns, span.first, j));
  }

  /**
   What every process received, byte for byte: one chunk for each frame of its stretch that holds
   a NAL unit, in order, each the frame's own bytes, or these behind the last SPS and PPS if the
   frame holds a keyframe and brings neither.
   */
  lemma EveryChunkIsDue(turns: seq<Turn>, audio: bool, k: nat, j: nat)
    requires !Run(turns, audio).raised && k < |Run(turns, audio).procs|
    requires var span := Run(turns, audio).spans[k];
             span.first <= j < span.last && j < |turns| && Nals(turns[j].data) != []
    ensures var span, chunks := Run(turns, audio).spans[k], Run(turns, audio).procs[k].chunks;
            var c, kinds, all := Sendable(turns, span.first, j), Kinds(Nals(turns[j].data)), AllNals(turns[..j + 1]);
            && span.last <= |turns| && |chunks| == Sendable(turns, span.first, span.last) && c < |chunks|
            && Latest(all, 7).Some? && Latest(all, 8).Some?
            && chunks[c] == if 5 !in kinds || 7 in kinds || 8 in kinds then turns[j].data
                            else Latest(all, 7).value + Latest(all, 8).value + turns[j].data
  {
    var span := ProcessLife(turns, audio, k);
    DeliveredCount(turns, span.first, span.last);
    ChunkIsDue(turns, span, j);
    ReadyFrom(turns, span.first + 1, j + 1);
    assert turns[..j + 1][j] == turns[j];
  }
}
