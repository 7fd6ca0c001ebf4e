/**
 H.264 byte streams (Annex B of ITU-T H.264): the NAL splitter of
 `_rtp_forwarder.py` and what it computes.
 */
module AnnexB {
  import opened Separators

  type Byte = b: int | 0 <= b < 256
  type Bytes = seq<Byte>

  /** The depayloader writes four-byte start codes only. */
  const START_CODE: Bytes := [0, 0, 0, 1]

  // NAL unit types, section 1.3 of RFC 6184.
  const NAL_IDR := 5
  const NAL_SPS := 7
  const NAL_PPS := 8

  /** A NAL unit as yielded: its type and its bytes, start code included. */
  datatype Nal = Nal(kind: nat, bytes: Bytes)

  lemma StartCodeUnbordered()
    ensures Unbordered(START_CODE)
  {
    assert forall k :: 0 < k < 4 ==> START_CODE[k..][3 - k] == 1 && START_CODE[..4 - k][3 - k] == 0;
  }

  function Flatten(chunks: seq<Bytes>): Bytes {
    if chunks == [] then [] else chunks[0] + Flatten(chunks[1..])
  }

  /** Each body behind a start code of its own. */
  function Prefixed(bodies: seq<Bytes>): seq<Bytes> {
    seq(|bodies|, k requires 0 <= k < |bodies| => START_CODE + bodies[k])
  }

  /** The stretches of data from one start code to the next. */
  function Segments(data: Bytes): seq<Bytes> {
    Prefixed(Split(data, START_CODE)[1..])
  }

  /** The segments longer than a start code, with the type from the low five bits of the octet behind it. */
  function NalsOf(segments: seq<Bytes>): seq<Nal> {
    if segments == [] then []
    else (if |segments[0]| > 4 then [Nal(segments[0][4] % 32, segments[0])] else []) + NalsOf(segments[1..])
  }

  function Nals(data: Bytes): seq<Nal> {
    NalsOf(Segments(data))
  }

  function Kinds(nals: seq<Nal>): seq<nat> {
    seq(|nals|, k requires 0 <= k < |nals| => nals[k].kind)
  }

  /** `_iter_nals`: one pass from start code to start code. */
  method IterNals(data: Bytes) returns (nals: seq<Nal>)
    ensures nals == Nals(data)
  {
    nals := [];
    var pos := Find(data, START_CODE, 0);
    if pos < 0 {
      return;
    }
    SegmentsFromFirst(data);
    var n := |data|;
    while pos < n
      invariant 0 <= pos <= n
      invariant pos < n ==> OccursAt(data, START_CODE, pos)
      invariant nals + Nals(data[pos..]) == Nals(data)
    {
      var end := Find(data, START_CODE, pos + 4);
      if end < 0 {
        end := n;
      }
      TakeSegment(nals, data, pos);
      var nal := data[pos..end];
      if |nal| > 4 {
        nals := nals + [Nal(nal[4] % 32, nal)];
      }
      pos := end;
    }
    NalsOfNothing(data[pos..]);
  }

  lemma NalsOfNothing(data: Bytes)
    requires data == []
    ensures Nals(data) == []
  {
    SegmentsOfFree(data);
  }

  lemma NalsStep(data: Bytes, pos: nat)
    requires OccursAt(data, START_CODE, pos)
    ensures var end := SegmentEnd(data, pos);
            var nal := data[pos..end];
            Nals(data[pos..]) == (if |nal| > 4 then [Nal(nal[4] % 32, nal)] else []) + Nals(data[end..])
  {
    SegmentsStep(data, pos);
  }

  lemma TakeSegment(nals: seq<Nal>, data: Bytes, pos: nat)
    requires OccursAt(data, START_CODE, pos)
    ensures var end := SegmentEnd(data, pos);
            var nal := data[pos..end];
            && (|nal| > 4 ==> (nals + [Nal(nal[4] % 32, nal)]) + Nals(data[end..]) == nals + Nals(data[pos..]))
            && (|nal| <= 4 ==> nals + Nals(data[end..]) == nals + Nals(data[pos..]))
  {
    NalsStep(data, pos);
    var end := SegmentEnd(data, pos);
    var nal := data[pos..end];
    if |nal| > 4 {
      ConcatAssoc(nals, [Nal(nal[4] % 32, nal)], Nals(data[end..]));
    } else {
      assert [] + Nals(data[end..]) == Nals(data[end..]);
    }
  }

  /** Behind x, each start code opens a segment of its own. */
  lemma SegmentsConcat(x: Bytes, y: Bytes)
    ensures Segments(x + START_CODE + y) == Segments(x) + Prefixed(Split(y, START_CODE))
    ensures Segments(START_CODE + y) == Prefixed(Split(y, START_CODE))
  {
    StartCodeUnbordered();
    SplitConcat(x, START_CODE, y);
    SplitFromFront(START_CODE, y);
    var a, b := Split(x, START_CODE), Split(y, START_CODE);
    assert (a + b)[1..] == a[1..] + b;
    PrefixedConcat(a[1..], b);
    assert ([[]] + b)[1..] == b;
  }

  lemma PrefixedConcat(a: seq<Bytes>, b: seq<Bytes>)
    ensures Prefixed(a + b) == Prefixed(a) + Prefixed(b)
  {
  }

  lemma SegmentsOfFree(x: Bytes)
    requires !Contains(x, START_CODE)
    ensures Segments(x) == []
  {
    SplitFreeText(x, START_CODE);
  }

  lemma SegmentsFromFirst(data: Bytes)
    ensures Find(data, START_CODE, 0) >= 0 ==> Segments(data) == Segments(data[Find(data, START_CODE, 0)..])
    ensures Find(data, START_CODE, 0) < 0 ==> Segments(data) == []
  {
    var f := Find(data, START_CODE, 0);
    if f >= 0 {
      FreeBeforeFirst(data, f);
      SegmentsFrom(data, f);
    } else {
      SegmentsOfFree(data);
    }
  }

  lemma FreeBeforeFirst(data: Bytes, f: nat)
    requires f <= |data| && forall i :: 0 <= i < f ==> !OccursAt(data, START_CODE, i)
    ensures !Contains(data[..f], START_CODE)
  {
    forall j ensures !OccursAt(data[..f], START_CODE, j) {
      OccursInPrefix(data, START_CODE, f, j);
    }
  }

  lemma SegmentsFrom(data: Bytes, f: nat)
    requires OccursAt(data, START_CODE, f) && !Contains(data[..f], START_CODE)
    ensures Segments(data) == Segments(data[f..])
  {
    var x, y := data[..f], data[f + 4..];
    assert data[f..] == START_CODE + y;
    assert data == x + (START_CODE + y) == x + START_CODE + y;
    SegmentsConcat(x, y);
    SegmentsOfFree(x);
  }

  /** Where the segment that opens at pos ends. */
  function SegmentEnd(data: Bytes, pos: nat): (end: nat)
    requires OccursAt(data, START_CODE, pos)
    ensures pos + 4 <= end <= |data|
    ensures end < |data| ==> OccursAt(data, START_CODE, end)
  {
    var found := Find(data, START_CODE, pos + 4);
    if found < 0 then |data| else found
  }

  /** A start code and a body without one are a single segment. */
  lemma SegmentsOfUnit(body: Bytes)
    requires !Contains(body, START_CODE)
    ensures Segments(START_CODE + body) == [START_CODE + body]
  {
    SegmentsConcat([], body);
    SplitFreeText(body, START_CODE);
  }

  lemma SegmentBodyIsFree(data: Bytes, pos: nat)
    requires OccursAt(data, START_CODE, pos)
    ensures !Contains(data[pos + 4..SegmentEnd(data, pos)], START_CODE)
  {
    var end := SegmentEnd(data, pos);
    var body, first := data[pos + 4..], data[pos + 4..end];
    assert first == body[..end - pos - 4];
    forall j ensures !OccursAt(first, START_CODE, j) {
      OccursInPrefix(body, START_CODE, end - pos - 4, j);
      if 0 <= j {
        OccursInSuffix(data, START_CODE, pos + 4, j);
      }
    }
  }

  /** One turn of the splitter: a segment up to the next start code, then the rest. */
  lemma SegmentsStep(data: Bytes, pos: nat)
    requires OccursAt(data, START_CODE, pos)
    ensures Segments(data[pos..]) == [data[pos..SegmentEnd(data, pos)]] + Segments(data[SegmentEnd(data, pos)..])
  {
    var end := SegmentEnd(data, pos);
    var unit := data[pos..end];
    assert unit == START_CODE + data[pos + 4..end];
    SegmentBodyIsFree(data, pos);
    SegmentsOfUnit(data[pos + 4..end]);
    if end < |data| {
      var rest := data[end + 4..];
      assert data[end..] == START_CODE + rest && data[pos..] == unit + START_CODE + rest;
      SegmentsConcat(unit, rest);
    } else {
      assert data[end..] == [] && data[pos..] == unit;
      SegmentsOfFree([]);
    }
  }

  /** A well-formed NAL unit: a start code in front, at least one byte behind it, and no second start code. */
  ghost predicate IsNalUnit(bytes: Bytes) {
    && |bytes| > 4
    && forall i :: OccursAt(bytes, START_CODE, i) <==> i == 0
  }

  lemma PrefixedHasOneStartCode(body: Bytes)
    requires !Contains(body, START_CODE)
    ensures forall i :: OccursAt(START_CODE + body, START_CODE, i) <==> i == 0
  {
    StartCodeUnbordered();
    var s := START_CODE + body;
    assert s[4..] == body;
    forall i ensures OccursAt(s, START_CODE, i) <==> i == 0 {
      if i > 0 && OccursAt(s, START_CODE, i) {
        NoOverlap(s, START_CODE, 0, i);
        OccursInSuffix(s, START_CODE, 4, i - 4);
      }
    }
  }

  /**
   The splitter cuts at every start code and nowhere else: put together, the segments
   are the data from its first start code on, and each holds one start code, in front.
   */
  lemma SegmentsAreExact(data: Bytes)
    ensures var first := Find(data, START_CODE, 0);
            Flatten(Segments(data)) == if first < 0 then [] else data[first..]
    ensures forall k, i :: 0 <= k < |Segments(data)| ==> (OccursAt(Segments(data)[k], START_CODE, i) <==> i == 0)
  {
    SegmentsFromFirst(data);
    var first := Find(data, START_CODE, 0);
    if first >= 0 {
      FlattenSegments(data, first);
    }
    var parts := Split(data, START_CODE);
    SplitIsFree(data, START_CODE);
    forall k | 0 <= k < |Segments(data)|
      ensures forall i :: OccursAt(Segments(data)[k], START_CODE, i) <==> i == 0
    {
      assert !Contains(parts[k + 1], START_CODE);
      PrefixedHasOneStartCode(parts[k + 1]);
    }
  }

  lemma {:induction false} FlattenSegments(data: Bytes, pos: nat)
    requires pos <= |data|
    requires pos < |data| ==> OccursAt(data, START_CODE, pos)
    ensures Flatten(Segments(data[pos..])) == data[pos..]
    decreases |data| - pos
  {
    if pos == |data| {
      assert data[pos..] == [];
    } else {
      SegmentsStep(data, pos);
      var end := SegmentEnd(data, pos);
      FlattenSegments(data, end);
      assert data[pos..] == data[pos..end] + data[end..];
    }
  }

  lemma {:induction false} NalsOfSegment(segments: seq<Bytes>, k: nat)
    requires k < |NalsOf(segments)|
    ensures var nal := NalsOf(segments)[k]; nal.bytes in segments && |nal.bytes| > 4 && nal.kind == nal.bytes[4] % 32
    decreases |segments|
  {
    var here := if |segments[0]| > 4 then 1 else 0;
    if here <= k {
      NalsOfSegment(segments[1..], k - here);
    }
  }

  /** Every NAL unit yielded is well formed and typed by its first octet. */
  lemma YieldedIsNalUnit(data: Bytes, k: nat)
    requires k < |Nals(data)|
    ensures IsNalUnit(Nals(data)[k].bytes)
    ensures Nals(data)[k].kind == Nals(data)[k].bytes[4] % 32
  {
    NalsOfSegment(Segments(data), k);
    SegmentsAreExact(data);
  }

  /** A frame is garbage exactly when every start code in it is followed by another one or by nothing. */
  lemma GarbageIff(data: Bytes)
    ensures Nals(data) == []
       <==> forall i :: OccursAt(data, START_CODE, i) ==> i + 4 == |data| || OccursAt(data, START_CODE, i + 4)
  {
    SegmentsFromFirst(data);
    var first := Find(data, START_CODE, 0);
    if first >= 0 {
      BareFrom(data, first);
    }
  }

  lemma {:induction false} BareFrom(data: Bytes, pos: nat)
    requires pos <= |data|
    requires pos < |data| ==> OccursAt(data, START_CODE, pos)
    ensures Nals(data[pos..]) == []
       <==> forall i :: pos <= i && OccursAt(data, START_CODE, i) ==>
              i + 4 == |data| || OccursAt(data, START_CODE, i + 4)
    decreases |data| - pos
  {
    if pos == |data| {
      assert data[pos..] == [];
    } else {
      SegmentsStep(data, pos);
      StartCodeUnbordered();
      var end := SegmentEnd(data, pos);
      BareFrom(data, end);
      forall i | pos < i < end ensures !OccursAt(data, START_CODE, i) {
        if OccursAt(data, START_CODE, i) {
          NoOverlap(data, START_CODE, pos, i);
        }
      }
      assert pos + 4 == |data| || OccursAt(data, START_CODE, pos + 4) <==> end == pos + 4;
    }
  }

  /** Whatever stands in front of a start code, the NAL units from there on are found as they are. */
  lemma NalsConcat(x: Bytes, y: Bytes)
    ensures Nals(x + START_CODE + y) == Nals(x) + Nals(START_CODE + y)
  {
    SegmentsConcat(x, y);
    NalsOfConcat(Segments(x), Prefixed(Split(y, START_CODE)));
  }

  lemma {:induction false} NalsOfConcat(a: seq<Bytes>, b: seq<Bytes>)
    ensures NalsOf(a + b) == NalsOf(a) + NalsOf(b)
    decreases |a|
  {
    if a == [] {
      assert a + b == b;
    } else {
      NalsOfConcat(a[1..], b);
      assert (a + b)[0] == a[0] && (a + b)[1..] == a[1..] + b;
      var here := if |a[0]| > 4 then [Nal(a[0][4] % 32, a[0])] else [];
      ConcatAssoc(here, NalsOf(a[1..]), NalsOf(b));
    }
  }

  /** A well-formed NAL unit splits into itself. */
  lemma NalUnitSplits(bytes: Bytes)
    requires IsNalUnit(bytes)
    ensures Nals(bytes) == [Nal(bytes[4] % 32, bytes)]
  {
    assert OccursAt(bytes, START_CODE, 0);
    var body := bytes[4..];
    assert bytes == START_CODE + body;
    forall j ensures !OccursAt(body, START_CODE, j) {
      if 0 <= j {
        OccursInSuffix(bytes, START_CODE, 4, j);
      }
    }
    SegmentsOfUnit(body);
    assert Nals(bytes) == NalsOf([bytes]) && [bytes][1..] == [];
  }

  /**
   Splitting undoes building: bodies free of start codes come back one by one, in order,
   even when they end in zero bytes.
   */
  lemma {:induction false} SplittingUndoesBuilding(bodies: seq<Bytes>)
    requires forall k :: 0 <= k < |bodies| ==> bodies[k] != [] && !Contains(bodies[k], START_CODE)
    ensures var nals := Nals(Flatten(Prefixed(bodies)));
            && |nals| == |bodies|
            && forall k :: 0 <= k < |bodies| ==> nals[k] == Nal(bodies[k][0] % 32, START_CODE + bodies[k])
    decreases |bodies|
  {
    if bodies != [] {
      var unit := START_CODE + bodies[0];
      PrefixedHasOneStartCode(bodies[0]);
      NalUnitSplits(unit);
      var rest := Flatten(Prefixed(bodies[1..]));
      SplittingUndoesBuilding(bodies[1..]);
      assert Prefixed(bodies)[1..] == Prefixed(bodies[1..]);
      if |bodies| > 1 {
        assert Prefixed(bodies[1..])[1..] == Prefixed(bodies[2..]);
        var y := bodies[1] + Flatten(Prefixed(bodies[2..]));
        assert rest == START_CODE + y;
        assert unit + rest == unit + START_CODE + y;
        NalsConcat(unit, y);
      } else {
        assert unit + rest == unit;
      }
    }
  }
}
