/**
 The hand-off queues: video frames (`_on_frame`, drops the newest when full), audio
 frames (`_on_audio`, drops the oldest) and MQTT state (`publish_state`, drops the
 oldest), each between a producer that never waits and a consumer.
 */
module Queues {
  import opened Wrappers
  import opened Separators

  /** `asyncio.Queue`: a maxsize of zero or less means no bound. */
  class BoundedQueue<T> {
    const maxsize: int
    var items: seq<T>

    constructor (maxsize: int)
      ensures Valid() && this.maxsize == maxsize && items == []
    {
      this.maxsize := maxsize;
      items := [];
    }

    ghost predicate Valid()
      reads this
    {
      maxsize > 0 ==> |items| <= maxsize
    }

    predicate Full()
      reads this
    {
      IsFull(maxsize, items)
    }

    method PutNowait(x: T) returns (ok: bool)
      requires Valid()
      modifies this
      ensures Valid()
      ensures ok == !old(Full())
      ensures items == if ok then old(items) + [x] else old(items)
    {
      ok := !Full();
      if ok {
        items := items + [x];
      }
    }

    method GetNowait() returns (x: Option<T>)
      requires Valid()
      modifies this
      ensures Valid()
      ensures old(items) == [] ==> x == None && items == []
      ensures old(items) != [] ==> x == Some(old(items)[0]) && items == old(items)[1..]
    {
      if items == [] {
        return None;
      }
      x := Some(items[0]);
      items := items[1..];
    }
  }

  predicate IsFull<T>(maxsize: int, items: seq<T>) {
    maxsize > 0 && |items| >= maxsize
  }

  /** What an offer leaves in a queue that refuses what does not fit. */
  function Refusing<T>(maxsize: int, items: seq<T>, x: T): seq<T> {
    if IsFull(maxsize, items) then items else items + [x]
  }

  /** What an offer leaves in a queue that makes room by dropping its oldest entry. */
  function MakingRoom<T>(maxsize: int, items: seq<T>, x: T): seq<T> {
    if IsFull(maxsize, items) then items[1..] + [x] else items + [x]
  }

  class VideoTap {
    const queue: BoundedQueue<seq<int>>
    var drops: nat

    constructor (maxsize: int)
      ensures fresh(queue) && queue.Valid() && queue.maxsize == maxsize && queue.items == [] && drops == 0
    {
      queue := new BoundedQueue<seq<int>>(maxsize);
      drops := 0;
    }

    method OnFrame(data: seq<int>)
      requires queue.Valid()
      modifies this, queue
      ensures queue.Valid()
      ensures data == [] ==> queue.items == old(queue.items) && drops == old(drops)
      ensures data != [] ==> queue.items == Refusing(queue.maxsize, old(queue.items), data)
      ensures data != [] ==> drops == old(drops) + if IsFull(queue.maxsize, old(queue.items)) then 1 else 0
    {
      if data == [] {
        return;
      }
      var ok := queue.PutNowait(data);
      if !ok {
        drops := drops + 1;
      }
    }
  }

  class AudioTap {
    const queue: BoundedQueue<seq<int>>
    var framesSeen: nat

    constructor (maxsize: int)
      ensures fresh(queue) && queue.Valid() && queue.maxsize == maxsize && queue.items == [] && framesSeen == 0
    {
      queue := new BoundedQueue<seq<int>>(maxsize);
      framesSeen := 0;
    }

    method OnAudio(data: seq<int>)
      requires queue.Valid()
      modifies this, queue
      ensures queue.Valid()
      ensures data == [] ==> queue.items == old(queue.items) && framesSeen == old(framesSeen)
      ensures data != [] ==> queue.items == MakingRoom(queue.maxsize, old(queue.items), data)
      ensures data != [] ==> framesSeen == old(framesSeen) + 1
    {
      if data == [] {
        return;
      }
      framesSeen := framesSeen + 1;
      var ok := queue.PutNowait(data);
      if !ok {
        var oldest := queue.GetNowait();
        if oldest.Some? {
          ok := queue.PutNowait(data);
        }
      }
    }
  }

  /** The publishing side of `MqttControl`. */
  class StateOutbox<Summary> {
    const enabled: bool
    const queue: BoundedQueue<Summary>
    var lastState: Option<Summary>

    constructor (enabled: bool)
      ensures fresh(queue) && queue.Valid() && queue.maxsize == 8 && queue.items == []
      ensures lastState == None && this.enabled == enabled
    {
      this.enabled := enabled;
      queue := new BoundedQueue<Summary>(8);
      lastState := None;
    }

    method PublishState(summary: Summary)
      requires queue.Valid()
      modifies this, queue
      ensures queue.Valid()
      ensures lastState == Some(summary)
      ensures queue.items == if enabled then MakingRoom(queue.maxsize, old(queue.items), summary) else old(queue.items)
    {
      lastState := Some(summary);
      if !enabled {
        return;
      }
      var ok := queue.PutNowait(summary);
      if !ok {
        var oldest := queue.GetNowait();
        if oldest.Some? {
          ok := queue.PutNowait(summary);
        }
      }
    }
  }

  // ---- Any interleaving of producer and consumer ----

  datatype Op<T> = Offer(x: T) | Take

  datatype Trace<T> = Trace(items: seq<T>, taken: seq<T>, drops: nat)

  function Offers<T>(ops: seq<Op<T>>): seq<T>
    decreases |ops|
  {
    if ops == [] then []
    else Offers(ops[..|ops| - 1]) + match ops[|ops| - 1] case Offer(x) => [x] case Take => []
  }

  function TakeFrom<T>(t: Trace<T>): Trace<T> {
    if t.items == [] then t else t.(items := t.items[1..], taken := t.taken + [t.items[0]])
  }

  /** One operation on a queue that refuses. */
  function Refuse<T>(maxsize: int, t: Trace<T>, op: Op<T>): Trace<T> {
    if op.Take? then TakeFrom(t)
    else t.(items := Refusing(maxsize, t.items, op.x), drops := t.drops + if IsFull(maxsize, t.items) then 1 else 0)
  }

  /** One operation on a queue that makes room. */
  function MakeRoom<T>(maxsize: int, t: Trace<T>, op: Op<T>): Trace<T> {
    if op.Take? then TakeFrom(t)
    else t.(items := MakingRoom(maxsize, t.items, op.x), drops := t.drops + if IsFull(maxsize, t.items) then 1 else 0)
  }

  function RunRefusing<T>(maxsize: int, ops: seq<Op<T>>): Trace<T>
    decreases |ops|
  {
    if ops == [] then Trace([], [], 0) else Refuse(maxsize, RunRefusing(maxsize, ops[..|ops| - 1]), ops[|ops| - 1])
  }

  function RunMakingRoom<T>(maxsize: int, ops: seq<Op<T>>): Trace<T>
    decreases |ops|
  {
    if ops == [] then Trace([], [], 0) else MakeRoom(maxsize, RunMakingRoom(maxsize, ops[..|ops| - 1]), ops[|ops| - 1])
  }

  /** a is what remains of b, in order, after leaving some entries out. */
  ghost predicate Subsequence<T>(a: seq<T>, b: seq<T>)
    decreases |b|
  {
    if a == [] then true
    else if b == [] then false
    else (a[|a| - 1] == b[|b| - 1] && Subsequence(a[..|a| - 1], b[..|b| - 1])) || Subsequence(a, b[..|b| - 1])
  }

  lemma SubsequenceSnoc<T>(a: seq<T>, b: seq<T>, x: T)
    requires Subsequence(a, b)
    ensures Subsequence(a + [x], b + [x]) && Subsequence(a, b + [x])
  {
    assert (a + [x])[..|a|] == a && (b + [x])[..|b|] == b;
  }

  lemma {:induction false} SubsequencePrefix<T>(a: seq<T>, b: seq<T>, c: seq<T>)
    requires Subsequence(a + b, c)
    ensures Subsequence(a, c)
    decreases |c|, |b|
  {
    if b == [] {
      assert a + b == a;
    } else if a != [] {
      var whole, shorter := a + b, c[..|c| - 1];
      assert whole[..|whole| - 1] == a + b[..|b| - 1];
      if Subsequence(whole, shorter) {
        SubsequencePrefix(a, b, shorter);
      } else {
        SubsequencePrefix(a, b[..|b| - 1], shorter);
      }
    }
  }

  ghost predicate InOrder<T>(maxsize: int, t: Trace<T>, offers: seq<T>) {
    && Subsequence(t.taken + t.items, offers)
    && |t.taken| + |t.items| + t.drops == |offers|
    && (maxsize > 0 ==> |t.items| <= maxsize)
    && (t.drops == 0 ==> t.taken + t.items == offers)
  }

  lemma TakeKeepsOrder<T>(maxsize: int, t: Trace<T>, offers: seq<T>)
    requires InOrder(maxsize, t, offers)
    ensures InOrder(maxsize, TakeFrom(t), offers)
  {
    assert TakeFrom(t).taken + TakeFrom(t).items == t.taken + t.items;
  }

  lemma RefuseKeepsOrder<T>(maxsize: int, t: Trace<T>, offers: seq<T>, x: T)
    requires InOrder(maxsize, t, offers)
    ensures IsFull(maxsize, t.items) ==> InOrder(maxsize, t.(drops := t.drops + 1), offers + [x])
    ensures !IsFull(maxsize, t.items) ==> InOrder(maxsize, t.(items := t.items + [x]), offers + [x])
  {
    SubsequenceSnoc(t.taken + t.items, offers, x);
    assert t.taken + (t.items + [x]) == t.taken + t.items + [x];
  }

  /**
   The video queue loses only what it refuses: frames taken and still queued are an in-order
   selection of the frames offered, complete but for the counted drops.
   */
  lemma {:induction false} RefusingKeepsOrder<T>(maxsize: int, ops: seq<Op<T>>)
    ensures InOrder(maxsize, RunRefusing(maxsize, ops), Offers(ops))
    decreases |ops|
  {
    if ops != [] {
      var before := ops[..|ops| - 1];
      RefusingKeepsOrder(maxsize, before);
      match ops[|ops| - 1]
      case Take =>
        TakeKeepsOrder(maxsize, RunRefusing(maxsize, before), Offers(before));
        assert Offers(ops) == Offers(before);
      case Offer(x) =>
        RefuseKeepsOrder(maxsize, RunRefusing(maxsize, before), Offers(before), x);
    }
  }

  /** `items` are the latest offers, and what was taken is a selection of the earlier ones. */
  ghost predicate Latest<T>(maxsize: int, t: Trace<T>, offers: seq<T>) {
    && |t.items| <= maxsize && |t.items| <= |offers|
    && t.items == offers[|offers| - |t.items|..]
    && Subsequence(t.taken, offers[..|offers| - |t.items|])
    && |t.taken| + |t.items| + t.drops == |offers|
  }

  lemma TakeKeepsLatest<T>(maxsize: int, t: Trace<T>, offers: seq<T>)
    requires Latest(maxsize, t, offers)
    ensures Latest(maxsize, TakeFrom(t), offers)
  {
    if t.items != [] {
      var head := offers[..|offers| - |t.items|];
      SubsequenceSnoc(t.taken, head, t.items[0]);
      assert offers[..|offers| - |t.items| + 1] == head + [t.items[0]];
    }
  }

  lemma OfferKeepsLatest<T>(maxsize: int, t: Trace<T>, offers: seq<T>, x: T)
    requires maxsize > 0 && Latest(maxsize, t, offers)
    ensures Latest(maxsize, MakeRoom(maxsize, t, Offer(x)), offers + [x])
  {
    var head, now := offers[..|offers| - |t.items|], offers + [x];
    if IsFull(maxsize, t.items) {
      SubsequenceSnoc(t.taken, head, t.items[0]);
      assert now[..|now| - |t.items|] == head + [t.items[0]];
    } else {
      assert now[..|offers| - |t.items|] == head;
    }
  }

  lemma OpKeepsLatest<T>(maxsize: int, t: Trace<T>, ops: seq<Op<T>>)
    requires maxsize > 0 && ops != [] && Latest(maxsize, t, Offers(ops[..|ops| - 1]))
    ensures Latest(maxsize, MakeRoom(maxsize, t, ops[|ops| - 1]), Offers(ops))
  {
    var earlier := Offers(ops[..|ops| - 1]);
    match ops[|ops| - 1]
    case Take =>
      TakeKeepsLatest(maxsize, t, earlier);
      assert Offers(ops) == earlier;
    case Offer(x) =>
      OfferKeepsLatest(maxsize, t, earlier, x);
  }

  /**
   The audio and state queues hold exactly the most recent offers, at most `maxsize` of them,
   and what was taken is an in-order selection of the offers before those.
   */
  lemma {:induction false} MakingRoomKeepsLatest<T>(maxsize: int, ops: seq<Op<T>>)
    requires maxsize > 0
    ensures Latest(maxsize, RunMakingRoom(maxsize, ops), Offers(ops))
    decreases |ops|
  {
    if ops != [] {
      MakingRoomKeepsLatest(maxsize, ops[..|ops| - 1]);
      OpKeepsLatest(maxsize, RunMakingRoom(maxsize, ops[..|ops| - 1]), ops);
    }
  }

  // ---- The three queues, driven by any interleaving ----

  /** The operations without the offers of empty frames. */
  function Heard(ops: seq<Op<seq<int>>>): seq<Op<seq<int>>>
    decreases |ops|
  {
    if ops == [] then []
    else
      var last := ops[|ops| - 1];
      Heard(ops[..|ops| - 1]) + if last == Offer([]) then [] else [last]
  }

  lemma OneMoreOp<T>(maxsize: int, ops: seq<Op<T>>, op: Op<T>)
    ensures RunRefusing(maxsize, ops + [op]) == Refuse(maxsize, RunRefusing(maxsize, ops), op)
    ensures RunMakingRoom(maxsize, ops + [op]) == MakeRoom(maxsize, RunMakingRoom(maxsize, ops), op)
    ensures Offers(ops + [op]) == Offers(ops) + if op.Take? then [] else [op.x]
  {
    assert (ops + [op])[..|ops|] == ops;
  }

  /**
   The video queue never gives up a frame that it took in, and takes in every one it has room for:
   what was taken and what is queued only ever grows, by each offer that finds the queue not full.
   */
  lemma RefusingIsExact<T>(maxsize: int, ops: seq<Op<T>>, op: Op<T>)
    ensures var t, r := RunRefusing(maxsize, ops), RunRefusing(maxsize, ops + [op]);
            var full := maxsize > 0 && |t.items| >= maxsize;
            && r.taken + r.items == t.taken + t.items + (if op.Take? || full then [] else [op.x])
            && r.drops == t.drops + (if op.Offer? && full then 1 else 0)
            && (op.Take? ==> |r.taken| == |t.taken| + if t.items == [] then 0 else 1)
  {
    var t := RunRefusing(maxsize, ops);
    OneMoreOp(maxsize, ops, op);
    if op.Take? {
      assert t.items != [] ==> (t.taken + [t.items[0]]) + t.items[1..] == t.taken + t.items;
    } else {
      ConcatAssoc(t.taken, t.items, [op.x]);
    }
  }

  lemma HeardStep(ops: seq<Op<seq<int>>>, i: nat)
    requires i < |ops|
    ensures Heard(ops[..i + 1]) == if ops[i] == Offer([]) then Heard(ops[..i]) else Heard(ops[..i]) + [ops[i]]
  {
    assert ops[..i + 1][..i] == ops[..i];
  }

  lemma RefusingStep(maxsize: int, ops: seq<Op<seq<int>>>, i: nat)
    requires i < |ops|
    ensures var t := RunRefusing(maxsize, Heard(ops[..i]));
            RunRefusing(maxsize, Heard(ops[..i + 1])) == if ops[i] == Offer([]) then t else Refuse(maxsize, t, ops[i])
  {
    HeardStep(ops, i);
    OneMoreOp(maxsize, Heard(ops[..i]), ops[i]);
  }

  lemma MakingRoomStep(maxsize: int, ops: seq<Op<seq<int>>>, i: nat)
    requires i < |ops|
    ensures var t := RunMakingRoom(maxsize, Heard(ops[..i]));
            RunMakingRoom(maxsize, Heard(ops[..i + 1]))
            == if ops[i] == Offer([]) then t else MakeRoom(maxsize, t, ops[i])
    ensures |Offers(Heard(ops[..i + 1]))|
         == |Offers(Heard(ops[..i]))| + if ops[i].Take? || ops[i].x == [] then 0 else 1
  {
    HeardStep(ops, i);
    OneMoreOp(maxsize, Heard(ops[..i]), ops[i]);
  }

  /** One operation on the video queue; `taken` is what came out of it. */
  method ServeVideo(tap: VideoTap, op: Op<seq<int>>) returns (taken: seq<seq<int>>)
    requires tap.queue.Valid()
    modifies tap, tap.queue
    ensures tap.queue.Valid()
    ensures op == Offer([]) ==> taken == [] && tap.queue.items == old(tap.queue.items) && tap.drops == old(tap.drops)
    ensures op != Offer([]) ==>
              Trace(tap.queue.items, taken, tap.drops)
              == Refuse(tap.queue.maxsize, Trace(old(tap.queue.items), [], old(tap.drops)), op)
  {
    taken := [];
    match op
    case Take =>
      var x := tap.queue.GetNowait();
      if x.Some? {
        taken := [x.value];
      }
    case Offer(data) =>
      tap.OnFrame(data);
  }

  /** Frames from the camera, taken by the forwarder whenever it gets round to it. */
  method DriveVideo(tap: VideoTap, ops: seq<Op<seq<int>>>) returns (taken: seq<seq<int>>)
    requires tap.queue.Valid() && tap.queue.items == [] && tap.drops == 0
    modifies tap, tap.queue
    ensures var t := RunRefusing(tap.queue.maxsize, Heard(ops));
            tap.queue.items == t.items && taken == t.taken && tap.drops == t.drops
  {
    taken := [];
    var i := 0;
    while i < |ops|
      invariant 0 <= i <= |ops| && tap.queue.Valid()
      invariant var t := RunRefusing(tap.queue.maxsize, Heard(ops[..i]));
                tap.queue.items == t.items && taken == t.taken && tap.drops == t.drops
    {
      RefusingStep(tap.queue.maxsize, ops, i);
      var more := ServeVideo(tap, ops[i]);
      taken := taken + more;
      i := i + 1;
    }
    assert ops[..i] == ops;
  }

  /** Audio frames, taken by the pump. */
  method DriveAudio(tap: AudioTap, ops: seq<Op<seq<int>>>) returns (taken: seq<seq<int>>)
    requires tap.queue.Valid() && tap.queue.items == [] && tap.framesSeen == 0
    modifies tap, tap.queue
    ensures var t := RunMakingRoom(tap.queue.maxsize, Heard(ops));
            tap.queue.items == t.items && taken == t.taken
    ensures tap.framesSeen == |Offers(Heard(ops))|
  {
    taken := [];
    var i := 0;
    while i < |ops|
      invariant 0 <= i <= |ops| && tap.queue.Valid()
      invariant var t := RunMakingRoom(tap.queue.maxsize, Heard(ops[..i]));
                tap.queue.items == t.items && taken == t.taken
      invariant tap.framesSeen == |Offers(Heard(ops[..i]))|
    {
      MakingRoomStep(tap.queue.maxsize, ops, i);
      match ops[i] {
      case Take =>
        var x := tap.queue.GetNowait();
        taken := taken + if x.Some? then [x.value] else [];
      case Offer(data) =>
        tap.OnAudio(data);
      }
      i := i + 1;
    }
    assert ops[..i] == ops;
  }

  /** States to publish, taken by the publishing loop: a queue that is not empty ends with the last state. */
  method DriveOutbox<Summary>(outbox: StateOutbox<Summary>, ops: seq<Op<Summary>>) returns (taken: seq<Summary>)
    requires outbox.enabled && outbox.queue.Valid() && outbox.queue.maxsize == 8
    requires outbox.queue.items == [] && outbox.lastState == None
    modifies outbox, outbox.queue
    ensures var t := RunMakingRoom(8, ops);
            outbox.queue.items == t.items && taken == t.taken
    ensures outbox.lastState == LastOffer(ops)
    ensures var items := outbox.queue.items;
            items != [] ==> outbox.lastState == Some(items[|items| - 1])
  {
    taken := [];
    var i := 0;
    while i < |ops|
      invariant 0 <= i <= |ops| && outbox.queue.Valid()
      invariant var t := RunMakingRoom(8, ops[..i]);
                outbox.queue.items == t.items && taken == t.taken
      invariant outbox.lastState == LastOffer(ops[..i])
    {
      assert ops[..i + 1] == ops[..i] + [ops[i]];
      OneMoreOp(8, ops[..i], ops[i]);
      match ops[i] {
      case Take =>
        var x := outbox.queue.GetNowait();
        taken := taken + if x.Some? then [x.value] else [];
      case Offer(summary) =>
        outbox.PublishState(summary);
      }
      i := i + 1;
    }
    assert ops[..i] == ops;
    LatestIsLast(8, ops);
  }

  function LastOffer<T>(ops: seq<Op<T>>): Option<T> {
    var offers := Offers(ops);
    if offers == [] then None else Some(offers[|offers| - 1])
  }

  lemma LatestIsLast<T>(maxsize: int, ops: seq<Op<T>>)
    requires maxsize > 0
    ensures var items := RunMakingRoom(maxsize, ops).items;
            items != [] ==> LastOffer(ops) == Some(items[|items| - 1])
  {
    MakingRoomKeepsLatest(maxsize, ops);
  }
}
