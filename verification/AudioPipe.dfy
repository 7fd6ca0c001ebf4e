/**
 The audio side of a process (`_AudioPump._pump`, `_write_all`): priming silence, then
 the queued audio frames, through a pipe that accepts as much as it likes per write.
 */
module AudioPipe {
  import opened Separators
  import opened AnnexB

  /** What one `os.write` does: it accepts so many bytes at most, or the pipe is broken. */
  datatype Outcome = Accepts(n: nat) | Broken

  /** How many bytes went through, how many writes that took, and whether nothing was left over. */
  datatype Transfer = Transfer(sent: nat, used: nat, done: bool)

  /** A twentieth of a second of mu-law silence, which is 0xff. */
  function Silence(sampleRate: nat): Bytes {
    seq(sampleRate / 20, _ => 0xff)
  }

  /** It is silence, for a twentieth of a second rounded down to whole samples: 400 bytes at 8 kHz. */
  lemma SilenceLasts(sampleRate: nat)
    ensures var s := Silence(sampleRate);
            && 20 * |s| <= sampleRate < 20 * (|s| + 1)
            && (forall i :: 0 <= i < |s| ==> s[i] == 255)
            && (sampleRate == 8000 ==> |s| == 400)
  {
  }

  function Min(a: nat, b: nat): nat {
    if a < b then a else b
  }

  /** Sending so many bytes by repeated writes; with no outcome left the write blocks, as if it never returned. */
  function Send(size: nat, script: seq<Outcome>): (t: Transfer)
    ensures t.sent <= size && t.used <= |script|
    decreases |script|
  {
    if size == 0 then Transfer(0, 0, true)
    else if script == [] then Transfer(0, 0, false)
    else match script[0]
      case Broken => Transfer(0, 1, false)
      case Accepts(n) =>
        var rest := Send(size - Min(n, size), script[1..]);
        Transfer(Min(n, size) + rest.sent, 1 + rest.used, rest.done)
  }

  /** Sending chunk after chunk, until one does not go through. */
  function SendAll(chunks: seq<Bytes>, script: seq<Outcome>): (t: Transfer)
    ensures t.used <= |script|
    decreases |chunks|
  {
    if chunks == [] then Transfer(0, 0, true)
    else
      var first := Send(|chunks[0]|, script);
      if !first.done then first
      else
        var rest := SendAll(chunks[1..], script[first.used..]);
        Transfer(first.sent + rest.sent, first.used + rest.used, rest.done)
  }

  // ---- What arrives ----

  /** What the pipe takes before it breaks or blocks. */
  function Room(script: seq<Outcome>): nat {
    if script == [] || script[0].Broken? then 0 else script[0].n + Room(script[1..])
  }

  /** No write of the first n finds the pipe broken. */
  ghost predicate Unbroken(script: seq<Outcome>, n: nat) {
    n <= |script| && forall k :: 0 <= k < n ==> script[k].Accepts?
  }

  /** After n writes the pipe breaks or blocks, and not before. */
  ghost predicate FailsAfter(script: seq<Outcome>, n: nat) {
    (n == |script| && Unbroken(script, n)) || (0 < n <= |script| && Unbroken(script, n - 1) && script[n - 1].Broken?)
  }

  /** Short writes lose nothing: the bytes go through up to the room there is, and all of them exactly if they fit. */
  lemma {:induction false} SendIsRoom(size: nat, script: seq<Outcome>)
    ensures var t := Send(size, script);
            && t.sent == Min(size, Room(script)) && (t.done <==> size <= Room(script))
            && if t.done then Unbroken(script, t.used) else FailsAfter(script, t.used)
    decreases |script|
  {
    if size > 0 && script != [] && script[0].Accepts? {
      SendIsRoom(size - Min(script[0].n, size), script[1..]);
    }
  }

  lemma FailsLater(script: seq<Outcome>, n: nat, m: nat)
    requires Unbroken(script, n) && m <= |script| - n
    ensures Unbroken(script[n..], m) ==> Unbroken(script, n + m)
    ensures FailsAfter(script[n..], m) ==> FailsAfter(script, n + m)
  {
    var rest := script[n..];
    forall k | n <= k < |script| ensures script[k] == rest[k - n] {
    }
  }

  /** The stream goes through in order: whole exactly if no write fails, and else up to the write that fails. */
  lemma {:induction false} SendAllIsExact(chunks: seq<Bytes>, script: seq<Outcome>)
    ensures var t := SendAll(chunks, script);
            && t.sent <= |Flatten(chunks)| && (t.done <==> t.sent == |Flatten(chunks)|)
            && if t.done then Unbroken(script, t.used) else FailsAfter(script, t.used)
    decreases |chunks|
  {
    if chunks != [] {
      var first := Send(|chunks[0]|, script);
      SendIsRoom(|chunks[0]|, script);
      if first.done {
        SendAllIsExact(chunks[1..], script[first.used..]);
        FailsLater(script, first.used, SendAll(chunks[1..], script[first.used..]).used);
      }
    }
  }

  /** Every write takes something. */
  ghost predicate Flows(script: seq<Outcome>) {
    forall k :: 0 <= k < |script| ==> script[k].Accepts? && script[k].n > 0
  }

  lemma {:induction false} SendFlows(size: nat, script: seq<Outcome>)
    requires Flows(script) && |script| >= size
    ensures Send(size, script).done && Send(size, script).used <= size
    decreases |script|
  {
    if size > 0 {
      assert script[0].Accepts? && script[0].n > 0;
      SendFlows(size - Min(script[0].n, size), script[1..]);
    }
  }

  /** While no write fails, however little each takes, everything arrives. */
  lemma {:induction false} EverythingArrives(chunks: seq<Bytes>, script: seq<Outcome>)
    requires Flows(script) && |script| >= |Flatten(chunks)|
    ensures SendAll(chunks, script).done && SendAll(chunks, script).sent == |Flatten(chunks)|
    decreases |chunks|
  {
    if chunks != [] {
      SendFlows(|chunks[0]|, script);
      EverythingArrives(chunks[1..], script[Send(|chunks[0]|, script).used..]);
      SendAllIsExact(chunks, script);
    }
  }

  // ---- The code ----

  class Pipe {
    var received: Bytes
    var script: seq<Outcome>

    /** `os.write`. */
    method OsWrite(data: Bytes) returns (n: int)
      modifies this
      ensures old(script) == [] || old(script)[0].Broken? ==> n == -1 && received == old(received)
      ensures old(script) != [] && old(script)[0].Accepts? ==>
                n == Min(old(script)[0].n, |data|) && received == old(received) + data[..n]
      ensures script == if old(script) == [] then [] else old(script)[1..]
    {
      n := -1;
      if script == [] {
        return;
      }
      var outcome := script[0];
      script := script[1..];
      if outcome.Accepts? {
        n := Min(outcome.n, |data|);
        received := received + data[..n];
      }
    }
  }

  /** `_write_all`: short writes are carried on from where they stopped. */
  method WriteAll(pipe: Pipe, data: Bytes) returns (done: bool)
    modifies pipe
    ensures var t := Send(|data|, old(pipe.script));
            && pipe.received == old(pipe.received) + data[..t.sent]
            && pipe.script == old(pipe.script)[t.used..]
            && done == t.done
    ensures done <==> |data| <= Room(old(pipe.script))
    ensures pipe.received == old(pipe.received) + data[..Min(|data|, Room(old(pipe.script)))]
  {
    SendIsRoom(|data|, pipe.script);
    var mv := data;
    ghost var sent, used := 0, 0;
    ghost var whole := Send(|data|, pipe.script);
    while mv != []
      invariant 0 <= sent <= |data| && mv == data[sent..]
      invariant 0 <= used <= |old(pipe.script)| && pipe.script == old(pipe.script)[used..]
      invariant pipe.received == old(pipe.received) + data[..sent]
      invariant var rest := Send(|mv|, pipe.script);
                whole == Transfer(sent + rest.sent, used + rest.used, rest.done)
      decreases |pipe.script|
    {
      var n := pipe.OsWrite(mv);
      if n < 0 {
        return false;
      }
      assert data[..sent] + mv[..n] == data[..sent + n];
      ConcatAssoc(old(pipe.received), data[..sent], mv[..n]);
      mv := mv[n..];
      sent, used := sent + n, used + 1;
    }
    done := true;
  }

  /** The first i chunks went through. */
  ghost predicate Underway(chunks: seq<Bytes>, i: nat, sent: nat, used: nat, script: seq<Outcome>) {
    && i <= |chunks| && used <= |script| && sent == |Flatten(chunks[..i])| <= |Flatten(chunks)|
    && var rest := SendAll(chunks[i..], script[used..]);
       SendAll(chunks, script) == Transfer(sent + rest.sent, used + rest.used, rest.done)
  }

  lemma {:induction false} FlattenSplit(chunks: seq<Bytes>, i: nat)
    requires i < |chunks|
    ensures Flatten(chunks[..i + 1]) == Flatten(chunks[..i]) + chunks[i]
    ensures Flatten(chunks) == Flatten(chunks[..i + 1]) + Flatten(chunks[i + 1..])
    decreases i
  {
    if i > 0 {
      var rest := chunks[1..];
      FlattenSplit(rest, i - 1);
      assert chunks[..i][1..] == rest[..i - 1] && chunks[..i + 1][1..] == rest[..i] && rest[i..] == chunks[i + 1..];
      ConcatAssoc(chunks[0], Flatten(rest[..i - 1]), chunks[i]);
      ConcatAssoc(chunks[0], Flatten(rest[..i]), Flatten(rest[i..]));
    } else {
      assert chunks[..0] == [] && chunks[..1][1..] == [];
    }
  }

  lemma NextChunk(chunks: seq<Bytes>, i: nat, sent: nat, used: nat, script: seq<Outcome>)
    requires Underway(chunks, i, sent, used, script) && i < |chunks|
    ensures var t, stream := Send(|chunks[i]|, script[used..]), Flatten(chunks);
            && sent + t.sent <= |stream|
            && stream[..sent] + chunks[i][..t.sent] == stream[..sent + t.sent]
            && script[used..][t.used..] == script[used + t.used..]
            && if t.done then Underway(chunks, i + 1, sent + t.sent, used + t.used, script)
               else SendAll(chunks, script) == Transfer(sent + t.sent, used + t.used, false)
  {
    FlattenSplit(chunks, i);
    SendIsRoom(|chunks[i]|, script[used..]);
    assert chunks[i..][1..] == chunks[i + 1..];
    assert Flatten(chunks[..i]) <= Flatten(chunks);
  }

  /** What the pipe holds when the transfer has come this far. */
  ghost predicate Carried(pipe: Pipe, start: Bytes, script: seq<Outcome>, chunks: seq<Bytes>, sent: nat, used: nat)
    reads pipe
  {
    && sent <= |Flatten(chunks)| && pipe.received == start + Flatten(chunks)[..sent]
    && used <= |script| && pipe.script == script[used..]
  }

  /** One guarded write of `_pump`. */
  method PumpChunk(pipe: Pipe, ghost start: Bytes, ghost script: seq<Outcome>, ghost chunks: seq<Bytes>,
                   ghost i: nat, ghost sent: nat, ghost used: nat, data: Bytes)
    returns (alive: bool, ghost sent': nat, ghost used': nat)
    requires Carried(pipe, start, script, chunks, sent, used)
    requires Underway(chunks, i, sent, used, script) && i < |chunks| && data == chunks[i]
    modifies pipe
    ensures Carried(pipe, start, script, chunks, sent', used')
    ensures alive ==> Underway(chunks, i + 1, sent', used', script)
    ensures !alive ==> SendAll(chunks, script) == Transfer(sent', used', false)
  {
    ghost var t := Send(|data|, pipe.script);
    NextChunk(chunks, i, sent, used, script);
    ConcatAssoc(start, Flatten(chunks)[..sent], data[..t.sent]);
    alive := WriteAll(pipe, data);
    sent', used' := sent + t.sent, used + t.used;
  }

  /** `_pump`: silence first, then the frames as they are dequeued, until a write fails. */
  method Pump(pipe: Pipe, frames: seq<Bytes>, sampleRate: nat) returns (alive: bool)
    modifies pipe
    ensures var chunks := [Silence(sampleRate)] + frames;
            var t := SendAll(chunks, old(pipe.script));
            && Carried(pipe, old(pipe.received), old(pipe.script), chunks, t.sent, t.used)
            && alive == t.done
  {
    var silence := Silence(sampleRate);
    ghost var start, script, chunks := pipe.received, pipe.script, [silence] + frames;
    ghost var sent, used := 0, 0;
    NoChunkYet(chunks, script);
    alive, sent, used := PumpChunk(pipe, start, script, chunks, 0, sent, used, silence);
    if !alive {
      return;
    }
    var i := 0;
    while i < |frames|
      invariant 0 <= i <= |frames| && 0 <= sent && 0 <= used
      invariant Underway(chunks, i + 1, sent, used, script)
      invariant Carried(pipe, start, script, chunks, sent, used)
      invariant alive
    {
      alive, sent, used := PumpChunk(pipe, start, script, chunks, i + 1, sent, used, frames[i]);
      if !alive {
        return;
      }
      i := i + 1;
    }
    AllChunks(chunks, sent, used, script);
  }

  lemma NoChunkYet(chunks: seq<Bytes>, script: seq<Outcome>)
    ensures Underway(chunks, 0, 0, 0, script)
  {
    assert chunks[..0] == [] && chunks[0..] == chunks && script[0..] == script;
  }

  lemma AllChunks(chunks: seq<Bytes>, sent: nat, used: nat, script: seq<Outcome>)
    requires Underway(chunks, |chunks|, sent, used, script)
    ensures SendAll(chunks, script) == Transfer(sent, used, true)
  {
  }
}
