/**
 The mode state of `MqttControl`: the current mode, its file, the off event, and the
 event that ends a pause early.
 */
module MqttMode {
  import opened Wrappers
  import opened PyText

  const OFF := "off"

  predicate IsMode(mode: string) {
    mode in ["always_on", "auto", OFF]
  }

  type Mode = m: string | IsMode(m) witness OFF

  /** A message on the mode topic, undecodable ones included, and what writing the mode file would do. */
  datatype Arrival = Arrival(payload: Option<string>, write: WriteResult)

  datatype WriteResult = Written | LeftAsIs | Truncated

  function Normal(text: string): string {
    Lower(Strip(text))
  }

  function Requested(a: Arrival): string {
    if a.payload.Some? then Normal(a.payload.value) else ""
  }

  /** The mode file: missing or not to be opened, holding bytes that are no text, or holding text. */
  datatype ModeFile = Missing | Undecodable | Text(text: string)

  /**
   The mode a new control starts with: the file's, if it holds a valid one, else the
   environment's; none if reading it raises, as bytes that are no text do.
   */
  function Restored(file: ModeFile, default: Mode): Option<Mode> {
    match file
    case Missing => Some(default)
    case Undecodable => None
    case Text(text) => Some(if IsMode(Normal(text)) then Normal(text) else default)
  }

  /** The same letters, capital or small. */
  predicate SameLetters(w: string, mode: string) {
    |w| == |mode|
    && forall i :: 0 <= i < |w| ==> w[i] == mode[i] || ('A' <= w[i] <= 'Z' && w[i] as int + 32 == mode[i] as int)
  }

  /** The payload spells the mode, in any case and between any blanks. */
  ghost predicate Spells(payload: string, mode: string) {
    exists a, w, b :: payload == a + w + b && AllSpace(a) && AllSpace(b) && SameLetters(w, mode)
  }

  predicate IsSmall(mode: string) {
    mode != [] && forall i :: 0 <= i < |mode| ==> 'a' <= mode[i] <= 'z' || mode[i] == '_'
  }

  lemma LowerIs(w: string, mode: string)
    requires IsSmall(mode)
    ensures Lower(w) == mode <==> SameLetters(w, mode)
  {
    if Lower(w) == mode {
      forall i | 0 <= i < |w|
        ensures w[i] == mode[i] || ('A' <= w[i] <= 'Z' && w[i] as int + 32 == mode[i] as int)
      {
        assert Lower(w)[i] == mode[i];
      }
    }
    if SameLetters(w, mode) {
      forall i | 0 <= i < |w| ensures Lower(w)[i] == mode[i] {
      }
    }
  }

  lemma NormalIs(payload: string, mode: string)
    requires IsSmall(mode)
    ensures Normal(payload) == mode <==> Spells(payload, mode)
  {
    if Normal(payload) == mode {
      var a, b := StripSplits(payload);
      LowerIs(Strip(payload), mode);
      assert Spells(payload, mode);
    }
    if Spells(payload, mode) {
      var a, w, b :| payload == a + w + b && AllSpace(a) && AllSpace(b) && SameLetters(w, mode);
      assert IsStrip(w);
      StripOf(a, w, b);
      LowerIs(w, mode);
    }
  }

  /** A message asks for a mode exactly if it is text that spells one of the three. */
  lemma AcceptedIff(a: Arrival)
    ensures IsMode(Requested(a))
       <==> && a.payload.Some?
            && var p := a.payload.value;
               Spells(p, "always_on") || Spells(p, "auto") || Spells(p, "off")
  {
    if a.payload.Some? {
      NormalIs(a.payload.value, "always_on");
      NormalIs(a.payload.value, "auto");
      NormalIs(a.payload.value, "off");
    }
  }

  datatype Control = Control(mode: Mode, file: ModeFile, offEvent: Option<bool>, modeChanged: Option<bool>)

  function WriteMode(file: ModeFile, mode: string, write: WriteResult): ModeFile {
    match write
    case Written => Text(mode + "\n")
    case LeftAsIs => file
    case Truncated => Text("")
  }

  function SetIfCreated(event: Option<bool>, value: bool): Option<bool> {
    if event.Some? then Some(value) else None
  }

  predicate IsRealChange(mode: Mode, a: Arrival) {
    IsMode(Requested(a)) && Requested(a) != mode
  }

  function Apply(c: Control, a: Arrival): Control {
    var mode := Requested(a);
    if !IsMode(mode) then c
    else
      var c := if mode != c.mode
               then c.(file := WriteMode(c.file, mode, a.write), modeChanged := SetIfCreated(c.modeChanged, true))
               else c;
      c.(mode := mode, offEvent := SetIfCreated(c.offEvent, mode == OFF))
  }

  function ApplyAll(c: Control, arrivals: seq<Arrival>): Control
    decreases |arrivals|
  {
    if arrivals == [] then c else Apply(ApplyAll(c, arrivals[..|arrivals| - 1]), arrivals[|arrivals| - 1])
  }

  // ---- The object ----

  class MqttControl {
    var mode: Mode
    var file: ModeFile
    var offEvent: Option<bool>
    var modeChanged: Option<bool>

    constructor (mode: Mode, file: ModeFile)
      ensures Value() == Control(mode, file, None, None)
    {
      this.mode, this.file := mode, file;
      offEvent, modeChanged := None, None;
    }

    ghost function Value(): Control
      reads this
    {
      Control(mode, file, offEvent, modeChanged)
    }

    /** `off_event`: created on first access, from the current mode. */
    method OffEvent() returns (isSet: bool)
      modifies this`offEvent
      ensures old(offEvent).Some? ==> offEvent == old(offEvent)
      ensures old(offEvent).None? ==> offEvent == Some(mode == OFF)
      ensures offEvent == Some(isSet)
    {
      if offEvent == None {
        offEvent := Some(mode == OFF);
      }
      isSet := offEvent.value;
    }

    /** `_apply_mode`. */
    method ApplyMode(a: Arrival)
      modifies this
      ensures Value() == Apply(old(Value()), a)
    {
      var requested := Requested(a);
      if !IsMode(requested) {
        return;
      }
      if requested != mode {
        file := WriteMode(file, requested, a.write);
        if modeChanged != None {
          modeChanged := Some(true);
        }
      }
      mode := requested;
      if offEvent != None {
        offEvent := Some(requested == OFF);
      }
    }

    /** `sleep_until_mode_change`; `arrivals` are the messages handled before the wait is over. */
    method SleepUntilModeChange(delay: real, arrivals: seq<Arrival>) returns (interrupted: bool)
      modifies this
      ensures delay <= 0.0 ==> !interrupted && Value() == old(Value()).(modeChanged := Some(false))
      ensures delay > 0.0 ==> (interrupted <==> Changes(old(mode), arrivals) > 0)
      ensures delay > 0.0 ==> mode == ModeAfter(old(mode), arrivals) && modeChanged == Some(false)
      ensures delay > 0.0 ==> Value() == ApplyAll(old(Value()), arrivals).(modeChanged := Some(false))
    {
      modeChanged := Some(false);
      if delay <= 0.0 {
        return false;
      }
      ghost var entry, start := old(Value()), Value();
      var i := 0;
      while i < |arrivals|
        invariant 0 <= i <= |arrivals|
        invariant Value() == ApplyAll(start, arrivals[..i])
      {
        assert arrivals[..i + 1][..i] == arrivals[..i];
        ApplyMode(arrivals[i]);
        i := i + 1;
      }
      assert arrivals[..i] == arrivals;
      AlarmIffChange(start, arrivals);
      AlarmDoesNotMatter(entry, Some(false), arrivals);
      ModeAfterApplyAll(start, arrivals);
      interrupted := modeChanged == Some(true);
      modeChanged := Some(false);
    }
  }

  /** `MqttControl.__init__`: null if it raises, which it does for a mode file that is no text. */
  method Build(default: Mode, file: ModeFile) returns (control: MqttControl?)
    ensures control == null <==> file.Undecodable?
    ensures control != null ==> fresh(control) && control.offEvent == None && control.modeChanged == None
    ensures control != null ==> Some(control.mode) == Restored(file, default) && control.file == file
    ensures file.Missing? ==> control != null && control.mode == default
  {
    match file
    case Missing =>
      control := new MqttControl(default, file);
    case Undecodable =>
      control := null;
    case Text(text) =>
      var mode := Normal(text);
      control := new MqttControl(if IsMode(mode) then mode else default, file);
  }

  // ---- Real changes ----

  function ModeAfter(mode: Mode, arrivals: seq<Arrival>): Mode
    decreases |arrivals|
  {
    if arrivals == [] then mode
    else
      var before, requested := ModeAfter(mode, arrivals[..|arrivals| - 1]), Requested(arrivals[|arrivals| - 1]);
      if IsMode(requested) then requested else before
  }

  /** How many of the messages changed the mode; echoes and invalid ones do not. */
  function Changes(mode: Mode, arrivals: seq<Arrival>): nat
    decreases |arrivals|
  {
    if arrivals == [] then 0
    else
      var before := arrivals[..|arrivals| - 1];
      Changes(mode, before) + if ModeAfter(mode, arrivals) != ModeAfter(mode, before) then 1 else 0
  }

  lemma {:induction false} ModeAfterApplyAll(c: Control, arrivals: seq<Arrival>)
    ensures ApplyAll(c, arrivals).mode == ModeAfter(c.mode, arrivals)
    decreases |arrivals|
  {
    if arrivals != [] {
      ModeAfterApplyAll(c, arrivals[..|arrivals| - 1]);
    }
  }

  /** The change event is set exactly when a message since it was cleared changed the mode. */
  lemma {:induction false} AlarmIffChange(c: Control, arrivals: seq<Arrival>)
    requires c.modeChanged == Some(false)
    ensures ApplyAll(c, arrivals).modeChanged == Some(Changes(c.mode, arrivals) > 0)
    decreases |arrivals|
  {
    if arrivals != [] {
      AlarmIffChange(c, arrivals[..|arrivals| - 1]);
      ModeAfterApplyAll(c, arrivals[..|arrivals| - 1]);
    }
  }

  lemma {:induction false} AlarmDoesNotMatter(c: Control, alarm: Option<bool>, arrivals: seq<Arrival>)
    ensures ApplyAll(c.(modeChanged := alarm), arrivals)
         == ApplyAll(c, arrivals).(modeChanged := ApplyAll(c.(modeChanged := alarm), arrivals).modeChanged)
    decreases |arrivals|
  {
    if arrivals != [] {
      AlarmDoesNotMatter(c, alarm, arrivals[..|arrivals| - 1]);
    }
  }

  // ---- The off event and the file follow the mode ----

  /** The off event, once created, is set exactly while the mode is off: no message breaks that. */
  lemma {:induction false} OffEventFollowsMode(c: Control, arrivals: seq<Arrival>)
    requires c.offEvent.Some? ==> c.offEvent.value == (c.mode == OFF)
    ensures var r := ApplyAll(c, arrivals);
            && (r.offEvent.Some? <==> c.offEvent.Some?)
            && (r.offEvent.Some? ==> r.offEvent.value == (r.mode == OFF))
    decreases |arrivals|
  {
    if arrivals != [] {
      OffEventFollowsMode(c, arrivals[..|arrivals| - 1]);
    }
  }

  lemma WrittenModeReadsBack(mode: Mode, default: Mode)
    ensures Restored(Text(mode + "\n"), default) == Some(mode)
  {
    var text := mode + "\n";
    assert text[..|text| - 1] == mode && !IsSpace(mode[0]) && !IsSpace(mode[|mode| - 1]);
    assert LStrip(text) == text && RStrip(text) == RStrip(mode) == mode;
    assert Lower(mode) == mode;
  }

  /**
   The mode that the file stands for after the given messages: that of the last real change
   that was written, or the environment's if the file was truncated since.
   */
  function RestartMode(mode: Mode, restored: Mode, default: Mode, arrivals: seq<Arrival>): Mode
    decreases |arrivals|
  {
    if arrivals == [] then restored
    else
      var before, a := arrivals[..|arrivals| - 1], arrivals[|arrivals| - 1];
      if IsRealChange(ModeAfter(mode, before), a) && a.write != LeftAsIs
      then if a.write.Written? then Requested(a) else default
      else RestartMode(mode, restored, default, before)
  }

  /** A control built again never fails on what the old one wrote, and starts in the mode that the file stands for. */
  lemma {:induction false} RestartIsExact(c: Control, restored: Mode, default: Mode, arrivals: seq<Arrival>)
    requires Restored(c.file, default) == Some(restored)
    ensures Restored(ApplyAll(c, arrivals).file, default) == Some(RestartMode(c.mode, restored, default, arrivals))
    decreases |arrivals|
  {
    if arrivals != [] {
      var before, a := arrivals[..|arrivals| - 1], arrivals[|arrivals| - 1];
      RestartIsExact(c, restored, default, before);
      ModeAfterApplyAll(c, before);
      if IsRealChange(ModeAfter(c.mode, before), a) {
        WrittenModeReadsBack(Requested(a), default);
      }
    }
  }

  /** Whether the latest real change of the mode reached the file. */
  predicate LatestChangeWritten(mode: Mode, arrivals: seq<Arrival>)
    decreases |arrivals|
  {
    if arrivals == [] then true
    else
      var before, a := arrivals[..|arrivals| - 1], arrivals[|arrivals| - 1];
      if IsRealChange(ModeAfter(mode, before), a) then a.write.Written? else LatestChangeWritten(mode, before)
  }

  /**
   A restart keeps the mode: when the latest real change was written, a control built from
   the file and the same environment starts in the mode the old one was in.
   */
  lemma {:induction false} RestartKeepsMode(c: Control, default: Mode, arrivals: seq<Arrival>)
    requires Restored(c.file, default) == Some(c.mode)
    requires LatestChangeWritten(c.mode, arrivals)
    ensures Restored(ApplyAll(c, arrivals).file, default) == Some(ApplyAll(c, arrivals).mode)
    decreases |arrivals|
  {
    if arrivals != [] {
      var before, a := arrivals[..|arrivals| - 1], arrivals[|arrivals| - 1];
      ModeAfterApplyAll(c, before);
      if IsRealChange(ModeAfter(c.mode, before), a) {
        WrittenModeReadsBack(Requested(a), default);
      } else {
        RestartKeepsMode(c, default, before);
      }
    }
  }
}
