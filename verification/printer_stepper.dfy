/** The host's stepper objects (klippy/stepper.py): the enable pins that
    several steppers may share, counted by reference, the motor enable
    state of each stepper, its short name, and the phase-tracking homing
    offset. Print times are left out; pin writes are returned. */
module PrinterStepper {
  import opened Wrappers
  import EndstopPhase

  type Bit = x: int | 0 <= x <= 1

  // ------------------------------------------------------------ enable pins

  /** A `StepperEnablePin`: whether it has an MCU pin, and how many
      steppers currently want it enabled. */
  datatype EnablePin = EnablePin(hasPin: bool, count: int)

  /** `set_enable`: the pin is driven high on the count's 0 → 1 step and
      low on its 1 → 0 step, never otherwise. Driving a missing pin fails
      (the object is None). The source decrements before that failure,
      which the error result drops; a pinless counter starts at 9999
      (`LookupEnablePin`), so that path is not reached. */
  function SetEnable(p: EnablePin, enable: bool): (r: Result<(EnablePin, Option<Bit>)>)
    ensures r.Ok? ==> r.value.0.hasPin == p.hasPin
    ensures r.Ok? ==> r.value.0.count == if enable then p.count + 1 else p.count - 1
    ensures r.Ok? ==> (r.value.1 == Some(1) <==> enable && p.count == 0)
    ensures r.Ok? ==> (r.value.1 == Some(0) <==> !enable && p.count == 1)
    ensures r.Err? <==> !p.hasPin && p.count == (if enable then 0 else 1)
  {
    var count := if enable then p.count + 1 else p.count - 1;
    var write: Option<Bit> :=
      if enable && p.count == 0 then Some(1)
      else if !enable && count == 0 then Some(0)
      else None;
    if write.Some? && !p.hasPin then Err("AttributeError")
    else Ok((p.(count := count), write))
  }

  /** Who an enable counter belongs to: a stepper without an enable pin
      has a private one, steppers on the same pin share one. */
  datatype EnableKey = NoPin(stepper: string) | Pin(name: string)

  type Enables = map<EnableKey, EnablePin>

  /** `lookup_enable_pin`: without a pin a private counter starting at
      9999, so it never reaches zero; with a pin the one already created
      for it, or a new one at zero. */
  function LookupEnablePin(e: Enables, stepper: string, pin: Option<string>): (r: (Enables, EnableKey))
    ensures r.0.Keys == e.Keys + {r.1}
    ensures pin.None? ==> r.1 == NoPin(stepper) && r.0[r.1] == EnablePin(false, 9999)
    ensures pin.Some? ==> r.1 == Pin(pin.value)
    ensures pin.Some? && Pin(pin.value) in e ==> r.0 == e
    ensures pin.Some? && Pin(pin.value) !in e ==> r.0[r.1] == EnablePin(true, 0)
    ensures forall k :: k in e && k != NoPin(stepper) ==> r.0[k] == e[k]
  {
    match pin
    case None => (e[NoPin(stepper) := EnablePin(false, 9999)], NoPin(stepper))
    case Some(name) =>
      if Pin(name) in e then (e, Pin(name))
      else (e[Pin(name) := EnablePin(true, 0)], Pin(name))
  }

  // ------------------------------------------------------------ steppers

  datatype Stepper = Stepper(name: string, needMotorEnable: bool, enable: EnableKey)

  function IsMotorEnabled(s: Stepper): bool {
    !s.needMotorEnable
  }

  /** `get_name(short)`: the short form drops a leading `stepper_`. */
  function GetName(s: Stepper, short: bool): (r: string)
    ensures !short || |s.name| < 8 || s.name[..8] != "stepper_" ==> r == s.name
    ensures short && |s.name| >= 8 && s.name[..8] == "stepper_" ==> "stepper_" + r == s.name
  {
    if short && |s.name| >= 8 && s.name[..8] == "stepper_" then s.name[8..] else s.name
  }

  /** `motor_enable`: the shared counter is moved only when this stepper's
      own enabled state changes. */
  function MotorEnable(s: Stepper, e: Enables, enable: bool): (r: Result<(Stepper, Enables, Option<Bit>)>)
    requires s.enable in e
    ensures r.Ok? ==> IsMotorEnabled(r.value.0) == enable
    ensures r.Ok? ==> r.value.0 == s.(needMotorEnable := !enable)
    ensures IsMotorEnabled(s) == enable ==> r == Ok((s, e, None))
    ensures IsMotorEnabled(s) != enable ==>
      match SetEnable(e[s.enable], enable)
      case Err(_) => r.Err?
      case Ok((p, w)) => r == Ok((s.(needMotorEnable := !enable), e[s.enable := p], w))
  {
    if IsMotorEnabled(s) == enable then Ok((s, e, None))
    else match SetEnable(e[s.enable], enable)
      case Err(m) => Err(m)
      case Ok((p, w)) => Ok((s.(needMotorEnable := !enable), e[s.enable := p], w))
  }

  /** The number of enabled steppers using a counter. */
  function EnabledOn(steppers: seq<Stepper>, k: EnableKey): (r: nat)
    ensures r <= |steppers|
  {
    if |steppers| == 0 then 0
    else
      var last := steppers[|steppers| - 1];
      EnabledOn(steppers[..|steppers| - 1], k) + (if last.enable == k && IsMotorEnabled(last) then 1 else 0)
  }

  lemma {:induction false} EnabledOnUpdate(steppers: seq<Stepper>, i: nat, t: Stepper, k: EnableKey)
    requires i < |steppers| && t.enable == steppers[i].enable
    ensures EnabledOn(steppers[i := t], k) + (if steppers[i].enable == k && IsMotorEnabled(steppers[i]) then 1 else 0)
      == EnabledOn(steppers, k) + (if t.enable == k && IsMotorEnabled(t) then 1 else 0)
    decreases |steppers|
  {
    var n := |steppers| - 1;
    if i < n {
      assert steppers[i := t][..n] == steppers[..n][i := t];
      EnabledOnUpdate(steppers[..n], i, t, k);
    } else {
      assert steppers[i := t][..n] == steppers[..n];
    }
  }

  /** The enable counters agree with the steppers: a shared pin's count
      is the number of its steppers that are enabled, and a private
      counter sits 9999 above its stepper's state. */
  predicate Counted(steppers: seq<Stepper>, e: Enables) {
    (forall i :: 0 <= i < |steppers| ==> steppers[i].enable in e)
    && (forall k :: k in e && k.Pin? ==> e[k].hasPin && e[k].count == EnabledOn(steppers, k))
    && (forall k :: k in e && k.NoPin? ==> !e[k].hasPin && e[k].count == 9999 + EnabledOn(steppers, k))
  }

  /** The change of one stepper's state moves its own counter by one
      and no other. */
  lemma {:induction false} EnabledOnAfter(steppers: seq<Stepper>, i: nat, enable: bool, k: EnableKey)
    requires i < |steppers| && IsMotorEnabled(steppers[i]) != enable
    ensures var t := steppers[i].(needMotorEnable := !enable);
      EnabledOn(steppers[i := t], k)
        == EnabledOn(steppers, k) + (if k == steppers[i].enable then (if enable then 1 else -1) else 0)
  {
    EnabledOnUpdate(steppers, i, steppers[i].(needMotorEnable := !enable), k);
  }

  /** `motor_enable` on any stepper keeps the counters in step and never
      fails. */
  lemma {:induction false} MotorEnableKeepsCounted(steppers: seq<Stepper>, e: Enables, i: nat, enable: bool)
    requires i < |steppers| && Counted(steppers, e)
    ensures MotorEnable(steppers[i], e, enable).Ok?
    ensures var (t, e', w) := MotorEnable(steppers[i], e, enable).value;
      Counted(steppers[i := t], e')
  {
    var s := steppers[i];
    var k := s.enable;
    if IsMotorEnabled(s) == enable {
      assert steppers[i := s] == steppers;
    } else {
      var t := s.(needMotorEnable := !enable);
      if !enable {
        EnabledOnUpdate(steppers, i, t, k);
      }
      var p := SetEnable(e[k], enable).value.0;
      var e' := e[k := p];
      var steppers' := steppers[i := t];
      assert MotorEnable(s, e, enable).value == (t, e', SetEnable(e[k], enable).value.1);
      forall k' | k' in e'
        ensures EnabledOn(steppers', k') == EnabledOn(steppers, k') + (if k' == k then (if enable then 1 else -1) else 0)
      {
        EnabledOnAfter(steppers, i, enable, k');
      }
      assert forall j :: 0 <= j < |steppers'| ==> steppers'[j].enable in e';
    }
  }

  /** The pin is written exactly when the first of its steppers is
      enabled (high) or the last one disabled (low). */
  lemma {:induction false} MotorEnableWrites(steppers: seq<Stepper>, e: Enables, i: nat, enable: bool)
    requires i < |steppers| && Counted(steppers, e)
    ensures MotorEnable(steppers[i], e, enable).Ok?
    ensures var w := MotorEnable(steppers[i], e, enable).value.2;
      var k := steppers[i].enable;
      && (w == Some(1) <==> IsMotorEnabled(steppers[i]) != enable && enable && k.Pin? && EnabledOn(steppers, k) == 0)
      && (w == Some(0) <==> IsMotorEnabled(steppers[i]) != enable && !enable && k.Pin? && EnabledOn(steppers, k) == 1)
  {
    var s := steppers[i];
    var k := s.enable;
    if IsMotorEnabled(s) != enable && !enable {
      EnabledOnUpdate(steppers, i, s.(needMotorEnable := !enable), k);
    }
  }

  // ------------------------------------------------------------ homing offset

  /** Phase tracking of a homing stepper: the phases (None when off), the
      recorded endstop phase and the accuracy. */
  datatype Homing = Homing(phases: Option<int>, endstopPhase: Option<int>, accuracy: int)

  /** The phase-tracking setup: `phases` 0 or absent turns it off; the
      accuracy defaults to one less than half the phases, and an accuracy
      of half the phases or more turns tracking off instead of failing.
      In file output mode the accuracy becomes the phases. */
  function SetupHoming(phases: nat, endstopPhase: Option<int>, configured: Option<int>, fileOutput: bool): (r: Homing)
    ensures r.endstopPhase == endstopPhase
    ensures phases == 0 ==> r.phases.None?
    ensures phases > 0 && !fileOutput ==>
      var acc := match configured case None => phases / 2 - 1 case Some(a) => a;
      (r.phases.Some? <==> acc < phases / 2)
      && (r.phases.Some? ==> r.phases.value == phases && r.accuracy == acc && 2 * r.accuracy < phases)
    ensures phases > 0 && fileOutput && r.phases.Some? ==> r.accuracy == phases
  {
    if phases == 0 then Homing(None, endstopPhase, 0)
    else
      var acc := match configured case None => phases / 2 - 1 case Some(a) => a;
      var tracked: Option<int> := if acc >= phases / 2 then None else Some(phases);
      var acc' := if fileOutput then (match tracked case None => 0 case Some(p) => p) else acc;
      Homing(tracked, endstopPhase, acc')
  }

  /** `get_homed_offset`: no offset without tracking or with the motor
      off; the first homing records the phase; later ones give the delta
      wrapped into `[-accuracy, accuracy]`, an error outside it. */
  function GetHomedOffset(h: Homing, needMotorEnable: bool, mcuPos: int): (r: Result<(Homing, int)>)
    requires h.phases.Some? ==> h.phases.value >= 1
    ensures h.phases.None? || needMotorEnable ==> r == Ok((h, 0))
    ensures h.phases.Some? && !needMotorEnable && h.endstopPhase.None? ==>
      r == Ok((h.(endstopPhase := Some(mcuPos % h.phases.value)), 0))
    ensures h.phases.Some? && !needMotorEnable && h.endstopPhase.Some? ==>
      r == (match EndstopPhase.HomedDelta(mcuPos % h.phases.value, h.endstopPhase.value, h.phases.value, h.accuracy)
            case Err(e) => Err(e)
            case Ok(d) => Ok((h, d)))
  {
    if h.phases.None? || needMotorEnable then Ok((h, 0))
    else
      var pos := mcuPos % h.phases.value;
      match h.endstopPhase
      case None => Ok((h.(endstopPhase := Some(pos)), 0))
      case Some(ep) =>
        match EndstopPhase.HomedDelta(pos, ep, h.phases.value, h.accuracy)
        case Err(e) => Err(e)
        case Ok(d) => Ok((h, d))
  }

  /** Homing again at a position a whole number of phases away, plus a
      drift within the accuracy, yields exactly that drift. */
  lemma {:induction false} HomedOffsetMeasuresDrift(h: Homing, mcuPos: int, turns: int, drift: int)
    requires h.phases.Some? && h.phases.value >= 1 && 0 <= h.accuracy && 2 * h.accuracy < h.phases.value
    requires h.endstopPhase.Some? && h.endstopPhase.value == mcuPos % h.phases.value
    requires -h.accuracy <= drift <= h.accuracy
    ensures GetHomedOffset(h, false, mcuPos + turns * h.phases.value + drift) == Ok((h, drift))
  {
    var n := h.phases.value;
    var p := mcuPos + turns * n + drift;
    var x := p % n - mcuPos % n;
    assert p % n == p - (p / n) * n;
    assert mcuPos % n == mcuPos - (mcuPos / n) * n;
    assert drift - x == (p / n - mcuPos / n - turns) * n;
    EndstopPhase.MultipleMod(p / n - mcuPos / n - turns, n);
    EndstopPhase.HomedDeltaUnique(p % n, mcuPos % n, n, h.accuracy, drift);
  }
}
