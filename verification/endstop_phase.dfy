/** Endstop accuracy improvement by stepper phase tracking
    (klippy/extras/endstop_phase.py). Positions are counted in
    micro-steps: the float step distance that converts them to millimetres,
    and the float endstop alignment, are left out. */
module EndstopPhase {
  import opened Wrappers

  /** The number of stepper phases: four per micro-step with a Trinamic
      driver (whose micro-step count is at least one), otherwise the
      `phases` option, which must be at least one. */
  function PhasesOf(trinamicMicrosteps: Option<nat>, configPhases: int): (r: Result<int>)
    ensures trinamicMicrosteps.Some? && trinamicMicrosteps.value >= 1 ==> r == Ok(trinamicMicrosteps.value * 4)
    ensures trinamicMicrosteps.None? ==> (r.Ok? <==> configPhases >= 1)
    ensures r.Ok? ==> r.value >= 1
  {
    match trinamicMicrosteps
    case Some(m) => if m >= 1 then Ok(m * 4) else Err("config error")
    case None => if configPhases >= 1 then Ok(configPhases) else Err("config error")
  }

  /** The endstop accuracy in micro-steps: by default one less than half
      the phases; `configured` is the option converted to micro-steps. A
      value of half the phases or more is a config error; with debug
      output every phase is accepted. */
  function Accuracy(phases: int, configured: Option<int>, debugOutput: bool): (r: Result<int>)
    requires phases >= 1
    ensures configured.None? ==> r.Ok?
    ensures r.Err? <==> (match configured case None => false case Some(a) => a >= phases / 2)
    ensures r.Ok? && !debugOutput ==> 2 * r.value < phases
    ensures r.Ok? && !debugOutput && configured.None? ==> r.value == phases / 2 - 1
    ensures r.Ok? && debugOutput ==> r.value == phases
  {
    var acc := match configured case None => phases / 2 - 1 case Some(a) => a;
    if acc >= phases / 2 then Err("config error")
    else if debugOutput then Ok(phases)
    else Ok(acc)
  }

  /** The offset of `phase` from the recorded endstop phase, wrapped into
      the accepted window: a difference modulo the phases at least
      `phases - accuracy` counts as negative, one above `accuracy` (and
      below that) is an error. */
  function HomedDelta(phase: int, endstopPhase: int, phases: int, accuracy: int): (r: Result<int>)
    requires phases >= 1
    ensures r.Ok? ==> -accuracy <= r.value <= accuracy
    ensures r.Ok? ==> (r.value - (phase - endstopPhase)) % phases == 0
    ensures r.Err? <==> accuracy < (phase - endstopPhase) % phases < phases - accuracy
  {
    var delta := (phase - endstopPhase) % phases;
    WrapFacts(phase - endstopPhase, phases);
    if delta >= phases - accuracy then Ok(delta - phases)
    else if delta > accuracy then Err("EndstopError")
    else Ok(delta)
  }

  /** The wrapped value and the one a period below it are both
      congruent to `x`. */
  lemma {:induction false} WrapFacts(x: int, n: int)
    requires n >= 1
    ensures (x % n - n - x) % n == 0 && (x % n - x) % n == 0
  {
    WrapMultiple(x, n, -1);
    WrapMultiple(x, n, 0);
  }

  lemma {:induction false} WrapMultiple(x: int, n: int, k: int)
    requires n >= 1
    ensures (x % n + k * n - x) % n == 0
  {
    var q := x / n;
    assert x == q * n + x % n;
    assert x % n + k * n - x == (k - q) * n;
    MultipleMod(k - q, n);
  }

  /** A multiple of `n` leaves no remainder. */
  lemma {:induction false} MultipleMod(m: int, n: int)
    requires n >= 1
    ensures (m * n) % n == 0
  {
    var t := m * n;
    var q := t / n;
    assert t == q * n + t % n;
    assert t % n == (m - q) * n;
    CongruentInRange(t % n, 0, n, m - q);
  }

  /** When the window is narrower than the phases, the delta is the one
      value in it congruent to the phase difference. */
  lemma {:induction false} HomedDeltaUnique(phase: int, endstopPhase: int, phases: int, accuracy: int, d: int)
    requires phases >= 1 && 0 <= accuracy && 2 * accuracy < phases
    requires -accuracy <= d <= accuracy && (d - (phase - endstopPhase)) % phases == 0
    ensures HomedDelta(phase, endstopPhase, phases, accuracy) == Ok(d)
  {
    var x := phase - endstopPhase;
    var delta := x % phases;
    var q := x / phases;
    var k := (d - x) / phases;
    assert d - x == k * phases;
    assert d == delta + (q + k) * phases;
    if d >= 0 {
      CongruentInRange(d, delta, phases, q + k);
    } else {
      CongruentInRange(d + phases, delta, phases, q + k + 1);
    }
  }

  lemma {:induction false} CongruentInRange(a: int, b: int, n: int, m: int)
    requires 0 <= a < n && 0 <= b < n && a == b + m * n
    ensures a == b
  {
    MulSign(m, n);
  }

  lemma MulSign(m: int, n: int)
    requires n >= 1
    ensures m > 0 ==> m * n >= n
    ensures m < 0 ==> m * n <= -n
  {
  }

  /** The tracked state: phases, the recorded endstop phase if any, and
      the accuracy. */
  datatype PhaseState = PhaseState(phases: int, endstopPhase: Option<int>, accuracy: int)

  predicate Valid(s: PhaseState) {
    s.phases >= 1
  }

  /** Where the stepper's phase comes from: the driver (which may fail),
      or the MCU step position. */
  datatype PhaseSource = FromDriver(driverPhase: Result<int>) | FromPosition(mcuPos: int)

  function PhaseOf(s: PhaseState, src: PhaseSource): (r: Result<int>)
    requires Valid(s)
    ensures src.FromPosition? ==> r == Ok(src.mcuPos % s.phases)
    ensures src.FromDriver? ==> (r.Ok? <==> src.driverPhase.Ok?)
  {
    match src
    case FromDriver(p) => if p.Ok? then p else Err("EndstopError")
    case FromPosition(pos) => Ok(pos % s.phases)
  }

  /** `get_homed_offset`: the first homing records the phase and gives no
      offset; later ones give the wrapped delta from it. */
  function GetHomedOffset(s: PhaseState, src: PhaseSource): (r: Result<(PhaseState, int)>)
    requires Valid(s)
    ensures r.Ok? ==> Valid(r.value.0) && r.value.0.phases == s.phases && r.value.0.accuracy == s.accuracy
    ensures s.endstopPhase.None? && PhaseOf(s, src).Ok? ==>
      r == Ok((s.(endstopPhase := Some(PhaseOf(s, src).value)), 0))
    ensures s.endstopPhase.Some? ==> (r.Ok? ==> r.value.0 == s)
    ensures s.endstopPhase.Some? && PhaseOf(s, src).Ok? ==>
      (r.Ok? <==> HomedDelta(PhaseOf(s, src).value, s.endstopPhase.value, s.phases, s.accuracy).Ok?)
      && (r.Ok? ==> r.value.1 == HomedDelta(PhaseOf(s, src).value, s.endstopPhase.value, s.phases, s.accuracy).value)
  {
    match PhaseOf(s, src)
    case Err(e) => Err(e)
    case Ok(phase) =>
      match s.endstopPhase
      case None => Ok((s.(endstopPhase := Some(phase)), 0))
      case Some(ep) =>
        match HomedDelta(phase, ep, s.phases, s.accuracy)
        case Err(e) => Err(e)
        case Ok(d) => Ok((s, d))
  }

  /** A homed rail: the name of its first stepper, its commanded
      position and where that stepper's phase comes from. */
  datatype Rail = Rail(stepperName: string, pos: int, phase: PhaseSource)

  /** The index of the first rail whose first stepper has the name. */
  function FindRail(rails: seq<Rail>, name: string, i: nat): (r: Option<nat>)
    requires i <= |rails|
    ensures r.Some? ==> i <= r.value < |rails| && rails[r.value].stepperName == name
    ensures r.Some? ==> forall j :: i <= j < r.value ==> rails[j].stepperName != name
    ensures r.None? ==> forall j :: i <= j < |rails| ==> rails[j].stepperName != name
    decreases |rails| - i
  {
    if i == |rails| then None
    else if rails[i].stepperName == name then Some(i)
    else FindRail(rails, name, i + 1)
  }

  /** `handle_homed_rails`: only the first rail of this stepper is
      adjusted, by the homed offset; the result is false when that leaves
      its position unchanged, true when it moved, and None when no rail
      is this stepper's. */
  function HandleHomedRails(s: PhaseState, name: string, rails: seq<Rail>): (r: Result<(PhaseState, seq<Rail>, Option<bool>)>)
    requires Valid(s)
    ensures FindRail(rails, name, 0).None? ==> r == Ok((s, rails, None))
    ensures r.Ok? ==> |r.value.1| == |rails| && Valid(r.value.0)
    ensures r.Ok? && FindRail(rails, name, 0).Some? ==>
      var i := FindRail(rails, name, 0).value;
      && GetHomedOffset(s, rails[i].phase).Ok?
      && r.value.0 == GetHomedOffset(s, rails[i].phase).value.0
      && r.value.1 == rails[i := rails[i].(pos := rails[i].pos + GetHomedOffset(s, rails[i].phase).value.1)]
      && r.value.2 == Some(GetHomedOffset(s, rails[i].phase).value.1 != 0)
    ensures r.Err? ==> FindRail(rails, name, 0).Some?
  {
    match FindRail(rails, name, 0)
    case None => Ok((s, rails, None))
    case Some(i) =>
      match GetHomedOffset(s, rails[i].phase)
      case Err(e) => Err(e)
      case Ok((s', offset)) =>
        var pos := rails[i].pos + offset;
        if pos == rails[i].pos then Ok((s', rails, Some(false)))
        else Ok((s', rails[i := rails[i].(pos := pos)], Some(true)))
  }

  /** Other rails keep their positions. */
  lemma HandleHomedRailsLeavesOthers(s: PhaseState, name: string, rails: seq<Rail>, j: nat)
    requires Valid(s) && j < |rails| && rails[j].stepperName != name
    requires HandleHomedRails(s, name, rails).Ok?
    ensures HandleHomedRails(s, name, rails).value.1[j] == rails[j]
  {
  }
}
