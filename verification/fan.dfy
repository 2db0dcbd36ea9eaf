/** The host's printer fan (klippy/fan.py): `set_speed` turns a speed
    into a PWM value, drops a request that does not change it, keeps
    successive updates at least the minimum fan time apart, and kick
    starts a stopped fan at full power before a partial speed. The float
    quantisation `int(value*255. + 0.5)` and the print-time to clock
    conversion are done by the caller: both arrive here as integers. */
module Fan {
  /** One `set_pwm` call on the MCU fan pin: a clock and a value. */
  datatype Pwm = Pwm(clock: int, value: int)

  /** The fan's scheduling state: the clock and value of the last update
      and the two clock spans taken from the configuration. */
  datatype Fan = Fan(lastClock: int, lastValue: int, minFanClock: int, kickStartClock: int)

  const FULL := 255

  /** The state after construction and `build_config`. */
  function Init(minFanClock: int, kickStartClock: int): (f: Fan)
    ensures f.lastClock == 0 && f.lastValue == 0
    ensures f.minFanClock == minFanClock && f.kickStartClock == kickStartClock
  {
    Fan(0, 0, minFanClock, kickStartClock)
  }

  /** `max(0, min(255, v))`. */
  function Clamp(v: int): (r: int)
    ensures 0 <= r <= FULL
    ensures 0 <= v <= FULL ==> r == v
    ensures v < 0 ==> r == 0
    ensures v > FULL ==> r == FULL
  {
    if v < 0 then 0 else if v > FULL then FULL else v
  }

  /** Whether a new value gets a kick start: a partial speed after the
      fan was off, with a kick-start time configured. */
  predicate Kick(f: Fan, value: int) {
    value != 0 && value < FULL && f.lastValue == 0 && f.kickStartClock != 0
  }

  /** `set_speed` with the value already quantised to `scaled` and the
      print time already converted to `printClock`: the new state and the
      PWM updates sent, in order. */
  function SetSpeed(f: Fan, scaled: int, printClock: int): (r: (Fan, seq<Pwm>))
    ensures var v := Clamp(scaled);
      && (v == f.lastValue ==> r == (f, []))
      && (v != f.lastValue ==>
        && |r.1| == (if Kick(f, v) then 2 else 1)
        && r.1[|r.1| - 1] == Pwm(r.0.lastClock, v)
        && r.0 == f.(lastClock := r.0.lastClock, lastValue := v)
        && r.1[0].clock >= f.lastClock + f.minFanClock
        && r.1[0].clock >= printClock
        && (r.1[0].clock == f.lastClock + f.minFanClock || r.1[0].clock == printClock)
        && (Kick(f, v) ==> r.1[0].value == FULL && r.1[1].clock == r.1[0].clock + f.kickStartClock))
  {
    var value := Clamp(scaled);
    if value == f.lastValue then (f, [])
    else
      var pc := if f.lastClock + f.minFanClock > printClock then f.lastClock + f.minFanClock else printClock;
      var (kick, pc) := if Kick(f, value) then ([Pwm(pc, FULL)], pc + f.kickStartClock) else ([], pc);
      (f.(lastClock := pc, lastValue := value), kick + [Pwm(pc, value)])
  }

  /** A second request for the same speed sends nothing. */
  lemma SetSpeedIdempotent(f: Fan, scaled: int, pc1: int, pc2: int)
    ensures var f1 := SetSpeed(f, scaled, pc1).0;
      SetSpeed(f1, scaled, pc2) == (f1, [])
  {
  }

  /** A sequence of requests, each a quantised value and a clock, and
      every update they send. */
  function Run(f: Fan, reqs: seq<(int, int)>): (r: (Fan, seq<Pwm>))
    decreases |reqs|
  {
    if |reqs| == 0 then (f, [])
    else
      var (f1, out1) := SetSpeed(f, reqs[0].0, reqs[0].1);
      var (f2, out2) := Run(f1, reqs[1..]);
      (f2, out1 + out2)
  }

  /** The clocks of a list of updates never go backwards and never
      precede `from`. */
  predicate Ordered(from: int, out: seq<Pwm>) {
    && (forall i :: 0 <= i < |out| ==> from <= out[i].clock)
    && (forall i, j :: 0 <= i < j < |out| ==> out[i].clock <= out[j].clock)
  }

  /** With non-negative time spans a run sends its updates in clock
      order, none before the last update already sent, and ends with
      the fan's last clock at least as late as every update sent. */
  lemma {:induction false} RunOrdered(f: Fan, reqs: seq<(int, int)>)
    requires f.minFanClock >= 0 && f.kickStartClock >= 0
    ensures Ordered(f.lastClock, Run(f, reqs).1)
    ensures Run(f, reqs).0.lastClock >= f.lastClock
    ensures forall i :: 0 <= i < |Run(f, reqs).1| ==> Run(f, reqs).1[i].clock <= Run(f, reqs).0.lastClock
    decreases |reqs|
  {
    if |reqs| > 0 {
      var (f1, out1) := SetSpeed(f, reqs[0].0, reqs[0].1);
      RunOrdered(f1, reqs[1..]);
      var (f2, out2) := Run(f1, reqs[1..]);
      OrderedAppend(f.lastClock, f1.lastClock, out1, out2);
    }
  }

  lemma {:induction false} OrderedAppend(from: int, mid: int, a: seq<Pwm>, b: seq<Pwm>)
    requires Ordered(from, a) && Ordered(mid, b) && from <= mid
    requires forall i :: 0 <= i < |a| ==> a[i].clock <= mid
    ensures Ordered(from, a + b)
  {
    var ab := a + b;
    forall i, j | 0 <= i < j < |ab| ensures ab[i].clock <= ab[j].clock {
      if j >= |a| {
        assert ab[j] == b[j - |a|];
        if i >= |a| {
          assert ab[i] == b[i - |a|];
        }
      }
    }
  }

  /** A run that sends nothing leaves the fan as it was; otherwise the
      last update sent carries the fan's final value and clock. */
  lemma {:induction false} RunLast(f: Fan, reqs: seq<(int, int)>)
    ensures |Run(f, reqs).1| == 0 ==> Run(f, reqs).0 == f
    ensures |Run(f, reqs).1| > 0 ==>
      Run(f, reqs).1[|Run(f, reqs).1| - 1] == Pwm(Run(f, reqs).0.lastClock, Run(f, reqs).0.lastValue)
    decreases |reqs|
  {
    if |reqs| > 0 {
      var (f1, out1) := SetSpeed(f, reqs[0].0, reqs[0].1);
      RunLast(f1, reqs[1..]);
      var (f2, out2) := Run(f1, reqs[1..]);
      if |out2| > 0 {
        assert (out1 + out2)[|out1 + out2| - 1] == out2[|out2| - 1];
      }
    }
  }
}
