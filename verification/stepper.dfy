/** Step generation on the micro-controller: each stepper runs a queue of
    moves, each move being `count` steps whose spacing starts at
    `interval` ticks and changes by `add` after every step.

    The stepper's timer is represented by its wake time; whether the
    timer must be (re)scheduled is returned next to the new state. Moves
    are drawn from and returned to the shared move pool by node index. */
module Stepper {
  import opened Wrappers
  import opened MachineInts
  import BaseCmd
  import Sched

  const STEPPER_POSITION_BIAS: u32 := 0x4000_0000

  /** A queued move; `dir` is the `MF_DIR` flag (a direction change). */
  datatype Move = Move(node: nat, interval: u32, add: i16, count: u16, dir: bool)

  /** `struct stepper`: the `SF_*` flags are the three booleans and the
      two pins are their current output levels. */
  datatype Stepper = Stepper(
    waketime: u32, interval: u32, add: i16, count: u16, position: u32,
    queue: seq<Move>, minStopInterval: u32,
    lastDir: bool, nextDir: bool, invertStep: bool,
    stepPin: bool, dirPin: bool)

  /** An idle stepper never has queued moves. */
  predicate Valid(s: Stepper) {
    s.count == 0 ==> s.queue == []
  }

  /** `command_config_stepper` (after `alloc_oid`). */
  function Config(invertStep: bool, minStopInterval: u32): (s: Stepper)
    ensures Valid(s) && s.position == STEPPER_POSITION_BIAS && s.count == 0
    ensures s.stepPin == invertStep && !s.dirPin
  {
    Stepper(0, 0, 0, 0, STEPPER_POSITION_BIAS, [], minStopInterval,
            false, false, invertStep, invertStep, false)
  }

  /** `position - count`: the step count since the last direction change
      is encoded by its distance from zero. */
  function Raw(s: Stepper): u32 {
    W32(s.position - s.count)
  }

  /** `stepper_get_position`: the raw position, negated when its top bit
      is set. */
  function GetPosition(s: Stepper): (r: u32)
    ensures Raw(s) < TWO_31 ==> r == Raw(s)
    ensures Raw(s) >= TWO_31 ==> W32(r + Raw(s)) == 0
  {
    Reported(Raw(s))
  }

  function Reported(raw: u32): u32 {
    if raw >= TWO_31 then W32(0 - raw) else raw
  }

  /** Negating the raw position, which a direction change does, does not
      change the reported position. */
  lemma ReportedNegation(raw: u32)
    ensures Reported(W32(0 - raw)) == Reported(raw)
  {
  }

  /** `stepper_load_next`: with an empty queue the stepper stops (and it
      is an error if it was still stepping too fast to stop); otherwise
      the first move is loaded, its node goes back to the pool and the
      position is flipped on a direction change. */
  function LoadNext(s: Stepper, pool: BaseCmd.MovePool): (r: Result<(Stepper, BaseCmd.MovePool, int)>)
    ensures s.queue == [] ==> (r.Err? <==> W32(s.interval - s.add) < s.minStopInterval)
    ensures s.queue == [] && r.Err? ==> r.msg == "No next step"
    ensures s.queue == [] && r.Ok? ==> r.value == (s.(count := 0), pool, Sched.SF_DONE)
    ensures s.queue != [] ==> r.Ok? && r.value.2 == Sched.SF_RESCHEDULE
    ensures s.queue != [] ==>
      var m := s.queue[0];
      var t := r.value.0;
      && t.queue == s.queue[1..] && r.value.1 == BaseCmd.MoveFree(pool, m.node)
      && t.waketime == W32(s.waketime + m.interval)
      && t.interval == W32(m.interval + m.add) && t.add == m.add && t.count == m.count
      && (m.dir ==> t.position == W32(m.count - s.position) && t.dirPin == !s.dirPin)
      && (!m.dir ==> t.position == W32(s.position + m.count) && t.dirPin == s.dirPin)
  {
    if s.queue == [] then
      if W32(s.interval - s.add) < s.minStopInterval then Err("No next step")
      else Ok((s.(count := 0), pool, Sched.SF_DONE))
    else
      var m := s.queue[0];
      var position := if m.dir then W32(m.count - s.position) else W32(s.position + m.count);
      var t := s.(waketime := W32(s.waketime + m.interval), add := m.add,
                  interval := W32(m.interval + m.add), count := m.count,
                  position := position, dirPin := if m.dir then !s.dirPin else s.dirPin,
                  queue := s.queue[1..]);
      Ok((t, BaseCmd.MoveFree(pool, m.node), Sched.SF_RESCHEDULE))
  }

  /** `stepper_event`: one step. Within a move the next step is
      `interval` later and the interval grows by `add`; after the last
      step of a move the next move is loaded. */
  function Event(s: Stepper, pool: BaseCmd.MovePool): (r: Result<(Stepper, BaseCmd.MovePool, int)>)
    ensures W16(s.count - 1) != 0 ==> r == Ok((s.(count := W16(s.count - 1),
      waketime := W32(s.waketime + s.interval), interval := W32(s.interval + s.add)),
      pool, Sched.SF_RESCHEDULE))
    ensures W16(s.count - 1) == 0 ==> r == LoadNext(s, pool)
  {
    var count := W16(s.count - 1);
    if count != 0 then
      Ok((s.(count := count, waketime := W32(s.waketime + s.interval),
             interval := W32(s.interval + s.add)), pool, Sched.SF_RESCHEDULE))
    else LoadNext(s, pool)
  }

  /** Every step moves the raw position one further from the last
      direction change; a move that reverses direction negates it. So the
      reported position changes by exactly one step per event. */
  lemma {:induction false} EventIsOneStep(s: Stepper, pool: BaseCmd.MovePool)
    requires s.count >= 1 && Event(s, pool).Ok?
    ensures var t := Event(s, pool).value.0;
      if s.count == 1 && s.queue != [] && s.queue[0].dir
      then Raw(t) == W32(0 - (Raw(s) + 1))
      else Raw(t) == W32(Raw(s) + 1)
  {
    if s.count == 1 && s.queue != [] {
      LoadRawStep(s, pool);
    } else {
      StepRawWithin(s, pool);
    }
  }

  /** The last step of a move loads the next one. */
  lemma {:induction false} LoadRawStep(s: Stepper, pool: BaseCmd.MovePool)
    requires s.count == 1 && s.queue != []
    ensures var t := Event(s, pool).value.0;
      if s.queue[0].dir then Raw(t) == W32(0 - (Raw(s) + 1)) else Raw(t) == W32(Raw(s) + 1)
  {
    var t := LoadNext(s, pool).value.0;
    assert Event(s, pool).value.0 == t;
    var p: int := s.position;
    var c: int := s.queue[0].count;
    assert Raw(s) == W32(p - 1);
    if s.queue[0].dir {
      assert Raw(t) == W32(W32(c - p) - c);
      FlipRaw(p, c);
    } else {
      assert Raw(t) == W32(W32(p + c) - c);
      SameRaw(p, c);
    }
  }

  /** Any other step keeps the position and counts down. */
  lemma {:induction false} StepRawWithin(s: Stepper, pool: BaseCmd.MovePool)
    requires s.count >= 1 && !(s.count == 1 && s.queue != []) && Event(s, pool).Ok?
    ensures Raw(Event(s, pool).value.0) == W32(Raw(s) + 1)
  {
    var t := Event(s, pool).value.0;
    var p: int := s.position;
    var n: int := s.count;
    assert W16(n - 1) == n - 1;
    assert t.position == p && t.count == n - 1;
    assert Raw(t) == W32(p - n + 1);
    W32Plus(p - n, 1);
  }

  lemma {:induction false} FlipRaw(p: int, c: int)
    ensures W32(W32(c - p) - c) == W32(0 - (W32(p - 1) + 1))
  {
    W32Plus(c - p, 0 - c);
    W32Minus(0 - 1, p - 1);
  }

  lemma {:induction false} SameRaw(p: int, c: int)
    ensures W32(W32(p + c) - c) == W32(W32(p - 1) + 1)
  {
    W32Plus(p + c, 0 - c);
    W32Plus(p - 1, 1);
  }

  /** Loading a move into an idle stepper does not change the reported
      position, even when the move reverses direction. */
  lemma {:induction false} LoadKeepsPosition(s: Stepper, pool: BaseCmd.MovePool)
    requires s.count == 0 && s.queue != []
    ensures GetPosition(LoadNext(s, pool).value.0) == GetPosition(s)
  {
    var t := LoadNext(s, pool).value.0;
    var p: int := s.position;
    var c: int := s.queue[0].count;
    assert Raw(s) == p;
    if s.queue[0].dir {
      assert Raw(t) == W32(0 - p) by {
        assert Raw(t) == W32(W32(c - p) - c);
        W32Plus(c - p, 0 - c);
      }
      assert Reported(W32(0 - p)) == Reported(p) by {
        ReportedNegation(p);
      }
    } else {
      assert Raw(t) == p by {
        assert Raw(t) == W32(W32(p + c) - c);
        W32Plus(p + c, 0 - c);
      }
    }
  }

  /** `command_set_next_step_dir` */
  function SetNextStepDir(s: Stepper, dir: bool): (r: Stepper)
    ensures r.nextDir == dir && r.(nextDir := s.nextDir) == s
  {
    s.(nextDir := dir)
  }

  /** `command_queue_step`: allocates a move, marks it as a direction
      change when the requested direction differs from the last queued
      one, and either appends it (stepper active) or loads it at once
      and asks for the timer to be scheduled (stepper idle). A zero count
      is refused. */
  function QueueStep(s: Stepper, pool: BaseCmd.MovePool, interval: u32, count: u32, add: u32)
    : (r: Result<(Stepper, BaseCmd.MovePool, bool)>)
    requires Valid(s)
    ensures |pool.free| == 0 ==> r == Err("Move queue empty")
    ensures |pool.free| > 0 && W16(count) == 0 ==> r == Err("Invalid count parameter")
    ensures |pool.free| > 0 && W16(count) != 0 ==> r.Ok?
    ensures r.Ok? ==> Valid(r.value.0) && r.value.0.lastDir == s.nextDir
    ensures r.Ok? && s.count != 0 ==>
      && r.value.0.queue == s.queue + [Move(pool.free[0], interval, Signed16(add), W16(count),
                                            s.lastDir != s.nextDir)]
      && r.value.1.free == pool.free[1..] && !r.value.2
    ensures r.Ok? && s.count == 0 ==>
      && r.value.2 && r.value.0.count == W16(count) && r.value.0.waketime == W32(s.waketime + interval)
      && r.value.0.queue == [] && r.value.1 == pool
  {
    match BaseCmd.MoveAlloc(pool)
    case Err(e) => Err(e)
    case Ok((node, rest)) =>
      var flip := s.lastDir != s.nextDir;
      var s1 := s.(lastDir := if flip then !s.lastDir else s.lastDir);
      var m := Move(node, interval, Signed16(add), W16(count), flip);
      if m.count == 0 then Err("Invalid count parameter")
      else if s.count != 0 then Ok((s1.(queue := s1.queue + [m]), rest, false))
      else
        var loaded := LoadNext(s1.(queue := [m]), rest);
        Ok((loaded.value.0, loaded.value.1, true))
  }

  /** The `%hi` argument: the low 16 bits read as a signed number. */
  function Signed16(x: u32): (r: i16)
    ensures W16(r) == W16(x)
  {
    var v := W16(x);
    if v < 0x8000 then v else v - TWO_16
  }

  /** Moves are executed first in, first out: queueing on an active
      stepper keeps every earlier move ahead of the new one. */
  lemma QueueIsFifo(s: Stepper, pool: BaseCmd.MovePool, interval: u32, count: u32, add: u32)
    requires Valid(s) && s.count != 0
    requires QueueStep(s, pool, interval, count, add).Ok?
    ensures var q := QueueStep(s, pool, interval, count, add).value.0.queue;
      |q| == |s.queue| + 1 && q[..|s.queue|] == s.queue
  {
  }

  /** `command_reset_step_clock`: only an idle stepper may be re-timed. */
  function ResetStepClock(s: Stepper, waketime: u32): (r: Result<Stepper>)
    ensures r.Err? <==> s.count != 0
    ensures r.Err? ==> r.msg == "Can't reset time when stepper active"
    ensures r.Ok? ==> r.value == s.(waketime := waketime)
  {
    if s.count != 0 then Err("Can't reset time when stepper active")
    else Ok(s.(waketime := waketime))
  }

  /** `stepper_reset`: the reported position is kept, the stepper is
      idle, only `SF_INVERT_STEP` survives and the direction pin is low. */
  function Reset(s: Stepper): (r: Stepper)
    ensures r.count == 0 && GetPosition(r) == GetPosition(s)
    ensures !r.lastDir && !r.nextDir && r.invertStep == s.invertStep && !r.dirPin
    ensures r.queue == s.queue && r.stepPin == s.stepPin
  {
    var t := s.(position := GetPosition(s), count := 0, lastDir := false,
                nextDir := false, dirPin := false);
    assert Raw(t) == GetPosition(s);
    assert GetPosition(s) < TWO_31 || GetPosition(s) == TWO_31;
    t
  }

  /** `stepper_stop`: resets the stepper and returns every queued move to
      the pool, front first (so the pool's head is the last one). */
  function Stop(s: Stepper, pool: BaseCmd.MovePool): (r: (Stepper, BaseCmd.MovePool))
    ensures r.0 == Reset(s).(queue := [])
    ensures r.1 == FreeAll(pool, s.queue)
    ensures Valid(r.0)
  {
    (Reset(s).(queue := []), FreeAll(pool, s.queue))
  }

  function FreeAll(pool: BaseCmd.MovePool, ms: seq<Move>): (r: BaseCmd.MovePool)
    ensures |r.free| == |pool.free| + |ms|
    decreases |ms|
  {
    if ms == [] then pool else FreeAll(BaseCmd.MoveFree(pool, ms[0].node), ms[1..])
  }

  /** Stopping conserves moves: every node the stepper held is back in
      the pool. */
  lemma {:induction false} StopReturnsEveryNode(pool: BaseCmd.MovePool, ms: seq<Move>, i: nat)
    requires i < |ms|
    ensures ms[i].node in FreeAll(pool, ms).free
    decreases |ms|
  {
    if i == 0 {
      FreeAllKeeps(BaseCmd.MoveFree(pool, ms[0].node), ms[1..], ms[0].node);
    } else {
      StopReturnsEveryNode(BaseCmd.MoveFree(pool, ms[0].node), ms[1..], i - 1);
    }
  }

  lemma {:induction false} FreeAllKeeps(pool: BaseCmd.MovePool, ms: seq<Move>, n: nat)
    requires n in pool.free
    ensures n in FreeAll(pool, ms).free
    decreases |ms|
  {
    if ms != [] {
      FreeAllKeeps(BaseCmd.MoveFree(pool, ms[0].node), ms[1..], n);
    }
  }

  /** `stepper_shutdown` for one stepper: reset, queue dropped (the pool
      itself is rebuilt by `move_reset`) and the step pin at rest. */
  function Shutdown(s: Stepper): (r: Stepper)
    ensures r == Reset(s).(queue := [], stepPin := s.invertStep)
    ensures Valid(r) && GetPosition(r) == GetPosition(s)
  {
    Reset(s).(queue := [], stepPin := s.invertStep)
  }

  // ------------------------------------------------------------ timing

  /** One event in the middle of a move (not the move's last step). */
  function Step(s: Stepper): (r: Stepper)
    ensures r.waketime == W32(s.waketime + s.interval)
    ensures r.interval == W32(s.interval + s.add) && r.add == s.add
  {
    s.(count := W16(s.count - 1), waketime := W32(s.waketime + s.interval),
       interval := W32(s.interval + s.add))
  }

  /** `k` events in the middle of a move. */
  function Steps(s: Stepper, k: nat): Stepper
    decreases k
  {
    if k == 0 then s else Steps(Step(s), k - 1)
  }

  /** After `k` steps the wake time has advanced by `k` intervals plus
      `add` for each pair of steps: the closed form the host uses. */
  lemma {:induction false} StepsClosedForm(s: Stepper, k: nat)
    ensures Steps(s, k).waketime == W32(s.waketime + k * s.interval + s.add * Tri(k))
    ensures Steps(s, k).interval == W32(s.interval + k * s.add)
    decreases k
  {
    if k > 0 {
      StepsClosedForm(Step(s), k - 1);
      ClosedStep(s.waketime, s.interval, s.add, k - 1);
      IntervalStep(s.interval, s.add, k - 1);
    }
  }

  /** `k * (k - 1) / 2` */
  function Tri(k: nat): nat {
    k * (k - 1) / 2
  }

  lemma {:induction false} TriNext(j: nat)
    ensures Tri(j + 1) == Tri(j) + j
  {
    assert (j + 1) * j == j * (j - 1) + 2 * j;
  }

  lemma {:induction false} ClosedStep(w0: int, i0: int, a: int, j: nat)
    ensures W32(W32(w0 + i0) + j * W32(i0 + a) + a * Tri(j))
         == W32(w0 + (j + 1) * i0 + a * Tri(j + 1))
  {
    W32Plus(w0 + i0, j * W32(i0 + a) + a * Tri(j));
    MulWrap(j, i0 + a, w0 + i0 + a * Tri(j));
    TriNext(j);
    assert j * (i0 + a) == j * i0 + j * a;
    assert a * Tri(j + 1) == a * Tri(j) + a * j;
    assert (j + 1) * i0 == j * i0 + i0;
  }

  lemma {:induction false} IntervalStep(i0: int, a: int, j: nat)
    ensures W32(W32(i0 + a) + j * a) == W32(i0 + (j + 1) * a)
  {
    W32Plus(i0 + a, j * a);
    assert (j + 1) * a == j * a + a;
  }

  /** A multiple of a truncated value is congruent to the multiple of the
      value itself. */
  lemma {:induction false} MulWrap(j: nat, x: int, c: int)
    ensures W32(c + j * W32(x)) == W32(c + j * x)
  {
    var q := x / TWO_32;
    assert x == q * TWO_32 + W32(x);
    assert j * x == j * W32(x) + (j * q) * TWO_32;
  }

  /** The time at which the last step of a move happens: the move's
      start plus `count * interval + add * count * (count - 1) / 2`. */
  function MoveTicks(interval: u32, add: i16, count: u16): int {
    count * interval + add * Tri(count)
  }

  /** Loading a move and running it to its last step takes `MoveTicks`
      (modulo 2^32) from the previous step: the firmware steps where the
      host's step compression says it will. */
  lemma {:induction false} MoveTakesMoveTicks(s: Stepper, pool: BaseCmd.MovePool)
    requires s.queue != [] && s.queue[0].count >= 1
    ensures var m := s.queue[0];
      var t := LoadNext(s, pool).value.0;
      Steps(t, m.count - 1).waketime == W32(s.waketime + MoveTicks(m.interval, m.add, m.count))
  {
    var m := s.queue[0];
    var t := LoadNext(s, pool).value.0;
    var k: nat := m.count - 1;
    StepsClosedForm(t, k);
    ClosedStep(s.waketime, m.interval, m.add, k);
  }
}
