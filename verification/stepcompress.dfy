/** Host-side step compression: the queue of requested step times of one
    stepper, the search for `queue_step` moves (interval, count, add)
    that reproduce those times within a tolerance, the independent check
    of each move, and the flush that turns the queue into messages.

    The step times in the queue are 32-bit values relative to `relclock`;
    `last_step_clock` is the 64-bit time of the last step sent. The C
    code's `int32_t` search arithmetic is modelled with unbounded
    integers (see README) and its `/` with `CDiv`. */
module StepCompress {
  import opened Wrappers
  import opened MachineInts
  import Stepper

  const QUEUE_START_SIZE: nat := 1024
  const QUADRATIC_DEV: int := 11
  const MAX_COUNT: nat := 65535

  /** A queued message: its encoded words, `min_clock` and `req_clock`. */
  datatype QMsg = QMsg(data: seq<int>, minClock: u64, reqClock: u64)

  /** A `queue_step` move: `count` steps, the first `interval` ticks after
      the previous one and each gap `add` ticks longer than the last. */
  datatype StepMove = StepMove(interval: u32, count: u16, add: i16)

  /** `struct stepcompress`: the step-time array (its length is the
      allocation), the `queue_pos`/`queue_next` offsets into it, and the
      bookkeeping fields. */
  datatype SC = SC(
    queue: seq<u32>, pos: nat, next: nat, relclock: u32, maxError: u32,
    errors: u32, lastStepClock: u64, msgs: seq<QMsg>, msgid: int, oid: int)

  predicate Valid(sc: SC) {
    sc.pos <= sc.next <= |sc.queue|
  }

  /** The `i`-th pending step time, relative to the last step sent. */
  function Rel(sc: SC, i: nat): u32
    requires Valid(sc) && i < sc.next - sc.pos
  {
    W32(sc.queue[sc.pos + i] - sc.relclock)
  }

  /** The same step time on the 32-bit clock. */
  function Abs(sc: SC, i: nat): u32
    requires Valid(sc) && i < sc.next - sc.pos
  {
    W32(sc.lastStepClock + Rel(sc, i))
  }

  /** `stepcompress_alloc` */
  function Alloc(maxError: u32, msgid: int, oid: int): (sc: SC)
    ensures Valid(sc) && sc.next - sc.pos == 0 && sc.errors == 0 && sc.msgs == []
  {
    SC([], 0, 0, 0, maxError, 0, 0, [], msgid, oid)
  }

  // ------------------------------------------------------------ queue

  /** The queue after `clean_queue`. */
  function Cleaned(sc: SC): (r: SC)
    requires Valid(sc)
    ensures Valid(r) && r.pos == 0 && r.next == sc.next - sc.pos && r.relclock == 0
    ensures |r.queue| == |sc.queue|
    ensures forall i :: 0 <= i < r.next ==> Rel(r, i) == Rel(sc, i)
  {
    sc.(queue := seq(|sc.queue|, k requires 0 <= k < |sc.queue| => CleanedEntry(sc, k)),
        pos := 0, next := sc.next - sc.pos, relclock := 0)
  }

  function CleanedEntry(sc: SC, k: nat): u32
    requires Valid(sc) && k < |sc.queue|
  {
    if k < sc.next - sc.pos then W32(sc.queue[sc.pos + k] - sc.relclock) else sc.queue[k]
  }

  /** `clean_queue`: moves the pending times to the front of the array,
      rebased so that `relclock` becomes zero. */
  method CleanQueue(sc: SC) returns (r: SC)
    requires Valid(sc)
    ensures r == Cleaned(sc)
  {
    var q: seq<u32> := sc.queue;
    var dest := 0;
    assert CleanedPrefix(sc, q, 0);
    while dest < sc.next - sc.pos
      invariant CleanedPrefix(sc, q, dest)
    {
      q := CleanStep(sc, q, dest);
      dest := dest + 1;
    }
    r := sc.(queue := q, pos := 0, next := dest, relclock := 0);
    CleanedAll(sc, r);
  }

  /** The first `dest` entries of `q` are rebased pending times and the
      rest is the original array. */
  predicate CleanedPrefix(sc: SC, q: seq<u32>, dest: nat)
    requires Valid(sc)
  {
    |q| == |sc.queue| && dest <= sc.next - sc.pos
    && forall k :: 0 <= k < |q| ==> q[k] == (if k < dest then CleanedEntry(sc, k) else sc.queue[k])
  }

  /** One move of the compaction: the time at `pos + dest` is rebased
      and stored at `dest`. */
  function CleanStep(sc: SC, q: seq<u32>, dest: nat): (r: seq<u32>)
    requires Valid(sc) && CleanedPrefix(sc, q, dest) && dest < sc.next - sc.pos
    ensures CleanedPrefix(sc, r, dest + 1)
  {
    assert q[sc.pos + dest] == sc.queue[sc.pos + dest];
    q[dest := W32(q[sc.pos + dest] - sc.relclock)]
  }

  lemma {:induction false} CleanedAll(sc: SC, r: SC)
    requires Valid(sc) && CleanedPrefix(sc, r.queue, sc.next - sc.pos)
    requires r == sc.(queue := r.queue, pos := 0, next := sc.next - sc.pos, relclock := 0)
    ensures r == Cleaned(sc)
  {
    assert r.queue == Cleaned(sc).queue;
  }

  /** Doubling `alloc` until it holds `need` entries. */
  function GrowTo(alloc: nat, need: nat): (r: nat)
    requires alloc > 0
    ensures r >= need && r >= alloc
    decreases need - alloc
  {
    if need > alloc then GrowTo(alloc * 2, need) else alloc
  }

  /** The reallocation branch of `expand_queue`: offsets are kept and the
      array grows (from 1024 entries when empty) by doubling. */
  function Grown(sc: SC, count: nat): (r: SC)
    requires Valid(sc)
    ensures Valid(r) && r.pos == sc.pos && r.next == sc.next && r.next + count <= |r.queue|
    ensures |r.queue| >= |sc.queue| && r.queue[..|sc.queue|] == sc.queue && r.relclock == sc.relclock
  {
    var alloc := if |sc.queue| == 0 then QUEUE_START_SIZE else |sc.queue|;
    var size := GrowTo(alloc, sc.next + count);
    sc.(queue := sc.queue + seq(size - |sc.queue|, _ => 0))
  }

  /** `expand_queue` as written: it only compacts whenever `count` fits in
      the array, without counting the entries still pending. */
  function ExpandQueueAsWritten(sc: SC, count: nat): (r: SC)
    requires Valid(sc)
    ensures Valid(r)
  {
    if count <= |sc.queue| then Cleaned(sc) else Grown(sc, count)
  }

  /** `expand_queue` with the room test counting the pending entries:
      afterwards `count` more entries fit and the pending times are
      kept. */
  function ExpandQueue(sc: SC, count: nat): (r: SC)
    requires Valid(sc)
    ensures Valid(r) && r.next + count <= |r.queue|
    ensures r.next - r.pos == sc.next - sc.pos
    ensures forall i :: 0 <= i < r.next - r.pos ==> Rel(r, i) == Rel(sc, i)
  {
    if (sc.next - sc.pos) + count <= |sc.queue| then Cleaned(sc) else Grown(sc, count)
  }

  /** The compaction in `expand_queue` as written can leave too little
      room: 1000 of 1024 entries pending from the start of the array and
      100 more requested. */
  lemma ExpandQueueOverrun()
    ensures var sc := SC(seq(1024, _ => 0), 0, 1000, 0, 0, 0, 0, [], 0, 0);
      var r := ExpandQueueAsWritten(sc, 100);
      r.next + 100 > |r.queue|
  {
  }

  /** `check_expand`: grows only when `count` more entries do not fit. */
  function CheckExpand(sc: SC, count: nat): (r: SC)
    requires Valid(sc)
    ensures Valid(r) && r.next + count <= |r.queue|
    ensures r.next - r.pos == sc.next - sc.pos
    ensures forall i :: 0 <= i < r.next - r.pos ==> Rel(r, i) == Rel(sc, i)
    ensures r.lastStepClock == sc.lastStepClock && r.msgs == sc.msgs
  {
    if sc.next + count > |sc.queue| then ExpandQueue(sc, count) else sc
  }

  /** `stepcompress_push` of a step at absolute time `clock` (already
      rounded to whole ticks): it is queued relative to the last step. */
  function Push(sc: SC, clock: int): (r: SC)
    requires Valid(sc)
    ensures Valid(r) && r.next - r.pos == sc.next - sc.pos + 1
    ensures forall i :: 0 <= i < sc.next - sc.pos ==> Rel(r, i) == Rel(sc, i)
    ensures Rel(r, sc.next - sc.pos) == W32(clock - sc.lastStepClock)
  {
    var e := CheckExpand(sc, 1);
    var r := e.(queue := e.queue[e.next := W32(clock + e.relclock - e.lastStepClock)], next := e.next + 1);
    assert forall i :: 0 <= i < e.next - e.pos ==> Rel(r, i) == Rel(e, i);
    W32Plus(clock + e.relclock - e.lastStepClock, 0 - (e.relclock as int));
    r
  }

  // ------------------------------------------------------------ search

  /** `DIV_UP` with C division. */
  function DivUp(n: int, d: int): (r: int)
    requires d > 0
    ensures n <= d * r
  {
    CDiv(n + d - 1, d)
  }

  /** `idiv_up`: ceiling division. */
  function IDivUp(n: int, d: int): (r: int)
    requires d > 0
    ensures d * (r - 1) < n <= d * r
  {
    if n >= 0 then DivUp(n, d) else CDiv(n, d)
  }

  /** `idiv_down`: floor division. */
  function IDivDown(n: int, d: int): (r: int)
    requires d > 0
    ensures d * r <= n < d * (r + 1)
  {
    if n >= 0 then CDiv(n, d) else CDiv(n - d + 1, d)
  }

  /** The window of acceptable times for one step. */
  datatype Points = Points(minp: int, maxp: int)

  /** `minmax_point` for the pending entry at array index `j`: a step may
      be early by half the gap to the previous step (the previous step is
      at 0 for the first one), but by no more than `max_error`. The
      `int32_t` fields receive the 32-bit values. */
  function MinMaxPoint(sc: SC, j: nat): (r: Points)
    requires Valid(sc) && sc.pos <= j < sc.next
    ensures var t := W32(sc.queue[j] - sc.relclock);
      var err := StepError(Gap(sc, j), sc.maxError);
      && W32(r.maxp) == t && W32(r.minp) == W32(t - err)
      && (err <= t < TWO_31 ==> r.minp == t - err && r.maxp == t)
    ensures -TWO_31 <= r.minp < TWO_31 && -TWO_31 <= r.maxp < TWO_31
  {
    Window(W32(sc.queue[j] - sc.relclock), Gap(sc, j), sc.maxError)
  }

  /** The distance in ticks from the step before the pending entry at
      `j` to it; the first pending step is measured from the last step
      sent. */
  function Gap(sc: SC, j: nat): u32
    requires Valid(sc) && sc.pos <= j < sc.next
  {
    if j > sc.pos then W32(sc.queue[j] as int - sc.queue[j - 1] as int)
    else W32(sc.queue[j] - sc.relclock)
  }

  /** The gap is what `minmax_point` computes: the difference of the
      two relative times, the previous one being 0 for the first step. */
  lemma GapIsRelative(sc: SC, j: nat)
    requires Valid(sc) && sc.pos <= j < sc.next
    ensures var prev := if j > sc.pos then W32(sc.queue[j - 1] - sc.relclock) else 0;
      Gap(sc, j) == W32(W32(sc.queue[j] - sc.relclock) - prev)
  {
    if j > sc.pos {
      W32Diff(sc.queue[j], sc.queue[j - 1], sc.relclock);
    } else {
      W32Id(W32(sc.queue[j] - sc.relclock));
    }
  }

  /** The error allowed to a step `gap` ticks after the previous one:
      half the gap, capped at `maxError`. */
  function StepError(gap: u32, maxError: u32): u32 {
    if gap / 2 > maxError then maxError else gap / 2
  }

  /** The window of a step at `point`, `gap` ticks after the previous
      step: its error is `StepError(gap, maxError)`; both bounds are read
      back as signed 32-bit values. */
  function Window(point: u32, gap: u32, maxError: u32): (r: Points)
    ensures var err := StepError(gap, maxError);
      W32(r.maxp) == point && W32(r.minp) == W32(point - err)
      && (err <= point < TWO_31 ==> r.minp == point - err && r.maxp == point)
    ensures -TWO_31 <= r.minp < TWO_31 && -TWO_31 <= r.maxp < TWO_31
  {
    var err := StepError(gap, maxError);
    Points(Signed32(W32(point - err)), Signed32(point))
  }

  lemma MulLess(a: int, b: int, d: int)
    requires d > 0 && a * d < b * d
    ensures a < b
  {
  }

  /** The time of step `k` (from 0) of a move, relative to the last step
      sent, in exact arithmetic: `k + 1` intervals and the add counted
      `Tri(k + 1)` times. */
  function MoveStepTime(add: int, interval: int, k: nat): int {
    add * Stepper.Tri(k + 1) + interval * (k + 1)
  }

  /** Step `k` of the move comes no earlier than its window. */
  predicate FitsAbove(sc: SC, k: nat, add: int, interval: int)
    requires Valid(sc) && sc.pos + k < sc.next
  {
    MinMaxPoint(sc, sc.pos + k).minp <= MoveStepTime(add, interval, k)
  }

  /** Step `k` of the move comes no later than its window. */
  predicate FitsBelow(sc: SC, k: nat, add: int, interval: int)
    requires Valid(sc) && sc.pos + k < sc.next
  {
    MoveStepTime(add, interval, k) <= MinMaxPoint(sc, sc.pos + k).maxp
  }

  /** The first `count` pending steps all lie in their windows. */
  predicate Fits(sc: SC, count: nat, add: int, interval: int)
    requires Valid(sc) && sc.pos + count <= sc.next
  {
    forall k :: 0 <= k < count ==> FitsAbove(sc, k, add, interval) && FitsBelow(sc, k, add, interval)
  }

  /** The steps of a run after the first lie above their windows'
      bottoms at interval `lo`, and below their tops at `hi` when that is
      positive. */
  predicate LaterStepsFit(sc: SC, count: nat, add: int, lo: int, hi: int)
    requires Valid(sc) && sc.pos + count <= sc.next
  {
    && (forall k :: 1 <= k < count ==> FitsAbove(sc, k, add, lo))
    && (hi >= 1 ==> forall k :: 1 <= k < count ==> FitsBelow(sc, k, add, hi))
  }

  /** A later step time for a longer interval. */
  lemma StepTimeMono(add: int, a: int, b: int, k: nat)
    requires a <= b
    ensures MoveStepTime(add, a, k) <= MoveStepTime(add, b, k)
  {
    assert b * (k + 1) - a * (k + 1) == (b - a) * (k + 1);
  }

  /** One step of the interval search: the bounds move in just far
      enough for a step `c + interval * d` to reach the window, the lower
      one by rounding up, the upper one by the source's division, which
      truncates toward zero and so is only exact for a positive result. */
  function NarrowInterval(c: int, d: int, lo: int, hi: int, point: Points): (r: (int, int))
    requires d > 0
    ensures lo <= r.0 && r.1 <= hi
    ensures point.minp <= c + r.0 * d
    ensures r.1 >= 1 ==> c + r.1 * d <= point.maxp
  {
    var lo' := if c + lo * d < point.minp then DivUp(point.minp - c, d) else lo;
    var hi' := if c + hi * d > point.maxp then CDiv(point.maxp - c, d) else hi;
    assert lo <= lo' by {
      if c + lo * d < point.minp {
        MulLess(lo, lo', d);
      }
    }
    assert hi' <= hi by {
      if c + hi * d > point.maxp {
        MulLess(hi' - 1, hi, d);
      }
    }
    (lo', hi')
  }

  /** The bounds found for step `count` put it in its window. */
  lemma NextStepFits(sc: SC, count: nat, add: int, c: int, lo: int, hi: int)
    requires Valid(sc) && sc.pos + count < sc.next && c == add * Stepper.Tri(count + 1)
    requires MinMaxPoint(sc, sc.pos + count).minp <= c + lo * (count + 1)
    requires hi >= 1 ==> c + hi * (count + 1) <= MinMaxPoint(sc, sc.pos + count).maxp
    ensures FitsAbove(sc, count, add, lo)
    ensures hi >= 1 ==> FitsBelow(sc, count, add, hi)
  {
    assert c + lo * (count + 1) == MoveStepTime(add, lo, count);
    assert c + hi * (count + 1) == MoveStepTime(add, hi, count);
  }

  /** Narrowing the interval range keeps the earlier steps in their
      windows, and extends the run by the step the new range fits. */
  lemma RunStillFits(sc: SC, count: nat, add: int, lo: int, hi: int, lo': int, hi': int)
    requires Valid(sc) && sc.pos + count < sc.next
    requires lo <= lo' && hi' <= hi
    requires LaterStepsFit(sc, count, add, lo, hi)
    requires FitsAbove(sc, count, add, lo')
    requires hi' >= 1 ==> FitsBelow(sc, count, add, hi')
    ensures LaterStepsFit(sc, count + 1, add, lo', hi')
  {
    forall k | 1 <= k < count
      ensures FitsAbove(sc, k, add, lo')
      ensures hi' >= 1 ==> FitsBelow(sc, k, add, hi')
    {
      assert FitsAbove(sc, k, add, lo);
      StepTimeMono(add, lo, lo', k);
      if hi' >= 1 {
        assert FitsBelow(sc, k, add, hi);
        StepTimeMono(add, hi', hi, k);
      }
    }
  }

  /** The inner loop of `compress_bisect_add` for one `add`: extends the
      run while some interval still fits every step. `reached` says the
      run got to `last`; otherwise `point` is the first step that did not
      fit, `addfactor` the add multiplier at it, and the interval range is
      the one before it. The range only narrows. When the range starts
      inside the first step's window, a positive `maxinterval` puts every
      step of the run in its window; a bound that is not positive may miss
      (the source's division truncates toward zero, which can round a
      negative bound up). */
  method FitRun(sc: SC, last: nat, add: int, origmin: int, origmax: int)
    returns (reached: bool, count: int, addfactor: int, mininterval: int, maxinterval: int, point: Points)
    requires Valid(sc) && sc.pos < last <= sc.next
    requires MinMaxPoint(sc, sc.pos).minp <= origmin && origmax <= MinMaxPoint(sc, sc.pos).maxp
    requires origmax >= 1 ==> origmin <= origmax
    requires -TWO_31 <= origmax
    ensures 1 <= count <= last - sc.pos
    ensures reached <==> count == last - sc.pos
    ensures !reached ==> addfactor >= 1
    ensures origmin <= mininterval && maxinterval <= origmax
    ensures count == 1 ==> mininterval == origmin && maxinterval == origmax
    ensures count >= 2 ==> mininterval <= maxinterval
    ensures maxinterval >= 1 ==> Fits(sc, count, add, maxinterval)
    ensures 1 <= W32(maxinterval) < TWO_31 ==> W32(maxinterval) == maxinterval
  {
    mininterval, maxinterval := origmin, origmax;
    count, addfactor := 1, 0;
    point := Points(0, 0);
    while true
      invariant 1 <= count <= last - sc.pos
      invariant addfactor >= 0 && addfactor == Stepper.Tri(count)
      invariant origmin <= mininterval && maxinterval <= origmax
      invariant count == 1 ==> mininterval == origmin && maxinterval == origmax
      invariant count >= 2 ==> mininterval <= maxinterval
      invariant LaterStepsFit(sc, count, add, mininterval, maxinterval)
      decreases last - sc.pos - count
    {
      if sc.pos + count >= last {
        reached := true;
        break;
      }
      var nextmininterval, nextmaxinterval;
      addfactor, nextmininterval, nextmaxinterval, point :=
        ExtendRun(sc, count, add, addfactor, mininterval, maxinterval);
      if nextmininterval > nextmaxinterval {
        reached := false;
        break;
      }
      count := count + 1;
      mininterval, maxinterval := nextmininterval, nextmaxinterval;
    }
    RunFits(sc, count, add, origmin, origmax, mininterval, maxinterval);
    W32Signed(maxinterval);
  }

  /** One step of the inner loop: the add multiplier and the interval
      range once step `count` is taken into account. When the range is
      not empty the run, one step longer, still fits. */
  method ExtendRun(sc: SC, count: nat, add: int, addfactor: int, lo: int, hi: int)
    returns (addfactor': int, lo': int, hi': int, point: Points)
    requires Valid(sc) && 1 <= count && sc.pos + count < sc.next
    requires addfactor == Stepper.Tri(count)
    requires LaterStepsFit(sc, count, add, lo, hi)
    ensures point == MinMaxPoint(sc, sc.pos + count)
    ensures addfactor' == Stepper.Tri(count + 1) == addfactor + count
    ensures lo <= lo' && hi' <= hi
    ensures lo' <= hi' ==> LaterStepsFit(sc, count + 1, add, lo', hi')
  {
    point := MinMaxPoint(sc, sc.pos + count);
    Stepper.TriNext(count);
    addfactor' := addfactor + count;
    var c := add * addfactor';
    var next := NarrowInterval(c, count + 1, lo, hi, point);
    lo', hi' := next.0, next.1;
    NextStepFits(sc, count, add, c, lo', hi');
    RunStillFits(sc, count, add, lo, hi, lo', hi');
  }

  /** The narrowing of the add range in `compress_bisect_add` after a
      failed run: the bound that failed moves to `add`, then each bound is
      pulled in to the adds for which the stored extreme interval can
      still reach the failing step, then (for runs longer than one) to
      within the quadratic deviation allowed by `max_error`. The range
      only ever shrinks, and `add` leaves it. */
  function NarrowAdd(sc: SC, add: int, minadd: int, maxadd: int, count: int, addfactor: int,
                     mininterval: int, maxinterval: int, origmin: int, origmax: int, point: Points)
    : (r: (int, int, int, int))
    requires minadd < add < maxadd && count >= 1 && addfactor >= 1
    ensures var (lo, hi, _, _) := r; minadd <= lo && hi <= maxadd && (lo >= add || hi <= add)
    ensures (r.2 == origmin && r.3 == maxinterval) || (r.2 == mininterval && r.3 == origmax)
  {
    var failedLow := add * addfactor + maxinterval * (count + 1) < point.minp;
    var lo1 := if failedLow then add else minadd;
    var hi1 := if failedLow then maxadd else add;
    var origmax' := if failedLow then maxinterval else origmax;
    var origmin' := if failedLow then origmin else mininterval;
    var lo2 := if (lo1 + 1) * addfactor + origmax' * (count + 1) < point.minp
               then IDivUp(point.minp - origmax' * (count + 1), addfactor) - 1 else lo1;
    var hi2 := if (hi1 - 1) * addfactor + origmin' * (count + 1) > point.maxp
               then IDivDown(point.maxp - origmin' * (count + 1), addfactor) + 1 else hi1;
    assert lo1 <= lo2 by {
      if (lo1 + 1) * addfactor + origmax' * (count + 1) < point.minp {
        MulLess(lo1 + 1, IDivUp(point.minp - origmax' * (count + 1), addfactor), addfactor);
      }
    }
    assert hi2 <= hi1 by {
      if (hi1 - 1) * addfactor + origmin' * (count + 1) > point.maxp {
        MulLess(IDivDown(point.maxp - origmin' * (count + 1), addfactor), hi1 - 1, addfactor);
      }
    }
    var errdelta := if count > 1 then DivUp(sc.maxError * QUADRATIC_DEV, count * count) else 0;
    var lo3 := if count > 1 && lo2 < add - errdelta then add - errdelta else lo2;
    var hi3 := if count > 1 && hi2 > add + errdelta then add + errdelta else hi2;
    (lo3, hi3, origmin', origmax')
  }

  /** A run found by the search: its length, add and interval. */
  datatype Candidate = Candidate(count: int, add: int, interval: int)

  /** Whether `a` is preferred to `b`: longer, or as long with a larger add. */
  predicate Beats(a: Candidate, b: Candidate) {
    a.count > b.count || (a.count == b.count && a.add > b.add)
  }

  /** The best-so-far update of `compress_bisect_add`. */
  function KeepBest(best: Candidate, c: Candidate): (r: Candidate)
    ensures r == best || r == c
    ensures !Beats(best, r) && !Beats(c, r)
  {
    if Beats(c, best) then c else best
  }

  /** The search's best over a list of candidates, from a starting one. */
  function BestOf(best: Candidate, cs: seq<Candidate>): Candidate
    decreases |cs|
  {
    if cs == [] then best else BestOf(KeepBest(best, cs[0]), cs[1..])
  }

  /** Adding a candidate at the end compares it with the best so far. */
  lemma {:induction false} BestOfSnoc(best: Candidate, cs: seq<Candidate>, c: Candidate)
    ensures BestOf(best, cs + [c]) == KeepBest(BestOf(best, cs), c)
    decreases |cs|
  {
    if cs != [] {
      assert (cs + [c])[1..] == cs[1..] + [c];
      BestOfSnoc(KeepBest(best, cs[0]), cs[1..], c);
    }
  }

  /** The best is one of the candidates (or the start) and no candidate
      beats it: the longest run wins, and among the longest the largest
      add. */
  lemma {:induction false} BestOfIsBest(best: Candidate, cs: seq<Candidate>)
    ensures var r := BestOf(best, cs);
      && (r == best || r in cs)
      && !Beats(best, r)
      && forall c :: c in cs ==> !Beats(c, r)
    decreases |cs|
  {
    if cs != [] {
      var k := KeepBest(best, cs[0]);
      BestOfIsBest(k, cs[1..]);
      var r := BestOf(k, cs[1..]);
      assert r == BestOf(best, cs);
      assert !Beats(k, r);
      forall c | c in cs
        ensures !Beats(c, r)
      {
        if c != cs[0] {
          assert c in cs[1..];
        }
      }
    }
  }

  /** The most steps one move may cover: the pending ones, at most 65535. */
  function Span(sc: SC): nat
    requires Valid(sc)
  {
    if sc.next - sc.pos > MAX_COUNT then MAX_COUNT else sc.next - sc.pos
  }

  /** A run of the search keeps the first step in its window: every
      interval of the range lies inside it. So the interval a run ends
      with, when positive, puts all the run's steps in their windows. */
  lemma RunFits(sc: SC, count: nat, add: int, origmin: int, origmax: int, lo: int, hi: int)
    requires Valid(sc) && 1 <= count && sc.pos + count <= sc.next
    requires MinMaxPoint(sc, sc.pos).minp <= origmin && origmax <= MinMaxPoint(sc, sc.pos).maxp
    requires origmax >= 1 ==> origmin <= origmax
    requires origmin <= lo && hi <= origmax
    requires count == 1 ==> lo == origmin && hi == origmax
    requires count >= 2 ==> lo <= hi
    requires LaterStepsFit(sc, count, add, lo, hi)
    ensures hi >= 1 ==> Fits(sc, count, add, hi)
  {
    if hi >= 1 {
      forall k | 0 <= k < count
        ensures FitsAbove(sc, k, add, hi) && FitsBelow(sc, k, add, hi)
      {
        if k == 0 {
          assert MoveStepTime(add, hi, 0) == hi;
        } else {
          assert FitsAbove(sc, k, add, lo);
          StepTimeMono(add, lo, hi, k);
        }
      }
    }
  }

  /** Every run tried by the search covers at least one step and fewer
      than the span, and puts its steps in their windows when its
      interval is positive. */
  predicate TriedFit(sc: SC, tried: seq<Candidate>)
    requires Valid(sc)
  {
    forall c :: c in tried ==>
      1 <= c.count < Span(sc) && (1 <= c.interval ==> Fits(sc, c.count, c.add, c.interval))
  }

  lemma TriedFitSnoc(sc: SC, tried: seq<Candidate>, c: Candidate)
    requires Valid(sc) && TriedFit(sc, tried)
    requires 1 <= c.count < Span(sc) && (1 <= c.interval ==> Fits(sc, c.count, c.add, c.interval))
    ensures TriedFit(sc, tried + [c])
  {
  }

  /** The interval range the next run starts from stays inside the first
      step's window, and ordered when its top is positive. */
  lemma NarrowKeepsFirst(first: Points, origmin: int, origmax: int, count: int,
                         lo: int, hi: int, origmin': int, origmax': int)
    requires first.minp <= origmin && origmax <= first.maxp && -TWO_31 <= origmax
    requires origmax >= 1 ==> origmin <= origmax
    requires count >= 1
    requires origmin <= lo && hi <= origmax
    requires count == 1 ==> lo == origmin && hi == origmax
    requires count >= 2 ==> lo <= hi
    requires -TWO_31 <= first.minp
    requires (origmin' == origmin && origmax' == hi) || (origmin' == lo && origmax' == origmax)
    ensures first.minp <= origmin' && origmax' <= first.maxp && -TWO_31 <= origmax'
    ensures origmax' >= 1 ==> origmin' <= origmax'
  {
  }

  /** The best run tried, with its add dropped for a single step, puts
      its steps in their windows when its interval reads back in range. */
  lemma BestFits(sc: SC, tried: seq<Candidate>, best: Candidate)
    requires Valid(sc) && sc.pos < sc.next && TriedFit(sc, tried)
    requires best == BestOf(Candidate(0, 0, 0), tried) && -TWO_31 <= best.interval < TWO_31
    ensures best == Candidate(0, 0, 0) || 1 <= best.count < Span(sc)
    ensures var add := if best.count < 2 then 0 else best.add;
      1 <= W32(best.interval) < TWO_31 ==> Fits(sc, best.count, add, W32(best.interval))
  {
    BestOfIsBest(Candidate(0, 0, 0), tried);
    W32Signed(best.interval);
    if best.count < 2 && 1 <= best.interval && best != Candidate(0, 0, 0) {
      OneStepFits(sc, best.add, best.interval);
    }
  }

  /** A move of one step does not depend on its add. */
  lemma OneStepFits(sc: SC, add: int, interval: int)
    requires Valid(sc) && sc.pos < sc.next
    requires Fits(sc, 1, add, interval)
    ensures Fits(sc, 1, 0, interval)
  {
    assert Stepper.Tri(1) == 0;
    assert MoveStepTime(add, interval, 0) == interval == MoveStepTime(0, interval, 0);
    assert FitsAbove(sc, 0, add, interval) && FitsBelow(sc, 0, add, interval);
    assert FitsAbove(sc, 0, 0, interval) && FitsBelow(sc, 0, 0, interval);
  }

  /** `compress_bisect_add`: for a sequence of candidate `add` values
      found by bisection, the longest run of pending steps that some
      interval fits; the longest run wins and ties go to the larger add.
      At most 65535 steps are covered, and a single step never gets an
      add. A move that reaches the end of the pending steps is returned at
      once; otherwise the move is the best of the runs `tried`, each of
      which fits its steps. A move whose interval is in range puts every
      step it covers in its window. */
  method CompressBisectAdd(sc: SC) returns (m: StepMove, ghost tried: seq<Candidate>)
    requires Valid(sc) && sc.pos < sc.next
    ensures 1 <= m.count && m.count <= Span(sc) <= sc.next - sc.pos
    ensures m.count < 2 ==> m.add == 0
    ensures MoveInRange(m) ==> Fits(sc, m.count, m.add, m.interval)
    ensures m.count < Span(sc) ==>
      var b := BestOf(Candidate(0, 0, 0), tried);
      m.interval == W32(b.interval) && m.count == b.count && m.add == (if b.count < 2 then 0 else b.add)
    ensures TriedFit(sc, tried)
  {
    var last := if sc.next > sc.pos + MAX_COUNT then sc.pos + MAX_COUNT else sc.next;
    var first := MinMaxPoint(sc, sc.pos);
    FirstWindowOrdered(sc);
    var origmin, origmax := first.minp, first.maxp;
    var add, minadd, maxadd := 0, -0x8001, 0x8000;
    var best := Candidate(0, 0, 0);
    tried := [];
    while true
      invariant -0x8001 <= minadd < add < maxadd <= 0x8000
      invariant add == 0 || last - sc.pos >= 2
      invariant FirstRange(sc, origmin, origmax)
      invariant best == BestOf(Candidate(0, 0, 0), tried)
      invariant 0 <= best.count < last - sc.pos
      invariant -0x8000 <= best.add < 0x8000 && -TWO_31 <= best.interval < TWO_31
      invariant TriedFit(sc, tried)
      decreases maxadd - minadd
    {
      var reached, run, minadd', maxadd', origmin', origmax' :=
        TryAdd(sc, last, add, minadd, maxadd, origmin, origmax);
      if reached {
        return StepMove(W32(run.interval), run.count, add), tried;
      }
      BestOfSnoc(Candidate(0, 0, 0), tried, run);
      TriedFitSnoc(sc, tried, run);
      best := KeepBest(best, run);
      tried := tried + [run];
      minadd, maxadd, origmin, origmax := minadd', maxadd', origmin', origmax';
      add := CDiv(maxadd + minadd, 2);
      if add <= minadd || add >= maxadd {
        break;
      }
    }
    var bestadd := if best.count < 2 then 0 else best.add;
    BestFits(sc, tried, best);
    return StepMove(W32(best.interval), best.count, bestadd), tried;
  }

  /** The interval range a run starts from lies inside the first step's
      window, and is ordered when its top is positive. */
  predicate FirstRange(sc: SC, origmin: int, origmax: int)
    requires Valid(sc) && sc.pos < sc.next
  {
    var first := MinMaxPoint(sc, sc.pos);
    && first.minp <= origmin && origmax <= first.maxp && -TWO_31 <= origmax
    && (origmax >= 1 ==> origmin <= origmax)
  }

  /** One round of `compress_bisect_add` for one `add`: the run found,
      and, when it did not reach the end, the narrowed add range and the
      interval range the next round starts from. */
  method TryAdd(sc: SC, last: nat, add: int, minadd: int, maxadd: int, origmin: int, origmax: int)
    returns (reached: bool, run: Candidate, minadd': int, maxadd': int, origmin': int, origmax': int)
    requires Valid(sc) && sc.pos < last <= sc.next && last - sc.pos == Span(sc)
    requires minadd < add < maxadd
    requires FirstRange(sc, origmin, origmax)
    ensures run.add == add && 1 <= run.count <= Span(sc)
    ensures reached <==> run.count == Span(sc)
    ensures 1 <= W32(run.interval) < TWO_31 ==> W32(run.interval) == run.interval
    ensures -TWO_31 <= run.interval < TWO_31
    ensures 1 <= run.interval ==> Fits(sc, run.count, add, run.interval)
    ensures !reached ==>
      && minadd <= minadd' && maxadd' <= maxadd && (minadd' >= add || maxadd' <= add)
      && FirstRange(sc, origmin', origmax')
  {
    var count, addfactor, mininterval, maxinterval, point;
    reached, count, addfactor, mininterval, maxinterval, point :=
      FitRun(sc, last, add, origmin, origmax);
    run := Candidate(count, add, maxinterval);
    minadd', maxadd', origmin', origmax' := minadd, maxadd, origmin, origmax;
    if !reached {
      var n := NarrowAdd(sc, add, minadd, maxadd, count, addfactor,
                         mininterval, maxinterval, origmin, origmax, point);
      NarrowKeepsFirst(MinMaxPoint(sc, sc.pos), origmin, origmax, count, mininterval, maxinterval, n.2, n.3);
      minadd', maxadd', origmin', origmax' := n.0, n.1, n.2, n.3;
    }
  }

  /** The first step's window is ordered when its top is positive. */
  lemma FirstWindowOrdered(sc: SC)
    requires Valid(sc) && sc.pos < sc.next
    ensures var pt := MinMaxPoint(sc, sc.pos); pt.maxp >= 1 ==> pt.minp <= pt.maxp
  {
    var pt := MinMaxPoint(sc, sc.pos);
    var t := W32(sc.queue[sc.pos] - sc.relclock);
    if pt.maxp >= 1 {
      W32Id(pt.maxp);
      assert t == pt.maxp;
      assert Gap(sc, sc.pos) == t;
    }
  }

  // ------------------------------------------------------------ check

  /** The interval and the time of step `i` (from 0) of a move, computed
      the way `check_line` does in `uint32_t`. */
  function LineState(m: StepMove, i: nat): (r: (u32, u32))
  {
    if i == 0 then (m.interval, m.interval)
    else
      var prev := LineState(m, i - 1);
      var iv := W32(prev.0 + m.add);
      (iv, W32(prev.1 + iv))
  }

  /** Step `i` of a move is `(i+1)*interval + add*Tri(i+1)` ticks after the
      previous move's last step. */
  lemma {:induction false} LineStateClosedForm(m: StepMove, i: nat)
    ensures LineState(m, i).0 == W32(m.interval + i * m.add)
    ensures LineState(m, i).1 == W32((i + 1) * m.interval + m.add * Stepper.Tri(i + 1))
  {
    LineIntervalClosedForm(m, i);
    if i > 0 {
      LineStateClosedForm(m, i - 1);
      TimeStep(m.interval, m.add, i, LineState(m, i - 1).1, LineState(m, i).0);
    }
  }

  lemma {:induction false} TimeStep(I: int, a: int, i: nat, prev: int, iv: int)
    requires i > 0
    requires prev == W32(i * I + a * Stepper.Tri(i)) && iv == W32(I + i * a)
    ensures W32(prev + iv) == W32((i + 1) * I + a * Stepper.Tri(i + 1))
  {
    LineStep(I, a, i);
    AddW32(i * I + a * Stepper.Tri(i), I + i * a, (i + 1) * I + a * Stepper.Tri(i + 1));
  }

  lemma {:induction false} AddW32(x: int, y: int, z: int)
    requires x + y == z
    ensures W32(W32(x) + W32(y)) == W32(z)
  {
    W32Plus(x, W32(y));
    W32Plus(x, y);
  }

  lemma {:induction false} LineIntervalClosedForm(m: StepMove, i: nat)
    ensures LineState(m, i).0 == W32(m.interval + i * m.add)
  {
    if i > 0 {
      LineIntervalClosedForm(m, i - 1);
      IntervalStep(m.interval, m.add, i, LineState(m, i - 1).0);
    }
  }

  lemma {:induction false} IntervalStep(I: int, a: int, i: int, prev: int)
    requires prev == W32(I + (i - 1) * a)
    ensures W32(prev + a) == W32(I + i * a)
  {
    W32Plus(I + (i - 1) * a, a);
    assert (i - 1) * a + a == i * a;
  }

  lemma {:induction false} LineStep(I: int, a: int, i: nat)
    requires i > 0
    ensures I + (i - 1) * a + a == I + i * a
    ensures (i * I + a * Stepper.Tri(i)) + (I + i * a) == (i + 1) * I + a * Stepper.Tri(i + 1)
  {
    Stepper.TriNext(i);
    assert a * Stepper.Tri(i + 1) == a * Stepper.Tri(i) + a * i;
  }

  /** The last time `check_line` checks is where the firmware puts the
      move's last step. */
  lemma {:induction false} LastCheckedIsMoveEnd(m: StepMove)
    requires m.count >= 1
    ensures LineState(m, m.count - 1).1 == W32(Stepper.MoveTicks(m.interval, m.add, m.count))
  {
    LineStateClosedForm(m, m.count - 1);
  }

  /** Whether step `i` of the move lands in its window; `check_line`
      compares the `uint32_t` time with the `int32_t` bounds converted to
      `uint32_t`. */
  predicate StepInWindow(sc: SC, m: StepMove, i: nat)
    requires Valid(sc) && i < sc.next - sc.pos
  {
    var pt := MinMaxPoint(sc, sc.pos + i);
    var p := LineState(m, i).1;
    W32(pt.minp) <= p <= W32(pt.maxp)
  }

  /** The number of steps below `n` that miss their window. */
  function Misses(sc: SC, m: StepMove, n: nat): (r: nat)
    requires Valid(sc) && n <= sc.next - sc.pos
    ensures r <= n
    ensures r == 0 <==> forall i :: 0 <= i < n ==> StepInWindow(sc, m, i)
  {
    if n == 0 then 0
    else Misses(sc, m, n - 1) + (if StepInWindow(sc, m, n - 1) then 0 else 1)
  }

  predicate MoveInRange(m: StepMove) {
    m.count != 0 && m.interval != 0 && m.interval < TWO_31
  }

  /** `check_line`: the error count grows by one for a move out of range
      and by one for each step outside its window; it stays unchanged
      exactly when the move is in range and reproduces every step. */
  function CheckLine(sc: SC, m: StepMove): (r: SC)
    requires Valid(sc) && m.count <= sc.next - sc.pos
    ensures r == sc.(errors := r.errors)
    ensures var err := (if MoveInRange(m) then 0 else 1) + Misses(sc, m, m.count);
      r.errors == W32(sc.errors + err)
    ensures (MoveInRange(m) && forall i :: 0 <= i < m.count ==> StepInWindow(sc, m, i))
        ==> r.errors == sc.errors
  {
    var miss := Misses(sc, m, m.count);
    var err := (if MoveInRange(m) then 0 else 1) + miss;
    W32Id(sc.errors);
    sc.(errors := W32(sc.errors + err))
  }

  /** The windows of the move's steps do not reach below the last step
      sent, so none of their bounds wraps on the 32-bit clock. */
  predicate WindowsFromZero(sc: SC, count: nat)
    requires Valid(sc) && count <= sc.next - sc.pos
  {
    forall j :: sc.pos <= j < sc.pos + count ==> 0 <= MinMaxPoint(sc, j).minp
  }

  /** A step that fits a window which does not wrap is found in it by
      `check_line`'s 32-bit comparison. */
  lemma {:induction false} FitStepInWindow(sc: SC, m: StepMove, i: nat)
    requires Valid(sc) && i < sc.next - sc.pos
    requires FitsAbove(sc, i, m.add, m.interval) && FitsBelow(sc, i, m.add, m.interval)
    requires 0 <= MinMaxPoint(sc, sc.pos + i).minp
    ensures StepInWindow(sc, m, i)
  {
    var pt := MinMaxPoint(sc, sc.pos + i);
    var t := MoveStepTime(m.add, m.interval, i);
    assert 0 <= pt.minp <= t <= pt.maxp < TWO_31;
    LineStateIsStepTime(m, i);
    W32Id(t);
    W32Id(pt.minp);
    W32Id(pt.maxp);
  }

  /** The time `check_line` computes for step `i` is the step's exact
      time on the 32-bit clock. */
  lemma {:induction false} LineStateIsStepTime(m: StepMove, i: nat)
    ensures LineState(m, i).1 == W32(MoveStepTime(m.add, m.interval, i))
  {
    LineStateClosedForm(m, i);
    var n, t := i + 1, Stepper.Tri(i + 1);
    MulComm(n, m.interval);
    assert n * m.interval + m.add * t == MoveStepTime(m.add, m.interval, i);
  }

  lemma MulComm(a: int, b: int)
    ensures a * b == b * a
  {
  }

  /** What the search promises is what `check_line` re-checks: an
      in-range move whose steps fit their windows, none of which wraps,
      adds no error. */
  lemma {:induction false} FitPassesCheck(sc: SC, m: StepMove)
    requires Valid(sc) && m.count <= sc.next - sc.pos && MoveInRange(m)
    requires Fits(sc, m.count, m.add, m.interval) && WindowsFromZero(sc, m.count)
    ensures CheckLine(sc, m).errors == sc.errors
  {
    forall i | 0 <= i < m.count
      ensures StepInWindow(sc, m, i)
    {
      assert FitsAbove(sc, i, m.add, m.interval) && FitsBelow(sc, i, m.add, m.interval);
      assert 0 <= MinMaxPoint(sc, sc.pos + i).minp;
      FitStepInWindow(sc, m, i);
    }
  }

  // ------------------------------------------------------------ flush

  /** The ticks a flushed move advances `last_step_clock` by, as written:
      `count*(count-1)` is computed in `int` and wraps for counts from
      46342, before it is halved and stored in a `uint32_t`. */
  function FlushTicksAsWritten(m: StepMove): u32 {
    var addfactor := W32(CDiv(Signed32(W32(m.count * (m.count - 1))), 2));
    W32(m.add * addfactor + m.interval * m.count)
  }

  /** The ticks a move lasts, with the add multiplier computed exactly:
      they are the firmware's duration of the move. */
  function FlushTicks(m: StepMove): (r: u32)
    ensures r == W32(Stepper.MoveTicks(m.interval, m.add, m.count))
  {
    W32(m.add * Stepper.Tri(m.count) + m.interval * m.count)
  }

  /** Below the overflow the two agree. */
  lemma {:induction false} FlushTicksAgree(m: StepMove)
    requires m.count * (m.count - 1) < TWO_31
    ensures FlushTicksAsWritten(m) == FlushTicks(m)
  {
    AddFactorExact(m.count);
  }

  lemma {:induction false} AddFactorExact(c: nat)
    requires c * (c - 1) < TWO_31
    ensures W32(CDiv(Signed32(W32(c * (c - 1))), 2)) == Stepper.Tri(c)
  {
    var x := c * (c - 1);
    assert x >= 0 by {
      if c > 0 {
        assert c - 1 >= 0;
      }
    }
    assert W32(x) == x;
    assert Signed32(W32(x)) == x;
    assert CDiv(x, 2) == x / 2;
  }

  /** A 46342-step move with an odd add: the computed duration is off by
      2^31 ticks. */
  lemma {:induction false} FlushTicksOverflow()
    ensures var m := StepMove(1000, 46342, 1);
      FlushTicksAsWritten(m) == W32(FlushTicks(m) + TWO_31)
  {
    var m := StepMove(1000, 46342, 1);
    assert m.count * (m.count - 1) == 2147534622;
    assert W32(2147534622) == 2147534622;
    assert Signed32(2147534622) == -2147432674;
    assert CDiv(-2147432674, 2) == -1073716337;
    assert W32(-1073716337) == 3221250959;
    assert FlushTicksAsWritten(m) == W32(3221250959 + 46342000) == 3267592959;
    assert Stepper.Tri(m.count) == 1073767311;
    assert FlushTicks(m) == W32(1073767311 + 46342000) == 1120109311;
    assert W32(1120109311 + TWO_31) == 3267592959;
  }

  lemma {:induction false} W32OfW64(x: int)
    ensures W32(W64(x)) == W32(x)
  {
    var q := x / TWO_64;
    assert x == q * TWO_64 + W64(x);
    assert q * TWO_64 == (q * TWO_32) * TWO_32;
  }

  /** Advancing the clock and the rebase together by `t` keeps a step's
      time. */
  lemma {:induction false} AbsShift(last: int, t: int, q: int, rel: int)
    ensures W32(W64(last + t) + W32(q - W32(rel + t))) == W32(last + W32(q - rel))
  {
    var x := last + t;
    var a := W64(x);
    var c := W32(rel + t);
    var b := W32(q - c);
    assert W32(a + b) == W32(W32(x) + b) by {
      W32OfW64(x);
      W32Plus(a, b);
    }
    assert W32(W32(x) + b) == W32(x + q - c) by {
      W32Plus(x, b);
      W32Plus(x, q - c);
    }
    assert W32(x + q - c) == W32(last + (q - rel)) by {
      W32Minus(x + q, rel + t);
    }
    assert W32(last + (q - rel)) == W32(last + W32(q - rel)) by {
      W32Plus(last, q - rel);
    }
  }


  /** The queued `queue_step` message for a move. */
  function StepMsg(sc: SC, m: StepMove): QMsg {
    QMsg([sc.msgid, sc.oid, m.interval, m.count, W32(m.add)], 0, sc.lastStepClock)
  }

  /** One round of `stepcompress_flush` for the move `m` found at the
      front of the queue: the move is checked, its message queued at the
      last step's time, the clock advanced by the move's duration, and its
      steps consumed. When they were all the pending steps the queue is
      reset to the array start (`drained`); otherwise the rest keep their
      times. */
  function FlushMove(sc: SC, m: StepMove): (r: (SC, bool))
    requires Valid(sc) && 1 <= m.count <= sc.next - sc.pos
    ensures var (n, drained) := r;
      Valid(n) && n.queue == sc.queue && n.oid == sc.oid && n.msgid == sc.msgid
      && n.maxError == sc.maxError
      && n.msgs == sc.msgs + [StepMsg(sc, m)]
      && n.lastStepClock == W64(sc.lastStepClock + FlushTicks(m))
      && (drained <==> sc.pos + m.count >= sc.next)
      && (drained ==> n.pos == 0 && n.next == 0 && n.relclock == 0)
      && (!drained ==> n.next == sc.next && n.pos == sc.pos + m.count
                       && n.relclock == W32(sc.relclock + FlushTicks(m)))
  {
    var c := CheckLine(sc, m);
    var ticks := FlushTicks(m);
    var sent := c.(msgs := c.msgs + [StepMsg(c, m)], lastStepClock := W64(c.lastStepClock + ticks));
    if sc.pos + m.count >= sc.next then
      (sent.(pos := 0, next := 0, relclock := 0), true)
    else
      (sent.(pos := sc.pos + m.count, relclock := W32(sc.relclock + ticks)), false)
  }

  /** The steps left after a round keep their times. */
  lemma {:induction false} FlushMoveKeepsTimes(sc: SC, m: StepMove)
    requires Valid(sc) && 1 <= m.count < sc.next - sc.pos
    ensures TimesKept(sc, FlushMove(sc, m).0, m.count)
  {
    var r := FlushMove(sc, m).0;
    var ticks := FlushTicks(m);
    assert Valid(r) && r.queue == sc.queue && r.pos == sc.pos + m.count && r.next == sc.next
      && r.relclock == W32(sc.relclock + ticks) && r.lastStepClock == W64(sc.lastStepClock + ticks);
    forall i | 0 <= i < r.next - r.pos
      ensures Abs(r, i) == Abs(sc, i + m.count)
    {
      ShiftedAbs(sc, r, m.count, ticks, i);
    }
  }

  /** Consuming `c` steps and advancing both the clock and the rebase by
      `ticks` keeps the times of the rest. */
  lemma {:induction false} ShiftedAbs(sc: SC, r: SC, c: nat, ticks: int, i: nat)
    requires Valid(sc) && Valid(r) && r.queue == sc.queue && r.pos == sc.pos + c
    requires r.relclock == W32(sc.relclock + ticks) && r.lastStepClock == W64(sc.lastStepClock + ticks)
    requires i < r.next - r.pos && i + c < sc.next - sc.pos
    ensures Abs(r, i) == Abs(sc, i + c)
  {
    AbsShift(sc.lastStepClock, ticks, sc.queue[r.pos + i], sc.relclock);
  }

  /** What a partial flush of `sc` has kept: the array, the steps
      still pending at the same times, and the messages already queued,
      with at most one new message per consumed step. */
  predicate FlushedFrom(sc: SC, r: SC)
  {
    Valid(sc) && Valid(r) && r.queue == sc.queue && r.oid == sc.oid && r.msgid == sc.msgid
    && r.maxError == sc.maxError
    && r.next - r.pos <= sc.next - sc.pos
    && TimesKept(sc, r, (sc.next - sc.pos) - (r.next - r.pos))
    && MsgsKept(sc.msgs, r.msgs, (sc.next - sc.pos) - (r.next - r.pos))
  }

  /** The steps still pending in `r` are those of `sc` after the first
      `done`, at the same times. */
  predicate TimesKept(sc: SC, r: SC, done: nat)
    requires Valid(sc) && Valid(r) && r.next - r.pos + done <= sc.next - sc.pos
  {
    forall i :: 0 <= i < r.next - r.pos ==> Abs(r, i) == Abs(sc, i + done)
  }

  /** `msgs` extends `before` by at most `done` step messages. */
  predicate MsgsKept(before: seq<QMsg>, msgs: seq<QMsg>, done: nat) {
    |before| <= |msgs| <= |before| + done
    && msgs[..|before|] == before
    && forall k :: |before| <= k < |msgs| ==> msgs[k].minClock == 0
  }

  lemma {:induction false} FlushMoveExtends(sc: SC, r: SC, m: StepMove)
    requires FlushedFrom(sc, r) && 1 <= m.count <= r.next - r.pos
    ensures FlushedFrom(sc, FlushMove(r, m).0)
  {
    var r' := FlushMove(r, m).0;
    var done := (sc.next - sc.pos) - (r.next - r.pos);
    var done' := (sc.next - sc.pos) - (r'.next - r'.pos);
    assert done' >= done + 1;
    MsgsKeptStep(sc.msgs, r.msgs, done, StepMsg(r, m), done');
    FlushMoveTimes(sc, r, m);
  }

  lemma {:induction false} FlushMoveTimes(sc: SC, r: SC, m: StepMove)
    requires FlushedFrom(sc, r) && 1 <= m.count <= r.next - r.pos
    ensures var r' := FlushMove(r, m).0;
      r'.next - r'.pos <= sc.next - sc.pos
      && TimesKept(sc, r', (sc.next - sc.pos) - (r'.next - r'.pos))
  {
    var r' := FlushMove(r, m).0;
    if !FlushMove(r, m).1 {
      var done := (sc.next - sc.pos) - (r.next - r.pos);
      FlushMoveKeepsTimes(r, m);
      TimesKeptTrans(sc, r, r', done, m.count);
    }
  }

  lemma {:induction false} TimesKeptTrans(sc: SC, r: SC, r': SC, d1: nat, d2: nat)
    requires Valid(sc) && Valid(r) && Valid(r')
    requires r.next - r.pos + d1 <= sc.next - sc.pos && r'.next - r'.pos + d2 <= r.next - r.pos
    requires TimesKept(sc, r, d1) && TimesKept(r, r', d2)
    ensures TimesKept(sc, r', d1 + d2)
  {
    forall i | 0 <= i < r'.next - r'.pos
      ensures Abs(r', i) == Abs(sc, i + (d1 + d2))
    {
      assert Abs(r', i) == Abs(r, i + d2);
      assert Abs(r, i + d2) == Abs(sc, i + d2 + d1);
    }
  }

  lemma {:induction false} MsgsKeptStep(before: seq<QMsg>, msgs: seq<QMsg>, done: nat, msg: QMsg, done': nat)
    requires MsgsKept(before, msgs, done) && msg.minClock == 0 && done' >= done + 1
    ensures MsgsKept(before, msgs + [msg], done')
  {
    assert (msgs + [msg])[..|msgs|] == msgs;
  }

  /** `stepcompress_flush`: while `move_clock` is past the last step sent,
      compresses the front of the queue into a checked move, queues its
      message at the last step's time, and consumes its steps. The
      remaining steps keep their times, and the loop ends with the clock
      caught up or the queue empty (and reset to the array start). */
  method Flush(sc: SC, moveClock: u64) returns (r: SC)
    requires Valid(sc)
    ensures FlushedFrom(sc, r)
    ensures sc.pos >= sc.next ==> r == sc
    ensures sc.pos < sc.next ==>
      (moveClock <= r.lastStepClock && r.pos < r.next) || (r.pos == 0 && r.next == 0 && r.relclock == 0)
    ensures sc.pos < sc.next && moveClock > sc.lastStepClock ==> |r.msgs| > |sc.msgs|
  {
    r := sc;
    assert r.msgs[..|sc.msgs|] == sc.msgs;
    if sc.pos >= sc.next {
      return;
    }
    while moveClock > r.lastStepClock
      invariant FlushedFrom(sc, r) && r.pos < r.next
      invariant moveClock > sc.lastStepClock ==> r == sc || |r.msgs| > |sc.msgs|
      decreases r.next - r.pos
    {
      var m, _ := CompressBisectAdd(r);
      FlushMoveExtends(sc, r, m);
      var step := FlushMove(r, m);
      r := step.0;
      if step.1 {
        return;
      }
    }
  }

  /** `stepcompress_reset`: flushes everything, then restarts the clock. */
  method Reset(sc: SC, lastStepClock: u64) returns (r: SC)
    requires Valid(sc)
    ensures Valid(r) && r.lastStepClock == lastStepClock
    ensures |sc.msgs| <= |r.msgs| && r.msgs[..|sc.msgs|] == sc.msgs
    ensures sc.pos < sc.next && sc.lastStepClock < TWO_64 - 1 ==> |r.msgs| > |sc.msgs|
  {
    r := Flush(sc, TWO_64 - 1);
    r := r.(lastStepClock := lastStepClock);
  }

  /** `stepcompress_queue_msg`: flushes everything, then queues `data` at
      the last step's time with the largest `min_clock`. */
  method QueueMsg(sc: SC, data: seq<int>) returns (r: SC)
    requires Valid(sc)
    ensures Valid(r) && |r.msgs| > |sc.msgs| && r.msgs[..|sc.msgs|] == sc.msgs
    ensures r.msgs[|r.msgs| - 1] == QMsg(data, TWO_64 - 1, r.lastStepClock)
  {
    r := Flush(sc, TWO_64 - 1);
    r := r.(msgs := r.msgs + [QMsg(data, TWO_64 - 1, r.lastStepClock)]);
  }
}
