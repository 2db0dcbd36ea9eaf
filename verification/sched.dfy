/** The firmware scheduler: wrap-around time comparison, the sorted timer
    list, the millisecond timer and the shutdown state machine.

    The timer list is a sequence, head first; a timer is named by the object
    it is (`TimerRef`) and carries its wake time. Times are 32-bit
    counts that wrap, written out with `W32`. */
module Sched {
  import opened Wrappers
  import opened MachineInts

  const SF_DONE: int := 0
  const SF_RESCHEDULE: int := 1
  const HALF: int := TWO_31

  /** `sched_is_before`: `(int32_t)(t1 - t2) < 0`, i.e. the top bit of the
      32-bit difference is set. */
  predicate IsBefore(t1: u32, t2: u32) {
    W32(t1 - t2) >= HALF
  }

  /** No time is before itself. */
  lemma IsBeforeIrreflexive(t: u32)
    ensures !IsBefore(t, t)
  {
  }

  /** Shifting both times by the same amount (with wrap-around) does not
      change their order. */
  lemma {:induction false} IsBeforeShift(t1: u32, t2: u32, k: u32)
    ensures IsBefore(W32(t1 + k), W32(t2 + k)) == IsBefore(t1, t2)
  {
    ShiftDiff(t1, t2, k);
  }

  lemma {:induction false} ShiftDiff(a: int, b: int, k: int)
    ensures W32(W32(a + k) - W32(b + k)) == W32(a - b)
  {
    var wb: int := W32(b + k);
    W32Plus(a + k, 0 - wb);
    W32Minus(a + k, b + k);
  }

  /** Within half the clock range after a base time, `IsBefore` is the
      ordinary order of the distances from that base. */
  lemma IsBeforeInWindow(a: u32, b: u32, base: u32)
    requires Off(a, base) < HALF && Off(b, base) < HALF
    ensures IsBefore(a, b) <==> Off(a, base) < Off(b, base)
  {
  }

  /** "Not before t + 1" is "strictly after t". */
  lemma NotBeforeNextIsAfter(x: u32, t: u32)
    ensures !IsBefore(x, W32(t + 1)) <==> IsBefore(t, x)
  {
  }

  // ------------------------------------------------------------ periodic

  /** `sched_check_periodic`: whether a periodic event is due at `cur`
      (16-bit millisecond counts) and the next due time. */
  function CheckPeriodic(time: u16, next: u16, cur: u16): (r: (bool, u16))
    ensures !r.0 <==> W16(cur - next) >= 0x8000
    ensures !r.0 ==> r.1 == next
    ensures r.0 ==> W16(r.1 - cur) == time
  {
    if W16(cur - next) >= 0x8000 then (false, next) else (true, W16(cur + time))
  }

  /** After an event fires at `cur`, the next one is due exactly `time`
      milliseconds later (for periods and waits below 2^15 ms). */
  lemma {:induction false} PeriodicFiresEveryTime(time: u16, next: u16, cur: u16, d: u16)
    requires time < 0x8000 && d < 0x8000
    requires CheckPeriodic(time, next, cur).0
    ensures CheckPeriodic(time, CheckPeriodic(time, next, cur).1, W16(cur + d)).0 <==> d >= time
  {
    var n := CheckPeriodic(time, next, cur).1;
    assert n == W16(cur + time);
    PeriodicGap(cur, d, time);
    assert CheckPeriodic(time, n, W16(cur + d)).0 <==> W16(W16(cur + d) - n) < 0x8000;
  }

  /** The wrapped distance from `c + t` to `c + d` is below 2^15 exactly
      when `d >= t`. */
  lemma {:induction false} PeriodicGap(c: int, d: int, t: int)
    requires 0 <= d < 0x8000 && 0 <= t < 0x8000
    ensures W16(W16(c + d) - W16(c + t)) < 0x8000 <==> d >= t
  {
    var n: int := W16(c + t);
    W16Plus(c + d, 0 - n);
    W16Minus(c + d, c + t);
    W16Small(d - t);
  }

  /** A difference of less than 2^15 either way wraps to itself or to
      itself plus 2^16. */
  lemma W16Small(x: int)
    requires -0x8000 < x < 0x8000
    ensures W16(x) == if x >= 0 then x else x + TWO_16
  {
  }

  // ------------------------------------------------------------ timers

  datatype TimerRef = MsTimer | SentinelTimer | DeletedTimer | UserTimer(id: nat)
  datatype Timer = Timer(ref: TimerRef, waketime: u32)

  /** The first index at or after `from` whose timer is strictly after
      `w`; the end of the list when there is none. */
  function InsertPos(list: seq<Timer>, w: u32, from: nat): (k: nat)
    requires from <= |list|
    ensures from <= k <= |list|
    ensures forall j :: from <= j < k ==> !IsBefore(w, list[j].waketime)
    ensures k < |list| ==> IsBefore(w, list[k].waketime)
    decreases |list| - from
  {
    if from == |list| then from
    else if IsBefore(w, list[from].waketime) then from
    else InsertPos(list, w, from + 1)
  }

  function InsertAt(list: seq<Timer>, t: Timer, k: nat): (r: seq<Timer>)
    requires k <= |list|
    ensures |r| == |list| + 1 && r[k] == t
    ensures r[..k] == list[..k] && r[k + 1..] == list[k..]
  {
    list[..k] + [t] + list[k..]
  }

  /** `sched_timer`: adding a timer that is before the head is refused;
      otherwise it goes after every timer that is not after it, so timers
      with equal wake times run in the order they were added. */
  function SchedTimer(list: seq<Timer>, t: Timer): (r: Result<seq<Timer>>)
    requires |list| >= 1
    ensures r.Err? <==> IsBefore(t.waketime, list[0].waketime)
    ensures r.Err? ==> r.msg == "Timer too close"
    ensures r.Ok? ==> exists k :: InsertsAfterEqual(list, t, k) && r.value == InsertAt(list, t, k)
  {
    if IsBefore(t.waketime, list[0].waketime) then Err("Timer too close")
    else
      var k := InsertPos(list, t.waketime, 1);
      Ok(InsertAt(list, t, k))
  }

  /** Position `k` splits the list into the timers not after `t` and the
      timers after it, and is not the head's place. */
  predicate InsertsAfterEqual(list: seq<Timer>, t: Timer, k: nat) {
    && 1 <= k <= |list|
    && (forall j :: 0 <= j < k ==> !IsBefore(t.waketime, list[j].waketime))
    && (k < |list| ==> IsBefore(t.waketime, list[k].waketime))
  }

  /** The distance of a wake time from a base time. */
  function Off(w: u32, base: u32): u32 {
    W32(w - base)
  }

  /** Every timer lies within half the clock range after `base` and the
      list is ordered by distance from `base`. */
  predicate SortedWindow(list: seq<Timer>, base: u32) {
    && (forall i :: 0 <= i < |list| ==> Off(list[i].waketime, base) < HALF)
    && (forall i, j :: 0 <= i < j < |list| ==>
          Off(list[i].waketime, base) <= Off(list[j].waketime, base))
  }

  /** Inserting a timer that lies in the window keeps the list sorted. */
  lemma {:induction false} SchedTimerKeepsSorted(list: seq<Timer>, t: Timer, base: u32)
    requires |list| >= 1 && SortedWindow(list, base)
    requires Off(t.waketime, base) < HALF
    requires SchedTimer(list, t).Ok?
    ensures SortedWindow(SchedTimer(list, t).value, base)
  {
    var w := t.waketime;
    var k := InsertPos(list, w, 1);
    var r := InsertAt(list, t, k);
    forall j | 0 <= j < k
      ensures Off(list[j].waketime, base) <= Off(w, base)
    {
      IsBeforeInWindow(w, list[j].waketime, base);
    }
    if k < |list| {
      IsBeforeInWindow(w, list[k].waketime, base);
    }
    InsertSorted(list, t, k, base);
  }

  /** Inserting at a position that splits the list into the timers at
      or before the new one and the timers after it keeps it sorted. */
  lemma {:induction false} InsertSorted(list: seq<Timer>, t: Timer, k: nat, base: u32)
    requires k <= |list| && SortedWindow(list, base)
    requires Off(t.waketime, base) < HALF
    requires forall j :: 0 <= j < k ==> Off(list[j].waketime, base) <= Off(t.waketime, base)
    requires k < |list| ==> Off(t.waketime, base) < Off(list[k].waketime, base)
    ensures SortedWindow(InsertAt(list, t, k), base)
  {
    var r := InsertAt(list, t, k);
    forall i, j | 0 <= i < j < |r|
      ensures Off(r[i].waketime, base) <= Off(r[j].waketime, base)
    {
      InsertedPair(list, t, k, base, i, j);
    }
    forall i | 0 <= i < |r|
      ensures Off(r[i].waketime, base) < HALF
    {
      if i < k {
        assert r[i] == list[i];
      } else if i > k {
        assert r[i] == list[i - 1];
      }
    }
  }

  lemma {:induction false} InsertedPair(list: seq<Timer>, t: Timer, k: nat, base: u32, i: nat, j: nat)
    requires k <= |list| && SortedWindow(list, base)
    requires forall j :: 0 <= j < k ==> Off(list[j].waketime, base) <= Off(t.waketime, base)
    requires k < |list| ==> Off(t.waketime, base) < Off(list[k].waketime, base)
    requires i < j <= |list|
    ensures Off(InsertAt(list, t, k)[i].waketime, base) <= Off(InsertAt(list, t, k)[j].waketime, base)
  {
    var r := InsertAt(list, t, k);
    if i == k {
      assert r[i] == t && r[j] == list[j - 1];
      assert Off(t.waketime, base) <= Off(list[k].waketime, base);
      assert k <= j - 1;
    } else if j == k {
      assert r[i] == list[i] && r[j] == t;
    } else {
      var i' := if i < k then i else i - 1;
      var j' := if j < k then j else j - 1;
      assert r[i] == list[i'] && r[j] == list[j'] && i' <= j';
    }
  }

  /** The index of the first occurrence of `ref` at or after `from`. */
  function Find(list: seq<Timer>, ref: TimerRef, from: nat): (k: Option<nat>)
    requires from <= |list|
    ensures k.Some? ==> from <= k.value < |list| && list[k.value].ref == ref
    ensures k.Some? ==> forall j :: from <= j < k.value ==> list[j].ref != ref
    ensures k.None? ==> forall j :: from <= j < |list| ==> list[j].ref != ref
    decreases |list| - from
  {
    if from == |list| then None
    else if list[from].ref == ref then Some(from)
    else Find(list, ref, from + 1)
  }

  /** `sched_del_timer`: deleting the head leaves `deleted_timer` in its
      place with the same wake time; otherwise the first later occurrence
      is unlinked, and a timer not on the list changes nothing. */
  function DelTimer(list: seq<Timer>, ref: TimerRef): (r: seq<Timer>)
    requires |list| >= 1
    ensures list[0].ref == ref ==>
      r == [Timer(DeletedTimer, list[0].waketime)] + list[1..]
    ensures list[0].ref != ref && (forall j :: 1 <= j < |list| ==> list[j].ref != ref) ==>
      r == list
    ensures list[0].ref != ref && Find(list, ref, 1).Some? ==>
      var k := Find(list, ref, 1).value;
      r == list[..k] + list[k + 1..]
  {
    if list[0].ref == ref then [Timer(DeletedTimer, list[0].waketime)] + list[1..]
    else
      match Find(list, ref, 1)
      case None => list
      case Some(k) => list[..k] + list[k + 1..]
  }

  /** Deleting keeps a sorted list sorted. */
  lemma {:induction false} DelTimerKeepsSorted(list: seq<Timer>, ref: TimerRef, base: u32)
    requires |list| >= 1 && SortedWindow(list, base)
    ensures SortedWindow(DelTimer(list, ref), base)
  {
    if list[0].ref == ref {
      var r := [Timer(DeletedTimer, list[0].waketime)] + list[1..];
      assert forall i :: 0 <= i < |r| ==> r[i].waketime == list[i].waketime;
      SameWakesSorted(list, r, base);
    } else if Find(list, ref, 1).Some? {
      RemovedSorted(list, Find(list, ref, 1).value, base);
    }
  }

  /** Sortedness depends only on the wake times. */
  lemma SameWakesSorted(a: seq<Timer>, b: seq<Timer>, base: u32)
    requires |a| == |b| && SortedWindow(a, base)
    requires forall i :: 0 <= i < |a| ==> a[i].waketime == b[i].waketime
    ensures SortedWindow(b, base)
  {
  }

  /** Removing one timer keeps the list sorted. */
  lemma {:induction false} RemovedSorted(list: seq<Timer>, k: nat, base: u32)
    requires k < |list| && SortedWindow(list, base)
    ensures SortedWindow(list[..k] + list[k + 1..], base)
  {
    var r := list[..k] + list[k + 1..];
    forall i, j | 0 <= i < j < |r|
      ensures Off(r[i].waketime, base) <= Off(r[j].waketime, base)
    {
      RemovedPair(list, k, base, i, j);
    }
    forall i | 0 <= i < |r|
      ensures Off(r[i].waketime, base) < HALF
    {
      assert r[i] == list[if i < k then i else i + 1];
    }
  }

  lemma {:induction false} RemovedPair(list: seq<Timer>, k: nat, base: u32, i: nat, j: nat)
    requires k < |list| && SortedWindow(list, base)
    requires i < j < |list| - 1
    ensures var r := list[..k] + list[k + 1..];
      Off(r[i].waketime, base) <= Off(r[j].waketime, base)
  {
    var r := list[..k] + list[k + 1..];
    var i' := if i < k then i else i + 1;
    var j' := if j < k then j else j + 1;
    assert r[i] == list[i'] && r[j] == list[j'];
  }

  /** `reschedule_timer` for the head timer, whose wake time its callback
      has just advanced: it stays first when the next timer is not before
      its new time plus one; otherwise it moves in front of the first
      timer that is not before that time. */
  function Reschedule(list: seq<Timer>): (r: seq<Timer>)
    requires |list| >= 2
    ensures |r| == |list|
    ensures !IsBefore(list[1].waketime, W32(list[0].waketime + 1)) ==> r == list
  {
    var t := list[0];
    var minWake := W32(t.waketime + 1);
    if !IsBefore(list[1].waketime, minWake) then list
    else
      var rest := list[1..];
      var k := FirstNotBefore(rest, minWake, 1);
      InsertAt(rest, t, k)
  }

  /** The first index at or after `from` whose timer is not before `m`. */
  function FirstNotBefore(list: seq<Timer>, m: u32, from: nat): (k: nat)
    requires from <= |list|
    ensures from <= k <= |list|
    ensures forall j :: from <= j < k ==> IsBefore(list[j].waketime, m)
    ensures k < |list| ==> !IsBefore(list[k].waketime, m)
    decreases |list| - from
  {
    if from == |list| then from
    else if !IsBefore(list[from].waketime, m) then from
    else FirstNotBefore(list, m, from + 1)
  }

  /** Rescheduling the head is the same as taking it off the list and
      inserting it with the `sched_timer` rule: in front of the first timer
      strictly after it. */
  lemma {:induction false} RescheduleIsReinsert(list: seq<Timer>)
    requires |list| >= 2
    ensures Reschedule(list) == InsertAt(list[1..], list[0], InsertPos(list[1..], list[0].waketime, 0))
  {
    var t := list[0];
    var rest := list[1..];
    var m := W32(t.waketime + 1);
    NotBeforeNextIsAfter(rest[0].waketime, t.waketime);
    if IsBefore(rest[0].waketime, m) {
      AgreeNext(rest, t.waketime);
      PosAgree(rest, t.waketime, m, 1);
      assert InsertPos(rest, t.waketime, 0) == InsertPos(rest, t.waketime, 1);
    } else {
      assert InsertAt(rest, t, 0) == list;
    }
  }

  /** Every timer is before `m` exactly when `w` is not before it. */
  predicate Agree(list: seq<Timer>, w: u32, m: u32) {
    forall j :: 0 <= j < |list| ==> (IsBefore(list[j].waketime, m) <==> !IsBefore(w, list[j].waketime))
  }

  /** Being before `w + 1` is not being after `w`. */
  lemma {:induction false} AgreeNext(list: seq<Timer>, w: u32)
    ensures Agree(list, w, W32(w + 1))
  {
    forall j | 0 <= j < |list|
      ensures IsBefore(list[j].waketime, W32(w + 1)) <==> !IsBefore(w, list[j].waketime)
    {
      NotBeforeNextIsAfter(list[j].waketime, w);
    }
  }

  /** Where the two searches agree on every timer they stop at the same
      place. */
  lemma {:induction false} PosAgree(list: seq<Timer>, w: u32, m: u32, from: nat)
    requires from <= |list| && Agree(list, w, m)
    ensures InsertPos(list, w, from) == FirstNotBefore(list, m, from)
    decreases |list| - from
  {
    if from < |list| {
      PosAgree(list, w, m, from + 1);
    }
  }

  /** Rescheduling keeps a sorted list sorted when the head's new time
      stays in the window. */
  lemma {:induction false} RescheduleKeepsSorted(list: seq<Timer>, base: u32)
    requires |list| >= 2 && SortedWindow(list[1..], base)
    requires Off(list[0].waketime, base) < HALF
    requires Off(list[0].waketime, base) <= Off(list[1].waketime, base)
      || IsBefore(list[1].waketime, W32(list[0].waketime + 1))
    ensures SortedWindow(Reschedule(list), base)
  {
    RescheduleIsReinsert(list);
    var rest := list[1..];
    var w := list[0].waketime;
    var k := InsertPos(rest, w, 0);
    forall j | 0 <= j < k
      ensures Off(rest[j].waketime, base) <= Off(w, base)
    {
      IsBeforeInWindow(w, rest[j].waketime, base);
    }
    if k < |rest| {
      IsBeforeInWindow(w, rest[k].waketime, base);
    }
    InsertSorted(rest, list[0], k, base);
  }

  // ------------------------------------------------------------ ms timer

  /** The millisecond counter and the wake times of the two permanent
      timers. */
  datatype MsState = MsState(millis: u16, msWake: u32, sentinelWake: u32)

  const MS_INIT: MsState := MsState(0, 0, HALF)

  /** The sentinel always sits half the clock range after the ms timer, so
      any timer that may be added is before one of the two. */
  predicate SentinelInvariant(s: MsState) {
    s.sentinelWake == W32(s.msWake + HALF)
  }

  /** `ms_event`: counts one millisecond, advances the ms timer by one
      millisecond of ticks and moves the sentinel along. */
  function MsEvent(s: MsState, ticksPerMs: u32): (r: (MsState, int))
    ensures r.0.millis == W16(s.millis + 1)
    ensures W32(r.0.msWake - s.msWake) == ticksPerMs
    ensures SentinelInvariant(r.0)
    ensures r.1 == SF_RESCHEDULE
  {
    var ms := W32(s.msWake + ticksPerMs);
    (MsState(W16(s.millis + 1), ms, W32(ms + HALF)), SF_RESCHEDULE)
  }

  /** The invariant holds at reset and after every ms event. */
  lemma SentinelInvariantHolds(s: MsState, ticksPerMs: u32)
    ensures SentinelInvariant(MS_INIT)
    ensures SentinelInvariant(MsEvent(s, ticksPerMs).0)
  {
  }

  /** Any wake time not before the ms timer is before the sentinel, so
      the search for an insertion point ends at the sentinel at the
      latest. */
  lemma SentinelBoundsEveryTimer(s: MsState, w: u32)
    requires SentinelInvariant(s)
    ensures !IsBefore(w, s.msWake) ==> IsBefore(w, s.sentinelWake)
  {
  }

  /** `sched_timer_shutdown`: only the permanent timers remain, behind a
      deleted-timer placeholder at the ms timer's wake time. */
  function TimerShutdown(s: MsState): (r: seq<Timer>)
    ensures |r| == 3 && r[0].ref == DeletedTimer && r[1].ref == MsTimer && r[2].ref == SentinelTimer
    ensures r[0].waketime == r[1].waketime == s.msWake
  {
    [Timer(DeletedTimer, s.msWake), Timer(MsTimer, s.msWake), Timer(SentinelTimer, s.sentinelWake)]
  }

  // ------------------------------------------------------------ shutdown

  /** `shutdown_status`: 0, 1 (shut down) or 2 (running the shutdown
      handlers). */
  datatype Status = Running | Shutdown | InShutdownHandlers

  datatype ShutdownState = ShutdownState(status: Status, reason: nat)

  /** `sched_is_shutdown` */
  predicate IsShutdown(s: ShutdownState) {
    s.status != Running
  }

  /** `sched_shutdown` followed by the start of `run_shutdown`: the reason
      is recorded only by the first shutdown, and the handlers start. */
  function SchedShutdown(s: ShutdownState, reason: nat): (r: ShutdownState)
    ensures r.status == InShutdownHandlers && IsShutdown(r)
    ensures s.status == Running ==> r.reason == reason
    ensures s.status != Running ==> r.reason == s.reason
  {
    ShutdownState(InShutdownHandlers, if s.status == Running then reason else s.reason)
  }

  /** The end of `run_shutdown`: the handlers have run. */
  function ShutdownHandlersDone(s: ShutdownState): (r: ShutdownState)
    ensures r == ShutdownState(Shutdown, s.reason)
  {
    s.(status := Shutdown)
  }

  /** `sched_try_shutdown`: ignored while the handlers run. */
  function TryShutdown(s: ShutdownState, reason: nat): (r: ShutdownState)
    ensures s.status == InShutdownHandlers ==> r == s
    ensures s.status != InShutdownHandlers ==> r == SchedShutdown(s, reason)
  {
    if s.status != InShutdownHandlers then SchedShutdown(s, reason) else s
  }

  /** `sched_clear_shutdown`; `notShutdownReason` is the message id of
      "Shutdown cleared when not shutdown". */
  function ClearShutdown(s: ShutdownState, notShutdownReason: nat): (r: ShutdownState)
    ensures s.status == Running ==> r == ShutdownState(InShutdownHandlers, notShutdownReason)
    ensures s.status == InShutdownHandlers ==> r == s
    ensures s.status == Shutdown ==> r == s.(status := Running) && !IsShutdown(r)
  {
    match s.status
    case Running => SchedShutdown(s, notShutdownReason)
    case InShutdownHandlers => s
    case Shutdown => s.(status := Running)
  }

  /** The reported reason is the one given by the first shutdown after
      running normally, whatever later shutdown requests say. */
  lemma {:induction false} FirstReasonSticks(s: ShutdownState, first: nat, later: seq<nat>)
    requires s.status == Running
    ensures ApplyShutdowns(SchedShutdown(s, first), later).reason == first
    decreases |later|
  {
    if |later| > 0 {
      var s1 := SchedShutdown(s, first);
      var s2 := SchedShutdown(s1, later[0]);
      assert s2.reason == first;
      StickyFrom(s2, later[1..]);
    }
  }

  lemma {:induction false} StickyFrom(s: ShutdownState, later: seq<nat>)
    requires s.status != Running
    ensures ApplyShutdowns(s, later).reason == s.reason
    decreases |later|
  {
    if |later| > 0 {
      StickyFrom(SchedShutdown(s, later[0]), later[1..]);
    }
  }

  /** A run of further shutdown requests, each applied with `sched_shutdown`
      (which only starts the shutdown handlers). */
  function ApplyShutdowns(s: ShutdownState, reasons: seq<nat>): ShutdownState
    decreases |reasons|
  {
    if |reasons| == 0 then s else ApplyShutdowns(SchedShutdown(s, reasons[0]), reasons[1..])
  }
}
