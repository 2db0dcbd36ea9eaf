/** End stops on the micro-controller: while homing, a timer polls the
    end stop pin and stops the stepper the moment the pin reaches the
    awaited level; the result is reported to the host. */
module EndStop {
  import opened MachineInts
  import BaseCmd
  import Sched
  import Stepper

  /** `struct end_stop`: the `ESF_HOMING` and `ESF_REPORT` flags are the
      two booleans; the timer is its wake time. */
  datatype EndStop = EndStop(waketime: u32, restTime: u32, pinValue: u8, homing: bool, report: bool)

  /** `command_end_stop_home`: a zero rest time turns checking off;
      otherwise the awaited pin level is recorded, the homing flag set and
      the timer scheduled (the returned flag). */
  function Home(e: EndStop, clock: u32, restTicks: u32, pinValue: u32): (r: (EndStop, bool))
    ensures r.0.waketime == clock && r.0.restTime == restTicks
    ensures restTicks == 0 ==> !r.1 && !r.0.homing && !r.0.report && r.0.pinValue == e.pinValue
    ensures restTicks != 0 ==> r.1 && r.0.homing && !r.0.report && r.0.pinValue == W8(pinValue)
  {
    var e1 := e.(waketime := clock, restTime := restTicks);
    if restTicks == 0 then (e1.(homing := false, report := false), false)
    else (e1.(pinValue := W8(pinValue), homing := true, report := false), true)
  }

  /** `end_stop_event` with the pin reading `val`: keep polling every rest
      time until the pin reads the awaited value, then stop the stepper
      and flag a report (homing is over). */
  function Event(e: EndStop, s: Stepper.Stepper, pool: BaseCmd.MovePool, val: u8)
    : (r: (EndStop, Stepper.Stepper, BaseCmd.MovePool, int))
    ensures val != e.pinValue ==>
      r == (e.(waketime := W32(e.waketime + e.restTime)), s, pool, Sched.SF_RESCHEDULE)
    ensures val == e.pinValue ==>
      && r.0 == e.(homing := false, report := true)
      && (r.1, r.2) == Stepper.Stop(s, pool)
      && r.3 == Sched.SF_DONE
  {
    if val != e.pinValue then
      (e.(waketime := W32(e.waketime + e.restTime)), s, pool, Sched.SF_RESCHEDULE)
    else
      var (s', pool') := Stepper.Stop(s, pool);
      (e.(homing := false, report := true), s', pool', Sched.SF_DONE)
  }

  /** The first poll that sees the awaited level leaves the stepper idle
      with an empty queue, at the position it had reached. */
  lemma TriggerHaltsStepper(e: EndStop, s: Stepper.Stepper, pool: BaseCmd.MovePool)
    ensures var r := Event(e, s, pool, e.pinValue);
      r.1.count == 0 && r.1.queue == [] && Stepper.GetPosition(r.1) == Stepper.GetPosition(s)
      && r.0.report && !r.0.homing
  {
  }

  /** An `end_stop_state` message. */
  datatype Report = Report(oid: u8, homing: bool, pin: u8, pos: int)

  /** `end_stop_report`: the position is reported relative to the bias as
      a signed 32-bit number; only the report flag is cleared. */
  function MakeReport(oid: u8, e: EndStop, s: Stepper.Stepper, pin: u8): (r: (EndStop, Report))
    ensures r.0 == e.(report := false)
    ensures r.1.oid == oid && r.1.homing == e.homing && r.1.pin == pin
    ensures W32(r.1.pos + Stepper.STEPPER_POSITION_BIAS) == Stepper.GetPosition(s)
    ensures -TWO_31 <= r.1.pos < TWO_31
  {
    var pos := Signed32(W32(Stepper.GetPosition(s) - Stepper.STEPPER_POSITION_BIAS));
    W32Plus(Stepper.GetPosition(s) - Stepper.STEPPER_POSITION_BIAS, Stepper.STEPPER_POSITION_BIAS);
    W32Plus(pos, Stepper.STEPPER_POSITION_BIAS);
    (e.(report := false), Report(oid, e.homing, pin, pos))
  }

  /** An end stop as `foreach_oid` visits it, with its stepper and the
      current pin reading. */
  datatype Item = Item(oid: u8, e: EndStop, s: Stepper.Stepper, pin: u8)

  /** The items with a pending report, in order. */
  function Flagged(items: seq<Item>): (r: seq<Item>)
    ensures forall i :: 0 <= i < |r| ==> r[i] in items && r[i].e.report
  {
    if items == [] then []
    else (if items[0].e.report then [items[0]] else []) + Flagged(items[1..])
  }

  /** One pass of `end_stop_task` over the end stops once its 50 ms
      period is due. */
  function ReportAll(items: seq<Item>): (r: (seq<EndStop>, seq<Report>))
    ensures ReportedAll(items, r)
  {
    if items == [] then ([], [])
    else
      var it := items[0];
      var rest := ReportAll(items[1..]);
      var r := ([it.e.(report := false)] + rest.0,
                if it.e.report then [ReportOf(it)] + rest.1 else rest.1);
      ReportAllCons(items, rest, r);
      r
  }

  /** Every flag cleared, everything else kept, and one report per flagged
      item, in order. */
  predicate ReportedAll(items: seq<Item>, r: (seq<EndStop>, seq<Report>)) {
    && |r.0| == |items|
    && (forall i :: 0 <= i < |items| ==> r.0[i] == items[i].e.(report := false))
    && r.1 == ReportsOf(Flagged(items))
  }

  lemma {:induction false} ReportAllCons(items: seq<Item>, rest: (seq<EndStop>, seq<Report>), r: (seq<EndStop>, seq<Report>))
    requires |items| >= 1 && ReportedAll(items[1..], rest)
    requires r.0 == [items[0].e.(report := false)] + rest.0
    requires r.1 == if items[0].e.report then [ReportOf(items[0])] + rest.1 else rest.1
    ensures ReportedAll(items, r)
  {
    var it := items[0];
    assert forall i :: 0 <= i < |items| ==> r.0[i] == items[i].e.(report := false) by {
      forall i | 1 <= i < |items| ensures r.0[i] == items[i].e.(report := false) {
        assert r.0[i] == rest.0[i - 1];
      }
    }
    assert r.1 == ReportsOf(Flagged(items)) by {
      assert Flagged(items) == (if it.e.report then [it] else []) + Flagged(items[1..]);
      if it.e.report {
        ReportsOfCons(it, Flagged(items[1..]));
        assert [it] + Flagged(items[1..]) == Flagged(items);
      } else {
        assert Flagged(items[1..]) == Flagged(items);
      }
    }
  }

  function ReportOf(it: Item): Report {
    MakeReport(it.oid, it.e, it.s, it.pin).1
  }

  /** The message for each item, in order. */
  function ReportsOf(items: seq<Item>): (r: seq<Report>)
    ensures |r| == |items|
    ensures forall k :: 0 <= k < |r| ==> r[k] == ReportOf(items[k])
  {
    seq(|items|, k requires 0 <= k < |items| => ReportOf(items[k]))
  }

  lemma ReportsOfCons(it: Item, items: seq<Item>)
    ensures ReportsOf([it] + items) == [ReportOf(it)] + ReportsOf(items)
  {
  }

  /** `end_stop_task`: runs every 50 ms (checked with
      `sched_check_periodic`) and reports exactly the end stops whose
      report flag is set, in oid order, clearing those flags. */
  function Task(next: u16, cur: u16, items: seq<Item>): (r: (u16, seq<EndStop>, seq<Report>))
    ensures !Sched.CheckPeriodic(50, next, cur).0 ==>
      r.1 == seq(|items|, i requires 0 <= i < |items| => items[i].e) && r.2 == []
    ensures Sched.CheckPeriodic(50, next, cur).0 ==>
      (r.1, r.2) == ReportAll(items) && |r.2| == |Flagged(items)|
    ensures r.0 == Sched.CheckPeriodic(50, next, cur).1
  {
    var (due, next') := Sched.CheckPeriodic(50, next, cur);
    if !due then (next', seq(|items|, i requires 0 <= i < |items| => items[i].e), [])
    else
      var (es, reps) := ReportAll(items);
      (next', es, reps)
  }
}
