/** The homing state queue (klippy/homing.py). The toolhead, the
    endstops and the axis-update callbacks are outside the model: what
    their calls report is given as functions, and the moves they would
    issue are not modelled. Positions are integers here. */
module Homing {
  import opened Wrappers
  import opened Strings

  type EndstopId = nat

  /** A planned state: home with these steppers' endstops, wait for the
      endstops, move, or call an axis-update callback. */
  datatype HState =
    | DoHome(forcepos: seq<Option<int>>, movepos: seq<Option<int>>, steppers: seq<EndstopId>)
    | DoWaitEndstop
    | DoMove(newpos: seq<Option<int>>)
    | AxesUpdate(callback: nat)

  /** The queue of states still to run and the endstops being homed. */
  datatype Homing = Homing(states: seq<HState>, endstops: seq<EndstopId>)

  /** What the outside world reports: whether an endstop is still busy,
      and what a callback returns. */
  datatype World = World(endstopBusy: EndstopId -> bool, callbackBusy: nat -> bool)

  /** `plan_home`: a homing state followed by a wait for its endstops. */
  function PlanHome(h: Homing, forcepos: seq<Option<int>>, movepos: seq<Option<int>>, steppers: seq<EndstopId>): (r: Homing)
    ensures r.states == h.states + [DoHome(forcepos, movepos, steppers), DoWaitEndstop]
    ensures r.endstops == h.endstops
  {
    h.(states := h.states + [DoHome(forcepos, movepos, steppers), DoWaitEndstop])
  }

  /** `plan_move`. */
  function PlanMove(h: Homing, newpos: seq<Option<int>>): (r: Homing)
    ensures r.states == h.states + [DoMove(newpos)] && r.endstops == h.endstops
  {
    h.(states := h.states + [DoMove(newpos)])
  }

  /** `plan_axes_update`. */
  function PlanAxesUpdate(h: Homing, callback: nat): (r: Homing)
    ensures r.states == h.states + [AxesUpdate(callback)] && r.endstops == h.endstops
  {
    h.(states := h.states + [AxesUpdate(callback)])
  }

  /** Whether any of the endstops is busy. */
  predicate AnyBusy(endstops: seq<EndstopId>, w: World) {
    exists i :: 0 <= i < |endstops| && w.endstopBusy(endstops[i])
  }

  /** One state run: homing enables the steppers' endstops; waiting is busy
      while an endstop is, and otherwise forgets the endstops; a move is
      never busy; a callback is busy when it says so. */
  function Run(s: HState, endstops: seq<EndstopId>, w: World): (r: (seq<EndstopId>, bool))
    ensures s.DoHome? ==> r == (endstops + s.steppers, false)
    ensures s.DoWaitEndstop? ==> (r.1 <==> AnyBusy(endstops, w))
    ensures s.DoWaitEndstop? ==> r.0 == if r.1 then endstops else []
    ensures s.DoMove? ==> r == (endstops, false)
    ensures s.AxesUpdate? ==> r == (endstops, w.callbackBusy(s.callback))
  {
    match s
    case DoHome(_, _, steppers) => (endstops + steppers, false)
    case DoWaitEndstop => if AnyBusy(endstops, w) then (endstops, true) else ([], false)
    case DoMove(_) => (endstops, false)
    case AxesUpdate(cb) => (endstops, w.callbackBusy(cb))
  }

  /** `check_busy`: states run in order, each finished one popped, until
      one is busy (it stays at the head) or none is left. */
  function CheckBusy(h: Homing, w: World): (r: (Homing, bool))
    ensures !r.1 <==> r.0.states == []
    ensures |r.0.states| <= |h.states| && r.0.states == h.states[|h.states| - |r.0.states|..]
    ensures r.1 ==> Run(r.0.states[0], r.0.endstops, w) == (r.0.endstops, true)
    decreases |h.states|
  {
    if h.states == [] then (h, false)
    else
      var (es, busy) := Run(h.states[0], h.endstops, w);
      if busy then
        (h, true)
      else
        var r := CheckBusy(Homing(h.states[1..], es), w);
        assert h.states[1..][|h.states| - 1 - |r.0.states|..] == h.states[|h.states| - |r.0.states|..];
        r
  }

  /** Checking again without a change in the world finds the same busy
      state and changes nothing. */
  lemma CheckBusyIdempotent(h: Homing, w: World)
    ensures CheckBusy(CheckBusy(h, w).0, w) == CheckBusy(h, w)
  {
  }

  /** `fill_coord`: missing coordinates are taken from the toolhead
      position; a missing one beyond that position's length raises. */
  function FillCoord(coord: seq<Option<int>>, thcoord: seq<int>): (r: Result<seq<int>>)
    ensures r.Ok? <==> forall i :: 0 <= i < |coord| && coord[i].None? ==> i < |thcoord|
    ensures r.Ok? ==> |r.value| == |coord|
    ensures r.Ok? ==> forall i :: 0 <= i < |coord| ==>
      r.value[i] == match coord[i] case Some(v) => v case None => thcoord[i]
    decreases |coord|
  {
    if |coord| == 0 then Ok([])
    else match FillCoord(coord[..|coord| - 1], thcoord)
      case Err(e) => Err(e)
      case Ok(front) =>
        var n := |coord| - 1;
        match coord[n]
        case Some(v) => Ok(front + [v])
        case None => if n < |thcoord| then Ok(front + [thcoord[n]]) else Err("IndexError")
  }

  /** A fully given coordinate is kept as it is. */
  lemma {:induction false} FillCoordKeepsGiven(coord: seq<int>, thcoord: seq<int>)
    ensures FillCoord(seq(|coord|, i requires 0 <= i < |coord| => Some(coord[i])), thcoord) == Ok(coord)
  {
    var c := seq(|coord|, i requires 0 <= i < |coord| => Some(coord[i]));
    var r := FillCoord(c, thcoord);
    assert r.Ok?;
    assert r.value == coord;
  }

  // ------------------------------------------------------------ query

  /** The endstops being queried, with their names, and those still busy. */
  datatype Query = Query(endstops: seq<(string, EndstopId)>, busy: seq<EndstopId>)

  /** Pairs of a name and a stepper's endstop (None when the stepper has
      none), as `zip` gives them: up to the shorter list. */
  function Zip<A, B>(a: seq<A>, b: seq<B>): (r: seq<(A, B)>)
    ensures |r| == if |a| < |b| then |a| else |b|
    ensures forall i :: 0 <= i < |r| ==> r[i] == (a[i], b[i])
  {
    seq(if |a| < |b| then |a| else |b|, i requires 0 <= i < |a| && i < |b| => (a[i], b[i]))
  }

  /** `QueryEndstops(names, steppers)`: the steppers with an endstop,
      in order, all busy to begin with. */
  function NewQuery(names: seq<string>, endstops: seq<Option<EndstopId>>): (r: Query)
    ensures |r.endstops| == |r.busy|
    ensures forall i :: 0 <= i < |r.busy| ==> r.busy[i] == r.endstops[i].1
    ensures |r.endstops| <= |names| && |r.endstops| <= |endstops|
  {
    Collect(Zip(names, endstops))
  }

  function Collect(pairs: seq<(string, Option<EndstopId>)>): (r: Query)
    ensures |r.endstops| == |r.busy| <= |pairs|
    ensures forall i :: 0 <= i < |r.busy| ==> r.busy[i] == r.endstops[i].1
    ensures forall i :: 0 <= i < |r.endstops| ==> (r.endstops[i].0, Some(r.endstops[i].1)) in pairs
  {
    if |pairs| == 0 then Query([], [])
    else
      var rest := Collect(pairs[1..]);
      match pairs[0].1
      case None => rest
      case Some(es) =>
        var r := Query([(pairs[0].0, es)] + rest.endstops, [es] + rest.busy);
        assert forall i :: 1 <= i < |r.endstops| ==> r.endstops[i] == rest.endstops[i - 1];
        r
  }

  /** The index of the first endstop still busy, or the length when none
      is. */
  function FirstBusy(busy: seq<EndstopId>, busyNow: EndstopId -> bool): (k: nat)
    ensures k <= |busy|
    ensures forall j :: 0 <= j < k ==> !busyNow(busy[j])
    ensures k < |busy| ==> busyNow(busy[k])
  {
    if busy == [] then 0
    else if busyNow(busy[0]) then 0
    else 1 + FirstBusy(busy[1..], busyNow)
  }

  /** `QueryEndstops.check_busy`: endstops no longer busy are dropped from
      the front until a busy one is met. */
  function QueryCheckBusy(q: Query, busyNow: EndstopId -> bool): (r: (Query, bool))
    ensures r.0.endstops == q.endstops
    ensures r.0.busy == q.busy[FirstBusy(q.busy, busyNow)..]
    ensures !r.1 <==> r.0.busy == []
    ensures r.1 ==> busyNow(r.0.busy[0])
    decreases |q.busy|
  {
    if q.busy == [] then (q, false)
    else if busyNow(q.busy[0]) then (q, true)
    else QueryCheckBusy(q.(busy := q.busy[1..]), busyNow)
  }

  /** One `name:TRIGGERED` or `name:open` entry. */
  function EndstopMsg(name: string, triggered: bool): string {
    name + ":" + (if triggered then "TRIGGERED" else "open")
  }

  function Msgs(endstops: seq<(string, EndstopId)>, triggered: EndstopId -> bool): (r: seq<string>)
    ensures |r| == |endstops|
    ensures forall i :: 0 <= i < |r| ==> r[i] == EndstopMsg(endstops[i].0, triggered(endstops[i].1))
  {
    seq(|endstops|, i requires 0 <= i < |endstops| => EndstopMsg(endstops[i].0, triggered(endstops[i].1)))
  }

  /** `get_msg`: the entries in order, joined by spaces. */
  function GetMsg(q: Query, triggered: EndstopId -> bool): string {
    Join(Msgs(q.endstops, triggered), ' ')
  }

  /** For names without spaces the message splits back into one entry
      per endstop, in order. */
  lemma {:induction false} GetMsgSplits(q: Query, triggered: EndstopId -> bool)
    requires |q.endstops| >= 1
    requires forall i :: 0 <= i < |q.endstops| ==> ' ' !in q.endstops[i].0
    ensures Split(GetMsg(q, triggered), ' ') == Msgs(q.endstops, triggered)
  {
    var m := Msgs(q.endstops, triggered);
    forall i | 0 <= i < |m| ensures ' ' !in m[i] {
      var t := if triggered(q.endstops[i].1) then "TRIGGERED" else "open";
      assert m[i] == q.endstops[i].0 + (":" + t);
      assert ' ' !in ":" + t;
    }
    SplitJoin(m, ' ');
  }
}
