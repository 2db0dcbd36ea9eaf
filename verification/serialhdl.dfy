/** The host's serial reader (klippy/serialhdl.py): acknowledged-clock
    tracking, the response-handler registry, the retrying query, and the
    download of the firmware's identify data. Reactor timers, threads,
    the serial port and the clock-rate estimate are not modelled; sends
    are returned as values. */
module SerialHdl {
  import opened Wrappers
  import opened MachineInts
  import ClockSync
  import BaseCmd

  // ------------------------------------------------------------ clocks

  /** The clock fields `handle_status` maintains. */
  datatype AckState = AckState(lastAckClock: nat, lastAckTime: int)

  /** `handle_status`: the acknowledged clock is extended from the
      previous one by the status message's 32-bit clock, and the receive
      time recorded. */
  function HandleStatus(s: AckState, clock32: u32, receiveTime: int): (r: AckState)
    ensures r.lastAckClock % TWO_32 == clock32
    ensures s.lastAckClock <= r.lastAckClock < s.lastAckClock + TWO_32
    ensures r.lastAckTime == receiveTime
  {
    AckState(ClockSync.Extend(s.lastAckClock, clock32), receiveTime)
  }

  /** `translate_clock`: a 32-bit clock from a response, widened to the
      64-bit clock nearest the last acknowledged one. */
  function TranslateClock(s: AckState, raw: u32): (r: int)
    ensures r % TWO_32 == raw
    ensures s.lastAckClock - TWO_31 < r <= s.lastAckClock + TWO_31
  {
    ClockSync.Clock32To64(s.lastAckClock, raw)
  }

  // ------------------------------------------------------------ handlers

  /** A response handler, named by what it is. */
  datatype Handler =
    | HandleUnknown | HandleState | HandleOutput | HandleStatusMsg
    | HandleDefault | Callback(id: nat)

  /** Handlers are keyed by message name and optional oid. */
  datatype Key = Key(name: string, oid: Option<int>)

  type Handlers = map<Key, Handler>

  /** The handlers a new reader starts with, all without an oid. */
  function InitialHandlers(): (h: Handlers)
    ensures Key("status", None) in h && h[Key("status", None)] == HandleStatusMsg
    ensures Key("#unknown", None) in h && |h| == 6
    ensures forall k :: k in h ==> k.oid == None
  {
    map[Key("#unknown", None) := HandleUnknown, Key("#state", None) := HandleState,
        Key("#output", None) := HandleOutput, Key("status", None) := HandleStatusMsg,
        Key("shutdown", None) := HandleOutput, Key("is_shutdown", None) := HandleOutput]
  }

  /** `register_callback`: sets (or replaces) the handler of one key. */
  function Register(h: Handlers, name: string, oid: Option<int>, cb: Handler): (r: Handlers)
    ensures Key(name, oid) in r && r[Key(name, oid)] == cb
    ensures forall k :: k != Key(name, oid) ==> (k in r <==> k in h) && (k in h ==> r[k] == h[k])
  {
    h[Key(name, oid) := cb]
  }

  /** `unregister_callback`: removes exactly that key; a key with no
      handler raises `KeyError`. */
  function Unregister(h: Handlers, name: string, oid: Option<int>): (r: Result<Handlers>)
    ensures r.Err? <==> Key(name, oid) !in h
    ensures r.Ok? ==> Key(name, oid) !in r.value
    ensures r.Ok? ==> forall k :: k != Key(name, oid) ==>
      (k in r.value <==> k in h) && (k in h ==> r.value[k] == h[k])
  {
    if Key(name, oid) !in h then Err("KeyError") else Ok(h - {Key(name, oid)})
  }

  /** The handler a received message goes to: the one registered for its
      name and oid, otherwise `handle_default`. */
  function Dispatch(h: Handlers, name: string, oid: Option<int>): (r: Handler)
    ensures Key(name, oid) in h ==> r == h[Key(name, oid)]
    ensures Key(name, oid) !in h ==> r == HandleDefault
  {
    if Key(name, oid) in h then h[Key(name, oid)] else HandleDefault
  }

  /** A message keyed differently from a registration is unaffected by
      it; after unregistering, the key's messages go to the default. */
  lemma RegistrationIsPerKey(h: Handlers, name: string, oid: Option<int>, cb: Handler,
                             name': string, oid': Option<int>)
    ensures Dispatch(Register(h, name, oid, cb), name, oid) == cb
    ensures Key(name', oid') != Key(name, oid) ==>
      Dispatch(Register(h, name, oid, cb), name', oid') == Dispatch(h, name', oid')
    ensures Dispatch(h, name, oid) != HandleDefault ==>
      Unregister(h, name, oid).Ok? && Dispatch(Unregister(h, name, oid).value, name, oid) == HandleDefault
  {
  }

  // ------------------------------------------------------------ retry

  /** `RETRY_TIME`, 0.5 seconds, in milliseconds. */
  const RETRY_TIME_MS: nat := 500

  /** `SerialRetryCommand`: whether its callback is still installed, the
      response handlers, and whether its send timer is registered. */
  datatype Retry = Retry(active: bool, h: Handlers, timerOn: bool)

  /** When a reactor timer runs next. */
  datatype Wake = WakeAt(time: int) | Never

  /** What one run of the send timer did: the new state, the commands it
      sent and when it runs next. */
  datatype SendResult = SendResult(r: Retry, sent: seq<string>, wake: Wake)

  /** Registering the retry command's handler for response `name` and
      its send timer. */
  function StartRetry(h: Handlers, name: string, id: nat): (r: Retry)
    ensures r.active && r.timerOn && Dispatch(r.h, name, None) == Callback(id)
  {
    Retry(true, Register(h, name, None, Callback(id)), true)
  }

  /** `send_event` at `eventtime` (milliseconds): while the callback is
      installed the command is sent and the timer runs again
      `RETRY_TIME` later; once the callback is gone the timer is
      unregistered and never runs again. The handlers are untouched. */
  function RetrySendEvent(r: Retry, cmd: string, eventtime: int): (o: SendResult)
    ensures o.r.active == r.active && o.r.h == r.h
    ensures r.active ==> o.sent == [cmd] && o.wake == WakeAt(eventtime + RETRY_TIME_MS) && o.r.timerOn == r.timerOn
    ensures !r.active ==> o.sent == [] && o.wake == Never && !o.r.timerOn
  {
    if !r.active then SendResult(r.(timerOn := false), [], Never)
    else SendResult(r, [cmd], WakeAt(eventtime + RETRY_TIME_MS))
  }

  /** `handle_callback`: once the callback reports done, the response
      handler is removed and the callback dropped. */
  function RetryHandleCallback(r: Retry, name: string, done: bool): (r': Result<Retry>)
    ensures !done ==> r' == Ok(r)
    ensures done && r'.Ok? ==> !r'.value.active && Key(name, None) !in r'.value.h && r'.value.timerOn == r.timerOn
    ensures done ==> (r'.Err? <==> Key(name, None) !in r.h)
  {
    if !done then Ok(r)
    else
      match Unregister(r.h, name, None)
      case Err(e) => Err(e)
      case Ok(h') => Ok(Retry(false, h', r.timerOn))
  }

  /** An event seen by a retrying query: its timer firing at a time, or
      a response whose callback returned `done`. */
  datatype RetryEvent = Timer(time: int) | Response(done: bool)

  /** The commands sent over a run of events; a timer that was
      unregistered no longer runs. */
  function Resends(r: Retry, name: string, cmd: string, evs: seq<RetryEvent>): seq<string>
    decreases |evs|
  {
    if evs == [] then []
    else match evs[0]
      case Timer(t) =>
        if !r.timerOn then Resends(r, name, cmd, evs[1..])
        else
          var o := RetrySendEvent(r, cmd, t);
          o.sent + Resends(o.r, name, cmd, evs[1..])
      case Response(done) =>
        match RetryHandleCallback(r, name, done)
        case Err(_) => []
        case Ok(r') => Resends(r', name, cmd, evs[1..])
  }

  /** After a response whose callback returns true, nothing is resent. */
  lemma {:induction false} NoResendAfterDone(r: Retry, name: string, cmd: string, evs: seq<RetryEvent>)
    requires !r.active
    ensures Resends(r, name, cmd, evs) == []
    decreases |evs|
  {
    if evs != [] {
      match evs[0]
      case Timer(t) =>
        if r.timerOn {
          NoResendAfterDone(RetrySendEvent(r, cmd, t).r, name, cmd, evs[1..]);
        } else {
          NoResendAfterDone(r, name, cmd, evs[1..]);
        }
      case Response(done) =>
        match RetryHandleCallback(r, name, done)
        case Err(_) =>
        case Ok(r') =>
          NoResendAfterDone(r', name, cmd, evs[1..]);
    }
  }

  /** The number of timer events in a run of events. */
  function Timers(evs: seq<RetryEvent>): nat
    decreases |evs|
  {
    if evs == [] then 0 else (if evs[0].Timer? then 1 else 0) + Timers(evs[1..])
  }

  /** Until a response is done, every timer run sends the command once:
      a query answered only by responses that are not done is resent at
      each timer event. */
  lemma {:induction false} ResendUntilDone(r: Retry, name: string, cmd: string, evs: seq<RetryEvent>)
    requires r.active && r.timerOn
    requires forall i :: 0 <= i < |evs| ==> evs[i].Timer? || !evs[i].done
    ensures Resends(r, name, cmd, evs) == seq(Timers(evs), _ => cmd)
    decreases |evs|
  {
    if evs != [] {
      ResendUntilDone(r, name, cmd, evs[1..]);
      if evs[0].Timer? {
        assert [cmd] + seq(Timers(evs[1..]), _ => cmd) == seq(Timers(evs), _ => cmd);
      }
    }
  }

  // ------------------------------------------------------------ identify

  const IDENTIFY_CHUNK: nat := 40

  /** `SerialBootStrap`: the identify data downloaded so far. */
  datatype Boot = Boot(data: seq<u8>, done: bool)

  /** An `identify offset=%u count=%c` request. */
  datatype IdentifyReq = IdentifyReq(offset: nat, count: nat)

  /** `handle_identify` for a response with `offset` and `chunk`: a
      response after the download finished, or for another offset than
      the data so far, is ignored; an empty chunk finishes; otherwise the
      chunk is appended and the next 40 bytes are requested. */
  function HandleIdentify(b: Boot, offset: nat, chunk: seq<u8>): (r: (Boot, Option<IdentifyReq>))
    ensures b.done || offset != |b.data| ==> r == (b, None)
    ensures !b.done && offset == |b.data| && chunk == [] ==> r == (Boot(b.data, true), None)
    ensures !b.done && offset == |b.data| && chunk != [] ==>
      r.0 == Boot(b.data + chunk, false) && r.1 == Some(IdentifyReq(|b.data| + |chunk|, IDENTIFY_CHUNK))
  {
    if b.done || offset != |b.data| then (b, None)
    else if chunk == [] then (Boot(b.data, true), None)
    else
      var data := b.data + chunk;
      (Boot(data, false), Some(IdentifyReq(|data|, IDENTIFY_CHUNK)))
  }

  /** One request and response: the host asks for 40 bytes at the length
      it has, and the firmware answers with `command_identify`. */
  function Exchange(dict: seq<u8>, b: Boot): Boot
    requires |dict| < TWO_32 - 255 && |b.data| <= |dict|
  {
    var chunk := BaseCmd.Identify(dict, |b.data|, IDENTIFY_CHUNK);
    HandleIdentify(b, |b.data|, chunk).0
  }

  function Download(dict: seq<u8>, b: Boot, rounds: nat): Boot
    requires |dict| < TWO_32 - 255 && |b.data| <= |dict|
    decreases rounds
  {
    if rounds == 0 || b.done then b
    else
      var b' := Exchange(dict, b);
      if |b'.data| <= |dict| then Download(dict, b', rounds - 1) else b'
  }

  /** Against the firmware's `command_identify`, the bootstrap downloads
      the identify data exactly: from any correct prefix, one round per
      40 bytes left plus a final empty one finish with all of it. */
  lemma {:induction false} DownloadIsExact(dict: seq<u8>, b: Boot, rounds: nat)
    requires |dict| < TWO_32 - 255 && !b.done
    requires |b.data| <= |dict| && b.data == dict[..|b.data|]
    requires rounds * IDENTIFY_CHUNK >= |dict| - |b.data| + IDENTIFY_CHUNK
    ensures Download(dict, b, rounds) == Boot(dict, true)
    decreases rounds
  {
    var chunk := BaseCmd.Identify(dict, |b.data|, IDENTIFY_CHUNK);
    var b' := Exchange(dict, b);
    if |b.data| == |dict| {
      assert chunk == [];
      assert b.data == dict;
    } else {
      assert chunk == dict[|b.data|..|b.data| + |chunk|] && |chunk| > 0;
      assert b'.data == dict[..|b.data| + |chunk|];
      assert |chunk| == IDENTIFY_CHUNK || |b'.data| == |dict|;
      DownloadIsExact(dict, b', rounds - 1);
    }
  }
}
