/** The serial port bridge of the AVR simulator script (scripts/avrsim.py):
    a transmit pin that shifts queued bytes out as 8N1 frames, one level
    per bit period, and a receive pin that samples the level once per bit
    period after a start edge and reassembles the byte. The simulator's
    clock is abstracted to one step per bit period: the half-period offset
    the receiver adds after the start bit only moves its sampling point to
    the middle of each bit, so every bit is sampled exactly once. Also the
    trace option string of the `Tracing` helper. */
module AvrSim {
  import opened Wrappers
  import opened Strings

  /** Bits per frame: one start bit, eight data bits, one stop bit. */
  const SERIALBITS := 10

  /** `1 << k` for the bit positions of a frame. */
  function Shl(k: int): (r: bv16)
    requires 0 <= k <= SERIALBITS
  {
    if k == 0 then 1 else if k == 1 then 2 else if k == 2 then 4
    else if k == 3 then 8 else if k == 4 then 16 else if k == 5 then 32
    else if k == 6 then 64 else if k == 7 then 128 else if k == 8 then 256
    else if k == 9 then 512 else 1024
  }

  /** The table is the shift it stands for. */
  lemma ShlIsShift(k: int)
    requires 0 <= k <= SERIALBITS
    ensures Shl(k) == (1 as bv16) << (k as bv16)
  {
  }

  /** The bits below position `k`. */
  function Low(k: int): (r: bv16)
    requires 0 <= k <= SERIALBITS
  {
    Shl(k) - 1
  }

  /** The bits of `x` below position `k`. */
  function Below(x: bv16, k: int): bv16
    requires 0 <= k <= SERIALBITS
  {
    x & Low(k)
  }

  /** Whether bit `k` of a frame is set: the level sent in bit period `k`. */
  predicate Level(x: bv16, k: int)
    requires 0 <= k < SERIALBITS
  {
    x & Shl(k) != 0
  }

  /** The frame of a byte: the byte shifted up by one (a low start bit)
      with the stop bit at position nine set. */
  function Frame(b: bv8): (r: bv16) {
    ((b as bv16) << 1) | 0x200
  }

  /** The frame is a start bit, the data bits lowest first, and a stop
      bit, and nothing above it. */
  lemma {:induction false} FrameBits(b: bv8)
    ensures !Level(Frame(b), 0)
    ensures forall k :: 1 <= k <= 8 ==> (Level(Frame(b), k) <==> (b as bv16) & Shl(k - 1) != 0)
    ensures Level(Frame(b), 9)
    ensures Below(Frame(b), SERIALBITS) == Frame(b)
  {
    forall k | 1 <= k <= 8
      ensures Level(Frame(b), k) <==> (b as bv16) & Shl(k - 1) != 0
    {
      FrameBit(b, k);
    }
  }

  lemma FrameBit(b: bv8, k: int)
    requires 1 <= k <= 8
    ensures Level(Frame(b), k) <==> (b as bv16) & Shl(k - 1) != 0
  {
  }

  /** The levels of a byte's frame in the order they go on the wire. */
  function FrameLevels(b: bv8): (r: seq<bool>)
    ensures |r| == SERIALBITS
  {
    seq(SERIALBITS, k requires 0 <= k < SERIALBITS => Level(Frame(b), k))
  }

  // ------------------------------------------------------------ transmit

  /** `SerialTxPin`: the frame being shifted out, the next bit position,
      and the bytes waiting. */
  datatype Tx = Tx(current: bv16, pos: int, queue: seq<bv8>)

  predicate TxValid(t: Tx) {
    0 <= t.pos < SERIALBITS
  }

  /** The transmitter as created: nothing queued, at the start of a frame. */
  const TxInit := Tx(0, 0, [])

  /** `SerialTxPin.DoStep`, given what the terminal has to read. At the
      start of a frame with nothing queued and nothing read the pin is
      left alone (None). Otherwise a new frame is taken from the head of
      the queue at position zero, and the pin is driven to the frame's bit
      at the current position, which then advances, wrapping after ten. */
  function TxStep(t: Tx, read: seq<bv8>): (r: (Tx, Option<bool>))
    requires TxValid(t)
    ensures TxValid(r.0)
    ensures r.1.None? <==> t.pos == 0 && t.queue == [] && read == []
    ensures r.1.None? ==> r.0 == t
    ensures r.1.Some? ==> r.0.pos == (t.pos + 1) % SERIALBITS
    ensures r.1.Some? && t.pos != 0 ==> r.0.current == t.current && r.0.queue == t.queue
    ensures r.1.Some? && t.pos == 0 ==>
      var q := if t.queue == [] then read else t.queue;
      r.0.current == Frame(q[0]) && r.0.queue == q[1..]
    ensures r.1.Some? ==> r.1.value == Level(r.0.current, t.pos)
  {
    if t.pos == 0 && t.queue == [] && read == [] then (t, None)
    else
      var t1 := if t.pos == 0 then
          var q := if t.queue == [] then read else t.queue;
          Tx(Frame(q[0]), 0, q[1..])
        else t;
      var level := Level(t1.current, t1.pos);
      var pos := if t1.pos + 1 >= SERIALBITS then 0 else t1.pos + 1;
      (t1.(pos := pos), Some(level))
  }

  /** `n` steps of the transmitter with nothing more to read: the final
      state and the levels driven, in order. */
  function TxRun(t: Tx, n: nat): (r: (Tx, seq<bool>))
    requires TxValid(t)
    ensures TxValid(r.0)
    ensures |r.1| <= n
  {
    if n == 0 then (t, [])
    else
      var (t1, ls) := TxRun(t, n - 1);
      var (t2, l) := TxStep(t1, []);
      (t2, if l.Some? then ls + [l.value] else ls)
  }

  /** The first `k` steps of a frame: the head of the queue becomes the
      frame and its first `k` levels are driven. */
  lemma {:induction false} TxPrefix(c: bv16, b: bv8, rest: seq<bv8>, k: nat)
    requires 1 <= k <= SERIALBITS
    ensures TxRun(Tx(c, 0, [b] + rest), k)
      == (Tx(Frame(b), k % SERIALBITS, rest), FrameLevels(b)[..k])
  {
    var t := Tx(c, 0, [b] + rest);
    var fl := FrameLevels(b);
    if k == 1 {
      assert TxRun(t, 0) == (t, []);
      TxStart(c, b, rest);
      assert fl[..1] == [] + [fl[0]];
    } else {
      TxPrefix(c, b, rest, k - 1);
      TxBit(b, rest, k - 1);
      assert fl[..k] == fl[..k - 1] + [fl[k - 1]];
    }
  }

  /** The step at the start of a frame dequeues the byte and drives the
      start bit. */
  lemma {:induction false} TxStart(c: bv16, b: bv8, rest: seq<bv8>)
    ensures TxStep(Tx(c, 0, [b] + rest), []) == (Tx(Frame(b), 1, rest), Some(FrameLevels(b)[0]))
  {
    assert ([b] + rest)[1..] == rest;
  }

  /** A step inside a frame drives the next bit. */
  lemma TxBit(b: bv8, rest: seq<bv8>, k: int)
    requires 1 <= k < SERIALBITS
    ensures TxStep(Tx(Frame(b), k, rest), []) == (Tx(Frame(b), (k + 1) % SERIALBITS, rest), Some(FrameLevels(b)[k]))
  {
  }

  /** Ten steps send the head of the queue as one whole frame and leave the
      transmitter at the start of the next frame with the rest queued. */
  lemma {:induction false} TxSendsFrame(c: bv16, b: bv8, rest: seq<bv8>)
    ensures TxRun(Tx(c, 0, [b] + rest), SERIALBITS) == (Tx(Frame(b), 0, rest), FrameLevels(b))
  {
    TxPrefix(c, b, rest, SERIALBITS);
    assert FrameLevels(b)[..SERIALBITS] == FrameLevels(b);
  }

  // ------------------------------------------------------------- receive

  /** `SerialRxPin`: the bits sampled so far, the next bit position (-1
      while waiting for a start bit) and the last level seen on the pin. */
  datatype Rx = Rx(current: bv16, pos: int, high: bool)

  predicate RxValid(r: Rx) {
    -1 <= r.pos < SERIALBITS && (r.pos == -1 ==> r.current == 0)
  }

  /** A receiver waiting for a start bit on an idle (high) line. */
  const Idle := Rx(0, -1, true)

  /** `SerialRxPin.SetInState`: the level is recorded, and a low level
      while waiting starts a frame. */
  function SetInState(r: Rx, high: bool): (s: Rx)
    ensures s.high == high && s.current == r.current
    ensures s.pos == if r.pos < 0 && !high then 0 else r.pos
  {
    if r.pos < 0 && !high then Rx(r.current, 0, high) else r.(high := high)
  }

  /** `SerialRxPin.DoStep`: the recorded level is sampled into bit `pos`;
      after the tenth bit the data bits are output and the receiver waits
      for the next start bit again. */
  function RxDoStep(r: Rx): (s: (Rx, Option<bv8>))
    requires 0 <= r.pos < SERIALBITS
    ensures r.pos + 1 < SERIALBITS ==> s.1.None? && s.0 == r.(current := s.0.current, pos := r.pos + 1)

    ensures r.pos + 1 == SERIALBITS ==> s.1.Some? && s.0 == Rx(0, -1, r.high)
  {
    var cur := Sample(r.current, r.high, r.pos);
    var pos := r.pos + 1;
    if pos >= SERIALBITS then (Rx(0, -1, r.high), Some(Data(cur)))
    else (r.(current := cur, pos := pos), None)
  }

  /** One bit period: the pin takes the level and, once a frame has
      started, the receiver samples it. */
  function RxFeed(r: Rx, high: bool): (s: (Rx, Option<bv8>))
    requires RxValid(r)
    ensures RxValid(s.0)
    ensures r.pos == -1 && high ==> s == (r.(high := true), None)
  {
    var r1 := SetInState(r, high);
    if r1.pos >= 0 then RxDoStep(r1) else (r1, None)
  }

  /** The receiver fed a sequence of levels: its final state and the bytes
      it output, in order. */
  function RxRun(r: Rx, levels: seq<bool>): (s: (Rx, seq<bv8>))
    requires RxValid(r)
    ensures RxValid(s.0)
    decreases |levels|
  {
    if levels == [] then (r, [])
    else
      var (r1, out) := RxRun(r, levels[..|levels| - 1]);
      var (r2, b) := RxFeed(r1, levels[|levels| - 1]);
      (r2, if b.Some? then out + [b.value] else out)
  }

  /** Feeding two stretches of levels one after the other is feeding
      them together. */
  lemma {:induction false} RxRunAppend(r: Rx, a: seq<bool>, b: seq<bool>)
    requires RxValid(r)
    ensures RxRun(r, a + b).0 == RxRun(RxRun(r, a).0, b).0
    ensures RxRun(r, a + b).1 == RxRun(r, a).1 + RxRun(RxRun(r, a).0, b).1
    decreases |b|
  {
    if b == [] {
      assert a + b == a;
    } else {
      var b' := b[..|b| - 1];
      RxRunAppend(r, a, b');
      assert (a + b)[..|a + b| - 1] == a + b';
      assert (a + b)[|a + b| - 1] == b[|b| - 1];
    }
  }

  /** After the first `k` bits of a frame, starting from an idle line, the
      receiver has sampled exactly those bits and output nothing. */
  lemma {:induction false} RxPrefix(b: bv8, k: nat)
    requires 1 <= k < SERIALBITS
    ensures RxRun(Idle, FrameLevels(b)[..k])
      == (Rx(Below(Frame(b), k), k, FrameLevels(b)[k - 1]), [])
  {
    var fl := FrameLevels(b);
    var ls := fl[..k];
    assert ls[..k - 1] == fl[..k - 1] && ls[k - 1] == fl[k - 1];
    if k == 1 {
      assert RxRun(Idle, []) == (Idle, []);
      RxStart(b);
    } else {
      RxPrefix(b, k - 1);
      RxBit(b, k - 1);
    }
  }

  /** The start bit arms the idle receiver and is sampled as a zero. */
  lemma {:induction false} RxStart(b: bv8)
    ensures RxFeed(Idle, FrameLevels(b)[0]) == (Rx(Below(Frame(b), 1), 1, FrameLevels(b)[0]), None)
  {
    FrameBits(b);
    assert Below(Frame(b), 1) == 0;
  }

  /** A bit inside the frame is sampled into its position. */
  lemma {:induction false} RxBit(b: bv8, k: int)
    requires 1 <= k < SERIALBITS - 1
    ensures RxFeed(Rx(Below(Frame(b), k), k, FrameLevels(b)[k - 1]), FrameLevels(b)[k])
      == (Rx(Below(Frame(b), k + 1), k + 1, FrameLevels(b)[k]), None)
  {
    SampleStep(Frame(b), k);
  }

  function Sample(c: bv16, high: bool, k: int): bv16
    requires 0 <= k < SERIALBITS
  {
    c | (if high then Shl(k) else 0)
  }

  /** Sampling bit `k` into the bits below it gives the bits below `k + 1`. */
  lemma {:induction false} SampleStep(f: bv16, k: int)
    requires 0 <= k < SERIALBITS
    ensures Sample(Below(f, k), Level(f, k), k) == Below(f, k + 1)
  {
    var s, l := Shl(k), Low(k);
    assert s & (s - 1) == 0;
    assert l | s == Low(k + 1);
    SingleBit(f, s);
    Distribute(f, l, s);
  }

  /** Keeping a single bit of `f` is that bit or nothing. */
  lemma SingleBit(f: bv16, s: bv16)
    requires s & (s - 1) == 0
    ensures (if f & s != 0 then s else 0) == f & s
  {
  }

  lemma Distribute(f: bv16, a: bv16, b: bv16)
    ensures (f & a) | (f & b) == f & (a | b)
  {
  }

  /** The eight data bits above the start bit of a sampled frame. */
  function Data(cur: bv16): bv8 {
    ((cur >> 1) & 0xff) as bv8
  }

  /** The data bits of a whole frame are the byte. */
  lemma FrameData(b: bv8)
    ensures Data(Frame(b)) == b
  {
  }

  /** A frame fed to an idle receiver is output as its byte, and the
      receiver is idle again. */
  lemma {:induction false} RxReadsFrame(b: bv8)
    ensures RxRun(Idle, FrameLevels(b)) == (Idle, [b])
  {
    var ls := FrameLevels(b);
    RxPrefix(b, 9);
    RxStop(b);
    var mid := Rx(Below(Frame(b), 9), 9, ls[8]);
    assert |ls| == 10;
    assert RxRun(Idle, ls[..|ls| - 1]) == (mid, []);
    assert RxValid(mid);
    assert RxFeed(mid, ls[|ls| - 1]) == (Idle, Some(b));
    RxRunLast(Idle, ls, mid, [], Idle, Some(b));
    assert [] + [b] == [b];
  }

  /** The stop bit completes the frame: the byte is output and the
      receiver waits again on the high line. */
  lemma {:induction false} RxStop(b: bv8)
    ensures RxFeed(Rx(Below(Frame(b), 9), 9, FrameLevels(b)[8]), FrameLevels(b)[9]) == (Idle, Some(b))
  {
    FrameBits(b);
    SampleStep(Frame(b), 9);
    FrameData(b);
  }

  /** The frames of a byte string, back to back. */
  function FramesOf(bs: seq<bv8>): (r: seq<bool>)
    ensures |r| == SERIALBITS * |bs|
  {
    if bs == [] then [] else FramesOf(bs[..|bs| - 1]) + FrameLevels(bs[|bs| - 1])
  }

  /** Back-to-back frames are read back as the byte string: the receiver
      re-arms on each start bit with no idle time between frames. */
  lemma {:induction false} RxReadsFrames(bs: seq<bv8>)
    ensures RxRun(Idle, FramesOf(bs)) == (Idle, bs)
    decreases |bs|
  {
    if bs != [] {
      var front, last := bs[..|bs| - 1], bs[|bs| - 1];
      RxReadsFrames(front);
      RxReadsFrame(last);
      RxReadsNext(front, last, bs);
    }
  }

  lemma {:induction false} RxReadsNext(front: seq<bv8>, last: bv8, bs: seq<bv8>)
    requires bs == front + [last]
    requires RxRun(Idle, FramesOf(front)) == (Idle, front)
    requires RxRun(Idle, FrameLevels(last)) == (Idle, [last])
    ensures RxRun(Idle, FramesOf(bs)) == (Idle, bs)
  {
    assert bs[..|bs| - 1] == front;
    RxRunConcat(Idle, FramesOf(front), FrameLevels(last), front, [last]);
  }

  /** The last level of a stretch is fed to the state the rest leads to. */
  lemma RxRunLast(r: Rx, ls: seq<bool>, mid: Rx, out: seq<bv8>, r2: Rx, b: Option<bv8>)
    requires RxValid(r) && |ls| >= 1
    requires RxRun(r, ls[..|ls| - 1]) == (mid, out)
    requires RxValid(mid) && RxFeed(mid, ls[|ls| - 1]) == (r2, b)
    ensures RxRun(r, ls) == (r2, if b.Some? then out + [b.value] else out)
  {
  }

  /** Two stretches that each lead from `r` back to `r` do so together,
      with their outputs in order. */
  lemma {:induction false} RxRunConcat(r: Rx, a: seq<bool>, b: seq<bool>, x: seq<bv8>, y: seq<bv8>)
    requires RxValid(r)
    requires RxRun(r, a) == (r, x) && RxRun(r, b) == (r, y)
    ensures RxRun(r, a + b) == (r, x + y)
  {
    RxRunAppend(r, a, b);
  }

  /** What the transmitter sends, the receiver reads: a queued byte goes
      over the wire and comes out of an idle receiver unchanged. */
  lemma {:induction false} TxRxRoundTrip(c: bv16, b: bv8, rest: seq<bv8>)
    ensures RxRun(Idle, TxRun(Tx(c, 0, [b] + rest), SERIALBITS).1) == (Idle, [b])
  {
    TxSendsFrame(c, b, rest);
    RxReadsFrame(b);
  }

  // ------------------------------------------------------------- tracing

  /** What `Tracing.load_options` does with the signal option: nothing
      without one, the help text for `?`, and otherwise the signal list
      for the trace file. */
  datatype TraceOptions = NoTrace | ShowHelp | Signals(sigs: string)

  /** Each signal name with the `+ ` prefix. */
  function Prefixed(names: seq<string>): (r: seq<string>)
    ensures |r| == |names|
    ensures forall i :: 0 <= i < |r| ==> r[i] == "+ " + names[i]
  {
    seq(|names|, i requires 0 <= i < |names| => "+ " + names[i])
  }

  /** `load_options`: the comma-separated signal names, each prefixed with
      `+ `, one per line. */
  function LoadOptions(signals: string): (r: TraceOptions)
    ensures r.NoTrace? <==> signals == ""
    ensures r.ShowHelp? <==> signals != "" && Strip(signals) == "?"
  {
    if signals == "" then NoTrace
    else if Strip(signals) == "?" then ShowHelp
    else Signals(Join(Prefixed(Split(signals, ',')), '\n'))
  }

  /** For a signal list without newlines the trace text has one line per
      comma-separated name, holding that name after `+ `. */
  lemma {:induction false} LoadOptionsLines(signals: string)
    requires signals != "" && Strip(signals) != "?"
    requires '\n' !in signals
    ensures Split(LoadOptions(signals).sigs, '\n') == Prefixed(Split(signals, ','))
  {
    var names := Split(signals, ',');
    var p := Prefixed(names);
    SplitSubstrings(signals, ',');
    forall i | 0 <= i < |p| ensures '\n' !in p[i] {
      assert forall c :: c in names[i] ==> c in signals;
    }
    SplitJoin(p, '\n');
  }

  /** Every character of a piece of a split is a character of the string. */
  lemma {:induction false} SplitSubstrings(s: string, sep: char)
    ensures forall i, c :: 0 <= i < |Split(s, sep)| && c in Split(s, sep)[i] ==> c in s
    decreases |s|
  {
    if |s| > 0 {
      SplitSubstrings(s[1..], sep);
      SplitCons(s[0], s[1..], sep);
      assert s == [s[0]] + s[1..];
    }
  }

  /** Two signals become two prefixed lines. */
  lemma {:induction false} LoadOptionsExample()
    ensures LoadOptions("a,b") == Signals("+ a\n+ b")
  {
    SplitExample();
    StripClean("a,b");
    var q := Prefixed(["a", "b"]);
    assert q[0] == "+ " + "a" == "+ a";
    assert q[1] == "+ " + "b" == "+ b";
    var p := ["+ a", "+ b"];
    assert q == p;
    assert p[1..] == ["+ b"];
    assert Join(p, '\n') == "+ a" + ['\n'] + "+ b";
  }

  lemma {:induction false} SplitExample()
    ensures Split("a,b", ',') == ["a", "b"]
  {
    SplitNone("b", ',');
    assert ",b"[1..] == "b";
    assert Split(",b", ',') == [""] + ["b"];
    assert "a,b"[1..] == ",b";
    assert ['a'] + "" == "a";
    assert Split("a,b", ',') == [['a'] + ""] + ["b"];
  }
}
