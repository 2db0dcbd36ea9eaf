module PruAdc {
  /** The PRU analog-to-digital sampler: one conversion slot shared by the
      eight ADC channels of the AM335x touchscreen/ADC block.

      The firmware keeps two globals, the channel that owns the slot and the
      last stored sample; here they are the fields of `AdcState`. The ADC
      block is `AdcHw`: its control register, the FIFO 0 words waiting to be
      read (oldest first) and the log of values written to `stepenable`. */
  import opened Wrappers
  import opened MachineInts

  /** The largest value a conversion reports, exported to the host. */
  const ADC_MAX: int := 4095
  /** Ticks the caller waits before polling again. */
  const SAMPLE_DELAY: u32 := 160
  /** Pin numbers of the ADC channels start at bank 4. */
  const ADC_PIN_BASE: int := 4 * 32

  type Chan = c: int | 0 <= c < 8

  /** The handle returned by setup. */
  datatype AdcHandle = AdcHandle(chan: Chan)

  /** `last_analog_read` (None plays the role of ADC_DUMMY) and
      `last_analog_sample`, a 16-bit variable. */
  datatype AdcState = AdcState(owner: Option<Chan>, lastSample: u16)

  datatype AdcHw = AdcHw(ctrl: u32, fifo: seq<u32>, stepEnableWrites: seq<u32>)

  /** The state at reset: no owner. */
  const INIT: AdcState := AdcState(None, 0)

  /** The step id a FIFO word was produced by: its upper 16 bits. */
  function Tag(w: u32): int {
    w / TWO_16
  }

  /** What storing a FIFO word into the 16-bit sample slot keeps. */
  function Low16(w: u32): u16 {
    w % TWO_16
  }

  /** Validates an ADC pin: the channel is the pin minus 128 as an 8-bit
      value, and the ADC block must be enabled. */
  function Setup(pin: u8, hw: AdcHw): (r: Result<AdcHandle>)
    ensures r.Ok? <==> ADC_PIN_BASE <= pin < ADC_PIN_BASE + 8 && hw.ctrl != 0
    ensures r.Ok? ==> r.value.chan == pin - ADC_PIN_BASE
    ensures !(ADC_PIN_BASE <= pin < ADC_PIN_BASE + 8) ==> r == Err("Not an adc channel")
    ensures ADC_PIN_BASE <= pin < ADC_PIN_BASE + 8 && hw.ctrl == 0 ==>
      r == Err("ADC module not enabled")
  {
    var chan := W8(pin - ADC_PIN_BASE);
    if chan >= 8 then Err("Not an adc channel")
    else if hw.ctrl == 0 then Err("ADC module not enabled")
    else Ok(AdcHandle(chan))
  }

  /** The position of the first FIFO word tagged with `chan`, if any. */
  function FirstTagged(fifo: seq<u32>, chan: Chan): (k: Option<nat>)
    ensures k.Some? ==> k.value < |fifo| && Tag(fifo[k.value]) == chan
    ensures k.Some? ==> forall j :: 0 <= j < k.value ==> Tag(fifo[j]) != chan
    ensures k.None? <==> forall j :: 0 <= j < |fifo| ==> Tag(fifo[j]) != chan
    decreases |fifo|
  {
    if |fifo| == 0 then None
    else if Tag(fifo[0]) == chan then Some(0)
    else
      match FirstTagged(fifo[1..], chan)
      case None => None
      case Some(k) => Some(k + 1)
  }

  /** The state, the hardware and the returned delay after one poll. */
  datatype SampleOutcome = SampleOutcome(st: AdcState, hw: AdcHw, delay: u32)

  /** One non-blocking poll by handle `g`. From idle it claims the slot and
      starts the conversion of step `chan + 1`; while it owns the slot it
      drains the FIFO up to the first word tagged with its channel. */
  function Sample(st: AdcState, hw: AdcHw, g: AdcHandle): (r: SampleOutcome)
    ensures r.delay == 0 || r.delay == SAMPLE_DELAY
    ensures r.hw.ctrl == hw.ctrl
    // idle: claim, write one step-enable bit, wait
    ensures st.owner.None? ==>
      && r.st == st.(owner := Some(g.chan))
      && r.hw == hw.(stepEnableWrites := hw.stepEnableWrites + [Pow2(g.chan + 1)])
      && r.delay == SAMPLE_DELAY
    // owned by another channel: nothing is touched
    ensures st.owner.Some? && st.owner.value != g.chan ==>
      r == SampleOutcome(st, hw, SAMPLE_DELAY)
    // owned by this channel: ready exactly when a word for it is queued
    ensures st.owner == Some(g.chan) ==>
      && r.hw.stepEnableWrites == hw.stepEnableWrites
      && (r.delay == 0 <==> exists k :: 0 <= k < |hw.fifo| && Tag(hw.fifo[k]) == g.chan)
    ensures st.owner == Some(g.chan) && r.delay == 0 ==>
      exists k :: 0 <= k < |hw.fifo| && Tag(hw.fifo[k]) == g.chan
        && (forall j :: 0 <= j < k ==> Tag(hw.fifo[j]) != g.chan)
        && r.hw.fifo == hw.fifo[k + 1..]
        && r.st == AdcState(None, Low16(hw.fifo[k]))
    ensures st.owner == Some(g.chan) && r.delay != 0 ==>
      r.hw.fifo == [] && r.st == st
  {
    match st.owner
    case None =>
      SampleOutcome(
        st.(owner := Some(g.chan)),
        hw.(stepEnableWrites := hw.stepEnableWrites + [Pow2(g.chan + 1)]),
        SAMPLE_DELAY)
    case Some(last) =>
      if last != g.chan then SampleOutcome(st, hw, SAMPLE_DELAY)
      else
        match FirstTagged(hw.fifo, g.chan)
        case None => SampleOutcome(st, hw.(fifo := []), SAMPLE_DELAY)
        case Some(k) =>
          SampleOutcome(AdcState(None, Low16(hw.fifo[k])), hw.(fifo := hw.fifo[k + 1..]), 0)
  }

  /** `1 << n` computed in a 32-bit register. */
  function Pow2(n: nat): (r: u32)
    requires n < 32
  {
    ((1 as bv32) << n) as int
  }

  /** The poll written as the firmware writes it, with the FIFO drain as a
      loop that pops one word per iteration; it computes exactly `Sample`. */
  method SampleLoop(st: AdcState, hw: AdcHw, g: AdcHandle) returns (st': AdcState, hw': AdcHw, delay: u32)
    ensures SampleOutcome(st', hw', delay) == Sample(st, hw, g)
  {
    st', hw' := st, hw;
    if st.owner.None? {
      st' := st.(owner := Some(g.chan));
      hw' := hw.(stepEnableWrites := hw.stepEnableWrites + [Pow2(g.chan + 1)]);
      return st', hw', SAMPLE_DELAY;
    }
    if st.owner.value == g.chan {
      var popped := 0;
      while |hw'.fifo| != 0
        invariant 0 <= popped <= |hw.fifo|
        invariant hw' == hw.(fifo := hw.fifo[popped..])
        invariant forall j :: 0 <= j < popped ==> Tag(hw.fifo[j]) != g.chan
        invariant st' == st
        decreases |hw'.fifo|
      {
        var sample := hw'.fifo[0];
        hw' := hw'.(fifo := hw'.fifo[1..]);
        popped := popped + 1;
        if Tag(sample) == g.chan {
          st' := AdcState(None, Low16(sample));
          FirstTaggedIs(hw.fifo, g.chan, popped - 1);
          return st', hw', 0;
        }
      }
      FirstTaggedNone(hw.fifo, g.chan);
    }
    return st', hw', SAMPLE_DELAY;
  }

  lemma {:induction false} FirstTaggedIs(fifo: seq<u32>, chan: Chan, k: nat)
    requires k < |fifo| && Tag(fifo[k]) == chan
    requires forall j :: 0 <= j < k ==> Tag(fifo[j]) != chan
    ensures FirstTagged(fifo, chan) == Some(k)
  {
    var f := FirstTagged(fifo, chan);
    assert f.Some?;
    assert !(f.value < k);
    assert !(f.value > k);
  }

  lemma FirstTaggedNone(fifo: seq<u32>, chan: Chan)
    requires forall j :: 0 <= j < |fifo| ==> Tag(fifo[j]) != chan
    ensures FirstTagged(fifo, chan) == None
  {
  }

  /** The stored sample; every handle reads the same slot. */
  function Read(st: AdcState, g: AdcHandle): (v: u16)
  {
    st.lastSample
  }

  /** There is one sample slot, and the last ready poll wins: every handle
      reads the same value, and only a poll that reports ready replaces
      it; a poll still waiting and a cancel leave it as it was. */
  lemma ReadIsSharedSlot(st: AdcState, hw: AdcHw, g: AdcHandle, h: AdcHandle)
    ensures Read(st, g) == Read(st, h)
    ensures Sample(st, hw, g).delay != 0 ==> Read(Sample(st, hw, g).st, h) == Read(st, h)
    ensures Read(CancelSample(st, g), h) == Read(st, h)
  {
  }

  /** Releases the slot if, and only if, `g` owns it. */
  function CancelSample(st: AdcState, g: AdcHandle): (r: AdcState)
    ensures r.lastSample == st.lastSample
    ensures st.owner == Some(g.chan) ==> r.owner.None?
    ensures st.owner != Some(g.chan) ==> r == st
  {
    if st.owner == Some(g.chan) then st.(owner := None) else st
  }

  /** A poll that reports ready has stored the low 16 bits of the first
      FIFO word tagged for the poller, and any handle now reads it. */
  lemma ReadAfterReady(st: AdcState, hw: AdcHw, g: AdcHandle, other: AdcHandle)
    requires Sample(st, hw, g).delay == 0
    ensures st.owner == Some(g.chan)
    ensures
      var k := FirstTagged(hw.fifo, g.chan);
      k.Some? && Read(Sample(st, hw, g).st, other) == Low16(hw.fifo[k.value])
  {
  }

  /** A handle that does not own the slot cannot disturb the owner's
      pending conversion by cancelling: the owner's next poll is the same. */
  lemma CancelByOtherIsHarmless(st: AdcState, hw: AdcHw, owner: AdcHandle, other: AdcHandle)
    requires st.owner == Some(owner.chan) && other.chan != owner.chan
    ensures Sample(CancelSample(st, other), hw, owner) == Sample(st, hw, owner)
  {
  }

  /** Once a ready poll or a cancel by the owner frees the slot, the next
      poll by any channel starts a fresh conversion for that channel. */
  lemma FreedSlotRestarts(st: AdcState, hw: AdcHw, g: AdcHandle, next: AdcHandle)
    requires st.owner == Some(g.chan)
    ensures
      var c := CancelSample(st, g);
      Sample(c, hw, next).st.owner == Some(next.chan)
      && Sample(c, hw, next).hw.stepEnableWrites == hw.stepEnableWrites + [Pow2(next.chan + 1)]
  {
  }

  /** Exactly the pins 128..135 pass the channel check, whatever byte the
      caller passes: the 8-bit subtraction wraps the others out of range. */
  lemma SetupChannelRange(pin: u8)
    ensures W8(pin - ADC_PIN_BASE) < 8 <==> ADC_PIN_BASE <= pin < ADC_PIN_BASE + 8
  {
  }
}
