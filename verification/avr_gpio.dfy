/** GPIO, PWM and ADC setup on the AVR ATmega parts.

    Pin numbers are `port * 8 + bit` with port 0 = 'A'. Each port is a
    block of three 8-bit registers: the input register, the data
    direction ("mode") register and the output register. The chip
    variant selects the port, PWM and ADC tables. */
module AvrGpio {
  import opened Wrappers
  import opened MachineInts

  datatype Mach = Atmega168 | Atmega644p | Atmega1280  // the 2560 shares the 1280 tables

  /** `GPIO(PORT, NUM)` */
  function Gpio(port: char, num: nat): int {
    (port as int - 'A' as int) * 8 + num
  }

  /** A table entry `GPIO(PORT, NUM)`, which fits a byte. */
  function Pin(port: char, num: nat): u8
    requires 'A' <= port <= 'L' && num < 8
  {
    Gpio(port, num)
  }

  /** `GPIO2PORT(PIN)` */
  function GpioPort(pin: u8): nat {
    pin / 8
  }

  /** `GPIO2BIT(PIN)`, an 8-bit mask. */
  function GpioBit(pin: u8): bv8 {
    (1 as bv8) << (pin % 8)
  }

  /** The pin number names the port and the bit it was built from. */
  lemma GpioRoundTrip(port: char, num: nat)
    requires 'A' <= port <= 'L' && num < 8
    ensures 0 <= Gpio(port, num) < TWO_8
    ensures GpioPort(Gpio(port, num) as u8) == port as int - 'A' as int
    ensures GpioBit(Gpio(port, num) as u8) == (1 as bv8) << num
  {
  }

  /** Every pin has exactly one bit of its port: the masks of distinct
      pins on one port are disjoint and non-zero. */
  lemma {:induction false} GpioBitsDistinct(p: u8, q: u8)
    requires GpioPort(p) == GpioPort(q) && p != q
    ensures GpioBit(p) != 0 && GpioBit(p) & GpioBit(q) == 0
  {
    assert p % 8 != q % 8;
    var a: bv8 := (p % 8) as bv8;
    var b: bv8 := (q % 8) as bv8;
    assert GpioBit(p) == (1 as bv8) << a;
    assert GpioBit(q) == (1 as bv8) << b;
  }

  /** `digital_regs`: which port indices have a register block. */
  function DigitalRegs(m: Mach): seq<bool> {
    match m
    case Atmega168 => [false, true, true, true]
    case Atmega644p => [true, true, true, true]
    case Atmega1280 => [true, true, true, true, true, true, true, true, false, true, true, true]
  }

  /** One port's registers: PINx, DDRx and PORTx. */
  datatype PortRegs = PortRegs(input: bv8, mode: bv8, output: bv8)

  datatype GpioOut = GpioOut(port: nat, bit: bv8)
  datatype GpioIn = GpioIn(port: nat, bit: bv8)

  /** The port bound check as the source writes it: a pin is rejected
      only when its port index is greater than the table size. */
  predicate PortInRangeAsWritten(pin: u8, m: Mach) {
    !(GpioPort(pin) > |DigitalRegs(m)|)
  }

  /** The bound the table lookup needs. */
  predicate PortInRange(pin: u8, m: Mach) {
    GpioPort(pin) < |DigitalRegs(m)|
  }

  /** The first pin of the port just past the table passes the check as
      written, yet its port index is outside the table. */
  lemma PortCheckOffByOne(m: Mach)
    ensures var pin := (8 * |DigitalRegs(m)|) as u8;
      PortInRangeAsWritten(pin, m) && !PortInRange(pin, m)
  {
  }

  /** The check as written admits the corrected range plus exactly the
      eight pins of the port just past the table; the corrected check
      drops that one port and nothing else. */
  lemma PortCheckSound(pin: u8, m: Mach)
    ensures PortInRangeAsWritten(pin, m) <==>
      PortInRange(pin, m) || 8 * |DigitalRegs(m)| <= pin as int < 8 * |DigitalRegs(m)| + 8
    ensures PortInRange(pin, m) <==> PortInRangeAsWritten(pin, m) && GpioPort(pin) != |DigitalRegs(m)|
  {
  }

  /** `val ? (reg | bit) : (reg & ~bit)` */
  function SetBit(reg: bv8, bit: bv8, on: bool): (r: bv8)
    ensures r & bit == (if on then bit else 0)
    ensures r & !bit == reg & !bit
  {
    if on then reg | bit else reg & !bit
  }

  /** `reg | mask`: the mask's bits set, every other bit kept. */
  function SetMask(reg: bv8, mask: bv8): (r: bv8)
    ensures r & mask == mask
    ensures r & !mask == reg & !mask
  {
    reg | mask
  }

  /** Configures a pin as an output driven to `val`. */
  function OutSetup(m: Mach, regs: seq<PortRegs>, pin: u8, val: u8): (r: Result<(GpioOut, seq<PortRegs>)>)
    requires |regs| == |DigitalRegs(m)|
    ensures r.Ok? <==> PortInRange(pin, m) && DigitalRegs(m)[GpioPort(pin)]
    ensures r.Err? ==> r.msg == "Not an output pin"
    ensures r.Ok? ==>
      var (g, regs') := r.value;
      && g == GpioOut(GpioPort(pin), GpioBit(pin))
      && regs' == regs[g.port := PortRegs(regs[g.port].input,
                                           regs[g.port].mode | g.bit,
                                           SetBit(regs[g.port].output, g.bit, val != 0))]
  {
    if !PortInRange(pin, m) || !DigitalRegs(m)[GpioPort(pin)] then Err("Not an output pin")
    else
      var p := GpioPort(pin);
      var bit := GpioBit(pin);
      var pr := regs[p];
      Ok((GpioOut(p, bit), regs[p := PortRegs(pr.input, pr.mode | bit, SetBit(pr.output, bit, val != 0))]))
  }

  /** Drives an output pin: the output register with the pin's bit
      replaced. */
  function OutWrite(p: PortRegs, g: GpioOut, val: int): (r: PortRegs)
    ensures r.input == p.input && r.mode == p.mode
  {
    p.(output := SetBit(p.output, g.bit, val != 0))
  }

  /** Writing an output pin sets its bit exactly when `val` is nonzero and
      leaves every other bit of the port unchanged. */
  lemma OutWriteOnlyItsBit(p: PortRegs, g: GpioOut, val: int)
    ensures OutWrite(p, g, val).output & g.bit == (if val != 0 then g.bit else 0)
    ensures OutWrite(p, g, val).output & !g.bit == p.output & !g.bit
  {
  }

  /** Configures a pin as an input, with the pull-up enabled when
      `pullUp > 0`. */
  function InSetup(m: Mach, regs: seq<PortRegs>, pin: u8, pullUp: int): (r: Result<(GpioIn, seq<PortRegs>)>)
    requires |regs| == |DigitalRegs(m)|
    ensures r.Ok? <==> PortInRange(pin, m) && DigitalRegs(m)[GpioPort(pin)]
    ensures r.Err? ==> r.msg == "Not an input pin"
    ensures r.Ok? ==>
      var (g, regs') := r.value;
      && g == GpioIn(GpioPort(pin), GpioBit(pin))
      && regs' == regs[g.port := PortRegs(regs[g.port].input,
                                           SetBit(regs[g.port].mode, g.bit, false),
                                           SetBit(regs[g.port].output, g.bit, pullUp > 0))]
      && regs'[g.port].mode & g.bit == 0
      && regs'[g.port].output & g.bit == (if pullUp > 0 then g.bit else 0)
  {
    if !PortInRange(pin, m) || !DigitalRegs(m)[GpioPort(pin)] then Err("Not an input pin")
    else
      var p := GpioPort(pin);
      var bit := GpioBit(pin);
      var pr := regs[p];
      Ok((GpioIn(p, bit), regs[p := PortRegs(pr.input, SetBit(pr.mode, bit, false), SetBit(pr.output, bit, pullUp > 0))]))
  }

  /** `!!(in & bit)`: 1 when the pin's input bit is set, 0 otherwise. */
  function InRead(p: PortRegs, g: GpioIn): (v: u8)
    ensures v == 0 || v == 1
    ensures v == 1 <==> p.input & g.bit != 0
  {
    if p.input & g.bit != 0 then 1 else 0
  }

  // ---------------------------------------------------------------- PWM

  const GP_8BIT: bv8 := 1
  const GP_AFMT: bv8 := 2

  /** One `pwm_regs` row: the timer n, the compare channel (0, 1, 2 for
      A, B, C: the row's OCRnx and COMnx1 bit), the pin and the flags. */
  datatype PwmInfo = PwmInfo(timer: nat, chan: nat, pin: u8, flags: bv8)

  function PwmRegs(m: Mach): seq<PwmInfo> {
    match m
    case Atmega168 => [
      PwmInfo(0, 0, Pin('D', 6), GP_8BIT), PwmInfo(0, 1, Pin('D', 5), GP_8BIT),
      PwmInfo(2, 0, Pin('B', 3), GP_8BIT | GP_AFMT), PwmInfo(2, 1, Pin('D', 3), GP_8BIT | GP_AFMT)]
    case Atmega644p => [
      PwmInfo(0, 0, Pin('B', 3), GP_8BIT), PwmInfo(0, 1, Pin('B', 4), GP_8BIT),
      PwmInfo(2, 0, Pin('D', 7), GP_8BIT | GP_AFMT), PwmInfo(2, 1, Pin('D', 6), GP_8BIT | GP_AFMT)]
    case Atmega1280 => [
      PwmInfo(0, 0, Pin('B', 7), GP_8BIT), PwmInfo(0, 1, Pin('G', 5), GP_8BIT),
      PwmInfo(2, 0, Pin('B', 4), GP_8BIT | GP_AFMT), PwmInfo(2, 1, Pin('H', 6), GP_8BIT | GP_AFMT),
      PwmInfo(3, 0, Pin('E', 3), 0), PwmInfo(3, 1, Pin('E', 4), 0), PwmInfo(3, 2, Pin('E', 5), 0),
      PwmInfo(4, 0, Pin('H', 3), 0), PwmInfo(4, 1, Pin('H', 4), 0), PwmInfo(4, 2, Pin('H', 5), 0),
      PwmInfo(5, 0, Pin('L', 3), 0), PwmInfo(5, 1, Pin('L', 4), 0), PwmInfo(5, 2, Pin('L', 5), 0)]
  }

  /** `1 << WGMn0`, bit 0 of TCCRnA. */
  const WGM0: bv8 := 1

  /** `1 << COMnx1` for the compare channels A, B and C: bits 7, 5 and 3
      of TCCRnA. */
  function EnBit(chan: nat): bv8 {
    if chan == 0 then 0x80 else if chan == 1 then 0x20 else 0x08
  }

  /** The upper cycle-time bounds of the prescaler buckets, in ticks. */
  function AfmtLimits(): seq<int> {
    [8 * 510, 32 * 510, 64 * 510, 128 * 510, 256 * 510, 1024 * 510]
  }

  function PlainLimits(): seq<int> {
    [8 * 510, 64 * 510, 256 * 510, 1024 * 510]
  }

  /** The clock-select value the switch statements choose. */
  function Prescaler(flags: bv8, cycleTime: u32): (cs: int)
    ensures flags & GP_AFMT != 0 ==> 1 <= cs <= 7
    ensures flags & GP_AFMT == 0 ==> 1 <= cs <= 5
  {
    if flags & GP_AFMT != 0 then
      if cycleTime < 8 * 510 then 1
      else if cycleTime < 32 * 510 then 2
      else if cycleTime < 64 * 510 then 3
      else if cycleTime < 128 * 510 then 4
      else if cycleTime < 256 * 510 then 5
      else if cycleTime < 1024 * 510 then 6
      else 7
    else
      if cycleTime < 8 * 510 then 1
      else if cycleTime < 64 * 510 then 2
      else if cycleTime < 256 * 510 then 3
      else if cycleTime < 1024 * 510 then 4
      else 5
  }

  /** How many bucket bounds lie at or below `t`. */
  function CountAtMost(limits: seq<int>, t: int): nat {
    if |limits| == 0 then 0
    else (if limits[0] <= t then 1 else 0) + CountAtMost(limits[1..], t)
  }

  /** The prescaler is one more than the number of bucket bounds the cycle
      time has reached: a step function over the listed multiples of 510. */
  lemma {:induction false} PrescalerIsBucket(flags: bv8, cycleTime: u32)
    ensures Prescaler(flags, cycleTime) ==
      1 + CountAtMost(if flags & GP_AFMT != 0 then AfmtLimits() else PlainLimits(), cycleTime)
  {
    var t: int := cycleTime;
    if flags & GP_AFMT != 0 {
      BucketCount(AfmtLimits(), t);
    } else {
      BucketCount(PlainLimits(), t);
    }
  }

  /** Over increasing bounds the count picks out the bucket of `t`. */
  lemma {:induction false} BucketCount(l: seq<int>, t: int)
    requires forall i, j :: 0 <= i < j < |l| ==> l[i] < l[j]
    ensures var c := CountAtMost(l, t);
      c <= |l| && (c > 0 ==> l[c - 1] <= t) && (c < |l| ==> t < l[c])
  {
    CountAtMostSorted(l, t);
  }

  /** Over increasing bounds, the count is the index of the first bound
      above `t`. */
  lemma {:induction false} CountAtMostSorted(limits: seq<int>, t: int)
    requires forall i, j :: 0 <= i < j < |limits| ==> limits[i] < limits[j]
    ensures CountAtMost(limits, t) <= |limits|
    ensures forall i :: 0 <= i < CountAtMost(limits, t) ==> limits[i] <= t
    ensures CountAtMost(limits, t) < |limits| ==> t < limits[CountAtMost(limits, t)]
    decreases |limits|
  {
    if |limits| > 0 {
      CountAtMostSorted(limits[1..], t);
      if limits[0] > t {
        CountAtMostNone(limits[1..], t);
      }
    }
  }

  lemma {:induction false} CountAtMostNone(limits: seq<int>, t: int)
    requires forall i :: 0 <= i < |limits| ==> t < limits[i]
    ensures CountAtMost(limits, t) == 0
    decreases |limits|
  {
    if |limits| > 0 {
      CountAtMostNone(limits[1..], t);
    }
  }

  /** A longer cycle never selects a faster clock. */
  lemma PrescalerMonotone(flags: bv8, a: u32, b: u32)
    requires a <= b
    ensures Prescaler(flags, a) <= Prescaler(flags, b)
  {
  }

  /** Every table row names one of the timers 0..5 and one of its three
      compare channels, on a pin whose port has a register block. */
  lemma PwmTimersExist(m: Mach)
    ensures forall i :: 0 <= i < |PwmRegs(m)| ==> PwmRegs(m)[i].timer < 6 && PwmRegs(m)[i].chan < 3
    ensures forall i :: 0 <= i < |PwmRegs(m)| ==> PortInRange(PwmRegs(m)[i].pin, m)
    ensures forall i :: 0 <= i < |PwmRegs(m)| ==> DigitalRegs(m)[GpioPort(PwmRegs(m)[i].pin)]
  {
  }

  /** The handle: the timer and channel of its OCRnx register and whether
      that register is 8 bits wide. */
  datatype GpioPwm = GpioPwm(timer: nat, chan: nat, size8: bool)

  /** The registers PWM setup touches: TCCRnA and TCCRnB of each timer,
      the OCRnx compare registers by timer and channel, and the ports. */
  datatype PwmHw = PwmHw(tccra: seq<bv8>, tccrb: seq<bv8>, ocr: map<(nat, nat), int>, ports: seq<PortRegs>)

  /** The first table row for `pin`, if any. */
  function FindPwm(table: seq<PwmInfo>, pin: u8): (k: Option<nat>)
    ensures k.Some? ==> k.value < |table| && table[k.value].pin == pin
    ensures k.Some? ==> forall j :: 0 <= j < k.value ==> table[j].pin != pin
    ensures k.None? ==> forall j :: 0 <= j < |table| ==> table[j].pin != pin
  {
    if |table| == 0 then None
    else if table[0].pin == pin then Some(0)
    else match FindPwm(table[1..], pin)
      case None => None
      case Some(k) => Some(k + 1)
  }

  /** The output half of the setup: the compare register takes `val`,
      TCCRnA gains the fast-PWM bit and the row's compare-output enable
      with its other bits kept, and the pin becomes an output; no other
      timer, compare register, port or bit changes. */
  function PwmOutput(hw: PwmHw, p: PwmInfo, val: u8): (hw': PwmHw)
    requires p.timer < |hw.tccra| && GpioPort(p.pin) < |hw.ports|
    ensures
      var en := WGM0 | EnBit(p.chan);
      var port, bit := GpioPort(p.pin), GpioBit(p.pin);
      && hw'.tccrb == hw.tccrb
      && hw'.tccra == hw.tccra[p.timer := SetMask(hw.tccra[p.timer], en)]
      && hw'.ocr == hw.ocr[(p.timer, p.chan) := val as int]
      && hw'.ports == hw.ports[port := hw.ports[port].(mode := SetBit(hw.ports[port].mode, bit, true))]
  {
    var en := WGM0 | EnBit(p.chan);
    var port, bit := GpioPort(p.pin), GpioBit(p.pin);
    var pr := hw.ports[port];
    PwmHw(hw.tccra[p.timer := SetMask(hw.tccra[p.timer], en)],
          hw.tccrb,
          hw.ocr[(p.timer, p.chan) := val as int],
          hw.ports[port := pr.(mode := SetBit(pr.mode, bit, true))])
  }

  /** Programs one table row's timer and output: the clock select (the
      low three bits of TCCRnB) takes the prescaler for `cycleTime`,
      unless the timer already runs at a different nonzero one; then the
      output is enabled as `PwmOutput` states. */
  function PwmProgram(hw: PwmHw, p: PwmInfo, cycleTime: u32, val: u8): (r: Result<(GpioPwm, PwmHw)>)
    requires p.timer < |hw.tccra| && p.timer < |hw.tccrb| && GpioPort(p.pin) < |hw.ports|
    ensures r.Err? <==>
      hw.tccrb[p.timer] & 7 != 0 && (hw.tccrb[p.timer] & 7) as int != Prescaler(p.flags, cycleTime)
    ensures r.Err? ==> r.msg == "PWM already programmed at different speed"
    ensures r.Ok? ==>
      && r.value.0 == GpioPwm(p.timer, p.chan, p.flags & GP_8BIT != 0)
      && r.value.1.tccrb == hw.tccrb[p.timer := Prescaler(p.flags, cycleTime) as bv8]
      && r.value.1 == PwmOutput(hw.(tccrb := r.value.1.tccrb), p, val)
  {
    var cs := Prescaler(p.flags, cycleTime);
    var oldCs := hw.tccrb[p.timer] & 7;
    if oldCs != 0 && oldCs as int != cs then Err("PWM already programmed at different speed")
    else Ok((GpioPwm(p.timer, p.chan, p.flags & GP_8BIT != 0), PwmOutput(hw.(tccrb := hw.tccrb[p.timer := cs as bv8]), p, val)))
  }

  /** `gpio_pwm_setup`: the first table row for the pin is programmed; a
      pin without a row is rejected. */
  function PwmSetup(m: Mach, hw: PwmHw, pin: u8, cycleTime: u32, val: u8): (r: Result<(GpioPwm, PwmHw)>)
    requires |hw.tccra| == 6 && |hw.tccrb| == 6 && |hw.ports| == |DigitalRegs(m)|
    ensures FindPwm(PwmRegs(m), pin).None? ==> r == Err("Not a valid PWM pin")
    ensures FindPwm(PwmRegs(m), pin).Some? ==>
      var p := PwmRegs(m)[FindPwm(PwmRegs(m), pin).value];
      p.pin == pin && p.timer < 6 && GpioPort(pin) < |hw.ports|
      && r == PwmProgram(hw, p, cycleTime, val)
  {
    match FindPwm(PwmRegs(m), pin)
    case None => Err("Not a valid PWM pin")
    case Some(k) =>
      PwmTimersExist(m);
      PwmProgram(hw, PwmRegs(m)[k], cycleTime, val)
  }

  /** Two pins of one timer can both be set up only with cycle times in
      the same prescaler bucket. */
  lemma {:induction false} SharedTimerSameSpeed(hw: PwmHw, p1: PwmInfo, t1: u32, v1: u8, p2: PwmInfo, t2: u32, v2: u8)
    requires p1.timer == p2.timer < |hw.tccrb| && p1.timer < |hw.tccra|
    requires GpioPort(p1.pin) < |hw.ports| && GpioPort(p2.pin) < |hw.ports|
    requires PwmProgram(hw, p1, t1, v1).Ok?
    requires PwmProgram(PwmProgram(hw, p1, t1, v1).value.1, p2, t2, v2).Ok?
    ensures Prescaler(p1.flags, t1) == Prescaler(p2.flags, t2)
  {
    var cs1 := Prescaler(p1.flags, t1);
    var hw1 := PwmProgram(hw, p1, t1, v1).value.1;
    assert hw1.tccrb[p1.timer] == cs1 as bv8;
    assert (cs1 as bv8) & 7 == cs1 as bv8;
  }

  // ---------------------------------------------------------------- ADC

  function AdcPins(m: Mach): seq<u8> {
    match m
    case Atmega168 => [
      Pin('C', 0), Pin('C', 1), Pin('C', 2), Pin('C', 3),
      Pin('C', 4), Pin('C', 5), Pin('E', 0), Pin('E', 1)]
    case Atmega644p => [
      Pin('A', 0), Pin('A', 1), Pin('A', 2), Pin('A', 3),
      Pin('A', 4), Pin('A', 5), Pin('A', 6), Pin('A', 7)]
    case Atmega1280 => [
      Pin('F', 0), Pin('F', 1), Pin('F', 2), Pin('F', 3),
      Pin('F', 4), Pin('F', 5), Pin('F', 6), Pin('F', 7),
      Pin('K', 0), Pin('K', 1), Pin('K', 2), Pin('K', 3),
      Pin('K', 4), Pin('K', 5), Pin('K', 6), Pin('K', 7)]
  }

  datatype GpioAdc = GpioAdc(chan: nat)

  /** The converter's control registers setup writes: ADCSRA and the
      digital-input disable registers DIDR0 and DIDR2. */
  datatype AdcCtl = AdcCtl(adcsra: bv8, didr0: bv8, didr2: bv8)

  /** `(1<<ADPS0)|(1<<ADPS1)|(1<<ADPS2)|(1<<ADEN)`: the clock divider 128
      (bits 0..2) and the enable (bit 7). */
  const ADC_ENABLE: bv8 := 0x87

  /** Only the ATmega1280/2560 have DIDR2, for the channels 8..15. */
  predicate HasDidr2(m: Mach) {
    m == Atmega1280
  }

  /** The register writes of a setup for channel `chan`: ADCSRA gains the
      enable and divider bits with its other bits kept, and the channel's
      bit (`chan & 0x07`) is set in DIDR2 for the channels 8..15 of a chip
      that has it and in DIDR0 otherwise, the other register kept. */
  function AdcEnable(m: Mach, ctl: AdcCtl, chan: nat): (r: AdcCtl)
    ensures r.adcsra == SetMask(ctl.adcsra, ADC_ENABLE)
    ensures var bit := (1 as bv8) << (chan % 8);
      if HasDidr2(m) && chan >= 8
      then r.didr2 == ctl.didr2 | bit && r.didr0 == ctl.didr0
      else r.didr0 == ctl.didr0 | bit && r.didr2 == ctl.didr2
  {
    // Below 8, `chan & 0x07` and `chan` are the same shift.
    var bit := (1 as bv8) << (chan % 8);
    var adcsra := SetMask(ctl.adcsra, ADC_ENABLE);
    if HasDidr2(m) && chan >= 8 then AdcCtl(adcsra, ctl.didr0, ctl.didr2 | bit)
    else AdcCtl(adcsra, ctl.didr0 | bit, ctl.didr2)
  }

  /** The ADC channel of a pin is its index in the chip's ADC pin table;
      setup enables the converter and disables the pin's digital input. */
  function AdcSetup(m: Mach, ctl: AdcCtl, pin: u8): (r: Result<(GpioAdc, AdcCtl)>)
    ensures r.Ok? <==> pin in AdcPins(m)
    ensures r.Err? ==> r.msg == "Not a valid ADC pin"
    ensures r.Ok? ==>
      && r.value.0.chan < |AdcPins(m)| && AdcPins(m)[r.value.0.chan] == pin
      && r.value.1 == AdcEnable(m, ctl, r.value.0.chan)
  {
    if pin !in AdcPins(m) then Err("Not a valid ADC pin")
    else
      var chan := IndexOfPin(AdcPins(m), pin);
      Ok((GpioAdc(chan), AdcEnable(m, ctl, chan)))
  }

  function IndexOfPin(pins: seq<u8>, pin: u8): (k: nat)
    requires pin in pins
    ensures k < |pins| && pins[k] == pin && forall j :: 0 <= j < k ==> pins[j] != pin
  {
    if pins[0] == pin then 0 else 1 + IndexOfPin(pins[1..], pin)
  }

  /** Distinct table entries give distinct channels: no two pins share a
      channel of the converter. */
  lemma {:induction false} AdcPinsDistinct(m: Mach, i: nat, j: nat)
    requires i < j < |AdcPins(m)|
    ensures AdcPins(m)[i] != AdcPins(m)[j]
  {
    AdcPinsIncreasing(m, i);
    AdcPinsIncreasing(m, j);
  }

  /** Each table lists its pins in increasing order: an offset plus the
      index, the offset growing where the table moves to the next port. */
  lemma {:induction false} AdcPinsIncreasing(m: Mach, i: nat)
    requires i < |AdcPins(m)|
    ensures AdcPins(m)[i] == match m
      case Atmega168 => if i < 6 then 16 + i else 26 + i
      case Atmega644p => i
      case Atmega1280 => if i < 8 then 40 + i else 72 + i
  {
    var pins := AdcPins(m);
    match m
    case Atmega168 =>
      assert pins == [16, 17, 18, 19, 20, 21, 32, 33];
    case Atmega644p =>
      assert pins == [0, 1, 2, 3, 4, 5, 6, 7];
    case Atmega1280 =>
      assert pins == [40, 41, 42, 43, 44, 45, 46, 47, 80, 81, 82, 83, 84, 85, 86, 87];
  }

  /** The time one conversion takes, in ticks. */
  const ADC_SAMPLE_TIME: int := (13 + 1) * 128 + 200
  const ADMUX_DEFAULT: bv8 := 0x40

  /** The converter's registers: ADSC (busy), ADMUX and the MUX5 bit. */
  datatype AdcRegs = AdcRegs(busy: bool, admux: bv8, mux5: bool)

  /** `last_analog_read`; None plays the role of ADC_DUMMY. */
  datatype AvrAdcState = AvrAdcState(owner: Option<nat>)

  /** One poll: 0 means the caller's conversion is complete, 1 means
      try again. */
  function AdcSample(st: AvrAdcState, hw: AdcRegs, g: GpioAdc): (r: (AvrAdcState, AdcRegs, u8))
    requires g.chan < 16
    ensures r.2 == 0 || r.2 == 1
    ensures hw.busy ==> r == (st, hw, 1)
    ensures !hw.busy && st.owner == Some(g.chan) ==> r == (st, hw, 0)
    ensures !hw.busy && st.owner.Some? && st.owner.value != g.chan ==> r == (st, hw, 1)
    ensures !hw.busy && st.owner.None? ==>
      && r.0.owner == Some(g.chan) && r.1.busy && r.2 == 1
      && MuxChannel(r.1) == g.chan
  {
    if hw.busy then (st, hw, 1)
    else if st.owner == Some(g.chan) then (st, hw, 0)
    else if st.owner.Some? then (st, hw, 1)
    else
      var hw' := AdcRegs(true, ADMUX_DEFAULT | ((g.chan % 8) as bv8), (g.chan / 8) % 2 == 1);
      (AvrAdcState(Some(g.chan)), hw', 1)
  }

  /** The channel the multiplexer selects: bits 0..2 of ADMUX and MUX5
      as bit 3. */
  function MuxChannel(hw: AdcRegs): nat {
    (hw.admux & 7) as nat + (if hw.mux5 then 8 else 0)
  }

  /** Starting a conversion keeps the reference-voltage bits of ADMUX at
      their default. */
  lemma {:induction false} MuxKeepsReference(st: AvrAdcState, hw: AdcRegs, g: GpioAdc)
    requires g.chan < 16 && !hw.busy && st.owner.None?
    ensures AdcSample(st, hw, g).1.admux & !7 == ADMUX_DEFAULT
  {
    var low := (g.chan % 8) as bv8;
    assert low & !7 == 0;
  }

  /** Releases the slot only if `g` claimed it. */
  function AdcClearSample(st: AvrAdcState, g: GpioAdc): (r: AvrAdcState)
    ensures st.owner == Some(g.chan) ==> r.owner.None?
    ensures st.owner != Some(g.chan) ==> r == st
  {
    if st.owner == Some(g.chan) then AvrAdcState(None) else st
  }

  /** Reading the result always releases the slot, whoever owned it. */
  function AdcRead(st: AvrAdcState, adc: u16, g: GpioAdc): (r: (AvrAdcState, u16))
    ensures r.0.owner.None? && r.1 == adc
  {
    (AvrAdcState(None), adc)
  }

  /** The polling protocol: from idle, a poll by `g` claims the converter;
      once the hardware finishes, the next poll by `g` reports ready and a
      read frees the slot for anyone. */
  lemma AdcProtocol(hw: AdcRegs, g: GpioAdc, adc: u16)
    requires g.chan < 16 && !hw.busy
    ensures
      var (s1, hw1, r1) := AdcSample(AvrAdcState(None), hw, g);
      var (s2, hw2, r2) := AdcSample(s1, hw1.(busy := false), g);
      r1 == 1 && r2 == 0 && AdcRead(s2, adc, g) == (AvrAdcState(None), adc)
  {
  }
}
