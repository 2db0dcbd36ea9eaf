/** Host-side extension of the microcontroller's 32-bit clock to 64 bits
    (`ClockSync` in klippy/clocksync.py). The frequency estimation, which
    is floating point, is not modelled; `_handle_status` is modelled up to
    the point where it decides whether to run it. */
module ClockSync {
  import opened MachineInts

  /** The 64-bit clock after `last` whose low 32 bits are `clock32`: the
      high bits of `last` are kept, and one 2^32 period is added when that
      would go backwards. */
  function Extend(last: nat, clock32: u32): (r: nat)
    ensures r % TWO_32 == clock32
    ensures last <= r < last + TWO_32
  {
    var clock := last - last % TWO_32 + clock32;
    if clock < last then clock + TWO_32 else clock
  }

  /** Extension is the identity on a clock that already extends `last`,
      and it never goes backwards: the only clock in the window. */
  lemma {:induction false} ExtendUnique(last: nat, v: nat)
    requires last <= v < last + TWO_32
    ensures Extend(last, v % TWO_32) == v
  {
    var r := Extend(last, v % TWO_32);
    assert (r - v) % TWO_32 == 0;
    assert -TWO_32 < r - v < TWO_32;
  }

  datatype ClockState = ClockState(lastClock: nat)

  /** `_handle_status`: records the extended clock; the returned flag says
      whether the round-trip and frequency estimate update runs, which it
      does only for a response with a nonzero send time. */
  function HandleStatus(s: ClockState, clock32: u32, sentTime: nat): (r: (ClockState, bool))
    ensures r.0.lastClock % TWO_32 == clock32
    ensures s.lastClock <= r.0.lastClock < s.lastClock + TWO_32
    ensures r.1 <==> sentTime != 0
  {
    (ClockState(Extend(s.lastClock, clock32)), sentTime != 0)
  }

  /** `clock32_to_clock64`: the 64-bit clock with low bits `clock32`
      nearest to `last`, up to 2^31 before or after it (ties after). */
  function Clock32To64(last: nat, clock32: u32): (r: int)
    ensures r % TWO_32 == clock32
    ensures last - TWO_31 < r <= last + TWO_31
  {
    var diff := (last - clock32) % TWO_32;
    if diff >= TWO_31 then last + TWO_32 - diff else last - diff
  }

  /** Any clock in that window is recovered from its low bits. */
  lemma {:induction false} Clock32To64Unique(last: nat, v: int)
    requires last - TWO_31 < v <= last + TWO_31
    ensures Clock32To64(last, v % TWO_32) == v
  {
    var r := Clock32To64(last, v % TWO_32);
    assert (r - v) % TWO_32 == 0;
    assert -TWO_32 < r - v < TWO_32;
  }
}
