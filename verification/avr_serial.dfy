/** The AVR UART console: a 192-byte receive buffer and a 96-byte
    transmit buffer with 8-bit positions, serviced by the receive and
    data-register-empty interrupts. */
module AvrSerial {
  import opened Wrappers
  import opened MachineInts
  import SC = SerialConsole

  const RX_SIZE: nat := 192
  const TX_SIZE: nat := 96

  /** The receive interrupt: a byte is kept only below 192 stored bytes. */
  function RxIsr(rx: SC.Rx, data: u8): (r: SC.Rx)
    requires SC.RxValid(rx, RX_SIZE)
    ensures SC.RxValid(r, RX_SIZE) && r.pos <= 192
    ensures rx.pos < 192 ==> SC.Received(r) == SC.Received(rx) + [data]
    ensures rx.pos == 192 ==> r == rx
  {
    SC.RxByte(rx, data, RX_SIZE)
  }

  /** Bytes arriving while the buffer is full are dropped: of a burst of
      bytes only as many as fit are kept, in order. */
  lemma {:induction false} BurstKeepsPrefix(rx: SC.Rx, data: seq<u8>)
    requires SC.RxValid(rx, RX_SIZE)
    ensures var n := if |data| < RX_SIZE - rx.pos then |data| else RX_SIZE - rx.pos;
      SC.Received(RxAll(rx, data)) == SC.Received(rx) + data[..n]
    decreases |data|
  {
    if data != [] {
      var r1 := RxIsr(rx, data[0]);
      BurstKeepsPrefix(r1, data[1..]);
      if rx.pos < RX_SIZE {
        assert SC.Received(rx) + [data[0]] + data[1..][..(if |data| - 1 < RX_SIZE - r1.pos then |data| - 1 else RX_SIZE - r1.pos)]
            == SC.Received(rx) + data[..(if |data| < RX_SIZE - rx.pos then |data| else RX_SIZE - rx.pos)];
      }
    }
  }

  /** The receive interrupt run once per arriving byte. */
  function RxAll(rx: SC.Rx, data: seq<u8>): (r: SC.Rx)
    requires SC.RxValid(rx, RX_SIZE)
    ensures SC.RxValid(r, RX_SIZE)
    decreases |data|
  {
    if data == [] then rx else RxAll(RxIsr(rx, data[0]), data[1..])
  }

  /** The transmit interrupt: the next pending byte goes to the data
      register; with nothing pending the interrupt turns itself off. */
  function UdreIsr(tx: SC.Tx): (r: (SC.Tx, Option<u8>))
    requires SC.TxValid(tx, TX_SIZE)
    ensures SC.TxValid(r.0, TX_SIZE)
    ensures tx.pos < tx.max ==> r.1 == Some(tx.buf[tx.pos]) && r.0 == tx.(pos := tx.pos + 1)
    ensures tx.pos >= tx.max ==> r.1.None? && !r.0.irq
  {
    SC.TxReady(tx, TX_SIZE)
  }

  /** `console_pop_input` on the 192-byte buffer. */
  method PopInput(rx: SC.Rx, len: u8) returns (r: SC.Rx)
    requires SC.RxValid(rx, RX_SIZE) && len <= rx.pos
    ensures SC.RxValid(r, RX_SIZE) && r.pos == rx.pos - len
    ensures SC.Received(r) == SC.Received(rx)[len..]
  {
    r := SC.PopInput(rx, len, RX_SIZE);
  }

  /** `console_get_output` on the 96-byte buffer. */
  method GetOutput(tx: SC.Tx, len: u8) returns (r: SC.Tx, slot: Option<nat>)
    requires SC.TxValid(tx, TX_SIZE)
    ensures SC.TxValid(r, TX_SIZE) && SC.Pending(r) == SC.Pending(tx)
    ensures slot.None? <==> (tx.max - tx.pos) + len > 96
    ensures slot.Some? ==> slot.value == r.max && r.max + len <= 96
  {
    r, slot := SC.GetOutput(tx, len, TX_SIZE);
  }
}
