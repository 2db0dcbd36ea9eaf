/** The SAM3X8E UART console: 96-byte receive and transmit buffers and a
    single interrupt handler that serves either direction. */
module Sam3xSerial {
  import opened Wrappers
  import opened MachineInts
  import SC = SerialConsole

  const SERIAL_BUFFER_SIZE: nat := 96

  /** Both buffers of the console. */
  datatype Uart = Uart(rx: SC.Rx, tx: SC.Tx)

  predicate Valid(u: Uart) {
    SC.RxValid(u.rx, SERIAL_BUFFER_SIZE) && SC.TxValid(u.tx, SERIAL_BUFFER_SIZE)
  }

  /** `UART_Handler` with the status register's receive-ready and
      transmit-ready bits: a received byte is served first and alone
      (kept only below 96 stored bytes); otherwise a transmit-ready
      interrupt sends the next pending byte or disables itself. */
  function UartHandler(u: Uart, rxReady: bool, txReady: bool, rhr: u8): (r: (Uart, Option<u8>))
    requires Valid(u)
    ensures Valid(r.0)
    ensures rxReady ==> r.0.tx == u.tx && r.1.None?
    ensures rxReady && u.rx.pos < 96 ==> SC.Received(r.0.rx) == SC.Received(u.rx) + [rhr]
    ensures rxReady && u.rx.pos >= 96 ==> r.0 == u
    ensures !rxReady && txReady ==> r.0.rx == u.rx && (r.0.tx, r.1) == SC.TxReady(u.tx, SERIAL_BUFFER_SIZE)
    ensures !rxReady && !txReady ==> r == (u, None)
  {
    if rxReady then (u.(rx := SC.RxByte(u.rx, rhr, SERIAL_BUFFER_SIZE)), None)
    else if txReady then
      var (tx, out) := SC.TxReady(u.tx, SERIAL_BUFFER_SIZE);
      (u.(tx := tx), out)
    else (u, None)
  }

  /** With both bits set the transmitter waits: the byte to send stays
      pending until an interrupt without a received byte. */
  lemma ReceiveHasPriority(u: Uart, rhr: u8)
    requires Valid(u)
    ensures SC.Pending(UartHandler(u, true, true, rhr).0.tx) == SC.Pending(u.tx)
  {
  }

  /** `console_pop_input` on the 96-byte buffer. */
  method PopInput(rx: SC.Rx, len: u8) returns (r: SC.Rx)
    requires SC.RxValid(rx, SERIAL_BUFFER_SIZE) && len <= rx.pos
    ensures SC.RxValid(r, SERIAL_BUFFER_SIZE) && r.pos == rx.pos - len
    ensures SC.Received(r) == SC.Received(rx)[len..]
  {
    r := SC.PopInput(rx, len, SERIAL_BUFFER_SIZE);
  }

  /** `console_get_output` on the 96-byte buffer. */
  method GetOutput(tx: SC.Tx, len: u8) returns (r: SC.Tx, slot: Option<nat>)
    requires SC.TxValid(tx, SERIAL_BUFFER_SIZE)
    ensures SC.TxValid(r, SERIAL_BUFFER_SIZE) && SC.Pending(r) == SC.Pending(tx)
    ensures slot.None? <==> (tx.max - tx.pos) + len > 96
    ensures slot.Some? ==> slot.value == r.max && r.max + len <= 96
  {
    r, slot := SC.GetOutput(tx, len, SERIAL_BUFFER_SIZE);
  }
}
