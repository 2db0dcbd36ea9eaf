/** The console of AVR chips with built-in USB: a 64-byte receive buffer
    filled by polling the USB serial driver and drained by the command
    parser in the console task. */
module AvrUsbSerial {
  import opened Wrappers
  import opened MachineInts
  import SC = SerialConsole

  const USBSERIAL_BUFFER_SIZE: nat := 64

  /** `console_check_input`: reads characters from the driver (`avail`,
      the characters it has ready) until the buffer is full or none is
      left; the unread characters stay with the driver. */
  function CheckInput(rx: SC.Rx, avail: seq<u8>): (r: (SC.Rx, seq<u8>))
    requires SC.RxValid(rx, USBSERIAL_BUFFER_SIZE)
    ensures SC.RxValid(r.0, USBSERIAL_BUFFER_SIZE)
    ensures SC.Received(r.0) + r.1 == SC.Received(rx) + avail
    ensures r.0.pos == USBSERIAL_BUFFER_SIZE || r.1 == []
    decreases |avail|
  {
    if rx.pos >= USBSERIAL_BUFFER_SIZE || avail == [] then (rx, avail)
    else
      var rx1 := SC.RxByte(rx, avail[0], USBSERIAL_BUFFER_SIZE);
      var r := CheckInput(rx1, avail[1..]);
      assert SC.Received(rx1) + avail[1..] == SC.Received(rx) + avail;
      r
  }

  /** `console_pop_input` (no interrupt race here). */
  method PopInput(rx: SC.Rx, len: u8) returns (r: SC.Rx)
    requires SC.RxValid(rx, USBSERIAL_BUFFER_SIZE) && len <= rx.pos
    ensures SC.RxValid(r, USBSERIAL_BUFFER_SIZE) && r.pos == rx.pos - len
    ensures SC.Received(r) == SC.Received(rx)[len..]
  {
    r := SC.PopInput(rx, len, USBSERIAL_BUFFER_SIZE);
  }

  /** `console_task`: after reading input, `command_find_block` (not part
      of this model; its result `ret` and `popCount` are inputs) says
      whether a complete block is at the front. A block (ret > 0) is
      dispatched; both a block and garbage (ret < 0) are popped. Returns
      the buffer, the unread characters and the dispatched bytes. */
  method Task(rx: SC.Rx, avail: seq<u8>, ret: int, popCount: u8)
    returns (r: SC.Rx, rest: seq<u8>, dispatched: Option<seq<u8>>)
    requires SC.RxValid(rx, USBSERIAL_BUFFER_SIZE)
    requires ret != 0 ==> popCount <= CheckInput(rx, avail).0.pos
    ensures SC.RxValid(r, USBSERIAL_BUFFER_SIZE)
    ensures var read := CheckInput(rx, avail);
      && rest == read.1
      && (dispatched.Some? <==> ret > 0)
      && (ret > 0 ==> dispatched.value == SC.Received(read.0)[..popCount])
      && (ret != 0 ==> SC.Received(r) == SC.Received(read.0)[popCount..])
      && (ret == 0 ==> r == read.0)
  {
    var read := CheckInput(rx, avail);
    r, rest := read.0, read.1;
    dispatched := None;
    if ret > 0 {
      dispatched := Some(SC.Received(r)[..popCount]);
    }
    if ret != 0 {
      r := PopInput(r, popCount);
    }
  }

  /** `console_sendf`: a message whose encoded size may exceed the
      64-byte buffer is silently dropped; otherwise the encoded frame
      (the encoder is not part of this model) is written out. */
  function Sendf(maxSize: u8, frame: seq<u8>): (r: Option<seq<u8>>)
    ensures r.None? <==> maxSize > 64
    ensures r.Some? ==> r.value == frame
  {
    if maxSize > USBSERIAL_BUFFER_SIZE then None else Some(frame)
  }
}
