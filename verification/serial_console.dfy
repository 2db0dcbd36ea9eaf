/** The buffered serial console shared by the UART-based ports: a receive
    buffer filled by the receive interrupt and drained from the front by
    the command parser, and a transmit buffer filled at its end by the
    message encoder and drained by the transmit interrupt.

    Each buffer is the whole fixed-size array plus its positions; the
    bytes outside the live region are whatever was left there. */
module SerialConsole {
  import opened Wrappers
  import opened MachineInts

  // ------------------------------------------------------------ memmove

  /** `memmove` towards the front (`dst <= src`): byte-wise forward copy
      of `n` bytes. */
  method MoveDown(buf: seq<u8>, dst: nat, src: nat, n: nat) returns (r: seq<u8>)
    requires dst <= src && src + n <= |buf|
    ensures |r| == |buf|
    ensures r[dst..dst + n] == buf[src..src + n]
    ensures r[..dst] == buf[..dst] && r[dst + n..] == buf[dst + n..]
  {
    r := buf;
    var i := 0;
    while i < n
      invariant 0 <= i <= n && |r| == |buf|
      invariant forall k :: dst <= k < dst + i ==> r[k] == buf[k - dst + src]
      invariant forall k :: 0 <= k < |buf| && !(dst <= k < dst + i) ==> r[k] == buf[k]
    {
      r := r[dst + i := r[src + i]];
      i := i + 1;
    }
    var moved, orig := r[dst..dst + n], buf[src..src + n];
    assert forall k :: 0 <= k < n ==> moved[k] == orig[k];
  }

  // ------------------------------------------------------------ receive

  /** `receive_buf` and `receive_pos`. */
  datatype Rx = Rx(buf: seq<u8>, pos: nat)

  predicate RxValid(rx: Rx, size: nat) {
    |rx.buf| == size && rx.pos <= size
  }

  /** The bytes received and not yet consumed. */
  function Received(rx: Rx): seq<u8>
    requires rx.pos <= |rx.buf|
  {
    rx.buf[..rx.pos]
  }

  /** The receive interrupt: a byte is stored only while the buffer has
      room; on overflow it is dropped (the host's checksum check forces a
      resend). */
  function RxByte(rx: Rx, data: u8, size: nat): (r: Rx)
    requires RxValid(rx, size)
    ensures RxValid(r, size)
    ensures rx.pos < size ==> Received(r) == Received(rx) + [data]
    ensures rx.pos >= size ==> r == rx
  {
    if rx.pos >= size then rx
    else
      var r := Rx(rx.buf[rx.pos := data], rx.pos + 1);
      assert Received(r) == Received(rx) + [data];
      r
  }

  /** `console_pop_input`: the first `len` received bytes are consumed and
      the rest move to the front in order. */
  method PopInput(rx: Rx, len: nat, size: nat) returns (r: Rx)
    requires RxValid(rx, size) && len <= rx.pos
    ensures RxValid(r, size)
    ensures Received(r) == Received(rx)[len..]
  {
    var needcopy := rx.pos - len;
    var buf := rx.buf;
    if needcopy != 0 {
      buf := MoveDown(rx.buf, 0, len, needcopy);
    }
    r := Rx(buf, needcopy);
    assert Received(r) == buf[0..needcopy];
  }

  // ------------------------------------------------------------ transmit

  /** `transmit_buf`, `transmit_pos`, `transmit_max` and whether the
      transmit interrupt is enabled. */
  datatype Tx = Tx(buf: seq<u8>, pos: nat, max: nat, irq: bool)

  predicate TxValid(tx: Tx, size: nat) {
    |tx.buf| == size && tx.pos <= tx.max <= size
  }

  /** The bytes queued and not yet sent. */
  function Pending(tx: Tx): seq<u8>
    requires tx.pos <= tx.max <= |tx.buf|
  {
    tx.buf[tx.pos..tx.max]
  }

  /** The transmit interrupt: sends the next pending byte, or disables
      itself when nothing is pending. */
  function TxReady(tx: Tx, size: nat): (r: (Tx, Option<u8>))
    requires TxValid(tx, size)
    ensures TxValid(r.0, size)
    ensures tx.pos < tx.max ==> r.1 == Some(Pending(tx)[0]) && Pending(r.0) == Pending(tx)[1..] && r.0.irq == tx.irq
    ensures tx.pos >= tx.max ==> r.1.None? && r.0 == tx.(irq := false)
  {
    if tx.pos >= tx.max then (tx.(irq := false), None)
    else (tx.(pos := tx.pos + 1), Some(tx.buf[tx.pos]))
  }

  /** `console_get_output`: room for `len` more bytes. A drained buffer is
      rewound first; if the room is not at the end already, the pending
      bytes move to the front (when they leave enough room). The slot is
      where the caller writes its message. */
  method GetOutput(tx: Tx, len: u8, size: nat) returns (r: Tx, slot: Option<nat>)
    requires TxValid(tx, size)
    ensures TxValid(r, size) && Pending(r) == Pending(tx)
    ensures slot.None? <==> (tx.max - tx.pos) + len > size
    ensures slot.Some? ==> slot.value == r.max && r.max + len <= size
    ensures tx.pos >= tx.max ==> r.pos == 0 && r.max == 0
    ensures tx.pos < tx.max && tx.max + len <= size ==> r == tx && slot == Some(tx.max)
  {
    r := tx;
    if r.pos >= r.max {
      r := r.(pos := 0, max := 0);
    }
    if r.max + len <= size {
      return r, Some(r.max);
    }
    if r.max - r.pos + len > size {
      return r, None;
    }
    var n := r.max - r.pos;
    var buf := MoveDown(r.buf, 0, r.pos, n);
    r := Tx(buf, 0, n, true);
    assert Pending(r) == buf[0..n];
    slot := Some(n);
  }

  /** The caller's copy of a message into the slot. */
  function WriteSlot(tx: Tx, slot: nat, data: seq<u8>): (r: Tx)
    requires slot + |data| <= |tx.buf|
    ensures |r.buf| == |tx.buf| && r.buf[slot..slot + |data|] == data
    ensures r.buf[..slot] == tx.buf[..slot] && r.(buf := tx.buf) == tx
  {
    tx.(buf := tx.buf[..slot] + data + tx.buf[slot + |data|..])
  }

  /** `console_push_output`: the written bytes become pending and the
      transmit interrupt is enabled. */
  function PushOutput(tx: Tx, len: nat): (r: Tx)
    ensures r.max - tx.max == len && r.irq
    ensures r.pos == tx.pos && r.buf == tx.buf
  {
    tx.(max := tx.max + len, irq := true)
  }

  /** `console_push_output` of the AVR and SAM3X8E ports: their
      `transmit_max` is a byte (or written through its low byte), so the
      sum is kept to 8 bits; short of wrapping it is the push above. */
  function PushOutput8(tx: Tx, len: u8): (r: Tx)
    ensures (r.max - (tx.max + len)) % TWO_8 == 0 && r.max < TWO_8 && r.irq
    ensures tx.max + len < TWO_8 ==> r == PushOutput(tx, len)
    ensures r.pos == tx.pos && r.buf == tx.buf
  {
    tx.(max := W8(tx.max + len), irq := true)
  }

  /** Sending a message appends it, unchanged, to the pending bytes after
      everything already pending; nothing is lost or reordered. */
  method SendMessage(tx: Tx, data: seq<u8>, size: nat) returns (r: Tx, sent: bool)
    requires TxValid(tx, size) && |data| < 256
    ensures TxValid(r, size)
    ensures sent <==> (tx.max - tx.pos) + |data| <= size
    ensures sent ==> Pending(r) == Pending(tx) + data && r.irq
    ensures !sent ==> Pending(r) == Pending(tx)
  {
    var t, slot := GetOutput(tx, |data|, size);
    if slot.None? {
      return t, false;
    }
    var w := WriteSlot(t, slot.value, data);
    assert w.buf[w.pos..w.max] == Pending(t);
    r := PushOutput(w, |data|);
    assert Pending(r) == w.buf[w.pos..w.max] + w.buf[w.max..w.max + |data|];
    sent := true;
  }
}
