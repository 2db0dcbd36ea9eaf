/** The firmware's basic infrastructure: the pool of move records, the
    object-id registry, the identify data chunks and the load statistics.

    Pointers become indices: a move is its index in the move array and a
    registered object is an opaque `data` number. */
module BaseCmd {
  import opened Wrappers
  import opened MachineInts
  import Sched

  // ------------------------------------------------------------ move pool

  /** The free list of moves, head first. */
  datatype MovePool = MovePool(free: seq<nat>)

  /** `move_free`: the move becomes the new head of the free list. */
  function MoveFree(p: MovePool, m: nat): (r: MovePool)
    ensures |r.free| == |p.free| + 1 && r.free[0] == m && r.free[1..] == p.free
  {
    MovePool([m] + p.free)
  }

  /** `move_alloc`: pops the head of the free list; an empty list shuts
      down. */
  function MoveAlloc(p: MovePool): (r: Result<(nat, MovePool)>)
    ensures r.Err? <==> |p.free| == 0
    ensures r.Err? ==> r.msg == "Move queue empty"
    ensures r.Ok? ==> [r.value.0] + r.value.1.free == p.free
  {
    if |p.free| == 0 then Err("Move queue empty")
    else Ok((p.free[0], MovePool(p.free[1..])))
  }

  /** The pool is last-in first-out: allocating right after freeing gives
      back the move just freed and the pool as it was. */
  lemma AllocAfterFree(p: MovePool, m: nat)
    ensures MoveAlloc(MoveFree(p, m)) == Ok((m, p))
  {
  }

  /** `move_reset`: links moves 0 .. n-1 in index order into a new free
      list ending in NULL; with no moves nothing changes. `links` holds
      each move's `next` pointer. */
  method MoveReset(links: seq<Option<nat>>, head: Option<nat>)
    returns (links': seq<Option<nat>>, head': Option<nat>)
    ensures |links'| == |links|
    ensures |links| == 0 ==> head' == head
    ensures |links| > 0 ==> head' == Some(0) && links'[|links| - 1] == None
    ensures forall i :: 0 <= i < |links| - 1 ==> links'[i] == Some(i + 1)
  {
    if |links| == 0 {
      return links, head;
    }
    links' := links;
    var i := 0;
    while i < |links| - 1
      invariant 0 <= i <= |links| - 1
      invariant |links'| == |links|
      invariant forall j :: 0 <= j < i ==> links'[j] == Some(j + 1)
    {
      links' := links'[i := Some(i + 1)];
      i := i + 1;
    }
    links' := links'[|links| - 1 := None];
    head' := Some(0);
  }

  /** The moves reached by following `next` pointers from `head`, at most
      `fuel` of them. */
  function Chain(links: seq<Option<nat>>, head: Option<nat>, fuel: nat): seq<nat>
    decreases fuel
  {
    if fuel == 0 || head.None? || head.value >= |links| then []
    else [head.value] + Chain(links, links[head.value], fuel - 1)
  }

  function Range(lo: nat, hi: nat): (r: seq<nat>)
    requires lo <= hi
    ensures |r| == hi - lo && forall i :: 0 <= i < |r| ==> r[i] == lo + i
    decreases hi - lo
  {
    if lo == hi then [] else [lo] + Range(lo + 1, hi)
  }

  /** After a reset the free list is every move, in index order. */
  lemma {:induction false} ResetFreesAllInOrder(links: seq<Option<nat>>, links': seq<Option<nat>>)
    requires |links'| == |links| > 0 && links'[|links| - 1] == None
    requires forall i :: 0 <= i < |links| - 1 ==> links'[i] == Some(i + 1)
    ensures Chain(links', Some(0), |links|) == Range(0, |links|)
  {
    assert LinkedInOrder(links');
    ChainFrom(links', 0);
  }

  /** Each move but the last links to the next one, and the last to
      NULL. */
  predicate LinkedInOrder(links: seq<Option<nat>>) {
    |links| > 0 && links[|links| - 1] == None
    && forall j :: 0 <= j < |links| - 1 ==> links[j] == Some(j + 1)
  }

  lemma {:induction false} ChainFrom(links: seq<Option<nat>>, i: nat)
    requires i < |links| && LinkedInOrder(links)
    ensures Chain(links, Some(i), |links| - i) == Range(i, |links|)
    decreases |links| - i
  {
    if i == |links| - 1 {
      assert Chain(links, None, 0) == [];
    } else {
      ChainFrom(links, i + 1);
    }
  }

  // ------------------------------------------------------------ oids

  /** One entry of the oid table: the object's type (NULL is `None`) and
      its data. */
  datatype OidSlot = OidSlot(typ: Option<nat>, data: nat)

  /** The registry: the oid table (NULL until allocated), the config
      flags and the move pool. */
  datatype BaseState = BaseState(
    oids: Option<seq<OidSlot>>, finalized: bool, crc: u32,
    moveCount: nat, moves: MovePool)

  const BASE_INIT: BaseState := BaseState(None, false, 0, 0, MovePool([]))

  /** `num_oid`: zero until the table is allocated. */
  function Slots(s: BaseState): (r: seq<OidSlot>)
    ensures s.oids.None? ==> r == []
  {
    if s.oids.None? then [] else s.oids.value
  }

  /** `lookup_oid`: the data of `oid` when it is registered with `typ`. */
  function LookupOid(s: BaseState, oid: u8, typ: nat): (r: Result<nat>)
    ensures r.Ok? <==> oid < |Slots(s)| && Slots(s)[oid].typ == Some(typ)
    ensures r.Ok? ==> r.value == Slots(s)[oid].data
    ensures r.Err? ==> r.msg == "Invalid oid type"
  {
    var slots := Slots(s);
    if oid >= |slots| || slots[oid].typ != Some(typ) then Err("Invalid oid type")
    else Ok(slots[oid].data)
  }

  /** `assign_oid` (the registration step of `alloc_oid`). */
  function AssignOid(s: BaseState, oid: u8, typ: nat, data: nat): (r: Result<BaseState>)
    ensures r.Err? <==> oid >= |Slots(s)| || Slots(s)[oid].typ.Some? || s.finalized
    ensures r.Err? ==> r.msg == "Can't assign oid"
    ensures r.Ok? ==> Slots(r.value) == Slots(s)[oid := OidSlot(Some(typ), data)]
    ensures r.Ok? ==> r.value.finalized == s.finalized && r.value.moves == s.moves
  {
    var slots := Slots(s);
    if oid >= |slots| || slots[oid].typ.Some? || s.finalized then Err("Can't assign oid")
    else Ok(s.(oids := Some(slots[oid := OidSlot(Some(typ), data)])))
  }

  /** An object registered under a type is found again under that type,
      and the other oids are unaffected. */
  lemma LookupAfterAssign(s: BaseState, oid: u8, typ: nat, data: nat, other: u8, t: nat)
    requires AssignOid(s, oid, typ, data).Ok?
    ensures LookupOid(AssignOid(s, oid, typ, data).value, oid, typ) == Ok(data)
    ensures other != oid ==>
      LookupOid(AssignOid(s, oid, typ, data).value, other, t) == LookupOid(s, other, t)
  {
  }

  /** The first oid at or after `oid` registered with `typ`. */
  function NextFrom(slots: seq<OidSlot>, oid: nat, typ: nat): (r: Option<nat>)
    ensures r.Some? ==> oid <= r.value < |slots| && slots[r.value].typ == Some(typ)
    ensures r.Some? ==> forall j :: oid <= j < r.value ==> slots[j].typ != Some(typ)
    ensures r.None? ==> forall j :: oid <= j < |slots| ==> slots[j].typ != Some(typ)
    decreases |slots| - oid
  {
    if oid >= |slots| then None
    else if slots[oid].typ == Some(typ) then Some(oid)
    else NextFrom(slots, oid + 1, typ)
  }

  /** `next_oid`: the next oid after `i` (an 8-bit counter, so 255 is
      the "-1" that starts a `foreach_oid`) registered with `typ`. */
  function NextOid(s: BaseState, i: u8, typ: nat): (r: Option<u8>)
    requires |Slots(s)| <= 255
    ensures r.Some? ==> W8(i + 1) <= r.value < |Slots(s)| && Slots(s)[r.value].typ == Some(typ)
    ensures r.Some? ==> forall j :: W8(i + 1) <= j < r.value ==> Slots(s)[j].typ != Some(typ)
    ensures r.None? ==> forall j :: W8(i + 1) <= j < |Slots(s)| ==> Slots(s)[j].typ != Some(typ)
  {
    match NextFrom(Slots(s), W8(i + 1), typ)
    case None => None
    case Some(o) => Some(o)
  }

  /** The oids `foreach_oid` visits starting from position `pos`. */
  function ForeachFrom(s: BaseState, typ: nat, pos: u8): seq<u8>
    requires |Slots(s)| <= 255
    decreases if pos == 255 then |Slots(s)| + 1 else |Slots(s)| - pos
  {
    match NextOid(s, pos, typ)
    case None => []
    case Some(o) => [o] + ForeachFrom(s, typ, o)
  }

  /** `foreach_oid`: starts from -1 in an 8-bit counter. */
  function ForeachOid(s: BaseState, typ: nat): seq<u8>
    requires |Slots(s)| <= 255
  {
    ForeachFrom(s, typ, 255)
  }

  /** Reference definition: the oids registered with `typ`, from `lo`
      upward. */
  function OidsOfType(slots: seq<OidSlot>, typ: nat, lo: nat): seq<nat>
    decreases |slots| - lo
  {
    if lo >= |slots| then []
    else (if slots[lo].typ == Some(typ) then [lo] else []) + OidsOfType(slots, typ, lo + 1)
  }

  /** `foreach_oid` visits exactly the oids of its type, each once, in
      increasing order. */
  lemma {:induction false} ForeachVisitsEachInOrder(s: BaseState, typ: nat)
    requires |Slots(s)| <= 255
    ensures ForeachOid(s, typ) == OidsOfType(Slots(s), typ, 0)
  {
    ForeachFromIs(s, typ, 255);
  }

  lemma {:induction false} ForeachFromIs(s: BaseState, typ: nat, pos: u8)
    requires |Slots(s)| <= 255
    ensures ForeachFrom(s, typ, pos) == OidsOfType(Slots(s), typ, W8(pos + 1))
    decreases if pos == 255 then |Slots(s)| + 1 else |Slots(s)| - pos
  {
    var lo := W8(pos + 1);
    SkipToNext(Slots(s), typ, lo);
    match NextOid(s, pos, typ)
    case None =>
      assert NextFrom(Slots(s), lo, typ).None?;
    case Some(o) =>
      assert NextFrom(Slots(s), lo, typ) == Some(o as nat);
      assert W8(o + 1) == o + 1;
      ForeachFromIs(s, typ, o);
      assert ForeachFrom(s, typ, pos) == [o] + ForeachFrom(s, typ, o);
  }

  /** Skipping the oids of other types: the reference list from `lo`
      starts at the next oid of the type. */
  lemma {:induction false} SkipToNext(slots: seq<OidSlot>, typ: nat, lo: nat)
    ensures NextFrom(slots, lo, typ).None? ==> OidsOfType(slots, typ, lo) == []
    ensures NextFrom(slots, lo, typ).Some? ==>
      var o := NextFrom(slots, lo, typ).value;
      OidsOfType(slots, typ, lo) == [o] + OidsOfType(slots, typ, o + 1)
    decreases |slots| - lo
  {
    if lo < |slots| && slots[lo].typ != Some(typ) {
      SkipToNext(slots, typ, lo + 1);
    }
  }

  // ------------------------------------------------------------ config

  /** `command_allocate_oids`: the count argument is truncated to 8 bits
      and every slot starts empty; a second allocation shuts down. */
  function AllocateOids(s: BaseState, count: u32): (r: Result<BaseState>)
    ensures r.Err? <==> s.oids.Some?
    ensures r.Err? ==> r.msg == "oids already allocated"
    ensures r.Ok? ==> |Slots(r.value)| == W8(count) && |Slots(r.value)| <= 255
    ensures r.Ok? ==> forall i :: 0 <= i < |Slots(r.value)| ==> Slots(r.value)[i].typ.None?
  {
    if s.oids.Some? then Err("oids already allocated")
    else Ok(s.(oids := Some(seq(W8(count), _ => OidSlot(None, 0)))))
  }

  /** `command_finalize_config`: needs allocated oids and a config not
      yet finalized; `maxMoves` is the move count the allocator can
      provide. All moves go on the free list in index order. */
  function FinalizeConfig(s: BaseState, crc: u32, maxMoves: nat): (r: Result<BaseState>)
    ensures s.oids.None? || s.finalized ==> r == Err("Can't finalize")
    ensures s.oids.Some? && !s.finalized && maxMoves == 0 ==> r == Err("malloc failed")
    ensures s.oids.Some? && !s.finalized && maxMoves > 0 ==> r.Ok?
    ensures r.Ok? ==> r.value.finalized && r.value.crc == crc && r.value.oids == s.oids
    ensures r.Ok? ==> r.value.moveCount == maxMoves && r.value.moves.free == Range(0, maxMoves)
  {
    if s.oids.None? || s.finalized then Err("Can't finalize")
    else if maxMoves == 0 then Err("malloc failed")
    else Ok(s.(finalized := true, crc := crc, moveCount := maxMoves, moves := MovePool(Range(0, maxMoves))))
  }

  /** Configuration is one-way: once finalized, no oid can be assigned and
      neither allocation nor finalization succeeds again. */
  lemma ConfigIsOneShot(s: BaseState, crc: u32, maxMoves: nat, count: u32, oid: u8, typ: nat, data: nat)
    requires FinalizeConfig(s, crc, maxMoves).Ok?
    ensures AssignOid(FinalizeConfig(s, crc, maxMoves).value, oid, typ, data).Err?
    ensures AllocateOids(FinalizeConfig(s, crc, maxMoves).value, count).Err?
    ensures FinalizeConfig(FinalizeConfig(s, crc, maxMoves).value, crc, maxMoves).Err?
  {
  }

  // ------------------------------------------------------------ identify

  /** `command_identify`: the chunk of the identify data at `offset`, at
      most `count` (8-bit) bytes, clipped to the data's end. The clipping
      test `offset + count > isize` is a 32-bit sum; it cannot wrap
      because the data, built into the firmware image, is far smaller
      than 2^32 - 255 bytes. */
  function Identify(data: seq<u8>, offset: u32, count: u32): (r: seq<u8>)
    requires |data| < TWO_32 - 255
    ensures |r| <= W8(count)
    ensures offset >= |data| ==> r == []
    ensures offset < |data| ==>
      offset + |r| <= |data| && r == data[offset..offset + |r|]
      && (|r| == W8(count) || offset + |r| == |data|)
  {
    var isize := |data|;
    var c := W8(count);
    var n := if offset >= isize then 0
      else if W32(offset + c) > isize then isize - offset
      else c;
    if offset >= isize then [] else data[offset..offset + n]
  }

  // ------------------------------------------------------------ stats

  datatype Stats = Stats(last: u32, count: u32, sumsq: u32, prev: u32)

  /** A `stats` report: event count, ticks covered, sum of squares. */
  datatype StatsReport = StatsReport(count: u32, sum: u32, sumsq: u32)

  /** The squared gap of `stats_task`: the tick gap over 256, squared in
      32 bits. */
  function SquaredGap(cur: u32, last: u32): u32 {
    var diff := W32(cur - last) / 256;
    W32(diff * diff)
  }

  /** The saturating 32-bit add of the running sum: a wrapped sum (one
      below the first operand) becomes `0xffffffff`. */
  function SatAdd32(a: u32, b: u32): (r: u32)
    ensures r == if a + b < TWO_32 then a + b else TWO_32 - 1
  {
    var next := W32(a + b);
    if next < a then 0xffff_ffff else next
  }

  /** `stats_task` at time `cur`; `period` is five seconds in ticks. The
      squared gap is a 32-bit product, and the running sum saturates
      instead of wrapping. */
  function StatsTask(s: Stats, cur: u32, period: u32): (r: (Stats, Option<StatsReport>))
    ensures var total := s.sumsq + SquaredGap(cur, s.last);
      var sumsq := if total < TWO_32 then total else TWO_32 - 1;
      && (r.1.None? <==> Sched.IsBefore(cur, W32(s.prev + period)))
      && (r.1.None? ==> r.0 == Stats(cur, W32(s.count + 1), sumsq, s.prev))
      && (r.1.Some? ==>
            r.1.value == StatsReport(W32(s.count + 1), W32(cur - s.prev), sumsq)
            && r.0 == Stats(cur, 0, 0, cur))
  {
    var count := W32(s.count + 1);
    var sumsq := SatAdd32(s.sumsq, SquaredGap(cur, s.last));
    if Sched.IsBefore(cur, W32(s.prev + period)) then (Stats(cur, count, sumsq, s.prev), None)
    else (Stats(cur, 0, 0, cur), Some(StatsReport(count, W32(cur - s.prev), sumsq)))
  }
}
