/** Host-side synchronisation of step messages across steppers: a binary
    min-heap of the times at which the microcontroller's move slots free
    up, and the merge that sends queued messages in `req_clock` order,
    each tagged with the earliest time a slot will be free for it. */
module StepperSync {
  import opened Wrappers
  import opened MachineInts
  import opened StepCompress

  const U64_MAX: int := TWO_64 - 1

  function Parent(i: nat): nat
    requires i > 0
  {
    (i - 1) / 2
  }

  /** Entry `i` is at least its parent. */
  predicate Ordered(h: seq<u64>, i: nat)
    requires 0 < i < |h|
  {
    h[Parent(i)] <= h[i]
  }

  /** Every entry of the heap is at least its parent's. */
  predicate IsHeap(h: seq<u64>) {
    forall i :: 0 < i < |h| ==> Ordered(h, i)
  }

  /** `steppersync_alloc` zero-fills the move clocks: a heap. */
  function AllocClocks(moveNum: nat): (h: seq<u64>)
    ensures |h| == moveNum && IsHeap(h)
    ensures forall i :: 0 <= i < moveNum ==> h[i] == 0
  {
    seq(moveNum, _ => 0)
  }

  /** The root of a heap is its least entry. */
  lemma {:induction false} HeapRootIsMin(h: seq<u64>, i: nat)
    requires IsHeap(h) && i < |h|
    ensures h[0] <= h[i]
    decreases i
  {
    if i > 0 {
      assert Ordered(h, i);
      HeapRootIsMin(h, Parent(i));
    }
  }

  /** The state of the sift-down with the hole at `pos`: ordered except
      around the hole, the hole's parent no later than the new entry and
      than the hole's children, and the entries (with the new entry in
      the hole) those of the old heap with its root replaced. */
  predicate Sifting(mc: seq<u64>, req: u64, r: seq<u64>, pos: nat)
  {
    |r| == |mc| && pos < |r|
    && (forall i :: 0 < i < |r| && i != pos && Parent(i) != pos ==> Ordered(r, i))
    && (pos > 0 ==> r[Parent(pos)] <= req)
    && (pos > 0 ==> forall i :: 0 < i < |r| && Parent(i) == pos ==> r[Parent(pos)] <= r[i])
    && |mc| >= 1 && multiset(r[pos := req]) == multiset(mc[0 := req])
  }

  lemma SiftStart(mc: seq<u64>, req: u64)
    requires |mc| >= 1 && IsHeap(mc)
    ensures Sifting(mc, req, mc, 0)
  {
  }

  /** Placing the new entry in the hole when it is no later than the
      hole's children completes a heap. */
  lemma {:induction false} SiftPlace(mc: seq<u64>, req: u64, r: seq<u64>, pos: nat)
    requires Sifting(mc, req, r, pos)
    requires forall i :: 0 < i < |r| && Parent(i) == pos ==> req <= r[i]
    ensures IsHeap(r[pos := req])
  {
    var r' := r[pos := req];
    forall i | 0 < i < |r'|
      ensures Ordered(r', i)
    {
      if i == pos {
      } else if Parent(i) == pos {
      } else {
        assert Ordered(r, i);
      }
    }
  }

  lemma {:induction false} SwapEntries(r: seq<u64>, pos: nat, ch: nat, req: u64)
    requires pos < |r| && ch < |r| && pos != ch
    ensures multiset(r[pos := r[ch]][ch := req]) == multiset(r[pos := req])
  {
    var a := r[pos := req];
    assert r[pos := r[ch]][ch := req] == a[pos := a[ch]][ch := a[pos]];
  }

  /** Moving the smaller child `ch` of the hole up moves the hole down. */
  lemma {:induction false} SiftDown(mc: seq<u64>, req: u64, r: seq<u64>, pos: nat, ch: nat)
    requires Sifting(mc, req, r, pos)
    requires 0 < ch < |r| && Parent(ch) == pos && r[ch] < req
    requires forall i :: 0 < i < |r| && Parent(i) == pos ==> r[ch] <= r[i]
    ensures Sifting(mc, req, r[pos := r[ch]], ch)
  {
    var r' := r[pos := r[ch]];
    SwapEntries(r, pos, ch, req);
    SiftDownOrdered(r, pos, ch);
    forall i | 0 < i < |r'| && Parent(i) == ch
      ensures r'[Parent(ch)] <= r'[i]
    {
      assert Ordered(r, i);
    }
  }

  lemma {:induction false} SiftDownOrdered(r: seq<u64>, pos: nat, ch: nat)
    requires 0 < ch < |r| && Parent(ch) == pos
    requires forall i :: 0 < i < |r| && i != pos && Parent(i) != pos ==> Ordered(r, i)
    requires pos > 0 ==> forall i :: 0 < i < |r| && Parent(i) == pos ==> r[Parent(pos)] <= r[i]
    requires forall i :: 0 < i < |r| && Parent(i) == pos ==> r[ch] <= r[i]
    ensures var r' := r[pos := r[ch]];
      forall i :: 0 < i < |r'| && i != ch && Parent(i) != ch ==> Ordered(r', i)
  {
    var r' := r[pos := r[ch]];
    forall i | 0 < i < |r'| && i != ch && Parent(i) != ch
      ensures Ordered(r', i)
    {
      if i == pos {
      } else if Parent(i) == pos {
      } else {
        assert Ordered(r, i);
      }
    }
  }

  /** `heap_replace`: replaces the root (the earliest free slot) by
      `reqClock` and sifts it down, moving the smaller child up at each
      level (the second child on a tie). The entries are those of the old
      heap with the root replaced, and the result is again a heap. */
  method HeapReplace(mc: seq<u64>, reqClock: u64) returns (r: seq<u64>)
    requires |mc| >= 1 && IsHeap(mc)
    ensures |r| == |mc| && IsHeap(r)
    ensures multiset(r) == multiset(mc[0 := reqClock])
  {
    var n := |mc|;
    r := mc;
    var pos := 0;
    SiftStart(mc, reqClock);
    while true
      invariant Sifting(mc, reqClock, r, pos)
      decreases n - pos
    {
      var child1, child2 := 2 * pos + 1, 2 * pos + 2;
      var clock2: u64 := if child2 < n then r[child2] else U64_MAX;
      var clock1: u64 := if child1 < n then r[child1] else U64_MAX;
      assert forall i :: 0 < i < n && Parent(i) == pos ==> i == child1 || i == child2;
      if reqClock <= clock1 && reqClock <= clock2 {
        SiftPlace(mc, reqClock, r, pos);
        r := r[pos := reqClock];
        return;
      }
      var ch := if clock1 < clock2 then child1 else child2;
      SiftDown(mc, reqClock, r, pos, ch);
      r := r[pos := r[ch]];
      pos := ch;
    }
  }

  // ------------------------------------------------------------ merge

  /** Among the first `n` queues, the one whose first message has the
      lowest `req_clock` below `limit`, the earliest queue on a tie (the
      scan in `steppersync_flush`, starting from `MAX_CLOCK`). */
  function Lowest(qs: seq<seq<QMsg>>, limit: int, n: nat): (r: Option<nat>)
    requires n <= |qs|
    ensures r.None? <==> forall i :: 0 <= i < n && qs[i] != [] ==> qs[i][0].reqClock >= limit
    ensures r.Some? ==> var b := r.value;
      b < n && qs[b] != [] && qs[b][0].reqClock < limit
      && (forall i :: 0 <= i < n && qs[i] != [] ==> qs[b][0].reqClock <= qs[i][0].reqClock)
      && (forall i :: 0 <= i < b && qs[i] != [] ==> qs[b][0].reqClock < qs[i][0].reqClock)
  {
    if n == 0 then None
    else
      var b := Lowest(qs, limit, n - 1);
      var bound := if b.Some? then qs[b.value][0].reqClock else limit;
      if qs[n - 1] != [] && qs[n - 1][0].reqClock < bound then Some(n - 1) else b
  }

  /** The number of queued messages. */
  function Total(qs: seq<seq<QMsg>>): nat {
    if qs == [] then 0 else Total(qs[..|qs| - 1]) + |qs[|qs| - 1]|
  }

  lemma {:induction false} TotalDrop(qs: seq<seq<QMsg>>, b: nat)
    requires b < |qs| && qs[b] != []
    ensures Total(qs[b := qs[b][1..]]) == Total(qs) - 1
    decreases |qs|
  {
    var qs' := qs[b := qs[b][1..]];
    if b < |qs| - 1 {
      assert qs'[..|qs'| - 1] == qs[..|qs| - 1][b := qs[b][1..]];
      TotalDrop(qs[..|qs| - 1], b);
    } else {
      assert qs'[..|qs'| - 1] == qs[..|qs| - 1];
    }
  }

  predicate SortedByReq(q: seq<QMsg>) {
    forall j, k :: 0 <= j < k < |q| ==> q[j].reqClock <= q[k].reqClock
  }

  predicate AllSorted(qs: seq<seq<QMsg>>) {
    forall i :: 0 <= i < |qs| ==> SortedByReq(qs[i])
  }

  /** Where the merge stops: no message below `MAX_CLOCK` is left, or the
      lowest one is a step message (a zero `min_clock`) due after
      `move_clock`. */
  predicate MergeDone(qs: seq<seq<QMsg>>, moveClock: int, maxClock: int) {
    match Lowest(qs, maxClock, |qs|)
    case None => true
    case Some(b) => qs[b][0].minClock == 0 && qs[b][0].reqClock > moveClock
  }

  /** Each remaining queue is what is left of the original after some
      messages were taken from its front. */
  predicate Suffixes(qs: seq<seq<QMsg>>, rest: seq<seq<QMsg>>) {
    |rest| == |qs|
    && forall i :: 0 <= i < |qs| ==> |rest[i]| <= |qs[i]| && rest[i] == qs[i][|qs[i]| - |rest[i]|..]
  }

  /** The merge invariant for sorted queues: the batch is sorted and its
      last message is no later than anything still queued. */
  predicate MergeOrdered(batch: seq<QMsg>, qs: seq<seq<QMsg>>) {
    AllSorted(qs) && SortedByReq(batch)
    && (batch != [] ==>
          forall i, j :: 0 <= i < |qs| && 0 <= j < |qs[i]| ==> batch[|batch| - 1].reqClock <= qs[i][j].reqClock)
  }

  lemma {:induction false} MergeOrderedStep(batch: seq<QMsg>, qs: seq<seq<QMsg>>, b: nat, limit: int, m: QMsg)
    requires MergeOrdered(batch, qs) && Lowest(qs, limit, |qs|) == Some(b)
    requires m.reqClock == qs[b][0].reqClock
    ensures MergeOrdered(batch + [m], qs[b := qs[b][1..]])
  {
    var qs' := qs[b := qs[b][1..]];
    forall i, j | 0 <= i < |qs| && 0 <= j < |qs[i]|
      ensures m.reqClock <= qs[i][j].reqClock
    {
      assert SortedByReq(qs[i]);
      assert qs[i][0].reqClock <= qs[i][j].reqClock;
    }
    forall i | 0 <= i < |qs'|
      ensures SortedByReq(qs'[i])
    {
      assert SortedByReq(qs[i]);
    }
    forall i, j | 0 <= i < |qs'| && 0 <= j < |qs'[i]|
      ensures m.reqClock <= qs'[i][j].reqClock
    {
      if i == b {
        assert qs'[i][j] == qs[b][j + 1];
      }
    }
    var nb := batch + [m];
    forall j, k | 0 <= j < k < |nb|
      ensures nb[j].reqClock <= nb[k].reqClock
    {
      if k == |nb| - 1 && j < |batch| {
        assert batch[j].reqClock <= batch[|batch| - 1].reqClock;
        assert batch[|batch| - 1].reqClock <= qs[b][0].reqClock;
      }
    }
  }

  /** The ordering loop of `steppersync_flush`: repeatedly takes the
      first message with the lowest `req_clock` and stamps it with the
      earliest time an MCU move slot is free; a step message (zero
      `min_clock`) also claims that slot until its own `req_clock`. It
      stops at the first message that cannot go yet. Messages leave their
      queues from the front, and the batch holds exactly the messages
      taken (`taken`, before stamping, each from queue `from[k]`); the
      stamps replay the move clocks `heaps`. With sorted queues the batch
      is sorted. */
  method Merge(qs: seq<seq<QMsg>>, mc: seq<u64>, moveClock: u64, maxClock: int)
    returns (rest: seq<seq<QMsg>>, clocks: seq<u64>, batch: seq<QMsg>,
             ghost taken: seq<QMsg>, ghost from: seq<nat>, ghost heaps: seq<multiset<u64>>)
    requires |mc| >= 1 && IsHeap(mc)
    ensures |clocks| == |mc| && IsHeap(clocks)
    ensures Suffixes(qs, rest) && |batch| + Total(rest) == Total(qs)
    ensures SameMessages(batch, taken) && |from| == |taken| && TakenFronts(taken, from, qs, rest)
    ensures StampedFrom(batch, taken, heaps) && heaps[0] == multiset(mc) && heaps[|batch|] == multiset(clocks)
    ensures MergeDone(rest, moveClock, maxClock)
    ensures AllBefore(batch, maxClock)
    ensures AllSorted(qs) ==> SortedByReq(batch)
  {
    rest, clocks, batch, taken, from, heaps := qs, mc, [], [], [], [multiset(mc)];
    var minClock := clocks[0];
    TakenNone(qs);
    while true
      invariant |clocks| == |mc| && IsHeap(clocks) && minClock == clocks[0]
      invariant Suffixes(qs, rest) && |batch| + Total(rest) == Total(qs)
      invariant SameMessages(batch, taken) && |from| == |taken| && TakenFronts(taken, from, qs, rest)
      invariant |heaps| == |batch| + 1 && StampedFrom(batch, taken, heaps)
      invariant heaps[0] == multiset(mc) && heaps[|batch|] == multiset(clocks)
      invariant AllBefore(batch, maxClock)
      invariant AllSorted(qs) ==> MergeOrdered(batch, rest)
      decreases Total(rest)
    {
      var sel := Lowest(rest, maxClock, |rest|);
      if sel.None? {
        return;
      }
      var b := sel.value;
      var orig := rest[b][0];
      if orig.minClock == 0 && orig.reqClock > moveClock {
        return;
      }
      var qm := orig.(minClock := minClock);
      var before := clocks;
      if orig.minClock == 0 {
        clocks := HeapReplace(clocks, qm.reqClock);
        minClock := clocks[0];
      }
      assert rest[b] == qs[b][|qs[b]| - |rest[b]|..];
      TakenStep(taken, from, qs, rest, b);
      StampStep(batch, taken, heaps, before, qm, orig, clocks);
      if AllSorted(qs) {
        MergeOrderedStep(batch, rest, b, maxClock, qm);
      }
      MergeStepKeeps(qs, rest, b, batch, qm, maxClock);
      rest := rest[b := rest[b][1..]];
      batch := batch + [qm];
      taken := taken + [orig];
      from := from + [b];
      ghost var now := multiset(clocks);
      heaps := heaps + [now];
      assert heaps[|batch|] == now;
    }
  }

  /** The batch holds the taken messages in order, each with only its
      `min_clock` replaced. */
  predicate SameMessages(batch: seq<QMsg>, taken: seq<QMsg>) {
    |batch| == |taken|
    && forall k {:trigger taken[k]} :: 0 <= k < |batch| ==> batch[k].data == taken[k].data && batch[k].reqClock == taken[k].reqClock
  }

  /** The messages of `taken` that came from queue `i`, in order. */
  function FromQueue(taken: seq<QMsg>, from: seq<nat>, i: nat): seq<QMsg>
    requires |from| == |taken|
    decreases |taken|
  {
    if taken == [] then []
    else
      var l := |taken| - 1;
      FromQueue(taken[..l], from[..l], i) + (if from[l] == i then [taken[l]] else [])
  }

  /** The front of `q` that was taken to leave `r`. */
  function Front(q: seq<QMsg>, r: seq<QMsg>): seq<QMsg> {
    if |r| <= |q| then q[..|q| - |r|] else []
  }

  /** Every message taken came from one of the queues, and each queue's
      messages are, in order, the front that was taken from it. */
  ghost predicate TakenFronts(taken: seq<QMsg>, from: seq<nat>, qs: seq<seq<QMsg>>, rest: seq<seq<QMsg>>)
    requires |from| == |taken| && |rest| == |qs|
  {
    && (forall k :: 0 <= k < |from| ==> from[k] < |qs|)
    && (forall i :: 0 <= i < |qs| ==> FromQueue(taken, from, i) == Front(qs[i], rest[i]))
  }

  /** Nothing was taken yet. */
  lemma TakenNone(qs: seq<seq<QMsg>>)
    ensures TakenFronts([], [], qs, qs)
  {
    forall i | 0 <= i < |qs|
      ensures FromQueue([], [], i) == Front(qs[i], qs[i])
    {
      assert qs[i][..0] == [];
    }
  }

  /** Taking the front message of queue `b` extends that queue's front by
      it and leaves the others'. */
  lemma {:induction false} TakenStep(taken: seq<QMsg>, from: seq<nat>, qs: seq<seq<QMsg>>, rest: seq<seq<QMsg>>, b: nat)
    requires |from| == |taken| && |rest| == |qs| && TakenFronts(taken, from, qs, rest)
    requires b < |rest| && rest[b] != [] && |rest[b]| <= |qs[b]| && rest[b] == qs[b][|qs[b]| - |rest[b]|..]
    ensures TakenFronts(taken + [rest[b][0]], from + [b], qs, rest[b := rest[b][1..]])
  {
    var nt, nf, rest' := taken + [rest[b][0]], from + [b], rest[b := rest[b][1..]];
    assert nt[..|taken|] == taken && nf[..|from|] == from;
    forall i | 0 <= i < |qs|
      ensures FromQueue(nt, nf, i) == Front(qs[i], rest'[i])
    {
      if i == b {
        var p := |qs[b]| - |rest[b]|;
        assert qs[b][p] == rest[b][0];
        assert qs[b][..p + 1] == qs[b][..p] + [rest[b][0]];
      }
    }
  }

  /** `c` is the least of the clocks `h`. */
  ghost predicate Least(c: u64, h: multiset<u64>) {
    c in h && forall d :: d in h ==> c <= d
  }

  /** The move clocks at each message's turn, `heaps[k]` being those
      before message `k` is stamped: each message is stamped with the
      least of them, and a step message (zero `min_clock` before
      stamping) then puts its `req_clock` in that clock's place. */
  ghost predicate StampedFrom(batch: seq<QMsg>, taken: seq<QMsg>, heaps: seq<multiset<u64>>)
    requires |batch| == |taken|
  {
    |heaps| == |batch| + 1
    && forall k {:trigger taken[k]} :: 0 <= k < |batch| ==>
      && Least(batch[k].minClock, heaps[k])
      && heaps[k + 1] == if taken[k].minClock == 0
                          then heaps[k] - multiset{batch[k].minClock} + multiset{taken[k].reqClock}
                          else heaps[k]
  }

  /** Stamping the next message with the heap's root gives it the least
      clock, and the heap afterwards is the next entry of the replay. */
  lemma {:induction false} StampStep(batch: seq<QMsg>, taken: seq<QMsg>, heaps: seq<multiset<u64>>, before: seq<u64>,
                                     qm: QMsg, orig: QMsg, after: seq<u64>)
    requires SameMessages(batch, taken) && StampedFrom(batch, taken, heaps)
    requires |before| >= 1 && IsHeap(before) && heaps[|batch|] == multiset(before)
    requires qm == orig.(minClock := before[0])
    requires orig.minClock == 0 ==> multiset(after) == multiset(before[0 := orig.reqClock])
    requires orig.minClock != 0 ==> after == before
    ensures SameMessages(batch + [qm], taken + [orig])
    ensures StampedFrom(batch + [qm], taken + [orig], heaps + [multiset(after)])
  {
    forall d | d in multiset(before)
      ensures before[0] <= d
    {
      var i :| 0 <= i < |before| && before[i] == d;
      HeapRootIsMin(before, i);
    }
    assert Least(qm.minClock, heaps[|batch|]);
    if orig.minClock == 0 {
      assert before == before[0 := before[0]];
    }
    var nb, nt, nh := batch + [qm], taken + [orig], heaps + [multiset(after)];
    forall k | 0 <= k < |nb|
      ensures Least(nb[k].minClock, nh[k])
      ensures nh[k + 1] == if nt[k].minClock == 0 then nh[k] - multiset{nb[k].minClock} + multiset{nt[k].reqClock} else nh[k]
    {
      if k < |batch| {
        assert nt[k] == taken[k] && nb[k] == batch[k] && nh[k] == heaps[k] && nh[k + 1] == heaps[k + 1];
      }
    }
  }

  /** Every message in the batch is due before `limit`. */
  predicate AllBefore(batch: seq<QMsg>, limit: int) {
    forall k :: 0 <= k < |batch| ==> batch[k].reqClock < limit
  }

  /** Taking the front message of queue `b` into the batch keeps the
      queues suffixes of the originals and the message count. */
  lemma {:induction false} MergeStepKeeps(qs: seq<seq<QMsg>>, rest: seq<seq<QMsg>>, b: nat, batch: seq<QMsg>, qm: QMsg, limit: int)
    requires Suffixes(qs, rest) && |batch| + Total(rest) == Total(qs)
    requires b < |rest| && rest[b] != [] && AllBefore(batch, limit) && qm.reqClock < limit
    ensures Suffixes(qs, rest[b := rest[b][1..]])
    ensures |batch + [qm]| + Total(rest[b := rest[b][1..]]) == Total(qs)
    ensures AllBefore(batch + [qm], limit)
  {
    TotalDrop(rest, b);
    assert rest[b][1..] == qs[b][|qs[b]| - |rest[b]| + 1..];
  }

  /** The first loop of `steppersync_flush`: every stepper's compression
      queue flushed up to `move_clock`. */
  method FlushAll(scs: seq<SC>, moveClock: u64) returns (flushed: seq<SC>)
    requires forall i :: 0 <= i < |scs| ==> Valid(scs[i])
    ensures |flushed| == |scs|
    ensures forall i :: 0 <= i < |flushed| ==>
      Valid(flushed[i]) && flushed[i].queue == scs[i].queue
      && (scs[i].pos < scs[i].next ==> moveClock <= flushed[i].lastStepClock || flushed[i].pos == flushed[i].next)
  {
    flushed := [];
    while |flushed| < |scs|
      invariant |flushed| <= |scs|
      invariant forall i :: 0 <= i < |flushed| ==>
        Valid(flushed[i]) && flushed[i].queue == scs[i].queue
        && (scs[i].pos < scs[i].next ==> moveClock <= flushed[i].lastStepClock || flushed[i].pos == flushed[i].next)
    {
      var f := Flush(scs[|flushed|], moveClock);
      flushed := flushed + [f];
    }
  }

  /** `steppersync_flush`: flushes every stepper's compression queue up to
      `move_clock`, then merges their messages into one batch. */
  method SyncFlush(scs: seq<SC>, mc: seq<u64>, moveClock: u64, maxClock: int)
    returns (r: seq<SC>, clocks: seq<u64>, batch: seq<QMsg>)
    requires forall i :: 0 <= i < |scs| ==> Valid(scs[i])
    requires |mc| >= 1 && IsHeap(mc)
    ensures |r| == |scs| && |clocks| == |mc| && IsHeap(clocks)
    ensures forall i :: 0 <= i < |r| ==>
      Valid(r[i]) && r[i].queue == scs[i].queue
      && (scs[i].pos < scs[i].next ==> moveClock <= r[i].lastStepClock || r[i].pos == r[i].next)
    ensures MergeDone(Queues(r), moveClock, maxClock)
    ensures forall k :: 0 <= k < |batch| ==> batch[k].reqClock < maxClock
  {
    var flushed := FlushAll(scs, moveClock);
    var rest;
    ghost var taken, from, heaps;
    rest, clocks, batch, taken, from, heaps := Merge(Queues(flushed), mc, moveClock, maxClock);
    r := Requeue(flushed, rest);
  }

  /** The steppers with their message queues replaced by what is left. */
  function Requeue(scs: seq<SC>, rest: seq<seq<QMsg>>): (r: seq<SC>)
    requires |rest| == |scs|
    ensures Queues(r) == rest
    ensures |r| == |scs| && forall i :: 0 <= i < |r| ==>
      r[i].queue == scs[i].queue && r[i].pos == scs[i].pos && r[i].next == scs[i].next
      && r[i].lastStepClock == scs[i].lastStepClock && (Valid(scs[i]) ==> Valid(r[i]))
  {
    var r := seq(|scs|, i requires 0 <= i < |scs| => scs[i].(msgs := rest[i]));
    assert Queues(r) == rest;
    r
  }

  function Queues(scs: seq<SC>): (qs: seq<seq<QMsg>>)
    ensures |qs| == |scs| && forall i :: 0 <= i < |scs| ==> qs[i] == scs[i].msgs
  {
    seq(|scs|, i requires 0 <= i < |scs| => scs[i].msgs)
  }
}
