/** The UC1701 128x64 LCD driver (klippy/extras/display/uc1701.py): two
    framebuffers of 8 pages of 128 column bytes, the one being drawn and
    the one last sent; pixel drawing into the first; and `flush`, which
    sends only the bytes that changed, in batched runs, each preceded by
    a position command.

    The SPI transfer becomes the list of messages `flush` sends. The
    font and icon tables are parameters. The display controller that
    receives the messages is modelled as a page and column pointer over
    its own RAM: a position command sets the pointer and data bytes are
    written from it onwards. */
module Uc1701 {
  import opened Wrappers

  const PAGES: int := 8
  const COLUMNS: int := 128

  /** `vram`: the buffer being drawn and the one last sent. */
  datatype Display = Display(cur: seq<seq<bv8>>, sent: seq<seq<bv8>>)

  predicate WellSized(buf: seq<seq<bv8>>) {
    |buf| == PAGES && forall p :: 0 <= p < |buf| ==> |buf[p]| == COLUMNS
  }

  predicate Valid(d: Display) {
    WellSized(d.cur) && WellSized(d.sent)
  }

  /** The buffer being drawn is all zero and the sent one all '~', so the
      first flush sends every byte that is not '~'. */
  function Init(): (d: Display)
    ensures Valid(d)
    ensures forall p, c :: 0 <= p < PAGES && 0 <= c < COLUMNS ==> d.cur[p][c] == 0 && d.sent[p][c] == 126
  {
    Display(seq(PAGES, _ => seq(COLUMNS, _ => 0)), seq(PAGES, _ => seq(COLUMNS, _ => 126)))
  }

  // ------------------------------------------------------------ runs

  /** A run of bytes to send: its first column and its length. */
  datatype Run = Run(pos: int, count: int)

  function End(r: Run): int {
    r.pos + r.count
  }

  /** Whether column `j` lies in one of the runs. */
  predicate Covered(runs: seq<Run>, j: int) {
    exists k :: 0 <= k < |runs| && runs[k].pos <= j < End(runs[k])
  }

  lemma {:induction false} CoveredSplit(runs: seq<Run>, j: int)
    requires |runs| >= 1
    ensures Covered(runs, j) <==> (runs[0].pos <= j < End(runs[0]) || Covered(runs[1..], j))
  {
    if Covered(runs, j) {
      var k :| 0 <= k < |runs| && runs[k].pos <= j < End(runs[k]);
      if k > 0 {
        assert runs[1..][k - 1] == runs[k];
      }
    }
    if Covered(runs[1..], j) {
      var k :| 0 <= k < |runs[1..]| && runs[1..][k].pos <= j < End(runs[1..][k]);
      assert runs[k + 1] == runs[1..][k];
    }
  }

  /** Runs of one column each, at columns from `from` on where the pages
      differ. */
  predicate Singles(r: seq<Run>, n: seq<bv8>, o: seq<bv8>, from: nat)
    requires |n| == |o|
  {
    forall k :: 0 <= k < |r| ==> r[k].count == 1 && from <= r[k].pos < |n| && n[r[k].pos] != o[r[k].pos]
  }

  predicate Increasing(r: seq<Run>) {
    forall k :: 0 <= k < |r| - 1 ==> r[k].pos < r[k + 1].pos
  }

  /** Every column from `from` on where the pages differ is covered. */
  predicate CoversDiffs(r: seq<Run>, n: seq<bv8>, o: seq<bv8>, from: nat)
    requires |n| == |o|
  {
    forall j :: from <= j < |n| && n[j] != o[j] ==> Covered(r, j)
  }

  /** The columns where the two pages differ, from `from` on, each as a
      run of one, in increasing order. */
  function Diffs(n: seq<bv8>, o: seq<bv8>, from: nat): (r: seq<Run>)
    requires |n| == |o| && from <= |n|
    ensures Singles(r, n, o, from) && Increasing(r) && CoversDiffs(r, n, o, from)
    decreases |n| - from
  {
    if from == |n| then []
    else
      var rest := Diffs(n, o, from + 1);
      if n[from] != o[from] then
        var r := [Run(from, 1)] + rest;
        DiffsCons(n, o, from, rest, r);
        r
      else
        DiffsSkip(n, o, from, rest);
        rest
  }

  lemma {:induction false} DiffsCons(n: seq<bv8>, o: seq<bv8>, from: nat, rest: seq<Run>, r: seq<Run>)
    requires |n| == |o| && from < |n| && n[from] != o[from]
    requires Singles(rest, n, o, from + 1) && Increasing(rest) && CoversDiffs(rest, n, o, from + 1)
    requires r == [Run(from, 1)] + rest
    ensures Singles(r, n, o, from) && Increasing(r) && CoversDiffs(r, n, o, from)
  {
    DiffsConsSingles(n, o, from, rest, r);
    if |rest| >= 1 {
      assert rest[0].pos >= from + 1;
    }
    ConsIncreasing(Run(from, 1), rest);
    DiffsConsCovers(n, o, from, rest, r);
  }

  lemma {:induction false} ConsIncreasing(x: Run, rest: seq<Run>)
    requires Increasing(rest) && (|rest| >= 1 ==> x.pos < rest[0].pos)
    ensures Increasing([x] + rest)
  {
    var r := [x] + rest;
    assert forall k :: 1 <= k < |r| ==> r[k] == rest[k - 1];
  }

  lemma {:induction false} DiffsConsSingles(n: seq<bv8>, o: seq<bv8>, from: nat, rest: seq<Run>, r: seq<Run>)
    requires |n| == |o| && from < |n| && n[from] != o[from]
    requires Singles(rest, n, o, from + 1)
    requires r == [Run(from, 1)] + rest
    ensures Singles(r, n, o, from)
  {
    forall k | 0 <= k < |r|
      ensures r[k].count == 1 && from <= r[k].pos < |n| && n[r[k].pos] != o[r[k].pos]
    {
      if k > 0 {
        assert r[k] == rest[k - 1];
      }
    }
  }

  lemma {:induction false} DiffsConsCovers(n: seq<bv8>, o: seq<bv8>, from: nat, rest: seq<Run>, r: seq<Run>)
    requires |n| == |o| && from < |n|
    requires CoversDiffs(rest, n, o, from + 1)
    requires r == [Run(from, 1)] + rest
    ensures CoversDiffs(r, n, o, from)
  {
    forall j | from <= j < |n| && n[j] != o[j] ensures Covered(r, j) {
      if j == from {
        assert r[0].pos <= j < End(r[0]);
      } else {
        assert Covered(rest, j);
        var k :| 0 <= k < |rest| && rest[k].pos <= j < End(rest[k]);
        assert r[k + 1] == rest[k];
      }
    }
  }

  lemma DiffsSkip(n: seq<bv8>, o: seq<bv8>, from: nat, rest: seq<Run>)
    requires |n| == |o| && from < |n| && n[from] == o[from]
    requires Singles(rest, n, o, from + 1) && Increasing(rest) && CoversDiffs(rest, n, o, from + 1)
    ensures Singles(rest, n, o, from) && CoversDiffs(rest, n, o, from)
  {
  }

  /** Two neighbouring runs are joined when the first starts at most five
      columns before the second and the second is shorter than 16. */
  predicate Mergeable(a: Run, b: Run) {
    a.pos + 5 >= b.pos && b.count < 16
  }

  /** One step of the backward batching loop: `x` against the already
      batched runs after it. */
  function Combine(x: Run, rest: seq<Run>): seq<Run> {
    if |rest| >= 1 && Mergeable(x, rest[0]) then [Run(x.pos, rest[0].count + (rest[0].pos - x.pos))] + rest[1..]
    else [x] + rest
  }

  /** The runs are ordered, non-empty and apart. */
  predicate Apart(runs: seq<Run>) {
    && (forall k :: 0 <= k < |runs| ==> runs[k].count >= 1)
    && (forall k :: 0 <= k < |runs| - 1 ==> End(runs[k]) <= runs[k + 1].pos)
  }

  /** No two neighbouring runs could still be joined. */
  predicate Unmergeable(runs: seq<Run>) {
    forall k :: 0 <= k < |runs| - 1 ==> !Mergeable(runs[k], runs[k + 1])
  }

  /** Single-column runs in increasing order, as the diff list is. */
  predicate SortedSingles(d: seq<Run>) {
    (forall k :: 0 <= k < |d| ==> d[k].count == 1) && Increasing(d)
  }

  /** What the batching of `d` gives: no more runs, the same first and
      last column, ordered and apart, none left to join, and every column
      of `d` still covered. */
  ghost predicate BatchOf(d: seq<Run>, r: seq<Run>) {
    && |r| <= |d| && (|d| == 0 <==> |r| == 0)
    && (|d| >= 1 ==> r[0].pos == d[0].pos && End(r[|r| - 1]) == End(d[|d| - 1]))
    && Apart(r) && Unmergeable(r)
    && (forall j :: Covered(d, j) ==> Covered(r, j))
  }

  /** The batching loop of `flush`, run from the last pair to the first
      over the single-column diff runs. */
  function Batch(d: seq<Run>): (r: seq<Run>)
    requires SortedSingles(d)
    ensures BatchOf(d, r)
    decreases |d|
  {
    if |d| <= 1 then
      assert Apart(d);
      d
    else
      var rest := Batch(d[1..]);
      var r := Combine(d[0], rest);
      if Mergeable(d[0], rest[0]) then
        MergeStep(d, rest, r);
        r
      else
        KeepStep(d, rest, r);
        r
  }

  lemma {:induction false} MergeStep(d: seq<Run>, rest: seq<Run>, r: seq<Run>)
    requires |d| >= 2 && SortedSingles(d) && BatchOf(d[1..], rest)
    requires Mergeable(d[0], rest[0]) && r == Combine(d[0], rest)
    ensures BatchOf(d, r)
  {
    assert d[1..][0] == d[1];
    var m := r[0];
    assert r[1..] == rest[1..];
    assert End(m) == End(rest[0]) && m.pos < rest[0].pos;
    assert Apart(r) && Unmergeable(r) by {
      assert forall k :: 1 <= k < |r| ==> r[k] == rest[k];
    }
    assert |d| - 1 == |d[1..]|;
    if |r| == 1 {
      assert End(r[|r| - 1]) == End(d[|d| - 1]);
    } else {
      assert r[|r| - 1] == rest[|rest| - 1];
    }
    forall j | Covered(d, j) ensures Covered(r, j) {
      CoveredSplit(d, j);
      if !(d[0].pos <= j < End(d[0])) {
        assert Covered(rest, j);
        CoveredSplit(rest, j);
      }
      CoveredSplit(r, j);
    }
  }

  lemma {:induction false} KeepStep(d: seq<Run>, rest: seq<Run>, r: seq<Run>)
    requires |d| >= 2 && SortedSingles(d) && BatchOf(d[1..], rest)
    requires !Mergeable(d[0], rest[0]) && r == Combine(d[0], rest)
    ensures BatchOf(d, r)
  {
    assert d[1..][0] == d[1];
    assert r == [d[0]] + rest;
    assert r[1..] == rest;
    ConsApart(d[0], rest);
    assert |d| - 1 == |d[1..]|;
    assert r[|r| - 1] == rest[|rest| - 1];
    assert d[|d| - 1] == d[1..][|d[1..]| - 1];
    KeepCovers(d, rest, r);
  }

  /** A run in front of batched runs, apart from and not joinable with
      the first of them, keeps them batched. */
  lemma {:induction false} ConsApart(x: Run, rest: seq<Run>)
    requires |rest| >= 1 && Apart(rest) && Unmergeable(rest)
    requires x.count >= 1 && End(x) <= rest[0].pos && !Mergeable(x, rest[0])
    ensures Apart([x] + rest) && Unmergeable([x] + rest)
  {
    var r := [x] + rest;
    assert forall k :: 1 <= k < |r| ==> r[k] == rest[k - 1];
  }

  lemma {:induction false} KeepCovers(d: seq<Run>, rest: seq<Run>, r: seq<Run>)
    requires |d| >= 2 && r == [d[0]] + rest
    requires forall j :: Covered(d[1..], j) ==> Covered(rest, j)
    ensures forall j :: Covered(d, j) ==> Covered(r, j)
  {
    assert r[1..] == rest;
    forall j | Covered(d, j) ensures Covered(r, j) {
      CoveredSplit(d, j);
      CoveredSplit(r, j);
    }
  }

  // ------------------------------------------------------------ messages

  /** A message to the display: the a0 line level (data or command) and
      the bytes sent over SPI. */
  datatype Send = Send(isData: bool, bytes: seq<bv8>)

  /** The position command: the page address `0xB0 | page`, then the
      column address in two nibbles, `0x10 | (col >> 4)` and
      `col & 0x0F`; for a column below 128 those nibbles are `col / 16`
      and `col % 16`. */
  function PositionCmd(page: int, col: int): (r: seq<bv8>)
    requires 0 <= page < PAGES && 0 <= col < COLUMNS
    ensures |r| == 3
    ensures r[0] as int == 0xB0 + page && r[1] as int == 0x10 + col / 16 && r[2] as int == col % 16
  {
    var p := Nibble(page);
    var h := Nibble(col / 16);
    var l := Nibble(col % 16);
    NibbleOr(p);
    NibbleOr(h);
    [0xB0 | p, 0x10 | h, l]
  }

  /** A number below 16 as a byte. */
  function Nibble(n: int): (b: bv8)
    requires 0 <= n < 16
    ensures b as int == n
  {
    if n < 8 then
      if n < 4 then (if n == 0 then 0 else if n == 1 then 1 else if n == 2 then 2 else 3)
      else (if n == 4 then 4 else if n == 5 then 5 else if n == 6 then 6 else 7)
    else if n < 12 then (if n == 8 then 8 else if n == 9 then 9 else if n == 10 then 10 else 11)
    else (if n == 12 then 12 else if n == 13 then 13 else if n == 14 then 14 else 15)
  }

  /** A nibble put under a command's high nibble is read back by the
      masks. */
  lemma NibbleOr(b: bv8)
    requires b < 16
    ensures (0xB0 | b) as int == 0xB0 + b as int && (0x10 | b) as int == 0x10 + b as int
    ensures (0xB0 | b) & 0xF0 == 0xB0 && (0x10 | b) & 0xF0 == 0x10 && b & 0xF0 == 0
    ensures (0xB0 | b) & 0x0F == b && (0x10 | b) & 0x0F == b && b & 0x0F == b
  {
  }

  predicate InPage(runs: seq<Run>) {
    forall k :: 0 <= k < |runs| ==> 0 <= runs[k].pos < End(runs[k]) <= COLUMNS
  }

  /** The messages for one run: where it goes, then its bytes of the new
      page. */
  function RunMsgs(page: int, n: seq<bv8>, r: Run): seq<Send>
    requires 0 <= page < PAGES && |n| == COLUMNS && 0 <= r.pos < End(r) <= COLUMNS
  {
    [Send(false, PositionCmd(page, r.pos)), Send(true, n[r.pos..End(r)])]
  }

  function RunsMsgs(page: int, n: seq<bv8>, runs: seq<Run>): seq<Send>
    requires 0 <= page < PAGES && |n| == COLUMNS && InPage(runs)
    decreases |runs|
  {
    if |runs| == 0 then [] else RunMsgs(page, n, runs[0]) + RunsMsgs(page, n, runs[1..])
  }

  /** The batched runs of one page: they lie in the page, are apart and
      cannot be joined further, and cover every changed column. */
  function PageRuns(n: seq<bv8>, o: seq<bv8>): (r: seq<Run>)
    requires |n| == |o| == COLUMNS
    ensures InPage(r) && Apart(r) && Unmergeable(r)
    ensures CoversDiffs(r, n, o, 0)
    ensures n == o ==> r == []
  {
    var d := Diffs(n, o, 0);
    var r := Batch(d);
    BatchCovers(n, o, d, r);
    r
  }

  lemma {:induction false} BatchCovers(n: seq<bv8>, o: seq<bv8>, d: seq<Run>, r: seq<Run>)
    requires |n| == |o| == COLUMNS
    requires Singles(d, n, o, 0) && Increasing(d) && CoversDiffs(d, n, o, 0)
    requires BatchOf(d, r)
    ensures InPage(r) && CoversDiffs(r, n, o, 0)
    ensures n == o ==> r == []
  {
    if |d| >= 1 {
      assert d[0] in d && d[|d| - 1] in d;
      forall k | 0 <= k < |r| ensures 0 <= r[k].pos < End(r[k]) <= COLUMNS {
        ApartBounds(r, k);
      }
    }
  }

  lemma {:induction false} ApartBounds(r: seq<Run>, k: nat)
    requires Apart(r) && k < |r|
    ensures r[0].pos <= r[k].pos && End(r[k]) <= End(r[|r| - 1])
    decreases |r| - k
  {
    if k < |r| - 1 {
      ApartBounds(r, k + 1);
    }
    if k > 0 {
      ApartFirst(r, k);
    }
  }

  lemma {:induction false} ApartFirst(r: seq<Run>, k: nat)
    requires Apart(r) && k < |r|
    ensures r[0].pos <= r[k].pos
  {
    if k > 0 {
      ApartFirst(r, k - 1);
    }
  }

  /** The messages for one page: none when it is unchanged. */
  function PageMsgs(page: int, n: seq<bv8>, o: seq<bv8>): (r: seq<Send>)
    requires 0 <= page < PAGES && |n| == |o| == COLUMNS
    ensures n == o ==> r == []
  {
    if n == o then [] else RunsMsgs(page, n, PageRuns(n, o))
  }

  function FlushMsgs(d: Display, page: nat): (r: seq<Send>)
    requires Valid(d) && page <= PAGES
    decreases PAGES - page
  {
    if page == PAGES then [] else PageMsgs(page, d.cur[page], d.sent[page]) + FlushMsgs(d, page + 1)
  }

  /** `flush`: every page's messages in page order; afterwards the sent
      buffer is the current one, and nothing is sent when nothing
      changed. */
  function Flush(d: Display): (r: (Display, seq<Send>))
    requires Valid(d)
    ensures Valid(r.0) && r.0.cur == d.cur && r.0.sent == d.cur
    ensures d.cur == d.sent ==> r.1 == []
  {
    FlushSilent(d, 0);
    (d.(sent := d.cur), FlushMsgs(d, 0))
  }

  lemma {:induction false} FlushSilent(d: Display, page: nat)
    requires Valid(d) && page <= PAGES
    ensures d.cur == d.sent ==> FlushMsgs(d, page) == []
    decreases PAGES - page
  {
    if page < PAGES {
      FlushSilent(d, page + 1);
    }
  }

  // ------------------------------------------------------------ controller

  /** The controller: its display RAM and the page and column pointer. */
  datatype Controller = Controller(ram: seq<seq<bv8>>, page: int, col: int)

  /** Whether a command message is a position command. */
  predicate IsPosition(b: seq<bv8>) {
    |b| == 3 && b[0] & 0xF0 == 0xB0 && b[1] & 0xF0 == 0x10 && b[2] & 0xF0 == 0
  }

  /** A position command `0xBp 0x1h 0x0l` moves the pointer to page `p`,
      column `16 h + l`; any other command leaves it alone. Data bytes are
      written from the pointer on and advance the column; bytes that would
      run past the page are dropped. */
  function Exec(c: Controller, m: Send): Controller {
    if !m.isData then
      if IsPosition(m.bytes) then
        c.(page := (m.bytes[0] & 0x0F) as int, col := (m.bytes[1] & 0x0F) as int * 16 + (m.bytes[2] & 0x0F) as int)
      else c
    else if 0 <= c.page < |c.ram| && 0 <= c.col && c.col + |m.bytes| <= |c.ram[c.page]| then
      c.(ram := c.ram[c.page := Write(c.ram[c.page], c.col, m.bytes)], col := c.col + |m.bytes|)
    else c.(col := c.col + |m.bytes|)
  }

  /** The bytes written over a page from column `col`. */
  function Write(p: seq<bv8>, col: int, bytes: seq<bv8>): (r: seq<bv8>)
    requires 0 <= col && col + |bytes| <= |p|
    ensures |r| == |p|
    ensures forall j :: 0 <= j < |p| ==> r[j] == if col <= j < col + |bytes| then bytes[j - col] else p[j]
  {
    p[..col] + bytes + p[col + |bytes|..]
  }

  function ExecAll(c: Controller, ms: seq<Send>): Controller
    decreases |ms|
  {
    if |ms| == 0 then c else ExecAll(Exec(c, ms[0]), ms[1..])
  }

  /** Executing two message lists in a row is executing their
      concatenation. */
  lemma {:induction false} ExecAllAppend(c: Controller, a: seq<Send>, b: seq<Send>)
    ensures ExecAll(c, a + b) == ExecAll(ExecAll(c, a), b)
    decreases |a|
  {
    if |a| > 0 {
      assert (a + b)[0] == a[0] && (a + b)[1..] == a[1..] + b;
      ExecAllAppend(Exec(c, a[0]), a[1..], b);
    } else {
      assert a + b == b;
    }
  }

  /** The position command decodes to the page and column it was built
      from. */
  lemma {:induction false} PositionDecodes(c: Controller, page: int, col: int)
    requires 0 <= page < PAGES && 0 <= col < COLUMNS
    ensures IsPosition(PositionCmd(page, col))
    ensures Exec(c, Send(false, PositionCmd(page, col))) == c.(page := page, col := col)
  {
    NibbleOr(Nibble(page));
    NibbleOr(Nibble(col / 16));
    NibbleOr(Nibble(col % 16));
  }

  /** A page with the runs' bytes of `n` written over it: covered columns
      take the new byte, the others keep theirs. */
  function ApplyRuns(p: seq<bv8>, n: seq<bv8>, runs: seq<Run>): (r: seq<bv8>)
    requires |p| == |n| == COLUMNS && InPage(runs)
    ensures |r| == COLUMNS
    ensures forall j :: 0 <= j < COLUMNS ==> r[j] == if Covered(runs, j) then n[j] else p[j]
    decreases |runs|
  {
    if |runs| == 0 then p
    else
      var q := Write(p, runs[0].pos, n[runs[0].pos..End(runs[0])]);
      var r := ApplyRuns(q, n, runs[1..]);
      ApplyStep(p, n, runs, q, r);
      r
  }

  lemma {:induction false} ApplyStep(p: seq<bv8>, n: seq<bv8>, runs: seq<Run>, q: seq<bv8>, r: seq<bv8>)
    requires |p| == |n| == |q| == |r| == COLUMNS && |runs| >= 1
    requires forall j :: 0 <= j < COLUMNS ==> q[j] == if runs[0].pos <= j < End(runs[0]) then n[j] else p[j]
    requires forall j :: 0 <= j < COLUMNS ==> r[j] == if Covered(runs[1..], j) then n[j] else q[j]
    ensures forall j :: 0 <= j < COLUMNS ==> r[j] == if Covered(runs, j) then n[j] else p[j]
  {
    forall j | 0 <= j < COLUMNS ensures r[j] == if Covered(runs, j) then n[j] else p[j] {
      CoveredSplit(runs, j);
    }
  }

  /** What one run's messages do: set the pointer, write the run's
      bytes. */
  lemma {:induction false} RunStep(c: Controller, page: int, n: seq<bv8>, r: Run)
    requires 0 <= page < PAGES && |n| == COLUMNS && 0 <= r.pos < End(r) <= COLUMNS
    requires WellSized(c.ram)
    ensures ExecAll(c, RunMsgs(page, n, r)) ==
      Controller(c.ram[page := Write(c.ram[page], r.pos, n[r.pos..End(r)])], page, End(r))
  {
    var ms := RunMsgs(page, n, r);
    PositionDecodes(c, page, r.pos);
    var c1 := c.(page := page, col := r.pos);
    assert Exec(c, ms[0]) == c1;
    var c2 := Exec(c1, ms[1]);
    assert c2 == Controller(c.ram[page := Write(c.ram[page], r.pos, n[r.pos..End(r)])], page, End(r));
    assert ms[1..] == [ms[1]];
    assert ExecAll(c1, ms[1..]) == ExecAll(c2, []);
  }

  /** One page's run messages write the runs over that page of the
      controller's RAM. */
  lemma {:induction false} RunsMsgsWrite(c: Controller, page: int, n: seq<bv8>, runs: seq<Run>)
    requires 0 <= page < PAGES && |n| == COLUMNS && InPage(runs)
    requires WellSized(c.ram)
    ensures ExecAll(c, RunsMsgs(page, n, runs)).ram == c.ram[page := ApplyRuns(c.ram[page], n, runs)]
    decreases |runs|
  {
    if |runs| == 0 {
      assert c.ram[page := c.ram[page]] == c.ram;
    } else {
      var r := runs[0];
      var q := Write(c.ram[page], r.pos, n[r.pos..End(r)]);
      var c2 := Controller(c.ram[page := q], page, End(r));
      RunsMsgsCons(c, page, n, runs);
      PageUpdateSized(c.ram, page, q);
      RunsMsgsWrite(c2, page, n, runs[1..]);
      var a := ApplyRuns(q, n, runs[1..]);
      assert ApplyRuns(c.ram[page], n, runs) == a;
      UpdateTwice(c.ram, page, q, a);
    }
  }

  lemma {:induction false} RunsMsgsCons(c: Controller, page: int, n: seq<bv8>, runs: seq<Run>)
    requires 0 <= page < PAGES && |n| == COLUMNS && InPage(runs) && |runs| >= 1
    requires WellSized(c.ram)
    ensures ExecAll(c, RunsMsgs(page, n, runs)) ==
      ExecAll(Controller(c.ram[page := Write(c.ram[page], runs[0].pos, n[runs[0].pos..End(runs[0])])], page, End(runs[0])),
              RunsMsgs(page, n, runs[1..]))
  {
    var ms1 := RunMsgs(page, n, runs[0]);
    var ms2 := RunsMsgs(page, n, runs[1..]);
    assert RunsMsgs(page, n, runs) == ms1 + ms2;
    ExecAllAppend(c, ms1, ms2);
    RunStep(c, page, n, runs[0]);
  }

  lemma UpdateTwice<T>(s: seq<T>, i: int, x: T, y: T)
    requires 0 <= i < |s|
    ensures s[i := x][i := y] == s[i := y]
  {
  }

  lemma PageUpdateSized(ram: seq<seq<bv8>>, page: int, q: seq<bv8>)
    requires WellSized(ram) && 0 <= page < PAGES && |q| == COLUMNS
    ensures WellSized(ram[page := q])
  {
  }

  /** The batched runs rebuild the new page from the old one. */
  lemma {:induction false} PageRunsRebuild(n: seq<bv8>, o: seq<bv8>)
    requires |n| == |o| == COLUMNS
    ensures ApplyRuns(o, n, PageRuns(n, o)) == n
  {
    ApplyCovering(n, o, PageRuns(n, o));
  }

  /** Runs covering every changed column rebuild the new page. */
  lemma {:induction false} ApplyCovering(n: seq<bv8>, o: seq<bv8>, runs: seq<Run>)
    requires |n| == |o| == COLUMNS && InPage(runs) && CoversDiffs(runs, n, o, 0)
    ensures ApplyRuns(o, n, runs) == n
  {
    var a := ApplyRuns(o, n, runs);
    forall j | 0 <= j < COLUMNS ensures a[j] == n[j] {
      if !Covered(runs, j) {
        assert n[j] == o[j];
      }
    }
  }

  /** One page's messages turn that page of the RAM from the sent page
      into the current one. */
  lemma {:induction false} PageMsgsRebuild(c: Controller, page: int, n: seq<bv8>, o: seq<bv8>)
    requires 0 <= page < PAGES && |n| == |o| == COLUMNS
    requires WellSized(c.ram) && c.ram[page] == o
    ensures ExecAll(c, PageMsgs(page, n, o)).ram == c.ram[page := n]
  {
    if n == o {
      assert c.ram[page := n] == c.ram;
    } else {
      RunsMsgsWrite(c, page, n, PageRuns(n, o));
      PageRunsRebuild(n, o);
    }
  }

  /** The RAM when the pages before `page` are current and the others as
      sent. */
  function Midway(d: Display, page: int): seq<seq<bv8>>
    requires Valid(d) && 0 <= page <= PAGES
  {
    d.cur[..page] + d.sent[page..]
  }

  lemma {:induction false} MidwayStep(d: Display, page: int)
    requires Valid(d) && 0 <= page < PAGES
    ensures WellSized(Midway(d, page)) && Midway(d, page)[page] == d.sent[page]
    ensures Midway(d, page)[page := d.cur[page]] == Midway(d, page + 1)
  {
    var m := Midway(d, page);
    assert forall p :: 0 <= p < page ==> m[p] == d.cur[p];
    assert forall p :: page <= p < PAGES ==> m[p] == d.sent[p];
  }

  lemma {:induction false} FlushMsgsRebuild(d: Display, page: nat, c: Controller)
    requires Valid(d) && page <= PAGES
    requires c.ram == Midway(d, page)
    ensures ExecAll(c, FlushMsgs(d, page)).ram == d.cur
    decreases PAGES - page
  {
    if page == PAGES {
      assert Midway(d, page) == d.cur;
    } else {
      MidwayStep(d, page);
      var ms := PageMsgs(page, d.cur[page], d.sent[page]);
      ExecAllAppend(c, ms, FlushMsgs(d, page + 1));
      PageMsgsRebuild(c, page, d.cur[page], d.sent[page]);
      FlushMsgsRebuild(d, page + 1, ExecAll(c, ms));
    }
  }

  /** A controller whose RAM holds what was last sent shows the drawn
      buffer after executing what `flush` sends, wherever its pointer
      was. */
  lemma {:induction false} FlushRebuilds(d: Display, page: int, col: int)
    requires Valid(d)
    ensures ExecAll(Controller(d.sent, page, col), Flush(d).1).ram == d.cur
  {
    assert Midway(d, 0) == d.sent;
    FlushMsgsRebuild(d, 0, Controller(d.sent, page, col));
  }

  // ------------------------------------------------------------ pixels

  /** The byte with only bit `i` set. */
  function Mask(i: int): bv8
    requires 0 <= i < 8
  {
    if i == 0 then 1 else if i == 1 then 2 else if i == 2 then 4 else if i == 3 then 8
    else if i == 4 then 16 else if i == 5 then 32 else if i == 6 then 64 else 128
  }

  predicate Bit(b: bv8, i: int)
    requires 0 <= i < 8
  {
    b & Mask(i) != 0
  }

  /** Setting or clearing one bit leaves the other seven alone. */
  lemma {:induction false} BitUpdate(b: bv8, i: int, j: int)
    requires 0 <= i < 8 && 0 <= j < 8
    ensures Bit(b | Mask(i), j) <==> i == j || Bit(b, j)
    ensures Bit(b & !Mask(i), j) <==> i != j && Bit(b, j)
  {
    MasksApart(i, j);
    MaskBitsAt(b, i, j);
  }

  lemma {:induction false} MaskBitsAt(b: bv8, i: int, j: int)
    requires 0 <= i < 8 && 0 <= j < 8
    requires Mask(j) != 0 && (Mask(i) == Mask(j) || Mask(i) & Mask(j) == 0)
    ensures (b | Mask(i)) & Mask(j) != 0 <==> Mask(i) == Mask(j) || b & Mask(j) != 0
    ensures (b & !Mask(i)) & Mask(j) != 0 <==> Mask(i) != Mask(j) && b & Mask(j) != 0
  {
    MaskBits(b, Mask(i), Mask(j));
  }

  /** Different bits have disjoint masks. */
  lemma MasksApart(i: int, j: int)
    requires 0 <= i < 8 && 0 <= j < 8
    ensures Mask(j) != 0
    ensures i == j <==> Mask(i) == Mask(j)
    ensures i != j ==> Mask(i) & Mask(j) == 0
  {
  }

  lemma MaskBits(b: bv8, m: bv8, mj: bv8)
    requires mj != 0 && (m == mj || m & mj == 0)
    ensures (b | m) & mj != 0 <==> m == mj || b & mj != 0
    ensures (b & !m) & mj != 0 <==> m != mj && b & mj != 0
  {
  }

  predicate OnScreen(x: int, y: int) {
    0 <= x < COLUMNS && 0 <= y && y / 8 < PAGES
  }

  /** Whether `vram[page][x]`, with `page` the floor of `y / 8`, indexes
      the buffer: a Python list index from `-n` to `n - 1` is valid, the
      negative ones counting from the end. */
  predicate InBuffer(x: int, y: int) {
    -COLUMNS <= x < COLUMNS && -PAGES <= y / 8 < PAGES
  }

  /** The element a valid Python index `i` of a length-`n` list names. */
  function Wrap(i: int, n: int): (r: int)
    requires -n <= i < n
    ensures 0 <= r < n && (r == i || r == i + n)
  {
    if i < 0 then i + n else i
  }

  /** The column `set_pixel(x, y)` reaches. */
  function ScreenX(x: int): (r: int)
    requires -COLUMNS <= x < COLUMNS
    ensures 0 <= r < COLUMNS
    ensures 0 <= x ==> r == x
    ensures x < 0 ==> r == x + COLUMNS
  {
    Wrap(x, COLUMNS)
  }

  /** The pixel row `set_pixel(x, y)` reaches: bit `y % 8` of the page
      that the index `y // 8` names. */
  function ScreenY(y: int): (r: int)
    requires -PAGES <= y / 8 < PAGES
    ensures 0 <= r / 8 < PAGES && r / 8 == Wrap(y / 8, PAGES) && r % 8 == y % 8
    ensures 0 <= y ==> r == y
  {
    var r := Wrap(y / 8, PAGES) * 8 + y % 8;
    PageBit(Wrap(y / 8, PAGES), y % 8);
    r
  }

  lemma PageBit(p: int, b: int)
    requires 0 <= b < 8
    ensures (p * 8 + b) / 8 == p && (p * 8 + b) % 8 == b
  {
  }

  /** Whether pixel (x, y) is lit in the buffer being drawn: bit `y % 8`
      of column `x` of page `y / 8`. */
  predicate Pixel(d: Display, x: int, y: int)
    requires Valid(d) && OnScreen(x, y)
  {
    Bit(d.cur[y / 8][x], y % 8)
  }

  /** Every pixel other than (x, y) is as it was. */
  ghost predicate SameElsewhere(d: Display, e: Display, x: int, y: int)
    requires Valid(d) && Valid(e)
  {
    forall x', y' :: OnScreen(x', y') && (x' != x || y' != y) ==> Pixel(e, x', y') == Pixel(d, x', y')
  }

  /** The display with the byte of pixel (x, y) replaced. */
  function PutByte(d: Display, x: int, y: int, nb: bv8): (r: Display)
    requires Valid(d) && OnScreen(x, y)
    ensures Valid(r) && r.sent == d.sent
  {
    d.(cur := d.cur[y / 8 := d.cur[y / 8][x := nb]])
  }

  /** A byte that keeps the other seven bits keeps the other pixels. */
  lemma {:induction false} PutByteFrame(d: Display, x: int, y: int, nb: bv8)
    requires Valid(d) && OnScreen(x, y)
    requires forall j :: 0 <= j < 8 && j != y % 8 ==> (Bit(nb, j) <==> Bit(d.cur[y / 8][x], j))
    ensures Pixel(PutByte(d, x, y, nb), x, y) == Bit(nb, y % 8)
    ensures SameElsewhere(d, PutByte(d, x, y, nb), x, y)
  {
    var r := PutByte(d, x, y, nb);
    forall x', y' | OnScreen(x', y') && (x' != x || y' != y) ensures Pixel(r, x', y') == Pixel(d, x', y') {
      if y' / 8 != y / 8 {
        assert r.cur[y' / 8] == d.cur[y' / 8];
      } else if x' != x {
        assert r.cur[y / 8][x'] == d.cur[y / 8][x'];
      } else {
        assert y' % 8 != y % 8;
      }
    }
  }

  /** `set_pixel`: with `exclusive` a lit pixel is turned off, otherwise
      the pixel is lit. A negative column or page counts from the end of
      its list, so it wraps onto the screen; an index beyond the buffer
      raises. */
  function SetPixel(d: Display, x: int, y: int, exclusive: bool): (r: Result<Display>)
    requires Valid(d)
    ensures r.Ok? <==> InBuffer(x, y)
    ensures r.Ok? ==> Valid(r.value) && r.value.sent == d.sent
    ensures r.Ok? ==> var sx, sy := ScreenX(x), ScreenY(y);
      && (Pixel(r.value, sx, sy) <==> !(exclusive && Pixel(d, sx, sy)))
      && SameElsewhere(d, r.value, sx, sy)
  {
    if !InBuffer(x, y) then Err("IndexError")
    else SetPixelAt(d, ScreenX(x), ScreenY(y), exclusive)
  }

  /** `set_pixel` once the indices are on the screen. */
  function SetPixelAt(d: Display, x: int, y: int, exclusive: bool): (r: Result<Display>)
    requires Valid(d) && OnScreen(x, y)
    ensures r.Ok? && Valid(r.value) && r.value.sent == d.sent
    ensures Pixel(r.value, x, y) <==> !(exclusive && Pixel(d, x, y))
    ensures SameElsewhere(d, r.value, x, y)
  {
    if exclusive && Pixel(d, x, y) then
      ClearFrame(d, x, y);
      Ok(PutByte(d, x, y, d.cur[y / 8][x] & !Mask(y % 8)))
    else
      SetFrame(d, x, y);
      Ok(PutByte(d, x, y, d.cur[y / 8][x] | Mask(y % 8)))
  }

  lemma {:induction false} SetFrame(d: Display, x: int, y: int)
    requires Valid(d) && OnScreen(x, y)
    ensures Pixel(PutByte(d, x, y, d.cur[y / 8][x] | Mask(y % 8)), x, y)
    ensures SameElsewhere(d, PutByte(d, x, y, d.cur[y / 8][x] | Mask(y % 8)), x, y)
  {
    var b := d.cur[y / 8][x];
    var i := y % 8;
    SetBitFacts(b, i);
    PutByteFrame(d, x, y, b | Mask(i));
  }

  lemma {:induction false} ClearFrame(d: Display, x: int, y: int)
    requires Valid(d) && OnScreen(x, y)
    ensures !Pixel(PutByte(d, x, y, d.cur[y / 8][x] & !Mask(y % 8)), x, y)
    ensures SameElsewhere(d, PutByte(d, x, y, d.cur[y / 8][x] & !Mask(y % 8)), x, y)
  {
    var b := d.cur[y / 8][x];
    var i := y % 8;
    ClearBitFacts(b, i);
    PutByteFrame(d, x, y, b & !Mask(i));
  }

  /** Setting bit `i` sets it and keeps the others. */
  lemma {:induction false} SetBitFacts(b: bv8, i: int)
    requires 0 <= i < 8
    ensures Bit(b | Mask(i), i)
    ensures forall j :: 0 <= j < 8 && j != i ==> (Bit(b | Mask(i), j) <==> Bit(b, j))
  {
    BitUpdate(b, i, i);
    forall j | 0 <= j < 8 && j != i ensures Bit(b | Mask(i), j) <==> Bit(b, j) {
      BitUpdate(b, i, j);
    }
  }

  /** Clearing bit `i` clears it and keeps the others. */
  lemma {:induction false} ClearBitFacts(b: bv8, i: int)
    requires 0 <= i < 8
    ensures !Bit(b & !Mask(i), i)
    ensures forall j :: 0 <= j < 8 && j != i ==> (Bit(b & !Mask(i), j) <==> Bit(b, j))
  {
    BitUpdate(b, i, i);
    forall j | 0 <= j < 8 && j != i ensures Bit(b & !Mask(i), j) <==> Bit(b, j) {
      BitUpdate(b, i, j);
    }
  }

  /** A negative index names the same pixel as the index one list length
      higher: a column 128 lower or a pixel row 64 lower draws alike. */
  lemma {:induction false} NegativeIndexWraps(d: Display, x: int, y: int, exclusive: bool)
    requires Valid(d) && OnScreen(x, y)
    ensures SetPixel(d, x - COLUMNS, y, exclusive) == SetPixel(d, x, y, exclusive)
    ensures SetPixel(d, x, y - 8 * PAGES, exclusive) == SetPixel(d, x, y, exclusive)
    ensures ClearPixel(d, x - COLUMNS, y) == ClearPixel(d, x, y)
    ensures ClearPixel(d, x, y - 8 * PAGES) == ClearPixel(d, x, y)
  {
    var y' := y - 8 * PAGES;
    assert y' / 8 == y / 8 - PAGES && y' % 8 == y % 8;
    assert ScreenY(y') == y;
  }

  /** `set_pixel(-1, 0)` lights column 127 of page 0 and `set_pixel(0, -1)`
      bit 7 of page 7, while a column of 128 or below -128 and a page of 8
      or below -8 raise. */
  lemma PixelIndexEdges(d: Display)
    requires Valid(d)
    ensures SetPixel(d, -1, 0, false).Ok? && Pixel(SetPixel(d, -1, 0, false).value, 127, 0)
    ensures SetPixel(d, 0, -1, false).Ok? && Pixel(SetPixel(d, 0, -1, false).value, 0, 63)
    ensures SetPixel(d, 128, 0, false).Err? && SetPixel(d, -129, 0, false).Err?
    ensures SetPixel(d, 0, 64, false).Err? && SetPixel(d, 0, -65, false).Err?
  {
    assert ScreenY(-1) == 63;
  }

  /** `clear_pixel`: the pixel is turned off; its indices wrap and
      raise as for `set_pixel`. */
  function ClearPixel(d: Display, x: int, y: int): (r: Result<Display>)
    requires Valid(d)
    ensures r.Ok? <==> InBuffer(x, y)
    ensures r.Ok? ==> Valid(r.value) && r.value.sent == d.sent
    ensures r.Ok? ==> var sx, sy := ScreenX(x), ScreenY(y);
      !Pixel(r.value, sx, sy) && SameElsewhere(d, r.value, sx, sy)
  {
    if !InBuffer(x, y) then Err("IndexError")
    else
      var sx, sy := ScreenX(x), ScreenY(y);
      ClearFrame(d, sx, sy);
      Ok(PutByte(d, sx, sy, d.cur[sy / 8][sx] & !Mask(sy % 8)))
  }

  /** `clear`: the buffer being drawn is zeroed; the sent one is kept, so
      the next flush sends what the clear changed. */
  function Clear(d: Display): (r: Display)
    requires Valid(d)
    ensures Valid(r) && r.sent == d.sent
    ensures forall x, y :: OnScreen(x, y) ==> !Pixel(r, x, y)
  {
    d.(cur := seq(PAGES, _ => seq(COLUMNS, _ => 0)))
  }

  // ------------------------------------------------------------ text

  /** The character codes drawn as blanks. */
  predicate EmptyChar(code: int) {
    code == 0 || code == 32 || code == 255
  }

  /** The text `write_text` draws from cell column `x` on: cut to the 16
      cells of a line. */
  function Truncate<T>(x: int, data: seq<T>): (r: seq<T>)
    ensures r <= data
    ensures x + |data| <= 16 ==> r == data
    ensures x + |data| > 16 ==> x + |r| == 16 || (x >= 16 && r == [])
  {
    if x + |data| > 16 then data[..16 - (if x < 16 then x else 16)] else data
  }

  /** The font: the rows of the glyph of each code. */
  type Font = int -> seq<bv8>

  /** Whether screen column `x` is reached by a column index from `lo`
      to `hi - 1`, directly or as a negative index. */
  predicate Reached(x: int, lo: int, hi: int) {
    lo <= x < hi || lo <= x - COLUMNS < hi
  }

  /** Whether screen row `y'` is the one pixel row `y` reaches. */
  predicate RowOf(y': int, y: int) {
    -PAGES <= y / 8 < PAGES && y' == ScreenY(y)
  }

  /** The pixels outside the screen columns that indices `lo` to `hi - 1`
      of row `y` reach are as they were. */
  ghost predicate SameOutside(d: Display, e: Display, y: int, lo: int, hi: int)
    requires Valid(d) && Valid(e)
  {
    forall x', y' :: OnScreen(x', y') && (!RowOf(y', y) || !Reached(x', lo, hi)) ==> Pixel(e, x', y') == Pixel(d, x', y')
  }

  /** Drawing bits `i` down to 0 of a row byte at columns `px`, `px + 1`,
      ...: each set bit toggles its pixel. */
  function DrawBits(d: Display, px: int, py: int, bits: bv8, i: int): (r: Result<Display>)
    requires Valid(d) && -1 <= i < 8
    ensures r.Ok? ==> Valid(r.value) && r.value.sent == d.sent
    ensures r.Ok? ==> SameOutside(d, r.value, py, px, px + i + 1)
    decreases i + 1
  {
    if i < 0 then Ok(d)
    else if Bit(bits, i) then
      match SetPixel(d, px, py, true)
      case Err(e) => Err(e)
      case Ok(d1) =>
        var r := DrawBits(d1, px + 1, py, bits, i - 1);
        SameOutsideStep(d, d1, r, px, py, i);
        r
    else DrawBits(d, px + 1, py, bits, i - 1)
  }

  lemma SameOutsideStep(d: Display, d1: Display, r: Result<Display>, px: int, py: int, i: int)
    requires Valid(d) && Valid(d1) && (r.Ok? ==> Valid(r.value)) && i >= 0 && InBuffer(px, py)
    requires SameElsewhere(d, d1, ScreenX(px), ScreenY(py)) && (r.Ok? ==> SameOutside(d1, r.value, py, px + 1, px + i + 1))
    ensures r.Ok? ==> SameOutside(d, r.value, py, px, px + i + 1)
  {
  }

  /** Every on-screen pixel of bits `i` down to 0, bit `k` at column
      `px + i - k` of row `py`, is toggled exactly when the bit is set. */
  ghost predicate Toggled(d: Display, e: Display, px: int, py: int, bits: bv8, i: int)
    requires Valid(d) && Valid(e) && i < 8
  {
    forall k :: 0 <= k <= i && OnScreen(px + i - k, py) ==>
      (Pixel(e, px + i - k, py) <==> Pixel(d, px + i - k, py) != Bit(bits, k))
  }

  /** With the whole row on the screen, drawing never fails and toggles
      exactly the pixels of the set bits: bit `k` lands at column
      `px + i - k`. */
  lemma {:induction false} DrawBitsToggles(d: Display, px: int, py: int, bits: bv8, i: int)
    requires Valid(d) && -1 <= i < 8 && OnScreen(px, py) && OnScreen(px + i, py)
    ensures DrawBits(d, px, py, bits, i).Ok?
    ensures Toggled(d, DrawBits(d, px, py, bits, i).value, px, py, bits, i)
    decreases i + 1
  {
    if i >= 0 {
      var d1 := Head(d, px, py, bits, i);
      DrawBitsHead(d, px, py, bits, i);
      if i >= 1 {
        DrawBitsToggles(d1, px + 1, py, bits, i - 1);
      }
      TogglesAfterHead(d, d1, px, py, bits, i);
    }
  }

  /** The step of `DrawBitsToggles`: the head bit, then the rest of the
      row as the induction gives it. */
  lemma {:induction false} TogglesAfterHead(d: Display, d1: Display, px: int, py: int, bits: bv8, i: int)
    requires Valid(d) && 0 <= i < 8 && OnScreen(px, py) && d1 == Head(d, px, py, bits, i)
    requires DrawBits(d, px, py, bits, i) == DrawBits(d1, px + 1, py, bits, i - 1)
    requires i >= 1 ==> DrawBits(d1, px + 1, py, bits, i - 1).Ok?
    requires i >= 1 ==> Toggled(d1, DrawBits(d1, px + 1, py, bits, i - 1).value, px + 1, py, bits, i - 1)
    ensures DrawBits(d, px, py, bits, i).Ok?
    ensures Toggled(d, DrawBits(d, px, py, bits, i).value, px, py, bits, i)
  {
    var r := DrawBits(d1, px + 1, py, bits, i - 1);
    assert r.Ok?;
    KeptLeftOfRun(d1, r.value, px, py, i);
    TogglesStep(d, d1, r, px, py, bits, i);
  }

  /** The display after the first bit of `DrawBits`. */
  function Head(d: Display, px: int, py: int, bits: bv8, i: int): (r: Display)
    requires Valid(d) && 0 <= i < 8 && OnScreen(px, py)
    ensures Valid(r) && SameElsewhere(d, r, px, py)
    ensures Pixel(r, px, py) <==> Pixel(d, px, py) != Bit(bits, i)
  {
    if Bit(bits, i) then SetPixel(d, px, py, true).value else d
  }

  lemma DrawBitsHead(d: Display, px: int, py: int, bits: bv8, i: int)
    requires Valid(d) && 0 <= i < 8 && OnScreen(px, py)
    ensures DrawBits(d, px, py, bits, i) == DrawBits(Head(d, px, py, bits, i), px + 1, py, bits, i - 1)
  {
  }

  /** Drawing from the column after `px` on leaves pixel (px, py). */
  lemma KeptLeftOfRun(d: Display, e: Display, px: int, py: int, i: int)
    requires Valid(d) && Valid(e) && 0 <= i < 8 && OnScreen(px, py)
    requires SameOutside(d, e, py, px + 1, px + i + 1)
    ensures Pixel(e, px, py) == Pixel(d, px, py)
  {
    assert !Reached(px, px + 1, px + i + 1);
  }

  lemma {:induction false} TogglesStep(d: Display, d1: Display, r: Result<Display>, px: int, py: int, bits: bv8, i: int)
    requires Valid(d) && Valid(d1) && 0 <= i < 8 && OnScreen(px, py)
    requires SameElsewhere(d, d1, px, py) && (Pixel(d1, px, py) <==> Pixel(d, px, py) != Bit(bits, i))
    requires r.Ok? && Valid(r.value) && Pixel(r.value, px, py) == Pixel(d1, px, py)
    requires i == 0 || Toggled(d1, r.value, px + 1, py, bits, i - 1)
    ensures Toggled(d, r.value, px, py, bits, i)
  {
    forall k | 0 <= k <= i && OnScreen(px + i - k, py)
      ensures Pixel(r.value, px + i - k, py) <==> Pixel(d, px + i - k, py) != Bit(bits, k)
    {
      if k < i {
        assert px + 1 + (i - 1) - k == px + i - k;
        assert Pixel(d1, px + i - k, py) == Pixel(d, px + i - k, py);
      } else {
        assert Pixel(r.value, px, py) == Pixel(d1, px, py);
      }
    }
  }

  /** The rows of a glyph, one pixel row each from `py` down; zero rows
      are skipped. */
  function DrawRows(d: Display, px: int, py: int, rows: seq<bv8>): (r: Result<Display>)
    requires Valid(d)
    ensures r.Ok? ==> Valid(r.value) && r.value.sent == d.sent
    decreases |rows|
  {
    if |rows| == 0 then Ok(d)
    else
      var d1 := if rows[0] != 0 then DrawBits(d, px, py, rows[0], 7) else Ok(d);
      match d1
      case Err(e) => Err(e)
      case Ok(d2) => DrawRows(d2, px, py + 1, rows[1..])
  }

  /** Whether a character is drawn as a blank. */
  predicate Blank(c: char) {
    EmptyChar(c as int % 256)
  }

  /** The characters of the text from pixel column `px`, eight pixels
      apart; blanks only advance. */
  function DrawChars(d: Display, px: int, py: int, data: seq<char>, font: Font): (r: Result<Display>)
    requires Valid(d)
    ensures r.Ok? ==> Valid(r.value) && r.value.sent == d.sent
    ensures (forall k :: 0 <= k < |data| ==> Blank(data[k])) ==> r == Ok(d)
    decreases |data|
  {
    if |data| == 0 then Ok(d)
    else
      var d1 := if Blank(data[0]) then Ok(d) else DrawRows(d, px, py, font(data[0] as int % 256));
      match d1
      case Err(e) => Err(e)
      case Ok(d2) =>
        assert forall k :: 1 <= k < |data| ==> data[1..][k - 1] == data[k];
        DrawChars(d2, px + 8, py, data[1..], font)
  }

  /** `write_text`: the text cut to the line, in 8x16 cells from cell
      (x, y); from beyond the sixteenth cell nothing is drawn. A negative
      cell is not refused: its pixels wrap as `set_pixel`'s indices do. */
  function WriteText(d: Display, x: int, y: int, data: seq<char>, font: Font): (r: Result<Display>)
    requires Valid(d)
    ensures r.Ok? ==> Valid(r.value) && r.value.sent == d.sent
    ensures x >= 16 ==> r == Ok(d)
  {
    DrawChars(d, x * 8, y * 16, Truncate(x, data), font)
  }

  /** Characters beyond the sixteenth cell are never drawn: the text and
      its cut draw alike. */
  lemma {:induction false} WriteTextIgnoresOverflow(d: Display, x: int, y: int, data: seq<char>, font: Font)
    requires Valid(d)
    ensures WriteText(d, x, y, data, font) == WriteText(d, x, y, Truncate(x, data), font)
  {
    var t := Truncate(x, data);
    assert Truncate(x, t) == t;
  }

  function DrawBytes(d: Display, px: int, py: int, data: seq<bv8>): (r: Result<Display>)
    requires Valid(d)
    ensures r.Ok? ==> Valid(r.value) && r.value.sent == d.sent
    decreases |data|
  {
    if |data| == 0 then Ok(d)
    else match DrawBits(d, px, py, data[0], 7)
      case Err(e) => Err(e)
      case Ok(d1) => DrawBytes(d1, px + 8, py, data[1..])
  }

  /** `write_graphics`: pixel row `row` of cell (x, y), one bit per
      pixel column, cut to the line like text. */
  function WriteGraphics(d: Display, x: int, y: int, row: nat, data: seq<bv8>): (r: Result<Display>)
    requires Valid(d)
    ensures r.Ok? ==> Valid(r.value) && r.value.sent == d.sent
    ensures x >= 16 ==> r == Ok(d)
  {
    DrawBytes(d, x * 8, y * 16 + row, Truncate(x, data))
  }

  /** The named text glyphs. */
  function TextGlyph(name: string): Option<char> {
    if name == "right_arrow" then Some('\U{1A}')
    else if name == "degrees" then Some('\U{F8}')
    else None
  }

  /** An icon's rows from `i` on, each a 16-bit row split into two
      bytes. */
  function IconRows(d: Display, x: int, y: int, icon: seq<int>, i: nat): (r: Result<Display>)
    requires Valid(d) && i <= |icon|
    ensures r.Ok? ==> Valid(r.value) && r.value.sent == d.sent
    decreases |icon| - i
  {
    if i == |icon| then Ok(d)
    else
      var hi := ((icon[i] / 256) % 256) as bv8;
      var lo := (icon[i] % 256) as bv8;
      match WriteGraphics(d, x, y, i, [hi, lo])
      case Err(e) => Err(e)
      case Ok(d1) => IconRows(d1, x, y, icon, i + 1)
  }

  /** `write_glyph`: an icon is drawn and gives 2, a text glyph is
      written and gives 1, any other name draws nothing and gives 0. */
  function WriteGlyph(d: Display, x: int, y: int, name: string, icons: map<string, seq<int>>, font: Font)
    : (r: Result<(Display, int)>)
    requires Valid(d)
    ensures r.Ok? ==> Valid(r.value.0) && r.value.0.sent == d.sent
    ensures r.Ok? ==> (r.value.1 == 2 <==> name in icons)
    ensures r.Ok? ==> (r.value.1 == 1 <==> name !in icons && TextGlyph(name).Some?)
    ensures name !in icons && TextGlyph(name).None? ==> r == Ok((d, 0))
  {
    if name in icons then
      match IconRows(d, x, y, icons[name], 0)
      case Err(e) => Err(e)
      case Ok(d1) => Ok((d1, 2))
    else match TextGlyph(name)
      case Some(c) =>
        (match WriteText(d, x, y, [c], font)
         case Err(e) => Err(e)
         case Ok(d1) => Ok((d1, 1)))
      case None => Ok((d, 0))
  }
}
