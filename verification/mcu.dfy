/** The configuration helpers of the host's MCU object (klippy/mcu.py):
    pin modifier parsing, object-id allocation, custom config lines and
    the assembly of the config command list, and the small conversions
    of the endstop and digital-output wrappers. Clocks computed from float
    print times are parameters; the CRC is a parameter function. */
module Mcu {
  import opened Wrappers
  import opened Strings
  import Pins

  type Bit = x: int | 0 <= x <= 1

  // ------------------------------------------------------------ pins

  datatype PinExtras = PinExtras(name: string, pullup: Bit, invert: Bit)

  predicate StartsWith(s: string, c: char) {
    |s| > 0 && s[0] == c
  }

  /** `parse_pin_extras`: a leading `^` (only when pull-ups are allowed)
      and then a leading `!` are taken off the name, each setting a flag,
      and the rest stripped. */
  function ParsePinExtras(pin: string, canPullup: bool): (r: PinExtras)
    ensures r.pullup == 1 <==> canPullup && StartsWith(pin, '^')
    ensures r.pullup == 0 ==> (r.invert == 1 <==> StartsWith(pin, '!'))
    ensures r.pullup == 0 && r.invert == 0 ==> r.name == pin
    ensures |r.name| <= |pin|
  {
    var (p, pullup) := if canPullup && StartsWith(pin, '^') then (Strip(pin[1..]), 1) else (pin, 0);
    ParseInvert(p, pullup)
  }

  /** The modifiers written in the order the parser expects them. */
  function WithModifiers(name: string, pullup: Bit, invert: Bit): string {
    (if pullup == 1 then "^" else "") + Inverted(name, invert)
  }

  function Inverted(name: string, invert: Bit): string {
    if invert == 1 then "!" + name else name
  }

  /** A pin name without surrounding white space or its own modifier. */
  predicate PlainPinName(name: string) {
    |name| == 0 || (!IsSpace(name[0]) && !IsSpace(name[|name| - 1]) && name[0] != '^' && name[0] != '!')
  }

  /** Parsing recovers the name and flags the modifiers were written
      with. */
  lemma {:induction false} ParsePinExtrasRoundTrip(name: string, pullup: Bit, invert: Bit)
    requires PlainPinName(name)
    ensures ParsePinExtras(WithModifiers(name, pullup, invert), true) == PinExtras(name, pullup, invert)
  {
    var inner := Inverted(name, invert);
    if pullup == 1 {
      assert WithModifiers(name, pullup, invert) == "^" + inner;
      PulledUpName(name, invert);
    } else {
      assert WithModifiers(name, pullup, invert) == inner;
      InvertedName(name, invert);
    }
  }

  lemma {:induction false} PulledUpName(name: string, invert: Bit)
    requires PlainPinName(name)
    ensures ParsePinExtras("^" + Inverted(name, invert), true) == PinExtras(name, 1, invert)
  {
    var inner := Inverted(name, invert);
    var s := "^" + inner;
    InvertedName(name, invert);
    assert StartsWith(s, '^') && s[1..] == inner;
    assert ParsePinExtras(s, true) == ParseInvert(inner, 1);
  }

  /** The second half of the parse: the `!` modifier. */
  function ParseInvert(p: string, pullup: Bit): (r: PinExtras)
    ensures r.pullup == pullup && (r.invert == 1 <==> StartsWith(p, '!'))
  {
    if StartsWith(p, '!') then PinExtras(Strip(p[1..]), pullup, 1)
    else PinExtras(p, pullup, 0)
  }

  /** The name with only its `!` modifier is clean, starts with `!`
      exactly when inverted, and gives the name back when that is taken
      off. */
  lemma {:induction false} InvertedName(name: string, invert: Bit)
    requires PlainPinName(name)
    ensures var inner := Inverted(name, invert);
      && Strip(inner) == inner && !StartsWith(inner, '^')
      && (StartsWith(inner, '!') <==> invert == 1)
      && (invert == 1 ==> Strip(inner[1..]) == name)
      && ParseInvert(inner, 0) == PinExtras(name, 0, invert)
      && ParseInvert(inner, 1) == PinExtras(name, 1, invert)
      && ParsePinExtras(inner, true) == PinExtras(name, 0, invert)
  {
    var inner := Inverted(name, invert);
    StripClean(name);
    if invert == 1 {
      assert inner == "!" + name;
      assert inner[1..] == name;
      StripClean(inner);
    } else {
      assert inner == name;
    }
  }

  /** The `!` must come after the `^`: written the other way round the
      pull-up is not recognised and stays in the name. */
  lemma {:induction false} ParsePinExtrasOrder()
    ensures ParsePinExtras("!^X", true) == PinExtras("^X", 0, 1)
  {
    StripClean("^X");
    assert "!^X"[1..] == "^X";
  }

  // ------------------------------------------------------------ config

  datatype McuConfig = McuConfig(numOids: nat, cmds: seq<string>)

  /** `create_oid`: the next object id. */
  function CreateOid(c: McuConfig): (r: (McuConfig, nat))
    ensures r.1 == c.numOids && r.0.numOids == c.numOids + 1 && r.0.cmds == c.cmds
  {
    (c.(numOids := c.numOids + 1), c.numOids)
  }

  /** `n` objects created one after another. */
  function CreateOids(c: McuConfig, n: nat): (r: (McuConfig, seq<nat>))
    ensures r.1 == seq(n, i => c.numOids + i)
    ensures r.0 == c.(numOids := c.numOids + n)
    decreases n
  {
    if n == 0 then (c, [])
    else
      var (c1, oid) := CreateOid(c);
      var (c2, rest) := CreateOids(c1, n - 1);
      (c2, [oid] + rest)
  }

  /** `add_config_cmd`. */
  function AddConfigCmd(c: McuConfig, cmd: string): (r: McuConfig)
    ensures r.numOids == c.numOids && r.cmds == c.cmds + [cmd]
  {
    c.(cmds := c.cmds + [cmd])
  }

  /** A custom line stripped, cut at its first `#` and stripped again. */
  function CleanLine(line: string): (r: string)
    ensures '#' !in r
    ensures |r| == 0 || (!IsSpace(r[0]) && !IsSpace(r[|r| - 1]))
    ensures '\n' !in line ==> '\n' !in r
  {
    StripSubset(line);
    var l := Strip(line);
    if '#' in l then
      var head := l[..IndexOf(l, '#')];
      IndexOfFirst(l, '#');
      StripSubset(head);
      Strip(head)
    else l
  }

  lemma {:induction false} StripSubset(s: string)
    ensures forall c :: c in Strip(s) ==> c in s
  {
    var l := LStrip(s);
    assert forall c :: c in l ==> c in s by {
      forall c | c in l ensures c in s {
        var i :| 0 <= i < |l| && l[i] == c;
        assert s[|s| - |l| + i] == c;
      }
    }
  }

  /** A line already cleaned is its own cleaning. */
  lemma {:induction false} CleanLineIdempotent(line: string)
    ensures CleanLine(CleanLine(line)) == CleanLine(line)
  {
    StripClean(CleanLine(line));
  }

  /** A clean command is kept by cleaning. */
  lemma {:induction false} CleanLineKeepsCleanCmd(x: string)
    requires IsCleanCmd(x)
    ensures CleanLine(x) == x
  {
    StripClean(x);
  }

  /** A non-blank line that cleaning leaves alone. */
  predicate IsCleanCmd(x: string) {
    x != "" && '#' !in x && !IsSpace(x[0]) && !IsSpace(x[|x| - 1])
  }

  /** The cleaned, non-blank lines in order. */
  function CleanLines(lines: seq<string>): (r: seq<string>)
    ensures |r| <= |lines|
    ensures forall i :: 0 <= i < |r| ==> IsCleanCmd(r[i])
  {
    if |lines| == 0 then []
    else
      var l := CleanLine(lines[0]);
      var rest := CleanLines(lines[1..]);
      if l == "" then rest
      else
        var r := [l] + rest;
        assert forall i :: 0 <= i < |r| ==> IsCleanCmd(r[i]) by {
          forall i | 0 <= i < |r| ensures IsCleanCmd(r[i]) {
            if i > 0 {
              assert r[i] == rest[i - 1];
            }
          }
        }
        r
  }

  /** `_add_custom`: the `custom` text's lines with comments and blank
      lines dropped, in order. */
  function CustomLines(data: string): (r: seq<string>)
    ensures forall i :: 0 <= i < |r| ==> r[i] != "" && '#' !in r[i] && '\n' !in r[i]
  {
    var lines := Split(data, '\n');
    SplitFree(data, '\n');
    var r := CleanLines(lines);
    assert forall i :: 0 <= i < |r| ==> '#' !in r[i] by {
      forall i | 0 <= i < |r| ensures '#' !in r[i] {
        assert IsCleanCmd(r[i]);
      }
    }
    CleanLinesNoNewline(lines);
    r
  }

  lemma {:induction false} CleanLinesNoNewline(lines: seq<string>)
    requires forall i :: 0 <= i < |lines| ==> '\n' !in lines[i]
    ensures forall i :: 0 <= i < |CleanLines(lines)| ==> '\n' !in CleanLines(lines)[i]
  {
    if |lines| > 0 {
      CleanLinesNoNewline(lines[1..]);
      var rest := CleanLines(lines[1..]);
      var l := CleanLine(lines[0]);
      if l != "" {
        var r := [l] + rest;
        forall i | 0 <= i < |r| ensures '\n' !in r[i] {
          if i > 0 {
            assert r[i] == rest[i - 1];
          }
        }
      }
    }
  }

  /** Custom commands that are already clean come back unchanged. */
  lemma {:induction false} CleanLinesKeepsClean(cmds: seq<string>)
    requires forall i :: 0 <= i < |cmds| ==> IsCleanCmd(cmds[i])
    ensures CleanLines(cmds) == cmds
  {
    if |cmds| > 0 {
      CleanLineKeepsCleanCmd(cmds[0]);
      CleanLinesKeepsClean(cmds[1..]);
      calc {
        CleanLines(cmds);
        [CleanLine(cmds[0])] + CleanLines(cmds[1..]);
        [cmds[0]] + cmds[1..];
        cmds;
      }
    }
  }

  /** Commands written one per line as `custom` text are read back as
      the same commands. */
  lemma {:induction false} CustomLinesRoundTrip(cmds: seq<string>)
    requires |cmds| >= 1
    requires forall i :: 0 <= i < |cmds| ==> IsCleanCmd(cmds[i]) && '\n' !in cmds[i]
    ensures CustomLines(Join(cmds, '\n')) == cmds
  {
    SplitJoin(cmds, '\n');
    CleanLinesKeepsClean(cmds);
  }

  /** `update_command` on each command in turn; the first failure is
      reported. */
  function UpdateAll(cmds: seq<string>, pnames: Pins.PinMap): (r: Result<seq<string>>)
    ensures r.Ok? <==> AllResolve(cmds, pnames)
    ensures r.Ok? ==> Resolved(cmds, r.value, pnames)
  {
    if |cmds| == 0 then Ok([])
    else match Pins.UpdateCommand(cmds[0], pnames)
      case Err(e) => Err(e)
      case Ok(c) =>
        match UpdateAll(cmds[1..], pnames)
        case Err(e) =>
          assert forall i :: 1 <= i < |cmds| ==> cmds[i] == cmds[1..][i - 1];
          Err(e)
        case Ok(rest) => Ok([c] + rest)
  }

  /** Every command's pin names are known. */
  predicate AllResolve(cmds: seq<string>, pnames: Pins.PinMap) {
    forall i :: 0 <= i < |cmds| ==> Pins.UpdateCommand(cmds[i], pnames).Ok?
  }

  /** `u` is `cmds` with every command's pin names resolved. */
  predicate Resolved(cmds: seq<string>, u: seq<string>, pnames: Pins.PinMap) {
    |u| == |cmds|
    && forall i :: 0 <= i < |cmds| ==> Pins.UpdateCommand(cmds[i], pnames).Ok? && u[i] == Pins.UpdateCommand(cmds[i], pnames).value
  }

  function AllocateOidsCmd(n: nat): string {
    "allocate_oids count=" + NatToString(n)
  }

  function FinalizeCmd(crc: nat): string {
    "finalize_config crc=" + NatToString(crc)
  }

  /** `_add_custom`: the custom lines become config commands after
      those already added. */
  function AddCustom(c: McuConfig, custom: string): (r: McuConfig)
    ensures r.numOids == c.numOids
    ensures |r.cmds| == |c.cmds| + |CustomLines(custom)|
    ensures r.cmds[..|c.cmds|] == c.cmds && r.cmds[|c.cmds|..] == CustomLines(custom)
  {
    var r := c.(cmds := c.cmds + CustomLines(custom));
    assert r.cmds[..|c.cmds|] == c.cmds;
    r
  }

  /** `build_config` once `_add_custom` has run: `allocate_oids` with the
      object count first, then the config commands, every pin name
      resolved, and last `finalize_config` with the CRC of the commands
      before it joined by newlines. */
  function BuildConfig(c: McuConfig, pnames: Pins.PinMap, crc: string -> nat): (r: Result<seq<string>>)
    ensures r.Ok? <==> AllResolve(c.cmds, pnames)
    ensures r.Ok? ==> |r.value| == |c.cmds| + 2
    ensures r.Ok? ==> r.value[0] == AllocateOidsCmd(c.numOids)
    ensures r.Ok? ==> Last(r.value) == FinalizeCmd(crc(Join(r.value[..|r.value| - 1], '\n')))
    ensures r.Ok? ==> Resolved(c.cmds, r.value[1..|c.cmds| + 1], pnames)
  {
    var cmds := [AllocateOidsCmd(c.numOids)] + c.cmds;
    assert cmds[1..] == c.cmds;
    AllocateOidsNoTokens(c.numOids);
    Pins.NoTokensUnchanged(AllocateOidsCmd(c.numOids), pnames);
    assert AllResolve(cmds, pnames) <==> AllResolve(c.cmds, pnames) by {
      if AllResolve(c.cmds, pnames) {
        forall i | 0 <= i < |cmds| ensures Pins.UpdateCommand(cmds[i], pnames).Ok? {
          if i > 0 {
            assert cmds[i] == c.cmds[i - 1];
          }
        }
      }
      if AllResolve(cmds, pnames) {
        forall i | 0 <= i < |c.cmds| ensures Pins.UpdateCommand(c.cmds[i], pnames).Ok? {
          assert c.cmds[i] == cmds[i + 1];
        }
      }
    }
    match UpdateAll(cmds, pnames)
    case Err(e) => Err(e)
    case Ok(u) =>
      var r := u + [FinalizeCmd(crc(Join(u, '\n')))];
      assert r[..|r| - 1] == u;
      assert Resolved(c.cmds, r[1..|c.cmds| + 1], pnames) by {
        ResolvedSlice(cmds, u, pnames, c.cmds);
        assert r[1..|c.cmds| + 1] == u[1..|c.cmds| + 1];
      }
      Ok(r)
  }

  /** Resolution of the config commands, read off the whole list. */
  lemma {:induction false} ResolvedSlice(cmds: seq<string>, u: seq<string>, pnames: Pins.PinMap, part: seq<string>)
    requires Resolved(cmds, u, pnames)
    requires |part| + 1 <= |cmds| && cmds[1..|part| + 1] == part
    ensures Resolved(part, u[1..|part| + 1], pnames)
  {
    forall i | 0 <= i < |part|
      ensures Pins.UpdateCommand(part[i], pnames).Ok? && u[1..|part| + 1][i] == Pins.UpdateCommand(part[i], pnames).value
    {
      assert part[i] == cmds[1 + i];
    }
  }

  /** The object count command names no pin. */
  lemma {:induction false} AllocateOidsNoTokens(n: nat)
    ensures Pins.Scan(AllocateOidsCmd(n)).1 == []
  {
    var s := AllocateOidsCmd(n);
    assert 'p' !in s by {
      assert s == "allocate_oids count=" + NatToString(n);
      assert 'p' !in "allocate_oids count=";
      assert forall j :: 0 <= j < |NatToString(n)| ==> IsDigit(NatToString(n)[j]);
    }
    NoPinScan(s);
  }

  /** Without the letter `p` there is no `pin=` token. */
  lemma {:induction false} NoPinScan(s: string)
    requires 'p' !in s
    ensures Pins.Scan(s).1 == []
    decreases |s|
  {
    if |s| > 0 {
      assert |s| >= 5 ==> s[1..5][0] == s[1] && s[1] != 'p';
      assert forall c :: c in s[1..] ==> c in s;
      NoPinScan(s[1..]);
    }
  }

  /** The pin names for a configuration: the MCU's table, or with a
      `pin_map` option the mapped table (which also extends the shared
      tables). */
  function ResolvePins(t: Pins.Tables, pinMap: Option<string>, mcu: string): (r: Result<(Pins.Tables, Pins.PinMap)>)
    ensures pinMap.None? ==> r == Ok((t, Pins.McuToPins(t, mcu)))
    ensures pinMap.Some? ==> r == Pins.MapPins(t, pinMap.value, mcu)
  {
    match pinMap
    case None => Ok((t, Pins.McuToPins(t, mcu)))
    case Some(name) => Pins.MapPins(t, name, mcu)
  }

  // ------------------------------------------------------------ endstop

  /** `get_last_triggered`: the reported pin level with the inversion
      undone; no report yet counts as not triggered. */
  function LastTriggered(reportedPin: Option<Bit>, invert: Bit): (r: Bit)
    ensures r == 1 <==> reportedPin.Some? && reportedPin.value != invert
  {
    match reportedPin
    case None => 0
    case Some(p) => if p == invert then 0 else 1
  }

  /** `get_last_position`: the reported position, negated for an
      inverted direction pin; no report yet counts as 0. */
  function LastPosition(reportedPos: Option<int>, invertDir: bool): (r: int)
    ensures reportedPos.None? ==> r == 0
    ensures reportedPos.Some? ==> (if invertDir then -r else r) == reportedPos.value
  {
    var pos := match reportedPos case None => 0 case Some(p) => p;
    if invertDir then -pos else pos
  }

  // ------------------------------------------------------------ digital out

  datatype DigitalOut = DigitalOut(invert: Bit, lastClock: nat, lastValue: Option<Bit>)

  /** A `schedule_digital_out` message: the level sent and its clocks. */
  datatype Schedule = Schedule(level: Bit, minClock: nat, reqClock: nat)

  /** `set_digital`: the level is sent inverted when the pin is, no
      earlier than the previous message; the clock and value are kept. */
  function SetDigital(d: DigitalOut, clock: nat, value: Bit): (r: (DigitalOut, Schedule))
    ensures r.1.level == 1 <==> value != d.invert
    ensures r.1.minClock == d.lastClock && r.1.reqClock == clock
    ensures r.0 == d.(lastClock := clock, lastValue := Some(value))
  {
    var level: Bit := if value == d.invert then 0 else 1;
    (d.(lastClock := clock, lastValue := Some(value)), Schedule(level, d.lastClock, clock))
  }

  /** `set_pwm` on a digital output: values above 127 turn it on. */
  function SetPwm(d: DigitalOut, clock: nat, value: int): (r: (DigitalOut, Schedule))
    ensures r.0.lastValue == Some(if value > 127 then 1 else 0)
    ensures r.1.level == 1 <==> (value > 127) != (d.invert == 1)
  {
    SetDigital(d, clock, if value > 127 then 1 else 0)
  }

  /** The level the MCU drives, inverted back, is the value last set. */
  lemma SetDigitalUndoesInversion(d: DigitalOut, clock: nat, value: Bit)
    ensures var (d', s) := SetDigital(d, clock, value);
      LastTriggered(Some(s.level), d.invert) == value && d'.lastValue == Some(value)
  {
  }
}
