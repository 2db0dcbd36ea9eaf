/** Pin-name maps and the rewriting of pin names inside command strings
    (klippy/pins.py). The per-MCU tables are module-level dictionaries
    that `map_pins` extends in place; they are passed explicitly here. */
module Pins {
  import opened Wrappers
  import opened Strings

  type PinMap = map<string, nat>

  // ------------------------------------------------------------ avr

  /** The name `P<letter><bit>` of bit `bit` of port number `port`. */
  function PinName(port: nat, bit: nat): string
    requires port < 26 && bit < 8
  {
    ['P', (65 + port) as char, DigitChar(bit)]
  }

  /** A name `avr_pins(portCount)` defines: a port letter below the
      count other than 'I', and a bit digit 0..7. */
  predicate IsAvrPin(k: string, portCount: nat) {
    |k| == 3 && k[0] == 'P' && 'A' <= k[1] && k[1] != 'I'
    && (k[1] as int) - 65 < portCount && '0' <= k[2] <= '7'
  }

  /** The number of such a name: eight per port letter, counting 'I'. */
  function AvrPinNumber(k: string): int {
    if |k| == 3 then ((k[1] as int) - 65) * 8 + ((k[2] as int) - 48) else 0
  }

  /** A name of one of the first `bits` bits of port number `port`. */
  predicate InPort(k: string, port: nat, bits: nat) {
    |k| == 3 && k[0] == 'P' && k[1] as int == 65 + port
    && '0' <= k[2] && (k[2] as int) - 48 < bits
  }

  function AddPort(pins: PinMap, port: nat, bits: nat): (r: PinMap)
    requires port < 26 && bits <= 8
    ensures forall k :: k in r <==> k in pins || InPort(k, port, bits)
    ensures forall k :: k in r && k !in pins ==> r[k] == AvrPinNumber(k)
    ensures forall k :: k in pins ==> r[k] == pins[k]
  {
    if bits == 0 then pins
    else
      var r := AddPort(pins, port, bits - 1);
      var name := PinName(port, bits - 1);
      assert forall k :: InPort(k, port, bits) <==> InPort(k, port, bits - 1) || k == name;
      if name in pins then r else r[name := port * 8 + (bits - 1)]
  }

  /** `avr_pins(port_count)`, with ports added in order. */
  function AvrPinsUpTo(ports: nat): (r: PinMap)
    requires ports <= 26
    decreases ports
  {
    if ports == 0 then map[]
    else
      var r := AvrPinsUpTo(ports - 1);
      if ports - 1 == 8 then r else AddPort(r, ports - 1, 8)
  }

  lemma {:induction false} AvrPinsExact(ports: nat)
    requires ports <= 26
    ensures forall k :: k in AvrPinsUpTo(ports) <==> IsAvrPin(k, ports)
    ensures forall k :: k in AvrPinsUpTo(ports) ==> AvrPinsUpTo(ports)[k] == AvrPinNumber(k)
    decreases ports
  {
    if ports > 0 {
      AvrPinsExact(ports - 1);
      var r := AvrPinsUpTo(ports - 1);
      var port := ports - 1;
      if port != 8 {
        assert forall k :: IsAvrPin(k, ports) <==> IsAvrPin(k, port) || InPort(k, port, 8);
      } else {
        assert forall k :: IsAvrPin(k, ports) <==> IsAvrPin(k, port);
      }
    }
  }

  /** `avr_pins`: exactly the names `P<letter><bit>` for the first
      `portCount` letters without 'I', each numbered `port*8 + bit`;
      'I' keeps its place in the numbering. */
  function AvrPins(portCount: nat): (r: PinMap)
    requires portCount <= 26
    ensures forall k :: k in r <==> IsAvrPin(k, portCount)
    ensures forall k :: k in r ==> r[k] == AvrPinNumber(k)
  {
    AvrPinsExact(portCount);
    AvrPinsUpTo(portCount)
  }

  /** Port J follows the skipped 'I': `PJ0` is pin 72. */
  lemma {:induction false} PortJ()
    ensures "PJ0" in AvrPins(12) && AvrPins(12)["PJ0"] == 72
    ensures "PI0" !in AvrPins(12)
  {
    var m := AvrPins(12);
    var j := "PJ0";
    assert IsAvrPin(j, 12) && AvrPinNumber(j) == 72 by {
      assert j[1] == 'J' && j[2] == '0';
    }
    assert !IsAvrPin("PI0", 12) by {
      assert "PI0"[1] == 'I';
    }
  }

  // ------------------------------------------------------------ tables

  /** The three tables `MCU_PINS` refers to; the atmega168 and the
      atmega644p share one, as do the atmega1280 and the atmega2560. */
  datatype Table = Atmega164 | Atmega1280 | At90usb1286

  datatype Tables = Tables(t164: PinMap, t1280: PinMap, t1286: PinMap)

  function InitialTables(): Tables {
    Tables(AvrPins(4), AvrPins(12), AvrPins(5))
  }

  function TableOf(mcu: string): Option<Table> {
    if mcu == "atmega168" || mcu == "atmega644p" then Some(Atmega164)
    else if mcu == "at90usb1286" then Some(At90usb1286)
    else if mcu == "atmega1280" || mcu == "atmega2560" then Some(Atmega1280)
    else None
  }

  function Get(t: Tables, which: Table): PinMap {
    match which
    case Atmega164 => t.t164
    case Atmega1280 => t.t1280
    case At90usb1286 => t.t1286
  }

  function Put(t: Tables, which: Table, m: PinMap): (r: Tables)
    ensures Get(r, which) == m
    ensures forall o :: o != which ==> Get(r, o) == Get(t, o)
  {
    match which
    case Atmega164 => t.(t164 := m)
    case Atmega1280 => t.(t1280 := m)
    case At90usb1286 => t.(t1286 := m)
  }

  /** `mcu_to_pins`: the MCU's table, or an empty map for an unknown
      MCU. */
  function McuToPins(t: Tables, mcu: string): (r: PinMap)
    ensures TableOf(mcu).None? ==> r == map[]
    ensures TableOf(mcu).Some? ==> r == Get(t, TableOf(mcu).value)
  {
    match TableOf(mcu)
    case None => map[]
    case Some(w) => Get(t, w)
  }

  // ------------------------------------------------------------ arduino

  /** The port pin names `P<port><bit>` for parallel strings of ports and
      bits; board lists are written this way. */
  function PortPins(ports: string, bits: string): (r: seq<string>)
    requires |ports| == |bits|
    ensures |r| == |ports|
    ensures forall j :: 0 <= j < |r| ==> r[j] == ['P', ports[j], bits[j]]
  {
    seq(|ports|, j requires 0 <= j < |ports| => ['P', ports[j], bits[j]])
  }

  const ArduinoStandard: seq<string> := PortPins(
    "DDDDDDDDBBBBBBCCCCCC",
    "01234567012345012345")
  const ArduinoAnalogStandard: seq<string> := PortPins(
    "CCCCCCEE",
    "01234501")
  const ArduinoMega: seq<string> := PortPins(
    "EEEEGEHHHHBBBBJJHHDDDDAAAAAAAACCCCCCCCDGGGLLLLLLLLBBBBFFFFFFFFKKKKKKKK",
    "0145533456456710103210012345677654321072107654321032100123456701234567")
  const ArduinoAnalogMega: seq<string> := PortPins(
    "FFFFFFFFKKKKKKKK",
    "0123456701234567")
  const Sanguino: seq<string> := PortPins(
    "BBBBBBBBDDDDDDDDCCCCCCCCAAAAAAAA",
    "01234567012345670123456701234567")
  const SanguinoAnalog: seq<string> := PortPins(
    "AAAAAAAA",
    "01234567")

  /** `Arduino_from_mcu`: the digital and analog pin lists of a board. */
  function ArduinoFromMcu(mcu: string): Option<(seq<string>, seq<string>)> {
    if mcu == "atmega168" then Some((ArduinoStandard, ArduinoAnalogStandard))
    else if mcu == "atmega644p" then Some((Sanguino, SanguinoAnalog))
    else if mcu == "atmega1280" || mcu == "atmega2560" then Some((ArduinoMega, ArduinoAnalogMega))
    else None
  }

  /** Board pin lists name port pins: `P` then the port and bit. */
  predicate PortPinNames(names: seq<string>) {
    forall j :: 0 <= j < |names| ==> |names[j]| > 0 && names[j][0] == 'P'
  }

  /** Whether `k` starts with `prefix`. */
  predicate HasPrefix(k: string, prefix: string) {
    |prefix| <= |k| && k[..|prefix|] == prefix
  }

  /** Whether `k` is one of the aliases `prefix + str(j)`, `i <= j < n`. */
  predicate LaterAlias(k: string, prefix: string, i: nat, n: nat) {
    exists j :: i <= j < n && k == prefix + NatToString(j)
  }

  /** Adds `prefix + str(i)` as an alias of `names[i]` for each `i` in
      order; a name missing from the map raises `KeyError`. Every other
      key keeps its value. */
  function AddAliases(pins: PinMap, prefix: string, names: seq<string>, i: nat): (r: Result<PinMap>)
    requires i <= |names| && PortPinNames(names) && |prefix| > 0 && prefix[0] != 'P'
    ensures r.Err? <==> exists j :: i <= j < |names| && names[j] !in pins
    ensures r.Ok? ==> forall j :: i <= j < |names| ==>
      prefix + NatToString(j) in r.value && names[j] in pins
      && r.value[prefix + NatToString(j)] == pins[names[j]]
    ensures r.Ok? ==> forall k :: k in pins && !LaterAlias(k, prefix, i, |names|) ==>
      k in r.value && r.value[k] == pins[k]
    ensures r.Ok? ==> forall k :: k in r.value <==> k in pins || LaterAlias(k, prefix, i, |names|)
    decreases |names| - i
  {
    if i == |names| then Ok(pins)
    else if names[i] !in pins then Err("KeyError")
    else
      var alias := prefix + NatToString(i);
      var pins' := pins[alias := pins[names[i]]];
      assert forall j :: i <= j < |names| ==> names[j] != alias by {
        forall j | i <= j < |names| ensures names[j] != alias {
          assert alias[0] == prefix[0];
        }
      }
      AliasesDistinct(prefix, i, |names|);
      assert forall k :: LaterAlias(k, prefix, i, |names|) <==> k == alias || LaterAlias(k, prefix, i + 1, |names|);
      AddAliases(pins', prefix, names, i + 1)
  }

  lemma {:induction false} AliasesDistinct(prefix: string, i: nat, n: nat)
    ensures !LaterAlias(prefix + NatToString(i), prefix, i + 1, n)
  {
    forall j | i + 1 <= j < n
      ensures prefix + NatToString(i) != prefix + NatToString(j)
    {
      if prefix + NatToString(j) == prefix + NatToString(i) {
        assert NatToString(j) == (prefix + NatToString(j))[|prefix|..];
        assert NatToString(i) == (prefix + NatToString(i))[|prefix|..];
        NatToStringInjective(i, j);
      }
    }
  }

  lemma BoardListsArePortPins(mcu: string)
    ensures ArduinoFromMcu(mcu).Some? ==>
      PortPinNames(ArduinoFromMcu(mcu).value.0) && PortPinNames(ArduinoFromMcu(mcu).value.1)
  {
  }

  /** A key differing from the prefix at some position is no alias. */
  lemma {:induction false} NotAlias(k: string, prefix: string, idx: nat, i: nat, n: nat)
    requires idx < |prefix| && idx < |k| && k[idx] != prefix[idx]
    ensures !LaterAlias(k, prefix, i, n)
  {
    forall j | i <= j < n ensures k != prefix + NatToString(j) {
      assert (prefix + NatToString(j))[idx] == prefix[idx];
    }
  }

  /** The `arN` then `analogN` aliases of a board: `arN` names the pin
      of the board's N-th digital pin and `analogN` that of its N-th analog
      pin; an unknown pin name raises `KeyError`. */
  function BoardAliases(pins: PinMap, dpins: seq<string>, apins: seq<string>): (r: Result<PinMap>)
    requires PortPinNames(dpins) && PortPinNames(apins)
    ensures r.Ok? ==> forall j :: 0 <= j < |dpins| ==>
      "ar" + NatToString(j) in r.value && dpins[j] in pins
      && r.value["ar" + NatToString(j)] == pins[dpins[j]]
    ensures r.Ok? ==> forall j :: 0 <= j < |apins| ==>
      "analog" + NatToString(j) in r.value && apins[j] in r.value
      && r.value["analog" + NatToString(j)] == r.value[apins[j]]
    ensures r.Err? <==>
      || (exists j :: 0 <= j < |dpins| && dpins[j] !in pins)
      || (exists j :: 0 <= j < |apins| && apins[j] !in pins)
  {
    match AddAliases(pins, "ar", dpins, 0)
    case Err(e) => Err(e)
    case Ok(p1) =>
      AnalogAliasesKeep(dpins, apins);
      assert forall j :: 0 <= j < |apins| ==> !LaterAlias(apins[j], "ar", 0, |dpins|) by {
        forall j | 0 <= j < |apins| ensures !LaterAlias(apins[j], "ar", 0, |dpins|) {
          NotAlias(apins[j], "ar", 0, 0, |dpins|);
        }
      }
      AddAliases(p1, "analog", apins, 0)
  }

  /** Adding the `analogN` aliases leaves the `arN` aliases and the analog
      pin names themselves alone. */
  lemma {:induction false} AnalogAliasesKeep(dpins: seq<string>, apins: seq<string>)
    requires PortPinNames(apins)
    ensures forall j :: 0 <= j < |dpins| ==> !LaterAlias("ar" + NatToString(j), "analog", 0, |apins|)
    ensures forall j :: 0 <= j < |apins| ==> !LaterAlias(apins[j], "analog", 0, |apins|)
  {
    forall j | 0 <= j < |dpins| ensures !LaterAlias("ar" + NatToString(j), "analog", 0, |apins|) {
      NotAlias("ar" + NatToString(j), "analog", 1, 0, |apins|);
    }
    forall j | 0 <= j < |apins| ensures !LaterAlias(apins[j], "analog", 0, |apins|) {
      NotAlias(apins[j], "analog", 0, 0, |apins|);
    }
  }

  /** `map_pins(name, mcu)`: the MCU's table; for `arduino` the table
      also gets the board's aliases, stored back into the shared table. An
      `arduino` mapping for an MCU with no board lists fails to unpack. */
  function MapPins(t: Tables, name: string, mcu: string): (r: Result<(Tables, PinMap)>)
    ensures name != "arduino" ==> r == Ok((t, McuToPins(t, mcu)))
    ensures name == "arduino" && ArduinoFromMcu(mcu).None? ==> r.Err?
    ensures name == "arduino" && ArduinoFromMcu(mcu).Some? ==>
      var (dpins, apins) := ArduinoFromMcu(mcu).value;
      var b := BoardAliases(McuToPins(t, mcu), dpins, apins);
      && (r.Ok? <==> b.Ok?)
      && (r.Ok? ==> r.value.1 == b.value && McuToPins(r.value.0, mcu) == b.value)
  {
    var pins := McuToPins(t, mcu);
    BoardListsArePortPins(mcu);
    if name != "arduino" then Ok((t, pins))
    else match ArduinoFromMcu(mcu)
      case None => Err("ValueError")
      case Some((dpins, apins)) =>
        match BoardAliases(pins, dpins, apins)
        case Err(e) => Err(e)
        case Ok(p2) =>
          var w := TableOf(mcu).value;
          Ok((Put(t, w, p2), p2))
  }

  // ------------------------------------------------------------ commands

  /** A ` pin=` or `_pin=` token starts at `i`. */
  predicate TokenAt(s: string, i: nat) {
    i + 5 <= |s| && (s[i] == ' ' || s[i] == '_') && s[i + 1..i + 5] == "pin="
  }

  /** The run of characters other than ' ' at the start of `s`. */
  function Value(s: string): (r: string)
    ensures |r| <= |s| && r == s[..|r|] && ' ' !in r
    ensures |r| == |s| || s[|r|] == ' '
    decreases |s|
  {
    if |s| == 0 || s[0] == ' ' then [] else [s[0]] + Value(s[1..])
  }

  /** `update_command`: each token's value (the pin name up to the next
      space) is replaced by the pin's number, scanning left to right; a
      name missing from the map raises `KeyError`. */
  function UpdateCommand(cmd: string, pmap: PinMap): (r: Result<string>)
    decreases |cmd|
  {
    if |cmd| == 0 then Ok(cmd)
    else if TokenAt(cmd, 0) then
      var name := Value(cmd[5..]);
      if name !in pmap then Err("KeyError")
      else match UpdateCommand(cmd[5 + |name|..], pmap)
        case Err(e) => Err(e)
        case Ok(rest) => Ok(cmd[..5] + NatToString(pmap[name]) + rest)
    else
      match UpdateCommand(cmd[1..], pmap)
      case Err(e) => Err(e)
      case Ok(rest) => Ok([cmd[0]] + rest)
  }

  /** The same left-to-right scan as a reference: the command with every
      token value removed, and the token values in order. */
  function Scan(s: string): (r: (string, seq<string>))
    decreases |s|
  {
    if |s| == 0 then ("", [])
    else if TokenAt(s, 0) then
      var name := Value(s[5..]);
      var rest := Scan(s[5 + |name|..]);
      (s[..5] + rest.0, [name] + rest.1)
    else
      var rest := Scan(s[1..]);
      ([s[0]] + rest.0, rest.1)
  }

  function Numbers(names: seq<string>, pmap: PinMap): seq<string>
    requires forall n :: n in names ==> n in pmap
  {
    seq(|names|, j requires 0 <= j < |names| => NatToString(pmap[names[j]]))
  }

  lemma NumbersCons(name: string, names: seq<string>, pmap: PinMap)
    requires name in pmap && forall n :: n in names ==> n in pmap
    ensures Numbers([name] + names, pmap) == [NatToString(pmap[name])] + Numbers(names, pmap)
  {
  }

  function Min(a: int, b: int): int {
    if a < b then a else b
  }

  /** Rewriting leaves the first five characters alone (a value starts
      after a token's five). */
  lemma {:induction false} UpdateKeepsHead(s: string, pmap: PinMap)
    requires UpdateCommand(s, pmap).Ok?
    ensures var r := UpdateCommand(s, pmap).value;
      |r| >= Min(5, |s|) && r[..Min(5, |s|)] == s[..Min(5, |s|)]
    ensures |s| < 5 ==> UpdateCommand(s, pmap).value == s
    decreases |s|
  {
    if |s| > 0 && !TokenAt(s, 0) {
      UpdateKeepsHead(s[1..], pmap);
    }
  }

  /** `update_command` succeeds exactly when every token's pin name is
      known. */
  lemma {:induction false} UpdateCommandFailsOnUnknown(s: string, pmap: PinMap)
    ensures UpdateCommand(s, pmap).Ok? <==> forall n :: n in Scan(s).1 ==> n in pmap
    decreases |s|
  {
    if |s| == 0 {
    } else if TokenAt(s, 0) {
      UpdateCommandFailsOnUnknown(s[5 + |Value(s[5..])|..], pmap);
    } else {
      UpdateCommandFailsOnUnknown(s[1..], pmap);
    }
  }

  /** A successful `update_command` changes nothing but the token values,
      each becoming its pin's number. */
  lemma {:induction false} UpdateCommandRewritesValues(s: string, pmap: PinMap)
    requires UpdateCommand(s, pmap).Ok?
    ensures forall n :: n in Scan(s).1 ==> n in pmap
    ensures var r := UpdateCommand(s, pmap).value;
      Scan(r).0 == Scan(s).0 && Scan(r).1 == Numbers(Scan(s).1, pmap)
    decreases |s|
  {
    UpdateCommandFailsOnUnknown(s, pmap);
    if |s| == 0 {
    } else if TokenAt(s, 0) {
      var name := Value(s[5..]);
      var tail := s[5 + |name|..];
      UpdateCommandRewritesValues(tail, pmap);
      RewriteToken(s, pmap);
      NumbersCons(name, Scan(tail).1, pmap);
    } else {
      UpdateCommandRewritesValues(s[1..], pmap);
      RewritePlain(s, pmap);
    }
  }

  /** A token at the front: its rewritten value is read back whole. */
  lemma {:induction false} RewriteToken(s: string, pmap: PinMap)
    requires TokenAt(s, 0)
    requires var name := Value(s[5..]); name in pmap && UpdateCommand(s[5 + |name|..], pmap).Ok?
    ensures var name := Value(s[5..]);
      var tail := s[5 + |name|..];
      var r := UpdateCommand(s, pmap).value;
      Scan(r) == (s[..5] + Scan(UpdateCommand(tail, pmap).value).0,
                  [NatToString(pmap[name])] + Scan(UpdateCommand(tail, pmap).value).1)
  {
    var name := Value(s[5..]);
    var tail := s[5 + |name|..];
    var rest := UpdateCommand(tail, pmap).value;
    var num := NatToString(pmap[name]);
    var r := s[..5] + num + rest;
    assert UpdateCommand(s, pmap).value == r;
    assert r[..5] == s[..5];
    assert TokenAt(r, 0) by {
      assert r[1..5] == s[1..5];
    }
    assert Value(r[5..]) == num by {
      assert r[5..] == num + rest;
      assert |rest| == 0 || rest[0] == ' ' by {
        UpdateKeepsHead(tail, pmap);
        if |tail| > 0 {
          assert rest[..Min(5, |tail|)][0] == tail[..Min(5, |tail|)][0];
        }
      }
      ValueOfDigits(num, rest);
    }
    assert r[5 + |num|..] == rest;
  }

  /** No token at the front: the first character is kept. */
  lemma {:induction false} RewritePlain(s: string, pmap: PinMap)
    requires |s| > 0 && !TokenAt(s, 0) && UpdateCommand(s[1..], pmap).Ok?
    ensures var rest := UpdateCommand(s[1..], pmap).value;
      Scan(UpdateCommand(s, pmap).value) == ([s[0]] + Scan(rest).0, Scan(rest).1)
  {
    var tail := s[1..];
    var rest := UpdateCommand(tail, pmap).value;
    var r := [s[0]] + rest;
    assert UpdateCommand(s, pmap).value == r;
    UpdateKeepsHead(tail, pmap);
    assert !TokenAt(r, 0) by {
      if |s| >= 5 {
        assert rest[..4] == tail[..4];
        assert r[..5] == s[..5];
      } else {
        assert rest == tail;
      }
    }
    assert r[1..] == rest;
  }

  lemma {:induction false} ValueOfDigits(num: string, rest: string)
    requires forall j :: 0 <= j < |num| ==> IsDigit(num[j])
    requires |rest| == 0 || rest[0] == ' '
    ensures Value(num + rest) == num
    decreases |num|
  {
    if |num| > 0 {
      assert (num + rest)[0] == num[0] && num[0] != ' ';
      assert (num + rest)[1..] == num[1..] + rest;
      ValueOfDigits(num[1..], rest);
    } else {
      assert num + rest == rest;
    }
  }

  /** A command without tokens is unchanged. */
  lemma {:induction false} NoTokensUnchanged(s: string, pmap: PinMap)
    requires Scan(s).1 == []
    ensures UpdateCommand(s, pmap) == Ok(s)
  {
    UpdateCommandFailsOnUnknown(s, pmap);
    UpdateCommandRewritesValues(s, pmap);
    ScanSkeleton(s);
    ScanSkeleton(UpdateCommand(s, pmap).value);
  }

  /** Without token values the skeleton is the string itself. */
  lemma {:induction false} ScanSkeleton(s: string)
    ensures Scan(s).1 == [] ==> Scan(s).0 == s
    decreases |s|
  {
    if |s| > 0 {
      if TokenAt(s, 0) {
      } else {
        ScanSkeleton(s[1..]);
      }
    }
  }
}
