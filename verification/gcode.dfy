/** The G-code input path (klippy/gcode.py): line buffering, the
    tokenizer, the handler table, dispatch, the busy stall and the "ok"
    acknowledgements. Motion, temperatures and the toolhead are outside
    the model: what the toolhead and the heaters report is given in a
    `World`, and what a handler would do to them is not modelled. Writes to
    the file descriptor are collected in `out`. */
module GCode {
  import opened Wrappers
  import opened Strings

  // ------------------------------------------------------------ tokenizer

  /** The characters `args_r` splits at: letters and `*`. */
  predicate IsArgChar(c: char) {
    ('a' <= c <= 'z') || ('A' <= c <= 'Z') || c == '*'
  }

  /** `str.upper()` on one character of an argument name. */
  function Upper(c: char): (r: char)
    ensures IsArgChar(c) ==> IsArgChar(r) && !('a' <= r <= 'z')
    ensures !('a' <= c <= 'z') ==> r == c
  {
    if 'a' <= c <= 'z' then (c as int - 32) as char else c
  }

  /** No argument character in the text. */
  predicate NoArgChar(t: string)
    decreases |t|
  {
    |t| == 0 || (!IsArgChar(t[0]) && NoArgChar(t[1..]))
  }

  /** The text up to the next argument character. */
  function ArgText(s: string): (r: string)
    ensures |r| <= |s| && r == s[..|r|]
    ensures NoArgChar(r)
    ensures |r| == |s| || IsArgChar(s[|r|])
    decreases |s|
  {
    if |s| == 0 || IsArgChar(s[0]) then "" else [s[0]] + ArgText(s[1..])
  }

  /** A tokenized pair: an argument character and the text after it. */
  type Pair = (char, string)

  predicate WellFormed(pairs: seq<Pair>) {
    forall i :: 0 <= i < |pairs| ==> IsArgChar(pairs[i].0) && NoArgChar(pairs[i].1)
  }

  /** The pairs of a string that starts at an argument character. */
  function TokensFrom(s: string): (r: seq<Pair>)
    requires |s| == 0 || IsArgChar(s[0])
    ensures WellFormed(r)
    decreases |s|
  {
    if |s| == 0 then []
    else
      var t := ArgText(s[1..]);
      [(s[0], t)] + TokensFrom(s[1 + |t|..])
  }

  /** `args_r.split(line)[1:]`, as pairs: the text before the first
      argument character is dropped. */
  function Tokens(line: string): (r: seq<Pair>)
    ensures WellFormed(r)
  {
    TokensFrom(line[|ArgText(line)|..])
  }

  /** The text the pairs were cut from. */
  function Untokenize(pairs: seq<Pair>): string {
    if |pairs| == 0 then "" else [pairs[0].0] + pairs[0].1 + Untokenize(pairs[1..])
  }

  /** Tokenizing loses nothing after the first argument character... */
  lemma {:induction false} UntokenizeTokens(s: string)
    requires |s| == 0 || IsArgChar(s[0])
    ensures Untokenize(TokensFrom(s)) == s
    decreases |s|
  {
    if |s| > 0 {
      var t := ArgText(s[1..]);
      var rest := s[1 + |t|..];
      UntokenizeTokens(rest);
      assert TokensFrom(s)[1..] == TokensFrom(rest);
      assert s == [s[0]] + t + rest;
    }
  }

  /** ...and well-formed pairs are recovered from their text. */
  lemma {:induction false} TokensUntokenize(pairs: seq<Pair>)
    requires WellFormed(pairs)
    ensures |Untokenize(pairs)| == 0 || IsArgChar(Untokenize(pairs)[0])
    ensures TokensFrom(Untokenize(pairs)) == pairs
    decreases |pairs|
  {
    if |pairs| > 0 {
      var rest := Untokenize(pairs[1..]);
      assert WellFormed(pairs[1..]) by {
        forall i | 0 <= i < |pairs[1..]| ensures pairs[1..][i] == pairs[i + 1] { }
      }
      TokensUntokenize(pairs[1..]);
      assert Untokenize(pairs) == [pairs[0].0] + pairs[0].1 + rest;
      assert IsArgChar(pairs[0].0) && NoArgChar(pairs[0].1);
      TokensFromCons(pairs[0].0, pairs[0].1, rest);
      assert pairs == [pairs[0]] + pairs[1..];
    }
  }

  /** One pair in front of text that starts at an argument character is
      cut off as that pair. */
  lemma {:induction false} TokensFromCons(c: char, t: string, rest: string)
    requires IsArgChar(c) && NoArgChar(t) && (|rest| == 0 || IsArgChar(rest[0]))
    ensures TokensFrom([c] + t + rest) == [(c, t)] + TokensFrom(rest)
  {
    var s := [c] + t + rest;
    assert s[1..] == t + rest;
    ArgTextBefore(t, rest);
    assert s[1 + |t|..] == rest;
  }

  lemma {:induction false} ArgTextBefore(t: string, rest: string)
    requires NoArgChar(t)
    requires |rest| == 0 || IsArgChar(rest[0])
    ensures ArgText(t + rest) == t
    decreases |t|
  {
    var u := t + rest;
    if |t| > 0 {
      assert u[0] == t[0] && !IsArgChar(t[0]) && NoArgChar(t[1..]);
      assert u[1..] == t[1..] + rest;
      ArgTextBefore(t[1..], rest);
      assert ArgText(u) == [u[0]] + ArgText(u[1..]);
      assert t == [t[0]] + t[1..];
    } else {
      assert u == rest;
    }
  }

  /** The parameter name of an argument character. */
  function Key(c: char): string {
    [Upper(c)]
  }

  /** Whether no pair after the `i`-th has the same parameter name. */
  predicate LastOfKey(pairs: seq<Pair>, i: int)
    requires 0 <= i < |pairs|
  {
    forall j :: i < j < |pairs| ==> Key(pairs[j].0) != Key(pairs[i].0)
  }

  /** The parameter names of the pairs. */
  function KeysOf(pairs: seq<Pair>): set<string>
    decreases |pairs|
  {
    if |pairs| == 0 then {} else KeysOf(pairs[..|pairs| - 1]) + {Key(pairs[|pairs| - 1].0)}
  }

  /** The parameters of a line: each pair's upper-cased letter maps to
      its stripped text, a later pair with the same letter winning. */
  function ParamsOf(pairs: seq<Pair>): (r: map<string, string>)
    ensures r.Keys == KeysOf(pairs)
    ensures |pairs| > 0 ==> r[Key(pairs[|pairs| - 1].0)] == Strip(pairs[|pairs| - 1].1)
    decreases |pairs|
  {
    if |pairs| == 0 then map[]
    else
      var n := |pairs| - 1;
      ParamsOf(pairs[..n])[Key(pairs[n].0) := Strip(pairs[n].1)]
  }

  /** Exactly the pairs' names are parameters. */
  lemma {:induction false} KeysOfPairs(pairs: seq<Pair>, k: string)
    ensures k in KeysOf(pairs) <==> exists i :: 0 <= i < |pairs| && k == Key(pairs[i].0)
    decreases |pairs|
  {
    if |pairs| > 0 {
      var n := |pairs| - 1;
      KeysOfPairs(pairs[..n], k);
      assert forall i :: 0 <= i < n ==> pairs[..n][i] == pairs[i];
      if k in KeysOf(pairs[..n]) {
        var i :| 0 <= i < n && k == Key(pairs[..n][i].0);
        assert k == Key(pairs[i].0);
      }
    }
  }

  /** A parameter's value is the stripped text of the last pair with its
      name. */
  lemma {:induction false} ParamsOfLast(pairs: seq<Pair>, i: int)
    requires 0 <= i < |pairs| && LastOfKey(pairs, i)
    ensures Key(pairs[i].0) in ParamsOf(pairs) && ParamsOf(pairs)[Key(pairs[i].0)] == Strip(pairs[i].1)
    decreases |pairs|
  {
    var n := |pairs| - 1;
    KeysOfPairs(pairs, Key(pairs[i].0));
    if i < n {
      assert pairs[..n][i] == pairs[i];
      assert LastOfKey(pairs[..n], i) by {
        forall j | i < j < n ensures Key(pairs[..n][j].0) != Key(pairs[..n][i].0) {
          assert pairs[..n][j] == pairs[j];
        }
      }
      ParamsOfLast(pairs[..n], i);
      assert Key(pairs[n].0) != Key(pairs[i].0);
    }
  }

  /** A parsed line: the parameters (with `#original`, and `#command`
      when there is one) and the command. */
  datatype Parsed = Parsed(params: map<string, string>, command: Option<string>)

  /** The line with everything from the first `;` removed. */
  function StripComment(line: string): (r: string)
    ensures ';' !in r
    ensures |r| <= |line| && r == line[..|r|]
    ensures ';' !in line ==> r == line
  {
    if ';' in line then
      IndexOfFirst(line, ';');
      line[..IndexOf(line, ';')]
    else line
  }

  /** The pairs that name the command: a leading `N` line number is
      skipped. */
  function CommandPairs(pairs: seq<Pair>): (r: seq<Pair>)
    ensures |pairs| > 0 && Upper(pairs[0].0) == 'N' ==> r == pairs[1..]
    ensures !(|pairs| > 0 && Upper(pairs[0].0) == 'N') ==> r == pairs
  {
    if |pairs| > 0 && Upper(pairs[0].0) == 'N' then pairs[1..] else pairs
  }

  /** The pairs of a line once stripped and cut at its comment. */
  function LinePairs(raw: string): (r: seq<Pair>)
    ensures WellFormed(r)
  {
    Tokens(StripComment(Strip(raw)))
  }

  /** One line of `process_commands` up to the handler lookup: the
      parameters with `#original`, and the command, the first letter in
      its own case followed by its stripped number, with `#command`. */
  function ParseLine(raw: string): (r: Parsed)
    ensures r.command.None? <==> CommandPairs(LinePairs(raw)) == []
    ensures r.command.None? ==> r.params == ParamsOf(LinePairs(raw))["#original" := Strip(raw)]
    ensures r.command.Some? ==>
      var p := CommandPairs(LinePairs(raw))[0];
      && r.command.value == [p.0] + Strip(p.1)
      && r.params == ParamsOf(LinePairs(raw))["#original" := Strip(raw)]["#command" := r.command.value]
  {
    var orig := Strip(raw);
    var pairs := LinePairs(raw);
    var params := ParamsOf(pairs)["#original" := orig];
    var parts := CommandPairs(pairs);
    if parts == [] then Parsed(params, None)
    else
      var cmd := [parts[0].0] + Strip(parts[0].1);
      Parsed(params["#command" := cmd], Some(cmd))
  }

  /** No parameter value holds comment text. */
  lemma {:induction false} ParamsHaveNoComment(raw: string, k: string)
    requires k in ParseLine(raw).params && k != "#original" && k != "#command"
    ensures ';' !in ParseLine(raw).params[k]
  {
    var line := StripComment(Strip(raw));
    var pairs := LinePairs(raw);
    assert k in ParamsOf(pairs) && ParseLine(raw).params[k] == ParamsOf(pairs)[k];
    KeysOfPairs(pairs, k);
    var i :| 0 <= i < |pairs| && k == Key(pairs[i].0);
    var last := LastWith(pairs, i);
    var rest := line[|ArgText(line)|..];
    UntokenizeTokens(rest);
    UntokenizePiece(pairs, last);
    ParamsOfLast(pairs, last);
    assert ';' !in rest;
    assert ';' !in Strip(pairs[last].1) by {
      StripInside(pairs[last].1);
    }
  }

  /** The last pair with the same parameter name as the `i`-th. */
  function LastWith(pairs: seq<Pair>, i: nat): (r: nat)
    requires i < |pairs|
    ensures i <= r < |pairs| && Key(pairs[r].0) == Key(pairs[i].0) && LastOfKey(pairs, r)
    decreases |pairs| - i
  {
    if exists j :: i < j < |pairs| && Key(pairs[j].0) == Key(pairs[i].0) then
      var j :| i < j < |pairs| && Key(pairs[j].0) == Key(pairs[i].0);
      LastWith(pairs, j)
    else i
  }

  lemma {:induction false} UntokenizePiece(pairs: seq<Pair>, i: nat)
    requires i < |pairs|
    ensures forall c :: c in pairs[i].1 ==> c in Untokenize(pairs)
    decreases i
  {
    if i > 0 {
      UntokenizePiece(pairs[1..], i - 1);
    }
  }

  lemma {:induction false} StripInside(s: string)
    ensures forall c :: c in Strip(s) ==> c in s
  {
    var l := LStrip(s);
    assert forall c :: c in l ==> c in s;
  }

  // ------------------------------------------------------------ handlers

  const BaseHandlers: set<string> := {"G0", "G1", "G4", "G20", "G21", "G28", "G90", "G91", "G92",
    "M18", "M82", "M83", "M84", "M110", "M114", "M119", "M206"}
  const ShutdownHandlers: set<string> := {"M105", "M110", "M114"}

  /** The printer objects the handler table depends on. */
  datatype Config = Config(hasNozzle: bool, hasBed: bool, hasFan: bool)

  /** `build_handlers`: the base commands, the heater and fan commands
      when those objects exist, and in shutdown only the status
      commands. */
  function BuildHandlers(c: Config, isShutdown: bool): (r: set<string>)
    ensures isShutdown ==> r <= ShutdownHandlers
    ensures isShutdown ==> r == BuildHandlers(c, false) * ShutdownHandlers
    ensures !isShutdown ==> BaseHandlers <= r
    ensures !isShutdown ==> ("M104" in r <==> c.hasNozzle) && ("M140" in r <==> c.hasBed) && ("M106" in r <==> c.hasFan)
    ensures ("M105" in r <==> c.hasNozzle) && "M110" in r && "M114" in r
  {
    var all := BaseHandlers
      + (if c.hasNozzle then {"M104", "M105", "M109", "M303"} else {})
      + (if c.hasBed then {"M140", "M190"} else {})
      + (if c.hasFan then {"M106", "M107"} else {});
    if isShutdown then all * ShutdownHandlers else all
  }

  // ------------------------------------------------------------ state

  /** A write to the file descriptor: an acknowledgement or a response. */
  datatype Out = Ack(msg: string) | Response(text: string)

  /** The text written for an output. */
  function OutText(o: Out): (r: string)
    ensures o.Ack? && o.msg == "" ==> r == "ok\n"
    ensures o.Ack? && o.msg != "" ==> r == "ok " + o.msg + "\n"
    ensures o.Response? ==> r == o.text + "\n"
  {
    match o
    case Ack(m) => if m == "" then "ok\n" else "ok " + m + "\n"
    case Response(t) => t + "\n"
  }

  /** What the rest of the printer reports: whether the toolhead is busy,
      the temperature line, the position line and the endstop error, if
      any, with which the toolhead rejects a move. */
  datatype World = World(toolheadBusy: bool, tempText: string, positionText: string, moveError: Option<string>)

  datatype GState = GState(
    input: seq<string>,
    busy: bool,
    needAck: bool,
    needRegisterFd: bool,
    isShutdown: bool,
    inputfile: bool,
    absoluteCoord: bool,
    absoluteExtrude: bool,
    config: Config,
    handlers: set<string>,
    out: seq<Out>)

  /** The parser as constructed and configured. */
  function Init(c: Config, inputfile: bool): (r: GState)
    ensures r.input == [""] && !r.busy && !r.needAck && !r.isShutdown
    ensures r.absoluteCoord && r.absoluteExtrude && r.out == []
    ensures r.handlers == BuildHandlers(c, false)
  {
    GState([""], false, false, false, false, inputfile, true, true, c, BuildHandlers(c, false), [])
  }

  /** `shutdown`: the handler table shrinks to the status commands. */
  function Shutdown(g: GState): (r: GState)
    ensures r.isShutdown && r.handlers <= ShutdownHandlers
    ensures r == g.(isShutdown := true, handlers := BuildHandlers(g.config, true))
  {
    g.(isShutdown := true, handlers := BuildHandlers(g.config, true))
  }

  /** The number of acknowledgements among the outputs. */
  function OkCount(out: seq<Out>): (r: nat)
    ensures r <= |out|
  {
    if |out| == 0 then 0 else OkCount(out[..|out| - 1]) + (if out[|out| - 1].Ack? then 1 else 0)
  }

  /** `respond`: nothing is written when reading from a file. */
  function Respond(g: GState, text: string): (r: GState)
    ensures g.inputfile ==> r == g
    ensures !g.inputfile ==> r == g.(out := g.out + [Response(text)])
  {
    if g.inputfile then g else g.(out := g.out + [Response(text)])
  }

  /** `ack`: one "ok" for the pending command, never from a file. */
  function DoAck(g: GState, msg: string): (r: GState)
    ensures !g.needAck || g.inputfile ==> r == g
    ensures g.needAck && !g.inputfile ==> r == g.(out := g.out + [Ack(msg)], needAck := false)
    ensures OkCount(r.out) == OkCount(g.out) + (if g.needAck && !g.inputfile then 1 else 0)
  {
    if !g.needAck || g.inputfile then g
    else
      var o := g.out + [Ack(msg)];
      assert o[..|o| - 1] == g.out;
      g.(out := o, needAck := false)
  }

  /** The state a handler cannot change: the input, the mode of
      reading, the shutdown flag and the handler table. */
  predicate SameSetup(g: GState, r: GState) {
    r.input == g.input && r.inputfile == g.inputfile && r.handlers == g.handlers && r.isShutdown == g.isShutdown
  }

  /** `r` adds at most responses to `g`'s output and nothing when reading
      from a file; it acknowledges nothing. */
  predicate OnlyResponds(g: GState, r: GState) {
    && g.out <= r.out
    && (g.inputfile ==> r.out == g.out)
    && OkCount(r.out) == OkCount(g.out)
    && r.needAck == g.needAck
  }

  /** `cmd_default`: in shutdown every command is refused; an empty line
      is only logged; an unknown command is echoed back. */
  function CmdDefault(g: GState, p: Parsed): (r: GState)
    ensures g.isShutdown ==> r == Respond(g, "Error: Machine is shutdown")
    ensures !g.isShutdown && p.command.None? ==> r == g
    ensures !g.isShutdown && p.command.Some? ==> r == Respond(g, "echo:Unknown command:\"" + p.command.value + "\"")
    ensures SameSetup(g, r) && OnlyResponds(g, r) && r.busy == g.busy
  {
    if g.isShutdown then
      RespondCount(g, "Error: Machine is shutdown");
      Respond(g, "Error: Machine is shutdown")
    else match p.command
      case None => g
      case Some(cmd) =>
        RespondCount(g, "echo:Unknown command:\"" + cmd + "\"");
        Respond(g, "echo:Unknown command:\"" + cmd + "\"")
  }

  /** What a registered handler does to the modelled state. */
  datatype Effect =
    | SetAbsoluteCoord(coord: bool)
    | SetAbsoluteExtrude(extrude: bool)
    | Reply(text: string)
    | AckWith(msg: string)
    | GoBusy
    | NoEffect

  /** The handlers' effects: G90/G91 and M82/M83 set the coordinate
      modes, G20 is refused, M105 acknowledges with the temperatures, M114
      reports the position; a move the toolhead rejects with an endstop
      error is answered with "Error: " and the message; homing always
      leaves a busy state, and the endstop query and waiting for a
      temperature do unless reading from a file. */
  function HandlerEffect(cmd: string, inputfile: bool, w: World): (e: Effect)
    ensures cmd == "G90" ==> e == SetAbsoluteCoord(true)
    ensures cmd == "G91" ==> e == SetAbsoluteCoord(false)
    ensures cmd == "M82" ==> e == SetAbsoluteExtrude(true)
    ensures cmd == "M83" ==> e == SetAbsoluteExtrude(false)
    ensures cmd == "M105" <==> e.AckWith?
    ensures e.AckWith? ==> e.msg == w.tempText
    ensures e == GoBusy <==> cmd == "G28" || (!inputfile && cmd in {"M119", "M109", "M190", "M303"})
    ensures cmd in {"G0", "G1"} ==> e == if w.moveError.Some? then Reply("Error: " + w.moveError.value) else NoEffect
  {
    if cmd == "G90" then SetAbsoluteCoord(true)
    else if cmd == "G91" then SetAbsoluteCoord(false)
    else if cmd == "M82" then SetAbsoluteExtrude(true)
    else if cmd == "M83" then SetAbsoluteExtrude(false)
    else if cmd == "G20" then Reply("Error: Machine does not support G20 (inches) command")
    else if cmd == "M105" then AckWith(w.tempText)
    else if cmd == "M114" then Reply(w.positionText)
    else if cmd == "G0" || cmd == "G1" then
      if w.moveError.Some? then Reply("Error: " + w.moveError.value) else NoEffect
    else if cmd == "G28" || (!inputfile && cmd in {"M119", "M109", "M190", "M303"}) then GoBusy
    else NoEffect
  }

  /** Carrying out an effect. */
  function Apply(g: GState, e: Effect): (r: GState)
    ensures SameSetup(g, r)
    ensures r.busy <==> g.busy || e.GoBusy?
    ensures e.SetAbsoluteCoord? ==> r == g.(absoluteCoord := e.coord)
    ensures e.SetAbsoluteExtrude? ==> r == g.(absoluteExtrude := e.extrude)
    ensures e.AckWith? ==> r == DoAck(g, e.msg)
    ensures !e.AckWith? ==> OnlyResponds(g, r)
  {
    match e
    case SetAbsoluteCoord(b) => g.(absoluteCoord := b)
    case SetAbsoluteExtrude(b) => g.(absoluteExtrude := b)
    case Reply(t) =>
      RespondCount(g, t);
      Respond(g, t)
    case AckWith(m) => DoAck(g, m)
    case GoBusy => g.(busy := true)
    case NoEffect => g
  }

  /** The handler registered for `cmd`, or `cmd_default`. */
  function RunHandler(g: GState, p: Parsed, cmd: string, w: World): (r: GState)
    requires p.command == Some(cmd)
    ensures cmd !in g.handlers ==> r == CmdDefault(g, p)
    ensures cmd in g.handlers ==> r == Apply(g, HandlerEffect(cmd, g.inputfile, w))
  {
    if cmd !in g.handlers then CmdDefault(g, p) else Apply(g, HandlerEffect(cmd, g.inputfile, w))
  }

  lemma {:induction false} RespondCount(g: GState, text: string)
    ensures OkCount(Respond(g, text).out) == OkCount(g.out)
  {
    var o := g.out + [Response(text)];
    assert o[..|o| - 1] == g.out;
  }

  /** Running a command with an acknowledgement pending: afterwards it
      is still pending, or the handler gave it (`M105`). */
  function RunCommand(g: GState, p: Parsed, cmd: string, w: World): (r: GState)
    requires p.command == Some(cmd)
    ensures SameSetup(g, r)
    ensures g.inputfile ==> r.out == g.out && r.needAck
    ensures !g.inputfile ==> OkCount(r.out) == OkCount(g.out) + (if r.needAck then 0 else 1)
  {
    RunHandler(g.(needAck := true), p, cmd, w)
  }

  /** After a command: stall when the handler or the toolhead is busy,
      otherwise acknowledge. */
  function AfterCommand(g: GState, w: World): (r: (GState, bool))
    ensures SameSetup(g, r.0)
    ensures r.1 <==> g.busy || w.toolheadBusy
    ensures r.0.busy == r.1
    ensures r.1 ==> r.0.out == g.out && r.0.needAck == g.needAck
    ensures !r.1 ==> r.0 == DoAck(g, "")
  {
    if g.busy then (g, true)
    else if w.toolheadBusy then (g.(busy := true), true)
    else (DoAck(g, ""), false)
  }

  /** One parsed line of `process_commands`: a line without a command
      goes to `cmd_default` and processing goes on; a command is run,
      and processing stalls (`stop`) when it, or the toolhead, is busy
      afterwards, and is otherwise acknowledged. */
  function ProcessParsed(g: GState, p: Parsed, w: World): (r: (GState, bool))
    ensures SameSetup(g, r.0)
    ensures p.command.None? ==> !r.1 && r.0.busy == g.busy && OnlyResponds(g, r.0)
    ensures r.1 ==> p.command.Some? && r.0.busy
    ensures !r.1 && p.command.Some? ==> !r.0.busy
    ensures g.inputfile ==> r.0.out == g.out
    ensures p.command.Some? && !g.inputfile ==> OkCount(r.0.out) == OkCount(g.out) + (if r.0.needAck then 0 else 1)
    ensures p.command.Some? && !g.inputfile && !r.1 ==> !r.0.needAck
  {
    match p.command
    case None => (CmdDefault(g, p), false)
    case Some(cmd) => AfterCommand(RunCommand(g, p, cmd, w), w)
  }

  /** The number of lines from `i` up to `k` that hold a command. */
  function Commands(lines: seq<string>, i: nat, k: nat): (r: nat)
    requires i <= k <= |lines|
    ensures r <= k - i
    decreases k - i
  {
    if i == k then 0 else (if ParseLine(lines[i]).command.Some? then 1 else 0) + Commands(lines, i + 1, k)
  }

  /** The loop of `process_commands` from line `i`: every line but the
      last is handled in order until one stalls; the result holds the
      number of lines handled. */
  function Loop(g: GState, i: nat, w: World): (r: (GState, nat))
    requires |g.input| >= 1 && i <= |g.input| - 1
    ensures LoopPost(g, i, r)
    decreases |g.input| - i
  {
    if i == |g.input| - 1 then (g, i)
    else
      var p := ParseLine(g.input[i]);
      var (g1, stop) := ProcessParsed(g, p, w);
      if stop then
        assert Commands(g.input, i, i + 1) == 1;
        (g1, i + 1)
      else
        var r := Loop(g1, i + 1, w);
        LoopCons(g, i, p, g1, r);
        r
  }

  /** What the loop from line `i` guarantees: the lines it handled, a
      stall unless it reached the last line, the setup kept, and each
      command acknowledged at most once, all of them unless stalled when
      not reading from a file. */
  predicate LoopPost(g: GState, i: nat, r: (GState, nat))
    requires |g.input| >= 1 && i <= |g.input| - 1
  {
    && i <= r.1 <= |g.input| - 1
    && SameSetup(g, r.0)
    && (r.1 < |g.input| - 1 ==> r.0.busy)
    && (g.inputfile ==> r.0.out == g.out)
    && OkCount(g.out) <= OkCount(r.0.out) <= OkCount(g.out) + Commands(g.input, i, r.1)
    && (!g.inputfile ==> OkCount(r.0.out) + (if r.0.busy then 1 else 0) >= OkCount(g.out) + Commands(g.input, i, r.1))
  }

  /** A line handled without stalling, then the rest of the loop. */
  lemma {:induction false} LoopCons(g: GState, i: nat, p: Parsed, g1: GState, r: (GState, nat))
    requires |g.input| >= 1 && i < |g.input| - 1 && p == ParseLine(g.input[i])
    requires SameSetup(g, g1)
    requires p.command.None? ==> g1.busy == g.busy && OnlyResponds(g, g1)
    requires p.command.Some? ==> !g1.busy
    requires g.inputfile ==> g1.out == g.out
    requires p.command.Some? && !g.inputfile ==> OkCount(g1.out) == OkCount(g.out) + (if g1.needAck then 0 else 1)
    requires p.command.Some? && !g.inputfile ==> !g1.needAck
    requires p.command.Some? ==> OkCount(g.out) <= OkCount(g1.out) <= OkCount(g.out) + 1
    requires LoopPost(g1, i + 1, r)
    ensures LoopPost(g, i, r)
  {
    var d := if p.command.Some? then 1 else 0;
    assert Commands(g.input, i, r.1) == d + Commands(g.input, i + 1, r.1);
  }

  /** `r` is `g` after handling its first `k` lines: those are dropped,
      and each command among them was acknowledged at most once, all of
      them except a stalled last one when not reading from a file. */
  predicate Handled(g: GState, r: GState, k: int) {
    && 0 <= k < |g.input|
    && r.input == g.input[k..]
    && OkCount(r.out) <= OkCount(g.out) + Commands(g.input, 0, k)
    && (!g.inputfile ==> OkCount(r.out) + (if r.busy then 1 else 0) >= OkCount(g.out) + Commands(g.input, 0, k))
  }

  /** `process_commands`: the handled lines are dropped from the input;
      what was not handled, and always the unfinished last line, stays. */
  function ProcessCommands(g: GState, w: World): (r: GState)
    requires |g.input| >= 1
    ensures |r.input| >= 1
    ensures |r.input| <= |g.input| && Handled(g, r, |g.input| - |r.input|)
    ensures !r.busy ==> r.input == [Last(g.input)]
    ensures OkCount(r.out) >= OkCount(g.out)
    ensures g.inputfile ==> r.out == g.out
    ensures r.inputfile == g.inputfile && r.handlers == g.handlers
  {
    var (g1, k) := Loop(g, 0, w);
    var r := g1.(input := g.input[k..]);
    assert |g.input| - |r.input| == k;
    assert Handled(g, r, k);
    assert !r.busy ==> r.input == [Last(g.input)] by {
      if !r.busy {
        assert k == |g.input| - 1;
      }
    }
    r
  }

  /** `process_data` for one read (empty data is end of input): while
      busy the read is postponed; otherwise the data's lines, the first
      one completing the pending partial line, are processed. `finished`
      when a file has reached its end. */
  function ProcessData(g: GState, data: string, w: World): (r: (GState, bool))
    requires |g.input| >= 1
    ensures g.busy ==> r == (g.(needRegisterFd := true), false)
    ensures !g.busy ==> r.0 == ProcessCommands(g.(input := PendingLines(g.input[0], data)), w)
    ensures r.1 <==> !g.busy && data == "" && g.inputfile
  {
    if g.busy then (g.(needRegisterFd := true), false)
    else
      var g1 := ProcessCommands(g.(input := PendingLines(g.input[0], data)), w);
      (g1, data == "" && g.inputfile)
  }

  /** The lines pending after a read: the data split at newlines, with the
      partial line before the first. */
  function PendingLines(partial: string, data: string): (r: seq<string>)
    ensures |r| >= 1
    ensures '\n' !in partial ==> r == Split(partial + data, '\n')
    ensures Join(r, '\n') == partial + data
  {
    var lines := Split(data, '\n');
    var r := [partial + lines[0]] + lines[1..];
    PendingLinesSplit(partial, data);
    JoinSplit(data, '\n');
    JoinPrefixFirst(partial, lines, '\n');
    r
  }

  lemma {:induction false} PendingLinesSplit(partial: string, data: string)
    ensures '\n' !in partial ==>
      Split(partial + data, '\n') == [partial + Split(data, '\n')[0]] + Split(data, '\n')[1..]
  {
    if '\n' !in partial {
      SplitAppend(partial, data, '\n');
      SplitNone(partial, '\n');
    }
  }

  /** The file descriptor's wake-up after the busy handler ran. */
  datatype Wake = Retry | Now | Never

  /** What the busy object's `check_busy` reports. */
  datatype BusyCheck = StillBusy | Done | Failed(msg: string)

  /** The busy state ends: a failure is reported, and the stalled
      command is acknowledged. */
  function EndBusy(g: GState, check: BusyCheck): (r: GState)
    requires !check.StillBusy?
    ensures r.input == g.input && !r.busy
    ensures OkCount(r.out) == OkCount(g.out) + (if g.needAck && !g.inputfile then 1 else 0)
  {
    var g0 := if check.Failed? then Respond(g, "Error: " + check.msg) else g;
    assert OkCount(g0.out) == OkCount(g.out) && g0.inputfile == g.inputfile && g0.needAck == g.needAck by {
      if check.Failed? {
        RespondCount(g, "Error: " + check.msg);
      }
    }
    DoAck(g0.(busy := false), "")
  }

  /** `busy_handler`: while the busy object is busy, try again later;
      once it is done (or failed, which is reported), acknowledge the
      stalled command, process the waiting lines and, unless that stalls
      again, read input again. */
  function BusyHandler(g: GState, check: BusyCheck, w: World): (r: (GState, Wake))
    requires |g.input| >= 1
    ensures check.StillBusy? ==> r == (g, Retry)
    ensures !check.StillBusy? ==> (r.1 == Now <==> r.0.busy)
    ensures !check.StillBusy? && !r.0.busy ==> !r.0.needRegisterFd && r.0.input == [Last(g.input)]
    ensures !check.StillBusy? ==> OkCount(r.0.out) >= OkCount(g.out) + (if g.needAck && !g.inputfile then 1 else 0)
  {
    if check.StillBusy? then (g, Retry)
    else
      var g2 := ProcessCommands(EndBusy(g, check), w);
      if g2.busy then (g2, Now)
      else (g2.(needRegisterFd := false), Never)
  }

  /** Reading from a file nothing is ever written, whatever the input. */
  lemma InputFileIsSilent(g: GState, data: string, w: World)
    requires |g.input| >= 1 && g.inputfile
    ensures ProcessData(g, data, w).0.out == g.out
  {
  }
}
