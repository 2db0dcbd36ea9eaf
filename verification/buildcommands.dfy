/** The build-time generator of the firmware's command tables
    (scripts/buildcommands.py). It reads the declarations the C sources
    embed (`_DECL_COMMAND`, `_DECL_PARSER`, `_DECL_OUTPUT`,
    `_DECL_STATIC_STR`, `_DECL_CONSTANT`, separated by NUL characters),
    gives every message a numeric id, and builds the encoder table, the
    parameter-type table and the command index. The tables are modelled by
    their contents; the C text they are printed as, the identify data and
    the version string are not modelled. The message-protocol module
    (klippy/msgproto.py) is not part of this model: its limits, default
    messages and the parameter types of a message format are inputs. */
module BuildCommands {
  import opened Wrappers
  import opened Strings

  /** A parameter type: its class name and the most bytes it encodes to. */
  datatype ParamType = ParamType(name: string, maxLength: int)

  /** What the message-protocol module supplies: the message size limits,
      the default messages with their fixed ids, and the parameter types
      of a command or response format and of an output format. */
  datatype Proto = Proto(
    messageMax: int,
    messageMin: int,
    defaults: seq<(nat, string)>,
    messageTypes: string -> seq<ParamType>,
    outputTypes: string -> seq<ParamType>)

  /** The default messages are a dict: distinct ids, at least one entry,
      and each message starts with its name. */
  predicate ProtoValid(p: Proto) {
    && |p.defaults| >= 1
    && (forall i, j :: 0 <= i < j < |p.defaults| ==> p.defaults[i].0 != p.defaults[j].0)
    && (forall i :: 0 <= i < |p.defaults| ==> |SplitWords(p.defaults[i].1)| >= 1)
  }

  /** `msg.split()[0]`, the name of a message. */
  function FirstWord(msg: string): string {
    var w := SplitWords(msg);
    if |w| == 0 then "" else w[0]
  }

  /** `d.get(key, key)`. */
  function GetOr(d: map<string, string>, key: string): string {
    if key in d then d[key] else key
  }

  // ------------------------------------------------ parameter type table

  /** The class names of a parameter list: the key of the type table. */
  type TypeTuple = seq<string>

  function TypeNames(ts: seq<ParamType>): (r: TypeTuple)
    ensures |r| == |ts|
    ensures forall i :: 0 <= i < |ts| ==> r[i] == ts[i].name
  {
    seq(|ts|, i requires 0 <= i < |ts| => ts[i].name)
  }

  predicate Distinct<T(==)>(s: seq<T>) {
    forall i, j :: 0 <= i < j < |s| ==> s[i] != s[j]
  }

  /** The first position of `x` in `s`. */
  function Position<T(==)>(s: seq<T>, x: T): (r: Option<nat>)
    ensures r.None? <==> x !in s
    ensures r.Some? ==> r.value < |s| && s[r.value] == x
    ensures r.Some? ==> forall j :: 0 <= j < r.value ==> s[j] != x
    decreases |s|
  {
    if |s| == 0 then None
    else if s[0] == x then Some(0)
    else match Position(s[1..], x)
      case None => None
      case Some(k) => Some(k + 1)
  }

  /** `all_param_types` is a dict from type tuple to id where a new tuple
      gets the dict's length as its id. The table here is the list of
      tuples in the order they were added, so a tuple's id is its
      position; `AsDict` is the dict it stands for. */
  function AsDict(table: seq<TypeTuple>): (d: map<TypeTuple, nat>)
    ensures forall t :: t in d <==> t in table
  {
    map t | t in table :: Position(table, t).value
  }

  /** `all_param_types.get(types)`, adding the tuple under the next id when
      it is new. */
  function Intern(table: seq<TypeTuple>, t: TypeTuple): (r: (seq<TypeTuple>, nat))
    ensures t in table ==> r.0 == table && r.1 == AsDict(table)[t]
    ensures t !in table ==> r.0 == table + [t] && r.1 == |table|
    ensures r.1 < |r.0| && r.0[r.1] == t
  {
    match Position(table, t)
    case Some(i) => (table, i)
    case None => (table + [t], |table|)
  }

  /** Interning keeps the ids dense and distinct: the dict's ids are
      exactly 0 up to its size, one tuple each, and an id once given
      never changes. */
  lemma {:induction false} InternKeepsIds(table: seq<TypeTuple>, t: TypeTuple)
    requires Distinct(table)
    ensures Distinct(Intern(table, t).0)
    ensures forall u :: u in AsDict(table) ==> AsDict(Intern(table, t).0)[u] == AsDict(table)[u]
    ensures AsDict(Intern(table, t).0)[t] == Intern(table, t).1
  {
    var r := Intern(table, t).0;
    forall u | u in AsDict(table)
      ensures AsDict(r)[u] == AsDict(table)[u]
    {
      var k := Position(table, u).value;
      assert r[k] == u;
      assert Position(r, u) == Some(k);
    }
  }

  /** In a table of distinct tuples the id of the tuple at position `i`
      is `i`. */
  lemma AsDictAt(table: seq<TypeTuple>, i: nat)
    requires Distinct(table) && i < |table|
    ensures AsDict(table)[table[i]] == i
  {
  }

  /** `build_param_types`: the (id, types) pairs sorted by id. */
  function ParamDecls(table: seq<TypeTuple>): (r: seq<(nat, TypeTuple)>)
    ensures |r| == |table|
    ensures forall i :: 0 <= i < |table| ==> r[i].0 == i && r[i].1 == table[i]
  {
    seq(|table|, i requires 0 <= i < |table| => (i, table[i]))
  }

  /** The declarations list every entry of the dict once, in increasing
      order of id. */
  lemma {:induction false} ParamDeclsSorted(table: seq<TypeTuple>)
    requires Distinct(table)
    ensures forall i :: 0 <= i < |table| ==> AsDict(table)[ParamDecls(table)[i].1] == ParamDecls(table)[i].0
    ensures forall i, j :: 0 <= i < j < |table| ==> ParamDecls(table)[i].0 < ParamDecls(table)[j].0
    ensures forall t :: t in AsDict(table) ==> (AsDict(table)[t], t) in ParamDecls(table)
  {
    var d, p := AsDict(table), ParamDecls(table);
    forall i | 0 <= i < |table|
      ensures d[p[i].1] == p[i].0
    {
      AsDictAt(table, i);
    }
    forall t | t in d
      ensures (d[t], t) in p
    {
      var k := Position(table, t).value;
      assert p[k] == (d[t], t);
    }
  }

  // ------------------------------------------------------------ encoders

  /** A message format as the protocol module would build it. */
  datatype Format = Format(name: string, msgformat: string, msgid: int, types: seq<ParamType>)

  /** `MessageFormat(msgid, msg)`: named by its first word. */
  function MessageFormat(p: Proto, msgid: int, msg: string): Format {
    Format(FirstWord(msg), msg, msgid, p.messageTypes(msg))
  }

  /** `OutputFormat(msgid, msg)`: named `#output`. */
  function OutputFormat(p: Proto, msgid: int, msg: string): Format {
    Format("#output", msg, msgid, p.outputTypes(msg))
  }

  /** The last field of an entry: the argument count of a command, or the
      encoded size bound of a response. */
  datatype Tail = NumArgs(n: nat) | MaxSize(size: int)

  /** One entry of the parser tables: the `#empty` message is the bare
      entry with a `max_size` of zero; any other names its parameter-type
      array (None for the `0` of a message without parameters). */
  datatype Encoder =
    | EmptyMsg
    | Encoder(comment: string, msgId: int, numParams: nat, paramsId: Option<nat>, tail: Tail)

  function Count(ts: TypeTuple, x: string): (r: nat)
    ensures r <= |ts|
  {
    if |ts| == 0 then 0 else (if ts[0] == x then 1 else 0) + Count(ts[1..], x)
  }

  function SumMaxLength(ts: seq<ParamType>): int {
    if |ts| == 0 then 0 else ts[0].maxLength + SumMaxLength(ts[1..])
  }

  function Min(a: int, b: int): int {
    if a < b then a else b
  }

  /** The parameter-type array of an entry: none for a format without
      parameters, otherwise the interned id of its type tuple. */
  function ParamsOf(types: TypeTuple, table: seq<TypeTuple>): (r: (seq<TypeTuple>, Option<nat>))
    ensures r.1.None? <==> types == []
    ensures types == [] ==> r.0 == table
    ensures r.1.Some? ==> r.0 == Intern(table, types).0 && r.1.value < |r.0| && r.0[r.1.value] == types
  {
    if types == [] then (table, None)
    else
      var (t, id) := Intern(table, types);
      (t, Some(id))
  }

  /** The last field of an entry: the argument words of a command, or the
      encoded size bound of a response capped at the message payload. */
  function TailOf(ts: seq<ParamType>, isCmd: bool, p: Proto): (r: Tail)
    ensures isCmd <==> r.NumArgs?
    ensures isCmd ==> r.n == ArgWords(ts)
    ensures !isCmd ==> r.size <= p.messageMax - p.messageMin
    ensures !isCmd && 1 + SumMaxLength(ts) <= p.messageMax - p.messageMin ==> r.size == 1 + SumMaxLength(ts)
  {
    if isCmd then
      NumArgsIsArgWords(ts);
      NumArgsOf(TypeNames(ts))
    else MaxSize(Min(p.messageMax - p.messageMin, 1 + SumMaxLength(ts)))
  }

  /** `build_parser`: the entry of a format, interning its type tuple. A
      command's argument count counts each buffer parameter twice (its
      length and its data); a response's size is one byte of id plus the
      parameters' largest encodings, capped at the message payload. */
  function BuildParser(f: Format, isCmd: bool, p: Proto, table: seq<TypeTuple>): (r: (Encoder, seq<TypeTuple>))
    ensures f.name == "#empty" ==> r == (EmptyMsg, table)
    ensures f.name != "#empty" ==> r.0.Encoder? && r.0.msgId == f.msgid && r.0.numParams == |f.types|
    ensures f.name != "#empty" ==> r.0.comment == if f.name == "#output" then "Output: " + f.msgformat else f.msgformat
    ensures f.name != "#empty" ==> (r.0.paramsId, r.1) == (ParamsOf(TypeNames(f.types), table).1, ParamsOf(TypeNames(f.types), table).0)
    ensures f.name != "#empty" ==> r.0.tail == TailOf(f.types, isCmd, p)
  {
    if f.name == "#empty" then (EmptyMsg, table)
    else
      var comment := if f.name == "#output" then "Output: " + f.msgformat else f.msgformat;
      var (table', params) := ParamsOf(TypeNames(f.types), table);
      (Encoder(comment, f.msgid, |f.types|, params, TailOf(f.types, isCmd, p)), table')
  }

  /** `len(types) + types.count('PT_progmem_buffer') + types.count('PT_buffer')`. */
  function NumArgsOf(types: TypeTuple): (r: Tail)
    ensures r.NumArgs?
  {
    NumArgs(|types| + Count(types, "PT_progmem_buffer") + Count(types, "PT_buffer"))
  }

  /** The argument words a parameter takes in a decoded command: two for
      a buffer (length and pointer), one for anything else. */
  function Words(name: string): nat {
    if name == "PT_progmem_buffer" || name == "PT_buffer" then 2 else 1
  }

  function ArgWords(ts: seq<ParamType>): nat {
    if |ts| == 0 then 0 else Words(ts[0].name) + ArgWords(ts[1..])
  }

  /** The count the generator computes is the argument words of the
      parameter list. */
  lemma {:induction false} NumArgsIsArgWords(ts: seq<ParamType>)
    ensures NumArgsOf(TypeNames(ts)).n == ArgWords(ts)
    decreases |ts|
  {
    if |ts| > 0 {
      NumArgsIsArgWords(ts[1..]);
      var names := TypeNames(ts);
      assert names[1..] == TypeNames(ts[1..]);
    }
  }

  /** `e` is the entry of format `f` against the type table `table`: the
      empty entry for `#empty`, otherwise the format's comment, id,
      parameter count and tail, and the table's id of its type tuple
      (none when it has no parameters). */
  predicate Encodes(e: Encoder, f: Format, isCmd: bool, p: Proto, table: seq<TypeTuple>) {
    if f.name == "#empty" then e == EmptyMsg
    else
      && e.Encoder? && e.msgId == f.msgid && e.numParams == |f.types|
      && e.comment == (if f.name == "#output" then "Output: " + f.msgformat else f.msgformat)
      && e.tail == TailOf(f.types, isCmd, p)
      && (e.paramsId.None? <==> TypeNames(f.types) == [])
      && (e.paramsId.Some? ==> e.paramsId.value < |table| && table[e.paramsId.value] == TypeNames(f.types))
  }

  /** The format of a declared parser: an output declaration (no name)
      or a named message, with the id of its message text. */
  function ParserFormat(p: Proto, ids: map<string, nat>, parser: (Option<string>, string)): Format
    requires parser.1 in ids
  {
    if parser.0.None? then OutputFormat(p, ids[parser.1], parser.1) else MessageFormat(p, ids[parser.1], parser.1)
  }

  /** `build_parsers`: the entries of the declared parsers in order, each
      with the id of its message text; an output declaration has no name.
      Each entry is its parser's format encoded against the final type
      table, which only grows. */
  function BuildParsers(parsers: seq<(Option<string>, string)>, ids: map<string, nat>, p: Proto, table: seq<TypeTuple>)
    : (r: Result<(seq<Encoder>, seq<TypeTuple>)>)
    ensures r.Ok? <==> forall i :: 0 <= i < |parsers| ==> parsers[i].1 in ids
    ensures r.Ok? ==> |r.value.0| == |parsers| && table <= r.value.1
    ensures r.Ok? ==> forall i :: 0 <= i < |parsers| ==>
      Encodes(r.value.0[i], ParserFormat(p, ids, parsers[i]), false, p, r.value.1)
    decreases |parsers|
  {
    if |parsers| == 0 then Ok(([], table))
    else
      var (name, msg) := parsers[0];
      if msg !in ids then Err("KeyError")
      else
        var f := ParserFormat(p, ids, parsers[0]);
        var (e, t1) := BuildParser(f, false, p, table);
        match BuildParsers(parsers[1..], ids, p, t1)
        case Err(m) => Err(m)
        case Ok((es, t2)) =>
          assert Encodes(e, f, false, p, t2);
          assert forall i :: 1 <= i < |parsers| ==> parsers[i] == parsers[1..][i - 1];
          Ok(([e] + es, t2))
  }

  // ------------------------------------------------------------ requests

  /** A declared command: its handler, its flags and its message name. */
  datatype Command = Command(funcname: string, flags: string, msgname: string)

  /** What the declarations collect: the commands by message name (and
      the order they were declared in), the messages by name, the parsers,
      the static strings and the constants. */
  datatype Decls = Decls(
    commands: map<string, Command>,
    commandOrder: seq<string>,
    messagesByName: map<string, string>,
    parsers: seq<(Option<string>, string)>,
    staticStrings: seq<string>,
    constants: map<string, string>)

  /** Each command is listed once in declaration order, and its message
      is known by name. */
  ghost predicate DeclsValid(d: Decls) {
    && Distinct(d.commandOrder)
    && Listed(d.commandOrder, d.commands)
    && (forall n :: n in d.commands ==> n in d.commandOrder && n in d.messagesByName)
  }

  /** Every name in the order has a command for that message name. */
  ghost predicate Listed(order: seq<string>, commands: map<string, Command>) {
    forall n :: n in order ==> n in commands && commands[n].msgname == n
  }

  /** The messages of the defaults by name, later ones winning. */
  function DefaultNames(defs: seq<(nat, string)>): map<string, string>
    decreases |defs|
  {
    if |defs| == 0 then map[]
    else DefaultNames(defs[..|defs| - 1])[FirstWord(defs[|defs| - 1].1) := defs[|defs| - 1].1]
  }

  /** The state before the first declaration. */
  function InitDecls(p: Proto): (d: Decls)
    ensures DeclsValid(d)
  {
    Decls(map[], [], DefaultNames(p.defaults), [], [], map[])
  }

  /** `s[n:]`, empty when `s` is shorter. */
  function Drop(s: string, n: nat): (r: string)
    ensures |s| >= n ==> r == s[n..]
    ensures |s| < n ==> r == ""
  {
    if |s| >= n then s[n..] else ""
  }

  /** The text after the first word: `lstrip` and drop one word. */
  function SkipWord(s: string): (r: string)
    ensures IsSuffix(r, s)
  {
    var t := LStrip(s);
    t[|Word(t)|..]
  }

  /** `s.split(None, n)[n]`: what is left after `n` words, without its
      leading white space. */
  function Rest(s: string, n: nat): (r: string)
    ensures IsSuffix(r, s)
    ensures |r| == 0 || !IsSpace(r[0])
    decreases n
  {
    if n == 0 then LStrip(s)
    else
      var t := SkipWord(s);
      var r := Rest(t, n - 1);
      SuffixTrans(r, t, s);
      r
  }

  predicate IsSuffix(r: string, s: string) {
    |r| <= |s| && r == s[|s| - |r|..]
  }

  lemma {:induction false} SuffixTrans(a: string, b: string, c: string)
    requires IsSuffix(a, b) && IsSuffix(b, c)
    ensures IsSuffix(a, c)
  {
    assert c[|c| - |b|..][|b| - |a|..] == c[|c| - |a|..];
  }

  /** Dropping leading white space does not change the words. */
  lemma {:induction false} SplitWordsLStrip(s: string)
    ensures SplitWords(LStrip(s)) == SplitWords(s)
    decreases |s|
  {
    if |s| > 0 && IsSpace(s[0]) {
      SplitWordsLStrip(s[1..]);
    }
  }

  /** Skipping a word drops the first of the words. */
  lemma {:induction false} SkipWordWords(s: string)
    requires |SplitWords(s)| >= 1
    ensures SplitWords(SkipWord(s)) == SplitWords(s)[1..]
  {
    var t := LStrip(s);
    SplitWordsLStrip(s);
    assert t[0] !in " " && !IsSpace(t[0]);
  }

  /** A constant's value loses one pair of surrounding double quotes. */
  function StripQuotes(v: string): (r: string)
    ensures |v| >= 1 && v[0] == '"' && v[|v| - 1] == '"' ==> r == Drop(v[..|v| - 1], 1)
    ensures !(|v| >= 1 && v[0] == '"' && v[|v| - 1] == '"') ==> r == v
  {
    if |v| >= 1 && v[0] == '"' && v[|v| - 1] == '"' then Drop(v[..|v| - 1], 1) else v
  }

  /** Quoting a value and stripping the quotes gives the value back. */
  lemma {:induction false} StripQuotesQuoted(s: string)
    ensures StripQuotes("\"" + s + "\"") == s
  {
    var q := "\"" + s + "\"";
    assert q[..|q| - 1] == "\"" + s;
    assert ("\"" + s)[1..] == s;
  }

  /** The keywords the generator knows. */
  predicate Known(cmd: string) {
    cmd in {"_DECL_COMMAND", "_DECL_PARSER", "_DECL_OUTPUT", "_DECL_STATIC_STR", "_DECL_CONSTANT"}
  }

  /** Every entry of `m` is in `m'` with the same value. */
  ghost predicate Extends<K, V>(m: map<K, V>, m': map<K, V>) {
    forall k :: k in m ==> k in m' && m'[k] == m[k]
  }

  /** A request only adds: no constant, message or command changes. */
  ghost predicate Grows(d: Decls, d': Decls) {
    && Extends(d.constants, d'.constants)
    && Extends(d.messagesByName, d'.messagesByName)
    && Extends(d.commands, d'.commands)
  }

  lemma ExtendsUpdate<K, V>(m: map<K, V>, k: K, v: V)
    requires k in m ==> m[k] == v
    ensures Extends(m, m[k := v])
  {
  }

  lemma ExtendsSelf<K, V>(m: map<K, V>)
    ensures Extends(m, m)
  {
  }

  /** One request: the text of one NUL-separated declaration, without its
      leading white space; the first word is the keyword and the rest
      after it, less one separator, is the message. */
  function Request(d: Decls, req0: string): (r: Result<Decls>)
    requires DeclsValid(d)
    ensures r.Ok? ==> DeclsValid(r.value) && Grows(d, r.value)
    ensures |SplitWords(req0)| == 0 ==> r == Ok(d)
    ensures |SplitWords(req0)| >= 1 && !Known(SplitWords(req0)[0]) ==> r.Err?
  {
    var req := LStrip(req0);
    SplitWordsLStrip(req0);
    var parts := SplitWords(req);
    if |parts| == 0 then Ok(d)
    else
      var cmd := parts[0];
      var msg := Drop(req, |cmd| + 1);
      ExtendsSelf(d.constants);
      ExtendsSelf(d.messagesByName);
      ExtendsSelf(d.commands);
      if cmd == "_DECL_COMMAND" then DeclCommand(d, req, parts)
      else if cmd == "_DECL_PARSER" then DeclParser(d, parts, msg)
      else if cmd == "_DECL_OUTPUT" then Ok(d.(parsers := d.parsers + [(None, msg)]))
      else if cmd == "_DECL_STATIC_STR" then Ok(d.(staticStrings := d.staticStrings + [Drop(req, 17)]))
      else if cmd == "_DECL_CONSTANT" then DeclConstant(d, parts)
      else Err("Unknown build time command '" + cmd + "'")
  }

  /** `_DECL_PARSER msgname ...`: a message; with no name it is the
      `#empty` message. A different message for a known name is an error. */
  function DeclParser(d: Decls, parts: seq<string>, msg: string): (r: Result<Decls>)
    requires DeclsValid(d)
    ensures r.Ok? ==> DeclsValid(r.value) && Grows(d, r.value)
    ensures var name := if |parts| <= 1 then "#empty" else parts[1];
      var m := if |parts| <= 1 then "#empty" else msg;
      && (r.Err? <==> name in d.messagesByName && d.messagesByName[name] != m)
      && (r.Ok? ==> r.value.parsers == d.parsers + [(Some(name), m)] && r.value.messagesByName == d.messagesByName[name := m])
  {
    var (msgname, msg) := if |parts| <= 1 then ("#empty", "#empty") else (parts[1], msg);
    if msgname in d.messagesByName && d.messagesByName[msgname] != msg then
      Err("Conflicting definition for message '" + msgname + "'")
    else
      ExtendsSelf(d.constants);
      ExtendsSelf(d.commands);
      ExtendsUpdate(d.messagesByName, msgname, msg);
      NewMessageValid(d, msgname, msg);
      Ok(d.(messagesByName := d.messagesByName[msgname := msg], parsers := d.parsers + [(Some(msgname), msg)]))
  }

  /** Naming a message keeps the declarations valid. */
  lemma NewMessageValid(d: Decls, name: string, msg: string)
    requires DeclsValid(d)
    ensures DeclsValid(d.(messagesByName := d.messagesByName[name := msg]))
  {
  }

  /** Adding a command under a new name keeps the declarations valid. */
  lemma {:induction false} NewCommandValid(d: Decls, c: Command, msg: string)
    requires DeclsValid(d) && c.msgname !in d.commands
    ensures DeclsValid(d.(commands := d.commands[c.msgname := c],
      commandOrder := d.commandOrder + [c.msgname],
      messagesByName := d.messagesByName[c.msgname := msg]))
  {
    var o := d.commandOrder + [c.msgname];
    forall i, j | 0 <= i < j < |o| ensures o[i] != o[j] {
      if j == |d.commandOrder| {
        assert d.commandOrder[i] in d.commands;
      }
    }
  }

  /** `_DECL_COMMAND funcname flags msgname message...`: a second command
      for the same message name, or a message that differs from the one
      already known by that name, is an error. */
  function DeclCommand(d: Decls, req: string, parts: seq<string>): (r: Result<Decls>)
    requires DeclsValid(d)
    ensures r.Ok? ==> DeclsValid(r.value) && Grows(d, r.value)
    ensures |parts| < 4 ==> r.Err?
    ensures |parts| >= 4 ==>
      (r.Err? <==> parts[3] in d.commands || (parts[3] in d.messagesByName && d.messagesByName[parts[3]] != Rest(req, 3)))
    ensures r.Ok? ==>
      && r.value.commands == d.commands[parts[3] := Command(parts[1], parts[2], parts[3])]
      && r.value.commandOrder == d.commandOrder + [parts[3]]
      && r.value.messagesByName == d.messagesByName[parts[3] := Rest(req, 3)]
  {
    if |parts| < 4 then Err("ValueError")
    else
      var msgname := parts[3];
      if msgname in d.commands then Err("Multiple definitions for command '" + msgname + "'")
      else
        var msg := Rest(req, 3);
        if msgname in d.messagesByName && d.messagesByName[msgname] != msg then
          Err("Conflicting definition for command '" + msgname + "'")
        else
          var c := Command(parts[1], parts[2], msgname);
          NewCommandValid(d, c, msg);
          ExtendsSelf(d.constants);
          ExtendsUpdate(d.commands, msgname, c);
          ExtendsUpdate(d.messagesByName, msgname, msg);
          Ok(d.(commands := d.commands[msgname := c],
            commandOrder := d.commandOrder + [msgname],
            messagesByName := d.messagesByName[msgname := msg]))
  }

  /** `_DECL_CONSTANT name value`: exactly two operands; the value loses
      its surrounding quotes; a different value for a known name is an
      error, the same value again is accepted. */
  function DeclConstant(d: Decls, parts: seq<string>): (r: Result<Decls>)
    requires DeclsValid(d)
    ensures r.Ok? ==> DeclsValid(r.value) && Grows(d, r.value)
    ensures |parts| != 3 ==> r.Err?
    ensures |parts| == 3 ==>
      var v := StripQuotes(Strip(parts[2]));
      (r.Err? <==> parts[1] in d.constants && d.constants[parts[1]] != v)
      && (r.Ok? ==> r.value == d.(constants := d.constants[parts[1] := v]))
  {
    if |parts| != 3 then Err("ValueError")
    else
      var name := parts[1];
      var value := StripQuotes(Strip(parts[2]));
      if name in d.constants && d.constants[name] != value then
        Err("Conflicting definition for constant '" + name + "'")
      else
        ExtendsUpdate(d.constants, name, value);
        ExtendsSelf(d.messagesByName);
        ExtendsSelf(d.commands);
        Ok(d.(constants := d.constants[name := value]))
  }

  /** Declaring the same constant twice with the same value changes
      nothing the second time. */
  lemma {:induction false} DeclConstantTwice(d: Decls, parts: seq<string>)
    requires DeclsValid(d) && DeclConstant(d, parts).Ok?
    ensures DeclConstant(DeclConstant(d, parts).value, parts) == DeclConstant(d, parts)
  {
    var v := StripQuotes(Strip(parts[2]));
    var m := d.constants[parts[1] := v];
    assert m[parts[1] := v] == m;
  }

  /** All requests in order; the first error stops the run. */
  function Requests(d: Decls, reqs: seq<string>): (r: Result<Decls>)
    requires DeclsValid(d)
    ensures r.Ok? ==> DeclsValid(r.value)
    decreases |reqs|
  {
    if |reqs| == 0 then Ok(d)
    else match Request(d, reqs[0])
      case Err(m) => Err(m)
      case Ok(d1) => Requests(d1, reqs[1..])
  }

  /** A request with an unknown keyword stops the whole run. */
  lemma {:induction false} UnknownKeywordFails(d: Decls, before: seq<string>, req: string, after: seq<string>)
    requires DeclsValid(d)
    requires |SplitWords(req)| >= 1 && !Known(SplitWords(req)[0])
    ensures Requests(d, before + [req] + after).Err?
    decreases |before|
  {
    if |before| == 0 {
      assert ([] + [req] + after)[1..] == after;
    } else {
      assert (before + [req] + after)[1..] == before[1..] + [req] + after;
      match Request(d, before[0])
      case Err(_) =>
      case Ok(d1) => UnknownKeywordFails(d1, before[1..], req, after);
    }
  }

  // ---------------------------------------------------------- message ids

  /** No two messages share an id. */
  predicate Injective(ids: map<string, nat>) {
    forall a, b :: a in ids && b in ids && a != b ==> ids[a] != ids[b]
  }

  predicate AllBelow(ids: map<string, nat>, bound: nat) {
    forall m :: m in ids ==> ids[m] <= bound
  }

  /** `max(DefaultMessages.keys())`. */
  function MaxDefault(defs: seq<(nat, string)>): (r: nat)
    requires |defs| >= 1
    ensures forall i :: 0 <= i < |defs| ==> defs[i].0 <= r
    ensures exists i :: 0 <= i < |defs| && defs[i].0 == r
    decreases |defs|
  {
    if |defs| == 1 then defs[0].0
    else
      var m := MaxDefault(defs[1..]);
      assert forall i :: 1 <= i < |defs| ==> defs[i] == defs[1..][i - 1];
      if defs[0].0 > m then defs[0].0 else m
  }

  /** `dict((m, i) for i, m in DefaultMessages.items())`: the message text
      to id, later entries winning. */
  function DefaultIds(defs: seq<(nat, string)>): (r: map<string, nat>)
    ensures forall m :: m in r ==> exists i :: 0 <= i < |defs| && defs[i] == (r[m], m)
    decreases |defs|
  {
    if |defs| == 0 then map[]
    else
      var n := |defs| - 1;
      var front := DefaultIds(defs[..n]);
      assert forall i :: 0 <= i < n ==> defs[..n][i] == defs[i];
      front[defs[n].1 := defs[n].0]
  }

  /** With distinct default ids no two default messages share an id, and
      each is at most the largest default id. */
  lemma {:induction false} DefaultIdsInjective(defs: seq<(nat, string)>)
    requires forall i, j :: 0 <= i < j < |defs| ==> defs[i].0 != defs[j].0
    ensures Injective(DefaultIds(defs))
    decreases |defs|
  {
    if |defs| > 0 {
      var n := |defs| - 1;
      var front := defs[..n];
      DefaultIdsInjective(front);
      var d := DefaultIds(front);
      forall a | a in d && a != defs[n].1
        ensures d[a] != defs[n].0
      {
        var i :| 0 <= i < |front| && front[i] == (d[a], a);
        assert defs[i] == front[i];
      }
    }
  }

  lemma {:induction false} DefaultIdsBelow(defs: seq<(nat, string)>)
    requires |defs| >= 1
    ensures AllBelow(DefaultIds(defs), MaxDefault(defs))
  {
    var d := DefaultIds(defs);
    forall m | m in d ensures d[m] <= MaxDefault(defs) {
      var i :| 0 <= i < |defs| && defs[i] == (d[m], m);
    }
  }

  /** Each name's message has an id. */
  ghost predicate Covers(names: seq<string>, byName: map<string, string>, ids: map<string, nat>) {
    forall i :: 0 <= i < |names| ==> GetOr(byName, names[i]) in ids
  }

  /** The id assignment loop of `main`: each name stands for its message
      (or for itself when no message has that name); a message without an
      id gets the next one. The result is the ids, the last id given, and
      the messages that were added, in order. */
  function Assign(ids: map<string, nat>, next: nat, names: seq<string>, byName: map<string, string>)
    : (r: (map<string, nat>, nat, seq<string>))
    requires AllBelow(ids, next) && Injective(ids)
    ensures AllBelow(r.0, r.1) && Injective(r.0)
    ensures Kept(ids, r.0)
    ensures Added(ids, r.0, next, r.2) && r.1 == next + |r.2|
    ensures Covers(names, byName, r.0)
    decreases |names|
  {
    if |names| == 0 then (ids, next, [])
    else
      var msg := GetOr(byName, names[0]);
      if msg in ids then
        var r := Assign(ids, next, names[1..], byName);
        CoversKept(names, byName, ids, r.0);
        r
      else
        var ids1 := ids[msg := next + 1];
        AssignNew(ids, next, msg);
        var r := Assign(ids1, next + 1, names[1..], byName);
        AssignCons(ids, ids1, r.0, next, msg, r.2);
        CoversKept(names, byName, ids1, r.0);
        (r.0, r.1, [msg] + r.2)
  }

  /** A new message under the next id keeps the ids distinct and bounded. */
  lemma AssignNew(ids: map<string, nat>, next: nat, msg: string)
    requires AllBelow(ids, next) && Injective(ids) && msg !in ids
    ensures AllBelow(ids[msg := next + 1], next + 1) && Injective(ids[msg := next + 1])
  {
  }

  lemma {:induction false} CoversKept(names: seq<string>, byName: map<string, string>, ids: map<string, nat>, ids': map<string, nat>)
    requires |names| >= 1 && GetOr(byName, names[0]) in ids
    requires Kept(ids, ids') && Covers(names[1..], byName, ids')
    ensures Covers(names, byName, ids')
  {
    forall i | 0 <= i < |names| ensures GetOr(byName, names[i]) in ids' {
      if i > 0 {
        assert names[i] == names[1..][i - 1];
      }
    }
  }

  /** Every message that had an id keeps it. */
  predicate Kept(ids: map<string, nat>, ids': map<string, nat>) {
    forall m :: m in ids ==> m in ids' && ids'[m] == ids[m]
  }

  /** The messages added are new, distinct, numbered on from `next`, and
      are the only messages added. */
  predicate Added(ids: map<string, nat>, ids': map<string, nat>, next: nat, added: seq<string>) {
    && Distinct(added)
    && (forall j :: 0 <= j < |added| ==> added[j] !in ids && added[j] in ids' && ids'[added[j]] == next + 1 + j)
    && (forall m :: m in ids' ==> m in ids || m in added)
  }

  lemma {:induction false} AssignCons(ids: map<string, nat>, ids1: map<string, nat>, ids2: map<string, nat>, next: nat, msg: string, added: seq<string>)
    requires msg !in ids && ids1 == ids[msg := next + 1]
    requires Kept(ids1, ids2) && Added(ids1, ids2, next + 1, added)
    ensures Kept(ids, ids2) && Added(ids, ids2, next, [msg] + added)
  {
    var all := [msg] + added;
    forall j | 0 <= j < |all|
      ensures all[j] !in ids && all[j] in ids2 && ids2[all[j]] == next + 1 + j
    {
      if j > 0 {
        assert all[j] == added[j - 1];
      }
    }
    forall i, j | 0 <= i < j < |all| ensures all[i] != all[j] {
      if i > 0 {
        assert all[i] == added[i - 1] && all[j] == added[j - 1];
      } else {
        assert all[j] == added[j - 1] && all[j] !in ids1;
      }
    }
  }

  /** The message ids of `main`: the defaults keep theirs, and the
      messages of the commands (in declaration order) and then of the
      parsers get consecutive ids after the largest default. */
  function MessageIds(p: Proto, d: Decls): (r: (map<string, nat>, nat, seq<string>))
    requires ProtoValid(p)
    ensures Injective(r.0) && AllBelow(r.0, r.1)
    ensures Kept(DefaultIds(p.defaults), r.0)
    ensures Added(DefaultIds(p.defaults), r.0, MaxDefault(p.defaults), r.2)
    ensures r.1 == MaxDefault(p.defaults) + |r.2|
    ensures Numbered(d.commandOrder, d.messagesByName, r.0)
    ensures forall i :: 0 <= i < |d.parsers| ==> GetOr(d.messagesByName, d.parsers[i].1) in r.0
    ensures forall i :: 0 <= i < |d.parsers| && d.parsers[i].1 !in d.messagesByName ==> d.parsers[i].1 in r.0
  {
    DefaultIdsInjective(p.defaults);
    DefaultIdsBelow(p.defaults);
    var names := d.commandOrder + ParserMsgs(d.parsers);
    var r := Assign(DefaultIds(p.defaults), MaxDefault(p.defaults), names, d.messagesByName);
    assert Covers(names, d.messagesByName, r.0);
    forall n | n in d.commandOrder ensures GetOr(d.messagesByName, n) in r.0 {
      var i :| 0 <= i < |d.commandOrder| && d.commandOrder[i] == n;
      assert names[i] == n;
    }
    forall i | 0 <= i < |d.parsers| ensures GetOr(d.messagesByName, d.parsers[i].1) in r.0 {
      assert names[|d.commandOrder| + i] == d.parsers[i].1;
    }
    r
  }

  /** `[m for n, m in parsers]`. */
  function ParserMsgs(parsers: seq<(Option<string>, string)>): (r: seq<string>)
    ensures |r| == |parsers|
    ensures forall i :: 0 <= i < |parsers| ==> r[i] == parsers[i].1
  {
    seq(|parsers|, i requires 0 <= i < |parsers| => parsers[i].1)
  }

  // ------------------------------------------------------ command index

  /** Each name's message has an id. */
  ghost predicate Numbered(order: seq<string>, byName: map<string, string>, ids: map<string, nat>) {
    forall n :: n in order ==> GetOr(byName, n) in ids
  }

  /** The slot of each name's message id holds a parser. */
  ghost predicate Indexed(order: seq<string>, byName: map<string, string>, ids: map<string, nat>, slots: seq<Option<CommandParser>>) {
    forall n :: n in order && GetOr(byName, n) in ids ==>
      ids[GetOr(byName, n)] < |slots| && slots[ids[GetOr(byName, n)]].Some?
  }

  /** `cmd_by_id`: each command under the id of its message, in
      declaration order, so a later command wins an id two share. */
  function CmdById(order: seq<string>, commands: map<string, Command>, byName: map<string, string>, ids: map<string, nat>)
    : (r: map<nat, Command>)
    requires Listed(order, commands) && Numbered(order, byName, ids)
    ensures forall n :: n in order ==> ids[GetOr(byName, n)] in r
    ensures forall k :: k in r ==>
      r[k].msgname in order && r[k] == commands[r[k].msgname] && ids[GetOr(byName, r[k].msgname)] == k
    decreases |order|
  {
    if |order| == 0 then map[]
    else
      var n := order[|order| - 1];
      var front := CmdById(order[..|order| - 1], commands, byName, ids);
      assert forall m :: m in order ==> m in order[..|order| - 1] || m == n;
      front[ids[GetOr(byName, n)] := commands[n]]
  }

  /** The largest id in a non-empty list. */
  function MaxOf(s: seq<nat>): (r: nat)
    requires |s| >= 1
    ensures forall i :: 0 <= i < |s| ==> s[i] <= r
    ensures r in s
    decreases |s|
  {
    if |s| == 1 then s[0]
    else
      var m := MaxOf(s[1..]);
      assert forall i :: 1 <= i < |s| ==> s[i] == s[1..][i - 1];
      if s[0] > m then s[0] else m
  }

  /** The ids of the commands' messages, in declaration order. */
  function CmdIds(order: seq<string>, byName: map<string, string>, ids: map<string, nat>): (r: seq<nat>)
    requires Numbered(order, byName, ids)
    ensures |r| == |order|
    ensures forall i :: 0 <= i < |order| ==> r[i] == ids[GetOr(byName, order[i])]
  {
    seq(|order|, i requires 0 <= i < |order| => ids[GetOr(byName, order[i])])
  }

  /** A command's entry in the command index. */
  datatype CommandParser = CommandParser(funcname: string, flags: string, encoder: Encoder)

  /** The slots of an index from id `i` on agree with the commands by
      id: a parser exactly where an id has a command, with that command's
      handler and flags. */
  ghost predicate Slots(byId: map<nat, Command>, slots: seq<Option<CommandParser>>, i: nat) {
    forall j :: 0 <= j < |slots| ==>
      && (slots[j].Some? <==> i + j in byId)
      && (slots[j].Some? ==> slots[j].value.funcname == byId[i + j].funcname && slots[j].value.flags == byId[i + j].flags)
  }

  lemma {:induction false} SlotsCons(byId: map<nat, Command>, s: Option<CommandParser>, rest: seq<Option<CommandParser>>, i: nat)
    requires Slots(byId, rest, i + 1)
    requires s.Some? <==> i in byId
    requires s.Some? ==> s.value.funcname == byId[i].funcname && s.value.flags == byId[i].flags
    ensures Slots(byId, [s] + rest, i)
  {
    var all := [s] + rest;
    forall j | 0 <= j < |all|
      ensures (all[j].Some? <==> i + j in byId)
      ensures all[j].Some? ==> all[j].value.funcname == byId[i + j].funcname && all[j].value.flags == byId[i + j].flags
    {
      if j > 0 {
        assert all[j] == rest[j - 1] && i + j == (i + 1) + (j - 1);
      }
    }
  }

  /** The slot of id `i`: nothing without a command, the command's
      parser otherwise; a command whose message has no text is a
      `KeyError`. */
  function Slot(byId: map<nat, Command>, byName: map<string, string>, p: Proto, table: seq<TypeTuple>, i: nat)
    : (r: (Result<Option<CommandParser>>, seq<TypeTuple>))
    requires Distinct(table)
    ensures Distinct(r.1) && table <= r.1
    ensures r.0.Err? <==> i in byId && byId[i].msgname !in byName
    ensures r.0.Ok? ==> (r.0.value.Some? <==> i in byId)
    ensures r.0.Ok? && r.0.value.Some? ==>
      r.0.value.value.funcname == byId[i].funcname && r.0.value.value.flags == byId[i].flags
  {
    if i !in byId then (Ok(None), table)
    else
      var c := byId[i];
      if c.msgname !in byName then (Err("KeyError"), table)
      else
        var f := MessageFormat(p, i, byName[c.msgname]);
        BuildParserKeepsDistinct(f, true, p, table);
        var (e, t) := BuildParser(f, true, p, table);
        (Ok(Some(CommandParser(c.funcname, c.flags, e))), t)
  }

  /** The slots from `i` to `maxId` of `build_commands`' index: a parser
      for an id with a command, nothing (the C `0`) for one without. */
  function CommandIndex(byId: map<nat, Command>, maxId: nat, byName: map<string, string>, p: Proto, table: seq<TypeTuple>, i: nat)
    : (r: Result<(seq<Option<CommandParser>>, seq<TypeTuple>)>)
    requires i <= maxId + 1
    requires Distinct(table)
    ensures r.Ok? ==> |r.value.0| == maxId + 1 - i && Distinct(r.value.1) && table <= r.value.1
    ensures r.Ok? ==> Slots(byId, r.value.0, i)
    ensures r.Err? ==> exists k :: i <= k <= maxId && k in byId && byId[k].msgname !in byName
    decreases maxId + 1 - i
  {
    if i > maxId then Ok(([], table))
    else
      var (slot, t1) := Slot(byId, byName, p, table, i);
      if slot.Err? then Err(slot.msg)
      else
        match CommandIndex(byId, maxId, byName, p, t1, i + 1)
        case Err(m) => Err(m)
        case Ok((rest, t2)) =>
          SlotsCons(byId, slot.value, rest, i);
          Ok(([slot.value] + rest, t2))
  }

  /** Building an entry keeps the type table free of repeats and only
      ever appends to it. */
  lemma {:induction false} BuildParserKeepsDistinct(f: Format, isCmd: bool, p: Proto, table: seq<TypeTuple>)
    requires Distinct(table)
    ensures Distinct(BuildParser(f, isCmd, p, table).1) && table <= BuildParser(f, isCmd, p, table).1
  {
    if f.name != "#empty" && f.types != [] {
      InternKeepsIds(table, TypeNames(f.types));
    }
  }

  /** `build_commands`: the index runs from id 0 to the largest command
      id; without commands `max` of nothing is an error. */
  function BuildCommandTable(d: Decls, ids: map<string, nat>, p: Proto, table: seq<TypeTuple>)
    : (r: Result<(seq<Option<CommandParser>>, seq<TypeTuple>)>)
    requires DeclsValid(d) && Distinct(table)
    requires Numbered(d.commandOrder, d.messagesByName, ids)
    ensures |d.commandOrder| == 0 <==> r.Err?
    ensures r.Ok? ==> Distinct(r.value.1) && table <= r.value.1
    ensures r.Ok? ==> |r.value.0| >= 1 && r.value.0[|r.value.0| - 1].Some?
    ensures r.Ok? ==> Slots(CmdById(d.commandOrder, d.commands, d.messagesByName, ids), r.value.0, 0)
    ensures r.Ok? ==> Indexed(d.commandOrder, d.messagesByName, ids, r.value.0)
  {
    if |d.commandOrder| == 0 then Err("ValueError")
    else
      var byId := CmdById(d.commandOrder, d.commands, d.messagesByName, ids);
      var maxId := MaxOf(CmdIds(d.commandOrder, d.messagesByName, ids));
      CommandIdsBelow(d.commandOrder, d.commands, d.messagesByName, ids, byId, maxId);
      NoMissingMessage(d, ids, byId);
      var r := CommandIndex(byId, maxId, d.messagesByName, p, table, 0);
      IndexCovers(d.commandOrder, d.messagesByName, ids, byId, maxId, r);
      r
  }

  /** Every command id is at most the largest, which has a command. */
  lemma {:induction false} CommandIdsBelow(order: seq<string>, commands: map<string, Command>, byName: map<string, string>,
                        ids: map<string, nat>, byId: map<nat, Command>, maxId: nat)
    requires |order| >= 1 && Listed(order, commands) && Numbered(order, byName, ids)
    requires byId == CmdById(order, commands, byName, ids)
    requires maxId == MaxOf(CmdIds(order, byName, ids))
    ensures forall k :: k in byId ==> k <= maxId
    ensures maxId in byId
  {
    var cids := CmdIds(order, byName, ids);
    forall k | k in byId ensures k <= maxId {
      var i :| 0 <= i < |order| && order[i] == byId[k].msgname;
      assert cids[i] == k;
    }
    var i :| 0 <= i < |cids| && cids[i] == maxId;
    assert order[i] in order;
  }

  /** Each command's message has a text, so the index never misses one. */
  lemma NoMissingMessage(d: Decls, ids: map<string, nat>, byId: map<nat, Command>)
    requires DeclsValid(d)
    requires Numbered(d.commandOrder, d.messagesByName, ids)
    requires byId == CmdById(d.commandOrder, d.commands, d.messagesByName, ids)
    ensures forall k :: k in byId ==> byId[k].msgname in d.messagesByName
  {
  }

  /** With every command's message known the index is built, its last
      slot holds the largest id's parser, and every command's id has a
      parser. */
  lemma {:induction false} IndexCovers(order: seq<string>, byName: map<string, string>, ids: map<string, nat>, byId: map<nat, Command>,
                    maxId: nat, r: Result<(seq<Option<CommandParser>>, seq<TypeTuple>)>)
    requires Numbered(order, byName, ids)
    requires forall n :: n in order ==> ids[GetOr(byName, n)] in byId
    requires forall k :: k in byId ==> k <= maxId && byId[k].msgname in byName
    requires maxId in byId
    requires r.Err? ==> exists k :: 0 <= k <= maxId && k in byId && byId[k].msgname !in byName
    requires r.Ok? ==> Slots(byId, r.value.0, 0) && |r.value.0| == maxId + 1
    ensures r.Ok? && |r.value.0| >= 1 && r.value.0[|r.value.0| - 1].Some?
    ensures Indexed(order, byName, ids, r.value.0)
  {
    var slots := r.value.0;
    assert slots[maxId].Some? <==> 0 + maxId in byId;
    assert |slots| - 1 == maxId;
    forall n | n in order && GetOr(byName, n) in ids
      ensures ids[GetOr(byName, n)] < |slots| && slots[ids[GetOr(byName, n)]].Some?
    {
      var k := ids[GetOr(byName, n)];
      assert slots[k].Some? <==> 0 + k in byId;
    }
  }

  // ------------------------------------------------------------- the run

  /** The tables the generator produces. */
  datatype Built = Built(
    paramDecls: seq<(nat, TypeTuple)>,
    encoders: seq<Encoder>,
    index: seq<Option<CommandParser>>,
    ids: map<string, nat>,
    staticStrings: seq<string>,
    constants: map<string, string>)

  /** `main` without the file and identify output: the declarations are
      read in order, the messages numbered, the response encoders built
      first and the command index after them, and the type table
      listed by id. */
  function Build(p: Proto, data: string): (r: Result<Built>)
    requires ProtoValid(p)
    ensures r.Ok? ==> Injective(r.value.ids)
    ensures r.Ok? ==> Kept(DefaultIds(p.defaults), r.value.ids)
    ensures r.Ok? ==> forall i, j :: 0 <= i < j < |r.value.paramDecls| ==> r.value.paramDecls[i].0 < r.value.paramDecls[j].0
    ensures r.Ok? ==> forall i :: 0 <= i < |r.value.paramDecls| ==> r.value.paramDecls[i].0 == i
  {
    match Requests(InitDecls(p), Split(data, '\0'))
    case Err(m) => Err(m)
    case Ok(d) =>
      var (ids, _, _) := MessageIds(p, d);
      match BuildParsers(d.parsers, ids, p, [])
      case Err(m) => Err(m)
      case Ok((encoders, t1)) =>
        BuildParsersKeepsDistinct(d.parsers, ids, p, []);
        match BuildCommandTable(d, ids, p, t1)
        case Err(m) => Err(m)
        case Ok((index, t2)) =>
          Ok(Built(ParamDecls(t2), encoders, index, ids, d.staticStrings, d.constants))
  }

  lemma {:induction false} BuildParsersKeepsDistinct(parsers: seq<(Option<string>, string)>, ids: map<string, nat>, p: Proto, table: seq<TypeTuple>)
    requires Distinct(table) && BuildParsers(parsers, ids, p, table).Ok?
    ensures Distinct(BuildParsers(parsers, ids, p, table).value.1)
    decreases |parsers|
  {
    if |parsers| > 0 {
      var f := ParserFormat(p, ids, parsers[0]);
      BuildParserKeepsDistinct(f, false, p, table);
      BuildParsersKeepsDistinct(parsers[1..], ids, p, BuildParser(f, false, p, table).1);
    }
  }
}
