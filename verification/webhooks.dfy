/** The API server's request handling (klippy/webhooks.py): UTF-8
    conversion of decoded JSON, the request object's life cycle, the
    endpoint registry, the `\x03` message framing on the socket, and the
    change-only status updates sent to subscribers. Sockets, the reactor
    and JSON text encoding are outside the model; JSON documents are
    values of `Json`. */
module WebHooks {
  import opened Wrappers
  import opened Strings

  // ------------------------------------------------------------ byteify

  /** A decoded JSON value, with Python 2's two string types. */
  datatype Json =
    | JNone
    | JInt(i: int)
    | JUnicode(u: string)
    | JBytes(b: seq<int>)
    | JList(items: seq<Json>)
    | JDict(entries: seq<(Json, Json)>)

  /** The UTF-8 encoding of one character. */
  function EncodeChar(c: char): (r: seq<int>)
    ensures 1 <= |r| <= 4
    ensures forall i :: 0 <= i < |r| ==> 0 <= r[i] < 256
    ensures (c as int < 0x80) == (|r| == 1)
  {
    var n := c as int;
    if n < 0x80 then [n]
    else if n < 0x800 then [0xC0 + n / 64, 0x80 + n % 64]
    else if n < 0x10000 then [0xE0 + n / 4096, 0x80 + (n / 64) % 64, 0x80 + n % 64]
    else [0xF0 + n / 262144, 0x80 + (n / 4096) % 64, 0x80 + (n / 64) % 64, 0x80 + n % 64]
  }

  /** The code point of one UTF-8 sequence, read back. */
  function DecodeScalar(b: seq<int>): int
    requires 1 <= |b| <= 4
  {
    if |b| == 1 then b[0]
    else if |b| == 2 then (b[0] - 0xC0) * 64 + (b[1] - 0x80)
    else if |b| == 3 then ((b[0] - 0xE0) * 64 + (b[1] - 0x80)) * 64 + (b[2] - 0x80)
    else (((b[0] - 0xF0) * 64 + (b[1] - 0x80)) * 64 + (b[2] - 0x80)) * 64 + (b[3] - 0x80)
  }

  lemma {:induction false} Digits64(n: int)
    requires n >= 0
    ensures (n / 64) * 64 + n % 64 == n
    ensures ((n / 4096) * 64 + (n / 64) % 64) == n / 64
    ensures ((n / 262144) * 64 + (n / 4096) % 64) == n / 4096
  {
    var a := n / 64;
    var b := a / 64;
    assert n / 4096 == b;
    assert b / 64 == n / 262144;
  }

  /** Each character's encoding reads back as the character. */
  lemma {:induction false} EncodeCharRoundTrip(c: char)
    ensures DecodeScalar(EncodeChar(c)) == c as int
  {
    Digits64(c as int);
    Digits64((c as int) / 64);
    Digits64((c as int) / 4096);
  }

  function EncodeUtf8(s: string): (r: seq<int>)
    ensures |r| >= |s|
  {
    if |s| == 0 then [] else EncodeChar(s[0]) + EncodeUtf8(s[1..])
  }

  /** No unicode string anywhere in the value. */
  predicate NoUnicode(d: Json) {
    match d
    case JUnicode(_) => false
    case JList(items) => forall i :: 0 <= i < |items| ==> NoUnicode(items[i])
    case JDict(entries) => forall i :: 0 <= i < |entries| ==> NoUnicode(entries[i].0) && NoUnicode(entries[i].1)
    case _ => true
  }

  /** `byteify(data, ignore_dicts)`: unicode strings become their UTF-8
      bytes; lists are converted element by element; a dict is converted
      (keys and values) only when dicts are not ignored, and everything
      below the top is converted with dicts ignored. */
  function Byteify(d: Json, ignoreDicts: bool): (r: Json)
    ensures d.JUnicode? ==> r == JBytes(EncodeUtf8(d.u))
    ensures d.JList? ==> r.JList? && |r.items| == |d.items|
    ensures d.JDict? && ignoreDicts ==> r == d
    ensures d.JDict? && !ignoreDicts ==> r.JDict? && |r.entries| == |d.entries|
    ensures !d.JUnicode? && !d.JList? && !d.JDict? ==> r == d
  {
    match d
    case JUnicode(u) => JBytes(EncodeUtf8(u))
    case JList(items) => JList(seq(|items|, i requires 0 <= i < |items| => Byteify(items[i], true)))
    case JDict(entries) =>
      if ignoreDicts then d
      else JDict(seq(|entries|, i requires 0 <= i < |entries| => (Byteify(entries[i].0, true), Byteify(entries[i].1, true))))
    case _ => d
  }

  /** Dicts in the input are converted by the JSON decoder's object hook
      from the innermost outwards, so with the final call every string
      has been converted. */
  function LoadsByteified(d: Json): (r: Json)
    ensures NoUnicode(r)
  {
    ByteifyIgnoringDicts(Hooked(d));
    Byteify(Hooked(d), true)
  }

  /** The decoded value after the object hook ran on every dict. */
  function Hooked(d: Json): (r: Json)
    ensures NoDictUnicode(r)
  {
    match d
    case JList(items) =>
      var hs := seq(|items|, i requires 0 <= i < |items| => Hooked(items[i]));
      JList(hs)
    case JDict(entries) =>
      var hs := seq(|entries|, i requires 0 <= i < |entries| => (Hooked(entries[i].0), Hooked(entries[i].1)));
      var r := Byteify(JDict(hs), false);
      ByteifyOfHooked(hs);
      r
    case _ => d
  }

  /** Every dict and everything inside one is free of unicode strings. */
  predicate NoDictUnicode(d: Json) {
    match d
    case JList(items) => forall i :: 0 <= i < |items| ==> NoDictUnicode(items[i])
    case JDict(_) => NoUnicode(d)
    case _ => true
  }

  lemma {:induction false} ByteifyOfHooked(hs: seq<(Json, Json)>)
    requires forall i :: 0 <= i < |hs| ==> NoDictUnicode(hs[i].0) && NoDictUnicode(hs[i].1)
    ensures NoUnicode(Byteify(JDict(hs), false))
  {
    forall i | 0 <= i < |hs|
      ensures NoUnicode(Byteify(hs[i].0, true)) && NoUnicode(Byteify(hs[i].1, true))
    {
      ByteifyIgnoringDicts(hs[i].0);
      ByteifyIgnoringDicts(hs[i].1);
    }
  }

  /** With dicts ignored, a value whose dicts are already converted comes
      out with no unicode left. */
  lemma {:induction false} ByteifyIgnoringDicts(d: Json)
    requires NoDictUnicode(d)
    ensures NoUnicode(Byteify(d, true))
  {
    match d
    case JList(items) =>
      forall i | 0 <= i < |items| ensures NoUnicode(Byteify(items[i], true)) {
        ByteifyIgnoringDicts(items[i]);
      }
    case _ =>
  }

  /** Byteify alone does not reach into a dict inside a list: the object
      hook is what converts it. */
  lemma {:induction false} ByteifyLeavesNestedDict()
    ensures var d := JList([JDict([(JUnicode("k"), JInt(1))])]);
      Byteify(d, false) == d && !NoUnicode(Byteify(d, false))
  {
    var e := JDict([(JUnicode("k"), JInt(1))]);
    var d := JList([e]);
    assert Byteify(d, false).items[0] == Byteify(e, true) == e;
    assert Byteify(d, false) == d;
    assert !NoUnicode(e.entries[0].0);
    assert !NoUnicode(e);
  }

  // ------------------------------------------------------------ requests

  /** A `WebRequest`: its id, path, arguments and response so far. */
  datatype WebRequest = WebRequest(id: int, path: string, args: map<string, Json>, response: Option<Json>)

  /** `get(item, default)`: the argument, else the default when one is
      given, else an "Invalid Argument" error. */
  function Get(wr: WebRequest, item: string, default: Option<Json>): (r: Result<Json>)
    ensures item in wr.args ==> r == Ok(wr.args[item])
    ensures item !in wr.args ==> (r.Ok? <==> default.Some?)
    ensures item !in wr.args && default.Some? ==> r == Ok(default.value)
  {
    if item !in wr.args then
      match default
      case None => Err("Invalid Argument [" + item + "]")
      case Some(v) => Ok(v)
    else Ok(wr.args[item])
  }

  /** `send(data)`: the first response sticks; a second send fails. */
  function Send(wr: WebRequest, data: Json): (r: Result<WebRequest>)
    ensures r.Ok? <==> wr.response.None?
    ensures r.Ok? ==> r.value == wr.(response := Some(data))
  {
    if wr.response.Some? then Err("Multiple calls to send not allowed")
    else Ok(wr.(response := Some(data)))
  }

  function ErrorDict(message: string): Json {
    JDict([(JUnicode("error"), JUnicode("WebRequestError")), (JUnicode("message"), JUnicode(message))])
  }

  /** `set_error`: the error replaces any response. */
  function SetError(wr: WebRequest, message: string): (r: WebRequest)
    ensures r.response == Some(ErrorDict(message))
    ensures r.id == wr.id && r.path == wr.path && r.args == wr.args
  {
    wr.(response := Some(ErrorDict(message)))
  }

  /** The finished request: its id and the response. */
  datatype Finished = Finished(requestId: int, response: Json)

  /** `finish`: a request that never responded answers "ok". */
  function Finish(wr: WebRequest): (r: (WebRequest, Finished))
    ensures r.1.requestId == wr.id
    ensures wr.response.Some? ==> r.1.response == wr.response.value && r.0 == wr
    ensures wr.response.None? ==> r.1.response == JUnicode("ok") && r.0.response == Some(JUnicode("ok"))
  {
    var resp := match wr.response case None => JUnicode("ok") case Some(v) => v;
    (wr.(response := Some(resp)), Finished(wr.id, resp))
  }

  /** A handler that sends answers with what it sent, one that also
      fails answers with the error, and one that does nothing answers
      "ok". */
  lemma FinishAnswers(wr: WebRequest, data: Json, message: string)
    requires wr.response.None?
    ensures Finish(Send(wr, data).value).1 == Finished(wr.id, data)
    ensures Finish(SetError(Send(wr, data).value, message)).1 == Finished(wr.id, ErrorDict(message))
    ensures Finish(wr).1 == Finished(wr.id, JUnicode("ok"))
    ensures Send(Send(wr, data).value, data).Err?
  {
  }

  // ------------------------------------------------------------ endpoints

  /** The registered paths; callbacks are identified by their path. */
  type Endpoints = set<string>

  /** `register_endpoint`: a path can be registered once. */
  function RegisterEndpoint(e: Endpoints, path: string): (r: Result<Endpoints>)
    ensures r.Ok? <==> path !in e
    ensures r.Ok? ==> r.value == e + {path}
  {
    if path in e then Err("Path already registered to an endpoint") else Ok(e + {path})
  }

  /** The endpoints after `WebHooks` is set up: `list_endpoints` given,
      then `info` and `emergency_stop` registered. */
  function InitialEndpoints(): (r: Endpoints)
    ensures r == {"list_endpoints", "info", "emergency_stop"}
  {
    var e0: Endpoints := {"list_endpoints"};
    var e1 := RegisterEndpoint(e0, "info").value;
    RegisterEndpoint(e1, "emergency_stop").value
  }

  /** `get_callback`: unknown paths are an error. */
  function GetCallback(e: Endpoints, path: string): (r: Result<string>)
    ensures r.Ok? <==> path in e
    ensures r.Ok? ==> r.value == path
  {
    if path in e then Ok(path) else Err("webhooks: No registered callback for path '" + path + "'")
  }

  /** Registering a path already in use, `list_endpoints` included, is
      refused. */
  lemma RegisterTwiceFails(e: Endpoints, path: string)
    requires RegisterEndpoint(e, path).Ok?
    ensures RegisterEndpoint(RegisterEndpoint(e, path).value, path).Err?
    ensures RegisterEndpoint(InitialEndpoints(), "list_endpoints").Err?
  {
  }

  // ------------------------------------------------------------ framing

  const ETX: char := '\U{3}'

  /** The outcome of a read: the socket closed, or the complete frames in
      order and the unfinished rest. */
  datatype Received = Closed | Frames(frames: seq<string>, partial: string)

  /** `process_received`: the data is split at `\x03`, the pending partial
      frame is put in front of the first piece, and the last piece waits
      for more data. Empty data means the peer closed the socket. */
  function ProcessReceived(partial: string, data: string): (r: Received)
    ensures data == "" <==> r.Closed?
    ensures r.Frames? && ETX !in partial ==> r.frames + [r.partial] == Split(partial + data, ETX)
    ensures r.Frames? && ETX !in partial ==> ETX !in r.partial
  {
    if data == "" then Closed
    else
      var requests := Split(data, ETX);
      var all := [partial + requests[0]] + requests[1..];
      SplitAfterPartial(partial, data);
      assert all == all[..|all| - 1] + [all[|all| - 1]];
      assert ETX !in partial ==> ETX !in all[|all| - 1] by {
        SplitFree(partial + data, ETX);
      }
      Frames(all[..|all| - 1], all[|all| - 1])
  }

  lemma {:induction false} SplitAfterPartial(partial: string, data: string)
    ensures ETX !in partial ==>
      Split(partial + data, ETX) == [partial + Split(data, ETX)[0]] + Split(data, ETX)[1..]
  {
    if ETX !in partial {
      SplitAppend(partial, data, ETX);
      SplitNone(partial, ETX);
    }
  }

  /** With no separator pending, the frames are every piece of the split
      but the last, and the last is the new partial frame. */
  lemma {:induction false} ProcessReceivedIsSplit(partial: string, data: string)
    requires ETX !in partial && data != ""
    ensures var s := Split(partial + data, ETX);
      ProcessReceived(partial, data) == Frames(s[..|s| - 1], Last(s))
  {
    var r := ProcessReceived(partial, data);
    var s := Split(partial + data, ETX);
    assert r.frames + [r.partial] == s;
    assert r.frames == s[..|s| - 1];
  }

  /** Data arriving in two reads gives the same frames, and the same
      partial frame, as arriving in one. */
  lemma {:induction false} ProcessReceivedChunks(partial: string, a: string, b: string)
    requires ETX !in partial && a != "" && b != ""
    ensures var r1 := ProcessReceived(partial, a);
      var r2 := ProcessReceived(r1.partial, b);
      var r := ProcessReceived(partial, a + b);
      r.frames == r1.frames + r2.frames && r.partial == r2.partial
  {
    var x := partial + a;
    var sa := Split(x, ETX);
    var p1 := Last(sa);
    var sb := Split(p1 + b, ETX);
    assert partial + (a + b) == x + b;
    var s := Split(x + b, ETX);
    SplitTail(x, b);
    assert s == sa[..|sa| - 1] + sb;
    DropLastAppend(sa[..|sa| - 1], sb);
    ProcessReceivedIsSplit(partial, a);
    ProcessReceivedIsSplit(p1, b);
    ProcessReceivedIsSplit(partial, a + b);
  }

  /** Appending to a string only changes its split from the last piece
      on. */
  lemma {:induction false} SplitTail(x: string, b: string)
    ensures var sx := Split(x, ETX);
      Split(x + b, ETX) == sx[..|sx| - 1] + Split(Last(sx) + b, ETX)
  {
    var sx := Split(x, ETX);
    var p := Last(sx);
    assert ETX !in p by {
      SplitFree(x, ETX);
    }
    var sb := Split(b, ETX);
    SplitAppend(x, b, ETX);
    SplitAfterPartial(p, b);
    assert Split(p + b, ETX) == [p + sb[0]] + sb[1..];
    assert sx[..|sx| - 1] + [p + sb[0]] + sb[1..] == sx[..|sx| - 1] + ([p + sb[0]] + sb[1..]);
  }

  lemma DropLastAppend<T>(x: seq<T>, y: seq<T>)
    requires |y| >= 1
    ensures (x + y)[..|x + y| - 1] == x + y[..|y| - 1]
    ensures Last(x + y) == Last(y)
  {
  }

  /** `send`: the message text and `\x03` are appended to the send
      buffer. */
  function SendText(buffer: string, text: string): (r: string)
    ensures r == buffer + text + [ETX]
    ensures |r| == |buffer| + |text| + 1 && r[|r| - 1] == ETX
  {
    buffer + text + [ETX]
  }

  /** Messages sent one after another. */
  function SendAll(buffer: string, texts: seq<string>): (r: string)
    decreases |texts|
  {
    if |texts| == 0 then buffer else SendAll(SendText(buffer, texts[0]), texts[1..])
  }

  /** The receiving side frames what was sent as the messages themselves,
      with nothing left over. */
  lemma {:induction false} SendThenReceive(texts: seq<string>)
    requires |texts| >= 1
    requires forall i :: 0 <= i < |texts| ==> ETX !in texts[i]
    ensures ProcessReceived("", SendAll("", texts)) == Frames(texts, "")
  {
    var data := SendAll("", texts);
    SendAllIsJoin("", texts);
    assert data == Join(texts + [""], ETX);
    assert forall i :: 0 <= i < |texts + [""]| ==> ETX !in (texts + [""])[i];
    SplitJoin(texts + [""], ETX);
    assert "" + data == data;
    assert data != "" by {
      JoinLength(texts + [""]);
    }
  }

  lemma JoinLength(parts: seq<string>)
    requires |parts| >= 2
    ensures |Join(parts, ETX)| >= 1
  {
  }

  lemma {:induction false} SendAllIsJoin(buffer: string, texts: seq<string>)
    requires |texts| >= 1
    ensures SendAll(buffer, texts) == buffer + Join(texts + [""], ETX)
    decreases |texts|
  {
    if |texts| == 1 {
      assert texts + [""] == [texts[0], ""];
      assert Join([texts[0], ""], ETX) == texts[0] + [ETX] + Join([""], ETX);
    } else {
      SendAllIsJoin(SendText(buffer, texts[0]), texts[1..]);
      assert texts + [""] == [texts[0]] + (texts[1..] + [""]);
      assert (texts + [""])[1..] == texts[1..] + [""];
    }
  }

  // ------------------------------------------------------------ status queries

  /** A status item: a plain value, or a callable, which is never sent. */
  datatype Item = Callable | Value(v: Json)

  type Status = map<string, Item>

  /** The value an item has in a status, None when absent. */
  function Lookup(s: Status, key: string): Option<Item> {
    if key in s then Some(s[key]) else None
  }

  /** The value an item reads as with `dict.get`: an absent item reads as
      None, just like an item whose value is None. */
  function Seen(s: Status, key: string): Item {
    if key in s then s[key] else Value(JNone)
  }

  /** The items sent for one object: every requested non-callable item,
      for a one-shot query; only those whose value differs from the last
      round, for a subscriber, where an absent item and a None item read
      alike. An absent item is sent as None. */
  function Diff(res: Status, reqItems: set<string>, last: Status, isQuery: bool): (r: map<string, Option<Json>>)
    ensures forall ri :: ri in r <==> (ri in reqItems && Lookup(res, ri) != Some(Callable) && (isQuery || Seen(res, ri) != Seen(last, ri)))
    ensures forall ri :: ri in r ==> r[ri] == match Lookup(res, ri) case Some(Value(v)) => Some(v) case _ => None
  {
    map ri | ri in reqItems && Lookup(res, ri) != Some(Callable) && (isQuery || Seen(res, ri) != Seen(last, ri))
      :: match Lookup(res, ri) case Some(Value(v)) => Some(v) case _ => None
  }

  /** A subscriber is not sent an item that went from absent to None or
      from None to absent, but is still sent one whose last value was a
      callable: only a change of the value read counts. */
  lemma AbsentReadsAsNone(res: Status, last: Status, ri: string)
    requires ri in res && res[ri] == Value(JNone) && ri !in last
    ensures ri !in Diff(res, {ri}, last, false)
    ensures ri !in Diff(last, {ri}, res, false)
    ensures ri in Diff(res, {ri}, last[ri := Callable], false)
  {
  }

  /** The status part of a message to a client: per object, its items. */
  type Msg = map<string, map<string, Option<Json>>>

  /** A client: its subscription (per object, the requested items, or
      None for all), whether it is a one-shot query, and whether its
      connection closed. */
  datatype Client = Client(subscription: map<string, Option<set<string>>>, isQuery: bool, closed: bool)

  /** What a client gets for one object: nothing, or the items. */
  function ObjectUpdate(res: Status, req: Option<set<string>>, last: Status, isQuery: bool): (r: Option<map<string, Option<Json>>>)
    ensures isQuery ==> r.Some?
    ensures r.Some? ==> r.value == Diff(res, match req case None => res.Keys case Some(s) => s, last, isQuery)
    ensures !isQuery ==> (r.Some? <==> Diff(res, match req case None => res.Keys case Some(s) => s, last, isQuery) != map[])
  {
    var items := match req case None => res.Keys case Some(s) => s;
    var cres := Diff(res, items, last, isQuery);
    if cres != map[] || isQuery then Some(cres) else None
  }

  /** The update of one client for this round: each subscribed object's
      items, and whether a message is sent at all. */
  function ClientUpdate(c: Client, status: string -> Status, last: map<string, Status>): (r: Option<Msg>)
    ensures c.isQuery ==> r.Some? && r.value.Keys == c.subscription.Keys
    ensures r.Some? ==> forall o :: o in r.value ==> o in c.subscription
    ensures r.Some? ==> forall o :: o in r.value && o in c.subscription ==>
      Some(r.value[o]) == ObjectUpdate(status(o), c.subscription[o], LastOf(last, o), c.isQuery)
  {
    var cquery := map o | o in c.subscription && ObjectUpdate(status(o), c.subscription[o], LastOf(last, o), c.isQuery).Some?
      :: ObjectUpdate(status(o), c.subscription[o], LastOf(last, o), c.isQuery).value;
    if cquery != map[] || c.isQuery then Some(cquery) else None
  }

  function LastOf(last: map<string, Status>, o: string): Status {
    if o in last then last[o] else map[]
  }

  /** A subscriber whose objects all report what they reported last round
      is sent nothing. */
  lemma {:induction false} UnchangedSubscriberGetsNothing(c: Client, status: string -> Status, last: map<string, Status>)
    requires !c.isQuery
    requires forall o :: o in c.subscription ==> o in last && last[o] == status(o)
    ensures ClientUpdate(c, status, last).None?
  {
    forall o | o in c.subscription
      ensures ObjectUpdate(status(o), c.subscription[o], LastOf(last, o), false).None?
    {
      var items := match c.subscription[o] case None => status(o).Keys case Some(s) => s;
      assert Diff(status(o), items, LastOf(last, o), false) == map[];
    }
  }

  /** One round of `_do_query`: each open client, one-shot queries
      first, gets its update; closed subscribers are dropped; `None`
      subscriptions are fixed to the items present, when there are any;
      the statuses read become the next round's last values. */
  datatype Round = Round(sent: seq<(nat, Msg)>, clients: seq<Client>, last: map<string, Status>)

  /** A client the round looks at: a one-shot query, or a subscriber
      whose connection is open. */
  predicate Served(c: Client) {
    !(c.closed && !c.isQuery)
  }

  /** The round sends to this client. */
  predicate Sends(c: Client, status: string -> Status, last: map<string, Status>) {
    Served(c) && ClientUpdate(c, status, last).Some?
  }

  /** The updates sent are in client order, one to each client served
      that has something to send (every one-shot query does), each that
      client's update. */
  ghost predicate SendsUpdates(sent: seq<(nat, Msg)>, all: seq<Client>, status: string -> Status, last: map<string, Status>) {
    && (forall j :: 0 <= j < |sent| ==> sent[j].0 < |all| && Some(sent[j].1) == ClientUpdate(all[sent[j].0], status, last))
    && (forall j, k :: 0 <= j < k < |sent| ==> sent[j].0 < sent[k].0)
    && (forall n :: 0 <= n < |all| ==> (SentTo(sent, n) <==> Sends(all[n], status, last)))
  }

  /** The clients kept are the open ones, in order, their subscriptions
      fixed. */
  ghost predicate KeepsOpen(kept: seq<Client>, clients: seq<Client>, status: string -> Status) {
    var open := OpenIndices(clients, 0);
    && |kept| == |open|
    && (forall j :: 0 <= j < |kept| ==> kept[j] == FixSubscription(clients[open[j]], status))
    && (forall j :: 0 <= j < |kept| ==> !kept[j].closed)
  }

  /** The statuses remembered are those of exactly the objects some served
      client subscribes to. */
  ghost predicate Remembers(mem: map<string, Status>, all: seq<Client>, status: string -> Status) {
    && (forall o :: o in mem <==> exists n :: 0 <= n < |all| && Served(all[n]) && o in all[n].subscription)
    && (forall o :: o in mem ==> mem[o] == status(o))
  }

  function SentUpdates(all: seq<Client>, status: string -> Status, last: map<string, Status>): (r: seq<(nat, Msg)>)
    ensures SendsUpdates(r, all, status, last)
  {
    Updates(Pending(all, status, last), 0)
  }

  function KeptClients(clients: seq<Client>, status: string -> Status): (r: seq<Client>)
    ensures KeepsOpen(r, clients, status)
  {
    var kept := KeepOpen(clients, 0);
    seq(|kept|, j requires 0 <= j < |kept| => FixSubscription(kept[j], status))
  }

  function Remembered(all: seq<Client>, status: string -> Status): (r: map<string, Status>)
    ensures Remembers(r, all, status)
  {
    var objs := set i, o | 0 <= i < |all| && Served(all[i]) && o in all[i].subscription :: o;
    map o | o in objs :: status(o)
  }

  /** `_do_query`: each served client, one-shot queries first, is sent its
      update, if it has one; the open subscribers are kept with their
      subscriptions fixed; the statuses read become the next round's last
      values. */
  function DoQuery(pending: seq<Client>, clients: seq<Client>, status: string -> Status, last: map<string, Status>): (r: Round)
    ensures SendsUpdates(r.sent, pending + clients, status, last)
    ensures KeepsOpen(r.clients, clients, status)
    ensures Remembers(r.last, pending + clients, status)
  {
    var all := pending + clients;
    Round(SentUpdates(all, status, last), KeptClients(clients, status), Remembered(all, status))
  }

  /** The update each client gets this round, if any: nothing for a
      closed subscriber. */
  function Pending(all: seq<Client>, status: string -> Status, last: map<string, Status>): (r: seq<Option<Msg>>)
    ensures |r| == |all|
    ensures forall n :: 0 <= n < |all| ==> r[n] == if Served(all[n]) then ClientUpdate(all[n], status, last) else None
  {
    seq(|all|, n requires 0 <= n < |all| => if Served(all[n]) then ClientUpdate(all[n], status, last) else None)
  }

  /** The updates to send, from client index `i` on: strictly increasing
      client indices, one for each client with an update, each that
      client's update. */
  function Updates(ups: seq<Option<Msg>>, i: nat): (r: seq<(nat, Msg)>)
    requires i <= |ups|
    ensures forall j :: 0 <= j < |r| ==> i <= r[j].0 < |ups| && ups[r[j].0] == Some(r[j].1)
    ensures forall j, k :: 0 <= j < k < |r| ==> r[j].0 < r[k].0
    ensures forall n :: i <= n < |ups| ==> (SentTo(r, n) <==> ups[n].Some?)
    decreases |ups| - i
  {
    if i == |ups| then []
    else
      var rest := Updates(ups, i + 1);
      match ups[i]
      case None => rest
      case Some(u) =>
        SentToCons(i, u, rest);
        [(i, u)] + rest
  }

  /** Some update of the list goes to client `n`. */
  predicate SentTo(sent: seq<(nat, Msg)>, n: nat) {
    exists j :: 0 <= j < |sent| && sent[j].0 == n
  }

  /** Putting client `i`'s update in front adds `i` and no other client. */
  lemma SentToCons(i: nat, u: Msg, rest: seq<(nat, Msg)>)
    ensures SentTo([(i, u)] + rest, i)
    ensures forall n :: n != i ==> (SentTo([(i, u)] + rest, n) <==> SentTo(rest, n))
  {
    var r := [(i, u)] + rest;
    assert r[0].0 == i;
    forall n | n != i
      ensures SentTo(r, n) <==> SentTo(rest, n)
    {
      if SentTo(r, n) {
        var j :| 0 <= j < |r| && r[j].0 == n;
        assert rest[j - 1].0 == n;
      }
      if SentTo(rest, n) {
        var j :| 0 <= j < |rest| && rest[j].0 == n;
        assert r[j + 1].0 == n;
      }
    }
  }

  /** The indices, from `i` on, of the clients whose connection is open,
      in increasing order. */
  function OpenIndices(clients: seq<Client>, i: nat): (r: seq<nat>)
    requires i <= |clients|
    ensures forall j :: 0 <= j < |r| ==> i <= r[j] < |clients| && !clients[r[j]].closed
    ensures forall j, k :: 0 <= j < k < |r| ==> r[j] < r[k]
    ensures forall n :: i <= n < |clients| && !clients[n].closed ==> n in r
    decreases |clients| - i
  {
    if i == |clients| then []
    else if clients[i].closed then OpenIndices(clients, i + 1)
    else [i] + OpenIndices(clients, i + 1)
  }

  /** The clients from index `i` on whose connection is still open, in
      order: exactly those at the open indices. */
  function KeepOpen(clients: seq<Client>, i: nat): (r: seq<Client>)
    requires i <= |clients|
    ensures var open := OpenIndices(clients, i);
      |r| == |open| && forall j :: 0 <= j < |r| ==> r[j] == clients[open[j]]
    decreases |clients| - i
  {
    if i == |clients| then []
    else if clients[i].closed then KeepOpen(clients, i + 1)
    else [clients[i]] + KeepOpen(clients, i + 1)
  }

  /** A subscription to all of an object's items becomes the list of
      those present, when there are any. */
  function FixSubscription(c: Client, status: string -> Status): (r: Client)
    ensures r.isQuery == c.isQuery && r.closed == c.closed && r.subscription.Keys == c.subscription.Keys
    ensures forall o :: o in c.subscription && c.subscription[o].None? && status(o) != map[] ==>
      r.subscription[o] == Some(status(o).Keys)
  {
    c.(subscription := map o | o in c.subscription ::
      if c.subscription[o].None? && status(o).Keys != {} then Some(status(o).Keys) else c.subscription[o])
  }
}
