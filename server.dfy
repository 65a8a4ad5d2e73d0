/** The chat server's router: the registry of connected users, and what each line a client
    handler reads makes the server change and send. */
module Server {
  import opened Wrappers
  import opened Text

  /** A client handler (one per accepted socket), by number. */
  type HandlerId = nat

  /** One `send` call: `line` written to the socket of handler `to`. */
  datatype Send = Send(to: HandlerId, line: string)

  // ---------------------------------------------------------------------------------------------
  // Commands

  /** What `handleMessage` makes of a line, in the order it tests the prefixes. */
  datatype Command =
    | Connect(user: string)
    | Disconnect(user: string)
    | Heartbeat
    | PrivateText(recipient: string, body: string)
    | Unaddressed
    | ChunkTo(recipient: string)
    | Forward

  predicate IsChunkFrame(message: string) {
    StartsWith(message, "FILECHUNK|") || StartsWith(message, "IMGCHUNK|") || StartsWith(message, "VOICECHUNK|")
  }

  /** The name a private chunk frame is addressed to: the text after the first `|TO:`, up to the
      next `|` or the end of the line. */
  function ChunkRecipient(message: string): (r: string)
    requires Contains(message, "|TO:")
    ensures '|' !in r
    ensures var t := IndexOfSub(message, "|TO:");
      && OccursAt(message, "|TO:" + r, t)
      && (t + 4 + |r| == |message| || message[t + 4 + |r|] == '|')
  {
    var t := IndexOfSub(message, "|TO:");
    var e := IndexOfFrom(message, '|', t + 4);
    var end := if e == -1 then |message| else e;
    var r := message[t + 4..end];
    assert message[t..end] == message[t..t + 4] + r;
    r
  }

  /** The first `|` of a line that starts with `TO:` comes after that prefix. */
  lemma FirstPipeAfterPrefix(message: string)
    requires StartsWith(message, "TO:")
    ensures var p := IndexOfFrom(message, '|', 0); p == -1 || p >= 3
  {
    var p := IndexOfFrom(message, '|', 0);
    assert message[..3] == "TO:";
    assert forall i :: 0 <= i < 3 ==> message[i] == message[..3][i];
  }

  function ParseCommand(message: string): Command {
    if StartsWith(message, "CONNECT:") then Connect(message[8..])
    else if StartsWith(message, "DISCONNECT:") then Disconnect(message[11..])
    else if StartsWith(message, "HEARTBEAT:") then Heartbeat
    else if StartsWith(message, "TO:") then
      var firstPipe := IndexOfFrom(message, '|', 0);
      FirstPipeAfterPrefix(message);
      if firstPipe == -1 then Unaddressed
      else PrivateText(message[3..firstPipe], message[firstPipe + 1..])
    else if IsChunkFrame(message) && Contains(message, "|TO:") then ChunkTo(ChunkRecipient(message))
    else Forward
  }

  /** Each command is the line it was read from: the prefix it was recognised by followed by its
      fields. */
  lemma ParseCommandShape(message: string)
    ensures var cmd := ParseCommand(message);
      && (cmd.Connect? <==> StartsWith(message, "CONNECT:"))
      && (cmd.Connect? ==> message == "CONNECT:" + cmd.user)
      && (cmd.Disconnect? ==> message == "DISCONNECT:" + cmd.user)
      && (cmd.Heartbeat? ==> StartsWith(message, "HEARTBEAT:"))
      && (cmd.PrivateText? ==> message == "TO:" + cmd.recipient + "|" + cmd.body && '|' !in cmd.recipient)
      && (cmd.Unaddressed? ==> StartsWith(message, "TO:") && '|' !in message)
      && (cmd.ChunkTo? ==> IsChunkFrame(message) && Contains(message, "|TO:"))
      && (cmd.Forward? ==> !StartsWith(message, "TO:") && !(IsChunkFrame(message) && Contains(message, "|TO:")))
  {
    if StartsWith(message, "CONNECT:") {
      PrefixSplit(message, "CONNECT:");
    } else if StartsWith(message, "DISCONNECT:") {
      PrefixSplit(message, "DISCONNECT:");
    } else if !StartsWith(message, "HEARTBEAT:") && StartsWith(message, "TO:") {
      var firstPipe := IndexOfFrom(message, '|', 0);
      FirstPipeAfterPrefix(message);
      if firstPipe != -1 {
        assert message == message[..3] + message[3..firstPipe] + "|" + message[firstPipe + 1..];
      }
    }
  }

  lemma PrefixSplit(s: string, p: string)
    requires StartsWith(s, p)
    ensures s == p + s[|p|..]
  {
    assert s == s[..|p|] + s[|p|..];
  }

  // ---------------------------------------------------------------------------------------------
  // The registry

  /** The `clients` map (name to handler), each handler's `username` field (absent while it is
      null) and the handlers whose sockets have been closed. */
  datatype Registry = Registry(clients: map<string, HandlerId>, usernames: map<HandlerId, string>, closed: set<HandlerId>)

  /** Every registered name belongs to a handler that has sent `CONNECT:`. */
  predicate RegistryValid(r: Registry) {
    forall u :: u in r.clients ==> r.clients[u] in r.usernames
  }

  function Username(r: Registry, h: HandlerId): (name: Option<string>)
    ensures name.Some? <==> h in r.usernames
  {
    if h in r.usernames then Some(r.usernames[h]) else None
  }

  /** The registry after handler `h` has handled `message`. */
  function Next(r: Registry, h: HandlerId, message: string): Registry {
    match ParseCommand(message)
    case Connect(u) => Registry(r.clients[u := h], r.usernames[h := u], r.closed)
    case Disconnect(u) => Registry(r.clients - {u}, r.usernames, r.closed + {h})
    case _ => r
  }

  /** The registry after handler `h`'s read loop has ended and `cleanup` has run. */
  function AfterCleanup(r: Registry, h: HandlerId): Registry {
    if h in r.usernames then Registry(r.clients - {r.usernames[h]}, r.usernames, r.closed + {h})
    else Registry(r.clients, r.usernames, r.closed + {h})
  }

  // ---------------------------------------------------------------------------------------------
  // Broadcasts

  /** The registered names a broadcast excluding `exclude` (everyone when it is null) reaches. */
  function Eligible(clients: map<string, HandlerId>, exclude: Option<string>): (s: set<string>)
    ensures s <= clients.Keys
    ensures forall u :: u in s <==> u in clients && (exclude.None? || u != exclude.value)
  {
    set u | u in clients.Keys && (exclude.None? || u != exclude.value)
  }

  /** `order` visits every element of `s` exactly once. */
  predicate Enumerates(order: seq<string>, s: set<string>) {
    && (forall i, j :: 0 <= i < j < |order| ==> order[i] != order[j])
    && (forall i :: 0 <= i < |order| ==> order[i] in s)
    && (forall u :: u in s ==> u in order)
  }

  /** The sends of one line to the handlers of `order`'s names, in that order. */
  function Deliveries(clients: map<string, HandlerId>, order: seq<string>, line: string): (sent: seq<Send>)
    requires forall i :: 0 <= i < |order| ==> order[i] in clients
    ensures |sent| == |order|
    ensures forall i :: 0 <= i < |order| ==> sent[i] == Send(clients[order[i]], line)
  {
    if order == [] then []
    else Deliveries(clients, order[..|order| - 1], line) + [Send(clients[order[|order| - 1]], line)]
  }

  /** The text `broadcastUserList` sends for names visited in `names`' order. */
  function UserListText(names: seq<string>): string {
    "USERLIST:" + JoinWith(names, ',')
  }

  /** `sent` is one `broadcast(line, exclude)`: the line once to each eligible name, in the
      unspecified order of the map's iteration. */
  ghost predicate Broadcasts(sent: seq<Send>, clients: map<string, HandlerId>, exclude: Option<string>, line: string) {
    exists order :: Enumerates(order, Eligible(clients, exclude)) && sent == Deliveries(clients, order, line)
  }

  /** `sent` is one `broadcastUserList()`: the names, in some order, to everyone. */
  ghost predicate UserListSent(sent: seq<Send>, clients: map<string, HandlerId>) {
    exists names :: Enumerates(names, clients.Keys) && Broadcasts(sent, clients, None, UserListText(names))
  }

  /** `sent` is a broadcast of `line` followed by a user-list broadcast. */
  ghost predicate Announced(sent: seq<Send>, clients: map<string, HandlerId>, exclude: Option<string>, line: string) {
    exists k :: 0 <= k <= |sent| && Broadcasts(sent[..k], clients, exclude, line) && UserListSent(sent[k..], clients)
  }

  /** What handler `h` sends for `message`, given the registry `r` before it. */
  ghost predicate Output(r: Registry, h: HandlerId, message: string, sent: seq<Send>) {
    var after := Next(r, h, message);
    match ParseCommand(message)
    case Connect(u) => Announced(sent, after.clients, Some(u), u + " has joined the chat")
    case Disconnect(u) => Announced(sent, after.clients, None, u + " has left the chat")
    case Heartbeat => sent == []
    case Unaddressed => sent == []
    case PrivateText(to, body) => sent == (if to in r.clients then [Send(r.clients[to], "PRIVATE:" + body)] else [])
    case ChunkTo(to) => sent == (if to in r.clients then [Send(r.clients[to], message)] else [])
    case Forward => Broadcasts(sent, r.clients, Username(r, h), message)
  }

  /** What `cleanup` sends for handler `h`, given the registry `r` before it. */
  ghost predicate CleanupOutput(r: Registry, h: HandlerId, sent: seq<Send>) {
    if h in r.usernames then
      Announced(sent, AfterCleanup(r, h).clients, None, r.usernames[h] + " has left the chat")
    else sent == []
  }

  lemma EnumeratesExtend(order: seq<string>, s: set<string>, u: string)
    requires Enumerates(order, s) && u !in s
    ensures Enumerates(order + [u], s + {u})
  {
    var o := order + [u];
    assert forall i :: 0 <= i < |order| ==> o[i] == order[i];
    assert o[|order|] == u;
  }

  lemma DeliveriesSnoc(clients: map<string, HandlerId>, order: seq<string>, u: string, line: string)
    requires forall i :: 0 <= i < |order| ==> order[i] in clients
    requires u in clients
    ensures Deliveries(clients, order + [u], line) == Deliveries(clients, order, line) + [Send(clients[u], line)]
  {
    assert (order + [u])[..|order|] == order;
  }

  lemma BroadcastIntro(sent: seq<Send>, clients: map<string, HandlerId>, exclude: Option<string>, line: string,
                       order: seq<string>)
    requires Enumerates(order, Eligible(clients, exclude)) && sent == Deliveries(clients, order, line)
    ensures Broadcasts(sent, clients, exclude, line)
  {
  }

  lemma UserListIntro(sent: seq<Send>, clients: map<string, HandlerId>, names: seq<string>)
    requires Enumerates(names, clients.Keys) && Broadcasts(sent, clients, None, UserListText(names))
    ensures UserListSent(sent, clients)
  {
  }

  lemma AnnouncedIntro(first: seq<Send>, second: seq<Send>, clients: map<string, HandlerId>,
                       exclude: Option<string>, line: string)
    requires Broadcasts(first, clients, exclude, line) && UserListSent(second, clients)
    ensures Announced(first + second, clients, exclude, line)
  {
    var sent := first + second;
    assert sent[..|first|] == first && sent[|first|..] == second;
  }

  /** The loop of `broadcast`: the map's names visited one by one, in an order the map does not
      promise, and a send to each one's handler unless it is the excluded name. */
  method Fanout(clients: map<string, HandlerId>, exclude: Option<string>, line: string)
    returns (order: seq<string>, sent: seq<Send>)
    ensures Enumerates(order, Eligible(clients, exclude))
    ensures sent == Deliveries(clients, order, line)
  {
    var rest := clients.Keys;
    order, sent := [], [];
    var eligible := Eligible(clients, exclude);
    while rest != {}
      invariant rest <= clients.Keys
      invariant Enumerates(order, eligible - rest)
      invariant sent == Deliveries(clients, order, line)
      decreases |rest|
    {
      var u :| u in rest;
      if exclude.None? || u != exclude.value {
        assert u in eligible;
        EnumeratesExtend(order, eligible - rest, u);
        assert eligible - (rest - {u}) == (eligible - rest) + {u};
        DeliveriesSnoc(clients, order, u, line);
        order := order + [u];
        sent := sent + [Send(clients[u], line)];
      } else {
        assert eligible - (rest - {u}) == eligible - rest;
      }
      rest := rest - {u};
    }
    assert eligible - rest == eligible;
  }

  /** The StringBuilder loop of `broadcastUserList`: every name followed by a comma, then the
      last comma dropped when any name was appended. */
  method UserListLine(clients: map<string, HandlerId>) returns (line: string, names: seq<string>)
    ensures Enumerates(names, clients.Keys)
    ensures line == UserListText(names)
  {
    var rest := clients.Keys;
    var builder := "USERLIST:";
    names := [];
    while rest != {}
      invariant rest <= clients.Keys
      invariant Enumerates(names, clients.Keys - rest)
      invariant builder == "USERLIST:" + Terminated(names)
      decreases |rest|
    {
      var u :| u in rest;
      TerminatedAppend(names, u);
      Assoc3("USERLIST:", Terminated(names), u, ",");
      EnumeratesExtend(names, clients.Keys - rest, u);
      assert clients.Keys - (rest - {u}) == (clients.Keys - rest) + {u};
      names := names + [u];
      builder := builder + u + ",";
      rest := rest - {u};
    }
    assert clients.Keys - rest == clients.Keys;
    TerminatedJoin(names);
    if |builder| > 9 {
      builder := builder[..|builder| - 1];
    } else {
      assert names == [];
    }
    line := builder;
  }

  lemma Assoc3<T>(a: seq<T>, b: seq<T>, c: seq<T>, d: seq<T>)
    ensures a + b + c + d == a + (b + c + d)
  {
  }

  lemma Assoc<T>(a: seq<T>, b: seq<T>, c: seq<T>)
    ensures a + b + c == a + (b + c)
  {
  }

  /** The loop of `stopServer` that calls `close()` on each registered handler in turn. */
  method CloseAll(closed: set<HandlerId>, handlers: set<HandlerId>) returns (shut: set<HandlerId>)
    ensures shut == closed + handlers
  {
    var rest := handlers;
    shut := closed;
    while rest != {}
      invariant rest <= handlers
      invariant shut == closed + (handlers - rest)
      decreases |rest|
    {
      var h :| h in rest;
      assert handlers - (rest - {h}) == (handlers - rest) + {h};
      shut := shut + {h};
      rest := rest - {h};
    }
  }

  // ---------------------------------------------------------------------------------------------
  // The server object

  class ChatServer {
    var clients: map<string, HandlerId>
    var usernames: map<HandlerId, string>
    var closed: set<HandlerId>
    var running: bool
    /** Every line sent so far, in order. */
    var outbox: seq<Send>

    function Reg(): Registry
      reads this
    {
      Registry(clients, usernames, closed)
    }

    constructor()
      ensures Reg() == Registry(map[], map[], {}) && !running && outbox == []
    {
      clients, usernames, closed := map[], map[], {};
      running, outbox := false, [];
    }

    /** `broadcast(line, exclude)`: one send of `line` per registered name other than `exclude`. */
    method Broadcast(line: string, exclude: Option<string>) returns (order: seq<string>, sent: seq<Send>)
      modifies this
      ensures Reg() == old(Reg()) && running == old(running)
      ensures Enumerates(order, Eligible(clients, exclude))
      ensures sent == Deliveries(clients, order, line)
      ensures outbox == old(outbox) + sent
    {
      order, sent := Fanout(clients, exclude, line);
      outbox := outbox + sent;
    }

    /** `broadcastUserList()` */
    method BroadcastUserList() returns (sent: seq<Send>)
      modifies this
      ensures Reg() == old(Reg()) && running == old(running)
      ensures UserListSent(sent, clients)
      ensures outbox == old(outbox) + sent
    {
      var line, names := UserListLine(clients);
      var order;
      order, sent := Broadcast(line, None);
      BroadcastIntro(sent, clients, None, line, order);
      UserListIntro(sent, clients, names);
    }

    /** A broadcast of `line` followed by the user list, as CONNECT, DISCONNECT and `cleanup` do. */
    method Announce(line: string, exclude: Option<string>) returns (sent: seq<Send>)
      modifies this
      ensures Reg() == old(Reg()) && running == old(running)
      ensures Announced(sent, clients, exclude, line)
      ensures outbox == old(outbox) + sent
    {
      ghost var start := outbox;
      var order, first := Broadcast(line, exclude);
      BroadcastIntro(first, clients, exclude, line, order);
      var second := BroadcastUserList();
      sent := first + second;
      AnnouncedIntro(first, second, clients, exclude, line);
      Assoc(start, first, second);
    }

    /** `handleMessage`, run by handler `h`. */
    method HandleMessage(h: HandlerId, message: string) returns (sent: seq<Send>)
      modifies this
      ensures Reg() == Next(old(Reg()), h, message) && running == old(running)
      ensures Output(old(Reg()), h, message, sent)
      ensures outbox == old(outbox) + sent
    {
      match ParseCommand(message)
      case Connect(u) =>
        usernames := usernames[h := u];
        clients := clients[u := h];
        sent := Announce(u + " has joined the chat", Some(u));
      case Disconnect(u) =>
        clients := clients - {u};
        sent := Announce(u + " has left the chat", None);
        closed := closed + {h};
      case Heartbeat =>
        sent := [];
      case Unaddressed =>
        sent := [];
      case PrivateText(recipient, body) =>
        sent := if recipient in clients then [Send(clients[recipient], "PRIVATE:" + body)] else [];
        outbox := outbox + sent;
      case ChunkTo(recipient) =>
        sent := if recipient in clients then [Send(clients[recipient], message)] else [];
        outbox := outbox + sent;
      case Forward =>
        var order;
        order, sent := Broadcast(message, Username(Reg(), h));
    }

    /** `cleanup`, run when handler `h`'s read loop ends: its own name is removed and announced. */
    method Cleanup(h: HandlerId) returns (sent: seq<Send>)
      modifies this
      ensures Reg() == AfterCleanup(old(Reg()), h) && running == old(running)
      ensures CleanupOutput(old(Reg()), h, sent)
      ensures outbox == old(outbox) + sent
    {
      if h in usernames {
        var u := usernames[h];
        clients := clients - {u};
        sent := Announce(u + " has left the chat", None);
      } else {
        sent := [];
      }
      closed := closed + {h};
    }

    /** `stopServer`: every registered handler is closed and the map is cleared. */
    method StopServer()
      modifies this
      ensures Reg() == Registry(map[], old(usernames), old(closed) + old(clients).Values)
      ensures !running && outbox == old(outbox)
    {
      running := false;
      closed := CloseAll(closed, clients.Values);
      clients := map[];
    }
  }

  // ---------------------------------------------------------------------------------------------
  // The user-list text

  /** Each name followed by a comma, as the StringBuilder holds them before the last is dropped. */
  function Terminated(names: seq<string>): string {
    if names == [] then "" else Terminated(names[..|names| - 1]) + names[|names| - 1] + ","
  }

  lemma TerminatedAppend(names: seq<string>, u: string)
    ensures Terminated(names + [u]) == Terminated(names) + u + ","
  {
    assert (names + [u])[..|names|] == names;
  }

  /** With at least one name, the builder's text is the comma-joined names plus one comma, and
      it is only then longer than the bare prefix. */
  lemma {:induction false} TerminatedJoin(names: seq<string>)
    ensures names != [] <==> |Terminated(names)| > 0
    ensures names != [] ==> Terminated(names) == JoinWith(names, ',') + ","
  {
    if |names| > 1 {
      var init := names[..|names| - 1];
      TerminatedJoin(init);
      JoinWithSnoc(init, names[|names| - 1], ',');
      assert init + [names[|names| - 1]] == names;
    } else if |names| == 1 {
      assert names[..0] == [];
    }
  }

  lemma {:induction false} JoinWithSnoc(parts: seq<string>, last: string, sep: char)
    requires parts != []
    ensures JoinWith(parts + [last], sep) == JoinWith(parts, sep) + [sep] + last
  {
    if |parts| > 1 {
      assert (parts + [last])[1..] == parts[1..] + [last];
      JoinWithSnoc(parts[1..], last, sep);
    }
  }

  // ---------------------------------------------------------------------------------------------
  // Properties of the router

  /** An enumeration has exactly as many entries as the set it enumerates. */
  lemma {:induction false} EnumeratesSize(order: seq<string>, s: set<string>)
    requires Enumerates(order, s)
    ensures |order| == |s|
  {
    if order == [] {
      assert forall u :: u in s ==> false;
      assert s == {};
    } else {
      var n := |order|;
      var init, last := order[..n - 1], order[n - 1];
      assert forall i :: 0 <= i < n - 1 ==> init[i] == order[i];
      assert last !in init;
      forall u | u in s - {last} ensures u in init {
        var i :| 0 <= i < n && order[i] == u;
        assert i < n - 1;
      }
      EnumeratesSize(init, s - {last});
    }
  }

  /** A broadcast sends the line to the handler of every eligible name, and sends exactly as many
      lines as there are eligible names. */
  lemma BroadcastReachesEach(sent: seq<Send>, clients: map<string, HandlerId>, exclude: Option<string>, line: string)
    requires Broadcasts(sent, clients, exclude, line)
    ensures |sent| == |Eligible(clients, exclude)|
    ensures forall u :: u in Eligible(clients, exclude) ==> Send(clients[u], line) in sent
    ensures forall i :: 0 <= i < |sent| ==> sent[i].line == line
  {
    var order :| Enumerates(order, Eligible(clients, exclude)) && sent == Deliveries(clients, order, line);
    EnumeratesSize(order, Eligible(clients, exclude));
    forall u | u in Eligible(clients, exclude) ensures Send(clients[u], line) in sent {
      var i :| 0 <= i < |order| && order[i] == u;
      assert sent[i] == Send(clients[u], line);
    }
  }

  /** `CONNECT:u` is recognised as a connection by user `u`. */
  lemma ParseConnect(u: string)
    ensures ParseCommand("CONNECT:" + u) == Connect(u)
  {
    StartsWithConcat("CONNECT:", u);
  }

  /** `DISCONNECT:u` is recognised as a disconnection of user `u`. */
  lemma ParseDisconnect(u: string)
    ensures ParseCommand("DISCONNECT:" + u) == Disconnect(u)
  {
    var m := "DISCONNECT:" + u;
    StartsWithConcat("DISCONNECT:", u);
    NotStartsWithAt(m, "CONNECT:", 0);
  }

  /** `TO:r|body` for a name without `|` is a private message for `r` carrying `body`. */
  lemma ParsePrivate(to: string, body: string)
    requires '|' !in to
    ensures ParseCommand("TO:" + to + "|" + body) == PrivateText(to, body)
  {
    var m := "TO:" + to + "|" + body;
    assert m[..3] == "TO:";
    NotStartsWithAt(m, "CONNECT:", 0);
    NotStartsWithAt(m, "DISCONNECT:", 0);
    NotStartsWithAt(m, "HEARTBEAT:", 0);
    var p := IndexOfFrom(m, '|', 0);
    assert m[3 + |to|] == '|';
    assert forall i :: 3 <= i < 3 + |to| ==> m[i] == to[i - 3];
    assert p == 3 + |to|;
    assert m[3..p] == to && m[p + 1..] == body;
  }

  /** Handling a line keeps every registered name owned by a connected handler, and so does
      `cleanup`. */
  lemma RegistryStaysValid(r: Registry, h: HandlerId, message: string)
    requires RegistryValid(r)
    ensures RegistryValid(Next(r, h, message))
    ensures RegistryValid(AfterCleanup(r, h))
  {
  }

  /** After `CONNECT:u` the name `u`, and no other, maps to the handler (replacing any earlier
      handler of that name), and the handler's own name is `u`. */
  lemma ConnectRegisters(r: Registry, h: HandlerId, u: string)
    ensures var after := Next(r, h, "CONNECT:" + u);
      && after.clients == r.clients[u := h]
      && after.usernames == r.usernames[h := u]
      && after.closed == r.closed
  {
    ParseConnect(u);
  }

  /** What `CONNECT:u` sends: the arrival, excluding `u`, then the user list, both to the
      registry that already holds `u`. */
  lemma ConnectOutput(r: Registry, h: HandlerId, u: string, sent: seq<Send>)
    ensures Output(r, h, "CONNECT:" + u, sent) <==>
      Announced(sent, r.clients[u := h], Some(u), u + " has joined the chat")
  {
    ParseConnect(u);
  }

  lemma EligibleOthers(clients: map<string, HandlerId>, h: HandlerId, u: string)
    ensures Eligible(clients[u := h], Some(u)) == clients.Keys - {u}
  {
    var e := Eligible(clients[u := h], Some(u));
    forall x ensures x in e <==> x in clients.Keys - {u} {
      assert x in e <==> x in clients[u := h] && x != u;
    }
  }

  /** `CONNECT:u` tells every other registered user, but not `u`, that `u` has joined, then sends
      the user list to everyone including `u`. */
  lemma ConnectAnnounces(clients: map<string, HandlerId>, h: HandlerId, u: string, sent: seq<Send>)
    requires Announced(sent, clients[u := h], Some(u), u + " has joined the chat")
    ensures var k := |clients.Keys - {u}|;
      && k <= |sent|
      && (forall v :: v in clients && v != u ==> Send(clients[v], u + " has joined the chat") in sent[..k])
      && UserListSent(sent[k..], clients[u := h])
  {
    var after := clients[u := h];
    var line := u + " has joined the chat";
    var k :| 0 <= k <= |sent| && Broadcasts(sent[..k], after, Some(u), line) && UserListSent(sent[k..], after);
    BroadcastReachesEach(sent[..k], after, Some(u), line);
    EligibleOthers(clients, h, u);
    forall v | v in clients && v != u ensures Send(clients[v], line) in sent[..k] {
      assert v in Eligible(after, Some(u));
      assert after[v] == clients[v];
    }
  }

  /** A heartbeat changes nothing and sends nothing. */
  lemma HeartbeatInert(r: Registry, h: HandlerId, rest: string, sent: seq<Send>)
    ensures Next(r, h, "HEARTBEAT:" + rest) == r
    ensures Output(r, h, "HEARTBEAT:" + rest, sent) <==> sent == []
  {
    var m := "HEARTBEAT:" + rest;
    StartsWithConcat("HEARTBEAT:", rest);
    NotStartsWithAt(m, "CONNECT:", 0);
    NotStartsWithAt(m, "DISCONNECT:", 0);
  }

  /** A private message reaches its registered recipient alone, as `PRIVATE:` plus everything
      after the first `|`; for an unknown recipient nothing is sent. The registry is unchanged. */
  lemma PrivateRouted(r: Registry, h: HandlerId, to: string, body: string, sent: seq<Send>)
    requires '|' !in to
    ensures Next(r, h, "TO:" + to + "|" + body) == r
    ensures Output(r, h, "TO:" + to + "|" + body, sent) <==>
      sent == if to in r.clients then [Send(r.clients[to], "PRIVATE:" + body)] else []
  {
    ParsePrivate(to, body);
  }

  /** A line that is neither a command, a private message nor an addressed chunk is broadcast
      verbatim to everyone but the sender's own name; a handler that never connected reaches all. */
  lemma ForwardEffect(r: Registry, h: HandlerId, message: string, sent: seq<Send>)
    requires ParseCommand(message).Forward? && Output(r, h, message, sent)
    ensures Next(r, h, message) == r
    ensures h !in r.usernames ==> |sent| == |r.clients|
    ensures forall v :: v in r.clients && Username(r, h) != Some(v) ==> Send(r.clients[v], message) in sent
    ensures forall i :: 0 <= i < |sent| ==> sent[i].line == message
  {
    BroadcastReachesEach(sent, r.clients, Username(r, h), message);
    if h !in r.usernames {
      assert Eligible(r.clients, None) == r.clients.Keys;
    }
  }

  /** `DISCONNECT:` with the handler's own name, followed by the `cleanup` its closed socket
      causes: the name is removed by the first, removed again by the second, and "has left" is
      announced twice to the same remaining users. */
  lemma DisconnectThenCleanup(r: Registry, h: HandlerId, u: string, sent: seq<Send>)
    requires Username(r, h) == Some(u)
    ensures var after := Next(r, h, "DISCONNECT:" + u);
      && after.clients == r.clients - {u}
      && AfterCleanup(after, h) == after
      && h in after.closed
    ensures var after := Next(r, h, "DISCONNECT:" + u);
      CleanupOutput(after, h, sent) <==> Announced(sent, r.clients - {u}, None, u + " has left the chat")
  {
    ParseDisconnect(u);
  }

  /** `cleanup` removes the handler's name even when a later `CONNECT:` of the same name by
      another handler owns it now: that other, still open, connection is unregistered. */
  lemma CleanupDropsReconnected(r: Registry, h1: HandlerId, h2: HandlerId, u: string)
    requires h1 != h2 && h2 !in r.closed
    ensures var r1 := Next(Next(r, h1, "CONNECT:" + u), h2, "CONNECT:" + u);
      && r1.clients[u] == h2
      && u !in AfterCleanup(r1, h1).clients
      && h2 !in AfterCleanup(r1, h1).closed
  {
    ParseConnect(u);
  }
}
