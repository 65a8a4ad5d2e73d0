/** The protocol end to end: what a line a client builds becomes once the server has routed it
    and the receiving client has dispatched it. */
module Protocol {
  import opened Wrappers
  import opened Text
  import opened Decimal
  import opened ChunkFrame
  import Server
  import Client

  // ---------------------------------------------------------------------------------------------
  // The user list

  /** A name that survives the trip through a `USERLIST:` line unchanged: not empty, no comma,
      nothing `trim` would remove. */
  predicate Listable(name: string) {
    name != "" && ',' !in name && Trim(name) == name
  }

  /** The client dispatches a line the server builds by `broadcastUserList` as a user list, with
      the comma-joined names as its payload. */
  lemma UserListClassified(names: seq<string>)
    ensures Client.Classify(Server.UserListText(names)) == Client.UserList(JoinWith(names, ','))
  {
    var line := Server.UserListText(names);
    StartsWithConcat("USERLIST:", JoinWith(names, ','));
    assert line[9..] == JoinWith(names, ',');
    assert line[0] == 'U';
    NotStartsWithAt(line, "VOICECHUNK|", 0);
    NotStartsWithAt(line, "FILECHUNK|", 0);
    NotStartsWithAt(line, "IMGCHUNK|", 0);
  }

  /** The client reads the comma-joined payload of listable names back into exactly those names,
      in the same order. */
  lemma ListedNamesJoin(names: seq<string>)
    requires forall i :: 0 <= i < |names| ==> Listable(names[i])
    ensures Client.ListedNames(JoinWith(names, ',')) == names
  {
    var joined := JoinWith(names, ',');
    if |names| == 1 {
      assert joined == names[0];
      SplitWithout(joined, names);
      ListedNamesOf(joined, names);
    } else if |names| >= 2 {
      JavaSplitJoin(names, ',');
      JoinWithContains(names, ',');
      ListedNamesOf(joined, names);
    }
  }

  lemma SplitWithout(x: string, names: seq<string>)
    requires names == [x] && ',' !in x
    ensures JavaSplit(x, ',') == names
  {
  }

  lemma ListedNamesOf(x: string, names: seq<string>)
    requires x != "" && JavaSplit(x, ',') == names
    requires forall i :: 0 <= i < |names| ==> Listable(names[i])
    ensures Client.ListedNames(x) == names
  {
    TrimAllListable(names);
  }

  lemma TrimAllListable(names: seq<string>)
    requires forall i :: 0 <= i < |names| ==> Listable(names[i])
    ensures Client.TrimAll(names) == names
  {
    var t := Client.TrimAll(names);
    assert forall i :: 0 <= i < |names| ==> t[i] == names[i];
  }

  /** Every line of a user-list broadcast, as a client dispatches it, lists exactly the names
      registered when it was sent. */
  lemma UserListMatchesRegistry(sent: seq<Server.Send>, clients: map<string, Server.HandlerId>)
    requires Server.UserListSent(sent, clients)
    requires forall u :: u in clients ==> Listable(u)
    ensures forall i :: 0 <= i < |sent| ==> Client.Classify(sent[i].line).UserList?
    ensures forall i, x :: 0 <= i < |sent| ==>
      (x in Client.ListedNames(Client.Classify(sent[i].line).listText) <==> x in clients)
  {
    var names :| Server.Enumerates(names, clients.Keys) && Server.Broadcasts(sent, clients, None, Server.UserListText(names));
    Server.BroadcastReachesEach(sent, clients, None, Server.UserListText(names));
    UserListClassified(names);
    ListedNamesJoin(names);
    assert forall x :: x in names <==> x in clients by {
      forall x ensures x in names <==> x in clients {
        if x in names {
          var k :| 0 <= k < |names| && names[k] == x;
        }
      }
    }
  }

  // ---------------------------------------------------------------------------------------------
  // Private text

  /** A private text to a registered name reaches that name alone, as `PRIVATE:FROM:u|MSG:m`; the
      receiving client shows it as from "FROM:u", since the server keeps everything after the first
      `|` and the client takes the first part as the sender. */
  lemma PrivateTextDelivered(r: Server.Registry, h: Server.HandlerId, target: string, username: string,
                             text: string, sent: seq<Server.Send>)
    requires '|' !in target && '|' !in username && '|' !in Trim(text) && Trim(text) != ""
    ensures var frame := Client.TextFrame(Some(target), username, text);
      && frame.Some?
      && Server.Next(r, h, frame.value) == r
      && (Server.Output(r, h, frame.value, sent) <==>
            sent == if target in r.clients
                    then [Server.Send(r.clients[target], "PRIVATE:FROM:" + username + "|MSG:" + Trim(text))]
                    else [])
    ensures Client.Classify("PRIVATE:FROM:" + username + "|MSG:" + Trim(text))
      == Client.Private("FROM:" + username, Trim(text))
  {
    var m := Trim(text);
    var body := "FROM:" + username + "|MSG:" + m;
    assert "TO:" + target + "|FROM:" + username + "|MSG:" + m == "TO:" + target + "|" + body;
    Server.PrivateRouted(r, h, target, body, sent);
    assert "PRIVATE:" + body == "PRIVATE:FROM:" + username + "|MSG:" + m;
    PrivateLineShown(username, m);
  }

  /** The client shows `PRIVATE:FROM:u|MSG:m` as the text `m` from "FROM:u". */
  lemma PrivateLineShown(username: string, m: string)
    requires '|' !in username && '|' !in m
    ensures Client.Classify("PRIVATE:FROM:" + username + "|MSG:" + m) == Client.Private("FROM:" + username, m)
  {
    var body := "FROM:" + username + "|MSG:" + m;
    var line := "PRIVATE:" + body;
    assert line == "PRIVATE:FROM:" + username + "|MSG:" + m;
    StartsWithConcat("PRIVATE:", body);
    assert line[8..] == body;
    Client.PrivatePrefixOnly(line);
    var parts := ["FROM:" + username, "MSG:" + m];
    assert JoinWith(parts, '|') == body;
    JavaSplitJoin(parts, '|');
    assert parts[1][4..] == m;
  }

  // ---------------------------------------------------------------------------------------------
  // Chunk frames

  /** Every `|` of `x` opens something other than `|TO:`, within `x` itself. */
  predicate Guarded(x: string) {
    forall j :: 0 <= j < |x| && x[j] == '|' ==>
      j + 3 < |x| && (x[j + 1] != 'T' || x[j + 2] != 'O' || x[j + 3] != ':')
  }

  lemma GuardedConcat(a: string, b: string)
    requires Guarded(a) && Guarded(b)
    ensures Guarded(a + b)
  {
    var x := a + b;
    forall j | 0 <= j < |x| && x[j] == '|'
      ensures j + 3 < |x| && (x[j + 1] != 'T' || x[j + 2] != 'O' || x[j + 3] != ':')
    {
      if j < |a| {
        assert a[j] == '|';
      } else {
        assert b[j - |a|] == '|';
      }
    }
  }

  lemma GuardedKey(key: string, v: string)
    requires |key| >= 4 && key[0] == '|' && (key[1] != 'T' || key[2] != 'O' || key[3] != ':')
    requires forall i :: 0 < i < |key| ==> key[i] != '|'
    requires '|' !in v
    ensures Guarded(key + v)
  {
    var x := key + v;
    assert forall j :: |key| <= j < |x| ==> x[j] == v[j - |key|];
  }

  /** No `|TO:` starts inside a guarded prefix, whatever follows it. */
  lemma GuardedPrefix(x: string, y: string, j: int)
    requires Guarded(x) && 0 <= j < |x|
    ensures !OccursAt(x + y, "|TO:", j)
  {
    var s := x + y;
    assert s[j] == x[j];
    if x[j] == '|' {
      assert s[j + 1] == x[j + 1] && s[j + 2] == x[j + 2] && s[j + 3] == x[j + 3];
    }
    if j + 4 <= |s| {
      var w := s[j..j + 4];
      assert w[0] == s[j] && w[1] == s[j + 1] && w[2] == s[j + 2] && w[3] == s[j + 3];
    }
  }

  lemma GuardedHasNoTo(x: string)
    requires Guarded(x)
    ensures !Contains(x, "|TO:")
  {
    var t := IndexOfSub(x, "|TO:");
    assert x + "" == x;
    if t >= 0 {
      GuardedPrefix(x, "", t);
    }
  }

  /** The head of a frame up to its optional recipient part: tag, session, index, total and the
      optional file name. */
  function Head(c: Chunk): string {
    Tag(c.kind) + "SESSION:" + c.session + "|CHUNK:" + NatToString(c.index) + "|TOTAL:" + NatToString(c.total)
      + (if c.filename.Some? then "|FILENAME:" + c.filename.value else "")
  }

  /** The tail of a frame after its optional recipient part. */
  function Tail(c: Chunk): string {
    "|FROM:" + c.sender + "|DATA:" + c.data
  }

  lemma EncodeSplits(c: Chunk)
    ensures Encode(c) == Head(c) + (if c.recipient.Some? then "|TO:" + c.recipient.value else "") + Tail(c)
  {
  }

  lemma DigitsHaveNoPipe(s: string)
    requires AllDigits(s)
    ensures '|' !in s
  {
    assert forall j :: 0 <= j < |s| ==> IsDigit(s[j]);
  }

  lemma TagHeadGuarded(kind: Kind, session: string)
    requires '|' !in session
    ensures Guarded(Tag(kind) + "SESSION:" + session)
  {
    var t := Tag(kind) + "SESSION:";
    assert Guarded(t) by {
      var n := |Tag(kind)|;
      assert forall j :: 0 <= j < n - 1 ==> Tag(kind)[j] != '|';
      assert forall j :: n <= j < |t| ==> t[j] == "SESSION:"[j - n];
      assert t[n] == 'S';
    }
    assert Guarded(session);
    GuardedConcat(t, session);
  }

  lemma HeadGuarded(c: Chunk)
    requires WellFormed(c)
    ensures Guarded(Head(c))
  {
    TagHeadGuarded(c.kind, c.session);
    var index, total := NatToString(c.index), NatToString(c.total);
    DigitsHaveNoPipe(index);
    DigitsHaveNoPipe(total);
    GuardedKey("|CHUNK:", index);
    GuardedKey("|TOTAL:", total);
    var s := Tag(c.kind) + "SESSION:" + c.session;
    GuardedConcat(s, "|CHUNK:" + index);
    assert s + "|CHUNK:" + index == s + ("|CHUNK:" + index);
    GuardedConcat(s + "|CHUNK:" + index, "|TOTAL:" + total);
    assert s + "|CHUNK:" + index + "|TOTAL:" + total == s + "|CHUNK:" + index + ("|TOTAL:" + total);
    var f := if c.filename.Some? then "|FILENAME:" + c.filename.value else "";
    if c.filename.Some? {
      GuardedKey("|FILENAME:", c.filename.value);
    }
    GuardedConcat(s + "|CHUNK:" + index + "|TOTAL:" + total, f);
  }

  lemma TailGuarded(c: Chunk)
    requires WellFormed(c)
    ensures Guarded(Tail(c)) && Tail(c)[0] == '|'
  {
    GuardedKey("|FROM:", c.sender);
    GuardedKey("|DATA:", c.data);
    GuardedConcat("|FROM:" + c.sender, "|DATA:" + c.data);
    assert Tail(c) == ("|FROM:" + c.sender) + ("|DATA:" + c.data);
  }

  /** The first `|TO:` of `p + rest` is where `rest` begins, when `p` holds none and `rest`
      starts with one. */
  lemma FirstToAt(p: string, rest: string)
    requires Guarded(p) && StartsWith(rest, "|TO:")
    ensures IndexOfSub(p + rest, "|TO:") == |p|
  {
    var m := p + rest;
    assert m[|p|..|p| + 4] == rest[..4];
    assert OccursAt(m, "|TO:", |p|);
    var t := IndexOfSub(m, "|TO:");
    if 0 <= t < |p| {
      GuardedPrefix(p, rest, t);
    }
  }

  /** The server finds the recipient of `p + "|TO:" + r + s` when `p` holds no `|TO:` and the
      recipient ends at a `|`. */
  lemma FirstRecipient(p: string, r: string, s: string)
    requires Guarded(p) && '|' !in r && |s| > 0 && s[0] == '|'
    ensures Contains(p + "|TO:" + r + s, "|TO:")
    ensures Server.ChunkRecipient(p + "|TO:" + r + s) == r
  {
    var m := p + "|TO:" + r + s;
    AddressAt(p, r, s);
    FirstToAt(p, m[|p|..]);
    var q := Server.ChunkRecipient(m);
    OccursAtSplit(m, "|TO:", q, |p|);
    RecipientUnique(m, |p| + 4, r, s, q);
  }

  /** How `p + "|TO:" + r + s` is laid out after `p`. */
  lemma AddressAt(p: string, r: string, s: string)
    ensures var m := p + "|TO:" + r + s;
      m == p + m[|p|..] && StartsWith(m[|p|..], "|TO:") && m[|p| + 4..] == r + s
  {
    var m := p + "|TO:" + r + s;
    assert m[|p|..] == "|TO:" + (r + s);
    StartsWithConcat("|TO:", r + s);
  }

  /** An occurrence of `a + b` at `t` puts `b`'s characters right after `a`'s. */
  lemma OccursAtSplit(m: string, a: string, b: string, t: int)
    requires OccursAt(m, a + b, t)
    ensures forall i :: 0 <= i < |b| ==> m[t + |a| + i] == b[i]
  {
    forall i | 0 <= i < |b|
      ensures m[t + |a| + i] == b[i]
    {
      assert m[t + |a| + i] == m[t..t + |a| + |b|][|a| + i];
    }
  }

  /** A `|`-free text that starts at `n` and ends where `m` ends or at a `|` is the part of
      `m[n..]` before its first `|`. */
  lemma RecipientUnique(m: string, n: nat, r: string, s: string, q: string)
    requires n <= |m| && m[n..] == r + s && '|' !in r && |s| > 0 && s[0] == '|'
    requires '|' !in q && n + |q| <= |m| && forall i :: 0 <= i < |q| ==> m[n + i] == q[i]
    requires n + |q| == |m| || m[n + |q|] == '|'
    ensures q == r
  {
    var w := m[n..];
    assert w[..|q|] == q;
    RecipientPrefix(w, r, s, q);
  }

  /** A `|`-free prefix that ends where `w` ends or at a `|` is the text before the first `|`. */
  lemma RecipientPrefix(w: string, r: string, s: string, q: string)
    requires w == r + s && '|' !in r && |s| > 0 && s[0] == '|'
    requires '|' !in q && |q| <= |w| && w[..|q|] == q && (|q| == |w| || w[|q|] == '|')
    ensures q == r
  {
    assert w[|r|] == '|';
    assert forall i :: 0 <= i < |r| ==> w[i] == r[i];
    assert forall i :: 0 <= i < |q| ==> w[i] == q[i];
  }

  /** A chunk frame a client builds is routed by where it is addressed: one with `TO:r` goes, as
      it is, to `r` alone, and one without is broadcast. */
  lemma ChunkRoute(c: Chunk)
    requires WellFormed(c)
    ensures c.recipient.Some? ==> Server.ParseCommand(Encode(c)) == Server.ChunkTo(c.recipient.value)
    ensures c.recipient.None? ==> Server.ParseCommand(Encode(c)) == Server.Forward
  {
    ChunkFrameNoCommand(c);
    ChunkFrameRecipient(c);
  }

  /** A chunk frame starts with none of the command prefixes, and with a chunk tag. */
  lemma ChunkFrameNoCommand(c: Chunk)
    requires WellFormed(c)
    ensures var m := Encode(c);
      && !StartsWith(m, "CONNECT:") && !StartsWith(m, "DISCONNECT:") && !StartsWith(m, "HEARTBEAT:")
      && !StartsWith(m, "TO:") && Server.IsChunkFrame(m)
  {
    var m := Encode(c);
    ParseEncode(c);
    assert m[..|Tag(c.kind)|] == Tag(c.kind);
    assert m[0] == Tag(c.kind)[0];
    NotStartsWithAt(m, "CONNECT:", 0);
    NotStartsWithAt(m, "DISCONNECT:", 0);
    NotStartsWithAt(m, "HEARTBEAT:", 0);
    NotStartsWithAt(m, "TO:", 0);
  }

  /** A chunk frame holds `|TO:` exactly when it is addressed, and then names its recipient. */
  lemma ChunkFrameRecipient(c: Chunk)
    requires WellFormed(c)
    ensures Contains(Encode(c), "|TO:") <==> c.recipient.Some?
    ensures c.recipient.Some? ==> Server.ChunkRecipient(Encode(c)) == c.recipient.value
  {
    var m := Encode(c);
    EncodeSplits(c);
    HeadGuarded(c);
    TailGuarded(c);
    if c.recipient.Some? {
      assert m == Head(c) + "|TO:" + c.recipient.value + Tail(c);
      FirstRecipient(Head(c), c.recipient.value, Tail(c));
    } else {
      assert m == Head(c) + Tail(c);
      GuardedConcat(Head(c), Tail(c));
      GuardedHasNoTo(m);
    }
  }

  /** The server hands an addressed chunk frame unchanged to its registered recipient alone, and
      nothing to anyone when the recipient is not registered; the registry is unchanged. */
  lemma AddressedChunkDelivered(r: Server.Registry, h: Server.HandlerId, c: Chunk, sent: seq<Server.Send>)
    requires WellFormed(c) && c.recipient.Some?
    ensures Server.Next(r, h, Encode(c)) == r
    ensures Server.Output(r, h, Encode(c), sent) <==>
      sent == if c.recipient.value in r.clients then [Server.Send(r.clients[c.recipient.value], Encode(c))] else []
  {
    ChunkRoute(c);
  }

  /** The server broadcasts an unaddressed chunk frame unchanged to every registered name but the
      sender's own. */
  lemma UnaddressedChunkBroadcast(r: Server.Registry, h: Server.HandlerId, c: Chunk, sent: seq<Server.Send>)
    requires WellFormed(c) && c.recipient.None?
    ensures Server.Next(r, h, Encode(c)) == r
    ensures Server.Output(r, h, Encode(c), sent) <==>
      Server.Broadcasts(sent, r.clients, Server.Username(r, h), Encode(c))
  {
    ChunkRoute(c);
  }
}
