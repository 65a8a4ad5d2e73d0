/** The chat client's protocol logic: the frames it sends, the user list it keeps, and the
    dispatch of each line the server sends it. */
module Client {
  import opened Wrappers
  import opened Text
  import opened ChunkFrame
  import opened Reassembly
  import opened Decimal
  import Int32

  // ---------------------------------------------------------------------------------------------
  // Outgoing frames

  /** The private recipient the current selection names: the selected user, unless the selection
      is null, empty or "All" (a broadcast). */
  function Target(selected: Option<string>): (r: Option<string>)
    ensures r.Some? <==> (selected.Some? && selected.value != "" && selected.value != "All")
    ensures r.Some? ==> r == selected
  {
    if selected.Some? && selected.value != "" && selected.value != "All" then selected else None
  }

  /** `sendMessage`: the trimmed text framed as `TO:r|FROM:u|MSG:m` for a private recipient and
      `FROM:u|MSG:m` otherwise; a message that trims to nothing sends no frame. */
  function TextFrame(target: Option<string>, username: string, text: string): (r: Option<string>)
    ensures r.None? <==> Trim(text) == ""
    ensures r.Some? ==> (StartsWith(r.value, "TO:") <==> target.Some?)
  {
    var message := Trim(text);
    if message == "" then None
    else if target.Some? then
      assert ("TO:" + target.value + "|FROM:" + username + "|MSG:" + message)[..3] == "TO:";
      Some("TO:" + target.value + "|FROM:" + username + "|MSG:" + message)
    else
      assert ("FROM:" + username + "|MSG:" + message)[..3] == "FRO";
      Some("FROM:" + username + "|MSG:" + message)
  }

  /** The chunks one `send*Data` call frames, in the order it sends them: piece `i` of the base64
      text as chunk `i` of `ChunkCount` chunks. */
  function Outgoing(kind: Kind, session: string, filename: Option<string>, recipient: Option<string>,
                    sender: string, payload: string): (cs: seq<Chunk>)
    ensures |cs| == ChunkCount(|payload|, PieceSize(kind))
  {
    var pieces := Pieces(payload, PieceSize(kind));
    seq(|pieces|, i requires 0 <= i < |pieces| =>
      Chunk(kind, session, i, |pieces|, filename, recipient, sender, pieces[i]))
  }

  /** Chunk `i` of a transfer carries the text from `i * size` up to the next piece or the end. */
  lemma OutgoingAt(kind: Kind, session: string, filename: Option<string>, recipient: Option<string>,
                   sender: string, payload: string, i: nat)
    requires i < ChunkCount(|payload|, PieceSize(kind))
    ensures var size := PieceSize(kind);
      && i * size < |payload|
      && Outgoing(kind, session, filename, recipient, sender, payload)[i]
         == Chunk(kind, session, i, ChunkCount(|payload|, size), filename, recipient, sender,
                  payload[i * size .. Min(i * size + size, |payload|)])
  {
    PieceStartInside(|payload|, PieceSize(kind), i);
  }

  /** The frames of `Outgoing` reordered by `order` are the arrivals of its pieces in that order. */
  lemma OutgoingReordered(kind: Kind, session: string, filename: Option<string>, recipient: Option<string>,
                          sender: string, payload: string, order: seq<nat>)
    requires IsPermutation(order, ChunkCount(|payload|, PieceSize(kind)))
    ensures var cs := Outgoing(kind, session, filename, recipient, sender, payload);
            seq(|order|, j requires 0 <= j < |order| => cs[order[j]])
              == Arrivals(kind, session, sender, recipient, filename, Pieces(payload, PieceSize(kind)), order)
  {
  }

  /** What the frames of one transfer do at a receiver whose table has no entry under their key:
      however they are reordered in transit, exactly one completion is reported, carrying the whole
      base64 text, and the table ends as it began. An empty payload sends no frames. */
  lemma {:induction false} TransferReassembles(table: map<string, Transfer>, kind: Kind, session: string,
                                               filename: Option<string>, recipient: Option<string>,
                                               sender: string, payload: string, order: seq<nat>, now: int)
    requires Key(sender, session) !in table
    requires IsPermutation(order, ChunkCount(|payload|, PieceSize(kind)))
    ensures var cs := Outgoing(kind, session, filename, recipient, sender, payload);
            Run(table, seq(|order|, j requires 0 <= j < |order| => cs[order[j]]), now)
              == Trace(table, if payload == "" then [] else [Completed(kind, sender, recipient, filename, payload)])
  {
    var size := PieceSize(kind);
    var pieces := Pieces(payload, size);
    ChunkCountBounds(|payload|, size);
    OutgoingReordered(kind, session, filename, recipient, sender, payload, order);
    PiecesConcat(payload, size);
    if payload == "" {
      assert order == [];
    } else {
      AnyOrderReassembles(table, kind, session, sender, recipient, filename, pieces, order, now);
    }
  }

  /** The conditions under which a sender's frames read back as the chunks it framed: no '|' in
      the values, a file name exactly for files, counts that fit in an `int`. */
  predicate Sendable(kind: Kind, session: string, filename: Option<string>, recipient: Option<string>,
                     sender: string, payload: string)
  {
    && '|' !in session && '|' !in sender && '|' !in payload
    && (filename.Some? <==> kind == File) && (filename.Some? ==> '|' !in filename.value)
    && (recipient.Some? ==> '|' !in recipient.value)
    && ChunkCount(|payload|, PieceSize(kind)) <= Int32.Max
  }

  /** Every frame a sender builds parses, at the receiver, back into the chunk it was built from. */
  lemma OutgoingParses(kind: Kind, session: string, filename: Option<string>, recipient: Option<string>,
                       sender: string, payload: string, i: nat)
    requires Sendable(kind, session, filename, recipient, sender, payload)
    requires i < ChunkCount(|payload|, PieceSize(kind))
    ensures var c := Outgoing(kind, session, filename, recipient, sender, payload)[i];
            StartsWith(Encode(c), Tag(kind)) && Parse(kind, Encode(c)) == Some(c)
  {
    var size := PieceSize(kind);
    var c := Outgoing(kind, session, filename, recipient, sender, payload)[i];
    PieceStartInside(|payload|, size, i);
    assert '|' !in c.data by {
      assert c.data == payload[i * size .. Min(i * size + size, |payload|)];
      forall j | 0 <= j < |c.data| ensures c.data[j] != '|' {
        assert c.data[j] == payload[i * size + j];
      }
    }
    ParseEncode(c);
  }

  // ---------------------------------------------------------------------------------------------
  // The user list

  /** One entry of the user list model. */
  datatype UserStatus = UserStatus(username: string, isConnected: bool)

  predicate HasName(users: seq<UserStatus>, name: string) {
    exists i :: 0 <= i < |users| && users[i].username == name
  }

  predicate DistinctNames(users: seq<UserStatus>) {
    forall i, j :: 0 <= i < j < |users| ==> users[i].username != users[j].username
  }

  predicate Distinct(names: seq<string>) {
    forall i, j :: 0 <= i < j < |names| ==> names[i] != names[j]
  }

  /** Each part trimmed, as `user.trim()` does it in the first pass. */
  function TrimAll(parts: seq<string>): (r: seq<string>)
    ensures |r| == |parts|
    ensures forall i :: 0 <= i < |parts| ==> r[i] == Trim(parts[i])
  {
    if parts == [] then [] else TrimAll(parts[..|parts| - 1]) + [Trim(parts[|parts| - 1])]
  }

  /** The names of `names` other than the own user name, each once, in list order (the set
      `connectedUserNames`, in the order the model visits it). */
  function Unique(names: seq<string>, username: string): seq<string> {
    if names == [] then []
    else
      var prev := Unique(names[..|names| - 1], username);
      var t := names[|names| - 1];
      if t == username || t in prev then prev else prev + [t]
  }

  /** `Unique` keeps exactly the names other than the own one, and each once. */
  lemma {:induction false} UniqueSpec(names: seq<string>, username: string)
    ensures Distinct(Unique(names, username))
    ensures forall x :: x in Unique(names, username) <==> x in names && x != username
  {
    if names != [] {
      var init := names[..|names| - 1];
      UniqueSpec(init, username);
      assert names == init + [names[|names| - 1]];
    }
  }

  /** The trimmed names a `USERLIST:` payload carries: none for an empty payload, otherwise one
      per comma-separated part. */
  function ListedNames(listText: string): seq<string> {
    if listText == "" then [] else TrimAll(JavaSplit(listText, ','))
  }

  /** The names a `USERLIST:` payload marks as connected: the listed names but the own one. */
  function ConnectedNames(listText: string, username: string): seq<string> {
    Unique(ListedNames(listText), username)
  }

  /** The entry after the refresh pass: "All" is left alone; any other entry is connected exactly
      when its name is listed. */
  function Mark(u: UserStatus, names: seq<string>): UserStatus {
    if u.username == "All" then u else UserStatus(u.username, u.username in names)
  }

  function Refresh(users: seq<UserStatus>, names: seq<string>): (r: seq<UserStatus>)
    ensures |r| == |users|
    ensures forall i :: 0 <= i < |users| ==> r[i] == Mark(users[i], names)
  {
    seq(|users|, i requires 0 <= i < |users| => Mark(users[i], names))
  }

  /** One step of the third pass: a name no entry has is appended as connected. */
  function AddOne(users: seq<UserStatus>, name: string): seq<UserStatus> {
    if HasName(users, name) then users else users + [UserStatus(name, true)]
  }

  /** The third pass: each listed name, in order, through `AddOne`. */
  function AddMissing(users: seq<UserStatus>, names: seq<string>): (r: seq<UserStatus>)
    ensures |r| >= |users|
  {
    if names == [] then users else AddOne(AddMissing(users, names[..|names| - 1]), names[|names| - 1])
  }

  /** The third pass only appends: the list it starts from stays a prefix. */
  lemma {:induction false} AddMissingPrefix(users: seq<UserStatus>, names: seq<string>)
    ensures var r := AddMissing(users, names); |r| >= |users| && r[..|users|] == users
  {
    if names != [] {
      AddMissingPrefix(users, names[..|names| - 1]);
    }
  }

  /** What the third pass appends is listed, connected, and was missing from the list. */
  lemma {:induction false} AddMissingAppends(users: seq<UserStatus>, names: seq<string>)
    ensures var r := AddMissing(users, names);
      forall i :: |users| <= i < |r| ==> r[i].isConnected && r[i].username in names && !HasName(users, r[i].username)
  {
    if names != [] {
      var init := names[..|names| - 1];
      var n := names[|names| - 1];
      AddMissingAppends(users, init);
      AddMissingPrefix(users, init);
      var prev := AddMissing(users, init);
      assert forall x :: x in init ==> x in names;
      if !HasName(prev, n) {
        forall i | 0 <= i < |users| ensures users[i].username != n {
          assert prev[i] == users[i];
        }
      }
    }
  }

  lemma HasNameAppend(users: seq<UserStatus>, u: UserStatus)
    ensures forall x :: HasName(users, x) ==> HasName(users + [u], x)
    ensures HasName(users + [u], u.username)
  {
    var r := users + [u];
    forall x | HasName(users, x) ensures HasName(r, x) {
      var i :| 0 <= i < |users| && users[i].username == x;
      assert r[i] == users[i];
    }
    assert r[|users|] == u;
  }

  /** After the third pass every listed name has an entry. */
  lemma {:induction false} AddMissingCovers(users: seq<UserStatus>, names: seq<string>)
    ensures forall n :: n in names ==> HasName(AddMissing(users, names), n)
  {
    if names != [] {
      var init := names[..|names| - 1];
      var n := names[|names| - 1];
      AddMissingCovers(users, init);
      var prev := AddMissing(users, init);
      assert names == init + [n];
      if !HasName(prev, n) {
        HasNameAppend(prev, UserStatus(n, true));
      }
    }
  }

  /** The third pass keeps the names distinct. */
  lemma {:induction false} AddMissingDistinct(users: seq<UserStatus>, names: seq<string>)
    requires DistinctNames(users)
    ensures DistinctNames(AddMissing(users, names))
  {
    if names != [] {
      AddMissingDistinct(users, names[..|names| - 1]);
    }
  }

  /** When every listed name already has an entry, the third pass changes nothing. */
  lemma {:induction false} AddMissingNoop(users: seq<UserStatus>, names: seq<string>)
    requires forall n :: n in names ==> HasName(users, n)
    ensures AddMissing(users, names) == users
  {
    if names != [] {
      var init := names[..|names| - 1];
      assert forall x :: x in init ==> x in names;
      AddMissingNoop(users, init);
    }
  }

  /** The third pass keeps the list as a prefix, appends only listed names that were missing, as
      connected; afterwards every listed name is present; names stay distinct; and when every
      listed name was already present nothing changes. */
  lemma AddMissingEffect(users: seq<UserStatus>, names: seq<string>)
    ensures var r := AddMissing(users, names);
      && |r| >= |users| && r[..|users|] == users
      && (forall i :: |users| <= i < |r| ==> r[i].isConnected && r[i].username in names && !HasName(users, r[i].username))
      && (forall n :: n in names ==> HasName(r, n))
      && (DistinctNames(users) ==> DistinctNames(r))
      && ((forall n :: n in names ==> HasName(users, n)) ==> r == users)
  {
    AddMissingPrefix(users, names);
    AddMissingAppends(users, names);
    AddMissingCovers(users, names);
    if DistinctNames(users) {
      AddMissingDistinct(users, names);
    }
    if forall n :: n in names ==> HasName(users, n) {
      AddMissingNoop(users, names);
    }
  }

  /** `updateUserList`'s effect on the list: refresh every entry, then append the new names. */
  function Merged(users: seq<UserStatus>, names: seq<string>): (r: seq<UserStatus>)
    ensures |r| >= |users|
  {
    AddMissing(Refresh(users, names), names)
  }

  /** The merge never removes or renames an entry, leaves "All" alone, marks every other existing
      entry connected exactly when it is listed, appends only listed names that were missing (as
      connected), covers every listed name, and keeps the names unique. */
  lemma MergeEffect(users: seq<UserStatus>, names: seq<string>)
    ensures var m := Merged(users, names);
      && |m| >= |users|
      && (forall i :: 0 <= i < |users| ==> m[i].username == users[i].username)
      && (forall i :: 0 <= i < |users| && users[i].username == "All" ==> m[i] == users[i])
      && (forall i :: 0 <= i < |users| && users[i].username != "All" ==> (m[i].isConnected <==> users[i].username in names))
      && (forall i :: |users| <= i < |m| ==> m[i].isConnected && m[i].username in names && !HasName(users, m[i].username))
      && (forall n :: n in names ==> HasName(m, n))
      && (DistinctNames(users) ==> DistinctNames(m))
  {
    var r := Refresh(users, names);
    var m := Merged(users, names);
    AddMissingPrefix(r, names);
    AddMissingAppends(r, names);
    AddMissingCovers(r, names);
    RefreshKeepsNames(users, names);
    assert forall i :: 0 <= i < |users| ==> m[i] == r[i] by {
      forall i | 0 <= i < |users| ensures m[i] == r[i] {
        assert m[..|r|][i] == m[i];
      }
    }
    if DistinctNames(users) {
      AddMissingDistinct(r, names);
    }
  }

  /** The refresh pass keeps every name, and so keeps them distinct. */
  lemma RefreshKeepsNames(users: seq<UserStatus>, names: seq<string>)
    ensures forall x :: HasName(Refresh(users, names), x) ==> HasName(users, x)
    ensures DistinctNames(users) ==> DistinctNames(Refresh(users, names))
  {
    var r := Refresh(users, names);
    forall x | HasName(r, x) ensures HasName(users, x) {
      var i :| 0 <= i < |r| && r[i].username == x;
      assert users[i].username == x;
    }
    if DistinctNames(users) {
      forall i, j | 0 <= i < j < |r| ensures r[i].username != r[j].username {
        assert r[i].username == users[i].username && r[j].username == users[j].username;
      }
    }
  }

  /** Merging the same list twice is merging it once. */
  lemma MergeIdempotent(users: seq<UserStatus>, names: seq<string>)
    ensures Merged(Merged(users, names), names) == Merged(users, names)
  {
    var m := Merged(users, names);
    MergeEffect(users, names);
    assert Refresh(m, names) == m;
    AddMissingEffect(m, names);
  }

  /** The list after a `USERLIST:` payload: the own name is never appended, names stay unique,
      and an existing entry other than "All" and the own name is connected exactly when the payload
      lists it (so an empty payload disconnects them all). */
  lemma UserListPayload(users: seq<UserStatus>, listText: string, username: string)
    ensures var m := Merged(users, ConnectedNames(listText, username));
      && (forall i :: |users| <= i < |m| ==> m[i].username != username && m[i].username in ListedNames(listText))
      && (DistinctNames(users) ==> DistinctNames(m))
      && (forall i :: 0 <= i < |users| && users[i].username != "All" && users[i].username != username ==>
            (m[i].isConnected <==> users[i].username in ListedNames(listText)))
  {
    UniqueSpec(ListedNames(listText), username);
    MergeEffect(users, ConnectedNames(listText, username));
  }

  // ---------------------------------------------------------------------------------------------
  // Incoming lines

  /** What the receive loop makes of one line, in the order it tests the prefixes. */
  datatype Incoming =
    | ChunkLine(kind: Kind)
    | UserList(listText: string)
    | Private(sender: string, text: string)
    | PrivateIgnored
    | Broadcast(text: string)

  /** The receive loop's dispatch exactly as written: for `PRIVATE:` with two or more parts, the
      message is the second part minus its first four characters, and a second part shorter than
      that throws StringIndexOutOfBoundsException, which nothing in the loop catches. */
  function ClassifyAsWritten(line: string): (r: Result<Incoming, string>)
    ensures r.Err? ==> StartsWith(line, "PRIVATE:")
  {
    if StartsWith(line, "VOICECHUNK|") then Ok(ChunkLine(Voice))
    else if StartsWith(line, "FILECHUNK|") then Ok(ChunkLine(File))
    else if StartsWith(line, "IMGCHUNK|") then Ok(ChunkLine(Image))
    else if StartsWith(line, "USERLIST:") then Ok(UserList(line[9..]))
    else if StartsWith(line, "PRIVATE:") then
      var parts := JavaSplit(line[8..], '|');
      if |parts| >= 2 then
        if |parts[1]| < 4 then Err("StringIndexOutOfBoundsException")
        else Ok(Private(parts[0], parts[1][4..]))
      else Ok(PrivateIgnored)
    else Ok(Broadcast(line))
  }

  /** The dispatch this model uses: as written, except that a `PRIVATE:` line whose second part is
      too short to hold `MSG:` is ignored like one with fewer than two parts. */
  function Classify(line: string): (r: Incoming)
    ensures r.ChunkLine? ==> StartsWith(line, Tag(r.kind))
  {
    if StartsWith(line, "VOICECHUNK|") then ChunkLine(Voice)
    else if StartsWith(line, "FILECHUNK|") then ChunkLine(File)
    else if StartsWith(line, "IMGCHUNK|") then ChunkLine(Image)
    else if StartsWith(line, "USERLIST:") then UserList(line[9..])
    else if StartsWith(line, "PRIVATE:") then
      var parts := JavaSplit(line[8..], '|');
      if |parts| >= 2 && |parts[1]| >= 4 then Private(parts[0], parts[1][4..]) else PrivateIgnored
    else Broadcast(line)
  }

  /** The corrected dispatch agrees with the written one on every line that does not throw. */
  lemma ClassifyAgrees(line: string)
    requires ClassifyAsWritten(line).Ok?
    ensures Classify(line) == ClassifyAsWritten(line).value
  {
  }

  /** A `PRIVATE:` line whose second part is shorter than `MSG:` throws as written, and is
      ignored by the corrected dispatch. */
  lemma ShortSecondPartThrows(body: string)
    requires var parts := JavaSplit(body, '|'); |parts| >= 2 && |parts[1]| < 4
    ensures ClassifyAsWritten("PRIVATE:" + body).Err?
    ensures Classify("PRIVATE:" + body) == PrivateIgnored
  {
    var line := "PRIVATE:" + body;
    StartsWithConcat("PRIVATE:", body);
    assert line[8..] == body;
    PrivatePrefixOnly(line);
  }

  /** A user named "a|b" sending "hi" privately to "r": the server hands "r" the line
      `PRIVATE:FROM:a|b|MSG:hi`, whose second part "b" is too short, so "r"'s receive loop throws. */
  lemma PrivateFromPipedNameThrows()
    ensures ClassifyAsWritten("PRIVATE:" + "FROM:a|b|MSG:hi").Err?
    ensures Classify("PRIVATE:" + "FROM:a|b|MSG:hi") == PrivateIgnored
  {
    PipedNameParts();
    ShortSecondPartThrows("FROM:a|b|MSG:hi");
  }

  lemma PipedNameParts()
    ensures JavaSplit("FROM:a|b|MSG:hi", '|') == ["FROM:a", "b", "MSG:hi"]
  {
    var parts := ["FROM:a", "b", "MSG:hi"];
    assert "FROM:a|b|MSG:hi" == JoinWith(parts, '|');
    JavaSplitJoin(parts, '|');
  }

  /** A line that starts with `PRIVATE:` starts with none of the earlier prefixes. */
  lemma PrivatePrefixOnly(line: string)
    requires StartsWith(line, "PRIVATE:")
    ensures !StartsWith(line, "VOICECHUNK|") && !StartsWith(line, "FILECHUNK|")
    ensures !StartsWith(line, "IMGCHUNK|") && !StartsWith(line, "USERLIST:")
  {
    assert line[0] == 'P';
    NotStartsWithAt(line, "VOICECHUNK|", 0);
    NotStartsWithAt(line, "FILECHUNK|", 0);
    NotStartsWithAt(line, "IMGCHUNK|", 0);
    NotStartsWithAt(line, "USERLIST:", 0);
  }

  /** What the message area shows for one line (timestamps and formatting left aside). */
  datatype Event =
    | Nothing
    | InvalidChunk(kind: Kind)
    | Delivered(transfer: Completed)
    | UsersUpdated
    | PrivateShown(sender: string, text: string)
    | BroadcastShown(text: string)

  /** The three reassembly tables, as values. */
  datatype Tables = Tables(images: map<string, Transfer>, files: map<string, Transfer>, voices: map<string, Transfer>)

  function Get(ts: Tables, kind: Kind): map<string, Transfer> {
    match kind
    case Image => ts.images
    case File => ts.files
    case Voice => ts.voices
  }

  function Put(ts: Tables, kind: Kind, m: map<string, Transfer>): (r: Tables)
    ensures Get(r, kind) == m
    ensures forall k :: k != kind ==> Get(r, k) == Get(ts, k)
  {
    match kind
    case Image => ts.(images := m)
    case File => ts.(files := m)
    case Voice => ts.(voices := m)
  }

  /** `handle*Chunk` on the tables: a rejected frame changes nothing and shows an error; an
      accepted one goes to its own kind's table only, and a completion is shown. */
  function OnChunk(ts: Tables, kind: Kind, line: string, now: int): (r: (Tables, Event))
    requires StartsWith(line, Tag(kind))
    ensures Parse(kind, line).None? ==> r == (ts, InvalidChunk(kind))
    ensures forall k :: k != kind ==> Get(r.0, k) == Get(ts, k)
    ensures Parse(kind, line).Some? ==>
              var s := Accept(Get(ts, kind), Parse(kind, line).value, now);
              Get(r.0, kind) == s.table && (r.1 == if s.done.Some? then Delivered(s.done.value) else Nothing)
  {
    match Parse(kind, line)
    case None => (ts, InvalidChunk(kind))
    case Some(c) =>
      var s := Accept(Get(ts, kind), c, now);
      (Put(ts, kind, s.table), if s.done.Some? then Delivered(s.done.value) else Nothing)
  }

  /** One more part of the payload, trimmed, extends the unique names as the loop does. */
  lemma UniqueTrimStep(parts: seq<string>, i: nat, username: string)
    requires i < |parts|
    ensures var prev := Unique(TrimAll(parts[..i]), username);
      var t := Trim(parts[i]);
      Unique(TrimAll(parts[..i + 1]), username) == if t == username || t in prev then prev else prev + [t]
  {
    var q := parts[..i + 1];
    assert q[..i] == parts[..i];
    var names := TrimAll(q);
    assert names == TrimAll(parts[..i]) + [Trim(parts[i])];
    assert names[..i] == TrimAll(parts[..i]);
  }

  /** The first pass of `updateUserList`: the set of listed names, built by trimming each
      comma-separated part and leaving out the own name. */
  method ConnectedUserNames(listText: string, username: string) returns (names: seq<string>)
    ensures names == ConnectedNames(listText, username)
  {
    names := [];
    if listText != "" {
      var parts := JavaSplit(listText, ',');
      var i := 0;
      while i < |parts|
        invariant 0 <= i <= |parts|
        invariant names == Unique(TrimAll(parts[..i]), username)
      {
        UniqueTrimStep(parts, i, username);
        var trimmed := Trim(parts[i]);
        if trimmed != username && trimmed !in names {
          names := names + [trimmed];
        }
        i := i + 1;
      }
      assert parts[..|parts|] == parts;
    }
  }

  /** The inner search of the second pass: whether some entry already has the name. */
  method Find(users: seq<UserStatus>, name: string) returns (found: bool)
    ensures found == HasName(users, name)
  {
    found := false;
    var k := 0;
    while k < |users|
      invariant 0 <= k <= |users|
      invariant found <==> exists m :: 0 <= m < k && users[m].username == name
    {
      if users[k].username == name {
        found := true;
        break;
      }
      k := k + 1;
    }
  }

  /** The second pass of `updateUserList`: every entry but "All" is marked connected exactly
      when it is listed. */
  method RefreshEntries(users: seq<UserStatus>, names: seq<string>) returns (list: seq<UserStatus>)
    ensures list == Refresh(users, names)
  {
    list := users;
    var i := 0;
    while i < |list|
      invariant 0 <= i <= |list| == |users|
      invariant forall j :: 0 <= j < i ==> list[j] == Mark(users[j], names)
      invariant forall j :: i <= j < |list| ==> list[j] == users[j]
    {
      if list[i].username != "All" {
        list := list[i := UserStatus(list[i].username, list[i].username in names)];
      }
      i := i + 1;
    }
  }

  /** The third pass: each listed name no entry has yet is appended as connected. */
  method AppendMissing(users: seq<UserStatus>, names: seq<string>) returns (list: seq<UserStatus>)
    ensures list == AddMissing(users, names)
  {
    list := users;
    var j := 0;
    while j < |names|
      invariant 0 <= j <= |names|
      invariant list == AddMissing(users, names[..j])
    {
      assert names[..j + 1][..j] == names[..j];
      var found := Find(list, names[j]);
      if !found {
        list := list + [UserStatus(names[j], true)];
      }
      j := j + 1;
    }
    assert names[..|names|] == names;
  }

  /** The three passes of `updateUserList` over the list model's entries. */
  method MergeUserList(users: seq<UserStatus>, listText: string, username: string) returns (list: seq<UserStatus>)
    ensures list == Merged(users, ConnectedNames(listText, username))
  {
    var names := ConnectedUserNames(listText, username);
    var refreshed := RefreshEntries(users, names);
    list := AppendMissing(refreshed, names);
  }

  // ---------------------------------------------------------------------------------------------
  // The client

  /** Two tables whose arrays are disjoint, neither table being one of the other's arrays. */
  ghost predicate Apart(t: ChunkTable, u: ChunkTable)
    reads t, u
  {
    t.owner.Keys !! u.owner.Keys && t !in u.owner && u !in t.owner
  }

  /** A change that touches neither the tables nor their arrays keeps the client's invariant. */
  twostate lemma TablesKept(c: ChatClient)
    requires old(c.Valid())
    requires unchanged(c.images, c.files, c.voices)
    requires unchanged(old(c.images.owner.Keys), old(c.files.owner.Keys), old(c.voices.owner.Keys))
    ensures c.Valid() && c.View() == old(c.View())
  {
  }

  class ChatClient {
    const username: string
    var users: seq<UserStatus>
    var selectedUser: Option<string>
    const images: ChunkTable
    const files: ChunkTable
    const voices: ChunkTable

    /** The tables are of their kinds and well formed, and their arrays are disjoint from one
        another and from the tables and the client. */
    ghost predicate Valid()
      reads images, files, voices, images.owner.Keys, files.owner.Keys, voices.owner.Keys
    {
      && images.kind == Image && files.kind == File && voices.kind == Voice
      && images.Valid() && files.Valid() && voices.Valid()
      && Apart(images, files) && Apart(images, voices) && Apart(files, voices)
      && this !in images.owner && this !in files.owner && this !in voices.owner
    }

    ghost function View(): Tables
      reads images, files, voices
    {
      Tables(images.transfers, files.transfers, voices.transfers)
    }

    function Table(kind: Kind): ChunkTable {
      match kind
      case Image => images
      case File => files
      case Voice => voices
    }

    /** A new client window: the list holds only "All", which is selected; the tables are empty. */
    constructor(username: string)
      ensures Valid() && fresh(images) && fresh(files) && fresh(voices)
      ensures this.username == username
      ensures users == [UserStatus("All", true)] && selectedUser == Some("All")
      ensures View() == Tables(map[], map[], map[])
    {
      this.username := username;
      users := [UserStatus("All", true)];
      selectedUser := Some("All");
      images := new ChunkTable(Image);
      files := new ChunkTable(File);
      voices := new ChunkTable(Voice);
    }

    /** Choosing entry `i` of the list selects that user. */
    method Select(i: nat)
      requires i < |users|
      modifies this
      ensures selectedUser == Some(old(users)[i].username)
      ensures users == old(users)
    {
      selectedUser := Some(users[i].username);
    }

    /** `sendImageData`/`sendFileData`/`sendVoiceData`: one frame per piece of the base64 text,
        in index order, each addressed to the selected user when there is one. */
    method SendChunks(kind: Kind, payload: string, session: string, filename: Option<string>)
      returns (frames: seq<string>)
      requires filename.Some? <==> kind == File
      ensures var cs := Outgoing(kind, session, filename, Target(selectedUser), username, payload);
              |frames| == |cs| && forall i :: 0 <= i < |cs| ==> frames[i] == Encode(cs[i])
    {
      var chunkSize := PieceSize(kind);
      var totalChunks := ChunkCount(|payload|, chunkSize);
      var recipient := Target(selectedUser);
      ghost var cs := Outgoing(kind, session, filename, recipient, username, payload);
      frames := [];
      var i := 0;
      while i < totalChunks
        invariant 0 <= i <= totalChunks
        invariant |frames| == i
        invariant forall j :: 0 <= j < i ==> frames[j] == Encode(cs[j])
      {
        OutgoingAt(kind, session, filename, recipient, username, payload, i);
        var start := i * chunkSize;
        var end := Min(start + chunkSize, |payload|);
        var chunk := payload[start..end];
        var frame := Encode(Chunk(kind, session, i, totalChunks, filename, recipient, username, chunk));
        assert frame == Encode(cs[i]);
        ghost var before := frames;
        frames := frames + [frame];
        forall j | 0 <= j <= i ensures frames[j] == Encode(cs[j]) {
          if j < i {
            assert frames[j] == before[j];
          }
        }
        i := i + 1;
      }
    }

    /** `updateUserList`: refresh the connection flag of every entry but "All", append each listed
        name that is missing, and select "All". */
    method UpdateUserList(listText: string)
      requires Valid()
      modifies this
      ensures Valid() && View() == old(View())
      ensures users == Merged(old(users), ConnectedNames(listText, username))
      ensures selectedUser == Some("All")
    {
      users := MergeUserList(users, listText, username);
      selectedUser := Some("All");
      TablesKept(this);
    }

    /** A change to one table `t` that keeps it well formed and gives it only fresh arrays, leaving
        the other two tables and their arrays alone, keeps the client's invariant. */
    twostate lemma TableChanged(t: ChunkTable)
      requires old(Valid())
      requires t == images || t == files || t == voices
      requires t.Valid()
      requires forall o :: o in t.owner ==> o in old(t.owner) || fresh(o)
      requires t != images ==> unchanged(images) && unchanged(old(images.owner.Keys))
      requires t != files ==> unchanged(files) && unchanged(old(files.owner.Keys))
      requires t != voices ==> unchanged(voices) && unchanged(old(voices.owner.Keys))
      ensures Valid()
    {
    }

    /** `handle*Chunk`: parse and validate the frame, then hand the chunk to its kind's table. */
    method HandleChunk(kind: Kind, line: string, now: int) returns (ev: Event)
      requires Valid() && StartsWith(line, Tag(kind))
      modifies Table(kind), Table(kind).owner.Keys
      ensures Valid()
      ensures (View(), ev) == OnChunk(old(View()), kind, line, now)
    {
      var parsed := ParseLine(kind, line);
      if parsed.None? {
        ev := InvalidChunk(kind);
        TablesKept(this);
      } else {
        var table := Table(kind);
        var done := table.Ingest(parsed.value, now);
        ev := if done.Some? then Delivered(done.value) else Nothing;
        TableChanged(table);
      }
    }

    /** One pass of the receive loop: dispatch on the line's prefix. */
    method Receive(line: string, now: int) returns (ev: Event)
      requires Valid()
      modifies this, images, files, voices, images.owner.Keys, files.owner.Keys, voices.owner.Keys
      ensures Valid()
      ensures match Classify(line)
        case ChunkLine(kind) =>
          (View(), ev) == OnChunk(old(View()), kind, line, now)
          && users == old(users) && selectedUser == old(selectedUser)
        case UserList(listText) =>
          View() == old(View()) && ev == UsersUpdated && selectedUser == Some("All")
          && users == Merged(old(users), ConnectedNames(listText, username))
        case Private(sender, text) =>
          View() == old(View()) && ev == PrivateShown(sender, text)
          && users == old(users) && selectedUser == old(selectedUser)
        case PrivateIgnored =>
          View() == old(View()) && ev == Nothing
          && users == old(users) && selectedUser == old(selectedUser)
        case Broadcast(text) =>
          View() == old(View()) && ev == BroadcastShown(text)
          && users == old(users) && selectedUser == old(selectedUser)
    {
      match Classify(line)
      case ChunkLine(kind) =>
        ev := HandleChunk(kind, line, now);
      case UserList(listText) =>
        UpdateUserList(listText);
        ev := UsersUpdated;
      case Private(sender, text) =>
        ev := PrivateShown(sender, text);
      case PrivateIgnored =>
        ev := Nothing;
      case Broadcast(text) =>
        ev := BroadcastShown(text);
    }
  }
}
