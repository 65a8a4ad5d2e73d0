/** Reassembly of chunked transfers on the receiving client: one table per kind, keyed by sender
    and session, each entry a buffer of slots filled as chunks arrive. */
module Reassembly {
  import opened Wrappers
  import opened ChunkFrame

  // ---------------------------------------------------------------------------------------------
  // Abstract state

  /** What one buffer holds: who sent it, to whom, the file name, when it was created, and one
      slot per chunk (`None` while that chunk has not arrived). */
  datatype Transfer = Transfer(
    sender: string,
    recipient: Option<string>,
    filename: Option<string>,
    createdTime: int,
    slots: seq<Option<string>>)

  /** A finished transfer. Sender, recipient and file name are those of the frame that completed
      it. */
  datatype Completed = Completed(
    kind: Kind,
    sender: string,
    recipient: Option<string>,
    filename: Option<string>,
    payload: string)

  /** The table after one chunk, and the transfer it completed, if any. */
  datatype Step = Step(table: map<string, Transfer>, done: Option<Completed>)

  /** The table key of a transfer: `sender + "_" + sessionId`. */
  function Key(sender: string, session: string): string {
    sender + "_" + session
  }

  /** Session ids are hexadecimal timestamps, so they never contain '_'; then the key determines
      the sender and the session. */
  lemma KeyInjective(s1: string, x1: string, s2: string, x2: string)
    requires '_' !in x1 && '_' !in x2
    requires Key(s1, x1) == Key(s2, x2)
    ensures s1 == s2 && x1 == x2
  {
    var k := Key(s1, x1);
    assert k[|s1|] == '_' && k[|s1| + 1..] == x1;
    assert k[|s2|] == '_' && k[|s2| + 1..] == x2;
    forall j | |s1| < j < |k| ensures k[j] != '_' {
      assert k[j] == x1[j - |s1| - 1];
    }
    forall j | |s2| < j < |k| ensures k[j] != '_' {
      assert k[j] == x2[j - |s2| - 1];
    }
    assert s1 == k[..|s1|] && s2 == k[..|s2|];
  }

  /** `n` slots, none of them filled. */
  function EmptySlots(n: nat): (slots: seq<Option<string>>)
    ensures |slots| == n && forall i :: 0 <= i < n ==> slots[i].None?
  {
    seq(n, _ => None)
  }

  /** The buffer the first accepted chunk of a transfer allocates: TOTAL slots, all empty. */
  function NewTransfer(c: Chunk, now: int): (t: Transfer)
    ensures |t.slots| == c.total
    ensures forall i :: 0 <= i < |t.slots| ==> t.slots[i].None?
  {
    Transfer(c.sender, c.recipient, c.filename, now, EmptySlots(c.total))
  }

  /** `setChunk`: store the data in its slot when the index is inside the buffer; an index past
      the end changes nothing. */
  function SetSlot(slots: seq<Option<string>>, index: nat, data: string): (r: seq<Option<string>>)
    ensures |r| == |slots|
    ensures index < |slots| ==> r[index] == Some(data)
    ensures forall i :: 0 <= i < |slots| && i != index ==> r[i] == slots[i]
    ensures index >= |slots| ==> r == slots
  {
    if index < |slots| then slots[index := Some(data)] else slots
  }

  /** `isComplete`: every slot has been received. */
  predicate AllReceived(slots: seq<Option<string>>) {
    forall i :: 0 <= i < |slots| ==> slots[i].Some?
  }

  /** What `StringBuilder.append` adds for one slot; a slot never filled appends "null". */
  function SlotText(slot: Option<string>): string {
    if slot.Some? then slot.value else "null"
  }

  /** `getCompleteData`: the slots' texts in index order. */
  function JoinSlots(slots: seq<Option<string>>): string {
    if slots == [] then "" else JoinSlots(slots[..|slots| - 1]) + SlotText(slots[|slots| - 1])
  }

  /** Once every slot is filled, the reassembled text is the stored pieces in index order. */
  lemma {:induction false} JoinSlotsOfPieces(slots: seq<Option<string>>, pieces: seq<string>)
    requires |slots| == |pieces|
    requires forall i :: 0 <= i < |slots| ==> slots[i] == Some(pieces[i])
    ensures JoinSlots(slots) == Concat(pieces)
  {
    if slots != [] {
      JoinSlotsOfPieces(slots[..|slots| - 1], pieces[..|pieces| - 1]);
    }
  }

  /** One accepted chunk: find or allocate the buffer under its key (an existing buffer is kept
      whatever this chunk's TOTAL says), store the data, and when every slot is filled remove the
      key and report the reassembled payload. */
  function Accept(table: map<string, Transfer>, c: Chunk, now: int): Step {
    var key := Key(c.sender, c.session);
    var t := if key in table then table[key] else NewTransfer(c, now);
    var slots := SetSlot(t.slots, c.index, c.data);
    if AllReceived(slots) then
      Step(table - {key}, Some(Completed(c.kind, c.sender, c.recipient, c.filename, JoinSlots(slots))))
    else
      Step(table[key := t.(slots := slots)], None)
  }

  /** Only the chunk's own key can change; every other entry is kept as it was. */
  lemma AcceptOtherKeys(table: map<string, Transfer>, c: Chunk, now: int, k: string)
    requires k != Key(c.sender, c.session)
    ensures k in Accept(table, c, now).table <==> k in table
    ensures k in table ==> Accept(table, c, now).table[k] == table[k]
  {
  }

  /** A chunk for a key already in the table never reallocates: sender, recipient, file name,
      creation time and the number of slots stay, and a completion or a fresh slot value is the
      only change. */
  lemma AcceptExisting(table: map<string, Transfer>, c: Chunk, now: int)
    requires Key(c.sender, c.session) in table
    ensures var key := Key(c.sender, c.session);
            var old_ := table[key];
            var s := Accept(table, c, now);
            (s.done.None? ==>
               (key in s.table
                && s.table[key].sender == old_.sender && s.table[key].recipient == old_.recipient
                && s.table[key].filename == old_.filename && s.table[key].createdTime == old_.createdTime
                && s.table[key].slots == SetSlot(old_.slots, c.index, c.data)))
            && (s.done.Some? ==> key !in s.table && AllReceived(SetSlot(old_.slots, c.index, c.data)))
  {
  }

  /** A chunk whose key is not in the table allocates a buffer sized by its own TOTAL and stamped
      with the current time. */
  lemma AcceptFresh(table: map<string, Transfer>, c: Chunk, now: int)
    requires Key(c.sender, c.session) !in table
    requires c.index < c.total && c.total > 1
    ensures var key := Key(c.sender, c.session);
            var s := Accept(table, c, now);
            s.done.None? && key in s.table && s.table[key].createdTime == now
            && |s.table[key].slots| == c.total && s.table[key].slots[c.index] == Some(c.data)
  {
    var slots := SetSlot(NewTransfer(c, now).slots, c.index, c.data);
    var other := if c.index == 0 then 1 else 0;
    assert slots[other].None?;
  }

  /** `TOTAL:0` completes at once with an empty payload and leaves the table as it was. */
  lemma ZeroTotalCompletes(table: map<string, Transfer>, c: Chunk, now: int)
    requires Key(c.sender, c.session) !in table && c.total == 0
    ensures Accept(table, c, now) == Step(table, Some(Completed(c.kind, c.sender, c.recipient, c.filename, "")))
  {
    assert table - {Key(c.sender, c.session)} == table;
  }

  /** Once a transfer completes its key is gone, so the next chunk with that key starts over with
      a new buffer. */
  lemma CompletionStartsFresh(table: map<string, Transfer>, c: Chunk, now: int, c2: Chunk, now2: int)
    requires Accept(table, c, now).done.Some?
    requires Key(c2.sender, c2.session) == Key(c.sender, c.session)
    ensures var t1 := Accept(table, c, now).table;
            Key(c.sender, c.session) !in t1
            && Accept(t1, c2, now2) == Accept(t1[Key(c.sender, c.session) := NewTransfer(c2, now2)], c2, now2)
  {
  }

  // ---------------------------------------------------------------------------------------------
  // A whole transfer, in any arrival order

  /** Chunks handled one after another, with the completions they produce. */
  datatype Trace = Trace(table: map<string, Transfer>, completed: seq<Completed>)

  function Run(table: map<string, Transfer>, cs: seq<Chunk>, now: int): Trace {
    if cs == [] then Trace(table, [])
    else
      var r := Run(table, cs[..|cs| - 1], now);
      var s := Accept(r.table, cs[|cs| - 1], now);
      Trace(s.table, r.completed + (if s.done.Some? then [s.done.value] else []))
  }

  /** `order` lists each index below `n` exactly once. */
  predicate IsPermutation(order: seq<nat>, n: nat) {
    && |order| == n
    && (forall j :: 0 <= j < n ==> order[j] < n)
    && (forall j, j' :: 0 <= j < j' < n ==> order[j] != order[j'])
    && (forall i :: 0 <= i < n ==> i in order)
  }

  /** The frames of one transfer as the sender numbers them, arriving in the order `order`. */
  function Arrivals(kind: Kind, session: string, sender: string, recipient: Option<string>,
                    filename: Option<string>, pieces: seq<string>, order: seq<nat>): (cs: seq<Chunk>)
    requires forall j :: 0 <= j < |order| ==> order[j] < |pieces|
    ensures |cs| == |order|
  {
    seq(|order|, j requires 0 <= j < |order| =>
      Chunk(kind, session, order[j], |pieces|, filename, recipient, sender, pieces[order[j]]))
  }

  lemma ArrivalAt(kind: Kind, session: string, sender: string, recipient: Option<string>,
                  filename: Option<string>, pieces: seq<string>, order: seq<nat>, j: nat)
    requires forall j :: 0 <= j < |order| ==> order[j] < |pieces|
    requires j < |order|
    ensures Arrivals(kind, session, sender, recipient, filename, pieces, order)[j]
         == Chunk(kind, session, order[j], |pieces|, filename, recipient, sender, pieces[order[j]])
  {
  }

  /** The slots after the chunks in `arrived` have been stored. */
  function Filled(pieces: seq<string>, arrived: seq<nat>): (slots: seq<Option<string>>)
    ensures |slots| == |pieces|
  {
    seq(|pieces|, i requires 0 <= i < |pieces| => if i in arrived then Some(pieces[i]) else None)
  }

  /** The run up to the `k`-th chunk, from the run before it and the step it takes. */
  lemma RunLast(table: map<string, Transfer>, cs: seq<Chunk>, k: nat, now: int,
                before: map<string, Transfer>, s: Step)
    requires 1 <= k <= |cs|
    requires Run(table, cs[..k - 1], now) == Trace(before, [])
    requires Accept(before, cs[k - 1], now) == s
    ensures Run(table, cs[..k], now) == Trace(s.table, if s.done.Some? then [s.done.value] else [])
  {
    var p := cs[..k];
    assert p[..|p| - 1] == cs[..k - 1];
    assert p[|p| - 1] == cs[k - 1];
  }

  /** One arrival of piece `i` of a transfer whose earlier arrivals were `arrived`. */
  lemma AcceptArrival(table: map<string, Transfer>, kind: Kind, session: string, sender: string,
                      recipient: Option<string>, filename: Option<string>,
                      pieces: seq<string>, arrived: seq<nat>, i: nat, now: int)
    requires Key(sender, session) !in table
    requires i < |pieces|
    ensures var key := Key(sender, session);
            var before := if |arrived| == 0 then table
                          else table[key := Transfer(sender, recipient, filename, now, Filled(pieces, arrived))];
            var after := Filled(pieces, arrived + [i]);
            Accept(before, Chunk(kind, session, i, |pieces|, filename, recipient, sender, pieces[i]), now)
              == if AllReceived(after)
                 then Step(table, Some(Completed(kind, sender, recipient, filename, JoinSlots(after))))
                 else Step(table[key := Transfer(sender, recipient, filename, now, after)], None)
  {
    var key := Key(sender, session);
    var before := if |arrived| == 0 then table
                  else table[key := Transfer(sender, recipient, filename, now, Filled(pieces, arrived))];
    var c := Chunk(kind, session, i, |pieces|, filename, recipient, sender, pieces[i]);
    var t := if key in before then before[key] else NewTransfer(c, now);
    assert t == Transfer(sender, recipient, filename, now, Filled(pieces, arrived));
    assert SetSlot(t.slots, i, pieces[i]) == Filled(pieces, arrived + [i]);
    assert before - {key} == table;
    assert before[key := t.(slots := Filled(pieces, arrived + [i]))]
        == table[key := Transfer(sender, recipient, filename, now, Filled(pieces, arrived + [i]))];
  }

  lemma {:induction false} RunPrefix(table: map<string, Transfer>, kind: Kind, session: string, sender: string,
                                     recipient: Option<string>, filename: Option<string>,
                                     pieces: seq<string>, order: seq<nat>, now: int, k: nat)
    requires Key(sender, session) !in table
    requires IsPermutation(order, |pieces|)
    requires k < |pieces|
    ensures var cs := Arrivals(kind, session, sender, recipient, filename, pieces, order);
            Run(table, cs[..k], now)
              == Trace(if k == 0 then table
                       else table[Key(sender, session) := Transfer(sender, recipient, filename, now, Filled(pieces, order[..k]))], [])
  {
    var cs := Arrivals(kind, session, sender, recipient, filename, pieces, order);
    var n := |pieces|;
    if k == 0 {
      assert cs[..0] == [];
    } else {
      var key := Key(sender, session);
      var before := if k == 1 then table
                    else table[key := Transfer(sender, recipient, filename, now, Filled(pieces, order[..k - 1]))];
      assert Run(table, cs[..k - 1], now) == Trace(before, []) by {
        RunPrefix(table, kind, session, sender, recipient, filename, pieces, order, now, k - 1);
      }
      var after := Filled(pieces, order[..k]);
      assert !AllReceived(after) by {
        assert order[n - 1] !in order[..k];
        assert after[order[n - 1]].None?;
      }
      assert Accept(before, cs[k - 1], now) == Step(table[key := Transfer(sender, recipient, filename, now, after)], None) by {
        ArrivalAt(kind, session, sender, recipient, filename, pieces, order, k - 1);
        AcceptArrival(table, kind, session, sender, recipient, filename, pieces, order[..k - 1], order[k - 1], now);
        InitLast(order, k);
      }
      RunLast(table, cs, k, now, before, Step(table[key := Transfer(sender, recipient, filename, now, after)], None));
    }
  }

  lemma InitLast<T>(s: seq<T>, k: nat)
    requires 1 <= k <= |s|
    ensures s[..k - 1] + [s[k - 1]] == s[..k]
  {
  }

  /** Once every index has arrived, every slot holds its piece. */
  lemma AllArrived(pieces: seq<string>, order: seq<nat>)
    requires IsPermutation(order, |pieces|)
    ensures AllReceived(Filled(pieces, order)) && JoinSlots(Filled(pieces, order)) == Concat(pieces)
  {
    var after := Filled(pieces, order);
    assert forall i :: 0 <= i < |pieces| ==> after[i] == Some(pieces[i]);
    JoinSlotsOfPieces(after, pieces);
  }

  /** An arrival after which every slot is filled completes the transfer with the joined slots
      and leaves the table as it was before the transfer began. */
  lemma CompletingArrival(table: map<string, Transfer>, kind: Kind, session: string, sender: string,
                          recipient: Option<string>, filename: Option<string>,
                          pieces: seq<string>, arrived: seq<nat>, i: nat, now: int, payload: string)
    requires Key(sender, session) !in table
    requires i < |pieces|
    requires AllReceived(Filled(pieces, arrived + [i])) && JoinSlots(Filled(pieces, arrived + [i])) == payload
    ensures var before := if |arrived| == 0 then table
                          else table[Key(sender, session) := Transfer(sender, recipient, filename, now, Filled(pieces, arrived))];
            Accept(before, Chunk(kind, session, i, |pieces|, filename, recipient, sender, pieces[i]), now)
              == Step(table, Some(Completed(kind, sender, recipient, filename, payload)))
  {
    AcceptArrival(table, kind, session, sender, recipient, filename, pieces, arrived, i, now);
  }

  /** The last arrival fills the last empty slot and completes the transfer. */
  lemma LastArrival(table: map<string, Transfer>, kind: Kind, session: string, sender: string,
                    recipient: Option<string>, filename: Option<string>,
                    pieces: seq<string>, order: seq<nat>, now: int)
    requires Key(sender, session) !in table
    requires |pieces| >= 1 && IsPermutation(order, |pieces|)
    ensures var n := |pieces|;
            var before := if n == 1 then table
                          else table[Key(sender, session) := Transfer(sender, recipient, filename, now, Filled(pieces, order[..n - 1]))];
            Accept(before, Arrivals(kind, session, sender, recipient, filename, pieces, order)[n - 1], now)
              == Step(table, Some(Completed(kind, sender, recipient, filename, Concat(pieces))))
  {
    var n := |pieces|;
    var init, last := order[..n - 1], order[n - 1];
    InitLast(order, n);
    assert order[..n] == order;
    ArrivalAt(kind, session, sender, recipient, filename, pieces, order, n - 1);
    AllArrived(pieces, order);
    CompletingArrival(table, kind, session, sender, recipient, filename, pieces, init, last, now, Concat(pieces));
  }

  /** However the chunks of one transfer are ordered on arrival, nothing completes before the
      last of them, the last completes the transfer with the pieces joined in index order, and the
      table ends as it began. */
  lemma AnyOrderReassembles(table: map<string, Transfer>, kind: Kind, session: string, sender: string,
                            recipient: Option<string>, filename: Option<string>,
                            pieces: seq<string>, order: seq<nat>, now: int)
    requires Key(sender, session) !in table
    requires |pieces| >= 1 && IsPermutation(order, |pieces|)
    ensures Run(table, Arrivals(kind, session, sender, recipient, filename, pieces, order), now)
         == Trace(table, [Completed(kind, sender, recipient, filename, Concat(pieces))])
  {
    var cs := Arrivals(kind, session, sender, recipient, filename, pieces, order);
    var n := |pieces|;
    var before := if n == 1 then table
                  else table[Key(sender, session) := Transfer(sender, recipient, filename, now, Filled(pieces, order[..n - 1]))];
    var last := Step(table, Some(Completed(kind, sender, recipient, filename, Concat(pieces))));
    RunPrefix(table, kind, session, sender, recipient, filename, pieces, order, now, n - 1);
    LastArrival(table, kind, session, sender, recipient, filename, pieces, order, now);
    RunLast(table, cs, n, now, before, last);
    assert cs[..n] == cs;
  }

  // ---------------------------------------------------------------------------------------------
  // Expiry

  /** The age in milliseconds past which a buffer counts as expired. */
  function Timeout(kind: Kind): int {
    match kind
    case Voice => 120000
    case File => 60000
    case Image => 30000
  }

  /** `isExpired`, with the clock reading passed in. */
  predicate Expired(kind: Kind, createdTime: int, now: int) {
    now - createdTime > Timeout(kind)
  }

  /** A buffer is not yet expired at exactly its timeout, and is one millisecond later; once
      expired it stays expired. */
  lemma ExpiryBoundary(kind: Kind, createdTime: int, now: int, later: int)
    requires Expired(kind, createdTime, now) && now <= later
    ensures Expired(kind, createdTime, later)
    ensures !Expired(kind, createdTime, createdTime + Timeout(kind))
    ensures Expired(kind, createdTime, createdTime + Timeout(kind) + 1)
  {
  }

  /** `Accept` spelled out for the buffer `t` it finds or allocates and the slots it stores. */
  lemma AcceptUnfold(table: map<string, Transfer>, c: Chunk, now: int, t: Transfer, slots: seq<Option<string>>)
    requires t == if Key(c.sender, c.session) in table then table[Key(c.sender, c.session)] else NewTransfer(c, now)
    requires slots == SetSlot(t.slots, c.index, c.data)
    ensures Accept(table, c, now)
         == if AllReceived(slots)
            then Step(table - {Key(c.sender, c.session)}, Some(Completed(c.kind, c.sender, c.recipient, c.filename, JoinSlots(slots))))
            else Step(table[Key(c.sender, c.session) := t.(slots := slots)], None)
  {
  }

  lemma UpdateTwice<K, V>(m: map<K, V>, k: K, v: V, w: V)
    ensures m[k := v][k := w] == m[k := w]
  {
  }

  lemma UpdateRemove<K, V>(m: map<K, V>, k: K, v: V)
    ensures m[k := v] - {k} == m - {k}
  {
  }

  // ---------------------------------------------------------------------------------------------
  // The buffers, as the client holds them

  /** One `*ChunkBuffer`: the frame's fields, a creation time, and two arrays kept in step. */
  class ChunkBuffer {
    const kind: Kind
    const sender: string
    const recipient: Option<string>
    const filename: Option<string>
    const createdTime: int
    const chunks: array<Option<string>>
    const received: array<bool>

    /** `received[i]` is set exactly for the slots that hold data. */
    ghost predicate Valid()
      reads chunks, received
    {
      && chunks.Length == received.Length
      && forall i :: 0 <= i < chunks.Length ==> (received[i] <==> chunks[i].Some?)
    }

    function State(): Transfer
      reads chunks
    {
      Transfer(sender, recipient, filename, createdTime, chunks[..])
    }

    constructor(kind: Kind, totalChunks: nat, sender: string, recipient: Option<string>,
                filename: Option<string>, now: int)
      ensures Valid() && fresh(chunks) && fresh(received)
      ensures this.kind == kind
      ensures State() == Transfer(sender, recipient, filename, now, EmptySlots(totalChunks))
    {
      this.kind := kind;
      this.sender := sender;
      this.recipient := recipient;
      this.filename := filename;
      this.createdTime := now;
      chunks := new Option<string>[totalChunks](_ => None);
      received := new bool[totalChunks](_ => false);
    }

    /** `setChunk`: stores `data` at `index` and marks it received when the index is inside the
        arrays; otherwise nothing changes. */
    method SetChunk(index: nat, data: string)
      requires Valid()
      modifies chunks, received
      ensures Valid()
      ensures chunks[..] == SetSlot(old(chunks[..]), index, data)
    {
      if index < chunks.Length {
        chunks[index] := Some(data);
        received[index] := true;
      }
    }

    /** `isComplete`: scans `received` and answers whether every slot has data. */
    method IsComplete() returns (b: bool)
      requires Valid()
      ensures b == AllReceived(chunks[..])
    {
      var i := 0;
      while i < received.Length
        invariant 0 <= i <= received.Length
        invariant forall j :: 0 <= j < i ==> chunks[j].Some?
      {
        if !received[i] {
          return false;
        }
        i := i + 1;
      }
      return true;
    }

    /** `getCompleteData`: appends every slot's text in index order. */
    method GetCompleteData() returns (s: string)
      ensures s == JoinSlots(chunks[..])
    {
      s := "";
      var i := 0;
      while i < chunks.Length
        invariant 0 <= i <= chunks.Length
        invariant s == JoinSlots(chunks[..i])
      {
        assert chunks[..i + 1][..i] == chunks[..i];
        s := s + SlotText(chunks[i]);
        i := i + 1;
      }
      assert chunks[..chunks.Length] == chunks[..];
    }

    /** `isExpired`, with the clock reading passed in. */
    predicate IsExpired(now: int) {
      Expired(kind, createdTime, now)
    }
  }

  /** The `imageChunks`/`fileChunks`/`voiceChunks` map of one kind. */
  class ChunkTable {
    const kind: Kind
    var buffers: map<string, ChunkBuffer>
    /** The abstract table: each key's transfer. */
    ghost var transfers: map<string, Transfer>
    /** The key whose buffer each array belongs to. */
    ghost var owner: map<object, string>

    /** Every buffer is of this table's kind, well formed, owns its arrays (each array belongs to
        the key it is stored under), and holds the transfer `transfers` records for its key. */
    ghost predicate Valid()
      reads this, owner.Keys
    {
      && (forall k :: k in buffers ==>
            && buffers[k].kind == kind
            && buffers[k].chunks in owner && owner[buffers[k].chunks] == k
            && buffers[k].received in owner && owner[buffers[k].received] == k)
      && buffers.Keys == transfers.Keys
      && (forall k :: k in buffers ==> buffers[k].Valid() && buffers[k].State() == transfers[k])
    }

    constructor(kind: Kind)
      ensures Valid()
      ensures this.kind == kind && transfers == map[] && owner == map[]
    {
      this.kind := kind;
      buffers := map[];
      transfers := map[];
      owner := map[];
    }

    /** `map.put` of a buffer the table does not yet hold, under a key not yet in use. */
    method Insert(key: string, buffer: ChunkBuffer)
      requires Valid() && key !in buffers
      requires buffer.Valid() && buffer.kind == kind
      requires buffer.chunks !in owner && buffer.received !in owner
      modifies this
      ensures Valid()
      ensures buffers == old(buffers)[key := buffer]
      ensures transfers == old(transfers)[key := buffer.State()]
      ensures owner == old(owner)[buffer.chunks := key][buffer.received := key]
    {
      buffers := buffers[key := buffer];
      transfers := transfers[key := buffer.State()];
      owner := owner[buffer.chunks := key][buffer.received := key];
      forall k | k in buffers && k != key
        ensures owner[buffers[k].chunks] == k && owner[buffers[k].received] == k
        ensures buffers[k].Valid() && buffers[k].State() == transfers[k]
      {
        assert buffers[k] == old(buffers[k]) && transfers[k] == old(transfers[k]);
        assert buffers[k].chunks in old(owner) && buffers[k].received in old(owner);
      }
    }

    /** `setChunk` on the buffer under `key`; every other buffer is untouched. */
    method Store(key: string, index: nat, data: string)
      requires Valid() && key in buffers
      modifies this, buffers[key].chunks, buffers[key].received
      ensures Valid()
      ensures buffers == old(buffers) && owner == old(owner)
      ensures transfers == old(transfers)[key := old(transfers)[key].(slots := SetSlot(old(transfers)[key].slots, index, data))]
    {
      var buffer := buffers[key];
      buffer.SetChunk(index, data);
      transfers := transfers[key := buffer.State()];
      forall k | k in buffers && k != key
        ensures buffers[k].Valid() && buffers[k].State() == transfers[k]
      {
        assert buffers[k].chunks != buffer.chunks && buffers[k].received != buffer.received;
      }
    }

    /** `isComplete` on the buffer under `key`. */
    method IsFull(key: string) returns (complete: bool)
      requires Valid() && key in buffers
      ensures Valid()
      ensures complete == AllReceived(transfers[key].slots)
    {
      complete := buffers[key].IsComplete();
    }

    /** `getCompleteData` on the buffer under `key`. */
    method Collect(key: string) returns (data: string)
      requires Valid() && key in buffers
      ensures Valid()
      ensures data == JoinSlots(transfers[key].slots)
    {
      data := buffers[key].GetCompleteData();
    }

    /** `map.remove` of a key the table holds. */
    method Remove(key: string)
      requires Valid() && key in buffers
      modifies this
      ensures Valid()
      ensures buffers == old(buffers) - {key} && owner == old(owner)
      ensures transfers == old(transfers) - {key}
    {
      buffers := buffers - {key};
      transfers := transfers - {key};
      forall k | k in buffers
        ensures buffers[k].Valid() && buffers[k].State() == transfers[k]
      {
        assert buffers[k] == old(buffers[k]) && transfers[k] == old(transfers[k]);
      }
    }

    /** The first half of `handle*Chunk` after validation: the buffer under the chunk's key,
        allocated with the chunk's TOTAL when the key is new. */
    method Open(c: Chunk, now: int)
      requires Valid() && c.kind == kind
      modifies this
      ensures Valid()
      ensures Key(c.sender, c.session) in buffers
      ensures forall o :: o in owner ==> o in old(owner) || fresh(o)
      ensures var key := Key(c.sender, c.session);
              transfers == old(transfers)[key := if key in old(transfers) then old(transfers)[key] else NewTransfer(c, now)]
    {
      var key := Key(c.sender, c.session);
      if key !in buffers {
        var created := new ChunkBuffer(c.kind, c.total, c.sender, c.recipient, c.filename, now);
        Insert(key, created);
      } else {
        assert transfers == old(transfers)[key := old(transfers)[key]];
      }
    }

    /** The part of `handle*Chunk` after validation: get or create the buffer, set the chunk, and
        on completion remove the key and return the reassembled payload. */
    method Ingest(c: Chunk, now: int) returns (done: Option<Completed>)
      requires Valid() && c.kind == kind
      modifies this, owner.Keys
      ensures Valid()
      ensures forall o :: o in owner ==> o in old(owner) || fresh(o)
      ensures Step(transfers, done) == Accept(old(transfers), c, now)
    {
      var key := Key(c.sender, c.session);
      ghost var t := if key in transfers then transfers[key] else NewTransfer(c, now);
      ghost var slots := SetSlot(t.slots, c.index, c.data);
      AcceptUnfold(transfers, c, now, t, slots);
      Open(c, now);
      Store(key, c.index, c.data);
      UpdateTwice(old(transfers), key, t, t.(slots := slots));
      var complete := IsFull(key);
      if complete {
        var data := Collect(key);
        Remove(key);
        done := Some(Completed(c.kind, c.sender, c.recipient, c.filename, data));
        UpdateRemove(old(transfers), key, t.(slots := slots));
      } else {
        done := None;
      }
    }
  }
}
