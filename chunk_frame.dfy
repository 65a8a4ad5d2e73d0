/** Chunk frames: how a client cuts a base64 payload into pieces and frames each one, and how a
    receiving client reads a frame back into its fields. */
module ChunkFrame {
  import opened Wrappers
  import opened Text
  import opened Decimal
  import Int32
  import FileTransfer

  /** The three payload kinds, each with its own frame tag. */
  datatype Kind = Image | File | Voice

  /** The leading tag of a chunk frame, including the separator after it. */
  function Tag(kind: Kind): string {
    match kind
    case Image => "IMGCHUNK|"
    case File => "FILECHUNK|"
    case Voice => "VOICECHUNK|"
  }

  /** Characters of base64 text the sender puts in one frame. */
  function PieceSize(kind: Kind): (n: nat)
    ensures n > 0
  {
    match kind
    case Image => 500
    case File => FileTransfer.ChunkSize
    case Voice => 400
  }

  // ---------------------------------------------------------------------------------------------
  // Splitting

  /** `(length + chunkSize - 1) / chunkSize`: the number of pieces. */
  function ChunkCount(length: nat, size: nat): nat
    requires size > 0
  {
    (length + size - 1) / size
  }

  lemma ChunkCountBounds(length: nat, size: nat)
    requires size > 0
    ensures ChunkCount(length, size) * size >= length
    ensures ChunkCount(length, size) > 0 ==> (ChunkCount(length, size) - 1) * size < length
    ensures length == 0 <==> ChunkCount(length, size) == 0
  {
    var x := length + size - 1;
    var q, r := x / size, x % size;
    assert x == q * size + r && 0 <= r < size;
  }

  lemma PieceStartInside(length: nat, size: nat, i: nat)
    requires size > 0 && i < ChunkCount(length, size)
    ensures i * size < length
  {
    var n := ChunkCount(length, size);
    ChunkCountBounds(length, size);
    assert (n - 1 - i) * size >= 0;
    assert i * size <= (n - 1) * size;
  }

  function Min(a: int, b: int): int {
    if a <= b then a else b
  }

  /** Piece `i`: the text from `i * size` up to `i * size + size` or the end, whichever is first. */
  function Piece(s: string, size: nat, i: nat): string
    requires size > 0 && i < ChunkCount(|s|, size)
  {
    PieceStartInside(|s|, size, i);
    s[i * size .. Min(i * size + size, |s|)]
  }

  /** Every piece is non-empty and at most `size` characters long. */
  lemma PieceLength(s: string, size: nat, i: nat)
    requires size > 0 && i < ChunkCount(|s|, size)
    ensures 1 <= |Piece(s, size, i)| <= size
  {
    PieceStartInside(|s|, size, i);
  }

  /** The pieces of `s` in index order, one per frame. */
  function Pieces(s: string, size: nat): (ps: seq<string>)
    requires size > 0
    ensures |ps| == ChunkCount(|s|, size)
  {
    seq(ChunkCount(|s|, size), i requires 0 <= i < ChunkCount(|s|, size) => Piece(s, size, i))
  }

  /** The strings of `ps` one after the other. */
  function Concat(ps: seq<string>): string {
    if ps == [] then "" else Concat(ps[..|ps| - 1]) + ps[|ps| - 1]
  }

  lemma {:induction false} ConcatCons(p: string, ps: seq<string>)
    ensures Concat([p] + ps) == p + Concat(ps)
    decreases |ps|
  {
    if ps != [] {
      var qs := [p] + ps;
      assert qs[..|qs| - 1] == [p] + ps[..|ps| - 1];
      ConcatCons(p, ps[..|ps| - 1]);
    } else {
      assert [p] + ps == [p];
      assert [p][..0] == [];
    }
  }

  lemma MulAtLeast(a: int, b: int)
    requires a >= 1 && b > 0
    ensures a * b >= b
  {
  }

  /** Euclidean division has one quotient: the `q` of any `x == q * b + r` with `0 <= r < b`. */
  lemma DivUnique(x: int, b: int, q: int, r: int)
    requires b > 0 && 0 <= r < b && x == q * b + r
    ensures x / b == q
  {
    var d, m := x / b, x % b;
    assert x == d * b + m && 0 <= m < b;
    assert (d - q) * b == r - m;
    assert d - q >= 1 ==> (d - q) * b >= b by {
      if d - q >= 1 { MulAtLeast(d - q, b); }
    }
    assert q - d >= 1 ==> (q - d) * b >= b by {
      if q - d >= 1 { MulAtLeast(q - d, b); }
    }
  }

  lemma DivStep(x: nat, size: nat)
    requires size > 0
    ensures (x + size) / size == x / size + 1
  {
    var q, r := x / size, x % size;
    assert x == q * size + r && 0 <= r < size;
    MulSucc(q, size);
    DivUnique(x + size, size, q + 1, r);
  }

  lemma ChunkCountStep(length: nat, size: nat)
    requires 0 < size < length
    ensures ChunkCount(length, size) == ChunkCount(length - size, size) + 1
  {
    DivStep(length - size + size - 1, size);
  }

  lemma ChunkCountOne(length: nat, size: nat)
    requires 0 < length <= size
    ensures ChunkCount(length, size) == 1
  {
    DivUnique(length + size - 1, size, 1, length - 1);
  }

  /** Past the first piece, the pieces of `s` are the pieces of the rest of `s`. */
  lemma PieceShift(s: string, size: nat, i: nat)
    requires 0 < size < |s| && i + 1 < ChunkCount(|s|, size)
    ensures ChunkCount(|s| - size, size) == ChunkCount(|s|, size) - 1
    ensures Piece(s, size, i + 1) == Piece(s[size..], size, i)
  {
    ChunkCountStep(|s|, size);
    MulSucc(i, size);
    PieceStartInside(|s| - size, size, i);
    var a := i * size;
    var e := Min(a + size, |s| - size);
    assert Min(a + size + size, |s|) == size + e;
    assert s[size..][a..e] == s[size + a..size + e];
  }

  lemma MulSucc(a: nat, b: nat)
    ensures (a + 1) * b == a * b + b
  {
  }

  lemma PiecesCons(s: string, size: nat)
    requires 0 < size < |s|
    ensures Pieces(s, size) == [s[..size]] + Pieces(s[size..], size)
  {
    var ps, rest := Pieces(s, size), Pieces(s[size..], size);
    ChunkCountStep(|s|, size);
    assert Piece(s, size, 0) == s[..size];
    forall i | 0 <= i < |rest| ensures ps[i + 1] == rest[i] {
      PieceShift(s, size, i);
    }
  }

  /** The pieces put back together in index order are the original text, and an empty text has no
      pieces at all. */
  lemma {:induction false} PiecesConcat(s: string, size: nat)
    requires size > 0
    ensures Concat(Pieces(s, size)) == s
    ensures s == [] <==> Pieces(s, size) == []
    decreases |s|
  {
    if |s| == 0 {
      assert ChunkCount(0, size) == 0 by {
        DivUnique(size - 1, size, 0, size - 1);
      }
    } else if |s| <= size {
      assert Pieces(s, size) == [s] by {
        ChunkCountOne(|s|, size);
        assert 0 * size == 0;
        assert Piece(s, size, 0) == s[0..Min(size, |s|)];
        assert Pieces(s, size)[0] == s;
      }
      assert [s][..0] == [];
    } else {
      var rest := Pieces(s[size..], size);
      assert Pieces(s, size) == [s[..size]] + rest by {
        PiecesCons(s, size);
      }
      assert Concat(rest) == s[size..] by {
        PiecesConcat(s[size..], size);
      }
      ConcatCons(s[..size], rest);
      assert s[..size] + s[size..] == s;
    }
  }

  // ---------------------------------------------------------------------------------------------
  // Frames

  /** The fields one chunk frame carries. `filename` is present exactly for file chunks, and
      `recipient` is present for a private transfer. */
  datatype Chunk = Chunk(
    kind: Kind,
    session: string,
    index: nat,
    total: nat,
    filename: Option<string>,
    recipient: Option<string>,
    sender: string,
    data: string)

  /** The frame text the sender builds:
      `KIND|SESSION:s|CHUNK:i|TOTAL:n|[FILENAME:f|][TO:r|]FROM:u|DATA:d`. */
  function Encode(c: Chunk): string {
    Frame(Tag(c.kind), c.session, NatToString(c.index), NatToString(c.total), c.filename, c.recipient, c.sender, c.data)
  }

  /** The string concatenation that builds a frame, with the numbers already in decimal. */
  function Frame(tag: string, session: string, index: string, total: string,
                 filename: Option<string>, recipient: Option<string>, sender: string, data: string): string
  {
    tag + "SESSION:" + session + "|CHUNK:" + index + "|TOTAL:" + total
      + (if filename.Some? then "|FILENAME:" + filename.value else "")
      + (if recipient.Some? then "|TO:" + recipient.value else "")
      + "|FROM:" + sender + "|DATA:" + data
  }

  /** A one-element list holding `key + v` when `v` is present, otherwise empty. */
  function OptionalPart(key: string, v: Option<string>): (ps: seq<string>)
    ensures |ps| == if v.Some? then 1 else 0
  {
    if v.Some? then [key + v.value] else []
  }

  /** The `KEY:VALUE` parts of a frame, in the order the sender writes them. */
  function Parts(c: Chunk): (ps: seq<string>)
    ensures |ps| >= 5
  {
    FrameParts(c.session, NatToString(c.index), NatToString(c.total), c.filename, c.recipient, c.sender, c.data)
  }

  function FrameParts(session: string, index: string, total: string,
                      filename: Option<string>, recipient: Option<string>, sender: string, data: string): (ps: seq<string>)
    ensures |ps| >= 5
  {
    ["SESSION:" + session, "CHUNK:" + index, "TOTAL:" + total]
      + OptionalPart("FILENAME:", filename) + OptionalPart("TO:", recipient)
      + ["FROM:" + sender, "DATA:" + data]
  }

  lemma JoinCons(a: string, rest: seq<string>, sep: char)
    requires rest != []
    ensures JoinWith([a] + rest, sep) == a + [sep] + JoinWith(rest, sep)
  {
    assert ([a] + rest)[1..] == rest;
  }

  lemma JoinOptionalPart(key: string, barKey: string, v: Option<string>, rest: seq<string>)
    requires rest != [] && barKey == "|" + key
    ensures "|" + JoinWith(OptionalPart(key, v) + rest, '|')
         == (if v.Some? then barKey + v.value else "") + ("|" + JoinWith(rest, '|'))
  {
    if v.Some? {
      assert OptionalPart(key, v) + rest == [key + v.value] + rest;
      JoinCons(key + v.value, rest, '|');
    } else {
      assert OptionalPart(key, v) + rest == rest;
    }
  }

  lemma Regroup(tag: string, s: string, c: string, t: string, f: string, r: string, u: string, d: string)
    ensures tag + "SESSION:" + s + "|CHUNK:" + c + "|TOTAL:" + t + f + r + "|FROM:" + u + "|DATA:" + d
         == tag + (("SESSION:" + s) + "|" + (("CHUNK:" + c) + "|" + (("TOTAL:" + t) + (f + (r + ("|" + (("FROM:" + u) + "|" + ("DATA:" + d))))))))
  {
  }

  lemma JoinThree(a: string, b: string, c: string, rest: seq<string>)
    requires rest != []
    ensures JoinWith([a] + ([b] + ([c] + rest)), '|') == a + "|" + (b + "|" + (c + ("|" + JoinWith(rest, '|'))))
  {
    JoinCons(c, rest, '|');
    JoinCons(b, [c] + rest, '|');
    JoinCons(a, [b] + ([c] + rest), '|');
  }

  lemma JoinOptionalTail(filename: Option<string>, recipient: Option<string>, u: string, d: string)
    ensures "|" + JoinWith(OptionalPart("FILENAME:", filename) + (OptionalPart("TO:", recipient) + [u, d]), '|')
         == (if filename.Some? then "|FILENAME:" + filename.value else "")
            + ((if recipient.Some? then "|TO:" + recipient.value else "") + ("|" + (u + "|" + d)))
  {
    var toPart := OptionalPart("TO:", recipient) + [u, d];
    var fileText := if filename.Some? then "|FILENAME:" + filename.value else "";
    var toText := if recipient.Some? then "|TO:" + recipient.value else "";
    assert "|" + JoinWith([u, d], '|') == "|" + (u + "|" + d) by { JoinCons(u, [d], '|'); }
    assert "|" + JoinWith(toPart, '|') == toText + ("|" + JoinWith([u, d], '|')) by {
      JoinOptionalPart("TO:", "|TO:", recipient, [u, d]);
    }
    assert "|" + JoinWith(OptionalPart("FILENAME:", filename) + toPart, '|') == fileText + ("|" + JoinWith(toPart, '|')) by {
      JoinOptionalPart("FILENAME:", "|FILENAME:", filename, toPart);
    }
  }

  lemma JoinFrameParts(session: string, index: string, total: string,
                       filename: Option<string>, recipient: Option<string>, sender: string, data: string)
    ensures JoinWith(FrameParts(session, index, total, filename, recipient, sender, data), '|')
         == ("SESSION:" + session) + "|" + (("CHUNK:" + index) + "|" + (("TOTAL:" + total)
              + ((if filename.Some? then "|FILENAME:" + filename.value else "")
              + ((if recipient.Some? then "|TO:" + recipient.value else "")
              + ("|" + (("FROM:" + sender) + "|" + ("DATA:" + data)))))))
  {
    var u, d := "FROM:" + sender, "DATA:" + data;
    var rest := OptionalPart("FILENAME:", filename) + (OptionalPart("TO:", recipient) + [u, d]);
    assert FrameParts(session, index, total, filename, recipient, sender, data)
        == ["SESSION:" + session] + (["CHUNK:" + index] + (["TOTAL:" + total] + rest));
    JoinThree("SESSION:" + session, "CHUNK:" + index, "TOTAL:" + total, rest);
    JoinOptionalTail(filename, recipient, u, d);
  }

  /** The frame concatenation is the tag followed by the parts joined with '|'. */
  lemma FrameIsJoinedParts(tag: string, session: string, index: string, total: string,
                           filename: Option<string>, recipient: Option<string>, sender: string, data: string)
    ensures Frame(tag, session, index, total, filename, recipient, sender, data)
         == tag + JoinWith(FrameParts(session, index, total, filename, recipient, sender, data), '|')
  {
    JoinFrameParts(session, index, total, filename, recipient, sender, data);
    Regroup(tag, session, index, total,
            if filename.Some? then "|FILENAME:" + filename.value else "",
            if recipient.Some? then "|TO:" + recipient.value else "", sender, data);
  }

  /** A frame is its tag followed by its parts joined with '|'. */
  lemma EncodeIsJoinedParts(c: Chunk)
    ensures Encode(c) == Tag(c.kind) + JoinWith(Parts(c), '|')
  {
    FrameIsJoinedParts(Tag(c.kind), c.session, NatToString(c.index), NatToString(c.total),
                       c.filename, c.recipient, c.sender, c.data);
  }

  /** The values a frame carries contain no '|', and the numbers fit in an `int`. */
  predicate WellFormed(c: Chunk) {
    && '|' !in c.session && '|' !in c.sender && '|' !in c.data
    && (c.filename.Some? ==> '|' !in c.filename.value)
    && (c.recipient.Some? ==> '|' !in c.recipient.value)
    && c.index <= Int32.Max && c.total <= Int32.Max
    && (c.kind == File <==> c.filename.Some?)
  }

  // ---------------------------------------------------------------------------------------------
  // Parsing, as the receiving client does it

  /** The receiver's local variables while it scans the parts; -1 and `None` mean "not seen". */
  datatype Fields = Fields(
    session: Option<string>,
    chunk: int,
    total: int,
    filename: Option<string>,
    sender: Option<string>,
    recipient: Option<string>,
    data: Option<string>)

  const Unset: Fields := Fields(None, -1, -1, None, None, None, None)

  /** One step of the scan: the part is matched by key prefix and its value stored (so a later
      duplicate overrides an earlier one); only file frames know FILENAME; an unknown part is
      skipped. `None` is the NumberFormatException of a non-numeric CHUNK or TOTAL. */
  function ReadPart(kind: Kind, f: Fields, part: string): Option<Fields> {
    if StartsWith(part, "SESSION:") then Some(f.(session := Some(part[8..])))
    else if StartsWith(part, "CHUNK:") then
      match ParseInt(part[6..])
      case None => None
      case Some(n) => Some(f.(chunk := n))
    else if StartsWith(part, "TOTAL:") then
      match ParseInt(part[6..])
      case None => None
      case Some(n) => Some(f.(total := n))
    else if kind == File && StartsWith(part, "FILENAME:") then Some(f.(filename := Some(part[9..])))
    else if StartsWith(part, "FROM:") then Some(f.(sender := Some(part[5..])))
    else if StartsWith(part, "TO:") then Some(f.(recipient := Some(part[3..])))
    else if StartsWith(part, "DATA:") then Some(f.(data := Some(part[5..])))
    else Some(f)
  }

  /** The scan over all parts, stopping at the first exception. */
  function ReadParts(kind: Kind, f: Fields, parts: seq<string>): Option<Fields>
    decreases |parts|
  {
    if parts == [] then Some(f)
    else
      match ReadPart(kind, f, parts[0])
      case None => None
      case Some(g) => ReadParts(kind, g, parts[1..])
  }

  /** The validation after the scan: SESSION, FROM and DATA (and FILENAME for a file) must have
      been seen, and CHUNK and TOTAL must be non-negative. */
  function Validate(kind: Kind, f: Fields): (r: Option<Chunk>)
    ensures r.Some? <==> (f.session.Some? && f.chunk >= 0 && f.total >= 0 && f.sender.Some?
                          && (kind == File ==> f.filename.Some?) && f.data.Some?)
  {
    if f.session.None? || f.chunk < 0 || f.total < 0 || f.sender.None?
       || (kind == File && f.filename.None?) || f.data.None?
    then None
    else Some(Chunk(kind, f.session.value, f.chunk, f.total, f.filename, f.recipient, f.sender.value, f.data.value))
  }

  /** `handle*Chunk` up to the buffer: strip the tag, split on '|', scan and validate. `None`
      is a rejected frame (the error message path, or the caught exception). */
  function Parse(kind: Kind, line: string): (r: Option<Chunk>)
    requires StartsWith(line, Tag(kind))
    ensures r.Some? ==> r.value.kind == kind
    ensures r.Some? ==> (r.value.filename.Some? <==> kind == File)
    ensures r.Some? ==> r.value.index <= Int32.Max && r.value.total <= Int32.Max
  {
    var parts := JavaSplit(line[|Tag(kind)|..], '|');
    ReadPartsKeepsShape(kind, Unset, parts);
    match ReadParts(kind, Unset, parts)
    case None => None
    case Some(f) => Validate(kind, f)
  }

  /** What the scan can and cannot produce: a file name only for files, numbers in `int` range. */
  predicate Shaped(kind: Kind, f: Fields) {
    && (kind != File ==> f.filename.None?)
    && Int32.InRange(f.chunk) && Int32.InRange(f.total)
  }

  lemma {:induction false} ReadPartsKeepsShape(kind: Kind, f: Fields, parts: seq<string>)
    requires Shaped(kind, f)
    ensures ReadParts(kind, f, parts).Some? ==> Shaped(kind, ReadParts(kind, f, parts).value)
    decreases |parts|
  {
    if parts != [] {
      match ReadPart(kind, f, parts[0])
      case None =>
      case Some(g) => ReadPartsKeepsShape(kind, g, parts[1..]);
    }
  }

  // ---------------------------------------------------------------------------------------------
  // Round trip

  lemma ReadSession(kind: Kind, f: Fields, v: string)
    ensures ReadPart(kind, f, "SESSION:" + v) == Some(f.(session := Some(v)))
  {
    StartsWithConcat("SESSION:", v);
    assert ("SESSION:" + v)[8..] == v;
  }

  lemma ReadChunkNumber(kind: Kind, f: Fields, text: string, n: int)
    requires ParseInt(text) == Some(n)
    ensures ReadPart(kind, f, "CHUNK:" + text) == Some(f.(chunk := n))
  {
    var p := "CHUNK:" + text;
    NotStartsWithAt(p, "SESSION:", 0);
    StartsWithConcat("CHUNK:", text);
    assert p[6..] == text;
  }

  lemma ReadTotal(kind: Kind, f: Fields, text: string, n: int)
    requires ParseInt(text) == Some(n)
    ensures ReadPart(kind, f, "TOTAL:" + text) == Some(f.(total := n))
  {
    var p := "TOTAL:" + text;
    NotStartsWithAt(p, "SESSION:", 0);
    NotStartsWithAt(p, "CHUNK:", 0);
    StartsWithConcat("TOTAL:", text);
    assert p[6..] == text;
  }

  lemma ReadFilename(f: Fields, v: string)
    ensures ReadPart(File, f, "FILENAME:" + v) == Some(f.(filename := Some(v)))
  {
    var p := "FILENAME:" + v;
    NotStartsWithAt(p, "SESSION:", 0);
    NotStartsWithAt(p, "CHUNK:", 0);
    NotStartsWithAt(p, "TOTAL:", 0);
    StartsWithConcat("FILENAME:", v);
    assert p[9..] == v;
  }

  lemma ReadRecipient(kind: Kind, f: Fields, v: string)
    ensures ReadPart(kind, f, "TO:" + v) == Some(f.(recipient := Some(v)))
  {
    var p := "TO:" + v;
    NotStartsWithAt(p, "SESSION:", 0);
    NotStartsWithAt(p, "CHUNK:", 0);
    NotStartsWithAt(p, "TOTAL:", 2);
    NotStartsWithAt(p, "FILENAME:", 0);
    NotStartsWithAt(p, "FROM:", 0);
    StartsWithConcat("TO:", v);
    assert p[3..] == v;
  }

  lemma ReadSender(kind: Kind, f: Fields, v: string)
    ensures ReadPart(kind, f, "FROM:" + v) == Some(f.(sender := Some(v)))
  {
    var p := "FROM:" + v;
    NotStartsWithAt(p, "SESSION:", 0);
    NotStartsWithAt(p, "CHUNK:", 0);
    NotStartsWithAt(p, "TOTAL:", 0);
    NotStartsWithAt(p, "FILENAME:", 1);
    StartsWithConcat("FROM:", v);
    assert p[5..] == v;
  }

  lemma ReadData(kind: Kind, f: Fields, v: string)
    ensures ReadPart(kind, f, "DATA:" + v) == Some(f.(data := Some(v)))
  {
    var p := "DATA:" + v;
    NotStartsWithAt(p, "SESSION:", 0);
    NotStartsWithAt(p, "CHUNK:", 0);
    NotStartsWithAt(p, "TOTAL:", 0);
    NotStartsWithAt(p, "FILENAME:", 0);
    NotStartsWithAt(p, "FROM:", 0);
    NotStartsWithAt(p, "TO:", 0);
    StartsWithConcat("DATA:", v);
    assert p[5..] == v;
  }

  lemma ReadPartsCons(kind: Kind, f: Fields, p: string, rest: seq<string>, g: Fields)
    requires ReadPart(kind, f, p) == Some(g)
    ensures ReadParts(kind, f, [p] + rest) == ReadParts(kind, g, rest)
  {
    assert ([p] + rest)[1..] == rest;
  }

  lemma ReadTail(kind: Kind, f: Fields, sender: string, data: string)
    ensures ReadParts(kind, f, ["FROM:" + sender, "DATA:" + data])
         == Some(f.(sender := Some(sender)).(data := Some(data)))
  {
    var g := f.(sender := Some(sender));
    ReadData(kind, g, data);
    ReadPartsCons(kind, g, "DATA:" + data, [], g.(data := Some(data)));
    ReadSender(kind, f, sender);
    ReadPartsCons(kind, f, "FROM:" + sender, ["DATA:" + data], g);
  }

  lemma ReadOptionalRecipient(kind: Kind, f: Fields, r: Option<string>, rest: seq<string>)
    ensures ReadParts(kind, f, OptionalPart("TO:", r) + rest)
         == ReadParts(kind, if r.Some? then f.(recipient := r) else f, rest)
  {
    if r.Some? {
      assert OptionalPart("TO:", r) + rest == ["TO:" + r.value] + rest;
      ReadRecipient(kind, f, r.value);
      ReadPartsCons(kind, f, "TO:" + r.value, rest, f.(recipient := r));
    } else {
      assert OptionalPart("TO:", r) + rest == rest;
    }
  }

  lemma ReadOptionalFilename(kind: Kind, f: Fields, n: Option<string>, rest: seq<string>)
    requires n.Some? ==> kind == File
    ensures ReadParts(kind, f, OptionalPart("FILENAME:", n) + rest)
         == ReadParts(kind, if n.Some? then f.(filename := n) else f, rest)
  {
    if n.Some? {
      assert OptionalPart("FILENAME:", n) + rest == ["FILENAME:" + n.value] + rest;
      ReadFilename(f, n.value);
      ReadPartsCons(kind, f, "FILENAME:" + n.value, rest, f.(filename := n));
    } else {
      assert OptionalPart("FILENAME:", n) + rest == rest;
    }
  }

  lemma ReadHead(kind: Kind, f: Fields, session: string, indexText: string, totalText: string,
                 index: int, total: int, rest: seq<string>)
    requires ParseInt(indexText) == Some(index) && ParseInt(totalText) == Some(total)
    ensures ReadParts(kind, f, ["SESSION:" + session, "CHUNK:" + indexText, "TOTAL:" + totalText] + rest)
         == ReadParts(kind, f.(session := Some(session)).(chunk := index).(total := total), rest)
  {
    var p0, p1, p2 := "SESSION:" + session, "CHUNK:" + indexText, "TOTAL:" + totalText;
    var f1 := f.(session := Some(session));
    var f2 := f1.(chunk := index);
    assert ReadParts(kind, f2, [p2] + rest) == ReadParts(kind, f2.(total := total), rest) by {
      ReadTotal(kind, f2, totalText, total);
      ReadPartsCons(kind, f2, p2, rest, f2.(total := total));
    }
    assert ReadParts(kind, f1, [p1] + ([p2] + rest)) == ReadParts(kind, f2, [p2] + rest) by {
      ReadChunkNumber(kind, f1, indexText, index);
      ReadPartsCons(kind, f1, p1, [p2] + rest, f2);
    }
    assert ReadParts(kind, f, [p0] + ([p1] + ([p2] + rest))) == ReadParts(kind, f1, [p1] + ([p2] + rest)) by {
      ReadSession(kind, f, session);
      ReadPartsCons(kind, f, p0, [p1] + ([p2] + rest), f1);
    }
    ConsThree(p0, p1, p2, rest);
  }

  lemma ConsThree<T>(a: T, b: T, c: T, rest: seq<T>)
    ensures [a, b, c] + rest == [a] + ([b] + ([c] + rest))
  {
  }

  /** Scanning the parts of a well-formed chunk recovers every field the sender put in. */
  lemma ReadOwnParts(c: Chunk)
    requires WellFormed(c)
    ensures ReadParts(c.kind, Unset, Parts(c))
         == Some(Fields(Some(c.session), c.index, c.total, c.filename, Some(c.sender), c.recipient, Some(c.data)))
  {
    var k := c.kind;
    var tail := ["FROM:" + c.sender, "DATA:" + c.data];
    var afterFile := OptionalPart("TO:", c.recipient) + tail;
    var afterTotal := OptionalPart("FILENAME:", c.filename) + afterFile;
    var f3 := Unset.(session := Some(c.session)).(chunk := c.index).(total := c.total);
    var f4 := if c.filename.Some? then f3.(filename := c.filename) else f3;
    var f5 := if c.recipient.Some? then f4.(recipient := c.recipient) else f4;
    ReadTail(k, f5, c.sender, c.data);
    ReadOptionalRecipient(k, f4, c.recipient, tail);
    ReadOptionalFilename(k, f3, c.filename, afterFile);
    ParseNatToString(c.index);
    ParseNatToString(c.total);
    ReadHead(k, Unset, c.session, NatToString(c.index), NatToString(c.total), c.index, c.total, afterTotal);
    ConcatAssoc(["SESSION:" + c.session, "CHUNK:" + NatToString(c.index), "TOTAL:" + NatToString(c.total)],
                OptionalPart("FILENAME:", c.filename), OptionalPart("TO:", c.recipient), tail);
  }

  lemma ConcatAssoc<T>(a: seq<T>, b: seq<T>, c: seq<T>, d: seq<T>)
    ensures a + b + c + d == a + (b + (c + d))
  {
  }

  lemma PartsHaveNoSeparator(c: Chunk)
    requires WellFormed(c)
    ensures NoneContains(Parts(c), '|')
    ensures Parts(c)[|Parts(c)| - 1] != ""
  {
    var ps := Parts(c);
    forall i | 0 <= i < |ps| ensures '|' !in ps[i] {
      var idx := NatToString(c.index);
      var tot := NatToString(c.total);
      assert forall j :: 0 <= j < |idx| ==> IsDigit(idx[j]);
      assert forall j :: 0 <= j < |tot| ==> IsDigit(tot[j]);
    }
  }

  /** Parsing the frame the sender built for a well-formed chunk gives back that chunk: session,
      index, total, file name, recipient, sender and data. */
  lemma ParseEncode(c: Chunk)
    requires WellFormed(c)
    ensures StartsWith(Encode(c), Tag(c.kind))
    ensures Parse(c.kind, Encode(c)) == Some(c)
  {
    EncodeIsJoinedParts(c);
    var body := JoinWith(Parts(c), '|');
    StartsWithConcat(Tag(c.kind), body);
    assert Encode(c)[|Tag(c.kind)|..] == body;
    PartsHaveNoSeparator(c);
    JavaSplitJoin(Parts(c), '|');
    ReadOwnParts(c);
  }

  // ---------------------------------------------------------------------------------------------
  // The scan as the receiver runs it

  /** The `for (String part : parts)` loop of `handle*Chunk`: each part updates the receiver's
      variables; a non-numeric CHUNK or TOTAL throws, which ends the scan. */
  method ScanParts(kind: Kind, parts: seq<string>) returns (r: Option<Fields>)
    ensures r == ReadParts(kind, Unset, parts)
  {
    var f := Unset;
    var i := 0;
    while i < |parts|
      invariant 0 <= i <= |parts|
      invariant ReadParts(kind, Unset, parts) == ReadParts(kind, f, parts[i..])
    {
      assert parts[i..] == [parts[i]] + parts[i + 1..];
      match ReadPart(kind, f, parts[i])
      case None =>
        return None;
      case Some(g) =>
        ReadPartsCons(kind, f, parts[i], parts[i + 1..], g);
        f := g;
      i := i + 1;
    }
    return Some(f);
  }

  /** `handle*Chunk` up to the buffer lookup: strip the tag, split, scan and validate. */
  method ParseLine(kind: Kind, line: string) returns (r: Option<Chunk>)
    requires StartsWith(line, Tag(kind))
    ensures r == Parse(kind, line)
  {
    var parts := JavaSplit(line[|Tag(kind)|..], '|');
    var scanned := ScanParts(kind, parts);
    match scanned
    case None => r := None;
    case Some(f) => r := Validate(kind, f);
  }
}
