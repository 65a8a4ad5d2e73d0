# Chat application core in Dafny

This is a verified model of the core of a Java LAN chat application. A TCP server relays text lines
between named clients. The clients use that channel for:

- broadcast and private text;
- user-list updates;
- images, files and voice messages, cut into base64 pieces and sent as `|`-separated chunk frames;
- a 16-bit mono 16 kHz WAV recorder, and a duration estimate read back from the WAV header;
- two value classes, `FileTransfer` and `ImageMessage`.

Layout, one module per file:

| file | module | models |
|---|---|---|
| `wrappers.dfy` | `Wrappers` | `Option`, `Result`, `Outcome` |
| `int32.dfy` | `Int32` | Java `int`: range, two's complement wrap-around, division truncating toward zero |
| `bytes.dfy` | `Bytes` | the byte type and `String.getBytes()` on ASCII text |
| `text.dfy` | `Text` | the `java.lang.String` operations the core uses: `startsWith`, `split` (trailing empties dropped), `trim`, `lastIndexOf`, `indexOf`, ASCII `toLowerCase` |
| `decimal.dfy` | `Decimal` | `Integer.toString` for naturals and `Integer.parseInt` on ASCII digits |
| `file_transfer.dfy` | `FileTransfer` | the file-size guard and the file-name helpers |
| `image_message.dfy` | `ImageMessage` | the image value object |
| `chunk_frame.dfy` | `ChunkFrame` | how a chunked transfer is split and encoded, how the receiver parses and validates a frame, and the round trip between the two |
| `reassembly.dfy` | `Reassembly` | the receiver's chunk buffers (arrays `chunks`/`received`) and their per-kind tables, against a value-level specification (`Accept`, `Run`) |
| `client.dfy` | `Client` | the client's state and operations (class `ChatClient`) |
| `server.dfy` | `Server` | the router: a value-level registry with `Next` and `Output`, and class `ChatServer` whose methods are proved against them |
| `voice_recorder.dfy` | `VoiceRecorder` | the WAV writer (a byte sink written step by step) and the recorder's `isRecording` guards |
| `voice_link.dfy` | `VoiceLink` | the little-endian readers and `estimateDuration` |
| `protocol.dfy` | `Protocol` | client and server together: what the server does with the frames clients build, and what clients read from the server's lines |

Client state in `ChatClient`:

- the user list, a `seq<UserStatus>`;
- `selectedUser`;
- three `ChunkTable`s.

Server state in `ChatServer`:

- `clients`, a `map` from names to handler ids;
- each handler's `username`;
- the set of closed handlers;
- an outbox of the sends made.

Behaviours the proofs bring out:

- **A reconnect can be undone.** Suppose two handlers CONNECT the same name. When the first handler's connection ends, its cleanup removes the name, although the name now belongs to the second handler (`Server.CleanupDropsReconnected`).
- **DISCONNECT is not checked.** DISCONNECT removes whatever name it carries, and the sending client need not own that name (`Server.Next`).
- **A DISCONNECT is announced twice.** After the DISCONNECT branch closes the socket, `cleanup` still runs for the handler. Its registry update is then a no-op, but it announces the departure a second time (`Server.DisconnectThenCleanup`).
- **The private sender is shown with its prefix.** A private text arrives as `PRIVATE:FROM:u|MSG:m`. The client takes everything before the first `|` as the sender, so it shows the sender as `FROM:u` (`Protocol.PrivateTextDelivered`).
- **Buffer keys can collide.** The key `sender + "_" + session` determines the pair only when session ids contain no `_`. Session ids are hexadecimal timestamps, so real ids never do (`Reassembly.KeyInjective`).
- **The user list reads back exactly.** A client reads the server's `USERLIST:` line back as exactly the registered names, provided every name is non-empty, has no comma and no surrounding white space (`Protocol.UserListMatchesRegistry`).
- **Routing follows the frame.** A chunk frame with a `TO:` part goes verbatim to that recipient only. One without a `TO:` part is broadcast to everyone but the sender (`Protocol.AddressedChunkDelivered`, `Protocol.UnaddressedChunkBroadcast`).
- **Arrival order does not matter.** A transfer cut into pieces and delivered in any order completes exactly once, with the original payload (`Client.TransferReassembles`).

## Model

| member | source | states |
|---|---|---|
| FileTransfer.ReadFile | tcp/FileTransfer.java:15-25 | succeeds exactly when the file is at most 10 MB (10 * 1024 * 1024 bytes), and then yields the contents unchanged |
| FileTransfer.GetFileExtension | tcp/FileTransfer.java:63-66 | the extension never contains a dot, and it is empty when the last dot is missing or in front |
| FileTransfer.GetFileNameWithoutExtension | tcp/FileTransfer.java:71-74 | a prefix of the name; the whole name when there is no dot after the first character |
| FileTransfer.NameAndExtensionRecombine | tcp/FileTransfer.java:63-74 | base name + "." + the text after the last dot gives back the file name, and the extension is that text lower-cased |
| FileTransfer.ComposeDecompose | tcp/FileTransfer.java:63-74 | base + "." + ext (dot-free ext, non-empty base) decomposes into base and the lower-cased ext |
| FileTransfer.NoExtension | tcp/FileTransfer.java:63-74 | a name without a dot, or with only a leading one, has no extension and is its own base name |
| ImageMessage.ImageMessage.Size | udp/ImageMessage.java:41-43 | the number of image bytes |
| ImageMessage.Create | udp/ImageMessage.java:17-39 | the getters return exactly what the constructor was given |
| ImageMessage.SizeLimitInclusive | udp/ImageMessage.java:10 | an image fits exactly when it has at most 50000 bytes |
| ImageMessage.PrivateIffNamedRecipient | udp/ImageMessage.java:53-55 | private exactly when the recipient is present and non-empty; null and "" both mean broadcast |
| Decimal.NatToString | tcp/TCPClient.java:770 | the decimal text of a chunk number is a non-empty run of digits without leading zero |
| Decimal.ParseInt | tcp/TCPClient.java:1065-1067 | `Integer.parseInt`: a result is always in `int` range, and the empty text is rejected |
| Decimal.ParseIntValue | tcp/TCPClient.java:1065-1067 | a number is parsed exactly when the text is an optional `+` or `-` followed by at least one digit and the signed value fits in an `int`; the result is then that signed value |
| Decimal.ParseSignForms | tcp/TCPClient.java:1065-1067 | bare digits and `+digits` parse up to 2^31 - 1, `-digits` down to -2^31, anything beyond is rejected, and a sign alone is rejected |
| Decimal.ParseNatToString | tcp/TCPClient.java:1065-1067 | parsing the decimal text of any number up to 2^31 - 1 gives that number back |
| Text.JavaSplitJoin | tcp/TCPClient.java:1052 | `split("\\|")` of one or more parts joined by `|` gives the parts back, when none contains the separator and the last is non-empty |
| Text.SplitJoin | tcp/TCPClient.java:999 | splitting joined separator-free parts (empties kept) gives the parts back |
| Text.JoinSplit | tcp/TCPClient.java:999 | joining the split parts gives the text back |
| Text.Trim | tcp/TCPClient.java:1001 | the trimmed text is a slice of the text with only characters at or below space cut from either end, and it neither starts nor ends with such a character |
| Text.TrimEmpty | tcp/TCPClient.java:552-555 | the trim is empty exactly when every character is at or below space, so exactly such a message is not sent |
| Text.TrimUnchanged | tcp/TCPClient.java:1001 | text without surrounding white space is its own trim |
| Text.LastIndexOf | tcp/FileTransfer.java:64 | -1 exactly when the character is absent; otherwise its position, with no occurrence after it |
| Text.IndexOfSub | tcp/TCPServer.java:223-225 | the first occurrence of the pattern, or -1 when it does not occur |
| Text.ToLower | tcp/FileTransfer.java:65 | same length; each ASCII capital lowered and every other character kept |
| ChunkFrame.ChunkCountBounds | tcp/TCPClient.java:664 | the ceiling division `(n + size - 1) / size` gives enough pieces to cover `n` characters and no more; it gives zero pieces exactly for empty text |
| ChunkFrame.PieceLength | tcp/TCPClient.java:763-766 | each piece `substring(i * size, min(i * size + size, n))` is non-empty and at most one piece size long |
| ChunkFrame.Pieces | tcp/TCPClient.java:763-766 | there are as many pieces as the chunk count says |
| ChunkFrame.PiecesConcat | tcp/TCPClient.java:763-766 | the pieces, in index order, concatenate to the whole text, and there are none exactly when the text is empty |
| ChunkFrame.Validate | tcp/TCPClient.java:1077-1080 | a chunk is accepted exactly when session, sender and data were seen (and for files the filename), with chunk number and total non-negative |
| ChunkFrame.Parse | tcp/TCPClient.java:1052-1080 | a parsed chunk has the frame's kind, numbers in `int` range, and a filename exactly when it is a file chunk |
| ChunkFrame.ReadPartsKeepsShape | tcp/TCPClient.java:1215-1241 | scanning the parts keeps numbers in `int` range and leaves the filename unset for non-file frames |
| ChunkFrame.PartsHaveNoSeparator | tcp/TCPClient.java:770 | the parts of a well-formed frame contain no `|`, and the last (DATA) is non-empty |
| ChunkFrame.ParseEncode | tcp/TCPClient.java:770-772 | a frame the sender builds starts with its kind's tag, and the receiver parses it back into the same chunk |
| ChunkFrame.ScanParts | tcp/TCPClient.java:1061-1075 | the loop over the parts computes the field values the specification's left-to-right scan gives, a later duplicate overriding an earlier one, `None` on a bad number |
| ChunkFrame.ParseLine | tcp/TCPClient.java:1052-1080 | the parse method agrees with the parse specification |
| Reassembly.KeyInjective | tcp/TCPClient.java:1083 | for `_`-free session ids, the buffer key determines sender and session |
| Reassembly.NewTransfer | tcp/TCPClient.java:1088 | a new buffer has `total` empty slots |
| Reassembly.SetSlot | tcp/TCPClient.java:84-89 | `setChunk` fills slot `index` when it is in range, leaves every other slot alone, and ignores an out-of-range index |
| Reassembly.JoinSlotsOfPieces | tcp/TCPClient.java:98-104 | once every slot holds its piece, `getCompleteData` is the pieces in index order |
| Reassembly.AcceptOtherKeys | tcp/TCPClient.java:1086-1097 | handling a chunk changes no other transfer's entry |
| Reassembly.AcceptExisting | tcp/TCPClient.java:1086-1097 | a chunk for an open transfer updates only its slot, keeps the buffer's sender, recipient, filename and creation time, and removes the entry exactly when it completes |
| Reassembly.AcceptFresh | tcp/TCPClient.java:1086-1093 | the first chunk of a multi-chunk transfer opens a buffer stamped with the current time and holds its data |
| Reassembly.ZeroTotalCompletes | tcp/TCPClient.java:1086-1101 | a frame announcing zero chunks completes at once with empty data and leaves the table unchanged |
| Reassembly.CompletionStartsFresh | tcp/TCPClient.java:1096-1097 | after completion, another chunk with the same key starts a new buffer |
| Reassembly.AnyOrderReassembles | tcp/TCPClient.java:1083-1101 | delivering every piece once, in any order, leaves the table as it was and completes once, with the concatenated pieces |
| Reassembly.ExpiryBoundary | tcp/TCPClient.java:106-108 | expiry is strict (`> timeout`): not expired at exactly the timeout, expired one millisecond later, and it stays expired |
| Reassembly.ChunkBuffer.constructor | tcp/TCPClient.java:76-82 | the arrays have `totalChunks` empty slots; sender, recipient and creation time are recorded |
| Reassembly.ChunkBuffer.SetChunk | tcp/TCPClient.java:84-89 | the slots become `SetSlot` of the old slots, and `received[i]` keeps tracking which slots are filled |
| Reassembly.ChunkBuffer.IsComplete | tcp/TCPClient.java:91-96 | true exactly when every slot is filled |
| Reassembly.ChunkBuffer.GetCompleteData | tcp/TCPClient.java:98-104 | the slots' texts appended in index order, where an unfilled slot appends "null" |
| Reassembly.ChunkTable.Insert | tcp/TCPClient.java:1089 | the buffer is put under the key, and the table's value view gains the buffer's state |
| Reassembly.ChunkTable.Store | tcp/TCPClient.java:1093 | only the keyed buffer's slot changes |
| Reassembly.ChunkTable.IsFull | tcp/TCPClient.java:1096 | the keyed buffer is complete |
| Reassembly.ChunkTable.Collect | tcp/TCPClient.java:1101 | the keyed buffer's joined data |
| Reassembly.ChunkTable.Remove | tcp/TCPClient.java:1097 | the key, and nothing else, leaves the table |
| Reassembly.ChunkTable.Open | tcp/TCPClient.java:1086-1090 | get-or-create: an existing buffer is kept, a missing one is created new |
| Reassembly.ChunkTable.Ingest | tcp/TCPClient.java:1083-1101 | the table's new state and the completion equal `Accept` of the old state |
| Client.Target | tcp/TCPClient.java:561 | a message is private exactly when the selected user is set, non-empty and not "All", and then it goes to that user |
| Client.TextFrame | tcp/TCPClient.java:552-567 | nothing is sent exactly when the trimmed text is empty; the frame starts with `TO:` exactly when a private target is selected |
| Client.Outgoing | tcp/TCPClient.java:763-776 | one chunk per piece |
| Client.OutgoingAt | tcp/TCPClient.java:763-773 | chunk `i` carries piece `i`, the chunk count, the session, filename, target and sender |
| Client.TransferReassembles | tcp/TCPClient.java:763-776 | the chunks a sender emits, delivered in any order to a receiver without that transfer, complete exactly once with the payload; an empty payload sends nothing |
| Client.OutgoingParses | tcp/TCPClient.java:769-773 | each frame the sender emits parses, at the receiver, back into the chunk it encodes |
| Client.ChatClient.SendChunks | tcp/TCPClient.java:763-776 | the frames are the encodings of the outgoing chunks, in index order |
| Client.TrimAll | tcp/TCPClient.java:1000-1001 | each name trimmed |
| Client.UniqueSpec | tcp/TCPClient.java:997-1006 | the connected-name set holds each listed name except the own one, and each only once |
| Client.Refresh | tcp/TCPClient.java:1010-1021 | every entry but "All" is marked connected exactly when its name is listed |
| Client.AddMissingEffect | tcp/TCPClient.java:1024-1035 | existing entries stay in place; each appended entry is connected, listed and new; afterwards every listed name has an entry; names stay distinct; nothing is added when all are present |
| Client.MergeEffect | tcp/TCPClient.java:1009-1035 | the whole update: names and the "All" entry kept, connection flags set from the list, the new names added, distinct names kept |
| Client.MergeIdempotent | tcp/TCPClient.java:1009-1035 | applying the same user list twice is the same as applying it once |
| Client.UserListPayload | tcp/TCPClient.java:994-1045 | for a raw `USERLIST:` payload: the own name is never added, and old entries are marked connected exactly when listed |
| Client.ConnectedUserNames | tcp/TCPClient.java:997-1007 | the loop computes the connected-name specification |
| Client.Find | tcp/TCPClient.java:1025-1031 | the search finds exactly the names present |
| Client.RefreshEntries | tcp/TCPClient.java:1010-1021 | the marking loop computes `Refresh` |
| Client.AppendMissing | tcp/TCPClient.java:1024-1035 | the adding loop computes `AddMissing` |
| Client.MergeUserList | tcp/TCPClient.java:994-1035 | the three passes compute `Merged` of the list |
| Client.ChatClient.UpdateUserList | tcp/TCPClient.java:994-1045 | the list becomes the merged list, "All" is selected, and the chunk tables are untouched |
| Client.ChatClient.constructor | tcp/TCPClient.java:33 | "All" is the only entry and is selected (line 255 adds it); the tables are empty |
| Client.ChatClient.Select | tcp/TCPClient.java:283-290 | choosing an entry selects its name |
| Client.ClassifyAsWritten | tcp/TCPClient.java:487-518 | dispatch as written: only a `PRIVATE:` line can throw |
| Client.Classify | tcp/TCPClient.java:487-518 | corrected dispatch: a chunk line has its kind's tag |
| Client.ClassifyAgrees | tcp/TCPClient.java:487-518 | where the code as written does not throw, the corrected dispatch agrees with it |
| Client.ShortSecondPartThrows | tcp/TCPClient.java:506-509 | a `PRIVATE:` line whose second part is shorter than 4 characters throws as written and is ignored by the corrected dispatch |
| Client.PrivateFromPipedNameThrows | tcp/TCPClient.java:506-509 | the concrete line `PRIVATE:FROM:a\|b\|MSG:hi` throws as written |
| Client.OnChunk | tcp/TCPClient.java:1047-1101 | a bad frame reports an error and changes nothing; a good one changes only its kind's table, exactly as `Accept` says, and reports a completion if there is one |
| Client.ChatClient.HandleChunk | tcp/TCPClient.java:1047-1395 | the handlers for the three kinds change the tables and report exactly as `OnChunk` |
| Client.ChatClient.Receive | tcp/TCPClient.java:487-518 | each line is dispatched by prefix. Chunk lines go to their handler, and `USERLIST:` updates the list and selects "All". Private and broadcast lines are shown and leave all state as it was. |
| Server.ChunkRecipient | tcp/TCPServer.java:225-228 | the recipient is the `|`-free text after the first `\|TO:`, ending at the next `\|` or at the end of the line |
| Server.ParseCommandShape | tcp/TCPServer.java:184-245 | each branch is chosen by its prefix, in the source's order, and the command's fields are the line's text after it |
| Server.ParseConnect | tcp/TCPServer.java:186-187 | `CONNECT:u` is a connect of `u` |
| Server.ParseDisconnect | tcp/TCPServer.java:194-195 | `DISCONNECT:u` is a disconnect of `u` |
| Server.ParsePrivate | tcp/TCPServer.java:208-211 | `TO:r\|rest` with a `\|`-free `r` is private text for `r` carrying `rest` |
| Server.Eligible | tcp/TCPServer.java:125-131 | the names a broadcast reaches: every registered name but the excluded one |
| Server.Deliveries | tcp/TCPServer.java:126-129 | one send of the line to each enumerated name's handler |
| Server.Fanout | tcp/TCPServer.java:125-131 | the loop enumerates the eligible names, each once, and sends the line to each |
| Server.UserListLine | tcp/TCPServer.java:133-140 | the line is `USERLIST:` followed by the registered names, each once, joined by commas |
| Server.TerminatedJoin | tcp/TCPServer.java:135-140 | appending "name," per name and dropping the last comma gives the comma-join; nothing is dropped for an empty list |
| Server.EnumeratesSize | tcp/TCPServer.java:126 | an enumeration of a set has exactly one entry per element |
| Server.BroadcastReachesEach | tcp/TCPServer.java:125-131 | a broadcast sends once per eligible name, reaches each, and sends only that line |
| Server.RegistryStaysValid | tcp/TCPServer.java:184-271 | every registered name stays mapped to a handler that has a name, through messages and cleanup |
| Server.ConnectRegisters | tcp/TCPServer.java:186-188 | CONNECT maps the name to the handler, which now has that name (a later CONNECT of the same name takes it over) |
| Server.ConnectOutput | tcp/TCPServer.java:190-191 | CONNECT announces the arrival to all others, then sends the user list |
| Server.ConnectAnnounces | tcp/TCPServer.java:190-191 | every other registered client gets the join line, and then everyone gets the new user list |
| Server.HeartbeatInert | tcp/TCPServer.java:203-206 | a heartbeat changes nothing and sends nothing |
| Server.PrivateRouted | tcp/TCPServer.java:208-217 | private text goes, with `PRIVATE:` in place of the address, to a registered recipient only, and to nobody otherwise |
| Server.ForwardEffect | tcp/TCPServer.java:238-243 | any other line is relayed verbatim to everyone but its sender (to everyone when the sender has no name), and nothing changes |
| Server.DisconnectThenCleanup | tcp/TCPServer.java:194-200 | DISCONNECT removes the name and closes the handler; the cleanup that follows changes nothing and announces the departure again |
| Server.CleanupDropsReconnected | tcp/TCPServer.java:263-271 | a handler's cleanup removes its name even after another handler has reconnected under it |
| Server.ChatServer.constructor | tcp/TCPServer.java:19 | no clients, not running, nothing sent |
| Server.ChatServer.Broadcast | tcp/TCPServer.java:125-131 | sends one line to each eligible name, in some order, and changes no registry state |
| Server.ChatServer.BroadcastUserList | tcp/TCPServer.java:133-142 | sends the current user list to every client |
| Server.ChatServer.Announce | tcp/TCPServer.java:190-191 | a broadcast followed by the user list |
| Server.ChatServer.HandleMessage | tcp/TCPServer.java:184-245 | the registry becomes `Next` of the old one and the sends are those `Output` allows |
| Server.ChatServer.Cleanup | tcp/TCPServer.java:171-182 | after the read loop, the registry and the sends are those of `cleanup` (lines 263-271) |
| Server.CloseAll | tcp/TCPServer.java:84-86 | every registered handler ends up closed, and no other handler is closed |
| Server.ChatServer.StopServer | tcp/TCPServer.java:80-88 | every handler is closed, the map is cleared and the server stops |
| VoiceRecorder.FormatRates | udp/VoiceRecorder.java:109-113 | 16000 Hz mono 16-bit gives a byte rate of 32000 and a block alignment of 2 |
| VoiceRecorder.IntBytesValue | udp/VoiceRecorder.java:148-153 | the four bytes written are the value modulo 2^32, least significant first |
| VoiceRecorder.ShortBytesValue | udp/VoiceRecorder.java:158-161 | the two bytes written are the value modulo 2^16, least significant first |
| VoiceRecorder.ByteSink.Write | udp/VoiceRecorder.java:149 | `write(int)` appends the value's low eight bits |
| VoiceRecorder.ByteSink.WriteAll | udp/VoiceRecorder.java:118 | `write(byte[])` appends the bytes |
| VoiceRecorder.WriteIntLittleEndian | udp/VoiceRecorder.java:148-153 | appends the value's four little-endian bytes |
| VoiceRecorder.WriteShortLittleEndian | udp/VoiceRecorder.java:158-161 | appends the value's two little-endian bytes |
| VoiceRecorder.WriteRiffPreamble | udp/VoiceRecorder.java:118-120 | appends "RIFF", the file size and "WAVE" |
| VoiceRecorder.WriteFormatHead | udp/VoiceRecorder.java:123-126 | appends "fmt ", 16, the PCM code 1 and the channel count |
| VoiceRecorder.WriteFormatFields | udp/VoiceRecorder.java:127-130 | appends the sample rate, byte rate, block alignment and sample size |
| VoiceRecorder.WavFile | udp/VoiceRecorder.java:104-137 | a WAV file is a 44-byte header followed by the raw audio |
| VoiceRecorder.ConvertToWav | udp/VoiceRecorder.java:104-137 | the writes produce exactly that file |
| VoiceRecorder.Recorder.constructor | udp/VoiceRecorder.java:23-26 | not recording, nothing captured |
| VoiceRecorder.Recorder.StartRecording | udp/VoiceRecorder.java:32-48 | a no-op while recording. Otherwise the buffer is cleared, and recording starts exactly when the line is available; an unavailable line throws. |
| VoiceRecorder.Recorder.Capture | udp/VoiceRecorder.java:56-61 | while recording, the bytes read are appended to the buffer |
| VoiceRecorder.Recorder.StopRecording | udp/VoiceRecorder.java:73-90 | an empty array when not recording; otherwise recording stops and the captured audio comes back as a WAV file |
| VoiceRecorder.Recorder.IsRecording | udp/VoiceRecorder.java:95-97 | the recording flag |
| VoiceLink.ReadIntLittleEndian | tcp/VoiceLink.java:202-207 | the result is a Java `int` |
| VoiceLink.ReadShortLittleEndian | tcp/VoiceLink.java:209-212 | the result is an unsigned 16-bit value |
| VoiceLink.ReadWrittenInt | tcp/VoiceLink.java:202-207 | reading four bytes back where `writeIntLittleEndian` put them gives the value written, sign included |
| VoiceLink.ReadWrittenShort | tcp/VoiceLink.java:209-212 | reading two bytes back where `writeShortLittleEndian` put them gives the value written |
| VoiceLink.EstimateDuration | tcp/VoiceLink.java:180-200 | 0 for a file shorter than 44 bytes; the result is always a Java `int` |
| VoiceLink.QuotRange | tcp/VoiceLink.java:196 | dividing the audio size by a non-zero byte rate cannot overflow |
| VoiceLink.ZeroRateEstimatesZero | tcp/VoiceLink.java:196-198 | a header whose fields give a zero byte rate estimates 0 (the caught ArithmeticException) |
| VoiceLink.HeaderLayout | udp/VoiceRecorder.java:117-134 | where each field sits in the 44-byte header |
| VoiceLink.WavHeaderFields | tcp/VoiceLink.java:186-191 | the header the recorder writes reads back as RIFF/WAVE/fmt /data, with PCM format 1, 1 channel, 16000 Hz, 32000 bytes/s, block 2, 16 bits and the data size |
| VoiceLink.EstimateOfRecording | tcp/VoiceLink.java:180-200 | the estimate for any recording is its raw length divided by 32000, rounded down |
| Protocol.UserListClassified | tcp/TCPClient.java:501-503 | the client dispatches the server's user-list line as a user list carrying the comma-joined names |
| Protocol.ListedNamesJoin | tcp/TCPClient.java:998-1001 | splitting and trimming the comma-joined names gives back the names, when each is non-empty, comma-free and without surrounding white space |
| Protocol.UserListMatchesRegistry | tcp/TCPServer.java:133-142 | every user-list line the server sends reads back, at the client, as exactly the registered names |
| Protocol.PrivateTextDelivered | tcp/TCPClient.java:561-563 | a private text the client frames reaches exactly the registered recipient, as `PRIVATE:FROM:u\|MSG:m` (trimmed), and is shown with sender `FROM:u` |
| Protocol.ChunkRoute | tcp/TCPServer.java:219-237 | the server routes a client's chunk frame to its `TO:` recipient when it has one, and broadcasts it otherwise |
| Protocol.AddressedChunkDelivered | tcp/TCPServer.java:223-233 | an addressed frame goes, unchanged, to the registered recipient only |
| Protocol.UnaddressedChunkBroadcast | tcp/TCPServer.java:234-237 | an unaddressed frame goes, unchanged, to every client but its sender |

## Left out

- The Swing user interface: windows, rendering, dialogs, image scaling and display, and the send-button label.
- Sockets and streams:
  - starting the server and accepting connections;
  - reading and printing lines;
  - closing sockets.
  Sends are returned as values, and a handler's `close` is recorded in the closed set. What a send to a closed socket does is not modelled.
- Threads and concurrency:
  - the heartbeat thread and `Thread.sleep` between chunks;
  - the recording thread and its `join`;
  - `ConcurrentHashMap` interleavings and `invokeLater`.
  Every operation is modelled as atomic.
- The server's log and the client's `appendMessage` texts and timestamps. The clock is passed in as `now` where a buffer records its creation time.
- Base64 encoding and decoding. Payloads are carried as opaque text, so a malformed base64 payload is not modelled.
- Image decoding and the "Error displaying" catch branches of the chunk handlers.
- File I/O:
  - `readFile` takes the file contents as a parameter;
  - the file length is that parameter's length;
  - `writeFile` is not modelled.
- Audio I/O.
  - `AudioSystem.isLineSupported` becomes the `lineAvailable` parameter of `StartRecording`.
  - Each read of the line becomes one `Capture` call.
  - The exceptions of `getLine` and `open` are not modelled.
- `getFileSizeString`, because it uses floating point.
- Decimal.ParseInt: accepts only the ASCII digits `0`-`9`. Java's `Integer.parseInt` reads digits with `Character.digit`, which also accepts other Unicode decimal digits (such as Arabic-Indic `٣`), so a frame whose CHUNK or TOTAL uses them is parsed by Java but reported invalid by the model.
- ChunkFrame.ChunkCount: computed on unbounded naturals. Java evaluates `(length + chunkSize - 1) / chunkSize` and `i * chunkSize` in 32-bit `int`, which wraps to a negative count for a base64 payload within `chunkSize - 1` characters of 2^31 - 1; such a payload is far beyond the 10 MB file limit and is not modelled.
- `toLowerCase` outside ASCII, because the model has no Unicode case tables.
- The `IOException` fallback of `convertToWAV`. A `ByteArrayOutputStream` never throws, so the branch is dead.
- `isExpired` is modelled (`Reassembly.ChunkBuffer.IsExpired`, `Reassembly.ExpiryBoundary`), but nothing in the client calls it, so no buffer is ever evicted.
- `FileLink`, `run` and the UDP client and server are not part of this model.
- VoiceRecorder.Recorder.Capture: requires the buffer to stay within `Int32.Max` bytes; past that, a Java byte array cannot grow and `ByteArrayOutputStream` throws OutOfMemoryError.
- Reassembly.Accept, Reassembly.NewTransfer and Reassembly.ChunkTable.Open: open a buffer of `total` empty slots for any accepted TOTAL up to 2^31 - 1, with memory unbounded. In Java, `new String[totalChunks]` (tcp/TCPClient.java:79, 124, 167) for a huge announced total throws OutOfMemoryError. That is an `Error`, not an `Exception`, so neither the chunk handlers' `catch (Exception)` nor the receive loop's `SocketException`/`IOException` handlers catch it, and the client's receive thread ends. Which totals exhaust the heap depends on the JVM, so the model does not say where this limit lies.
- Client.AppendMissing: appends new names in the order they are listed. The source iterates a `HashSet`, whose order is unspecified; the set of names added and the flags are the same.
- Server.ChatServer.Broadcast: the order in which the map is iterated is left open. The contracts fix only that each eligible name gets the line exactly once.

## Findings

| source | as written | input that shows it | evidently intended | confidence | as-written member | corrected member |
|---|---|---|---|---|---|---|
| tcp/TCPClient.java:504-513 | `parts[1].substring(4)` on a `PRIVATE:` line whose second `\|`-part is shorter than 4 characters throws `StringIndexOutOfBoundsException`. The receive loop catches only `IOException`, so the exception ends the client's receive thread. | A user named `a\|b` sends a private message; the recipient receives `PRIVATE:FROM:a\|b\|MSG:hi`, whose second part is `b` | ignore such a line (or check the part's length) and go on receiving | not executed | Client.ClassifyAsWritten, Client.PrivateFromPipedNameThrows | Client.Classify, Client.ClassifyAgrees |
