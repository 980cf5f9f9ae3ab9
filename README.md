# Chat broker model

A Dafny model of `server.py`, a threaded TCP chat broker. It covers the
following:

- **Framing.** Every message on a connection is a 64-byte header followed by
  its UTF-8 payload. The header holds the payload's byte length in decimal
  ASCII, padded on the right with spaces.
- **Handshake.** The first payload may be `USERNAME:<name>`. Otherwise the
  peer is known by `str(addr)`.
- **Registry.** The `clients` dictionary maps each connection to its peer's
  address and display name. It keeps insertion order.
- **Broadcasts.** Chat goes to everyone but the sender, prefixed
  `[name] `. A roster push sends `!USERLIST:` followed by the JSON list of
  names to everyone.
- **Session.** `handle_client` reads the handshake, registers the peer,
  announces the join, pushes the roster, and relays every payload until
  `!DISCONNECT` or an exception. It then announces the departure,
  deregisters, pushes the roster again and closes.

The modules follow that structure:

- `Utf8` is `str.encode`/`bytes.decode` with its round trip.
- `Text` is the Python string operations the code uses: `strip`, `split`,
  `startswith`, `str(n)` and `int(s)`.
- `Framing` is the header, the frame and the reads from a connection.
- `Json` is `json.dumps` of a list of strings, plus a reader that inverts it.
- `Registry` is the ordered dictionary.
- `Broker` holds the shared state as a value:
  - the registry;
  - the outbox of each connection, which is the sequence of payloads framed
    onto it;
  - the connections on which a send raises.

  Every step of the program is a transition on that state, and the session
  is their composition.
- `Transcript` is the end-to-end view of a session from another client.
- `ChatServer.Server` is the broker as the program runs it. Its fields are
  changed in place, and it keeps the program's `for` send loops and its
  `while connected` loop. Each method is proved to have exactly the effect of
  the matching `Broker` transition.

A connection's inbound side is modelled as the bytes the peer will still
send, followed by how the stream ends:

- after a clean close, `recv` returns `b""` forever;
- after a reset, `recv` raises.

`recv(k)` returns `k` bytes whenever that many remain, and raises for a size
beyond the 64-bit `ssize_t` range. A send succeeds when
the connection has not been closed or broken and the payload can be framed.

Payloads to yourself, as the code sends them:

- The join and leave notices are sent through `broadcast_chat_message` with
  the peer's own connection as sender. Other clients therefore read them as
  chat lines under the peer's name: `[alice] User alice joined the chat.`
- An empty first header is not an error. It means the peer closed before
  sending anything. The peer is then registered under `str(addr)`.

## Model

| member | source | states |
|---|---|---|
| Utf8.DecodeEncode | server.py:29 | decoding the UTF-8 encoding of any text gives the text back |
| Utf8.Encode | server.py:29 | `str.encode("utf-8")`, one to four bytes per character; `Utf8.DecodeEncode` and `Utf8.EncodeInjective` show that it loses nothing |
| Utf8.Decode | server.py:75-78 | the strict `bytes.decode("utf-8")`, with `None` for the UnicodeDecodeError; `Utf8.DecodeEncode` shows that it inverts `Encode` |
| Utf8.EncodeInjective | server.py:29 | two texts with the same encoding are equal |
| Utf8.EncodeAppend | server.py:29 | the encoding of a concatenation is the concatenation of the encodings |
| Utf8.EncodeAscii | server.py:31 | ASCII text is encoded one byte per character, each byte the character's code |
| Text.Strip | server.py:81 | `strip()` gives an empty result exactly for all-whitespace text, and otherwise one that neither begins nor ends with whitespace |
| Text.IsSpace | server.py:81 | the characters `str.isspace()` accepts, which `strip()` removes at both ends here and before `int()` at server.py:77 |
| Text.StripIsSlice | server.py:81 | the result of `strip()` is a slice of the text with only whitespace before and after it |
| Text.StripPadded | server.py:77 | stripping text that has non-space ends and only spaces after it gives that text |
| Text.JoinSplit | server.py:81 | joining the pieces of `split(sep)` with `sep` gives back the text |
| Text.Split | server.py:81 | `split(sep)`: at least one piece and no piece holding `sep`; with `Text.JoinSplit` this fixes the pieces |
| Text.StartsWith | server.py:80 | `startswith(prefix)`: the text is at least as long as the prefix and begins with it |
| Text.SplitAfterSeparator | server.py:81 | after a separator-free prefix and one separator, the pieces are the prefix and then the pieces of the rest |
| Text.SplitFirst | server.py:81 | the first piece of a split is the text up to the first separator |
| Text.TakeUntil | server.py:81 | the text before the first separator: a separator-free prefix, followed by the separator when it is not all of the text |
| Text.Decimal | server.py:31 | `str(n)` is a non-empty string of digits with no leading zero |
| Text.ParseIntDecimal | server.py:77 | `int()` of `str(n)` followed by any whitespace other than U+001C to U+001F is `n` |
| Text.ParseIntDigits | server.py:77 | `int()` of a plain digit string is its value |
| Text.ParseInt | server.py:77 | `int()` succeeds only on text that is not all whitespace and holds none of U+001C to U+001F, which `int()` does not skip though `strip()` does |
| Text.IsNumeral | server.py:77 | the digit part `int()` accepts: ASCII digits, leading zeros allowed, single underscores only between two digits |
| Text.Value | server.py:77 | the base-10 value of such a numeral, underscores ignored; `Text.ValueDecimal` and `Text.ParseIntDecimal` show that it reads back `str(n)` as `n` |
| Text.DecimalLength | server.py:31-32 | `str(n)` has at most `k` digits exactly when `n < 10^k` |
| Text.ValueBound | server.py:77 | a numeral of `k` digits has a value below `10^k` |
| Framing.Padding | server.py:32 | `b" " * k` is `k` spaces, and nothing for `k <= 0` |
| Framing.EncodeHeader | server.py:30-32 | a header is produced exactly when the length is below `10^64`, otherwise a `HeaderOverflow` error |
| Framing.HeaderShape | server.py:29-32 | the header of a length below `10^64` is exactly 64 bytes: the ASCII digits of the length, then only spaces |
| Framing.FrameShape | server.py:29-35 | a frame is `64 + len(payload)` bytes: the header, then the payload bytes |
| Framing.HeaderOverflowAsWritten | server.py:31-32 | as written, a length of `10^64` or more gives a header longer than 64 bytes, and the 64 bytes a reader takes parse to a smaller length |
| Framing.HeaderAsWritten | server.py:31-32 | the header exactly as the code builds it, with no padding once the numeral is longer than 64 digits; `Framing.HeaderOverflowAsWritten` shows where it goes wrong |
| Framing.EncodeFrame | server.py:29-35 | the frame `send_message_to_client` writes: the header, then the payload bytes; `Framing.FrameShape` gives its layout and `Framing.FrameRoundTrip` shows that it reads back |
| Framing.Recv | server.py:78 | `recv(k)` raises for a negative `k` and for a `k` beyond the `ssize_t` range; otherwise it returns a prefix of the remaining bytes, `k` of them when that many remain; at the end of a reset stream it raises |
| Framing.ReadHeader | server.py:75-77 | a non-empty header consumes at least one byte and leaves a suffix of the stream; the header is empty exactly at the end of a cleanly closed stream |
| Framing.ReadPayload | server.py:78 | a payload read leaves a suffix of the stream |
| Framing.OversizedLengthRaises | server.py:78 | a header that announces more than `2^63 - 1` bytes makes the frame read raise, whatever follows |
| Framing.ReadFrame | server.py:102-105 | a frame read consumes at least one byte and leaves a suffix of the stream; it reads nothing exactly at the end of a cleanly closed stream |
| Framing.DecodeHeader | server.py:75-77 | the header of length `n` decodes to non-empty text that `int()` parses as `n` |
| Framing.FrameRoundTrip | server.py:102-105 | for a message of at most `2^63 - 1` bytes, reading a frame from the bytes of `EncodeFrame(m)` followed by anything gives `m`, and the stream continues after the frame |
| Framing.WireFirst | server.py:102-105 | the first frame read from a stream of framed messages is the first message, and the rest is the stream of the others |
| Framing.ReadAtEnd | server.py:102-103 | an exhausted stream reads nothing when closed cleanly and raises when reset |
| Framing.ReadAllWire | server.py:100-105 | reading frames to the end of a stream of framed messages gives exactly those messages in order, then the end of the stream |
| Json.EscapeChar | server.py:51 | every character's escape is printable ASCII and does not start with `"` |
| Json.Dumps | server.py:51 | `json.dumps` of a list of strings is printable ASCII enclosed in `[` and `]` |
| Json.HexRoundTrip | server.py:51 | the four-digit hex of a value below `0x10000` reads back as that value |
| Json.ParseEscaped | server.py:51 | every character's escape reads back as that character, the rest of the text untouched |
| Json.ParseSurrogatePair | server.py:51 | a character beyond U+FFFF, written as a surrogate pair, reads back as that character |
| Json.ParseQuoted | server.py:51 | the escaped text of a string followed by a closing quote reads back as that string |
| Json.ParseItemsOf | server.py:51 | the items of a list of strings followed by `]` read back as that list |
| Json.LoadsDumps | server.py:51 | reading `json.dumps(names)` gives `names` back |
| Json.DumpsInjective | server.py:51 | different name lists have different JSON |
| Registry.AddressText | server.py:69 | `str(addr)` is `('host', port)` |
| Registry.Keys | server.py:54 | the connections of the registry, in insertion order |
| Registry.Find | server.py:60 | `clients.get(c)` is absent exactly when `c` is not a key, and otherwise is the information stored with `c` |
| Registry.FindUnique | server.py:60 | in a registry without duplicates, looking up an entry's connection gives that entry's information |
| Registry.Put | server.py:92 | `clients[c] = info` replaces the information of a present key in place and appends a new key at the end |
| Registry.PutFind | server.py:91-92 | after registering, the keys stay unique, `c` maps to `info`, and every other lookup is unchanged |
| Registry.Remove | server.py:121-123 | after deregistering, `c` is absent; deregistering an absent key changes nothing |
| Registry.RemoveOrder | server.py:121-123 | deregistering removes exactly the one entry of `c` and keeps the order of the others |
| Registry.RemoveFind | server.py:121-123 | deregistering `c` leaves every other lookup as it was |
| Registry.RemoveIdempotent | server.py:121-123 | deregistering twice is deregistering once |
| Registry.RemovePut | server.py:91-92 | registering and then deregistering `c` leaves the registry as deregistering `c` alone |
| Registry.RemoveUnique | server.py:121-123 | deregistering keeps the keys unique |
| Registry.Names | server.py:41-45 | the usernames of the registry, one per entry, in insertion order |
| Broker.Send | server.py:26-39 | the send returns `True` exactly when it can succeed; then the payload joins that connection's outbox; nothing else changes |
| Broker.CanSend | server.py:34-39 | a send raises exactly on a connection in the broken set, or on a payload whose length cannot be framed in the 64-byte header (the corrected half of the first finding) |
| Broker.Deliver | server.py:54-55 | a send loop leaves the registry and broken connections unchanged |
| Broker.DeliverOutbox | server.py:64-66 | failure isolation: each recipient gets the payload once when its own send succeeds, whatever happens to the others; non-recipients get nothing |
| Broker.DeliverStep | server.py:54-55 | delivering to one more recipient is one more send after the others |
| Broker.DeliverNone | server.py:54-55 | a send loop over no connection changes nothing |
| Broker.Everyone | server.py:54 | the recipients of the roster push are exactly the registered connections |
| Broker.Others | server.py:64-65 | the recipients of a chat line are exactly the registered connections other than the sender |
| Broker.ChatLine | server.py:62 | `[name] message`: a bracket, the name, `] `, then the message |
| Broker.SenderName | server.py:60 | the sender's name, or `Unknown User`; `Broker.SenderNameOf` states it |
| Broker.BroadcastChat | server.py:57-66 | `broadcast_chat_message`: the chat line delivered to the registered connections other than the sender; `Broker.ChatExclusion` states the effect on every outbox |
| Broker.UserListPayload | server.py:51 | `!USERLIST:` followed by `json.dumps` of the names; `Broker.RosterReadable` shows that the names read back |
| Broker.BroadcastUserList | server.py:47-55 | `broadcast_user_list`: the roster of the registry delivered to every registered connection; `Broker.RosterPush` states the effect on every outbox |
| Broker.Register | server.py:91-92 | `clients[conn] = info` on the hub; `Registry.PutFind` states the new registry |
| Broker.Deregister | server.py:121-123 | `del clients[conn]` when present; `Registry.RemoveOrder`, `Registry.RemoveFind` and `Registry.RemoveIdempotent` state the new registry |
| Broker.Close | server.py:126 | `conn.close()`: every later send on `conn` raises, as `Broker.Send`'s contract makes it fail |
| Broker.ChatExclusion | server.py:57-66 | a chat broadcast leaves the registry unchanged; it appends the chat line to every registered connection but the sender whose send succeeds, and nothing elsewhere |
| Broker.ChatToOther | server.py:57-66 | a registered connection other than the sender, able to receive, gets the chat line |
| Broker.SenderNameOf | server.py:60 | the chat line names the registered sender, or `Unknown User` for a connection not registered |
| Broker.RosterPush | server.py:47-55 | the roster push leaves the registry unchanged and appends the same roster payload to every registered connection whose send succeeds, the sender included |
| Broker.RosterReadable | server.py:49-51 | the roster payload is `!USERLIST:` followed by JSON that reads back as the registered names in registry order |
| Broker.HandshakeNameSpec | server.py:80-83 | the display name is the trimmed text between the first and second `:` of a `USERNAME:` payload, or the default when that is empty or the prefix is absent |
| Broker.HandshakeName | server.py:80-83 | the display name from the first payload, through `split(":")[1].strip()`; `Broker.HandshakeNameSpec` states it without `split` |
| Broker.Handshake | server.py:74-88 | the handshake fails exactly when the first read raises; an empty header keeps the default name and the stream; a frame gives the name parsed from its payload and the stream after it |
| Broker.JoinNotice | server.py:96 | `User <name> joined the chat.`, relayed as chat from the joiner |
| Broker.LeaveNotice | server.py:119 | `User <name> left the chat.`, relayed as chat from the leaver |
| Broker.SpinAsWritten | server.py:100-103 | as written, at the end of a cleanly closed stream a loop turn changes nothing and stays connected |
| Broker.LoopStepAsWritten | server.py:100-111 | one turn of the `while connected` loop exactly as written, giving the state, the rest of the stream and `connected`; `Broker.SpinAsWritten` shows that it spins at a clean end |
| Broker.ChatLoop | server.py:100-114 | the corrected main loop; `Broker.ChatLoopCorrected` ties it to the loop as written and `Broker.ChatLoopReads` states what it relays |
| Broker.ChatLoopCorrected | server.py:100-114 | the loop ends on a closed stream, and is the loop as written everywhere else |
| Broker.UntilDisconnect | server.py:107-108 | the messages before the first `!DISCONNECT`: a prefix without it, followed by it when shorter |
| Broker.ChatLoopEnd | server.py:112-114 | a loop whose first read raises or reads nothing changes nothing |
| Broker.ChatLoopReads | server.py:100-114 | the loop relays, in order, the messages read before the first `!DISCONNECT` |
| Broker.ChatLoopWire | server.py:100-114 | over a stream of framed messages, the loop relays exactly those before the first `!DISCONNECT`, in order |
| Broker.ChatLoopFrame | server.py:100-114 | the loop does not change the registry or the broken connections, and sends nothing to the peer's own connection |
| Broker.ChatLines | server.py:111 | the chat line of each message, in order |
| Broker.ChatAllOutbox | server.py:100-111 | another registered connection able to receive gets the chat lines of the relayed messages in order |
| Broker.NamesAppend | server.py:45 | the names after registering a new connection are the old names followed by the new one |
| Broker.Joined | server.py:91-97 | register, announce the join, push the roster; `Broker.JoinedOutbox` states the effect |
| Broker.Leave | server.py:117-126 | announce the departure, deregister, push the roster, close; `Broker.LeaveOutbox` states the effect |
| Broker.Session | server.py:68-126 | `handle_client`: the handshake, then `Attend`, or only the close when the handshake raises; `Broker.SessionRegistry`, `Broker.SessionLeaverOutbox` and `Transcript.SessionBystander` state the effect |
| Broker.Attend | server.py:90-126 | the join, the main loop and the teardown after a successful handshake; `Broker.AttendBystander` and `Broker.AttendLeaverOutbox` state the effect |
| Broker.JoinedOutbox | server.py:91-97 | joining appends the peer to the registry; other registered connections get the join notice and then the roster with the new name; the joiner gets only the roster |
| Broker.JoinerOutbox | server.py:91-97 | the joining connection does not get its own join notice, only the roster |
| Broker.LeaveOutbox | server.py:117-125 | leaving removes the peer from the registry; the remaining connections get the leave notice and then the roster without the peer |
| Broker.LeaverOutbox | server.py:117-126 | the leaver gets neither its own leave notice nor the final roster |
| Broker.RemoveKeys | server.py:121-123 | after deregistering `conn`, the registered connections are the old ones but `conn` |
| Broker.SessionRegistry | server.py:68-126 | a whole session on a new connection leaves the registry as it found it and closes the connection |
| Broker.SessionHandshakeFails | server.py:85-88 | a handshake that raises closes the connection; nothing is registered and nothing is sent |
| Broker.SessionLeaverOutbox | server.py:68-126 | the only payload a session sends to its own connection is the roster pushed after the join |
| Broker.AttendLeaverOutbox | server.py:90-126 | after the handshake, the peer's own connection gets only the roster pushed after the join |
| Broker.SessionFirstFrame | server.py:74-83 | over a stream of framed messages, the session uses the first message as the handshake and the rest as the chat stream |
| Broker.AttendBystander | server.py:90-126 | after the handshake, a bystander gets the join notice, the roster with the peer, the peer's chat, the leave notice and the roster without the peer |
| Broker.JoinedBystander | server.py:91-97 | a bystander gets the join notice, then the roster with the new name |
| Broker.LeaveBystander | server.py:117-125 | a bystander gets the leave notice, then the roster without the peer |
| Transcript.SessionBystander | server.py:68-126 | From end to end, another client that can receive gets exactly: the join notice, the roster with the peer, every chat line the peer sent before `!DISCONNECT` in order, the leave notice, and the roster without the peer. It gets nothing else. |
| ChatServer.Server.constructor | server.py:22-24 | the broker starts with an empty registry, no payload sent and no broken connection |
| ChatServer.Server.SendMessageToClient | server.py:26-39 | the method returns and changes what `Broker.Send` does |
| ChatServer.Server.SendToAll | server.py:53-55 | the loop over the registry gives the state of delivering to every registered connection |
| ChatServer.Server.BroadcastUserList | server.py:47-55 | the method has the effect of the roster push and keeps the keys unique |
| ChatServer.Server.SendToOthers | server.py:64-66 | the loop over the registry gives the state of delivering to every registered connection other than the sender |
| ChatServer.Server.BroadcastChatMessage | server.py:57-66 | the method has the effect of the chat broadcast and keeps the keys unique |
| ChatServer.Server.Register | server.py:91-92 | the method has the effect of the registration and keeps the keys unique |
| ChatServer.Server.Deregister | server.py:121-123 | the method has the effect of the deregistration and keeps the keys unique |
| ChatServer.Server.Close | server.py:126 | the method marks the connection as one on which every send raises |
| ChatServer.Server.HandleClient | server.py:68-126 | the handshake, the join, the `while connected` loop and the teardown have exactly the effect of `Broker.Session`, and keep the keys unique |
| ChatServer.EveryoneStep | server.py:54-55 | one more turn of the roster loop is one more send |
| ChatServer.OthersStep | server.py:64-66 | one more turn of the chat loop is one more send, skipped for the sender |

## Left out

- Socket setup, `bind`, `listen` and the `accept` loop (server.py:17-20, 128-138) are not modelled; they are I/O. Each session is given its connection, its address and the bytes its peer sends.
- `print` logging is not modelled; it is assumed not to raise. A `print` that raises at server.py:110 would end the loop, and one at server.py:70, 95 or 118 would end the thread.
- Threads and `clients_lock` are not modelled. Each `with clients_lock:` block is one atomic step. A session is modelled as running with no other session acting during it, so interleavings are not covered.
- Partial `send` and `recv` are not modelled: `recv(k)` returns `k` bytes whenever that many remain.
- Broker.Send: a send is all-or-nothing. The case where the header is sent and the payload send then raises is not modelled.
- Broker.Send: a payload whose byte length has more than 64 digits makes the send return `False`. As written, the code sends an oversized header and returns `True`. This is the corrected half of the first finding.
- Framing.Recv: a size that is within the `ssize_t` range but too large to allocate raises `MemoryError` in CPython. That bound depends on the platform and is not modelled.
- Broker.CanSend: which sends raise is given by the set of broken connections. Breakage from the network during a session is not modelled beyond that set.
- Text.ParseInt: `int()` also accepts non-ASCII Unicode digits. The model accepts ASCII digits only. This matters only for a header that is not produced by `send_message_to_client`.
- Registry.AddressText: the host is written between quotes as it is. The `repr` escaping of quotes and backslashes in a host name is not modelled; an IPv4 address has none.
- Json.Loads: the reader handles only lists of strings, which is what `json.dumps` produces for the roster. It exists only to show that the roster can be read back.
- Broker.SessionRegistry: requires the connection not to be registered already, as for a freshly accepted socket.
- Transcript.SessionBystander: covers a peer whose stream is a sequence of well-formed frames, each payload at most `2^63 - 1` bytes. The other streams are covered by `Broker.Session` and the loop lemmas.
- ChatServer.Server.HandleClient, Broker.ChatLoop, Broker.Session, Broker.Attend: follow the corrected loop, which ends on an empty header after a clean close. The loop as written spins there; see Findings. So does every session-level lemma built on them, such as `Broker.SessionRegistry`, `Broker.AttendBystander` and `Transcript.SessionBystander`.
- client.py is not part of this model. It is an interactive client with no framing on its reply read.

## Findings

| source | as written | input that shows it | evidently intended | confidence | as-written member | corrected member |
|---|---|---|---|---|---|---|
| server.py:31-32 | The padding count `HEADER - len(send_length)` goes negative when the length has more than 64 digits. `b" " * negative` is then empty, and the header comes out longer than 64 bytes. A reader taking 64 bytes then parses a smaller length. | a payload of `10^64` bytes or more | every header is exactly 64 bytes; a length that does not fit is refused, and the corrected frame round trip (`Framing.FrameRoundTrip`) is proved | not executed | Framing.HeaderOverflowAsWritten | Framing.EncodeHeader |
| server.py:102-103 | When the peer closes cleanly, `recv(HEADER)` returns `b""`. `if msg_length:` then skips the turn and `connected` stays true. Every later turn does the same, so the loop never ends, and the leave notice, the deregistration and the final roster push never happen. | a client that closes its socket without sending `!DISCONNECT` | the loop ends on an empty header and the session tears down | not executed | Broker.SpinAsWritten | Broker.ChatLoopCorrected |
