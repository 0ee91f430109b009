# Multi-client chat relay: server registry and router, client line rewrite

This project models, in Dafny, the core of a small Java chat system.

- `ChatServer.java` holds a static set of connected `ClientHandler`s, a map from username to handler, and a log. Each handler thread asks its client for a unique name, registers it, and announces the join. It then dispatches every line the client sends: `@target:body` is a private message, `/users` lists the active users, and anything else is broadcast. When the stream ends, the handler removes itself and announces the departure.
- `ChatClientGUI.java` trims what the user typed and rewrites `@name text` into the server's `@name: text` form. It echoes the line locally as `You: <line>` and writes it to the server.

The model has five modules, one per file.

- `Wrappers` (`wrappers.dfy`): `Option`, which also stands for a Java reference that may be null.
- `JavaString` (`java_string.dfy`): `String.trim()`, `indexOf` and `startsWith`. `trim()` strips every character up to and including U+0020 from both ends, as Java does.
- `ChatProtocol` (`chat_protocol.dfy`):
  - the exact lines the server writes;
  - the pure classification of an inbound line;
  - the text of the `/users` reply, and the `StringBuilder` loop that builds it.
- `ChatServer` (`chat_server.dfy`):
  - a `Handler` class, whose `outbox` is the sequence of lines written to its `PrintWriter`;
  - a `Server` class with the `clients` set, the `usernameMap` map and the log of (username, text) entries;
  - methods for `broadcastMessage`, `sendPrivateMessage`, `addClient`, `removeClient` and `listActiveUsers`;
  - methods for the handshake loop, the line dispatch and a whole session of `ClientHandler.run`.
- `ChatClient` (`chat_client.dfy`): the rewrite in `sendMessage` as a pure function, its round trip through the server's parser, and the `sendMessage` step on a class holding the input field, the chat area and the lines sent.

Every server operation is one atomic step on the shared state. The static methods are `synchronized` on the class. The handshake block (ChatServer.java:99) locks `usernameMap` instead, so treating it as one atomic step is an assumption of the model.

- A session's input is a finite sequence of lines. The stream ends after the last one.
- When the stream ends at a name prompt, `in.readLine()` returns null and `trim()` throws. `run` then goes straight to its `finally` block, which calls `removeClient`, and the model follows that path.
- `Server.Valid` is the registry invariant: every bound name belongs to a registered handler whose username it is, and every registered handler is bound under its own name. The constructor, the handshake, and a session that registered or sent no name at all preserve it. A session that ended while holding a name that was refused can break it (see below).

Some behaviours of the code that a reader might not expect:

- **`@` line without a colon.** It is dropped: nothing is sent, nothing is logged, and it is not broadcast.
- **Private message to an unknown user.** Only the sender is told `User <target> not found.`, and nothing is logged.
- **Join and departure notices.** They go through `broadcastMessage`, so recipients see `alice: alice has joined the chat.`, with the name prefix.
- **Empty registry.** The user list is `Active users`, because the two characters of `": "` are cut off.
- **Session that ends during the handshake.** If the client disconnects while the handshake still holds a name that was refused, `removeClient` deletes that name's map entry from the handler that owns it. It also broadcasts a departure in that name to every registered client, although the session never registered, and logs it. `ChatServer.RemovingUnregisteredHandlerUnbindsOwner` builds this case, and `Server.Run` states the unbinding, the departure broadcast and the log entry for every such session.

## Model

| member | source | states |
|---|---|---|
| JavaString.TrimStartIsSuffix | ChatServer.java:97 | stripping the front of a candidate keeps a suffix that starts with a non-blank character, and drops only characters up to U+0020 |
| JavaString.TrimEndIsPrefix | ChatServer.java:97 | stripping the back keeps a prefix that ends with a non-blank character, and drops only characters up to U+0020 |
| JavaString.TrimIsTrimmedSlice | ChatServer.java:115-116 | `trim()` returns a contiguous slice of its argument with no blank character at either end, and everything it cuts off is blank |
| JavaString.TrimOfTrimmed | ChatClientGUI.java:68-69 | a string with no blank at either end is its own trim |
| JavaString.TrimIdempotent | ChatClientGUI.java:63 | trimming twice is trimming once |
| JavaString.TrimSkipsPrefix | ChatServer.java:116 | leading blanks never change the result of `trim()` |
| JavaString.TrimStartSkipsPrefix | ChatServer.java:116 | leading blanks never change what remains after stripping the front |
| JavaString.TrimKeepsAbsentChar | ChatServer.java:115 | trimming never introduces a character that was absent |
| JavaString.TrimKeepsKeptChar | ChatClientGUI.java:68 | every non-blank character of the argument survives `trim()` |
| JavaString.TrimOfPaddedTrim | ChatServer.java:116 | the body after `": "` trims back to the trimmed text it was built from |
| JavaString.Trim | ChatServer.java:97 | `String.trim()` as used at ChatServer.java:97, 102, 115-116 and ChatClientGUI.java:63, 68-69; it has no contract of its own, and `JavaString.TrimIsTrimmedSlice` states what it returns |
| JavaString.StartsWith | ChatServer.java:112 | `startsWith("@")`, here and at ChatClientGUI.java:65: true exactly when the one-character string is a prefix of the line |
| JavaString.IndexOf | ChatServer.java:113 | the result is -1 exactly when the character is absent; otherwise it is the first position holding it |
| ChatProtocol.Classify | ChatServer.java:111-123 | a line starting with `@` is a private message if it has a `:` and is ignored otherwise; exactly `/users` lists users; every other line is broadcast verbatim (so `/users ` is a broadcast) |
| ChatProtocol.ClassifyPrivateParts | ChatServer.java:113-117 | a private message's target is the trimmed text between `@` and the first `:`, and its body the trimmed text after that colon |
| ChatProtocol.ClassifyAddressed | ChatServer.java:113-117 | `@t:b` with no colon in `t` addresses trimmed `t` with trimmed `b`; later colons stay in the body |
| ChatProtocol.TerminatedIsJoinPlusSeparator | ChatServer.java:70-75 | appending each name and `", "` gives the joined names plus one trailing separator |
| ChatProtocol.BuildUserList | ChatServer.java:69-75 | the reply is `Active users: ` then the names joined by `", "` with no trailing separator, or exactly `Active users` when there are none |
| ChatProtocol.JoinAppend | ChatServer.java:71 | joining two non-empty runs of names puts exactly one separator between them |
| ChatProtocol.UserListShowsName | ChatServer.java:68-77 | every enumerated name appears in the reply in its own slot, between separators |
| ChatServer.EnumerateKeys | ChatServer.java:70 | iterating the key set yields every bound name exactly once |
| ChatServer.Handler.constructor | ChatServer.java:85-87 | a new handler has a null username and has been sent nothing |
| ChatServer.Handler.SendMessage | ChatServer.java:141-143 | the line is appended to the handler's outbox and nothing else changes |
| ChatServer.Server.constructor | ChatServer.java:8-9 | the server starts with no clients, no bound names and an empty log, and the registry invariant holds |
| ChatServer.Server.LogMessage | ChatServer.java:27-34 | the log gains exactly one (username, text) entry |
| ChatServer.Server.BroadcastMessage | ChatServer.java:36-45 | every registered client other than the sender gets exactly one `<sender>: <message>`; the sender and unregistered handlers get nothing; the log gains one entry with the raw message |
| ChatServer.Server.SendPrivateMessage | ChatServer.java:47-56 | if the target is bound, the recipient gets `Private message from S: m`, the sender gets `Private message to T: m` (both in the sender's outbox when it is the target), and the log gains `Private to T: m`; otherwise only the sender gets `User T not found.` and nothing is logged; no one else receives anything, and the set and map do not change |
| ChatServer.Server.AddClient | ChatServer.java:58-60 | the handler joins the client set |
| ChatServer.Server.RemoveClient | ChatServer.java:62-66 | the handler leaves the set; the key equal to its username is deleted whichever handler it is bound to; every other client gets `<name>: <name> has left the chat.` and the log one entry, and the removed handler gets nothing; with a null username only the set changes; on a consistent registry, when the removed handler was registered, the name is then free and the invariant still holds |
| ChatServer.Server.ListActiveUsers | ChatServer.java:68-77 | only the asker receives a line, and it lists every bound name once, in some enumeration order |
| ChatServer.Server.HandleLine | ChatServer.java:111-123 | each classified line has exactly the effect of the private message, user list or broadcast it names; an ignored line changes no outbox and no log; a handler bound in the map but not in the client set receives nothing unless it is the bound recipient of a private message |
| ChatServer.Server.AwaitFreeName | ChatServer.java:95-103 | the client gets one prompt and then one retry prompt per taken candidate; every refused candidate is bound in the map, and the one accepted is the trimmed line that is free; the map is untouched |
| ChatServer.Server.ReadCandidates | ChatServer.java:100-103 | candidates are read and trimmed until one is free or the input ends; the handler holds the last candidate read |
| ChatServer.Server.Register | ChatServer.java:104-107 | the name becomes bound to this handler with no other key changing; the handler joins the set; every earlier client gets one `<name>: <name> has joined the chat.`; the log gains one entry; the new client then gets `Welcome to the chat, <name>!`; the invariant is kept |
| ChatServer.Server.Handshake | ChatServer.java:95-108 | a taken name is refused and leaves every binding as it was; the first free trimmed candidate is registered with all the join effects; if the input runs out first, nothing but the handler's prompts and username changes |
| ChatServer.Server.Run | ChatServer.java:90-135 | a session registers exactly when some line is a free name; a registered session leaves the client set and the map as it found them; a session that ran out of input during the handshake unbinds its last candidate from whoever owns it, sends every registered client `<name>: <name> has left the chat.` in that name and logs it; an empty input changes no client's outbox and no log; an unregistered session received only the name prompts, and no handler outside the client set received anything |
| ChatServer.RemovingUnregisteredHandlerUnbindsOwner | ChatServer.java:62-66 | after `bob` registers and a second client that asked for `bob` disconnects, `bob` is still registered but unbound, the registry is inconsistent, and `bob` is told that `bob` has left |
| ChatClient.Outgoing | ChatClientGUI.java:63-72 | nothing is sent exactly when the trimmed input is empty; input not starting with `@`, or containing no space, is sent exactly as trimmed |
| ChatClient.OutgoingAddressed | ChatClientGUI.java:65-70 | `@<word> <rest>`, where `<word>` has no space, is sent as `@` + trimmed word + `": "` + trimmed rest |
| ChatClient.OutgoingRoundTrip | ChatClientGUI.java:68-70 | when the target word has no colon, the server's parse of the rewritten line recovers the same trimmed target and the same trimmed text |
| ChatClient.ColonInTargetMisroutes | ChatClientGUI.java:66-70 | when the target word contains a colon, the server addresses the message to a name other than the word typed |
| ChatClient.ChatClientGUI.constructor | ChatClientGUI.java:28-35 | the input field and chat area start empty and nothing has been sent |
| ChatClient.ChatClientGUI.SendMessage | ChatClientGUI.java:62-78 | blank input changes nothing; otherwise the chat area gains `You: <line>`, exactly that line is written to the server, and the field is cleared |

## Left out

- Server socket, accept loop, thread creation and `main` in both programs: network I/O and process bootstrap.
- `synchronized` and the thread safety of `ConcurrentHashMap`. Each operation is one atomic step, and sessions are not interleaved: `Server.Run` is one session run alone.
- The log file, the `Date` timestamp and `printStackTrace` in `logMessage`. Only the (username, text) entry is kept.
- Closing the socket, and `IOException` handling in `run`. A read error is treated like the end of the stream, which also leads to `removeClient`.
- The iteration orders of `HashSet` and `ConcurrentHashMap`. The model states no order: a broadcast visits the clients in any order, and the user list uses some enumeration of the keys.
- The exception thrown by `trim()` on a null line. The model keeps only its effect: the handshake ends and `finally` runs.
- The exception thrown by `usernameMap.remove(null)`. The model keeps only its effect: the handler has left the set, and nothing after the removal happens.
- Swing widgets, the caret position, and the client's connection code and listener thread. The client keeps only the text of the input field, the text of the chat area, and the lines written to the server.
- ChatServer.Server.Run: does not state the outboxes or the log after a registered session, because they depend on every line dispatched. `Server.HandleLine` states each step's effect.
- JavaString.IndexOf: counts Unicode scalar values, while Java's `indexOf` counts UTF-16 code units, so the two positions differ when a character above U+FFFF comes first. The position is only used to slice the same string, so no sliced text differs.
- Backpressure, outbound queues and delivery timeouts. The code has none of them.
