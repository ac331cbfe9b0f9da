# WebRTC voice chat: signalling server and client bookkeeping

This project models the signalling side of a small WebRTC voice chat. The
server is a Node WebSocket service. It keeps an in-memory registry of rooms.
Each room has an optional password, an owner (the user id of its first
joiner) and at most six peers. The server relays WebRTC offers, answers and
ICE candidates between peers, pushes a presence snapshot (`room-state`) to
every member and a room list (`rooms`) to every connected socket, and
enforces a frame-size ceiling and a per-minute message window. The browser
client reconciles its participant list with each snapshot. It decides which
peers it calls, reconnects with capped exponential backoff, and checks the
join form before connecting.

The Dafny modules follow the program:

- `Wrappers` holds `Option` and `Result`.
- `Json` holds parsed JSON values, with JavaScript property access and truthiness.
- `JsString` holds `String.prototype.trim`, `String(n)` for counters, and the
  `<` order on strings.
- `Protocol` holds the outbound frames, and the events a handler emits: a send
  or a close.
- `Rooms` models `rooms.js`. The class `Server` holds the registry. The
  snapshots are functions over it, and the two broadcast loops are methods.
- `WsHandlers` models `wsHandlers.js`. Each handler is one atomic step
  (Node runs each to completion) on a `Server` and returns the socket calls
  it makes as events.
- `Client` models the bookkeeping of `public/client.js` as the class
  `ClientState` over the page's module-level variables.

The registry invariant (`Rooms.RegistryValid`) holds before and after every
handler:

- a connection's id is `String(n)` of its counter value;
- no connection is listed twice;
- every room in the map has between one and six distinct peers, all of them
  known connections;
- every room has a non-empty owner;
- the room order lists exactly the rooms;
- a connection that has joined a room carries its own id as its client id
  (`ws.clientId = ws.id`).

Behaviour modelled as written:

- A join that supplies an empty or missing password is admitted to a
  protected room (`WsHandlers.PasswordRule`).
- A connection that joins a second room stays in the first. The close
  handler removes it only from its current room.
- Re-joining the same room with the same user id on the same connection
  evicts and closes that connection, then admits it again.
- The room list is broadcast on close only when the connection's room still
  existed.
- `wsHandlers.js:238` reads `WebSocket.OPEN` without requiring `ws`. The
  model reads that test as "the target is open".
- The close codes 1008 and 1009 are "policy violation" and "message too big"
  of section 7.4.1 of RFC 6455.
- On `kicked`, the client sets `wasKicked` and `shouldReconnect` and then
  runs `cleanup()`, which clears `wasKicked` again, sets `shouldReconnect`
  to false and `currentRoomId` to `null` on its own. The close that follows
  does not reconnect because `cleanup()` leaves no room and reconnecting
  off; the kicked branch's own assignments make no difference to the
  final state (`Client.ClientState.OnKicked`).
- A participant is the owner only when the room's owner id is non-empty
  (`room.ownerUserId && …`).
- A `lastPingAt` of 0 reads as "never pinged" (`if (peer.lastPingAt)`).

## Model

| member | source | states |
|---|---|---|
| JsString.Trim | wsHandlers.js:14 | the trimmed string is no longer than the input and starts and ends with a non-white-space character |
| JsString.TrimIsInfix | wsHandlers.js:14 | trimming removes only leading and trailing white space: the result is a contiguous slice of the input with only white space around it |
| JsString.TrimIdempotent | wsHandlers.js:14 | trimming a trimmed string changes nothing |
| JsString.NatToString | rooms.js:22 | `String(n)` is a non-empty string of decimal digits |
| JsString.ParseNatToString | rooms.js:22 | reading the digits of `String(n)` back gives `n` |
| JsString.NatToStringInjective | rooms.js:22 | different counter values give different id strings |
| JsString.StringLessTrichotomy | public/client.js:320 | the string order is irreflexive, and of two different strings exactly one is smaller |
| JsString.StringLessTransitive | public/client.js:320 | the string order is transitive |
| JsString.TenBeforeNine | public/client.js:320 | ids are compared as strings, so `"10" < "9"` |
| Json.Prop | wsHandlers.js:142 | property access yields `undefined` for a missing property or a non-object |
| Rooms.Server.constructor | rooms.js:14-19 | the registry starts empty, valid, with the counter at 1 |
| Rooms.Server.AllocClientId | rooms.js:19-23 | returns `String(n)` for the current counter `n` and increments the counter |
| Rooms.AllocatedIdsDistinct | rooms.js:19-23 | two different counter values never hand out the same id |
| Rooms.ConnectionHealth | rooms.js:31-34 | `unknown` exactly when there was no ping (or it read 0), `ok` exactly when the last ping is at most 15000 ms old, `timeout` otherwise |
| Rooms.HealthOverTime | rooms.js:31-34 | a pinged connection is never unknown; a gap of exactly 15000 ms is still ok and one more ms is a timeout; a timeout never turns back to ok later |
| Rooms.BuildRoomState | rooms.js:25-48 | `null` exactly for an unknown room; otherwise one participant per peer in the room's order, with `count` equal to the number of peers |
| Rooms.ParticipantFields | rooms.js:35-42 | `isOwner` holds exactly for peers whose user id is the owner's; the nickname falls back to `Гость-<id>`; mute flag, ping and health copy the connection |
| Rooms.RoomStateIdsDistinct | rooms.js:30-43 | in a valid registry no two participants of a snapshot share a client id |
| Rooms.BuildRoomsList | rooms.js:68-78 | one entry per room in registry order |
| Rooms.RoomsListExact | rooms.js:68-78 | in a valid registry every room appears exactly once, with its peer count, and `hasPassword` holds exactly for a non-empty stored password |
| Rooms.SendToOpenSpec | rooms.js:56-65 | a broadcast sends its frame only to open targets, to every open target, and once each when no target repeats |
| Rooms.RoomStateSendsSpec | rooms.js:51-66 | a room-state broadcast sends nothing for an unknown room, and otherwise that room's snapshot to each of its open peers exactly once |
| Rooms.RoomsListSendsSpec | rooms.js:80-90 | the room-list broadcast sends the same list to every open connection, joined to a room or not, once each |
| Rooms.Server.BroadcastRoomState | rooms.js:51-66 | the loop emits exactly the room-state sends and changes nothing |
| Rooms.Server.BroadcastRoomsList | rooms.js:80-90 | the loop emits exactly the room-list sends and changes nothing |
| Rooms.Without | wsHandlers.js:120 | deleting from the clients set removes exactly that element, keeps every other element, and keeps them free of repeats |
| Rooms.ValidAfterConnUpdate | wsHandlers.js:255-261 | updating connection fields other than the id, the current room and the client id keeps the registry valid |
| WsHandlers.SanitizeString | wsHandlers.js:12-20 | `null` exactly for a non-string or a blank value when blanks are refused; otherwise the longest prefix of the trimmed value of at most `maxLen` characters |
| WsHandlers.SanitizeStableWithoutTruncation | wsHandlers.js:12-20 | sanitising a value again after a sanitising that did not truncate changes nothing |
| WsHandlers.SanitizeNotIdempotent | wsHandlers.js:16-18 | truncation can leave trailing white space: `"a b"` cut to 2 is `"a "`, which sanitises to `"a"` |
| WsHandlers.RateStep | wsHandlers.js:70-75 | every message is counted in a window that began at most 60 s before it: the current window counts one more, or a window opened by this message counts only it |
| WsHandlers.WindowCap | wsHandlers.js:69-90 | within one window the guard admits exactly the messages up to the 240th: min(n, 240 - count) of n messages |
| WsHandlers.WindowResets | wsHandlers.js:71-74 | a message more than 60 s after the window start opens a fresh window and is counted as the first |
| WsHandlers.MessageKind | wsHandlers.js:92-116 | a frame reaches a handler exactly when it parsed to an object whose string `type` is one of `join`, `signal`, `state`, `ping` and `kick`, and each of these reaches its own handler; any other frame is ignored |
| WsHandlers.JoinUserId | wsHandlers.js:145 | the joiner's user id falls back to the connection id, so it is never empty |
| WsHandlers.PasswordRule | wsHandlers.js:168 | a join is refused for its password exactly when a non-empty one is stored and a different non-empty one is supplied; a missing or empty password is admitted |
| WsHandlers.EvictionMembers | wsHandlers.js:179-188 | the eviction keeps exactly the peers of other users and removes exactly those of the joiner's user |
| WsHandlers.EvictionCounts | wsHandlers.js:179-188 | eviction loses and repeats no peer, and keeping every peer means nobody was evicted |
| WsHandlers.EvictionDistinct | wsHandlers.js:179-188 | eviction keeps a room free of repeated peers |
| WsHandlers.EvictSameUser | wsHandlers.js:179-188 | the loop keeps the other users' peers in order, and closes and emits a close for each peer of the joiner's user, in order |
| WsHandlers.Admit | wsHandlers.js:208 | `peers.set` puts a new key last and leaves an existing key in place; the joiner is then a peer and no repeat appears |
| WsHandlers.MarkClosed | wsHandlers.js:183 | closing sockets keeps every connection and its id |
| WsHandlers.CloseEvents | wsHandlers.js:183 | one close per evicted peer, in eviction order |
| WsHandlers.RoomVerdict | wsHandlers.js:156-199 | an admission is for the requested room and creates it exactly when it did not exist |
| WsHandlers.JoinRules | wsHandlers.js:142-199 | an invalid room id is refused; an unknown valid room always admits and is created; a known room refuses for the password exactly by the password rule, then refuses as full exactly when six peers of other users remain, and admits otherwise |
| WsHandlers.FullRefusalEvictsNobody | wsHandlers.js:179-199 | a join refused as full found six peers of other users, so eviction removed and closed nobody |
| WsHandlers.JoinedRoomShape | wsHandlers.js:179-208 | after a join the joiner is a peer, the room has one to six distinct peers, and no other peer has the joiner's user id |
| WsHandlers.JoinKeepsRoomsFixed | wsHandlers.js:156-163 | a join never rewrites the password or owner of a room that already existed |
| WsHandlers.JoinKeepsCounters | wsHandlers.js:201-208 | a join keeps every connection's id and message counters |
| WsHandlers.StoreJoin | wsHandlers.js:158-208 | storing the joined room and the updated connections keeps the registry valid |
| WsHandlers.AdmitJoiner | wsHandlers.js:201-226 | the joiner's connection records room, client id, user id and nickname (or `Гость-<id>`) and clears mute and ping; `joined` carries the room size, then room state and room list are broadcast |
| WsHandlers.AnnounceJoin | wsHandlers.js:210-226 | the joiner is told its room, its id and the room's size, then the room state and the room list are broadcast, in that order |
| WsHandlers.EvictAndAdmit | wsHandlers.js:179-226 | with six other users' peers left the join is refused as full and nothing changes; otherwise the evicted peers are closed and the joiner is admitted |
| WsHandlers.JoinRoom | wsHandlers.js:156-226 | a refused join changes nothing and answers with its error; an admitted one creates the room if needed and admits the joiner |
| WsHandlers.HandleJoin | wsHandlers.js:141-227 | an invalid room id, a wrong password or a full room answers with that error and leaves the registry unchanged; otherwise the registry becomes the joined state and the events are the evictions' closes, `joined`, the room state and the room list; the registry stays valid and other rooms keep password and owner |
| WsHandlers.FindPeer | wsHandlers.js:237 | `peers.get(key)` finds a peer whose id is the key, or reports that none has it |
| WsHandlers.SignalTargetSpec | wsHandlers.js:229-247 | `SignalTarget`: a signal goes to at most one open peer of the named room whose id is the target id, and only when the payload has a string `type` |
| WsHandlers.SignalDelivered | wsHandlers.js:229-247 | `SignalTarget`, conversely: a signal with a string payload `type` reaches the open peer of the named room whose id is the target id, and no other peer, since peer ids are distinct |
| WsHandlers.SignalToAbsentTargetDropped | wsHandlers.js:237-238 | a signal to an id that is no peer of the named room is dropped |
| WsHandlers.HandleSignal | wsHandlers.js:229-247 | forwards the payload unchanged, tagged with the sender's client id, to the signal target if there is one; nothing changes |
| WsHandlers.HasOwnKey | wsHandlers.js:253 | in a valid registry a room has a peer keyed by a connection's id exactly when that connection is a peer |
| WsHandlers.StateUpdateRules | wsHandlers.js:255-261 | `StateUpdate`: a `state` touches only nickname and mute flag, sets the nickname exactly when a non-blank one is given, and the flag only for a boolean |
| WsHandlers.HandleState | wsHandlers.js:249-264 | a connection that is a peer of its current room (`room.peers.has(ws.clientId)`) gets the state update and a room-state broadcast; anyone else changes nothing and sends nothing |
| WsHandlers.PongTs | wsHandlers.js:281 | the pong echoes a truthy `ts` and otherwise the server time |
| WsHandlers.PingUpdateRules | wsHandlers.js:266-271 | `PingUpdate`: a ping records its time and, for a numeric `ts`, the round trip; the peer then reads as ok for 15 s and as timed out after that |
| WsHandlers.HandlePing | wsHandlers.js:266-287 | the connection gets the ping update, its room's state is broadcast when it has a room, and a `pong` follows |
| WsHandlers.KickTargetSpec | wsHandlers.js:289-300 | `KickTarget`: a kick has a target exactly when the requester is the owner of its current room and a peer of that room has the target id |
| WsHandlers.HandleKick | wsHandlers.js:289-316 | the target gets `kicked` with the room id and is closed; without a target nothing happens; the room keeps the target until its close arrives |
| WsHandlers.Dispatch | wsHandlers.js:104-116 | every handler keeps the registry valid, the rooms' passwords and owners, and every connection's counters; only `join` changes rooms |
| WsHandlers.OnMessage | wsHandlers.js:51-117 | an oversize frame gets an error and close 1009 before any counting; otherwise the frame is counted; past 240 it gets an error and a close and is not dispatched; an unparsable or unknown frame is dropped |
| WsHandlers.OriginRule | wsHandlers.js:28 | an origin is refused exactly when both it and the allowed origin are non-empty and differ |
| WsHandlers.ValidAfterConnect | wsHandlers.js:34-37 | registering a connection under the counter keeps the registry valid, and its id is new |
| WsHandlers.OnConnection | wsHandlers.js:25-49 | a refused origin is closed with 1008 and not registered; otherwise the connection gets the next id, an empty window, a place in `clients` and the room list |
| WsHandlers.WithoutKey | wsHandlers.js:125 | `peers.delete(key)` keeps exactly the peers with another id, without repeats |
| WsHandlers.WithoutOwnKey | wsHandlers.js:125 | deleting a connection's own id from a room removes that connection and nobody else |
| WsHandlers.ValidAfterLeave | wsHandlers.js:125-130 | shrinking a room keeps the registry valid: an emptied room is deleted with its place in the order, and no room changes password or owner |
| WsHandlers.LeaveRoom | wsHandlers.js:124-135 | an emptied room is deleted, otherwise its state is broadcast; then the room list is broadcast |
| WsHandlers.OnClose | wsHandlers.js:118-136 | the connection leaves `clients` and is closed; if its current room exists, exactly that connection leaves it, the room is deleted exactly when nobody else was in it, and the broadcasts of `LeaveRoom` follow; otherwise no room changes and nothing is sent |
| WsHandlers.CloseInRoom | wsHandlers.js:119-135 | the close of a connection whose room exists: it leaves `clients` and exactly that room, which is deleted exactly when nobody else was in it, with the broadcasts of `LeaveRoom` |
| WsHandlers.ForgetConn | wsHandlers.js:118-119 | the closed connection leaves `clients`, its socket is no longer open, and the registry stays valid |
| WsHandlers.ClosingConnLeaves | wsHandlers.js:119-133 | in a valid registry, `peers.delete(ws.clientId)` on a close removes exactly the closing connection from its room; the room is deleted exactly when nobody else was in it, and every other room stays as it was |
| WsHandlers.LeaveShape | wsHandlers.js:124-129 | a room shrinking to its peers other than one connection: it survives exactly when another peer was in it, then holds exactly those peers, and no other room changes |
| Client.ViewOfServerParticipant | public/client.js:301-309 | `ViewOf`: for a participant the server built, the client's entry keeps nickname, mute flag, ping, health and owner flag unchanged |
| Client.Restrict | public/client.js:294-298 | keeps exactly the entries whose key is in the frame, unchanged |
| Client.MergeKeysAndSpeaking | public/client.js:300-310 | `Merge`: the merge adds exactly the frame's ids, and each entry keeps its earlier speaking flag, false for a new id |
| Client.MergeEntries | public/client.js:300-309 | `Merge` and `ViewOf`: with distinct ids, each entry is built from its participant: booleans for `muted` and `isOwner`, ping only if numeric, connection defaulting to `'unknown'` |
| Client.RoomStateReconciles | public/client.js:292-310 | after a `room-state` the keys of `participants` are exactly the frame's ids, and speaking flags survive for ids that stay |
| Client.DropMissing | public/client.js:294-298 | the delete loop leaves exactly the entries the frame names |
| Client.MergeAll | public/client.js:300-310 | the merge loop computes the merge of the frame, in order |
| Client.OfferTargets | public/client.js:313-324 | offers go exactly to the frame's ids that are not this client, have no peer connection yet, and are greater as strings |
| Client.OneSideOffers | public/client.js:317-321 | of two clients not yet connected exactly one sends the offer |
| Client.PickOffers | public/client.js:314-324 | the offer loop calls `connectToPeer` for exactly the offer targets, in frame order |
| Client.Stale | public/client.js:326-330 | exactly the peer connections the frame no longer names lose their audio |
| Client.PickStale | public/client.js:326-330 | the loop removes audio for exactly the stale peers, in order |
| Client.ClientState.OnRoomState | public/client.js:289-331 | `participants` becomes the reconciled merge; offers and removals happen only once the client knows its id |
| Client.ClientState.OnJoined | public/client.js:282-283 | the client records its id |
| Client.ReconnectDelay | public/client.js:428 | the delay is `min(1000·2^attempts, 10000)`, between 1 s and 10 s |
| Client.ReconnectDelayMonotone | public/client.js:428 | the delay never shrinks as attempts grow |
| Client.ReconnectSchedule | public/client.js:428 | the delays are 1, 2, 4 and 8 s, then 10 s from the fifth attempt on |
| Client.ClientState.ScheduleReconnect | public/client.js:426-429 | with reconnecting on and a room, the next attempt waits the delay for the current count and the count moves on; otherwise nothing happens |
| Client.ClientState.OnSocketClose | public/client.js:261-269 | a reconnect is scheduled exactly when the client was not kicked, reconnecting is on and it has a room |
| Client.ClientState.OnReconnectTimer | public/client.js:434-439 | when it fires with reconnecting on and a room, it connects to that room with the last password; otherwise nothing happens |
| Client.ClientState.StartConnection | public/client.js:246-365 | a new socket for the room and password, and the ping timer runs |
| Client.ClientState.OnOpen | public/client.js:251-255 | the open socket sends `join` with its room, its password, the nickname and the user id, and resets the attempt count |
| Client.ClientState.Cleanup | public/client.js:385-424 | the socket is closed if there was one, the ping timer stops, `participants` is emptied, and room, client id, reconnect flag, attempts, kicked flag and last ping are reset |
| Client.ClientState.OnKicked | public/client.js:334-338 | after `kicked` the client has left the room and the close that follows does not reconnect |
| Client.ClientState.constructor | public/client.js:38-57 | the page starts with no socket, room, id or participants and with reconnecting off |
| Client.PrecheckMatchesServer | public/client.js:200-229 | `JoinPrecheck`: the join button connects exactly when the trimmed room id is non-empty and at most 64, the password at most 64 and the nickname at most 32; the room id and password then pass the server's sanitising unchanged |
| Client.SavedNicknameUnchecked | public/client.js:214-218 | a blank nickname field falls back to the saved nickname, which the 32-character check never saw |
| Client.ClientState.JoinClick | public/client.js:200-230 | refused input changes nothing; accepted input sets and saves the nickname, sets room and join parameters, turns reconnecting on with zero attempts and connects |
| Client.ClientState.BeginJoin | public/client.js:218-229 | the state an accepted join leaves: nickname, room, join parameters, reconnecting on, connecting |

## Left out

- `public/webrtc.js` is not part of this model: peer connections, media, ICE and speaking detection are browser APIs and floating-point signal processing. `connectToPeer`, `removeRemoteAudio`, `cleanupPeerConnectionsOnly` and `handleSignal` on the client are therefore effects the model only names: the offer and stale lists in `OnRoomState` and the branch taken in `OnSocketClose`.
- The peer-connection ids the `room-state` branch consults are an input, taken as fixed while the branch runs. `connectToPeer` stores a new peer connection, possibly only after an `await` (when there is no local stream yet), so a later id of the same frame or the stale loop could see it; the model does not add those connections to the ids. Each id occurs once in a frame the server built (`Rooms.RoomStateIdsDistinct`) and every new connection is for an id of the frame, so neither the offers nor the stale removals are affected.
- DOM rendering, alerts, status lines and the settings overlay (`public/ui*.js`, `public/settingsStore.js`) are left out; the saved nickname is a field of `ClientState` and saving the settings is its assignment.
- `public/turnConfig.js` and `server.js` (Express, helmet, rate limiting and the TURN credential, an HMAC-SHA1 by RFC 2104 through Node `crypto`) are left out as foreign calls with no signalling logic.
- `JSON.parse` and `JSON.stringify` are not modelled: inbound frames arrive as a parsed `Json.Value` or as a parse failure, and outbound frames are the `Protocol.Frame` datatype. JSON numbers are integers; fractions, NaN and infinities are left out.
- Lengths are counted per character, not per UTF-16 code unit, so strings outside the Basic Multilingual Plane count differently in the 64- and 32-character limits. For the same reason `JsString.StringLess` compares code points where JavaScript compares UTF-16 code units; the two orders agree on the decimal client ids the client compares.
- The socket calls a handler makes are returned as `Event`s in order rather than performed; a close marks the connection as no longer open at once, and its `close` event is the separate `OnClose` step. The `ws` library dropping sends to a socket that is not open, console logging, and the `try`/`catch` around sends are left out.
- `Date.now()` is the parameter `now`, one value per event; timers (`setTimeout`, `setInterval`, the five-second ping) are the methods `OnReconnectTimer` and the flag `pinging`.
- The eviction loop of `handleJoin` deletes from the room's Map while iterating it; the model's loop collects the peers it keeps and stores them at the end. A new room is stored only once the join succeeds, which gives the same registry because a new room always admits.
- WsHandlers.OnMessage: states the effect of the dispatched handler only through what every handler keeps (registry validity, passwords and owners, counters); each handler's own contract states the rest.
- Client.ClientState.OnSocketClose: does not model the old socket's `close` event racing a newer connection; the model has one socket at a time.
- The `rooms`, `error` and `pong` branches of the client's `onmessage`, the mute and nickname buttons and `sendSignal` are outside the modelled bookkeeping.
