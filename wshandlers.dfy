/**
 * The per-connection protocol: input sanitising, the frame guard (size
 * ceiling and per-minute message window), dispatch of `join`, `signal`,
 * `state`, `ping` and `kick`, and the cleanup when a connection closes.
 * Each handler runs to completion before the next event, so each method
 * below is one atomic step on the registry.
 */
module WsHandlers {
  import opened Wrappers
  import opened Json
  import opened JsString
  import opened Protocol
  import opened Rooms

  const MaxFrameBytes: nat := 64 * 1024
  const RateWindowMs: int := 60000
  const MaxRoomIdLength: nat := 64
  const MaxPasswordLength: nat := 64
  const MaxUserIdLength: nat := 64
  const MaxNicknameLength: nat := 32
  const MaxTargetIdLength: nat := 32

  // ---------------------------------------------------------------- sanitising

  /**
   * `sanitizeString(value, maxLen, allowEmpty)`: `null` for a non-string
   * or (unless empty values are allowed) a blank one; otherwise the longest
   * prefix of the trimmed value that fits in `maxLen` characters.
   */
  function SanitizeString(value: Value, maxLen: nat, allowEmpty: bool): (r: Option<string>)
    ensures r.None? <==> !value.JStr? || (!allowEmpty && Trim(value.s) == "")
    ensures r.Some? ==> |r.value| == if |Trim(value.s)| <= maxLen then |Trim(value.s)| else maxLen
    ensures r.Some? ==> r.value == Trim(value.s)[..|r.value|]
  {
    if !value.JStr? then None
    else
      var v := Trim(value.s);
      if !allowEmpty && |v| == 0 then None
      else if |v| > maxLen then Some(v[..maxLen])
      else Some(v)
  }

  /** Sanitising a value that needed no truncation again gives the same result. */
  lemma SanitizeStableWithoutTruncation(value: Value, maxLen: nat, allowEmpty: bool)
    requires value.JStr? && |Trim(value.s)| <= maxLen
    ensures var r := SanitizeString(value, maxLen, allowEmpty);
            r.Some? ==> SanitizeString(JStr(r.value), maxLen, allowEmpty) == r
  {
    TrimIdempotent(value.s);
  }

  /** Sanitising is not idempotent: truncation can leave white space at the end. */
  lemma SanitizeNotIdempotent()
    ensures SanitizeString(JStr("a b"), 2, false) == Some("a ")
    ensures SanitizeString(JStr("a "), 2, false) == Some("a")
  {
    assert SpaceFrom("a b", 0) == 0 && SpaceBefore("a b", 0, 3) == 0;
    assert "a b"[0..] == "a b";
    assert Trim("a b") == "a b";
    assert "a b"[..2] == "a ";
    assert SpaceFrom("a ", 0) == 0 && SpaceBefore("a ", 0, 2) == 1;
    assert "a "[0..] == "a ";
    assert Trim("a ") == "a";
  }

  // ---------------------------------------------------------------- frame guard

  /**
   * The message counter and window start after one more message at `now`;
   * the window resets lazily. The message is always counted in a window
   * that began at most 60 s before it: either the current window counts
   * one more, or a window opened by this message counts only it.
   */
  function RateStep(count: nat, windowStart: int, now: int): (r: (nat, int))
    ensures now - r.1 <= RateWindowMs
    ensures r.1 == windowStart ==> r.0 == count + 1
    ensures r.1 != windowStart ==> r == (1, now)
  {
    if now - windowStart > RateWindowMs then (1, now) else (count + 1, windowStart)
  }

  /** How many of the messages arriving at `times` the rate guard lets through. */
  function AdmittedCount(count: nat, windowStart: int, times: seq<int>): nat
    decreases |times|
  {
    if |times| == 0 then 0
    else
      var step := RateStep(count, windowStart, times[0]);
      (if step.0 <= MaxMessagesPerMinute then 1 else 0) + AdmittedCount(step.0, step.1, times[1..])
  }

  /**
   * Within one window (no arrival more than 60 s after its start) the guard
   * lets exactly the first messages through until the count reaches 240:
   * from a fresh window, min(n, 240) of n messages, and none after that.
   */
  lemma {:induction false} WindowCap(count: nat, windowStart: int, times: seq<int>)
    requires forall i :: 0 <= i < |times| ==> times[i] - windowStart <= RateWindowMs
    ensures AdmittedCount(count, windowStart, times) ==
            if count >= MaxMessagesPerMinute then 0
            else if |times| <= MaxMessagesPerMinute - count then |times|
            else MaxMessagesPerMinute - count
    decreases |times|
  {
    if |times| > 0 {
      assert times[0] - windowStart <= RateWindowMs;
      WindowCap(count + 1, windowStart, times[1..]);
    }
  }

  /** A later message after a reset starts a fresh window: it is counted as the first. */
  lemma WindowResets(count: nat, windowStart: int, now: int)
    requires now - windowStart > RateWindowMs
    ensures RateStep(count, windowStart, now) == (1, now)
    ensures RateStep(count, windowStart, now).0 <= MaxMessagesPerMinute
  {
  }

  /** An inbound frame: its size in bytes and the outcome of `JSON.parse` (`None` for bad JSON). */
  datatype Inbound = Inbound(size: nat, parsed: Option<Value>)

  datatype Kind = JoinMsg | SignalMsg | StateMsg | PingMsg | KickMsg

  /** Which handler a parsed frame goes to; bad JSON, a falsy value, a non-string or unknown `type` go nowhere. */
  function MessageKind(parsed: Option<Value>): (k: Option<Kind>)
    ensures k.Some? ==> parsed.Some? && parsed.value.JObj? && HasStringType(parsed.value)
    ensures k.Some? <==> parsed.Some? && HasStringType(parsed.value)
                         && Prop(parsed.value, "type").s in {"join", "signal", "state", "ping", "kick"}
    ensures k == Some(JoinMsg) <==> parsed.Some? && HasStringType(parsed.value) && Prop(parsed.value, "type").s == "join"
    ensures k == Some(SignalMsg) <==> parsed.Some? && HasStringType(parsed.value) && Prop(parsed.value, "type").s == "signal"
    ensures k == Some(StateMsg) <==> parsed.Some? && HasStringType(parsed.value) && Prop(parsed.value, "type").s == "state"
    ensures k == Some(PingMsg) <==> parsed.Some? && HasStringType(parsed.value) && Prop(parsed.value, "type").s == "ping"
    ensures k == Some(KickMsg) <==> parsed.Some? && HasStringType(parsed.value) && Prop(parsed.value, "type").s == "kick"
  {
    if parsed.None? then None
    else
      var data := parsed.value;
      if !Truthy(data) || !HasStringType(data) then None
      else
        var t := Prop(data, "type").s;
        if t == "join" then Some(JoinMsg)
        else if t == "signal" then Some(SignalMsg)
        else if t == "state" then Some(StateMsg)
        else if t == "ping" then Some(PingMsg)
        else if t == "kick" then Some(KickMsg)
        else None
  }

  // ---------------------------------------------------------------- join decision

  /** `sanitizeString(data.userId, 64, true) || ws.id`. */
  function JoinUserId(data: Value, connId: string): (u: string)
    ensures connId != "" ==> u != ""
  {
    var u := SanitizeString(Prop(data, "userId"), MaxUserIdLength, true);
    if Present(u) then u.value else connId
  }

  /** The password check as written: `room.password && room.password !== (password || room.password)`. */
  predicate PasswordRefuses(stored: Option<string>, supplied: Option<string>) {
    Present(stored) && stored.value != (if Present(supplied) then supplied.value else stored.value)
  }

  /**
   * A join is refused for its password exactly when a non-empty password
   * is stored and a different non-empty one is supplied; in particular an
   * empty or missing password is admitted to a protected room.
   */
  lemma PasswordRule(stored: Option<string>, supplied: Option<string>)
    ensures PasswordRefuses(stored, supplied) <==>
            Present(stored) && Present(supplied) && supplied.value != stored.value
    ensures !Present(supplied) ==> !PasswordRefuses(stored, supplied)
    ensures !PasswordRefuses(supplied, supplied)
  {
  }

  /** `peer.userId && peer.userId === userId`. */
  predicate SameUser(conn: Conn, userId: string) {
    Present(conn.userId) && conn.userId.value == userId
  }

  /** The peers the eviction loop keeps, in order. */
  function Kept(peers: seq<ConnId>, conns: map<ConnId, Conn>, userId: string): seq<ConnId>
    requires forall p :: p in peers ==> p in conns
  {
    if |peers| == 0 then []
    else
      var last := peers[|peers| - 1];
      Kept(peers[..|peers| - 1], conns, userId) + (if SameUser(conns[last], userId) then [] else [last])
  }

  /** The peers the eviction loop removes and closes, in order. */
  function Evicted(peers: seq<ConnId>, conns: map<ConnId, Conn>, userId: string): seq<ConnId>
    requires forall p :: p in peers ==> p in conns
  {
    if |peers| == 0 then []
    else
      var last := peers[|peers| - 1];
      Evicted(peers[..|peers| - 1], conns, userId) + (if SameUser(conns[last], userId) then [last] else [])
  }

  /** The kept peers are exactly those of another user, the evicted ones exactly those of this user. */
  lemma {:induction false} EvictionMembers(peers: seq<ConnId>, conns: map<ConnId, Conn>, userId: string)
    requires forall p :: p in peers ==> p in conns
    ensures forall p :: p in Kept(peers, conns, userId) <==> p in peers && !SameUser(conns[p], userId)
    ensures forall p :: p in Evicted(peers, conns, userId) <==> p in peers && SameUser(conns[p], userId)
  {
    if |peers| > 0 {
      var init := peers[..|peers| - 1];
      assert forall p :: p in peers ==> p in init || p == peers[|peers| - 1];
      EvictionMembers(init, conns, userId);
    }
  }

  /**
   * Eviction loses and repeats no peer: the kept and evicted peers add up
   * to the room, and keeping all of them means nothing was evicted.
   */
  lemma {:induction false} EvictionCounts(peers: seq<ConnId>, conns: map<ConnId, Conn>, userId: string)
    requires forall p :: p in peers ==> p in conns
    ensures |Kept(peers, conns, userId)| + |Evicted(peers, conns, userId)| == |peers|
    ensures |Kept(peers, conns, userId)| == |peers| ==>
              Kept(peers, conns, userId) == peers && Evicted(peers, conns, userId) == []
  {
    if |peers| > 0 {
      var init := peers[..|peers| - 1];
      EvictionCounts(init, conns, userId);
      if |Kept(peers, conns, userId)| == |peers| {
        assert init + [peers[|peers| - 1]] == peers;
      }
    }
  }

  /** Eviction keeps a room without repeated peers free of repeats. */
  lemma {:induction false} EvictionDistinct(peers: seq<ConnId>, conns: map<ConnId, Conn>, userId: string)
    requires forall p :: p in peers ==> p in conns
    requires Distinct(peers)
    ensures Distinct(Kept(peers, conns, userId))
  {
    if |peers| > 0 {
      var init := peers[..|peers| - 1];
      var last := peers[|peers| - 1];
      assert Distinct(init) && last !in init;
      EvictionDistinct(init, conns, userId);
      EvictionMembers(init, conns, userId);
    }
  }

  /** `room.peers.set(ws.clientId, ws)`: a new key goes last, an existing key keeps its place. */
  function Admit(peers: seq<ConnId>, c: ConnId): (r: seq<ConnId>)
    ensures c in r && forall p :: p in r <==> p in peers || p == c
    ensures Distinct(peers) ==> Distinct(r)
    ensures |r| <= |peers| + 1
    ensures c in peers ==> r == peers
    ensures c !in peers ==> r == peers + [c]
  {
    if c in peers then peers else peers + [c]
  }

  /** The connection's fields after a successful join. */
  function JoinedConn(conn: Conn, roomId: string, userId: string, nickname: Option<string>): Conn {
    conn.(roomId := Some(roomId), clientId := Some(conn.id), userId := Some(userId),
          nickname := Some(if Present(nickname) then nickname.value else GuestPrefix + conn.id),
          muted := false, lastPingAt := None, pingMs := None)
  }

  /** `conns` with the connections in `ps` closed (no longer open). */
  function MarkClosed(conns: map<ConnId, Conn>, ps: seq<ConnId>): (r: map<ConnId, Conn>)
    ensures SameIds(conns, r)
    ensures ClientIdsTied(conns) ==> ClientIdsTied(r)
  {
    map k | k in conns :: if k in ps then conns[k].(open := false) else conns[k]
  }

  function CloseEvents(ps: seq<ConnId>): (r: seq<Event>)
    ensures |r| == |ps| && forall i :: 0 <= i < |ps| ==> r[i] == Close(ps[i], None)
  {
    seq(|ps|, i requires 0 <= i < |ps| => Close(ps[i], None))
  }

  datatype JoinVerdict = Refused(error: ErrorKind) | Admitted(roomId: string, created: bool)

  /** The outcome of `handleJoin` for the valid room id `r`, on the registry before it runs. */
  function RoomVerdict(rooms: map<string, Room>, conns: map<ConnId, Conn>, r: string,
                       password: Option<string>, userId: string): (v: JoinVerdict)
    requires PeersKnown(rooms, conns)
    ensures v.Admitted? ==> v.roomId == r && (v.created <==> r !in rooms)
  {
    if r !in rooms then Admitted(r, true)
    else if PasswordRefuses(rooms[r].password, password) then Refused(WrongPassword)
    else if |Kept(rooms[r].peers, conns, userId)| >= MaxPeersPerRoom then Refused(RoomFull)
    else Admitted(r, false)
  }

  /** The outcome of `handleJoin` on the registry before it runs. */
  function Verdict(rooms: map<string, Room>, conns: map<ConnId, Conn>, c: ConnId, data: Value): JoinVerdict
    requires PeersKnown(rooms, conns) && c in conns
  {
    var roomId := JoinRoomId(data);
    if !Present(roomId) then Refused(InvalidRoomId)
    else RoomVerdict(rooms, conns, roomId.value, JoinPassword(data), JoinUserId(data, conns[c].id))
  }

  /** The sanitised fields of a `join` frame. */
  function JoinRoomId(data: Value): Option<string> {
    SanitizeString(Prop(data, "roomId"), MaxRoomIdLength, false)
  }

  function JoinPassword(data: Value): Option<string> {
    SanitizeString(Prop(data, "password"), MaxPasswordLength, true)
  }

  function JoinNickname(data: Value): Option<string> {
    SanitizeString(Prop(data, "nickname"), MaxNicknameLength, true)
  }

  /** The peers of room `r`, none when the room does not exist yet. */
  function PeersOf(rooms: map<string, Room>, r: string): seq<ConnId> {
    if r in rooms then rooms[r].peers else []
  }

  /** The connections after `c` joined `r`: same-user peers closed, the joiner's fields set. */
  function ConnsAfterJoin(conns: map<ConnId, Conn>, peers: seq<ConnId>, userId: string, c: ConnId,
                          r: string, nickname: Option<string>): map<ConnId, Conn>
    requires forall p :: p in peers ==> p in conns
    requires c in conns
  {
    var closed := MarkClosed(conns, Evicted(peers, conns, userId));
    closed[c := JoinedConn(closed[c], r, userId, nickname)]
  }

  /** The room a successful join leaves behind. */
  function RoomAfterJoin(rooms: map<string, Room>, conns: map<ConnId, Conn>, r: string, userId: string,
                         password: Option<string>, c: ConnId): Room
    requires PeersKnown(rooms, conns)
  {
    var room := if r in rooms then rooms[r] else Room(password, userId, []);
    room.(peers := Admit(Kept(room.peers, conns, userId), c))
  }

  /**
   * The join rules: an invalid room id is refused, an unknown valid room id
   * always admits (and creates the room), and a known room refuses for the
   * password exactly per `PasswordRule`; past the password it is refused as
   * full exactly when six peers of other users remain, and admitted otherwise.
   */
  lemma JoinRules(rooms: map<string, Room>, conns: map<ConnId, Conn>, c: ConnId, data: Value)
    requires PeersKnown(rooms, conns) && c in conns
    ensures var roomId := SanitizeString(Prop(data, "roomId"), MaxRoomIdLength, false);
            var password := SanitizeString(Prop(data, "password"), MaxPasswordLength, true);
            var v := Verdict(rooms, conns, c, data);
            && (v == Refused(InvalidRoomId) <==> roomId.None?)
            && (roomId.Some? && roomId.value !in rooms ==> v == Admitted(roomId.value, true))
            && (roomId.Some? && roomId.value in rooms ==>
                  (v == Refused(WrongPassword) <==>
                     Present(rooms[roomId.value].password) && Present(password)
                     && password.value != rooms[roomId.value].password.value))
            && (roomId.Some? && roomId.value in rooms ==>
                  var wrong := Present(rooms[roomId.value].password) && Present(password)
                               && password.value != rooms[roomId.value].password.value;
                  var others := Kept(rooms[roomId.value].peers, conns, JoinUserId(data, conns[c].id));
                  && (v == Refused(RoomFull) <==> !wrong && |others| >= MaxPeersPerRoom)
                  && (v == Admitted(roomId.value, false) <==> !wrong && |others| < MaxPeersPerRoom))
  {
  }

  /**
   * A join is refused as full exactly when six peers of other users remain
   * after eviction; in a room of at most six that means nobody was evicted,
   * so the refusal changes nothing.
   */
  lemma FullRefusalEvictsNobody(rooms: map<string, Room>, conns: map<ConnId, Conn>, c: ConnId, data: Value)
    requires PeersKnown(rooms, conns) && c in conns
    requires forall r :: r in rooms ==> |rooms[r].peers| <= MaxPeersPerRoom
    requires Verdict(rooms, conns, c, data) == Refused(RoomFull)
    ensures var r := SanitizeString(Prop(data, "roomId"), MaxRoomIdLength, false).value;
            var u := JoinUserId(data, conns[c].id);
            && r in rooms
            && |Kept(rooms[r].peers, conns, u)| == MaxPeersPerRoom
            && Kept(rooms[r].peers, conns, u) == rooms[r].peers
            && Evicted(rooms[r].peers, conns, u) == []
  {
    var r := SanitizeString(Prop(data, "roomId"), MaxRoomIdLength, false).value;
    var u := JoinUserId(data, conns[c].id);
    EvictionCounts(rooms[r].peers, conns, u);
  }

  /**
   * After a successful join the joiner is a peer, the room holds at most
   * six peers without repeats, and no other peer has the joiner's user id.
   */
  lemma JoinedRoomShape(peers: seq<ConnId>, conns: map<ConnId, Conn>, userId: string, c: ConnId)
    requires forall p :: p in peers ==> p in conns
    requires Distinct(peers) && userId != ""
    requires |Kept(peers, conns, userId)| < MaxPeersPerRoom
    ensures var after := Admit(Kept(peers, conns, userId), c);
            && c in after && 1 <= |after| <= MaxPeersPerRoom && Distinct(after)
            && (forall p :: p in after && p != c ==> p in peers && conns[p].userId != Some(userId))
            && (forall p :: p in peers && SameUser(conns[p], userId) && p != c ==> p !in after)
  {
    EvictionMembers(peers, conns, userId);
    EvictionDistinct(peers, conns, userId);
  }

  /** `CloseEvents`, `Evicted` and `MarkClosed` extended by one more peer. */
  lemma EvictStep(peers: seq<ConnId>, conns: map<ConnId, Conn>, userId: string, i: nat)
    requires forall p :: p in peers ==> p in conns
    requires i < |peers|
    ensures peers[..i + 1][..i] == peers[..i]
    ensures Kept(peers[..i + 1], conns, userId) ==
            Kept(peers[..i], conns, userId) + (if SameUser(conns[peers[i]], userId) then [] else [peers[i]])
    ensures Evicted(peers[..i + 1], conns, userId) ==
            Evicted(peers[..i], conns, userId) + (if SameUser(conns[peers[i]], userId) then [peers[i]] else [])
  {
    assert peers[..i + 1][..i] == peers[..i];
  }

  // ---------------------------------------------------------------- signal and kick targets

  /** `room.peers.get(key)`: the peer whose id is `key`. */
  function FindPeer(peers: seq<ConnId>, conns: map<ConnId, Conn>, key: string): (r: Option<ConnId>)
    requires forall p :: p in peers ==> p in conns
    ensures r.Some? ==> r.value in peers && conns[r.value].id == key
    ensures r.None? ==> forall p :: p in peers ==> conns[p].id != key
  {
    if |peers| == 0 then None
    else if conns[peers[0]].id == key then Some(peers[0])
    else FindPeer(peers[1..], conns, key)
  }

  /** The connection a `signal` frame is forwarded to, if any. */
  function SignalTarget(rooms: map<string, Room>, conns: map<ConnId, Conn>, data: Value): Option<ConnId>
    requires PeersKnown(rooms, conns)
  {
    var roomId := SanitizeString(Prop(data, "roomId"), MaxRoomIdLength, false);
    var targetId := SanitizeString(Prop(data, "targetId"), MaxTargetIdLength, false);
    var payload := Prop(data, "payload");
    if !Truthy(payload) || !HasStringType(payload) then None
    else if !Present(roomId) || roomId.value !in rooms then None
    else if targetId.None? then None
    else
      var target := FindPeer(rooms[roomId.value].peers, conns, targetId.value);
      if target.Some? && conns[target.value].open then target else None
  }

  /**
   * A signal goes to at most one connection: an open peer of the named
   * room whose id is the sanitised target id, and only when the payload
   * carries a string `type`.
   */
  lemma SignalTargetSpec(rooms: map<string, Room>, conns: map<ConnId, Conn>, data: Value)
    requires PeersKnown(rooms, conns)
    ensures var t := SignalTarget(rooms, conns, data);
            var roomId := SanitizeString(Prop(data, "roomId"), MaxRoomIdLength, false);
            var targetId := SanitizeString(Prop(data, "targetId"), MaxTargetIdLength, false);
            t.Some? ==>
              && HasStringType(Prop(data, "payload"))
              && roomId.Some? && roomId.value in rooms && t.value in rooms[roomId.value].peers
              && targetId.Some? && conns[t.value].id == targetId.value
              && conns[t.value].open
  {
  }

  /**
   * Conversely, a signal whose payload carries a string `type` reaches the
   * open peer of the named room whose id is the sanitised target id: ids
   * are distinct decimal strings, so no other peer can be found first.
   */
  lemma SignalDelivered(rooms: map<string, Room>, order: seq<string>, conns: map<ConnId, Conn>,
                        clients: seq<ConnId>, nextId: nat, data: Value, t: ConnId)
    requires RegistryValid(rooms, order, conns, clients, nextId)
    requires var roomId := SanitizeString(Prop(data, "roomId"), MaxRoomIdLength, false);
             var targetId := SanitizeString(Prop(data, "targetId"), MaxTargetIdLength, false);
             && HasStringType(Prop(data, "payload"))
             && roomId.Some? && roomId.value in rooms && t in rooms[roomId.value].peers
             && targetId.Some? && conns[t].id == targetId.value
             && conns[t].open
    ensures SignalTarget(rooms, conns, data) == Some(t)
  {
    var roomId := SanitizeString(Prop(data, "roomId"), MaxRoomIdLength, false);
    var targetId := SanitizeString(Prop(data, "targetId"), MaxTargetIdLength, false);
    assert Prop(data, "payload").JObj?;
    assert Present(roomId);
    var found := FindPeer(rooms[roomId.value].peers, conns, targetId.value);
    assert found.Some?;
    NatToStringInjective(found.value, t);
  }

  /** A signal whose target is not an open peer of the named room is dropped. */
  lemma SignalToAbsentTargetDropped(rooms: map<string, Room>, conns: map<ConnId, Conn>, data: Value)
    requires PeersKnown(rooms, conns)
    requires var roomId := SanitizeString(Prop(data, "roomId"), MaxRoomIdLength, false);
             var targetId := SanitizeString(Prop(data, "targetId"), MaxTargetIdLength, false);
             roomId.Some? && roomId.value in rooms && targetId.Some? &&
             forall p :: p in rooms[roomId.value].peers ==> conns[p].id != targetId.value
    ensures SignalTarget(rooms, conns, data).None?
  {
  }

  /** The connection a `kick` frame from `c` closes, if any. */
  function KickTarget(rooms: map<string, Room>, conns: map<ConnId, Conn>, c: ConnId, data: Value): Option<ConnId>
    requires PeersKnown(rooms, conns) && c in conns
  {
    var roomId := conns[c].roomId;
    if !Present(roomId) || roomId.value !in rooms then None
    else if Some(rooms[roomId.value].ownerUserId) != conns[c].userId then None
    else
      var targetId := SanitizeString(Prop(data, "targetId"), MaxTargetIdLength, false);
      if !Present(targetId) then None
      else FindPeer(rooms[roomId.value].peers, conns, targetId.value)
  }

  /**
   * Only the owner kicks: a kick has a target exactly when the requester's
   * user id is the owner of its current room and a peer of that room has
   * the sanitised target id.
   */
  lemma KickTargetSpec(rooms: map<string, Room>, conns: map<ConnId, Conn>, c: ConnId, data: Value)
    requires PeersKnown(rooms, conns) && c in conns
    ensures var t := KickTarget(rooms, conns, c, data);
            var roomId := conns[c].roomId;
            var targetId := SanitizeString(Prop(data, "targetId"), MaxTargetIdLength, false);
            && (t.Some? ==>
                  && Present(roomId) && roomId.value in rooms
                  && conns[c].userId == Some(rooms[roomId.value].ownerUserId)
                  && t.value in rooms[roomId.value].peers
                  && targetId.Some? && conns[t.value].id == targetId.value)
            && (Present(roomId) && roomId.value in rooms && conns[c].userId == Some(rooms[roomId.value].ownerUserId)
                && targetId.Some? && (exists p :: p in rooms[roomId.value].peers && conns[p].id == targetId.value)
                ==> t.Some?)
  {
  }

  // ---------------------------------------------------------------- two-state helpers

  /** Password and owner of a room that exists before and after never change. */
  ghost predicate RoomsFixed(before: map<string, Room>, after: map<string, Room>) {
    forall r :: r in before && r in after ==>
      after[r].ownerUserId == before[r].ownerUserId && after[r].password == before[r].password
  }

  /** The rate-limit counters of every connection are untouched. */
  ghost predicate CountersKept(before: map<ConnId, Conn>, after: map<ConnId, Conn>) {
    && SameIds(before, after)
    && forall k :: k in before ==>
         after[k].msgCount == before[k].msgCount && after[k].windowStart == before[k].windowStart
  }

  lemma MarkClosedStep(conns: map<ConnId, Conn>, ps: seq<ConnId>, p: ConnId)
    requires p in conns
    ensures MarkClosed(conns, ps + [p]) == MarkClosed(conns, ps)[p := conns[p].(open := false)]
  {
  }

  /** Replacing a connection by one that, if it has joined, carries its own id as client id keeps the ids tied. */
  lemma TiedStep(conns: map<ConnId, Conn>, k: ConnId, v: Conn)
    requires ClientIdsTied(conns)
    requires v.roomId.Some? ==> v.clientId == Some(v.id)
    ensures ClientIdsTied(conns[k := v])
  {
  }

  lemma SameIdsStep(a: map<ConnId, Conn>, b: map<ConnId, Conn>, k: ConnId, v: Conn)
    requires SameIds(a, b) && k in b && v.id == b[k].id
    ensures SameIds(a, b[k := v])
  {
  }

  /** Replacing one connection by one with the same id and counters keeps all counters. */
  lemma CountersKeptStep(conns: map<ConnId, Conn>, k: ConnId, v: Conn)
    requires k in conns && v.id == conns[k].id
    requires v.msgCount == conns[k].msgCount && v.windowStart == conns[k].windowStart
    ensures CountersKept(conns, conns[k := v])
  {
  }

  lemma MarkClosedNothing(conns: map<ConnId, Conn>)
    ensures MarkClosed(conns, []) == conns
  {
  }

  lemma CloseEventsStep(ps: seq<ConnId>, p: ConnId)
    ensures CloseEvents(ps + [p]) == CloseEvents(ps) + [Close(p, None)]
  {
    assert CloseEvents(ps + [p])[..|ps|] == CloseEvents(ps);
  }

  /** Replacing or adding the room `r` by a valid one, and updating connections but not their ids, keeps the registry valid. */
  lemma ValidAfterJoin(rooms0: map<string, Room>, order0: seq<string>, conns0: map<ConnId, Conn>,
                       clients: seq<ConnId>, nextId: nat,
                       rooms1: map<string, Room>, order1: seq<string>, conns1: map<ConnId, Conn>,
                       r: string)
    requires RegistryValid(rooms0, order0, conns0, clients, nextId)
    requires SameIds(conns0, conns1) && ClientIdsTied(conns1)
    requires r in rooms1 && forall x :: x in rooms1 <==> x in rooms0 || x == r
    requires forall x :: x in rooms0 && x != r ==> rooms1[x] == rooms0[x]
    requires order1 == if r in rooms0 then order0 else order0 + [r]
    requires RoomValid(r, rooms1[r]) && forall p :: p in rooms1[r].peers ==> p in conns1
    ensures RegistryValid(rooms1, order1, conns1, clients, nextId)
  {
    forall x | x in rooms1 ensures RoomValid(x, rooms1[x]) {
      if x != r {
        assert RoomValid(x, rooms0[x]);
      }
    }
    if r !in rooms0 {
      assert r !in order0;
    }
  }

  // ---------------------------------------------------------------- handlers

  /**
   * The eviction loop of `handleJoin`: deletes from room `r` and closes
   * every peer whose user id is `userId`, in the room's order. (The source
   * deletes from the Map while iterating it; the loop here collects the
   * peers it keeps and stores them at the end.)
   */
  method EvictSameUser(peers: seq<ConnId>, conns0: map<ConnId, Conn>, userId: string)
      returns (kept: seq<ConnId>, conns: map<ConnId, Conn>, events: seq<Event>)
    requires forall p :: p in peers ==> p in conns0
    ensures kept == Kept(peers, conns0, userId)
    ensures conns == MarkClosed(conns0, Evicted(peers, conns0, userId))
    ensures events == CloseEvents(Evicted(peers, conns0, userId))
  {
    conns, events := conns0, [];
    kept := [];
    var i := 0;
    while i < |peers|
      invariant 0 <= i <= |peers|
      invariant kept == Kept(peers[..i], conns0, userId)
      invariant conns == MarkClosed(conns0, Evicted(peers[..i], conns0, userId))
      invariant events == CloseEvents(Evicted(peers[..i], conns0, userId))
    {
      var p := peers[i];
      EvictStep(peers, conns0, userId, i);
      var peer := conns[p];
      assert peer.userId == conns0[p].userId && peer.(open := false) == conns0[p].(open := false);
      if SameUser(peer, userId) {
        MarkClosedStep(conns0, Evicted(peers[..i], conns0, userId), p);
        CloseEventsStep(Evicted(peers[..i], conns0, userId), p);
        conns := conns[p := peer.(open := false)];
        events := events + [Close(p, None)];
      } else {
        kept := kept + [p];
      }
      i := i + 1;
    }
    assert peers[..i] == peers;
  }

  /** What a successful `handleJoin` sends: `joined` to the joiner, then the room state and the room list. */
  method AnnounceJoin(s: Server, c: ConnId, r: string, now: int) returns (events: seq<Event>)
    requires s.Valid() && c in s.conns && r in s.rooms
    ensures events == [Send(c, JoinedFrame(r, s.conns[c].id, |s.rooms[r].peers|))]
                        + RoomStateSends(s.rooms, s.conns, r, now)
                        + RoomsListSends(s.rooms, s.roomOrder, s.clients, s.conns)
  {
    var stateEvents := s.BroadcastRoomState(r, now);
    var listEvents := s.BroadcastRoomsList();
    events := [Send(c, JoinedFrame(r, s.conns[c].id, |s.rooms[r].peers|))] + stateEvents + listEvents;
  }

  /**
   * Stores the room `r` a join produced and the connections after it: a
   * valid room whose peers are known connections, and connections whose
   * ids are unchanged, keep the registry valid.
   */
  method StoreJoin(s: Server, r: string, joined: Room, conns: map<ConnId, Conn>)
    requires s.Valid() && SameIds(s.conns, conns) && ClientIdsTied(conns)
    requires RoomValid(r, joined) && forall p :: p in joined.peers ==> p in conns
    modifies s
    ensures s.Valid()
    ensures s.rooms == old(s.rooms)[r := joined]
    ensures s.roomOrder == if r in old(s.rooms) then old(s.roomOrder) else old(s.roomOrder) + [r]
    ensures s.conns == conns
    ensures s.clients == old(s.clients) && s.nextClientId == old(s.nextClientId)
  {
    var order := if r in s.rooms then s.roomOrder else s.roomOrder + [r];
    ValidAfterJoin(s.rooms, s.roomOrder, s.conns, s.clients, s.nextClientId, s.rooms[r := joined], order, conns, r);
    s.rooms, s.roomOrder, s.conns := s.rooms[r := joined], order, conns;
  }

  /**
   * The end of a successful `handleJoin`: the joiner is added to the kept
   * peers of `room` (after those already there), its connection records
   * room, client id, user id and nickname (`Guest-` and its id when none
   * was given) and clears mute and ping state; then it is announced.
   */
  method AdmitJoiner(s: Server, c: ConnId, r: string, room: Room, kept: seq<ConnId>,
                     closed: map<ConnId, Conn>, userId: string, nickname: Option<string>, now: int)
      returns (events: seq<Event>)
    requires s.Valid() && c in s.conns && SameIds(s.conns, closed) && ClientIdsTied(closed)
    requires r != "" && room.ownerUserId != ""
    requires Distinct(kept) && |kept| < MaxPeersPerRoom && forall p :: p in kept ==> p in s.conns
    modifies s
    ensures s.Valid()
    ensures s.rooms == old(s.rooms)[r := room.(peers := Admit(kept, c))]
    ensures s.roomOrder == if r in old(s.rooms) then old(s.roomOrder) else old(s.roomOrder) + [r]
    ensures s.conns == closed[c := JoinedConn(closed[c], r, userId, nickname)]
    ensures s.clients == old(s.clients) && s.nextClientId == old(s.nextClientId)
    ensures events == [Send(c, JoinedFrame(r, old(s.conns)[c].id, |s.rooms[r].peers|))]
                        + RoomStateSends(s.rooms, s.conns, r, now)
                        + RoomsListSends(s.rooms, s.roomOrder, s.clients, s.conns)
  {
    var joined := room.(peers := Admit(kept, c));
    var conns := closed[c := JoinedConn(closed[c], r, userId, nickname)];
    SameIdsStep(s.conns, closed, c, JoinedConn(closed[c], r, userId, nickname));
    TiedStep(closed, c, JoinedConn(closed[c], r, userId, nickname));
    StoreJoin(s, r, joined, conns);
    events := AnnounceJoin(s, c, r, now);
  }

  /**
   * The part of `handleJoin` after the password check: the peers of `room`
   * with the joiner's user id are evicted and closed; if six peers remain
   * the join is refused as full (and then nobody was evicted), otherwise
   * the joiner is admitted.
   */
  method EvictAndAdmit(s: Server, c: ConnId, r: string, room: Room, userId: string,
                       nickname: Option<string>, now: int) returns (events: seq<Event>)
    requires s.Valid() && c in s.conns && r != "" && room.ownerUserId != ""
    requires Distinct(room.peers) && |room.peers| <= MaxPeersPerRoom
    requires forall p :: p in room.peers ==> p in s.conns
    modifies s
    ensures s.Valid()
    ensures s.clients == old(s.clients) && s.nextClientId == old(s.nextClientId)
    ensures |Kept(room.peers, old(s.conns), userId)| >= MaxPeersPerRoom ==>
              && s.rooms == old(s.rooms) && s.roomOrder == old(s.roomOrder) && s.conns == old(s.conns)
              && events == [Send(c, ErrorFrame(RoomFull))]
    ensures |Kept(room.peers, old(s.conns), userId)| < MaxPeersPerRoom ==>
              && s.rooms == old(s.rooms)[r := room.(peers := Admit(Kept(room.peers, old(s.conns), userId), c))]
              && s.roomOrder == (if r in old(s.rooms) then old(s.roomOrder) else old(s.roomOrder) + [r])
              && s.conns == ConnsAfterJoin(old(s.conns), room.peers, userId, c, r, nickname)
              && events == CloseEvents(Evicted(room.peers, old(s.conns), userId))
                   + ([Send(c, JoinedFrame(r, old(s.conns)[c].id, |s.rooms[r].peers|))]
                      + RoomStateSends(s.rooms, s.conns, r, now)
                      + RoomsListSends(s.rooms, s.roomOrder, s.clients, s.conns))
  {
    var kept, closed, closeEvents := EvictSameUser(room.peers, s.conns, userId);
    EvictionCounts(room.peers, s.conns, userId);
    if |kept| >= MaxPeersPerRoom {
      // nobody was evicted, so the registry is as it was
      assert kept == room.peers && Evicted(room.peers, s.conns, userId) == [];
      MarkClosedNothing(s.conns);
      return closeEvents + [Send(c, ErrorFrame(RoomFull))];
    }
    EvictionDistinct(room.peers, s.conns, userId);
    EvictionMembers(room.peers, s.conns, userId);
    var joinEvents := AdmitJoiner(s, c, r, room, kept, closed, userId, nickname, now);
    events := closeEvents + joinEvents;
  }

  /**
   * The part of `handleJoin` after the room id was found valid: the room is
   * looked up, or created with the joiner as owner and the supplied
   * password (a new room always admits its first joiner, so it is stored
   * only once the join succeeds); the password and the capacity are
   * checked, the earlier peers with the joiner's user id are evicted and
   * closed, and the joiner is admitted and announced.
   */
  method JoinRoom(s: Server, c: ConnId, r: string, password: Option<string>, nickname: Option<string>,
                  userId: string, now: int) returns (events: seq<Event>)
    requires s.Valid() && c in s.conns && r != "" && userId != ""
    modifies s
    ensures s.Valid()
    ensures s.clients == old(s.clients) && s.nextClientId == old(s.nextClientId)
    ensures RoomVerdict(old(s.rooms), old(s.conns), r, password, userId).Refused? ==>
              && s.rooms == old(s.rooms) && s.roomOrder == old(s.roomOrder) && s.conns == old(s.conns)
              && events == [Send(c, ErrorFrame(RoomVerdict(old(s.rooms), old(s.conns), r, password, userId).error))]
    ensures RoomVerdict(old(s.rooms), old(s.conns), r, password, userId).Admitted? ==>
              var peers0 := PeersOf(old(s.rooms), r);
              && s.rooms == old(s.rooms)[r := RoomAfterJoin(old(s.rooms), old(s.conns), r, userId, password, c)]
              && s.roomOrder == (if r in old(s.rooms) then old(s.roomOrder) else old(s.roomOrder) + [r])
              && s.conns == ConnsAfterJoin(old(s.conns), peers0, userId, c, r, nickname)
              && events == CloseEvents(Evicted(peers0, old(s.conns), userId))
                   + ([Send(c, JoinedFrame(r, old(s.conns)[c].id, |s.rooms[r].peers|))]
                      + RoomStateSends(s.rooms, s.conns, r, now)
                      + RoomsListSends(s.rooms, s.roomOrder, s.clients, s.conns))
  {
    ghost var verdict := RoomVerdict(s.rooms, s.conns, r, password, userId);
    var existing := r in s.rooms;
    var room := if existing then s.rooms[r] else Room(password, userId, []);
    assert existing ==> RoomValid(r, room);
    if PasswordRefuses(room.password, password) {
      assert verdict == Refused(WrongPassword);
      return [Send(c, ErrorFrame(WrongPassword))];
    }
    assert |Kept(room.peers, s.conns, userId)| >= MaxPeersPerRoom ==> verdict == Refused(RoomFull);
    assert |Kept(room.peers, s.conns, userId)| < MaxPeersPerRoom ==> verdict == Admitted(r, !existing);
    events := EvictAndAdmit(s, c, r, room, userId, nickname, now);
  }

  /**
   * `handleJoin(ws, data)`. A refused join (invalid room id, wrong
   * password, full room) answers with an error and leaves the registry as
   * it was. A successful one creates the room if it is unknown, evicts and
   * closes the earlier peers with the joiner's user id, admits the joiner,
   * replies `joined` and broadcasts the room state and the room list.
   */
  method HandleJoin(s: Server, c: ConnId, data: Value, now: int) returns (events: seq<Event>)
    requires s.Valid() && c in s.conns
    modifies s
    ensures s.Valid()
    ensures s.clients == old(s.clients) && s.nextClientId == old(s.nextClientId)
    ensures RoomsFixed(old(s.rooms), s.rooms) && CountersKept(old(s.conns), s.conns)
    ensures Verdict(old(s.rooms), old(s.conns), c, data).Refused? ==>
              && s.rooms == old(s.rooms) && s.roomOrder == old(s.roomOrder) && s.conns == old(s.conns)
              && events == [Send(c, ErrorFrame(Verdict(old(s.rooms), old(s.conns), c, data).error))]
    ensures Verdict(old(s.rooms), old(s.conns), c, data).Admitted? ==>
              var r := JoinRoomId(data).value;
              var u := JoinUserId(data, old(s.conns)[c].id);
              var peers0 := PeersOf(old(s.rooms), r);
              && s.rooms == old(s.rooms)[r := RoomAfterJoin(old(s.rooms), old(s.conns), r, u, JoinPassword(data), c)]
              && s.roomOrder == (if r in old(s.rooms) then old(s.roomOrder) else old(s.roomOrder) + [r])
              && s.conns == ConnsAfterJoin(old(s.conns), peers0, u, c, r, JoinNickname(data))
              && events == CloseEvents(Evicted(peers0, old(s.conns), u))
                   + ([Send(c, JoinedFrame(r, old(s.conns)[c].id, |s.rooms[r].peers|))]
                      + RoomStateSends(s.rooms, s.conns, r, now)
                      + RoomsListSends(s.rooms, s.roomOrder, s.clients, s.conns))
  {
    var roomId := JoinRoomId(data);
    if !Present(roomId) {
      return [Send(c, ErrorFrame(InvalidRoomId))];
    }
    assert s.conns[c].id == NatToString(c);
    var userId := JoinUserId(data, s.conns[c].id);
    assert Verdict(s.rooms, s.conns, c, data) == RoomVerdict(s.rooms, s.conns, roomId.value, JoinPassword(data), userId);
    events := JoinRoom(s, c, roomId.value, JoinPassword(data), JoinNickname(data), userId, now);
    if Verdict(old(s.rooms), old(s.conns), c, data).Admitted? {
      JoinKeepsRoomsFixed(old(s.rooms), old(s.conns), roomId.value, userId, JoinPassword(data), c);
      JoinKeepsCounters(old(s.conns), PeersOf(old(s.rooms), roomId.value), userId, c, roomId.value, JoinNickname(data));
    }
  }

  /**
   * `handleSignal(ws, data)`: the payload goes to the target named in the
   * frame, tagged with the sender's client id; nothing changes.
   */
  method HandleSignal(s: Server, c: ConnId, data: Value) returns (events: seq<Event>)
    requires s.Valid() && c in s.conns
    ensures var t := SignalTarget(s.rooms, s.conns, data);
            events == if t.Some? then [Send(t.value, SignalFrame(s.conns[c].clientId, Prop(data, "payload")))] else []
  {
    var roomId := SanitizeString(Prop(data, "roomId"), MaxRoomIdLength, false);
    var targetId := SanitizeString(Prop(data, "targetId"), MaxTargetIdLength, false);
    var payload := Prop(data, "payload");
    if !Truthy(payload) || !HasStringType(payload) {
      return [];
    }
    if !Present(roomId) || roomId.value !in s.rooms {
      return [];
    }
    var room := s.rooms[roomId.value];
    // `room.peers.get(null)` finds nobody
    var target := if targetId.None? then None else FindPeer(room.peers, s.conns, targetId.value);
    if target.Some? && s.conns[target.value].open {
      events := [Send(target.value, SignalFrame(s.conns[c].clientId, payload))];
    } else {
      events := [];
    }
  }

  /** `room.peers.has(key)`: some peer's id is `key`. */
  predicate HasKey(peers: seq<ConnId>, conns: map<ConnId, Conn>, key: Option<string>)
    requires forall p :: p in peers ==> p in conns
  {
    key.Some? && FindPeer(peers, conns, key.value).Some?
  }

  /**
   * In a valid registry the only peer whose id is a connection's own id is
   * that connection: the Map key test is membership of the connection.
   */
  lemma HasOwnKey(rooms: map<string, Room>, order: seq<string>, conns: map<ConnId, Conn>,
                  clients: seq<ConnId>, nextId: nat, r: string, c: ConnId)
    requires RegistryValid(rooms, order, conns, clients, nextId) && r in rooms && c in conns
    ensures HasKey(rooms[r].peers, conns, Some(conns[c].id)) <==> c in rooms[r].peers
  {
    var peers := rooms[r].peers;
    var t := FindPeer(peers, conns, conns[c].id);
    if t.Some? && t.value != c {
      NatToStringInjective(t.value, c);
    }
  }

  /** The connection after a `state` frame: a non-empty nickname replaces the stored one, a boolean `muted` the flag. */
  function StateUpdate(conn: Conn, data: Value): Conn {
    var nickname := SanitizeString(Prop(data, "nickname"), MaxNicknameLength, true);
    var muted := Prop(data, "muted");
    conn.(nickname := if Present(nickname) then nickname else conn.nickname,
          muted := if muted.JBool? then muted.b else conn.muted)
  }

  /**
   * A `state` frame touches only the nickname and the mute flag; it never
   * clears a nickname, sets it exactly when a non-blank one is supplied,
   * and changes the flag only for a boolean `muted`.
   */
  lemma StateUpdateRules(conn: Conn, data: Value)
    ensures var r := StateUpdate(conn, data);
            var nickname := SanitizeString(Prop(data, "nickname"), MaxNicknameLength, true);
            && r == conn.(nickname := r.nickname, muted := r.muted)
            && (Present(r.nickname) <==> Present(conn.nickname) || Present(nickname))
            && (Present(nickname) ==> r.nickname == nickname && |r.nickname.value| <= MaxNicknameLength)
            && (!Prop(data, "muted").JBool? ==> r.muted == conn.muted)
            && (Prop(data, "muted") == JBool(true) ==> r.muted)
            && (Prop(data, "muted") == JBool(false) ==> !r.muted)
  {
  }

  /**
   * `handleState(ws, data)`: for a connection that is a peer of its
   * current room, updates its nickname and mute flag and broadcasts the
   * room state; otherwise nothing happens.
   */
  method HandleState(s: Server, c: ConnId, data: Value, now: int) returns (events: seq<Event>)
    requires s.Valid() && c in s.conns
    modifies s`conns
    ensures s.Valid() && CountersKept(old(s.conns), s.conns)
    ensures var r := old(s.conns)[c].roomId;
            if Present(r) && r.value in s.rooms && c in s.rooms[r.value].peers
            then s.conns == old(s.conns)[c := StateUpdate(old(s.conns)[c], data)]
                 && events == RoomStateSends(s.rooms, s.conns, r.value, now)
            else s.conns == old(s.conns) && events == []
  {
    var roomId := s.conns[c].roomId;
    if !Present(roomId) || roomId.value !in s.rooms {
      return [];
    }
    var room := s.rooms[roomId.value];
    // the connection has joined, so its client id is its own id and the key test is membership
    assert s.conns[c].clientId == Some(s.conns[c].id);
    HasOwnKey(s.rooms, s.roomOrder, s.conns, s.clients, s.nextClientId, roomId.value, c);
    if !HasKey(room.peers, s.conns, s.conns[c].clientId) {
      return [];
    }
    var conns := s.conns[c := StateUpdate(s.conns[c], data)];
    CountersKeptStep(s.conns, c, StateUpdate(s.conns[c], data));
    ValidAfterConnUpdate(s.rooms, s.roomOrder, s.conns, s.clients, s.nextClientId, c, StateUpdate(s.conns[c], data));
    s.conns := conns;
    events := s.BroadcastRoomState(roomId.value, now);
  }

  /** `data.ts || nowTs`: the timestamp a `pong` echoes. */
  function PongTs(data: Value, now: int): (ts: Value)
    ensures Truthy(Prop(data, "ts")) ==> ts == Prop(data, "ts")
    ensures !Truthy(Prop(data, "ts")) ==> ts == JNum(now)
  {
    var ts := Prop(data, "ts");
    if Truthy(ts) then ts else JNum(now)
  }

  /** The connection after a `ping` at `now`: the ping time, and the round trip when `ts` is a number. */
  function PingUpdate(conn: Conn, data: Value, now: int): Conn {
    var ts := Prop(data, "ts");
    conn.(lastPingAt := Some(now), pingMs := if ts.JNum? then Some(now - ts.n) else conn.pingMs)
  }

  /**
   * A ping records its time and, for a numeric `ts`, the round trip; after
   * it the participant reads as connected for 15 s (unless the clock read
   * 0, which `if (peer.lastPingAt)` takes for "never pinged").
   */
  lemma PingUpdateRules(conn: Conn, data: Value, now: int, later: int)
    requires now <= later
    ensures var r := PingUpdate(conn, data, now);
            && r == conn.(lastPingAt := r.lastPingAt, pingMs := r.pingMs)
            && (Prop(data, "ts").JNum? ==> r.pingMs == Some(now - Prop(data, "ts").n))
            && (!Prop(data, "ts").JNum? ==> r.pingMs == conn.pingMs)
            && (now != 0 && later <= now + PingTimeoutMs ==> ConnectionHealth(r.lastPingAt, later) == Healthy)
            && (now != 0 && later > now + PingTimeoutMs ==> ConnectionHealth(r.lastPingAt, later) == Timeout)
            && (now == 0 ==> ConnectionHealth(r.lastPingAt, later) == Unknown)
  {
  }

  /**
   * `handlePing(ws, data)`: records the ping, broadcasts the room state
   * when the connection's room exists, and answers with a `pong`.
   */
  method HandlePing(s: Server, c: ConnId, data: Value, now: int) returns (events: seq<Event>)
    requires s.Valid() && c in s.conns
    modifies s`conns
    ensures s.Valid() && CountersKept(old(s.conns), s.conns)
    ensures s.conns == old(s.conns)[c := PingUpdate(old(s.conns)[c], data, now)]
    ensures var r := old(s.conns)[c].roomId;
            events == (if Present(r) then RoomStateSends(s.rooms, s.conns, r.value, now) else [])
                      + [Send(c, PongFrame(PongTs(data, now)))]
  {
    var conns := s.conns[c := PingUpdate(s.conns[c], data, now)];
    CountersKeptStep(s.conns, c, PingUpdate(s.conns[c], data, now));
    ValidAfterConnUpdate(s.rooms, s.roomOrder, s.conns, s.clients, s.nextClientId, c, PingUpdate(s.conns[c], data, now));
    s.conns := conns;
    var roomId := s.conns[c].roomId;
    var stateEvents := [];
    if Present(roomId) && roomId.value in s.rooms {
      stateEvents := s.BroadcastRoomState(roomId.value, now);
    }
    events := stateEvents + [Send(c, PongFrame(PongTs(data, now)))];
  }

  /**
   * `handleKick(ws, data)`: when the owner names a peer of its room, that
   * peer is told it was kicked and its socket is closed; it leaves the room
   * only when its `close` event arrives.
   */
  method HandleKick(s: Server, c: ConnId, data: Value) returns (events: seq<Event>)
    requires s.Valid() && c in s.conns
    modifies s`conns
    ensures s.Valid() && CountersKept(old(s.conns), s.conns)
    ensures var t := KickTarget(s.rooms, old(s.conns), c, data);
            if t.Some?
            then s.conns == old(s.conns)[t.value := old(s.conns)[t.value].(open := false)]
                 && events == [Send(t.value, KickedFrame(old(s.conns)[c].roomId.value)), Close(t.value, None)]
            else s.conns == old(s.conns) && events == []
  {
    ghost var kicked := KickTarget(s.rooms, s.conns, c, data);
    var roomId := s.conns[c].roomId;
    if !Present(roomId) || roomId.value !in s.rooms {
      assert kicked.None?;
      return [];
    }
    var room := s.rooms[roomId.value];
    if Some(room.ownerUserId) != s.conns[c].userId {
      // not the owner
      assert kicked.None?;
      return [];
    }
    var targetId := SanitizeString(Prop(data, "targetId"), MaxTargetIdLength, false);
    if !Present(targetId) {
      assert kicked.None?;
      return [];
    }
    var target := FindPeer(room.peers, s.conns, targetId.value);
    assert kicked == target;
    if target.None? {
      return [];
    }
    var t := target.value;
    var conns := s.conns[t := s.conns[t].(open := false)];
    CountersKeptStep(s.conns, t, s.conns[t].(open := false));
    ValidAfterConnUpdate(s.rooms, s.roomOrder, s.conns, s.clients, s.nextClientId, t, s.conns[t].(open := false));
    s.conns := conns;
    events := [Send(t, KickedFrame(roomId.value)), Close(t, None)];
  }

  /** A join leaves the password and owner of every room that already existed as they were. */
  lemma JoinKeepsRoomsFixed(rooms: map<string, Room>, conns: map<ConnId, Conn>, r: string, userId: string,
                            password: Option<string>, c: ConnId)
    requires PeersKnown(rooms, conns)
    ensures RoomsFixed(rooms, rooms[r := RoomAfterJoin(rooms, conns, r, userId, password, c)])
  {
  }

  /** A join keeps every connection's id and message counters. */
  lemma JoinKeepsCounters(conns: map<ConnId, Conn>, peers: seq<ConnId>, userId: string, c: ConnId,
                          r: string, nickname: Option<string>)
    requires forall p :: p in peers ==> p in conns
    requires c in conns
    ensures CountersKept(conns, ConnsAfterJoin(conns, peers, userId, c, r, nickname))
  {
  }

  /**
   * The `if` chain over `data.type`: each known type goes to its handler;
   * whichever runs, the rooms keep their passwords and owners and every
   * connection keeps its id and message counters.
   */
  method Dispatch(s: Server, c: ConnId, kind: Kind, data: Value, now: int) returns (events: seq<Event>)
    requires s.Valid() && c in s.conns
    modifies s
    ensures s.Valid()
    ensures s.clients == old(s.clients) && s.nextClientId == old(s.nextClientId)
    ensures RoomsFixed(old(s.rooms), s.rooms)
    ensures CountersKept(old(s.conns), s.conns)
    ensures kind != JoinMsg ==> s.rooms == old(s.rooms) && s.roomOrder == old(s.roomOrder)
  {
    match kind
    case JoinMsg =>
      events := HandleJoin(s, c, data, now);
    case SignalMsg =>
      events := HandleSignal(s, c, data);
    case StateMsg =>
      events := HandleState(s, c, data, now);
    case PingMsg =>
      events := HandlePing(s, c, data, now);
    case KickMsg =>
      events := HandleKick(s, c, data);
  }

  /**
   * `ws.on('message')`: a frame over 64 KiB is answered with an error and
   * the socket closed with 1009; otherwise the frame is counted against the
   * per-minute window, and past 240 messages it is answered with an error
   * and the socket closed; otherwise a parsed frame of a known type goes to
   * its handler, and anything else is dropped.
   */
  method OnMessage(s: Server, c: ConnId, msg: Inbound, now: int) returns (events: seq<Event>)
    requires s.Valid() && c in s.conns
    modifies s
    ensures s.Valid()
    ensures s.clients == old(s.clients) && s.nextClientId == old(s.nextClientId)
    ensures RoomsFixed(old(s.rooms), s.rooms)
    ensures c in s.conns
    ensures msg.size > MaxFrameBytes ==>
              && s.rooms == old(s.rooms) && s.roomOrder == old(s.roomOrder)
              && s.conns == old(s.conns)[c := old(s.conns)[c].(open := false)]
              && events == [Send(c, ErrorFrame(FrameTooLarge)), Close(c, Some(MessageTooBig))]
    ensures msg.size <= MaxFrameBytes ==>
              var step := RateStep(old(s.conns)[c].msgCount, old(s.conns)[c].windowStart, now);
              var counted := old(s.conns)[c].(msgCount := step.0, windowStart := step.1);
              && (step.0 > MaxMessagesPerMinute ==>
                    && s.rooms == old(s.rooms) && s.roomOrder == old(s.roomOrder)
                    && s.conns == old(s.conns)[c := counted.(open := false)]
                    && events == [Send(c, ErrorFrame(TooManyMessages)), Close(c, None)])
              && (step.0 <= MaxMessagesPerMinute && MessageKind(msg.parsed).None? ==>
                    && s.rooms == old(s.rooms) && s.roomOrder == old(s.roomOrder)
                    && s.conns == old(s.conns)[c := counted] && events == [])
              && (step.0 <= MaxMessagesPerMinute ==>
                    s.conns[c].msgCount == step.0 && s.conns[c].windowStart == step.1)
  {
    if msg.size > MaxFrameBytes {
      var conns := s.conns[c := s.conns[c].(open := false)];
      ValidAfterConnUpdate(s.rooms, s.roomOrder, s.conns, s.clients, s.nextClientId, c, s.conns[c].(open := false));
      s.conns := conns;
      return [Send(c, ErrorFrame(FrameTooLarge)), Close(c, Some(MessageTooBig))];
    }
    var step := RateStep(s.conns[c].msgCount, s.conns[c].windowStart, now);
    var counted := s.conns[c].(msgCount := step.0, windowStart := step.1);
    if step.0 > MaxMessagesPerMinute {
      var conns := s.conns[c := counted.(open := false)];
      ValidAfterConnUpdate(s.rooms, s.roomOrder, s.conns, s.clients, s.nextClientId, c, counted.(open := false));
      s.conns := conns;
      return [Send(c, ErrorFrame(TooManyMessages)), Close(c, None)];
    }
    var conns := s.conns[c := counted];
    ValidAfterConnUpdate(s.rooms, s.roomOrder, s.conns, s.clients, s.nextClientId, c, counted);
    s.conns := conns;
    var kind := MessageKind(msg.parsed);
    if kind.None? {
      return [];
    }
    events := Dispatch(s, c, kind.value, msg.parsed.value, now);
  }

  // ---------------------------------------------------------------- connection lifecycle

  /** `allowedOrigin && origin && origin !== allowedOrigin`. */
  predicate OriginRejected(allowed: Option<string>, origin: Option<string>) {
    Present(allowed) && Present(origin) && origin.value != allowed.value
  }

  /** An origin is turned away exactly when both it and the allowed origin are non-empty and they differ. */
  lemma OriginRule(allowed: Option<string>, origin: Option<string>)
    ensures !Present(allowed) ==> !OriginRejected(allowed, origin)
    ensures !Present(origin) ==> !OriginRejected(allowed, origin)
    ensures Present(allowed) && origin == allowed ==> !OriginRejected(allowed, origin)
    ensures Present(allowed) && Present(origin) && origin != allowed ==> OriginRejected(allowed, origin)
  {
  }

  /** The outcome of a handshake: the new connection, or the close code the socket got. */
  datatype Admission = Accepted(conn: ConnId) | Rejected(code: nat)

  /** A fresh connection: only its id, the open socket and an empty message window starting now. */
  function NewConn(id: string, now: int): Conn {
    Conn(id, None, None, None, None, false, None, None, true, 0, now)
  }

  /** Registering a connection under the counter value keeps the registry valid, and its id is new. */
  lemma ValidAfterConnect(rooms: map<string, Room>, order: seq<string>, conns: map<ConnId, Conn>,
                          clients: seq<ConnId>, nextId: nat, now: int)
    requires RegistryValid(rooms, order, conns, clients, nextId)
    ensures nextId !in conns && nextId !in clients
    ensures forall k :: k in conns ==> conns[k].id != NatToString(nextId)
    ensures RegistryValid(rooms, order, conns[nextId := NewConn(NatToString(nextId), now)], clients + [nextId], nextId + 1)
  {
    FreshId(conns, nextId);
    assert nextId !in clients;
    DistinctAppend(clients, nextId);
    var conns' := conns[nextId := NewConn(NatToString(nextId), now)];
    IdsAfterConnect(conns, nextId, now);
    PeersKnownGrow(rooms, conns, nextId, NewConn(NatToString(nextId), now));
    TiedAfterConnect(conns, nextId, now);
    assert forall c :: c in clients + [nextId] ==> c in conns';
  }

  lemma IdsAfterConnect(conns: map<ConnId, Conn>, nextId: nat, now: int)
    requires forall k :: k in conns ==> 1 <= k < nextId && conns[k].id == NatToString(k)
    requires nextId >= 1
    ensures var conns' := conns[nextId := NewConn(NatToString(nextId), now)];
            forall k :: k in conns' ==> 1 <= k < nextId + 1 && conns'[k].id == NatToString(k)
  {
  }

  lemma TiedAfterConnect(conns: map<ConnId, Conn>, nextId: nat, now: int)
    requires ClientIdsTied(conns)
    ensures ClientIdsTied(conns[nextId := NewConn(NatToString(nextId), now)])
  {
  }

  lemma PeersKnownGrow(rooms: map<string, Room>, conns: map<ConnId, Conn>, k: ConnId, v: Conn)
    requires PeersKnown(rooms, conns)
    ensures PeersKnown(rooms, conns[k := v])
  {
  }

  lemma DistinctAppend(s: seq<ConnId>, x: ConnId)
    requires Distinct(s) && x !in s
    ensures Distinct(s + [x])
  {
    var t := s + [x];
    forall i, j | 0 <= i < j < |t| ensures t[i] != t[j] {
      assert t[i] == s[i];
      if j < |s| {
        assert t[j] == s[j];
      }
    }
  }

  /** The counter value is not yet a connection, and its id is no connection's id. */
  lemma FreshId(conns: map<ConnId, Conn>, nextId: nat)
    requires forall k :: k in conns ==> 1 <= k < nextId && conns[k].id == NatToString(k)
    ensures nextId !in conns
    ensures forall k :: k in conns ==> conns[k].id != NatToString(nextId)
  {
    forall k | k in conns ensures conns[k].id != NatToString(nextId) {
      NatToStringInjective(k, nextId);
    }
  }

  /**
   * `wss.on('connection')`: a handshake from a disallowed origin is closed
   * with 1008 and never registered; any other gets the next id, an empty
   * message window, a place in `clients`, and the current room list.
   */
  method OnConnection(s: Server, allowed: Option<string>, origin: Option<string>, now: int)
      returns (admission: Admission, events: seq<Event>)
    requires s.Valid()
    modifies s
    ensures s.Valid()
    ensures s.rooms == old(s.rooms) && s.roomOrder == old(s.roomOrder)
    ensures OriginRejected(allowed, origin) ==>
              && admission == Rejected(PolicyViolation) && events == []
              && s.conns == old(s.conns) && s.clients == old(s.clients) && s.nextClientId == old(s.nextClientId)
    ensures !OriginRejected(allowed, origin) ==>
              var n := old(s.nextClientId);
              && admission == Accepted(n)
              && n !in old(s.conns)
              && (forall k :: k in old(s.conns) ==> old(s.conns)[k].id != NatToString(n))
              && s.conns == old(s.conns)[n := NewConn(NatToString(n), now)]
              && s.clients == old(s.clients) + [n]
              && s.nextClientId == n + 1
              && events == [Send(n, RoomsFrame(BuildRoomsList(s.rooms, s.roomOrder)))]
  {
    if OriginRejected(allowed, origin) {
      return Rejected(PolicyViolation), [];
    }
    ValidAfterConnect(s.rooms, s.roomOrder, s.conns, s.clients, s.nextClientId, now);
    var n, id := s.AllocClientId();
    s.conns := s.conns[n := NewConn(id, now)];
    s.clients := s.clients + [n];
    admission := Accepted(n);
    events := [Send(n, RoomsFrame(BuildRoomsList(s.rooms, s.roomOrder)))];
  }

  /** `room.peers.delete(key)`: the peers whose id is not `key`, in order. */
  function WithoutKey(peers: seq<ConnId>, conns: map<ConnId, Conn>, key: Option<string>): (r: seq<ConnId>)
    requires forall p :: p in peers ==> p in conns
    ensures forall p :: p in r <==> p in peers && Some(conns[p].id) != key
    ensures |r| <= |peers|
    ensures Distinct(peers) ==> Distinct(r)
  {
    if |peers| == 0 then []
    else
      var init := peers[..|peers| - 1];
      var last := peers[|peers| - 1];
      assert forall p :: p in peers ==> p in init || p == last;
      assert Distinct(peers) ==> Distinct(init) && last !in init;
      WithoutKey(init, conns, key) + (if Some(conns[last].id) == key then [] else [last])
  }

  /**
   * In a valid registry, deleting a joined connection's client id from a
   * room removes that connection and nobody else.
   */
  lemma WithoutOwnKey(rooms: map<string, Room>, order: seq<string>, conns: map<ConnId, Conn>,
                      clients: seq<ConnId>, nextId: nat, r: string, c: ConnId)
    requires RegistryValid(rooms, order, conns, clients, nextId) && r in rooms && c in conns
    ensures forall p :: p in WithoutKey(rooms[r].peers, conns, Some(conns[c].id)) <==> p in rooms[r].peers && p != c
  {
    forall p | p in rooms[r].peers && p != c ensures conns[p].id != conns[c].id {
      NatToStringInjective(p, c);
    }
  }

  /**
   * In a valid registry, closing a connection that has joined room `r`
   * removes exactly that connection from `r`; the room is deleted exactly
   * when nobody else was in it, and every other room stays as it was.
   */
  lemma ClosingConnLeaves(rooms: map<string, Room>, order: seq<string>, conns: map<ConnId, Conn>,
                          clients: seq<ConnId>, nextId: nat, r: string, c: ConnId)
    requires RegistryValid(rooms, order, conns, clients, nextId) && c in conns
    requires conns[c].roomId == Some(r) && r in rooms
    ensures var after := RoomsAfterLeave(rooms, r, WithoutKey(rooms[r].peers, conns, conns[c].clientId));
            && (r in after <==> exists p :: p in rooms[r].peers && p != c)
            && (r in after ==> forall p :: p in after[r].peers <==> p in rooms[r].peers && p != c)
            && (forall x :: x != r ==> (x in after <==> x in rooms))
            && (forall x :: x != r && x in rooms ==> after[x] == rooms[x])
  {
    assert conns[c].clientId == Some(conns[c].id);
    WithoutOwnKey(rooms, order, conns, clients, nextId, r, c);
    LeaveShape(rooms, r, WithoutKey(rooms[r].peers, conns, conns[c].clientId), c);
  }

  /** Room `r` shrinking to its peers other than `c`. */
  lemma LeaveShape(rooms: map<string, Room>, r: string, rest: seq<ConnId>, c: ConnId)
    requires r in rooms
    requires forall p :: p in rest <==> p in rooms[r].peers && p != c
    ensures var after := RoomsAfterLeave(rooms, r, rest);
            && (r in after <==> exists p :: p in rooms[r].peers && p != c)
            && (r in after ==> forall p :: p in after[r].peers <==> p in rooms[r].peers && p != c)
            && (forall x :: x != r ==> (x in after <==> x in rooms))
            && (forall x :: x != r && x in rooms ==> after[x] == rooms[x])
  {
    if |rest| > 0 {
      assert rest[0] in rest;
    }
  }

  /** Forgetting a closed connection (out of `clients`, socket no longer open) keeps the registry valid. */
  lemma ValidAfterForget(rooms: map<string, Room>, order: seq<string>, conns: map<ConnId, Conn>,
                         clients: seq<ConnId>, nextId: nat, c: ConnId)
    requires RegistryValid(rooms, order, conns, clients, nextId) && c in conns
    ensures RegistryValid(rooms, order, conns[c := conns[c].(open := false)], Without(clients, c), nextId)
  {
  }

  /** The rooms after room `r` shrank to `rest`: an emptied room is deleted. */
  function RoomsAfterLeave(rooms: map<string, Room>, r: string, rest: seq<ConnId>): map<string, Room>
    requires r in rooms
  {
    if |rest| == 0 then rooms - {r} else rooms[r := rooms[r].(peers := rest)]
  }

  /** The order of the rooms after room `r` shrank to `rest`. */
  function OrderAfterLeave(order: seq<string>, r: string, rest: seq<ConnId>): seq<string> {
    if |rest| == 0 then Without(order, r) else order
  }

  /**
   * Shrinking room `r` to some of its peers keeps the registry valid (an
   * emptied room goes, with its place in the order), and no surviving
   * room changes its password or owner.
   */
  lemma ValidAfterLeave(rooms: map<string, Room>, order: seq<string>, conns: map<ConnId, Conn>,
                        clients: seq<ConnId>, nextId: nat, r: string, rest: seq<ConnId>)
    requires RegistryValid(rooms, order, conns, clients, nextId) && r in rooms
    requires Distinct(rest) && |rest| <= |rooms[r].peers| && forall p :: p in rest ==> p in rooms[r].peers
    ensures RegistryValid(RoomsAfterLeave(rooms, r, rest), OrderAfterLeave(order, r, rest), conns, clients, nextId)
    ensures RoomsFixed(rooms, RoomsAfterLeave(rooms, r, rest))
  {
    if |rest| > 0 {
      assert RoomValid(r, rooms[r]);
    }
  }

  /**
   * The room part of `ws.on('close')`: room `r` shrinks to `rest`, the
   * peers left after the closing connection's client id was deleted; an
   * emptied room is removed, otherwise its state is broadcast; either way
   * the room list is broadcast.
   */
  method LeaveRoom(s: Server, r: string, rest: seq<ConnId>, now: int) returns (events: seq<Event>)
    requires s.Valid() && r in s.rooms
    requires Distinct(rest) && |rest| <= |s.rooms[r].peers| && forall p :: p in rest ==> p in s.rooms[r].peers
    modifies s`rooms, s`roomOrder
    ensures s.Valid()
    ensures RoomsFixed(old(s.rooms), s.rooms)
    ensures s.rooms == RoomsAfterLeave(old(s.rooms), r, rest) && s.roomOrder == OrderAfterLeave(old(s.roomOrder), r, rest)
    ensures events == RoomStateSends(s.rooms, s.conns, r, now) + RoomsListSends(s.rooms, s.roomOrder, s.clients, s.conns)
  {
    ValidAfterLeave(s.rooms, s.roomOrder, s.conns, s.clients, s.nextClientId, r, rest);
    StoreRooms(s, RoomsAfterLeave(s.rooms, r, rest), OrderAfterLeave(s.roomOrder, r, rest));
    // an emptied room is gone, so its state broadcast would send nothing
    var stateEvents := [];
    if |rest| > 0 {
      stateEvents := s.BroadcastRoomState(r, now);
    }
    var listEvents := s.BroadcastRoomsList();
    events := stateEvents + listEvents;
  }

  /** Replaces the rooms and their order by a valid pair. */
  method StoreRooms(s: Server, rooms: map<string, Room>, order: seq<string>)
    requires RegistryValid(rooms, order, s.conns, s.clients, s.nextClientId)
    modifies s`rooms, s`roomOrder
    ensures s.Valid() && s.rooms == rooms && s.roomOrder == order
  {
    s.rooms, s.roomOrder := rooms, order;
  }

  /**
   * `ws.on('close')`: the connection leaves `clients` and its socket is
   * closed; when its current room still exists the peer with its client id
   * leaves that room (see `LeaveRoom`). Rooms it joined earlier keep it.
   */
  method OnClose(s: Server, c: ConnId, now: int) returns (events: seq<Event>)
    requires s.Valid() && c in s.clients
    modifies s`rooms, s`roomOrder, s`conns, s`clients
    ensures s.Valid()
    ensures s.clients == Without(old(s.clients), c) && s.nextClientId == old(s.nextClientId)
    ensures s.conns == old(s.conns)[c := old(s.conns)[c].(open := false)]
    ensures RoomsFixed(old(s.rooms), s.rooms)
    ensures var r := old(s.conns)[c].roomId;
            !(Present(r) && r.value in old(s.rooms)) ==>
              s.rooms == old(s.rooms) && s.roomOrder == old(s.roomOrder) && events == []
    ensures var r := old(s.conns)[c].roomId;
            Present(r) && r.value in old(s.rooms) ==>
              var rest := WithoutKey(old(s.rooms)[r.value].peers, old(s.conns), old(s.conns)[c].clientId);
              && s.rooms == RoomsAfterLeave(old(s.rooms), r.value, rest)
              && s.roomOrder == OrderAfterLeave(old(s.roomOrder), r.value, rest)
              && events == RoomStateSends(s.rooms, s.conns, r.value, now)
                           + RoomsListSends(s.rooms, s.roomOrder, s.clients, s.conns)
    ensures var r := old(s.conns)[c].roomId;
            Present(r) && r.value in old(s.rooms) ==>
              && (r.value in s.rooms <==> exists p :: p in old(s.rooms)[r.value].peers && p != c)
              && (r.value in s.rooms ==>
                    forall p :: p in s.rooms[r.value].peers <==> p in old(s.rooms)[r.value].peers && p != c)
  {
    var roomId := s.conns[c].roomId;
    if Present(roomId) && roomId.value in s.rooms {
      events := CloseInRoom(s, c, roomId.value, now);
    } else {
      ForgetConn(s, c);
      events := [];
    }
  }

  /** `OnClose` for a connection whose current room `r` still exists. */
  method CloseInRoom(s: Server, c: ConnId, r: string, now: int) returns (events: seq<Event>)
    requires s.Valid() && c in s.clients && s.conns[c].roomId == Some(r) && r in s.rooms
    modifies s`rooms, s`roomOrder, s`conns, s`clients
    ensures s.Valid()
    ensures s.clients == Without(old(s.clients), c)
    ensures s.conns == old(s.conns)[c := old(s.conns)[c].(open := false)]
    ensures RoomsFixed(old(s.rooms), s.rooms)
    ensures var rest := WithoutKey(old(s.rooms)[r].peers, old(s.conns), old(s.conns)[c].clientId);
            && s.rooms == RoomsAfterLeave(old(s.rooms), r, rest)
            && s.roomOrder == OrderAfterLeave(old(s.roomOrder), r, rest)
            && events == RoomStateSends(s.rooms, s.conns, r, now) + RoomsListSends(s.rooms, s.roomOrder, s.clients, s.conns)
    ensures r in s.rooms <==> exists p :: p in old(s.rooms)[r].peers && p != c
    ensures r in s.rooms ==> forall p :: p in s.rooms[r].peers <==> p in old(s.rooms)[r].peers && p != c
  {
    // `room.peers.delete(ws.clientId)`, read before the socket is updated (the ids stay as they are)
    var rest := WithoutKey(s.rooms[r].peers, s.conns, s.conns[c].clientId);
    ClosingConnLeaves(s.rooms, s.roomOrder, s.conns, s.clients, s.nextClientId, r, c);
    assert RoomValid(r, s.rooms[r]);
    ForgetConn(s, c);
    events := LeaveRoom(s, r, rest, now);
  }

  /** The closed connection leaves `clients` and its socket is marked closed. */
  method ForgetConn(s: Server, c: ConnId)
    requires s.Valid() && c in s.clients
    modifies s`conns, s`clients
    ensures s.Valid()
    ensures s.clients == Without(old(s.clients), c)
    ensures s.conns == old(s.conns)[c := old(s.conns)[c].(open := false)]
  {
    ValidAfterForget(s.rooms, s.roomOrder, s.conns, s.clients, s.nextClientId, c);
    s.clients := Without(s.clients, c);
    s.conns := s.conns[c := s.conns[c].(open := false)];
  }
}
