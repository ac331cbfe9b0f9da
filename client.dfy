/**
 * The browser client's bookkeeping around the server's frames: the
 * participant list it reconciles against each `room-state` frame, the
 * peers it sends an offer to, the reconnect policy after the socket
 * closes, the reset when it leaves or is kicked, and the checks the join
 * button applies before connecting.
 */
module Client {
  import opened Wrappers
  import opened Json
  import opened JsString
  import opened Protocol
  import opened Rooms
  import opened WsHandlers

  const BaseReconnectDelayMs: nat := 1000
  const MaxReconnectDelayMs: nat := 10000
  const MaxRoomIdInput: nat := 64
  const MaxPasswordInput: nat := 64
  const MaxNicknameInput: nat := 32

  // ---------------------------------------------------------------- room-state

  /** One element of a `room-state` frame's `participants`, as the client reads it. */
  datatype PeerInfo = PeerInfo(clientId: string, nickname: Value, muted: Value, ping: Value,
                               connection: Value, isOwner: Value)

  /** One entry of the client's `participants` object. */
  datatype View = View(nickname: Value, muted: bool, speaking: bool, ping: Option<int>,
                       connection: Value, isOwner: bool, clientId: string)

  /**
   * The entry the merge writes for `p`: `muted` and `isOwner` coerced to
   * booleans, `ping` kept only when it is a number, `connection` falling
   * back to `'unknown'`, and the given speaking flag.
   */
  function ViewOf(p: PeerInfo, speaking: bool): View {
    View(p.nickname, Truthy(p.muted), speaking, if p.ping.JNum? then Some(p.ping.n) else None,
         if Truthy(p.connection) then p.connection else JStr("unknown"), Truthy(p.isOwner), p.clientId)
  }

  /** The `connection` string the server writes for a health value. */
  function HealthName(h: Health): string {
    match h
    case Unknown => "unknown"
    case Healthy => "ok"
    case Timeout => "timeout"
  }

  /** A participant of the server's snapshot as it arrives in JSON. */
  function Encode(p: Participant): PeerInfo {
    PeerInfo(p.clientId, JStr(p.nickname), JBool(p.muted), if p.ping.Some? then JNum(p.ping.value) else JNull,
             JStr(HealthName(p.connection)), JBool(p.isOwner))
  }

  /**
   * For a participant the server built, the client's entry carries the
   * server's nickname, mute flag, ping, health and owner flag unchanged.
   */
  lemma ViewOfServerParticipant(p: Participant, speaking: bool)
    ensures ViewOf(Encode(p), speaking) ==
            View(JStr(p.nickname), p.muted, speaking, p.ping, JStr(HealthName(p.connection)), p.isOwner, p.clientId)
  {
  }

  /** `new Set(msg.participants.map((p) => p.clientId))`. */
  function Ids(peers: seq<PeerInfo>): set<string> {
    set i | 0 <= i < |peers| :: peers[i].clientId
  }

  /** The entries of `m` whose key is in `ids`. */
  function Restrict(m: map<string, View>, ids: set<string>): (r: map<string, View>)
    ensures forall id :: id in r <==> id in m && id in ids
    ensures forall id :: id in r ==> r[id] == m[id]
  {
    map id | id in m && id in ids :: m[id]
  }

  /** `participants[id]?.speaking || false`. */
  predicate Speaking(m: map<string, View>, id: string) {
    id in m && m[id].speaking
  }

  /** The `participants` object after the merge loop ran over `peers`, in order. */
  function Merge(m: map<string, View>, peers: seq<PeerInfo>): map<string, View>
    decreases |peers|
  {
    if |peers| == 0 then m
    else
      var before := Merge(m, peers[..|peers| - 1]);
      var p := peers[|peers| - 1];
      before[p.clientId := ViewOf(p, Speaking(before, p.clientId))]
  }

  lemma IdsStep(peers: seq<PeerInfo>)
    requires |peers| > 0
    ensures Ids(peers) == Ids(peers[..|peers| - 1]) + {peers[|peers| - 1].clientId}
  {
    var init := peers[..|peers| - 1];
    forall id | id in Ids(peers) ensures id in Ids(init) + {peers[|peers| - 1].clientId} {
      var i :| 0 <= i < |peers| && peers[i].clientId == id;
      if i < |peers| - 1 {
        assert init[i].clientId == id;
      }
    }
    forall id | id in Ids(init) ensures id in Ids(peers) {
      var i :| 0 <= i < |init| && init[i].clientId == id;
      assert peers[i].clientId == id;
    }
  }

  /**
   * The merge adds exactly the frame's ids, and every entry keeps the
   * speaking flag it had (false for an id that was not there).
   */
  lemma {:induction false} MergeKeysAndSpeaking(m: map<string, View>, peers: seq<PeerInfo>)
    ensures forall id :: id in Merge(m, peers) <==> id in m || id in Ids(peers)
    ensures forall id :: id in Merge(m, peers) ==> Merge(m, peers)[id].speaking == Speaking(m, id)
    decreases |peers|
  {
    if |peers| > 0 {
      MergeKeysAndSpeaking(m, peers[..|peers| - 1]);
      IdsStep(peers);
    }
  }

  /** With no id repeated in the frame, each id's entry is built from its participant. */
  lemma {:induction false} MergeEntries(m: map<string, View>, peers: seq<PeerInfo>)
    requires forall i, j :: 0 <= i < j < |peers| ==> peers[i].clientId != peers[j].clientId
    ensures forall i :: 0 <= i < |peers| ==>
              && peers[i].clientId in Merge(m, peers)
              && Merge(m, peers)[peers[i].clientId] == ViewOf(peers[i], Speaking(m, peers[i].clientId))
    decreases |peers|
  {
    if |peers| > 0 {
      var init := peers[..|peers| - 1];
      MergeEntries(m, init);
      MergeKeysAndSpeaking(m, init);
      forall i | 0 <= i < |peers|
        ensures && peers[i].clientId in Merge(m, peers)
                && Merge(m, peers)[peers[i].clientId] == ViewOf(peers[i], Speaking(m, peers[i].clientId))
      {
        if i < |peers| - 1 {
          assert init[i] == peers[i];
        }
      }
    }
  }

  /**
   * After a `room-state` frame the keys of `participants` are exactly the
   * frame's client ids; each keeps its earlier speaking flag, new ones
   * start silent.
   */
  lemma RoomStateReconciles(m: map<string, View>, peers: seq<PeerInfo>)
    ensures var r := Merge(Restrict(m, Ids(peers)), peers);
            && (forall id :: id in r <==> id in Ids(peers))
            && (forall id :: id in r ==> (r[id].speaking <==> id in m && m[id].speaking))
  {
    MergeKeysAndSpeaking(Restrict(m, Ids(peers)), peers);
  }

  /**
   * The delete loop over `Object.keys(participants)`: every key the frame
   * does not name is deleted.
   */
  method DropMissing(m: map<string, View>, active: set<string>) returns (r: map<string, View>)
    ensures r == Restrict(m, active)
  {
    r := m;
    var keys := m.Keys;
    while keys != {}
      invariant keys <= m.Keys
      invariant forall id :: id in r <==> id in m && (id in keys || id in active)
      invariant forall id :: id in r ==> r[id] == m[id]
      decreases keys
    {
      var id :| id in keys;
      if id !in active {
        r := map k | k in r && k != id :: r[k];
      }
      keys := keys - {id};
    }
  }

  /** The merge loop over `msg.participants`. */
  method MergeAll(m: map<string, View>, peers: seq<PeerInfo>) returns (r: map<string, View>)
    ensures r == Merge(m, peers)
  {
    r := m;
    var i := 0;
    while i < |peers|
      invariant 0 <= i <= |peers|
      invariant r == Merge(m, peers[..i])
    {
      assert peers[..i + 1][..i] == peers[..i];
      var p := peers[i];
      r := r[p.clientId := ViewOf(p, Speaking(r, p.clientId))];
      i := i + 1;
    }
    assert peers[..i] == peers;
  }

  /** Whether the client `my` offers to `id`: another client, not yet connected, and greater as a string. */
  predicate OffersTo(my: string, id: string, pcIds: seq<string>) {
    id != my && id !in pcIds && StringLess(my, id)
  }

  /** The ids `connectToPeer` is called for, in the frame's order. */
  function OfferTargets(peers: seq<PeerInfo>, my: string, pcIds: seq<string>): (r: seq<string>)
    ensures forall x :: x in r <==> x in Ids(peers) && OffersTo(my, x, pcIds)
    decreases |peers|
  {
    if |peers| == 0 then []
    else
      var init := OfferTargets(peers[..|peers| - 1], my, pcIds);
      var id := peers[|peers| - 1].clientId;
      IdsStep(peers);
      init + (if OffersTo(my, id, pcIds) then [id] else [])
  }

  /** The peer connections whose audio is removed: those the frame no longer names, in order. */
  function Stale(pcIds: seq<string>, active: set<string>): (r: seq<string>)
    ensures forall x :: x in r <==> x in pcIds && x !in active
    ensures |r| <= |pcIds|
    decreases |pcIds|
  {
    if |pcIds| == 0 then []
    else
      var last := pcIds[|pcIds| - 1];
      assert forall x :: x in pcIds ==> x in pcIds[..|pcIds| - 1] || x == last;
      Stale(pcIds[..|pcIds| - 1], active) + (if last in active then [] else [last])
  }

  /**
   * Of two clients that are not yet connected to each other, exactly one
   * sends the offer.
   */
  lemma OneSideOffers(a: string, b: string, pcA: seq<string>, pcB: seq<string>)
    requires a != b && b !in pcA && a !in pcB
    ensures OffersTo(a, b, pcA) != OffersTo(b, a, pcB)
  {
    StringLessTrichotomy(a, b);
  }

  /** The offer loop over `msg.participants`. */
  method PickOffers(peers: seq<PeerInfo>, my: string, pcIds: seq<string>) returns (offers: seq<string>)
    ensures offers == OfferTargets(peers, my, pcIds)
  {
    offers := [];
    var i := 0;
    while i < |peers|
      invariant 0 <= i <= |peers|
      invariant offers == OfferTargets(peers[..i], my, pcIds)
    {
      assert peers[..i + 1][..i] == peers[..i];
      var id := peers[i].clientId;
      if id != my && id !in pcIds && StringLess(my, id) {
        offers := offers + [id];
      }
      i := i + 1;
    }
    assert peers[..i] == peers;
  }

  /** The loop over `getPeerConnectionIds()` removing audio of peers that left. */
  method PickStale(pcIds: seq<string>, active: set<string>) returns (stale: seq<string>)
    ensures stale == Stale(pcIds, active)
  {
    stale := [];
    var i := 0;
    while i < |pcIds|
      invariant 0 <= i <= |pcIds|
      invariant stale == Stale(pcIds[..i], active)
    {
      assert pcIds[..i + 1][..i] == pcIds[..i];
      if pcIds[i] !in active {
        stale := stale + [pcIds[i]];
      }
      i := i + 1;
    }
    assert pcIds[..i] == pcIds;
  }

  // ---------------------------------------------------------------- reconnect policy

  function Pow2(n: nat): (r: nat)
    ensures r >= 1
  {
    if n == 0 then 1 else 2 * Pow2(n - 1)
  }

  lemma {:induction false} Pow2Monotone(m: nat, n: nat)
    requires m <= n
    ensures Pow2(m) <= Pow2(n)
    decreases n
  {
    if m < n {
      Pow2Monotone(m, n - 1);
    }
  }

  /** `Math.min(1000 * 2 ** reconnectAttempts, 10000)`. */
  function ReconnectDelay(attempts: nat): (d: nat)
    ensures BaseReconnectDelayMs <= d <= MaxReconnectDelayMs
  {
    var d := BaseReconnectDelayMs * Pow2(attempts);
    if d < MaxReconnectDelayMs then d else MaxReconnectDelayMs
  }

  /** The delay never shrinks as attempts accumulate. */
  lemma ReconnectDelayMonotone(m: nat, n: nat)
    requires m <= n
    ensures ReconnectDelay(m) <= ReconnectDelay(n)
  {
    Pow2Monotone(m, n);
  }

  /** The delays are 1 s, 2 s, 4 s, 8 s, and 10 s from the fifth attempt on. */
  lemma ReconnectSchedule(n: nat)
    ensures ReconnectDelay(0) == 1000 && ReconnectDelay(1) == 2000
    ensures ReconnectDelay(2) == 4000 && ReconnectDelay(3) == 8000
    ensures n >= 4 ==> ReconnectDelay(n) == MaxReconnectDelayMs
  {
    assert Pow2(3) == 8;
    if n >= 4 {
      Pow2Monotone(4, n);
      assert Pow2(4) == 16;
    }
  }

  // ---------------------------------------------------------------- join button

  datatype JoinRefusal = EmptyRoomId | RoomIdTooLong | PasswordTooLong | NicknameTooLong

  /** `lastJoinParams`: what a (re)connection joins with. */
  datatype JoinParams = JoinParams(roomId: string, password: string, nickname: string)

  /**
   * The checks of the join button, on the raw input values and the saved
   * nickname: the room id is trimmed and must be non-empty and at most 64
   * characters; the raw password at most 64 and the raw nickname at most
   * 32. The password is sent trimmed; a blank nickname falls back to the
   * saved one.
   */
  function JoinPrecheck(roomInput: string, passwordInput: string, nicknameInput: string, savedNickname: string)
    : Result<JoinParams, JoinRefusal>
  {
    var roomId := Trim(roomInput);
    if roomId == "" then Err(EmptyRoomId)
    else if |roomId| > MaxRoomIdInput then Err(RoomIdTooLong)
    else if |passwordInput| > MaxPasswordInput then Err(PasswordTooLong)
    else if |nicknameInput| > MaxNicknameInput then Err(NicknameTooLong)
    else
      var nickname := Trim(nicknameInput);
      Ok(JoinParams(roomId, Trim(passwordInput), if nickname != "" then nickname else savedNickname))
  }

  /**
   * The join button connects exactly when the checks pass; then the room
   * id and password it sends come through the server's sanitising
   * unchanged, so the server joins the room the user typed.
   */
  lemma PrecheckMatchesServer(roomInput: string, passwordInput: string, nicknameInput: string, savedNickname: string)
    ensures var r := JoinPrecheck(roomInput, passwordInput, nicknameInput, savedNickname);
            r.Ok? <==> Trim(roomInput) != "" && |Trim(roomInput)| <= MaxRoomIdInput
                       && |passwordInput| <= MaxPasswordInput && |nicknameInput| <= MaxNicknameInput
    ensures var r := JoinPrecheck(roomInput, passwordInput, nicknameInput, savedNickname);
            r.Ok? ==>
              && SanitizeString(JStr(r.value.roomId), MaxRoomIdLength, false) == Some(r.value.roomId)
              && SanitizeString(JStr(r.value.password), MaxPasswordLength, true) == Some(r.value.password)
  {
    var r := JoinPrecheck(roomInput, passwordInput, nicknameInput, savedNickname);
    if r.Ok? {
      TrimIdempotent(roomInput);
      TrimIdempotent(passwordInput);
    }
  }

  /**
   * A blank nickname field falls back to the saved nickname, which the
   * length check never looked at: the nickname sent can exceed 32
   * characters (the server then truncates it).
   */
  lemma SavedNicknameUnchecked()
    ensures var saved := seq(40, i => 'a');
            var r := JoinPrecheck("room", "", "", saved);
            r.Ok? && |r.value.nickname| > MaxNicknameInput
  {
    var saved := seq(40, i => 'a');
    assert SpaceFrom("room", 0) == 0 && SpaceBefore("room", 0, 4) == 0;
    assert "room"[0..4] == "room";
    assert SpaceFrom("", 0) == 0;
  }

  // ---------------------------------------------------------------- client state

  /** The frame `ws.onopen` sends. */
  datatype JoinFrame = JoinFrame(roomId: string, password: string, nickname: string, userId: string)

  /** The module-level state of the client page that the modelled handlers read and write. */
  class ClientState {
    var participants: map<string, View>
    var currentRoomId: Option<string>
    var myClientId: Option<string>
    var myNickname: string
    var savedNickname: string
    var shouldReconnect: bool
    var reconnectAttempts: nat
    var wasKicked: bool
    var lastPingMs: Option<int>
    var lastJoin: JoinParams
    /** `ws`: the socket, with the room and password its `onopen` joins with. */
    var socket: Option<(string, string)>
    /** `pingIntervalId` is set. */
    var pinging: bool
    const userId: string

    /** The page right after loading, with the stored user id and nickname. */
    constructor (userId: string, savedNickname: string)
      ensures this.userId == userId && this.savedNickname == savedNickname
      ensures participants == map[] && currentRoomId.None? && myClientId.None? && myNickname == ""
      ensures !shouldReconnect && reconnectAttempts == 0 && !wasKicked && lastPingMs.None?
      ensures lastJoin == JoinParams("", "", "") && socket.None? && !pinging
    {
      this.userId := userId;
      this.savedNickname := savedNickname;
      participants := map[];
      currentRoomId, myClientId, myNickname := None, None, "";
      shouldReconnect, reconnectAttempts, wasKicked, lastPingMs := false, 0, false, None;
      lastJoin, socket, pinging := JoinParams("", "", ""), None, false;
    }

    /**
     * The `room-state` branch: drops the entries the frame no longer
     * names, merges the frame's participants, and, once the client knows
     * its id, returns the peers to call `connectToPeer` for and those whose
     * audio is removed. `pcIds` are the ids of the existing peer
     * connections.
     */
    method OnRoomState(peers: seq<PeerInfo>, pcIds: seq<string>) returns (offers: seq<string>, stale: seq<string>)
      modifies this`participants
      ensures participants == Merge(Restrict(old(participants), Ids(peers)), peers)
      ensures offers == if Present(myClientId) then OfferTargets(peers, myClientId.value, pcIds) else []
      ensures stale == if Present(myClientId) then Stale(pcIds, Ids(peers)) else []
    {
      var active := Ids(peers);
      var kept := DropMissing(participants, active);
      participants := MergeAll(kept, peers);
      offers, stale := [], [];
      if Present(myClientId) {
        offers := PickOffers(peers, myClientId.value, pcIds);
        stale := PickStale(pcIds, active);
      }
    }

    /** The `joined` branch: the client learns its id. */
    method OnJoined(clientId: string)
      modifies this`myClientId
      ensures myClientId == Some(clientId)
    {
      myClientId := Some(clientId);
    }

    /** The state after `cleanup`: nothing of the connection is left. */
    ghost predicate LeftRoom()
      reads this
    {
      && participants == map[] && currentRoomId.None? && myClientId.None?
      && !shouldReconnect && reconnectAttempts == 0 && !wasKicked
      && lastPingMs.None? && socket.None? && !pinging
    }

    /**
     * `cleanup()`: closes the socket (returning whether there was one),
     * stops pinging, empties `participants` and resets the connection
     * state; the nickname, the saved settings and the last join parameters
     * stay.
     */
    method Cleanup() returns (closed: bool)
      modifies this`socket, this`lastPingMs, this`pinging, this`wasKicked, this`participants
      modifies this`currentRoomId, this`myClientId, this`shouldReconnect, this`reconnectAttempts
      ensures closed == old(socket).Some?
      ensures LeftRoom()
    {
      closed := socket.Some?;
      socket := None;
      lastPingMs := None;
      pinging := false;
      wasKicked := false;
      participants := DropMissing(participants, {});
      assert forall id :: id !in participants;
      currentRoomId := None;
      myClientId := None;
      shouldReconnect := false;
      reconnectAttempts := 0;
    }

    /**
     * The `kicked` branch: reconnecting is switched off and the client
     * cleans up, so the close that follows never reconnects.
     */
    method OnKicked() returns (closed: bool)
      modifies this`socket, this`lastPingMs, this`pinging, this`wasKicked, this`participants
      modifies this`currentRoomId, this`myClientId, this`shouldReconnect, this`reconnectAttempts
      ensures closed == old(socket).Some?
      ensures LeftRoom()
      ensures !ReconnectsOnClose()
    {
      wasKicked := true;
      shouldReconnect := false;
      closed := Cleanup();
    }

    /** The condition of `ws.onclose`. */
    predicate ReconnectsOnClose()
      reads this
    {
      !wasKicked && shouldReconnect && Present(currentRoomId)
    }

    /**
     * `scheduleReconnect()`: when reconnecting is on and there is a room,
     * the next attempt is due after `ReconnectDelay(attempts)` and the
     * attempt counter moves on; otherwise nothing happens.
     */
    method ScheduleReconnect() returns (delay: Option<nat>)
      modifies this`reconnectAttempts
      ensures shouldReconnect && Present(currentRoomId) ==>
                delay == Some(ReconnectDelay(old(reconnectAttempts))) && reconnectAttempts == old(reconnectAttempts) + 1
      ensures !(shouldReconnect && Present(currentRoomId)) ==>
                delay.None? && reconnectAttempts == old(reconnectAttempts)
    {
      if !shouldReconnect || !Present(currentRoomId) {
        return None;
      }
      delay := Some(ReconnectDelay(reconnectAttempts));
      reconnectAttempts := reconnectAttempts + 1;
    }

    /**
     * `ws.onclose`: a reconnect is scheduled exactly when the client was
     * not kicked, reconnecting is on and it has a room; otherwise the peer
     * connections are torn down.
     */
    method OnSocketClose() returns (delay: Option<nat>)
      modifies this`reconnectAttempts
      ensures ReconnectsOnClose() ==>
                delay == Some(ReconnectDelay(old(reconnectAttempts))) && reconnectAttempts == old(reconnectAttempts) + 1
      ensures !ReconnectsOnClose() ==> delay.None? && reconnectAttempts == old(reconnectAttempts)
    {
      if ReconnectsOnClose() {
        delay := ScheduleReconnect();
      } else {
        delay := None;
      }
    }

    /** `startConnection(roomId, password)`: a new socket for that room, and the ping timer restarted. */
    method StartConnection(roomId: string, password: string)
      modifies this`socket, this`pinging
      ensures socket == Some((roomId, password)) && pinging
    {
      socket := Some((roomId, password));
      pinging := true;
    }

    /**
     * The reconnect timer: when reconnecting is still on and there is a
     * room, a new connection to that room with the last password starts.
     */
    method OnReconnectTimer() returns (started: bool)
      modifies this`socket, this`pinging
      ensures started == (shouldReconnect && Present(currentRoomId))
      ensures started ==> socket == Some((currentRoomId.value, lastJoin.password)) && pinging
      ensures !started ==> socket == old(socket) && pinging == old(pinging)
    {
      if !shouldReconnect || !Present(currentRoomId) {
        return false;
      }
      StartConnection(currentRoomId.value, lastJoin.password);
      started := true;
    }

    /** `ws.onopen`: sends `join` with the socket's room and password, and resets the attempt counter. */
    method OnOpen() returns (frame: JoinFrame)
      requires socket.Some?
      modifies this`reconnectAttempts
      ensures frame == JoinFrame(socket.value.0, socket.value.1, myNickname, userId)
      ensures reconnectAttempts == 0
    {
      frame := JoinFrame(socket.value.0, socket.value.1, myNickname, userId);
      reconnectAttempts := 0;
    }

    /**
     * The join button: refused inputs change nothing; accepted ones set
     * the nickname (and save it), the room, the join parameters, switch
     * reconnecting on with a fresh attempt counter, and connect.
     */
    method JoinClick(roomInput: string, passwordInput: string, nicknameInput: string)
        returns (r: Result<JoinParams, JoinRefusal>)
      modifies this`myNickname, this`savedNickname, this`currentRoomId, this`lastJoin
      modifies this`shouldReconnect, this`reconnectAttempts, this`socket, this`pinging
      ensures r == JoinPrecheck(roomInput, passwordInput, nicknameInput, old(savedNickname))
      ensures r.Err? ==>
                && currentRoomId == old(currentRoomId) && myNickname == old(myNickname)
                && savedNickname == old(savedNickname) && lastJoin == old(lastJoin)
                && shouldReconnect == old(shouldReconnect) && reconnectAttempts == old(reconnectAttempts)
                && socket == old(socket) && pinging == old(pinging)
      ensures r.Ok? ==> Joining(r.value)
    {
      r := JoinPrecheck(roomInput, passwordInput, nicknameInput, savedNickname);
      if r.Ok? {
        BeginJoin(r.value);
      }
    }

    /** The state once the join button accepted `p`. */
    ghost predicate Joining(p: JoinParams)
      reads this
    {
      && myNickname == p.nickname && savedNickname == p.nickname
      && currentRoomId == Some(p.roomId) && lastJoin == p
      && shouldReconnect && reconnectAttempts == 0
      && socket == Some((p.roomId, p.password)) && pinging
    }

    /** What the join button does with accepted inputs. */
    method BeginJoin(p: JoinParams)
      modifies this`myNickname, this`savedNickname, this`currentRoomId, this`lastJoin
      modifies this`shouldReconnect, this`reconnectAttempts, this`socket, this`pinging
      ensures Joining(p)
    {
      myNickname := p.nickname;
      savedNickname := myNickname;
      currentRoomId := Some(p.roomId);
      lastJoin := p;
      shouldReconnect := true;
      reconnectAttempts := 0;
      StartConnection(p.roomId, p.password);
    }
  }
}
