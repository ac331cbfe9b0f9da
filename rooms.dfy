/**
 * The room registry: the rooms by id, the set of all connections, the id
 * counter, and the two snapshots (one room's state, the list of rooms)
 * with the loops that push them to open connections.
 */
module Rooms {
  import opened Wrappers
  import opened JsString
  import opened Protocol

  const MaxPeersPerRoom: nat := 6
  const MaxMessagesPerMinute: nat := 240
  const PingTimeoutMs: int := 15000
  /** Prefix of the default nickname ("Guest-"). */
  const GuestPrefix: string := "Гость-"

  /**
   * The fields the server keeps on one WebSocket object. Before its first
   * join, `roomId`, `clientId`, `userId`, `nickname` are unset and `muted`
   * reads as false. `open` is `readyState === OPEN`.
   */
  datatype Conn = Conn(
    id: string,
    roomId: Option<string>,
    clientId: Option<string>,
    userId: Option<string>,
    nickname: Option<string>,
    muted: bool,
    lastPingAt: Option<int>,
    pingMs: Option<int>,
    open: bool,
    msgCount: nat,
    windowStart: int)

  /**
   * A room record. `peers` is the room's Map in insertion order; the key of
   * peer `p` is its connection id `conns[p].id`.
   */
  datatype Room = Room(password: Option<string>, ownerUserId: string, peers: seq<ConnId>)

  /** A string value that is present and truthy (neither `null` nor `""`). */
  predicate Present(o: Option<string>) {
    o.Some? && o.value != ""
  }

  ghost predicate Distinct<T>(s: seq<T>) {
    forall i, j :: 0 <= i < j < |s| ==> s[i] != s[j]
  }

  /** Every peer of every room is a known connection. */
  ghost predicate PeersKnown(rooms: map<string, Room>, conns: map<ConnId, Conn>) {
    forall r, p :: r in rooms && p in rooms[r].peers ==> p in conns
  }

  ghost predicate RoomValid(roomId: string, room: Room) {
    && roomId != ""
    && 1 <= |room.peers| <= MaxPeersPerRoom
    && Distinct(room.peers)
    && room.ownerUserId != ""
  }

  /**
   * The registry invariant: ids come from the counter, `clients` and the
   * rooms' order list have no repeats, rooms are exactly the ids in the
   * order list, and every room is non-empty and holds at most six peers.
   */
  ghost predicate RegistryValid(rooms: map<string, Room>, order: seq<string>, conns: map<ConnId, Conn>,
                                clients: seq<ConnId>, nextId: nat) {
    && nextId >= 1
    && (forall k :: k in conns ==> 1 <= k < nextId && conns[k].id == NatToString(k))
    && Distinct(clients) && (forall c :: c in clients ==> c in conns)
    && Distinct(order) && (forall r :: r in rooms <==> r in order)
    && (forall r :: r in rooms ==> RoomValid(r, rooms[r]))
    && PeersKnown(rooms, conns)
    && ClientIdsTied(conns)
  }

  /** A connection that has joined a room carries its own id as its client id (`ws.clientId = ws.id`). */
  ghost predicate ClientIdsTied(conns: map<ConnId, Conn>) {
    forall k :: k in conns && conns[k].roomId.Some? ==> conns[k].clientId == Some(conns[k].id)
  }

  /** The `connection` field: unknown before a ping, timeout once the last ping is more than 15 s old. */
  function ConnectionHealth(lastPingAt: Option<int>, now: int): (r: Health)
    ensures r == Unknown <==> lastPingAt.None? || lastPingAt.value == 0
    ensures r == Healthy <==> lastPingAt.Some? && lastPingAt.value != 0 && now - lastPingAt.value <= PingTimeoutMs
  {
    if lastPingAt.None? || lastPingAt.value == 0 then Unknown
    else if now - lastPingAt.value > PingTimeoutMs then Timeout
    else Healthy
  }

  /** The health of a pinged connection only worsens as time passes, and a gap of exactly 15 s is still ok. */
  lemma HealthOverTime(t: int, now1: int, now2: int)
    requires t != 0 && t <= now1 <= now2
    ensures ConnectionHealth(Some(t), now1) != Unknown
    ensures ConnectionHealth(Some(t), t + PingTimeoutMs) == Healthy
    ensures ConnectionHealth(Some(t), t + PingTimeoutMs + 1) == Timeout
    ensures ConnectionHealth(Some(t), now1) == Timeout ==> ConnectionHealth(Some(t), now2) == Timeout
    ensures ConnectionHealth(Some(t), now2) == Healthy ==> ConnectionHealth(Some(t), now1) == Healthy
  {
  }

  function BuildParticipant(room: Room, id: string, conn: Conn, now: int): Participant {
    Participant(
      id,
      if Present(conn.nickname) then conn.nickname.value else GuestPrefix + id,
      conn.muted,
      conn.pingMs,
      ConnectionHealth(conn.lastPingAt, now),
      room.ownerUserId != "" && conn.userId == Some(room.ownerUserId))
  }

  /** `buildRoomState(roomId)`: one participant per peer, in the room's order, or `null` for an unknown room. */
  function BuildRoomState(rooms: map<string, Room>, conns: map<ConnId, Conn>, roomId: string, now: int)
    : (r: Option<RoomState>)
    requires PeersKnown(rooms, conns)
    ensures r.None? <==> roomId !in rooms
    ensures r.Some? ==> r.value.roomId == roomId
    ensures r.Some? ==> r.value.count == |r.value.participants| == |rooms[roomId].peers|
    ensures r.Some? ==> forall i :: 0 <= i < |r.value.participants| ==>
                          r.value.participants[i].clientId == conns[rooms[roomId].peers[i]].id
  {
    if roomId !in rooms then None
    else
      var room := rooms[roomId];
      var ps := seq(|room.peers|, i requires 0 <= i < |room.peers| =>
                      BuildParticipant(room, conns[room.peers[i]].id, conns[room.peers[i]], now));
      Some(RoomState(roomId, |ps|, ps))
  }

  /**
   * The fields of each participant: the owner flag holds exactly for the
   * peers whose user id is the room's owner, the nickname falls back to
   * the guest name, the ping is the stored round trip.
   */
  lemma ParticipantFields(rooms: map<string, Room>, conns: map<ConnId, Conn>, roomId: string, now: int, i: nat)
    requires PeersKnown(rooms, conns)
    requires roomId in rooms && rooms[roomId].ownerUserId != "" && i < |rooms[roomId].peers|
    ensures var p := BuildRoomState(rooms, conns, roomId, now).value.participants[i];
            var conn := conns[rooms[roomId].peers[i]];
            && (p.isOwner <==> conn.userId == Some(rooms[roomId].ownerUserId))
            && p.nickname == (if Present(conn.nickname) then conn.nickname.value else GuestPrefix + conn.id)
            && p.muted == conn.muted
            && p.ping == conn.pingMs
            && p.connection == ConnectionHealth(conn.lastPingAt, now)
  {
  }

  /** In a valid registry no two participants of a snapshot share a client id. */
  lemma RoomStateIdsDistinct(rooms: map<string, Room>, order: seq<string>, conns: map<ConnId, Conn>,
                             clients: seq<ConnId>, nextId: nat, roomId: string, now: int)
    requires RegistryValid(rooms, order, conns, clients, nextId) && roomId in rooms
    ensures PeersKnown(rooms, conns)
    ensures var ps := BuildRoomState(rooms, conns, roomId, now).value.participants;
            forall i, j :: 0 <= i < j < |ps| ==> ps[i].clientId != ps[j].clientId
  {
    assert PeersKnown(rooms, conns);
    var peers := rooms[roomId].peers;
    var ps := BuildRoomState(rooms, conns, roomId, now).value.participants;
    forall i, j | 0 <= i < j < |ps| ensures ps[i].clientId != ps[j].clientId {
      NatToStringInjective(peers[i], peers[j]);
    }
  }

  /** `buildRoomsList()`: one entry per room, in the registry's order. */
  function BuildRoomsList(rooms: map<string, Room>, order: seq<string>): (r: seq<RoomEntry>)
    requires forall id :: id in order ==> id in rooms
    ensures |r| == |order|
    ensures forall i :: 0 <= i < |r| ==> r[i].roomId == order[i]
  {
    seq(|order|, i requires 0 <= i < |order| =>
          RoomEntry(order[i], |rooms[order[i]].peers|, Present(rooms[order[i]].password)))
  }

  /**
   * In a valid registry the list names every room exactly once, with its
   * peer count and whether a non-empty password is stored.
   */
  lemma RoomsListExact(rooms: map<string, Room>, order: seq<string>, conns: map<ConnId, Conn>,
                       clients: seq<ConnId>, nextId: nat)
    requires RegistryValid(rooms, order, conns, clients, nextId)
    ensures var list := BuildRoomsList(rooms, order);
            && |list| == |rooms|
            && (forall id :: id in rooms <==> exists i :: 0 <= i < |list| && list[i].roomId == id)
            && (forall i, j :: 0 <= i < j < |list| ==> list[i].roomId != list[j].roomId)
            && (forall i :: 0 <= i < |list| ==>
                  && list[i].count == |rooms[list[i].roomId].peers|
                  && (list[i].hasPassword <==> Present(rooms[list[i].roomId].password)))
  {
    var list := BuildRoomsList(rooms, order);
    forall id | id in rooms ensures exists i :: 0 <= i < |list| && list[i].roomId == id {
      var i :| 0 <= i < |order| && order[i] == id;
      assert list[i].roomId == id;
    }
    DistinctCard(order);
    assert rooms.Keys == set id | id in order;
  }

  /** A list without repeats has as many elements as its set. */
  lemma {:induction false} DistinctCard<T>(s: seq<T>)
    requires Distinct(s)
    ensures |set x | x in s| == |s|
  {
    if |s| > 0 {
      var t := s[..|s| - 1];
      assert Distinct(t);
      DistinctCard(t);
      assert (set x | x in s) == (set x | x in t) + {s[|s| - 1]};
      assert s[|s| - 1] !in t;
    }
  }

  /** The events of sending `frame` to each open connection of `targets`, in order. */
  function SendToOpen(targets: seq<ConnId>, conns: map<ConnId, Conn>, frame: Frame): seq<Event>
    requires forall t :: t in targets ==> t in conns
  {
    if |targets| == 0 then []
    else
      var last := targets[|targets| - 1];
      SendToOpen(targets[..|targets| - 1], conns, frame) + (if conns[last].open then [Send(last, frame)] else [])
  }

  /**
   * `SendToOpen` sends `frame` and nothing else, only to open targets,
   * and to every open target; with no repeated target, once each.
   */
  lemma {:induction false} SendToOpenSpec(targets: seq<ConnId>, conns: map<ConnId, Conn>, frame: Frame)
    requires forall t :: t in targets ==> t in conns
    ensures forall e :: e in SendToOpen(targets, conns, frame) ==>
              e.Send? && e.frame == frame && e.to in targets && conns[e.to].open
    ensures forall t :: t in targets && conns[t].open ==> Send(t, frame) in SendToOpen(targets, conns, frame)
    ensures Distinct(targets) ==> Distinct(SendToOpen(targets, conns, frame))
  {
    if |targets| > 0 {
      var init := targets[..|targets| - 1];
      var last := targets[|targets| - 1];
      assert forall t :: t in targets ==> t in init || t == last;
      SendToOpenSpec(init, conns, frame);
      if Distinct(targets) {
        assert Distinct(init);
        assert last !in init;
      }
    }
  }

  /** What `broadcastRoomState(roomId)` sends: the room's snapshot to each of its open peers. */
  function RoomStateSends(rooms: map<string, Room>, conns: map<ConnId, Conn>, roomId: string, now: int)
    : seq<Event>
    requires PeersKnown(rooms, conns)
  {
    if roomId !in rooms then []
    else SendToOpen(rooms[roomId].peers, conns, RoomStateFrame(BuildRoomState(rooms, conns, roomId, now).value))
  }

  /** What `broadcastRoomsList()` sends: the same list to every open connection, joined or not. */
  function RoomsListSends(rooms: map<string, Room>, order: seq<string>, clients: seq<ConnId>,
                          conns: map<ConnId, Conn>): seq<Event>
    requires forall id :: id in order ==> id in rooms
    requires forall c :: c in clients ==> c in conns
  {
    SendToOpen(clients, conns, RoomsFrame(BuildRoomsList(rooms, order)))
  }

  /**
   * A room-state broadcast sends nothing for an unknown room, and otherwise
   * the one snapshot of that room to its open peers, every one of them once.
   */
  lemma RoomStateSendsSpec(rooms: map<string, Room>, order: seq<string>, conns: map<ConnId, Conn>,
                           clients: seq<ConnId>, nextId: nat, roomId: string, now: int)
    requires RegistryValid(rooms, order, conns, clients, nextId)
    ensures PeersKnown(rooms, conns)
    ensures roomId !in rooms ==> RoomStateSends(rooms, conns, roomId, now) == []
    ensures roomId in rooms ==>
              var frame := RoomStateFrame(BuildRoomState(rooms, conns, roomId, now).value);
              var sends := RoomStateSends(rooms, conns, roomId, now);
              && (forall e :: e in sends ==> e.Send? && e.frame == frame && e.to in rooms[roomId].peers && conns[e.to].open)
              && (forall p :: p in rooms[roomId].peers && conns[p].open ==> Send(p, frame) in sends)
              && Distinct(sends)
  {
    assert PeersKnown(rooms, conns);
    if roomId in rooms {
      SendToOpenSpec(rooms[roomId].peers, conns, RoomStateFrame(BuildRoomState(rooms, conns, roomId, now).value));
    }
  }

  /** A rooms-list broadcast sends the one list to every open connection in `clients`, once each, and to nobody else. */
  lemma RoomsListSendsSpec(rooms: map<string, Room>, order: seq<string>, conns: map<ConnId, Conn>,
                           clients: seq<ConnId>, nextId: nat)
    requires RegistryValid(rooms, order, conns, clients, nextId)
    ensures var frame := RoomsFrame(BuildRoomsList(rooms, order));
            var sends := RoomsListSends(rooms, order, clients, conns);
            && (forall e :: e in sends ==> e.Send? && e.frame == frame && e.to in clients && conns[e.to].open)
            && (forall c :: c in clients && conns[c].open ==> Send(c, frame) in sends)
            && Distinct(sends)
  {
    SendToOpenSpec(clients, conns, RoomsFrame(BuildRoomsList(rooms, order)));
  }

  /** `s` with every occurrence of `x` removed (`Map.delete`, `Set.delete`). */
  function Without<T(==,!new)>(s: seq<T>, x: T): (r: seq<T>)
    ensures forall y :: y in r <==> y in s && y != x
    ensures |r| <= |s|
    ensures Distinct(s) ==> Distinct(r)
    ensures x !in s ==> r == s
  {
    if |s| == 0 then []
    else
      var init := Without(s[..|s| - 1], x);
      var last := s[|s| - 1];
      assert forall y :: y in s ==> y in s[..|s| - 1] || y == last;
      assert Distinct(s) ==> Distinct(s[..|s| - 1]) && last !in s[..|s| - 1];
      assert x !in s ==> s[..|s| - 1] + [last] == s;
      init + (if last == x then [] else [last])
  }

  /** Two connection maps with the same handles and the same ids. */
  ghost predicate SameIds(before: map<ConnId, Conn>, after: map<ConnId, Conn>) {
    && (forall k :: k in before <==> k in after)
    && (forall k :: k in before ==> after[k].id == before[k].id)
  }

  /**
   * Replacing one connection by one with the same id, current room and
   * client id keeps the registry valid.
   */
  lemma ValidAfterConnUpdate(rooms: map<string, Room>, order: seq<string>, conns: map<ConnId, Conn>,
                             clients: seq<ConnId>, nextId: nat, k: ConnId, v: Conn)
    requires RegistryValid(rooms, order, conns, clients, nextId) && k in conns
    requires v.id == conns[k].id && v.roomId == conns[k].roomId && v.clientId == conns[k].clientId
    ensures RegistryValid(rooms, order, conns[k := v], clients, nextId)
  {
  }

  /** The ids `allocClientId` hands out for different counter values differ. */
  lemma AllocatedIdsDistinct(m: nat, n: nat)
    requires m != n
    ensures NatToString(m) != NatToString(n)
  {
    NatToStringInjective(m, n);
  }

  /**
   * The module-level state of the registry. The socket calls a handler
   * makes (`send`, `close`) are returned by it as a sequence of events.
   */
  class Server {
    var rooms: map<string, Room>
    var roomOrder: seq<string>
    var conns: map<ConnId, Conn>
    var clients: seq<ConnId>
    var nextClientId: nat

    ghost predicate Valid()
      reads this`rooms, this`roomOrder, this`conns, this`clients, this`nextClientId
    {
      RegistryValid(rooms, roomOrder, conns, clients, nextClientId)
    }

    constructor ()
      ensures Valid()
      ensures rooms == map[] && roomOrder == [] && conns == map[] && clients == []
      ensures nextClientId == 1
    {
      rooms, roomOrder, conns, clients := map[], [], map[], [];
      nextClientId := 1;
    }

    /** `allocClientId()`: `String(n)` for the counter value `n`, then the counter moves on. */
    method AllocClientId() returns (n: ConnId, id: string)
      modifies this`nextClientId
      ensures n == old(nextClientId) && id == NatToString(n)
      ensures nextClientId == old(nextClientId) + 1
    {
      n := nextClientId;
      id := NatToString(n);
      nextClientId := nextClientId + 1;
    }

    /** `broadcastRoomState(roomId)`. */
    method BroadcastRoomState(roomId: string, now: int) returns (events: seq<Event>)
      requires PeersKnown(rooms, conns)
      ensures events == RoomStateSends(rooms, conns, roomId, now)
    {
      events := [];
      if roomId !in rooms {
        return;
      }
      var state := BuildRoomState(rooms, conns, roomId, now);
      var peers := rooms[roomId].peers;
      var frame := RoomStateFrame(state.value);
      var i := 0;
      while i < |peers|
        invariant 0 <= i <= |peers|
        invariant events == SendToOpen(peers[..i], conns, frame)
      {
        assert peers[..i + 1][..i] == peers[..i];
        if conns[peers[i]].open {
          events := events + [Send(peers[i], frame)];
        }
        i := i + 1;
      }
      assert peers[..i] == peers;
    }

    /** `broadcastRoomsList()`. */
    method BroadcastRoomsList() returns (events: seq<Event>)
      requires forall id :: id in roomOrder ==> id in rooms
      requires forall c :: c in clients ==> c in conns
      ensures events == RoomsListSends(rooms, roomOrder, clients, conns)
    {
      var frame := RoomsFrame(BuildRoomsList(rooms, roomOrder));
      events := [];
      var i := 0;
      while i < |clients|
        invariant 0 <= i <= |clients|
        invariant events == SendToOpen(clients[..i], conns, frame)
      {
        assert clients[..i + 1][..i] == clients[..i];
        if conns[clients[i]].open {
          events := events + [Send(clients[i], frame)];
        }
        i := i + 1;
      }
      assert clients[..i] == clients;
    }
  }
}
