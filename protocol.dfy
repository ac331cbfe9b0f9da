/** The frames the server sends, and the socket events its handlers produce. */
module Protocol {
  import opened Wrappers
  import opened Json

  /** A connection handle: the counter value its id was allocated from. */
  type ConnId = nat

  /** Close code for a handshake whose origin is not allowed (policy violation, RFC 6455 section 7.4.1). */
  const PolicyViolation: nat := 1008
  /** Close code for an oversized frame (message too big, RFC 6455 section 7.4.1). */
  const MessageTooBig: nat := 1009

  /** The `connection` field of a participant, derived from its last ping. */
  datatype Health = Unknown | Healthy | Timeout

  datatype Participant = Participant(
    clientId: string,
    nickname: string,
    muted: bool,
    ping: Option<int>,
    connection: Health,
    isOwner: bool)

  datatype RoomState = RoomState(roomId: string, count: nat, participants: seq<Participant>)

  datatype RoomEntry = RoomEntry(roomId: string, count: nat, hasPassword: bool)

  /** The reasons an `error` frame gives. */
  datatype ErrorKind = FrameTooLarge | TooManyMessages | InvalidRoomId | WrongPassword | RoomFull

  datatype Frame =
    | RoomsFrame(rooms: seq<RoomEntry>)
    | JoinedFrame(roomId: string, clientId: string, count: nat)
    | RoomStateFrame(state: RoomState)
    | SignalFrame(from: Option<string>, payload: Value)
    | PongFrame(ts: Value)
    | KickedFrame(roomId: string)
    | ErrorFrame(error: ErrorKind)

  /** `ws.send(frame)` or `ws.close(code)` on the connection `to`. */
  datatype Event = Send(to: ConnId, frame: Frame) | Close(to: ConnId, code: Option<nat>)
}
