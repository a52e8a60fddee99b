/** The values the room coordinator stores and exchanges: websocket sessions,
    players, rooms, the already-decoded inbound message and the outbound
    envelopes it asks the transport to deliver. */
module Messages {

  /** An opaque websocket session handle: the coordinator only stores and
      compares it. */
  datatype Session = Session(handle: nat)

  /** A member of a room: its session and the id the client supplied. */
  datatype Player = Player(session: Session, id: string)

  /** A room: its name, the id of its master and its players in join order. */
  datatype Room = Room(id: string, master: string, players: seq<Player>)

  datatype Option<T> = None | Some(value: T)

  /** The `data` object of an inbound message; only `roomName` is read.
      `rest` holds its other members, by name, as their encoded JSON text,
      which the relays pass on untouched. */
  datatype RoomData = RoomData(roomName: Option<string>, rest: map<string, string>)

  /** An inbound message after decoding. A field that is missing, or is not
      a JSON string (or object, for `data`), is `None`. `others` holds every
      other top-level field, by name, as its encoded JSON text; the handler
      never reads them, and the relays pass them on. */
  datatype Inbound = Inbound(command: string, playerId: Option<string>, data: Option<RoomData>,
                             others: map<string, string>)

  const CreateRoomCommand := "CREATE_ROOM"
  const JoinRoomCommand := "JOIN_ROOM"
  const JoinRandomRoomCommand := "JOIN_RANDOM_ROOM"
  const MovementCommand := "MOVEMENT"

  /** Outbound envelopes. PLAYER_LEFT carries no identity: the source puts
      the leaving player struct in it, whose fields are all unexported, so
      it serialises as an empty object. */
  datatype Envelope =
    | RoomJoined(roomName: string, master: string, playerCount: nat)
    | NewMaster(master: string)
    | PlayerLeft
    | Relay(message: Inbound)

  /** One call of `BroadcastMultiple`: an envelope and the sessions it goes
      to, in order. */
  datatype Send = Send(targets: seq<Session>, envelope: Envelope)
}
