/** The values the components exchange, with the shapes their call sites give them. */
module Models {
  import opened Wrappers
  import Crypto

  /** A participant: display name, numeric id (the chat view's call passes no id; it is
      read by role, see README), decoded public key and its base64 text. */
  datatype User = User(name: string, id: Option<int>, publicKey: Crypto.PublicKey, encodedKey: string)

  /** A room as the join form builds it; `sha256Secret` is filled in after hashing. */
  datatype Room = Room(name: string, secret: string, sha256Secret: Option<string>)

  /** The channel the chat view reads from the chat service. */
  datatype Channel = Channel(name: string)

  /** The kinds of entry in the message log. */
  datatype EventKind = PeerJoinedEvent | MessageReceivedEvent | PeerLeftEvent

  /** One log entry; `from` is `None` where the source stores `undefined`. */
  datatype Message = Message(from: Option<User>, kind: EventKind, content: Option<string>)

  /** A peer as the relay describes it: name and base64 public key. */
  datatype PeerInfo = PeerInfo(name: string, key: string)

  /** Frames received from the relay. */
  datatype Inbound =
    | ChannelJoined(peers: seq<PeerInfo>)
    | PeerJoined(who: PeerInfo)
    | MessageReceived(from: string, message: string)
    | PeerLeft(name: string)
    | CommandRejected(reason: string)

  /** Frames sent to the relay: the keep-alive `{}`, one encrypted copy of a chat message
      addressed to one peer, and `{type: 'leftChannel'}`. */
  datatype Outbound =
    | Keepalive
    | SendMessage(to: string, message: string)
    | LeftChannel

  /** The arguments of one `JoinRoom` call. */
  datatype JoinRequest = JoinRequest(user: User, room: Room)
}
