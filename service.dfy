/** The session state held by the chat service (web/src/app/services/chat.service.ts)
    and the roster array the components share. The transport is reduced to the log of
    frames handed to `send`. */
module Service {
  import opened Wrappers
  import opened Models

  /** A JavaScript array of peers. The home view, the chat service and the chat view
      hold references to one and the same array, so it is an object of its own. */
  class Roster {
    var members: seq<User>

    constructor ()
      ensures members == []
    {
      members := [];
    }
  }

  class ChatService {
    var channel: Option<Channel>
    var user: Option<User>
    var room: Option<Room>
    /** The roster handed over by `setInitialPeers`; `null` until then. */
    var peers: Roster?
    /** Every frame handed to `send`, oldest first. */
    var outbox: seq<Outbound>
    /** Every `JoinRoom` call, oldest first. */
    var joins: seq<JoinRequest>

    constructor ()
      ensures channel == None && user == None && room == None && peers == null
      ensures outbox == [] && joins == []
    {
      channel, user, room, peers := None, None, None, null;
      outbox, joins := [], [];
    }

    /** `send`: the frame goes out on the connection. */
    method Send(frame: Outbound)
      modifies this`outbox
      ensures outbox == old(outbox) + [frame]
    {
      outbox := outbox + [frame];
    }

    /** `JoinRoom`: asks the relay to admit the user to the room. */
    method JoinRoom(user: User, room: Room)
      modifies this`joins
      ensures joins == old(joins) + [JoinRequest(user, room)]
    {
      joins := joins + [JoinRequest(user, room)];
    }
  }
}
