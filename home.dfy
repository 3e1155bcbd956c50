/** The join view (web/src/app/components/home/home.component.ts): it submits the join
    request and, on admission, builds the initial roster. */
module Home {
  import opened Wrappers
  import opened Models
  import Crypto
  import Forms
  import opened Service

  /** The peers of a `channelJoined` frame whose key decodes, in frame order. */
  function Accepted(crypto: Crypto.CryptoService, list: seq<PeerInfo>): seq<PeerInfo>
  {
    if list == [] then []
    else
      var p := list[|list| - 1];
      Accepted(crypto, list[..|list| - 1])
      + (if crypto.DecodeBase64PublicKey(p.key).Some? then [p] else [])
  }

  /** The users appended for a `channelJoined` frame, taking ids from a counter that
      starts at `first` and advances only after a key has been imported. */
  function Admitted(crypto: Crypto.CryptoService, list: seq<PeerInfo>, first: int): (r: seq<User>)
    ensures |r| <= |list|
    ensures forall k :: 0 <= k < |r| ==> r[k].id == Some(first + k)
    ensures forall k :: 0 <= k < |r| ==> crypto.DecodeBase64PublicKey(r[k].encodedKey) == Some(r[k].publicKey)
  {
    if list == [] then []
    else
      var before := Admitted(crypto, list[..|list| - 1], first);
      var p := list[|list| - 1];
      match crypto.DecodeBase64PublicKey(p.key)
      case None => before
      case Some(key) => before + [User(p.name, Some(first + |before|), key, p.key)]
  }

  /** One more listed peer is admitted with the next id when its key decodes. */
  lemma AdmittedStep(crypto: Crypto.CryptoService, list: seq<PeerInfo>, i: nat, first: int)
    requires i < |list|
    ensures var before := Admitted(crypto, list[..i], first);
      Admitted(crypto, list[..i + 1], first) ==
        match crypto.DecodeBase64PublicKey(list[i].key)
        case None => before
        case Some(key) => before + [User(list[i].name, Some(first + |before|), key, list[i].key)]
  {
    assert list[..i + 1][..i] == list[..i];
  }

  /** The admitted users are exactly the accepted peers, in order, each with the name and
      key text the relay sent. */
  lemma {:induction false} AdmittedAreAccepted(crypto: Crypto.CryptoService, list: seq<PeerInfo>, first: int)
    ensures |Admitted(crypto, list, first)| == |Accepted(crypto, list)|
    ensures forall k :: 0 <= k < |Accepted(crypto, list)| ==>
      Admitted(crypto, list, first)[k].name == Accepted(crypto, list)[k].name
      && Admitted(crypto, list, first)[k].encodedKey == Accepted(crypto, list)[k].key
  {
    if list != [] {
      AdmittedAreAccepted(crypto, list[..|list| - 1], first);
    }
  }

  /** A peer whose key does not decode is never admitted: every admitted key text
      decodes (the contract of `Admitted`). */
  lemma RejectedKeyNotAdmitted(crypto: Crypto.CryptoService, list: seq<PeerInfo>, first: int, p: PeerInfo)
    requires crypto.DecodeBase64PublicKey(p.key).None?
    ensures forall u :: u in Admitted(crypto, list, first) ==> u.encodedKey != p.key
  {
  }

  /** The ids dealt out for one frame are distinct, consecutive from 2 and never 1, the
      id of the local user. */
  lemma AdmittedIds(crypto: Crypto.CryptoService, list: seq<PeerInfo>)
    ensures forall i, j :: 0 <= i < j < |Admitted(crypto, list, 2)| ==>
      Admitted(crypto, list, 2)[i].id != Admitted(crypto, list, 2)[j].id
    ensures forall u :: u in Admitted(crypto, list, 2) ==> u.id.Some? && u.id.value >= 2
    ensures forall u :: u in Admitted(crypto, list, 2) ==> u.id != Some(1)
  {
  }

  /** Because the roster is never cleared, a second `channelJoined` that admits someone
      is appended behind the first and deals out id 2 again. */
  lemma SecondChannelJoinedRepeatsIds(crypto: Crypto.CryptoService, roster: seq<User>, first: seq<PeerInfo>, second: seq<PeerInfo>)
    requires Accepted(crypto, first) != [] && Accepted(crypto, second) != []
    ensures var after := roster + Admitted(crypto, first, 2) + Admitted(crypto, second, 2);
      exists i, j :: 0 <= i < j < |after| && after[i].id == after[j].id == Some(2)
  {
    AdmittedAreAccepted(crypto, first, 2);
    AdmittedAreAccepted(crypto, second, 2);
    var a := Admitted(crypto, first, 2);
    var after := roster + a + Admitted(crypto, second, 2);
    assert after[|roster|].id == Some(2);
    assert after[|roster| + |a|].id == Some(2);
  }

  /** A frame listing a peer with a good key and one with a bad key admits only the
      first, with id 2. */
  lemma GoodAndBadKey(crypto: Crypto.CryptoService, good: PeerInfo, bad: PeerInfo, key: Crypto.PublicKey)
    requires crypto.DecodeBase64PublicKey(good.key) == Some(key)
    requires crypto.DecodeBase64PublicKey(bad.key) == None
    ensures Admitted(crypto, [good, bad], 2) == [User(good.name, Some(2), key, good.key)]
  {
    assert [good, bad][..1] == [good];
    assert [good][..0] == [];
  }

  /** The user the join form describes: id 1 and the session's own key. */
  function LocalUser(crypto: Crypto.CryptoService, nickname: string): (u: User)
    ensures u.name == nickname && u.id == Some(1)
    ensures crypto.Sound() ==> crypto.DecodeBase64PublicKey(u.encodedKey) == Some(u.publicKey)
  {
    User(nickname, Some(1), crypto.GetPublicKey(), crypto.GetBase64PublicKey())
  }

  class HomeComponent {
    const crypto: Crypto.CryptoService
    const service: ChatService
    /** The values of the form controls, as the user has typed them. */
    var form: Forms.Credentials
    var user: Option<User>
    var room: Option<Room>
    /** `peers: User[] = []`; the field is never reassigned or emptied. */
    const peers: Roster

    /** Construction and `ngOnInit`: empty controls, then the room remembered by the
        chat service, whose name is put into the room control. */
    constructor (crypto: Crypto.CryptoService, service: ChatService)
      ensures this.crypto == crypto && this.service == service
      ensures fresh(peers) && peers.members == []
      ensures user == None && room == service.room
      ensures form == Forms.Credentials(Some(""), if service.room.Some? then Some(service.room.value.name) else Some(""), Some(""))
    {
      this.crypto := crypto;
      this.service := service;
      user := None;
      peers := new Roster();
      form := Forms.Credentials(Some(""), Some(""), Some(""));
      room := service.room;
      new;
      if room.Some? {
        form := form.(room := Some(room.value.name));
      }
    }

    /** `receiveMessages`: on `channelJoined` the admitted peers are appended to the
        roster and the roster, user and room are handed to the chat service; every other
        frame, `commandRejected` included, leaves the state alone. */
    method ReceiveMessage(frame: Inbound)
      modifies peers, service`room, service`user, service`peers
      ensures frame.ChannelJoined? ==>
        && peers.members == old(peers.members) + Admitted(crypto, frame.peers, 2)
        && service.room == room && service.user == user && service.peers == peers
      ensures !frame.ChannelJoined? ==>
        && peers.members == old(peers.members)
        && service.room == old(service.room) && service.user == old(service.user)
        && service.peers == old(service.peers)
    {
      match frame
      case ChannelJoined(list) =>
        service.room := room;
        service.user := user;
        var id := 2;
        var i := 0;
        while i < |list|
          invariant 0 <= i <= |list|
          invariant peers.members == old(peers.members) + Admitted(crypto, list[..i], 2)
          invariant id == 2 + |Admitted(crypto, list[..i], 2)|
          invariant service.room == room && service.user == user
        {
          AdmittedStep(crypto, list, i, 2);
          ghost var before := Admitted(crypto, list[..i], 2);
          var publicKey := crypto.DecodeBase64PublicKey(list[i].key);
          if publicKey.Some? {
            var newUser := User(list[i].name, Some(id), publicKey.value, list[i].key);
            assert Admitted(crypto, list[..i + 1], 2) == before + [newUser];
            peers.members := peers.members + [newUser];
            id := id + 1;
          } else {
            assert Admitted(crypto, list[..i + 1], 2) == before;
          }
          i := i + 1;
        }
        assert list[..i] == list;
        service.peers := peers;
      case _ =>
    }

    /** `onJoin`: nothing happens while the form is invalid; otherwise the local user
        (id 1) and the room are built, the room gets the digest of its secret, and the
        join request is made with both. */
    method OnJoin()
      modifies this`user, this`room, service`joins
      ensures !Forms.FormValid(form) ==>
        user == old(user) && room == old(room) && service.joins == old(service.joins)
      ensures Forms.FormValid(form) ==>
        && user == Some(LocalUser(crypto, form.nickname.value))
        && room == Some(Room(form.room.value, form.secret.value, Some(crypto.Sha256(form.secret.value))))
        && service.joins == old(service.joins) + [JoinRequest(user.value, room.value)]
    {
      if !Forms.FormValid(form) {
        return;
      }
      user := Some(LocalUser(crypto, form.nickname.value));
      room := Some(Room(form.room.value, form.secret.value, None));
      room := Some(room.value.(sha256Secret := Some(crypto.Sha256(room.value.secret))));
      service.JoinRoom(user.value, room.value);
    }
  }
}
