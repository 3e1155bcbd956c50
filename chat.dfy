/** The chat view (web/src/app/components/chat/chat.component.ts): the roster and the
    message log it keeps, how each frame from the relay changes them, the fan-out of an
    outgoing message, the keep-alive and leaving the channel. */
module Chat {
  import opened Wrappers
  import opened Models
  import Crypto
  import opened Service

  // ---------------------------------------------------------------------------
  // Array operations the handlers use

  /** `peers.findIndex(peer => peer.name === name)`: the first position holding that
      name, or -1. */
  function FindIndex(peers: seq<User>, name: string): (r: int)
    ensures -1 <= r < |peers|
    ensures r >= 0 ==> peers[r].name == name && forall j :: 0 <= j < r ==> peers[j].name != name
    ensures r == -1 <==> forall j :: 0 <= j < |peers| ==> peers[j].name != name
  {
    if peers == [] then -1
    else if peers[0].name == name then 0
    else
      var k := FindIndex(peers[1..], name);
      if k == -1 then -1 else k + 1
  }

  /** `peers.find(peer => peer.name === name)`: the first peer with that name, or
      `undefined`. */
  function Find(peers: seq<User>, name: string): (r: Option<User>)
    ensures r.Some? <==> exists j :: 0 <= j < |peers| && peers[j].name == name
    ensures r.Some? ==>
      exists i :: 0 <= i < |peers| && r.value == peers[i] && forall j :: 0 <= j < i ==> peers[j].name != name
    ensures r.Some? ==> r.value.name == name
  {
    var i := FindIndex(peers, name);
    if i >= 0 then Some(peers[i]) else None
  }

  /** `a.splice(start, 1)` on what remains of the array: a negative start counts from
      the end (clamped at 0), a start beyond the end removes nothing. */
  function SpliceOne<T>(a: seq<T>, start: int): (r: seq<T>)
    ensures |r| == if a != [] && start < |a| then |a| - 1 else |a|
    ensures start >= |a| ==> r == a
    ensures forall x :: x in r ==> x in a
  {
    var actual := if start < 0 then (if |a| + start < 0 then 0 else |a| + start)
                  else (if start < |a| then start else |a|);
    var count := if |a| - actual < 1 then |a| - actual else 1;
    a[..actual] + a[actual + count..]
  }

  /** A reference definition: the roster without the first peer of that name. */
  function RemoveFirst(peers: seq<User>, name: string): seq<User>
  {
    if peers == [] then []
    else if peers[0].name == name then peers[1..]
    else [peers[0]] + RemoveFirst(peers[1..], name)
  }

  /** Splicing one element at an index inside the array removes that element. */
  lemma SpliceInside<T>(a: seq<T>, i: int)
    requires 0 <= i < |a|
    ensures SpliceOne(a, i) == a[..i] + a[i + 1..]
  {
  }

  /** Removing the first peer of a name is cutting it out at its index. */
  lemma {:induction false} RemoveFirstAtIndex(peers: seq<User>, name: string)
    requires FindIndex(peers, name) >= 0
    ensures var i := FindIndex(peers, name);
      RemoveFirst(peers, name) == peers[..i] + peers[i + 1..]
  {
    var i := FindIndex(peers, name);
    if i > 0 {
      var tail := peers[1..];
      assert FindIndex(tail, name) == i - 1;
      RemoveFirstAtIndex(tail, name);
      assert RemoveFirst(peers, name) == [peers[0]] + RemoveFirst(tail, name);
      assert RemoveFirst(tail, name) == tail[..i - 1] + tail[i..];
      assert peers[..i] == [peers[0]] + tail[..i - 1];
      assert peers[i + 1..] == tail[i..];
    }
  }

  /** Splicing at the index of a present name removes exactly the first peer of that
      name and keeps the others in order. */
  lemma SpliceAtFoundIndex(peers: seq<User>, name: string)
    requires FindIndex(peers, name) >= 0
    ensures SpliceOne(peers, FindIndex(peers, name)) == RemoveFirst(peers, name)
    ensures |RemoveFirst(peers, name)| == |peers| - 1
  {
    SpliceInside(peers, FindIndex(peers, name));
    RemoveFirstAtIndex(peers, name);
  }

  /** Splicing at -1, the index of an absent name, removes the last peer. */
  lemma SpliceAtMinusOne(peers: seq<User>)
    ensures peers != [] ==> SpliceOne(peers, -1) == peers[..|peers| - 1]
    ensures peers == [] ==> SpliceOne(peers, -1) == []
  {
  }

  // ---------------------------------------------------------------------------
  // Handling one frame from the relay

  /** Why `receiveMessages` stops with an error: a key or a ciphertext the crypto
      service rejects, or reading `.name` of an `undefined` peer. */
  datatype Fault = KeyImportFailed | DecryptionFailed | UnknownSender | UnknownPeerLeft

  datatype Outcome = Handled | Faulted(fault: Fault)

  /** The roster and log after one frame, and how the handler ended. */
  datatype Reaction = Reaction(peers: seq<User>, log: seq<Message>, outcome: Outcome)

  /** The effect of `receiveMessages` on the roster and the log. */
  function Receive(crypto: Crypto.CryptoService, peers: seq<User>, log: seq<Message>, frame: Inbound): (r: Reaction)
    ensures log <= r.log && |r.log| <= |log| + 1
    ensures !frame.PeerJoined? && !frame.PeerLeft? ==> r.peers == peers
    ensures frame.CommandRejected? || frame.ChannelJoined? ==> r == Reaction(peers, log, Handled)
    ensures frame.PeerJoined? && crypto.DecodeBase64PublicKey(frame.who.key).None? ==>
      r == Reaction(peers, log, Faulted(KeyImportFailed))
    ensures frame.MessageReceived? && crypto.Decrypt(frame.message).None? ==>
      r == Reaction(peers, log, Faulted(DecryptionFailed))
    ensures r.outcome.Faulted? <==>
      || (frame.PeerJoined? && crypto.DecodeBase64PublicKey(frame.who.key).None?)
      || (frame.MessageReceived? && (crypto.Decrypt(frame.message).None? || Find(peers, frame.from).None?))
      || (frame.PeerLeft? && Find(peers, frame.name).None?)
  {
    match frame
    case PeerJoined(who) =>
      (match crypto.DecodeBase64PublicKey(who.key)
       case None => Reaction(peers, log, Faulted(KeyImportFailed))
       case Some(publicKey) =>
         var newPeer := User(who.name, None, publicKey, who.key);
         Reaction(peers + [newPeer], log + [Message(Some(newPeer), PeerJoinedEvent, None)], Handled))
    case MessageReceived(from, ciphertext) =>
      (match crypto.Decrypt(ciphertext)
       case None => Reaction(peers, log, Faulted(DecryptionFailed))
       case Some(text) =>
         var fromUser := Find(peers, from);
         Reaction(peers, log + [Message(fromUser, MessageReceivedEvent, Some(text))],
                  if fromUser.None? then Faulted(UnknownSender) else Handled))
    case PeerLeft(name) =>
      var userLeft := Find(peers, name);
      var indexPeer := FindIndex(peers, name);
      Reaction(SpliceOne(peers, indexPeer), log + [Message(userLeft, PeerLeftEvent, None)],
               if userLeft.None? then Faulted(UnknownPeerLeft) else Handled)
    case CommandRejected(_) => Reaction(peers, log, Handled)
    case ChannelJoined(_) => Reaction(peers, log, Handled)
  }

  /** `peerJoined` with a key that decodes appends one peer built from the frame and one
      presence entry for it; earlier entries stay as they were. A key that does not
      decode changes nothing. */
  lemma PeerJoinedAppends(crypto: Crypto.CryptoService, peers: seq<User>, log: seq<Message>, who: PeerInfo)
    ensures var r := Receive(crypto, peers, log, PeerJoined(who));
      match crypto.DecodeBase64PublicKey(who.key)
      case Some(k) =>
        && |r.peers| == |peers| + 1 && r.peers[..|peers|] == peers
        && r.peers[|peers|] == User(who.name, None, k, who.key)
        && |r.log| == |log| + 1
        && r.log[|log|] == Message(Some(r.peers[|peers|]), PeerJoinedEvent, None)
        && r.outcome == Handled
      case None => r.peers == peers && r.log == log
  {
  }

  /** `messageReceived` keeps the roster and logs the decrypted text, attributed to the
      first peer with the sender's name; when no peer has it the entry has no sender and
      the handler faults. */
  lemma MessageReceivedLogs(crypto: Crypto.CryptoService, peers: seq<User>, log: seq<Message>, from: string, ciphertext: string, text: string)
    requires crypto.Decrypt(ciphertext) == Some(text)
    ensures var r := Receive(crypto, peers, log, MessageReceived(from, ciphertext));
      && r.peers == peers
      && r.log == log + [Message(Find(peers, from), MessageReceivedEvent, Some(text))]
      && (FindIndex(peers, from) >= 0 ==> r.log[|log|].from == Some(peers[FindIndex(peers, from)]))
      && (r.outcome == Handled <==> exists j :: 0 <= j < |peers| && peers[j].name == from)
  {
  }

  /** `messageReceived` with a ciphertext the crypto service rejects stops before
      anything is logged: roster and log stay as they were. */
  lemma MessageRejectedKeepsState(crypto: Crypto.CryptoService, peers: seq<User>, log: seq<Message>, from: string, ciphertext: string)
    requires crypto.Decrypt(ciphertext).None?
    ensures Receive(crypto, peers, log, MessageReceived(from, ciphertext)) == Reaction(peers, log, Faulted(DecryptionFailed))
  {
  }

  /** `peerLeft` for a present name logs its departure and removes exactly the first
      peer with that name. */
  lemma PeerLeftPresent(crypto: Crypto.CryptoService, peers: seq<User>, log: seq<Message>, name: string)
    requires exists j :: 0 <= j < |peers| && peers[j].name == name
    ensures var r := Receive(crypto, peers, log, PeerLeft(name));
      && r.peers == RemoveFirst(peers, name) && |r.peers| == |peers| - 1
      && r.log == log + [Message(Some(peers[FindIndex(peers, name)]), PeerLeftEvent, None)]
      && r.outcome == Handled
  {
    SpliceAtFoundIndex(peers, name);
  }

  /** `peerLeft` for an absent name logs an entry without a peer, removes the LAST peer
      (the index is -1) and then faults. */
  lemma PeerLeftAbsent(crypto: Crypto.CryptoService, peers: seq<User>, log: seq<Message>, name: string)
    requires forall j :: 0 <= j < |peers| ==> peers[j].name != name
    ensures var r := Receive(crypto, peers, log, PeerLeft(name));
      && r.peers == (if peers == [] then [] else peers[..|peers| - 1])
      && r.log == log + [Message(None, PeerLeftEvent, None)]
      && r.outcome == Faulted(UnknownPeerLeft)
  {
    assert FindIndex(peers, name) == -1;
    assert Find(peers, name) == None;
    SpliceAtMinusOne(peers);
  }

  /** Any sequence of frames only ever extends the log. */
  lemma {:induction false} LogAppendOnly(crypto: Crypto.CryptoService, peers: seq<User>, log: seq<Message>, frames: seq<Inbound>)
    ensures log <= ReceiveAll(crypto, peers, log, frames).log
    ensures |ReceiveAll(crypto, peers, log, frames).log| <= |log| + |frames|
    decreases |frames|
  {
    if frames != [] {
      var r := Receive(crypto, peers, log, frames[0]);
      LogAppendOnly(crypto, r.peers, r.log, frames[1..]);
    }
  }

  /** The frames handled one after another; the last outcome is kept. */
  function ReceiveAll(crypto: Crypto.CryptoService, peers: seq<User>, log: seq<Message>, frames: seq<Inbound>): Reaction
    decreases |frames|
  {
    if frames == [] then Reaction(peers, log, Handled)
    else
      var r := Receive(crypto, peers, log, frames[0]);
      ReceiveAll(crypto, r.peers, r.log, frames[1..])
  }

  // ---------------------------------------------------------------------------
  // Sending

  /** The frame for one peer: its name and the text encrypted under its key; nothing
      when the encryption is rejected. */
  function FrameFor(crypto: Crypto.CryptoService, content: string, peer: User): (frames: seq<Outbound>)
    ensures |frames| <= 1
    ensures frames != [] <==> crypto.Encrypt(content, peer.publicKey).Some?
    ensures forall f :: f in frames ==>
      f == Outbound.SendMessage(peer.name, crypto.Encrypt(content, peer.publicKey).value)
  {
    match crypto.Encrypt(content, peer.publicKey)
    case None => []
    case Some(encrypted) => [Outbound.SendMessage(peer.name, encrypted)]
  }

  /** The frames `sendMessage` sends, peer by peer in roster order. */
  function FanOut(crypto: Crypto.CryptoService, content: string, peers: seq<User>): (frames: seq<Outbound>)
    ensures |frames| <= |peers|
  {
    if peers == [] then []
    else FanOut(crypto, content, peers[..|peers| - 1]) + FrameFor(crypto, content, peers[|peers| - 1])
  }

  /** Every frame of the fan-out is addressed to a peer of the roster and carries the
      text encrypted under that peer's key. */
  lemma {:induction false} FanOutRecipients(crypto: Crypto.CryptoService, content: string, peers: seq<User>)
    ensures forall f :: f in FanOut(crypto, content, peers) ==>
      exists p :: p in peers && f.SendMessage? && f.to == p.name
        && crypto.Encrypt(content, p.publicKey) == Some(f.message)
  {
    if peers != [] {
      var init := peers[..|peers| - 1];
      FanOutRecipients(crypto, content, init);
      assert forall p :: p in init ==> p in peers;
    }
  }

  /** How many peers of the roster the text can be encrypted for. */
  function Successes(crypto: Crypto.CryptoService, content: string, peers: seq<User>): nat
  {
    if peers == [] then 0
    else
      var last := if crypto.Encrypt(content, peers[|peers| - 1].publicKey).Some? then 1 else 0;
      Successes(crypto, content, peers[..|peers| - 1]) + last
  }

  /** The fan-out is the roster filtered by successful encryption: one frame per peer
      whose encryption succeeds, in roster order, and none for the others. The frame of
      peer i sits after those of the earlier peers that succeeded. */
  lemma {:induction false} FanOutFiltered(crypto: Crypto.CryptoService, content: string, peers: seq<User>)
    ensures |FanOut(crypto, content, peers)| == Successes(crypto, content, peers)
    ensures forall i :: 0 <= i < |peers| && crypto.Encrypt(content, peers[i].publicKey).Some? ==>
      && Successes(crypto, content, peers[..i]) < |FanOut(crypto, content, peers)|
      && FanOut(crypto, content, peers)[Successes(crypto, content, peers[..i])] ==
           Outbound.SendMessage(peers[i].name, crypto.Encrypt(content, peers[i].publicKey).value)
  {
    if peers != [] {
      var n := |peers|;
      var init := peers[..n - 1];
      FanOutFiltered(crypto, content, init);
      var frames := FanOut(crypto, content, peers);
      assert frames == FanOut(crypto, content, init) + FrameFor(crypto, content, peers[n - 1]);
      forall i | 0 <= i < n && crypto.Encrypt(content, peers[i].publicKey).Some?
        ensures Successes(crypto, content, peers[..i]) < |frames|
        ensures frames[Successes(crypto, content, peers[..i])] ==
          Outbound.SendMessage(peers[i].name, crypto.Encrypt(content, peers[i].publicKey).value)
      {
        if i < n - 1 {
          assert peers[..i] == init[..i];
          assert init[i] == peers[i];
        } else {
          assert peers[..i] == init;
        }
      }
    }
  }

  /** One more peer adds that peer's frame at the end. */
  lemma FanOutStep(crypto: Crypto.CryptoService, content: string, peers: seq<User>, i: nat)
    requires i < |peers|
    ensures FanOut(crypto, content, peers[..i + 1]) == FanOut(crypto, content, peers[..i]) + FrameFor(crypto, content, peers[i])
  {
    assert peers[..i + 1][..i] == peers[..i];
  }

  /** When every encryption succeeds there is exactly one frame per peer, the i-th for
      the i-th peer. */
  lemma {:induction false} FanOutOnePerPeer(crypto: Crypto.CryptoService, content: string, peers: seq<User>)
    requires forall i :: 0 <= i < |peers| ==> crypto.Encrypt(content, peers[i].publicKey).Some?
    ensures |FanOut(crypto, content, peers)| == |peers|
    ensures forall i :: 0 <= i < |peers| ==>
      FanOut(crypto, content, peers)[i] ==
        Outbound.SendMessage(peers[i].name, crypto.Encrypt(content, peers[i].publicKey).value)
  {
    if peers != [] {
      var n := |peers|;
      var init := peers[..n - 1];
      FanOutOnePerPeer(crypto, content, init);
      var frames := FanOut(crypto, content, peers);
      var last := Outbound.SendMessage(peers[n - 1].name, crypto.Encrypt(content, peers[n - 1].publicKey).value);
      assert FrameFor(crypto, content, peers[n - 1]) == [last];
      assert frames == FanOut(crypto, content, init) + [last];
      forall i | 0 <= i < n
        ensures frames[i] == Outbound.SendMessage(peers[i].name, crypto.Encrypt(content, peers[i].publicKey).value)
      {
        if i < n - 1 {
          assert init[i] == peers[i];
        }
      }
    }
  }

  // ---------------------------------------------------------------------------
  // Presence at start-up

  /** One presence entry per peer, in roster order. */
  function Presence(peers: seq<User>): (log: seq<Message>)
    ensures |log| == |peers|
    ensures forall i :: 0 <= i < |peers| ==> log[i] == Message(Some(peers[i]), PeerJoinedEvent, None)
  {
    if peers == [] then []
    else Presence(peers[..|peers| - 1]) + [Message(Some(peers[|peers| - 1]), PeerJoinedEvent, None)]
  }

  /** The log after `showActivePeers`: seeded from the roster only when empty. */
  function ShowActive(peers: seq<User>, log: seq<Message>): (r: seq<Message>)
    ensures log != [] ==> r == log
    ensures log == [] ==> |r| == |peers|
    ensures log == [] ==>
      forall i :: 0 <= i < |peers| ==> r[i] == Message(Some(peers[i]), PeerJoinedEvent, None)
  {
    if log == [] then Presence(peers) else log
  }

  /** Showing the active peers a second time changes nothing. */
  lemma {:induction false} ShowActiveIdempotent(peers: seq<User>, log: seq<Message>)
    ensures ShowActive(peers, ShowActive(peers, log)) == ShowActive(peers, log)
  {
    if log == [] && peers == [] {
      assert Presence(peers) == [];
    }
  }

  /** What the dialog reports when it closes. */
  datatype PopupResult = PopupResult(logout: bool)

  // ---------------------------------------------------------------------------
  // The component

  class ChatComponent {
    const crypto: Crypto.CryptoService
    const service: ChatService
    var user: Option<User>
    var channel: Option<Channel>
    /** The roster: the array the chat service handed over, shared with the join view. */
    var peers: Roster
    var messages: seq<Message>
    var messageContent: string

    /** Construction and `ngOnInit`: user, channel and roster come from the chat service,
        then the log is seeded with one presence entry per peer. */
    constructor (crypto: Crypto.CryptoService, service: ChatService)
      requires service.peers != null
      ensures this.crypto == crypto && this.service == service
      ensures user == service.user && channel == service.channel && peers == service.peers
      ensures messages == Presence(peers.members) && messageContent == ""
    {
      this.crypto := crypto;
      this.service := service;
      user := service.user;
      channel := service.channel;
      peers := service.peers;
      messages := [];
      messageContent := "";
      new;
      ShowActivePeers();
    }

    /** `showActivePeers`: one presence entry per peer, only when the log is empty. */
    method ShowActivePeers()
      modifies this`messages
      ensures messages == ShowActive(peers.members, old(messages))
    {
      if |messages| == 0 {
        var roster := peers.members;
        var i := 0;
        while i < |roster|
          invariant 0 <= i <= |roster|
          invariant messages == Presence(roster[..i])
        {
          assert roster[..i + 1][..i] == roster[..i];
          messages := messages + [Message(Some(roster[i]), PeerJoinedEvent, None)];
          i := i + 1;
        }
        assert roster[..i] == roster;
      }
    }

    /** `receiveMessages`: the roster and the log change as `Receive` says, and nothing
        is sent. */
    method ReceiveMessage(frame: Inbound) returns (outcome: Outcome)
      modifies this`messages, peers
      ensures Reaction(peers.members, messages, outcome) == Receive(crypto, old(peers.members), old(messages), frame)
    {
      match frame
      case PeerJoined(who) =>
        var publicKey := crypto.DecodeBase64PublicKey(who.key);
        if publicKey.None? {
          return Faulted(KeyImportFailed);
        }
        var newPeer := User(who.name, None, publicKey.value, who.key);
        peers.members := peers.members + [newPeer];
        messages := messages + [Message(Some(newPeer), PeerJoinedEvent, None)];
        outcome := Handled;
      case MessageReceived(from, ciphertext) =>
        var messageDecrypted := crypto.Decrypt(ciphertext);
        if messageDecrypted.None? {
          return Faulted(DecryptionFailed);
        }
        var fromUser := Find(peers.members, from);
        messages := messages + [Message(fromUser, MessageReceivedEvent, messageDecrypted)];
        outcome := if fromUser.None? then Faulted(UnknownSender) else Handled;
      case PeerLeft(name) =>
        var userLeft := Find(peers.members, name);
        var indexPeer := FindIndex(peers.members, name);
        messages := messages + [Message(userLeft, PeerLeftEvent, None)];
        peers.members := SpliceOne(peers.members, indexPeer);
        outcome := if userLeft.None? then Faulted(UnknownPeerLeft) else Handled;
      case CommandRejected(_) =>
        outcome := Handled;
      case ChannelJoined(_) =>
        outcome := Handled;
    }

    /** `sendEmptyMessage`: the keep-alive frame `{}`. */
    method SendEmptyMessage()
      modifies service`outbox
      ensures service.outbox == old(service.outbox) + [Keepalive]
    {
      service.Send(Keepalive);
    }

    /** `sendMessage`: nothing for empty content; otherwise one encrypted frame per peer
        (see `FanOut`), the plain text logged once as the user's own message, and the
        input cleared. The roster is not touched. */
    method SendMessage(content: string)
      modifies this`messages, this`messageContent, service`outbox
      ensures content == "" ==>
        messages == old(messages) && messageContent == old(messageContent)
        && service.outbox == old(service.outbox)
      ensures content != "" ==>
        && service.outbox == old(service.outbox) + FanOut(crypto, content, peers.members)
        && messages == old(messages) + [Message(user, MessageReceivedEvent, Some(content))]
        && messageContent == ""
    {
      if content == "" {
        return;
      }
      var roster := peers.members;
      var i := 0;
      while i < |roster|
        invariant 0 <= i <= |roster|
        invariant service.outbox == old(service.outbox) + FanOut(crypto, content, roster[..i])
        invariant messages == old(messages)
      {
        FanOutStep(crypto, content, roster, i);
        SendTo(content, roster[i]);
        i := i + 1;
      }
      assert roster[..i] == roster;
      messages := messages + [Message(user, MessageReceivedEvent, Some(content))];
      messageContent := "";
    }

    /** The `forEach` callback of `sendMessage`: the text encrypted for one peer and
        sent to it, or nothing when the encryption is rejected. */
    method SendTo(content: string, peer: User)
      modifies service`outbox
      ensures service.outbox == old(service.outbox) + FrameFor(crypto, content, peer)
    {
      var encrypted := crypto.Encrypt(content, peer.publicKey);
      if encrypted.Some? {
        service.Send(Outbound.SendMessage(peer.name, encrypted.value));
      }
    }

    /** `leaveChannel`: the frame `{type: 'leftChannel'}`. */
    method LeaveChannel()
      modifies service`outbox
      ensures service.outbox == old(service.outbox) + [LeftChannel]
    {
      service.Send(LeftChannel);
    }

    /** What `openUserPopup` does when the dialog closes: on logout it leaves the
        channel and forgets channel and user in the chat service; otherwise nothing.
        The view's own roster, log, user and channel are left as they are.
        `paramsDialog` is `None` when the dialog was dismissed. */
    method OnUserPopupClosed(paramsDialog: Option<PopupResult>)
      modifies service`outbox, service`channel, service`user
      ensures paramsDialog.Some? && paramsDialog.value.logout ==>
        service.outbox == old(service.outbox) + [LeftChannel]
        && service.channel == None && service.user == None
      ensures !(paramsDialog.Some? && paramsDialog.value.logout) ==>
        service.outbox == old(service.outbox)
        && service.channel == old(service.channel) && service.user == old(service.user)
    {
      if paramsDialog.None? {
        return;
      }
      if paramsDialog.value.logout {
        LeaveChannel();
        service.channel := None;
        service.user := None;
      }
    }
  }
}
