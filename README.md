# safer.chat client session, modelled in Dafny

safer.chat is an end-to-end encrypted channel chat. A browser client joins a room by
name and shared secret, and announces its RSA-OAEP public key. It receives the other
peers' keys, and sends every chat message as one ciphertext per peer. This project
models the client side of that session:

- the join view (`Home`): form validation, the join request carrying the SHA-256 digest
  of the secret, and the initial roster built on `channelJoined`, with ids from a
  counter;
- the chat view (`Chat`): the roster and the append-only message log, and how the four
  relay events change them (`peerJoined`, `messageReceived`, `peerLeft`,
  `commandRejected`). It also covers the per-peer fan-out of an outgoing message, the
  keep-alive frame, and logout;
- the user dialog (`DialogUser`): its form and the record it closes with;
- the crypto service (`Crypto`): the lower-case hex rendering of the digest, and the
  encode/encrypt and decrypt/decode pipelines around the foreign primitives;
- the shared state (`Service`): the chat service's fields, and the roster array that the
  join view, the chat service and the chat view all hold by reference.

Files: `wrappers.dfy` (Option), `crypto.dfy`, `models.dfy` (the shapes of users, rooms,
messages and frames, taken from their call sites), `forms.dfy` (validators), `service.dfy`,
`home.dfy`, `chat.dfy`, `dialog_user.dfy`.

How the model is built:

- State the source mutates lives in classes: `Home.HomeComponent`,
  `Chat.ChatComponent`, `Service.ChatService` and `Service.Roster`.
- Each handler of a class is specified against a pure function. `Chat.Receive`
  specifies the chat view's frame handler, `Home.Admitted` the roster built on
  `channelJoined`, `Chat.FanOut` the frames of an outgoing message, and
  `Chat.ShowActive` the log seeded at start-up.
- The properties are then proved about those functions.
- The transport is reduced to the log of frames passed to `send`
  (`ChatService.outbox`). `JoinRoom` is reduced to the log of its calls
  (`ChatService.joins`).

In these cases the model follows what the code does:

- `peerLeft` for an absent name is not a no-op. The lookup gives index -1, and
  `splice(-1, 1)` removes the last peer. Then reading `.name` of `undefined` faults.
  Before that, an entry with no peer has already been logged.
- A `messageReceived` from an unknown sender is not attributed to a sentinel peer. The
  entry is logged with no sender, and then the handler faults.
- `channelJoined` does not replace the roster. It appends to a roster that is never
  cleared, and the ids restart at 2 each time (`Home.SecondChannelJoinedRepeatsIds`).
- Logout does not clear the roster or the view's own user and channel. It clears only
  the chat service's channel and user.
- The chat view creates a joining peer with three arguments
  (`new User(name, key, text)`) where the join view passes four (name, id, key, text).
  The model reads the three by role: a peer that joins later has no id (`None`), and
  it has the decoded key and the key text. See "## Left out" for what this assumes.

## Model

| member | source | states |
|---|---|---|
| `Crypto.ToRadix16` | web/src/app/services/crypto.service.ts:115 | `toString(16)` of a non-negative number is at least one character, and every character is a lower-case hex digit |
| `Crypto.ByteToHexDigits` | web/src/app/services/crypto.service.ts:115 | `('00' + b.toString(16)).slice(-2)` is exactly the two digits hexdigit(b / 16), hexdigit(b % 16); the padding gives the leading zero for b < 16 |
| `Crypto.Hex` | web/src/app/services/crypto.service.ts:112-115 | the rendering has twice as many characters as the digest has bytes, all in `0-9a-f` |
| `Crypto.HexAt` | web/src/app/services/crypto.service.ts:114-115 | order is kept: characters 2i and 2i+1 encode byte i, high nibble first |
| `Crypto.DigitValue` | web/src/app/services/crypto.service.ts:115 | reading a digit back is defined exactly on `0-9a-f`, and it inverts the digit `toString(16)` prints |
| `Crypto.FromHexInvertsHex` | web/src/app/services/crypto.service.ts:115 | de-hexing the rendering returns the original bytes |
| `Crypto.HexInjective` | web/src/app/services/crypto.service.ts:115 | distinct digests have distinct renderings |
| `Crypto.Sha256Digest` | web/src/app/services/crypto.service.ts:104-117 | given 32-byte SHA-256 digests, `sha256` returns 64 lower-case hex digits; the result depends only on the UTF-8 bytes of the input, so equal secrets give equal digests |
| `Crypto.DecryptEncryptRoundTrip` | web/src/app/services/crypto.service.ts:40-75 | if RSA-OAEP, base64 and UTF-8 each round-trip, a successful `encrypt` under the own public key is undone by `decrypt` |
| `Crypto.ByteToHex` | web/src/app/services/crypto.service.ts:115 | the padded, sliced rendering of one byte is exactly two lower-case hex digits |
| `Crypto.CryptoService.GetPublicKey` | web/src/app/services/crypto.service.ts:22-24 | the public key of the session's key pair (that the own key text decodes to it, and that the local user carries it, is stated by `Home.LocalUser`) |
| `Crypto.CryptoService.GetBase64PublicKey` | web/src/app/services/crypto.service.ts:18-20 | the text `onEncryptionKeysGenerated` stores is the base64 of the SPKI export of the own public key, so decoding it gives that key back |
| `Crypto.CryptoService.DecodeBase64PublicKey` | web/src/app/services/crypto.service.ts:26-38 | a text that is not base64 is rejected; for a base64 text the result is exactly the SPKI import of its bytes, so it is accepted iff those bytes import |
| `Crypto.CryptoService.Encrypt` | web/src/app/services/crypto.service.ts:47-57 | encryption succeeds iff RSA-OAEP accepts the UTF-8 bytes under the given key, and then the result is the base64 text of that ciphertext |
| `Crypto.CryptoService.Decrypt` | web/src/app/services/crypto.service.ts:64-75 | decryption succeeds iff the text is base64 and RSA-OAEP with the own private key accepts the bytes, and then the result is the UTF-8 decoding of the RSA plaintext |
| `Crypto.CryptoService.Sha256` | web/src/app/services/crypto.service.ts:104-117 | the rendering has two characters per digest byte and reads back to exactly the digest of the UTF-8 bytes of the message |
| `Forms.Required` | web/src/app/components/home/home.component.ts:60-64 | `Validators.required`: a present, non-empty value (its effect on the controls is stated by `Forms.NicknameValidIff`, `Forms.RoomValidIff` and `Forms.FormValidIff`) |
| `Forms.PatternValid` | web/src/app/components/home/home.component.ts:60-63 | `Validators.pattern`: an absent or empty value passes and any other value must match the whole pattern (stated in plain terms by `Forms.NicknamePatternMeaning` and `Forms.RoomPatternMeaning`) |
| `Forms.MatchesThreePieces` | web/src/app/components/home/home.component.ts:61 | the pattern shape `^[^- ]` + middle class `{1,18}` + `[^- ]$` accepts exactly the strings of length 3 to 20 with both ends in the edge class and every inner character in the middle class |
| `Forms.EdgeClass` | web/src/app/components/home/home.component.ts:61 | `[^- ]` holds every character except '-' and space |
| `Forms.NicknameMiddleClass` | web/src/app/components/home/home.component.ts:61 | `[a-z0-9 _ -]` holds exactly a-z, 0-9, space, '_' and '-' |
| `Forms.RoomMiddleClass` | web/src/app/components/home/home.component.ts:63 | `[a-z0-9 _ -.]` holds exactly a-z, 0-9, '_' and the range U+0020 to U+002E |
| `Forms.NicknamePatternMeaning` | web/src/app/components/home/home.component.ts:60-61 | the nickname pattern matches iff the string has length 3 to 20, neither end is '-' or space, and every middle character is in {a-z, 0-9, space, '_', '-'} |
| `Forms.RoomPatternMeaning` | web/src/app/components/home/home.component.ts:62-63 | the room pattern matches iff the string has the same shape with middle class {a-z, 0-9, '_'} ∪ U+0020..U+002E |
| `Forms.NicknameValidIff` | web/src/app/components/home/home.component.ts:60-61 | required plus pattern accepts a nickname control iff it holds a string of the nickname shape |
| `Forms.RoomValidIff` | web/src/app/components/home/home.component.ts:62-63 | required plus pattern accepts a room control iff it holds a string of the room shape |
| `Forms.FormValidIff` | web/src/app/components/home/home.component.ts:58-66 | the join form is valid iff nickname and room have their shapes and the secret is non-empty |
| `Forms.NicknameShapeIsRoomShape` | web/src/app/components/home/home.component.ts:60-63 | every valid nickname is a valid room name; "a.b" is a valid room name but not a valid nickname |
| `Home.Admitted` | web/src/app/components/home/home.component.ts:76-81 | the k-th peer appended on `channelJoined` gets id 2 + k; at most one user per listed peer; each admitted user's key is the decoding of its key text |
| `Home.AdmittedAreAccepted` | web/src/app/components/home/home.component.ts:77-80 | the users appended are exactly the listed peers whose key decodes, in list order, with the relay's name and key text |
| `Home.RejectedKeyNotAdmitted` | web/src/app/components/home/home.component.ts:78-80 | a peer whose key import fails is never appended |
| `Home.AdmittedIds` | web/src/app/components/home/home.component.ts:76-79 | the ids dealt out in one event are distinct and at least 2, so never 1, the local user's id |
| `Home.SecondChannelJoinedRepeatsIds` | web/src/app/components/home/home.component.ts:24-80 | the roster is never cleared, so a second `channelJoined` that admits someone leaves two peers with id 2 |
| `Home.GoodAndBadKey` | web/src/app/components/home/home.component.ts:77-80 | a list of a peer with a good key and a peer with a bad key admits only the first, with id 2 |
| `Home.LocalUser` | web/src/app/components/home/home.component.ts:107-111 | the local user has the nickname and id 1, and its key text decodes to its own public key |
| `Home.HomeComponent.constructor` | web/src/app/components/home/home.component.ts:32-38 | empty form controls, an empty fresh roster, and the remembered room put into the room control |
| `Home.HomeComponent.ReceiveMessage` | web/src/app/components/home/home.component.ts:68-91 | `channelJoined` appends `Admitted(list, 2)` to the roster and hands roster, user and room to the chat service; `commandRejected` and every other frame change nothing |
| `Home.HomeComponent.OnJoin` | web/src/app/components/home/home.component.ts:102-119 | an invalid form changes nothing and makes no join request; a valid one builds the user with id 1 and the own key, sets the room's `sha256Secret` to the digest of its secret, then calls `JoinRoom` with both |
| `Service.Roster.constructor` | web/src/app/components/home/home.component.ts:24 | the shared roster array starts empty |
| `Service.ChatService.constructor` | web/src/app/services/chat.service.ts:15-20 | the chat service starts with no channel, user, room or roster, and with nothing sent or requested yet |
| `Service.ChatService.Send` | web/src/app/services/chat.service.ts:58-60 | sending appends the frame to the outbound log |
| `Service.ChatService.JoinRoom` | web/src/app/components/home/home.component.ts:118 | a join request is recorded with its user and room, after the earlier ones |
| `Chat.FindIndex` | web/src/app/components/chat/chat.component.ts:123 | `findIndex` gives the first position holding the name, and -1 iff no peer has it |
| `Chat.Find` | web/src/app/components/chat/chat.component.ts:115 | `find` gives a peer iff some peer has the name, and then it is the first peer with that name |
| `Chat.SpliceOne` | web/src/app/components/chat/chat.component.ts:126 | `splice(start, 1)` removes one element of a non-empty array for any start below its length (a negative start counts from the end), and removes nothing for a start at or past the end; it keeps only elements of the array |
| `Chat.SpliceAtFoundIndex` | web/src/app/components/chat/chat.component.ts:122-126 | for a present name, `splice(findIndex(…), 1)` removes exactly the first peer with that name and keeps the rest in order |
| `Chat.SpliceAtMinusOne` | web/src/app/components/chat/chat.component.ts:126 | `splice(-1, 1)` removes the last peer, and does nothing on an empty roster |
| `Chat.Receive` | web/src/app/components/chat/chat.component.ts:102-135 | every frame leaves the old log as a prefix of the new one and adds at most one entry; only `peerJoined` and `peerLeft` touch the roster; `commandRejected` and the ignored `channelJoined` change neither roster nor log and end normally; a rejected key or ciphertext faults before any change; the handler faults exactly on a rejected key, a rejected ciphertext, an unknown sender, or an unknown leaving peer |
| `Chat.PeerJoinedAppends` | web/src/app/components/chat/chat.component.ts:105-108 | `peerJoined` appends one peer built from the name, the decoded key and the key text, plus one presence entry for it; earlier entries are unchanged; a key that fails to decode changes nothing |
| `Chat.MessageReceivedLogs` | web/src/app/components/chat/chat.component.ts:114-117 | `messageReceived` keeps the roster and appends the decrypted text, attributed to the first peer with the sender's name; it ends normally iff such a peer exists |
| `Chat.MessageRejectedKeepsState` | web/src/app/components/chat/chat.component.ts:112-114 | a `messageReceived` whose ciphertext is rejected faults before the push, so roster and log are unchanged |
| `Chat.PeerLeftPresent` | web/src/app/components/chat/chat.component.ts:122-126 | `peerLeft` for a present name logs a departure of that peer and removes exactly the first peer with that name |
| `Chat.PeerLeftAbsent` | web/src/app/components/chat/chat.component.ts:122-127 | `peerLeft` for an absent name logs an entry with no peer, removes the last peer, then faults |
| `Chat.LogAppendOnly` | web/src/app/components/chat/chat.component.ts:102-135 | over any sequence of frames, the log only grows, by at most one entry per frame |
| `Chat.FrameFor` | web/src/app/components/chat/chat.component.ts:174-185 | one peer gets at most one frame; it gets one iff the text can be encrypted under its key, and that frame is addressed to its name and carries the ciphertext |
| `Chat.FanOut` | web/src/app/components/chat/chat.component.ts:173-186 | at most as many frames as peers |
| `Chat.FanOutFiltered` | web/src/app/components/chat/chat.component.ts:173-186 | the frames are the roster filtered by successful encryption: as many frames as peers whose encryption succeeds, and the frame of such a peer i comes right after those of the earlier successful peers, addressed to peer i with its ciphertext |
| `Chat.FanOutRecipients` | web/src/app/components/chat/chat.component.ts:173-186 | every frame is addressed to a peer's name and carries the text encrypted under that peer's key |
| `Chat.FanOutOnePerPeer` | web/src/app/components/chat/chat.component.ts:173-186 | when every encryption succeeds, there are exactly as many frames as peers, and the i-th is addressed to the i-th peer with its ciphertext |
| `Chat.Presence` | web/src/app/components/chat/chat.component.ts:76-78 | one presence entry per peer, in roster order |
| `Chat.ShowActive` | web/src/app/components/chat/chat.component.ts:74-80 | a non-empty log is kept as it is; an empty log becomes one presence entry per peer, in roster order |
| `Chat.ShowActiveIdempotent` | web/src/app/components/chat/chat.component.ts:74-80 | showing the active peers a second time changes nothing |
| `Chat.ChatComponent.constructor` | web/src/app/components/chat/chat.component.ts:53-62 | user, channel and the roster reference come from the chat service, and the log starts as one presence entry per peer |
| `Chat.ChatComponent.ShowActivePeers` | web/src/app/components/chat/chat.component.ts:74-80 | the log is seeded from the roster only when it is empty |
| `Chat.ChatComponent.ReceiveMessage` | web/src/app/components/chat/chat.component.ts:96-136 | roster, log and outcome change exactly as `Chat.Receive` says |
| `Chat.ChatComponent.SendEmptyMessage` | web/src/app/components/chat/chat.component.ts:147-150 | the keep-alive sends exactly the empty frame, and roster and log stay unchanged |
| `Chat.ChatComponent.SendMessage` | web/src/app/components/chat/chat.component.ts:166-190 | empty content sends and logs nothing; otherwise the frames are `FanOut(content, roster)`, one self-authored plain-text entry is logged, the input is cleared, and the roster is untouched |
| `Chat.ChatComponent.SendTo` | web/src/app/components/chat/chat.component.ts:174-185 | the callback for one peer sends exactly that peer's `FrameFor`: its ciphertext addressed to it, or nothing when the encryption is rejected |
| `Chat.ChatComponent.LeaveChannel` | web/src/app/components/chat/chat.component.ts:192-195 | leaving sends exactly `{type: 'leftChannel'}` |
| `Chat.ChatComponent.OnUserPopupClosed` | web/src/app/components/chat/chat.component.ts:201-214 | on logout, sends `leftChannel` and then clears the chat service's channel and user; a dismissed dialog or any other result changes nothing |
| `DialogUser.Open` | web/src/app/components/dialog-user/dialog-user.component.ts:15-18 | the constructor keeps the injected data as `previousUserData` (stated for the saved record by `DialogUser.SaveKeepsOpeningData`) |
| `DialogUser.CreateFormGroup` | web/src/app/components/dialog-user/dialog-user.component.ts:24-31 | the controls start with the data's user name, channel and secret (stated for saving by `DialogUser.SaveUntouched`) |
| `DialogUser.OnSave` | web/src/app/components/dialog-user/dialog-user.component.ts:34-46 | a result exists iff the nickname and channel have their shapes and the secret is non-empty; then user name, channel and secret are the form's values |
| `DialogUser.SaveKeepsOpeningData` | web/src/app/components/dialog-user/dialog-user.component.ts:17-45 | the record's `dialogType` comes from the opening data, and `previousUserData` is exactly that data |
| `DialogUser.SaveUntouched` | web/src/app/components/dialog-user/dialog-user.component.ts:24-45 | the form starts with the data's user name, channel and secret; saving it untouched succeeds iff those already have the shapes, and then returns them with the data |

## Left out

- The cryptographic and library primitives are foreign code, so each is a given function
  in `Crypto.Primitives`: RSA-OAEP (section 7.1 of RFC 8017, 2048-bit keys, exponent
  65537), SHA-256 (section 6.2 of FIPS 180-4), SPKI import and export (section 4.1.2.7
  of RFC 5280), base64 (section 4 of RFC 4648, through base64-js) and UTF-8 (RFC 3629,
  through TextEncoder/TextDecoder). What the service relies on them for is stated by
  `CryptoService.Sound`.
- Key pair generation and the export of the own public key happen once, asynchronously,
  at service construction. The model takes the resulting key pair as given. The time
  window in which `getBase64PublicKey` is still undefined is not modelled.
- Encryption is deterministic in the model, because the primitive is a function. The
  randomised padding of RSA-OAEP, which gives each frame a different ciphertext, is not
  captured.
- The transport is not modelled: the WebSocket, the connect-once guard, dropping frames
  while the socket is not open, and JSON parsing. `send` appends to an outbound log.
  `JoinRoom`, `getRoom`, `setRoom` and `sendBrowserNotification` are called but not
  defined in chat.service.ts. `JoinRoom` is recorded with its arguments, the room
  is a field of the chat service, and notifications are left out.
- Timers and reconnection are event-loop scheduling, so they are not modelled: the
  60-second keep-alive interval, the 1-second reconnect timeout, and error and closure
  of the inbound stream. Only the keep-alive frame itself is modelled
  (`SendEmptyMessage`).
- Asynchrony is not modelled. Every crypto call is taken to resolve at once, in call
  order. So in `channelJoined` the ids follow list order (in the source they follow
  the order in which imports resolve). In `sendMessage` the frames follow roster order,
  and the roster cannot change during a fan-out.
- UI effects are left out: routing, the dialog and snack-bar widgets, block-UI,
  scrolling, `onbeforeunload`, and browser notifications. `commandRejected` therefore
  changes no state in either view. What the user dialog returns on logout comes from
  its template, which is not part of this model; `Chat.PopupResult` abstracts it to
  a logout flag.
- Chat.ChatComponent.constructor: requires that the chat service already holds a roster.
  Opening the chat view before any `channelJoined` (where `showActivePeers` would read
  an undefined roster) is not modelled.
- Chat.Receive: the `User` class the views construct is not the one in models.ts, whose
  constructor takes only a name, and its definition is not part of this model. The chat
  view passes (name, decoded key, key text) at chat.component.ts:106. Every other call
  site passes the id second (home.component.ts:79 and 107-111). The model reads line 106
  by role, so a peer who joins later has the decoded key and receives frames from
  `sendMessage`. If the constructor instead takes its arguments by position, that key
  lands in `id`. `encrypt` at line 175 would then be given the key text, reject, and
  that peer would receive no frames. `Chat.PeerJoinedAppends` and `Chat.FanOut` assume
  the by-role reading.
- Strings are sequences of Unicode scalar values. JavaScript regular expressions without
  the `u` flag see UTF-16 code units, so a character outside the Basic Multilingual
  Plane counts as two there. The model does not capture that difference.
- Frames from the relay are taken as well-formed values of `Models.Inbound`. A frame
  with a missing field, or of an unknown type, is not modelled.
- models.ts is stale against its call sites. Its `User`, `Message` and `Event` do not
  match how they are used, so the shapes come from the call sites. The unrouted
  join-channel and create-channel components only log to the console. The app shell,
  routing and module files contain no logic.
