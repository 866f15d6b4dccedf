# MeetUp signalling core in Dafny

MeetUp is a small video-meeting application. A Node.js signalling server
(`server.js`) keeps a registry of rooms and relays WebRTC negotiation
messages between the peers of a room. Each browser's room page
(`public/app.js`) keeps one record per remote peer. That record tracks the
state of the negotiation, plus a buffer for ICE candidates that arrive
before the remote description.

This project models both sides as pure state machines over immutable
datatypes and proves properties about them:

- `protocol.dfy` (`Protocol`): the messages in both directions after JSON
  parsing. This includes JavaScript truthiness, for the server's
  "non-empty string" guards.
- `registry.dfy` (`Registry`): the server's `rooms` map. Each room holds
  its peers in insertion order. The module also keeps the
  `currentRoomId` of every open connection, and has one transition per
  handler: `join`, `offer`/`answer`/`ice-candidate`, `leave`, `chat`,
  unknown type, invalid JSON, the JSON text `null`, connection open and
  close. Each handler returns the new registry, the messages it sent, in
  order, and whether it threw.
- `registry_props.dfy` (`RegistryProps`): the registry invariant and
  that every handler keeps it. Also the join snapshot and its
  notifications, `removeFromRoom`, relaying, `leave`, `chat`, and
  exactly when an `error` reply is sent.
- `registry_trace.dfy` (`RegistryTrace`): membership over any history of
  connects, messages and disconnects. A room holds exactly the peers
  whose last successful join named it, in the order of those joins.
- `session.dfy` (`Session`): one remote peer's record. The
  `RTCPeerConnection` is reduced to two flags (local and remote
  description set) and the log of candidates handed to it. The record
  also holds the FIFO candidate buffer.
- `coordinator.dfy` (`Coordinator`): the room page. It covers
  `handleSignalingMessage`, `createOfferForPeer`, `createPeerConnection`
  (bookkeeping only), `flushIceCandidates`, `removePeer`, `wsSend`, the
  socket open/close handlers with the reconnect timer, `leaveMeeting`,
  `onicecandidate` and `updateParticipantCount`.
- `coordinator_props.dfy` (`CoordinatorProps`): what each of those
  handlers guarantees. Also three invariants over any event sequence:
  records stay settled, a page that left stays silent, and, as long as
  leave is not clicked, the count stays current. Finally, the FIFO arrival order of a peer's candidates
  across a whole history.
- `display.dfy` (`Display`): `updateTimer`, with `String`, `padStart`,
  `Math.floor` and JavaScript's `%` written out, and `updateGridLayout`.
- `scenarios.dfy` (`Scenarios`): concrete histories. Three peers join a
  room, one drops out, and the pages of the newcomer and of an earlier
  member negotiate with each other.

The decisions the browser makes are the parameter `Browser`. They are
whether a candidate or a remote description is accepted, and which
offer or answer is produced for a peer. Peer ids come from the caller
(`Connect` requires an id not already in use), and so does the clock
reading the server puts on chat messages.

## Model

| member | source | states |
|---|---|---|
| Registry.Without | server.js:50 | Deleting a peer from a room keeps exactly the other members, adds no duplicate, and changes nothing when the peer was absent |
| RegistryProps.NotifyCount | server.js:54-59 | Notifying a duplicate-free list gives each listed peer exactly one copy of the message and nobody else any |
| RegistryProps.RemoveFromRoomSpec | server.js:46-66 | `removeFromRoom` deletes the peer and keeps the others in order. Each remaining member gets exactly one `peer-left` naming it. The room survives iff someone else is left. No other room changes, and a missing room is a no-op |
| RegistryProps.DetachValid | server.js:107-110 | Leaving the current room keeps the invariant and clears only this peer's current room. It touches only that room and sends exactly the `peer-left` notices to its other members |
| RegistryProps.AttachValid | server.js:112-119 | Adding a peer that is in no room appends it after the existing members, keeps the invariant, and leaves other rooms alone |
| RegistryProps.JoinSnapshot | server.js:113-116 | After the old room is left, the joined room holds its earlier members less the joiner, with no duplicates |
| RegistryProps.JoinRoomValid | server.js:100-139 | A `join` keeps the invariant and puts the joiner last in the room. Its output is, in order: the `peer-left` notices of the room it left, `room-joined` with the duplicate-free snapshot that excludes the joiner, then `peer-joined` to each snapshot member in room order |
| RegistryProps.JoinFromNoRoom | server.js:100-139 | A peer in no room that joins receives the room's whole member list, each member hears of it once, in room order, and it goes last in the room |
| RegistryProps.HandleValid | server.js:87-241 | Every message handler keeps the registry invariant: no room is empty or lists a peer twice, and a peer is listed in room r iff its connection's current room is r |
| RegistryProps.ConnectValid | server.js:78-85 | A new connection is in no room, keeps the invariant, and gets one `welcome` naming its id |
| RegistryProps.CloseValid | server.js:244-250 | Closing a connection keeps the invariant, forgets the connection, removes it from every room and sends exactly the `peer-left` notices |
| RegistryProps.LeaveNoticesShape | server.js:53-59 | The notices a departure sends are `peer-left` for that peer, addressed only to other members of its room. A peer in no room sends none |
| RegistryProps.JoinNotifications | server.js:130-138 | After a join, each peer other than the joiner whose current room is the joined room gets exactly one `peer-joined` naming the joiner, and every other peer gets none |
| RegistryProps.PeerJoinedCount | server.js:130-138 | The same count for one given peer, stated on the join transition |
| RegistryProps.JoinReply | server.js:122-128 | The joiner gets exactly one `room-joined`, it carries the snapshot, and nobody gets any other `room-joined` |
| RegistryProps.RoomJoinedOnce | server.js:122-128 | The join transition's output holds the snapshot reply exactly once, and no other `room-joined` |
| RegistryProps.JoinRecipients | server.js:100-139 | A join is heard only by the joiner, the members of the room joined, and, when the joiner was in a room, the members of that room |
| RegistryProps.RelaySpec | server.js:142-200 | A relayed `offer`/`answer`/`ice-candidate` from a peer in a room reaches a target in the same room as one message of the same kind, with the sender's id and the payload unchanged. Any other target gets nothing. The registry never changes |
| RegistryProps.ErrorReplies | server.js:88-240 | Invalid JSON, a bad `roomId`, a room message before any join, a bad chat body and an unknown type (named in the reply) each leave the registry unchanged. Each sends exactly one `error`, to the sender |
| RegistryProps.NoStrayErrors | server.js:99-241 | No other message produces an `error` anywhere |
| RegistryProps.JoinSendsNoError | server.js:100-139 | A valid join sends no `error` |
| RegistryProps.LeaveSpec | server.js:202-209 | `leave` in a room removes the peer, sends the `peer-left` notices and then `left` for that room. With no room it is a silent no-op. Nobody else's room changes |
| RegistryProps.ThrowingMessages | server.js:88-240 | A message from an open connection throws iff it is the JSON text `null`, whose `type` cannot be destructured, or has an unhandled `type` that the error text cannot convert to a string. The throw sends nothing and leaves the registry as it was |
| RegistryProps.DetachRooms | server.js:46-66 | Leaving the current room takes the peer out of every room's list and keeps each list's other members in their order |
| RegistryProps.JoinRooms | server.js:106-119 | After a join, every other room's list loses the joiner and keeps its order. The joined room lists its earlier members less the joiner, in order, followed by the joiner |
| RegistryProps.LeaveRooms | server.js:202-209 | `leave`, and likewise a disconnect, takes the peer out of every room's list and keeps each list's other members in their order |
| RegistryProps.ChatSpec | server.js:211-237 | A non-empty chat from a room member reaches every member of that room exactly once, the sender included, with the sender's id and the server's timestamp. Nobody else gets it and the registry is unchanged |
| RegistryTrace.HandleCurrent | server.js:97-241 | One message changes only its sender's current room: a valid join sets it, `leave` clears it, anything else keeps it |
| RegistryTrace.RunCurrent | server.js:78-250 | After any history the invariant holds, and every peer's current room is the one its last successful join named, unless a later leave, close or reconnect ended it |
| RegistryTrace.Membership | server.js:78-250 | After any history, a peer is in room r iff its last successful join named r and it has not left or disconnected since |
| RegistryTrace.RunOrdered | server.js:112-119 | After any history, every room lists its members in strictly increasing order of the position of their last successful join |
| RegistryTrace.RoomInJoinOrder | server.js:112-119 | After any history, room r lists exactly the peers whose last successful join named r and who have not left or disconnected since, in the order of those joins |
| Session.Drain | public/app.js:328-335 | The drain loop appends one attempt per buffered candidate, in buffer order, whatever became of the one before, and keeps the earlier log as a prefix |
| Session.FlushSpec | public/app.js:324-336 | After a flush nothing waits. The handed-over candidates are the old ones followed by the old buffer, in FIFO order, with each outcome the browser's. The arrival order is unchanged |
| Session.ReceiveSpec | public/app.js:485-503 | A candidate joins the end of the buffer iff there is no remote description; otherwise it is handed over at once with the buffer untouched. On a settled record it joins the end of the arrival order |
| Session.SetRemoteThenFlush | public/app.js:461-463 | Setting the remote description and flushing settles the record and hands over every candidate that arrived, in arrival order |
| CoordinatorProps.WsSendSpec | public/app.js:427-431 | An open socket transmits exactly the one message; any other socket leaves the page unchanged |
| CoordinatorProps.CreateOfferSpec | public/app.js:523-535 | `createOfferForPeer` replaces the peer's record with one holding only a local offer. It sends one offer to that peer if the socket is open and refreshes the count; other records are unchanged |
| CoordinatorProps.OfferAllSends | public/app.js:441-448 | `room-joined` sends one offer per listed peer, in list order, when the socket is open, and leaves the socket, timer and flags alone |
| CoordinatorProps.OfferAllRecords | public/app.js:441-448 | After `room-joined` every listed peer has a record with only a local offer; unlisted peers keep theirs; the count is refreshed |
| CoordinatorProps.OfferAllSpec | public/app.js:441-448 | Both halves together |
| CoordinatorProps.OfferSpec | public/app.js:456-472 | An `offer` from P always replaces P's record, dropping its buffer. If accepted, the record has both descriptions and exactly one `answer` goes to P. If rejected, the handler stops with the bare record and sends nothing. Other records never change |
| CoordinatorProps.AnswerSpec | public/app.js:474-483 | An accepted `answer` from a known peer sets its remote description and hands over its buffer with the arrival order unchanged. From an unknown peer, or when rejected, nothing changes |
| CoordinatorProps.AnswerSettles | public/app.js:474-483 | On a settled record, an accepted answer hands over every candidate that arrived, in order |
| CoordinatorProps.FlushPeerSpec | public/app.js:324-336 | Flushing a peer without a record is a no-op; otherwise that peer's buffer is handed over in FIFO order and nothing else changes |
| CoordinatorProps.CandidateSpec | public/app.js:485-504 | An `ice-candidate` for a known peer is buffered at the end iff it has no remote description; otherwise it is handed over at once with the buffer untouched. For an unknown peer nothing changes |
| CoordinatorProps.PeerLeftSpec | public/app.js:377-391 | `peer-left` for P removes only P's record and sets the count to the records left plus one |
| CoordinatorProps.StepKeepsSettled | public/app.js:434-520 | No event ever leaves a record with a waiting candidate alongside a remote description, or a candidate handed over before one |
| CoordinatorProps.StepKeepsCount | public/app.js:199-202 | Every event but leaving keeps the shown count equal to the number of records plus one |
| CoordinatorProps.RunKeepsSettled | public/app.js:434-520 | Over any sequence of events, no record ever holds a waiting candidate alongside a remote description, or a candidate handed over before one |
| CoordinatorProps.RunKeepsCount | public/app.js:199-202 | Over any sequence of events without a click on leave, the shown count stays equal to the number of records plus one |
| CoordinatorProps.InertSignals | public/app.js:434-520 | `welcome` only records the page's id; `peer-joined`, `left`, `chat` and `error` change no signalling state |
| CoordinatorProps.LocalCandidateSpec | public/app.js:272-280 | A gathered candidate goes out once to its peer when the socket is open; the end-of-candidates event sends nothing |
| CoordinatorProps.SocketOpenedSpec | public/app.js:399-407 | Opening clears any pending reconnect and sends exactly one `join` for the page's room |
| CoordinatorProps.SocketClosedSpec | public/app.js:414-420 | Losing a live socket schedules a reconnect iff the page did not leave on purpose |
| CoordinatorProps.ReconnectFiredSpec | public/app.js:418 | The timer reopens the socket only when pending, and firing it again changes nothing |
| CoordinatorProps.LeaveMeetingSpec | public/app.js:658-689 | `leaveMeeting` marks the leave, cancels any reconnect and empties the records. It sends `leave` exactly when the socket was open, and closes the socket |
| CoordinatorProps.StepKeepsLeaveConsistent | public/app.js:658-665 | After an intentional leave no reconnect is ever pending, whatever happens next |
| CoordinatorProps.QuietStep | public/app.js:414-431 | A page that has left, with no live socket and no reconnect pending, stays so and sends nothing on any event |
| CoordinatorProps.QuietRun | public/app.js:414-431 | The same over any sequence of events |
| CoordinatorProps.SilentAfterLeave | public/app.js:658-689 | After `leaveMeeting`, the page sends nothing but its own `leave` (if the socket was open), whatever events follow |
| CoordinatorProps.SignalArrivals | public/app.js:474-503 | A signal that keeps P's record keeps it settled and adds to its arrivals exactly the candidate it carries from P |
| CoordinatorProps.StepArrivals | public/app.js:485-503 | The same for every kind of event |
| CoordinatorProps.ArrivalOrder | public/app.js:485-503 | Over any history that keeps P's record, the candidates from P are, in arrival order, those it had followed by those the history carries. None is handed over before the remote description |
| CoordinatorProps.HandedOverInOrder | public/app.js:474-503 | Once the remote description is set, all those candidates have been handed over, in that order |
| Display.NatToString | public/app.js:192 | `String` of a natural number is one or more decimal digits: one digit iff below 10, at most two below 100 |
| Display.Pad2 | public/app.js:192-193 | `padStart(2, '0')` makes at least two characters and keeps the original as a suffix, with zeros before it |
| Display.ParseNatToString | public/app.js:192 | Reading back the digits `String` wrote gives the number |
| Display.ParseLeadingZero | public/app.js:192-193 | A leading zero does not change a numeral's value |
| Display.ParsePad2 | public/app.js:192-193 | A padded numeral is all digits, at least two of them (exactly two below 100), and reads back as the number |
| Display.FloorDiv | public/app.js:191 | `Math.floor(a / b)` is the largest q with q*b <= a |
| Display.JsRem | public/app.js:193 | JavaScript's `%` has the magnitude of the Euclidean remainder of the magnitudes and the sign of the dividend |
| Display.TimerFields | public/app.js:190-195 | For a clock not before the start, the text is `mm:ss`. It has at least two minute digits and exactly two second digits, the seconds are below 60, and minutes times 60 plus seconds is the whole seconds elapsed |
| Display.TimerSplit | public/app.js:191-194 | For a non-negative elapsed time the text is the padded quotient and remainder by 60 |
| Display.FieldsOf | public/app.js:194 | Two digit fields joined by a colon split back at three from the end |
| Display.TimerBeforeStart | public/app.js:190-195 | A clock five seconds before the start shows `-1:-5` |
| Display.GridLayout | public/app.js:205-214 | The class chosen for a tile count covers that count |
| Display.GridLayoutFits | public/app.js:205-214 | Each tile count gets exactly the layout whose range holds it |
| Display.LayoutsDisjoint | public/app.js:209-213 | No tile count fits two layouts |
| Display.GridLayoutMonotone | public/app.js:209-213 | More tiles never give a layout meant for fewer |
| Display.ClassNamesDistinct | public/app.js:209-213 | Different layouts add different classes |
| Scenarios.ThirdJoin | server.js:100-139 | With A and B in a room, C's join returns the snapshot [A, B]. A and B each hear of C, and the room holds A, B, C in that order |
| Scenarios.SecondDrops | server.js:244-250 | B's disconnect sends `peer-left` to A and then to C, and the room keeps A and C in order |
| Scenarios.TwoJoined | server.js:100-139 | After A's and B's joins the room holds A then B and C is in no room |
| Scenarios.NewcomerOffers | public/app.js:441-448 | The newcomer's page offers to A and then to B, and to nobody else |
| Scenarios.NewcomerRecords | public/app.js:441-448 | It then holds one record with a local offer per listed peer and shows three participants |
| Scenarios.MemberAnswers | public/app.js:450-471 | A member's page ignores `peer-joined`, then answers the newcomer's offer with exactly one `answer`, to the newcomer |

## Where the code and its description differ

- Chat timestamps: the server stamps each chat with `Date.now()` (server.js:229), which is not guaranteed to increase within a room. The model takes the timestamp as a parameter of `Registry.Handle` and proves nothing about its order.
- The candidate buffer has no bound (public/app.js:269), and the model keeps it unbounded.
- Candidates are handed over in arrival order only because each handler here runs as one atomic step. In the source, `flushIceCandidates` awaits inside its loop (public/app.js:328-331). A candidate that arrives mid-flush finds the remote description set and is added at once (public/app.js:493), ahead of the rest of the buffer. `CoordinatorProps.ArrivalOrder` and `CoordinatorProps.HandedOverInOrder` do not cover that interleaving.
- Protocol errors are described as never fatal, but two parsed messages make the handler throw. The JSON text `null` makes the destructuring of its `type` throw (server.js:97). An unhandled `type` that cannot be converted to a string, such as `{"toString": 1}`, makes the unknown-type error text throw (server.js:240). Nothing replies, and nothing in the handler catches it. The model marks that outcome `thrown` (`RegistryProps.ThrowingMessages`), and `RegistryTrace.Apply` ends the history there.
- `updateTimer` is only meant for a clock at or after the page's start. `Display.TimerBeforeStart` records what it shows otherwise, because `%` truncates toward zero.

## Left out

- HTTP/HTTPS and Express setup, certificate loading and `server.listen`: I/O plumbing.
- JSON text encoding and decoding: messages are datatypes, with explicit `InvalidJson` and `NullJson` inputs. Parsed values other than objects and `null` (numbers, strings, arrays) have no `type` and read as an unknown request. Whether an unhandled `type` can be printed is decided when the message is classified, as `Unknown` with its text or as `Unprintable`.
- What Node does after a message handler throws (an uncaught exception, usually the end of the process): the model stops at the `thrown` outcome.
- `safeSend`'s `readyState` check and try/catch: every message the server sends is delivered. A send to a closing connection is not modelled.
- Random peer ids and room codes: ids are parameters, and `Connect` requires one not already in use.
- `Date.now()` values, on the server and in `updateTimer`: they are parameters.
- The internals of `RTCPeerConnection`: SDP and ICE semantics, `onnegotiationneeded`, `ontrack`, connection-state logging, and `replaceTrack` for screen sharing. The record keeps two description flags and the candidate log. A failure of `createOffer`, `createAnswer` or `setLocalDescription` is not modelled.
- Closing a replaced `RTCPeerConnection`: `removePeer` and `leaveMeeting` drop the record, and replacing a record simply forgets the old one.
- Interleaving of asynchronous handlers across `await`: each handler is one atomic transition.
- DOM, media capture, the lobby, chat rendering and sending, clipboard, page visibility and unload: user interface.
- `setTimeout` and `setInterval` durations: the reconnect timer is modelled only as none, pending or fired.
- `Coordinator.LeaveMeeting`: it does not refresh the participant count, as in the source, so `CoordinatorProps.StepKeepsCount` excludes the leave event and `CoordinatorProps.RunKeepsCount` holds only for sequences without it.
- `Display.GridLayout`: the tile count comes from the DOM. The model takes it as a parameter and does not relate it to the number of records.
- Session.Browser: the browser's decisions depend on the payload alone, not on the state of the connection. For example, an `answer` for a record that never made an offer is accepted whenever `acceptsRemote` accepts the payload (public/app.js:478), where a real `RTCPeerConnection` would reject it.
