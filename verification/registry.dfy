/** The signalling server (server.js): a registry from room codes to the
    peers in each room, in insertion order, plus the room each open
    connection currently belongs to. Every handler is a pure transition
    that returns the new registry and the messages it sends. */
module Registry {
  import opened Protocol

  const InvalidJsonText := "Invalid JSON"
  const RoomIdRequiredText := "roomId is required"
  const NotInRoomText := "Not in a room"
  const ChatRequiredText := "Chat message is required"
  const UnknownTypePrefix := "Unknown message type: "

  /** `rooms` models the source's `Map<roomId, Map<peerId, WebSocket>>`
      keeping only the key order of the inner map; `current` holds the
      `currentRoomId` of every open connection, keyed by its peer id. */
  datatype Server = Server(rooms: map<RoomId, seq<PeerId>>, current: map<PeerId, Option<RoomId>>)

  /** The registry after a transition and the messages it sent, in order;
      `thrown` marks a handler that stopped on an exception nothing
      catches. */
  datatype Outcome = Outcome(server: Server, out: seq<Delivery>, thrown: bool)

  const Empty := Server(map[], map[])

  predicate NoDup<T(==)>(xs: seq<T>) {
    forall i, j :: 0 <= i < j < |xs| ==> xs[i] != xs[j]
  }

  /** The peers of room `r`, or none when the room does not exist. */
  function Members(rooms: map<RoomId, seq<PeerId>>, r: RoomId): seq<PeerId> {
    if r in rooms then rooms[r] else []
  }

  /** The room a peer's connection is in; a closed connection is in none. */
  function CurrentOf(s: Server, p: PeerId): Option<RoomId> {
    if p in s.current then s.current[p] else None
  }

  /** `xs` with `p` deleted, the others kept in their order (`Map.delete`). */
  function Without(xs: seq<PeerId>, p: PeerId): (ys: seq<PeerId>)
    ensures forall q :: q in ys <==> q in xs && q != p
    ensures NoDup(xs) ==> NoDup(ys)
    ensures p !in xs ==> ys == xs
    ensures |ys| <= |xs|
  {
    if xs == [] then []
    else if xs[0] == p then Without(xs[1..], p)
    else
      var rest := Without(xs[1..], p);
      assert NoDup(xs) ==> xs[0] !in xs[1..];
      [xs[0]] + rest
  }

  /** One message `m` to each of `to`, in the order of `to`. */
  function Notify(to: seq<PeerId>, m: Signal): seq<Delivery> {
    if to == [] then [] else [Delivery(to[0], m)] + Notify(to[1..], m)
  }

  /** The registry invariant: no room is empty or lists a peer twice, and
      a peer is listed in room r exactly when its connection is open and
      its current room is r (so no peer is in two rooms). */
  ghost predicate Valid(s: Server) {
    && (forall r :: r in s.rooms ==> s.rooms[r] != [] && NoDup(s.rooms[r]))
    && (forall r, p :: p in Members(s.rooms, r) <==> CurrentOf(s, p) == Some(r))
  }

  // ---------------------------------------------------------------- handlers

  /** `removeFromRoom`: delete `p` from room `r`, tell every remaining
      member with `peer-left`, and delete the room once it is empty. A
      missing room is a no-op. The connection's own current room is not
      touched here. */
  function RemoveFromRoom(s: Server, p: PeerId, r: RoomId): Outcome {
    if r !in s.rooms then Outcome(s, [], false)
    else
      var room := Without(s.rooms[r], p);
      var out := Notify(room, PeerLeft(p));
      if room == [] then Outcome(Server(s.rooms - {r}, s.current), out, false)
      else Outcome(Server(s.rooms[r := room], s.current), out, false)
  }

  /** Leave the current room if there is one and clear the current room:
      the part shared by `join`, `leave` and `close`. */
  function Detach(s: Server, p: PeerId): Outcome
    requires p in s.current
  {
    match s.current[p]
    case None => Outcome(s, [], false)
    case Some(r) =>
      var rm := RemoveFromRoom(s, p, r);
      Outcome(Server(rm.server.rooms, s.current[p := None]), rm.out, false)
  }

  /** The second half of `join`: create the room on demand, snapshot its
      members, add the joiner, reply `room-joined` with the snapshot and
      send `peer-joined` to every other member, in room order. */
  function Attach(s: Server, p: PeerId, r: RoomId): Outcome
    requires p in s.current
  {
    var existing := Members(s.rooms, r);
    var room := if p in existing then existing else existing + [p];
    var s' := Server(s.rooms[r := room], s.current[p := Some(r)]);
    Outcome(s', [Delivery(p, RoomJoined(r, p, existing))] + Notify(Without(room, p), PeerJoined(p)), false)
  }

  /** `join` once the room id has passed its guard: leave, then attach. */
  function JoinRoom(s: Server, p: PeerId, r: RoomId): Outcome
    requires p in s.current
  {
    var d := Detach(s, p);
    var a := Attach(d.server, p, r);
    Outcome(a.server, d.out + a.out, false)
  }

  /** `offer`, `answer` and `ice-candidate`: forward `signal` to the target
      when it is in the sender's room, otherwise drop it silently. */
  function Relay(s: Server, p: PeerId, target: Json, signal: Signal): Outcome
    requires p in s.current
  {
    match s.current[p]
    case None => Outcome(s, [Delivery(p, Error(NotInRoomText))], false)
    case Some(r) =>
      if r !in s.rooms then Outcome(s, [], false)
      else if target.Str? && target.s in s.rooms[r] then Outcome(s, [Delivery(target.s, signal)], false)
      else Outcome(s, [], false)
  }

  /** `leave`: a no-op outside a room, otherwise leave and acknowledge. */
  function LeaveRoom(s: Server, p: PeerId): Outcome
    requires p in s.current
  {
    match s.current[p]
    case None => Outcome(s, [], false)
    case Some(r) =>
      var d := Detach(s, p);
      Outcome(d.server, d.out + [Delivery(p, Left(r))], false)
  }

  /** `chat`: broadcast to every member of the room, the sender included,
      with the sender's id and the timestamp `now` the server adds. */
  function BroadcastChat(s: Server, p: PeerId, message: Json, now: int): Outcome
    requires p in s.current
  {
    match s.current[p]
    case None => Outcome(s, [Delivery(p, Error(NotInRoomText))], false)
    case Some(r) =>
      if !IsNonEmptyString(message) then Outcome(s, [Delivery(p, Error(ChatRequiredText))], false)
      else if r !in s.rooms then Outcome(s, [], false)
      else Outcome(s, Notify(s.rooms[r], ChatFrom(p, message.s, now)), false)
  }

  /** The `ws.on('message')` handler of the connection whose id is `p`;
      `now` is the clock reading used as the chat timestamp. Reading
      `type` from a parsed `null` throws before any case runs, and so does
      building the error text for a `type` that cannot be printed: nothing
      is sent, the registry is untouched, and the exception leaves the
      handler. */
  function Handle(s: Server, p: PeerId, m: Inbound, now: int): Outcome
    requires p in s.current
  {
    match m
    case InvalidJson => Outcome(s, [Delivery(p, Error(InvalidJsonText))], false)
    case NullJson => Outcome(s, [], true)
    case Parsed(req) =>
      match req
      case Join(roomId) =>
        if !IsNonEmptyString(roomId) then Outcome(s, [Delivery(p, Error(RoomIdRequiredText))], false)
        else JoinRoom(s, p, roomId.s)
      case Offer(target, offer) => Relay(s, p, target, OfferFrom(p, offer))
      case Answer(target, answer) => Relay(s, p, target, AnswerFrom(p, answer))
      case IceCandidate(target, candidate) => Relay(s, p, target, CandidateFrom(p, candidate))
      case Leave => LeaveRoom(s, p)
      case Chat(message) => BroadcastChat(s, p, message, now)
      case Unknown(t) => Outcome(s, [Delivery(p, Error(UnknownTypePrefix + t))], false)
      case Unprintable => Outcome(s, [], true)
  }

  /** A new connection with the freshly issued id `p`: no current room, and
      a `welcome` naming the id. */
  function Connect(s: Server, p: PeerId): Outcome
    requires p !in s.current
  {
    Outcome(Server(s.rooms, s.current[p := None]), [Delivery(p, Welcome(p))], false)
  }

  /** `ws.on('close')`: leave the current room, then forget the connection. */
  function Close(s: Server, p: PeerId): Outcome
    requires p in s.current
  {
    var d := Detach(s, p);
    Outcome(Server(d.server.rooms, d.server.current - {p}), d.out, false)
  }
}
