/** The room page's signalling state (public/app.js): the per-remote-peer
    records, the control socket with its reconnect timer, and the
    messages the page sends. Each handler runs to completion as one
    transition. */
module Coordinator {
  import opened Protocol
  import opened Session

  /** `ws.readyState`, with `NoSocket` for `ws === null`. */
  datatype Socket = NoSocket | Connecting | Open | Closing | Closed

  /** `wsReconnectTimer`: none, scheduled, or already run (the handler
      does not reset the variable when the timer fires). */
  datatype Timer = NoTimer | Pending | Fired

  /** `shownCount` is the participant count last written to the page, or
      None before `updateParticipantCount` first runs. */
  datatype Client = Client(
    roomId: RoomId,
    myPeerId: Option<PeerId>,
    peers: map<PeerId, Connection>,
    socket: Socket,
    intentionalLeave: bool,
    reconnect: Timer,
    shownCount: Option<nat>,
    outbox: seq<Request>)

  /** The page once `initRoom` has called `connectWebSocket`. */
  function Start(roomId: RoomId): Client {
    Client(roomId, None, map[], Connecting, false, NoTimer, None, [])
  }

  /** `wsSend`: only an open socket transmits; otherwise the message is
      dropped. */
  function WsSend(c: Client, req: Request): Client {
    if c.socket == Open then c.(outbox := c.outbox + [req]) else c
  }

  /** `updateParticipantCount`: the remote peers plus oneself. */
  function CountShown(peers: map<PeerId, Connection>): Option<nat> {
    Some(|peers.Keys| + 1)
  }

  /** `createPeerConnection`, bookkeeping only: a fresh record replaces any
      record the peer had, buffer included. */
  function CreatePeerConnection(c: Client, p: PeerId): Client {
    var peers := c.peers[p := Fresh];
    c.(peers := peers, shownCount := CountShown(peers))
  }

  /** `flushIceCandidates(p)`: a no-op for a peer without a record. */
  function FlushPeer(c: Client, p: PeerId, b: Browser): Client {
    if p !in c.peers then c
    else c.(peers := c.peers[p := Flush(c.peers[p], b.acceptsCandidate)])
  }

  /** `createOfferForPeer`: new record, local offer set, offer sent. */
  function CreateOfferForPeer(c: Client, p: PeerId, b: Browser): Client {
    var c1 := CreatePeerConnection(c, p);
    var c2 := c1.(peers := c1.peers[p := c1.peers[p].(hasLocal := true)]);
    WsSend(c2, Offer(Str(p), b.offerFor(p)))
  }

  /** The `room-joined` loop: one offer per listed peer, in list order. */
  function OfferAll(c: Client, ps: seq<PeerId>, b: Browser): Client
    decreases |ps|
  {
    if ps == [] then c else OfferAll(CreateOfferForPeer(c, ps[0], b), ps[1..], b)
  }

  /** The `offer` case. A rejected remote description aborts the handler
      right after the fresh record is installed. */
  function AcceptOffer(c: Client, p: PeerId, offer: Json, b: Browser): Client {
    var c1 := CreatePeerConnection(c, p);
    if !b.acceptsRemote(offer) then c1
    else
      var c2 := c1.(peers := c1.peers[p := SetRemote(c1.peers[p])]);
      var c3 := FlushPeer(c2, p, b);
      var c4 := c3.(peers := c3.peers[p := c3.peers[p].(hasLocal := true)]);
      WsSend(c4, Answer(Str(p), b.answerFor(p)))
  }

  /** The `answer` case: only a peer with a record is affected. */
  function AcceptAnswer(c: Client, p: PeerId, answer: Json, b: Browser): Client {
    if p !in c.peers || !b.acceptsRemote(answer) then c
    else FlushPeer(c.(peers := c.peers[p := SetRemote(c.peers[p])]), p, b)
  }

  /** The `ice-candidate` case: a candidate for an unknown peer is dropped. */
  function AcceptCandidate(c: Client, p: PeerId, candidate: Json, b: Browser): Client {
    if p !in c.peers then c
    else c.(peers := c.peers[p := Receive(c.peers[p], candidate, b.acceptsCandidate)])
  }

  /** `removePeer`: drop the record (closing its connection) and refresh
      the count. */
  function RemovePeer(c: Client, p: PeerId): Client {
    var peers := c.peers - {p};
    c.(peers := peers, shownCount := CountShown(peers))
  }

  /** `handleSignalingMessage`; kinds without a case change nothing. */
  function HandleSignal(c: Client, m: Signal, b: Browser): Client {
    match m
    case Welcome(id) => c.(myPeerId := Some(id))
    case RoomJoined(_, _, ps) => OfferAll(c, ps, b)
    case PeerJoined(_) => c
    case OfferFrom(p, offer) => AcceptOffer(c, p, offer, b)
    case AnswerFrom(p, answer) => AcceptAnswer(c, p, answer, b)
    case CandidateFrom(p, candidate) => AcceptCandidate(c, p, candidate, b)
    case PeerLeft(p) => RemovePeer(c, p)
    case Left(_) => c
    case ChatFrom(_, _, _) => c
    case Error(_) => c
  }

  /** `ws.onopen`: cancel a pending reconnect and ask to join the room. */
  function SocketOpened(c: Client): Client {
    if c.socket != Connecting then c
    else WsSend(c.(socket := Open, reconnect := NoTimer), Join(Str(c.roomId)))
  }

  /** `ws.onclose`: schedule one reconnect unless the page left on purpose. */
  function SocketClosed(c: Client): Client {
    if c.socket == NoSocket || c.socket == Closed then c
    else c.(socket := Closed, reconnect := if c.intentionalLeave then c.reconnect else Pending)
  }

  /** The reconnect timer runs `connectWebSocket`. */
  function ReconnectFired(c: Client): Client {
    if c.reconnect != Pending then c
    else c.(socket := Connecting, reconnect := Fired)
  }

  /** `ws.close()` on the current socket. */
  function CloseSocket(s: Socket): Socket {
    if s == Connecting || s == Open then Closing else s
  }

  /** `leaveMeeting`: mark the leave, cancel any reconnect, drop every
      record, say `leave` if the socket is open, then close it. The
      participant count is not refreshed. */
  function LeaveMeeting(c: Client): Client {
    var c1 := c.(intentionalLeave := true, reconnect := NoTimer, peers := map[]);
    var c2 := WsSend(c1, Leave);
    c2.(socket := CloseSocket(c2.socket))
  }

  /** `pc.onicecandidate`: a locally gathered candidate goes straight to
      the remote peer; the end-of-candidates event (null) sends nothing. */
  function LocalCandidate(c: Client, p: PeerId, candidate: Json): Client {
    if Truthy(candidate) then WsSend(c, IceCandidate(Str(p), candidate)) else c
  }

  /** Everything that can happen to the room page's signalling state. */
  datatype PageEvent =
    | Message(signal: Signal)
    | Opened
    | SocketClose
    | TimerFired
    | Gathered(peer: PeerId, candidate: Json)
    | LeaveClicked

  function PageStep(c: Client, e: PageEvent, b: Browser): Client {
    match e
    case Message(m) => HandleSignal(c, m, b)
    case Opened => SocketOpened(c)
    case SocketClose => SocketClosed(c)
    case TimerFired => ReconnectFired(c)
    case Gathered(p, cand) => LocalCandidate(c, p, cand)
    case LeaveClicked => LeaveMeeting(c)
  }

  function RunPage(c: Client, es: seq<PageEvent>, b: Browser): Client
    decreases |es|
  {
    if es == [] then c else RunPage(PageStep(c, es[0], b), es[1..], b)
  }
}
