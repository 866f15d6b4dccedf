/** Messages exchanged over the signalling channel, as both ends see them
    once the JSON text has been parsed. Identifiers are the strings the
    server and the room page use; field values the receiver only inspects
    for truthiness and type are kept as abstract JSON values. */
module Protocol {

  type PeerId = string
  type RoomId = string

  datatype Option<+T> = None | Some(value: T)

  /** A JSON value as the receiving code sees it. Objects and arrays are
      opaque: the core never looks inside session descriptions or
      candidates, it only forwards or stores them. */
  datatype Json = Undefined | Null | Bool(b: bool) | Num(n: int) | Str(s: string) | Obj(id: nat)

  /** JavaScript truthiness of a JSON value (`!v` is false). */
  predicate Truthy(v: Json) {
    match v
    case Undefined => false
    case Null => false
    case Bool(b) => b
    case Num(n) => n != 0
    case Str(s) => s != ""
    case Obj(_) => true
  }

  /** The server's guard `!v || typeof v !== 'string'` fails exactly on
      these values. */
  predicate IsNonEmptyString(v: Json) {
    Truthy(v) && v.Str?
  }

  /** Client-to-server requests. `Unknown` stands for a parsed object
      whose `type` is none of the handled ones; `typeName` is the text the
      server interpolates into its error reply. `Unprintable` stands for
      one whose `type` that interpolation cannot turn into a string: an
      object whose `toString` and `valueOf` give no primitive, or an array
      holding such an object. */
  datatype Request =
    | Join(roomId: Json)
    | Offer(targetPeerId: Json, offer: Json)
    | Answer(targetPeerId: Json, answer: Json)
    | IceCandidate(targetPeerId: Json, candidate: Json)
    | Leave
    | Chat(message: Json)
    | Unknown(typeName: string)
    | Unprintable

  /** What arrives on a server connection: text that is not JSON, the JSON
      text `null` (which parses, but cannot be destructured to read its
      `type`), or a parsed request. Any other parsed value reads as a
      request: one without a handled `type` is `Unknown` or, when that
      `type` cannot be printed, `Unprintable`. */
  datatype Inbound = InvalidJson | NullJson | Parsed(request: Request)

  /** Server-to-client messages. The relayed kinds carry the sender's id
      (`peerId`) and the payload exactly as the sender gave it. */
  datatype Signal =
    | Welcome(peerId: PeerId)
    | RoomJoined(roomId: RoomId, peerId: PeerId, peers: seq<PeerId>)
    | PeerJoined(peerId: PeerId)
    | PeerLeft(peerId: PeerId)
    | OfferFrom(peerId: PeerId, offer: Json)
    | AnswerFrom(peerId: PeerId, answer: Json)
    | CandidateFrom(peerId: PeerId, candidate: Json)
    | Left(roomId: RoomId)
    | ChatFrom(peerId: PeerId, message: string, timestamp: int)
    | Error(message: string)

  /** One message the server sends, with the connection it goes to. */
  datatype Delivery = Delivery(to: PeerId, signal: Signal)
}
