/** What the room page's handlers guarantee: which records each signal
    creates, replaces or drops and what it sends; candidate ordering across
    any history; the reconnect rules; and silence after an intentional
    leave. */
module CoordinatorProps {
  import opened Protocol
  import opened Session
  import opened Coordinator

  /** The records of peers other than `p` are the same in both maps. */
  ghost predicate OthersUnchanged(a: map<PeerId, Connection>, b: map<PeerId, Connection>, p: PeerId) {
    forall q :: q != p ==> (q in a <==> q in b) && (q in a ==> a[q] == b[q])
  }

  /** The offers `room-joined` sends, one per listed peer, in list order. */
  function Offers(ps: seq<PeerId>, b: Browser): seq<Request>
    decreases |ps|
  {
    if ps == [] then [] else [Offer(Str(ps[0]), b.offerFor(ps[0]))] + Offers(ps[1..], b)
  }

  /** The messages an open socket would have sent; nothing otherwise. */
  function IfOpen(c: Client, reqs: seq<Request>): seq<Request> {
    if c.socket == Open then reqs else []
  }

  /** Whether two pages agree on everything but the records, the count
      and the outbox. */
  predicate SameControl(c: Client, d: Client) {
    c.roomId == d.roomId && c.myPeerId == d.myPeerId && c.socket == d.socket
    && c.intentionalLeave == d.intentionalLeave && c.reconnect == d.reconnect
  }

  // -------------------------------------------------------------- wsSend

  /** `wsSend` transmits exactly one message on an open socket and leaves
      the page untouched otherwise. */
  lemma WsSendSpec(c: Client, req: Request)
    ensures var d := WsSend(c, req);
      && SameControl(c, d) && d.peers == c.peers && d.shownCount == c.shownCount
      && (c.socket == Open <==> d.outbox == c.outbox + [req])
      && (c.socket != Open ==> d == c)
  {
    if c.socket != Open {
      assert |c.outbox + [req]| != |c.outbox|;
    }
  }

  // -------------------------------------------------------- room-joined

  /** `createOfferForPeer`: a record for `p` with only a local offer,
      replacing any earlier one, and one offer to `p` on an open socket. */
  lemma CreateOfferSpec(c: Client, p: PeerId, b: Browser)
    ensures var d := CreateOfferForPeer(c, p, b);
      && SameControl(c, d)
      && p in d.peers && d.peers[p] == Connection(true, false, [], [])
      && OthersUnchanged(c.peers, d.peers, p)
      && d.outbox == c.outbox + IfOpen(c, [Offer(Str(p), b.offerFor(p))])
      && d.shownCount == CountShown(d.peers)
  {
    var c1 := CreatePeerConnection(c, p);
    var c2 := c1.(peers := c1.peers[p := c1.peers[p].(hasLocal := true)]);
    assert c2.peers.Keys == c1.peers.Keys;
  }

  /** `room-joined` leaves the socket, timer and flags alone and sends one
      offer per listed peer, in list order, when the socket is open. */
  lemma {:induction false} OfferAllSends(c: Client, ps: seq<PeerId>, b: Browser)
    ensures var d := OfferAll(c, ps, b);
      && SameControl(c, d)
      && d.outbox == c.outbox + IfOpen(c, Offers(ps, b))
    decreases |ps|
  {
    if ps != [] {
      var c1 := CreateOfferForPeer(c, ps[0], b);
      CreateOfferSpec(c, ps[0], b);
      OfferAllSends(c1, ps[1..], b);
      if c.socket == Open {
        assert c1.outbox + Offers(ps[1..], b) == c.outbox + Offers(ps, b);
      }
    }
  }

  /** After `room-joined` every listed peer has a record with a local offer
      and nothing else, whatever record it had before; unlisted peers keep
      theirs; and the count is refreshed when the list is not empty. */
  lemma {:induction false} OfferAllRecords(c: Client, ps: seq<PeerId>, b: Browser)
    ensures var d := OfferAll(c, ps, b);
      && (forall p :: p in ps ==> p in d.peers && d.peers[p] == Connection(true, false, [], []))
      && (forall p :: p !in ps ==> (p in d.peers <==> p in c.peers) && (p in c.peers ==> d.peers[p] == c.peers[p]))
      && (ps != [] ==> d.shownCount == CountShown(d.peers))
      && (ps == [] ==> d == c)
    decreases |ps|
  {
    if ps != [] {
      var c1 := CreateOfferForPeer(c, ps[0], b);
      CreateOfferSpec(c, ps[0], b);
      OfferAllRecords(c1, ps[1..], b);
      var d := OfferAll(c1, ps[1..], b);
      forall p | p in ps ensures p in d.peers && d.peers[p] == Connection(true, false, [], []) {
        if p != ps[0] { assert p in ps[1..]; }
      }
      forall p | p !in ps ensures (p in d.peers <==> p in c.peers) && (p in c.peers ==> d.peers[p] == c.peers[p]) {
        assert p != ps[0] && p !in ps[1..];
      }
    }
  }

  /** The two halves together. */
  lemma OfferAllSpec(c: Client, ps: seq<PeerId>, b: Browser)
    ensures var d := OfferAll(c, ps, b);
      && SameControl(c, d)
      && (forall p :: p in ps ==> p in d.peers && d.peers[p] == Connection(true, false, [], []))
      && (forall p :: p !in ps ==> (p in d.peers <==> p in c.peers) && (p in c.peers ==> d.peers[p] == c.peers[p]))
      && d.outbox == c.outbox + IfOpen(c, Offers(ps, b))
      && (ps != [] ==> d.shownCount == CountShown(d.peers))
      && (ps == [] ==> d == c)
  {
    OfferAllSends(c, ps, b);
    OfferAllRecords(c, ps, b);
  }

  // -------------------------------------------------------------- offer

  /** An `offer` from `p` always installs a fresh record for `p`, throwing
      away any earlier one with its buffer. When the browser accepts the
      description the record has both descriptions and nothing waiting,
      and exactly one `answer` goes to `p`; when it rejects it, the handler
      stops with the bare record and sends nothing. Other records never
      change. */
  lemma OfferSpec(c: Client, p: PeerId, offer: Json, b: Browser)
    ensures var d := HandleSignal(c, OfferFrom(p, offer), b);
      && SameControl(c, d)
      && p in d.peers
      && OthersUnchanged(c.peers, d.peers, p)
      && d.shownCount == CountShown(d.peers)
      && (b.acceptsRemote(offer) ==> d.peers[p] == Connection(true, true, [], []))
      && (b.acceptsRemote(offer) ==> d.outbox == c.outbox + IfOpen(c, [Answer(Str(p), b.answerFor(p))]))
      && (!b.acceptsRemote(offer) ==> d.peers[p] == Fresh && d.outbox == c.outbox)
  {
    var c1 := CreatePeerConnection(c, p);
    if b.acceptsRemote(offer) {
      FlushSpec(SetRemote(Fresh), b.acceptsCandidate);
      var c2 := c1.(peers := c1.peers[p := SetRemote(c1.peers[p])]);
      var c3 := FlushPeer(c2, p, b);
      assert c3.peers[p] == Connection(false, true, [], []);
      assert c3.peers.Keys == c1.peers.Keys;
    }
  }

  // ------------------------------------------------------------- answer

  /** An `answer` from a peer with a record sets its remote description
      and then hands over everything that was waiting, in arrival order;
      from an unknown peer, or when the browser rejects it, nothing
      changes. */
  lemma AnswerSpec(c: Client, p: PeerId, answer: Json, b: Browser)
    ensures var d := HandleSignal(c, AnswerFrom(p, answer), b);
      && (p !in c.peers || !b.acceptsRemote(answer) ==> d == c)
      && (p in c.peers && b.acceptsRemote(answer) ==>
            && SameControl(c, d) && d.outbox == c.outbox && d.shownCount == c.shownCount
            && p in d.peers && OthersUnchanged(c.peers, d.peers, p)
            && d.peers[p].hasRemote && d.peers[p].buffer == []
            && d.peers[p].hasLocal == c.peers[p].hasLocal
            && Arrivals(d.peers[p]) == Arrivals(c.peers[p]))
  {
    if p in c.peers && b.acceptsRemote(answer) {
      FlushSpec(SetRemote(c.peers[p]), b.acceptsCandidate);
    }
  }

  /** On a settled record the accepted `answer` hands over every candidate
      that has arrived, in arrival order, and leaves the record settled. */
  lemma AnswerSettles(c: Client, p: PeerId, answer: Json, b: Browser)
    requires p in c.peers && Settled(c.peers[p]) && b.acceptsRemote(answer)
    ensures var d := HandleSignal(c, AnswerFrom(p, answer), b);
      && p in d.peers && Settled(d.peers[p])
      && Candidates(d.peers[p].applied) == Arrivals(c.peers[p])
  {
    SetRemoteThenFlush(c.peers[p], b.acceptsCandidate);
  }

  /** `flushIceCandidates`: a peer without a record is a no-op; otherwise
      the peer's buffer is handed over in FIFO order and nothing else on
      the page changes. */
  lemma FlushPeerSpec(c: Client, p: PeerId, b: Browser)
    ensures var d := FlushPeer(c, p, b);
      && (p !in c.peers ==> d == c)
      && (p in c.peers ==>
            && SameControl(c, d) && d.outbox == c.outbox && d.shownCount == c.shownCount
            && p in d.peers && OthersUnchanged(c.peers, d.peers, p)
            && d.peers[p].buffer == []
            && Candidates(d.peers[p].applied) == Candidates(c.peers[p].applied) + c.peers[p].buffer
            && d.peers[p].hasRemote == c.peers[p].hasRemote)
  {
    if p in c.peers {
      FlushSpec(c.peers[p], b.acceptsCandidate);
    }
  }

  // ------------------------------------------------------- ice-candidate

  /** An `ice-candidate` for a peer with a record joins the end of its
      buffer exactly when it has no remote description, and is otherwise
      handed over at once with the buffer untouched; for an unknown peer
      nothing changes. */
  lemma CandidateSpec(c: Client, p: PeerId, candidate: Json, b: Browser)
    ensures var d := HandleSignal(c, CandidateFrom(p, candidate), b);
      && (p !in c.peers ==> d == c)
      && (p in c.peers ==>
            && SameControl(c, d) && d.outbox == c.outbox && d.shownCount == c.shownCount
            && p in d.peers && OthersUnchanged(c.peers, d.peers, p)
            && d.peers[p].hasRemote == c.peers[p].hasRemote
            && (!c.peers[p].hasRemote <==> d.peers[p].buffer == c.peers[p].buffer + [candidate])
            && (!c.peers[p].hasRemote ==> d.peers[p].applied == c.peers[p].applied)
            && (c.peers[p].hasRemote ==>
                  d.peers[p].buffer == c.peers[p].buffer
                  && d.peers[p].applied == c.peers[p].applied + [Attempt(candidate, b.acceptsCandidate(candidate))]))
  {
    if p in c.peers {
      ReceiveSpec(c.peers[p], candidate, b.acceptsCandidate);
    }
  }

  // ----------------------------------------------------------- peer-left

  /** `peer-left` for `p` drops only `p`'s record and refreshes the count. */
  lemma PeerLeftSpec(c: Client, p: PeerId, b: Browser)
    ensures var d := HandleSignal(c, PeerLeft(p), b);
      && SameControl(c, d) && d.outbox == c.outbox
      && p !in d.peers
      && OthersUnchanged(c.peers, d.peers, p)
      && d.shownCount == Some(|d.peers| + 1)
  {
    var d := HandleSignal(c, PeerLeft(p), b);
    assert d.peers == c.peers - {p};
    assert |d.peers.Keys| == |d.peers|;
  }

  // ------------------------------------------------- the per-record invariant

  /** No record holds a waiting candidate alongside a remote description,
      and none has handed a candidate over before having one. */
  ghost predicate AllSettled(c: Client) {
    forall p :: p in c.peers ==> Settled(c.peers[p])
  }

  /** The count on the page is the number of records plus one, or the page
      has not shown a count yet and has no records. */
  ghost predicate CountCurrent(c: Client) {
    c.shownCount == CountShown(c.peers) || (c.shownCount.None? && c.peers == map[])
  }

  lemma StepKeepsSettled(c: Client, e: PageEvent, b: Browser)
    requires AllSettled(c)
    ensures AllSettled(PageStep(c, e, b))
  {
    match e
    case Message(m) =>
      match m {
      case RoomJoined(_, _, ps) => OfferAllSpec(c, ps, b);
      case OfferFrom(p, offer) => OfferSpec(c, p, offer, b);
      case AnswerFrom(p, answer) =>
        AnswerSpec(c, p, answer, b);
        if p in c.peers && b.acceptsRemote(answer) { AnswerSettles(c, p, answer, b); }
      case CandidateFrom(p, candidate) =>
        CandidateSpec(c, p, candidate, b);
        if p in c.peers { ReceiveSpec(c.peers[p], candidate, b.acceptsCandidate); }
      case PeerLeft(p) => PeerLeftSpec(c, p, b);
      case _ =>
      }
    case Gathered(p, cand) =>
      if Truthy(cand) { WsSendSpec(c, IceCandidate(Str(p), cand)); }
    case Opened =>
      if c.socket == Connecting { WsSendSpec(c.(socket := Open, reconnect := NoTimer), Join(Str(c.roomId))); }
    case LeaveClicked =>
      WsSendSpec(c.(intentionalLeave := true, reconnect := NoTimer, peers := map[]), Leave);
    case _ =>
  }

  /** Every handler but `leaveMeeting` leaves the page showing the number
      of records plus one. */
  lemma StepKeepsCount(c: Client, e: PageEvent, b: Browser)
    requires CountCurrent(c) && !e.LeaveClicked?
    ensures CountCurrent(PageStep(c, e, b))
  {
    match e
    case Message(m) =>
      match m {
      case RoomJoined(_, _, ps) => OfferAllSpec(c, ps, b);
      case OfferFrom(p, offer) => OfferSpec(c, p, offer, b);
      case AnswerFrom(p, answer) =>
        if p in c.peers && b.acceptsRemote(answer) {
          assert PageStep(c, e, b).peers.Keys == c.peers.Keys;
        }
      case CandidateFrom(p, candidate) =>
        if p in c.peers {
          assert PageStep(c, e, b).peers.Keys == c.peers.Keys;
        }
      case _ =>
      }
    case Gathered(p, cand) =>
      if Truthy(cand) { WsSendSpec(c, IceCandidate(Str(p), cand)); }
    case Opened =>
      if c.socket == Connecting { WsSendSpec(c.(socket := Open, reconnect := NoTimer), Join(Str(c.roomId))); }
    case _ =>
  }

  /** Every record stays settled over any sequence of events. */
  lemma {:induction false} RunKeepsSettled(c: Client, es: seq<PageEvent>, b: Browser)
    requires AllSettled(c)
    ensures AllSettled(RunPage(c, es, b))
    decreases |es|
  {
    if es != [] {
      StepKeepsSettled(c, es[0], b);
      RunKeepsSettled(PageStep(c, es[0], b), es[1..], b);
    }
  }

  /** The shown count stays current over any sequence of events without
      a click on leave. */
  lemma {:induction false} RunKeepsCount(c: Client, es: seq<PageEvent>, b: Browser)
    requires CountCurrent(c)
    requires forall i :: 0 <= i < |es| ==> !es[i].LeaveClicked?
    ensures CountCurrent(RunPage(c, es, b))
    decreases |es|
  {
    if es != [] {
      StepKeepsCount(c, es[0], b);
      assert forall i :: 0 <= i < |es[1..]| ==> es[1..][i] == es[i + 1];
      RunKeepsCount(PageStep(c, es[0], b), es[1..], b);
    }
  }

  /** Signals the page only logs or shows leave the signalling state as
      it was; `welcome` only records the page's own id. */
  lemma InertSignals(c: Client, m: Signal, b: Browser)
    requires m.Welcome? || m.PeerJoined? || m.Left? || m.ChatFrom? || m.Error?
    ensures var d := HandleSignal(c, m, b);
      && d.peers == c.peers && d.outbox == c.outbox && d.shownCount == c.shownCount
      && d.socket == c.socket && d.reconnect == c.reconnect
      && (m.Welcome? ==> d.myPeerId == Some(m.peerId))
      && (!m.Welcome? ==> d == c)
  {
  }

  /** `pc.onicecandidate`: a gathered candidate goes out to its peer,
      exactly once, when the socket is open; the end-of-candidates event
      sends nothing. */
  lemma LocalCandidateSpec(c: Client, p: PeerId, candidate: Json)
    ensures var d := LocalCandidate(c, p, candidate);
      && SameControl(c, d) && d.peers == c.peers
      && d.outbox == c.outbox + (if Truthy(candidate) then IfOpen(c, [IceCandidate(Str(p), candidate)]) else [])
  {
    WsSendSpec(c, IceCandidate(Str(p), candidate));
  }

  // ------------------------------------------------------ socket lifecycle

  /** After an intentional leave no reconnect is ever scheduled. */
  ghost predicate LeaveConsistent(c: Client) {
    c.intentionalLeave ==> c.reconnect == NoTimer
  }

  /** Opening cancels any pending reconnect and sends exactly one `join`
      for the page's room. */
  lemma SocketOpenedSpec(c: Client)
    requires c.socket == Connecting
    ensures var d := SocketOpened(c);
      && d.socket == Open && d.reconnect == NoTimer
      && d.outbox == c.outbox + [Join(Str(c.roomId))]
      && d.peers == c.peers && d.intentionalLeave == c.intentionalLeave
  {
  }

  /** Losing a live socket schedules a reconnect exactly when the page did
      not leave on purpose. */
  lemma SocketClosedSpec(c: Client)
    requires LeaveConsistent(c)
    requires c.socket != NoSocket && c.socket != Closed
    ensures var d := SocketClosed(c);
      && d.socket == Closed
      && (d.reconnect == Pending <==> !c.intentionalLeave)
      && d.peers == c.peers && d.outbox == c.outbox
      && LeaveConsistent(d)
  {
  }

  /** `leaveMeeting`: the leave is marked, no reconnect is pending, every
      record is gone, `leave` is sent exactly when the socket was open and
      the socket is no longer usable. The count is left as it was. */
  lemma LeaveMeetingSpec(c: Client)
    ensures var d := LeaveMeeting(c);
      && d.intentionalLeave && d.reconnect == NoTimer && d.peers == map[]
      && d.outbox == c.outbox + IfOpen(c, [Leave])
      && d.socket != Open && d.socket != Connecting
      && d.shownCount == c.shownCount
      && LeaveConsistent(d)
  {
  }

  /** The reconnect timer opens a new socket only when it is pending, and
      a timer runs once: a second firing changes nothing. */
  lemma ReconnectFiredSpec(c: Client)
    ensures var d := ReconnectFired(c);
      && (c.reconnect == Pending ==> d.socket == Connecting && d.reconnect == Fired)
      && (c.reconnect != Pending ==> d == c)
      && d.peers == c.peers && d.outbox == c.outbox
      && ReconnectFired(d) == d
  {
  }

  lemma StepKeepsLeaveConsistent(c: Client, e: PageEvent, b: Browser)
    requires LeaveConsistent(c)
    ensures LeaveConsistent(PageStep(c, e, b))
  {
    match e
    case Message(m) =>
      match m {
      case RoomJoined(_, _, ps) => OfferAllSpec(c, ps, b);
      case OfferFrom(p, offer) => OfferSpec(c, p, offer, b);
      case AnswerFrom(p, answer) => AnswerSpec(c, p, answer, b);
      case CandidateFrom(p, candidate) => CandidateSpec(c, p, candidate, b);
      case _ =>
      }
    case Gathered(p, cand) =>
      if Truthy(cand) { WsSendSpec(c, IceCandidate(Str(p), cand)); }
    case Opened =>
      if c.socket == Connecting { WsSendSpec(c.(socket := Open, reconnect := NoTimer), Join(Str(c.roomId))); }
    case LeaveClicked =>
      WsSendSpec(c.(intentionalLeave := true, reconnect := NoTimer, peers := map[]), Leave);
    case _ =>
  }

  // ------------------------------------------------- silence after leaving

  /** The page has left on purpose, has no reconnect pending and no socket
      that is or will become open. */
  ghost predicate Quiet(c: Client) {
    c.intentionalLeave && c.reconnect == NoTimer && c.socket != Open && c.socket != Connecting
  }

  lemma QuietStep(c: Client, e: PageEvent, b: Browser)
    requires Quiet(c)
    ensures Quiet(PageStep(c, e, b)) && PageStep(c, e, b).outbox == c.outbox
  {
    match e
    case Message(m) =>
      match m {
      case RoomJoined(_, _, ps) => OfferAllSpec(c, ps, b);
      case OfferFrom(p, offer) => OfferSpec(c, p, offer, b);
      case _ =>
      }
    case Gathered(p, cand) =>
    case LeaveClicked =>
    case _ =>
  }

  /** Once `leaveMeeting` has run, whatever else happens the page sends
      nothing more: the socket never reopens and no reconnect is ever
      scheduled. */
  lemma {:induction false} SilentAfterLeave(c: Client, es: seq<PageEvent>, b: Browser)
    ensures RunPage(LeaveMeeting(c), es, b).outbox == c.outbox + IfOpen(c, [Leave])
  {
    LeaveMeetingSpec(c);
    QuietRun(LeaveMeeting(c), es, b);
  }

  lemma {:induction false} QuietRun(c: Client, es: seq<PageEvent>, b: Browser)
    requires Quiet(c)
    ensures Quiet(RunPage(c, es, b)) && RunPage(c, es, b).outbox == c.outbox
    decreases |es|
  {
    if es != [] {
      QuietStep(c, es[0], b);
      QuietRun(PageStep(c, es[0], b), es[1..], b);
    }
  }

  // ----------------------------------------------------- candidate order

  /** Whether an event leaves `p`'s record in place: it neither installs a
      new record for `p` (an `offer` from `p`, a `room-joined` listing
      `p`) nor drops it (`peer-left` for `p`, leaving the meeting). */
  predicate KeepsRecord(e: PageEvent, p: PeerId) {
    match e
    case Message(m) =>
      match m {
      case RoomJoined(_, _, ps) => p !in ps
      case OfferFrom(q, _) => q != p
      case PeerLeft(q) => q != p
      case _ => true
      }
    case LeaveClicked => false
    case _ => true
  }

  /** The candidate an event carries from `p`, if it carries one. */
  function FromEvent(e: PageEvent, p: PeerId): seq<Json> {
    if e.Message? && e.signal.CandidateFrom? && e.signal.peerId == p then [e.signal.candidate] else []
  }

  /** The candidates from `p` among the events, in order. */
  function CandidatesFrom(es: seq<PageEvent>, p: PeerId): seq<Json>
    decreases |es|
  {
    if es == [] then [] else FromEvent(es[0], p) + CandidatesFrom(es[1..], p)
  }

  /** One signal that keeps `p`'s record keeps it settled and adds to its
      arrivals exactly the candidate it carries from `p`, if any. */
  lemma SignalArrivals(c: Client, m: Signal, p: PeerId, b: Browser)
    requires p in c.peers && Settled(c.peers[p]) && KeepsRecord(Message(m), p)
    ensures var d := HandleSignal(c, m, b);
      && p in d.peers && Settled(d.peers[p])
      && Arrivals(d.peers[p]) == Arrivals(c.peers[p]) + (if m.CandidateFrom? && m.peerId == p then [m.candidate] else [])
  {
    match m
    case RoomJoined(_, _, ps) => OfferAllRecords(c, ps, b);
    case OfferFrom(q, offer) => OfferSpec(c, q, offer, b);
    case AnswerFrom(q, answer) =>
      if q == p && b.acceptsRemote(answer) {
        SetRemoteThenFlush(c.peers[p], b.acceptsCandidate);
      }
    case CandidateFrom(q, candidate) =>
      if q == p { ReceiveSpec(c.peers[p], candidate, b.acceptsCandidate); }
    case _ =>
  }

  lemma StepArrivals(c: Client, e: PageEvent, p: PeerId, b: Browser)
    requires p in c.peers && Settled(c.peers[p]) && KeepsRecord(e, p)
    ensures var d := PageStep(c, e, b);
      && p in d.peers && Settled(d.peers[p])
      && Arrivals(d.peers[p]) == Arrivals(c.peers[p]) + FromEvent(e, p)
  {
    match e
    case Message(m) => SignalArrivals(c, m, p, b);
    case Gathered(q, cand) =>
      if Truthy(cand) { WsSendSpec(c, IceCandidate(Str(q), cand)); }
    case Opened =>
      if c.socket == Connecting { WsSendSpec(c.(socket := Open, reconnect := NoTimer), Join(Str(c.roomId))); }
    case _ =>
  }

  /** Across any history that keeps `p`'s record, every candidate `p` sends
      is either waiting or handed over, in the order it arrived, after
      those the record already had, and none is handed over before the
      remote description is set. */
  lemma {:induction false} ArrivalOrder(c: Client, es: seq<PageEvent>, p: PeerId, b: Browser)
    requires p in c.peers && Settled(c.peers[p])
    requires forall i :: 0 <= i < |es| ==> KeepsRecord(es[i], p)
    ensures var d := RunPage(c, es, b);
      && p in d.peers && Settled(d.peers[p])
      && Arrivals(d.peers[p]) == Arrivals(c.peers[p]) + CandidatesFrom(es, p)
    decreases |es|
  {
    if es != [] {
      var c1 := PageStep(c, es[0], b);
      StepArrivals(c, es[0], p, b);
      KeepsTail(es, p);
      ArrivalOrder(c1, es[1..], p, b);
      RunCons(c, es, b);
      var before, now, later := Arrivals(c.peers[p]), FromEvent(es[0], p), CandidatesFrom(es[1..], p);
      assert (before + now) + later == before + (now + later);
    }
  }

  /** And once the remote description is set, all of them have been
      handed over, in that order. */
  lemma HandedOverInOrder(c: Client, es: seq<PageEvent>, p: PeerId, b: Browser)
    requires p in c.peers && Settled(c.peers[p])
    requires forall i :: 0 <= i < |es| ==> KeepsRecord(es[i], p)
    ensures var d := RunPage(c, es, b);
      && p in d.peers
      && (d.peers[p].hasRemote ==> Candidates(d.peers[p].applied) == Arrivals(c.peers[p]) + CandidatesFrom(es, p))
  {
    ArrivalOrder(c, es, p, b);
    var d := RunPage(c, es, b);
    if d.peers[p].hasRemote {
      ArrivedAllHandedOver(d.peers[p]);
    }
  }

  /** Once a settled record has its remote description, everything that
      arrived has been handed over. */
  lemma ArrivedAllHandedOver(c: Connection)
    requires Settled(c) && c.hasRemote
    ensures Candidates(c.applied) == Arrivals(c)
  {
    assert Candidates(c.applied) + [] == Candidates(c.applied);
  }

  lemma KeepsTail(es: seq<PageEvent>, p: PeerId)
    requires es != []
    requires forall i :: 0 <= i < |es| ==> KeepsRecord(es[i], p)
    ensures forall i :: 0 <= i < |es[1..]| ==> KeepsRecord(es[1..][i], p)
  {
    forall i | 0 <= i < |es[1..]| ensures KeepsRecord(es[1..][i], p) {
      assert es[1..][i] == es[i + 1];
    }
  }

  lemma RunCons(c: Client, es: seq<PageEvent>, b: Browser)
    requires es != []
    ensures RunPage(c, es, b) == RunPage(PageStep(c, es[0], b), es[1..], b)
  {
  }
}
