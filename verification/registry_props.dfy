/** What the server's handlers guarantee: the registry invariant is kept by
    every handler, join snapshots and notifications reach exactly the
    right peers, relays go to one target or nowhere, and protocol errors
    are answered without touching the registry. */
module RegistryProps {
  import opened Protocol
  import opened Registry

  // ------------------------------------------------------------ notifications

  lemma {:induction false} NotifyShape(to: seq<PeerId>, m: Signal)
    ensures |Notify(to, m)| == |to|
    ensures forall i :: 0 <= i < |to| ==> Notify(to, m)[i] == Delivery(to[i], m)
  {
    if to != [] {
      NotifyShape(to[1..], m);
    }
  }

  /** Every peer of a duplicate-free list gets exactly one copy, nobody
      else gets any. */
  lemma {:induction false} NotifyCount(to: seq<PeerId>, m: Signal, q: PeerId)
    requires NoDup(to)
    ensures multiset(Notify(to, m))[Delivery(q, m)] == if q in to then 1 else 0
    ensures forall d :: d in Notify(to, m) ==> d.to in to && d.signal == m
  {
    if to != [] {
      assert NoDup(to[1..]) by {
        forall i, j | 0 <= i < j < |to[1..]| ensures to[1..][i] != to[1..][j] {
          assert to[1..][i] == to[i + 1] && to[1..][j] == to[j + 1];
        }
      }
      NotifyCount(to[1..], m, q);
      assert to[0] !in to[1..] by {
        forall k | 0 <= k < |to[1..]| ensures to[1..][k] != to[0] {
          assert to[1..][k] == to[k + 1];
        }
      }
      assert to == [to[0]] + to[1..];
    }
  }

  lemma NotifyCountAll(to: seq<PeerId>, m: Signal)
    requires NoDup(to)
    ensures forall q :: multiset(Notify(to, m))[Delivery(q, m)] == if q in to then 1 else 0
    ensures forall d :: d in Notify(to, m) ==> d.to in to && d.signal == m
  {
    forall q ensures multiset(Notify(to, m))[Delivery(q, m)] == if q in to then 1 else 0 {
      NotifyCount(to, m, q);
    }
    if to != [] {
      NotifyCount(to, m, to[0]);
    }
  }

  // ----------------------------------------------------------- removeFromRoom

  /** `removeFromRoom`: the peer is gone from the room, the others stay in
      order, each of them gets one `peer-left`, the room survives exactly
      when someone else is left in it, and no other room changes. */
  lemma RemoveFromRoomSpec(s: Server, p: PeerId, r: RoomId)
    requires NoDup(Members(s.rooms, r))
    ensures var st := RemoveFromRoom(s, p, r);
      && st.server.current == s.current
      && Members(st.server.rooms, r) == Without(Members(s.rooms, r), p)
      && p !in Members(st.server.rooms, r)
      && (r in st.server.rooms <==> exists q :: q in Members(s.rooms, r) && q != p)
      && (forall q :: multiset(st.out)[Delivery(q, PeerLeft(p))] ==
            if q in Members(s.rooms, r) && q != p then 1 else 0)
      && (forall d :: d in st.out ==> d.signal == PeerLeft(p) && d.to in Members(st.server.rooms, r))
      && (forall r' :: r' != r ==> (r' in st.server.rooms <==> r' in s.rooms))
      && (forall r' :: r' != r ==> Members(st.server.rooms, r') == Members(s.rooms, r'))
  {
    var st := RemoveFromRoom(s, p, r);
    var room := Without(Members(s.rooms, r), p);
    NotifyCountAll(room, PeerLeft(p));
    if r in s.rooms && room == [] {
      assert !exists q :: q in Members(s.rooms, r) && q != p;
    }
    if room != [] {
      assert room[0] in Members(s.rooms, r) && room[0] != p;
    }
  }

  // ------------------------------------------------------- the invariant

  /** The `peer-left` notices a peer's departure from its current room
      sends: one to each other member of that room, in room order. */
  function LeaveNotices(s: Server, p: PeerId): seq<Delivery> {
    match CurrentOf(s, p)
    case None => []
    case Some(r) => Notify(Without(Members(s.rooms, r), p), PeerLeft(p))
  }

  lemma DetachValid(s: Server, p: PeerId)
    requires Valid(s) && p in s.current
    ensures var d := Detach(s, p);
      && Valid(d.server)
      && d.server.current == s.current[p := None]
      && (forall r :: p !in Members(d.server.rooms, r))
      && (forall r :: CurrentOf(s, p) != Some(r) ==> Members(d.server.rooms, r) == Members(s.rooms, r))
      && (forall r :: CurrentOf(s, p) == Some(r) ==> Members(d.server.rooms, r) == Without(Members(s.rooms, r), p))
      && d.out == LeaveNotices(s, p)
  {
    var d := Detach(s, p);
    match s.current[p]
    case None =>
      assert s.current[p := None] == s.current;
      forall r ensures p !in Members(d.server.rooms, r) {
        assert p in Members(s.rooms, r) <==> CurrentOf(s, p) == Some(r);
      }
    case Some(r0) =>
      assert NoDup(Members(s.rooms, r0));
      RemoveFromRoomSpec(s, p, r0);
      var s' := d.server;
      assert forall q :: CurrentOf(s', q) == if q == p then None else CurrentOf(s, q);
      forall r | r in s'.rooms
        ensures s'.rooms[r] != [] && NoDup(s'.rooms[r])
      {
        if r == r0 {
          assert s'.rooms[r] == Without(s.rooms[r], p);
        } else {
          assert s'.rooms[r] == Members(s.rooms, r);
        }
      }
      forall r, q ensures q in Members(s'.rooms, r) <==> CurrentOf(s', q) == Some(r) {
        assert q in Members(s.rooms, r) <==> CurrentOf(s, q) == Some(r);
      }
      forall r ensures p !in Members(s'.rooms, r) {
        assert p in Members(s'.rooms, r) <==> CurrentOf(s', p) == Some(r);
      }
  }

  lemma AttachValid(s: Server, p: PeerId, r: RoomId)
    requires Valid(s) && p in s.current && s.current[p] == None
    ensures var a := Attach(s, p, r);
      && Valid(a.server)
      && a.server.current == s.current[p := Some(r)]
      && Members(a.server.rooms, r) == Members(s.rooms, r) + [p]
      && (forall r' :: r' != r ==> Members(a.server.rooms, r') == Members(s.rooms, r'))
      && p !in Members(s.rooms, r)
  {
    var a := Attach(s, p, r);
    var existing := Members(s.rooms, r);
    assert p in existing <==> CurrentOf(s, p) == Some(r);
    var s' := a.server;
    assert Members(s'.rooms, r) == existing + [p];
    assert forall q :: CurrentOf(s', q) == if q == p then Some(r) else CurrentOf(s, q);
    forall r' | r' in s'.rooms
      ensures s'.rooms[r'] != [] && NoDup(s'.rooms[r'])
    {
      if r' == r {
        var xs := existing + [p];
        assert NoDup(existing);
        forall i, j | 0 <= i < j < |xs| ensures xs[i] != xs[j] {
          if j == |xs| - 1 {
            assert xs[i] in existing;
          }
        }
      }
    }
    forall r', q ensures q in Members(s'.rooms, r') <==> CurrentOf(s', q) == Some(r') {
      assert q in Members(s.rooms, r') <==> CurrentOf(s, q) == Some(r');
      if r' != r {
        assert Members(s'.rooms, r') == Members(s.rooms, r');
      }
    }
  }

  /** The first half of `join`: after leaving, the room to be joined holds
      its old members less the joiner, without duplicates. */
  lemma JoinSnapshot(s: Server, p: PeerId, r: RoomId)
    requires Valid(s) && p in s.current
    ensures var d := Detach(s, p);
      var snap := Without(Members(s.rooms, r), p);
      && Valid(d.server) && p in d.server.current && d.server.current[p] == None
      && Members(d.server.rooms, r) == snap
      && NoDup(snap) && p !in snap
      && (forall r' :: r' != r && CurrentOf(s, p) != Some(r') ==> Members(d.server.rooms, r') == Members(s.rooms, r'))
      && d.out == LeaveNotices(s, p)
  {
    DetachValid(s, p);
    assert p in Members(s.rooms, r) <==> CurrentOf(s, p) == Some(r);
    assert NoDup(Members(s.rooms, r));
  }

  lemma JoinRoomValid(s: Server, p: PeerId, r: RoomId)
    requires Valid(s) && p in s.current
    ensures var st := JoinRoom(s, p, r);
      var snap := Without(Members(s.rooms, r), p);
      && Valid(st.server)
      && st.server.current == s.current[p := Some(r)]
      && Members(st.server.rooms, r) == snap + [p]
      && (forall r' :: r' != r && CurrentOf(s, p) != Some(r') ==> Members(st.server.rooms, r') == Members(s.rooms, r'))
      && NoDup(snap) && p !in snap
      && st.out == LeaveNotices(s, p) + [Delivery(p, RoomJoined(r, p, snap))] + Notify(snap, PeerJoined(p))
  {
    JoinRoomState(s, p, r);
    JoinRoomOut(s, p, r);
  }

  /** The registry half of `JoinRoomValid`. */
  lemma JoinRoomState(s: Server, p: PeerId, r: RoomId)
    requires Valid(s) && p in s.current
    ensures var s' := JoinRoom(s, p, r).server;
      var snap := Without(Members(s.rooms, r), p);
      && Valid(s')
      && s'.current == s.current[p := Some(r)]
      && Members(s'.rooms, r) == snap + [p]
      && (forall r' :: r' != r && CurrentOf(s, p) != Some(r') ==> Members(s'.rooms, r') == Members(s.rooms, r'))
      && NoDup(snap) && p !in snap
  {
    var d := Detach(s, p);
    var a := Attach(d.server, p, r);
    assert JoinRoom(s, p, r).server == a.server;
    JoinSnapshot(s, p, r);
    AttachValid(d.server, p, r);
    assert a.server.current == s.current[p := Some(r)] by {
      DetachValid(s, p);
      assert d.server.current[p := Some(r)] == s.current[p := Some(r)];
    }
    forall r' | r' != r && CurrentOf(s, p) != Some(r')
      ensures Members(a.server.rooms, r') == Members(s.rooms, r')
    {
      assert Members(a.server.rooms, r') == Members(d.server.rooms, r');
    }
  }

  /** The delivery half of `JoinRoomValid`. */
  lemma JoinRoomOut(s: Server, p: PeerId, r: RoomId)
    requires Valid(s) && p in s.current
    ensures var snap := Without(Members(s.rooms, r), p);
      JoinRoom(s, p, r).out == LeaveNotices(s, p) + [Delivery(p, RoomJoined(r, p, snap))] + Notify(snap, PeerJoined(p))
  {
    var d := Detach(s, p);
    var snap := Without(Members(s.rooms, r), p);
    JoinSnapshot(s, p, r);
    AttachValid(d.server, p, r);
    WithoutAppend(snap, p);
    assert Attach(d.server, p, r).out == [Delivery(p, RoomJoined(r, p, snap))] + Notify(snap, PeerJoined(p));
  }

  /** A peer in no room joins: it hears the room's whole member list,
      each member hears of it once, in room order, and it goes last. */
  lemma JoinFromNoRoom(s: Server, p: PeerId, r: RoomId)
    requires Valid(s) && p in s.current && CurrentOf(s, p) == None
    ensures var st := JoinRoom(s, p, r);
      var before := Members(s.rooms, r);
      && Valid(st.server)
      && st.server.current == s.current[p := Some(r)]
      && Members(st.server.rooms, r) == before + [p]
      && st.out == [Delivery(p, RoomJoined(r, p, before))] + Notify(before, PeerJoined(p))
  {
    var before := Members(s.rooms, r);
    assert Without(before, p) == before by {
      assert p in before <==> CurrentOf(s, p) == Some(r);
    }
    assert LeaveNotices(s, p) == [];
    JoinRoomState(s, p, r);
    JoinRoomOut(s, p, r);
  }

  lemma {:induction false} WithoutAppend(xs: seq<PeerId>, p: PeerId)
    requires p !in xs
    ensures Without(xs + [p], p) == xs
  {
    if xs != [] {
      assert (xs + [p])[1..] == xs[1..] + [p];
      WithoutAppend(xs[1..], p);
    } else {
      assert [p][1..] == [];
    }
  }

  /** Every handler keeps the registry invariant. */
  lemma HandleValid(s: Server, p: PeerId, m: Inbound, now: int)
    requires Valid(s) && p in s.current
    ensures Valid(Handle(s, p, m, now).server)
  {
    match m
    case InvalidJson =>
    case NullJson =>
    case Parsed(req) =>
      match req
      case Join(v) =>
        if IsNonEmptyString(v) { JoinRoomValid(s, p, v.s); }
      case Leave =>
        if s.current[p].Some? { DetachValid(s, p); }
      case _ =>
  }

  lemma ConnectValid(s: Server, p: PeerId)
    requires Valid(s) && p !in s.current
    ensures Valid(Connect(s, p).server)
    ensures CurrentOf(Connect(s, p).server, p) == None
    ensures Connect(s, p).out == [Delivery(p, Welcome(p))]
  {
    var s' := Connect(s, p).server;
    forall r, q ensures q in Members(s'.rooms, r) <==> CurrentOf(s', q) == Some(r) {
      assert q in Members(s.rooms, r) <==> CurrentOf(s, q) == Some(r);
    }
  }

  lemma CloseValid(s: Server, p: PeerId)
    requires Valid(s) && p in s.current
    ensures var st := Close(s, p);
      && Valid(st.server)
      && p !in st.server.current
      && (forall r :: p !in Members(st.server.rooms, r))
      && st.out == LeaveNotices(s, p)
  {
    DetachValid(s, p);
    var d := Detach(s, p);
    var s' := Close(s, p).server;
    forall r, q ensures q in Members(s'.rooms, r) <==> CurrentOf(s', q) == Some(r) {
      assert q in Members(d.server.rooms, r) <==> CurrentOf(d.server, q) == Some(r);
    }
  }

  // ------------------------------------------------ rooms after a handler

  /** Leaving the current room takes the peer out of every room and keeps
      each room's other members in their order. */
  lemma DetachRooms(s: Server, p: PeerId)
    requires Valid(s) && p in s.current
    ensures forall r :: Members(Detach(s, p).server.rooms, r) == Without(Members(s.rooms, r), p)
  {
    DetachValid(s, p);
    forall r ensures Members(Detach(s, p).server.rooms, r) == Without(Members(s.rooms, r), p) {
      assert p in Members(s.rooms, r) <==> CurrentOf(s, p) == Some(r);
    }
  }

  /** A join takes the joiner out of every room, keeping the others in
      their order, and puts it last in the room joined. */
  lemma JoinRooms(s: Server, p: PeerId, r0: RoomId)
    requires Valid(s) && p in s.current
    ensures forall r :: r != r0 ==> Members(JoinRoom(s, p, r0).server.rooms, r) == Without(Members(s.rooms, r), p)
    ensures Members(JoinRoom(s, p, r0).server.rooms, r0) == Without(Members(s.rooms, r0), p) + [p]
  {
    var d := Detach(s, p);
    assert Valid(d.server) && p in d.server.current && d.server.current[p] == None by {
      DetachValid(s, p);
    }
    assert forall r :: r != r0 ==> Members(JoinRoom(s, p, r0).server.rooms, r) == Members(d.server.rooms, r) by {
      AttachValid(d.server, p, r0);
    }
    assert Members(JoinRoom(s, p, r0).server.rooms, r0) == Without(Members(s.rooms, r0), p) + [p] by {
      JoinRoomValid(s, p, r0);
    }
    DetachRooms(s, p);
  }

  /** `leave` and a disconnect take the peer out of every room, keeping the
      others in their order. */
  lemma LeaveRooms(s: Server, p: PeerId, now: int)
    requires Valid(s) && p in s.current
    ensures forall r :: Members(Handle(s, p, Parsed(Leave), now).server.rooms, r) == Without(Members(s.rooms, r), p)
    ensures forall r :: Members(Close(s, p).server.rooms, r) == Without(Members(s.rooms, r), p)
  {
    DetachRooms(s, p);
    if CurrentOf(s, p).None? {
      forall r ensures Members(s.rooms, r) == Without(Members(s.rooms, r), p) {
        assert p in Members(s.rooms, r) <==> CurrentOf(s, p) == Some(r);
      }
    }
  }

  // ----------------------------------------------------- join, relay, errors

  lemma LeaveNoticesShape(s: Server, p: PeerId)
    requires Valid(s)
    ensures forall d :: d in LeaveNotices(s, p) ==>
      d.signal == PeerLeft(p) && d.to != p && CurrentOf(s, p).Some? && CurrentOf(s, d.to) == CurrentOf(s, p)
  {
    match CurrentOf(s, p)
    case None =>
    case Some(r0) =>
      assert NoDup(Members(s.rooms, r0));
      NotifyCountAll(Without(Members(s.rooms, r0), p), PeerLeft(p));
      forall q | q in Members(s.rooms, r0) ensures CurrentOf(s, q) == Some(r0) {
        assert q in Members(s.rooms, r0) <==> CurrentOf(s, q) == Some(r0);
      }
  }

  /** After a join, every earlier member of the room gets exactly one
      `peer-joined` naming the joiner, and nobody else gets one ... */
  lemma JoinNotifications(s: Server, p: PeerId, r: RoomId, now: int)
    requires Valid(s) && p in s.current && r != ""
    ensures var st := Handle(s, p, Parsed(Join(Str(r))), now);
      forall q :: multiset(st.out)[Delivery(q, PeerJoined(p))] ==
        if q != p && CurrentOf(s, q) == Some(r) then 1 else 0
  {
    assert Handle(s, p, Parsed(Join(Str(r))), now) == JoinRoom(s, p, r);
    forall q ensures multiset(JoinRoom(s, p, r).out)[Delivery(q, PeerJoined(p))] ==
      if q != p && CurrentOf(s, q) == Some(r) then 1 else 0
    {
      PeerJoinedCount(s, p, r, q);
    }
  }

  lemma PeerJoinedCount(s: Server, p: PeerId, r: RoomId, q: PeerId)
    requires Valid(s) && p in s.current
    ensures multiset(JoinRoom(s, p, r).out)[Delivery(q, PeerJoined(p))] ==
      if q != p && CurrentOf(s, q) == Some(r) then 1 else 0
  {
    var snap := Without(Members(s.rooms, r), p);
    JoinRoomValid(s, p, r);
    LeaveNoticesShape(s, p);
    NotifyCount(snap, PeerJoined(p), q);
    var ln := LeaveNotices(s, p);
    var rj := [Delivery(p, RoomJoined(r, p, snap))];
    var pj := Notify(snap, PeerJoined(p));
    assert multiset(ln + rj + pj) == multiset(ln) + multiset(rj) + multiset(pj);
    assert q in Members(s.rooms, r) <==> CurrentOf(s, q) == Some(r);
    assert Delivery(q, PeerJoined(p)) !in ln;
  }

  /** ... and the joiner gets exactly one `room-joined`, carrying the
      snapshot. */
  lemma JoinReply(s: Server, p: PeerId, r: RoomId, now: int)
    requires Valid(s) && p in s.current && r != ""
    ensures var st := Handle(s, p, Parsed(Join(Str(r))), now);
      var snap := Without(Members(s.rooms, r), p);
      && multiset(st.out)[Delivery(p, RoomJoined(r, p, snap))] == 1
      && (forall d :: d in st.out && d.signal.RoomJoined? ==> d == Delivery(p, RoomJoined(r, p, snap)))
  {
    assert Handle(s, p, Parsed(Join(Str(r))), now) == JoinRoom(s, p, r);
    RoomJoinedOnce(s, p, r);
  }

  lemma RoomJoinedOnce(s: Server, p: PeerId, r: RoomId)
    requires Valid(s) && p in s.current
    ensures multiset(JoinRoom(s, p, r).out)[Delivery(p, RoomJoined(r, p, Without(Members(s.rooms, r), p)))] == 1
    ensures forall d :: d in JoinRoom(s, p, r).out && d.signal.RoomJoined? ==>
      d == Delivery(p, RoomJoined(r, p, Without(Members(s.rooms, r), p)))
  {
    var snap := Without(Members(s.rooms, r), p);
    var x := Delivery(p, RoomJoined(r, p, snap));
    var ln := LeaveNotices(s, p);
    var pj := Notify(snap, PeerJoined(p));
    assert forall d :: d in ln ==> d.signal.PeerLeft? by {
      LeaveNoticesShape(s, p);
    }
    assert forall d :: d in pj ==> d.signal.PeerJoined? by {
      NotifyShape(snap, PeerJoined(p));
    }
    JoinRoomOut(s, p, r);
    OnlyReply(JoinRoom(s, p, r).out, ln, x, pj);
  }

  /** A reply between notices of other kinds occurs exactly once. */
  lemma OnlyReply(out: seq<Delivery>, ln: seq<Delivery>, x: Delivery, pj: seq<Delivery>)
    requires out == ln + [x] + pj && x.signal.RoomJoined?
    requires forall d :: d in ln ==> d.signal.PeerLeft?
    requires forall d :: d in pj ==> d.signal.PeerJoined?
    ensures multiset(out)[x] == 1
    ensures forall d :: d in out && d.signal.RoomJoined? ==> d == x
  {
    assert multiset(ln + [x] + pj) == multiset(ln) + multiset([x]) + multiset(pj);
    assert x !in ln && x !in pj;
  }

  /** A join is heard only by the joiner, the members of the room joined
      and the members of the room the joiner left. */
  lemma JoinRecipients(s: Server, p: PeerId, r: RoomId, now: int)
    requires Valid(s) && p in s.current && r != ""
    ensures var st := Handle(s, p, Parsed(Join(Str(r))), now);
      forall d :: d in st.out ==>
        d.to == p || CurrentOf(s, d.to) == Some(r) || (CurrentOf(s, p).Some? && CurrentOf(s, d.to) == CurrentOf(s, p))
  {
    var snap := Without(Members(s.rooms, r), p);
    JoinRoomValid(s, p, r);
    LeaveNoticesShape(s, p);
    NotifyCountAll(snap, PeerJoined(p));
    forall q | q in snap ensures CurrentOf(s, q) == Some(r) {
      assert q in Members(s.rooms, r) <==> CurrentOf(s, q) == Some(r);
    }
  }

  /** Whether `target` names an open connection in the same room as `p`. */
  ghost predicate SameRoom(s: Server, p: PeerId, target: Json) {
    target.Str? && CurrentOf(s, p).Some? && CurrentOf(s, target.s) == CurrentOf(s, p)
  }

  /** The message a relayed request becomes: same kind, the sender's id
      attached, the payload untouched. */
  function Forwarded(p: PeerId, req: Request): Signal
    requires req.Offer? || req.Answer? || req.IceCandidate?
  {
    match req
    case Offer(_, offer) => OfferFrom(p, offer)
    case Answer(_, answer) => AnswerFrom(p, answer)
    case IceCandidate(_, candidate) => CandidateFrom(p, candidate)
  }

  /** `offer`, `answer` and `ice-candidate` from a peer in a room: one
      message to a target in that room, nothing otherwise; the registry
      never changes. */
  lemma RelaySpec(s: Server, p: PeerId, req: Request, now: int)
    requires Valid(s) && p in s.current && CurrentOf(s, p).Some?
    requires req.Offer? || req.Answer? || req.IceCandidate?
    ensures var st := Handle(s, p, Parsed(req), now);
      && st.server == s
      && (SameRoom(s, p, req.targetPeerId) ==> st.out == [Delivery(req.targetPeerId.s, Forwarded(p, req))])
      && (!SameRoom(s, p, req.targetPeerId) ==> st.out == [])
  {
    var r := CurrentOf(s, p).value;
    assert p in Members(s.rooms, r) <==> CurrentOf(s, p) == Some(r);
    var t := req.targetPeerId;
    if t.Str? {
      assert t.s in Members(s.rooms, r) <==> CurrentOf(s, t.s) == Some(r);
    }
  }

  /** The error reply a message must get, if any: the reference for when
      the server answers with `error`. */
  function ExpectedError(s: Server, p: PeerId, m: Inbound): Option<string> {
    match m
    case InvalidJson => Some(InvalidJsonText)
    case NullJson => None
    case Parsed(req) =>
      match req
      case Join(v) => if IsNonEmptyString(v) then None else Some(RoomIdRequiredText)
      case Offer(_, _) => if CurrentOf(s, p).None? then Some(NotInRoomText) else None
      case Answer(_, _) => if CurrentOf(s, p).None? then Some(NotInRoomText) else None
      case IceCandidate(_, _) => if CurrentOf(s, p).None? then Some(NotInRoomText) else None
      case Leave => None
      case Chat(v) =>
        if CurrentOf(s, p).None? then Some(NotInRoomText)
        else if !IsNonEmptyString(v) then Some(ChatRequiredText)
        else None
      case Unknown(t) => Some(UnknownTypePrefix + t)
      case Unprintable => None
  }

  /** A protocol error leaves the registry as it was and sends exactly one
      `error`, to the sender. */
  lemma ErrorReplies(s: Server, p: PeerId, m: Inbound, now: int)
    requires p in s.current && ExpectedError(s, p, m).Some?
    ensures Handle(s, p, m, now) == Outcome(s, [Delivery(p, Error(ExpectedError(s, p, m).value))], false)
  {
  }

  /** Only the text `null` and a `type` that cannot be printed make the
      handler throw, and then it has sent nothing and left the registry as
      it was; every other message runs to the end of its case. */
  lemma ThrowingMessages(s: Server, p: PeerId, m: Inbound, now: int)
    requires p in s.current
    ensures Handle(s, p, m, now).thrown <==> m == NullJson || m == Parsed(Unprintable)
    ensures Handle(s, p, m, now).thrown ==> Handle(s, p, m, now) == Outcome(s, [], true)
  {
  }

  /** Any other message sends no `error` at all. */
  lemma NoStrayErrors(s: Server, p: PeerId, m: Inbound, now: int)
    requires Valid(s) && p in s.current && ExpectedError(s, p, m).None?
    ensures forall d :: d in Handle(s, p, m, now).out ==> !d.signal.Error?
  {
    match m
    case Parsed(Join(v)) => JoinSendsNoError(s, p, v.s);
    case Parsed(Leave) =>
      if CurrentOf(s, p).Some? {
        DetachValid(s, p);
        LeaveNoticesShape(s, p);
      }
    case Parsed(Chat(v)) =>
      var r := CurrentOf(s, p).value;
      if r in s.rooms {
        NotifyCountAll(s.rooms[r], ChatFrom(p, v.s, now));
      }
    case _ =>
  }

  lemma JoinSendsNoError(s: Server, p: PeerId, r: RoomId)
    requires Valid(s) && p in s.current
    ensures forall d :: d in JoinRoom(s, p, r).out ==> !d.signal.Error?
  {
    JoinRoomValid(s, p, r);
    LeaveNoticesShape(s, p);
    NotifyCountAll(Without(Members(s.rooms, r), p), PeerJoined(p));
  }

  /** `leave` in a room: the peer leaves it (each remaining member hears
      `peer-left`) and gets `left` for that room; outside a room it is a
      silent no-op. Nobody else's membership changes. */
  lemma LeaveSpec(s: Server, p: PeerId, now: int)
    requires Valid(s) && p in s.current
    ensures var st := Handle(s, p, Parsed(Leave), now);
      && Valid(st.server)
      && CurrentOf(st.server, p) == None
      && (CurrentOf(s, p) == None ==> st == Outcome(s, [], false))
      && (forall r :: CurrentOf(s, p) == Some(r) ==> st.out == LeaveNotices(s, p) + [Delivery(p, Left(r))])
      && (forall q :: q != p ==> CurrentOf(st.server, q) == CurrentOf(s, q))
  {
    if CurrentOf(s, p).Some? {
      DetachValid(s, p);
    }
  }

  /** `chat` from a peer in a room with a non-empty text: one copy to every
      member of that room, the sender included, and to nobody else; the
      registry does not change. */
  lemma ChatSpec(s: Server, p: PeerId, v: Json, now: int)
    requires Valid(s) && p in s.current && CurrentOf(s, p).Some? && IsNonEmptyString(v)
    ensures var st := Handle(s, p, Parsed(Chat(v)), now);
      && st.server == s
      && (forall q :: multiset(st.out)[Delivery(q, ChatFrom(p, v.s, now))] ==
            if CurrentOf(s, q) == CurrentOf(s, p) then 1 else 0)
      && (forall d :: d in st.out ==> d.signal == ChatFrom(p, v.s, now))
  {
    var r := CurrentOf(s, p).value;
    assert p in Members(s.rooms, r) <==> CurrentOf(s, p) == Some(r);
    NotifyCountAll(s.rooms[r], ChatFrom(p, v.s, now));
    forall q ensures q in s.rooms[r] <==> CurrentOf(s, q) == Some(r) {
      assert q in Members(s.rooms, r) <==> CurrentOf(s, q) == Some(r);
    }
  }
}
