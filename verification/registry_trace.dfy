/** Room membership over a whole history of connection events: whatever
    sequence of connects, messages and disconnects the server sees, a room
    holds exactly the peers whose last join named it and who have not
    left or disconnected since. */
module RegistryTrace {
  import opened Protocol
  import opened Registry
  import opened RegistryProps

  /** What the server can observe on its connections. */
  datatype Event =
    | Connected(peer: PeerId)
    | Received(peer: PeerId, message: Inbound, now: int)
    | Closed(peer: PeerId)

  /** One event, or None when the history cannot go on: a connection
      opened under an id already in use, traffic on a connection that is
      not open, or a message whose handler threw. */
  function Apply(s: Server, e: Event): Option<Server> {
    match e
    case Connected(p) => if p in s.current then None else Some(Connect(s, p).server)
    case Received(p, m, now) =>
      if p !in s.current then None
      else
        var st := Handle(s, p, m, now);
        if st.thrown then None else Some(st.server)
    case Closed(p) => if p in s.current then Some(Close(s, p).server) else None
  }

  /** The registry after a history, starting from a server with no rooms
      and no connections. */
  function Run(es: seq<Event>): Option<Server>
    decreases |es|
  {
    if es == [] then Some(Empty)
    else
      match Run(es[..|es| - 1])
      case None => None
      case Some(s) => Apply(s, es[|es| - 1])
  }

  /** How a message bears on its sender's membership. */
  datatype Effect = Enters(room: RoomId) | Exits | NoEffect

  function EffectOn(m: Inbound): Effect {
    match m
    case InvalidJson => NoEffect
    case NullJson => NoEffect
    case Parsed(req) =>
      match req
      case Join(v) => if IsNonEmptyString(v) then Enters(v.s) else NoEffect
      case Leave => Exits
      case _ => NoEffect
  }

  /** The reference: the room named by the peer's last successful join,
      unless a later `leave`, disconnect or reconnect ended it. */
  function ExpectedRoom(es: seq<Event>, p: PeerId): Option<RoomId>
    decreases |es|
  {
    if es == [] then None
    else
      var e := es[|es| - 1];
      var before := ExpectedRoom(es[..|es| - 1], p);
      if e.peer != p then before
      else
        match e
        case Connected(_) => None
        case Closed(_) => None
        case Received(_, m, _) =>
          match EffectOn(m)
          case Enters(r) => Some(r)
          case Exits => None
          case NoEffect => before
  }

  /** One message changes the current room of its sender only, and only
      as its effect says. */
  lemma HandleCurrent(s: Server, p: PeerId, m: Inbound, now: int)
    requires Valid(s) && p in s.current
    ensures var s' := Handle(s, p, m, now).server;
      && Valid(s')
      && (forall q :: q != p ==> CurrentOf(s', q) == CurrentOf(s, q))
      && CurrentOf(s', p) == match EffectOn(m)
           case Enters(r) => Some(r)
           case Exits => None
           case NoEffect => CurrentOf(s, p)
  {
    HandleValid(s, p, m, now);
    match m
    case InvalidJson =>
    case NullJson =>
    case Parsed(req) =>
      match req
      case Join(v) =>
        if IsNonEmptyString(v) { JoinRoomValid(s, p, v.s); }
      case Leave => LeaveSpec(s, p, now);
      case _ =>
  }

  lemma {:induction false} RunCurrent(es: seq<Event>)
    requires Run(es).Some?
    ensures Valid(Run(es).value)
    ensures forall p :: CurrentOf(Run(es).value, p) == ExpectedRoom(es, p)
    decreases |es|
  {
    if es == [] {
      assert Valid(Empty);
    } else {
      var pre := es[..|es| - 1];
      var e := es[|es| - 1];
      RunCurrent(pre);
      var s := Run(pre).value;
      var s' := Run(es).value;
      match e
      case Connected(p) =>
        ConnectValid(s, p);
      case Received(p, m, now) =>
        HandleCurrent(s, p, m, now);
      case Closed(p) =>
        CloseValid(s, p);
    }
  }

  /** For any possible history, a room's members are exactly the peers
      whose last join named it and who have not left or disconnected
      since. */
  lemma Membership(es: seq<Event>, r: RoomId, p: PeerId)
    requires Run(es).Some?
    ensures p in Members(Run(es).value.rooms, r) <==> ExpectedRoom(es, p) == Some(r)
  {
    RunCurrent(es);
  }

  // ------------------------------------------------------------ join order

  /** The position, counted from 1, of the event by which `p` last entered
      a room; 0 when it never did. */
  function JoinedAt(es: seq<Event>, p: PeerId): (n: nat)
    ensures n <= |es|
    decreases |es|
  {
    if es == [] then 0
    else
      var e := es[|es| - 1];
      if e.Received? && e.peer == p && EffectOn(e.message).Enters? then |es|
      else JoinedAt(es[..|es| - 1], p)
  }

  /** `xs` lists peers in the order in which they entered their room. */
  predicate JoinOrdered(es: seq<Event>, xs: seq<PeerId>) {
    forall i, j :: 0 <= i < j < |xs| ==> JoinedAt(es, xs[i]) < JoinedAt(es, xs[j])
  }

  /** One more event moves only the position of the peer it lets enter a
      room, to the end. */
  lemma LastEventKeys(pre: seq<Event>, e: Event, es: seq<Event>)
    requires es == pre + [e]
    ensures forall q :: !(e.Received? && e.peer == q && EffectOn(e.message).Enters?) ==> JoinedAt(es, q) == JoinedAt(pre, q)
    ensures e.Received? && EffectOn(e.message).Enters? ==> JoinedAt(es, e.peer) == |es|
  {
    assert es[..|es| - 1] == pre;
  }

  lemma WithoutJoinOrdered(es: seq<Event>, xs: seq<PeerId>, p: PeerId)
    requires JoinOrdered(es, xs)
    ensures JoinOrdered(es, Without(xs, p))
  {
    var key := q => JoinedAt(es, q);
    assert Ascending(xs, key);
    WithoutAscending(xs, p, key);
    assert Ascending(Without(xs, p), key);
  }

  /** `key` strictly increases along `xs`. */
  predicate Ascending(xs: seq<PeerId>, key: PeerId -> nat) {
    forall i, j :: 0 <= i < j < |xs| ==> key(xs[i]) < key(xs[j])
  }

  /** Deleting a peer keeps the others in their relative order, whatever
      order `key` ranks them in. */
  lemma {:induction false} WithoutAscending(xs: seq<PeerId>, p: PeerId, key: PeerId -> nat)
    requires Ascending(xs, key)
    ensures Ascending(Without(xs, p), key)
    decreases |xs|
  {
    if xs != [] {
      var tail := xs[1..];
      assert Ascending(tail, key) by {
        forall i, j | 0 <= i < j < |tail| ensures key(tail[i]) < key(tail[j]) {
          assert tail[i] == xs[i + 1] && tail[j] == xs[j + 1];
        }
      }
      WithoutAscending(tail, p, key);
      if xs[0] != p {
        var ys := Without(tail, p);
        assert Ascending(ys, key);
        forall k | 0 <= k < |ys| ensures key(xs[0]) < key(ys[k]) {
          assert ys[k] in tail;
          var m :| 0 <= m < |tail| && tail[m] == ys[k];
          assert xs[m + 1] == ys[k];
        }
        AscendingCons(xs[0], ys, key);
      }
    }
  }

  lemma AscendingCons(x: PeerId, ys: seq<PeerId>, key: PeerId -> nat)
    requires Ascending(ys, key)
    requires forall k :: 0 <= k < |ys| ==> key(x) < key(ys[k])
    ensures Ascending([x] + ys, key)
  {
    var zs := [x] + ys;
    forall i, j | 0 <= i < j < |zs| ensures key(zs[i]) < key(zs[j]) {
      assert zs[j] == ys[j - 1];
      if i > 0 {
        assert zs[i] == ys[i - 1];
      }
    }
  }

  lemma SameKeys(pre: seq<Event>, es: seq<Event>, xs: seq<PeerId>)
    requires JoinOrdered(pre, xs)
    requires forall i :: 0 <= i < |xs| ==> JoinedAt(es, xs[i]) == JoinedAt(pre, xs[i])
    ensures JoinOrdered(es, xs)
  {
  }

  /** A room after one event lists its members in join order, given that
      every room did before. */
  lemma ApplyOrdered(pre: seq<Event>, e: Event, es: seq<Event>, s: Server, r: RoomId)
    requires es == pre + [e]
    requires Valid(s) && Apply(s, e).Some?
    requires forall r' :: JoinOrdered(pre, Members(s.rooms, r'))
    ensures JoinOrdered(es, Members(Apply(s, e).value.rooms, r))
  {
    var before := Members(s.rooms, r);
    assert JoinOrdered(pre, before);
    match e
    case Connected(p) =>
      LastEventKeys(pre, e, es);
      SameKeys(pre, es, before);
    case Closed(p) =>
      LeaveRooms(s, p, 0);
      OthersOrdered(pre, e, es, before, p);
    case Received(p, m, now) =>
      ReceivedOrdered(pre, e, es, s, r);
  }

  /** The members other than `p` keep their order when the event is `p`'s. */
  lemma OthersOrdered(pre: seq<Event>, e: Event, es: seq<Event>, xs: seq<PeerId>, p: PeerId)
    requires es == pre + [e] && e.peer == p
    requires JoinOrdered(pre, xs)
    ensures JoinOrdered(es, Without(xs, p))
    ensures forall i :: 0 <= i < |Without(xs, p)| ==> JoinedAt(es, Without(xs, p)[i]) < |es|
  {
    var rest := Without(xs, p);
    LastEventKeys(pre, e, es);
    WithoutJoinOrdered(pre, xs, p);
    forall i | 0 <= i < |rest| ensures JoinedAt(es, rest[i]) == JoinedAt(pre, rest[i]) {
      assert rest[i] in rest;
    }
    SameKeys(pre, es, rest);
  }

  lemma ReceivedOrdered(pre: seq<Event>, e: Event, es: seq<Event>, s: Server, r: RoomId)
    requires es == pre + [e] && e.Received?
    requires Valid(s) && Apply(s, e).Some?
    requires forall r' :: JoinOrdered(pre, Members(s.rooms, r'))
    ensures JoinOrdered(es, Members(Apply(s, e).value.rooms, r))
  {
    var p, m, now := e.peer, e.message, e.now;
    var s' := Handle(s, p, m, now).server;
    assert Apply(s, e).value == s';
    var before := Members(s.rooms, r);
    var after := Members(s'.rooms, r);
    assert JoinOrdered(pre, before);
    match EffectOn(m)
    case NoEffect =>
      assert after == before by {
        NoEffectKeeps(s, p, m, now);
      }
      LastEventKeys(pre, e, es);
      SameKeys(pre, es, before);
    case Exits =>
      assert after == Without(before, p) by {
        assert m == Parsed(Leave);
        LeaveRooms(s, p, now);
      }
      OthersOrdered(pre, e, es, before, p);
    case Enters(r0) =>
      assert s' == JoinRoom(s, p, r0).server by {
        EntersJoins(s, p, m, now, r0);
      }
      JoinRooms(s, p, r0);
      OthersOrdered(pre, e, es, before, p);
      if r == r0 {
        LastEventKeys(pre, e, es);
        AppendLatest(es, Without(before, p), p);
      }
  }

  /** A message whose effect is to enter a room is a `join` naming it. */
  lemma EntersJoins(s: Server, p: PeerId, m: Inbound, now: int, r0: RoomId)
    requires p in s.current && EffectOn(m) == Enters(r0)
    ensures Handle(s, p, m, now) == JoinRoom(s, p, r0)
  {
  }

  lemma AppendLatest(es: seq<Event>, xs: seq<PeerId>, p: PeerId)
    requires JoinOrdered(es, xs) && JoinedAt(es, p) == |es|
    requires forall i :: 0 <= i < |xs| ==> JoinedAt(es, xs[i]) < |es|
    ensures JoinOrdered(es, xs + [p])
  {
  }

  /** A message with no bearing on membership leaves the registry as it
      was. */
  lemma NoEffectKeeps(s: Server, p: PeerId, m: Inbound, now: int)
    requires p in s.current && EffectOn(m) == NoEffect
    ensures Handle(s, p, m, now).server == s
  {
  }

  lemma {:induction false} RunOrdered(es: seq<Event>)
    requires Run(es).Some?
    ensures forall r :: JoinOrdered(es, Members(Run(es).value.rooms, r))
    decreases |es|
  {
    if es != [] {
      var pre, e := es[..|es| - 1], es[|es| - 1];
      assert es == pre + [e];
      RunOrdered(pre);
      RunCurrent(pre);
      var s := Run(pre).value;
      forall r ensures JoinOrdered(es, Members(Run(es).value.rooms, r)) {
        ApplyOrdered(pre, e, es, s, r);
      }
    }
  }

  /** For any possible history, a room lists exactly the peers whose last
      join named it and who have not left or disconnected since, in the
      order of those joins. */
  lemma RoomInJoinOrder(es: seq<Event>, r: RoomId)
    requires Run(es).Some?
    ensures var m := Members(Run(es).value.rooms, r);
      && (forall p :: p in m <==> ExpectedRoom(es, p) == Some(r))
      && (forall i, j :: 0 <= i < j < |m| ==> JoinedAt(es, m[i]) < JoinedAt(es, m[j]))
  {
    RunCurrent(es);
    RunOrdered(es);
  }
}
