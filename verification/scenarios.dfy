/** Two concrete histories: three peers joining one room in turn, then
    one of them dropping its connection without saying `leave`; and the
    room pages of the newcomer and of an earlier member meeting it. */
module Scenarios {
  import opened Protocol
  import opened Registry
  import opened Session
  import opened Coordinator
  import opened RegistryProps
  import opened CoordinatorProps

  const Room: RoomId := "demo7k2x1p"

  function JoinMsg(r: RoomId): Inbound {
    Parsed(Join(Str(r)))
  }

  /** The registry once A, B and C have connected and joined in that order. */
  function ThreeJoined(): Server {
    var s1 := Connect(Connect(Connect(Empty, "A").server, "B").server, "C").server;
    var s2 := Handle(s1, "A", JoinMsg(Room), 0).server;
    Handle(s2, "B", JoinMsg(Room), 0).server
  }

  /** The registry once A, B and C have connected, none of them in a room. */
  lemma ThreeConnected()
    ensures var s := Connect(Connect(Connect(Empty, "A").server, "B").server, "C").server;
      && Valid(s) && s.rooms == map[]
      && "A" in s.current && "B" in s.current && "C" in s.current
      && CurrentOf(s, "A") == None && CurrentOf(s, "B") == None && CurrentOf(s, "C") == None
  {
    assert Valid(Empty);
    ConnectValid(Empty, "A");
    ConnectValid(Connect(Empty, "A").server, "B");
    ConnectValid(Connect(Connect(Empty, "A").server, "B").server, "C");
  }

  /** A's and then B's join: the room holds A then B. */
  lemma TwoJoined()
    ensures var s := ThreeJoined();
      && Valid(s) && "C" in s.current && CurrentOf(s, "C") == None
      && CurrentOf(s, "B") == Some(Room)
      && Members(s.rooms, Room) == ["A", "B"]
  {
    ThreeConnected();
    var s0 := Connect(Connect(Connect(Empty, "A").server, "B").server, "C").server;
    JoinRoomValid(s0, "A", Room);
    var s1 := Handle(s0, "A", JoinMsg(Room), 0).server;
    assert Members(s0.rooms, Room) == [];
    assert Members(s1.rooms, Room) == ["A"];
    JoinRoomValid(s1, "B", Room);
    assert Without(["A"], "B") == ["A"];
  }

  /** C joins a room holding A then B. */
  lemma JoinAfterTwo(s: Server)
    requires Valid(s) && "C" in s.current && CurrentOf(s, "C") == None
    requires Members(s.rooms, Room) == ["A", "B"]
    ensures var st := Handle(s, "C", JoinMsg(Room), 0);
      && st.out == [Delivery("C", RoomJoined(Room, "C", ["A", "B"])), Delivery("A", PeerJoined("C")), Delivery("B", PeerJoined("C"))]
      && Members(st.server.rooms, Room) == ["A", "B", "C"]
      && Valid(st.server) && "B" in st.server.current
  {
    var st := JoinRoom(s, "C", Room);
    assert Handle(s, "C", JoinMsg(Room), 0) == st;
    assert "B" in s.current by {
      assert "B" in Members(s.rooms, Room) <==> CurrentOf(s, "B") == Some(Room);
    }
    JoinFromNoRoom(s, "C", Room);
    assert st.out == [Delivery("C", RoomJoined(Room, "C", ["A", "B"]))] + Notify(["A", "B"], PeerJoined("C"));
    NoticesForC();
    assert Members(st.server.rooms, Room) == ["A", "B"] + ["C"];
  }

  lemma NoticesForC()
    ensures Without(["A", "B"], "C") == ["A", "B"]
    ensures Notify(["A", "B"], PeerJoined("C")) == [Delivery("A", PeerJoined("C")), Delivery("B", PeerJoined("C"))]
  {
    assert Without(["B"], "C") == ["B"];
  }

  /** B drops out of a room holding A, B and C. */
  lemma DropMiddle(s: Server)
    requires Valid(s) && "B" in s.current
    requires Members(s.rooms, Room) == ["A", "B", "C"]
    ensures var st := Close(s, "B");
      && st.out == [Delivery("A", PeerLeft("B")), Delivery("C", PeerLeft("B"))]
      && Members(st.server.rooms, Room) == ["A", "C"]
  {
    assert "B" in Members(s.rooms, Room);
    assert CurrentOf(s, "B") == Some(Room);
    CloseValid(s, "B");
    assert Without(["A", "B", "C"], "B") == ["A", "C"];
    assert Notify(["A", "C"], PeerLeft("B")) == [Delivery("A", PeerLeft("B")), Delivery("C", PeerLeft("B"))];
  }

  /** C's join: its snapshot is A then B, and A and B each hear of C once. */
  lemma ThirdJoin()
    ensures var s := ThreeJoined();
      var st := Handle(s, "C", JoinMsg(Room), 0);
      && st.out == [Delivery("C", RoomJoined(Room, "C", ["A", "B"])), Delivery("A", PeerJoined("C")), Delivery("B", PeerJoined("C"))]
      && Members(st.server.rooms, Room) == ["A", "B", "C"]
  {
    TwoJoined();
    JoinAfterTwo(ThreeJoined());
  }

  /** B's connection drops: A and C each hear B has left, and the room
      keeps A and C in their order. */
  lemma SecondDrops()
    ensures var s := Handle(ThreeJoined(), "C", JoinMsg(Room), 0).server;
      && "B" in s.current
      && var st := Close(s, "B");
      && st.out == [Delivery("A", PeerLeft("B")), Delivery("C", PeerLeft("B"))]
      && Members(st.server.rooms, Room) == ["A", "C"]
  {
    TwoJoined();
    JoinAfterTwo(ThreeJoined());
    DropMiddle(Handle(ThreeJoined(), "C", JoinMsg(Room), 0).server);
  }

  /** Browser verdicts in which every description and candidate is
      accepted. */
  const Agreeable := Browser(_ => true, _ => true, p => Str("offer for " + p), p => Str("answer for " + p))

  /** C's page, connected, hears `room-joined` listing A then B: it
      offers to A and then to B, and to nobody else. */
  lemma NewcomerOffers(c: Client)
    requires c.socket == Open && c.outbox == []
    ensures var d := HandleSignal(c, RoomJoined(Room, "C", ["A", "B"]), Agreeable);
      d.outbox == [Offer(Str("A"), Str("offer for A")), Offer(Str("B"), Str("offer for B"))]
  {
    OfferAllSpec(c, ["A", "B"], Agreeable);
    OffersToAB();
  }

  lemma OffersToAB()
    ensures Offers(["A", "B"], Agreeable) == [Offer(Str("A"), Str("offer for A")), Offer(Str("B"), Str("offer for B"))]
  {
    assert Agreeable.offerFor("A") == Str("offer for A");
    assert Agreeable.offerFor("B") == Str("offer for B");
    assert Offers(["B"], Agreeable) == [Offer(Str("B"), Str("offer for B"))];
  }

  /** Having no records before, it then holds a record with a local offer
      for each of A and B and shows three participants. */
  lemma NewcomerRecords(c: Client)
    requires c.peers == map[]
    ensures var d := HandleSignal(c, RoomJoined(Room, "C", ["A", "B"]), Agreeable);
      && d.peers == map["A" := Connection(true, false, [], []), "B" := Connection(true, false, [], [])]
      && d.shownCount == Some(3)
  {
    OfferAllSpec(c, ["A", "B"], Agreeable);
    var d := HandleSignal(c, RoomJoined(Room, "C", ["A", "B"]), Agreeable);
    assert d.peers == map["A" := Connection(true, false, [], []), "B" := Connection(true, false, [], [])];
    TwoRemotes(d.peers);
  }

  lemma TwoRemotes(m: map<PeerId, Connection>)
    requires m == map["A" := Connection(true, false, [], []), "B" := Connection(true, false, [], [])]
    ensures CountShown(m) == Some(3)
  {
    assert m.Keys == {"A", "B"};
  }

  /** A's page hears C join and sends nothing; then C's offer arrives and
      A sends exactly one answer, to C, without an offer of its own. */
  lemma MemberAnswers(c: Client)
    requires c.socket == Open && c.peers == map[] && c.outbox == []
    ensures var d := HandleSignal(HandleSignal(c, PeerJoined("C"), Agreeable), OfferFrom("C", Str("offer for A")), Agreeable);
      && d.outbox == [Answer(Str("C"), Str("answer for C"))]
      && d.peers == map["C" := Connection(true, true, [], [])]
  {
    OfferSpec(c, "C", Str("offer for A"), Agreeable);
    assert Agreeable.acceptsRemote(Str("offer for A"));
    assert Agreeable.answerFor("C") == Str("answer for C");
    var d := HandleSignal(c, OfferFrom("C", Str("offer for A")), Agreeable);
    assert d.peers == map["C" := Connection(true, true, [], [])];
  }
}
