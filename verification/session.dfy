/** The room page's record for one remote peer (`peers[id]` in
    public/app.js): the RTCPeerConnection reduced to whether a local and a
    remote description have been set and the candidates handed to it, plus
    the FIFO buffer of candidates that arrived before the remote
    description. */
module Session {
  import opened Protocol

  /** One `addIceCandidate` call: the candidate, and whether the browser
      accepted it (a rejection is caught and logged, nothing more). */
  datatype Attempt = Attempt(candidate: Json, accepted: bool)

  datatype Connection = Connection(hasLocal: bool, hasRemote: bool, applied: seq<Attempt>, buffer: seq<Json>)

  /** The decisions the browser's negotiation primitive makes, which the
      core only consumes: whether a candidate or a remote description is
      accepted, and the local offer or answer it produces for a peer.
      They depend on the payload alone, not on the connection's state. */
  datatype Browser = Browser(
    acceptsCandidate: Json -> bool,
    acceptsRemote: Json -> bool,
    offerFor: PeerId -> Json,
    answerFor: PeerId -> Json)

  /** The record `createPeerConnection` installs. */
  const Fresh := Connection(false, false, [], [])

  /** The candidates handed to the connection, in order. */
  function Candidates(log: seq<Attempt>): (cs: seq<Json>)
    ensures |cs| == |log|
    ensures forall i :: 0 <= i < |log| ==> cs[i] == log[i].candidate
  {
    if log == [] then [] else [log[0].candidate] + Candidates(log[1..])
  }

  /** Every candidate this connection has received, in arrival order:
      those already handed over, then those still waiting. */
  function Arrivals(c: Connection): seq<Json> {
    Candidates(c.applied) + c.buffer
  }

  /** Candidates are waiting only while there is no remote description,
      and none is handed over before one exists. */
  predicate Settled(c: Connection) {
    && (c.hasRemote ==> c.buffer == [])
    && (c.applied != [] ==> c.hasRemote)
  }

  /** The loop of `flushIceCandidates`: take candidates off the front of
      the buffer one at a time and try each, whatever became of the one
      before. */
  function Drain(applied: seq<Attempt>, buffer: seq<Json>, accepts: Json -> bool): (log: seq<Attempt>)
    ensures |log| == |applied| + |buffer|
    ensures log[..|applied|] == applied
    ensures forall i :: 0 <= i < |buffer| ==> log[|applied| + i] == Attempt(buffer[i], accepts(buffer[i]))
    decreases |buffer|
  {
    if buffer == [] then applied
    else Drain(applied + [Attempt(buffer[0], accepts(buffer[0]))], buffer[1..], accepts)
  }

  /** `flushIceCandidates` on an existing record. */
  function Flush(c: Connection, accepts: Json -> bool): Connection {
    c.(applied := Drain(c.applied, c.buffer, accepts), buffer := [])
  }

  /** A successful `setRemoteDescription`. */
  function SetRemote(c: Connection): Connection {
    c.(hasRemote := true)
  }

  /** The `ice-candidate` case for a known peer: buffer while there is no
      remote description, otherwise hand the candidate over at once. */
  function Receive(c: Connection, candidate: Json, accepts: Json -> bool): Connection {
    if !c.hasRemote then c.(buffer := c.buffer + [candidate])
    else c.(applied := c.applied + [Attempt(candidate, accepts(candidate))])
  }

  // ------------------------------------------------------------------ lemmas

  lemma {:induction false} CandidatesAppend(a: seq<Attempt>, b: seq<Attempt>)
    ensures Candidates(a + b) == Candidates(a) + Candidates(b)
  {
    if a == [] {
      assert a + b == b;
    } else {
      assert (a + b)[1..] == a[1..] + b;
      CandidatesAppend(a[1..], b);
    }
  }

  /** Flushing hands over the buffer in FIFO order: afterwards nothing
      waits, the log is the old log followed by one attempt per buffered
      candidate, and a rejected candidate does not stop the rest. */
  lemma FlushSpec(c: Connection, accepts: Json -> bool)
    ensures var f := Flush(c, accepts);
      && f.buffer == []
      && f.hasLocal == c.hasLocal && f.hasRemote == c.hasRemote
      && Candidates(f.applied) == Candidates(c.applied) + c.buffer
      && (forall i :: 0 <= i < |c.buffer| ==> f.applied[|c.applied| + i].accepted == accepts(c.buffer[i]))
      && Arrivals(f) == Arrivals(c)
  {
    var f := Flush(c, accepts);
    var tail := f.applied[|c.applied|..];
    assert f.applied == c.applied + tail;
    CandidatesAppend(c.applied, tail);
    assert Candidates(tail) == c.buffer;
  }

  /** A received candidate waits, at the end of the buffer, exactly when
      there is no remote description; otherwise it is handed over at once
      and the buffer is untouched. On a settled record it joins the end of
      the arrival order either way. */
  lemma ReceiveSpec(c: Connection, candidate: Json, accepts: Json -> bool)
    ensures var c' := Receive(c, candidate, accepts);
      && (!c.hasRemote <==> c'.buffer == c.buffer + [candidate])
      && (!c.hasRemote ==> c'.applied == c.applied)
      && (c.hasRemote ==> c'.buffer == c.buffer && c'.applied == c.applied + [Attempt(candidate, accepts(candidate))])
      && (Settled(c) ==> Settled(c') && Arrivals(c') == Arrivals(c) + [candidate])
  {
    var c' := Receive(c, candidate, accepts);
    if c.hasRemote {
      CandidatesAppend(c.applied, [Attempt(candidate, accepts(candidate))]);
      assert c'.buffer != c.buffer + [candidate] by {
        assert |c'.buffer| != |c.buffer + [candidate]|;
      }
    }
  }

  /** Setting the remote description and flushing, as the `offer` and
      `answer` cases do, settles the record and hands over every waiting
      candidate in arrival order. */
  lemma SetRemoteThenFlush(c: Connection, accepts: Json -> bool)
    requires Settled(c)
    ensures var f := Flush(SetRemote(c), accepts);
      && Settled(f) && f.hasRemote
      && Candidates(f.applied) == Arrivals(c)
      && Arrivals(f) == Arrivals(c)
  {
    FlushSpec(SetRemote(c), accepts);
  }
}
