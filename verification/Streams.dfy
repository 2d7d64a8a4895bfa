/** Whole histories of reads on many sockets: what each socket's byte stream contributes. */
module Streams {
  import opened Types
  import opened Framing
  import opened Ingest

  /** One read: these bytes arrived on this socket. */
  datatype Read<S> = Read(socket: S, chunk: seq<byte>)

  /** The requests of one read, as arrivals. */
  function From<S>(socket: S, messages: seq<OMClientRequest>): seq<Arrival<S>> {
    seq(|messages|, i requires 0 <= i < |messages| => Arrival(socket, messages[i]))
  }

  /** What a socket keeps between its reads. */
  function Kept<S(==)>(residues: map<S, seq<byte>>, s: S): seq<byte> {
    if s in residues then residues[s] else []
  }

  /** What the callbacks of a history of reads see, in the order in which they see it. */
  function ArrivalsOf<S(==)>(residues: map<S, seq<byte>>, history: seq<Read<S>>): seq<Arrival<S>>
    decreases |history|
  {
    if history == [] then []
    else
      var r := history[0];
      var bytes := Kept(residues, r.socket) + r.chunk;
      From(r.socket, Requests(bytes)) + ArrivalsOf(residues[r.socket := Residue(bytes)], history[1..])
  }

  /** All bytes that arrived on one socket. */
  function StreamOf<S(==)>(history: seq<Read<S>>, s: S): seq<byte> {
    if history == [] then []
    else (if history[0].socket == s then history[0].chunk else []) + StreamOf(history[1..], s)
  }

  /** The messages that arrived on one socket. */
  function MessagesFrom<S(==)>(arrivals: seq<Arrival<S>>, s: S): seq<OMClientRequest> {
    if arrivals == [] then []
    else
      var n := |arrivals| - 1;
      MessagesFrom(arrivals[..n], s) + (if arrivals[n].socket == s then [arrivals[n].message] else [])
  }

  lemma {:induction false} MessagesConcat<S>(a: seq<Arrival<S>>, b: seq<Arrival<S>>, s: S)
    ensures MessagesFrom(a + b, s) == MessagesFrom(a, s) + MessagesFrom(b, s)
    decreases |b|
  {
    if b == [] {
      assert a + b == a;
    } else {
      var n := |b| - 1;
      assert (a + b)[..|a + b| - 1] == a + b[..n];
      MessagesConcat(a, b[..n], s);
    }
  }

  lemma {:induction false} MessagesOfRead<S>(socket: S, messages: seq<OMClientRequest>, s: S)
    ensures MessagesFrom(From(socket, messages), s) == if socket == s then messages else []
    decreases |messages|
  {
    if messages != [] {
      var n := |messages| - 1;
      MessagesOfRead(socket, messages[..n], s);
      assert From(socket, messages)[..n] == From(socket, messages[..n]);
      assert messages[..n] + [messages[n]] == messages;
    }
  }

  /** Reads of different sockets may be interleaved and cut in any way: the messages of a socket are
      the blocks of its own byte stream. */
  lemma {:induction false} SocketsDoNotMix<S>(residues: map<S, seq<byte>>, history: seq<Read<S>>, s: S)
    requires |Kept(residues, s)| < FRAME_SIZE
    ensures MessagesFrom(ArrivalsOf(residues, history), s) == Requests(Kept(residues, s) + StreamOf(history, s))
    decreases |history|
  {
    hide Requests, Residue, MessagesFrom, From;
    var kept := Kept(residues, s);
    if history == [] {
      NoMessages(s);
      NoRequests(kept);
      assert kept + [] == kept;
    } else {
      var r := history[0];
      var bytes := Kept(residues, r.socket) + r.chunk;
      var tail := StreamOf(history[1..], s);
      SocketsDoNotMix(residues[r.socket := Residue(bytes)], history[1..], s);
      MessagesConcat(From(r.socket, Requests(bytes)), ArrivalsOf(residues[r.socket := Residue(bytes)], history[1..]),
          s);
      MessagesOfRead(r.socket, Requests(bytes), s);
      if r.socket == s {
        OwnRead(kept, r.chunk, tail);
      } else {
        assert [] + tail == tail;
        assert [] + Requests(kept + tail) == Requests(kept + tail);
      }
    }
  }

  lemma {:induction false} OwnRead(kept: seq<byte>, chunk: seq<byte>, tail: seq<byte>)
    ensures Requests(kept + (chunk + tail)) == Requests(kept + chunk) + Requests(Residue(kept + chunk) + tail)
  {
    hide Requests, Residue;
    ChunksJoin(kept + chunk, tail);
    assert kept + (chunk + tail) == (kept + chunk) + tail;
  }

  lemma NoMessages<S>(s: S)
    ensures MessagesFrom<S>([], s) == []
  {
  }

  // ----- what is accepted depends on one stream

  /** The requests of one client that carry 1, 2, 3, ..., skipping every other one. */
  function Picked(messages: seq<OMClientRequest>, client: nat): seq<OMClientRequest> {
    if messages == [] then []
    else
      var n := |messages| - 1;
      var p := Picked(messages[..n], client);
      if messages[n].request.client == client && messages[n].seqNum == |p| + 1 then p + [messages[n]] else p
  }

  lemma {:induction false} PickNext(messages: seq<OMClientRequest>, m: OMClientRequest, client: nat)
    ensures var p := Picked(messages, client);
            Picked(messages + [m], client) == if m.request.client == client && m.seqNum == |p| + 1 then p + [m] else p
  {
    assert (messages + [m])[..|messages|] == messages;
  }

  lemma {:induction false} NothingToPick<S>(arrivals: seq<Arrival<S>>, s: S, client: nat)
    requires Mine(arrivals, client) == []
    ensures Picked(MessagesFrom(arrivals, s), client) == []
    decreases |arrivals|
  {
    if arrivals != [] {
      var n := |arrivals| - 1;
      NothingToPick(arrivals[..n], s, client);
      PickNext(MessagesFrom(arrivals[..n], s), arrivals[n].message, client);
      assert MessagesFrom(arrivals[..n], s) + [] == MessagesFrom(arrivals[..n], s);
    }
  }

  /** What has been accepted from a client is picked from the stream of the socket it is bound to. */
  ghost predicate PickedFromOne<S(!new)>(arrivals: seq<Arrival<S>>, d: Served<S>, client: nat)
    requires WellSized(d.gate) && client < ME_MAX_NUM_CLIENTS
  {
    match d.gate.sockets[client]
    case Unbound => Mine(arrivals, client) == [] && Mine(d.accepted, client) == []
    case Bound(s) => Mine(d.accepted, client) == From(s, Picked(MessagesFrom(arrivals, s), client))
  }

  lemma ArrivalIsPicked<S(!new)>(arrivals: seq<Arrival<S>>, d: Served<S>, a: Arrival<S>, client: nat)
    requires WellSized(d.gate) && client < ME_MAX_NUM_CLIENTS && ClientOf(a) < ME_MAX_NUM_CLIENTS
    requires InSequence(arrivals, d, client) && PickedFromOne(arrivals, d, client)
    ensures var e := Arrive(d.gate, a);
            PickedFromOne(arrivals + [a], Served(e.gate, d.accepted + e.accepted), client)
  {
    hide Mine, MessagesFrom, Picked;
    var e := Arrive(d.gate, a);
    MineOfOne(arrivals, a, client);
    MineOfOne(d.accepted, a, client);
    var mine := Mine(d.accepted, client);
    if e.gate.sockets[client].Bound? {
      var s := e.gate.sockets[client].socket;
      var ms := MessagesFrom(arrivals, s);
      MessagesConcat(arrivals, [a], s);
      OneMessage(a, s);
      PickNext(ms, a.message, client);
      assert ms + [] == ms;
      if d.gate.sockets[client].Unbound? {
        NothingToPick(arrivals, s, client);
      }
      assert From(s, Picked(ms, client) + [a.message]) == From(s, Picked(ms, client)) + [Arrival(s, a.message)];
    }
  }

  lemma OneMessage<S>(a: Arrival<S>, s: S)
    ensures MessagesFrom([a], s) == if a.socket == s then [a.message] else []
  {
    assert [a][..0] == [];
  }

  lemma {:induction false} AcceptedIsPicked<S(!new)>(arrivals: seq<Arrival<S>>, client: nat)
    requires ClientsInRange(arrivals) && client < ME_MAX_NUM_CLIENTS
    ensures PickedFromOne(arrivals, Serve(Opened(), arrivals), client)
    decreases |arrivals|
  {
    if arrivals != [] {
      var n := |arrivals| - 1;
      var front, last := arrivals[..n], arrivals[n];
      AcceptedIsPicked(front, client);
      ServedInSequence(front, client);
      var d := Serve(Opened(), front);
      ArrivalIsPicked(front, d, last, client);
      ServeConcat(Opened(), front, [last]);
      assert arrivals == front + [last];
      assert Serve(d.gate, [last]) == Arrive(d.gate, last) by {
        assert [last][1..] == [];
      }
    }
  }

  /** End to end, for any interleaving of reads on any sockets, cut anywhere: what is accepted from a
      client is a function of the bytes of the one socket the client is bound to. */
  lemma {:induction false} OneStreamDecides<S(!new)>(history: seq<Read<S>>, client: nat)
    requires client < ME_MAX_NUM_CLIENTS && ClientsInRange(ArrivalsOf(map[], history))
    ensures var d := Serve(Opened(), ArrivalsOf(map[], history));
            d.gate.sockets[client].Bound? ==>
              var s := d.gate.sockets[client].socket;
              Mine(d.accepted, client) == From(s, Picked(Requests(StreamOf(history, s)), client))
  {
    var arrivals := ArrivalsOf(map[], history);
    AcceptedIsPicked(arrivals, client);
    var b := Serve(Opened(), arrivals).gate.sockets[client];
    if b.Bound? {
      SocketsDoNotMix(map[], history, b.socket);
      assert [] + StreamOf(history, b.socket) == StreamOf(history, b.socket);
    }
  }
}
