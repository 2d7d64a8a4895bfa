/** Which requests the order server lets through: one socket per client, sequence numbers in order. */
module Ingest {
  import opened Types
  import opened Framing

  datatype Binding<S> = Unbound | Bound(socket: S)

  /** The server's arrays, by client id. */
  datatype Gate<S> = Gate(sockets: seq<Binding<S>>, expected: seq<nat>)

  /** A request as it arrives on a socket. */
  datatype Arrival<S> = Arrival(socket: S, message: OMClientRequest)

  datatype Served<S> = Served(gate: Gate<S>, accepted: seq<Arrival<S>>)

  predicate WellSized<S>(g: Gate<S>) {
    |g.sockets| == ME_MAX_NUM_CLIENTS && |g.expected| == ME_MAX_NUM_CLIENTS
  }

  function ClientOf<S>(a: Arrival<S>): nat {
    a.message.request.client
  }

  predicate ClientsInRange<S>(arrivals: seq<Arrival<S>>) {
    forall i :: 0 <= i < |arrivals| ==> ClientOf(arrivals[i]) < ME_MAX_NUM_CLIENTS
  }

  /** The first arrival binds the client to its socket. */
  function BindFirst<S>(g: Gate<S>, a: Arrival<S>): Gate<S>
    requires WellSized(g) && ClientOf(a) < ME_MAX_NUM_CLIENTS
  {
    var c := ClientOf(a);
    if g.sockets[c].Unbound? then g.(sockets := g.sockets[c := Bound(a.socket)]) else g
  }

  predicate Admits<S(==)>(g: Gate<S>, a: Arrival<S>)
    requires WellSized(g) && ClientOf(a) < ME_MAX_NUM_CLIENTS
  {
    var b := BindFirst(g, a);
    b.sockets[ClientOf(a)] == Bound(a.socket) && a.message.seqNum == b.expected[ClientOf(a)]
  }

  function Arrive<S(==)>(g: Gate<S>, a: Arrival<S>): (d: Served<S>)
    requires WellSized(g) && ClientOf(a) < ME_MAX_NUM_CLIENTS
    ensures WellSized(d.gate)
  {
    var b := BindFirst(g, a);
    var c := ClientOf(a);
    if Admits(g, a) then Served(b.(expected := b.expected[c := b.expected[c] + 1]), [a])
    else Served(b, [])
  }

  function Serve<S(==)>(g: Gate<S>, arrivals: seq<Arrival<S>>): (d: Served<S>)
    requires WellSized(g) && ClientsInRange(arrivals)
    ensures WellSized(d.gate)
    decreases |arrivals|
  {
    if arrivals == [] then Served(g, [])
    else
      var first := Arrive(g, arrivals[0]);
      var rest := Serve(first.gate, arrivals[1..]);
      Served(rest.gate, first.accepted + rest.accepted)
  }

  function Opened<S>(): (g: Gate<S>)
    ensures WellSized(g)
  {
    Gate(seq(ME_MAX_NUM_CLIENTS, _ => Unbound), seq(ME_MAX_NUM_CLIENTS, _ => 1))
  }

  lemma {:induction false} ServeConcat<S>(g: Gate<S>, a: seq<Arrival<S>>, b: seq<Arrival<S>>)
    requires WellSized(g) && ClientsInRange(a) && ClientsInRange(b)
    ensures ClientsInRange(a + b)
    ensures var d := Serve(g, a);
            var e := Serve(d.gate, b);
            Serve(g, a + b) == Served(e.gate, d.accepted + e.accepted)
    decreases |a|
  {
    hide Arrive;
    if a == [] {
      assert a + b == b;
    } else {
      assert (a + b)[1..] == a[1..] + b;
      ServeConcat(Arrive(g, a[0]).gate, a[1..], b);
    }
  }

  // ----- what every run keeps

  function Mine<S>(arrivals: seq<Arrival<S>>, client: nat): seq<Arrival<S>> {
    if arrivals == [] then []
    else
      var n := |arrivals| - 1;
      Mine(arrivals[..n], client) + (if ClientOf(arrivals[n]) == client then [arrivals[n]] else [])
  }

  lemma {:induction false} MineOfOne<S>(a: seq<Arrival<S>>, x: Arrival<S>, client: nat)
    ensures Mine(a + [x], client) == if ClientOf(x) == client then Mine(a, client) + [x] else Mine(a, client)
    ensures Mine(a + [], client) == Mine(a, client)
  {
    assert (a + [x])[..|a|] == a;
    assert a + [] == a;
  }

  /** The requests accepted for a client carry 1, 2, 3, ... and came from the socket that first used
      the client id, which is the one it stays bound to. */
  ghost predicate InSequence<S>(arrivals: seq<Arrival<S>>, d: Served<S>, client: nat)
    requires WellSized(d.gate) && client < ME_MAX_NUM_CLIENTS
  {
    var used, mine := Mine(arrivals, client), Mine(d.accepted, client);
    && d.gate.expected[client] == |mine| + 1
    && d.gate.sockets[client] == (if used == [] then Unbound else Bound(used[0].socket))
    && (forall i :: 0 <= i < |mine| ==> mine[i].message.seqNum == i + 1)
    && (forall i :: 0 <= i < |mine| ==> used != [] && mine[i].socket == used[0].socket)
  }

  lemma ArrivalKeepsSequence<S>(arrivals: seq<Arrival<S>>, d: Served<S>, a: Arrival<S>, client: nat)
    requires WellSized(d.gate) && client < ME_MAX_NUM_CLIENTS && ClientOf(a) < ME_MAX_NUM_CLIENTS
    requires InSequence(arrivals, d, client)
    ensures var e := Arrive(d.gate, a);
            InSequence(arrivals + [a], Served(e.gate, d.accepted + e.accepted), client)
  {
    hide Mine, Arrive;
    var e := Arrive(d.gate, a);
    MineOfOne(arrivals, a, client);
    MineOfOne(d.accepted, a, client);
    OwnMoved(d.gate, a);
    var used, mine := Mine(arrivals, client), Mine(d.accepted, client);
    if ClientOf(a) != client {
      OthersUnmoved(d.gate, a, client);
      assert Mine(arrivals + [a], client) == used;
      assert Mine(d.accepted + e.accepted, client) == mine;
    } else {
      assert (used + [a])[0] == if used == [] then a else used[0];
      assert Mine(d.accepted + e.accepted, client) == mine + e.accepted by {
        assert mine + [] == mine;
      }
    }
  }

  lemma OwnMoved<S>(g: Gate<S>, a: Arrival<S>)
    requires WellSized(g) && ClientOf(a) < ME_MAX_NUM_CLIENTS
    ensures var e, c := Arrive(g, a), ClientOf(a);
            && e.gate.sockets[c] == (if g.sockets[c].Unbound? then Bound(a.socket) else g.sockets[c])
            && (e.accepted == [] || e.accepted == [a])
            && e.gate.expected[c] == g.expected[c] + |e.accepted|
            && (e.accepted != [] ==> a.message.seqNum == g.expected[c] && e.gate.sockets[c] == Bound(a.socket))
  {
  }

  lemma OthersUnmoved<S>(g: Gate<S>, a: Arrival<S>, client: nat)
    requires WellSized(g) && client < ME_MAX_NUM_CLIENTS && ClientOf(a) < ME_MAX_NUM_CLIENTS && ClientOf(a) != client
    ensures Arrive(g, a).gate.sockets[client] == g.sockets[client]
            && Arrive(g, a).gate.expected[client] == g.expected[client]
  {
  }

  lemma {:induction false} ServedInSequence<S>(arrivals: seq<Arrival<S>>, client: nat)
    requires ClientsInRange(arrivals) && client < ME_MAX_NUM_CLIENTS
    ensures InSequence(arrivals, Serve(Opened(), arrivals), client)
    decreases |arrivals|
  {
    if arrivals != [] {
      var n := |arrivals| - 1;
      var front, last := arrivals[..n], arrivals[n];
      ServedInSequence(front, client);
      var d := Serve(Opened(), front);
      ArrivalKeepsSequence(front, d, last, client);
      ServeConcat(Opened(), front, [last]);
      assert arrivals == front + [last];
      assert Serve(d.gate, [last]) == Arrive(d.gate, last) by {
        assert [last][1..] == [];
      }
    }
  }

  /** Nothing is accepted that did not arrive, and the order of arrival is kept. */
  ghost predicate Subsequence<T>(s: seq<T>, t: seq<T>)
    decreases |t|
  {
    s == [] || (t != [] && (Subsequence(s, t[1..]) || (s[0] == t[0] && Subsequence(s[1..], t[1..]))))
  }

  lemma {:induction false} AcceptedArrived<S>(g: Gate<S>, arrivals: seq<Arrival<S>>)
    requires WellSized(g) && ClientsInRange(arrivals)
    ensures Subsequence(Serve(g, arrivals).accepted, arrivals)
    decreases |arrivals|
  {
    if arrivals != [] {
      var first := Arrive(g, arrivals[0]);
      AcceptedArrived(first.gate, arrivals[1..]);
      var rest := Serve(first.gate, arrivals[1..]);
      if first.accepted == [] {
        assert [] + rest.accepted == rest.accepted;
      } else {
        assert ([arrivals[0]] + rest.accepted)[1..] == rest.accepted;
      }
    }
  }

  /** Bindings are made once and stay. */
  predicate Extends<S(==)>(sockets: seq<Binding<S>>, later: seq<Binding<S>>) {
    |later| == |sockets| && forall c :: 0 <= c < |sockets| && sockets[c].Bound? ==> later[c] == sockets[c]
  }

  lemma {:induction false} BindingsStay<S>(g: Gate<S>, arrivals: seq<Arrival<S>>)
    requires WellSized(g) && ClientsInRange(arrivals)
    ensures Extends(g.sockets, Serve(g, arrivals).gate.sockets)
    decreases |arrivals|
  {
    if arrivals != [] {
      BindingsStay(Arrive(g, arrivals[0]).gate, arrivals[1..]);
    }
  }

  predicate AllBound<S>(sockets: seq<Binding<S>>, arrivals: seq<Arrival<S>>) {
    forall i :: 0 <= i < |arrivals| ==> ClientOf(arrivals[i]) < |sockets| && sockets[ClientOf(arrivals[i])].Bound?
  }

  lemma {:induction false} AcceptedAreBound<S>(g: Gate<S>, arrivals: seq<Arrival<S>>)
    requires WellSized(g) && ClientsInRange(arrivals)
    ensures AllBound(Serve(g, arrivals).gate.sockets, Serve(g, arrivals).accepted)
    decreases |arrivals|
  {
    hide Arrive;
    if arrivals != [] {
      var first := Arrive(g, arrivals[0]);
      OwnMoved(g, arrivals[0]);
      assert AllBound(first.gate.sockets, first.accepted);
      AcceptedAreBound(first.gate, arrivals[1..]);
      BindingsStay(first.gate, arrivals[1..]);
    }
  }

  /** The ASSERT of the source: responses go only to clients with a socket. */
  predicate Deliverable<S>(sockets: seq<Binding<S>>, rs: seq<ClientResponse>) {
    forall i :: 0 <= i < |rs| ==> rs[i].client < |sockets| && sockets[rs[i].client].Bound?
  }

  // ----- outgoing numbers

  datatype Numbered = Numbered(seqNum: nat, response: ClientResponse)

  predicate Numberable(next: seq<nat>, rs: seq<ClientResponse>) {
    forall i :: 0 <= i < |rs| ==> rs[i].client < |next|
  }

  /** Each client's responses are numbered from its counter on. */
  function Number(next: seq<nat>, rs: seq<ClientResponse>): seq<Numbered>
    requires Numberable(next, rs)
    decreases |rs|
  {
    if rs == [] then []
    else
      var c := rs[0].client;
      [Numbered(next[c], rs[0])] + Number(next[c := next[c] + 1], rs[1..])
  }

  function ForClient(ns: seq<Numbered>, client: nat): seq<Numbered> {
    if ns == [] then []
    else (if ns[0].response.client == client then [ns[0]] else []) + ForClient(ns[1..], client)
  }

  /** Every response is sent once, in queue order. */
  lemma {:induction false} NumberKeepsQueue(next: seq<nat>, rs: seq<ClientResponse>)
    requires Numberable(next, rs)
    ensures |Number(next, rs)| == |rs|
    ensures forall i :: 0 <= i < |rs| ==> Number(next, rs)[i].response == rs[i]
    decreases |rs|
  {
    if rs != [] {
      var next2 := next[rs[0].client := next[rs[0].client] + 1];
      NumberKeepsQueue(next2, rs[1..]);
      assert Number(next, rs) == [Numbered(next[rs[0].client], rs[0])] + Number(next2, rs[1..]);
    }
  }

  predicate Consecutive(ns: seq<Numbered>, start: nat) {
    forall i :: 0 <= i < |ns| ==> ns[i].seqNum == start + i
  }

  /** In queue order, the numbers of one client follow each other without a gap. */
  lemma {:induction false} NumbersFollow(next: seq<nat>, rs: seq<ClientResponse>, client: nat)
    requires client < |next| && Numberable(next, rs)
    ensures Consecutive(ForClient(Number(next, rs), client), next[client])
    decreases |rs|
  {
    if rs != [] {
      var c := rs[0].client;
      var next2 := next[c := next[c] + 1];
      NumbersFollow(next2, rs[1..], client);
      var first, rest := Numbered(next[c], rs[0]), Number(next2, rs[1..]);
      assert ([first] + rest)[1..] == rest;
      var mine := ForClient([first] + rest, client);
      assert mine == (if c == client then [first] else []) + ForClient(rest, client);
      OneMoreNumber(first, ForClient(rest, client), next[client]);
    }
  }

  lemma OneMoreNumber(first: Numbered, ns: seq<Numbered>, start: nat)
    ensures first.seqNum == start && Consecutive(ns, start + 1) ==> Consecutive([first] + ns, start)
    ensures [] + ns == ns
  {
  }

  lemma NumberableConcat(next: seq<nat>, a: seq<ClientResponse>, b: seq<ClientResponse>)
    ensures Numberable(next, a + b) <==> Numberable(next, a) && Numberable(next, b)
  {
    if Numberable(next, a + b) {
      assert forall i :: 0 <= i < |a| ==> a[i] == (a + b)[i];
      assert forall i :: 0 <= i < |b| ==> b[i] == (a + b)[|a| + i];
    }
  }

  /** Numbering goes on where it stopped, so it does not matter how the responses are cut into drains. */
  lemma {:induction false} NumberConcat(next: seq<nat>, a: seq<ClientResponse>, b: seq<ClientResponse>)
    requires Numberable(next, a) && Numberable(next, b)
    ensures Numberable(next, a + b)
    ensures Number(next, a + b) == Number(next, a) + Number(Counters(next, a), b)
    ensures Counters(next, a + b) == Counters(Counters(next, a), b)
    decreases |a|
  {
    NumberableConcat(next, a, b);
    if a == [] {
      assert a + b == b;
    } else {
      var c := a[0].client;
      var next2 := next[c := next[c] + 1];
      assert (a + b)[0] == a[0] && (a + b)[1..] == a[1..] + b;
      NumberConcat(next2, a[1..], b);
      hide Numberable;
      var first, m, n := [Numbered(next[c], a[0])], Number(next2, a[1..]), Number(Counters(next2, a[1..]), b);
      assert first + (m + n) == (first + m) + n;
    }
  }

  /** The counters after rs have been numbered. */
  function Counters(next: seq<nat>, rs: seq<ClientResponse>): (after: seq<nat>)
    requires Numberable(next, rs)
    ensures |after| == |next|
    decreases |rs|
  {
    if rs == [] then next
    else Counters(next[rs[0].client := next[rs[0].client] + 1], rs[1..])
  }
}
