/** From requests to the sockets of their clients, over whole runs. */
module Delivery {
  import opened Types
  import opened BookSpec
  import opened Framing
  import opened Ingest
  import opened Tickers
  import opened OrderServers

  // ----- whom the responses name

  predicate NamesOnly(rs: seq<ClientResponse>, clients: set<nat>) {
    forall i :: 0 <= i < |rs| ==> rs[i].client in clients
  }

  predicate OrdersOf(s: seq<Order>, clients: set<nat>) {
    forall i :: 0 <= i < |s| ==> s[i].client in clients
  }

  predicate BookOf(b: Book, clients: set<nat>) {
    OrdersOf(b.bids, clients) && OrdersOf(b.asks, clients)
  }

  predicate RequestsBy(rs: seq<ClientRequest>, clients: set<nat>) {
    forall i :: 0 <= i < |rs| ==> rs[i].client in clients
  }

  lemma {:induction false} SweepNamesClients(a: Aggressor, s: seq<Order>, leaves: nat, clients: set<nat>)
    requires a.client in clients && OrdersOf(s, clients)
    ensures NamesOnly(Sweep(a, s, leaves).responses, clients) && OrdersOf(Sweep(a, s, leaves).resting, clients)
    decreases |s|
  {
    if leaves > 0 && s != [] && Crosses(a.side, a.price, s[0].price) {
      assert NamesOnly(FillResponses(a, s[0], leaves), clients);
      if s[0].qty <= leaves {
        SweepNamesClients(a, s[1..], leaves - s[0].qty, clients);
      }
    }
  }

  lemma {:induction false} PlacedOf(side: Side, s: seq<Order>, o: Order, clients: set<nat>)
    requires OrdersOf(s, clients) && o.client in clients
    ensures OrdersOf(Place(side, s, o), clients)
    decreases |s|
  {
    if s != [] && !Better(side, o.price, s[0].price) {
      PlacedOf(side, s[1..], o, clients);
    }
  }

  lemma {:induction false} AddNamesClients(b: Book, r: ClientRequest, clients: set<nat>)
    requires BookOf(b, clients) && r.client in clients
    ensures NamesOnly(AddOrder(b, r).responses, clients) && BookOf(AddOrder(b, r).book, clients)
  {
    hide Sweep, Place, NextPriority;
    SweepNamesClients(AggressorOf(r, b.nextId), b.On(r.side.Opposite()), r.qty, clients);
    PlacedOf(r.side, MatchedBook(b, r).On(r.side), RestedOrder(b, r), clients);
  }

  lemma {:induction false} CancelNamesClients(b: Book, r: ClientRequest, clients: set<nat>)
    requires BookOf(b, clients) && r.client in clients
    ensures NamesOnly(CancelOrder(b, r).responses, clients) && BookOf(CancelOrder(b, r).book, clients)
  {
  }

  lemma ProcessNamesClients(b: Book, r: ClientRequest, clients: set<nat>)
    requires BookOf(b, clients) && r.client in clients
    ensures NamesOnly(Process(b, r).responses, clients) && BookOf(Process(b, r).book, clients)
  {
    hide AddOrder, CancelOrder, BookOf;
    AddNamesClients(b, r, clients);
    CancelNamesClients(b, r, clients);
  }

  predicate BooksOf(books: seq<Book>, clients: set<nat>) {
    forall i :: 0 <= i < |books| ==> BookOf(books[i], clients)
  }

  lemma {:induction false} RunNamesClients(books: seq<Book>, rs: seq<ClientRequest>, clients: set<nat>)
    requires TickersInRange(|books|, rs) && BooksOf(books, clients) && RequestsBy(rs, clients)
    ensures NamesOnly(DispatchAll(books, rs).responses, clients)
    decreases |rs|
  {
    hide Process, BookOf;
    if rs != [] {
      ProcessNamesClients(books[rs[0].ticker], rs[0], clients);
      RunNamesClients(Dispatch(books, rs[0]).books, rs[1..], clients);
    }
  }

  // ----- they all have a socket

  predicate IsAccepted<S>(r: ClientRequest, accepted: seq<Arrival<S>>) {
    exists i :: 0 <= i < |accepted| && accepted[i].message.request == r
  }

  function BoundClients<S>(sockets: seq<Binding<S>>): set<nat> {
    set c: nat | c < |sockets| && sockets[c].Bound?
  }

  /** Whatever arrived on whatever sockets, and in whatever order the accepted requests reach the engine:
      every response names a client with a socket, so the ASSERT of the outgoing loop cannot fail. */
  lemma {:induction false} ResponsesAreDeliverable<S>(n: nat, arrivals: seq<Arrival<S>>, rs: seq<ClientRequest>)
    requires ClientsInRange(arrivals) && TickersInRange(n, rs)
    requires forall i :: 0 <= i < |rs| ==> IsAccepted(rs[i], Serve(Opened(), arrivals).accepted)
    ensures Deliverable(Serve(Opened(), arrivals).gate.sockets, DispatchAll(seq(n, _ => EMPTY_BOOK), rs).responses)
  {
    hide Serve, DispatchAll;
    var d := Serve(Opened(), arrivals);
    AcceptedAreBound(Opened(), arrivals);
    forall i | 0 <= i < |rs| ensures rs[i].client in BoundClients(d.gate.sockets) {
      var j :| 0 <= j < |d.accepted| && d.accepted[j].message.request == rs[i];
      assert ClientOf(d.accepted[j]) == rs[i].client;
    }
    RunNamesClients(seq(n, _ => EMPTY_BOOK), rs, BoundClients(d.gate.sockets));
  }

  // ----- over many drains

  /** One drain of the outgoing queue, and the bindings at that time. */
  datatype Drain<S> = Drain(sockets: seq<Binding<S>>, responses: seq<ClientResponse>)

  function AllResponses<S>(drains: seq<Drain<S>>): seq<ClientResponse> {
    if drains == [] then [] else drains[0].responses + AllResponses(drains[1..])
  }

  predicate Drainable<S(==)>(next: seq<nat>, drains: seq<Drain<S>>, last: seq<Binding<S>>) {
    forall i :: 0 <= i < |drains| ==>
      && Deliverable(drains[i].sockets, drains[i].responses) && Extends(drains[i].sockets, last)
      && |last| == |next|
  }

  lemma {:induction false} DrainsNumberable<S>(next: seq<nat>, drains: seq<Drain<S>>, last: seq<Binding<S>>)
    requires Drainable(next, drains, last)
    ensures Numberable(next, AllResponses(drains))
    decreases |drains|
  {
    if drains != [] {
      DrainsNumberable(next, drains[1..], last);
    }
  }

  /** What the drains write to one socket, each with the bindings and the counters it finds. */
  function SentByDrains<S(==)>(next: seq<nat>, drains: seq<Drain<S>>, last: seq<Binding<S>>, s: S): seq<Outbound>
    requires Drainable(next, drains, last)
    decreases |drains|
  {
    if drains == [] then []
    else
      var d := drains[0];
      SentTo(d.sockets, next, d.responses, s) + SentByDrains(Counters(next, d.responses), drains[1..], last, s)
  }

  lemma {:induction false} LaterBindings<S>(sockets: seq<Binding<S>>, last: seq<Binding<S>>, ns: seq<Numbered>, s: S)
    requires Extends(sockets, last)
    requires forall i :: 0 <= i < |ns| ==> ns[i].response.client < |sockets| && sockets[ns[i].response.client].Bound?
    ensures ToSocket(sockets, ns, s) == ToSocket(last, ns, s)
    decreases |ns|
  {
    if ns != [] {
      LaterBindings(sockets, last, ns[1..], s);
    }
  }

  lemma SentLater<S>(sockets: seq<Binding<S>>, last: seq<Binding<S>>, next: seq<nat>, rs: seq<ClientResponse>, s: S)
    requires Extends(sockets, last) && Deliverable(sockets, rs) && Numberable(next, rs)
    ensures SentTo(sockets, next, rs, s) == SentTo(last, next, rs, s)
  {
    NumberKeepsQueue(next, rs);
    LaterBindings(sockets, last, Number(next, rs), s);
  }

  /** However the queue is drained while clients are being bound, a socket gets what one drain of
      everything under the last bindings would write: the numbers of a client never restart or repeat. */
  lemma {:induction false} DrainsAreOne<S>(next: seq<nat>, drains: seq<Drain<S>>, last: seq<Binding<S>>, s: S)
    requires Drainable(next, drains, last)
    ensures Numberable(next, AllResponses(drains))
    ensures SentByDrains(next, drains, last, s) == SentTo(last, next, AllResponses(drains), s)
    decreases |drains|
  {
    hide SentTo, Counters;
    DrainsNumberable(next, drains, last);
    if drains == [] {
      NothingSent(last, next);
    } else {
      var d, rest := drains[0], drains[1..];
      DrainsNumberable(next, rest, last);
      DrainsAreOne(Counters(next, d.responses), rest, last, s);
      SentLater(d.sockets, last, next, d.responses, s);
      SentConcat(last, next, d.responses, AllResponses(rest), s);
    }
  }

  /** Over all drains, a client's responses are numbered 1, 2, 3, ... in queue order. */
  lemma NumberedFromOne<S>(drains: seq<Drain<S>>, last: seq<Binding<S>>, client: nat)
    requires Drainable(seq(ME_MAX_NUM_CLIENTS, _ => 1), drains, last) && client < ME_MAX_NUM_CLIENTS
    ensures Numberable(seq(ME_MAX_NUM_CLIENTS, _ => 1), AllResponses(drains))
    ensures Consecutive(ForClient(Number(seq(ME_MAX_NUM_CLIENTS, _ => 1), AllResponses(drains)), client), 1)
  {
    var next := seq(ME_MAX_NUM_CLIENTS, _ => 1);
    DrainsNumberable(next, drains, last);
    NumbersFollow(next, AllResponses(drains), client);
  }

  // ----- what a client hears

  /** A client reads numbers and responses in turn. */
  function Unpack(words: seq<Outbound>): seq<Numbered>
    decreases |words|
  {
    if |words| >= 2 && words[0].SeqNum? && words[1].Response? then
      [Numbered(words[0].n, words[1].r)] + Unpack(words[2..])
    else []
  }

  lemma {:induction false} UnpackWords(ns: seq<Numbered>)
    ensures Unpack(Words(ns)) == ns
    decreases |ns|
  {
    if ns != [] {
      var n := ns[0];
      UnpackWords(ns[1..]);
      assert ns == [n] + ns[1..];
      WordsConcat([n], ns[1..]);
      assert Words([n]) == Words([n][..0]) + [SeqNum(n.seqNum), Response(n.response)];
      var w, rest := [SeqNum(n.seqNum), Response(n.response)], Words(ns[1..]);
      assert Words(ns) == w + rest && (w + rest)[2..] == rest;
    }
  }

  /** The responses of one client, in queue order. */
  function ResponsesOf(rs: seq<ClientResponse>, client: nat): seq<ClientResponse> {
    if rs == [] then [] else (if rs[0].client == client then [rs[0]] else []) + ResponsesOf(rs[1..], client)
  }

  predicate Carries(ns: seq<Numbered>, rs: seq<ClientResponse>) {
    |ns| == |rs| && forall i :: 0 <= i < |rs| ==> ns[i].response == rs[i]
  }

  lemma {:induction false} NumberCarries(next: seq<nat>, rs: seq<ClientResponse>, client: nat)
    requires Numberable(next, rs)
    ensures Carries(ForClient(Number(next, rs), client), ResponsesOf(rs, client))
    decreases |rs|
  {
    if rs != [] {
      var c := rs[0].client;
      var next2 := next[c := next[c] + 1];
      NumberCarries(next2, rs[1..], client);
      var first, rest := Numbered(next[c], rs[0]), Number(next2, rs[1..]);
      assert ([first] + rest)[0] == first && ([first] + rest)[1..] == rest;
    }
  }

  /** What a client reads on its socket: all its responses and no other client's, in queue order, each behind
      its number, and the numbers go on from the client's counter.  On other sockets it finds nothing. */
  lemma ClientHears<S>(sockets: seq<Binding<S>>, next: seq<nat>, rs: seq<ClientResponse>, s: S, client: nat)
    requires Numberable(next, rs) && client < |next| <= |sockets|
    ensures var heard := ForClient(Unpack(SentTo(sockets, next, rs, s)), client);
            if sockets[client] == Bound(s)
            then Carries(heard, ResponsesOf(rs, client)) && Consecutive(heard, next[client])
            else heard == []
  {
    hide Number, ToSocket, Words;
    var ns := Number(next, rs);
    UnpackWords(ToSocket(sockets, ns, s));
    OwnSocketGetsAll(sockets, ns, client, s);
    NumberCarries(next, rs, client);
    NumbersFollow(next, rs, client);
  }
}
