/** The engine's books side by side: what one ticker sees of a mixed run. */
module Tickers {
  import opened Types
  import opened BookSpec
  import opened BookInvariant
  import opened Capacity
  import opened FeedReplay

  datatype Exchange = Exchange(books: seq<Book>, responses: seq<ClientResponse>, updates: seq<MarketUpdate>)

  predicate TickersInRange(n: nat, rs: seq<ClientRequest>) {
    forall i :: 0 <= i < |rs| ==> rs[i].ticker < n
  }

  /** Each request goes to the book of its ticker; the messages of all books share two streams. */
  function Dispatch(books: seq<Book>, r: ClientRequest): (e: Exchange)
    requires r.ticker < |books|
    ensures |e.books| == |books|
  {
    var d := Process(books[r.ticker], r);
    Exchange(books[r.ticker := d.book], d.responses, d.updates)
  }

  function DispatchAll(books: seq<Book>, rs: seq<ClientRequest>): (e: Exchange)
    requires TickersInRange(|books|, rs)
    ensures |e.books| == |books|
    decreases |rs|
  {
    if rs == [] then Exchange(books, [], [])
    else
      var first := Dispatch(books, rs[0]);
      var rest := DispatchAll(first.books, rs[1..]);
      Exchange(rest.books, first.responses + rest.responses, first.updates + rest.updates)
  }

  lemma {:induction false} DispatchConcat(books: seq<Book>, a: seq<ClientRequest>, b: seq<ClientRequest>)
    requires TickersInRange(|books|, a) && TickersInRange(|books|, b)
    ensures TickersInRange(|books|, a + b)
    ensures var d := DispatchAll(books, a);
            var e := DispatchAll(d.books, b);
            DispatchAll(books, a + b) == Exchange(e.books, d.responses + e.responses, d.updates + e.updates)
    decreases |a|
  {
    hide Dispatch;
    if a == [] {
      assert a + b == b;
    } else {
      assert (a + b)[0] == a[0] && (a + b)[1..] == a[1..] + b;
      var first := Dispatch(books, a[0]);
      DispatchConcat(first.books, a[1..], b);
      var d := DispatchAll(first.books, a[1..]);
      var e := DispatchAll(d.books, b);
      assert first.responses + (d.responses + e.responses) == (first.responses + d.responses) + e.responses;
      assert first.updates + (d.updates + e.updates) == (first.updates + d.updates) + e.updates;
    }
  }

  // ----- the consumer loop beside its producer

  /** The books, the requests that wait, and everything sent so far. */
  datatype Desk = Desk(
    books: seq<Book>, queue: seq<ClientRequest>, responses: seq<ClientResponse>, updates: seq<MarketUpdate>)

  /** A request is queued, or the loop goes round once. */
  datatype Turn = Queued(r: ClientRequest) | Polled

  /** One round of the loop does nothing while no request waits. */
  function Poll(d: Desk): Desk
    requires TickersInRange(|d.books|, d.queue)
  {
    if d.queue == [] then d
    else
      var e := Dispatch(d.books, d.queue[0]);
      Desk(e.books, d.queue[1..], d.responses + e.responses, d.updates + e.updates)
  }

  predicate TurnsInRange(n: nat, ts: seq<Turn>) {
    forall i :: 0 <= i < |ts| && ts[i].Queued? ==> ts[i].r.ticker < n
  }

  function AfterTurns(d: Desk, ts: seq<Turn>): Desk
    requires TickersInRange(|d.books|, d.queue) && TurnsInRange(|d.books|, ts)
    decreases |ts|
  {
    if ts == [] then d
    else
      var next := if ts[0].Queued? then d.(queue := d.queue + [ts[0].r]) else Poll(d);
      AfterTurns(next, ts[1..])
  }

  function QueuedIn(ts: seq<Turn>): seq<ClientRequest> {
    if ts == [] then []
    else (if ts[0].Queued? then [ts[0].r] else []) + QueuedIn(ts[1..])
  }

  /** The run of the first n requests has been done from start, and the others wait. */
  ghost predicate HasDone(start: Desk, all: seq<ClientRequest>, n: nat, d: Desk)
    requires TickersInRange(|start.books|, all)
  {
    && n <= |all| && d.queue == all[n..]
    && var e := DispatchAll(start.books, all[..n]);
    d == Desk(e.books, all[n..], start.responses + e.responses, start.updates + e.updates)
  }

  lemma PollDoesOneMore(start: Desk, all: seq<ClientRequest>, n: nat, d: Desk)
    requires TickersInRange(|start.books|, all) && HasDone(start, all, n, d) && n < |all|
    ensures TickersInRange(|d.books|, d.queue) && HasDone(start, all, n + 1, Poll(d))
  {
    hide Dispatch;
    assert all[..n + 1] == all[..n] + [all[n]];
    DispatchConcat(start.books, all[..n], [all[n]]);
    OneDispatch(d.books, all[n]);
    assert all[n..][1..] == all[n + 1..];
  }

  lemma {:induction false} OneDispatch(books: seq<Book>, r: ClientRequest)
    requires r.ticker < |books|
    ensures DispatchAll(books, [r]) == Dispatch(books, r)
  {
    assert [r][1..] == [];
  }

  lemma QueueingKeepsDone(start: Desk, all: seq<ClientRequest>, n: nat, d: Desk, r: ClientRequest)
    requires TickersInRange(|start.books|, all) && HasDone(start, all, n, d) && r.ticker < |start.books|
    ensures TickersInRange(|start.books|, all + [r]) && HasDone(start, all + [r], n, d.(queue := d.queue + [r]))
  {
    assert (all + [r])[..n] == all[..n] && (all + [r])[n..] == all[n..] + [r];
  }

  lemma PollingKeepsDone(start: Desk, all: seq<ClientRequest>, n: nat, d: Desk) returns (m: nat)
    requires TickersInRange(|start.books|, all) && HasDone(start, all, n, d)
    ensures TickersInRange(|d.books|, d.queue) && HasDone(start, all, m, Poll(d))
  {
    m := n;
    if n < |all| {
      PollDoesOneMore(start, all, n, d);
      m := n + 1;
    }
  }

  lemma DoneInRange(start: Desk, all: seq<ClientRequest>, n: nat, d: Desk)
    requires TickersInRange(|start.books|, all) && HasDone(start, all, n, d)
    ensures |d.books| == |start.books| && TickersInRange(|d.books|, d.queue)
  {
  }

  lemma QueuedFirst(ts: seq<Turn>)
    requires ts != []
    ensures QueuedIn(ts) == if ts[0].Queued? then [ts[0].r] + QueuedIn(ts[1..]) else QueuedIn(ts[1..])
  {
  }

  lemma {:induction false} TurnsFrom(
    start: Desk, all: seq<ClientRequest>, n: nat, d: Desk, ts: seq<Turn>) returns (m: nat)
    requires TickersInRange(|start.books|, all) && HasDone(start, all, n, d) && TurnsInRange(|start.books|, ts)
    ensures TickersInRange(|start.books|, all + QueuedIn(ts)) && TickersInRange(|d.books|, d.queue)
    ensures |d.books| == |start.books| && HasDone(start, all + QueuedIn(ts), m, AfterTurns(d, ts))
    decreases |ts|
  {
    hide HasDone, Poll, QueuedIn;
    DoneInRange(start, all, n, d);
    if ts == [] {
      m := n;
      assert all + QueuedIn(ts) == all by {
        NothingQueued();
      }
    } else {
      QueuedFirst(ts);
      if ts[0].Queued? {
        var r := ts[0].r;
        QueueingKeepsDone(start, all, n, d, r);
        m := TurnsFrom(start, all + [r], n, d.(queue := d.queue + [r]), ts[1..]);
        assert all + QueuedIn(ts) == (all + [r]) + QueuedIn(ts[1..]);
      } else {
        m := PollingKeepsDone(start, all, n, d);
        m := TurnsFrom(start, all, m, Poll(d), ts[1..]);
      }
    }
  }

  lemma NothingQueued()
    ensures QueuedIn([]) == []
  {
  }

  /** However the producer's requests and the rounds of the loop interleave, at every moment the engine has
      done the run of a prefix of the requests, in their order, and the others wait. */
  lemma {:induction false} LoopDoesAPrefix(books: seq<Book>, ts: seq<Turn>) returns (n: nat)
    requires TurnsInRange(|books|, ts)
    ensures TickersInRange(|books|, QueuedIn(ts))
    ensures HasDone(Desk(books, [], [], []), QueuedIn(ts), n, AfterTurns(Desk(books, [], [], []), ts))
  {
    var start := Desk(books, [], [], []);
    n := TurnsFrom(start, [], 0, start, ts);
    assert [] + QueuedIn(ts) == QueuedIn(ts);
  }

  /** The part of a stream that belongs to one ticker. */
  function Only<T>(s: seq<T>, tickerOf: T -> nat, ticker: nat): seq<T> {
    if s == [] then [] else (if tickerOf(s[0]) == ticker then [s[0]] else []) + Only(s[1..], tickerOf, ticker)
  }

  const RequestTicker := (r: ClientRequest) => r.ticker
  const ResponseTicker := (r: ClientResponse) => r.ticker
  const UpdateTicker := (u: MarketUpdate) => u.ticker

  lemma {:induction false} OnlyConcat<T>(s: seq<T>, t: seq<T>, tickerOf: T -> nat, ticker: nat)
    ensures Only(s + t, tickerOf, ticker) == Only(s, tickerOf, ticker) + Only(t, tickerOf, ticker)
    decreases |s|
  {
    if s == [] {
      assert s + t == t;
    } else {
      assert (s + t)[0] == s[0] && (s + t)[1..] == s[1..] + t;
      OnlyConcat(s[1..], t, tickerOf, ticker);
      var first := if tickerOf(s[0]) == ticker then [s[0]] else [];
      var a, b := Only(s[1..], tickerOf, ticker), Only(t, tickerOf, ticker);
      assert first + (a + b) == (first + a) + b;
    }
  }

  predicate AllOf<T>(s: seq<T>, tickerOf: T -> nat, ticker: nat) {
    forall i :: 0 <= i < |s| ==> tickerOf(s[i]) == ticker
  }

  lemma {:induction false} OnlyOfAll<T>(s: seq<T>, tickerOf: T -> nat, own: nat, ticker: nat)
    requires AllOf(s, tickerOf, own)
    ensures Only(s, tickerOf, ticker) == if own == ticker then s else []
    decreases |s|
  {
    if s != [] {
      OnlyOfAll(s[1..], tickerOf, own, ticker);
      assert s == [s[0]] + s[1..];
    }
  }

  // ----- every message names the ticker of the request

  lemma {:induction false} SweepNamesTicker(a: Aggressor, s: seq<Order>, leaves: nat)
    ensures AllOf(Sweep(a, s, leaves).responses, ResponseTicker, a.ticker)
    ensures AllOf(Sweep(a, s, leaves).updates, UpdateTicker, a.ticker)
    decreases |s|
  {
    if leaves > 0 && s != [] && Crosses(a.side, a.price, s[0].price) {
      assert AllOf(FillResponses(a, s[0], leaves), ResponseTicker, a.ticker);
      assert AllOf(FillUpdates(a, s[0], leaves), UpdateTicker, a.ticker);
      if s[0].qty <= leaves {
        SweepNamesTicker(a, s[1..], leaves - s[0].qty);
      }
    }
  }

  lemma {:induction false} MessagesNameTicker(b: Book, r: ClientRequest)
    ensures AllOf(Process(b, r).responses, ResponseTicker, r.ticker)
    ensures AllOf(Process(b, r).updates, UpdateTicker, r.ticker)
  {
    hide Sweep;
    SweepNamesTicker(AggressorOf(r, b.nextId), b.On(r.side.Opposite()), r.qty);
  }

  // ----- isolation

  /** For any interleaving of requests over the tickers, a ticker's book and its part of both streams
      are those of running that ticker's requests alone. */
  lemma {:induction false} TickerIsolation(books: seq<Book>, rs: seq<ClientRequest>, ticker: nat)
    requires TickersInRange(|books|, rs) && ticker < |books|
    ensures var e, own := DispatchAll(books, rs), Run(books[ticker], Only(rs, RequestTicker, ticker));
            && e.books[ticker] == own.book
            && Only(e.responses, ResponseTicker, ticker) == own.responses
            && Only(e.updates, UpdateTicker, ticker) == own.updates
    decreases |rs|
  {
    hide Process;
    if rs != [] {
      var r, first := rs[0], Dispatch(books, rs[0]);
      var d, rest := Process(books[r.ticker], r), DispatchAll(first.books, rs[1..]);
      TickerIsolation(first.books, rs[1..], ticker);
      MessagesNameTicker(books[r.ticker], r);
      OnlyOfAll(d.responses, ResponseTicker, r.ticker, ticker);
      OnlyOfAll(d.updates, UpdateTicker, r.ticker, ticker);
      OnlyConcat(d.responses, rest.responses, ResponseTicker, ticker);
      OnlyConcat(d.updates, rest.updates, UpdateTicker, ticker);
      var mine := Only(rs[1..], RequestTicker, ticker);
      if r.ticker == ticker {
        assert ([r] + mine)[0] == r && ([r] + mine)[1..] == mine;
      } else {
        assert [] + mine == mine;
      }
    }
  }

  // ----- runs the engine can serve

  /** Every request finds its book in a state where it is legal and has room. */
  ghost predicate Servable(books: seq<Book>, rs: seq<ClientRequest>)
    decreases |rs|
  {
    rs == [] ||
    (&& rs[0].ticker < |books|
     && Legal(books[rs[0].ticker], rs[0]) && Room(books[rs[0].ticker], rs[0])
     && Servable(Dispatch(books, rs[0]).books, rs[1..]))
  }

  lemma {:induction false} ServableInRange(books: seq<Book>, rs: seq<ClientRequest>)
    requires Servable(books, rs)
    ensures TickersInRange(|books|, rs)
    decreases |rs|
  {
    if rs != [] {
      ServableInRange(Dispatch(books, rs[0]).books, rs[1..]);
    }
  }

  /** A mixed run is servable exactly when each ticker's own run is legal and roomy. */
  lemma {:induction false} ServableByTicker(books: seq<Book>, rs: seq<ClientRequest>)
    requires TickersInRange(|books|, rs)
    ensures Servable(books, rs) <==>
            forall t: nat :: t < |books| ==> OwnRun(books[t], rs, t)
    decreases |rs|
  {
    hide Legal, Room, Process;
    if rs == [] {
      assert forall t: nat :: t < |books| ==> OwnRun(books[t], rs, t);
    } else {
      var r, next := rs[0], Dispatch(books, rs[0]).books;
      ServableByTicker(next, rs[1..]);
      forall t: nat | t < |books|
        ensures OwnRun(books[t], rs, t) <==>
                (t == r.ticker ==> Legal(books[t], r) && Room(books[t], r)) && OwnRun(next[t], rs[1..], t)
      {
        OwnRunStep(books, rs, t);
      }
    }
  }

  ghost predicate OwnRun(b: Book, rs: seq<ClientRequest>, ticker: nat) {
    LegalRun(b, Only(rs, RequestTicker, ticker)) && RoomyRun(b, Only(rs, RequestTicker, ticker))
  }

  lemma OwnRunStep(books: seq<Book>, rs: seq<ClientRequest>, t: nat)
    requires rs != [] && rs[0].ticker < |books| && t < |books|
    ensures OwnRun(books[t], rs, t) <==>
            (t == rs[0].ticker ==> Legal(books[t], rs[0]) && Room(books[t], rs[0]))
            && OwnRun(Dispatch(books, rs[0]).books[t], rs[1..], t)
  {
    hide Legal, Room, Process;
    var r, mine := rs[0], Only(rs[1..], RequestTicker, t);
    if r.ticker == t {
      assert ([r] + mine)[0] == r && ([r] + mine)[1..] == mine;
    } else {
      assert [] + mine == mine;
    }
  }

  /** The public feed of the whole exchange, filtered for one ticker, rebuilds that ticker's book. */
  lemma {:induction false} FeedRebuildsEachBook(n: nat, rs: seq<ClientRequest>, ticker: nat)
    requires ticker < n && Servable(seq(n, _ => EMPTY_BOOK), rs) && TickersInRange(n, rs)
    ensures var e := DispatchAll(seq(n, _ => EMPTY_BOOK), rs);
            Replay(map[], Only(e.updates, UpdateTicker, ticker)) == Resting(e.books[ticker])
  {
    var books := seq(n, _ => EMPTY_BOOK);
    TickerIsolation(books, rs, ticker);
    ServableByTicker(books, rs);
    assert OwnRun(books[ticker], rs, ticker);
    RunReplays(Only(rs, RequestTicker, ticker));
  }
}
