/** The matching engine: one book per ticker, requests from one queue. */
module Engine {
  import opened Types
  import opened BookSpec
  import opened Capacity
  import opened MemPools
  import opened Rings
  import opened LFQueues
  import opened OrderBook
  import opened Tickers

  /** No request of the run meets a lost write of the committed text. */
  ghost predicate Meant(amended: bool, books: seq<Book>, rs: seq<ClientRequest>)
    decreases |rs|
  {
    rs == [] ||
    (&& rs[0].ticker < |books|
     && (amended || rs[0].kind != New || TextAdds(books[rs[0].ticker], rs[0]))
     && Meant(amended, Dispatch(books, rs[0]).books, rs[1..]))
  }

  class MatchingEngine {
    const amended: bool
    const tickerOrderBook: seq<MEOrderBook>
    const incomingRequests: LFQueue<ClientRequest>
    const outgoing: Outgoing

    /** The books share nothing but the outgoing queues. */
    ghost predicate Framed() {
      && |tickerOrderBook| == ME_MAX_TICKERS
      && (forall i :: 0 <= i < |tickerOrderBook| ==>
            tickerOrderBook[i].amended == amended && tickerOrderBook[i].engine == outgoing)
      && (forall i :: 0 <= i < |tickerOrderBook| ==>
            outgoing !in tickerOrderBook[i].Repr()
            && {incomingRequests, incomingRequests.store} !! tickerOrderBook[i].Repr())
      && (forall i, j :: 0 <= i < j < |tickerOrderBook| ==> tickerOrderBook[i].Repr() !! tickerOrderBook[j].Repr())
    }

    ghost function Repr(): set<object> {
      set i, o | 0 <= i < |tickerOrderBook| && o in tickerOrderBook[i].Repr() :: o
    }

    ghost predicate Valid()
      reads Repr()
    {
      Framed() && forall i :: 0 <= i < |tickerOrderBook| ==> tickerOrderBook[i].Valid()
    }

    ghost function BookAt(i: nat): Book
      requires i < |tickerOrderBook|
      reads tickerOrderBook[i].Repr()
    {
      tickerOrderBook[i].Abstract()
    }

    ghost function Abstract(): (books: seq<Book>)
      reads Repr()
      ensures |books| == |tickerOrderBook|
    {
      seq(|tickerOrderBook|, i requires 0 <= i < |tickerOrderBook| reads Repr() =>
                               assert tickerOrderBook[i].Repr() <= Repr(); BookAt(i))
    }

    constructor (amended: bool, clientRequests: LFQueue<ClientRequest>, outgoing: Outgoing)
      ensures Valid() && Abstract() == seq(ME_MAX_TICKERS, _ => EMPTY_BOOK)
      ensures this.amended == amended && incomingRequests == clientRequests && this.outgoing == outgoing
      ensures fresh(Repr())
    {
      hide MEOrderBook.Valid, MEOrderBook.Abstract;
      var books := NewBooks(amended, outgoing);
      this.amended := amended;
      tickerOrderBook := books;
      incomingRequests := clientRequests;
      this.outgoing := outgoing;
      new;
      assert Abstract() == seq(ME_MAX_TICKERS, _ => EMPTY_BOOK) by {
        assert forall i :: 0 <= i < |tickerOrderBook| ==> BookAt(i) == EMPTY_BOOK;
      }
    }

    static method NewBooks(amended: bool, outgoing: Outgoing) returns (books: seq<MEOrderBook>)
      ensures |books| == ME_MAX_TICKERS
      ensures forall i :: 0 <= i < |books| ==>
                fresh(books[i].Repr()) && books[i].amended == amended && books[i].engine == outgoing
      ensures forall i :: 0 <= i < |books| ==> books[i].Valid() && books[i].Abstract() == EMPTY_BOOK
      ensures forall i, j :: 0 <= i < j < |books| ==> books[i].Repr() !! books[j].Repr()
    {
      hide MEOrderBook.Valid, MEOrderBook.Abstract;
      books := [];
      while |books| < ME_MAX_TICKERS
        invariant |books| <= ME_MAX_TICKERS
        invariant forall i :: 0 <= i < |books| ==>
                    fresh(books[i].Repr()) && books[i].amended == amended && books[i].engine == outgoing
        invariant forall i :: 0 <= i < |books| ==> books[i].Valid() && books[i].Abstract() == EMPTY_BOOK
        invariant forall i, j :: 0 <= i < j < |books| ==> books[i].Repr() !! books[j].Repr()
      {
        var book := NewBook(amended, outgoing);
        books := books + [book];
      }
    }

    static method NewBook(amended: bool, outgoing: Outgoing) returns (book: MEOrderBook)
      ensures fresh(book.Repr()) && book.amended == amended && book.engine == outgoing
      ensures book.Valid() && book.Abstract() == EMPTY_BOOK
    {
      hide MEOrderBook.Valid, MEOrderBook.Abstract;
      book := new MEOrderBook(amended, outgoing);
    }

    lemma ApartFrom(t: nat)
      requires Framed() && t < |tickerOrderBook|
      ensures forall i :: 0 <= i < |tickerOrderBook| && i != t ==>
                tickerOrderBook[i].Repr() !! tickerOrderBook[t].Repr() + {outgoing}
    {
      hide MEOrderBook.Repr;
      forall i | 0 <= i < |tickerOrderBook| && i != t
        ensures tickerOrderBook[i].Repr() !! tickerOrderBook[t].Repr() + {outgoing}
      {
        if i < t {
          assert tickerOrderBook[i].Repr() !! tickerOrderBook[t].Repr();
        } else {
          assert tickerOrderBook[t].Repr() !! tickerOrderBook[i].Repr();
        }
      }
    }

    /** One request.  Not ok where the source ends the process because of an invalid type. */
    method ProcessClientRequest(r: ClientRequest) returns (ok: bool)
      requires Valid() && r.ticker < |tickerOrderBook|
      requires r.kind != InvalidRequest ==> Legal(Abstract()[r.ticker], r) && Room(Abstract()[r.ticker], r)
      modifies tickerOrderBook[r.ticker].Repr(), outgoing
      ensures ok <==> r.kind != InvalidRequest
      ensures Framed() && (Valid() <==> amended || r.kind != New || TextAdds(old(Abstract())[r.ticker], r))
      ensures Abstract() == Dispatch(old(Abstract()), r).books
      ensures outgoing.responses == old(outgoing.responses) + Dispatch(old(Abstract()), r).responses
      ensures outgoing.updates
              == old(outgoing.updates) + Dispatch(old(Abstract()), r).updates
    {
      hide MEOrderBook.Valid, MEOrderBook.Abstract;
      ghost var books := Abstract();
      assert books[r.ticker] == BookAt(r.ticker);
      assert forall i :: 0 <= i < |tickerOrderBook| && i != r.ticker ==>
                tickerOrderBook[i].Repr() !! tickerOrderBook[r.ticker].Repr() + {outgoing} by {
        ApartFrom(r.ticker);
      }
      ok := ProcessOn(tickerOrderBook[r.ticker], r);
      assert forall i :: 0 <= i < |tickerOrderBook| && i != r.ticker ==> BookAt(i) == old(BookAt(i));
    }

    /** The switch over the request type. */
    static method ProcessOn(book: MEOrderBook, r: ClientRequest) returns (ok: bool)
      requires book.Valid()
      requires r.kind != InvalidRequest ==> Legal(book.Abstract(), r) && Room(book.Abstract(), r)
      modifies book.Repr(), book.engine
      ensures ok <==> r.kind != InvalidRequest
      ensures book.Valid() <==> book.amended || r.kind != New || TextAdds(old(book.Abstract()), r)
      ensures book.Abstract() == Process(old(book.Abstract()), r).book
      ensures book.engine.responses == old(book.engine.responses) + Process(old(book.Abstract()), r).responses
      ensures book.engine.updates == old(book.engine.updates) + Process(old(book.Abstract()), r).updates
    {
      hide MEOrderBook.Valid, MEOrderBook.Abstract, Legal, Room, AddOrder, CancelOrder, TextAdds;
      match r.kind
      case New =>
        book.Add(r);
        ok := true;
      case Cancel =>
        book.Cancel(r);
        ok := true;
      case InvalidRequest =>
        ok := false;
    }

    lemma QueueIsApart()
      requires Framed() || Valid()
      ensures Framed() && incomingRequests !in Repr() && incomingRequests.store !in Repr()
      ensures outgoing !in Repr()
    {
      hide MEOrderBook.Repr;
    }

    /** Taking a request off the queue touches no book. */
    method TakeRequest()
      requires Framed() && incomingRequests.Valid() && incomingRequests.Contents() != []
      modifies incomingRequests
      ensures incomingRequests.Valid() && incomingRequests.Contents() == old(incomingRequests.Contents())[1..]
      ensures Valid() == old(Valid()) && Abstract() == old(Abstract())
    {
      hide Valid, Abstract, Unread;
      QueueIsApart();
      incomingRequests.UpdateReadIndex();
    }

    /** The next request, or null; looking changes nothing. */
    method NextRequest() returns (p: Ptr)
      requires Valid() && incomingRequests.Valid()
      ensures Valid() && incomingRequests.Valid()
      ensures Abstract() == old(Abstract()) && incomingRequests.Contents() == old(incomingRequests.Contents())
      ensures outgoing.responses == old(outgoing.responses) && outgoing.updates == old(outgoing.updates)
      ensures p == NULL <==> incomingRequests.Contents() == []
      ensures p != NULL ==>
                0 <= p < incomingRequests.store.Length && incomingRequests.store[p] == incomingRequests.Contents()[0]
    {
      hide MEOrderBook.Valid, MEOrderBook.Abstract, Unread;
      p := incomingRequests.GetNextToRead();
    }

    method ServeNext(p: nat)
      requires Valid() && incomingRequests.Valid() && incomingRequests.Contents() != []
      requires p < incomingRequests.store.Length && incomingRequests.store[p] == incomingRequests.Contents()[0]
      requires incomingRequests.store[p].ticker < |tickerOrderBook|
      requires var b, r := Abstract()[incomingRequests.store[p].ticker], incomingRequests.store[p];
               Legal(b, r) && Room(b, r) && (amended || r.kind != New || TextAdds(b, r))
      modifies Repr(), outgoing, incomingRequests
      ensures Valid() && incomingRequests.Valid()
              && incomingRequests.Contents() == old(incomingRequests.Contents())[1..]
      ensures Abstract() == Dispatch(old(Abstract()), old(incomingRequests.store[p])).books
      ensures outgoing.responses
              == old(outgoing.responses) + Dispatch(old(Abstract()), old(incomingRequests.store[p])).responses
      ensures outgoing.updates
              == old(outgoing.updates) + Dispatch(old(Abstract()), old(incomingRequests.store[p])).updates
    {
      hide Valid, Abstract, Unread, Dispatch, Legal, Room, TextAdds;
      var r := incomingRequests.store[p];
      assert tickerOrderBook[r.ticker].Repr() <= Repr();
      QueueIsApart();
      var ok := ProcessClientRequest(r);
      TakeRequest();
    }

    ghost function CurrentDesk(): Desk
      reads Repr(), outgoing, incomingRequests, incomingRequests.store
      requires incomingRequests.InRange()
    {
      Desk(Abstract(), incomingRequests.Contents(), outgoing.responses, outgoing.updates)
    }

    /** One round of the loop, with or without a request. */
    method PollOnce()
      requires Valid() && incomingRequests.Valid() && TickersInRange(|Abstract()|, incomingRequests.Contents())
      requires incomingRequests.Contents() != [] ==>
                 var r := incomingRequests.Contents()[0];
                 var b := Abstract()[r.ticker];
                 Legal(b, r) && Room(b, r) && (amended || r.kind != New || TextAdds(b, r))
      modifies Repr(), outgoing, incomingRequests
      ensures Valid() && incomingRequests.Valid()
      ensures TickersInRange(|old(CurrentDesk()).books|, old(CurrentDesk()).queue)
      ensures CurrentDesk() == Poll(old(CurrentDesk()))
    {
      hide Valid, Abstract, Unread, Repr, Dispatch, Legal, Room, TextAdds;
      ghost var d := CurrentDesk();
      var p := NextRequest();
      if p != NULL {
        ServeNext(p);
      }
    }

    /** The consumer loop until the queue is empty: every request in queue order, each taken off the
        queue after it has been processed. */
    method Run()
      requires Valid() && incomingRequests.Valid()
      requires Servable(Abstract(), incomingRequests.Contents())
               && Meant(amended, Abstract(), incomingRequests.Contents())
      modifies Repr(), outgoing, incomingRequests
      ensures Valid() && incomingRequests.Valid() && incomingRequests.Contents() == []
      ensures TickersInRange(|old(Abstract())|, old(incomingRequests.Contents()))
      ensures var e := DispatchAll(old(Abstract()), old(incomingRequests.Contents()));
              && Abstract() == e.books
              && outgoing.responses == old(outgoing.responses) + e.responses
              && outgoing.updates == old(outgoing.updates) + e.updates
    {
      hide Valid, Abstract, Unread, Servable, Meant, DispatchAll, Left, Framed, Repr, Dispatch, Legal, Room, TextAdds;
      ghost var books, rs := Abstract(), incomingRequests.Contents();
      ServableInRange(books, rs);
      ghost var e := DispatchAll(books, rs);
      EverythingLeft(e, books, rs, outgoing.responses, outgoing.updates, amended);
      var p := NextRequest();
      while p != NULL
        invariant Valid() && incomingRequests.Valid()
        invariant p == NULL <==> incomingRequests.Contents() == []
        invariant p != NULL ==>
                    && 0 <= p < incomingRequests.store.Length
                    && incomingRequests.store[p] == incomingRequests.Contents()[0]
        invariant Left(old(outgoing.responses), old(outgoing.updates), e, Abstract(), incomingRequests.Contents(),
                       outgoing.responses, outgoing.updates, amended)
        decreases |incomingRequests.Contents()|
      {
        ghost var now, queue := Abstract(), incomingRequests.Contents();
        ghost var sent, published := outgoing.responses, outgoing.updates;
        LeftStep(old(outgoing.responses), old(outgoing.updates), e, now, queue, sent, published, amended);
        ServeNext(p);
        p := NextRequest();
      }
      NothingLeft(old(outgoing.responses), old(outgoing.updates), e, Abstract(),
                  outgoing.responses, outgoing.updates, amended);
    }
  }

  /** What has been sent and what the queued requests will send make up the whole run. */
  ghost predicate Left(
    sent0: seq<ClientResponse>, published0: seq<MarketUpdate>, e: Exchange, books: seq<Book>,
    queue: seq<ClientRequest>, sent: seq<ClientResponse>, published: seq<MarketUpdate>, amended: bool)
  {
    && TickersInRange(|books|, queue) && Servable(books, queue) && Meant(amended, books, queue)
    && e.books == DispatchAll(books, queue).books
    && sent0 + e.responses == sent + DispatchAll(books, queue).responses
    && published0 + e.updates == published + DispatchAll(books, queue).updates
  }

  lemma {:induction false} EverythingLeft(
    e: Exchange, books: seq<Book>, queue: seq<ClientRequest>, sent: seq<ClientResponse>, published: seq<MarketUpdate>,
    amended: bool)
    requires TickersInRange(|books|, queue) && Servable(books, queue) && Meant(amended, books, queue)
    requires e == DispatchAll(books, queue)
    ensures Left(sent, published, e, books, queue, sent, published, amended)
  {
  }

  lemma LeftStep(
    sent0: seq<ClientResponse>, published0: seq<MarketUpdate>, e: Exchange, books: seq<Book>,
    queue: seq<ClientRequest>, sent: seq<ClientResponse>, published: seq<MarketUpdate>, amended: bool)
    requires Left(sent0, published0, e, books, queue, sent, published, amended) && queue != []
    ensures var r := queue[0];
            && r.ticker < |books| && Legal(books[r.ticker], r) && Room(books[r.ticker], r)
            && (amended || r.kind != New || TextAdds(books[r.ticker], r))
            && Left(sent0, published0, e, Dispatch(books, r).books, queue[1..],
                    sent + Dispatch(books, r).responses, published + Dispatch(books, r).updates, amended)
  {
    hide Dispatch, Legal, Room, TextAdds;
    var first := Dispatch(books, queue[0]);
    var rest := DispatchAll(first.books, queue[1..]);
    assert sent + (first.responses + rest.responses) == (sent + first.responses) + rest.responses;
    assert published + (first.updates + rest.updates) == (published + first.updates) + rest.updates;
  }

  lemma {:induction false} NothingLeft(
    sent0: seq<ClientResponse>, published0: seq<MarketUpdate>, e: Exchange, books: seq<Book>,
    sent: seq<ClientResponse>, published: seq<MarketUpdate>, amended: bool)
    requires Left(sent0, published0, e, books, [], sent, published, amended)
    ensures books == e.books && sent == sent0 + e.responses && published == published0 + e.updates
  {
  }
}
