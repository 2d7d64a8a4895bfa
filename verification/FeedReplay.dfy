/** A subscriber that only sees the market updates knows the whole book. */
module FeedReplay {
  import opened Types
  import opened BookSpec
  import opened BookInvariant

  /** What the feed says about a resting order. */
  datatype Quote = Quote(side: Side, price: int, qty: nat, priority: nat)

  type Feed = map<nat, Quote>

  function QuoteOf(o: Order): Quote {
    Quote(o.side, o.price, o.qty, o.priority)
  }

  function Apply(m: Feed, u: MarketUpdate): Feed {
    match u.kind
    case Add => m[u.orderId := Quote(u.side, u.price, u.qty, u.priority)]
    case Modify => if u.orderId in m then m[u.orderId := m[u.orderId].(qty := u.qty)] else m
    case Remove => m - {u.orderId}
    case Trade => m
  }

  function Replay(m: Feed, us: seq<MarketUpdate>): Feed
    decreases |us|
  {
    if us == [] then m else Replay(Apply(m, us[0]), us[1..])
  }

  /** The quotes of one side, and of the book. */
  function Quotes(s: seq<Order>): Feed {
    if s == [] then map[] else Quotes(s[1..])[s[0].marketOrderId := QuoteOf(s[0])]
  }

  function Resting(b: Book): Feed {
    Quotes(b.bids) + Quotes(b.asks)
  }

  ghost predicate UniqueIds(s: seq<Order>) {
    forall i, j :: 0 <= i < j < |s| ==> s[i].marketOrderId != s[j].marketOrderId
  }

  // ----- folding

  lemma {:induction false} ReplayConcat(m: Feed, us: seq<MarketUpdate>, vs: seq<MarketUpdate>)
    ensures Replay(m, us + vs) == Replay(Replay(m, us), vs)
    decreases |us|
  {
    if us == [] {
      assert us + vs == vs;
    } else {
      assert (us + vs)[1..] == us[1..] + vs;
      ReplayConcat(Apply(m, us[0]), us[1..], vs);
    }
  }

  lemma {:induction false} ReplayTwo(m: Feed, u: MarketUpdate, v: MarketUpdate)
    ensures Replay(m, [u, v]) == Apply(Apply(m, u), v)
    ensures Replay(m, [u]) == Apply(m, u)
  {
    assert [u, v][1..] == [v] && [v][1..] == [] && [u][1..] == [];
    assert Replay(m, [u, v]) == Replay(Apply(m, u), [v]);
  }

  lemma {:induction false} QuotesAre(s: seq<Order>)
    requires UniqueIds(s)
    ensures forall i :: 0 <= i < |s| ==>
              s[i].marketOrderId in Quotes(s) && Quotes(s)[s[i].marketOrderId] == QuoteOf(s[i])
    ensures forall id :: id in Quotes(s) ==> exists i :: 0 <= i < |s| && s[i].marketOrderId == id
    decreases |s|
  {
    if s != [] {
      QuotesAre(s[1..]);
      forall id | id in Quotes(s) ensures exists i :: 0 <= i < |s| && s[i].marketOrderId == id {
        if id == s[0].marketOrderId {
          assert s[0].marketOrderId == id;
        } else {
          var i :| 0 <= i < |s[1..]| && s[1..][i].marketOrderId == id;
          assert s[i + 1].marketOrderId == id;
        }
      }
    }
  }

  // ----- one request

  lemma {:induction false} FrontIsFresh(s: seq<Order>)
    requires UniqueIds(s) && s != []
    ensures s[0].marketOrderId !in Quotes(s[1..])
    ensures Quotes(s[1..]) == Quotes(s) - {s[0].marketOrderId}
  {
    QuotesAre(s[1..]);
  }

  lemma {:induction false} QuotesAfterFill(s: seq<Order>, leaves: nat)
    requires s != [] && s[0].qty > leaves
    ensures Quotes(AfterFill(s, leaves)) ==
            Quotes(s)[s[0].marketOrderId := QuoteOf(s[0]).(qty := s[0].qty - leaves)]
  {
    assert AfterFill(s, leaves)[1..] == s[1..];
  }

  lemma {:induction false} ReplayFill(a: Aggressor, s: seq<Order>, leaves: nat, others: Feed)
    requires UniqueIds(s) && s != [] && Quotes(s).Keys !! others.Keys
    ensures Replay(Quotes(s) + others, FillUpdates(a, s[0], leaves)) == Quotes(AfterFill(s, leaves)) + others
    ensures Quotes(s[1..]).Keys !! others.Keys
  {
    var m := Quotes(s) + others;
    var us := FillUpdates(a, s[0], leaves);
    ReplayTwo(m, us[0], us[1]);
    assert us == [us[0], us[1]];
    assert Replay(m, us) == Apply(m, us[1]);
    FrontIsFresh(s);
    assert s[0].marketOrderId in Quotes(s) && s[0].marketOrderId !in others;
    if s[0].qty <= leaves {
      assert Apply(m, us[1]) == m - {s[0].marketOrderId};
    } else {
      QuotesAfterFill(s, leaves);
      assert Apply(m, us[1]) == m[s[0].marketOrderId := QuoteOf(s[0]).(qty := s[0].qty - leaves)];
    }
  }

  lemma {:induction false} ReplaySweep(a: Aggressor, s: seq<Order>, leaves: nat, others: Feed)
    requires UniqueIds(s) && Quotes(s).Keys !! others.Keys
    requires forall i :: 0 <= i < |s| ==> s[i].qty > 0
    ensures Replay(Quotes(s) + others, Sweep(a, s, leaves).updates) == Quotes(Sweep(a, s, leaves).resting) + others
    decreases |s|
  {
    hide Quotes, FillUpdates, FillResponses, Apply;
    if leaves > 0 && s != [] && Crosses(a.side, a.price, s[0].price) {
      ReplayFill(a, s, leaves, others);
      if s[0].qty <= leaves {
        var rest := leaves - s[0].qty;
        ReplaySweep(a, s[1..], rest, others);
        ReplayConcat(Quotes(s) + others, FillUpdates(a, s[0], leaves), Sweep(a, s[1..], rest).updates);
      }
    }
  }

  lemma {:induction false} QuotesOfPlaced(side: Side, s: seq<Order>, o: Order)
    requires forall i :: 0 <= i < |s| ==> s[i].marketOrderId != o.marketOrderId
    ensures Quotes(Place(side, s, o)) == Quotes(s)[o.marketOrderId := QuoteOf(o)]
    decreases |s|
  {
    if s == [] || Better(side, o.price, s[0].price) {
      assert ([o] + s)[1..] == s;
    } else {
      assert ([s[0]] + Place(side, s[1..], o))[1..] == Place(side, s[1..], o);
      QuotesOfPlaced(side, s[1..], o);
    }
  }

  lemma {:induction false} QuotesWithout(s: seq<Order>, k: nat)
    requires UniqueIds(s) && k < |s|
    ensures Quotes(Without(s, k)) == Quotes(s) - {s[k].marketOrderId}
    decreases |s|
  {
    if k == 0 {
      FrontIsFresh(s);
      assert Without(s, 0) == s[1..];
    } else {
      QuotesWithout(s[1..], k - 1);
      assert Without(s, k) == [s[0]] + Without(s[1..], k - 1);
      assert Without(s, k)[1..] == Without(s[1..], k - 1);
    }
  }

  lemma {:induction false} GoodSideIsUnique(side: Side, nextId: nat, s: seq<Order>)
    requires GoodSide(side, nextId, s)
    ensures UniqueIds(s) && forall id :: id in Quotes(s) ==> id < nextId
  {
    forall i, j | 0 <= i < j < |s| ensures s[i].marketOrderId != s[j].marketOrderId {
      assert Different(s[i], s[j]);
    }
    QuotesAre(s);
  }

  lemma {:induction false} SeparateQuotes(s: seq<Order>, t: seq<Order>)
    requires Separate(s, t) && UniqueIds(s) && UniqueIds(t)
    ensures Quotes(s).Keys !! Quotes(t).Keys
  {
    QuotesAre(s);
    QuotesAre(t);
    forall id | id in Quotes(s) ensures id !in Quotes(t) {
      var i :| 0 <= i < |s| && s[i].marketOrderId == id;
      assert forall j :: 0 <= j < |t| ==> Different(s[i], t[j]);
    }
  }

  lemma SidesAreUnique(b: Book)
    requires WellFormed(b)
    ensures UniqueIds(b.bids) && UniqueIds(b.asks)
    ensures Quotes(b.bids).Keys !! Quotes(b.asks).Keys
    ensures forall id :: id in Resting(b) ==> id < b.nextId
  {
    GoodSideIsUnique(BUY, b.nextId, b.bids);
    GoodSideIsUnique(SELL, b.nextId, b.asks);
    SeparateQuotes(b.bids, b.asks);
  }

  lemma RestingFrom(b: Book, side: Side)
    requires WellFormed(b) && side != Side.INVALID
    ensures Resting(b) == Quotes(b.On(side)) + Quotes(b.On(side.Opposite()))
    ensures UniqueIds(b.On(side)) && Quotes(b.On(side)).Keys !! Quotes(b.On(side.Opposite())).Keys
  {
    SidesAreUnique(b);
  }

  lemma {:induction false} RestingOfPlaced(b: Book, side: Side, o: Order)
    requires WellFormed(b) && side != Side.INVALID && o.marketOrderId !in Resting(b)
    ensures Resting(b.With(side, Place(side, b.On(side), o))) == Resting(b)[o.marketOrderId := QuoteOf(o)]
  {
    SidesAreUnique(b);
    var s := b.On(side);
    assert forall i :: 0 <= i < |s| ==> s[i].marketOrderId != o.marketOrderId by {
      QuotesAre(s);
    }
    QuotesOfPlaced(side, s, o);
    var placed := Quotes(s)[o.marketOrderId := QuoteOf(o)];
    if side == BUY {
      assert placed + Quotes(b.asks) == Resting(b)[o.marketOrderId := QuoteOf(o)];
    } else {
      assert Quotes(b.bids) + placed == Resting(b)[o.marketOrderId := QuoteOf(o)];
    }
  }

  lemma {:induction false} SweepReplays(b: Book, r: ClientRequest)
    requires WellFormed(b) && r.side != Side.INVALID
    ensures Replay(Resting(b), SweepFor(b, r).updates) == Resting(MatchedBook(b, r))
    ensures WellFormed(MatchedBook(b, r)) && b.nextId !in Resting(MatchedBook(b, r))
  {
    var opposite := r.side.Opposite();
    var m := MatchedBook(b, r);
    RestingFrom(b, opposite);
    var k := MatchKeepsWellFormed(b, r);
    RestingFrom(m, opposite);
    ReplaySweep(AggressorOf(r, b.nextId), b.On(opposite), r.qty, Quotes(b.On(r.side)));
    SidesAreUnique(m.(nextId := b.nextId));
    assert Resting(m) == Resting(m.(nextId := b.nextId));
  }

  lemma {:induction false} AddReplays(b: Book, r: ClientRequest)
    requires WellFormed(b) && r.kind == New && Legal(b, r)
    ensures Replay(Resting(b), AddOrder(b, r).updates) == Resting(AddOrder(b, r).book)
  {
    SweepReplays(b, r);
    if SweepFor(b, r).leaves > 0 {
      var o := RestedOrder(b, r);
      ReplayConcat(Resting(b), SweepFor(b, r).updates, [AddUpdate(o)]);
      ReplayTwo(Resting(MatchedBook(b, r)), AddUpdate(o), AddUpdate(o));
      RestingOfPlaced(MatchedBook(b, r), r.side, o);
    }
  }

  lemma MinusOne(m: Feed, n: Feed, id: nat)
    ensures id !in n ==> (m - {id}) + n == (m + n) - {id}
    ensures id !in m ==> m + (n - {id}) == (m + n) - {id}
  {
  }

  lemma RestingWithout(b: Book, side: Side, k: nat)
    requires WellFormed(b) && side != Side.INVALID && k < |b.On(side)|
    ensures Resting(b.With(side, Without(b.On(side), k))) == Resting(b) - {b.On(side)[k].marketOrderId}
  {
    hide Quotes, Without, WellFormed;
    RestingFrom(b, side);
    QuotesAre(b.On(side));
    QuotesWithout(b.On(side), k);
    MinusOne(Quotes(b.bids), Quotes(b.asks), b.On(side)[k].marketOrderId);
  }

  lemma {:induction false} CancelOnReplays(b: Book, r: ClientRequest, side: Side)
    requires WellFormed(b) && side != Side.INVALID
    requires Find(b.On(side), r.client, r.orderId) < |b.On(side)|
    ensures Replay(Resting(b), CancelOn(b, r, side).updates) == Resting(CancelOn(b, r, side).book)
  {
    var k := Find(b.On(side), r.client, r.orderId);
    RestingWithout(b, side, k);
    var u := CancelUpdate(r, b.On(side)[k]);
    ReplayTwo(Resting(b), u, u);
  }

  lemma ProcessReplays(b: Book, r: ClientRequest)
    requires WellFormed(b) && Legal(b, r)
    ensures Replay(Resting(b), Process(b, r).updates) == Resting(Process(b, r).book)
  {
    if r.kind == New {
      AddReplays(b, r);
    } else if Find(b.bids, r.client, r.orderId) < |b.bids| {
      CancelOnReplays(b, r, BUY);
    } else if Find(b.asks, r.client, r.orderId) < |b.asks| {
      CancelOnReplays(b, r, SELL);
    }
  }

  // ----- whole runs

  lemma {:induction false} RunReplaysFrom(b: Book, rs: seq<ClientRequest>)
    requires WellFormed(b) && LegalRun(b, rs)
    ensures Replay(Resting(b), Run(b, rs).updates) == Resting(Run(b, rs).book)
    decreases |rs|
  {
    if rs != [] {
      var first := Process(b, rs[0]);
      ProcessReplays(b, rs[0]);
      ProcessKeepsWellFormed(b, rs[0]);
      RunReplaysFrom(first.book, rs[1..]);
      ReplayConcat(Resting(b), first.updates, Run(first.book, rs[1..]).updates);
    }
  }

  /** Replaying everything the book ever published, from nothing, gives exactly its orders. */
  lemma {:induction false} RunReplays(rs: seq<ClientRequest>)
    requires LegalRun(EMPTY_BOOK, rs)
    ensures Replay(map[], Run(EMPTY_BOOK, rs).updates) == Resting(Run(EMPTY_BOOK, rs).book)
  {
    RunReplaysFrom(EMPTY_BOOK, rs);
  }

  // ----- the feed determines the queues

  /** The same public order. */
  predicate SameQuote(x: Order, y: Order) {
    x.marketOrderId == y.marketOrderId && QuoteOf(x) == QuoteOf(y)
  }

  lemma {:induction false} FrontIsNoLater(side: Side, m: nat, s: seq<Order>, t: seq<Order>)
    requires GoodSide(side, m, s) && UniqueIds(s) && UniqueIds(t) && Quotes(s) == Quotes(t) && t != []
    ensures s != [] && (SameQuote(s[0], t[0]) || Before(side, s[0], t[0]))
  {
    QuotesAre(s);
    QuotesAre(t);
    assert t[0].marketOrderId in Quotes(s);
    var j :| 0 <= j < |s| && s[j].marketOrderId == t[0].marketOrderId;
    assert QuoteOf(s[j]) == QuoteOf(t[0]);
  }

  lemma {:induction false} QuotesFixFront(side: Side, m: nat, s: seq<Order>, n: nat, t: seq<Order>)
    requires side != Side.INVALID && GoodSide(side, m, s) && GoodSide(side, n, t)
    requires UniqueIds(s) && UniqueIds(t) && Quotes(s) == Quotes(t) && s != []
    ensures t != [] && SameQuote(s[0], t[0])
  {
    FrontIsNoLater(side, n, t, s);
    FrontIsNoLater(side, m, s, t);
  }

  lemma {:induction false} QuotesFixOrder(side: Side, m: nat, s: seq<Order>, n: nat, t: seq<Order>)
    requires side != Side.INVALID && GoodSide(side, m, s) && GoodSide(side, n, t)
    requires UniqueIds(s) && UniqueIds(t) && Quotes(s) == Quotes(t)
    ensures |s| == |t| && forall i :: 0 <= i < |s| ==> SameQuote(s[i], t[i])
    decreases |s|
  {
    if s == [] {
      if |t| > 0 {
        QuotesFixFront(side, n, t, m, s);
      }
    } else {
      QuotesFixFront(side, m, s, n, t);
      FrontIsFresh(s);
      FrontIsFresh(t);
      TailIsGood(side, m, s);
      TailIsGood(side, n, t);
      QuotesFixOrder(side, m, s[1..], n, t[1..]);
      forall k | 0 <= k < |s| ensures SameQuote(s[k], t[k]) {
        assert k > 0 ==> s[k] == s[1..][k - 1] && t[k] == t[1..][k - 1];
      }
    }
  }

  /** Membership of one side, read off the feed. */
  lemma QuotesOfSide(b: Book, side: Side, id: nat)
    requires WellFormed(b) && side != Side.INVALID
    ensures id in Quotes(b.On(side)) <==> id in Resting(b) && Resting(b)[id].side == side
    ensures id in Quotes(b.On(side)) ==> Quotes(b.On(side))[id] == Resting(b)[id]
  {
    hide Quotes;
    RestingFrom(b, side);
    RestingFrom(b, side.Opposite());
    QuotesAre(b.On(side));
    QuotesAre(b.On(side.Opposite()));
  }

  /** Two books with the same feed hold the same orders in the same queue order. */
  lemma SameFeedSameSide(b: Book, c: Book, side: Side)
    requires WellFormed(b) && WellFormed(c) && side != Side.INVALID
    requires Resting(b) == Resting(c)
    ensures |b.On(side)| == |c.On(side)|
    ensures forall i :: 0 <= i < |b.On(side)| ==> SameQuote(b.On(side)[i], c.On(side)[i])
  {
    forall id: nat
      ensures id in Quotes(b.On(side)) <==> id in Quotes(c.On(side))
      ensures id in Quotes(b.On(side)) ==> Quotes(b.On(side))[id] == Quotes(c.On(side))[id]
    {
      QuotesOfSide(b, side, id);
      QuotesOfSide(c, side, id);
    }
    assert Quotes(b.On(side)) == Quotes(c.On(side));
    RestingFrom(b, side);
    RestingFrom(c, side);
    QuotesFixOrder(side, b.nextId, b.On(side), c.nextId, c.On(side));
  }
}
