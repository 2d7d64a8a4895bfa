/** What the public feed may say next: a subscriber that checks every update against the quotes it knows. */
module FeedWatch {
  import opened Types
  import opened BookSpec
  import opened BookInvariant
  import opened FeedReplay

  /** Traded: a trade was announced, and the next update has to say what became of the resting order. */
  datatype Watch =
    | Broken
    | Open(quotes: Feed)
    | Traded(quotes: Feed, side: Side, price: int, qty: nat)

  /** No quote of its side trades before this one. */
  ghost predicate InFront(quotes: Feed, id: nat) {
    && id in quotes
    && forall other :: other in quotes && other != id && quotes[other].side == quotes[id].side ==>
         quotes[id].side != Side.INVALID
         && (if quotes[id].side == BUY then quotes[id].price >= quotes[other].price
             else quotes[id].price <= quotes[other].price)
         && (quotes[id].price == quotes[other].price ==> quotes[id].priority < quotes[other].priority)
  }

  /** The last quote at its price. */
  ghost predicate Behind(quotes: Feed, u: MarketUpdate) {
    forall other :: other in quotes && quotes[other].side == u.side && quotes[other].price == u.price ==>
      quotes[other].priority < u.priority
  }

  /** An addition is a new id with something to trade, last at its price.  A removal or a modification names a
      known quote with its side and price.  After a trade it must be the quote in front of the other side, at
      the trade's price: removed with its whole quantity when that traded, otherwise reduced by what traded
      and keeping its priority.  Without a trade a removal is a cancel, with quantity 0 and the quote's
      priority. */
  ghost function See(w: Watch, u: MarketUpdate): Watch {
    match w
    case Broken => Broken
    case Open(quotes) =>
      if u.kind == Add && u.orderId !in quotes && u.side != Side.INVALID && u.qty > 0 && Behind(quotes, u) then
        Open(quotes[u.orderId := Quote(u.side, u.price, u.qty, u.priority)])
      else if u.kind == Trade && u.side != Side.INVALID && u.qty > 0
              && u.orderId == ORDER_ID_INVALID && u.priority == PRIORITY_INVALID then
        Traded(quotes, u.side, u.price, u.qty)
      else if u.kind == Remove && u.orderId in quotes
              && Quote(u.side, u.price, quotes[u.orderId].qty, u.priority) == quotes[u.orderId] && u.qty == 0 then
        Open(quotes - {u.orderId})
      else
        Broken
    case Traded(quotes, side, price, qty) =>
      if !InFront(quotes, u.orderId) || u.side != quotes[u.orderId].side || u.price != quotes[u.orderId].price
         || u.side == side || u.price != price then
        Broken
      else if u.kind == Remove && u.qty == quotes[u.orderId].qty == qty && u.priority == PRIORITY_INVALID then
        Open(quotes - {u.orderId})
      else if u.kind == Modify && 0 < u.qty == quotes[u.orderId].qty - qty
              && u.priority == quotes[u.orderId].priority then
        Open(quotes[u.orderId := quotes[u.orderId].(qty := u.qty)])
      else
        Broken
  }

  ghost function SeeAll(w: Watch, us: seq<MarketUpdate>): Watch
    decreases |us|
  {
    if us == [] then w else SeeAll(See(w, us[0]), us[1..])
  }

  lemma {:induction false} SeeConcat(w: Watch, us: seq<MarketUpdate>, vs: seq<MarketUpdate>)
    ensures SeeAll(w, us + vs) == SeeAll(SeeAll(w, us), vs)
    decreases |us|
  {
    if us == [] {
      assert us + vs == vs;
    } else {
      assert (us + vs)[1..] == us[1..] + vs;
      SeeConcat(See(w, us[0]), us[1..], vs);
    }
  }

  lemma {:induction false} SeeTwo(w: Watch, u: MarketUpdate, v: MarketUpdate)
    ensures SeeAll(w, [u]) == See(w, u) && SeeAll(w, [u, v]) == See(See(w, u), v)
  {
    assert [u][1..] == [] && [v][1..] == [] && [u, v][1..] == [v];
    assert SeeAll(w, [u, v]) == SeeAll(See(w, u), [v]);
  }

  // ----- matching

  /** The quotes of one side beside quotes of other sides only. */
  ghost predicate OneSide(side: Side, nextId: nat, s: seq<Order>, others: Feed) {
    && GoodSide(side, nextId, s) && UniqueIds(s) && Quotes(s).Keys !! others.Keys
    && forall id :: id in others ==> others[id].side != side
  }

  lemma {:induction false} FrontIsInFront(side: Side, nextId: nat, s: seq<Order>, others: Feed)
    requires side != Side.INVALID && OneSide(side, nextId, s, others) && s != []
    ensures InFront(Quotes(s) + others, s[0].marketOrderId)
    ensures (Quotes(s) + others)[s[0].marketOrderId] == QuoteOf(s[0])
  {
    hide Quotes;
    QuotesAre(s);
    var m, id := Quotes(s) + others, s[0].marketOrderId;
    assert GoodOrder(side, nextId, s[0]) && id in Quotes(s) && id !in others;
    forall other | other in m && other != id && m[other].side == side
      ensures if side == BUY then s[0].price >= m[other].price else s[0].price <= m[other].price
      ensures s[0].price == m[other].price ==> s[0].priority < m[other].priority
    {
      assert other in Quotes(s);
      var i :| 0 <= i < |s| && s[i].marketOrderId == other;
      assert Before(side, s[0], s[i]) && m[other] == QuoteOf(s[i]);
    }
  }

  lemma {:induction false} FillIsSeen(a: Aggressor, nextId: nat, s: seq<Order>, leaves: nat, others: Feed)
    requires a.side != Side.INVALID && OneSide(a.side.Opposite(), nextId, s, others) && s != [] && leaves > 0
    ensures SeeAll(Open(Quotes(s) + others), FillUpdates(a, s[0], leaves))
            == Open(Quotes(AfterFill(s, leaves)) + others)
  {
    hide Quotes, InFront, SeeAll;
    var m, us, o := Quotes(s) + others, FillUpdates(a, s[0], leaves), s[0];
    assert GoodOrder(a.side.Opposite(), nextId, o);
    FrontIsInFront(a.side.Opposite(), nextId, s, others);
    ReplayFill(a, s, leaves, others);
    ReplayTwo(m, us[0], us[1]);
    SeeTwo(Open(m), us[0], us[1]);
    assert us == [us[0], us[1]];
    InFrontIsKnown(m, o.marketOrderId);
  }

  lemma InFrontIsKnown(quotes: Feed, id: nat)
    requires InFront(quotes, id)
    ensures id in quotes
  {
  }

  lemma {:induction false} TailIsOneSide(side: Side, nextId: nat, s: seq<Order>, others: Feed)
    requires OneSide(side, nextId, s, others) && s != []
    ensures OneSide(side, nextId, s[1..], others)
  {
    hide Quotes;
    TailIsGood(side, nextId, s);
    FrontIsFresh(s);
  }

  lemma {:induction false} SweepIsSeen(a: Aggressor, nextId: nat, s: seq<Order>, leaves: nat, others: Feed)
    requires a.side != Side.INVALID && OneSide(a.side.Opposite(), nextId, s, others)
    ensures SeeAll(Open(Quotes(s) + others), Sweep(a, s, leaves).updates)
            == Open(Quotes(Sweep(a, s, leaves).resting) + others)
    decreases |s|
  {
    hide Quotes, FillUpdates, FillResponses, See, OneSide;
    if leaves > 0 && s != [] && Crosses(a.side, a.price, s[0].price) {
      FillIsSeen(a, nextId, s, leaves, others);
      if s[0].qty <= leaves {
        var rest := leaves - s[0].qty;
        TailIsOneSide(a.side.Opposite(), nextId, s, others);
        SweepIsSeen(a, nextId, s[1..], rest, others);
        SeeConcat(Open(Quotes(s) + others), FillUpdates(a, s[0], leaves), Sweep(a, s[1..], rest).updates);
      }
    }
  }

  // ----- requests

  lemma {:induction false} BookIsOneSide(b: Book, side: Side)
    requires WellFormed(b) && side != Side.INVALID
    ensures OneSide(side, b.nextId, b.On(side), Quotes(b.On(side.Opposite())))
    ensures Resting(b) == Quotes(b.On(side)) + Quotes(b.On(side.Opposite()))
  {
    hide Quotes;
    RestingFrom(b, side);
    var t := b.On(side.Opposite());
    RestingFrom(b, side.Opposite());
    QuotesAre(t);
    assert GoodSide(side.Opposite(), b.nextId, t);
    forall id | id in Quotes(t) ensures Quotes(t)[id].side != side {
      var i :| 0 <= i < |t| && t[i].marketOrderId == id;
      assert GoodOrder(side.Opposite(), b.nextId, t[i]);
    }
  }

  lemma {:induction false} MatchIsSeen(b: Book, r: ClientRequest)
    requires WellFormed(b) && r.side != Side.INVALID
    ensures SeeAll(Open(Resting(b)), SweepFor(b, r).updates) == Open(Resting(MatchedBook(b, r)))
  {
    hide Quotes, Resting, SeeAll, Sweep, OneSide;
    var opposite, own := r.side.Opposite(), b.On(r.side);
    BookIsOneSide(b, opposite);
    SweepIsSeen(AggressorOf(r, b.nextId), b.nextId, b.On(opposite), r.qty, Quotes(own));
    var k := MatchKeepsWellFormed(b, r);
    BookIsOneSide(MatchedBook(b, r), opposite);
  }

  lemma {:induction false} RestIsBehind(b: Book, side: Side, o: Order)
    requires WellFormed(b) && side != Side.INVALID && o.side == side && o.priority == NextPriority(b.On(side), o.price)
    ensures Behind(Resting(b), AddUpdate(o))
  {
    hide Quotes, NextPriority;
    BookIsOneSide(b, side);
    var s := b.On(side);
    QuotesAre(s);
    assert GoodSide(side, b.nextId, s);
    NextPriorityIsFresh(side, b.nextId, s, o.price);
    forall id | id in Resting(b) && Resting(b)[id].side == side && Resting(b)[id].price == o.price
      ensures Resting(b)[id].priority < o.priority
    {
      assert id in Quotes(s);
      var i :| 0 <= i < |s| && s[i].marketOrderId == id;
      assert Resting(b)[id] == QuoteOf(s[i]);
    }
  }

  lemma {:induction false} AddIsSeen(b: Book, r: ClientRequest)
    requires WellFormed(b) && r.kind == New && Legal(b, r)
    ensures SeeAll(Open(Resting(b)), AddOrder(b, r).updates) == Open(Resting(AddOrder(b, r).book))
  {
    hide Quotes, Resting, SeeAll, Sweep, Behind, Live, Place, NextPriority;
    MatchIsSeen(b, r);
    if SweepFor(b, r).leaves > 0 {
      var m, o := MatchedBook(b, r), RestedOrder(b, r);
      SweepReplays(b, r);
      SeeConcat(Open(Resting(b)), SweepFor(b, r).updates, [AddUpdate(o)]);
      SeeTwo(Open(Resting(m)), AddUpdate(o), AddUpdate(o));
      var k := MatchKeepsWellFormed(b, r);
      RestIsBehind(m, r.side, o);
      RestingOfPlaced(m, r.side, o);
    }
  }

  lemma {:induction false} CancelIsSeen(b: Book, r: ClientRequest, side: Side)
    requires WellFormed(b) && side != Side.INVALID
    requires Find(b.On(side), r.client, r.orderId) < |b.On(side)|
    ensures SeeAll(Open(Resting(b)), CancelOn(b, r, side).updates) == Open(Resting(CancelOn(b, r, side).book))
  {
    hide Quotes, SeeAll;
    var s := b.On(side);
    var k := Find(s, r.client, r.orderId);
    RestingWithout(b, side, k);
    BookIsOneSide(b, side);
    QuotesAre(s);
    var u := CancelUpdate(r, s[k]);
    assert Resting(b)[s[k].marketOrderId] == QuoteOf(s[k]);
    SeeTwo(Open(Resting(b)), u, u);
  }

  lemma {:induction false} ProcessIsSeen(b: Book, r: ClientRequest)
    requires WellFormed(b) && Legal(b, r)
    ensures SeeAll(Open(Resting(b)), Process(b, r).updates) == Open(Resting(Process(b, r).book))
  {
    hide Resting, See, Legal, AddOrder;
    if r.kind == New {
      AddIsSeen(b, r);
    } else if Find(b.bids, r.client, r.orderId) < |b.bids| {
      CancelIsSeen(b, r, BUY);
    } else if Find(b.asks, r.client, r.orderId) < |b.asks| {
      CancelIsSeen(b, r, SELL);
    }
  }

  lemma {:induction false} RunIsSeenFrom(b: Book, rs: seq<ClientRequest>)
    requires WellFormed(b) && LegalRun(b, rs)
    ensures SeeAll(Open(Resting(b)), Run(b, rs).updates) == Open(Resting(Run(b, rs).book))
    decreases |rs|
  {
    hide Resting, See, Legal, Process, WellFormed;
    if rs != [] {
      var first := Process(b, rs[0]);
      ProcessIsSeen(b, rs[0]);
      ProcessKeepsWellFormed(b, rs[0]);
      RunIsSeenFrom(first.book, rs[1..]);
      SeeConcat(Open(Resting(b)), first.updates, Run(first.book, rs[1..]).updates);
    }
  }

  /** Over every legal run the subscriber never sees an update that it must not, no trade is left without its
      consequence, and what it knows in the end is the book. */
  lemma {:induction false} RunIsSeen(rs: seq<ClientRequest>)
    requires LegalRun(EMPTY_BOOK, rs)
    ensures SeeAll(Open(map[]), Run(EMPTY_BOOK, rs).updates) == Open(Resting(Run(EMPTY_BOOK, rs).book))
  {
    RunIsSeenFrom(EMPTY_BOOK, rs);
  }
}
