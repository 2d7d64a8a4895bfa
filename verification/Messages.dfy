/** What a request makes the book say, field by field, told from the request and the book before it. */
module Messages {
  import opened Types
  import opened BookSpec
  import opened BookInvariant
  import opened PriceTime

  // ----- a new order

  /** The acceptance: the request as it came, under the next id, nothing executed yet. */
  predicate IsAcceptance(m: ClientResponse, r: ClientRequest, id: nat) {
    && m.kind == Accepted && m.client == r.client && m.ticker == r.ticker && m.clientOrderId == r.orderId
    && m.marketOrderId == id && m.side == r.side && m.price == r.price && m.execQty == 0 && m.leavesQty == r.qty
  }

  /** The announcement of what rests. */
  predicate IsAnnouncement(u: MarketUpdate, r: ClientRequest, id: nat, leaves: nat) {
    && u.kind == Add && u.orderId == id && u.ticker == r.ticker && u.side == r.side && u.price == r.price
    && u.qty == leaves
  }

  /** The resting order is the request's, with what the trades left. */
  predicate IsRest(o: Order, r: ClientRequest, id: nat, leaves: nat) {
    && o.client == r.client && o.ticker == r.ticker && o.clientOrderId == r.orderId && o.marketOrderId == id
    && o.side == r.side && o.price == r.price && o.qty == leaves
  }

  /** The incoming order as its fills name it. */
  function Incoming(r: ClientRequest, id: nat): Aggressor {
    Aggressor(r.ticker, r.client, r.orderId, id % 0x1_0000_0000, r.side, r.price)
  }

  /** A new order's messages: the acceptance, then per trading order the four messages of its fill, and at
      the end the announcement exactly when the opposite side within the limit is less than the quantity. */
  lemma AddReports(b: Book, r: ClientRequest) returns (n: nat)
    requires WellFormed(b) && r.kind == New && r.side != Side.INVALID
    ensures var d, s, a := Process(b, r), b.On(r.side.Opposite()), Incoming(r, b.nextId);
            && FrontTrades(a, s, r.qty, n)
            && |d.responses| == 1 + 2 * n && IsAcceptance(d.responses[0], r, b.nextId)
            && (forall i :: 0 <= i < n ==> FillSent(a, s, r.qty, i, Swept([], 0, d.responses[1..], d.updates)))
            && |d.updates| == 2 * n + (if Covered(b, r) then 0 else 1)
            && d.book.nextId == b.nextId + 1
            && (!Covered(b, r) ==>
                  var left := r.qty - CrossingQty(r.side, r.price, s);
                  && IsAnnouncement(d.updates[2 * n], r, b.nextId, left)
                  && exists k :: 0 <= k < |d.book.On(r.side)| && IsRest(d.book.On(r.side)[k], r, b.nextId, left)
                                 && d.book.On(r.side)[k].priority == d.updates[2 * n].priority)
  {
    hide Sweep, Place, NextPriority, Crosses;
    var s, a := b.On(r.side.Opposite()), AggressorOf(r, b.nextId);
    assert GoodSide(r.side.Opposite(), b.nextId, s);
    n := SweepIsPriceTime(a, b.nextId, s, r.qty);
    LeavesExceedCrossing(a, b.nextId, s, r.qty);
    var d, w := AddOrder(b, r), SweepFor(b, r);
    assert d.responses[1..] == w.responses;
    forall i | 0 <= i < n ensures FillSent(a, s, r.qty, i, Swept([], 0, w.responses, d.updates)) {
      assert FillSent(a, s, r.qty, i, w);
      assert d.updates[2 * i] == w.updates[2 * i] && d.updates[2 * i + 1] == w.updates[2 * i + 1];
    }
    if !Covered(b, r) {
      var k := PlaceInserts(r.side, MatchedBook(b, r).On(r.side), RestedOrder(b, r));
      assert d.book.On(r.side)[k] == RestedOrder(b, r);
    }
  }

  // ----- a cancel

  /** The confirmation carries the order as it rested, and nothing executed. */
  predicate IsConfirmation(m: ClientResponse, r: ClientRequest, o: Order) {
    && m.kind == Canceled && m.client == r.client && m.ticker == r.ticker && m.clientOrderId == r.orderId
    && m.marketOrderId == o.marketOrderId && m.side == o.side && m.price == o.price
    && m.execQty == QTY_INVALID && m.leavesQty == o.qty
  }

  /** The removal names the order's own side, price and priority, whatever the request says. */
  predicate IsRemoval(u: MarketUpdate, r: ClientRequest, o: Order) {
    && u.kind == Remove && u.orderId == o.marketOrderId && u.ticker == r.ticker
    && u.side == o.side && u.price == o.price && u.qty == 0 && u.priority == o.priority
  }

  predicate IsRejection(m: ClientResponse, r: ClientRequest) {
    && m.kind == CancelRejected && m.client == r.client && m.ticker == r.ticker && m.clientOrderId == r.orderId
    && m.marketOrderId == ORDER_ID_INVALID && m.side == Side.INVALID && m.price == PRICE_INVALID
    && m.execQty == QTY_INVALID && m.leavesQty == QTY_INVALID
  }

  /** The cancel of a resting order confirms and removes that order. */
  lemma CancelReports(b: Book, r: ClientRequest, side: Side, i: nat)
    requires WellFormed(b) && r.kind == Cancel && side != Side.INVALID && i < |b.On(side)| && IsFor(b.On(side)[i], r)
    ensures var d, o := Process(b, r), b.On(side)[i];
            && |d.responses| == 1 && IsConfirmation(d.responses[0], r, o)
            && |d.updates| == 1 && IsRemoval(d.updates[0], r, o)
            && d.book == b.With(side, b.On(side)[..i] + b.On(side)[i + 1..])
  {
    OnlyOneIs(b, r, side, i);
  }

  lemma OnlyOneIs(b: Book, r: ClientRequest, side: Side, i: nat)
    requires WellFormed(b) && side != Side.INVALID && i < |b.On(side)| && IsFor(b.On(side)[i], r)
    ensures Find(b.On(side), r.client, r.orderId) == i
    ensures Find(b.On(side.Opposite()), r.client, r.orderId) == |b.On(side.Opposite())|
  {
    var s, u := b.On(side), b.On(side.Opposite());
    assert GoodSide(side, b.nextId, s);
    forall j | 0 <= j < i ensures !IsFor(s[j], r) {
      assert Different(s[j], s[i]);
    }
    forall j | 0 <= j < |u| ensures !IsFor(u[j], r) {
      assert if side == BUY then Different(s[i], u[j]) else Different(u[j], s[i]);
    }
  }

  /** Without such an order the cancel is rejected, and nothing else happens. */
  lemma RejectReports(b: Book, r: ClientRequest)
    requires r.kind == Cancel && Absent(b.bids, r) && Absent(b.asks, r)
    ensures var d := Process(b, r);
            |d.responses| == 1 && IsRejection(d.responses[0], r) && d.updates == [] && d.book == b
  {
  }
}
