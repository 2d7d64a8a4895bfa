/** The order book as a value: each side is the sequence of its resting orders, the order
    that trades first in front.  This is what the linked structure has to compute. */
module BookSpec {
  import opened Types

  datatype Order = Order(
    ticker: nat, client: nat, clientOrderId: nat, marketOrderId: nat,
    side: Side, price: int, qty: nat, priority: nat)

  datatype Book = Book(bids: seq<Order>, asks: seq<Order>, nextId: nat) {
    function On(side: Side): seq<Order> {
      if side == BUY then bids else asks
    }

    function With(side: Side, orders: seq<Order>): Book {
      if side == BUY then this.(bids := orders) else this.(asks := orders)
    }
  }

  const EMPTY_BOOK := Book([], [], 1)

  /** A book together with the messages sent on the way to it. */
  datatype Outcome = Outcome(book: Book, responses: seq<ClientResponse>, updates: seq<MarketUpdate>)

  // ----- price and time priority

  /** A level at price p trades before a level at price q. */
  predicate Better(side: Side, p: int, q: int) {
    if side == BUY then p > q else p < q
  }

  /** An incoming order on this side, limited at limit, trades with a resting order at price p. */
  predicate Crosses(side: Side, limit: int, p: int) {
    if side == BUY then p <= limit else p >= limit
  }

  // ----- matching

  /** The incoming order as the matching loop knows it. */
  datatype Aggressor = Aggressor(
    ticker: nat, client: nat, clientOrderId: nat, marketOrderId: nat, side: Side, price: int)

  datatype Swept = Swept(
    resting: seq<Order>, leaves: nat, responses: seq<ClientResponse>, updates: seq<MarketUpdate>)

  function AggressorFill(a: Aggressor, price: int, fill: nat, leaves: nat): ClientResponse {
    ClientResponse(Filled, a.client, a.ticker, a.clientOrderId, a.marketOrderId, a.side, price, fill, leaves)
  }

  function RestingFill(ticker: nat, o: Order, fill: nat, left: nat): ClientResponse {
    ClientResponse(Filled, o.client, ticker, o.clientOrderId, o.marketOrderId, o.side, o.price, fill, left)
  }

  function TradeUpdate(a: Aggressor, price: int, fill: nat): MarketUpdate {
    MarketUpdate(Trade, ORDER_ID_INVALID, a.ticker, a.side, price, fill, PRIORITY_INVALID)
  }

  /** What one fill of the resting order o sends: two responses, a trade, and then the removal of
      o (which carries the quantity o had before the fill) or its new quantity. */
  function FillResponses(a: Aggressor, o: Order, leaves: nat): seq<ClientResponse> {
    var fill := Min(leaves, o.qty);
    [AggressorFill(a, o.price, fill, leaves - fill), RestingFill(a.ticker, o, fill, o.qty - fill)]
  }

  function FillUpdates(a: Aggressor, o: Order, leaves: nat): seq<MarketUpdate> {
    var fill := Min(leaves, o.qty);
    [TradeUpdate(a, o.price, fill),
     if fill == o.qty
     then MarketUpdate(Remove, o.marketOrderId, a.ticker, o.side, o.price, o.qty, PRIORITY_INVALID)
     else MarketUpdate(Modify, o.marketOrderId, a.ticker, o.side, o.price, o.qty - fill, o.priority)]
  }

  /** Trade with the front of the opposite side while it crosses and quantity is left. */
  function Sweep(a: Aggressor, resting: seq<Order>, leaves: nat): Swept
    decreases |resting|
  {
    if leaves == 0 || resting == [] || !Crosses(a.side, a.price, resting[0].price) then
      Swept(resting, leaves, [], [])
    else
      var o := resting[0];
      var fill := Min(leaves, o.qty);
      var rs, us := FillResponses(a, o, leaves), FillUpdates(a, o, leaves);
      if fill == o.qty then
        var s := Sweep(a, resting[1..], leaves - fill);
        Swept(s.resting, s.leaves, rs + s.responses, us + s.updates)
      else
        Swept([o.(qty := o.qty - fill)] + resting[1..], leaves - fill, rs, us)
  }

  /** The side after one fill of its front order. */
  function AfterFill(s: seq<Order>, leaves: nat): seq<Order>
    requires s != []
  {
    if s[0].qty <= leaves then s[1..] else [s[0].(qty := s[0].qty - leaves)] + s[1..]
  }

  // ----- resting

  /** The order goes behind every resting order that it does not strictly improve on. */
  function Place(side: Side, s: seq<Order>, o: Order): seq<Order> {
    if s == [] || Better(side, o.price, s[0].price) then [o] + s
    else [s[0]] + Place(side, s[1..], o)
  }

  /** One more than the priority of the last order at this price, or 1. */
  function NextPriority(s: seq<Order>, price: int): nat {
    if s == [] then 1
    else if s[|s| - 1].price == price then s[|s| - 1].priority + 1
    else NextPriority(s[..|s| - 1], price)
  }

  /** Where the committed text still links a resting order correctly, in a book without bids: an
      existing level, the first ask, or an ask that is not worse than all others. */
  predicate TextRests(b: Book, side: Side, price: int) {
    side == SELL && (b.asks == [] || price <= b.asks[|b.asks| - 1].price)
  }

  // ----- requests

  /** The matching loop receives the 64-bit order id through a 32-bit parameter. */
  function Truncated(id: nat): nat {
    id % QTY_MODULUS
  }

  function AcceptedResponse(r: ClientRequest, id: nat): ClientResponse {
    ClientResponse(Accepted, r.client, r.ticker, r.orderId, id, r.side, r.price, 0, r.qty)
  }

  function AggressorOf(r: ClientRequest, id: nat): Aggressor {
    Aggressor(r.ticker, r.client, r.orderId, Truncated(id), r.side, r.price)
  }

  function RestingOrder(r: ClientRequest, id: nat, leaves: nat, priority: nat): Order {
    Order(r.ticker, r.client, r.orderId, id, r.side, r.price, leaves, priority)
  }

  function AddUpdate(o: Order): MarketUpdate {
    MarketUpdate(Add, o.marketOrderId, o.ticker, o.side, o.price, o.qty, o.priority)
  }

  function SweepFor(b: Book, r: ClientRequest): Swept {
    Sweep(AggressorOf(r, b.nextId), b.On(r.side.Opposite()), r.qty)
  }

  /** The book after matching, before the rest of the incoming order is placed. */
  function MatchedBook(b: Book, r: ClientRequest): Book {
    b.With(r.side.Opposite(), SweepFor(b, r).resting).(nextId := b.nextId + 1)
  }

  function RestedOrder(b: Book, r: ClientRequest): Order {
    RestingOrder(r, b.nextId, SweepFor(b, r).leaves, NextPriority(b.On(r.side), r.price))
  }

  function AddOrder(b: Book, r: ClientRequest): Outcome {
    var s := SweepFor(b, r);
    var accepted := [AcceptedResponse(r, b.nextId)];
    var matched := MatchedBook(b, r);
    if s.leaves == 0 then
      Outcome(matched, accepted + s.responses, s.updates)
    else
      var o := RestedOrder(b, r);
      Outcome(matched.With(r.side, Place(r.side, matched.On(r.side), o)),
              accepted + s.responses, s.updates + [AddUpdate(o)])
  }

  /** Where the committed text handles a new order as meant, in a book without bids. */
  predicate TextAdds(b: Book, r: ClientRequest) {
    SweepFor(b, r).leaves == 0 || TextRests(b, r.side, r.price)
  }

  /** The position of a client's order, or the length of the sequence. */
  function Find(s: seq<Order>, client: nat, clientOrderId: nat): (k: nat)
    ensures k <= |s|
    ensures k < |s| ==> s[k].client == client && s[k].clientOrderId == clientOrderId
    ensures forall i :: 0 <= i < k ==> s[i].client != client || s[i].clientOrderId != clientOrderId
  {
    if s == [] then 0
    else if s[0].client == client && s[0].clientOrderId == clientOrderId then 0
    else 1 + Find(s[1..], client, clientOrderId)
  }

  predicate Live(b: Book, client: nat, clientOrderId: nat) {
    Find(b.bids, client, clientOrderId) < |b.bids| || Find(b.asks, client, clientOrderId) < |b.asks|
  }

  function Without(s: seq<Order>, k: nat): seq<Order>
    requires k < |s|
  {
    s[..k] + s[k + 1..]
  }

  function CancelRejectedResponse(r: ClientRequest): ClientResponse {
    ClientResponse(CancelRejected, r.client, r.ticker, r.orderId, ORDER_ID_INVALID,
                   Side.INVALID, PRICE_INVALID, QTY_INVALID, QTY_INVALID)
  }

  function CanceledResponse(r: ClientRequest, o: Order): ClientResponse {
    ClientResponse(Canceled, r.client, r.ticker, r.orderId, o.marketOrderId, o.side, o.price,
                   QTY_INVALID, o.qty)
  }

  function CancelUpdate(r: ClientRequest, o: Order): MarketUpdate {
    MarketUpdate(Remove, o.marketOrderId, r.ticker, o.side, o.price, 0, o.priority)
  }

  function CancelOn(b: Book, r: ClientRequest, side: Side): Outcome
    requires Find(b.On(side), r.client, r.orderId) < |b.On(side)|
  {
    var s := b.On(side);
    var k := Find(s, r.client, r.orderId);
    Outcome(b.With(side, Without(s, k)), [CanceledResponse(r, s[k])], [CancelUpdate(r, s[k])])
  }

  function CancelOrder(b: Book, r: ClientRequest): Outcome {
    if Find(b.bids, r.client, r.orderId) < |b.bids| then CancelOn(b, r, BUY)
    else if Find(b.asks, r.client, r.orderId) < |b.asks| then CancelOn(b, r, SELL)
    else Outcome(b, [CancelRejectedResponse(r)], [])
  }

  /** The client and the order id index the client table. */
  predicate Storable(r: ClientRequest) {
    r.client < ME_MAX_NUM_CLIENTS && r.orderId < ME_MAX_ORDER_IDS
  }

  /** What the book relies on and does not check.  A new order that fills completely touches no table,
      so only what rests has to be storable, under an id that is not in use after matching. */
  predicate Legal(b: Book, r: ClientRequest) {
    match r.kind
    case New =>
      && r.side != Side.INVALID
      && (SweepFor(b, r).leaves > 0 ==> Storable(r) && !Live(MatchedBook(b, r), r.client, r.orderId))
    case Cancel => r.client < ME_MAX_NUM_CLIENTS ==> r.orderId < ME_MAX_ORDER_IDS
    case InvalidRequest => false
  }

  // ----- what can be told before matching

  /** The loop's guard at its first turn. */
  predicate TradesOnArrival(b: Book, r: ClientRequest) {
    var s := b.On(r.side.Opposite());
    r.qty > 0 && s != [] && Crosses(r.side, r.price, s[0].price)
  }

  /** The quantity of the resting orders whose prices cross. */
  function CrossingQty(side: Side, limit: int, s: seq<Order>): nat {
    if s == [] then 0
    else (if Crosses(side, limit, s[0].price) then s[0].qty else 0) + CrossingQty(side, limit, s[1..])
  }

  /** The opposite side can fill the new order completely. */
  predicate Covered(b: Book, r: ClientRequest) {
    r.qty <= CrossingQty(r.side, r.price, b.On(r.side.Opposite()))
  }

  predicate IsFor(o: Order, r: ClientRequest) {
    o.client == r.client && o.clientOrderId == r.orderId
  }

  /** The client has no order of this id, except one on the opposite side at a crossing price. */
  predicate IdIsFree(b: Book, r: ClientRequest) {
    var own, opposite := b.On(r.side), b.On(r.side.Opposite());
    && (forall i :: 0 <= i < |own| ==> !IsFor(own[i], r))
    && (forall i :: 0 <= i < |opposite| && IsFor(opposite[i], r) ==> Crosses(r.side, r.price, opposite[i].price))
  }

  function Process(b: Book, r: ClientRequest): Outcome {
    match r.kind
    case New => AddOrder(b, r)
    case Cancel => CancelOrder(b, r)
    case InvalidRequest => Outcome(b, [], [])
  }

  function Run(b: Book, rs: seq<ClientRequest>): Outcome
    decreases |rs|
  {
    if rs == [] then Outcome(b, [], [])
    else
      var first := Process(b, rs[0]);
      var rest := Run(first.book, rs[1..]);
      Outcome(rest.book, first.responses + rest.responses, first.updates + rest.updates)
  }

  predicate LegalRun(b: Book, rs: seq<ClientRequest>)
    decreases |rs|
  {
    rs == [] || (Legal(b, rs[0]) && LegalRun(Process(b, rs[0]).book, rs[1..]))
  }
}
