/** What every run keeps: both sides in strict price-time order, an uncrossed book, and
    identifiers that name one order each. */
module BookInvariant {
  import opened Types
  import opened BookSpec

  predicate GoodOrder(side: Side, nextId: nat, o: Order) {
    && o.side == side && o.qty > 0 && 1 <= o.marketOrderId < nextId && 1 <= o.priority
    && o.client < ME_MAX_NUM_CLIENTS && o.clientOrderId < ME_MAX_ORDER_IDS
  }

  /** Better price first; at one price the earlier arrival (smaller id, smaller priority) first. */
  predicate Before(side: Side, x: Order, y: Order) {
    || Better(side, x.price, y.price)
    || (x.price == y.price && x.priority < y.priority && x.marketOrderId < y.marketOrderId)
  }

  predicate Different(x: Order, y: Order) {
    && x.marketOrderId != y.marketOrderId
    && (x.client != y.client || x.clientOrderId != y.clientOrderId)
  }

  ghost predicate GoodSide(side: Side, nextId: nat, s: seq<Order>) {
    && (forall i :: 0 <= i < |s| ==> GoodOrder(side, nextId, s[i]))
    && (forall i, j :: 0 <= i < j < |s| ==> Before(side, s[i], s[j]) && Different(s[i], s[j]))
  }

  ghost predicate Uncrossed(b: Book) {
    forall i, j :: 0 <= i < |b.bids| && 0 <= j < |b.asks| ==> b.bids[i].price < b.asks[j].price
  }

  ghost predicate Separate(s: seq<Order>, t: seq<Order>) {
    forall i, j :: 0 <= i < |s| && 0 <= j < |t| ==> Different(s[i], t[j])
  }

  ghost predicate WellFormed(b: Book) {
    && b.nextId >= 1
    && GoodSide(BUY, b.nextId, b.bids) && GoodSide(SELL, b.nextId, b.asks)
    && Uncrossed(b) && Separate(b.bids, b.asks)
  }

  // ----- the shape of a sweep

  /** resting is orders with a prefix removed and the next order possibly reduced. */
  ghost predicate Trimmed(orders: seq<Order>, k: nat, resting: seq<Order>) {
    && k <= |orders|
    && |resting| == |orders| - k
    && (forall i :: 1 <= i < |resting| ==> resting[i] == orders[k + i])
    && (resting != [] ==>
          0 < resting[0].qty <= orders[k].qty && resting[0] == orders[k].(qty := resting[0].qty))
  }

  /** One turn of the loop. */
  lemma SweepTurn(a: Aggressor, orders: seq<Order>, leaves: nat)
    ensures var s := Sweep(a, orders, leaves);
            if leaves == 0 || orders == [] || !Crosses(a.side, a.price, orders[0].price) then
              s.resting == orders && s.leaves == leaves
            else if orders[0].qty <= leaves then
              var t := Sweep(a, orders[1..], leaves - orders[0].qty);
              s.resting == t.resting && s.leaves == t.leaves
            else
              s.resting == [orders[0].(qty := orders[0].qty - leaves)] + orders[1..] && s.leaves == 0
  {
  }

  lemma TrimmedOneMore(orders: seq<Order>, k: nat, resting: seq<Order>)
    requires orders != [] && Trimmed(orders[1..], k, resting)
    ensures Trimmed(orders, k + 1, resting)
  {
  }

  lemma {:induction false} SweepTrims(a: Aggressor, orders: seq<Order>, leaves: nat) returns (k: nat)
    requires forall i :: 0 <= i < |orders| ==> orders[i].qty > 0
    ensures Trimmed(orders, k, Sweep(a, orders, leaves).resting)
    ensures forall i :: 0 <= i < k ==> Crosses(a.side, a.price, orders[i].price)
    ensures var s := Sweep(a, orders, leaves);
            && s.leaves <= leaves
            && (s.leaves > 0 ==> s.resting == orders[k..])
            && (s.leaves > 0 ==> s.resting == [] || !Crosses(a.side, a.price, s.resting[0].price))
    decreases |orders|
  {
    hide Sweep, Crosses;
    SweepTurn(a, orders, leaves);
    k := 0;
    if leaves > 0 && orders != [] && Crosses(a.side, a.price, orders[0].price) && orders[0].qty <= leaves {
      k := SweepTrims(a, orders[1..], leaves - orders[0].qty);
      TrimmedOneMore(orders, k, Sweep(a, orders, leaves).resting);
      k := k + 1;
    }
  }

  lemma TrimmedKeepsSide(side: Side, nextId: nat, orders: seq<Order>, k: nat, resting: seq<Order>)
    requires GoodSide(side, nextId, orders) && Trimmed(orders, k, resting)
    ensures GoodSide(side, nextId, resting)
  {
    forall i, j | 0 <= i < j < |resting|
      ensures Before(side, resting[i], resting[j]) && Different(resting[i], resting[j])
    {
      assert Before(side, orders[k + i], orders[k + j]) && Different(orders[k + i], orders[k + j]);
    }
  }

  // ----- placing an order

  lemma {:induction false} PlaceInserts(side: Side, s: seq<Order>, o: Order) returns (k: nat)
    ensures k <= |s|
    ensures Place(side, s, o) == s[..k] + [o] + s[k..]
    ensures forall i :: 0 <= i < k ==> !Better(side, o.price, s[i].price)
    ensures k < |s| ==> Better(side, o.price, s[k].price)
    decreases |s|
  {
    if s == [] || Better(side, o.price, s[0].price) {
      k := 0;
    } else {
      k := PlaceInserts(side, s[1..], o);
      assert s[1..][..k] == s[1..k + 1] && s[1..][k..] == s[k + 1..];
      assert s == [s[0]] + s[1..];
      k := k + 1;
    }
  }

  lemma {:induction false} NextPriorityIsFresh(side: Side, nextId: nat, s: seq<Order>, price: int)
    requires GoodSide(side, nextId, s)
    ensures NextPriority(s, price) >= 1
    ensures forall i :: 0 <= i < |s| && s[i].price == price ==> s[i].priority < NextPriority(s, price)
    decreases |s|
  {
    if s != [] {
      var n := |s| - 1;
      if s[n].price == price {
        forall i | 0 <= i < n && s[i].price == price ensures s[i].priority < s[n].priority {
          assert Before(side, s[i], s[n]);
        }
      } else {
        NextPriorityIsFresh(side, nextId, s[..n], price);
      }
    }
  }

  lemma {:induction false} PlaceKeepsSide(side: Side, nextId: nat, s: seq<Order>, o: Order)
    requires side != Side.INVALID
    requires GoodSide(side, nextId, s) && GoodOrder(side, nextId + 1, o)
    requires o.marketOrderId == nextId && o.priority == NextPriority(s, o.price)
    requires forall i :: 0 <= i < |s| ==> Different(s[i], o)
    ensures GoodSide(side, nextId + 1, Place(side, s, o))
  {
    var k := PlaceInserts(side, s, o);
    NextPriorityIsFresh(side, nextId, s, o.price);
    var t := Place(side, s, o);
    hide Place, NextPriority;
    forall i, j | 0 <= i < j < |t| ensures Before(side, t[i], t[j]) && Different(t[i], t[j]) {
      var x, y := if i < k then i else i - 1, if j < k then j else j - 1;
      if i == k {
        assert k < y ==> Before(side, s[k], s[y]);
      } else if j != k {
        assert Before(side, s[x], s[y]) && Different(s[x], s[y]);
      }
    }
  }

  // ----- requests

  lemma TrimmedKeepsWellFormed(b: Book, side: Side, k: nat, resting: seq<Order>)
    requires WellFormed(b) && side != Side.INVALID && Trimmed(b.On(side), k, resting)
    ensures WellFormed(b.With(side, resting))
  {
    var orders := b.On(side);
    TrimmedKeepsSide(side, b.nextId, orders, k, resting);
    var after := b.With(side, resting);
    forall i | 0 <= i < |resting|
      ensures resting[i] == orders[k + i].(qty := resting[i].qty)
    {
    }
    if side == BUY {
      forall i, j | 0 <= i < |resting| && 0 <= j < |b.asks|
        ensures resting[i].price < b.asks[j].price && Different(resting[i], b.asks[j])
      {
        assert Different(orders[k + i], b.asks[j]);
      }
      assert Separate(after.bids, after.asks);
    } else {
      forall i, j | 0 <= i < |b.bids| && 0 <= j < |resting|
        ensures b.bids[i].price < resting[j].price && Different(b.bids[i], resting[j])
      {
        assert Different(b.bids[i], orders[k + j]);
      }
      assert Separate(after.bids, after.asks);
    }
  }

  lemma {:induction false} MatchKeepsWellFormed(b: Book, r: ClientRequest) returns (k: nat)
    requires WellFormed(b) && r.side != Side.INVALID
    ensures WellFormed(MatchedBook(b, r)) && WellFormed(MatchedBook(b, r).(nextId := b.nextId))
    ensures Trimmed(b.On(r.side.Opposite()), k, MatchedBook(b, r).On(r.side.Opposite()))
    ensures MatchedBook(b, r).On(r.side) == b.On(r.side)
    ensures SweepFor(b, r).leaves > 0 ==>
              forall i :: 0 <= i < |MatchedBook(b, r).On(r.side.Opposite())| ==>
                            !Crosses(r.side, r.price, MatchedBook(b, r).On(r.side.Opposite())[i].price)
  {
    var opposite := r.side.Opposite();
    var orders := b.On(opposite);
    k := SweepTrims(AggressorOf(r, b.nextId), orders, r.qty);
    var resting := SweepFor(b, r).resting;
    TrimmedKeepsWellFormed(b, opposite, k, resting);
    assert MatchedBook(b, r).On(opposite) == resting;
    if SweepFor(b, r).leaves > 0 {
      forall i | 0 < i < |resting| ensures !Crosses(r.side, r.price, resting[i].price) {
        assert Before(opposite, orders[k], orders[k + i]);
      }
    }
  }

  ghost predicate FitsOpposite(o: Order, s: seq<Order>) {
    forall i :: 0 <= i < |s| ==>
      Different(o, s[i]) && Different(s[i], o) && !Crosses(o.side, o.price, s[i].price)
  }

  lemma {:induction false} PlaceKeepsWellFormed(b: Book, side: Side, o: Order)
    requires WellFormed(b) && side != Side.INVALID && o.marketOrderId + 1 == b.nextId
    requires GoodSide(side, o.marketOrderId, b.On(side)) && GoodOrder(side, b.nextId, o)
    requires o.priority == NextPriority(b.On(side), o.price)
    requires forall i :: 0 <= i < |b.On(side)| ==> Different(b.On(side)[i], o)
    requires FitsOpposite(o, b.On(side.Opposite()))
    ensures WellFormed(b.With(side, Place(side, b.On(side), o)))
  {
    hide GoodSide, Place, NextPriority;
    PlaceKeepsSide(side, o.marketOrderId, b.On(side), o);
    var k := PlaceInserts(side, b.On(side), o);
    var placed := Place(side, b.On(side), o);
    var after := b.With(side, placed);
    forall i | 0 <= i < |placed| ensures placed[i] == o || placed[i] in b.On(side) {
    }
    if side == BUY {
      assert Separate(placed, b.asks) && Uncrossed(after);
    } else {
      assert Separate(b.bids, placed) && Uncrossed(after);
    }
  }

  /** What matching leaves to the remainder of a new order: nobody at its price on the other side. */
  lemma MatchedLeavesPlace(b: Book, r: ClientRequest)
    requires WellFormed(b) && r.side != Side.INVALID && SweepFor(b, r).leaves > 0
    ensures var opposite := MatchedBook(b, r).On(r.side.Opposite());
            forall i :: 0 <= i < |opposite| ==> opposite[i].price != r.price
  {
    var k := MatchKeepsWellFormed(b, r);
  }

  lemma {:induction false} NewOrderFits(b: Book, r: ClientRequest)
    requires WellFormed(b) && r.side != Side.INVALID && Storable(r) && SweepFor(b, r).leaves > 0
    requires !Live(MatchedBook(b, r), r.client, r.orderId)
    ensures GoodOrder(r.side, b.nextId + 1, RestedOrder(b, r))
    ensures forall i :: 0 <= i < |b.On(r.side)| ==> Different(b.On(r.side)[i], RestedOrder(b, r))
    ensures FitsOpposite(RestedOrder(b, r), MatchedBook(b, r).On(r.side.Opposite()))
  {
    var k := MatchKeepsWellFormed(b, r);
    var o, m := RestedOrder(b, r), MatchedBook(b, r).(nextId := b.nextId);
    NextPriorityIsFresh(r.side, b.nextId, b.On(r.side), r.price);
    assert m.On(r.side) == b.On(r.side) && m.On(r.side.Opposite()) == MatchedBook(b, r).On(r.side.Opposite());
    NotLiveIsDifferent(m, r.side, o);
    NotLiveIsDifferent(m, r.side.Opposite(), o);
  }

  lemma NotLiveIsDifferent(b: Book, side: Side, o: Order)
    requires WellFormed(b) && side != Side.INVALID && o.marketOrderId >= b.nextId
    requires !Live(b, o.client, o.clientOrderId)
    ensures forall i :: 0 <= i < |b.On(side)| ==> Different(o, b.On(side)[i]) && Different(b.On(side)[i], o)
  {
    assert forall i :: 0 <= i < |b.On(side)| ==> GoodOrder(side, b.nextId, b.On(side)[i]);
    assert Find(b.On(side), o.client, o.clientOrderId) == |b.On(side)|;
  }

  lemma {:induction false} AddKeepsWellFormed(b: Book, r: ClientRequest)
    requires WellFormed(b) && r.kind == New && Legal(b, r)
    ensures WellFormed(AddOrder(b, r).book)
  {
    hide Live;
    var k := MatchKeepsWellFormed(b, r);
    if SweepFor(b, r).leaves > 0 {
      NewOrderFits(b, r);
      PlaceKeepsWellFormed(MatchedBook(b, r), r.side, RestedOrder(b, r));
    }
  }

  lemma LiveStands(b: Book, client: nat, clientOrderId: nat) returns (side: Side, i: nat)
    requires Live(b, client, clientOrderId)
    ensures side != Side.INVALID && i < |b.On(side)|
    ensures b.On(side)[i].client == client && b.On(side)[i].clientOrderId == clientOrderId
  {
    side := if Find(b.bids, client, clientOrderId) < |b.bids| then BUY else SELL;
    i := Find(b.On(side), client, clientOrderId);
  }

  /** A remainder under a client order id that is still live ends up beside the other order. */
  lemma {:induction false} DuplicateIsNotWellFormed(b: Book, r: ClientRequest)
    requires WellFormed(b) && r.side != Side.INVALID && SweepFor(b, r).leaves > 0
    requires Live(MatchedBook(b, r), r.client, r.orderId)
    ensures !WellFormed(AddOrder(b, r).book)
  {
    hide Live, Sweep, GoodOrder, Before, Uncrossed, NextPriority, Place;
    var m, after, o := MatchedBook(b, r), AddOrder(b, r).book, RestedOrder(b, r);
    var side, i := LiveStands(m, r.client, r.orderId);
    var k := PlaceInserts(r.side, m.On(r.side), o);
    var t := after.On(r.side);
    assert t == Place(r.side, m.On(r.side), o) && t[k] == o;
    if side == r.side {
      var j := if i < k then i else i + 1;
      assert t[j] == m.On(side)[i];
      assert if j < k then !Different(t[j], t[k]) else !Different(t[k], t[j]);
    } else {
      assert after.On(side)[i] == m.On(side)[i];
      assert if side == BUY then !Different(after.bids[i], after.asks[k]) else !Different(after.bids[k], after.asks[i]);
    }
  }

  lemma {:induction false} UnstorableIsNotWellFormed(b: Book, r: ClientRequest)
    requires r.side != Side.INVALID && SweepFor(b, r).leaves > 0 && !Storable(r)
    ensures !WellFormed(AddOrder(b, r).book)
  {
    hide Sweep, Before, Different, Uncrossed, Separate, NextPriority;
    var m, after, o := MatchedBook(b, r), AddOrder(b, r).book, RestedOrder(b, r);
    var k := PlaceInserts(r.side, m.On(r.side), o);
    assert after.On(r.side)[k] == o && !GoodOrder(r.side, after.nextId, o);
  }

  /** What the book relies on is no more than it needs: the orders it must not be given are exactly those
      that spoil it. */
  lemma LegalExactlyWhenSafe(b: Book, r: ClientRequest)
    requires WellFormed(b) && r.kind == New && r.side != Side.INVALID
    ensures WellFormed(AddOrder(b, r).book) <==> Legal(b, r)
  {
    hide WellFormed, Live;
    if Legal(b, r) {
      AddKeepsWellFormed(b, r);
    } else if Storable(r) {
      DuplicateIsNotWellFormed(b, r);
    } else {
      UnstorableIsNotWellFormed(b, r);
    }
  }

  lemma WithoutKeepsSide(side: Side, nextId: nat, s: seq<Order>, k: nat)
    requires GoodSide(side, nextId, s) && k < |s|
    ensures GoodSide(side, nextId, Without(s, k))
    ensures forall i :: 0 <= i < |s| - 1 ==> Without(s, k)[i] == s[if i < k then i else i + 1]
  {
    var t := Without(s, k);
    forall i, j | 0 <= i < j < |t| ensures Before(side, t[i], t[j]) && Different(t[i], t[j]) {
      var x, y := if i < k then i else i + 1, if j < k then j else j + 1;
      assert Before(side, s[x], s[y]) && Different(s[x], s[y]);
    }
  }

  lemma TailIsGood(side: Side, nextId: nat, s: seq<Order>)
    requires GoodSide(side, nextId, s) && s != []
    ensures GoodSide(side, nextId, s[1..])
  {
    WithoutKeepsSide(side, nextId, s, 0);
    assert Without(s, 0) == s[1..];
  }

  lemma CancelOnKeepsWellFormed(b: Book, r: ClientRequest, side: Side)
    requires WellFormed(b) && side != Side.INVALID
    requires Find(b.On(side), r.client, r.orderId) < |b.On(side)|
    ensures WellFormed(CancelOn(b, r, side).book)
  {
    WithoutKeepsBook(b, side, Find(b.On(side), r.client, r.orderId));
  }

  lemma WithoutKeepsBook(b: Book, side: Side, k: nat)
    requires WellFormed(b) && side != Side.INVALID && k < |b.On(side)|
    ensures WellFormed(b.With(side, Without(b.On(side), k)))
  {
    WithoutKeepsSide(side, b.nextId, b.On(side), k);
    if side == BUY {
      assert Separate(Without(b.bids, k), b.asks);
    } else {
      assert Separate(b.bids, Without(b.asks, k));
    }
  }

  lemma {:induction false} CancelKeepsWellFormed(b: Book, r: ClientRequest)
    requires WellFormed(b)
    ensures WellFormed(CancelOrder(b, r).book)
  {
    if Find(b.bids, r.client, r.orderId) < |b.bids| {
      CancelOnKeepsWellFormed(b, r, BUY);
    } else if Find(b.asks, r.client, r.orderId) < |b.asks| {
      CancelOnKeepsWellFormed(b, r, SELL);
    }
  }

  /** Every legal request keeps the book well formed: sorted, uncrossed, uniquely identified. */
  lemma {:induction false} ProcessKeepsWellFormed(b: Book, r: ClientRequest)
    requires WellFormed(b) && Legal(b, r)
    ensures WellFormed(Process(b, r).book)
  {
    if r.kind == New {
      AddKeepsWellFormed(b, r);
    } else {
      CancelKeepsWellFormed(b, r);
    }
  }

  lemma {:induction false} RunKeepsWellFormed(b: Book, rs: seq<ClientRequest>)
    requires WellFormed(b) && LegalRun(b, rs)
    ensures WellFormed(Run(b, rs).book)
    decreases |rs|
  {
    if rs != [] {
      ProcessKeepsWellFormed(b, rs[0]);
      RunKeepsWellFormed(Process(b, rs[0]).book, rs[1..]);
    }
  }
}
