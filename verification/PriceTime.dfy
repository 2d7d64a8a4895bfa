/** Price-time priority without the loop: which resting orders trade, how much of each, and what
    is sent, as closed formulas over the sorted side. */
module PriceTime {
  import opened Types
  import opened BookSpec
  import opened BookInvariant

  /** The quantity standing in front of order i. */
  function Ahead(s: seq<Order>, i: nat): nat
    requires i <= |s|
    decreases i
  {
    if i == 0 then 0 else s[0].qty + Ahead(s[1..], i - 1)
  }

  /** The price is no worse than the limit of an order on this side. */
  predicate WithinLimit(side: Side, limit: int, price: int) {
    if side == BUY then price <= limit else price >= limit
  }

  /** Order i trades exactly when its price is within the limit and the orders in front leave something. */
  predicate Trades(a: Aggressor, s: seq<Order>, qty: nat, i: nat)
    requires i < |s|
  {
    WithinLimit(a.side, a.price, s[i].price) && Ahead(s, i) < qty
  }

  function FillOf(s: seq<Order>, qty: nat, i: nat): nat
    requires i < |s| && Ahead(s, i) <= qty
  {
    if s[i].qty <= qty - Ahead(s, i) then s[i].qty else qty - Ahead(s, i)
  }

  /** What is left of the incoming order after orders 0..i have traded. */
  function LeftAfter(s: seq<Order>, qty: nat, i: nat): nat
    requires i < |s| && Ahead(s, i) <= qty
  {
    qty - Ahead(s, i) - FillOf(s, qty, i)
  }

  /** The n orders in front, and only they, trade. */
  ghost predicate FrontTrades(a: Aggressor, s: seq<Order>, qty: nat, n: nat) {
    && n <= |s|
    && (forall i :: 0 <= i < |s| ==> (i < n <==> Trades(a, s, qty, i)))
  }

  /** What the fill of order i tells, field by field: both parties hear the resting order's price and the
      quantity that traded, each with its own leaves; the feed hears the trade and then what became of the
      resting order. */
  ghost predicate FillSent(a: Aggressor, s: seq<Order>, qty: nat, i: nat, d: Swept)
    requires i < |s|
  {
    && Ahead(s, i) <= qty && 2 * i + 1 < |d.responses| && 2 * i + 1 < |d.updates|
    && var o, fill := s[i], FillOf(s, qty, i);
    var own, other, trade, after := d.responses[2 * i], d.responses[2 * i + 1], d.updates[2 * i], d.updates[2 * i + 1];
    && own.kind == other.kind == Filled && own.ticker == other.ticker == a.ticker
    && own.client == a.client && own.clientOrderId == a.clientOrderId && own.marketOrderId == a.marketOrderId
    && own.side == a.side && own.leavesQty == LeftAfter(s, qty, i)
    && other.client == o.client && other.clientOrderId == o.clientOrderId && other.marketOrderId == o.marketOrderId
    && other.side == o.side && other.leavesQty == o.qty - fill
    && own.price == other.price == trade.price == after.price == o.price
    && own.execQty == other.execQty == trade.qty == fill
    && trade.kind == Trade && trade.ticker == after.ticker == a.ticker && trade.side == a.side
    && trade.orderId == ORDER_ID_INVALID && trade.priority == PRIORITY_INVALID
    && after.orderId == o.marketOrderId && after.side == o.side
    && (fill == o.qty ==> after.kind == Remove && after.qty == o.qty && after.priority == PRIORITY_INVALID)
    && (fill < o.qty ==> after.kind == Modify && after.qty == o.qty - fill && after.priority == o.priority)
  }

  ghost predicate SendsFills(a: Aggressor, s: seq<Order>, qty: nat, n: nat, d: Swept)
    requires n <= |s|
  {
    && |d.responses| == 2 * n && |d.updates| == 2 * n
    && (forall i :: 0 <= i < n ==> FillSent(a, s, qty, i, d))
  }

  ghost predicate LeavesRest(s: seq<Order>, qty: nat, n: nat, d: Swept)
    requires n <= |s|
  {
    && (n == 0 ==> d.resting == s && d.leaves == qty)
    && (n > 0 ==>
          && Ahead(s, n - 1) <= qty
          && d.leaves == LeftAfter(s, qty, n - 1)
          && d.resting == if FillOf(s, qty, n - 1) == s[n - 1].qty then s[n..]
                          else [s[n - 1].(qty := s[n - 1].qty - FillOf(s, qty, n - 1))] + s[n..])
  }

  lemma {:induction false} AheadGrows(s: seq<Order>, i: nat, j: nat)
    requires i < j <= |s|
    ensures Ahead(s, i) + s[i].qty <= Ahead(s, j)
    decreases i
  {
    if i > 0 {
      AheadGrows(s[1..], i - 1, j - 1);
    }
  }

  /** No order of a sorted side crosses when the front one does not. */
  lemma FrontDecidesCrossing(a: Aggressor, nextId: nat, s: seq<Order>, i: nat)
    requires GoodSide(a.side.Opposite(), nextId, s) && a.side != Side.INVALID && i < |s|
    requires Crosses(a.side, a.price, s[i].price)
    ensures Crosses(a.side, a.price, s[0].price)
  {
    if i > 0 {
      assert Before(a.side.Opposite(), s[0], s[i]);
    }
  }

  lemma NothingTrades(a: Aggressor, nextId: nat, s: seq<Order>, qty: nat)
    requires GoodSide(a.side.Opposite(), nextId, s) && a.side != Side.INVALID
    requires qty == 0 || s == [] || !Crosses(a.side, a.price, s[0].price)
    ensures FrontTrades(a, s, qty, 0) && SendsFills(a, s, qty, 0, Sweep(a, s, qty))
            && LeavesRest(s, qty, 0, Sweep(a, s, qty))
  {
    forall i | 0 <= i < |s| ensures !Trades(a, s, qty, i) {
      if Trades(a, s, qty, i) {
        FrontDecidesCrossing(a, nextId, s, i);
      }
    }
  }

  lemma FrontTradesInPart(a: Aggressor, s: seq<Order>, qty: nat)
    requires s != [] && 0 < qty < s[0].qty && Crosses(a.side, a.price, s[0].price)
    ensures FrontTrades(a, s, qty, 1) && SendsFills(a, s, qty, 1, Sweep(a, s, qty))
            && LeavesRest(s, qty, 1, Sweep(a, s, qty))
  {
    forall i | 1 <= i < |s| ensures !Trades(a, s, qty, i) {
      AheadGrows(s, 0, i);
    }
  }

  /** The loop computes the formulas: the orders that trade are a prefix of the side, and the
      messages, the leaves and the rest of the side are determined by them. */
  lemma {:induction false} SweepIsPriceTime(a: Aggressor, nextId: nat, s: seq<Order>, qty: nat) returns (n: nat)
    requires GoodSide(a.side.Opposite(), nextId, s) && a.side != Side.INVALID
    ensures FrontTrades(a, s, qty, n)
    ensures SendsFills(a, s, qty, n, Sweep(a, s, qty))
    ensures LeavesRest(s, qty, n, Sweep(a, s, qty))
    decreases |s|
  {
    hide SendsFills, LeavesRest, Sweep, Crosses;
    if qty == 0 || s == [] || !Crosses(a.side, a.price, s[0].price) {
      n := 0;
      NothingTrades(a, nextId, s, qty);
    } else if qty < s[0].qty {
      n := 1;
      FrontTradesInPart(a, s, qty);
    } else {
      TailIsGood(a.side.Opposite(), nextId, s);
      var m := SweepIsPriceTime(a, nextId, s[1..], qty - s[0].qty);
      n := m + 1;
      TailFront(a, s, qty, m);
      TailMessages(a, s, qty, m);
    }
  }

  lemma TailFront(a: Aggressor, s: seq<Order>, qty: nat, m: nat)
    requires s != [] && 0 < s[0].qty <= qty && Crosses(a.side, a.price, s[0].price)
    requires FrontTrades(a, s[1..], qty - s[0].qty, m)
    requires LeavesRest(s[1..], qty - s[0].qty, m, Sweep(a, s[1..], qty - s[0].qty))
    ensures FrontTrades(a, s, qty, m + 1)
    ensures LeavesRest(s, qty, m + 1, Sweep(a, s, qty))
  {
    var t, left := s[1..], qty - s[0].qty;
    forall i | 0 <= i < |s| ensures i < m + 1 <==> Trades(a, s, qty, i) {
      assert i > 0 ==> (Trades(a, s, qty, i) <==> Trades(a, t, left, i - 1));
    }
    assert t[m..] == s[m + 1..];
  }

  lemma {:induction false} TailMessages(a: Aggressor, s: seq<Order>, qty: nat, m: nat)
    requires s != [] && 0 < s[0].qty <= qty && Crosses(a.side, a.price, s[0].price) && m <= |s| - 1
    requires SendsFills(a, s[1..], qty - s[0].qty, m, Sweep(a, s[1..], qty - s[0].qty))
    ensures SendsFills(a, s, qty, m + 1, Sweep(a, s, qty))
  {
    var d := Sweep(a, s, qty);
    forall i | 0 <= i < m + 1 ensures FillSent(a, s, qty, i, d) {
      if i > 0 {
        TailMessage(a, s, qty, i);
      }
    }
  }

  lemma TailMessage(a: Aggressor, s: seq<Order>, qty: nat, i: nat)
    requires s != [] && 0 < s[0].qty <= qty && Crosses(a.side, a.price, s[0].price) && 0 < i < |s|
    requires FillSent(a, s[1..], qty - s[0].qty, i - 1, Sweep(a, s[1..], qty - s[0].qty))
    ensures FillSent(a, s, qty, i, Sweep(a, s, qty))
  {
    var d, e := Sweep(a, s, qty), Sweep(a, s[1..], qty - s[0].qty);
    assert d.responses == FillResponses(a, s[0], qty) + e.responses;
    assert d.updates == FillUpdates(a, s[0], qty) + e.updates;
  }

  /** Every order that trades is filled in full, except possibly the last one. */
  lemma {:induction false} OnlyLastIsPartial(a: Aggressor, s: seq<Order>, qty: nat, n: nat, i: nat)
    requires FrontTrades(a, s, qty, n) && i + 1 < n
    ensures Ahead(s, i) <= qty && FillOf(s, qty, i) == s[i].qty
  {
    assert Trades(a, s, qty, i + 1);
    AheadGrows(s, i, i + 1);
  }

  // ----- what can be told before matching

  lemma {:induction false} NoneCrosses(a: Aggressor, nextId: nat, s: seq<Order>)
    requires GoodSide(a.side.Opposite(), nextId, s) && a.side != Side.INVALID
    requires s != [] ==> !Crosses(a.side, a.price, s[0].price)
    ensures CrossingQty(a.side, a.price, s) == 0
    decreases |s|
  {
    if s != [] {
      TailIsGood(a.side.Opposite(), nextId, s);
      if |s| > 1 && Crosses(a.side, a.price, s[1].price) {
        FrontDecidesCrossing(a, nextId, s, 1);
      }
      NoneCrosses(a, nextId, s[1..]);
    }
  }

  /** The leaves are what exceeds the crossing quantity. */
  lemma {:induction false} LeavesExceedCrossing(a: Aggressor, nextId: nat, s: seq<Order>, qty: nat)
    requires GoodSide(a.side.Opposite(), nextId, s) && a.side != Side.INVALID
    ensures var c := CrossingQty(a.side, a.price, s);
            Sweep(a, s, qty).leaves == if qty <= c then 0 else qty - c
    decreases |s|
  {
    if s != [] {
      if Crosses(a.side, a.price, s[0].price) {
        if s[0].qty <= qty {
          TailIsGood(a.side.Opposite(), nextId, s);
          LeavesExceedCrossing(a, nextId, s[1..], qty - s[0].qty);
        }
      } else {
        NoneCrosses(a, nextId, s);
      }
    }
  }

  lemma {:induction false} FreeInMatched(b: Book, r: ClientRequest)
    requires WellFormed(b) && r.side != Side.INVALID && SweepFor(b, r).leaves > 0
    ensures !Live(MatchedBook(b, r), r.client, r.orderId) <==> IdIsFree(b, r)
  {
    hide WellFormed, Sweep;
    var k := MatchKeepsWellFormed(b, r);
    var own, opposite := b.On(r.side), b.On(r.side.Opposite());
    var j := OpposedRest(b, r);
    var m := MatchedBook(b, r);
    assert m.On(r.side.Opposite()) == opposite[j..];
    assert !Live(m, r.client, r.orderId) <==> Absent(m.On(r.side), r) && Absent(m.On(r.side.Opposite()), r) by {
      NotLiveIsAbsent(m, r);
    }
    assert forall i :: j <= i < |opposite| ==> opposite[i] == opposite[j..][i - j];
  }

  predicate Absent(s: seq<Order>, r: ClientRequest) {
    forall i :: 0 <= i < |s| ==> !IsFor(s[i], r)
  }

  lemma NotLiveIsAbsent(b: Book, r: ClientRequest)
    requires r.side != Side.INVALID
    ensures !Live(b, r.client, r.orderId) <==> Absent(b.On(r.side), r) && Absent(b.On(r.side.Opposite()), r)
  {
  }

  /** When something is left, the orders that crossed are gone and the others stay. */
  lemma {:induction false} OpposedRest(b: Book, r: ClientRequest) returns (j: nat)
    requires WellFormed(b) && r.side != Side.INVALID && SweepFor(b, r).leaves > 0
    ensures var s := b.On(r.side.Opposite());
            && j <= |s| && MatchedBook(b, r).On(r.side.Opposite()) == s[j..]
            && forall i :: 0 <= i < |s| ==> (Crosses(r.side, r.price, s[i].price) <==> i < j)
  {
    var s := b.On(r.side.Opposite());
    assert GoodSide(r.side.Opposite(), b.nextId, s);
    var k := MatchKeepsWellFormed(b, r);
    j := SweepTrims(AggressorOf(r, b.nextId), s, r.qty);
    assert forall i :: j <= i < |s| ==> s[i] == s[j..][i - j];
  }

  /** What the book relies on, told from the book before the call: the opposite side covers the order, or
      what rests can be stored and its client has no order of that id that would stay. */
  lemma {:induction false} LegalInAdvance(b: Book, r: ClientRequest)
    requires WellFormed(b) && r.kind == New && r.side != Side.INVALID
    ensures Legal(b, r) <==> Covered(b, r) || (Storable(r) && IdIsFree(b, r))
  {
    hide Live, Sweep, CrossingQty;
    var s := b.On(r.side.Opposite());
    assert GoodSide(r.side.Opposite(), b.nextId, s);
    LeavesExceedCrossing(AggressorOf(r, b.nextId), b.nextId, s, r.qty);
    if SweepFor(b, r).leaves > 0 {
      FreeInMatched(b, r);
    }
  }

  /** The check that the source does not make: exactly then a new order keeps the book well formed. */
  lemma AddIsSafeExactlyWhen(b: Book, r: ClientRequest)
    requires WellFormed(b) && r.kind == New && r.side != Side.INVALID
    ensures WellFormed(AddOrder(b, r).book) <==> Covered(b, r) || (Storable(r) && IdIsFree(b, r))
  {
    hide WellFormed, Legal, Covered, IdIsFree, AddOrder;
    LegalExactlyWhenSafe(b, r);
    LegalInAdvance(b, r);
  }

  /** Where the committed text handles a new order as meant, told from the book before the call. */
  lemma TextAddsInAdvance(b: Book, r: ClientRequest)
    requires WellFormed(b) && r.side != Side.INVALID
    ensures SweepFor(b, r).leaves == 0 <==> Covered(b, r)
    ensures TextAdds(b, r) <==> Covered(b, r) || TextRests(b, r.side, r.price)
  {
    var s := b.On(r.side.Opposite());
    assert GoodSide(r.side.Opposite(), b.nextId, s);
    LeavesExceedCrossing(AggressorOf(r, b.nextId), b.nextId, s, r.qty);
  }

  /** The loop runs exactly when its guard holds at its first turn. */
  lemma TradesInAdvance(b: Book, r: ClientRequest)
    ensures SweepFor(b, r).responses != [] <==> TradesOnArrival(b, r)
    ensures !TradesOnArrival(b, r) ==> SweepFor(b, r) == Swept(b.On(r.side.Opposite()), r.qty, [], [])
  {
  }
}
