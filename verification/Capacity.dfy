/** When the fixed tables and pools are large enough, and a condition that guarantees it. */
module Capacity {
  import opened Types
  import opened BookSpec
  import opened BookInvariant
  import opened LevelList

  function Prices(s: seq<Order>): set<int> {
    set i | 0 <= i < |s| :: s[i].price
  }

  /** No resting order of another price looks into the same slot of the price table. */
  ghost predicate SlotFree(s: seq<Order>, price: int) {
    forall i :: 0 <= i < |s| && PriceToIndex(s[i].price) == PriceToIndex(price) ==> s[i].price == price
  }

  /** What it takes to rest an order: a block of each pool besides the one that the pool always
      keeps free, and a slot of the price table. */
  ghost predicate RoomToRest(m: Book, side: Side, price: int) {
    && |m.bids| + |m.asks| + 2 <= ME_MAX_ORDER_IDS
    && SlotFree(m.bids, price) && SlotFree(m.asks, price)
    && (price in Prices(m.On(side)) || |Prices(m.bids)| + |Prices(m.asks)| + 2 <= ME_MAX_PRICE_LEVELS)
  }

  /** Matching needs no room; only a remainder does. */
  ghost predicate Room(b: Book, r: ClientRequest) {
    r.kind == New && SweepFor(b, r).leaves > 0 ==> RoomToRest(MatchedBook(b, r), r.side, r.price)
  }

  ghost predicate RoomyRun(b: Book, rs: seq<ClientRequest>)
    decreases |rs|
  {
    rs == [] || (Room(b, rs[0]) && RoomyRun(Process(b, rs[0]).book, rs[1..]))
  }

  // ----- a window of prices

  const WINDOW := ME_MAX_PRICE_LEVELS - 1

  predicate PriceInWindow(lo: int, price: int) {
    lo <= price < lo + WINDOW
  }

  predicate InWindow(lo: int, s: seq<Order>) {
    forall i :: 0 <= i < |s| ==> PriceInWindow(lo, s[i].price)
  }

  /** The table has 256 slots, and prices share one exactly when they are a multiple of 256 apart; for a negative
      price the remainder of its unsigned 64-bit value is the same slot. */
  lemma SlotsCollideExactlyWhen(p: int, q: int)
    ensures 0 <= PriceToIndex(p) < 256
    ensures PriceToIndex(p) == PriceToIndex(q) <==> exists k: int :: p == q + 256 * k
    ensures -0x8000_0000_0000_0000 <= p < 0 ==> (p + 0x1_0000_0000_0000_0000) % 256 == PriceToIndex(p)
  {
    if PriceToIndex(p) == PriceToIndex(q) {
      assert p == q + 256 * (p / 256 - q / 256);
    }
  }

  /** Inside the window the slot determines the price. */
  lemma SlotsAreDistinct(lo: int, p: int, q: int)
    requires PriceInWindow(lo, p) && PriceInWindow(lo, q) && PriceToIndex(p) == PriceToIndex(q)
    ensures p == q
  {
  }

  lemma {:induction false} FewInts(lo: int, n: nat, s: set<int>)
    requires forall x :: x in s ==> lo <= x < lo + n
    ensures |s| <= n
    decreases n
  {
    if n == 0 {
      assert forall x :: x !in s;
      assert s == {};
    } else {
      FewInts(lo, n - 1, s - {lo + n - 1});
      assert s == s - {lo + n - 1} || s == (s - {lo + n - 1}) + {lo + n - 1};
    }
  }

  lemma WindowSlots(lo: int, s: seq<Order>, price: int)
    requires InWindow(lo, s) && PriceInWindow(lo, price)
    ensures SlotFree(s, price)
    ensures forall x :: x in Prices(s) ==> PriceInWindow(lo, x)
  {
    forall i | 0 <= i < |s| && PriceToIndex(s[i].price) == PriceToIndex(price) ensures s[i].price == price {
      SlotsAreDistinct(lo, s[i].price, price);
    }
  }

  lemma UncrossedPrices(m: Book)
    requires Uncrossed(m)
    ensures Prices(m.bids) !! Prices(m.asks)
  {
    forall x | x in Prices(m.bids) ensures x !in Prices(m.asks) {
      var i :| 0 <= i < |m.bids| && m.bids[i].price == x;
      assert forall j :: 0 <= j < |m.asks| ==> m.bids[i].price < m.asks[j].price;
    }
  }

  /** 255 consecutive prices fit: the price that is about to rest is one of them, so at most 254
      levels are there, and the pool has two blocks left. */
  lemma WindowHasRoom(m: Book, side: Side, price: int, lo: int)
    requires Uncrossed(m) && InWindow(lo, m.bids) && InWindow(lo, m.asks) && PriceInWindow(lo, price)
    requires side != Side.INVALID && price !in Prices(m.On(side.Opposite()))
    requires |m.bids| + |m.asks| + 2 <= ME_MAX_ORDER_IDS
    ensures RoomToRest(m, side, price)
  {
    WindowSlots(lo, m.bids, price);
    WindowSlots(lo, m.asks, price);
    UncrossedPrices(m);
    if price !in Prices(m.On(side)) {
      LevelsInWindow(lo, Prices(m.bids), Prices(m.asks), price);
    }
  }

  lemma LevelsInWindow(lo: int, b: set<int>, a: set<int>, price: int)
    requires b !! a && price !in b && price !in a && PriceInWindow(lo, price)
    requires forall x :: x in b || x in a ==> PriceInWindow(lo, x)
    ensures |b| + |a| + 1 <= WINDOW
  {
    FewInts(lo, WINDOW, b + a + {price});
    assert |b + a| == |b| + |a|;
  }

  // ----- whole runs

  predicate RequestInWindow(lo: int, r: ClientRequest) {
    r.kind == New ==> PriceInWindow(lo, r.price)
  }

  lemma TrimmedInWindow(lo: int, s: seq<Order>, k: nat, t: seq<Order>)
    requires Trimmed(s, k, t) && InWindow(lo, s)
    ensures InWindow(lo, t) && |t| <= |s|
  {
    forall i | 0 <= i < |t| ensures PriceInWindow(lo, t[i].price) {
      assert t[i].price == s[k + i].price;
    }
  }

  lemma {:induction false} PlacedInWindow(lo: int, side: Side, s: seq<Order>, o: Order)
    requires InWindow(lo, s) && PriceInWindow(lo, o.price)
    ensures InWindow(lo, Place(side, s, o)) && |Place(side, s, o)| == |s| + 1
  {
    var k := PlaceInserts(side, s, o);
  }

  predicate BookInWindow(lo: int, b: Book) {
    InWindow(lo, b.bids) && InWindow(lo, b.asks)
  }

  /** The order pool's own condition: a block for the order and the one that stays free. */
  predicate OrderPoolRoom(b: Book, r: ClientRequest) {
    r.kind == New && SweepFor(b, r).leaves > 0 ==>
      |MatchedBook(b, r).bids| + |MatchedBook(b, r).asks| + 2 <= ME_MAX_ORDER_IDS
  }

  predicate OrderPoolRun(b: Book, rs: seq<ClientRequest>)
    decreases |rs|
  {
    rs == [] || (OrderPoolRoom(b, rs[0]) && OrderPoolRun(Process(b, rs[0]).book, rs[1..]))
  }

  lemma {:induction false} AddStaysInWindow(b: Book, r: ClientRequest, lo: int)
    requires WellFormed(b) && r.kind == New && Legal(b, r) && RequestInWindow(lo, r) && BookInWindow(lo, b)
    ensures Room(b, r) <==> OrderPoolRoom(b, r)
    ensures BookInWindow(lo, AddOrder(b, r).book)
  {
    var k := MatchKeepsWellFormed(b, r);
    var m := MatchedBook(b, r);
    TrimmedInWindow(lo, b.On(r.side.Opposite()), k, m.On(r.side.Opposite()));
    if SweepFor(b, r).leaves > 0 {
      MatchedLeavesPlace(b, r);
      if OrderPoolRoom(b, r) {
        WindowHasRoom(m, r.side, r.price, lo);
      }
      PlacedInWindow(lo, r.side, m.On(r.side), RestedOrder(b, r));
    }
  }

  lemma {:induction false} CancelStaysInWindow(b: Book, r: ClientRequest, lo: int)
    requires BookInWindow(lo, b)
    ensures BookInWindow(lo, CancelOrder(b, r).book)
  {
  }

  /** While all prices lie in one window of 255, only the order pool can run out: from any well-formed
      book and over runs of any length, every request has room exactly when the order pool has it. */
  lemma {:induction false} WindowRunsHaveRoom(b: Book, rs: seq<ClientRequest>, lo: int)
    requires WellFormed(b) && LegalRun(b, rs) && BookInWindow(lo, b)
    requires forall i :: 0 <= i < |rs| ==> RequestInWindow(lo, rs[i])
    ensures RoomyRun(b, rs) <==> OrderPoolRun(b, rs)
    decreases |rs|
  {
    if rs != [] {
      hide Room, OrderPoolRoom, Legal, AddOrder, CancelOrder, BookInWindow, WellFormed;
      if rs[0].kind == New {
        AddStaysInWindow(b, rs[0], lo);
      } else {
        CancelStaysInWindow(b, rs[0], lo);
        OnlyNewNeedsRoom(b, rs[0]);
      }
      ProcessKeepsWellFormed(b, rs[0]);
      WindowRunsHaveRoom(Process(b, rs[0]).book, rs[1..], lo);
    }
  }

  lemma {:induction false} OnlyNewNeedsRoom(b: Book, r: ClientRequest)
    requires r.kind != New
    ensures Room(b, r) && OrderPoolRoom(b, r)
    ensures r.kind == Cancel ==> Process(b, r) == CancelOrder(b, r)
  {
  }

  /** One request adds at most one resting order. */
  lemma {:induction false} OneMoreAtMost(b: Book, r: ClientRequest)
    requires WellFormed(b) && Legal(b, r)
    ensures |Process(b, r).book.bids| + |Process(b, r).book.asks| <= |b.bids| + |b.asks| + 1
    ensures r.kind == New ==> |MatchedBook(b, r).bids| + |MatchedBook(b, r).asks| <= |b.bids| + |b.asks|
  {
    if r.kind == New {
      var k := MatchKeepsWellFormed(b, r);
      if SweepFor(b, r).leaves > 0 {
        var j := PlaceInserts(r.side, MatchedBook(b, r).On(r.side), RestedOrder(b, r));
      }
    }
  }

  /** A run that is shorter than what the order pool has left cannot exhaust it. */
  lemma {:induction false} ShortRunsFit(b: Book, rs: seq<ClientRequest>)
    requires WellFormed(b) && LegalRun(b, rs) && |b.bids| + |b.asks| + |rs| + 1 <= ME_MAX_ORDER_IDS
    ensures OrderPoolRun(b, rs)
    decreases |rs|
  {
    if rs != [] {
      hide WellFormed, Legal, Process;
      OneMoreAtMost(b, rs[0]);
      ProcessKeepsWellFormed(b, rs[0]);
      ShortRunsFit(Process(b, rs[0]).book, rs[1..]);
    }
  }

  // ----- colliding prices

  /** No two different prices of the book look into the same slot. */
  ghost predicate SlotsApart(b: Book) {
    forall price :: price in Prices(b.bids) || price in Prices(b.asks) ==>
                      SlotFree(b.bids, price) && SlotFree(b.asks, price)
  }

  predicate SlotFreeOf(prices: set<int>, price: int) {
    forall x :: x in prices && PriceToIndex(x) == PriceToIndex(price) ==> x == price
  }

  lemma SlotFreeByPrices(s: seq<Order>, price: int)
    ensures SlotFree(s, price) <==> SlotFreeOf(Prices(s), price)
  {
    if SlotFreeOf(Prices(s), price) {
      assert forall i :: 0 <= i < |s| ==> s[i].price in Prices(s);
    }
  }

  lemma PricesConcat(s: seq<Order>, t: seq<Order>)
    ensures Prices(s + t) == Prices(s) + Prices(t)
  {
    forall x | x in Prices(s) + Prices(t) ensures x in Prices(s + t) {
      if i :| 0 <= i < |s| && s[i].price == x {
        assert (s + t)[i].price == x;
      } else {
        var j :| 0 <= j < |t| && t[j].price == x;
        assert (s + t)[|s| + j].price == x;
      }
    }
  }

  lemma {:induction false} PlacedPrices(side: Side, s: seq<Order>, o: Order)
    ensures Prices(Place(side, s, o)) == Prices(s) + {o.price}
  {
    hide Prices, Place;
    var k := PlaceInserts(side, s, o);
    PricesConcat(s[..k] + [o], s[k..]);
    PricesConcat(s[..k], [o]);
    PricesConcat(s[..k], s[k..]);
    assert s == s[..k] + s[k..];
    OnePrice(o);
  }

  lemma OnePrice(o: Order)
    ensures Prices([o]) == {o.price}
  {
    assert [o][0] == o;
  }

  /** Resting keeps the prices apart exactly when the slot of the new price is free of others. */
  lemma {:induction false} ApartExactlyWhenFree(b: Book, r: ClientRequest)
    requires r.side != Side.INVALID && SweepFor(b, r).leaves > 0 && SlotsApart(MatchedBook(b, r))
    ensures SlotsApart(AddOrder(b, r).book)
            <==> SlotFree(MatchedBook(b, r).bids, r.price) && SlotFree(MatchedBook(b, r).asks, r.price)
  {
    hide Place, Sweep, Prices, SlotFree;
    var m, o, after := MatchedBook(b, r), RestedOrder(b, r), AddOrder(b, r).book;
    PlacedPrices(r.side, m.On(r.side), o);
    assert after.On(r.side) == Place(r.side, m.On(r.side), o);
    assert after.On(r.side.Opposite()) == m.On(r.side.Opposite());
    forall price, s ensures SlotFree(s, price) <==> SlotFreeOf(Prices(s), price) {
      SlotFreeByPrices(s, price);
    }
    assert r.price in Prices(after.On(r.side));
  }
}
