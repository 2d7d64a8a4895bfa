/** The matching engine's order book with its linked levels, linked queues, tables and pools. */
module OrderBook {
  import opened Types
  import opened BookSpec
  import opened BookInvariant
  import opened MemPools
  import opened Rings
  import opened Ladder
  import opened LevelList
  import opened Capacity
  import opened Representation
  import opened BookValues

  /** The matching engine's two outgoing queues, as the messages written to them. */
  class Outgoing {
    var responses: seq<ClientResponse>
    var updates: seq<MarketUpdate>

    constructor ()
      ensures responses == [] && updates == []
    {
      responses, updates := [], [];
    }

    method SendClientResponse(r: ClientResponse)
      modifies this
      ensures responses == old(responses) + [r] && updates == old(updates)
    {
      responses := responses + [r];
    }

    method SendMarketUpdate(u: MarketUpdate)
      modifies this
      ensures updates == old(updates) + [u] && responses == old(responses)
    {
      updates := updates + [u];
    }

    /** The messages of one fill of a resting order, in the order in which they are sent. */
    method ReportFill(a: Aggressor, order: Order, leavesBefore: nat)
      modifies this
      ensures responses == old(responses) + FillResponses(a, order, leavesBefore)
      ensures updates == old(updates) + FillUpdates(a, order, leavesBefore)
      ensures var fill := if leavesBefore <= order.qty then leavesBefore else order.qty;
              && responses == old(responses)
                   + [ClientResponse(Filled, a.client, a.ticker, a.clientOrderId, a.marketOrderId, a.side,
                                     order.price, fill, leavesBefore - fill),
                      ClientResponse(Filled, order.client, a.ticker, order.clientOrderId, order.marketOrderId,
                                     order.side, order.price, fill, order.qty - fill)]
              && updates == old(updates)
                   + [MarketUpdate(Trade, ORDER_ID_INVALID, a.ticker, a.side, order.price, fill, PRIORITY_INVALID),
                      if fill == order.qty
                      then MarketUpdate(Remove, order.marketOrderId, a.ticker, order.side, order.price, order.qty,
                                        PRIORITY_INVALID)
                      else MarketUpdate(Modify, order.marketOrderId, a.ticker, order.side, order.price,
                                        order.qty - fill, order.priority)]
    {
      var fill := Min(leavesBefore, order.qty);
      SendClientResponse(AggressorFill(a, order.price, fill, leavesBefore - fill));
      SendClientResponse(RestingFill(a.ticker, order, fill, order.qty - fill));
      SendMarketUpdate(TradeUpdate(a, order.price, fill));
      if order.qty - fill == 0 {
        SendMarketUpdate(MarketUpdate(Remove, order.marketOrderId, a.ticker, order.side, order.price, order.qty,
            PRIORITY_INVALID));
      } else {
        SendMarketUpdate(MarketUpdate(Modify, order.marketOrderId, a.ticker, order.side, order.price,
            order.qty - fill, order.priority));
      }
    }
  }

  class MEOrderBook {
    /** True for the evident intent of the source, false for its committed text.  They differ in
        five places, all in AddOrdersAtPrice and RemoveOrdersAtPrice: the four assignments
        `side == BUY ? bids : asks = x`, which C++ reads as `side == BUY ? bids : (asks = x)`, and
        the missing next pointer of a level appended behind all others. */
    const amended: bool
    const engine: Outgoing
    const cidOidToOrder: array2<Ptr>
    const levelPool: MemPool<Node<PriceLevel>>
    var bidsAtPrice: Ptr
    var asksAtPrice: Ptr
    const priceTable: array<Ptr>
    const orderPool: MemPool<Node<Order>>
    var nextMarketOrderId: nat

    ghost var bidRows: seq<Row>
    ghost var askRows: seq<Row>

    function HeadFor(side: Side): Ptr
      reads this`bidsAtPrice, this`asksAtPrice
    {
      if side == BUY then bidsAtPrice else asksAtPrice
    }

    ghost function RowsFor(side: Side): seq<Row>
      reads this`bidRows, this`askRows
    {
      if side == BUY then bidRows else askRows
    }

    ghost function LevelMem(): LevelMemory
      reads levelPool, levelPool.store
    {
      levelPool.Blocks()
    }

    ghost function OrderMem(): OrderMemory
      reads orderPool, orderPool.store
    {
      orderPool.Blocks()
    }

    /** The objects of this book; the engine's queues are shared and not among them. */
    ghost function Repr(): set<object> {
      {this, cidOidToOrder, levelPool, levelPool.store, priceTable, orderPool, orderPool.store}
    }

    /** The fixed sizes, and that no two of the structures are the same object. */
    ghost predicate Framed() {
      && priceTable.Length == ME_MAX_PRICE_LEVELS
      && levelPool.store.Length == ME_MAX_PRICE_LEVELS && orderPool.store.Length == ME_MAX_ORDER_IDS
      && levelPool as object != orderPool && levelPool.store as object != orderPool.store
      && priceTable as object != levelPool.store && priceTable as object != orderPool.store
      && engine as object !in Repr()
    }

    /** The linked structure, the price table and the pools describe the ghost rows. */
    ghost predicate Linkage(spareLevels: set<nat>, spareOrders: set<nat>)
      reads this`bidsAtPrice, this`asksAtPrice, this`bidRows, this`askRows, levelPool, levelPool.store, orderPool,
          orderPool.store, priceTable
    {
      Whole(BUY, LevelMem(), OrderMem(), priceTable[..], bidsAtPrice, bidRows, asksAtPrice, askRows, spareLevels,
          spareOrders)
    }

    ghost predicate ClientTableInRange()
      reads cidOidToOrder
    {
      && cidOidToOrder.Length0 == ME_MAX_NUM_CLIENTS && cidOidToOrder.Length1 == ME_MAX_ORDER_IDS
      && (forall c, o :: 0 <= c < ME_MAX_NUM_CLIENTS && 0 <= o < ME_MAX_ORDER_IDS ==> cidOidToOrder[c, o] >= NULL)
    }

    /** The non-null entries of the client table. */
    ghost function Clients(): map<(nat, nat), nat>
      reads cidOidToOrder
      requires ClientTableInRange()
    {
      map c: nat, o: nat | c < ME_MAX_NUM_CLIENTS && o < ME_MAX_ORDER_IDS && cidOidToOrder[c, o] != NULL
        :: (c, o) := cidOidToOrder[c, o]
    }

    method SetClient(c: nat, o: nat, p: nat)
      requires ClientTableInRange() && c < ME_MAX_NUM_CLIENTS && o < ME_MAX_ORDER_IDS
      modifies cidOidToOrder
      ensures ClientTableInRange() && Clients() == old(Clients())[(c, o) := p]
    {
      cidOidToOrder[c, o] := p;
    }

    method ClearClient(c: nat, o: nat)
      requires ClientTableInRange() && c < ME_MAX_NUM_CLIENTS && o < ME_MAX_ORDER_IDS
      modifies cidOidToOrder
      ensures ClientTableInRange() && Clients() == old(Clients()) - {(c, o)}
    {
      cidOidToOrder[c, o] := NULL;
    }

    ghost predicate Indexed()
      reads this`bidRows, this`askRows, orderPool, orderPool.store, cidOidToOrder
    {
      ClientTableInRange() && IndexedBy(OrderMem(), Clients(), Flat(bidRows), Flat(askRows))
    }

    ghost predicate Sound()
      reads Repr()
    {
      && Framed() && levelPool.Valid() && orderPool.Valid()
      && Linkage({}, {}) && Indexed()
    }

    /** The orders of one side that the structures describe, and the book. */
    ghost function Orders(side: Side): seq<Order>
      reads this`bidRows, this`askRows, orderPool, orderPool.store
    {
      Listed(OrderMem(), Flat(RowsFor(side)))
    }

    ghost function Abstract(): Book
      reads this, orderPool, orderPool.store
    {
      Book(Orders(BUY), Orders(SELL), nextMarketOrderId)
    }

    ghost predicate Valid()
      reads Repr()
    {
      Sound() && WellFormed(Abstract()) && (amended || bidsAtPrice == NULL)
    }

    constructor (amended: bool, engine: Outgoing)
      ensures Valid()
      ensures Abstract() == EMPTY_BOOK && bidsAtPrice == NULL && asksAtPrice == NULL
      ensures this.amended == amended && this.engine == engine
      ensures fresh(cidOidToOrder) && fresh(levelPool) && fresh(levelPool.store)
      ensures fresh(priceTable) && fresh(orderPool) && fresh(orderPool.store)
    {
      this.amended := amended;
      this.engine := engine;
      var emptyOrder := Order(0, 0, 0, 0, Side.INVALID, 0, 0, 0);
      cidOidToOrder := new Ptr[ME_MAX_NUM_CLIENTS, ME_MAX_ORDER_IDS]((_, _) => NULL);
      levelPool := new MemPool(ME_MAX_PRICE_LEVELS, Node(PriceLevel(Side.INVALID, PRICE_INVALID, NULL), NULL, NULL));
      priceTable := new Ptr[ME_MAX_PRICE_LEVELS](_ => NULL);
      orderPool := new MemPool(ME_MAX_ORDER_IDS, Node(emptyOrder, NULL, NULL));
      bidsAtPrice, asksAtPrice := NULL, NULL;
      nextMarketOrderId := 1;
      bidRows, askRows := [], [];
      new;
      hide Linkage, Indexed, WellFormed;
      assert Framed();
      EmptyIsValid();
    }

    lemma EmptyIsValid()
      requires Framed() && levelPool.Valid() && orderPool.Valid()
      requires bidsAtPrice == NULL && asksAtPrice == NULL && bidRows == [] && askRows == [] && nextMarketOrderId == 1
      requires forall p: nat :: p < levelPool.store.Length ==> levelPool.store[p].isFree
      requires forall p: nat :: p < orderPool.store.Length ==> orderPool.store[p].isFree
      requires forall k :: 0 <= k < priceTable.Length ==> priceTable[k] == NULL
      requires cidOidToOrder.Length0 == ME_MAX_NUM_CLIENTS && cidOidToOrder.Length1 == ME_MAX_ORDER_IDS
      requires forall c, o :: 0 <= c < ME_MAX_NUM_CLIENTS && 0 <= o < ME_MAX_ORDER_IDS ==> cidOidToOrder[c, o] == NULL
      ensures Valid() && Abstract() == EMPTY_BOOK
    {
      WholeEmpty(LevelMem(), OrderMem(), priceTable[..]);
    }

    /** `(side == BUY ? bids : asks) = p` as meant, or as the committed text parses. */
    method AssignHead(side: Side, p: Ptr)
      requires side != Side.INVALID
      modifies this`bidsAtPrice, this`asksAtPrice
      ensures !amended ==> bidsAtPrice == old(bidsAtPrice)
      ensures HeadFor(side) == if amended || side == SELL then p else old(HeadFor(side))
      ensures HeadFor(side.Opposite()) == old(HeadFor(side.Opposite()))
    {
      if side == BUY {
        if amended {
          bidsAtPrice := p;
        }
      } else {
        asksAtPrice := p;
      }
    }

    /** The walk from the best level: it stops at the level in front of which the price belongs, or
        back at the best one with addAfter set when the price is worse than all. */
    method FindTarget(best: nat, side: Side, price: int, ghost levels: seq<nat>)
      returns (target: nat, addAfter: bool, ghost k: nat)
      requires side != Side.INVALID && levels != []
      requires LevelChain(LevelMem(), side, best, levels)
      requires forall i :: 0 <= i < |levels| ==> PriceAt(LevelMem(), levels[i]) != price
      ensures Rank(LevelMem(), side, levels, price, k)
      ensures addAfter <==> k == |levels|
      ensures addAfter <==> forall i :: 0 <= i < |levels| ==> Better(side, PriceAt(LevelMem(), levels[i]), price)
      ensures target == if addAfter then best else levels[k]
    {
      ghost var m, n := LevelMem(), |levels|;
      assert forall i {:trigger After(levels, i)} :: 0 <= i < n ==> Linked(m, levels[i], After(levels, i));
      ghost var t := 0;
      target := best;
      addAfter := Worse(side, price, target);
      if addAfter {
        assert Linked(m, levels[0], After(levels, 0));
        target := levelPool.store[target].value.next;
        t := 1;
        addAfter := Worse(side, price, target);
      }
      while addAfter && target != best
        invariant 0 <= t <= n && target == GapRight(levels, t)
        invariant forall i :: 0 <= i < t ==> Better(side, PriceAt(m, levels[i]), price)
        invariant addAfter ==> t > 0
        invariant !addAfter ==> t < n && Better(side, price, PriceAt(m, levels[t]))
        decreases n - t, addAfter
      {
        addAfter := Worse(side, price, target);
        if addAfter {
          assert Linked(m, levels[t], After(levels, t));
          target := levelPool.store[target].value.next;
          t := t + 1;
        }
      }
      k := t;
      assert addAfter ==> k == n;
      assert !addAfter ==> Better(side, price, PriceAt(m, levels[k]));
    }

    /** The comparison that moves the walk on: the new price is worse than the level's. */
    predicate Worse(side: Side, price: int, p: nat)
      requires p < levelPool.store.Length
      reads levelPool, levelPool.store
    {
      var other := levelPool.store[p].value.data.price;
      (side == SELL && price > other) || (side == BUY && price < other)
    }

    /** A level x that is not linked yet, next to the chain of its side. */
    ghost predicate ReadyToLink(x: nat, side: Side, levels: seq<nat>)
      reads this, levelPool, levelPool.store
    {
      && side != Side.INVALID
      && LevelChain(LevelMem(), side, HeadFor(side), levels)
      && x < |LevelMem()| && x !in levels
      && LevelMem()[x].value.data.side == side
      && LevelMem()[x].value.prev == NULL && LevelMem()[x].value.next == NULL
    }

    /** "Add after target": behind all others, where the committed text forgets the next pointer. */
    method LinkBehind(x: nat, best: nat, ghost side: Side, ghost levels: seq<nat>)
      requires ReadyToLink(x, side, levels) && levels != [] && best == HeadFor(side)
      modifies levelPool.store
      ensures Ring(LevelMem(), Inserted(levels, |levels|, x)) <==> amended
      ensures SameData(old(LevelMem()), LevelMem()) && SameOutside(old(LevelMem()), levels + [x], LevelMem())
      ensures LevelMem()[x].value.next == NULL <==> !amended
    {
      ghost var m := LevelMem();
      RingNeighbours(m, levels, 0);
      var target := levelPool.store[best].value.prev;
      RingNeighbours(m, levels, |levels| - 1);
      SplicedGap(m, levels, |levels|, x);
      SplicedRing(m, levels, |levels|, x);
      Splice(levelPool, target, x, levelPool.store[target].value.next, amended);
    }

    /** "Add before target"; a new best level becomes the head. */
    method LinkInFront(x: nat, target: nat, best: nat, ghost side: Side, ghost levels: seq<nat>, ghost k: nat)
      requires ReadyToLink(x, side, levels) && k < |levels| && target == levels[k] && best == HeadFor(side)
      requires Rank(LevelMem(), side, levels, PriceAt(LevelMem(), x), k)
      modifies this`bidsAtPrice, this`asksAtPrice, levelPool.store
      ensures !amended ==> bidsAtPrice == old(bidsAtPrice)
      ensures Ring(LevelMem(), Inserted(levels, k, x))
      ensures SameData(old(LevelMem()), LevelMem()) && SameOutside(old(LevelMem()), levels + [x], LevelMem())
      ensures HeadFor(side) == if k == 0 && (amended || side == SELL) then x else old(HeadFor(side))
      ensures LevelMem()[x].value.next != NULL
      ensures HeadFor(side.Opposite()) == old(HeadFor(side.Opposite()))
    {
      ghost var m := LevelMem();
      RingNeighbours(m, levels, k);
      SplicedRing(m, levels, k, x);
      var node := levelPool.store[x].value;
      Splice(levelPool, levelPool.store[target].value.prev, x, target, true);
      if (node.data.side == BUY && node.data.price > levelPool.store[best].value.data.price)
         || (node.data.side == SELL && node.data.price < levelPool.store[best].value.data.price) {
        RepointNext(x, target, best, levels, m);
        AssignHead(node.data.side, x);
      }
    }

    /** The source writes target's next once more here; it already has the value that is written. */
    method RepointNext(x: nat, target: nat, best: nat, ghost levels: seq<nat>, ghost m: LevelMemory)
      requires Ring(m, levels) && levels != [] && target == best == levels[0] && x !in levels && x < |m|
      requires LevelMem() == SplicedIn(m, GapLeft(levels, 0), x, target, true)
      modifies levelPool.store
      ensures LevelMem() == old(LevelMem())
    {
      RingNeighbours(m, levels, 0);
      var node := levelPool.store[target].value;
      levelPool.Update(target, node.(next := if node.next == best then x else node.next));
    }

    /** Links the new level x where its price belongs.  The result is again the sorted circle headed
        by the best level exactly when the text is amended or avoids its two lost writes. */
    method AddOrdersAtPrice(x: nat, ghost side: Side, ghost levels: seq<nat>) returns (ghost k: nat)
      requires priceTable.Length == ME_MAX_PRICE_LEVELS && ReadyToLink(x, side, levels)
      requires forall i :: 0 <= i < |levels| ==> PriceAt(LevelMem(), levels[i]) != PriceAt(LevelMem(), x)
      modifies this`bidsAtPrice, this`asksAtPrice, levelPool.store, priceTable
      ensures !amended ==> bidsAtPrice == old(bidsAtPrice)
      ensures HeadFor(side.Opposite()) == old(HeadFor(side.Opposite()))
      ensures priceTable[..] == old(priceTable[..])[PriceToIndex(PriceAt(LevelMem(), x)) := x]
      ensures SameData(old(LevelMem()), LevelMem()) && SameOutside(old(LevelMem()), levels + [x], LevelMem())
      ensures Rank(old(LevelMem()), side, levels, PriceAt(LevelMem(), x), k)
      ensures LevelChain(LevelMem(), side, HeadFor(side), Inserted(levels, k, x))
              <==> amended || TextInserts(side, |levels|, k)
      ensures LevelMem()[x].value.next == NULL <==> !amended && k == |levels| > 0
    {
      ghost var m := LevelMem();
      var node := levelPool.store[x].value;
      priceTable[PriceToIndex(node.data.price)] := x;
      var best := HeadFor(node.data.side);
      if best == NULL {
        AssignHead(node.data.side, x);
        Splice(levelPool, x, x, x, true);
        k := 0;
        assert Inserted(levels, 0, x) == [x] && After([x], 0) == x;
      } else {
        var target, addAfter;
        target, addAfter, k := FindTarget(best, node.data.side, node.data.price, levels);
        if addAfter {
          LinkBehind(x, best, side, levels);
        } else {
          LinkInFront(x, target, best, side, levels, k);
        }
      }
      SortedInsert(m, side, levels, k, x, LevelMem());
      assert Inserted(levels, k, x)[0] == if k == 0 then x else levels[0];
    }

    /** Unlinks the level at this price and returns its block to the pool. */
    method RemoveOrdersAtPrice(side: Side, price: int, ghost levels: seq<nat>, ghost i: nat)
      requires Framed() && levelPool.Valid() && side != Side.INVALID
      requires LevelChain(LevelMem(), side, HeadFor(side), levels) && i < |levels|
      requires priceTable[PriceToIndex(price)] == levels[i] && !LevelMem()[levels[i]].isFree
      modifies this`bidsAtPrice, this`asksAtPrice, levelPool.store, priceTable
      ensures !amended ==> bidsAtPrice == old(bidsAtPrice)
      ensures HeadFor(side.Opposite()) == old(HeadFor(side.Opposite())) && levelPool.Valid()
      ensures priceTable[..] == old(priceTable[..])[PriceToIndex(price) := NULL]
      ensures DataExcept(old(LevelMem()), levels, levels[i], LevelMem())
      ensures LevelChain(LevelMem(), side, HeadFor(side), Deleted(levels, i))
              <==> amended || TextRemoves(side, |levels|, i)
    {
      hide Ring, SortedLevels;
      ghost var m := LevelMem();
      var best := HeadFor(side);
      var level := priceTable[PriceToIndex(price)];
      RingNeighbours(m, levels, i);
      FirstOnlyOnce(m, levels, i);
      var node := levelPool.store[level].value;
      if node.next == level {
        OnlyMember(m, levels, i);
        AssignHead(side, NULL);
      } else {
        UnlinkLevel(level, levels, i);
        if level == best {
          AssignHead(side, node.next);
        }
      }
      ghost var m1 := LevelMem();
      priceTable[PriceToIndex(price)] := NULL;
      levelPool.Deallocate(level);
      if |levels| >= 2 {
        RingFrame(m1, Deleted(levels, i), LevelMem());
      }
      ChainWithout(m, side, best, levels, i, LevelMem(), HeadFor(side));
    }

    method UnlinkLevel(level: nat, ghost levels: seq<nat>, ghost i: nat)
      requires Ring(LevelMem(), levels) && i < |levels| && level == levels[i] && LevelMem()[level].value.next != level
      modifies levelPool.store
      ensures |levels| >= 2 && Ring(LevelMem(), Deleted(levels, i))
      ensures SameData(old(LevelMem()), LevelMem()) && SameOutside(old(LevelMem()), levels, LevelMem())
    {
      ghost var m := LevelMem();
      RingNeighbours(m, levels, i);
      assert |levels| >= 2;
      UnlinkedRing(m, levels, i);
      var node := levelPool.store[level].value;
      Unlink(levelPool, node.prev, node.next);
      ghost var m1 := LevelMem();
      levelPool.Update(level, levelPool.store[level].value.(prev := NULL, next := NULL));
      DeletedMembers(levels, i);
      RingFrame(m1, Deleted(levels, i), LevelMem());
      assert levels[i] in levels;
    }

    /** Linkage seen from either side. */
    ghost predicate LinkageFor(side: Side, spareLevels: set<nat>, spareOrders: set<nat>)
      reads this`bidsAtPrice, this`asksAtPrice, this`bidRows, this`askRows, levelPool, levelPool.store, orderPool,
          orderPool.store, priceTable
    {
      Whole(side, LevelMem(), OrderMem(), priceTable[..], HeadFor(side), RowsFor(side),
            HeadFor(side.Opposite()), RowsFor(side.Opposite()), spareLevels, spareOrders)
    }

    lemma LinkageFromSide(side: Side, spareLevels: set<nat>, spareOrders: set<nat>)
      requires side != Side.INVALID
      ensures Linkage(spareLevels, spareOrders) <==> LinkageFor(side, spareLevels, spareOrders)
    {
      if side == SELL {
        if Linkage(spareLevels, spareOrders) {
          WholeSwap(BUY, LevelMem(), OrderMem(), priceTable[..], bidsAtPrice, bidRows, asksAtPrice, askRows,
              spareLevels, spareOrders);
        }
        if LinkageFor(SELL, spareLevels, spareOrders) {
          WholeSwap(SELL, LevelMem(), OrderMem(), priceTable[..], asksAtPrice, askRows, bidsAtPrice, bidRows,
              spareLevels, spareOrders);
        }
      }
    }

    ghost method SetRows(side: Side, rows: seq<Row>)
      requires side != Side.INVALID
      modifies this`bidRows, this`askRows
      ensures RowsFor(side) == rows && RowsFor(side.Opposite()) == old(RowsFor(side.Opposite()))
    {
      if side == BUY {
        bidRows := rows;
      } else {
        askRows := rows;
      }
    }

    /** Takes order x out of a queue that keeps other orders. */
    method UnlinkOrder(x: nat, level: nat, ghost side: Side, ghost r: Row, ghost j: nat)
      requires levelPool.store as object != orderPool.store
      requires RowRep(LevelMem(), OrderMem(), side, r) && |r.queue| >= 2 && j < |r.queue|
      requires x == r.queue[j] && level == r.level
      modifies levelPool.store, orderPool.store
      ensures |old(OrderMem())| == |OrderMem()| && InRange(old(OrderMem()), r.queue)
      ensures OrderMem() == DroppedMem(old(OrderMem()), r, j)
      ensures LevelMem() == DroppedLevels(old(LevelMem()), r, j)
    {
      RingNeighbours(OrderMem(), r.queue, j);
      var node := orderPool.store[x].value;
      Unlink(orderPool, node.prev, node.next);
      var levelNode := levelPool.store[level].value;
      if levelNode.data.first == x {
        levelPool.Update(level, levelNode.(data := levelNode.data.(first := node.next)));
      }
      orderPool.Update(x, orderPool.store[x].value.(prev := NULL));
      orderPool.Update(x, orderPool.store[x].value.(next := NULL));
    }

    /** Where order x stands: row i of its side, member j of its queue. */
    ghost predicate StandsAt(x: nat, side: Side, i: nat, j: nat)
      reads this
    {
      side != Side.INVALID && i < |RowsFor(side)| && j < |RowsFor(side)[i].queue| && x == RowsFor(side)[i].queue[j]
    }

    lemma StandsInRow(x: nat, side: Side, i: nat, j: nat)
      requires LinkageFor(side, {}, {}) && StandsAt(x, side, i, j)
      ensures var r := RowsFor(side)[i];
              && RowRep(LevelMem(), OrderMem(), side, r) && x < |OrderMem()|
              && OrderAt(OrderMem(), x).side == side && OrderAt(OrderMem(), x).price == PriceAt(LevelMem(), r.level)
              && |priceTable[..]| == ME_MAX_PRICE_LEVELS
              && priceTable[PriceToIndex(OrderAt(OrderMem(), x).price)] == r.level && !LevelMem()[r.level].isFree
              && Levels(RowsFor(side))[i] == r.level
              && OrderMem()[x].value.prev == GapLeft(r.queue, j)
    {
      var r := RowsFor(side)[i];
      assert RowRep(LevelMem(), OrderMem(), side, r);
      assert Levels(RowsFor(side))[i] in Levels(RowsFor(side));
      RingNeighbours(OrderMem(), r.queue, j);
    }

    /** The last order of a level takes the level with it. */
    method DetachLast(x: nat, ghost side: Side, ghost i: nat)
      requires Framed() && levelPool.Valid() && LinkageFor(side, {}, {}) && StandsAt(x, side, i, 0)
      requires |RowsFor(side)[i].queue| == 1 && (amended || side == SELL)
      modifies this`bidsAtPrice, this`asksAtPrice, this`bidRows, this`askRows, levelPool.store, priceTable
      ensures !amended ==> bidsAtPrice == old(bidsAtPrice)
      ensures levelPool.Valid() && LinkageFor(side, {}, {x})
      ensures RowsFor(side) == Deleted(old(RowsFor(side)), i)
              && RowsFor(side.Opposite()) == old(RowsFor(side.Opposite()))
    {
      hide Ring, SortedLevels;
      StandsInRow(x, side, i, 0);
      ghost var lm, om, table := LevelMem(), OrderMem(), priceTable[..];
      ghost var rows, others := RowsFor(side), RowsFor(side.Opposite());
      ghost var head, otherHead := HeadFor(side), HeadFor(side.Opposite());
      var order := orderPool.store[x].value.data;
      RemoveOrdersAtPrice(order.side, order.price, Levels(rows), i);
      DropRow(side, lm, om, table, head, rows, otherHead, others, i, LevelMem(), HeadFor(side));
      assert RowsFor(side.Opposite()) == others;
      SetRows(side, Deleted(rows, i));
      assert RowsFor(side.Opposite()) == others && RowsFor(side) == Deleted(rows, i);
    }

    method DetachOne(x: nat, ghost side: Side, ghost i: nat, ghost j: nat)
      requires Framed() && levelPool.Valid() && LinkageFor(side, {}, {}) && StandsAt(x, side, i, j)
      requires |RowsFor(side)[i].queue| >= 2
      modifies this`bidRows, this`askRows, levelPool.store, orderPool.store
      ensures levelPool.Valid() && LinkageFor(side, {}, {x}) && SameData(old(OrderMem()), OrderMem())
      ensures RowsFor(side) == Dropped(old(RowsFor(side)), i, j)
              && RowsFor(side.Opposite()) == old(RowsFor(side.Opposite()))
    {
      hide Ring, SortedLevels, Whole;
      StandsInRow(x, side, i, j);
      ghost var rows, others := RowsFor(side), RowsFor(side.Opposite());
      DropOrder(side, LevelMem(), OrderMem(), priceTable[..], HeadFor(side), rows, HeadFor(side.Opposite()), others,
          i, j);
      var level := priceTable[PriceToIndex(orderPool.store[x].value.data.price)];
      UnlinkOrder(x, level, side, rows[i], j);
      SetRows(side, Dropped(rows, i, j));
    }

    /** Takes order x out of its queue, and its level out of the list when x was alone there. */
    method Detach(x: nat, ghost side: Side, ghost i: nat, ghost j: nat)
      requires Framed() && levelPool.Valid() && Linkage({}, {}) && StandsAt(x, side, i, j)
      requires amended || side == SELL
      modifies this`bidsAtPrice, this`asksAtPrice, this`bidRows, this`askRows
      modifies levelPool.store, orderPool.store, priceTable
      ensures !amended ==> bidsAtPrice == old(bidsAtPrice)
      ensures levelPool.Valid() && Linkage({}, {x}) && SameData(old(OrderMem()), OrderMem())
      ensures old(Position(RowsFor(side), i, j) < |Flat(RowsFor(side))|)
      ensures Flat(RowsFor(side)) == Deleted(old(Flat(RowsFor(side))), old(Position(RowsFor(side), i, j)))
      ensures RowsFor(side.Opposite()) == old(RowsFor(side.Opposite()))
    {
      hide Whole;
      ghost var om, rows := OrderMem(), RowsFor(side);
      LinkageFromSide(side, {}, {});
      StandsInRow(x, side, i, j);
      FlatAt(rows, i, j);
      if orderPool.store[x].value.prev == x {
        AloneInCircle(OrderMem(), rows[i].queue, j);
        DetachLast(x, side, i);
        assert OrderMem() == om;
        FlatDropRow(rows, i);
      } else {
        FlatDrop(rows, i, j);
        DetachOne(x, side, i, j);
      }
      LinkageFromSide(side, {}, {x});
    }

    /** Clears the detached order's place in the client table and frees its block. */
    method Discard(x: nat, ghost side: Side, ghost om: OrderMemory, ghost q: seq<nat>, ghost k: nat)
      requires Framed() && levelPool.Valid() && orderPool.Valid() && Linkage({}, {x}) && side != Side.INVALID
      requires ClientTableInRange() && IndexedBy(om, Clients(), q, Flat(RowsFor(side.Opposite())))
      requires SameValues(om, OrderMem()) && Apart(q, Flat(RowsFor(side.Opposite())))
      requires k < |q| && q[k] == x < |om| && Flat(RowsFor(side)) == Deleted(q, k)
      requires ClientKey(OrderAt(om, x)) in Clients()
      modifies orderPool.store, cidOidToOrder
      ensures Sound() && SameValues(om, OrderMem())
    {
      hide Whole, Apart, IndexedBy;
      var order := orderPool.store[x].value.data;
      assert x in {x} && x in q;
      IndexedDelete(om, Clients(), q, Flat(RowsFor(side.Opposite())), k, om);
      ClearClient(order.client, order.clientOrderId);
      DiscardBlock(x);
      IndexedCarried(om, Clients(), Flat(RowsFor(side)), Flat(RowsFor(side.Opposite())), OrderMem(), side);
    }

    method DiscardBlock(x: nat)
      requires Framed() && orderPool.Valid() && Linkage({}, {x})
      modifies orderPool.store
      ensures orderPool.Valid() && Linkage({}, {}) && SameValues(old(OrderMem()), OrderMem())
    {
      ReleaseOrder(BUY, LevelMem(), OrderMem(), priceTable[..], bidsAtPrice, bidRows, asksAtPrice, askRows, x);
      orderPool.Deallocate(x);
    }

    /** Detaches order x, clears its place in the client table and frees its block. */
    method RemoveOrder(x: nat, ghost side: Side, ghost i: nat, ghost j: nat)
      requires Sound() && StandsAt(x, side, i, j) && (amended || side == SELL)
      modifies this`bidsAtPrice, this`asksAtPrice, this`bidRows, this`askRows
      modifies levelPool.store, orderPool.store, priceTable, cidOidToOrder
      ensures !amended ==> bidsAtPrice == old(bidsAtPrice)
      ensures Sound()
      ensures old(Position(RowsFor(side), i, j) < |Orders(side)|)
      ensures Orders(side) == Without(old(Orders(side)), old(Position(RowsFor(side), i, j)))
      ensures Orders(side.Opposite()) == old(Orders(side.Opposite()))
      ensures RowsFor(side.Opposite()) == old(RowsFor(side.Opposite()))
    {
      hide Whole, Apart, Linkage, Values, IndexedBy, Ring;
      ghost var om, q, k := OrderMem(), Flat(RowsFor(side)), Position(RowsFor(side), i, j);
      ghost var t := Flat(RowsFor(side.Opposite()));
      FlatAt(RowsFor(side), i, j);
      SoundSides(side);
      Detach(x, side, i, j);
      Discard(x, side, om, q, k);
      OrdersWithout(side, om, q, t, k);
    }

    lemma OrdersWithout(side: Side, om: OrderMemory, q: seq<nat>, t: seq<nat>, k: nat)
      requires side != Side.INVALID && InRange(om, q) && InRange(om, t) && k < |q| && SameValues(om, OrderMem())
      requires Flat(RowsFor(side)) == Deleted(q, k) && Flat(RowsFor(side.Opposite())) == t
      ensures Orders(side) == Without(Values(om, q), k) && Orders(side.Opposite()) == Values(om, t)
    {
      ValuesDeleted(om, q, k, OrderMem());
      ValuesSame(om, t, OrderMem());
    }

    lemma SoundSides(side: Side)
      requires Sound() && side != Side.INVALID
      ensures InRange(OrderMem(), Flat(RowsFor(side))) && InRange(OrderMem(), Flat(RowsFor(side.Opposite())))
      ensures IndexedBy(OrderMem(), Clients(), Flat(RowsFor(side)), Flat(RowsFor(side.Opposite())))
      ensures Apart(Flat(RowsFor(side)), Flat(RowsFor(side.Opposite())))
    {
      var q, t := Flat(RowsFor(side)), Flat(RowsFor(side.Opposite()));
      assert forall k :: 0 <= k < |q| ==> q[k] in q;
      assert forall k :: 0 <= k < |t| ==> t[k] in t;
      IndexedSwap(OrderMem(), Clients(), Flat(bidRows), Flat(askRows));
    }

    lemma IndexedCarried(
      om: OrderMemory, entries: map<(nat, nat), nat>, q: seq<nat>, t: seq<nat>, om2: OrderMemory, side: Side)
      requires IndexedBy(om, entries, q, t) && SameValues(om, om2) && side != Side.INVALID
      ensures IndexedBy(om2, entries, q, t) && IndexedBy(om2, entries, t, q)
    {
    }

    /** The price table has no foreign level where an order of this side and price would look. */
    ghost predicate OwnSlot(side: Side, price: int)
      reads this, levelPool, levelPool.store, priceTable
      requires Framed()
    {
      var p := priceTable[PriceToIndex(price)];
      p != NULL ==> 0 <= p < |LevelMem()| && p in Levels(RowsFor(side)) && PriceAt(LevelMem(), p) == price
    }

    /** An order that is allocated but not linked yet, and the book next to it. */
    ghost predicate ReadyToRest(x: nat, side: Side)
      reads this, levelPool, levelPool.store, orderPool, orderPool.store, priceTable
    {
      && Framed() && levelPool.Valid() && side != Side.INVALID
      && LinkageFor(side, {}, {x}) && x < |OrderMem()| && OrderAt(OrderMem(), x).side == side
      && OwnSlot(side, OrderAt(OrderMem(), x).price)
    }

    /** The row whose level the table holds at this price. */
    lemma RowInTable(x: nat, side: Side) returns (i: nat)
      requires ReadyToRest(x, side) && priceTable[PriceToIndex(OrderAt(OrderMem(), x).price)] != NULL
      ensures i < |RowsFor(side)| && RowsFor(side)[i].level == priceTable[PriceToIndex(OrderAt(OrderMem(), x).price)]
      ensures RowRep(LevelMem(), OrderMem(), side, RowsFor(side)[i])
      ensures PriceAt(LevelMem(), RowsFor(side)[i].level) == OrderAt(OrderMem(), x).price
    {
      var p := priceTable[PriceToIndex(OrderAt(OrderMem(), x).price)];
      i :| i < |Levels(RowsFor(side))| && Levels(RowsFor(side))[i] == p;
      assert RowRep(LevelMem(), OrderMem(), side, RowsFor(side)[i]);
    }

    /** Links order x behind the last order of an existing level. */
    method QueueBehind(x: nat, ghost side: Side) returns (ghost i: nat)
      requires ReadyToRest(x, side) && priceTable[PriceToIndex(OrderAt(OrderMem(), x).price)] != NULL
      modifies this`bidRows, this`askRows, orderPool.store
      ensures LinkageFor(side, {}, {}) && SameData(old(OrderMem()), OrderMem())
      ensures i < |old(RowsFor(side))| && RowsFor(side) == Appended(old(RowsFor(side)), i, x)
      ensures RowsFor(side.Opposite()) == old(RowsFor(side.Opposite()))
      ensures old(RowsFor(side))[i].level < |LevelMem()|
      ensures PriceAt(LevelMem(), old(RowsFor(side))[i].level) == OrderAt(OrderMem(), x).price
    {
      hide Whole, RowRep;
      i := RowInTable(x, side);
      ghost var rows, others := RowsFor(side), RowsFor(side.Opposite());
      AppendOrder(side, LevelMem(), OrderMem(), priceTable[..], HeadFor(side), rows, HeadFor(side.Opposite()),
          others, i, x);
      RingNeighbours(OrderMem(), rows[i].queue, 0);
      var level := priceTable[PriceToIndex(orderPool.store[x].value.data.price)];
      var first := levelPool.store[level].value.data.first;
      ghost var om := OrderMem();
      Splice(orderPool, orderPool.store[first].value.prev, x, first, true);
      assert OrderMem() == AppendedMem(om, rows[i], x);
      SetRows(side, Appended(rows, i, x));
    }

    lemma RoomForLevel(side: Side, spareOrders: set<nat>)
      requires Framed() && LinkageFor(side, {}, spareOrders)
      requires |RowsFor(side)| + |RowsFor(side.Opposite())| + 2 <= ME_MAX_PRICE_LEVELS
      ensures |FreeBlocks(LevelMem())| >= 2
    {
      LiveCount(LevelMem(), Levels(RowsFor(side)), Levels(RowsFor(side.Opposite())), {});
    }

    /** The price of the order is the price of no level when the table has nothing for it. */
    lemma NoSuchLevel(x: nat, side: Side)
      requires ReadyToRest(x, side) && priceTable[PriceToIndex(OrderAt(OrderMem(), x).price)] == NULL
      ensures forall i :: 0 <= i < |RowsFor(side)| ==>
                Levels(RowsFor(side))[i] < |LevelMem()|
                    && PriceAt(LevelMem(), Levels(RowsFor(side))[i]) != OrderAt(OrderMem(), x).price
    {
      assert forall i :: 0 <= i < |RowsFor(side)| ==> Levels(RowsFor(side))[i] in Levels(RowsFor(side));
    }

    method SelfLink(x: nat, ghost side: Side)
      requires ReadyToRest(x, side)
      modifies orderPool.store
      ensures ReadyToRest(x, side) && SameData(old(OrderMem()), OrderMem())
      ensures SelfLinked(OrderMem(), x) == OrderMem()
    {
      hide Whole, Rank, LevelChain;
      SpareSelfLinked(side, LevelMem(), OrderMem(), priceTable[..], HeadFor(side), RowsFor(side),
                      HeadFor(side.Opposite()), RowsFor(side.Opposite()), x);
      orderPool.Update(x, orderPool.store[x].value.(next := x));
      orderPool.Update(x, orderPool.store[x].value.(prev := x));
    }

    /** Allocates the block of a new level for order x. */
    method AllocateLevel(x: nat, ghost side: Side) returns (level: nat)
      requires ReadyToRest(x, side) && priceTable[PriceToIndex(OrderAt(OrderMem(), x).price)] == NULL
      requires |RowsFor(side)| + |RowsFor(side.Opposite())| + 2 <= ME_MAX_PRICE_LEVELS
      modifies levelPool, levelPool.store
      ensures levelPool.Valid() && LinkageFor(side, {level}, {x}) && ReadyToLink(level, side, Levels(RowsFor(side)))
      ensures LevelMem()[level].value.data == PriceLevel(side, OrderAt(OrderMem(), x).price, x)
      ensures OrderMem() == old(OrderMem())
      ensures |LevelMem()| == |old(LevelMem())| && forall p :: 0 <= p < |LevelMem()| && p != level ==>
                LevelMem()[p] == old(LevelMem())[p]
    {
      ghost var lm := LevelMem();
      RoomForLevel(side, {x});
      var order := orderPool.store[x].value.data;
      var node := Node(PriceLevel(order.side, order.price, x), NULL, NULL);
      var ok;
      ok, level := levelPool.Allocate(node);
      SpareLevel(side, lm, OrderMem(), priceTable[..], HeadFor(side), RowsFor(side), HeadFor(side.Opposite()),
                 RowsFor(side.Opposite()), {x}, level, node);
      assert level in {level};
    }

    /** Opens a level for order x. */
    method OpenLevel(x: nat, ghost side: Side) returns (ghost k: nat, ghost level: nat)
      requires ReadyToRest(x, side) && priceTable[PriceToIndex(OrderAt(OrderMem(), x).price)] == NULL
      requires |RowsFor(side)| + |RowsFor(side.Opposite())| + 2 <= ME_MAX_PRICE_LEVELS
      modifies this`bidsAtPrice, this`asksAtPrice, this`bidRows, this`askRows
      modifies levelPool, levelPool.store, priceTable, orderPool.store
      ensures !amended ==> bidsAtPrice == old(bidsAtPrice)
      ensures levelPool.Valid() && SameData(old(OrderMem()), OrderMem())
      ensures k <= |old(RowsFor(side))| && InRange(old(LevelMem()), Levels(old(RowsFor(side))))
      ensures Rank(old(LevelMem()), side, Levels(old(RowsFor(side))), OrderAt(OrderMem(), x).price, k)
      ensures LinkageFor(side, {}, {}) <==> amended || TextInserts(side, |old(RowsFor(side))|, k)
      ensures RowsFor(side) == Inserted(old(RowsFor(side)), k, Row(level, [x]))
      ensures RowsFor(side.Opposite()) == old(RowsFor(side.Opposite()))
    {
      hide Whole, Rank, LevelChain;
      ghost var rows, others := RowsFor(side), RowsFor(side.Opposite());
      NoSuchLevel(x, side);
      ghost var om0 := OrderMem();
      SelfLink(x, side);
      ghost var om, lm := OrderMem(), LevelMem();
      assert SameData(om0, om);
      var block := AllocateLevel(x, side);
      ghost var lm1 := LevelMem();
      level := block;
      k := LinkLevel(x, block, side, rows, others);
      assert OrderMem() == om;
      RankElsewhere(lm1, side, Levels(rows), OrderAt(om, x).price, k, block, lm);
    }

    method LinkLevel(
      x: nat, level: nat, ghost side: Side, ghost rows: seq<Row>, ghost others: seq<Row>) returns (ghost k: nat)
      requires Framed() && side != Side.INVALID && rows == RowsFor(side) && others == RowsFor(side.Opposite())
      requires LinkageFor(side, {level}, {x}) && x < |OrderMem()| && SelfLinked(OrderMem(), x) == OrderMem()
      requires ReadyToLink(level, side, Levels(rows))
      requires OrderAt(OrderMem(), x).side == side
               && LevelMem()[level].value.data == PriceLevel(side, OrderAt(OrderMem(), x).price, x)
      requires priceTable[PriceToIndex(OrderAt(OrderMem(), x).price)] == NULL
      requires forall i :: 0 <= i < |rows| ==> PriceAt(LevelMem(), Levels(rows)[i]) != OrderAt(OrderMem(), x).price
      modifies this`bidsAtPrice, this`asksAtPrice, this`bidRows, this`askRows, levelPool.store, priceTable
      ensures !amended ==> bidsAtPrice == old(bidsAtPrice)
      ensures Rank(old(LevelMem()), side, Levels(rows), OrderAt(OrderMem(), x).price, k)
      ensures RowsFor(side) == Inserted(rows, k, Row(level, [x])) && RowsFor(side.Opposite()) == others
      ensures LinkageFor(side, {}, {}) <==> amended || TextInserts(side, |rows|, k)
      ensures SameData(old(LevelMem()), LevelMem()) && OrderMem() == old(OrderMem())
    {
      hide Ring, SortedLevels, Rank;
      ghost var om := OrderMem();
      ghost var lm, table := LevelMem(), priceTable[..];
      ghost var head, otherHead := HeadFor(side), HeadFor(side.Opposite());
      k := AddOrdersAtPrice(level, side, Levels(rows));
      SetRows(side, Inserted(rows, k, Row(level, [x])));
      LevelsInserted(rows, k, Row(level, [x]));
      if LevelChain(LevelMem(), side, HeadFor(side), Inserted(Levels(rows), k, level)) {
        NewRow(side, lm, om, table, head, rows, otherHead, others, k, level, x, LevelMem(), HeadFor(side));
      }
      assert OrderMem() == om;
    }

    lemma SidePart(side: Side, spareLevels: set<nat>, spareOrders: set<nat>)
      requires LinkageFor(side, spareLevels, spareOrders)
      ensures SideRep(LevelMem(), OrderMem(), side, HeadFor(side), RowsFor(side))
      ensures InRange(OrderMem(), Flat(RowsFor(side))) && InRange(OrderMem(), Flat(RowsFor(side.Opposite())))
    {
      SideInRange(LevelMem(), OrderMem(), side, HeadFor(side), RowsFor(side));
      SideInRange(LevelMem(), OrderMem(), side.Opposite(), HeadFor(side.Opposite()), RowsFor(side.Opposite()));
    }

    /** The state in which an order is about to be queued. */
    ghost predicate CanAdd(x: nat, side: Side)
      reads Repr()
    {
      && ReadyToRest(x, side) && orderPool.Valid() && Indexed()
      && var o := OrderAt(OrderMem(), x);
      && o.client < ME_MAX_NUM_CLIENTS && o.clientOrderId < ME_MAX_ORDER_IDS && ClientKey(o) !in Clients()
      && (priceTable[PriceToIndex(o.price)] == NULL ==>
            |RowsFor(side)| + |RowsFor(side.Opposite())| + 2 <= ME_MAX_PRICE_LEVELS)
    }

    /** The first branch of AddOrder; at is the place of the new order in trading order. */
    method AddAtNewLevel(x: nat, ghost side: Side) returns (ghost at: nat, ghost k: nat)
      requires CanAdd(x, side) && priceTable[PriceToIndex(OrderAt(OrderMem(), x).price)] == NULL
      modifies this`bidsAtPrice, this`asksAtPrice, this`bidRows, this`askRows
      modifies levelPool, levelPool.store, priceTable, orderPool.store
      ensures !amended ==> bidsAtPrice == old(bidsAtPrice)
      ensures levelPool.Valid() && SameData(old(OrderMem()), OrderMem())
      ensures old(InRange(LevelMem(), Levels(RowsFor(side))))
      ensures Rank(old(LevelMem()), side, Levels(old(RowsFor(side))), OrderAt(OrderMem(), x).price, k)
      ensures Linkage({}, {}) <==> amended || TextInserts(side, |old(RowsFor(side))|, k)
      ensures at <= |old(Flat(RowsFor(side)))| && Flat(RowsFor(side)) == Inserted(old(Flat(RowsFor(side))), at, x)
      ensures PlacedAt(side, old(Orders(side)), old(OrderAt(OrderMem(), x)), at)
      ensures NextPriority(old(Orders(side)), old(OrderAt(OrderMem(), x)).price) == 1
      ensures RowsFor(side.Opposite()) == old(RowsFor(side.Opposite()))
    {
      hide Whole, RowRep, SideRep, Rank, LevelChain, PlacedAt;
      ghost var lm, om, rows, head := LevelMem(), OrderMem(), RowsFor(side), HeadFor(side);
      SidePart(side, {}, {x});
      ghost var level;
      k, level := OpenLevel(x, side);
      at := Position(rows, k, 0);
      PlaceInNewRow(lm, om, side, head, rows, OrderAt(om, x), k);
      FlatNewRow(rows, k, level, x);
      LinkageFromSide(side, {}, {});
    }

    /** The second branch of AddOrder. */
    method AddAtLevel(x: nat, ghost side: Side) returns (ghost at: nat)
      requires CanAdd(x, side) && priceTable[PriceToIndex(OrderAt(OrderMem(), x).price)] != NULL
      modifies this`bidRows, this`askRows, orderPool.store
      ensures Linkage({}, {}) && SameData(old(OrderMem()), OrderMem())
      ensures at <= |old(Flat(RowsFor(side)))| && Flat(RowsFor(side)) == Inserted(old(Flat(RowsFor(side))), at, x)
      ensures PlacedAt(side, old(Orders(side)), old(OrderAt(OrderMem(), x)), at)
      ensures RowsFor(side.Opposite()) == old(RowsFor(side.Opposite()))
    {
      hide Whole, RowRep, SideRep, LevelChain, PlacedAt;
      ghost var lm, om, rows, head := LevelMem(), OrderMem(), RowsFor(side), HeadFor(side);
      SidePart(side, {}, {x});
      ghost var i := QueueBehind(x, side);
      at := Position(rows, i, |rows[i].queue|);
      PlaceInRow(lm, om, side, head, rows, OrderAt(om, x), i);
      FlatAppend(rows, i, x);
      LinkageFromSide(side, {}, {});
    }

    /** What the structures say after order x was inserted at a place of its side. */
    lemma {:induction false} AddedOrder(
      side: Side, om: OrderMemory, q: seq<nat>, t: seq<nat>, at: nat, x: nat, entries: map<(nat, nat), nat>)
      requires side != Side.INVALID && ClientTableInRange()
      requires InRange(om, q) && InRange(om, t) && x < |om| && at <= |q| && SameValues(om, OrderMem())
      requires IndexedBy(om, entries, q, t) && ClientKey(OrderAt(om, x)) !in entries
      requires Clients() == entries[ClientKey(OrderAt(om, x)) := x]
      requires Flat(RowsFor(side)) == Inserted(q, at, x) && Flat(RowsFor(side.Opposite())) == t
      requires PlacedAt(side, Values(om, q), OrderAt(om, x), at)
      ensures Indexed()
      ensures Orders(side) == Place(side, Values(om, q), OrderAt(om, x)) && Orders(side.Opposite()) == Values(om, t)
    {
      hide IndexedBy;
      IndexedInsert(om, entries, q, t, at, x, OrderMem());
      IndexedCarried(OrderMem(), Clients(), Inserted(q, at, x), t, OrderMem(), side);
      ValuesInserted(om, q, at, x, OrderMem());
      ValuesSame(om, t, OrderMem());
    }

    /** Queues order x at its level, opening one if there is none, and enters it in the client table.
        The committed text keeps the book together unless it opens a level at a place where it loses
        the head or the next pointer. */
    method AddOrder(x: nat, ghost side: Side) returns (ghost k: nat)
      requires CanAdd(x, side)
      modifies this`bidsAtPrice, this`asksAtPrice, this`bidRows, this`askRows
      modifies levelPool, levelPool.store, priceTable, orderPool.store, cidOidToOrder
      ensures !amended ==> bidsAtPrice == old(bidsAtPrice)
      ensures old(priceTable[PriceToIndex(OrderAt(OrderMem(), x).price)]) == NULL ==>
                && old(InRange(LevelMem(), Levels(RowsFor(side))))
                && Rank(old(LevelMem()), side, Levels(old(RowsFor(side))), old(OrderAt(OrderMem(), x).price), k)
      ensures Sound() <==> amended || old(priceTable[PriceToIndex(OrderAt(OrderMem(), x).price)]) != NULL
                           || TextInserts(side, |old(RowsFor(side))|, k)
      ensures Orders(side) == Place(side, old(Orders(side)), old(OrderAt(OrderMem(), x)))
      ensures Orders(side.Opposite()) == old(Orders(side.Opposite()))
      ensures RowsFor(side.Opposite()) == old(RowsFor(side.Opposite()))
    {
      hide Whole, Rank, IndexedBy, PlacedAt, Apart, WellFormed;
      ghost var om, q, t, entries := OrderMem(), Flat(RowsFor(side)), Flat(RowsFor(side.Opposite())), Clients();
      SidePart(side, {}, {x});
      IndexedCarried(om, entries, Flat(bidRows), Flat(askRows), om, side);
      var order := orderPool.store[x].value.data;
      ghost var at;
      if priceTable[PriceToIndex(order.price)] == NULL {
        at, k := AddAtNewLevel(x, side);
      } else {
        at := AddAtLevel(x, side);
        k := 0;
      }
      SetClient(order.client, order.clientOrderId, x);
      AddedOrder(side, om, q, t, at, x, entries);
    }

    /** The front order of a side. */
    ghost predicate IsFront(x: nat, side: Side)
      reads this
    {
      side != Side.INVALID && RowsFor(side) != [] && StandsAt(x, side, 0, 0)
    }

    lemma FrontIsFirst(x: nat, side: Side)
      requires Sound() && IsFront(x, side)
      ensures Flat(RowsFor(side)) != [] && Flat(RowsFor(side))[0] == x && Position(RowsFor(side), 0, 0) == 0
      ensures x < |OrderMem()| && Orders(side) != [] && Orders(side)[0] == OrderAt(OrderMem(), x)
      ensures x !in Flat(RowsFor(side.Opposite()))
      ensures InRange(OrderMem(), Flat(RowsFor(side))) && InRange(OrderMem(), Flat(RowsFor(side.Opposite())))
    {
      SoundSides(side);
      FlatAt(RowsFor(side), 0, 0);
      assert RowsFor(side)[..0] == [];
    }

    /** A partial fill of the front order. */
    method SetFrontQty(x: nat, qty: nat, ghost side: Side)
      requires Sound() && IsFront(x, side)
      modifies orderPool.store
      ensures Sound() && IsFront(x, side)
      ensures old(Orders(side)) != []
      ensures Orders(side) == [old(Orders(side))[0].(qty := qty)] + old(Orders(side))[1..]
      ensures Orders(side.Opposite()) == old(Orders(side.Opposite()))
    {
      hide Whole, IndexedBy, Apart;
      ghost var om, q, t := OrderMem(), Flat(RowsFor(side)), Flat(RowsFor(side.Opposite()));
      FrontIsFirst(x, side);
      NoTwice(side);
      FillInPlace(BUY, LevelMem(), om, priceTable[..], bidsAtPrice, bidRows, asksAtPrice, askRows, x, qty);
      IndexedFilled(om, Clients(), Flat(bidRows), Flat(askRows), x, qty);
      ValuesFilled(om, q, 0, qty);
      ValuesElsewhere(om, t, x, qty);
      var node := orderPool.store[x].value;
      orderPool.Update(x, node.(data := node.data.(qty := qty)));
      assert OrderMem() == WithQty(om, x, qty);
    }

    lemma NoTwice(side: Side)
      requires Sound() && side != Side.INVALID
      ensures NoDuplicates(Flat(RowsFor(side)))
    {
    }

    /** Trades the incoming order with the front order of the opposite side. */
    method Match(a: Aggressor, itr: nat, leavesBefore: nat) returns (leaves: nat)
      requires Sound() && a.side != Side.INVALID && IsFront(itr, a.side.Opposite()) && (amended || a.side == BUY)
      modifies this`bidsAtPrice, this`asksAtPrice, this`bidRows, this`askRows
      modifies levelPool.store, orderPool.store, priceTable, cidOidToOrder, engine
      ensures !amended ==> bidsAtPrice == old(bidsAtPrice)
      ensures Sound() && old(Orders(a.side.Opposite())) != []
      ensures leaves == leavesBefore - Min(leavesBefore, old(Orders(a.side.Opposite()))[0].qty)
      ensures Orders(a.side.Opposite()) == AfterFill(old(Orders(a.side.Opposite())), leavesBefore)
      ensures Orders(a.side) == old(Orders(a.side)) && RowsFor(a.side) == old(RowsFor(a.side))
      ensures engine.responses
              == old(engine.responses) + FillResponses(a, old(Orders(a.side.Opposite()))[0], leavesBefore)
      ensures engine.updates == old(engine.updates) + FillUpdates(a, old(Orders(a.side.Opposite()))[0], leavesBefore)
    {
      hide Whole, IndexedBy, Linkage, Indexed;
      ghost var side := a.side.Opposite();
      FrontIsFirst(itr, side);
      var order := orderPool.store[itr].value.data;
      var fill := Min(leavesBefore, order.qty);
      leaves := leavesBefore - fill;
      SetFrontQty(itr, order.qty - fill, side);
      engine.ReportFill(a, order, leavesBefore);
      if order.qty - fill == 0 {
        RemoveFront(itr, side);
      }
    }

    method RemoveFront(x: nat, ghost side: Side)
      requires Sound() && IsFront(x, side) && (amended || side == SELL)
      modifies this`bidsAtPrice, this`asksAtPrice, this`bidRows, this`askRows
      modifies levelPool.store, orderPool.store, priceTable, cidOidToOrder
      ensures !amended ==> bidsAtPrice == old(bidsAtPrice)
      ensures Sound() && old(Orders(side)) != [] && Orders(side) == old(Orders(side))[1..]
      ensures Orders(side.Opposite()) == old(Orders(side.Opposite()))
      ensures RowsFor(side.Opposite()) == old(RowsFor(side.Opposite()))
    {
      hide Whole, IndexedBy, Linkage, Indexed;
      FrontIsFirst(x, side);
      ghost var s := Orders(side);
      RemoveOrder(x, side, 0, 0);
      assert Without(s, 0) == s[1..];
    }

    /** The head of a side leads to its front order. */
    lemma HeadLeadsToFront(side: Side)
      requires Sound() && side != Side.INVALID
      ensures HeadFor(side) == NULL <==> Orders(side) == []
      ensures HeadFor(side) != NULL ==>
                && 0 <= HeadFor(side) < |LevelMem()|
                && 0 <= LevelMem()[HeadFor(side)].value.data.first < |OrderMem()|
                && IsFront(LevelMem()[HeadFor(side)].value.data.first, side)
                && RowsFor(side) != []
    {
      LinkageFromSide(side, {}, {});
      SoundSides(side);
      var rows := RowsFor(side);
      if rows != [] {
        assert Levels(rows)[0] == rows[0].level && RowRep(LevelMem(), OrderMem(), side, rows[0]);
        FlatAt(rows, 0, 0);
      }
    }

    /** Matches the incoming order against the opposite side while it crosses; the id arrives through
        a 32-bit parameter. */
    method CheckForMatch(r: ClientRequest, newMarketOrderId: nat) returns (leaves: nat)
      requires Sound() && r.side != Side.INVALID && (amended || bidsAtPrice == NULL)
      requires Positive(Orders(r.side.Opposite()))
      modifies this`bidsAtPrice, this`asksAtPrice, this`bidRows, this`askRows
      modifies levelPool.store, orderPool.store, priceTable, cidOidToOrder, engine
      ensures !amended ==> bidsAtPrice == old(bidsAtPrice)
      ensures Sound() && (amended || bidsAtPrice == NULL)
      ensures var d := Sweep(AggressorOf(r, newMarketOrderId), old(Orders(r.side.Opposite())), r.qty);
              && leaves == d.leaves && Orders(r.side.Opposite()) == d.resting
              && engine.responses == old(engine.responses) + d.responses
              && engine.updates == old(engine.updates) + d.updates
      ensures Orders(r.side) == old(Orders(r.side))
    {
      var a := Aggressor(r.ticker, r.client, r.orderId, Truncated(newMarketOrderId), r.side, r.price);
      if r.side == BUY {
        leaves := MatchLoop(a, r.qty);
      } else {
        leaves := MatchLoop(a, r.qty);
      }
    }

    /** The loop that the source writes once for each side. */
    method MatchLoop(a: Aggressor, qty: nat) returns (leaves: nat)
      requires Sound() && a.side != Side.INVALID && (amended || bidsAtPrice == NULL)
      requires Positive(Orders(a.side.Opposite()))
      modifies this`bidsAtPrice, this`asksAtPrice, this`bidRows, this`askRows
      modifies levelPool.store, orderPool.store, priceTable, cidOidToOrder, engine
      ensures !amended ==> bidsAtPrice == old(bidsAtPrice)
      ensures Sound() && (amended || bidsAtPrice == NULL)
      ensures var d := Sweep(a, old(Orders(a.side.Opposite())), qty);
              && leaves == d.leaves && Orders(a.side.Opposite()) == d.resting
              && engine.responses == old(engine.responses) + d.responses
              && engine.updates == old(engine.updates) + d.updates
      ensures Orders(a.side) == old(Orders(a.side))
    {
      hide Sound, Linkage, Indexed, OnTrack, Positive, AfterFill, FillResponses, FillUpdates, Crosses;
      leaves := qty;
      ghost var side := a.side.Opposite();
      ghost var d, rs, us, own, ownRows := Sweep(a, Orders(side), qty), engine.responses, engine.updates,
          Orders(a.side), RowsFor(a.side);
      TrackStarts(a, Orders(side), qty, rs, us);
      while leaves > 0 && HeadFor(a.side.Opposite()) != NULL
        invariant Sound() && (amended || bidsAtPrice == NULL) && Positive(Orders(side))
        invariant OnTrack(a, Orders(side), leaves, engine.responses, engine.updates, rs, us, d)
        invariant Orders(a.side) == own && RowsFor(a.side) == ownRows
        invariant !amended ==> bidsAtPrice == old(bidsAtPrice)
        decreases leaves
      {
        HeadLeadsToFront(side);
        var itr := levelPool.store[HeadFor(a.side.Opposite())].value.data.first;
        FrontIsFirst(itr, side);
        NotCrossing(a, Orders(side)[0].price);
        if (a.side == BUY && a.price < orderPool.store[itr].value.data.price)
           || (a.side == SELL && a.price > orderPool.store[itr].value.data.price) {
          break;
        }
        FillKeepsPositive(Orders(side), leaves);
        OneFillOnTrack(a, Orders(side), leaves, engine.responses, engine.updates, rs, us, d);
        leaves := Match(a, itr, leaves);
      }
      HeadLeadsToFront(side);
      TrackEnds(a, Orders(side), leaves, engine.responses, engine.updates, rs, us, d);
    }

    /** One more than the priority of the last order at this price, or 1. */
    method GetNextPriority(price: int, ghost side: Side) returns (priority: nat)
      requires Sound() && side != Side.INVALID && OwnSlot(side, price)
      ensures priority == NextPriority(Orders(side), price)
    {
      hide Whole, Indexed;
      LinkageFromSide(side, {}, {});
      SidePart(side, {}, {});
      TableInRange(price);
      var level := priceTable[PriceToIndex(price)];
      if level == NULL {
        NoOrderAt(side, price);
        return 1;
      }
      ghost var i := RowAtPrice(side, price);
      PriorityInRow(LevelMem(), OrderMem(), side, HeadFor(side), RowsFor(side), price, i);
      RingNeighbours(OrderMem(), RowsFor(side)[i].queue, 0);
      var first := levelPool.store[level].value.data.first;
      priority := orderPool.store[orderPool.store[first].value.prev].value.data.priority + 1;
    }

    lemma TableInRange(price: int)
      requires Sound()
      ensures var p := priceTable[PriceToIndex(price)]; p == NULL || 0 <= p < |LevelMem()|
    {
      assert priceTable[..][PriceToIndex(price)] == priceTable[PriceToIndex(price)];
    }

    lemma {:induction false} NoOrderAt(side: Side, price: int)
      requires Sound() && side != Side.INVALID && priceTable[PriceToIndex(price)] == NULL
      ensures forall i :: 0 <= i < |Orders(side)| ==> Orders(side)[i].price != price
      ensures NextPriority(Orders(side), price) == 1
    {
      LinkageFromSide(side, {}, {});
      SidePart(side, {}, {});
      var q := Flat(RowsFor(side));
      forall j | 0 <= j < |q| ensures OrderAt(OrderMem(), q[j]).price != price {
        var i, m := Locate(RowsFor(side), q[j]);
        assert RowRep(LevelMem(), OrderMem(), side, RowsFor(side)[i]);
        assert Levels(RowsFor(side))[i] in Levels(RowsFor(side));
        assert priceTable[..][PriceToIndex(price)] == NULL;
      }
      NextPriorityAt(Orders(side), price, 0);
    }

    lemma RowAtPrice(side: Side, price: int) returns (i: nat)
      requires Sound() && side != Side.INVALID && OwnSlot(side, price) && priceTable[PriceToIndex(price)] != NULL
      ensures i < |RowsFor(side)| && RowsFor(side)[i].level == priceTable[PriceToIndex(price)]
      ensures RowRep(LevelMem(), OrderMem(), side, RowsFor(side)[i])
      ensures PriceAt(LevelMem(), RowsFor(side)[i].level) == price
    {
      LinkageFromSide(side, {}, {});
      var p := priceTable[PriceToIndex(price)];
      i :| i < |Levels(RowsFor(side))| && Levels(RowsFor(side))[i] == p;
      assert RowRep(LevelMem(), OrderMem(), side, RowsFor(side)[i]);
    }

    /** Room in the values is room in the table and in the level pool. */
    lemma RoomInTables(side: Side, price: int)
      requires Sound() && side != Side.INVALID && RoomToRest(Abstract(), side, price)
      requires forall i :: 0 <= i < |Orders(side.Opposite())| ==> Orders(side.Opposite())[i].price != price
      ensures OwnSlot(side, price)
      ensures priceTable[PriceToIndex(price)] == NULL ==>
                |RowsFor(side)| + |RowsFor(side.Opposite())| + 2 <= ME_MAX_PRICE_LEVELS
    {
      var rows, others := RowsFor(side), RowsFor(side.Opposite());
      var head, otherHead := HeadFor(side), HeadFor(side.Opposite());
      LinkageFromSide(side, {}, {});
      LinkageFromSide(side.Opposite(), {}, {});
      SidePart(side, {}, {});
      SidePart(side.Opposite(), {}, {});
      LevelsArePrices(LevelMem(), OrderMem(), side, head, rows);
      LevelsArePrices(LevelMem(), OrderMem(), side.Opposite(), otherHead, others);
      if priceTable[PriceToIndex(price)] == NULL {
        NoOrderAt(side, price);
      } else {
        SlotIsOwn(side, price);
      }
    }

    lemma SlotIsOwn(side: Side, price: int)
      requires Sound() && side != Side.INVALID && priceTable[PriceToIndex(price)] != NULL
      requires SlotFree(Orders(side), price) && SlotFree(Orders(side.Opposite()), price)
      requires forall i :: 0 <= i < |Orders(side.Opposite())| ==> Orders(side.Opposite())[i].price != price
      ensures OwnSlot(side, price)
    {
      LinkageFromSide(side, {}, {});
      LinkageFromSide(side.Opposite(), {}, {});
      var p := priceTable[..][PriceToIndex(price)];
      assert p == priceTable[PriceToIndex(price)];
      if p in Levels(RowsFor(side)) {
        LevelHasPrice(side, p);
      } else {
        LevelHasPrice(side.Opposite(), p);
      }
    }

    /** Every linked level has a resting order of its price. */
    lemma LevelHasPrice(side: Side, p: nat)
      requires LinkageFor(side, {}, {}) && p in Levels(RowsFor(side))
      ensures p < |LevelMem()| && PriceAt(LevelMem(), p) in Prices(Orders(side))
    {
      SidePart(side, {}, {});
      var i :| 0 <= i < |Levels(RowsFor(side))| && Levels(RowsFor(side))[i] == p;
      PriceOfLevel(LevelMem(), OrderMem(), side, HeadFor(side), RowsFor(side), i);
    }

    /** Every resting order's price leads through the table to the level of that price. */
    lemma PriceLeadsToLevel(side: Side, price: int)
      requires Sound() && side != Side.INVALID && price in Prices(Orders(side))
      ensures var p := priceTable[PriceToIndex(price)]; 0 <= p < |LevelMem()| && PriceAt(LevelMem(), p) == price
    {
      LinkageFromSide(side, {}, {});
      SidePart(side, {}, {});
      var q := Flat(RowsFor(side));
      var j :| 0 <= j < |q| && OrderAt(OrderMem(), q[j]).price == price;
      var i, m := Locate(RowsFor(side), q[j]);
      assert RowRep(LevelMem(), OrderMem(), side, RowsFor(side)[i]);
      assert Levels(RowsFor(side))[i] in Levels(RowsFor(side));
      assert priceTable[..][PriceToIndex(price)] == priceTable[PriceToIndex(price)];
    }

    /** A sound structure never holds two prices of one slot. */
    lemma SoundKeepsSlotsApart()
      requires Sound()
      ensures SlotsApart(Abstract())
    {
      hide Linkage, Indexed, Prices;
      forall side: Side, price, own: Side, i
        | side != Side.INVALID && own != Side.INVALID && price in Prices(Orders(own))
          && 0 <= i < |Orders(side)| && PriceToIndex(Orders(side)[i].price) == PriceToIndex(price)
        ensures Orders(side)[i].price == price
      {
        PriceAmong(Orders(side), i);
        PriceLeadsToLevel(own, price);
        PriceLeadsToLevel(side, Orders(side)[i].price);
      }
    }

    /** When the slot of the price that is about to rest holds another price, no links and no table,
        however they are written, describe the specified book.  When it is free, Add leaves some that do. */
    lemma CollisionFitsNoStructure(b: Book, r: ClientRequest)
      requires r.side != Side.INVALID && SweepFor(b, r).leaves > 0 && SlotsApart(MatchedBook(b, r))
      requires Sound() && Abstract() == BookSpec.AddOrder(b, r).book
      ensures SlotFree(MatchedBook(b, r).bids, r.price) && SlotFree(MatchedBook(b, r).asks, r.price)
    {
      hide Linkage, Indexed, Prices, SlotFree, SlotsApart;
      SoundKeepsSlotsApart();
      ApartExactlyWhenFree(b, r);
    }

    /** A client and id in the client table name a resting order. */
    lemma IndexedIsLive(client: nat, clientOrderId: nat)
      requires Sound() && (client, clientOrderId) in Clients()
      ensures Live(Abstract(), client, clientOrderId)
    {
      SoundSides(BUY);
      var p := Clients()[(client, clientOrderId)];
      var side := if p in Flat(bidRows) then BUY else SELL;
      var k :| 0 <= k < |Flat(RowsFor(side))| && Flat(RowsFor(side))[k] == p;
      assert Orders(side)[k] == OrderAt(OrderMem(), p);
    }

    lemma NotLiveNotIndexed(client: nat, clientOrderId: nat)
      requires Sound() && !Live(Abstract(), client, clientOrderId)
      ensures (client, clientOrderId) !in Clients()
    {
      if (client, clientOrderId) in Clients() {
        IndexedIsLive(client, clientOrderId);
      }
    }

    lemma RoomForOrder(side: Side)
      requires Sound() && |Orders(BUY)| + |Orders(SELL)| + 2 <= ME_MAX_ORDER_IDS
      ensures |FreeBlocks(OrderMem())| >= 2
    {
      SoundSides(BUY);
      LiveCount(OrderMem(), Flat(bidRows), Flat(askRows), {});
    }

    /** Allocates and fills in the block of a new resting order. */
    method AllocateOrder(o: Order) returns (x: nat)
      requires Sound() && o.side != Side.INVALID && OwnSlot(o.side, o.price)
      requires |Orders(BUY)| + |Orders(SELL)| + 2 <= ME_MAX_ORDER_IDS
      requires o.client < ME_MAX_NUM_CLIENTS && o.clientOrderId < ME_MAX_ORDER_IDS && ClientKey(o) !in Clients()
      requires priceTable[PriceToIndex(o.price)] == NULL ==>
                 |RowsFor(o.side)| + |RowsFor(o.side.Opposite())| + 2 <= ME_MAX_PRICE_LEVELS
      modifies orderPool, orderPool.store
      ensures CanAdd(x, o.side) && OrderAt(OrderMem(), x) == o
      ensures Orders(BUY) == old(Orders(BUY)) && Orders(SELL) == old(Orders(SELL))
    {
      hide Whole, IndexedBy, Apart, Used;
      ghost var om := OrderMem();
      RoomForOrder(o.side);
      OrdersUsed();
      SoundSides(BUY);
      LinkageFromSide(o.side, {}, {});
      var node := Node(o, NULL, NULL);
      var ok;
      ok, x := orderPool.Allocate(node);
      SpareOrder(o.side, LevelMem(), om, priceTable[..], HeadFor(o.side), RowsFor(o.side),
                 HeadFor(o.side.Opposite()), RowsFor(o.side.Opposite()), x, node);
      FreeIsUnlinked(om, x, Flat(bidRows), Flat(askRows));
      IndexedElsewhere(om, Clients(), Flat(bidRows), Flat(askRows), OrderMem());
      ValuesUnlinked(om, Flat(bidRows), OrderMem());
      ValuesUnlinked(om, Flat(askRows), OrderMem());
    }

    lemma OrdersUsed()
      requires Sound()
      ensures Used(OrderMem(), Flat(bidRows), Flat(askRows), {})
    {
    }

    lemma FreeIsUnlinked(om: OrderMemory, x: nat, q: seq<nat>, t: seq<nat>)
      requires Used(om, q, t, {}) && x < |om| && om[x].isFree
      ensures x !in q && x !in t && forall p: nat :: p in q || p in t ==> p < |om|
    {
    }

    lemma ValuesUnlinked(om: OrderMemory, q: seq<nat>, om2: OrderMemory)
      requires InRange(om, q) && |om| == |om2| && forall p: nat :: p in q && p < |om| ==>
                 OrderAt(om2, p) == OrderAt(om, p)
      ensures InRange(om2, q) && Values(om2, q) == Values(om, q)
    {
      assert forall i :: 0 <= i < |q| ==> q[i] in q;
    }

    /** The committed text's lost writes, as a caller sees them in a book without bids. */
    lemma TextRestsWhen(side: Side, price: int, spareOrders: set<nat>)
      requires Framed() && side != Side.INVALID && LinkageFor(side, {}, spareOrders) && OwnSlot(side, price)
      requires bidsAtPrice == NULL
      ensures priceTable[PriceToIndex(price)] != NULL ==> TextRests(Abstract(), side, price)
      ensures InRange(LevelMem(), Levels(RowsFor(side)))
      ensures priceTable[PriceToIndex(price)] == NULL ==>
                forall k :: Rank(LevelMem(), side, Levels(RowsFor(side)), price, k) ==>
                  (TextInserts(side, |RowsFor(side)|, k) <==> TextRests(Abstract(), side, price))
    {
      SidePart(side, {}, spareOrders);
      if side == SELL {
        LastAsk(price, spareOrders);
      }
    }

    /** The last ask stands at the worst ask level. */
    lemma LastAsk(price: int, spareOrders: set<nat>)
      requires Framed() && LinkageFor(SELL, {}, spareOrders) && OwnSlot(SELL, price)
      ensures Orders(SELL) == [] <==> askRows == []
      ensures InRange(LevelMem(), Levels(askRows))
      ensures askRows != [] ==> Orders(SELL)[|Orders(SELL)| - 1].price == WorstAsk()
      ensures priceTable[PriceToIndex(price)] != NULL ==> askRows != [] && price <= WorstAsk()
      ensures askRows != [] && priceTable[PriceToIndex(price)] == NULL ==> price != WorstAsk()
    {
      hide Linked, Apart, Used;
      SidePart(SELL, {}, spareOrders);
      assert priceTable[..][PriceToIndex(price)] == priceTable[PriceToIndex(price)];
      if askRows != [] {
        LastOfSide(LevelMem(), OrderMem(), SELL, asksAtPrice, askRows);
        assert Levels(askRows)[|askRows| - 1] in Levels(askRows);
      }
    }

    ghost function WorstAsk(): int
      requires askRows != [] && InRange(LevelMem(), Levels(askRows))
      reads this`askRows, levelPool, levelPool.store
    {
      PriceAt(LevelMem(), Levels(askRows)[|askRows| - 1])
    }

    /** AddOrder with the loss of the committed text read off the book. */
    method QueueOrder(x: nat, ghost side: Side)
      requires CanAdd(x, side) && (amended || bidsAtPrice == NULL)
      modifies this`bidsAtPrice, this`asksAtPrice, this`bidRows, this`askRows
      modifies levelPool, levelPool.store, priceTable, orderPool.store, cidOidToOrder
      ensures !amended ==> bidsAtPrice == old(bidsAtPrice)
      ensures Sound() <==> amended || TextRests(old(Abstract()), side, old(OrderAt(OrderMem(), x).price))
      ensures Orders(side) == Place(side, old(Orders(side)), old(OrderAt(OrderMem(), x)))
      ensures Orders(side.Opposite()) == old(Orders(side.Opposite()))
      ensures RowsFor(side.Opposite()) == old(RowsFor(side.Opposite()))
    {
      hide Linkage, Indexed, IndexedBy, Whole, Rank, TextRests, TextInserts;
      ghost var lm, rows, price := LevelMem(), RowsFor(side), OrderAt(OrderMem(), x).price;
      ghost var slot := priceTable[PriceToIndex(price)];
      if !amended {
        TextRestsWhen(side, price, {x});
      }
      ghost var k := AddOrder(x, side);
      assert slot == NULL ==> Rank(lm, side, Levels(rows), price, k);
    }

    /** Rests what is left of an incoming order that matched all it could. */
    method Rest(r: ClientRequest, newMarketOrderId: nat, leaves: nat)
      requires Sound() && r.side != Side.INVALID && (amended || bidsAtPrice == NULL)
      requires r.client < ME_MAX_NUM_CLIENTS && r.orderId < ME_MAX_ORDER_IDS && !Live(Abstract(), r.client, r.orderId)
      requires RoomToRest(Abstract(), r.side, r.price)
      requires forall i :: 0 <= i < |Orders(r.side.Opposite())| ==> Orders(r.side.Opposite())[i].price != r.price
      modifies this`bidsAtPrice, this`asksAtPrice, this`bidRows, this`askRows
      modifies levelPool, levelPool.store, priceTable, orderPool, orderPool.store, cidOidToOrder, engine
      ensures !amended ==> bidsAtPrice == old(bidsAtPrice)
      ensures Sound() <==> amended || TextRests(old(Abstract()), r.side, r.price)
      ensures Orders(r.side) == Place(r.side, old(Orders(r.side)),
                                      RestingOrder(r, newMarketOrderId, leaves,
                                          NextPriority(old(Orders(r.side)), r.price)))
      ensures engine.updates == old(engine.updates)
                + [AddUpdate(RestingOrder(r, newMarketOrderId, leaves, NextPriority(old(Orders(r.side)), r.price)))]
      ensures engine.responses == old(engine.responses)
      ensures Orders(r.side.Opposite()) == old(Orders(r.side.Opposite()))
      ensures RowsFor(r.side.Opposite()) == old(RowsFor(r.side.Opposite()))
    {
      hide Linkage, Indexed, RoomToRest, Whole, IndexedBy, TextRests, Place, NextPriority, Listed, Live;
      ghost var b := Abstract();
      RoomInTables(r.side, r.price);
      RoomCountsOrders(r.side, r.price);
      NotLiveNotIndexed(r.client, r.orderId);
      var priority := GetNextPriority(r.price, r.side);
      var o := RestingOrder(r, newMarketOrderId, leaves, priority);
      var x := AllocateOrder(o);
      assert Abstract() == b;
      QueueOrder(x, r.side);
      Publish(AddUpdate(o));
    }

    /** Sending touches no structure of the book. */
    method Publish(u: MarketUpdate)
      requires Framed()
      modifies engine
      ensures Sound() == old(Sound()) && Orders(BUY) == old(Orders(BUY)) && Orders(SELL) == old(Orders(SELL))
      ensures engine.updates == old(engine.updates) + [u] && engine.responses == old(engine.responses)
    {
      hide Linkage, Indexed;
      engine.SendMarketUpdate(u);
    }

    method Respond(r: ClientResponse)
      requires Framed()
      modifies engine
      ensures Sound() == old(Sound()) && Orders(BUY) == old(Orders(BUY)) && Orders(SELL) == old(Orders(SELL))
      ensures engine.responses == old(engine.responses) + [r] && engine.updates == old(engine.updates)
    {
      hide Linkage, Indexed;
      engine.SendClientResponse(r);
    }

    lemma RoomCountsOrders(side: Side, price: int)
      requires RoomToRest(Abstract(), side, price)
      ensures |Orders(BUY)| + |Orders(SELL)| + 2 <= ME_MAX_ORDER_IDS
    {
    }

    lemma OnSide(side: Side)
      requires side != Side.INVALID
      ensures Abstract().On(side) == Orders(side) && Abstract().On(side.Opposite()) == Orders(side.Opposite())
      ensures forall n :: WellFormed(Abstract().(nextId := n)) ==> Positive(Orders(side))
    {
      forall n | WellFormed(Abstract().(nextId := n)) ensures Positive(Orders(side)) {
        assert GoodSide(side, n, Orders(side));
      }
    }

    /** The first half of add: a fresh id, the acceptance, the matching loop. */
    method AcceptAndMatch(r: ClientRequest) returns (newMarketOrderId: nat, leaves: nat)
      requires Valid() && r.side != Side.INVALID
      modifies this`bidsAtPrice, this`asksAtPrice, this`bidRows, this`askRows, this`nextMarketOrderId
      modifies levelPool.store, orderPool.store, priceTable, cidOidToOrder, engine
      ensures !amended ==> bidsAtPrice == old(bidsAtPrice)
      ensures Sound() && (amended || bidsAtPrice == NULL)
      ensures newMarketOrderId == old(nextMarketOrderId) && leaves == SweepFor(old(Abstract()), r).leaves
      ensures Abstract() == MatchedBook(old(Abstract()), r)
      ensures engine.responses == old(engine.responses)
                + ([AcceptedResponse(r, newMarketOrderId)] + SweepFor(old(Abstract()), r).responses)
      ensures engine.updates == old(engine.updates) + SweepFor(old(Abstract()), r).updates
    {
      hide Linkage, Indexed, WellFormed, Positive, Sound, Sweep, Values, Listed;
      ghost var b, rs := Abstract(), engine.responses;
      newMarketOrderId := Accept(r);
      OnSide(r.side);
      OnSide(r.side.Opposite());
      ghost var s := Orders(r.side.Opposite());
      assert s == b.On(r.side.Opposite());
      leaves := CheckForMatch(r, newMarketOrderId);
      assert leaves == SweepFor(b, r).leaves;
      OnSide(r.side);
      assert Abstract() == MatchedBook(b, r);
      assert engine.responses == (rs + [AcceptedResponse(r, newMarketOrderId)]) + SweepFor(b, r).responses;
    }

    method Accept(r: ClientRequest) returns (newMarketOrderId: nat)
      requires Valid()
      modifies this`nextMarketOrderId, engine
      ensures Sound() && WellFormed(Abstract().(nextId := newMarketOrderId)) && (amended || bidsAtPrice == NULL)
      ensures newMarketOrderId == old(nextMarketOrderId)
      ensures Abstract() == old(Abstract()).(nextId := newMarketOrderId + 1)
      ensures engine.responses == old(engine.responses) + [AcceptedResponse(r, newMarketOrderId)]
      ensures engine.updates == old(engine.updates)
    {
      hide Linkage, Indexed, WellFormed;
      newMarketOrderId := nextMarketOrderId;
      nextMarketOrderId := nextMarketOrderId + 1;
      Respond(AcceptedResponse(r, newMarketOrderId));
    }

    /** A new order: accepted, matched, and its remainder queued.  The amended text always does what
        the specification says; the committed text does so exactly when nothing of the order rests or
        it rests where no write is lost, and otherwise no longer has a linked book. */
    method Add(r: ClientRequest)
      requires Valid() && r.kind == New && Legal(Abstract(), r) && Room(Abstract(), r)
      modifies this`bidsAtPrice, this`asksAtPrice, this`bidRows, this`askRows, this`nextMarketOrderId
      modifies levelPool, levelPool.store, priceTable, orderPool, orderPool.store, cidOidToOrder, engine
      ensures !amended ==> bidsAtPrice == old(bidsAtPrice)
      ensures Valid() <==> Sound()
      ensures Sound() <==> amended || TextAdds(old(Abstract()), r)
      ensures Abstract() == BookSpec.AddOrder(old(Abstract()), r).book
      ensures engine.responses == old(engine.responses) + BookSpec.AddOrder(old(Abstract()), r).responses
      ensures engine.updates == old(engine.updates) + BookSpec.AddOrder(old(Abstract()), r).updates
    {
      hide Linkage, Indexed, WellFormed, Positive, Live, RoomToRest, Sound;
      ghost var b := Abstract();
      AddKeepsWellFormed(b, r);
      var newMarketOrderId, leaves := AcceptAndMatch(r);
      if leaves != 0 {
        MatchedLeavesPlace(b, r);
        OnSide(r.side);
        RestRemainder(r, newMarketOrderId, leaves, b);
      }
    }

    /** The second half of add, when something is left. */
    method RestRemainder(r: ClientRequest, newMarketOrderId: nat, leaves: nat, ghost b: Book)
      requires Sound() && (amended || bidsAtPrice == NULL) && r.kind == New && r.side != Side.INVALID
      requires Abstract() == MatchedBook(b, r) && leaves == SweepFor(b, r).leaves > 0 && newMarketOrderId == b.nextId
      requires r.client < ME_MAX_NUM_CLIENTS && r.orderId < ME_MAX_ORDER_IDS
      requires !Live(MatchedBook(b, r), r.client, r.orderId) && RoomToRest(MatchedBook(b, r), r.side, r.price)
      requires forall i :: 0 <= i < |Orders(r.side.Opposite())| ==> Orders(r.side.Opposite())[i].price != r.price
      modifies this`bidsAtPrice, this`asksAtPrice, this`bidRows, this`askRows
      modifies levelPool, levelPool.store, priceTable, orderPool, orderPool.store, cidOidToOrder, engine
      ensures !amended ==> bidsAtPrice == old(bidsAtPrice)
      ensures Sound() <==> amended || TextRests(b, r.side, r.price)
      ensures amended || bidsAtPrice == NULL
      ensures Abstract() == BookSpec.AddOrder(b, r).book
      ensures engine.responses == old(engine.responses)
      ensures engine.updates == old(engine.updates) + [AddUpdate(RestedOrder(b, r))]
    {
      hide Linkage, Indexed, WellFormed, Positive, Live, RoomToRest, Sound, Sweep, Place, NextPriority, Listed;
      OnSide(r.side);
      assert MatchedBook(b, r).On(r.side) == b.On(r.side);
      Rest(r, newMarketOrderId, leaves);
      OnSide(r.side);
    }

    /** Every linked order is found through the client table, at its place in trading order. */
    lemma {:induction false} ClientStands(client: nat, clientOrderId: nat, side: Side, i: nat, j: nat)
      requires Valid() && (client, clientOrderId) in Clients()
      requires StandsAt(Clients()[(client, clientOrderId)], side, i, j)
      ensures Position(RowsFor(side), i, j) < |Orders(side)|
      ensures Clients()[(client, clientOrderId)] < |OrderMem()|
      ensures Orders(side)[Position(RowsFor(side), i, j)] == OrderAt(OrderMem(), Clients()[(client, clientOrderId)])
      ensures Find(Orders(side), client, clientOrderId) == Position(RowsFor(side), i, j)
      ensures Find(Orders(side.Opposite()), client, clientOrderId) == |Orders(side.Opposite())|
    {
      var p := Clients()[(client, clientOrderId)];
      var k := Position(RowsFor(side), i, j);
      SoundSides(side);
      FlatAt(RowsFor(side), i, j);
      assert ClientKey(OrderAt(OrderMem(), p)) == (client, clientOrderId);
      FoundOnce(Abstract(), side, k);
    }

    /** The row and the place in it of the order that the client table holds. */
    lemma ClientRow(client: nat, clientOrderId: nat) returns (side: Side, i: nat, j: nat)
      requires Valid() && (client, clientOrderId) in Clients()
      ensures StandsAt(Clients()[(client, clientOrderId)], side, i, j) && (amended || side == SELL)
    {
      var p := Clients()[(client, clientOrderId)];
      if p in Flat(bidRows) {
        side := BUY;
        i, j := Locate(bidRows, p);
      } else {
        side := SELL;
        i, j := Locate(askRows, p);
      }
    }

    lemma NotIndexedNotLive(client: nat, clientOrderId: nat)
      requires Sound() && (client, clientOrderId) !in Clients()
      ensures !Live(Abstract(), client, clientOrderId)
    {
      SoundSides(BUY);
      forall k | 0 <= k < |Flat(bidRows)| ensures ClientKey(Orders(BUY)[k]) != (client, clientOrderId) {
        assert Flat(bidRows)[k] in Flat(bidRows);
      }
      forall k | 0 <= k < |Flat(askRows)| ensures ClientKey(Orders(SELL)[k]) != (client, clientOrderId) {
        assert Flat(askRows)[k] in Flat(askRows);
      }
    }

    lemma ClientEntry(client: nat, clientOrderId: nat)
      requires Sound() && client < ME_MAX_NUM_CLIENTS && clientOrderId < ME_MAX_ORDER_IDS
      ensures cidOidToOrder[client, clientOrderId] == NULL <==> (client, clientOrderId) !in Clients()
      ensures (client, clientOrderId) in Clients() ==>
                Clients()[(client, clientOrderId)] == cidOidToOrder[client, clientOrderId] < |OrderMem()|
    {
    }

    /** The order of a client that may be cancelled, or null. */
    method FindOrder(client: nat, clientOrderId: nat) returns (p: Ptr)
      requires Sound() && (client < ME_MAX_NUM_CLIENTS ==> clientOrderId < ME_MAX_ORDER_IDS)
      ensures p == NULL <==> (client, clientOrderId) !in Clients()
      ensures p != NULL ==> p == Clients()[(client, clientOrderId)] < |OrderMem()|
    {
      var isCancelable := client < ME_MAX_NUM_CLIENTS;
      p := NULL;
      if isCancelable {
        ClientEntry(client, clientOrderId);
        p := cidOidToOrder[client, clientOrderId];
      }
    }

    /** A cancel request: the order leaves the book and both queues hear of it, or it is rejected. */
    method Cancel(r: ClientRequest)
      requires Valid() && r.kind == RequestType.Cancel && Legal(Abstract(), r)
      modifies this`bidsAtPrice, this`asksAtPrice, this`bidRows, this`askRows
      modifies levelPool.store, orderPool.store, priceTable, cidOidToOrder, engine
      ensures !amended ==> bidsAtPrice == old(bidsAtPrice)
      ensures Valid() && Abstract() == CancelOrder(old(Abstract()), r).book
      ensures engine.responses == old(engine.responses) + CancelOrder(old(Abstract()), r).responses
      ensures engine.updates == old(engine.updates) + CancelOrder(old(Abstract()), r).updates
    {
      hide Linkage, Indexed, WellFormed, IndexedBy, Whole;
      ghost var b := Abstract();
      CancelKeepsWellFormed(b, r);
      var exchangeOrder := FindOrder(r.client, r.orderId);
      if exchangeOrder == NULL {
        NotIndexedNotLive(r.client, r.orderId);
        Respond(CancelRejectedResponse(r));
      } else {
        CancelFound(r, exchangeOrder);
      }
    }

    method CancelFound(r: ClientRequest, x: nat)
      requires Valid() && (r.client, r.orderId) in Clients() && x == Clients()[(r.client, r.orderId)] < |OrderMem()|
      requires WellFormed(CancelOrder(Abstract(), r).book)
      modifies this`bidsAtPrice, this`asksAtPrice, this`bidRows, this`askRows
      modifies levelPool.store, orderPool.store, priceTable, cidOidToOrder, engine
      ensures !amended ==> bidsAtPrice == old(bidsAtPrice)
      ensures Valid() && Abstract() == CancelOrder(old(Abstract()), r).book
      ensures engine.responses == old(engine.responses) + CancelOrder(old(Abstract()), r).responses
      ensures engine.updates == old(engine.updates) + CancelOrder(old(Abstract()), r).updates
    {
      hide Linkage, Indexed, WellFormed, IndexedBy, Whole;
      ghost var b := Abstract();
      ghost var side, i, j := ClientRow(r.client, r.orderId);
      ClientStands(r.client, r.orderId, side, i, j);
      OnSide(side);
      ghost var k := Position(RowsFor(side), i, j);
      assert CancelOrder(b, r) == CancelOn(b, r, side);
      var order := orderPool.store[x].value.data;
      RemoveOrder(x, side, i, j);
      OnSide(side);
      assert Abstract() == CancelOn(b, r, side).book;
      Publish(CancelUpdate(r, order));
      Respond(CanceledResponse(r, order));
    }

    /** Without a head for the bids the structure has none, so a valid book of the committed text never
        has a bid. */
    lemma NoBidHead()
      requires Sound() && bidsAtPrice == NULL
      ensures Abstract().bids == []
    {
      HeadLeadsToFront(BUY);
    }
  }

  /** In the committed text the first bid that rests is lost: it is among the book's orders and it was
      published, but no list leads to it. */
  method FirstBidIsLost(engine: Outgoing, r: ClientRequest) returns (book: MEOrderBook)
    requires r.kind == New && r.side == BUY && r.qty > 0 && Storable(r)
    modifies engine
    ensures !book.amended && book.bidsAtPrice == NULL && !book.Sound()
    ensures book.Abstract().bids == [RestingOrder(r, 1, r.qty, 1)]
    ensures engine.updates == old(engine.updates) + [AddUpdate(RestingOrder(r, 1, r.qty, 1))]
  {
    hide MEOrderBook.Valid, MEOrderBook.Sound;
    book := new MEOrderBook(false, engine);
    assert book.bidsAtPrice == NULL;
    book.Add(r);
  }

  lemma {:induction false} OneAsk(r: ClientRequest)
    requires r.kind == New && r.side == SELL && r.qty > 0 && Storable(r)
    ensures Legal(EMPTY_BOOK, r) && Room(EMPTY_BOOK, r) && TextAdds(EMPTY_BOOK, r)
    ensures BookSpec.AddOrder(EMPTY_BOOK, r).book == Book([], [RestingOrder(r, 1, r.qty, 1)], 2)
  {
  }

  lemma {:induction false} WorseAsk(o: Order, r: ClientRequest)
    requires r.kind == New && r.side == SELL && r.qty > 0 && Storable(r)
    requires (r.client, r.orderId) != (o.client, o.clientOrderId) && o.price < r.price < o.price + ME_MAX_PRICE_LEVELS
    ensures var b := Book([], [o], 2);
            && Legal(b, r) && Room(b, r) && !TextAdds(b, r)
            && BookSpec.AddOrder(b, r).book == Book([], [o, RestingOrder(r, 2, r.qty, 1)], 3)
  {
    var b := Book([], [o], 2);
    assert [o][1..] == [] && [o][..0] == [];
    assert PriceToIndex(o.price) != PriceToIndex(r.price);
    assert Prices([o]) == {o.price} by {
      assert [o][0] == o;
    }
    assert MatchedBook(b, r) == Book([], [o], 3);
    var rest := RestingOrder(r, 2, r.qty, 1);
    assert NextPriority([o], r.price) == NextPriority([o][..0], r.price) == 1;
    assert SweepFor(b, r).leaves == r.qty && RestedOrder(b, r) == rest;
    assert Place(SELL, [o], rest) == [o] + Place(SELL, [], rest) == [o, rest];
  }

  /** In the committed text a second ask at a worse price breaks the circle: its level never gets a next
      pointer. */
  method WorseAskIsUnlinked(engine: Outgoing, r: ClientRequest, worse: ClientRequest) returns (book: MEOrderBook)
    requires r.kind == worse.kind == New && r.side == worse.side == SELL && r.qty > 0 && worse.qty > 0
    requires Storable(r) && Storable(worse) && (r.client, r.orderId) != (worse.client, worse.orderId)
    requires r.price < worse.price < r.price + ME_MAX_PRICE_LEVELS
    modifies engine
    ensures !book.amended && !book.Sound()
    ensures book.Abstract().asks == [RestingOrder(r, 1, r.qty, 1), RestingOrder(worse, 2, worse.qty, 1)]
  {
    hide MEOrderBook.Valid, MEOrderBook.Sound, Legal, Room, TextAdds, BookSpec.AddOrder;
    book := new MEOrderBook(false, engine);
    OneAsk(r);
    book.Add(r);
    WorseAsk(RestingOrder(r, 1, r.qty, 1), worse);
    book.Add(worse);
  }
}
