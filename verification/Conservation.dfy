/** No quantity appears or disappears. */
module Conservation {
  import opened Types
  import opened BookSpec
  import opened BookInvariant

  function Sum<T>(f: T -> nat, s: seq<T>): nat {
    if s == [] then 0 else f(s[0]) + Sum(f, s[1..])
  }

  function OrderQty(o: Order): nat { o.qty }

  function AcceptedBy(r: ClientResponse): nat {
    if r.kind == Accepted then r.leavesQty else 0
  }

  function CanceledBy(r: ClientResponse): nat {
    if r.kind == Canceled then r.leavesQty else 0
  }

  function ExecutedBy(r: ClientResponse): nat {
    if r.kind == Filled then r.execQty else 0
  }

  function TradedBy(u: MarketUpdate): nat {
    if u.kind == Trade then u.qty else 0
  }

  function TotalQty(s: seq<Order>): nat { Sum(OrderQty, s) }

  function RestingQty(b: Book): nat { TotalQty(b.bids) + TotalQty(b.asks) }

  function AcceptedQty(rs: seq<ClientResponse>): nat { Sum(AcceptedBy, rs) }

  function CanceledQty(rs: seq<ClientResponse>): nat { Sum(CanceledBy, rs) }

  function ExecutedQty(rs: seq<ClientResponse>): nat { Sum(ExecutedBy, rs) }

  function TradedQty(us: seq<MarketUpdate>): nat { Sum(TradedBy, us) }

  lemma {:induction false} SumConcat<T>(f: T -> nat, s: seq<T>, t: seq<T>)
    ensures Sum(f, s + t) == Sum(f, s) + Sum(f, t)
    decreases |s|
  {
    if s == [] {
      assert s + t == t;
    } else {
      assert (s + t)[1..] == s[1..] + t;
      SumConcat(f, s[1..], t);
    }
  }

  lemma SumTwo<T>(f: T -> nat, x: T, y: T)
    ensures Sum(f, [x]) == f(x)
    ensures Sum(f, [x, y]) == f(x) + f(y)
  {
    assert [x][1..] == [] && [y][1..] == [] && [x, y][1..] == [y];
  }

  lemma ResponsesConcat(rs: seq<ClientResponse>, ts: seq<ClientResponse>)
    ensures AcceptedQty(rs + ts) == AcceptedQty(rs) + AcceptedQty(ts)
    ensures CanceledQty(rs + ts) == CanceledQty(rs) + CanceledQty(ts)
    ensures ExecutedQty(rs + ts) == ExecutedQty(rs) + ExecutedQty(ts)
  {
    SumConcat(AcceptedBy, rs, ts);
    SumConcat(CanceledBy, rs, ts);
    SumConcat(ExecutedBy, rs, ts);
  }

  // ----- matching

  ghost predicate FillsBalance(fill: nat, rs: seq<ClientResponse>, us: seq<MarketUpdate>) {
    AcceptedQty(rs) == 0 && CanceledQty(rs) == 0 && ExecutedQty(rs) == 2 * fill && TradedQty(us) == fill
  }

  lemma OneFillBalances(a: Aggressor, o: Order, leaves: nat)
    ensures FillsBalance(Min(leaves, o.qty), FillResponses(a, o, leaves), FillUpdates(a, o, leaves))
  {
    var rs, us := FillResponses(a, o, leaves), FillUpdates(a, o, leaves);
    SumTwo(AcceptedBy, rs[0], rs[1]);
    SumTwo(CanceledBy, rs[0], rs[1]);
    SumTwo(ExecutedBy, rs[0], rs[1]);
    SumTwo(TradedBy, us[0], us[1]);
    assert rs == [rs[0], rs[1]] && us == [us[0], us[1]];
  }

  lemma NoFillBalances()
    ensures FillsBalance(0, [], [])
  {
  }

  /** What the incoming order loses, the opposite side loses too, and both are the traded total. */
  lemma {:induction false} SweepConserves(a: Aggressor, s: seq<Order>, leaves: nat)
    ensures var d := Sweep(a, s, leaves);
            && d.leaves + TradedQty(d.updates) == leaves
            && TotalQty(d.resting) + TradedQty(d.updates) == TotalQty(s)
            && FillsBalance(TradedQty(d.updates), d.responses, d.updates)
    decreases |s|
  {
    hide FillResponses, FillUpdates, AcceptedQty, CanceledQty, ExecutedQty;
    NoFillBalances();
    if leaves > 0 && s != [] && Crosses(a.side, a.price, s[0].price) {
      var o := s[0];
      OneFillBalances(a, o, leaves);
      if Min(leaves, o.qty) == o.qty {
        var tail := Sweep(a, s[1..], leaves - o.qty);
        SweepConserves(a, s[1..], leaves - o.qty);
        ResponsesConcat(FillResponses(a, o, leaves), tail.responses);
        SumConcat(TradedBy, FillUpdates(a, o, leaves), tail.updates);
      } else {
        assert ([o.(qty := o.qty - leaves)] + s[1..])[1..] == s[1..];
      }
    }
  }

  // ----- requests

  lemma {:induction false} PlacedTotal(side: Side, s: seq<Order>, o: Order)
    ensures TotalQty(Place(side, s, o)) == TotalQty(s) + o.qty
  {
    var k := PlaceInserts(side, s, o);
    SumConcat(OrderQty, s[..k] + [o], s[k..]);
    SumConcat(OrderQty, s[..k], [o]);
    SumConcat(OrderQty, s[..k], s[k..]);
    SumTwo(OrderQty, o, o);
    assert s == s[..k] + s[k..];
  }

  lemma WithoutTotal(s: seq<Order>, k: nat)
    requires k < |s|
    ensures TotalQty(Without(s, k)) + s[k].qty == TotalQty(s)
  {
    SumConcat(OrderQty, s[..k], s[k + 1..]);
    SumConcat(OrderQty, s[..k], s[k..]);
    assert s == s[..k] + s[k..] && s[k..][1..] == s[k + 1..];
  }

  /** The incoming quantity is what traded plus what rests; the opposite side falls by what traded. */
  lemma {:induction false} AddConserves(b: Book, r: ClientRequest)
    requires r.side != Side.INVALID
    ensures var d := AddOrder(b, r);
            && r.qty == TradedQty(d.updates) + SweepFor(b, r).leaves
            && TotalQty(d.book.On(r.side.Opposite())) + TradedQty(d.updates) == TotalQty(b.On(r.side.Opposite()))
            && TotalQty(d.book.On(r.side)) == TotalQty(b.On(r.side)) + SweepFor(b, r).leaves
            && AcceptedQty(d.responses) == r.qty && CanceledQty(d.responses) == 0
            && ExecutedQty(d.responses) == 2 * TradedQty(d.updates)
  {
    var s := SweepFor(b, r);
    SweepConserves(AggressorOf(r, b.nextId), b.On(r.side.Opposite()), r.qty);
    var accepted := AcceptedResponse(r, b.nextId);
    ResponsesConcat([accepted], s.responses);
    SumTwo(AcceptedBy, accepted, accepted);
    SumTwo(CanceledBy, accepted, accepted);
    SumTwo(ExecutedBy, accepted, accepted);
    if s.leaves > 0 {
      var o := RestedOrder(b, r);
      SumConcat(TradedBy, s.updates, [AddUpdate(o)]);
      SumTwo(TradedBy, AddUpdate(o), AddUpdate(o));
      PlacedTotal(r.side, b.On(r.side), o);
      assert MatchedBook(b, r).On(r.side) == b.On(r.side);
    }
  }

  ghost predicate Balanced(b: Book, d: Outcome) {
    && AcceptedQty(d.responses) + RestingQty(b)
       == RestingQty(d.book) + CanceledQty(d.responses) + 2 * TradedQty(d.updates)
    && ExecutedQty(d.responses) == 2 * TradedQty(d.updates)
  }

  lemma {:induction false} CancelBalances(b: Book, r: ClientRequest)
    ensures Balanced(b, CancelOrder(b, r))
  {
    var d := CancelOrder(b, r);
    SumTwo(AcceptedBy, d.responses[0], d.responses[0]);
    SumTwo(CanceledBy, d.responses[0], d.responses[0]);
    SumTwo(ExecutedBy, d.responses[0], d.responses[0]);
    assert d.responses == [d.responses[0]];
    if d.updates != [] {
      SumTwo(TradedBy, d.updates[0], d.updates[0]);
      assert d.updates == [d.updates[0]];
    }
    if Find(b.bids, r.client, r.orderId) < |b.bids| {
      WithoutTotal(b.bids, Find(b.bids, r.client, r.orderId));
    } else if Find(b.asks, r.client, r.orderId) < |b.asks| {
      WithoutTotal(b.asks, Find(b.asks, r.client, r.orderId));
    }
  }

  lemma {:induction false} ProcessBalances(b: Book, r: ClientRequest)
    requires Legal(b, r)
    ensures Balanced(b, Process(b, r))
  {
    if r.kind == New {
      AddConserves(b, r);
    } else {
      CancelBalances(b, r);
    }
  }

  lemma {:induction false} RunBalancesFrom(b: Book, rs: seq<ClientRequest>)
    requires LegalRun(b, rs)
    ensures Balanced(b, Run(b, rs))
    decreases |rs|
  {
    if rs != [] {
      var first := Process(b, rs[0]);
      var rest := Run(first.book, rs[1..]);
      ProcessBalances(b, rs[0]);
      RunBalancesFrom(first.book, rs[1..]);
      ResponsesConcat(first.responses, rest.responses);
      SumConcat(TradedBy, first.updates, rest.updates);
    }
  }

  /** Over any run: accepted = resting + canceled + twice the traded total, and the two sides of
      every trade together executed exactly that. */
  lemma {:induction false} RunBalances(rs: seq<ClientRequest>)
    requires LegalRun(EMPTY_BOOK, rs)
    ensures var d := Run(EMPTY_BOOK, rs);
            && AcceptedQty(d.responses) == RestingQty(d.book) + CanceledQty(d.responses) + 2 * TradedQty(d.updates)
            && ExecutedQty(d.responses) == 2 * TradedQty(d.updates)
  {
    RunBalancesFrom(EMPTY_BOOK, rs);
  }

  // ----- value

  function Total<T>(f: T -> int, s: seq<T>): int {
    if s == [] then 0 else f(s[0]) + Total(f, s[1..])
  }

  lemma {:induction false} TotalConcat<T>(f: T -> int, s: seq<T>, t: seq<T>)
    ensures Total(f, s + t) == Total(f, s) + Total(f, t)
    decreases |s|
  {
    if s == [] {
      assert s + t == t;
    } else {
      assert (s + t)[0] == s[0] && (s + t)[1..] == s[1..] + t;
      TotalConcat(f, s[1..], t);
    }
  }

  function PaidBy(r: ClientResponse): int {
    if r.kind == Filled && r.side == BUY then r.price * r.execQty else 0
  }

  function ReceivedBy(r: ClientResponse): int {
    if r.kind == Filled && r.side == SELL then r.price * r.execQty else 0
  }

  function ValueOf(u: MarketUpdate): int {
    if u.kind == Trade then u.price * u.qty else 0
  }

  /** What the buyers were told to pay, what the sellers were told to receive, and what the feed says traded,
      at the prices and quantities of the messages. */
  predicate SameValue(rs: seq<ClientResponse>, us: seq<MarketUpdate>) {
    Total(PaidBy, rs) == Total(ReceivedBy, rs) == Total(ValueOf, us)
  }

  lemma SameValueConcat(
    rs: seq<ClientResponse>, us: seq<MarketUpdate>, rs2: seq<ClientResponse>, us2: seq<MarketUpdate>)
    requires SameValue(rs, us) && SameValue(rs2, us2)
    ensures SameValue(rs + rs2, us + us2)
  {
    TotalConcat(PaidBy, rs, rs2);
    TotalConcat(ReceivedBy, rs, rs2);
    TotalConcat(ValueOf, us, us2);
  }

  lemma TotalOne<T>(f: T -> int, x: T)
    ensures Total(f, [x]) == f(x)
  {
    assert [x][1..] == [];
  }

  lemma NoValue(rs: seq<ClientResponse>, us: seq<MarketUpdate>)
    requires |rs| <= 1 && |us| <= 1 && (rs != [] ==> rs[0].kind != Filled) && (us != [] ==> us[0].kind != Trade)
    ensures SameValue(rs, us)
  {
    if rs != [] {
      assert rs == [rs[0]];
      TotalOne(PaidBy, rs[0]);
      TotalOne(ReceivedBy, rs[0]);
    }
    if us != [] {
      assert us == [us[0]];
      TotalOne(ValueOf, us[0]);
    }
  }

  lemma FillHasOneValue(a: Aggressor, o: Order, leaves: nat)
    requires a.side != Side.INVALID && o.side == a.side.Opposite()
    ensures SameValue(FillResponses(a, o, leaves), FillUpdates(a, o, leaves))
  {
    var rs, us := FillResponses(a, o, leaves), FillUpdates(a, o, leaves);
    assert rs == [rs[0]] + [rs[1]] && us == [us[0]] + [us[1]];
    TotalConcat(PaidBy, [rs[0]], [rs[1]]);
    TotalConcat(ReceivedBy, [rs[0]], [rs[1]]);
    TotalConcat(ValueOf, [us[0]], [us[1]]);
    TotalOne(PaidBy, rs[0]);
    TotalOne(PaidBy, rs[1]);
    TotalOne(ReceivedBy, rs[0]);
    TotalOne(ReceivedBy, rs[1]);
    TotalOne(ValueOf, us[0]);
    TotalOne(ValueOf, us[1]);
  }

  lemma {:induction false} SweepHasOneValue(a: Aggressor, s: seq<Order>, leaves: nat)
    requires a.side != Side.INVALID && forall i :: 0 <= i < |s| ==> s[i].side == a.side.Opposite()
    ensures SameValue(Sweep(a, s, leaves).responses, Sweep(a, s, leaves).updates)
    decreases |s|
  {
    hide FillResponses, FillUpdates, SameValue, Crosses;
    if leaves > 0 && s != [] && Crosses(a.side, a.price, s[0].price) {
      FillHasOneValue(a, s[0], leaves);
      if s[0].qty <= leaves {
        var t := Sweep(a, s[1..], leaves - s[0].qty);
        SweepHasOneValue(a, s[1..], leaves - s[0].qty);
        SameValueConcat(FillResponses(a, s[0], leaves), FillUpdates(a, s[0], leaves), t.responses, t.updates);
      }
    } else {
      NoValue([], []);
    }
  }

  lemma ProcessHasOneValue(b: Book, r: ClientRequest)
    requires WellFormed(b) && Legal(b, r)
    ensures SameValue(Process(b, r).responses, Process(b, r).updates)
  {
    hide SameValue, Sweep, Place, NextPriority;
    if r.kind == New {
      var s := b.On(r.side.Opposite());
      assert GoodSide(r.side.Opposite(), b.nextId, s);
      var d := SweepFor(b, r);
      SweepHasOneValue(AggressorOf(r, b.nextId), s, r.qty);
      NoValue([AcceptedResponse(r, b.nextId)], []);
      SameValueConcat([AcceptedResponse(r, b.nextId)], [], d.responses, d.updates);
      assert [] + d.updates == d.updates;
      if d.leaves > 0 {
        var u := AddUpdate(RestedOrder(b, r));
        NoValue([], [u]);
        SameValueConcat([AcceptedResponse(r, b.nextId)] + d.responses, d.updates, [], [u]);
        assert ([AcceptedResponse(r, b.nextId)] + d.responses) + [] == [AcceptedResponse(r, b.nextId)] + d.responses;
      }
    } else {
      NoValue(Process(b, r).responses, Process(b, r).updates);
    }
  }

  /** Over every run the buyers pay, fill by fill, what the sellers receive and what the feed says traded. */
  lemma {:induction false} RunHasOneValue(b: Book, rs: seq<ClientRequest>)
    requires WellFormed(b) && LegalRun(b, rs)
    ensures SameValue(Run(b, rs).responses, Run(b, rs).updates)
    decreases |rs|
  {
    hide SameValue, Process, Legal, WellFormed;
    if rs == [] {
      NoValue([], []);
    } else {
      var first := Process(b, rs[0]);
      var rest := Run(first.book, rs[1..]);
      ProcessHasOneValue(b, rs[0]);
      ProcessKeepsWellFormed(b, rs[0]);
      RunHasOneValue(first.book, rs[1..]);
      SameValueConcat(first.responses, first.updates, rest.responses, rest.updates);
    }
  }
}
