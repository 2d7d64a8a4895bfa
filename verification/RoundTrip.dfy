/** Cancelling undoes resting. */
module RoundTrip {
  import opened Types
  import opened BookSpec
  import opened BookInvariant

  function CancelOf(r: ClientRequest): ClientRequest {
    r.(kind := Cancel)
  }

  /** Nothing on the opposite side trades with the request. */
  predicate MatchesNothing(b: Book, r: ClientRequest) {
    var s := b.On(r.side.Opposite());
    r.qty > 0 && (s == [] || !Crosses(r.side, r.price, s[0].price))
  }

  lemma {:induction false} PlaceThenWithout(side: Side, s: seq<Order>, o: Order)
    requires Find(s, o.client, o.clientOrderId) == |s|
    ensures var k := Find(Place(side, s, o), o.client, o.clientOrderId);
            k < |Place(side, s, o)| && Place(side, s, o)[k] == o && Without(Place(side, s, o), k) == s
  {
    var k := PlaceInserts(side, s, o);
    var t := Place(side, s, o);
    assert t[k] == o;
    var f := Find(t, o.client, o.clientOrderId);
    assert forall i :: 0 <= i < k ==> t[i] == s[i];
    assert f == k;
    assert t[..k] == s[..k] && t[k + 1..] == s[k..];
  }

  /** A NEW that trades with nobody, followed by its CANCEL, restores both sides; the cancel is
      accepted and carries the full quantity. */
  lemma {:induction false} AddThenCancel(b: Book, r: ClientRequest)
    requires r.kind == New && Legal(b, r) && MatchesNothing(b, r)
    ensures var added := AddOrder(b, r).book;
            var d := CancelOrder(added, CancelOf(r));
            && d.book == b.(nextId := b.nextId + 1)
            && d.responses
               == [CanceledResponse(CancelOf(r), RestingOrder(r, b.nextId, r.qty, NextPriority(b.On(r.side), r.price)))]
  {
    var added := AddOrder(b, r).book;
    assert MatchedBook(b, r) == b.(nextId := b.nextId + 1);
    var o := RestedOrder(b, r);
    assert SweepFor(b, r).leaves == r.qty;
    PlaceThenWithout(r.side, b.On(r.side), o);
    assert added == b.With(r.side, Place(r.side, b.On(r.side), o)).(nextId := b.nextId + 1);
    assert CancelOrder(added, CancelOf(r)) == CancelOn(added, CancelOf(r), r.side);
  }

  /** A cancel is accepted exactly when that client's order is live; otherwise nothing changes. */
  lemma {:induction false} CancelAcceptedIffLive(b: Book, r: ClientRequest)
    requires WellFormed(b) && r.kind == Cancel && Legal(b, r)
    ensures |CancelOrder(b, r).responses| == 1
    ensures CancelOrder(b, r).responses[0].kind == Canceled <==> Live(b, r.client, r.orderId)
    ensures !Live(b, r.client, r.orderId) ==>
              CancelOrder(b, r) == Outcome(b, [CancelRejectedResponse(r)], [])
    ensures Live(b, r.client, r.orderId) ==> !Live(CancelOrder(b, r).book, r.client, r.orderId)
    ensures r.client >= ME_MAX_NUM_CLIENTS ==> CancelOrder(b, r).responses[0].kind == CancelRejected
  {
    if Live(b, r.client, r.orderId) {
      var side := if Find(b.bids, r.client, r.orderId) < |b.bids| then BUY else SELL;
      CanceledIsGone(b, r, side);
    }
  }

  lemma CanceledIsGone(b: Book, r: ClientRequest, side: Side)
    requires WellFormed(b) && side != Side.INVALID
    requires Find(b.On(side), r.client, r.orderId) < |b.On(side)|
    ensures !Live(CancelOn(b, r, side).book, r.client, r.orderId)
    ensures r.client < ME_MAX_NUM_CLIENTS
  {
    var s, u := b.On(side), b.On(side.Opposite());
    var k := Find(s, r.client, r.orderId);
    var t := Without(s, k);
    assert GoodOrder(side, b.nextId, s[k]);
    forall i | 0 <= i < |t| ensures t[i].client != r.client || t[i].clientOrderId != r.orderId {
      var j := if i < k then i else i + 1;
      assert t[i] == s[j];
      assert if j < k then Different(s[j], s[k]) else Different(s[k], s[j]);
    }
    forall i | 0 <= i < |u| ensures u[i].client != r.client || u[i].clientOrderId != r.orderId {
      assert if side == BUY then Different(s[k], u[i]) else Different(u[i], s[k]);
    }
  }
}
