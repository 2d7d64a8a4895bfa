/** What one order's responses may be over a whole run: accepted once, then fills that count the
    leaves down at prices no worse than the limit, then at most one cancel of what is left. */
module LifeCycle {
  import opened Types
  import opened BookSpec
  import opened BookInvariant
  import opened PriceTime

  datatype Phase =
    | Working(client: nat, clientOrderId: nat, side: Side, limit: int, leaves: nat)
    | Ended

  /** A listener that follows every market order id; Violation is a response it must never see. */
  datatype Listener = Violation | Following(phases: map<nat, Phase>)

  predicate Concerns(p: Phase, r: ClientResponse) {
    p.Working? && p.leaves > 0 && r.client == p.client && r.clientOrderId == p.clientOrderId && r.side == p.side
  }

  function Hear(l: Listener, r: ClientResponse): Listener {
    if l.Violation? then Violation
    else
      var known := r.marketOrderId in l.phases;
      match r.kind
      case Accepted =>
        if known || r.execQty != 0 then Violation
        else Following(l.phases[r.marketOrderId := Working(r.client, r.clientOrderId, r.side, r.price, r.leavesQty)])
      case Filled =>
        if !known || !Concerns(l.phases[r.marketOrderId], r) then Violation
        else
          var p := l.phases[r.marketOrderId];
          if 0 < r.execQty <= p.leaves && r.leavesQty == p.leaves - r.execQty
             && WithinLimit(p.side, p.limit, r.price) then
            Following(l.phases[r.marketOrderId := p.(leaves := r.leavesQty)])
          else Violation
      case Canceled =>
        if !known || !Concerns(l.phases[r.marketOrderId], r) then Violation
        else
          var p := l.phases[r.marketOrderId];
          if r.leavesQty == p.leaves && r.price == p.limit then Following(l.phases[r.marketOrderId := Ended])
          else Violation
      case CancelRejected => l
  }

  function HearAll(l: Listener, rs: seq<ClientResponse>): Listener
    decreases |rs|
  {
    if rs == [] then l else HearAll(Hear(l, rs[0]), rs[1..])
  }

  function PhaseOf(o: Order): Phase {
    Working(o.client, o.clientOrderId, o.side, o.price, o.qty)
  }

  predicate Done(p: Phase) {
    p.Ended? || p.leaves == 0
  }

  predicate Follows(m: map<nat, Phase>, s: seq<Order>) {
    forall i :: 0 <= i < |s| ==> s[i].marketOrderId in m && m[s[i].marketOrderId] == PhaseOf(s[i])
  }

  predicate Mentions(s: seq<Order>, id: nat) {
    exists i :: 0 <= i < |s| && s[i].marketOrderId == id
  }

  /** The listener knows exactly the ids given out; the ones in the book are working with the
      resting quantity, and all others are done for good. */
  ghost predicate Knows(m: map<nat, Phase>, b: Book) {
    && Follows(m, b.bids) && Follows(m, b.asks)
    && (forall id :: id in m <==> 1 <= id < b.nextId)
    && (forall id :: id in m ==> Mentions(b.bids, id) || Mentions(b.asks, id) || Done(m[id]))
  }

  lemma {:induction false} HearConcat(l: Listener, rs: seq<ClientResponse>, ts: seq<ClientResponse>)
    ensures HearAll(l, rs + ts) == HearAll(HearAll(l, rs), ts)
    decreases |rs|
  {
    if rs == [] {
      assert rs + ts == ts;
    } else {
      assert (rs + ts)[1..] == rs[1..] + ts;
      HearConcat(Hear(l, rs[0]), rs[1..], ts);
    }
  }

  lemma {:induction false} HearTwo(l: Listener, r: ClientResponse, t: ClientResponse)
    ensures HearAll(l, [r]) == Hear(l, r)
    ensures HearAll(l, [r, t]) == Hear(Hear(l, r), t)
  {
    assert [r][1..] == [] && [t][1..] == [] && [r, t][1..] == [t];
    assert HearAll(l, [r, t]) == HearAll(Hear(l, r), [t]);
  }

  // ----- matching

  function AggressorPhase(a: Aggressor, leaves: nat): Phase {
    Working(a.client, a.clientOrderId, a.side, a.price, leaves)
  }

  ghost predicate CanSweep(a: Aggressor, s: seq<Order>, leaves: nat, m: map<nat, Phase>) {
    && a.marketOrderId in m && m[a.marketOrderId] == AggressorPhase(a, leaves)
    && Follows(m, s)
    && (forall i :: 0 <= i < |s| ==>
          s[i].qty > 0 && s[i].side == a.side.Opposite() && s[i].marketOrderId != a.marketOrderId)
    && (forall i, j :: 0 <= i < j < |s| ==> s[i].marketOrderId != s[j].marketOrderId)
  }

  /** m2 is m1 after a sweep of s to t by the aggressor. */
  ghost predicate Heard(a: Aggressor, s: seq<Order>, m1: map<nat, Phase>, d: Swept, m2: map<nat, Phase>) {
    && m2.Keys == m1.Keys
    && a.marketOrderId in m2 && m2[a.marketOrderId] == AggressorPhase(a, d.leaves)
    && Follows(m2, d.resting)
    && (forall id :: id in m1 && id != a.marketOrderId && !Mentions(s, id) ==> m2[id] == m1[id])
    && (forall id :: id in m1 && Mentions(s, id) ==> Mentions(d.resting, id) || Done(m2[id]))
  }

  lemma HearFill(a: Aggressor, s: seq<Order>, leaves: nat, m: map<nat, Phase>)
    requires a.side != Side.INVALID && CanSweep(a, s, leaves, m) && leaves > 0 && s != []
    requires Crosses(a.side, a.price, s[0].price)
    ensures var o, fill := s[0], Min(leaves, s[0].qty);
            HearAll(Following(m), FillResponses(a, o, leaves)) ==
            Following(m[a.marketOrderId := AggressorPhase(a, leaves - fill)]
                       [o.marketOrderId := PhaseOf(o).(leaves := o.qty - fill)])
  {
    var rs := FillResponses(a, s[0], leaves);
    HearTwo(Following(m), rs[0], rs[1]);
    assert rs == [rs[0], rs[1]];
  }

  lemma {:induction false} HearSweep(
    a: Aggressor, s: seq<Order>, leaves: nat, m: map<nat, Phase>) returns (m2: map<nat, Phase>)
    requires a.side != Side.INVALID && CanSweep(a, s, leaves, m)
    ensures HearAll(Following(m), Sweep(a, s, leaves).responses) == Following(m2)
    ensures Heard(a, s, m, Sweep(a, s, leaves), m2)
    decreases |s|
  {
    m2 := m;
    if leaves > 0 && s != [] && Crosses(a.side, a.price, s[0].price) {
      var o, fill := s[0], Min(leaves, s[0].qty);
      HearFill(a, s, leaves, m);
      var m1 := m[a.marketOrderId := AggressorPhase(a, leaves - fill)]
                 [o.marketOrderId := PhaseOf(o).(leaves := o.qty - fill)];
      if fill == o.qty {
        m2 := HearSweep(a, s[1..], leaves - fill, m1);
        HearConcat(Following(m), FillResponses(a, o, leaves), Sweep(a, s[1..], leaves - fill).responses);
        HeardTail(a, s, leaves, m, m1, m2);
      } else {
        m2 := m1;
        var d := Sweep(a, s, leaves);
        forall id | Mentions(s, id) ensures Mentions(d.resting, id) {
          var i :| 0 <= i < |s| && s[i].marketOrderId == id;
          assert d.resting[i].marketOrderId == id;
        }
      }
    }
  }

  lemma HeardTail(
    a: Aggressor, s: seq<Order>, leaves: nat, m: map<nat, Phase>, m1: map<nat, Phase>, m2: map<nat, Phase>)
    requires CanSweep(a, s, leaves, m) && s != [] && s[0].qty <= leaves && Crosses(a.side, a.price, s[0].price)
    requires m1 == m[a.marketOrderId := AggressorPhase(a, leaves - s[0].qty)]
                    [s[0].marketOrderId := PhaseOf(s[0]).(leaves := 0)]
    requires Heard(a, s[1..], m1, Sweep(a, s[1..], leaves - s[0].qty), m2)
    ensures Heard(a, s, m, Sweep(a, s, leaves), m2)
  {
    var d := Sweep(a, s, leaves);
    forall id | id in m ensures Mentions(s, id) <==> id == s[0].marketOrderId || Mentions(s[1..], id) {
      if Mentions(s, id) && id != s[0].marketOrderId {
        var i :| 0 <= i < |s| && s[i].marketOrderId == id;
        assert s[1..][i - 1].marketOrderId == id;
      }
      if Mentions(s[1..], id) {
        var i :| 0 <= i < |s[1..]| && s[1..][i].marketOrderId == id;
        assert s[i + 1].marketOrderId == id;
      }
      assert id == s[0].marketOrderId ==> Mentions(s, id);
    }
    assert !Mentions(s[1..], s[0].marketOrderId);
  }

  // ----- requests

  /** The 32-bit parameter names the new order correctly, or its name is not used. */
  predicate Fits(b: Book, r: ClientRequest) {
    r.kind == New && TradesOnArrival(b, r) ==> b.nextId < QTY_MODULUS
  }

  function NamedAggressor(r: ClientRequest, id: nat): Aggressor {
    AggressorOf(r, id).(marketOrderId := id)
  }

  lemma {:induction false} FitsIsNamed(b: Book, r: ClientRequest)
    requires r.kind == New && Fits(b, r)
    ensures SweepFor(b, r) == Sweep(NamedAggressor(r, b.nextId), b.On(r.side.Opposite()), r.qty)
  {
    if b.nextId < QTY_MODULUS {
      assert NamedAggressor(r, b.nextId) == AggressorOf(r, b.nextId);
    }
  }

  lemma {:induction false} NewOrderCanSweep(b: Book, r: ClientRequest, m: map<nat, Phase>)
    requires WellFormed(b) && r.kind == New && Legal(b, r) && Knows(m, b) && Fits(b, r)
    ensures var a := NamedAggressor(r, b.nextId);
            CanSweep(a, b.On(r.side.Opposite()), r.qty, m[b.nextId := AggressorPhase(a, r.qty)])
  {
    var s := b.On(r.side.Opposite());
    assert GoodSide(r.side.Opposite(), b.nextId, s);
    forall i, j | 0 <= i < j < |s| ensures s[i].marketOrderId != s[j].marketOrderId {
      assert Different(s[i], s[j]);
    }
  }

  lemma {:induction false} HearMatch(b: Book, r: ClientRequest, m: map<nat, Phase>) returns (m2: map<nat, Phase>)
    requires WellFormed(b) && r.kind == New && Legal(b, r) && Knows(m, b) && Fits(b, r)
    ensures HearAll(Following(m), [AcceptedResponse(r, b.nextId)] + SweepFor(b, r).responses) == Following(m2)
    ensures var a := NamedAggressor(r, b.nextId);
            Heard(a, b.On(r.side.Opposite()), m[b.nextId := AggressorPhase(a, r.qty)], SweepFor(b, r), m2)
  {
    var a := NamedAggressor(r, b.nextId);
    var accepted := AcceptedResponse(r, b.nextId);
    FitsIsNamed(b, r);
    HearConcat(Following(m), [accepted], SweepFor(b, r).responses);
    HearTwo(Following(m), accepted, accepted);
    NewOrderCanSweep(b, r, m);
    m2 := HearSweep(a, b.On(r.side.Opposite()), r.qty, m[b.nextId := AggressorPhase(a, r.qty)]);
  }

  lemma SidesAreDistinct(b: Book, side: Side, id: nat)
    requires WellFormed(b) && side != Side.INVALID && Mentions(b.On(side), id)
    ensures !Mentions(b.On(side.Opposite()), id) && id < b.nextId
  {
    var i :| 0 <= i < |b.On(side)| && b.On(side)[i].marketOrderId == id;
    if side == BUY {
      assert forall j :: 0 <= j < |b.asks| ==> Different(b.bids[i], b.asks[j]);
    } else {
      assert forall j :: 0 <= j < |b.bids| ==> Different(b.bids[j], b.asks[i]);
    }
  }

  lemma HeardKeepsOwnSide(b: Book, side: Side, a: Aggressor, m: map<nat, Phase>, d: Swept, m2: map<nat, Phase>)
    requires WellFormed(b) && side != Side.INVALID && Follows(m, b.On(side))
    requires a.marketOrderId == b.nextId
    requires Heard(a, b.On(side.Opposite()), m, d, m2)
    ensures Follows(m2, b.On(side))
  {
    var s := b.On(side);
    forall i | 0 <= i < |s| ensures s[i].marketOrderId in m2 && m2[s[i].marketOrderId] == PhaseOf(s[i]) {
      assert Mentions(s, s[i].marketOrderId);
      SidesAreDistinct(b, side, s[i].marketOrderId);
    }
  }

  lemma {:induction false} PlacedMentions(side: Side, s: seq<Order>, o: Order, m: map<nat, Phase>)
    requires Follows(m, s) && o.marketOrderId in m && m[o.marketOrderId] == PhaseOf(o)
    ensures Mentions(Place(side, s, o), o.marketOrderId)
    ensures forall id :: Mentions(s, id) ==> Mentions(Place(side, s, o), id)
    ensures Follows(m, Place(side, s, o))
  {
    var k := PlaceInserts(side, s, o);
    var t := Place(side, s, o);
    assert t[k] == o;
    forall id | Mentions(s, id) ensures Mentions(t, id) {
      var i :| 0 <= i < |s| && s[i].marketOrderId == id;
      assert t[if i < k then i else i + 1].marketOrderId == id;
    }
    forall i | 0 <= i < |t| ensures t[i].marketOrderId in m && m[t[i].marketOrderId] == PhaseOf(t[i]) {
      assert t[i] == if i < k then s[i] else if i == k then o else s[i - 1];
    }
  }

  /** After matching, every id but the new one is accounted for by the matched book. */
  lemma {:induction false} HeardKnowsMatched(b: Book, r: ClientRequest, m: map<nat, Phase>, m2: map<nat, Phase>)
    requires WellFormed(b) && r.kind == New && Legal(b, r) && Knows(m, b) && Fits(b, r)
    requires var a := NamedAggressor(r, b.nextId);
             Heard(a, b.On(r.side.Opposite()), m[b.nextId := AggressorPhase(a, r.qty)], SweepFor(b, r), m2)
    ensures var k := MatchedBook(b, r);
            && Follows(m2, k.On(r.side)) && Follows(m2, k.On(r.side.Opposite()))
            && (forall id :: id in m2 <==> 1 <= id < k.nextId)
            && (forall id :: id in m2 && id != b.nextId ==>
                  Mentions(k.On(r.side), id) || Mentions(k.On(r.side.Opposite()), id) || Done(m2[id]))
    ensures b.nextId in m2 && m2[b.nextId] == AggressorPhase(NamedAggressor(r, b.nextId), SweepFor(b, r).leaves)
  {
    var a := NamedAggressor(r, b.nextId);
    var m1 := m[b.nextId := AggressorPhase(a, r.qty)];
    assert Follows(m1, b.On(r.side)) by {
      assert forall i :: 0 <= i < |b.On(r.side)| ==> GoodOrder(r.side, b.nextId, b.On(r.side)[i]);
    }
    HeardKeepsOwnSide(b, r.side, a, m1, SweepFor(b, r), m2);
    var k := MatchedBook(b, r);
    assert k.On(r.side) == b.On(r.side) && k.On(r.side.Opposite()) == SweepFor(b, r).resting;
    forall id | id in m2 && id != b.nextId
      ensures Mentions(k.On(r.side), id) || Mentions(k.On(r.side.Opposite()), id) || Done(m2[id])
    {
      assert id in m && m1[id] == m[id];
    }
  }

  lemma {:induction false} AddIsHeard(b: Book, r: ClientRequest, m: map<nat, Phase>) returns (m2: map<nat, Phase>)
    requires WellFormed(b) && r.kind == New && Legal(b, r) && Knows(m, b) && Fits(b, r)
    ensures HearAll(Following(m), AddOrder(b, r).responses) == Following(m2)
    ensures Knows(m2, AddOrder(b, r).book)
  {
    hide WellFormed, Live, Heard, Follows, Mentions, Sweep;
    m2 := HearMatch(b, r, m);
    HeardKnowsMatched(b, r, m, m2);
    if SweepFor(b, r).leaves > 0 {
      var o := RestedOrder(b, r);
      assert PhaseOf(o) == m2[b.nextId];
      PlacedMentions(r.side, b.On(r.side), o, m2);
      assert MatchedBook(b, r).On(r.side) == b.On(r.side);
    }
  }

  lemma WithoutMentions(s: seq<Order>, k: nat, id: nat)
    requires k < |s| && Mentions(s, id) && id != s[k].marketOrderId
    ensures Mentions(Without(s, k), id)
  {
    var i :| 0 <= i < |s| && s[i].marketOrderId == id;
    assert Without(s, k)[if i < k then i else i - 1].marketOrderId == id;
  }

  lemma FollowsWithout(side: Side, nextId: nat, s: seq<Order>, k: nat, m: map<nat, Phase>)
    requires GoodSide(side, nextId, s) && k < |s| && Follows(m, s)
    ensures Follows(m[s[k].marketOrderId := Ended], Without(s, k))
  {
    var t := Without(s, k);
    forall i | 0 <= i < |t| ensures t[i] in s && t[i].marketOrderId != s[k].marketOrderId {
      var j := if i < k then i else i + 1;
      assert t[i] == s[j];
      assert if j < k then Different(s[j], s[k]) else Different(s[k], s[j]);
    }
  }

  lemma EndedKeepsOther(s: seq<Order>, m: map<nat, Phase>, id: nat)
    requires Follows(m, s) && !Mentions(s, id)
    ensures Follows(m[id := Ended], s)
  {
    forall i | 0 <= i < |s| ensures s[i].marketOrderId != id {
    }
  }

  lemma CancelOnIsHeard(b: Book, r: ClientRequest, side: Side, m: map<nat, Phase>) returns (m2: map<nat, Phase>)
    requires WellFormed(b) && side != Side.INVALID && Knows(m, b)
    requires Find(b.On(side), r.client, r.orderId) < |b.On(side)|
    ensures HearAll(Following(m), CancelOn(b, r, side).responses) == Following(m2)
    ensures Knows(m2, CancelOn(b, r, side).book)
  {
    var s, u := b.On(side), b.On(side.Opposite());
    var k := Find(s, r.client, r.orderId);
    var id := s[k].marketOrderId;
    assert Follows(m, s) && Follows(m, u);
    assert HearAll(Following(m), CancelOn(b, r, side).responses) == Following(m[id := Ended]) by {
      HearTwo(Following(m), CanceledResponse(r, s[k]), CanceledResponse(r, s[k]));
      assert GoodOrder(side, b.nextId, s[k]);
    }
    m2 := m[id := Ended];
    SidesAreDistinct(b, side, id);
    FollowsWithout(side, b.nextId, s, k, m);
    EndedKeepsOther(u, m, id);
    forall x | x in m2 ensures Mentions(Without(s, k), x) || Mentions(u, x) || Done(m2[x]) {
      if x != id && Mentions(s, x) {
        WithoutMentions(s, k, x);
      }
    }
    assert CancelOn(b, r, side).book == b.With(side, Without(s, k));
  }

  lemma {:induction false} ProcessIsHeard(b: Book, r: ClientRequest, m: map<nat, Phase>) returns (m2: map<nat, Phase>)
    requires WellFormed(b) && Legal(b, r) && Knows(m, b) && Fits(b, r)
    ensures HearAll(Following(m), Process(b, r).responses) == Following(m2)
    ensures Knows(m2, Process(b, r).book)
  {
    if r.kind == New {
      m2 := AddIsHeard(b, r, m);
    } else if Find(b.bids, r.client, r.orderId) < |b.bids| {
      m2 := CancelOnIsHeard(b, r, BUY, m);
    } else if Find(b.asks, r.client, r.orderId) < |b.asks| {
      m2 := CancelOnIsHeard(b, r, SELL, m);
    } else {
      m2 := m;
      HearTwo(Following(m), CancelRejectedResponse(r), CancelRejectedResponse(r));
    }
  }

  // ----- whole runs

  ghost predicate FitRun(b: Book, rs: seq<ClientRequest>)
    decreases |rs|
  {
    rs == [] || (Fits(b, rs[0]) && FitRun(Process(b, rs[0]).book, rs[1..]))
  }

  lemma {:induction false} RunIsHeardFrom(
    b: Book, rs: seq<ClientRequest>, m: map<nat, Phase>) returns (m2: map<nat, Phase>)
    requires WellFormed(b) && LegalRun(b, rs) && FitRun(b, rs) && Knows(m, b)
    ensures HearAll(Following(m), Run(b, rs).responses) == Following(m2)
    ensures Knows(m2, Run(b, rs).book)
    decreases |rs|
  {
    m2 := m;
    if rs != [] {
      var first := Process(b, rs[0]);
      var m1 := ProcessIsHeard(b, rs[0], m);
      ProcessKeepsWellFormed(b, rs[0]);
      m2 := RunIsHeardFrom(first.book, rs[1..], m1);
      HearConcat(Following(m), first.responses, Run(first.book, rs[1..]).responses);
    }
  }

  /** Over every run in which no order with an id from 2^32 on trades on arrival, the listener never
      hears a violation, and what it believes in the end is the book. */
  lemma {:induction false} RunIsHeard(rs: seq<ClientRequest>)
    requires LegalRun(EMPTY_BOOK, rs) && FitRun(EMPTY_BOOK, rs)
    ensures HearAll(Following(map[]), Run(EMPTY_BOOK, rs).responses).Following?
    ensures Knows(HearAll(Following(map[]), Run(EMPTY_BOOK, rs).responses).phases, Run(EMPTY_BOOK, rs).book)
  {
    var m := RunIsHeardFrom(EMPTY_BOOK, rs, map[]);
  }

  /** In particular over every run of fewer than 2^32 requests. */
  lemma {:induction false} FewRequestsFit(b: Book, rs: seq<ClientRequest>)
    requires b.nextId + |rs| <= QTY_MODULUS
    ensures FitRun(b, rs)
    decreases |rs|
  {
    if rs != [] {
      FewRequestsFit(Process(b, rs[0]).book, rs[1..]);
    }
  }

  // ----- the narrow id parameter

  predicate Unnamed(rs: seq<ClientResponse>, id: nat) {
    forall i :: 0 <= i < |rs| ==> rs[i].marketOrderId != id
  }

  lemma {:induction false} UnnamedIsUnchanged(l: Listener, rs: seq<ClientResponse>, id: nat)
    requires l.Following? && id in l.phases
    requires Unnamed(rs, id)
    ensures HearAll(l, rs).Following? ==> id in HearAll(l, rs).phases && HearAll(l, rs).phases[id] == l.phases[id]
    decreases |rs|
  {
    if rs != [] {
      if Hear(l, rs[0]).Following? {
        UnnamedIsUnchanged(Hear(l, rs[0]), rs[1..], id);
      } else {
        ViolationStays(rs[1..]);
      }
    }
  }

  lemma {:induction false} ViolationStays(rs: seq<ClientResponse>)
    ensures HearAll(Violation, rs) == Violation
    decreases |rs|
  {
    if rs != [] {
      ViolationStays(rs[1..]);
    }
  }

  lemma {:induction false} SweepNames(a: Aggressor, s: seq<Order>, leaves: nat, id: nat)
    requires id != a.marketOrderId && !Mentions(s, id)
    ensures Unnamed(Sweep(a, s, leaves).responses, id)
    decreases |s|
  {
    if leaves > 0 && s != [] && Crosses(a.side, a.price, s[0].price) {
      assert s[0].marketOrderId != id;
      assert Unnamed(FillResponses(a, s[0], leaves), id);
      if s[0].qty <= leaves {
        assert forall i :: 0 <= i < |s[1..]| ==> s[1..][i] == s[i + 1];
        SweepNames(a, s[1..], leaves - s[0].qty, id);
      }
    }
  }

  /** Nothing that is sent about a new order with a wide id names it, except its acceptance. */
  lemma {:induction false} WideIsNotNamed(b: Book, r: ClientRequest, m: map<nat, Phase>)
    requires WellFormed(b) && r.kind == New && Legal(b, r) && Knows(m, b) && b.nextId >= QTY_MODULUS
    ensures var l := HearAll(Following(m), AddOrder(b, r).responses);
            l.Following? ==>
              && b.nextId in l.phases
              && l.phases[b.nextId] == AggressorPhase(NamedAggressor(r, b.nextId), r.qty)
  {
    hide WellFormed, Knows, Live, Sweep;
    var s, id := b.On(r.side.Opposite()), b.nextId;
    assert !(id in m) by {
      IdIsNew(b, m);
    }
    var accepted := AcceptedResponse(r, id);
    var l := HearAll(Following(m), [accepted]);
    HearConcat(Following(m), [accepted], SweepFor(b, r).responses);
    HearTwo(Following(m), accepted, accepted);
    NewIdIsNotThere(b);
    SweepNames(AggressorOf(r, id), s, r.qty, id);
    UnnamedIsUnchanged(l, SweepFor(b, r).responses, id);
  }

  lemma IdIsNew(b: Book, m: map<nat, Phase>)
    requires Knows(m, b)
    ensures b.nextId !in m
  {
  }

  /** A sweep that trades leaves less than it started with. */
  lemma {:induction false} TradingReduces(a: Aggressor, s: seq<Order>, leaves: nat)
    requires leaves > 0 && s != [] && Crosses(a.side, a.price, s[0].price) && s[0].qty > 0
    ensures Sweep(a, s, leaves).leaves < leaves
  {
    if s[0].qty <= leaves {
      SweepLeavesLess(a, s[1..], leaves - s[0].qty);
    }
  }

  lemma {:induction false} SweepLeavesLess(a: Aggressor, s: seq<Order>, leaves: nat)
    ensures Sweep(a, s, leaves).leaves <= leaves
    decreases |s|
  {
    if leaves > 0 && s != [] && Crosses(a.side, a.price, s[0].price) && s[0].qty <= leaves {
      SweepLeavesLess(a, s[1..], leaves - s[0].qty);
    }
  }

  /** Exactly then the responses of one request keep the listener's picture equal to the book. */
  lemma {:induction false} HeardExactlyWhenItFits(b: Book, r: ClientRequest, m: map<nat, Phase>)
    requires WellFormed(b) && Legal(b, r) && Knows(m, b)
    ensures var l := HearAll(Following(m), Process(b, r).responses);
            l.Following? && Knows(l.phases, Process(b, r).book) <==> Fits(b, r)
  {
    if Fits(b, r) {
      var m2 := ProcessIsHeard(b, r, m);
    } else {
      var l := HearAll(Following(m), AddOrder(b, r).responses);
      var s, d := b.On(r.side.Opposite()), SweepFor(b, r);
      WideIsNotNamed(b, r, m);
      assert GoodSide(r.side.Opposite(), b.nextId, s);
      TradingReduces(AggressorOf(r, b.nextId), s, r.qty);
      ShortIsUnknown(b, r, l);
    }
  }

  lemma {:induction false} ShortIsUnknown(b: Book, r: ClientRequest, l: Listener)
    requires WellFormed(b) && r.kind == New && Legal(b, r) && SweepFor(b, r).leaves < r.qty
    requires l.Following? ==>
               b.nextId in l.phases && l.phases[b.nextId] == AggressorPhase(NamedAggressor(r, b.nextId), r.qty)
    ensures !(l.Following? && Knows(l.phases, AddOrder(b, r).book))
  {
    var c, id := AddOrder(b, r).book, b.nextId;
    var k := MatchKeepsWellFormed(b, r);
    if SweepFor(b, r).leaves > 0 {
      var j := PlaceInserts(r.side, b.On(r.side), RestedOrder(b, r));
      assert c.On(r.side)[j] == RestedOrder(b, r);
      assert l.Following? && Knows(l.phases, c) ==> Follows(l.phases, c.On(r.side));
    } else {
      NewIdIsNotThere(MatchedBook(b, r).(nextId := id));
      assert !Mentions(c.bids, id) && !Mentions(c.asks, id);
    }
  }

  lemma NewIdIsNotThere(b: Book)
    requires WellFormed(b)
    ensures !Mentions(b.bids, b.nextId) && !Mentions(b.asks, b.nextId)
  {
    assert forall i :: 0 <= i < |b.bids| ==> GoodOrder(BUY, b.nextId, b.bids[i]);
    assert forall i :: 0 <= i < |b.asks| ==> GoodOrder(SELL, b.nextId, b.asks[i]);
  }

  /** An order and a book where it does not fit: the order's own fill carries the id 3. */
  lemma {:induction false} WideIdIsMisnamed()
    ensures var b := Book([], [Order(0, 1, 1, 7, SELL, 100, 5, 1)], QTY_MODULUS + 3);
            var r := ClientRequest(New, 2, 0, 1, BUY, 100, 5);
            && WellFormed(b) && Legal(b, r) && !Fits(b, r)
            && AddOrder(b, r).responses[1].kind == Filled
            && AddOrder(b, r).responses[1].clientOrderId == r.orderId
            && AddOrder(b, r).responses[1].marketOrderId == 3
  {
    var b := Book([], [Order(0, 1, 1, 7, SELL, 100, 5, 1)], QTY_MODULUS + 3);
    var r := ClientRequest(New, 2, 0, 1, BUY, 100, 5);
    assert Find(b.asks, 2, 1) == 1 by {
      assert b.asks[1..] == [];
    }
    assert SweepFor(b, r).responses[0] == FillResponses(AggressorOf(r, b.nextId), b.asks[0], 5)[0];
    assert AddOrder(b, r).responses[1] == SweepFor(b, r).responses[0];
  }
}
