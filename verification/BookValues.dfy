/** What the linked blocks mean: the sides of the book as values, and how the specification's
    functions act at a known position. */
module BookValues {
  import opened Types
  import opened BookSpec
  import opened BookInvariant
  import opened MemPools
  import opened Rings
  import opened Ladder
  import opened LevelList
  import opened Capacity
  import opened Representation

  /** The objects in the blocks are the same, whatever links and free flags say. */
  predicate SameValues(om: OrderMemory, om2: OrderMemory) {
    |om| == |om2| && forall p: nat :: p < |om| ==> OrderAt(om2, p) == OrderAt(om, p)
  }

  /** The listed blocks as orders; empty when one of them is no block. */
  function Listed(om: OrderMemory, q: seq<nat>): seq<Order> {
    if InRange(om, q) then Values(om, q) else []
  }

  /** The specification puts o at place k. */
  predicate PlacedAt(side: Side, s: seq<Order>, o: Order, k: nat) {
    k <= |s| && Place(side, s, o) == Inserted(s, k, o)
  }

  lemma ValuesInserted(om: OrderMemory, q: seq<nat>, k: nat, x: nat, om2: OrderMemory)
    requires InRange(om, q) && k <= |q| && x < |om| && SameValues(om, om2)
    ensures InRange(om2, Inserted(q, k, x))
    ensures Values(om2, Inserted(q, k, x)) == Inserted(Values(om, q), k, OrderAt(om, x))
  {
  }

  lemma ValuesDeleted(om: OrderMemory, q: seq<nat>, k: nat, om2: OrderMemory)
    requires InRange(om, q) && k < |q| && SameValues(om, om2)
    ensures InRange(om2, Deleted(q, k)) && Values(om2, Deleted(q, k)) == Without(Values(om, q), k)
  {
    forall i | 0 <= i < |q| - 1 ensures Deleted(q, k)[i] == q[if i < k then i else i + 1] {
    }
  }

  lemma ValuesSame(om: OrderMemory, q: seq<nat>, om2: OrderMemory)
    requires InRange(om, q) && SameValues(om, om2)
    ensures InRange(om2, q) && Values(om2, q) == Values(om, q)
  {
  }

  lemma ValuesFilled(om: OrderMemory, q: seq<nat>, k: nat, qty: nat)
    requires InRange(om, q) && NoDuplicates(q) && k < |q|
    ensures Values(WithQty(om, q[k], qty), q) == Values(om, q)[k := Values(om, q)[k].(qty := qty)]
  {
    forall i | 0 <= i < |q| && i != k ensures q[i] != q[k] {
    }
  }

  lemma ValuesElsewhere(om: OrderMemory, q: seq<nat>, x: nat, qty: nat)
    requires InRange(om, q) && x < |om| && x !in q
    ensures Values(WithQty(om, x, qty), q) == Values(om, q)
  {
    forall i | 0 <= i < |q| ensures q[i] != x {
    }
  }

  // ----- the specification's functions at a known position

  lemma {:induction false} PlaceAt(side: Side, s: seq<Order>, o: Order, k: nat)
    requires k <= |s|
    requires forall i :: 0 <= i < k ==> !Better(side, o.price, s[i].price)
    requires k < |s| ==> Better(side, o.price, s[k].price)
    ensures PlacedAt(side, s, o, k)
    decreases k
  {
    if k > 0 {
      PlaceAt(side, s[1..], o, k - 1);
      assert Inserted(s, k, o) == [s[0]] + Inserted(s[1..], k - 1, o);
    } else {
      assert s[..0] + [o] + s[0..] == [o] + s;
    }
  }

  lemma {:induction false} NextPriorityAt(s: seq<Order>, price: int, k: nat)
    requires k <= |s|
    requires forall i :: k <= i < |s| ==> s[i].price != price
    requires k > 0 ==> s[k - 1].price == price
    ensures NextPriority(s, price) == if k == 0 then 1 else s[k - 1].priority + 1
    decreases |s|
  {
    if |s| > k {
      assert s[|s| - 1].price != price;
      NextPriorityAt(s[..|s| - 1], price, k);
    }
  }

  lemma {:induction false} FindAt(s: seq<Order>, k: nat)
    requires k < |s|
    requires forall i :: 0 <= i < k ==> Different(s[i], s[k])
    ensures Find(s, s[k].client, s[k].clientOrderId) == k
  {
    assert forall i :: 0 <= i < k ==> Different(s[i], s[k]);
  }

  /** In a well-formed book a client and an id are found at one place of one side. */
  lemma FoundOnce(b: Book, side: Side, k: nat)
    requires WellFormed(b) && side != Side.INVALID && k < |b.On(side)|
    ensures Find(b.On(side), b.On(side)[k].client, b.On(side)[k].clientOrderId) == k
    ensures Find(b.On(side.Opposite()), b.On(side)[k].client, b.On(side)[k].clientOrderId) == |b.On(side.Opposite())|
  {
    var s, t := b.On(side), b.On(side.Opposite());
    assert forall i :: 0 <= i < k ==> Different(s[i], s[k]);
    FindAt(s, k);
    forall i | 0 <= i < |t| ensures t[i].client != s[k].client || t[i].clientOrderId != s[k].clientOrderId {
      assert if side == BUY then Different(s[k], t[i]) else Different(t[i], s[k]);
    }
  }

  /** One fill, then the rest of the sweep. */
  lemma SweepStep(a: Aggressor, s: seq<Order>, leaves: nat)
    requires leaves > 0 && s != [] && Crosses(a.side, a.price, s[0].price)
    ensures var d, e := Sweep(a, s, leaves), Sweep(a, AfterFill(s, leaves), leaves - Min(leaves, s[0].qty));
            && d.resting == e.resting && d.leaves == e.leaves
            && d.responses == FillResponses(a, s[0], leaves) + e.responses
            && d.updates == FillUpdates(a, s[0], leaves) + e.updates
  {
  }

  /** What was sent so far, followed by what the rest of the sweep sends, is the whole sweep d. */
  predicate OnTrack(
    a: Aggressor, s: seq<Order>, leaves: nat, sent: seq<ClientResponse>, published: seq<MarketUpdate>,
    rs: seq<ClientResponse>, us: seq<MarketUpdate>, d: Swept)
  {
    var rest := Sweep(a, s, leaves);
    && rest.resting == d.resting && rest.leaves == d.leaves
    && sent + rest.responses == rs + d.responses
    && published + rest.updates == us + d.updates
  }

  lemma {:induction false} TrackStarts(
    a: Aggressor, s: seq<Order>, leaves: nat, rs: seq<ClientResponse>, us: seq<MarketUpdate>)
    ensures OnTrack(a, s, leaves, rs, us, rs, us, Sweep(a, s, leaves))
  {
  }

  lemma OneFillOnTrack(
    a: Aggressor, s: seq<Order>, leaves: nat, sent: seq<ClientResponse>, published: seq<MarketUpdate>,
    rs: seq<ClientResponse>, us: seq<MarketUpdate>, d: Swept)
    requires leaves > 0 && s != [] && Crosses(a.side, a.price, s[0].price)
    requires OnTrack(a, s, leaves, sent, published, rs, us, d)
    ensures OnTrack(a, AfterFill(s, leaves), leaves - Min(leaves, s[0].qty), sent + FillResponses(a, s[0], leaves),
                    published + FillUpdates(a, s[0], leaves), rs, us, d)
  {
    SweepStep(a, s, leaves);
    var e := Sweep(a, AfterFill(s, leaves), leaves - Min(leaves, s[0].qty));
    assert (sent + FillResponses(a, s[0], leaves)) + e.responses
           == sent + (FillResponses(a, s[0], leaves) + e.responses);
    assert (published + FillUpdates(a, s[0], leaves)) + e.updates
           == published + (FillUpdates(a, s[0], leaves) + e.updates);
  }

  lemma TrackEnds(
    a: Aggressor, s: seq<Order>, leaves: nat, sent: seq<ClientResponse>, published: seq<MarketUpdate>,
    rs: seq<ClientResponse>, us: seq<MarketUpdate>, d: Swept)
    requires OnTrack(a, s, leaves, sent, published, rs, us, d)
    requires leaves == 0 || s == [] || !Crosses(a.side, a.price, s[0].price)
    ensures s == d.resting && leaves == d.leaves && sent == rs + d.responses && published == us + d.updates
  {
  }

  predicate Positive(s: seq<Order>) {
    forall i :: 0 <= i < |s| ==> s[i].qty > 0
  }

  lemma FillKeepsPositive(s: seq<Order>, leaves: nat)
    requires Positive(s) && s != []
    ensures Positive(AfterFill(s, leaves)) && s[0].qty > 0
  {
  }

  /** The test that ends the loops of the source. */
  lemma NotCrossing(a: Aggressor, p: int)
    requires a.side != Side.INVALID
    ensures Crosses(a.side, a.price, p) <==> !((a.side == BUY && a.price < p) || (a.side == SELL && a.price > p))
  {
  }

  // ----- counting blocks

  function SetOf<T>(q: seq<T>): set<T> {
    set p | p in q
  }

  lemma {:induction false} SetOfSize<T>(q: seq<T>)
    requires NoDuplicates(q)
    ensures |SetOf(q)| == |q|
    decreases |q|
  {
    if q != [] {
      var n := |q| - 1;
      SetOfSize(q[..n]);
      assert SetOf(q) == SetOf(q[..n]) + {q[n]};
      assert q[n] !in SetOf(q[..n]);
    }
  }

  /** The live blocks of a pool are as many as the linked and the spare ones. */
  lemma LiveCount<V>(m: Memory<V>, s: seq<nat>, t: seq<nat>, spare: set<nat>)
    requires Used(m, s, t, spare) && Apart(s, t)
    ensures |LiveBlocks(m)| == |s| + |t| + |spare|
    ensures |FreeBlocks(m)| == |m| - |s| - |t| - |spare|
  {
    SetOfSize(s);
    SetOfSize(t);
    assert LiveBlocks(m) == SetOf(s) + SetOf(t) + spare;
    assert SetOf(s) !! SetOf(t) && (SetOf(s) + SetOf(t)) !! spare;
    FreeAndLive(m);
  }

  // ----- the client table

  function ClientKey(o: Order): (nat, nat) {
    (o.client, o.clientOrderId)
  }

  /** The table's entries are exactly the linked orders, each under its own client and id. */
  ghost predicate IndexedBy(om: OrderMemory, entries: map<(nat, nat), nat>, s: seq<nat>, t: seq<nat>) {
    && (forall p: nat :: p in s || p in t ==>
          p < |om| && ClientKey(OrderAt(om, p)) in entries && entries[ClientKey(OrderAt(om, p))] == p)
    && (forall k :: k in entries ==>
          entries[k] < |om| && (entries[k] in s || entries[k] in t) && ClientKey(OrderAt(om, entries[k])) == k)
  }

  lemma IndexedDelete(
    om: OrderMemory, entries: map<(nat, nat), nat>, s: seq<nat>, t: seq<nat>, k: nat, om2: OrderMemory)
    requires IndexedBy(om, entries, s, t) && k < |s| && s[k] < |om| && Apart(s, t) && SameValues(om, om2)
    ensures IndexedBy(om2, entries - {ClientKey(OrderAt(om, s[k]))}, Deleted(s, k), t)
  {
    DeletedMembers(s, k);
    assert s[k] in s;
  }

  lemma IndexedInsert(
    om: OrderMemory, entries: map<(nat, nat), nat>, s: seq<nat>, t: seq<nat>, k: nat, x: nat, om2: OrderMemory)
    requires IndexedBy(om, entries, s, t) && k <= |s| && x < |om| && SameValues(om, om2)
    requires ClientKey(OrderAt(om, x)) !in entries
    ensures IndexedBy(om2, entries[ClientKey(OrderAt(om, x)) := x], Inserted(s, k, x), t)
  {
    InsertedMembers(s, k, x);
  }

  /** A fill changes no client and no id. */
  lemma IndexedFilled(om: OrderMemory, entries: map<(nat, nat), nat>, s: seq<nat>, t: seq<nat>, x: nat, qty: nat)
    requires IndexedBy(om, entries, s, t) && x < |om|
    ensures IndexedBy(WithQty(om, x, qty), entries, s, t)
  {
    var om2 := WithQty(om, x, qty);
    forall p: nat | p < |om| ensures ClientKey(OrderAt(om2, p)) == ClientKey(OrderAt(om, p)) {
    }
  }

  /** Blocks that are not linked do not matter. */
  lemma IndexedElsewhere(om: OrderMemory, entries: map<(nat, nat), nat>, s: seq<nat>, t: seq<nat>, om2: OrderMemory)
    requires IndexedBy(om, entries, s, t) && |om| == |om2|
    requires forall p: nat :: p in s || p in t ==> p < |om| && OrderAt(om2, p) == OrderAt(om, p)
    ensures IndexedBy(om2, entries, s, t)
  {
  }

  lemma IndexedSwap(om: OrderMemory, entries: map<(nat, nat), nat>, s: seq<nat>, t: seq<nat>)
    requires IndexedBy(om, entries, s, t)
    ensures IndexedBy(om, entries, t, s)
  {
  }

  // ----- prices, row by row

  lemma PriceOfLocated(
    lm: LevelMemory, om: OrderMemory, side: Side, head: Ptr, rows: seq<Row>, lo: nat, hi: nat, p: nat)
    returns (i: nat)
    requires SideRep(lm, om, side, head, rows) && lo <= hi <= |rows| && p in Flat(rows[lo..hi])
    ensures lo <= i < hi && p < |om| && rows[i].level < |lm|
    ensures OrderAt(om, p).side == side && OrderAt(om, p).price == PriceAt(lm, rows[i].level)
  {
    var a, b := Locate(rows[lo..hi], p);
    i := lo + a;
    assert RowRep(lm, om, side, rows[i]);
  }

  /** No row in front of k is worse than price, every row from k on is. */
  ghost predicate Gap(lm: LevelMemory, side: Side, rows: seq<Row>, price: int, k: nat) {
    && k <= |rows|
    && (forall i :: 0 <= i < |rows| ==> rows[i].level < |lm|)
    && (forall i :: 0 <= i < k ==> !Better(side, price, PriceAt(lm, rows[i].level)))
    && (forall i :: k <= i < |rows| ==> Better(side, price, PriceAt(lm, rows[i].level)))
  }

  lemma GapPrices(lm: LevelMemory, om: OrderMemory, side: Side, head: Ptr, rows: seq<Row>, price: int, k: nat)
    requires SideRep(lm, om, side, head, rows) && Gap(lm, side, rows, price, k)
    ensures forall p :: p in Flat(rows[..k]) ==> p < |om| && !Better(side, price, OrderAt(om, p).price)
    ensures forall p :: p in Flat(rows[k..]) ==> p < |om| && Better(side, price, OrderAt(om, p).price)
  {
    forall p | p in Flat(rows[..k]) ensures p < |om| && !Better(side, price, OrderAt(om, p).price) {
      var i := PriceOfLocated(lm, om, side, head, rows, 0, k, p);
    }
    forall p | p in Flat(rows[k..]) ensures p < |om| && Better(side, price, OrderAt(om, p).price) {
      assert rows[k..|rows|] == rows[k..];
      var i := PriceOfLocated(lm, om, side, head, rows, k, |rows|, p);
    }
  }

  lemma {:induction false} PricesAroundGap(
    lm: LevelMemory, om: OrderMemory, side: Side, head: Ptr, rows: seq<Row>, price: int, k: nat, n: nat)
    requires SideRep(lm, om, side, head, rows) && InRange(om, Flat(rows)) && Gap(lm, side, rows, price, k)
    requires n == |Flat(rows[..k])|
    ensures n <= |Flat(rows)|
    ensures forall j :: 0 <= j < n ==> !Better(side, price, Values(om, Flat(rows))[j].price)
    ensures forall j :: n <= j < |Flat(rows)| ==> Better(side, price, Values(om, Flat(rows))[j].price)
  {
    GapPrices(lm, om, side, head, rows, price, k);
    var front, back := Flat(rows[..k]), Flat(rows[k..]);
    assert Flat(rows) == front + back by {
      FlatConcat(rows[..k], rows[k..]);
      assert rows == rows[..k] + rows[k..];
    }
    forall j | 0 <= j < |Flat(rows)|
      ensures if j < n then !Better(side, price, OrderAt(om, Flat(rows)[j]).price)
              else Better(side, price, OrderAt(om, Flat(rows)[j]).price)
    {
      assert if j < n then front[j] in front else back[j - n] in back;
    }
  }

  /** A new level at rank k: the order goes to its gap, with priority 1. */
  lemma {:induction false} PlaceInNewRow(
    lm: LevelMemory, om: OrderMemory, side: Side, head: Ptr, rows: seq<Row>, o: Order, k: nat)
    requires side != Side.INVALID && SideRep(lm, om, side, head, rows) && InRange(om, Flat(rows))
    requires Rank(lm, side, Levels(rows), o.price, k)
    ensures Position(rows, k, 0) <= |Flat(rows)|
    ensures PlacedAt(side, Values(om, Flat(rows)), o, Position(rows, k, 0))
    ensures NextPriority(Values(om, Flat(rows)), o.price) == 1
  {
    assert forall i :: 0 <= i < |rows| ==> Levels(rows)[i] == rows[i].level;
    PricesAroundGap(lm, om, side, head, rows, o.price, k, Position(rows, k, 0));
    PlaceAt(side, Values(om, Flat(rows)), o, Position(rows, k, 0));
    forall j | 0 <= j < |Flat(rows)| ensures Values(om, Flat(rows))[j].price != o.price {
      assert Flat(rows)[j] in Flat(rows[0..|rows|]) by {
        assert rows[0..|rows|] == rows;
      }
      var i := PriceOfLocated(lm, om, side, head, rows, 0, |rows|, Flat(rows)[j]);
    }
    NextPriorityAt(Values(om, Flat(rows)), o.price, 0);
  }

  lemma RowIsGap(lm: LevelMemory, om: OrderMemory, side: Side, head: Ptr, rows: seq<Row>, price: int, i: nat)
    requires side != Side.INVALID && SideRep(lm, om, side, head, rows)
    requires i < |rows| && rows[i].level < |lm| && price == PriceAt(lm, rows[i].level)
    ensures Gap(lm, side, rows, price, i + 1)
  {
    assert forall j :: 0 <= j < |rows| ==> Levels(rows)[j] == rows[j].level;
  }

  /** The prices around the place behind the last order of row i. */
  lemma PricesBehindRow(lm: LevelMemory, om: OrderMemory, side: Side, head: Ptr, rows: seq<Row>, price: int, i: nat)
    returns (n: nat)
    requires side != Side.INVALID && SideRep(lm, om, side, head, rows) && InRange(om, Flat(rows))
    requires i < |rows| && rows[i].level < |lm| && price == PriceAt(lm, rows[i].level)
    ensures n == Position(rows, i, |rows[i].queue|) <= |Flat(rows)|
    ensures forall j :: 0 <= j < n ==> !Better(side, price, Values(om, Flat(rows))[j].price)
    ensures forall j :: n <= j < |Flat(rows)| ==> Better(side, price, Values(om, Flat(rows))[j].price)
  {
    n := Position(rows, i, |rows[i].queue|);
    assert rows[..i + 1] == rows[..i] + [rows[i]];
    FlatConcat(rows[..i], [rows[i]]);
    FlatOne(rows[i]);
    RowIsGap(lm, om, side, head, rows, price, i);
    PricesAroundGap(lm, om, side, head, rows, price, i + 1, n);
  }

  /** An existing level: the order goes behind its last one. */
  lemma {:induction false} PlaceInRow(
    lm: LevelMemory, om: OrderMemory, side: Side, head: Ptr, rows: seq<Row>, o: Order, i: nat)
    requires side != Side.INVALID && SideRep(lm, om, side, head, rows) && InRange(om, Flat(rows))
    requires i < |rows| && rows[i].level < |lm| && o.price == PriceAt(lm, rows[i].level)
    ensures Position(rows, i, |rows[i].queue|) <= |Flat(rows)|
    ensures PlacedAt(side, Values(om, Flat(rows)), o, Position(rows, i, |rows[i].queue|))
  {
    var n := PricesBehindRow(lm, om, side, head, rows, o.price, i);
    PlaceAt(side, Values(om, Flat(rows)), o, n);
  }

  /** Its priority is one more than that last order's. */
  lemma {:induction false} PriorityInRow(
    lm: LevelMemory, om: OrderMemory, side: Side, head: Ptr, rows: seq<Row>, price: int, i: nat)
    requires side != Side.INVALID && SideRep(lm, om, side, head, rows) && InRange(om, Flat(rows))
    requires i < |rows| && rows[i].level < |lm| && price == PriceAt(lm, rows[i].level)
    ensures RowRep(lm, om, side, rows[i])
    ensures NextPriority(Values(om, Flat(rows)), price) == OrderAt(om, rows[i].queue[|rows[i].queue| - 1]).priority + 1
  {
    var n := PricesBehindRow(lm, om, side, head, rows, price, i);
    var last := |rows[i].queue| - 1;
    assert RowRep(lm, om, side, rows[i]);
    FlatAt(rows, i, last);
    assert Values(om, Flat(rows))[n - 1] == OrderAt(om, rows[i].queue[last]);
    NextPriorityAt(Values(om, Flat(rows)), price, n);
  }

  function LevelPrices(lm: LevelMemory, levels: seq<nat>): seq<int>
    requires InRange(lm, levels)
  {
    seq(|levels|, i requires 0 <= i < |levels| => PriceAt(lm, levels[i]))
  }

  lemma {:induction false} PriceOfOrder(lm: LevelMemory, om: OrderMemory, side: Side, head: Ptr, rows: seq<Row>, k: nat)
    requires SideRep(lm, om, side, head, rows) && InRange(om, Flat(rows)) && k < |Flat(rows)|
    ensures InRange(lm, Levels(rows)) && Values(om, Flat(rows))[k].price in LevelPrices(lm, Levels(rows))
  {
    assert Flat(rows)[k] in Flat(rows);
    var i, j := Locate(rows, Flat(rows)[k]);
    assert RowRep(lm, om, side, rows[i]);
    assert LevelPrices(lm, Levels(rows))[i] == PriceAt(lm, Levels(rows)[i]);
  }

  lemma {:induction false} PriceOfLevel(lm: LevelMemory, om: OrderMemory, side: Side, head: Ptr, rows: seq<Row>, i: nat)
    requires SideRep(lm, om, side, head, rows) && InRange(om, Flat(rows)) && i < |rows|
    ensures rows[i].level < |lm| && PriceAt(lm, rows[i].level) in Prices(Values(om, Flat(rows)))
  {
    assert RowRep(lm, om, side, rows[i]);
    FlatAt(rows, i, 0);
    assert Values(om, Flat(rows))[Position(rows, i, 0)].price == PriceAt(lm, rows[i].level);
  }

  /** The last order of a side stands in its last row. */
  lemma {:induction false} LastOfSide(lm: LevelMemory, om: OrderMemory, side: Side, head: Ptr, rows: seq<Row>)
    requires SideRep(lm, om, side, head, rows) && InRange(om, Flat(rows)) && rows != []
    ensures Flat(rows) != [] && InRange(lm, Levels(rows))
    ensures Values(om, Flat(rows))[|Flat(rows)| - 1].price == PriceAt(lm, Levels(rows)[|rows| - 1])
  {
    var n := |rows| - 1;
    assert RowRep(lm, om, side, rows[n]);
    FlatAround(rows, n);
    assert Flat(rows[n + 1..]) == [];
    FlatAt(rows, n, |rows[n].queue| - 1);
  }

  lemma PriceAmong(s: seq<Order>, i: nat)
    requires i < |s|
    ensures s[i].price in Prices(s)
  {
  }

  /** A side has as many levels as its orders have prices. */
  lemma {:induction false} LevelsArePrices(lm: LevelMemory, om: OrderMemory, side: Side, head: Ptr, rows: seq<Row>)
    requires SideRep(lm, om, side, head, rows) && InRange(om, Flat(rows))
    ensures |Prices(Values(om, Flat(rows)))| == |rows|
  {
    hide RowRep;
    var ps := LevelPrices(lm, Levels(rows));
    forall x | x in Prices(Values(om, Flat(rows))) ensures x in SetOf(ps) {
      var k :| 0 <= k < |Flat(rows)| && Values(om, Flat(rows))[k].price == x;
      PriceOfOrder(lm, om, side, head, rows, k);
    }
    forall x | x in SetOf(ps) ensures x in Prices(Values(om, Flat(rows))) {
      var i :| 0 <= i < |ps| && ps[i] == x;
      PriceOfLevel(lm, om, side, head, rows, i);
    }
    assert Prices(Values(om, Flat(rows))) == SetOf(ps);
    SetOfSize(ps);
  }
}
