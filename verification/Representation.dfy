/** When the linked levels, the linked queues, the price table and the pools describe one book. */
module Representation {
  import opened Types
  import opened BookSpec
  import opened MemPools
  import opened Rings
  import opened Ladder
  import opened LevelList

  type OrderMemory = Memory<Order>

  function OrderAt(om: OrderMemory, p: nat): Order
    requires p < |om|
  {
    om[p].value.data
  }

  function Values(om: OrderMemory, q: seq<nat>): (s: seq<Order>)
    requires InRange(om, q)
    ensures |s| == |q|
  {
    seq(|q|, i requires 0 <= i < |q| => OrderAt(om, q[i]))
  }

  /** A level block, and the circular queue of its orders. */
  ghost predicate RowRep(lm: LevelMemory, om: OrderMemory, side: Side, r: Row) {
    && r.level < |lm| && r.queue != [] && Ring(om, r.queue)
    && lm[r.level].value.data.first == r.queue[0]
    && (forall j :: 0 <= j < |r.queue| ==>
          && OrderAt(om, r.queue[j]).side == side
          && OrderAt(om, r.queue[j]).price == PriceAt(lm, r.level))
  }

  ghost predicate SideRep(lm: LevelMemory, om: OrderMemory, side: Side, head: Ptr, rows: seq<Row>) {
    && LevelChain(lm, side, head, Levels(rows))
    && (forall i :: 0 <= i < |rows| ==> RowRep(lm, om, side, rows[i]))
  }

  /** No block is in two places. */
  ghost predicate Apart(s: seq<nat>, t: seq<nat>) {
    && NoDuplicates(s) && NoDuplicates(t)
    && (forall p :: p in s ==> p !in t)
  }

  /** The live blocks are the linked ones and the spare ones (allocated, not linked). */
  ghost predicate Used<V>(m: Memory<V>, s: seq<nat>, t: seq<nat>, spare: set<nat>) {
    && (forall p: nat :: p < |m| ==> (!m[p].isFree <==> p in s || p in t || p in spare))
    && (forall p: nat :: p in spare ==> p < |m| && p !in s && p !in t)
    && (forall p: nat :: p in s || p in t ==> p < |m|)
  }

  /** The table finds every level by its price, and holds nothing else. */
  ghost predicate Tabled(lm: LevelMemory, table: seq<Ptr>, s: seq<nat>, t: seq<nat>) {
    && |table| == ME_MAX_PRICE_LEVELS
    && (forall p: nat :: p in s || p in t ==> p < |lm| && table[PriceToIndex(PriceAt(lm, p))] == p)
    && (forall k :: 0 <= k < |table| && table[k] != NULL ==>
          0 <= table[k] < |lm| && (table[k] in s || table[k] in t) && PriceToIndex(PriceAt(lm, table[k])) == k)
  }

  /** Everything the book's structures say, seen from one side. */
  ghost predicate Whole(
    side: Side, lm: LevelMemory, om: OrderMemory, table: seq<Ptr>, head: Ptr, rows: seq<Row>, otherHead: Ptr,
    others: seq<Row>, spareLevels: set<nat>, spareOrders: set<nat>)
  {
    && SideRep(lm, om, side, head, rows) && SideRep(lm, om, side.Opposite(), otherHead, others)
    && Apart(Levels(rows), Levels(others)) && Apart(Flat(rows), Flat(others))
    && Used(lm, Levels(rows), Levels(others), spareLevels) && Used(om, Flat(rows), Flat(others), spareOrders)
    && Tabled(lm, table, Levels(rows), Levels(others))
  }

  lemma WholeSwap(
    side: Side, lm: LevelMemory, om: OrderMemory, table: seq<Ptr>, head: Ptr, rows: seq<Row>, otherHead: Ptr,
    others: seq<Row>, spareLevels: set<nat>, spareOrders: set<nat>)
    requires side != Side.INVALID && Whole(side, lm, om, table, head, rows, otherHead, others, spareLevels, spareOrders)
    ensures Whole(side.Opposite(), lm, om, table, otherHead, others, head, rows, spareLevels, spareOrders)
  {
  }

  lemma WholeEmpty(lm: LevelMemory, om: OrderMemory, table: seq<Ptr>)
    requires |table| == ME_MAX_PRICE_LEVELS && forall k :: 0 <= k < |table| ==> table[k] == NULL
    requires forall p: nat :: p < |lm| ==> lm[p].isFree
    requires forall p: nat :: p < |om| ==> om[p].isFree
    ensures Whole(BUY, lm, om, table, NULL, [], NULL, [], {}, {})
  {
    assert Levels([]) == [];
  }

  // ----- frames

  predicate SameAt<V(==)>(m: Memory<V>, q: seq<nat>, m2: Memory<V>) {
    && |m| == |m2|
    && (forall p :: p in q && p < |m| ==> m2[p].value == m[p].value)
  }

  lemma RowFrame(lm: LevelMemory, om: OrderMemory, side: Side, r: Row, lm2: LevelMemory, om2: OrderMemory)
    requires RowRep(lm, om, side, r) && SameAt(om, r.queue, om2)
    requires |lm2| == |lm| && lm2[r.level].value.data == lm[r.level].value.data
    ensures RowRep(lm2, om2, side, r)
  {
    RingFrame(om, r.queue, om2);
    assert forall j :: 0 <= j < |r.queue| ==> r.queue[j] in r.queue;
  }

  lemma {:induction false} RowsFrame(
    lm: LevelMemory, om: OrderMemory, side: Side, rows: seq<Row>, lm2: LevelMemory, om2: OrderMemory)
    requires forall i :: 0 <= i < |rows| ==> RowRep(lm, om, side, rows[i])
    requires SameAt(om, Flat(rows), om2) && SameAt(lm, Levels(rows), lm2)
    ensures forall i :: 0 <= i < |rows| ==> RowRep(lm2, om2, side, rows[i])
  {
    forall i | 0 <= i < |rows| ensures RowRep(lm2, om2, side, rows[i]) {
      FlatAround(rows, i);
      assert Levels(rows)[i] in Levels(rows);
      RowFrame(lm, om, side, rows[i], lm2, om2);
    }
  }

  lemma ChainFrame(lm: LevelMemory, side: Side, head: Ptr, levels: seq<nat>, lm2: LevelMemory)
    requires LevelChain(lm, side, head, levels) && SameAt(lm, levels, lm2)
    ensures LevelChain(lm2, side, head, levels)
  {
    RingFrame(lm, levels, lm2);
    assert forall i :: 0 <= i < |levels| ==> levels[i] in levels;
  }

  lemma {:induction false} SideFrame(
    lm: LevelMemory, om: OrderMemory, side: Side, head: Ptr, rows: seq<Row>, lm2: LevelMemory, om2: OrderMemory)
    requires SideRep(lm, om, side, head, rows)
    requires SameAt(lm, Levels(rows), lm2) && SameAt(om, Flat(rows), om2)
    ensures SideRep(lm2, om2, side, head, rows)
  {
    ChainFrame(lm, side, head, Levels(rows), lm2);
    RowsFrame(lm, om, side, rows, lm2, om2);
  }

  /** Everything linked is in range. */
  lemma {:induction false} SideInRange(lm: LevelMemory, om: OrderMemory, side: Side, head: Ptr, rows: seq<Row>)
    requires SideRep(lm, om, side, head, rows)
    ensures InRange(lm, Levels(rows)) && InRange(om, Flat(rows))
  {
    forall k | 0 <= k < |Flat(rows)| ensures Flat(rows)[k] < |om| {
      var i, j := Locate(rows, Flat(rows)[k]);
      assert RowRep(lm, om, side, rows[i]);
    }
  }

  // ----- allocating and releasing blocks

  lemma SpareOrder(
    side: Side, lm: LevelMemory, om: OrderMemory, table: seq<Ptr>, head: Ptr, rows: seq<Row>, otherHead: Ptr,
    others: seq<Row>, x: nat, node: Node<Order>)
    requires Whole(side, lm, om, table, head, rows, otherHead, others, {}, {})
    requires x < |om| && om[x].isFree
    ensures Whole(side, lm, om[x := ObjectBlock(node, false)], table, head, rows, otherHead, others, {}, {x})
  {
    var om2 := om[x := ObjectBlock(node, false)];
    assert x !in Flat(rows) && x !in Flat(others);
    SideFrame(lm, om, side, head, rows, lm, om2);
    SideFrame(lm, om, side.Opposite(), otherHead, others, lm, om2);
  }

  lemma ReleaseOrder(
    side: Side, lm: LevelMemory, om: OrderMemory, table: seq<Ptr>, head: Ptr, rows: seq<Row>, otherHead: Ptr,
    others: seq<Row>, x: nat)
    requires Whole(side, lm, om, table, head, rows, otherHead, others, {}, {x})
    ensures x < |om| && !om[x].isFree
    ensures Whole(side, lm, om[x := om[x].(isFree := true)], table, head, rows, otherHead, others, {}, {})
  {
    var om2 := om[x := om[x].(isFree := true)];
    SideFrame(lm, om, side, head, rows, lm, om2);
    SideFrame(lm, om, side.Opposite(), otherHead, others, lm, om2);
  }

  lemma SpareLevel(
    side: Side, lm: LevelMemory, om: OrderMemory, table: seq<Ptr>, head: Ptr, rows: seq<Row>, otherHead: Ptr,
    others: seq<Row>, spareOrders: set<nat>, x: nat, node: Node<PriceLevel>)
    requires Whole(side, lm, om, table, head, rows, otherHead, others, {}, spareOrders)
    requires x < |lm| && lm[x].isFree
    ensures Whole(side, lm[x := ObjectBlock(node, false)], om, table, head, rows, otherHead, others, {x}, spareOrders)
  {
    var lm2 := lm[x := ObjectBlock(node, false)];
    assert x !in Levels(rows) && x !in Levels(others);
    SideFrame(lm, om, side, head, rows, lm2, om);
    SideFrame(lm, om, side.Opposite(), otherHead, others, lm2, om);
    TabledFrame(lm, table, Levels(rows), Levels(others), lm2);
  }

  lemma TabledFrame(lm: LevelMemory, table: seq<Ptr>, s: seq<nat>, t: seq<nat>, lm2: LevelMemory)
    requires Tabled(lm, table, s, t) && SameAt(lm, s, lm2) && SameAt(lm, t, lm2)
    ensures Tabled(lm2, table, s, t)
  {
  }

  // ----- bookkeeping of blocks

  /** A spare block becomes a linked one. */
  lemma UsedInsert<V>(m: Memory<V>, s: seq<nat>, t: seq<nat>, k: nat, x: nat, m2: Memory<V>)
    requires Used(m, s, t, {x}) && Apart(s, t) && k <= |s| && SameData(m, m2)
    ensures Used(m2, Inserted(s, k, x), t, {}) && Apart(Inserted(s, k, x), t)
  {
    InsertedMembers(s, k, x);
  }

  /** A linked block becomes a spare one. */
  lemma UsedDelete<V>(m: Memory<V>, s: seq<nat>, t: seq<nat>, k: nat, m2: Memory<V>)
    requires Used(m, s, t, {}) && Apart(s, t) && k < |s| && SameData(m, m2) && s[k] < |m|
    ensures Used(m2, Deleted(s, k), t, {s[k]}) && Apart(Deleted(s, k), t)
  {
    DeletedMembers(s, k);
  }

  // ----- one more order at an existing level

  lemma RowAppend(lm: LevelMemory, om: OrderMemory, side: Side, r: Row, x: nat)
    requires RowRep(lm, om, side, r) && x < |om| && x !in r.queue
    requires OrderAt(om, x).side == side && OrderAt(om, x).price == PriceAt(lm, r.level)
    ensures InRange(om, r.queue)
    ensures var om2 := SplicedIn(om, r.queue[|r.queue| - 1], x, r.queue[0], true);
            RowRep(lm, om2, side, r.(queue := r.queue + [x])) && SameData(om, om2)
                && SameOutside(om, r.queue + [x], om2)
  {
    var q := r.queue;
    SplicedRing(om, q, |q|, x);
    assert Inserted(q, |q|, x) == q + [x];
  }

  /** The circle of one row changes; the other rows share no block with it. */
  lemma {:induction false} RowsUpdate(
    lm: LevelMemory, om: OrderMemory, side: Side, rows: seq<Row>, i: nat, rows2: seq<Row>, x: nat, lm2: LevelMemory,
    om2: OrderMemory)
    requires forall j :: 0 <= j < |rows| ==> RowRep(lm, om, side, rows[j])
    requires i < |rows| == |rows2| && rows2 == rows[i := rows2[i]] && NoDuplicates(Flat(rows))
             && NoDuplicates(Levels(rows))
    requires x !in Flat(rows) || x in rows[i].queue
    requires SameOutside(om, rows[i].queue + [x], om2) && RowRep(lm2, om2, side, rows2[i])
    requires |lm2| == |lm| && forall p :: 0 <= p < |lm| && p != rows[i].level ==> lm2[p] == lm[p]
    ensures forall j :: 0 <= j < |rows| ==> RowRep(lm2, om2, side, rows2[j])
  {
    forall j | 0 <= j < |rows| ensures RowRep(lm2, om2, side, rows2[j]) {
      if j != i {
        assert Levels(rows)[j] != Levels(rows)[i];
        forall p | p in rows[j].queue ensures p !in rows[i].queue && p != x {
          RowsShareNothing(rows, i, j, p);
        }
        RowFrame(lm, om, side, rows[j], lm2, om2);
      }
    }
  }

  lemma {:induction false} RowsShareNothing(rows: seq<Row>, i: nat, j: nat, p: nat)
    requires i < |rows| && j < |rows| && i != j && NoDuplicates(Flat(rows)) && p in rows[j].queue
    ensures p !in rows[i].queue && p in Flat(rows)
  {
    InFlat(rows, j, p);
    if p in rows[i].queue {
      var a :| 0 <= a < |rows[i].queue| && rows[i].queue[a] == p;
      var b :| 0 <= b < |rows[j].queue| && rows[j].queue[b] == p;
      FlatAt(rows, i, a);
      FlatAt(rows, j, b);
      PositionsApart(rows, i, a, j, b);
    }
  }

  lemma PositionsApart(rows: seq<Row>, i: nat, a: nat, j: nat, b: nat)
    requires i < |rows| && j < |rows| && i != j && a < |rows[i].queue| && b < |rows[j].queue|
    ensures Position(rows, i, a) != Position(rows, j, b)
  {
    if i < j {
      FlatAround(rows[..j], i);
      assert rows[..j][..i] == rows[..i];
    } else {
      FlatAround(rows[..i], j);
      assert rows[..i][..j] == rows[..j];
    }
  }

  /** The queue of row i with x linked behind its last order. */
  function AppendedMem(om: OrderMemory, r: Row, x: nat): OrderMemory
    requires r.queue != [] && InRange(om, r.queue) && x < |om|
  {
    SplicedIn(om, r.queue[|r.queue| - 1], x, r.queue[0], true)
  }

  lemma {:induction false} AppendSide(
    side: Side, lm: LevelMemory, om: OrderMemory, head: Ptr, rows: seq<Row>, i: nat, x: nat)
    requires SideRep(lm, om, side, head, rows) && NoDuplicates(Flat(rows)) && NoDuplicates(Levels(rows))
    requires i < |rows| && x < |om| && x !in Flat(rows)
    requires OrderAt(om, x).side == side && OrderAt(om, x).price == PriceAt(lm, rows[i].level)
    ensures RowRep(lm, om, side, rows[i])
    ensures SideRep(lm, AppendedMem(om, rows[i], x), side, head, Appended(rows, i, x))
    ensures SameData(om, AppendedMem(om, rows[i], x))
    ensures SameOutside(om, rows[i].queue + [x], AppendedMem(om, rows[i], x))
  {
    if x in rows[i].queue {
      InFlat(rows, i, x);
    }
    RowAppend(lm, om, side, rows[i], x);
    RowsUpdate(lm, om, side, rows, i, Appended(rows, i, x), x, lm, AppendedMem(om, rows[i], x));
    assert Levels(Appended(rows, i, x)) == Levels(rows);
  }

  /** Putting a book back together after an order was linked into one side. */
  lemma {:induction false} JoinLinked(
    side: Side, lm: LevelMemory, om: OrderMemory, table: seq<Ptr>, head: Ptr, rows: seq<Row>, otherHead: Ptr,
    others: seq<Row>, rows2: seq<Row>, k: nat, x: nat, om2: OrderMemory)
    requires Whole(side, lm, om, table, head, rows, otherHead, others, {}, {x})
    requires SideRep(lm, om2, side, head, rows2) && SideRep(lm, om2, side.Opposite(), otherHead, others)
    requires Levels(rows2) == Levels(rows) && k <= |Flat(rows)| && Flat(rows2) == Inserted(Flat(rows), k, x)
    requires SameData(om, om2)
    ensures Whole(side, lm, om2, table, head, rows2, otherHead, others, {}, {})
  {
    UsedInsert(om, Flat(rows), Flat(others), k, x, om2);
  }

  lemma AppendOrder(
    side: Side, lm: LevelMemory, om: OrderMemory, table: seq<Ptr>, head: Ptr, rows: seq<Row>, otherHead: Ptr,
    others: seq<Row>, i: nat, x: nat)
    requires Whole(side, lm, om, table, head, rows, otherHead, others, {}, {x})
    requires i < |rows| && x < |om|
    requires OrderAt(om, x).side == side && OrderAt(om, x).price == PriceAt(lm, rows[i].level)
    ensures RowRep(lm, om, side, rows[i]) && SameData(om, AppendedMem(om, rows[i], x))
    ensures Whole(side, lm, AppendedMem(om, rows[i], x), table, head, Appended(rows, i, x), otherHead, others, {}, {})
  {
    assert x in {x};
    AppendSide(side, lm, om, head, rows, i, x);
    var om2 := AppendedMem(om, rows[i], x);
    OthersFrame(side, lm, om, rows, otherHead, others, i, x, om2);
    FlatAppend(rows, i, x);
    JoinLinked(side, lm, om, table, head, rows, otherHead, others, Appended(rows, i, x),
               Position(rows, i, |rows[i].queue|), x, om2);
  }

  /** The opposite side does not see a change in one queue. */
  lemma {:induction false} OthersFrame(
    side: Side, lm: LevelMemory, om: OrderMemory, rows: seq<Row>, otherHead: Ptr, others: seq<Row>, i: nat, x: nat,
    om2: OrderMemory)
    requires SideRep(lm, om, side.Opposite(), otherHead, others)
    requires Apart(Flat(rows), Flat(others)) && i < |rows| && x !in Flat(others)
    requires SameOutside(om, rows[i].queue + [x], om2)
    ensures SideRep(lm, om2, side.Opposite(), otherHead, others)
  {
    forall p | p in Flat(others) ensures p !in rows[i].queue + [x] {
      if p in rows[i].queue {
        InFlat(rows, i, p);
      }
    }
    SideFrame(lm, om, side.Opposite(), otherHead, others, lm, om2);
  }

  // ----- a new level

  function SelfLinked(om: OrderMemory, x: nat): OrderMemory
    requires x < |om|
  {
    WithPrev(WithNext(om, x, x), x, x)
  }

  lemma {:induction false} NewRowSide(
    side: Side, lm: LevelMemory, om: OrderMemory, rows: seq<Row>, k: nat, level: nat, x: nat, lm2: LevelMemory,
    head2: Ptr)
    requires forall i :: 0 <= i < |rows| ==> RowRep(lm, om, side, rows[i])
    requires k <= |rows| && x < |om| && x !in Flat(rows) && level < |lm|
    requires lm[level].value.data == PriceLevel(side, OrderAt(om, x).price, x) && OrderAt(om, x).side == side
    requires SameData(lm, lm2) && LevelChain(lm2, side, head2, Inserted(Levels(rows), k, level))
    ensures SideRep(lm2, SelfLinked(om, x), side, head2, Inserted(rows, k, Row(level, [x])))
  {
    var om2 := SelfLinked(om, x);
    var rows2 := Inserted(rows, k, Row(level, [x]));
    LevelsInserted(rows, k, Row(level, [x]));
    forall i | 0 <= i < |rows2| ensures RowRep(lm2, om2, side, rows2[i]) {
      if i == k {
        assert After([x], 0) == x;
      } else {
        var j := if i < k then i else i - 1;
        assert rows2[i] == rows[j];
        FlatAround(rows, j);
        RowFrame(lm, om, side, rows[j], lm2, om2);
      }
    }
  }

  /** Linking a spare order to itself disturbs nothing. */
  lemma SpareSelfLinked(
    side: Side, lm: LevelMemory, om: OrderMemory, table: seq<Ptr>, head: Ptr, rows: seq<Row>, otherHead: Ptr,
    others: seq<Row>, x: nat)
    requires Whole(side, lm, om, table, head, rows, otherHead, others, {}, {x}) && x < |om|
    ensures Whole(side, lm, SelfLinked(om, x), table, head, rows, otherHead, others, {}, {x})
  {
    var om2 := SelfLinked(om, x);
    assert x in {x};
    SideFrame(lm, om, side, head, rows, lm, om2);
    SideFrame(lm, om, side.Opposite(), otherHead, others, lm, om2);
  }

  lemma TabledInsert(lm: LevelMemory, table: seq<Ptr>, s: seq<nat>, t: seq<nat>, k: nat, x: nat, lm2: LevelMemory)
    requires Tabled(lm, table, s, t) && k <= |s| && x < |lm| && SameData(lm, lm2)
    requires table[PriceToIndex(PriceAt(lm, x))] == NULL
    ensures Tabled(lm2, table[PriceToIndex(PriceAt(lm, x)) := x], Inserted(s, k, x), t)
  {
    InsertedMembers(s, k, x);
  }

  lemma {:induction false} NewRowOthers(
    side: Side, lm: LevelMemory, om: OrderMemory, rows: seq<Row>, otherHead: Ptr, others: seq<Row>, level: nat,
    x: nat, lm2: LevelMemory)
    requires SideRep(lm, om, side.Opposite(), otherHead, others) && Apart(Levels(rows), Levels(others))
    requires x < |om| && x !in Flat(others) && level !in Levels(others)
    requires SameOutside(lm, Levels(rows) + [level], lm2)
    ensures SideRep(lm2, SelfLinked(om, x), side.Opposite(), otherHead, others)
  {
    SideFrame(lm, om, side.Opposite(), otherHead, others, lm2, SelfLinked(om, x));
  }

  lemma {:induction false} JoinNewRow(
    side: Side, lm: LevelMemory, om: OrderMemory, table: seq<Ptr>, head: Ptr, rows: seq<Row>, otherHead: Ptr,
    others: seq<Row>, k: nat, level: nat, x: nat, lm2: LevelMemory, om2: OrderMemory, head2: Ptr, rows2: seq<Row>)
    requires Whole(side, lm, om, table, head, rows, otherHead, others, {level}, {x})
    requires k <= |rows| && level < |lm| && table[PriceToIndex(PriceAt(lm, level))] == NULL
    requires SideRep(lm2, om2, side, head2, rows2) && SideRep(lm2, om2, side.Opposite(), otherHead, others)
    requires Levels(rows2) == Inserted(Levels(rows), k, level)
    requires Position(rows, k, 0) <= |Flat(rows)| && Flat(rows2) == Inserted(Flat(rows), Position(rows, k, 0), x)
    requires SameData(lm, lm2) && SameData(om, om2)
    ensures Whole(side, lm2, om2, table[PriceToIndex(PriceAt(lm, level)) := level], head2, rows2,
                  otherHead, others, {}, {})
  {
    UsedInsert(om, Flat(rows), Flat(others), Position(rows, k, 0), x, om2);
    UsedInsert(lm, Levels(rows), Levels(others), k, level, lm2);
    TabledInsert(lm, table, Levels(rows), Levels(others), k, level, lm2);
  }

  lemma NewRow(
    side: Side, lm: LevelMemory, om: OrderMemory, table: seq<Ptr>, head: Ptr, rows: seq<Row>, otherHead: Ptr,
    others: seq<Row>, k: nat, level: nat, x: nat, lm2: LevelMemory, head2: Ptr)
    requires Whole(side, lm, om, table, head, rows, otherHead, others, {level}, {x})
    requires k <= |rows| && x < |om| && level < |lm| && table[PriceToIndex(PriceAt(lm, level))] == NULL
    requires lm[level].value.data == PriceLevel(side, OrderAt(om, x).price, x) && OrderAt(om, x).side == side
    requires SameData(lm, lm2) && SameOutside(lm, Levels(rows) + [level], lm2)
    requires LevelChain(lm2, side, head2, Inserted(Levels(rows), k, level))
    ensures Whole(side, lm2, SelfLinked(om, x), table[PriceToIndex(PriceAt(lm, level)) := level],
                  head2, Inserted(rows, k, Row(level, [x])), otherHead, others, {}, {})
  {
    assert x in {x} && level in {level};
    var rows2 := Inserted(rows, k, Row(level, [x]));
    NewRowSide(side, lm, om, rows, k, level, x, lm2, head2);
    NewRowOthers(side, lm, om, rows, otherHead, others, level, x, lm2);
    LevelsInserted(rows, k, Row(level, [x]));
    FlatNewRow(rows, k, level, x);
    JoinNewRow(side, lm, om, table, head, rows, otherHead, others, k, level, x, lm2, SelfLinked(om, x), head2, rows2);
  }

  // ----- one order less at a level

  /** The queue of row r without its member j, whose own links become null. */
  function DroppedMem(om: OrderMemory, r: Row, j: nat): OrderMemory
    requires j < |r.queue| && InRange(om, r.queue)
  {
    var m := Unlinked(om, GapLeft(r.queue, j), After(r.queue, j));
    WithNext(WithPrev(m, r.queue[j], NULL), r.queue[j], NULL)
  }

  /** The level points to the next order when its first one goes. */
  function DroppedLevels(lm: LevelMemory, r: Row, j: nat): LevelMemory
    requires j < |r.queue| && r.level < |lm|
  {
    if j > 0 then lm
    else
      var node := lm[r.level].value;
      lm[r.level := lm[r.level].(value := node.(data := node.data.(first := After(r.queue, 0))))]
  }

  lemma DroppedRing(om: OrderMemory, r: Row, j: nat)
    requires Ring(om, r.queue) && |r.queue| >= 2 && j < |r.queue|
    ensures InRange(om, r.queue)
    ensures var om2 := DroppedMem(om, r, j);
            Ring(om2, Deleted(r.queue, j)) && SameData(om, om2) && SameOutside(om, r.queue, om2)
  {
    var q := r.queue;
    UnlinkedRing(om, q, j);
    DeletedMembers(q, j);
    RingFrame(Unlinked(om, GapLeft(q, j), After(q, j)), Deleted(q, j), DroppedMem(om, r, j));
    assert q[j] in q;
  }

  lemma RowDrop(lm: LevelMemory, om: OrderMemory, side: Side, r: Row, j: nat)
    requires RowRep(lm, om, side, r) && |r.queue| >= 2 && j < |r.queue|
    ensures RowRep(DroppedLevels(lm, r, j), DroppedMem(om, r, j), side, r.(queue := Deleted(r.queue, j)))
    ensures SameData(om, DroppedMem(om, r, j)) && SameOutside(om, r.queue, DroppedMem(om, r, j))
  {
    var q := r.queue;
    DroppedRing(om, r, j);
    forall i | 0 <= i < |Deleted(q, j)| ensures Deleted(q, j)[i] == q[if i < j then i else i + 1] {
    }
  }

  predicate SameFreeAndPrice(lm: LevelMemory, lm2: LevelMemory) {
    && |lm| == |lm2|
    && (forall p :: 0 <= p < |lm| ==> lm2[p].isFree == lm[p].isFree && PriceAt(lm2, p) == PriceAt(lm, p))
  }

  lemma {:induction false} DropSide(
    side: Side, lm: LevelMemory, om: OrderMemory, head: Ptr, rows: seq<Row>, i: nat, j: nat)
    requires SideRep(lm, om, side, head, rows) && NoDuplicates(Flat(rows)) && NoDuplicates(Levels(rows))
    requires i < |rows| && |rows[i].queue| >= 2 && j < |rows[i].queue|
    ensures RowRep(lm, om, side, rows[i])
    ensures SideRep(DroppedLevels(lm, rows[i], j), DroppedMem(om, rows[i], j), side, head, Dropped(rows, i, j))
    ensures Levels(Dropped(rows, i, j)) == Levels(rows) && SameFreeAndPrice(lm, DroppedLevels(lm, rows[i], j))
    ensures SameData(om, DroppedMem(om, rows[i], j)) && SameOutside(om, rows[i].queue, DroppedMem(om, rows[i], j))
  {
    var r := rows[i];
    RowDrop(lm, om, side, r, j);
    var x := r.queue[j];
    assert x in r.queue;
    var lm2 := DroppedLevels(lm, r, j);
    RowsUpdate(lm, om, side, rows, i, Dropped(rows, i, j), x, lm2, DroppedMem(om, r, j));
    assert Levels(Dropped(rows, i, j)) == Levels(rows);
    RingFrame(lm, Levels(rows), lm2);
  }

  lemma {:induction false} JoinDropped(
    side: Side, lm: LevelMemory, om: OrderMemory, table: seq<Ptr>, head: Ptr, rows: seq<Row>, otherHead: Ptr,
    others: seq<Row>, rows2: seq<Row>, k: nat, x: nat, lm2: LevelMemory, om2: OrderMemory)
    requires Whole(side, lm, om, table, head, rows, otherHead, others, {}, {})
    requires SideRep(lm2, om2, side, head, rows2) && SideRep(lm2, om2, side.Opposite(), otherHead, others)
    requires Levels(rows2) == Levels(rows) && k < |Flat(rows)| && Flat(rows2) == Deleted(Flat(rows), k)
    requires SameData(om, om2) && SameFreeAndPrice(lm, lm2) && x == Flat(rows)[k] < |om|
    ensures Whole(side, lm2, om2, table, head, rows2, otherHead, others, {}, {x})
  {
    UsedDelete(om, Flat(rows), Flat(others), k, om2);
  }

  lemma DropPieces(
    side: Side, lm: LevelMemory, om: OrderMemory, table: seq<Ptr>, head: Ptr, rows: seq<Row>, otherHead: Ptr,
    others: seq<Row>, i: nat, j: nat) returns (k: nat)
    requires Whole(side, lm, om, table, head, rows, otherHead, others, {}, {})
    requires i < |rows| && |rows[i].queue| >= 2 && j < |rows[i].queue|
    ensures RowRep(lm, om, side, rows[i])
    ensures var lm2, om2, rows2 := DroppedLevels(lm, rows[i], j), DroppedMem(om, rows[i], j), Dropped(rows, i, j);
            && SideRep(lm2, om2, side, head, rows2) && SideRep(lm2, om2, side.Opposite(), otherHead, others)
            && Levels(rows2) == Levels(rows) && k < |Flat(rows)| && Flat(rows2) == Deleted(Flat(rows), k)
            && SameData(om, om2) && SameFreeAndPrice(lm, lm2) && rows[i].queue[j] == Flat(rows)[k] < |om|
  {
    DropSide(side, lm, om, head, rows, i, j);
    DropOthers(side, lm, om, rows, otherHead, others, i, j);
    FlatAt(rows, i, j);
    FlatDrop(rows, i, j);
    k := Position(rows, i, j);
  }

  lemma DropOrder(
    side: Side, lm: LevelMemory, om: OrderMemory, table: seq<Ptr>, head: Ptr, rows: seq<Row>, otherHead: Ptr,
    others: seq<Row>, i: nat, j: nat)
    requires Whole(side, lm, om, table, head, rows, otherHead, others, {}, {})
    requires i < |rows| && |rows[i].queue| >= 2 && j < |rows[i].queue|
    ensures RowRep(lm, om, side, rows[i]) && SameData(om, DroppedMem(om, rows[i], j))
    ensures Whole(side, DroppedLevels(lm, rows[i], j), DroppedMem(om, rows[i], j), table,
                  head, Dropped(rows, i, j), otherHead, others, {}, {rows[i].queue[j]})
  {
    var k := DropPieces(side, lm, om, table, head, rows, otherHead, others, i, j);
    JoinDropped(side, lm, om, table, head, rows, otherHead, others, Dropped(rows, i, j), k, rows[i].queue[j],
                DroppedLevels(lm, rows[i], j), DroppedMem(om, rows[i], j));
  }

  lemma {:induction false} DropOthers(
    side: Side, lm: LevelMemory, om: OrderMemory, rows: seq<Row>, otherHead: Ptr, others: seq<Row>, i: nat, j: nat)
    requires SideRep(lm, om, side.Opposite(), otherHead, others)
    requires Apart(Flat(rows), Flat(others)) && Apart(Levels(rows), Levels(others))
    requires i < |rows| && j < |rows[i].queue| && rows[i].level < |lm| && InRange(om, rows[i].queue)
    requires SameOutside(om, rows[i].queue, DroppedMem(om, rows[i], j))
    ensures SideRep(DroppedLevels(lm, rows[i], j), DroppedMem(om, rows[i], j), side.Opposite(), otherHead, others)
  {
    var x := rows[i].queue[j];
    InFlat(rows, i, x);
    OthersFrame(side, lm, om, rows, otherHead, others, i, x, DroppedMem(om, rows[i], j));
    LevelOthers(side, lm, DroppedMem(om, rows[i], j), rows, otherHead, others, i, DroppedLevels(lm, rows[i], j));
  }

  lemma LevelOthers(
    side: Side, lm: LevelMemory, om: OrderMemory, rows: seq<Row>, otherHead: Ptr, others: seq<Row>, i: nat,
    lm2: LevelMemory)
    requires SideRep(lm, om, side.Opposite(), otherHead, others) && Apart(Levels(rows), Levels(others))
    requires i < |rows| && |lm2| == |lm| && forall p :: 0 <= p < |lm| && p != rows[i].level ==> lm2[p] == lm[p]
    ensures SideRep(lm2, om, side.Opposite(), otherHead, others)
  {
    assert Levels(rows)[i] in Levels(rows);
    SideFrame(lm, om, side.Opposite(), otherHead, others, lm2, om);
  }

  // ----- a level less

  lemma DropRowSide(side: Side, lm: LevelMemory, om: OrderMemory, rows: seq<Row>, i: nat, lm2: LevelMemory, head2: Ptr)
    requires forall j :: 0 <= j < |rows| ==> RowRep(lm, om, side, rows[j])
    requires i < |rows| && |lm2| == |lm| && NoDuplicates(Levels(rows))
    requires forall p :: 0 <= p < |lm| && p != rows[i].level ==> lm2[p].value.data == lm[p].value.data
    requires LevelChain(lm2, side, head2, Deleted(Levels(rows), i))
    ensures SideRep(lm2, om, side, head2, Deleted(rows, i))
  {
    var rows2 := Deleted(rows, i);
    LevelsDeleted(rows, i);
    forall j | 0 <= j < |rows2| ensures RowRep(lm2, om, side, rows2[j]) {
      var k := if j < i then j else j + 1;
      assert rows2[j] == rows[k] && Levels(rows)[k] != Levels(rows)[i];
      RowFrame(lm, om, side, rows[k], lm2, om);
    }
  }

  lemma TabledDelete(lm: LevelMemory, table: seq<Ptr>, s: seq<nat>, t: seq<nat>, k: nat, lm2: LevelMemory)
    requires Tabled(lm, table, s, t) && Apart(s, t) && k < |s| && s[k] < |lm| && |lm| == |lm2|
    requires forall p :: 0 <= p < |lm| && p != s[k] ==> lm2[p].value.data == lm[p].value.data
    ensures Tabled(lm2, table[PriceToIndex(PriceAt(lm, s[k])) := NULL], Deleted(s, k), t)
  {
    DeletedMembers(s, k);
    assert s[k] in s;
  }

  lemma UsedRelease<V>(m: Memory<V>, s: seq<nat>, t: seq<nat>, k: nat, m2: Memory<V>)
    requires Used(m, s, t, {}) && Apart(s, t) && k < |s| && s[k] < |m| == |m2|
    requires forall p :: 0 <= p < |m| ==> m2[p].isFree == (m[p].isFree || p == s[k])
    ensures Used(m2, Deleted(s, k), t, {}) && Apart(Deleted(s, k), t)
  {
    DeletedMembers(s, k);
  }

  lemma {:induction false} JoinDroppedRow(
    side: Side, lm: LevelMemory, om: OrderMemory, table: seq<Ptr>, head: Ptr, rows: seq<Row>, otherHead: Ptr,
    others: seq<Row>, rows2: seq<Row>, i: nat, x: nat, lm2: LevelMemory, head2: Ptr)
    requires Whole(side, lm, om, table, head, rows, otherHead, others, {}, {})
    requires SideRep(lm2, om, side, head2, rows2) && SideRep(lm2, om, side.Opposite(), otherHead, others)
    requires i < |rows| && Levels(rows2) == Deleted(Levels(rows), i) && rows[i].level < |lm| == |lm2|
    requires Position(rows, i, 0) < |Flat(rows)| && Flat(rows2) == Deleted(Flat(rows), Position(rows, i, 0))
    requires x == Flat(rows)[Position(rows, i, 0)] < |om|
    requires forall p :: 0 <= p < |lm| && p != rows[i].level ==> lm2[p].value.data == lm[p].value.data
    requires forall p :: 0 <= p < |lm| ==> lm2[p].isFree == (lm[p].isFree || p == rows[i].level)
    ensures Whole(side, lm2, om, table[PriceToIndex(PriceAt(lm, rows[i].level)) := NULL], head2, rows2,
                  otherHead, others, {}, {x})
  {
    UsedDelete(om, Flat(rows), Flat(others), Position(rows, i, 0), om);
    UsedRelease(lm, Levels(rows), Levels(others), i, lm2);
    TabledDelete(lm, table, Levels(rows), Levels(others), i, lm2);
  }

  lemma DropRow(
    side: Side, lm: LevelMemory, om: OrderMemory, table: seq<Ptr>, head: Ptr, rows: seq<Row>, otherHead: Ptr,
    others: seq<Row>, i: nat, lm2: LevelMemory, head2: Ptr)
    requires Whole(side, lm, om, table, head, rows, otherHead, others, {}, {})
    requires i < |rows| && |rows[i].queue| == 1 && rows[i].level < |lm|
    requires DataExcept(lm, Levels(rows), rows[i].level, lm2)
    requires LevelChain(lm2, side, head2, Deleted(Levels(rows), i))
    ensures Whole(side, lm2, om, table[PriceToIndex(PriceAt(lm, rows[i].level)) := NULL], head2, Deleted(rows, i),
                  otherHead, others, {}, {rows[i].queue[0]})
  {
    DropRowSide(side, lm, om, rows, i, lm2, head2);
    SideFrame(lm, om, side.Opposite(), otherHead, others, lm2, om);
    FlatAt(rows, i, 0);
    FlatDropRow(rows, i);
    LevelsDeleted(rows, i);
    assert RowRep(lm, om, side, rows[i]);
    JoinDroppedRow(side, lm, om, table, head, rows, otherHead, others, Deleted(rows, i), i, rows[i].queue[0],
                   lm2, head2);
  }

  // ----- a fill in place

  function WithQty(om: OrderMemory, x: nat, qty: nat): OrderMemory
    requires x < |om|
  {
    om[x := om[x].(value := om[x].value.(data := om[x].value.data.(qty := qty)))]
  }

  lemma QtyRow(lm: LevelMemory, om: OrderMemory, side: Side, r: Row, x: nat, qty: nat)
    requires RowRep(lm, om, side, r) && x < |om|
    ensures RowRep(lm, WithQty(om, x, qty), side, r)
  {
    RingFrame(om, r.queue, WithQty(om, x, qty));
  }

  lemma FillInPlace(
    side: Side, lm: LevelMemory, om: OrderMemory, table: seq<Ptr>, head: Ptr, rows: seq<Row>, otherHead: Ptr,
    others: seq<Row>, x: nat, qty: nat)
    requires Whole(side, lm, om, table, head, rows, otherHead, others, {}, {}) && x < |om|
    ensures Whole(side, lm, WithQty(om, x, qty), table, head, rows, otherHead, others, {}, {})
  {
    var om2 := WithQty(om, x, qty);
    forall i | 0 <= i < |rows| ensures RowRep(lm, om2, side, rows[i]) {
      QtyRow(lm, om, side, rows[i], x, qty);
    }
    forall i | 0 <= i < |others| ensures RowRep(lm, om2, side.Opposite(), others[i]) {
      QtyRow(lm, om, side.Opposite(), others[i], x, qty);
    }
  }
}
