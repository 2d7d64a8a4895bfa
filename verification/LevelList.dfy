/** The circular list of price levels of one side, and the table that finds a level by price. */
module LevelList {
  import opened Types
  import opened BookSpec
  import opened MemPools
  import opened Rings

  /** A price level: its side, its price and the oldest of its orders. */
  datatype PriceLevel = PriceLevel(side: Side, price: int, first: Ptr)

  type LevelMemory = Memory<PriceLevel>

  function PriceToIndex(price: int): nat {
    price % ME_MAX_PRICE_LEVELS
  }

  function PriceAt(lm: LevelMemory, p: nat): int
    requires p < |lm|
  {
    lm[p].value.data.price
  }

  predicate HeadOf(head: Ptr, levels: seq<nat>) {
    head == if levels == [] then NULL else levels[0]
  }

  /** Strictly sorted, best price first, all of one side. */
  ghost predicate SortedLevels(lm: LevelMemory, side: Side, levels: seq<nat>)
    requires InRange(lm, levels)
  {
    && (forall i :: 0 <= i < |levels| ==> lm[levels[i]].value.data.side == side)
    && (forall i, j :: 0 <= i < j < |levels| ==> Better(side, PriceAt(lm, levels[i]), PriceAt(lm, levels[j])))
  }

  ghost predicate LevelChain(lm: LevelMemory, side: Side, head: Ptr, levels: seq<nat>) {
    Ring(lm, levels) && HeadOf(head, levels) && SortedLevels(lm, side, levels)
  }

  /** Where a level at this price belongs: behind the better ones, in front of the worse ones. */
  ghost predicate Rank(lm: LevelMemory, side: Side, levels: seq<nat>, price: int, k: nat)
    requires InRange(lm, levels)
  {
    && k <= |levels|
    && (forall i :: 0 <= i < k ==> Better(side, PriceAt(lm, levels[i]), price))
    && (forall i :: k <= i < |levels| ==> Better(side, price, PriceAt(lm, levels[i])))
  }

  /** The committed text assigns a list head only for SELL (the conditional swallows the assignment)
      and never links a level that is appended behind all others. */
  predicate TextInserts(side: Side, n: nat, k: nat) {
    if n == 0 then side == SELL else k < n && (k > 0 || side == SELL)
  }

  /** The same head assignment is lost when the committed text removes the best bid level. */
  predicate TextRemoves(side: Side, n: nat, k: nat) {
    side == SELL || (n >= 2 && k > 0)
  }

  lemma SortedInsert(lm: LevelMemory, side: Side, levels: seq<nat>, k: nat, x: nat, lm2: LevelMemory)
    requires InRange(lm, levels) && x < |lm| && SortedLevels(lm, side, levels)
    requires lm[x].value.data.side == side && Rank(lm, side, levels, PriceAt(lm, x), k) && SameData(lm, lm2)
    ensures InRange(lm2, Inserted(levels, k, x)) && SortedLevels(lm2, side, Inserted(levels, k, x))
  {
  }

  /** Outside levels nothing changed, inside only links, and level x was returned to the pool. */
  predicate DataExcept(lm: LevelMemory, levels: seq<nat>, x: nat, lm2: LevelMemory) {
    && |lm2| == |lm|
    && (forall p :: 0 <= p < |lm| ==>
          lm2[p].value.data == lm[p].value.data && lm2[p].isFree == (lm[p].isFree || p == x))
    && (forall p :: 0 <= p < |lm| && p !in levels ==> lm2[p] == lm[p])
  }

  /** A block outside the levels does not matter for the rank. */
  lemma RankElsewhere(lm: LevelMemory, side: Side, levels: seq<nat>, price: int, k: nat, x: nat, lm2: LevelMemory)
    requires InRange(lm, levels) && Rank(lm, side, levels, price, k) && x !in levels
    requires |lm| == |lm2| && forall p :: 0 <= p < |lm| && p != x ==> lm2[p] == lm[p]
    ensures InRange(lm2, levels) && Rank(lm2, side, levels, price, k)
  {
    assert forall i :: 0 <= i < |levels| ==> levels[i] in levels;
  }

  lemma FirstOnlyOnce<V>(m: Memory<V>, q: seq<nat>, i: nat)
    requires Ring(m, q) && i < |q|
    ensures q[i] == q[0] <==> i == 0
  {
  }

  lemma OnlyMember<V>(m: Memory<V>, q: seq<nat>, i: nat)
    requires Ring(m, q) && i < |q| && m[q[i]].value.next == q[i]
    ensures |q| == 1
  {
    RingNeighbours(m, q, i);
  }

  lemma AloneInCircle<V>(m: Memory<V>, q: seq<nat>, i: nat)
    requires Ring(m, q) && i < |q| && m[q[i]].value.prev == q[i]
    ensures |q| == 1 && i == 0
  {
    RingNeighbours(m, q, i);
  }

  /** The chain without level i, given its circle, and what the head must then be. */
  lemma ChainWithout(lm: LevelMemory, side: Side, head: Ptr, levels: seq<nat>, i: nat, lm2: LevelMemory, head2: Ptr)
    requires LevelChain(lm, side, head, levels) && i < |levels| && DataExcept(lm, levels, levels[i], lm2)
    requires |levels| >= 2 ==> Ring(lm2, Deleted(levels, i))
    ensures LevelChain(lm2, side, head2, Deleted(levels, i)) <==>
            head2 == if |levels| == 1 then NULL else if i == 0 then levels[1] else head
  {
    var r := Deleted(levels, i);
    assert forall j :: 0 <= j < |r| ==> r[j] == levels[if j < i then j else j + 1];
    forall a, b | 0 <= a < b < |r| ensures Better(side, PriceAt(lm2, r[a]), PriceAt(lm2, r[b])) {
      var x, y := if a < i then a else a + 1, if b < i then b else b + 1;
      assert Better(side, PriceAt(lm, levels[x]), PriceAt(lm, levels[y]));
    }
  }
}
