/** Circular doubly linked lists threaded through the blocks of a pool. */
module Rings {
  import opened MemPools

  type Ptr = int
  const NULL: Ptr := -1

  /** A pooled object with its intrusive links. */
  datatype Node<V> = Node(data: V, prev: Ptr, next: Ptr)

  type Memory<V> = seq<ObjectBlock<Node<V>>>

  predicate Linked<V>(m: Memory<V>, x: nat, y: nat) {
    x < |m| && y < |m| && m[x].value.next == y && m[y].value.prev == x
  }

  function After(q: seq<nat>, i: nat): nat
    requires i < |q|
  {
    if i + 1 < |q| then q[i + 1] else q[0]
  }

  predicate NoDuplicates<T(==)>(q: seq<T>) {
    forall i, j :: 0 <= i < j < |q| ==> q[i] != q[j]
  }

  /** q lists the circle in the order of its next pointers. */
  ghost predicate Ring<V>(m: Memory<V>, q: seq<nat>) {
    && NoDuplicates(q)
    && (forall i {:trigger After(q, i)} :: 0 <= i < |q| ==> Linked(m, q[i], After(q, i)))
    && (forall i :: 0 <= i < |q| ==> q[i] < |m|)
  }

  function Inserted<T>(q: seq<T>, k: nat, x: T): seq<T>
    requires k <= |q|
  {
    q[..k] + [x] + q[k..]
  }

  function Deleted<T>(q: seq<T>, k: nat): seq<T>
    requires k < |q|
  {
    q[..k] + q[k + 1..]
  }

  /** The neighbours of a gap in front of position k of the circle. */
  function GapLeft(q: seq<nat>, k: nat): nat
    requires q != [] && k <= |q|
  {
    if k > 0 then q[k - 1] else q[|q| - 1]
  }

  function GapRight(q: seq<nat>, k: nat): nat
    requires q != [] && k <= |q|
  {
    if k < |q| then q[k] else q[0]
  }

  /** From m to m2 no next changed except x's, no prev except y's, among the nodes of q. */
  ghost predicate Relinked<V>(m: Memory<V>, q: seq<nat>, x: nat, y: nat, m2: Memory<V>) {
    && |m2| == |m|
    && (forall p :: p in q && p < |m| && p != x ==> m2[p].value.next == m[p].value.next)
    && (forall p :: p in q && p < |m| && p != y ==> m2[p].value.prev == m[p].value.prev)
  }

  lemma RingInsert<V>(m: Memory<V>, q: seq<nat>, k: nat, x: nat, m2: Memory<V>)
    requires Ring(m, q) && q != [] && k <= |q| && x !in q
    requires Relinked(m, q, GapLeft(q, k), GapRight(q, k), m2)
    requires Linked(m2, GapLeft(q, k), x) && Linked(m2, x, GapRight(q, k))
    ensures Ring(m2, Inserted(q, k, x))
  {
    var r := Inserted(q, k, x);
    forall i {:trigger After(r, i)} | 0 <= i < |r| ensures Linked(m2, r[i], After(r, i)) {
      if i + 1 != k && i != k && (k > 0 || i + 1 != |r|) {
        var j := if i < k then i else i - 1;
        assert Linked(m, q[j], After(q, j));
        assert q[j] != GapLeft(q, k) && After(q, j) != GapRight(q, k);
        assert q[j] in q && After(q, j) in q;
      }
    }
  }

  lemma RingRemove<V>(m: Memory<V>, q: seq<nat>, k: nat, m2: Memory<V>)
    requires Ring(m, q) && |q| >= 2 && k < |q|
    requires Relinked(m, Deleted(q, k), GapLeft(q, k), After(q, k), m2)
    requires Linked(m2, GapLeft(q, k), After(q, k))
    ensures Ring(m2, Deleted(q, k))
  {
    var r := Deleted(q, k);
    forall i {:trigger After(r, i)} | 0 <= i < |r| ensures Linked(m2, r[i], After(r, i)) {
      var j := if i < k then i else i + 1;
      if q[j] != GapLeft(q, k) {
        assert Linked(m, q[j], After(q, j));
        assert r[i] == q[j] && r[i] in r;
        assert After(r, i) == After(q, j) && After(r, i) in r;
        assert After(q, j) != After(q, k);
      }
    }
  }

  lemma RingFrame<V>(m: Memory<V>, q: seq<nat>, m2: Memory<V>)
    requires Ring(m, q) && |m2| == |m|
    requires forall p :: p in q && p < |m| ==>
               m2[p].value.next == m[p].value.next && m2[p].value.prev == m[p].value.prev
    ensures Ring(m2, q)
  {
    forall i {:trigger After(q, i)} | 0 <= i < |q| ensures Linked(m2, q[i], After(q, i)) {
      assert Linked(m, q[i], After(q, i));
      assert q[i] in q && After(q, i) in q;
    }
  }

  /** prev and next are inverse, and the neighbours are members. */
  lemma RingNeighbours<V>(m: Memory<V>, q: seq<nat>, k: nat)
    requires Ring(m, q) && k < |q|
    ensures q[k] < |m| && After(q, k) in q && GapLeft(q, k) in q && After(q, k) < |m| && GapLeft(q, k) < |m|
    ensures m[q[k]].value.next == After(q, k) && m[q[k]].value.prev == GapLeft(q, k)
  {
    var j := if k > 0 then k - 1 else |q| - 1;
    assert Linked(m, q[k], After(q, k)) && Linked(m, q[j], After(q, j));
  }

  // ----- the pointer writes

  function WithNext<V>(m: Memory<V>, p: nat, next: Ptr): Memory<V>
    requires p < |m|
  {
    m[p := m[p].(value := m[p].value.(next := next))]
  }

  function WithPrev<V>(m: Memory<V>, p: nat, prev: Ptr): Memory<V>
    requires p < |m|
  {
    m[p := m[p].(value := m[p].value.(prev := prev))]
  }

  /** Only links differ. */
  predicate SameData<V(==)>(m: Memory<V>, m2: Memory<V>) {
    && |m| == |m2|
    && (forall p :: 0 <= p < |m| ==> m2[p].isFree == m[p].isFree && m2[p].value.data == m[p].value.data)
  }

  predicate SameOutside<V(==)>(m: Memory<V>, q: seq<nat>, m2: Memory<V>) {
    && |m| == |m2|
    && (forall p :: 0 <= p < |m| && p !in q ==> m2[p] == m[p])
  }

  function SplicedIn<V>(m: Memory<V>, left: nat, x: nat, right: nat, linkNext: bool): Memory<V>
    requires left < |m| && x < |m| && right < |m|
  {
    var m1 := WithPrev(m, x, left);
    var m2 := if linkNext then WithNext(m1, x, right) else m1;
    WithPrev(WithNext(m2, left, x), right, x)
  }

  function Unlinked<V>(m: Memory<V>, left: nat, right: nat): Memory<V>
    requires left < |m| && right < |m|
  {
    WithPrev(WithNext(m, left, right), right, left)
  }

  lemma SplicedRing<V>(m: Memory<V>, q: seq<nat>, k: nat, x: nat)
    requires Ring(m, q) && q != [] && k <= |q| && x !in q && x < |m|
    ensures InRange(m, q)
    ensures var m2 := SplicedIn(m, GapLeft(q, k), x, GapRight(q, k), true);
            Ring(m2, Inserted(q, k, x)) && SameData(m, m2) && SameOutside(m, q + [x], m2)
  {
    var left, right := GapLeft(q, k), GapRight(q, k);
    var m2 := SplicedIn(m, left, x, right, true);
    RingInsert(m, q, k, x, m2);
  }

  predicate InRange<V>(m: Memory<V>, q: seq<nat>) {
    forall i :: 0 <= i < |q| ==> q[i] < |m|
  }

  /** Without the next pointer of the new node there is no circle. */
  lemma SplicedGap<V>(m: Memory<V>, q: seq<nat>, k: nat, x: nat)
    requires Ring(m, q) && q != [] && k <= |q| && x !in q && x < |m| && m[x].value.next == NULL
    ensures InRange(m, q)
    ensures var m2 := SplicedIn(m, GapLeft(q, k), x, GapRight(q, k), false);
            && !Ring(m2, Inserted(q, k, x)) && m2[x].value.next == NULL
            && SameData(m, m2) && SameOutside(m, q + [x], m2)
  {
    var left, right := GapLeft(q, k), GapRight(q, k);
    assert left in q && right in q;
    var m2 := SplicedIn(m, left, x, right, false);
    var r := Inserted(q, k, x);
    assert r[k] == x && !Linked(m2, x, After(r, k));
  }

  lemma UnlinkedRing<V>(m: Memory<V>, q: seq<nat>, k: nat)
    requires Ring(m, q) && |q| >= 2 && k < |q|
    ensures InRange(m, q)
    ensures var m2 := Unlinked(m, GapLeft(q, k), After(q, k));
            Ring(m2, Deleted(q, k)) && SameData(m, m2) && SameOutside(m, q, m2) && m2[q[k]] == m[q[k]]
  {
    var left, right := GapLeft(q, k), After(q, k);
    var m2 := Unlinked(m, left, right);
    assert left in q && right in q && left != q[k] && right != q[k];
    RingRemove(m, q, k, m2);
  }

  /** left, x, right become neighbours; linkNext is false where the committed text forgets x's next. */
  method Splice<V>(pool: MemPool<Node<V>>, left: nat, x: nat, right: nat, linkNext: bool)
    requires left < pool.store.Length && x < pool.store.Length && right < pool.store.Length
    modifies pool.store
    ensures pool.Blocks() == SplicedIn(old(pool.Blocks()), left, x, right, linkNext)
  {
    pool.Update(x, pool.store[x].value.(prev := left));
    if linkNext {
      pool.Update(x, pool.store[x].value.(next := right));
    }
    pool.Update(left, pool.store[left].value.(next := x));
    pool.Update(right, pool.store[right].value.(prev := x));
  }

  method Unlink<V>(pool: MemPool<Node<V>>, left: nat, right: nat)
    requires left < pool.store.Length && right < pool.store.Length
    modifies pool.store
    ensures pool.Blocks() == Unlinked(old(pool.Blocks()), left, right)
  {
    pool.Update(left, pool.store[left].value.(next := right));
    pool.Update(right, pool.store[right].value.(prev := left));
  }
}
