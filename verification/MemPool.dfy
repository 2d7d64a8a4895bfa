/** The preallocated object pool.  A pointer into the pool is the index of its block, which is what
    deallocate computes from an address. */
module MemPools {
  datatype ObjectBlock<T> = ObjectBlock(value: T, isFree: bool)

  ghost function FreeBlocks<T>(blocks: seq<ObjectBlock<T>>): set<nat> {
    set p: nat | p < |blocks| && blocks[p].isFree
  }

  ghost function LiveBlocks<T>(blocks: seq<ObjectBlock<T>>): set<nat> {
    set p: nat | p < |blocks| && !blocks[p].isFree
  }

  /** The index d steps after p in a circle of n. */
  function Around(p: nat, d: nat, n: nat): nat
    requires p < n && d <= n
  {
    if p + d < n then p + d else p + d - n
  }

  /** q is the first free block found when stepping once around the circle from p. */
  ghost predicate FirstFreeAfter<T>(blocks: seq<ObjectBlock<T>>, p: nat, q: nat)
    requires p < |blocks|
  {
    exists d: nat | d < |blocks| ::
      && q == Around(p, d, |blocks|) && blocks[q].isFree
      && (forall e: nat | e < d :: !blocks[Around(p, e, |blocks|)].isFree)
  }

  /** Every index is some number of steps around. */
  lemma AroundCovers(p: nat, q: nat, n: nat) returns (d: nat)
    requires p < n && q < n
    ensures d < n && Around(p, d, n) == q
  {
    d := if p <= q then q - p else q + n - p;
  }

  lemma TwoFree<T>(blocks: seq<ObjectBlock<T>>, p: nat)
    requires p < |blocks| && blocks[p].isFree
    ensures |FreeBlocks(blocks)| >= 2 <==> exists q: nat :: q < |blocks| && q != p && blocks[q].isFree
  {
    var others := FreeBlocks(blocks) - {p};
    assert p in FreeBlocks(blocks) && |others| == |FreeBlocks(blocks)| - 1;
    if |others| >= 1 {
      var q :| q in others;
      assert q < |blocks| && q != p && blocks[q].isFree;
    }
    if q: nat :| q < |blocks| && q != p && blocks[q].isFree {
      assert q in others;
    }
  }

  lemma OneMoreBlock<T>(front: seq<ObjectBlock<T>>, last: ObjectBlock<T>)
    ensures FreeBlocks(front + [last]) == FreeBlocks(front) + (if last.isFree then {|front|} else {})
    ensures LiveBlocks(front + [last]) == LiveBlocks(front) + (if last.isFree then {} else {|front|})
  {
    var blocks := front + [last];
    assert blocks[|front|] == last;
    forall p: nat | p < |front| ensures blocks[p] == front[p] {
    }
  }

  /** Free and live blocks make up the pool. */
  lemma {:induction false} FreeAndLive<T>(blocks: seq<ObjectBlock<T>>)
    ensures |FreeBlocks(blocks)| + |LiveBlocks(blocks)| == |blocks|
    decreases |blocks|
  {
    if blocks != [] {
      var front, last := blocks[..|blocks| - 1], blocks[|blocks| - 1];
      FreeAndLive(front);
      OneMoreBlock(front, last);
      assert blocks == front + [last];
    }
  }

  class MemPool<T> {
    const store: array<ObjectBlock<T>>
    var nextFreeIndex: nat

    ghost predicate Valid()
      reads this, store
    {
      nextFreeIndex < store.Length && store[nextFreeIndex].isFree
    }

    ghost function Blocks(): seq<ObjectBlock<T>>
      reads this, store
    {
      store[..]
    }

    /** One block always stays free. */
    lemma AtMostAllButOneLive()
      requires Valid()
      ensures |LiveBlocks(Blocks())| < store.Length
    {
      FreeAndLive(Blocks());
      assert nextFreeIndex in FreeBlocks(Blocks());
    }

    constructor (numElems: nat, initial: T)
      requires numElems > 0
      ensures Valid() && fresh(store)
      ensures store.Length == numElems && forall p: nat :: p < numElems ==> store[p] == ObjectBlock(initial, true)
    {
      store := new ObjectBlock<T>[numElems](_ => ObjectBlock(initial, true));
      nextFreeIndex := 0;
    }

    /** Places the value in the next free block and looks for another one; ok is false exactly
        when the search comes back to where it started, which ends the process. */
    method Allocate(value: T) returns (ok: bool, p: nat)
      requires Valid()
      modifies this, store
      ensures p == old(nextFreeIndex) && old(store[p].isFree)
      ensures Blocks() == old(Blocks())[p := ObjectBlock(value, false)]
      ensures ok <==> old(|FreeBlocks(Blocks())|) >= 2
      ensures ok ==> Valid() && FirstFreeAfter(Blocks(), p, nextFreeIndex)
    {
      p := nextFreeIndex;
      TwoFree(store[..], p);
      store[p] := ObjectBlock(value, false);
      ok := UpdateNextFreeIndex();
      assert forall q: nat :: q < store.Length && q != p ==> store[q] == old(store[q]);
    }

    method UpdateNextFreeIndex() returns (ok: bool)
      requires nextFreeIndex < store.Length && !store[nextFreeIndex].isFree
      modifies this`nextFreeIndex
      ensures ok <==> exists q: nat :: q < store.Length && store[q].isFree
      ensures ok ==> Valid() && FirstFreeAfter(Blocks(), old(nextFreeIndex), nextFreeIndex)
    {
      var initial := nextFreeIndex;
      ghost var d := 0;
      while !store[nextFreeIndex].isFree
        invariant d < store.Length && nextFreeIndex == Around(initial, d, store.Length)
        invariant forall e: nat | e < d :: !store[Around(initial, e, store.Length)].isFree
        decreases store.Length - d
      {
        nextFreeIndex := nextFreeIndex + 1;
        d := d + 1;
        if nextFreeIndex == store.Length {
          nextFreeIndex := 0;
        }
        if initial == nextFreeIndex {
          forall q: nat | q < store.Length ensures !store[q].isFree {
            var e := AroundCovers(initial, q, store.Length);
          }
          return false;
        }
      }
      return true;
    }

    /** The two ASSERTs of the source are the precondition. */
    method Deallocate(p: nat)
      requires Valid() && p < store.Length && !store[p].isFree
      modifies store
      ensures Valid() && Blocks() == old(Blocks())[p := old(Blocks())[p].(isFree := true)]
    {
      store[p] := store[p].(isFree := true);
    }

    /** A write through a pointer to a field of the object in block p. */
    method Update(p: nat, value: T)
      requires p < store.Length
      modifies store
      ensures Blocks() == old(Blocks())[p := old(Blocks())[p].(value := value)]
    {
      store[p] := store[p].(value := value);
    }
  }
}
