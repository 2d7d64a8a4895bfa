/** The ring queue as one thread uses it. */
module LFQueues {
  import opened MemPools
  import opened Rings

  /** The elements between the read index and the write index, in the order of reading. */
  function Unread<T>(store: seq<T>, r: nat, w: nat): seq<T>
    requires r < |store| && w < |store|
  {
    if r <= w then store[r..w] else store[r..] + store[..w]
  }

  class LFQueue<T> {
    const store: array<T>
    var nextWriteIndex: nat
    var nextReadIndex: nat
    var numElements: nat

    /** The indices are in range. */
    ghost predicate InRange()
      reads this
    {
      nextWriteIndex < store.Length && nextReadIndex < store.Length
    }

    ghost function Contents(): seq<T>
      reads this, store
      requires InRange()
    {
      Unread(store[..], nextReadIndex, nextWriteIndex)
    }

    ghost predicate Valid()
      reads this, store
    {
      InRange() && numElements == |Contents()|
    }

    constructor (numElems: nat, initial: T)
      requires numElems > 0
      ensures Valid() && Contents() == [] && store.Length == numElems && fresh(store)
    {
      store := new T[numElems](_ => initial);
      nextWriteIndex, nextReadIndex, numElements := 0, 0, 0;
    }

    method GetNextToWriteTo() returns (p: nat)
      requires InRange()
      ensures p == nextWriteIndex
    {
      p := nextWriteIndex;
    }

    /** A write through the pointer that GetNextToWriteTo returned. */
    method WriteTo(p: nat, x: T)
      requires InRange() && p == nextWriteIndex
      modifies store
      ensures InRange() && Contents() == old(Contents()) && store[p] == x
    {
      store[p] := x;
    }

    /** There is no check for a full queue: the write that fills the last slot makes the indices
        meet, and every unread element is lost. */
    method UpdateWriteIndex()
      requires Valid()
      modifies this
      ensures InRange() && numElements == old(numElements) + 1
      ensures Contents()
              == if old(|Contents()|) + 1 < store.Length then old(Contents() + [store[nextWriteIndex]]) else []
      ensures Valid() <==> old(|Contents()|) + 1 < store.Length
    {
      StepIsNext(nextWriteIndex, store.Length);
      nextWriteIndex := (nextWriteIndex + 1) % store.Length;
      numElements := numElements + 1;
    }

    /** The three calls that every producer makes for one element. */
    method Push(x: T)
      requires Valid() && |Contents()| + 1 < store.Length
      modifies this, store
      ensures Valid() && Contents() == old(Contents()) + [x]
    {
      var p := GetNextToWriteTo();
      WriteTo(p, x);
      UpdateWriteIndex();
    }

    method GetNextToRead() returns (p: Ptr)
      requires InRange()
      ensures p == NULL <==> Contents() == []
      ensures p != NULL ==> 0 <= p < store.Length && store[p] == Contents()[0]
    {
      p := if nextReadIndex == nextWriteIndex then NULL else nextReadIndex;
    }

    /** The ASSERT of the source is the precondition that some element is counted. */
    method UpdateReadIndex()
      requires Valid() && numElements != 0
      modifies this
      ensures Valid() && Contents() == old(Contents())[1..]
    {
      StepIsNext(nextReadIndex, store.Length);
      nextReadIndex := (nextReadIndex + 1) % store.Length;
      numElements := numElements - 1;
    }

    method Size() returns (n: nat)
      requires Valid()
      ensures n == |Contents()|
    {
      n := numElements;
    }
  }

  lemma StepIsNext(p: nat, n: nat)
    requires p < n
    ensures (p + 1) % n == Around(p, 1, n)
  {
    if p + 1 < n {
      assert (p + 1) % n == p + 1;
    }
  }
}
