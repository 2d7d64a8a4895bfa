/** Publishing the pending requests of one round in the order of their receive times. */
module Sequencer {
  import opened Types
  import opened LFQueues

  const ME_MAX_PENDING_REQUESTS := 1024

  datatype RecvTimeClientRequest = RecvTimeClientRequest(recvTime: int, request: ClientRequest)

  predicate Sorted(s: seq<RecvTimeClientRequest>) {
    forall i, j :: 0 <= i < j < |s| ==> s[i].recvTime <= s[j].recvTime
  }

  /** What an unstable sort by receive time may return. */
  ghost predicate MaySortTo(s: seq<RecvTimeClientRequest>, t: seq<RecvTimeClientRequest>) {
    Sorted(t) && multiset(t) == multiset(s)
  }

  function RequestsOf(s: seq<RecvTimeClientRequest>): seq<ClientRequest> {
    seq(|s|, i requires 0 <= i < |s| => s[i].request)
  }

  // ----- sorting

  function InsertByTime(s: seq<RecvTimeClientRequest>, x: RecvTimeClientRequest): seq<RecvTimeClientRequest> {
    if s == [] || s[|s| - 1].recvTime <= x.recvTime then s + [x]
    else InsertByTime(s[..|s| - 1], x) + [s[|s| - 1]]
  }

  function SortByTime(s: seq<RecvTimeClientRequest>): seq<RecvTimeClientRequest> {
    if s == [] then [] else InsertByTime(SortByTime(s[..|s| - 1]), s[|s| - 1])
  }

  lemma {:induction false} InsertPermutes(s: seq<RecvTimeClientRequest>, x: RecvTimeClientRequest)
    ensures multiset(InsertByTime(s, x)) == multiset(s) + multiset{x}
  {
    if s != [] && s[|s| - 1].recvTime > x.recvTime {
      var n := |s| - 1;
      InsertPermutes(s[..n], x);
      assert s == s[..n] + [s[n]];
    }
  }

  lemma {:induction false} InsertSorts(s: seq<RecvTimeClientRequest>, x: RecvTimeClientRequest)
    requires Sorted(s)
    ensures var t := InsertByTime(s, x);
            Sorted(t) && t != [] && (t[|t| - 1] == x || (s != [] && t[|t| - 1] == s[|s| - 1]))
  {
    if s != [] && s[|s| - 1].recvTime > x.recvTime {
      InsertSorts(s[..|s| - 1], x);
    }
  }

  lemma SameLength(s: seq<RecvTimeClientRequest>, t: seq<RecvTimeClientRequest>)
    requires MaySortTo(s, t)
    ensures |s| == |t|
  {
    assert |multiset(s)| == |multiset(t)|;
  }

  lemma {:induction false} SortSorts(s: seq<RecvTimeClientRequest>)
    ensures MaySortTo(s, SortByTime(s))
  {
    hide InsertByTime;
    if s != [] {
      var n := |s| - 1;
      SortSorts(s[..n]);
      InsertPermutes(SortByTime(s[..n]), s[n]);
      InsertSorts(SortByTime(s[..n]), s[n]);
      assert s == s[..n] + [s[n]];
    }
  }

  /** The queue gets the requests of the batch, one by one, from the front. */
  lemma PublishedAt(queued: seq<ClientRequest>, order: seq<RecvTimeClientRequest>, contents: seq<ClientRequest>)
    requires contents == queued + RequestsOf(order)
    ensures |contents| == |queued| + |order|
    ensures forall i :: 0 <= i < |order| ==> contents[|queued| + i] == order[i].request
  {
  }

  /** The library's sort of the first n elements.  It is not stable, so its callers know only that the
      result is sorted and a permutation. */
  method StdSort(a: array<RecvTimeClientRequest>, n: nat)
    requires n <= a.Length
    modifies a
    ensures MaySortTo(old(a[..n]), a[..n])
    ensures a[n..] == old(a[n..])
  {
    hide MaySortTo, SortByTime;
    var s := SortByTime(a[..n]);
    SortSorts(a[..n]);
    SameLength(a[..n], s);
    forall i | 0 <= i < n {
      a[i] := s[i];
    }
    assert a[..n] == s;
  }

  class FIFOSequencer {
    const incomingRequests: LFQueue<ClientRequest>
    const pendingClientRequests: array<RecvTimeClientRequest>
    var pendingSize: nat

    ghost predicate InRange()
      reads this
    {
      pendingSize <= pendingClientRequests.Length == ME_MAX_PENDING_REQUESTS
    }

    ghost function Pending(): seq<RecvTimeClientRequest>
      reads this, pendingClientRequests
      requires InRange()
    {
      pendingClientRequests[..pendingSize]
    }

    constructor (clientRequests: LFQueue<ClientRequest>)
      ensures InRange() && Pending() == [] && incomingRequests == clientRequests
      ensures fresh(pendingClientRequests)
    {
      var unset := RecvTimeClientRequest(0, ClientRequest(InvalidRequest, 0, 0, 0, Side.INVALID, 0, 0));
      incomingRequests := clientRequests;
      pendingClientRequests := new RecvTimeClientRequest[ME_MAX_PENDING_REQUESTS](_ => unset);
      pendingSize := 0;
    }

    /** Not ok where the source ends the process because too many requests are pending. */
    method AddClientRequest(rxTime: int, request: ClientRequest) returns (ok: bool)
      requires InRange()
      modifies this, pendingClientRequests
      ensures InRange()
      ensures ok <==> old(|Pending()|) < ME_MAX_PENDING_REQUESTS
      ensures Pending() == if ok then old(Pending()) + [RecvTimeClientRequest(rxTime, request)] else old(Pending())
    {
      if pendingSize >= pendingClientRequests.Length {
        return false;
      }
      pendingClientRequests[pendingSize] := RecvTimeClientRequest(rxTime, request);
      pendingSize := pendingSize + 1;
      ok := true;
    }

    /** The pending requests go behind everything that is queued, in some order that the sort may
        give them, and none is pending any more. */
    method SequenceAndPublish() returns (ghost order: seq<RecvTimeClientRequest>)
      requires InRange() && incomingRequests.Valid()
      requires |incomingRequests.Contents()| + pendingSize < incomingRequests.store.Length
      modifies this, pendingClientRequests, incomingRequests, incomingRequests.store
      ensures InRange() && incomingRequests.Valid()
      ensures MaySortTo(old(Pending()), order)
      ensures incomingRequests.Contents() == old(incomingRequests.Contents()) + RequestsOf(order)
      ensures |incomingRequests.Contents()| == old(|incomingRequests.Contents()|) + |order|
      ensures forall i :: 0 <= i < |order| ==>
                incomingRequests.Contents()[old(|incomingRequests.Contents()|) + i] == order[i].request
      ensures Pending() == []
    {
      if pendingSize == 0 {
        return [];
      }
      hide MaySortTo, Unread;
      StdSort(pendingClientRequests, pendingSize);
      order := Pending();
      ghost var queued := incomingRequests.Contents();
      var i := 0;
      while i < pendingSize
        invariant 0 <= i <= pendingSize == old(pendingSize) && InRange() && incomingRequests.Valid()
        invariant Pending() == order
        invariant incomingRequests.Contents() == queued + RequestsOf(order)[..i]
      {
        var next := pendingClientRequests[i];
        assert next == order[i];
        incomingRequests.Push(next.request);
        i := i + 1;
      }
      PublishedAt(queued, order, incomingRequests.Contents());
      pendingSize := 0;
    }
  }

  // ----- what was received earlier goes first

  lemma SplitAt(s: seq<RecvTimeClientRequest>, time: int) returns (k: nat)
    requires Sorted(s)
    ensures k <= |s|
    ensures forall i :: 0 <= i < k ==> s[i].recvTime < time
    ensures forall i :: k <= i < |s| ==> time <= s[i].recvTime
  {
    k := 0;
    while k < |s| && s[k].recvTime < time
      invariant k <= |s| && forall i :: 0 <= i < k ==> s[i].recvTime < time
    {
      k := k + 1;
    }
  }

  lemma NoneOf(s: seq<RecvTimeClientRequest>, x: RecvTimeClientRequest)
    requires forall i :: 0 <= i < |s| ==> s[i] != x
    ensures multiset(s)[x] == 0
  {
    assert x !in s;
  }

  /** Whatever the sort does with ties: when everything in early was received before everything in late, the
      early requests are published first, and then the late ones. */
  lemma EarlierBatchFirst(
    early: seq<RecvTimeClientRequest>, late: seq<RecvTimeClientRequest>, order: seq<RecvTimeClientRequest>, time: int)
    requires forall i :: 0 <= i < |early| ==> early[i].recvTime < time
    requires forall i :: 0 <= i < |late| ==> time <= late[i].recvTime
    requires MaySortTo(early + late, order)
    ensures |order| == |early| + |late|
    ensures MaySortTo(early, order[..|early|]) && MaySortTo(late, order[|early|..])
  {
    SameLength(early + late, order);
    var k := SplitAt(order, time);
    var a, b := order[..k], order[k..];
    assert order == a + b;
    hide MaySortTo, Sorted;
    forall x ensures multiset(a)[x] == multiset(early)[x] && multiset(b)[x] == multiset(late)[x] {
      SplitCounts(early, late, a, b, time, x);
    }
    SameContents(a, early);
    SameContents(b, late);
    assert k == |early|;
    PartsSorted(order, k);
    SortedMaySort(early, a);
    SortedMaySort(late, b);
  }

  lemma SplitCounts(
    early: seq<RecvTimeClientRequest>, late: seq<RecvTimeClientRequest>, a: seq<RecvTimeClientRequest>,
    b: seq<RecvTimeClientRequest>, time: int, x: RecvTimeClientRequest)
    requires forall i :: 0 <= i < |early| ==> early[i].recvTime < time
    requires forall i :: 0 <= i < |late| ==> time <= late[i].recvTime
    requires forall i :: 0 <= i < |a| ==> a[i].recvTime < time
    requires forall i :: 0 <= i < |b| ==> time <= b[i].recvTime
    requires MaySortTo(early + late, a + b)
    ensures multiset(a)[x] == multiset(early)[x] && multiset(b)[x] == multiset(late)[x]
  {
    assert multiset(a + b)[x] == multiset(a)[x] + multiset(b)[x];
    assert multiset(early + late)[x] == multiset(early)[x] + multiset(late)[x];
    if x.recvTime < time {
      NoneOf(b, x);
      NoneOf(late, x);
    } else {
      NoneOf(a, x);
      NoneOf(early, x);
    }
  }

  lemma SameContents(s: seq<RecvTimeClientRequest>, t: seq<RecvTimeClientRequest>)
    requires forall x :: multiset(s)[x] == multiset(t)[x]
    ensures multiset(s) == multiset(t) && |s| == |t|
  {
    assert multiset(s) == multiset(t);
    assert |multiset(s)| == |multiset(t)|;
  }

  lemma PartsSorted(s: seq<RecvTimeClientRequest>, k: nat)
    requires Sorted(s) && k <= |s|
    ensures Sorted(s[..k]) && Sorted(s[k..])
  {
  }

  lemma SortedMaySort(s: seq<RecvTimeClientRequest>, t: seq<RecvTimeClientRequest>)
    requires multiset(t) == multiset(s) && Sorted(t)
    ensures MaySortTo(s, t)
  {
  }

  // ----- when the order is determined

  predicate TiesAreEqual(s: seq<RecvTimeClientRequest>) {
    forall i, j :: 0 <= i < j < |s| && s[i].recvTime == s[j].recvTime ==> s[i] == s[j]
  }

  lemma TiesOfPermutation(s: seq<RecvTimeClientRequest>, t: seq<RecvTimeClientRequest>)
    requires multiset(s) == multiset(t) && TiesAreEqual(s)
    ensures TiesAreEqual(t)
  {
    forall i, j | 0 <= i < j < |t| && t[i].recvTime == t[j].recvTime ensures t[i] == t[j] {
      assert t[i] in multiset(s) && t[j] in multiset(s);
      var a :| 0 <= a < |s| && s[a] == t[i];
      var b :| 0 <= b < |s| && s[b] == t[j];
    }
  }

  lemma HeadsAgree(s: seq<RecvTimeClientRequest>, t: seq<RecvTimeClientRequest>)
    requires MaySortTo(s, t) && Sorted(s) && TiesAreEqual(s) && s != []
    ensures t != [] && s[0] == t[0]
  {
    hide TiesAreEqual;
    assert |s| == |multiset(s)| == |multiset(t)| == |t|;
    assert s[0] in multiset(t) && t[0] in multiset(s);
    var a :| 0 <= a < |t| && t[a] == s[0];
    var b :| 0 <= b < |s| && s[b] == t[0];
    assert s[0].recvTime <= s[b].recvTime && t[0].recvTime <= t[a].recvTime;
    TieWithFirst(s, b);
  }

  lemma TieWithFirst(s: seq<RecvTimeClientRequest>, b: nat)
    requires Sorted(s) && TiesAreEqual(s) && b < |s| && s[b].recvTime <= s[0].recvTime
    ensures s[b] == s[0]
  {
    if b > 0 {
      assert s[0].recvTime == s[b].recvTime;
    }
  }

  lemma TailKeeps(s: seq<RecvTimeClientRequest>)
    requires Sorted(s) && s != []
    ensures Sorted(s[1..]) && (TiesAreEqual(s) ==> TiesAreEqual(s[1..]))
  {
  }

  lemma Tails(s: seq<RecvTimeClientRequest>, t: seq<RecvTimeClientRequest>)
    requires MaySortTo(s, t) && Sorted(s) && TiesAreEqual(s) && s != []
    ensures t != [] && s[0] == t[0]
    ensures Sorted(s[1..]) && TiesAreEqual(s[1..]) && MaySortTo(s[1..], t[1..])
  {
    hide Sorted, TiesAreEqual;
    HeadsAgree(s, t);
    TailKeeps(s);
    TailKeeps(t);
    assert s == [s[0]] + s[1..] && t == [t[0]] + t[1..];
    assert multiset(s[1..]) == multiset(s) - multiset{s[0]};
  }

  lemma {:induction false} SortedIsUnique(s: seq<RecvTimeClientRequest>, t: seq<RecvTimeClientRequest>)
    requires Sorted(s) && MaySortTo(s, t) && TiesAreEqual(s)
    ensures s == t
    decreases |s|
  {
    hide Sorted, TiesAreEqual, MaySortTo;
    if s == [] {
      EmptySorts(t);
    } else {
      Tails(s, t);
      SortedIsUnique(s[1..], t[1..]);
      assert s == [s[0]] + s[1..] && t == [t[0]] + t[1..];
    }
  }

  lemma EmptySorts(t: seq<RecvTimeClientRequest>)
    requires MaySortTo([], t)
    ensures t == []
  {
    assert |multiset(t)| == 0;
  }

  lemma SwapTies(t: seq<RecvTimeClientRequest>, i: nat, j: nat)
    requires i < j < |t| && Sorted(t) && t[i].recvTime == t[j].recvTime
    ensures MaySortTo(t, t[i := t[j]][j := t[i]])
  {
    var u := t[i := t[j]][j := t[i]];
    assert forall k :: 0 <= k < |t| ==> u[k].recvTime == t[k].recvTime;
  }

  /** The publication order is determined exactly when requests received at the same time are equal. */
  lemma OrderIsDetermined(s: seq<RecvTimeClientRequest>)
    ensures (forall t, u :: MaySortTo(s, t) && MaySortTo(s, u) ==> t == u) <==> TiesAreEqual(s)
  {
    hide Sorted, TiesAreEqual;
    var t := SortByTime(s);
    SortSorts(s);
    if TiesAreEqual(s) {
      forall t, u | MaySortTo(s, t) && MaySortTo(s, u) ensures t == u {
        TiesOfPermutation(s, t);
        SortedIsUnique(t, u);
      }
    } else {
      if TiesAreEqual(t) {
        TiesOfPermutation(t, s);
        assert false;
      }
      var i, j := UnequalTie(t);
      SwapTies(t, i, j);
      var u := t[i := t[j]][j := t[i]];
      assert MaySortTo(s, t) && MaySortTo(s, u) && t[i] != u[i];
    }
  }

  lemma UnequalTie(t: seq<RecvTimeClientRequest>) returns (i: nat, j: nat)
    requires !TiesAreEqual(t)
    ensures i < j < |t| && t[i].recvTime == t[j].recvTime && t[i] != t[j]
  {
    i, j :| 0 <= i < j < |t| && t[i].recvTime == t[j].recvTime && t[i] != t[j];
  }

  /** Whatever the ties, requests of different receive times are published in time order. */
  lemma EarlierFirst(s: seq<RecvTimeClientRequest>, t: seq<RecvTimeClientRequest>, i: nat, j: nat)
    requires MaySortTo(s, t) && i < |t| && j < |t| && t[i].recvTime < t[j].recvTime
    ensures i < j && t[i] in s && t[j] in s
  {
    assert t[i] in multiset(s) && t[j] in multiset(s);
  }

  // ----- the order of one client

  /** The requests of one client. */
  function Of(s: seq<RecvTimeClientRequest>, client: nat): seq<RecvTimeClientRequest> {
    if s == [] then []
    else
      var n := |s| - 1;
      Of(s[..n], client) + (if s[n].request.client == client then [s[n]] else [])
  }

  lemma {:induction false} OfMembers(s: seq<RecvTimeClientRequest>, client: nat)
    ensures forall x :: x in Of(s, client) <==> x in s && x.request.client == client
    decreases |s|
  {
    if s != [] {
      var n := |s| - 1;
      OfMembers(s[..n], client);
      assert s == s[..n] + [s[n]];
    }
  }

  lemma {:induction false} OfCounts(s: seq<RecvTimeClientRequest>, client: nat, x: RecvTimeClientRequest)
    ensures multiset(Of(s, client))[x] == if x.request.client == client then multiset(s)[x] else 0
    decreases |s|
  {
    if s != [] {
      var n := |s| - 1;
      OfCounts(s[..n], client, x);
      assert s == s[..n] + [s[n]];
    }
  }

  lemma {:induction false} OfSorted(s: seq<RecvTimeClientRequest>, client: nat)
    requires Sorted(s)
    ensures Sorted(Of(s, client))
    decreases |s|
  {
    if s != [] {
      var n := |s| - 1;
      OfSorted(s[..n], client);
      OfMembers(s[..n], client);
      assert forall i :: 0 <= i < |Of(s[..n], client)| ==> Of(s[..n], client)[i] in s[..n];
    }
  }

  lemma {:induction false} OfSorts(s: seq<RecvTimeClientRequest>, t: seq<RecvTimeClientRequest>, client: nat)
    requires MaySortTo(s, t)
    ensures MaySortTo(Of(s, client), Of(t, client))
  {
    OfSorted(t, client);
    forall x ensures multiset(Of(s, client))[x] == multiset(Of(t, client))[x] {
      OfCounts(s, client, x);
      OfCounts(t, client, x);
    }
  }

  /** Where a request of the client stands among the client's requests. */
  lemma {:induction false} OfAt(s: seq<RecvTimeClientRequest>, client: nat, p: nat)
    requires p < |s| && s[p].request.client == client
    ensures |Of(s[..p], client)| < |Of(s, client)| && Of(s, client)[|Of(s[..p], client)|] == s[p]
    decreases |s|
  {
    var n := |s| - 1;
    if p < n {
      OfAt(s[..n], client, p);
      assert s[..n][..p] == s[..p];
    }
  }

  /** Two unequal requests of the client with one receive time can be published the other way round. */
  lemma TieCanBeReversed(t: seq<RecvTimeClientRequest>, client: nat)
    returns (u: seq<RecvTimeClientRequest>)
    requires Sorted(t) && !TiesAreEqual(Of(t, client))
    ensures MaySortTo(t, u) && Of(u, client) != Of(t, client)
  {
    hide Sorted, TiesAreEqual;
    var i, j := UnequalTie(Of(t, client));
    OfMembers(t, client);
    var a :| 0 <= a < |t| && t[a] == Of(t, client)[i];
    var b :| 0 <= b < |t| && t[b] == Of(t, client)[j];
    var p, q := if a < b then a else b, if a < b then b else a;
    u := t[p := t[q]][q := t[p]];
    SwapTies(t, p, q);
    OfAt(t, client, p);
    OfAt(u, client, p);
    assert u[..p] == t[..p];
  }

  /** A client's requests are published in the order in which it sent them, whatever the sort does and
      whatever the others send, exactly when that order is the order of their receive times and equal
      times belong to equal requests. */
  lemma {:induction false} ClientOrderIsKept(s: seq<RecvTimeClientRequest>, client: nat)
    ensures (forall t :: MaySortTo(s, t) ==> Of(t, client) == Of(s, client))
            <==> Sorted(Of(s, client)) && TiesAreEqual(Of(s, client))
  {
    hide Sorted, TiesAreEqual, Of;
    if Sorted(Of(s, client)) && TiesAreEqual(Of(s, client)) {
      forall t | MaySortTo(s, t) ensures Of(t, client) == Of(s, client) {
        OfSorts(s, t, client);
        SortedIsUnique(Of(s, client), Of(t, client));
      }
    } else {
      var t := SortByTime(s);
      SortSorts(s);
      OfSorts(s, t, client);
      if Of(t, client) == Of(s, client) {
        var u := TieCanBeReversed(t, client);
        assert MaySortTo(s, u);
      } else {
        assert MaySortTo(s, t);
      }
    }
  }

  /** Two requests of one client that were received in one read, and the order in which they must not be
      published but may. */
  lemma OneReadCanBeReversed(rxTime: int, first: ClientRequest, second: ClientRequest)
    requires first.client == second.client && first != second
    ensures var x, y := RecvTimeClientRequest(rxTime, first), RecvTimeClientRequest(rxTime, second);
            && MaySortTo([x, y], [y, x])
            && Of([x, y], first.client) == [x, y] && Of([y, x], first.client) == [y, x]
  {
    var x, y := RecvTimeClientRequest(rxTime, first), RecvTimeClientRequest(rxTime, second);
    OfTwo(x, y);
    OfTwo(y, x);
  }

  lemma OfTwo(x: RecvTimeClientRequest, y: RecvTimeClientRequest)
    requires x.request.client == y.request.client
    ensures Of([x, y], x.request.client) == [x, y]
  {
    var c := x.request.client;
    assert [x][..0] == [] && [x, y][..1] == [x];
    assert Of([x], c) == Of([x][..0], c) + [x] == [x];
    assert Of([x, y], c) == Of([x], c) + [y];
  }
}
