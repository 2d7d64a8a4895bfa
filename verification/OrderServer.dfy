/** The order server: requests from sockets to the sequencer, numbered responses to sockets. */
module OrderServers {
  import opened Types
  import opened MemPools
  import opened Rings
  import opened LFQueues
  import opened Framing
  import opened Ingest
  import opened Sequencer
  import opened Streams

  /** What is written to a socket: the sequence number and then the response. */
  datatype Outbound = SeqNum(n: nat) | Response(r: ClientResponse)

  function Words(ns: seq<Numbered>): seq<Outbound> {
    if ns == [] then []
    else
      var n := |ns| - 1;
      Words(ns[..n]) + [SeqNum(ns[n].seqNum), Response(ns[n].response)]
  }

  class TCPSocket {
    const inboundData: array<byte>
    var nextRcvValidIndex: nat
    var outboundData: seq<Outbound>

    ghost predicate InRange()
      reads this
    {
      nextRcvValidIndex <= inboundData.Length
    }

    ghost function Buffered(): seq<byte>
      reads this, inboundData
      requires InRange()
    {
      inboundData[..nextRcvValidIndex]
    }

    constructor (capacity: nat)
      ensures InRange() && Buffered() == [] && outboundData == [] && fresh(inboundData)
              && inboundData.Length == capacity
    {
      inboundData := new byte[capacity](_ => 0);
      nextRcvValidIndex, outboundData := 0, [];
    }

    /** The read that the operating system does: bytes behind the valid ones, no more than fit. */
    method Receive(bytes: seq<byte>)
      requires InRange() && nextRcvValidIndex + |bytes| <= inboundData.Length
      modifies this`nextRcvValidIndex, inboundData
      ensures InRange() && Buffered() == old(Buffered()) + bytes
    {
      forall i | 0 <= i < |bytes| {
        inboundData[nextRcvValidIndex + i] := bytes[i];
      }
      nextRcvValidIndex := nextRcvValidIndex + |bytes|;
    }

    /** The copy that moves the unread bytes to the front.  It copies upwards, which is right only
        because source and destination do not overlap. */
    method Compact(from: nat)
      requires InRange() && from <= nextRcvValidIndex && nextRcvValidIndex - from <= from
      modifies this`nextRcvValidIndex, inboundData
      ensures InRange() && Buffered() == old(Buffered()[from..])
    {
      var n := nextRcvValidIndex - from;
      var k := 0;
      while k < n
        invariant 0 <= k <= n
        invariant inboundData[..k] == old(inboundData[from..from + k])
        invariant inboundData[from..] == old(inboundData[from..])
      {
        assert inboundData[from..][k] == old(inboundData[from..])[k];
        inboundData[k] := inboundData[from + k];
        k := k + 1;
      }
      nextRcvValidIndex := n;
    }

    method Send(x: Outbound)
      modifies this`outboundData
      ensures outboundData == old(outboundData) + [x]
    {
      outboundData := outboundData + [x];
    }
  }

  /** The responses that go to one socket. */
  function ToSocket<S(==)>(sockets: seq<Binding<S>>, ns: seq<Numbered>, s: S): seq<Numbered> {
    if ns == [] then []
    else
      var c := ns[0].response.client;
      (if c < |sockets| && sockets[c] == Bound(s) then [ns[0]] else []) + ToSocket(sockets, ns[1..], s)
  }

  lemma {:induction false} ToSocketConcat<S>(sockets: seq<Binding<S>>, a: seq<Numbered>, b: seq<Numbered>, s: S)
    ensures ToSocket(sockets, a + b, s) == ToSocket(sockets, a, s) + ToSocket(sockets, b, s)
    decreases |a|
  {
    if a == [] {
      assert a + b == b;
    } else {
      assert (a + b)[1..] == a[1..] + b;
      ToSocketConcat(sockets, a[1..], b, s);
    }
  }

  lemma {:induction false} WordsConcat(a: seq<Numbered>, b: seq<Numbered>)
    ensures Words(a + b) == Words(a) + Words(b)
    decreases |b|
  {
    if b == [] {
      assert a + b == a;
    } else {
      var n := |b| - 1;
      assert (a + b)[..|a + b| - 1] == a + b[..n];
      WordsConcat(a, b[..n]);
    }
  }

  /** What draining the responses rs writes to one socket. */
  function SentTo<S(==)>(sockets: seq<Binding<S>>, next: seq<nat>, rs: seq<ClientResponse>, s: S): seq<Outbound>
    requires Numberable(next, rs)
  {
    Words(ToSocket(sockets, Number(next, rs), s))
  }

  /** A client's responses all go to the socket it is bound to, in their order. */
  lemma {:induction false} OwnSocketGetsAll<S>(sockets: seq<Binding<S>>, ns: seq<Numbered>, client: nat, s: S)
    requires client < |sockets|
    ensures ForClient(ToSocket(sockets, ns, s), client)
            == if sockets[client] == Bound(s) then ForClient(ns, client) else []
    decreases |ns|
  {
    if ns != [] {
      OwnSocketGetsAll(sockets, ns[1..], client, s);
      var rest := ToSocket(sockets, ns[1..], s);
      assert ([ns[0]] + rest)[1..] == rest && [] + rest == rest;
    }
  }

  /** The accepted requests, as they are handed to the sequencer. */
  function Stamped<S>(rxTime: int, accepted: seq<Arrival<S>>): seq<RecvTimeClientRequest> {
    seq(|accepted|, i requires 0 <= i < |accepted| => RecvTimeClientRequest(rxTime, accepted[i].message.request))
  }

  /** What one read adds to the pending requests: the accepted requests, in order, each with the time of the
      read. */
  predicate HandedOver<S>(
    before: seq<RecvTimeClientRequest>, after: seq<RecvTimeClientRequest>, rxTime: int, accepted: seq<Arrival<S>>) {
    && |after| == |before| + |accepted|
    && (forall k :: 0 <= k < |before| ==> after[k] == before[k])
    && (forall k :: 0 <= k < |accepted| ==>
          && after[|before| + k].recvTime == rxTime
          && after[|before| + k].request == accepted[k].message.request)
  }

  lemma StampedIsHandedOver<S>(before: seq<RecvTimeClientRequest>, rxTime: int, accepted: seq<Arrival<S>>)
    ensures HandedOver(before, before + Stamped(rxTime, accepted), rxTime, accepted)
  {
  }

  // ----- one round of reads

  /** A read: what arrives on a socket and when; or what is in its buffer when the callback runs. */
  datatype Batch<S> = Batch(socket: S, bytes: seq<byte>, rxTime: int)

  predicate BatchesInRange<S>(bs: seq<Batch<S>>) {
    forall i :: 0 <= i < |bs| ==> ClientsInRange(From(bs[i].socket, Requests(bs[i].bytes)))
  }

  datatype Round<S> = Round(gate: Gate<S>, pending: seq<RecvTimeClientRequest>)

  /** The gate and the pending requests after the callbacks of a round, in the order of its reads. */
  function ServeBatches<S(==)>(g: Gate<S>, pending: seq<RecvTimeClientRequest>, bs: seq<Batch<S>>): (d: Round<S>)
    requires WellSized(g) && BatchesInRange(bs)
    ensures WellSized(d.gate)
    decreases |bs|
  {
    if bs == [] then Round(g, pending)
    else
      var last := bs[|bs| - 1];
      var front := ServeBatches(g, pending, bs[..|bs| - 1]);
      var e := Serve(front.gate, From(last.socket, Requests(last.bytes)));
      Round(e.gate, front.pending + Stamped(last.rxTime, e.accepted))
  }

  lemma {:induction false} OneMoreBatch<S>(g: Gate<S>, pending: seq<RecvTimeClientRequest>, bs: seq<Batch<S>>, k: nat)
    requires WellSized(g) && BatchesInRange(bs) && k < |bs|
    ensures BatchesInRange(bs[..k]) && BatchesInRange(bs[..k + 1])
    ensures var d := ServeBatches(g, pending, bs[..k]);
            var e := Serve(d.gate, From(bs[k].socket, Requests(bs[k].bytes)));
            && ServeBatches(g, pending, bs[..k + 1]) == Round(e.gate, d.pending + Stamped(bs[k].rxTime, e.accepted))
            && |ServeBatches(g, pending, bs[..k + 1]).pending| == |d.pending| + |e.accepted|
  {
    assert bs[..k + 1][..k] == bs[..k] && bs[..k + 1][k] == bs[k];
  }

  lemma NoBatches<S>(g: Gate<S>, pending: seq<RecvTimeClientRequest>, bs: seq<Batch<S>>)
    requires WellSized(g)
    ensures BatchesInRange(bs[..0]) && ServeBatches(g, pending, bs[..0]) == Round(g, pending)
  {
  }

  lemma {:induction false} BatchesGrow<S>(g: Gate<S>, pending: seq<RecvTimeClientRequest>, bs: seq<Batch<S>>, k: nat)
    requires WellSized(g) && BatchesInRange(bs) && k <= |bs|
    ensures BatchesInRange(bs[..k])
    ensures ServeBatches(g, pending, bs[..k]).pending <= ServeBatches(g, pending, bs).pending
    decreases |bs| - k
  {
    if k == |bs| {
      assert bs[..k] == bs;
    } else {
      OneMoreBatch(g, pending, bs, k);
      BatchesGrow(g, pending, bs, k + 1);
    }
  }

  /** What the callbacks of a round see. */
  function RoundArrivals<S>(bs: seq<Batch<S>>): seq<Arrival<S>> {
    if bs == [] then []
    else
      var last := bs[|bs| - 1];
      RoundArrivals(bs[..|bs| - 1]) + From(last.socket, Requests(last.bytes))
  }

  /** A round of reads is one run of the gate over all its arrivals, and what becomes pending are the accepted
      requests, in the order of their arrival. */
  lemma {:induction false} RoundIsOneRun<S>(g: Gate<S>, bs: seq<Batch<S>>)
    requires WellSized(g) && BatchesInRange(bs)
    ensures ClientsInRange(RoundArrivals(bs))
    ensures var d, e := ServeBatches(g, [], bs), Serve(g, RoundArrivals(bs));
            && d.gate == e.gate && |d.pending| == |e.accepted|
            && forall k :: 0 <= k < |d.pending| ==> d.pending[k].request == e.accepted[k].message.request
    decreases |bs|
  {
    hide From, Requests;
    if bs != [] {
      var n := |bs| - 1;
      RoundIsOneRun(g, bs[..n]);
      hide Serve, ClientsInRange;
      ServeConcat(g, RoundArrivals(bs[..n]), From(bs[n].socket, Requests(bs[n].bytes)));
    }
  }

  lemma {:induction false} EarlyTimes<S>(g: Gate<S>, bs: seq<Batch<S>>, i: nat, time: int)
    requires WellSized(g) && BatchesInRange(bs) && i <= |bs|
    requires forall j :: 0 <= j < i ==> bs[j].rxTime < time
    ensures BatchesInRange(bs[..i])
    ensures var early := ServeBatches(g, [], bs[..i]).pending; forall k :: 0 <= k < |early| ==> early[k].recvTime < time
    decreases i
  {
    hide Serve, From, Requests;
    if i > 0 {
      EarlyTimes(g, bs, i - 1, time);
      OneMoreBatch(g, [], bs, i - 1);
    }
  }

  lemma {:induction false} LateTimes<S>(g: Gate<S>, bs: seq<Batch<S>>, i: nat, n: nat, time: int)
    requires WellSized(g) && BatchesInRange(bs) && i <= n <= |bs|
    requires forall j :: i <= j < n ==> time <= bs[j].rxTime
    ensures BatchesInRange(bs[..i]) && BatchesInRange(bs[..n])
    ensures var early, all := ServeBatches(g, [], bs[..i]).pending, ServeBatches(g, [], bs[..n]).pending;
            early <= all && forall k :: |early| <= k < |all| ==> time <= all[k].recvTime
    decreases n - i
  {
    hide Serve, From, Requests;
    if i < n {
      LateTimes(g, bs, i, n - 1, time);
      OneMoreBatch(g, [], bs, n - 1);
    }
  }

  /** End to end through a round: whatever the sort does with ties, the requests accepted in reads before a
      time are published before all requests accepted in reads from that time on. */
  lemma EarlierReadsFirst<S>(
    g: Gate<S>, bs: seq<Batch<S>>, i: nat, time: int, order: seq<RecvTimeClientRequest>)
    requires WellSized(g) && BatchesInRange(bs) && i <= |bs|
    requires forall j :: 0 <= j < i ==> bs[j].rxTime < time
    requires forall j :: i <= j < |bs| ==> time <= bs[j].rxTime
    requires MaySortTo(ServeBatches(g, [], bs).pending, order)
    ensures BatchesInRange(bs[..i])
    ensures var early, all := ServeBatches(g, [], bs[..i]).pending, ServeBatches(g, [], bs).pending;
            && |early| <= |all| == |order|
            && MaySortTo(early, order[..|early|]) && MaySortTo(all[|early|..], order[|early|..])
  {
    hide ServeBatches, MaySortTo;
    assert bs[..|bs|] == bs;
    EarlyTimes(g, bs, i, time);
    LateTimes(g, bs, i, |bs|, time);
    var early, all := ServeBatches(g, [], bs[..i]).pending, ServeBatches(g, [], bs).pending;
    assert all == early + all[|early|..];
    EarlierBatchFirst(early, all[|early|..], order, time);
  }

  class OrderServer {
    const sequencer: FIFOSequencer
    const outgoing: LFQueue<ClientResponse>
    const cidTcpSocket: array<Binding<TCPSocket>>
    const cidNextExpSeqNum: array<nat>
    const cidNextOutgoingSeqNum: array<nat>

    ghost predicate InRange()
      reads this, sequencer
    {
      && cidTcpSocket.Length == cidNextExpSeqNum.Length == cidNextOutgoingSeqNum.Length == ME_MAX_NUM_CLIENTS
      && cidNextExpSeqNum != cidNextOutgoingSeqNum
      && sequencer.InRange()
    }

    ghost function CurrentGate(): (g: Gate<TCPSocket>)
      reads cidTcpSocket, cidNextExpSeqNum
    {
      Gate(cidTcpSocket[..], cidNextExpSeqNum[..])
    }

    constructor (clientRequests: LFQueue<ClientRequest>, clientResponses: LFQueue<ClientResponse>)
      ensures InRange() && CurrentGate() == Opened() && sequencer.Pending() == []
      ensures cidNextOutgoingSeqNum[..] == seq(ME_MAX_NUM_CLIENTS, _ => 1)
      ensures outgoing == clientResponses && sequencer.incomingRequests == clientRequests
      ensures fresh(sequencer) && fresh(sequencer.pendingClientRequests)
      ensures fresh(cidTcpSocket) && fresh(cidNextExpSeqNum) && fresh(cidNextOutgoingSeqNum)
    {
      sequencer := new FIFOSequencer(clientRequests);
      outgoing := clientResponses;
      cidTcpSocket := new Binding<TCPSocket>[ME_MAX_NUM_CLIENTS](_ => Unbound);
      cidNextExpSeqNum := new nat[ME_MAX_NUM_CLIENTS](_ => 1);
      cidNextOutgoingSeqNum := new nat[ME_MAX_NUM_CLIENTS](_ => 1);
      new;
      assert CurrentGate().sockets == Opened<TCPSocket>().sockets;
    }

    /** One request: bind the client's first socket, compare socket and sequence number, pass it on.
        Not ok where the sequencer has no room. */
    method ServeOne(socket: TCPSocket, request: OMClientRequest, rxTime: int) returns (ok: bool)
      requires InRange() && request.request.client < ME_MAX_NUM_CLIENTS
      modifies cidTcpSocket, cidNextExpSeqNum, sequencer, sequencer.pendingClientRequests
      ensures InRange()
      ensures var d := Arrive(old(CurrentGate()), Arrival(socket, request));
              && CurrentGate() == d.gate
              && (ok <==> old(|sequencer.Pending()|) + |d.accepted| <= ME_MAX_PENDING_REQUESTS)
              && (ok ==> sequencer.Pending() == old(sequencer.Pending()) + Stamped(rxTime, d.accepted))
              && (ok ==> HandedOver(old(sequencer.Pending()), sequencer.Pending(), rxTime, d.accepted))
    {
      var c := request.request.client;
      if cidTcpSocket[c].Unbound? {
        cidTcpSocket[c] := Bound(socket);
      }
      if cidTcpSocket[c] != Bound(socket) {
        return true;
      }
      if request.seqNum != cidNextExpSeqNum[c] {
        return true;
      }
      cidNextExpSeqNum[c] := cidNextExpSeqNum[c] + 1;
      ok := sequencer.AddClientRequest(rxTime, request.request);
    }

    /** The loop over the whole frames in a socket's buffer; i is where the bytes behind them start. */
    method ServeFrames(socket: TCPSocket, rxTime: int) returns (ok: bool, i: nat)
      requires InRange() && socket.InRange()
      requires ClientsInRange(From(socket, Requests(socket.Buffered())))
      modifies cidTcpSocket, cidNextExpSeqNum, sequencer, sequencer.pendingClientRequests
      ensures InRange()
      ensures ok ==> i <= |socket.Buffered()| < i + FRAME_SIZE && Residue(socket.Buffered()) == socket.Buffered()[i..]
      ensures ok && |socket.Buffered()| >= FRAME_SIZE ==> i >= FRAME_SIZE
      ensures ok ==> SoFar(old(CurrentGate()), old(sequencer.Pending()), socket, rxTime, Requests(socket.Buffered()),
                           CurrentGate(), sequencer.Pending())
      ensures !ok ==>
                var d := Serve(old(CurrentGate()), From(socket, Requests(socket.Buffered())));
                old(|sequencer.Pending()|) + |d.accepted| > ME_MAX_PENDING_REQUESTS
    {
      hide Decode, Arrive, Residue, Requests, Serve, From, Stamped, ClientsInRange, SoFar;
      ghost var bytes, g, pending := socket.Buffered(), CurrentGate(), sequencer.Pending();
      ghost var done: seq<OMClientRequest> := [];
      NothingServed(g, pending, socket, rxTime);
      i := 0;
      while i + FRAME_SIZE <= socket.nextRcvValidIndex
        invariant 0 <= i <= socket.nextRcvValidIndex == |bytes| && InRange() && socket.InRange()
        invariant socket.Buffered() == bytes && (i == 0 || i >= FRAME_SIZE)
        invariant Requests(bytes) == done + Requests(bytes[i..]) && Residue(bytes) == Residue(bytes[i..])
        invariant SoFar(g, pending, socket, rxTime, done, CurrentGate(), sequencer.Pending())
      {
        var request := Decode(socket.inboundData[i..i + FRAME_SIZE]);
        NextFrame(bytes, i, done);
        assert socket.inboundData[i..i + FRAME_SIZE] == bytes[i..i + FRAME_SIZE];
        OneMoreServed(g, pending, socket, rxTime, Requests(bytes), done, request, CurrentGate(), sequencer.Pending());
        ok := ServeOne(socket, request, rxTime);
        if !ok {
          return;
        }
        done := done + [request];
        i := i + FRAME_SIZE;
      }
      ok := true;
      LastFrame(bytes, i, done);
    }

    /** A read on a socket: the whole frames in its buffer are served in order and the residue moves
        to the front.  Not ok exactly where more requests are accepted than can be pending. */
    method RecvCallback(socket: TCPSocket, rxTime: int) returns (ok: bool)
      requires InRange() && socket.InRange()
      requires ClientsInRange(From(socket, Requests(socket.Buffered())))
      modifies cidTcpSocket, cidNextExpSeqNum, sequencer, sequencer.pendingClientRequests
      modifies socket`nextRcvValidIndex, socket.inboundData
      ensures InRange() && socket.InRange()
      ensures var d := Serve(old(CurrentGate()), From(socket, Requests(old(socket.Buffered()))));
              && (ok <==> old(|sequencer.Pending()|) + |d.accepted| <= ME_MAX_PENDING_REQUESTS)
              && (ok ==>
                    && CurrentGate() == d.gate
                    && sequencer.Pending() == old(sequencer.Pending()) + Stamped(rxTime, d.accepted)
                    && HandedOver(old(sequencer.Pending()), sequencer.Pending(), rxTime, d.accepted)
                    && socket.Buffered() == Residue(old(socket.Buffered())))
    {
      hide Decode, Arrive, Residue, Requests, Serve, From, Stamped, ClientsInRange, SoFar, HandedOver;
      ghost var bytes, g, pending := socket.Buffered(), CurrentGate(), sequencer.Pending();
      if socket.nextRcvValidIndex >= FRAME_SIZE {
        var i;
        ok, i := ServeFrames(socket, rxTime);
        if !ok {
          return;
        }
        socket.Compact(i);
      } else {
        ok := true;
        NothingServed(g, pending, socket, rxTime);
        LastFrame(bytes, 0, []);
      }
      AllServed(g, pending, socket, rxTime, Requests(bytes), CurrentGate(), sequencer.Pending());
      StampedIsHandedOver(pending, rxTime, Serve(g, From(socket, Requests(bytes))).accepted);
    }

    /** A socket's turn: the operating system appends what arrived and the callback runs. */
    method ReadSocket(socket: TCPSocket, bytes: seq<byte>, rxTime: int) returns (ok: bool)
      requires InRange() && socket.InRange() && socket.nextRcvValidIndex + |bytes| <= socket.inboundData.Length
      requires ClientsInRange(From(socket, Requests(socket.Buffered() + bytes)))
      modifies cidTcpSocket, cidNextExpSeqNum, sequencer, sequencer.pendingClientRequests
      modifies socket`nextRcvValidIndex, socket.inboundData
      ensures InRange() && socket.InRange()
      ensures var d := Serve(old(CurrentGate()), From(socket, Requests(old(socket.Buffered()) + bytes)));
              && (ok <==> old(|sequencer.Pending()|) + |d.accepted| <= ME_MAX_PENDING_REQUESTS)
              && (ok ==>
                    && CurrentGate() == d.gate
                    && sequencer.Pending() == old(sequencer.Pending()) + Stamped(rxTime, d.accepted)
                    && HandedOver(old(sequencer.Pending()), sequencer.Pending(), rxTime, d.accepted)
                    && socket.Buffered() == Residue(old(socket.Buffered()) + bytes))
    {
      hide Decode, Arrive, Residue, Requests, Serve, From, Stamped, ClientsInRange, HandedOver;
      socket.Receive(bytes);
      ok := RecvCallback(socket, rxTime);
    }

    method RecvFinishedCallback() returns (ghost order: seq<RecvTimeClientRequest>)
      requires InRange() && sequencer.incomingRequests.Valid()
      requires |sequencer.incomingRequests.Contents()| + |sequencer.Pending()| < sequencer.incomingRequests.store.Length
      modifies sequencer, sequencer.pendingClientRequests, sequencer.incomingRequests, sequencer.incomingRequests.store
      ensures InRange() && sequencer.incomingRequests.Valid()
      ensures MaySortTo(old(sequencer.Pending()), order) && sequencer.Pending() == []
      ensures sequencer.incomingRequests.Contents() == old(sequencer.incomingRequests.Contents()) + RequestsOf(order)
      ensures |sequencer.incomingRequests.Contents()| == old(|sequencer.incomingRequests.Contents()|) + |order|
      ensures forall i :: 0 <= i < |order| ==>
                sequencer.incomingRequests.Contents()[old(|sequencer.incomingRequests.Contents()|) + i]
                == order[i].request
    {
      order := sequencer.SequenceAndPublish();
    }

    /** The sockets of a round are different and have room for what arrives. */
    ghost predicate ReadyToRead(reception: seq<Batch<TCPSocket>>)
      reads set i | 0 <= i < |reception| :: reception[i].socket
    {
      && (forall i :: 0 <= i < |reception| ==>
            && reception[i].socket.InRange()
            && reception[i].socket.nextRcvValidIndex + |reception[i].bytes| <= reception[i].socket.inboundData.Length)
      && (forall i, j :: 0 <= i < j < |reception| ==>
            && reception[i].socket != reception[j].socket
            && reception[i].socket.inboundData != reception[j].socket.inboundData)
    }

    /** What the callbacks of a round will find in the buffers. */
    ghost function ToServe(reception: seq<Batch<TCPSocket>>): (bs: seq<Batch<TCPSocket>>)
      requires ReadyToRead(reception)
      reads set i | 0 <= i < |reception| :: reception[i].socket
      reads set i | 0 <= i < |reception| :: reception[i].socket.inboundData
      ensures |bs| == |reception|
    {
      seq(|reception|, i requires 0 <= i < |reception|
                         reads set j | 0 <= j < |reception| :: reception[j].socket
                         reads set j | 0 <= j < |reception| :: reception[j].socket.inboundData
                         requires ReadyToRead(reception)
                       => var r := reception[i]; Batch(r.socket, r.socket.Buffered() + r.bytes, r.rxTime))
    }

    /** Every socket with data is read and served, one after the other. */
    method ReadAll(reception: seq<Batch<TCPSocket>>) returns (ok: bool)
      requires InRange() && ReadyToRead(reception) && BatchesInRange(ToServe(reception))
      modifies cidTcpSocket, cidNextExpSeqNum, sequencer, sequencer.pendingClientRequests
      modifies set i | 0 <= i < |reception| :: reception[i].socket
      modifies set i | 0 <= i < |reception| :: reception[i].socket.inboundData
      ensures InRange()
      ensures var d := ServeBatches(old(CurrentGate()), old(sequencer.Pending()), old(ToServe(reception)));
              && (ok <==> |d.pending| <= ME_MAX_PENDING_REQUESTS)
              && (ok ==>
                    && CurrentGate() == d.gate && sequencer.Pending() == d.pending
                    && (forall i :: 0 <= i < |reception| ==>
                          && reception[i].socket.InRange()
                          && reception[i].socket.Buffered() == Residue(old(ToServe(reception))[i].bytes)))
    {
      hide Decode, Arrive, Residue, Requests, Serve, From, Stamped, ClientsInRange, HandedOver, ServeBatches;
      ghost var g, pending, bs := CurrentGate(), sequencer.Pending(), ToServe(reception);
      var k := 0;
      NoBatches(g, pending, bs);
      while k < |reception|
        invariant 0 <= k <= |reception| && InRange()
        invariant BatchesInRange(bs[..k])
        invariant Round(CurrentGate(), sequencer.Pending()) == ServeBatches(g, pending, bs[..k])
        invariant forall i :: k <= i < |reception| ==>
                    && reception[i].socket.InRange()
                    && reception[i].socket.Buffered() + reception[i].bytes == bs[i].bytes
        invariant forall i :: 0 <= i < k ==>
                    reception[i].socket.InRange() && reception[i].socket.Buffered() == Residue(bs[i].bytes)
      {
        OneMoreBatch(g, pending, bs, k);
        BatchesGrow(g, pending, bs, k + 1);
        ok := ReadSocket(reception[k].socket, reception[k].bytes, reception[k].rxTime);
        if !ok {
          return;
        }
        k := k + 1;
      }
      ok := true;
      assert bs[..k] == bs;
    }

    /** A round of the server: all reads, and then the pending requests are sequenced and published. */
    method ServeRound(reception: seq<Batch<TCPSocket>>) returns (ok: bool, ghost order: seq<RecvTimeClientRequest>)
      requires InRange() && sequencer.incomingRequests.Valid() && ReadyToRead(reception)
      requires |sequencer.incomingRequests.Contents()| + ME_MAX_PENDING_REQUESTS
               < sequencer.incomingRequests.store.Length
      requires BatchesInRange(ToServe(reception))
      modifies cidTcpSocket, cidNextExpSeqNum, sequencer, sequencer.pendingClientRequests
      modifies sequencer.incomingRequests, sequencer.incomingRequests.store
      modifies set i | 0 <= i < |reception| :: reception[i].socket
      modifies set i | 0 <= i < |reception| :: reception[i].socket.inboundData
      ensures InRange() && sequencer.incomingRequests.Valid()
      ensures var d := ServeBatches(old(CurrentGate()), old(sequencer.Pending()), old(ToServe(reception)));
              && (ok <==> |d.pending| <= ME_MAX_PENDING_REQUESTS)
              && (ok ==>
                    && CurrentGate() == d.gate && MaySortTo(d.pending, order) && sequencer.Pending() == []
                    && sequencer.incomingRequests.Contents()
                       == old(sequencer.incomingRequests.Contents()) + RequestsOf(order))
    {
      hide Requests, From, ClientsInRange, ServeBatches, Unread, RequestsOf, MaySortTo;
      order := [];
      ok := ReadAll(reception);
      if ok {
        order := RecvFinishedCallback();
      }
    }

    ghost function Sockets(): set<TCPSocket>
      reads cidTcpSocket
    {
      set b | b in cidTcpSocket[..] && b.Bound? :: b.socket
    }

    method SendOne(response: ClientResponse)
      requires InRange() && response.client < ME_MAX_NUM_CLIENTS && cidTcpSocket[response.client].Bound?
      modifies cidNextOutgoingSeqNum, Sockets()`outboundData
      ensures var c, before := response.client, old(cidNextOutgoingSeqNum[..]);
              && cidNextOutgoingSeqNum[..] == before[c := before[c] + 1]
              && forall s :: s in Sockets() ==>
                   s.outboundData == old(s.outboundData)
                     + (if cidTcpSocket[..][c] == Bound(s) then [SeqNum(before[c]), Response(response)] else [])
    {
      var c := response.client;
      var socket := cidTcpSocket[c].socket;
      assert cidTcpSocket[..][c] == Bound(socket) && socket in Sockets();
      socket.Send(SeqNum(cidNextOutgoingSeqNum[c]));
      socket.Send(Response(response));
      cidNextOutgoingSeqNum[c] := cidNextOutgoingSeqNum[c] + 1;
    }

    /** The counters and the sockets after the responses in done have been sent, where start holds
        what had been written to the sockets before. */
    ghost predicate Sent(start: map<TCPSocket, seq<Outbound>>, next: seq<nat>, done: seq<ClientResponse>)
      reads cidTcpSocket, cidNextOutgoingSeqNum, Sockets()
    {
      && |next| == cidTcpSocket.Length && Numberable(next, done) && cidNextOutgoingSeqNum[..] == Counters(next, done)
      && (forall s :: s in Sockets() ==>
            s in start && s.outboundData == start[s] + SentTo(cidTcpSocket[..], next, done, s))
    }

    method SendNext(
      response: ClientResponse, ghost start: map<TCPSocket, seq<Outbound>>, ghost next: seq<nat>,
      ghost done: seq<ClientResponse>)
      requires InRange() && response.client < ME_MAX_NUM_CLIENTS && cidTcpSocket[response.client].Bound?
      requires Sent(start, next, done)
      modifies cidNextOutgoingSeqNum, Sockets()`outboundData
      ensures Sent(start, next, done + [response])
    {
      hide SentTo, Counters;
      ghost var sockets, c := cidTcpSocket[..], response.client;
      NextNumber(next, done, response);
      forall s: TCPSocket | s in Sockets()
        ensures start[s] + SentTo(sockets, next, done + [response], s)
             == s.outboundData
                  + (if sockets[c] == Bound(s) then [SeqNum(Counters(next, done)[c]), Response(response)] else [])
      {
        NextSent(sockets, next, done, response, s);
      }
      SendOne(response);
    }

    /** Taking a response off the queue changes no socket and no counter. */
    method TakeResponse(
      ghost start: map<TCPSocket, seq<Outbound>>, ghost next: seq<nat>, ghost done: seq<ClientResponse>)
      requires outgoing.Valid() && outgoing.Contents() != [] && Sent(start, next, done)
      modifies outgoing
      ensures outgoing.Valid() && outgoing.Contents() == old(outgoing.Contents())[1..] && Sent(start, next, done)
    {
      hide SentTo, Counters, Unread;
      outgoing.UpdateReadIndex();
    }

    /** The next response, or null, and how many there are. */
    method PeekResponse(
      ghost start: map<TCPSocket, seq<Outbound>>, ghost next: seq<nat>, ghost done: seq<ClientResponse>)
      returns (p: Ptr, size: nat)
      requires outgoing.Valid() && Sent(start, next, done)
      ensures outgoing.Valid() && outgoing.Contents() == old(outgoing.Contents()) && Sent(start, next, done)
      ensures size == |outgoing.Contents()|
      ensures p == NULL <==> outgoing.Contents() == []
      ensures p != NULL ==> 0 <= p < outgoing.store.Length && outgoing.store[p] == outgoing.Contents()[0]
    {
      hide SentTo, Counters, Unread;
      p := outgoing.GetNextToRead();
      size := outgoing.Size();
    }

    /** Drains the outgoing queue: each response leaves on its client's socket behind its number. */
    method SendResponses()
      requires InRange() && outgoing.Valid() && Deliverable(cidTcpSocket[..], outgoing.Contents())
      modifies outgoing, cidNextOutgoingSeqNum, Sockets()`outboundData
      ensures InRange() && outgoing.Valid() && outgoing.Contents() == []
      ensures cidNextOutgoingSeqNum[..] == Counters(old(cidNextOutgoingSeqNum[..]), old(outgoing.Contents()))
      ensures forall s :: s in Sockets() ==>
                s.outboundData == old(s.outboundData)
                  + SentTo(cidTcpSocket[..], old(cidNextOutgoingSeqNum[..]), old(outgoing.Contents()), s)
    {
      hide Sent, SentTo, Counters, Unread;
      ghost var next, rs := cidNextOutgoingSeqNum[..], outgoing.Contents();
      ghost var start := WrittenBefore();
      ghost var done: seq<ClientResponse> := [];
      NothingSentYet();
      var p, size := PeekResponse(start, next, done);
      while size != 0 && p != NULL
        invariant InRange() && outgoing.Valid()
        invariant done <= rs && outgoing.Contents() == rs[|done|..] && size == |outgoing.Contents()|
        invariant p == NULL <==> outgoing.Contents() == []
        invariant p != NULL ==> 0 <= p < outgoing.store.Length && outgoing.store[p] == outgoing.Contents()[0]
        invariant Sent(start, next, done)
        decreases size
      {
        var response := outgoing.store[p];
        assert rs[|done|] == response && rs[..|done| + 1] == done + [response];
        SendNext(response, start, next, done);
        TakeResponse(start, next, done + [response]);
        assert outgoing.Contents() == rs[|done|..][1..] == rs[|done| + 1..];
        done := done + [response];
        p, size := PeekResponse(start, next, done);
      }
      assert done == rs[..|rs|] == rs;
      AllSent(start, next, rs);
    }

    ghost function WrittenBefore(): map<TCPSocket, seq<Outbound>>
      reads cidTcpSocket, Sockets()
    {
      map s | s in Sockets() :: s.outboundData
    }

    lemma NothingSentYet()
      requires InRange()
      ensures Sent(WrittenBefore(), cidNextOutgoingSeqNum[..], [])
    {
      hide SentTo, Counters;
      NothingSent(cidTcpSocket[..], cidNextOutgoingSeqNum[..]);
    }

    lemma {:induction false} AllSent(start: map<TCPSocket, seq<Outbound>>, next: seq<nat>, rs: seq<ClientResponse>)
      requires Sent(start, next, rs)
      ensures Numberable(next, rs) && cidNextOutgoingSeqNum[..] == Counters(next, rs)
      ensures forall s: TCPSocket :: s in Sockets() ==>
                s in start && s.outboundData == start[s] + SentTo(cidTcpSocket[..], next, rs, s)
    {
    }
  }

  // ----- the loops

  /** The state after the requests in done have been served. */
  ghost predicate SoFar<S>(
    g: Gate<S>, pending: seq<RecvTimeClientRequest>, socket: S, rxTime: int, done: seq<OMClientRequest>,
    gate: Gate<S>, pending2: seq<RecvTimeClientRequest>)
    requires WellSized(g)
  {
    && ClientsInRange(From(socket, done))
    && gate == Serve(g, From(socket, done)).gate
    && pending2 == pending + Stamped(rxTime, Serve(g, From(socket, done)).accepted)
  }

  lemma NothingServed<S>(g: Gate<S>, pending: seq<RecvTimeClientRequest>, socket: S, rxTime: int)
    requires WellSized(g)
    ensures SoFar(g, pending, socket, rxTime, [], g, pending)
  {
    assert From(socket, []) == [];
    assert Stamped<S>(rxTime, []) == [];
  }

  lemma {:induction false} OneMoreServed<S>(
    g: Gate<S>, pending: seq<RecvTimeClientRequest>, socket: S, rxTime: int, all: seq<OMClientRequest>,
    done: seq<OMClientRequest>, request: OMClientRequest, gate: Gate<S>, pending2: seq<RecvTimeClientRequest>)
    requires WellSized(g) && ClientsInRange(From(socket, all)) && done + [request] <= all
    requires SoFar(g, pending, socket, rxTime, done, gate, pending2)
    ensures request.request.client < ME_MAX_NUM_CLIENTS && WellSized(gate)
    ensures var e := Arrive(gate, Arrival(socket, request));
            && SoFar(g, pending, socket, rxTime, done + [request], e.gate, pending2 + Stamped(rxTime, e.accepted))
            && |pending2| + |e.accepted| <= |pending| + |Serve(g, From(socket, all)).accepted|
  {
    hide Arrive;
    ghost var front, now, rest := From(socket, done), [Arrival(socket, request)], From(socket, all[|done| + 1..]);
    assert all == done + [request] + all[|done| + 1..];
    forall i | 0 <= i < |all| ensures all[i].request.client < ME_MAX_NUM_CLIENTS {
      assert ClientOf(From(socket, all)[i]) < ME_MAX_NUM_CLIENTS;
    }
    assert request == all[|done|];
    assert From(socket, done + [request]) == front + now;
    assert From(socket, all) == (front + now) + rest;
    ServeConcat(g, front, now);
    ServeConcat(g, front + now, rest);
    assert now[1..] == [];
    var d := Serve(g, front);
    var e := Arrive(d.gate, Arrival(socket, request));
    assert pending + Stamped(rxTime, d.accepted + e.accepted) == pending2 + Stamped(rxTime, e.accepted);
  }

  lemma {:induction false} AllServed<S>(
    g: Gate<S>, pending: seq<RecvTimeClientRequest>, socket: S, rxTime: int, all: seq<OMClientRequest>, gate: Gate<S>,
    pending2: seq<RecvTimeClientRequest>)
    requires WellSized(g) && SoFar(g, pending, socket, rxTime, all, gate, pending2)
    ensures ClientsInRange(From(socket, all))
    ensures var d := Serve(g, From(socket, all));
            gate == d.gate && pending2 == pending + Stamped(rxTime, d.accepted)
                && |pending2| == |pending| + |d.accepted|
  {
  }

  /** One drain after another writes what one drain of everything would. */
  lemma {:induction false} SentConcat<S>(
    sockets: seq<Binding<S>>, next: seq<nat>, a: seq<ClientResponse>, b: seq<ClientResponse>, s: S)
    requires Numberable(next, a) && Numberable(next, b)
    ensures Numberable(next, a + b)
    ensures SentTo(sockets, next, a + b, s) == SentTo(sockets, next, a, s) + SentTo(sockets, Counters(next, a), b, s)
  {
    hide Number, Counters, ToSocket, Words;
    NumberConcat(next, a, b);
    var m, n := Number(next, a), Number(Counters(next, a), b);
    ToSocketConcat(sockets, m, n, s);
    WordsConcat(ToSocket(sockets, m, s), ToSocket(sockets, n, s));
  }

  lemma {:induction false} NextNumber(next: seq<nat>, done: seq<ClientResponse>, r: ClientResponse)
    requires Numberable(next, done) && r.client < |next|
    ensures Numberable(next, done + [r]) && Numberable(next, [r])
    ensures Counters(next, done + [r]) == Counters(next, done)[r.client := Counters(next, done)[r.client] + 1]
  {
    NumberConcat(next, done, [r]);
    OneNumber(Counters(next, done), r);
  }

  lemma {:induction false} OneNumber(next: seq<nat>, r: ClientResponse)
    requires r.client < |next|
    ensures Number(next, [r]) == [Numbered(next[r.client], r)]
    ensures Counters(next, [r]) == next[r.client := next[r.client] + 1]
  {
    assert [r][1..] == [];
  }

  lemma {:induction false} NothingSent<S>(sockets: seq<Binding<S>>, next: seq<nat>)
    ensures Counters(next, []) == next && forall s: S :: SentTo(sockets, next, [], s) == []
  {
  }

  lemma OneSent<S>(sockets: seq<Binding<S>>, next: seq<nat>, r: ClientResponse, s: S)
    requires r.client < |next| <= |sockets|
    ensures SentTo(sockets, next, [r], s)
         == if sockets[r.client] == Bound(s) then [SeqNum(next[r.client]), Response(r)] else []
  {
    OneNumber(next, r);
    var n := Numbered(next[r.client], r);
    assert ToSocket(sockets, [n], s)
           == (if sockets[r.client] == Bound(s) then [n] else []) + ToSocket(sockets, [n][1..], s);
    assert Words([n]) == Words([n][..0]) + [SeqNum(n.seqNum), Response(r)];
  }

  lemma {:induction false} NextSent<S>(
    sockets: seq<Binding<S>>, next: seq<nat>, done: seq<ClientResponse>, r: ClientResponse, s: S)
    requires Numberable(next, done) && r.client < |next| <= |sockets|
    ensures Numberable(next, done + [r])
    ensures SentTo(sockets, next, done + [r], s)
         == SentTo(sockets, next, done, s)
              + (if sockets[r.client] == Bound(s) then [SeqNum(Counters(next, done)[r.client]), Response(r)] else [])
  {
    hide SentTo;
    SentConcat(sockets, next, done, [r], s);
    OneSent(sockets, Counters(next, done), r, s);
  }

  lemma {:induction false} NextFrame(bytes: seq<byte>, i: nat, done: seq<OMClientRequest>)
    requires i + FRAME_SIZE <= |bytes| && Requests(bytes) == done + Requests(bytes[i..])
    ensures Requests(bytes) == done + [Decode(bytes[i..i + FRAME_SIZE])] + Requests(bytes[i + FRAME_SIZE..])
    ensures Residue(bytes[i..]) == Residue(bytes[i + FRAME_SIZE..])
  {
    hide Decode;
    assert bytes[i..][..FRAME_SIZE] == bytes[i..i + FRAME_SIZE];
    assert bytes[i..][FRAME_SIZE..] == bytes[i + FRAME_SIZE..];
  }

  lemma {:induction false} LastFrame(bytes: seq<byte>, i: nat, done: seq<OMClientRequest>)
    requires i <= |bytes| < i + FRAME_SIZE && Requests(bytes) == done + Requests(bytes[i..])
    ensures Requests(bytes) == done && Residue(bytes[i..]) == bytes[i..]
  {
  }
}
