/** The ring queue between one producer thread and one consumer thread: every load and store of the
    three atomics and of a slot is a step of its own, and the steps interleave freely. */
module Spsc {
  import opened MemPools
  import opened LFQueues

  /** Where the producer is within one push. */
  datatype Producer<T> =
    | Resting                                 // between two pushes
    | Filling(slot: nat, value: T)            // has the address of the next slot
    | Advancing(value: T)                     // has written the slot
    | Publishing(seen: nat, value: T)         // has loaded the write index
    | Counting                                // has stored the write index

  /** Where the consumer is within one pop. */
  datatype Consumer =
    | Waiting                                 // between two pops
    | Comparing(seenRead: nat)                // has loaded the read index
    | Addressing                              // has found the indices different
    | Testing(slot: nat)                      // has the address of the element
    | Reading(slot: nat)                      // is about to read the element
    | Leaving                                 // has read the element
    | Releasing(seen: nat)                    // has loaded the read index again
    | Checking                                // has stored the read index
    | Discounting                             // has passed the ASSERT
    | Failed                                  // has failed the ASSERT

  /** The shared memory, both threads, and what they did so far: begun are the values that the producer
      was given, produced those whose index store has happened, and consumed what was read out of the
      slots. */
  datatype Queue<T> = Queue(
    store: seq<T>, w: nat, r: nat, num: nat,
    producer: Producer<T>, consumer: Consumer,
    begun: seq<T>, produced: seq<T>, consumed: seq<T>)

  /** A turn of one thread; a producer that rests begins to push value. */
  datatype Turn<T> = Produce(value: T) | Consume

  function Unread<T>(q: Queue<T>): seq<T>
    requires q.r < |q.store| && q.w < |q.store|
  {
    LFQueues.Unread(q.store, q.r, q.w)
  }

  /** The producer's discipline, which nothing in the queue enforces: a push begins only while at most
      n - 2 elements are unread. */
  predicate Disciplined<T>(q: Queue<T>, t: Turn<T>)
    requires q.r < |q.store| && q.w < |q.store|
  {
    t.Produce? && q.producer.Resting? ==> |Unread(q)| + 1 < |q.store|
  }

  /** The addresses the threads hold are slots. */
  predicate InBounds<T>(q: Queue<T>) {
    && |q.store| > 0
    && (q.producer.Filling? ==> q.producer.slot < |q.store|)
    && (q.producer.Publishing? ==> q.producer.seen < |q.store|)
    && (q.consumer.Reading? ==> q.consumer.slot < |q.store|)
  }

  function ProducerStep<T>(q: Queue<T>, value: T): Queue<T>
    requires InBounds(q)
  {
    match q.producer
    case Resting => q.(producer := Filling(q.w, value), begun := q.begun + [value])
    case Filling(slot, v) => q.(store := q.store[slot := v], producer := Advancing(v))
    case Advancing(v) => q.(producer := Publishing(q.w, v))
    case Publishing(seen, v) =>
      q.(w := (seen + 1) % |q.store|, producer := Counting, produced := q.produced + [v])
    case Counting => q.(num := q.num + 1, producer := Resting)
  }

  /** testsSize: the order server's and the logger's loops ask for size() after fetching; the matching
      engine's loop does not. */
  function ConsumerStep<T>(q: Queue<T>, testsSize: bool): Queue<T>
    requires InBounds(q)
  {
    match q.consumer
    case Waiting => q.(consumer := Comparing(q.r))
    case Comparing(seenRead) => q.(consumer := if seenRead == q.w then Waiting else Addressing)
    case Addressing => q.(consumer := if testsSize then Testing(q.r) else Reading(q.r))
    case Testing(slot) => q.(consumer := if q.num != 0 then Reading(slot) else Waiting)
    case Reading(slot) => q.(consumer := Leaving, consumed := q.consumed + [q.store[slot]])
    case Leaving => q.(consumer := Releasing(q.r))
    case Releasing(seen) => q.(r := (seen + 1) % |q.store|, consumer := Checking)
    case Checking => q.(consumer := if q.num != 0 then Discounting else Failed)
    case Discounting => q.(num := if q.num != 0 then q.num - 1 else 0, consumer := Waiting)
    case Failed => q
  }

  // ----- the invariant

  /** How far the count lags behind the indices. */
  function Lag<T>(q: Queue<T>): int {
    var ahead := if q.producer.Counting? then 1 else 0;
    var behind := if q.consumer.Checking? || q.consumer.Discounting? || q.consumer.Failed? then 1 else 0;
    ahead - behind
  }

  /** The value of the push that is under way. */
  function UnderWay<T>(p: Producer<T>): seq<T> {
    match p
    case Filling(_, v) => [v]
    case Advancing(v) => [v]
    case Publishing(_, v) => [v]
    case _ => []
  }

  ghost predicate ProducerOk<T>(q: Queue<T>)
    requires q.r < |q.store| && q.w < |q.store|
  {
    && q.begun == q.produced + UnderWay(q.producer)
    && (q.producer.Advancing? || q.producer.Publishing? ==> q.store[q.w] == q.producer.value)
    && (q.producer.Filling? ==> q.producer.slot == q.w)
    && (q.producer.Publishing? ==> q.producer.seen == q.w)
    && (q.producer.Filling? || q.producer.Advancing? || q.producer.Publishing? ==> |Unread(q)| + 1 < |q.store|)
  }

  ghost predicate ConsumerOk<T>(q: Queue<T>)
    requires q.r < |q.store| && q.w < |q.store|
  {
    && (q.consumer.Comparing? ==> q.consumer.seenRead == q.r)
    && (q.consumer.Testing? || q.consumer.Reading? ==> q.consumer.slot == q.r)
    && (q.consumer.Releasing? ==> q.consumer.seen == q.r)
    && (q.consumer.Discounting? ==> q.num != 0)
    && (q.consumer.Addressing? || q.consumer.Testing? || q.consumer.Reading?
        || q.consumer.Leaving? || q.consumer.Releasing? ==>
          Unread(q) != [])
  }

  /** The element that was read but not released yet. */
  function InHand<T>(q: Queue<T>): nat {
    if q.consumer.Leaving? || q.consumer.Releasing? then 1 else 0
  }

  ghost predicate Inv<T>(q: Queue<T>) {
    && q.r < |q.store| && q.w < |q.store|
    && ProducerOk(q) && ConsumerOk(q)
    && q.num == |Unread(q)| - Lag(q)
    && |q.consumed| >= InHand(q)
    && q.produced == q.consumed[..|q.consumed| - InHand(q)] + Unread(q)
    && (InHand(q) == 1 ==> q.consumed[|q.consumed| - 1] == Unread(q)[0])
  }

  /** The consumer has decided to take an element and has not discounted it yet. */
  predicate InPop(c: Consumer) {
    c.Reading? || c.Leaving? || c.Releasing? || c.Checking? || c.Discounting?
  }

  /** A consumer that tests the size only goes on while an element is counted. */
  ghost predicate Counted<T>(q: Queue<T>) {
    && (InPop(q.consumer) ==> q.num != 0)
    && !q.consumer.Failed?
  }

  function Initial<T>(n: nat, blank: T): Queue<T> {
    Queue(seq(n, _ => blank), 0, 0, 0, Resting, Waiting, [], [], [])
  }

  // ----- ring facts

  /** Storing the write index makes one more element readable; a slot that is not unread may change. */
  lemma UnreadGrows<T>(store: seq<T>, r: nat, w: nat)
    requires r < |store| && w < |store| && |LFQueues.Unread(store, r, w)| + 1 < |store|
    ensures (w + 1) % |store| < |store|
    ensures LFQueues.Unread(store, r, (w + 1) % |store|) == LFQueues.Unread(store, r, w) + [store[w]]
  {
    StepIsNext(w, |store|);
  }

  lemma UnreadShrinks<T>(store: seq<T>, r: nat, w: nat)
    requires r < |store| && w < |store| && LFQueues.Unread(store, r, w) != []
    ensures (r + 1) % |store| < |store|
    ensures LFQueues.Unread(store, (r + 1) % |store|, w) == LFQueues.Unread(store, r, w)[1..]
    ensures LFQueues.Unread(store, r, w)[0] == store[r]
  {
    StepIsNext(r, |store|);
  }

  lemma FreeSlotIsUnread<T>(store: seq<T>, r: nat, w: nat, v: T)
    requires r < |store| && w < |store|
    ensures LFQueues.Unread(store[w := v], r, w) == LFQueues.Unread(store, r, w)
  {
  }

  // ----- every step keeps the invariant

  lemma FillingKeepsInv<T>(q: Queue<T>, value: T)
    requires Inv(q) && q.producer.Filling?
    ensures Inv(ProducerStep(q, value)) && Unread(ProducerStep(q, value)) == Unread(q)
  {
    FreeSlotIsUnread(q.store, q.r, q.w, q.producer.value);
  }

  lemma PublishingKeepsInv<T>(q: Queue<T>, value: T)
    requires Inv(q) && q.producer.Publishing?
    ensures Inv(ProducerStep(q, value)) && Unread(ProducerStep(q, value)) == Unread(q) + [q.store[q.w]]
  {
    UnreadGrows(q.store, q.r, q.w);
    var done := q.consumed[..|q.consumed| - InHand(q)];
    assert done + Unread(q) + [q.store[q.w]] == done + (Unread(q) + [q.store[q.w]]);
  }

  lemma ProducerKeepsInv<T>(q: Queue<T>, value: T)
    requires Inv(q) && Disciplined(q, Produce(value))
    ensures Inv(ProducerStep(q, value))
  {
    if q.producer.Filling? {
      FillingKeepsInv(q, value);
    } else if q.producer.Publishing? {
      PublishingKeepsInv(q, value);
    }
  }

  lemma ReadingKeepsInv<T>(q: Queue<T>, testsSize: bool)
    requires Inv(q) && q.consumer.Reading?
    ensures Inv(ConsumerStep(q, testsSize))
  {
    UnreadShrinks(q.store, q.r, q.w);
    var z := ConsumerStep(q, testsSize);
    assert z.consumed[..|z.consumed| - 1] == q.consumed && q.consumed[..|q.consumed|] == q.consumed;
  }

  lemma ReleasingKeepsInv<T>(q: Queue<T>, testsSize: bool)
    requires Inv(q) && q.consumer.Releasing?
    ensures Inv(ConsumerStep(q, testsSize))
  {
    UnreadShrinks(q.store, q.r, q.w);
    var k := |q.consumed| - 1;
    MoveOne(q.consumed[..k], Unread(q));
    assert q.consumed == q.consumed[..k] + [q.consumed[k]];
  }

  lemma MoveOne<T>(s: seq<T>, u: seq<T>)
    requires u != []
    ensures s + u == (s + [u[0]]) + u[1..]
  {
  }

  lemma ConsumerKeepsInv<T>(q: Queue<T>, testsSize: bool)
    requires Inv(q)
    ensures Inv(ConsumerStep(q, testsSize))
  {
    if q.consumer.Reading? {
      ReadingKeepsInv(q, testsSize);
    } else if q.consumer.Releasing? {
      ReleasingKeepsInv(q, testsSize);
    } else {
      assert Unread(ConsumerStep(q, testsSize)) == Unread(q);
    }
  }

  lemma ProducerKeepsCounted<T>(q: Queue<T>, value: T)
    requires Inv(q) && Counted(q)
    ensures Counted(ProducerStep(q, value))
  {
  }

  lemma ConsumerKeepsCounted<T>(q: Queue<T>)
    requires Inv(q) && Counted(q)
    ensures Counted(ConsumerStep(q, true))
  {
  }

  // ----- whole runs

  function Step<T>(q: Queue<T>, t: Turn<T>, testsSize: bool): Queue<T>
    requires InBounds(q)
  {
    match t
    case Produce(value) => ProducerStep(q, value)
    case Consume => ConsumerStep(q, testsSize)
  }

  lemma StepKeepsInv<T>(q: Queue<T>, t: Turn<T>, testsSize: bool)
    requires Inv(q) && Disciplined(q, t)
    ensures InBounds(q) && Inv(Step(q, t, testsSize))
    ensures testsSize && Counted(q) ==> Counted(Step(q, t, testsSize))
    ensures |Step(q, t, testsSize).store| == |q.store|
  {
    match t
    case Produce(value) =>
      ProducerKeepsInv(q, value);
      if Counted(q) {
        ProducerKeepsCounted(q, value);
      }
    case Consume =>
      ConsumerKeepsInv(q, testsSize);
      if testsSize && Counted(q) {
        ConsumerKeepsCounted(q);
      }
  }

  /** An interleaving in which the producer keeps its discipline leads from q to z. */
  ghost predicate Leads<T>(q: Queue<T>, ts: seq<Turn<T>>, testsSize: bool, z: Queue<T>)
    requires Inv(q)
    decreases |ts|
  {
    if ts == [] then z == q
    else
      && Disciplined(q, ts[0])
      && (StepKeepsInv(q, ts[0], testsSize); Leads(Step(q, ts[0], testsSize), ts[1..], testsSize, z))
  }

  lemma {:induction false} LeadsKeepsInv<T>(q: Queue<T>, ts: seq<Turn<T>>, testsSize: bool, z: Queue<T>)
    requires Inv(q) && Leads(q, ts, testsSize, z)
    ensures Inv(z) && |z.store| == |q.store|
    ensures testsSize && Counted(q) ==> Counted(z)
    decreases |ts|
  {
    if ts != [] {
      StepKeepsInv(q, ts[0], testsSize);
      LeadsKeepsInv(Step(q, ts[0], testsSize), ts[1..], testsSize, z);
    }
  }

  lemma InitialInv<T>(n: nat, blank: T)
    requires n > 0
    ensures Inv(Initial(n, blank)) && Counted(Initial(n, blank))
  {
  }

  /** Every interleaving delivers the pushed values in the order of the pushes: what was read is a prefix
      of what was pushed, the rest is unread or under way, and nothing is lost, repeated or altered.
      The producer never writes the slot that the consumer reads. */
  lemma {:induction false} DeliversInOrder<T>(n: nat, blank: T, ts: seq<Turn<T>>, testsSize: bool, z: Queue<T>)
    requires n > 0 && Leads(Initial(n, blank), ts, testsSize, z)
    ensures Inv(z) && z.consumed <= z.produced
    ensures z.produced == z.consumed + Unread(z)[InHand(z)..]
    ensures z.begun == z.produced + UnderWay(z.producer)
    ensures z.producer.Filling? && (z.consumer.Testing? || z.consumer.Reading?) ==> z.producer.slot != z.consumer.slot
  {
    LeadsKeepsInv(Initial(n, blank), ts, testsSize, z);
    var done := |z.consumed| - InHand(z);
    if InHand(z) == 1 {
      MoveOne(z.consumed[..done], Unread(z));
      assert z.consumed == z.consumed[..done] + [z.consumed[done]];
    } else {
      assert z.consumed[..done] == z.consumed && Unread(z)[0..] == Unread(z);
    }
  }

  /** At every step the count is the number of unread elements, one less between the producer's index
      store and its increment, one more between the consumer's index store and its decrement. */
  lemma {:induction false} CountFollowsIndices<T>(n: nat, blank: T, ts: seq<Turn<T>>, testsSize: bool, z: Queue<T>)
    requires n > 0 && Leads(Initial(n, blank), ts, testsSize, z)
    ensures Inv(z) && z.num == |Unread(z)| - Lag(z)
    ensures z.producer.Resting? && z.consumer.Waiting? ==> z.num == |Unread(z)|
  {
    LeadsKeepsInv(Initial(n, blank), ts, testsSize, z);
  }

  /** A consumer that tests size() after fetching never fails the ASSERT. */
  lemma {:induction false} TestingConsumerNeverFails<T>(n: nat, blank: T, ts: seq<Turn<T>>, z: Queue<T>)
    requires n > 0 && Leads(Initial(n, blank), ts, true, z)
    ensures !z.consumer.Failed?
  {
    InitialInv(n, blank);
    LeadsKeepsInv(Initial(n, blank), ts, true, z);
  }

  /** A consumer that does not test it fails exactly when it releases the only element before the
      producer has counted it. */
  lemma {:induction false} FailsExactlyWhen<T>(n: nat, blank: T, ts: seq<Turn<T>>, z: Queue<T>)
    requires n > 0 && Leads(Initial(n, blank), ts, false, z) && z.consumer.Checking?
    ensures Inv(z)
    ensures ConsumerStep(z, false).consumer.Failed? <==> z.producer.Counting? && Unread(z) == []
  {
    LeadsKeepsInv(Initial(n, blank), ts, false, z);
  }

  /** One more turn in front of an interleaving. */
  lemma {:induction false} OneTurn<T>(
    q: Queue<T>, t: Turn<T>, q2: Queue<T>, ts: seq<Turn<T>>, testsSize: bool, z: Queue<T>)
    requires Inv(q) && Disciplined(q, t) && q2 == Step(q, t, testsSize)
    requires Inv(q2) && Leads(q2, ts, testsSize, z)
    ensures Leads(q, [t] + ts, testsSize, z)
  {
    assert ([t] + ts)[1..] == ts;
  }

  lemma {:induction false} NoTurn<T>(q: Queue<T>, testsSize: bool)
    requires Inv(q)
    ensures Leads(q, [], testsSize, q)
  {
  }

  /** A consumer that has started to read while nothing is counted fails four turns later. */
  lemma UncountedReadFails<T>(q: Queue<T>) returns (ts: seq<Turn<T>>, z: Queue<T>)
    requires Inv(q) && q.consumer.Reading? && q.num == 0
    ensures Leads(q, ts, false, z) && z.consumer.Failed?
  {
    hide Leads, Inv, ProducerStep;
    var t: Turn<T> := Consume;
    StepKeepsInv(q, t, false);
    var q1 := Step(q, t, false);
    StepKeepsInv(q1, t, false);
    var q2 := Step(q1, t, false);
    StepKeepsInv(q2, t, false);
    var q3 := Step(q2, t, false);
    StepKeepsInv(q3, t, false);
    z := Step(q3, t, false);
    NoTurn(z, false);
    OneTurn(q3, t, z, [], false, z);
    OneTurn(q2, t, q3, [t] + [], false, z);
    OneTurn(q1, t, q2, [t] + ([t] + []), false, z);
    OneTurn(q, t, q1, [t] + ([t] + ([t] + [])), false, z);
    ts := [t] + ([t] + ([t] + ([t] + [])));
  }

  /** And it does start to read whenever the indices differ. */
  lemma UncountedPopFails<T>(q: Queue<T>) returns (ts: seq<Turn<T>>, z: Queue<T>)
    requires Inv(q) && q.consumer.Waiting? && q.r != q.w && q.num == 0
    ensures Leads(q, ts, false, z) && z.consumer.Failed?
  {
    hide Leads, Inv, ProducerStep;
    var t: Turn<T> := Consume;
    StepKeepsInv(q, t, false);
    var q1 := Step(q, t, false);
    StepKeepsInv(q1, t, false);
    var q2 := Step(q1, t, false);
    StepKeepsInv(q2, t, false);
    var q3 := Step(q2, t, false);
    ts, z := UncountedReadFails(q3);
    OneTurn(q2, t, q3, ts, false, z);
    OneTurn(q1, t, q2, [t] + ts, false, z);
    OneTurn(q, t, q1, [t] + ([t] + ts), false, z);
    ts := [t] + ([t] + ([t] + ts));
  }

  /** Such an interleaving exists in every queue of two or more slots: the producer stores its index,
      and the consumer takes the element before the producer counts it. */
  lemma UntestedConsumerCanFail<T>(n: nat, blank: T, value: T) returns (ts: seq<Turn<T>>, z: Queue<T>)
    requires n >= 2
    ensures Leads(Initial(n, blank), ts, false, z) && z.consumer.Failed?
  {
    var q0 := Initial(n, blank);
    var t := Produce(value);
    InitialInv(n, blank);
    assert Disciplined(q0, t);
    hide Leads, Inv, ConsumerStep, Unread;
    StepKeepsInv(q0, t, false);
    var q1 := Step(q0, t, false);
    StepKeepsInv(q1, t, false);
    var q2 := Step(q1, t, false);
    StepKeepsInv(q2, t, false);
    var q3 := Step(q2, t, false);
    StepKeepsInv(q3, t, false);
    var q4 := Step(q3, t, false);
    StepIsNext(0, n);
    ts, z := UncountedPopFails(q4);
    OneTurn(q3, t, q4, ts, false, z);
    OneTurn(q2, t, q3, [t] + ts, false, z);
    OneTurn(q1, t, q2, [t] + ([t] + ts), false, z);
    OneTurn(q0, t, q1, [t] + ([t] + ([t] + ts)), false, z);
    ts := [t] + ([t] + ([t] + ([t] + ts)));
  }

  // ----- progress

  lemma {:induction false} LeadsOn<T>(
    q: Queue<T>, ts: seq<Turn<T>>, testsSize: bool, y: Queue<T>, us: seq<Turn<T>>, z: Queue<T>)
    requires Inv(q) && Leads(q, ts, testsSize, y) && Inv(y) && Leads(y, us, testsSize, z)
    ensures Leads(q, ts + us, testsSize, z)
    decreases |ts|
  {
    hide Inv, ProducerStep, ConsumerStep;
    if ts == [] {
      assert ts + us == us;
    } else {
      StepKeepsInv(q, ts[0], testsSize);
      LeadsOn(Step(q, ts[0], testsSize), ts[1..], testsSize, y, us, z);
      assert (ts + us)[0] == ts[0] && (ts + us)[1..] == ts[1..] + us;
    }
  }

  /** Two more turns of the consumer. */
  function TwoConsumed<T>(q: Queue<T>, testsSize: bool): Queue<T>
    requires Inv(q)
  {
    StepKeepsInv(q, Consume, testsSize);
    Step(Step(q, Consume, testsSize), Consume, testsSize)
  }

  lemma {:induction false} TwoTurns<T>(q: Queue<T>, testsSize: bool)
    requires Inv(q)
    ensures Inv(TwoConsumed(q, testsSize)) && Leads(q, [Consume, Consume], testsSize, TwoConsumed(q, testsSize))
  {
    hide Inv, ProducerStep, ConsumerStep, Leads;
    StepKeepsInv(q, Consume, testsSize);
    var q1 := Step(q, Consume, testsSize);
    StepKeepsInv(q1, Consume, testsSize);
    var q2 := Step(q1, Consume, testsSize);
    NoTurn(q2, testsSize);
    OneTurn(q1, Consume, q2, [], testsSize, q2);
    OneTurn(q, Consume, q1, [Consume] + [], testsSize, q2);
    var c: Turn<T> := Consume;
    assert [c] + ([c] + []) == [c, c];
  }

  /** The consumer alone gets from its rest to the address of the oldest element. */
  lemma {:induction false} ConsumerFinds<T>(q: Queue<T>, testsSize: bool) returns (ts: seq<Turn<T>>, z: Queue<T>)
    requires Inv(q) && q.producer.Resting? && q.consumer.Waiting? && Unread(q) != []
    ensures Leads(q, ts, testsSize, z) && Inv(z) && z == q.(consumer := Reading(q.r))
  {
    TwoTurns(q, testsSize);
    var q2 := TwoConsumed(q, testsSize);
    assert q.r != q.w && q2 == q.(consumer := Addressing);
    assert q.num != 0;
    if testsSize {
      TwoTurns(q2, testsSize);
      z := TwoConsumed(q2, testsSize);
      LeadsOn(q, [Consume, Consume], testsSize, q2, [Consume, Consume], z);
      ts := [Consume, Consume] + [Consume, Consume];
    } else {
      StepKeepsInv(q2, Consume, testsSize);
      z := Step(q2, Consume, testsSize);
      NoTurn(z, testsSize);
      OneTurn(q2, Consume, z, [], testsSize, z);
      LeadsOn(q, [Consume, Consume], testsSize, q2, [Consume] + [], z);
      ts := [Consume, Consume] + ([Consume] + []);
    }
  }

  /** From there it alone gets back to its rest, having read and released that element. */
  lemma {:induction false} ConsumerFinishes<T>(q: Queue<T>, testsSize: bool) returns (ts: seq<Turn<T>>, z: Queue<T>)
    requires Inv(q) && q.producer.Resting? && q.consumer.Reading? && q.num != 0 && Unread(q) != []
    ensures Leads(q, ts, testsSize, z) && Inv(z) && z.consumer.Waiting?
    ensures z.producer == q.producer && z.begun == q.begun && z.produced == q.produced
    ensures z.consumed == q.consumed + [Unread(q)[0]] && Unread(z) == Unread(q)[1..]
  {
    UnreadShrinks(q.store, q.r, q.w);
    TwoTurns(q, testsSize);
    var q2 := TwoConsumed(q, testsSize);
    assert q2 == q.(consumer := Releasing(q.r), consumed := q.consumed + [q.store[q.r]]);
    TwoTurns(q2, testsSize);
    var q4 := TwoConsumed(q2, testsSize);
    assert q4 == q2.(consumer := Discounting, r := (q.r + 1) % |q.store|);
    LeadsOn(q, [Consume, Consume], testsSize, q2, [Consume, Consume], q4);
    StepKeepsInv(q4, Consume, testsSize);
    z := Step(q4, Consume, testsSize);
    NoTurn(z, testsSize);
    OneTurn(q4, Consume, z, [], testsSize, z);
    LeadsOn(q, [Consume, Consume] + [Consume, Consume], testsSize, q4, [Consume] + [], z);
    ts := ([Consume, Consume] + [Consume, Consume]) + ([Consume] + []);
  }

  /** A consumer that finds an element takes it, with or without the test of size(), by its own turns. */
  lemma {:induction false} ConsumerTakesOne<T>(q: Queue<T>, testsSize: bool) returns (ts: seq<Turn<T>>, z: Queue<T>)
    requires Inv(q) && q.producer.Resting? && q.consumer.Waiting? && Unread(q) != []
    ensures Leads(q, ts, testsSize, z) && Inv(z) && z.consumer.Waiting?
    ensures z.producer == q.producer && z.begun == q.begun && z.produced == q.produced
    ensures z.consumed == q.consumed + [Unread(q)[0]] && Unread(z) == Unread(q)[1..]
  {
    var us, vs, y;
    us, y := ConsumerFinds(q, testsSize);
    vs, z := ConsumerFinishes(y, testsSize);
    LeadsOn(q, us, testsSize, y, vs, z);
    ts := us + vs;
  }

  /** Everything pushed is consumed: while the producer rests, the consumer's own turns empty the queue. */
  lemma {:induction false} EverythingIsConsumed<T>(q: Queue<T>, testsSize: bool) returns (ts: seq<Turn<T>>, z: Queue<T>)
    requires Inv(q) && q.producer.Resting? && q.consumer.Waiting?
    ensures Leads(q, ts, testsSize, z) && Inv(z) && z.consumer.Waiting? && Unread(z) == []
    ensures z.producer == q.producer && z.begun == q.begun && z.consumed == q.begun
    decreases |Unread(q)|
  {
    if Unread(q) == [] {
      NoTurn(q, testsSize);
      ts, z := [], q;
      assert q.produced == q.consumed[..|q.consumed|] + [] == q.consumed;
    } else {
      var us, vs, y;
      us, y := ConsumerTakesOne(q, testsSize);
      vs, z := EverythingIsConsumed(y, testsSize);
      LeadsOn(q, us, testsSize, y, vs, z);
      ts := us + vs;
    }
  }

  /** A producer with room gets its value into the queue by its own five turns. */
  lemma {:induction false} ProducerPushes<T>(
    q: Queue<T>, value: T, testsSize: bool) returns (ts: seq<Turn<T>>, z: Queue<T>)
    requires Inv(q) && q.producer.Resting? && |Unread(q)| + 1 < |q.store|
    ensures Leads(q, ts, testsSize, z) && Inv(z) && z.producer.Resting?
    ensures z.consumer == q.consumer && z.consumed == q.consumed
    ensures z.begun == q.begun + [value] && Unread(z) == Unread(q) + [value]
  {
    var t := Produce(value);
    StepKeepsInv(q, t, testsSize);
    var q1 := Step(q, t, testsSize);
    StepKeepsInv(q1, t, testsSize);
    var q2 := Step(q1, t, testsSize);
    StepKeepsInv(q2, t, testsSize);
    var q3 := Step(q2, t, testsSize);
    StepKeepsInv(q3, t, testsSize);
    var q4 := Step(q3, t, testsSize);
    StepKeepsInv(q4, t, testsSize);
    z := Step(q4, t, testsSize);
    FreeSlotIsUnread(q.store, q.r, q.w, value);
    UnreadGrows(q2.store, q.r, q.w);
    hide Inv, Leads, ProducerStep;
    NoTurn(z, testsSize);
    OneTurn(q4, t, z, [], testsSize, z);
    OneTurn(q3, t, q4, [t] + [], testsSize, z);
    OneTurn(q2, t, q3, [t] + ([t] + []), testsSize, z);
    OneTurn(q1, t, q2, [t] + ([t] + ([t] + [])), testsSize, z);
    OneTurn(q, t, q1, [t] + ([t] + ([t] + ([t] + []))), testsSize, z);
    ts := [t] + ([t] + ([t] + ([t] + ([t] + []))));
  }
}
