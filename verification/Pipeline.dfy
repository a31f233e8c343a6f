/** The two-slot pipeline as a state machine: one producer thread (the socket
    loop) and one consumer thread (the file writer) around a `TwoSlotBuffer`.

    Every mutex-held body is one step.  Writes into a held slot and reads out of
    a taken slot happen outside the lock, one byte at a time, as steps of their
    own.  A condition-variable wait is split into "test the predicate and go to
    sleep" and "be woken", so that a lost wake-up would be a reachable state. */
module Pipeline {
  import opened Octets

  datatype Buffer = Buffer(
    slots: seq<Bytes>, lens: seq<nat>,
    producerSlot: int, consumerSlot: int,
    free: seq<int>, ready: seq<int>, done: bool)

  function NewBuffer(capacity: nat): Buffer
  {
    Buffer([Zeros(capacity), Zeros(capacity)], [0, 0], -1, -1, [0, 1], [], false)
  }

  // The bodies that run under the mutex.

  function NextWritable(b: Buffer): Buffer
    requires b.free != []
  {
    b.(producerSlot := b.free[0], free := b.free[1..])
  }

  function PublishSlot(b: Buffer, n: nat): Buffer
    requires 0 <= b.producerSlot < |b.lens|
  {
    b.(lens := b.lens[b.producerSlot := n], ready := b.ready + [b.producerSlot])
  }

  function MarkDone(b: Buffer): Buffer
  {
    b.(done := true)
  }

  function TakeReady(b: Buffer): Buffer
    requires b.ready != []
  {
    b.(consumerSlot := b.ready[0], ready := b.ready[1..])
  }

  function DoneWith(b: Buffer): Buffer
  {
    b.(free := b.free + [b.consumerSlot])
  }

  /** One byte written through the pointer `next_writable` returned. */
  function StoreByte(b: Buffer, i: nat, x: byte): Buffer
    requires 0 <= b.producerSlot < |b.slots|
    requires i < |b.slots[b.producerSlot]|
  {
    var slot: Bytes := b.slots[b.producerSlot];
    b.(slots := b.slots[b.producerSlot := slot[..i] + [x] + slot[i + 1..]])
  }

  // The two threads.

  /** `Requesting` is inside `next_writable`; `Holding` is between
      `next_writable` and `publish`; a producer that stops on an error path
      finishes while still holding a slot. */
  datatype Producer =
    | Outside | Requesting | AsleepFree | Holding
    | Finished(holding: bool) | Joined(holding: bool)

  /** `Polling` is inside `wait_ready`; `Writing` is between `wait_ready` and
      `done_with`, with `written` of `count` bytes passed to the file. */
  datatype Consumer = Polling | AsleepReady | Writing(count: nat, written: nat) | Exited

  datatype Pipe = Pipe(capacity: nat, buf: Buffer, producer: Producer, consumer: Consumer, file: Bytes)

  datatype Step =
    | Request | Acquire | ProducerSleeps | ProducerWakes
    | Store(i: nat, b: byte) | Publish(n: nat) | Finish | Join
    | Take | ConsumerSleeps | ConsumerWakes | Copy | Release | Quit

  function Start(capacity: nat, file: Bytes): Pipe
  {
    Pipe(capacity, NewBuffer(capacity), Outside, Polling, file)
  }

  predicate ProducerHolds(p: Producer)
  {
    match p
    case Holding => true
    case Finished(h) => h
    case Joined(h) => h
    case _ => false
  }

  predicate Enabled(p: Pipe, s: Step)
  {
    match s
    case Request => p.producer.Outside?
    case Acquire => p.producer.Requesting? && p.buf.free != []
    case ProducerSleeps => p.producer.Requesting? && p.buf.free == []
    case ProducerWakes => p.producer.AsleepFree?
    case Store(i, b) => p.producer.Holding? && i < p.capacity
    case Publish(n) => p.producer.Holding? && n <= p.capacity
    case Finish => p.producer.Outside? || p.producer.Holding?
    case Join => p.producer.Finished? && p.consumer.Exited?
    case Take => p.consumer.Polling? && p.buf.ready != []
    case ConsumerSleeps => p.consumer.Polling? && p.buf.ready == [] && !p.buf.done
    case ConsumerWakes => p.consumer.AsleepReady?
    case Copy => p.consumer.Writing? && p.consumer.written < p.consumer.count
    case Release => p.consumer.Writing? && p.consumer.written == p.consumer.count
    case Quit => p.consumer.Polling? && p.buf.ready == [] && p.buf.done
  }

  /** A queue of slot numbers whose lengths fit their slots. */
  predicate Slots(b: Buffer, q: seq<int>)
  {
    && |b.slots| == 2 && |b.lens| == 2
    && forall i | 0 <= i < |q| :: 0 <= q[i] < 2 && b.lens[q[i]] <= |b.slots[q[i]]|
  }

  /** Every index the threads use is in range. */
  predicate Shape(p: Pipe)
  {
    && |p.buf.slots| == 2 && |p.buf.lens| == 2
    && (forall i | 0 <= i < 2 :: |p.buf.slots[i]| == p.capacity)
    && (ProducerHolds(p.producer) ==> 0 <= p.buf.producerSlot < 2)
    && (p.consumer.Writing? ==>
          && 0 <= p.buf.consumerSlot < 2
          && p.consumer.written <= p.consumer.count <= p.capacity)
    && Slots(p.buf, p.buf.ready)
  }

  function WakeConsumer(c: Consumer): Consumer
  {
    if c.AsleepReady? then Polling else c
  }

  function WakeProducer(p: Producer): Producer
  {
    if p.AsleepFree? then Requesting else p
  }

  function Apply(p: Pipe, s: Step): Pipe
    requires Shape(p) && Enabled(p, s)
  {
    match s
    case Request => p.(producer := Requesting)
    case Acquire => p.(buf := NextWritable(p.buf), producer := Holding)
    case ProducerSleeps => p.(producer := AsleepFree)
    case ProducerWakes => p.(producer := Requesting)
    case Store(i, b) => p.(buf := StoreByte(p.buf, i, b))
    case Publish(n) => p.(buf := PublishSlot(p.buf, n), producer := Outside, consumer := WakeConsumer(p.consumer))
    case Finish => p.(buf := MarkDone(p.buf), producer := Finished(p.producer.Holding?), consumer := WakeConsumer(p.consumer))
    case Join => p.(producer := Joined(p.producer.holding))
    case Take => p.(buf := TakeReady(p.buf), consumer := Writing(p.buf.lens[p.buf.ready[0]], 0))
    case ConsumerSleeps => p.(consumer := AsleepReady)
    case ConsumerWakes => p.(consumer := Polling)
    case Copy =>
      p.(file := p.file + [p.buf.slots[p.buf.consumerSlot][p.consumer.written]],
         consumer := Writing(p.consumer.count, p.consumer.written + 1))
    case Release => p.(buf := DoneWith(p.buf), producer := WakeProducer(p.producer), consumer := Polling)
    case Quit => p.(consumer := Exited)
  }

  // The serial loop the pipeline replaces: one scratch buffer, written to the
  // file at each publish, no second thread.

  datatype Serial = Serial(scratch: map<nat, byte>, out: Bytes)

  /** Bytes `0..n` of the scratch buffer. */
  function Slice(m: map<nat, byte>, n: nat): (b: Bytes)
    requires forall i: nat | i < n :: i in m
    ensures |b| == n
    ensures forall i: nat | i < n :: b[i] == m[i]
  {
    if n == 0 then [] else Slice(m, n - 1) + [m[n - 1]]
  }

  /** What both callers of `publish` respect: every published byte was written
      since the slot was acquired. */
  predicate Disciplined(z: Serial, s: Step)
  {
    s.Publish? ==> forall i: nat | i < s.n :: i in z.scratch
  }

  function Mirror(z: Serial, s: Step): Serial
    requires Disciplined(z, s)
  {
    match s
    case Acquire => z.(scratch := map[])
    case Store(i, b) => z.(scratch := z.scratch[i := b])
    case Publish(n) => z.(out := z.out + Slice(z.scratch, n))
    case _ => z
  }

  predicate Next(p: Pipe, z: Serial, s: Step, p1: Pipe, z1: Serial)
  {
    && Shape(p) && Enabled(p, s) && Disciplined(z, s)
    && p1 == Apply(p, s) && z1 == Mirror(z, s)
  }

  /** `p1` and `z1` are reached from `p` and `z` by the same steps, the serial
      loop seeing only the producer's. */
  predicate Run(p: Pipe, z: Serial, steps: seq<Step>, p1: Pipe, z1: Serial)
    decreases |steps|
  {
    if steps == [] then p1 == p && z1 == z
    else
      && Shape(p) && Enabled(p, steps[0]) && Disciplined(z, steps[0])
      && Run(Apply(p, steps[0]), Mirror(z, steps[0]), steps[1..], p1, z1)
  }

  // The invariant.

  /** How many times the four places together have slot `x`. */
  function Places(p: Pipe, x: int): nat
  {
    Count(p.buf.free, x) + Count(p.buf.ready, x)
    + (if ProducerHolds(p.producer) && p.buf.producerSlot == x then 1 else 0)
    + (if p.consumer.Writing? && p.buf.consumerSlot == x then 1 else 0)
  }

  lemma {:induction false} CountIn(q: seq<int>, x: int)
    ensures x in q <==> Count(q, x) > 0
  {
    if q != [] {
      assert q == [q[0]] + q[1..];
      CountIn(q[1..], x);
    }
  }

  lemma {:induction false} CountAll(q: seq<int>)
    requires forall i | 0 <= i < |q| :: q[i] == 0 || q[i] == 1
    ensures |q| == Count(q, 0) + Count(q, 1)
  {
    if q != [] {
      CountAll(q[1..]);
    }
  }

  /** The bytes waiting in a queue of ready slots. */
  function Queued(b: Buffer, q: seq<int>): Bytes
    requires Slots(b, q)
  {
    if q == [] then [] else b.slots[q[0]][..b.lens[q[0]]] + Queued(b, q[1..])
  }

  /** The rest of the slot the consumer is writing out. */
  function InHand(p: Pipe): Bytes
    requires Shape(p)
  {
    if p.consumer.Writing? then p.buf.slots[p.buf.consumerSlot][p.consumer.written..p.consumer.count] else []
  }

  /** Each of the two slots is in exactly one place, and no other number is
      anywhere. */
  ghost predicate Partitioned(p: Pipe)
  {
    forall x :: Places(p, x) == if x == 0 || x == 1 then 1 else 0
  }

  /** The bytes written since `next_writable` are in the held slot. */
  predicate ScratchHeld(p: Pipe, z: Serial)
    requires Shape(p)
  {
    p.producer.Holding? ==>
      forall i | i in z.scratch :: i < p.capacity && p.buf.slots[p.buf.producerSlot][i] == z.scratch[i]
  }

  /** Everything published is in the file, in hand or queued, in that order. */
  predicate Accounted(p: Pipe, z: Serial)
    requires Shape(p)
  {
    z.out == p.file + (InHand(p) + Queued(p.buf, p.buf.ready))
  }

  /** Nobody sleeps on a predicate that holds, and the end-of-stream flags agree. */
  predicate Control(p: Pipe)
  {
    && (p.producer.AsleepFree? ==> p.buf.free == [])
    && (p.consumer.AsleepReady? ==> p.buf.ready == [] && !p.buf.done)
    && (p.buf.done <==> p.producer.Finished? || p.producer.Joined?)
    && (p.consumer.Exited? ==> p.buf.done && p.buf.ready == [])
    && (p.producer.Joined? ==> p.consumer.Exited?)
  }

  ghost predicate Inv(p: Pipe, z: Serial)
  {
    && Shape(p)
    && Partitioned(p)
    && ScratchHeld(p, z)
    && Accounted(p, z)
    && Control(p)
  }

  /** No slot is in two places at once. */
  lemma Distinct(p: Pipe)
    requires Partitioned(p)
    ensures forall i | 0 <= i < |p.buf.free| :: 0 <= p.buf.free[i] < 2
    ensures forall i | 0 <= i < |p.buf.ready| :: 0 <= p.buf.ready[i] < 2
    ensures forall x | x in p.buf.free :: x !in p.buf.ready
    ensures ProducerHolds(p.producer) ==> p.buf.producerSlot !in p.buf.free && p.buf.producerSlot !in p.buf.ready
    ensures p.consumer.Writing? ==> p.buf.consumerSlot !in p.buf.free && p.buf.consumerSlot !in p.buf.ready
    ensures ProducerHolds(p.producer) && p.consumer.Writing? ==> p.buf.producerSlot != p.buf.consumerSlot
  {
    forall x ensures x in p.buf.free <==> Count(p.buf.free, x) > 0 { CountIn(p.buf.free, x); }
    forall x ensures x in p.buf.ready <==> Count(p.buf.ready, x) > 0 { CountIn(p.buf.ready, x); }
    assert forall i | 0 <= i < |p.buf.free| :: Places(p, p.buf.free[i]) > 0;
    assert forall i | 0 <= i < |p.buf.ready| :: Places(p, p.buf.ready[i]) > 0;
    assert forall x | x in p.buf.free :: Places(p, x) <= 1;
    assert Places(p, p.buf.producerSlot) <= 1 && Places(p, p.buf.consumerSlot) <= 1;
  }

  lemma TwoSlots(p: Pipe)
    requires Partitioned(p)
    ensures |p.buf.free| + |p.buf.ready| + (if ProducerHolds(p.producer) then 1 else 0)
            + (if p.consumer.Writing? then 1 else 0) == 2
  {
    Distinct(p);
    CountAll(p.buf.free);
    CountAll(p.buf.ready);
    assert Places(p, 0) == 1 && Places(p, 1) == 1;
    assert ProducerHolds(p.producer) ==> Places(p, p.buf.producerSlot) > 0;
    assert p.consumer.Writing? ==> Places(p, p.buf.consumerSlot) > 0;
  }

  lemma {:induction false} QueuedSnoc(b: Buffer, q: seq<int>, x: int)
    requires Slots(b, q + [x])
    requires Slots(b, q) && 0 <= x < 2 && b.lens[x] <= |b.slots[x]|
    ensures Queued(b, q + [x]) == Queued(b, q) + b.slots[x][..b.lens[x]]
  {
    if q == [] {
      assert q + [x] == [x];
    } else {
      assert (q + [x])[1..] == q[1..] + [x];
      QueuedSnoc(b, q[1..], x);
    }
  }

  lemma {:induction false} QueuedFrame(b: Buffer, c: Buffer, q: seq<int>)
    requires Slots(b, q) && |c.slots| == 2 && |c.lens| == 2
    requires forall i | 0 <= i < |q| :: b.slots[q[i]] == c.slots[q[i]] && b.lens[q[i]] == c.lens[q[i]]
    ensures Slots(c, q)
    ensures Queued(b, q) == Queued(c, q)
  {
    if q != [] {
      QueuedFrame(b, c, q[1..]);
    }
  }

  lemma StartKeeps(capacity: nat, file: Bytes)
    ensures Inv(Start(capacity, file), Serial(map[], file))
  {
    assert [0, 1][1..] == [1];
    assert forall x :: Count([0, 1], x) == (if x == 0 then 1 else 0) + Count([1], x);
  }

  // Each part of the invariant over one step.

  lemma ControlKept(p: Pipe, z: Serial, s: Step, p1: Pipe, z1: Serial)
    requires Control(p) && Next(p, z, s, p1, z1)
    ensures Control(p1)
  {
  }

  lemma PartitionKept(p: Pipe, z: Serial, s: Step, p1: Pipe, z1: Serial)
    requires Partitioned(p) && Next(p, z, s, p1, z1)
    ensures Partitioned(p1)
  {
    forall x ensures Places(p1, x) == Places(p, x) {
      match s
      case Publish(n) => CountSnoc(p.buf.ready, p.buf.producerSlot, x);
      case Release => CountSnoc(p.buf.free, p.buf.consumerSlot, x);
      case _ =>
    }
  }

  lemma ShapeKept(p: Pipe, z: Serial, s: Step, p1: Pipe, z1: Serial)
    requires Partitioned(p) && Next(p, z, s, p1, z1)
    ensures Shape(p1)
  {
    Distinct(p);
  }

  lemma ScratchKept(p: Pipe, z: Serial, s: Step, p1: Pipe, z1: Serial)
    requires Partitioned(p) && Next(p, z, s, p1, z1)
    requires ScratchHeld(p, z) && Shape(p1)
    ensures ScratchHeld(p1, z1)
  {
  }

  lemma AccountKept(p: Pipe, z: Serial, s: Step, p1: Pipe, z1: Serial)
    requires Partitioned(p) && Next(p, z, s, p1, z1)
    requires ScratchHeld(p, z) && Accounted(p, z) && Shape(p1)
    ensures Accounted(p1, z1)
  {
    match s
    case Publish(n) => PublishQueues(p, z, n, p1, z1);
    case Take => TakeMoves(p, p1);
    case Copy => CopyMoves(p, p1);
      AppendAssoc(p.file, InHand(p)[..1], InHand(p1), Queued(p.buf, p.buf.ready));
    case _ => OthersStay(p, z, s, p1, z1);
  }

  lemma OthersStay(p: Pipe, z: Serial, s: Step, p1: Pipe, z1: Serial)
    requires Partitioned(p) && Next(p, z, s, p1, z1) && Shape(p1)
    requires !s.Publish? && !s.Take? && !s.Copy?
    ensures InHand(p1) == InHand(p)
    ensures Queued(p1.buf, p1.buf.ready) == Queued(p.buf, p.buf.ready)
  {
    Distinct(p);
    QueuedFrame(p.buf, p1.buf, p1.buf.ready);
  }

  lemma TakeMoves(p: Pipe, p1: Pipe)
    requires Shape(p) && Enabled(p, Take) && p1 == Apply(p, Take) && Shape(p1)
    ensures InHand(p1) + Queued(p1.buf, p1.buf.ready) == InHand(p) + Queued(p.buf, p.buf.ready)
    ensures p1.file == p.file
  {
    QueuedFrame(p.buf, p1.buf, p1.buf.ready);
    assert InHand(p1) == p.buf.slots[p.buf.ready[0]][..p.buf.lens[p.buf.ready[0]]];
  }

  lemma AppendAssoc(a: Bytes, b: Bytes, c: Bytes, d: Bytes)
    ensures a + ((b + c) + d) == (a + b) + (c + d)
    ensures (a + (b + c)) + d == a + (b + (c + d))
  {
  }

  lemma CopyMoves(p: Pipe, p1: Pipe)
    requires Shape(p) && Enabled(p, Copy) && p1 == Apply(p, Copy) && Shape(p1)
    ensures |InHand(p)| > 0
    ensures InHand(p) == InHand(p)[..1] + InHand(p1)
    ensures p1.file == p.file + InHand(p)[..1]
    ensures Queued(p1.buf, p1.buf.ready) == Queued(p.buf, p.buf.ready)
  {
    var s := p.buf.slots[p.buf.consumerSlot];
    assert InHand(p)[..1] == [s[p.consumer.written]];
  }

  lemma SliceHeld(p: Pipe, z: Serial, n: nat)
    requires Shape(p) && p.producer.Holding? && n <= p.capacity
    requires ScratchHeld(p, z) && Disciplined(z, Publish(n))
    ensures p.buf.slots[p.buf.producerSlot][..n] == Slice(z.scratch, n)
  {
    var a, b := p.buf.slots[p.buf.producerSlot][..n], Slice(z.scratch, n);
    assert forall i | 0 <= i < n :: a[i] == b[i];
  }

  lemma PublishGrows(p: Pipe, n: nat, p1: Pipe)
    requires Partitioned(p) && Shape(p) && Enabled(p, Publish(n)) && p1 == Apply(p, Publish(n)) && Shape(p1)
    ensures Queued(p1.buf, p1.buf.ready) == Queued(p.buf, p.buf.ready) + p.buf.slots[p.buf.producerSlot][..n]
    ensures InHand(p1) == InHand(p)
  {
    Distinct(p);
    QueuedFrame(p.buf, p1.buf, p.buf.ready);
    QueuedSnoc(p1.buf, p.buf.ready, p.buf.producerSlot);
  }

  lemma PublishQueues(p: Pipe, z: Serial, n: nat, p1: Pipe, z1: Serial)
    requires Partitioned(p) && Next(p, z, Publish(n), p1, z1)
    requires ScratchHeld(p, z) && Accounted(p, z) && Shape(p1)
    ensures Accounted(p1, z1)
  {
    SliceHeld(p, z, n);
    PublishGrows(p, n, p1);
    AppendAssoc(p.file, InHand(p), Queued(p.buf, p.buf.ready), Slice(z.scratch, n));
  }

  /** Every step of either thread keeps the invariant, with the serial loop
      following along. */
  lemma StepKeeps(p: Pipe, z: Serial, s: Step, p1: Pipe, z1: Serial)
    requires Inv(p, z) && Next(p, z, s, p1, z1)
    ensures Inv(p1, z1)
  {
    ControlKept(p, z, s, p1, z1);
    PartitionKept(p, z, s, p1, z1);
    ShapeKept(p, z, s, p1, z1);
    ScratchKept(p, z, s, p1, z1);
    AccountKept(p, z, s, p1, z1);
  }

  lemma {:induction false} RunKeeps(p: Pipe, z: Serial, steps: seq<Step>, p1: Pipe, z1: Serial)
    requires Inv(p, z) && Run(p, z, steps, p1, z1)
    ensures Inv(p1, z1)
    ensures p1.capacity == p.capacity
    decreases |steps|
  {
    if steps != [] {
      StepKeeps(p, z, steps[0], Apply(p, steps[0]), Mirror(z, steps[0]));
      RunKeeps(Apply(p, steps[0]), Mirror(z, steps[0]), steps[1..], p1, z1);
    }
  }

  predicate Reachable(capacity: nat, file: Bytes, steps: seq<Step>, p: Pipe, z: Serial)
  {
    Run(Start(capacity, file), Serial(map[], file), steps, p, z)
  }

  lemma ReachableInv(capacity: nat, file: Bytes, steps: seq<Step>, p: Pipe, z: Serial)
    requires Reachable(capacity, file, steps, p, z)
    ensures Inv(p, z) && p.capacity == capacity
  {
    StartKeeps(capacity, file);
    RunKeeps(Start(capacity, file), Serial(map[], file), steps, p, z);
  }

  // Main results.

  /** Slot ownership: in every reachable state each of the two slots is in
      exactly one place, and no other number is anywhere. */
  lemma SlotOwnership(capacity: nat, file: Bytes, steps: seq<Step>, p: Pipe, z: Serial, x: int)
    requires Reachable(capacity, file, steps, p, z)
    ensures Places(p, x) == if x == 0 || x == 1 then 1 else 0
  {
    ReachableInv(capacity, file, steps, p, z);
  }

  /** Race freedom: when an unlocked slot write and an unlocked slot read are
      both possible, they are on different slots. */
  lemma RaceFree(capacity: nat, file: Bytes, steps: seq<Step>, p: Pipe, z: Serial, i: nat, b: byte)
    requires Reachable(capacity, file, steps, p, z)
    requires Enabled(p, Store(i, b)) && Enabled(p, Copy)
    ensures p.buf.producerSlot != p.buf.consumerSlot
  {
    ReachableInv(capacity, file, steps, p, z);
    Distinct(p);
  }

  /** A slot that is ready, or being written out, keeps its bytes and its length
      over every step of either thread. */
  lemma ReadySlotStable(capacity: nat, file: Bytes, steps: seq<Step>, p: Pipe, z: Serial, s: Step, x: int)
    requires Reachable(capacity, file, steps, p, z)
    requires Enabled(p, s)
    requires x in p.buf.ready || (p.consumer.Writing? && x == p.buf.consumerSlot)
    ensures Shape(p) && 0 <= x < 2
    ensures Apply(p, s).buf.slots[x] == p.buf.slots[x]
    ensures Apply(p, s).buf.lens[x] == p.buf.lens[x]
  {
    ReachableInv(capacity, file, steps, p, z);
    Distinct(p);
  }

  /** The pipeline refines the serial loop: in every interleaving the file is a
      prefix of the serial file, and once the writer has exited it is the serial
      file, wherever the producer stopped. */
  lemma RefinesSerial(capacity: nat, file: Bytes, steps: seq<Step>, p: Pipe, z: Serial)
    requires Reachable(capacity, file, steps, p, z)
    ensures p.file <= z.out
    ensures p.consumer.Exited? ==> p.file == z.out
  {
    ReachableInv(capacity, file, steps, p, z);
  }

  /** The slots in the order in which they will come round to the producer: being
      written out, ready, held, free. */
  function Ring(p: Pipe): seq<int>
  {
    RingOf(Taken(p), p.buf.ready, Held(p), p.buf.free)
  }

  function RingOf(c: seq<int>, r: seq<int>, h: seq<int>, f: seq<int>): seq<int>
  {
    c + r + h + f
  }

  function Taken(p: Pipe): seq<int>
  {
    if p.consumer.Writing? then [p.buf.consumerSlot] else []
  }

  function Held(p: Pipe): seq<int>
  {
    if ProducerHolds(p.producer) then [p.buf.producerSlot] else []
  }

  function Acquires(steps: seq<Step>): nat
  {
    if steps == [] then 0 else (if steps[0].Acquire? then 1 else 0) + Acquires(steps[1..])
  }

  function Takes(steps: seq<Step>): nat
  {
    if steps == [] then 0 else (if steps[0].Take? then 1 else 0) + Takes(steps[1..])
  }

  function Order(m: nat): seq<int>
  {
    if m % 2 == 0 then [0, 1] else [1, 0]
  }

  /** After `n` acquisitions and `t` takes the two slots are in turn. */
  predicate InTurn(p: Pipe, n: nat, t: nat)
  {
    Ring(p) == Order(n + |p.buf.free|) && n == t + |p.buf.ready| + |Held(p)|
  }

  lemma RingMoves(c: seq<int>, r: seq<int>, h: seq<int>, f: seq<int>, x: int)
    ensures RingOf(c, r, [], [x] + f) == RingOf(c, r, [x], f)
    ensures RingOf(c, r, [x], f) == RingOf(c, r + [x], [], f)
    ensures RingOf([], [x] + r, h, f) == RingOf([x], r, h, f)
    ensures RingOf([], r, h, f + [x]) == RingOf([x], r, h, f)[1..] + [x]
    ensures RingOf([x], r, h, f) != [] && RingOf([x], r, h, f)[0] == x
  {
  }

  /** Only giving a slot back turns the ring. */
  lemma RingKept(p: Pipe, s: Step, p1: Pipe)
    requires Shape(p) && Enabled(p, s) && p1 == Apply(p, s)
    ensures s.Release? ==> Ring(p) != [] && Ring(p1) == Ring(p)[1..] + [Ring(p)[0]]
    ensures !s.Release? ==> Ring(p1) == Ring(p)
  {
    hide RingOf, Shape, Slots;
    match s
    case Acquire =>
      var x, f := p.buf.free[0], p.buf.free[1..];
      assert p.buf.free == [x] + f;
      RingMoves(Taken(p), p.buf.ready, [], f, x);
    case Publish(n) => RingMoves(Taken(p), p.buf.ready, [], p.buf.free, p.buf.producerSlot);
    case Take =>
      var x, r := p.buf.ready[0], p.buf.ready[1..];
      assert p.buf.ready == [x] + r;
      RingMoves([], r, Held(p), p.buf.free, x);
    case Release => RingMoves([], p.buf.ready, Held(p), p.buf.free, p.buf.consumerSlot);
    case _ =>
  }

  lemma InTurnKept(p: Pipe, s: Step, n: nat, t: nat, p1: Pipe)
    requires Shape(p) && Enabled(p, s) && InTurn(p, n, t) && p1 == Apply(p, s)
    ensures InTurn(p1, n + (if s.Acquire? then 1 else 0), t + if s.Take? then 1 else 0)
  {
    hide Ring, Shape;
    RingKept(p, s, p1);
  }

  lemma {:induction false} RunInTurn(p: Pipe, z: Serial, steps: seq<Step>, p1: Pipe, z1: Serial, n: nat, t: nat)
    requires InTurn(p, n, t) && Run(p, z, steps, p1, z1)
    ensures InTurn(p1, n + Acquires(steps), t + Takes(steps))
    decreases |steps|
  {
    hide InTurn, Shape, Enabled, Apply;
    if steps != [] {
      var s := steps[0];
      InTurnKept(p, s, n, t, Apply(p, s));
      RunInTurn(Apply(p, s), Mirror(z, s), steps[1..], p1, z1, n + (if s.Acquire? then 1 else 0), t + if s.Take? then 1 else 0);
    }
  }

  lemma WhoseTurn(p: Pipe, n: nat, t: nat)
    requires InTurn(p, n, t)
    ensures ProducerHolds(p.producer) ==> p.buf.producerSlot == (n + 1) % 2
    ensures p.consumer.Writing? ==> p.buf.consumerSlot == (t + 1) % 2
  {
    var c, h := Taken(p), Held(p);
    assert |c| + |p.buf.ready| + |h| + |p.buf.free| == |Ring(p)| == 2;
    assert c != [] ==> Ring(p)[0] == p.buf.consumerSlot;
    assert h != [] ==> Ring(p)[|c| + |p.buf.ready|] == p.buf.producerSlot;
  }

  /** First in, first out, both ways: in every interleaving the producer's n-th slot
      and the writer's n-th slot are slot 0 for odd and slot 1 for even n. */
  lemma SlotsAlternate(capacity: nat, file: Bytes, steps: seq<Step>, p: Pipe, z: Serial)
    requires Reachable(capacity, file, steps, p, z)
    ensures ProducerHolds(p.producer) ==> p.buf.producerSlot == (Acquires(steps) + 1) % 2
    ensures p.consumer.Writing? ==> p.buf.consumerSlot == (Takes(steps) + 1) % 2
  {
    hide Run;
    var p0 := Start(capacity, file);
    assert Ring(p0) == [0, 1];
    assert InTurn(p0, 0, 0);
    hide Ring, InTurn;
    RunInTurn(p0, Serial(map[], file), steps, p, z, 0, 0);
    WhoseTurn(p, Acquires(steps), Takes(steps));
  }

  predicate ConsumerStep(s: Step)
  {
    s.Take? || s.ConsumerSleeps? || s.Copy? || s.Release? || s.Quit?
  }

  /** The consumer's next step, when it is not asleep and has not exited. */
  function NextConsumerStep(p: Pipe): (s: Step)
    requires p.consumer.Polling? || (p.consumer.Writing? && p.consumer.written <= p.consumer.count)
    ensures ConsumerStep(s) && Enabled(p, s)
  {
    match p.consumer
    case Polling => if p.buf.ready != [] then Take else if p.buf.done then Quit else ConsumerSleeps
    case Writing(count, written) => if written < count then Copy else Release
    case _ => assert false; Quit
  }

  /** No deadlock and no lost wake-up: a producer stuck in `next_writable` has a
      writer that can move, a sleeping writer has a producer that is neither
      asleep nor gone, and a finished producer can join or has a writer that
      can move. */
  predicate Live(p: Pipe)
  {
    && (p.producer.AsleepFree? || (p.producer.Requesting? && p.buf.free == []) ==>
          p.consumer.Polling? || p.consumer.Writing?)
    && (p.consumer.AsleepReady? ==>
          p.producer.Outside? || p.producer.Holding? || (p.producer.Requesting? && p.buf.free != []))
    && (p.producer.Finished? ==>
          Enabled(p, Join) || p.consumer.Polling? || p.consumer.Writing?)
  }

  lemma NotStuck(p: Pipe, z: Serial)
    requires Inv(p, z)
    ensures Live(p)
  {
    TwoSlots(p);
  }

  lemma NeverBothBlocked(capacity: nat, file: Bytes, steps: seq<Step>, p: Pipe, z: Serial)
    requires Reachable(capacity, file, steps, p, z)
    ensures Live(p)
  {
    ReachableInv(capacity, file, steps, p, z);
    NotStuck(p, z);
  }

  /** Steps the writer still owes for what has been published. */
  function Backlog(b: Buffer, q: seq<int>): nat
    requires Slots(b, q)
  {
    if q == [] then 0 else b.lens[q[0]] + 3 + Backlog(b, q[1..])
  }

  function Work(p: Pipe): nat
    requires Shape(p)
  {
    Backlog(p.buf, p.buf.ready) +
    match p.consumer
    case Polling => 1
    case Writing(count, written) => count - written + 2
    case _ => 0
  }

  lemma {:induction false} BacklogFrame(b: Buffer, c: Buffer, q: seq<int>)
    requires Slots(b, q) && Slots(c, q) && b.lens == c.lens
    ensures Backlog(b, q) == Backlog(c, q)
  {
    if q != [] {
      BacklogFrame(b, c, q[1..]);
    }
  }

  lemma WorkDecreases(p: Pipe, s: Step, p1: Pipe)
    requires Shape(p) && Enabled(p, s) && ConsumerStep(s) && p1 == Apply(p, s) && Shape(p1)
    ensures Work(p1) < Work(p)
  {
    BacklogFrame(p.buf, p1.buf, p1.buf.ready);
  }

  /** Each step of the writer uses up work. */
  lemma WorkShrinks(p: Pipe, z: Serial, s: Step, p1: Pipe, z1: Serial)
    requires Inv(p, z) && ConsumerStep(s) && Next(p, z, s, p1, z1)
    ensures Inv(p1, z1)
    ensures Work(p1) < Work(p)
  {
    StepKeeps(p, z, s, p1, z1);
    WorkDecreases(p, s, p1);
  }

  function DrainMeasure(p: Pipe): nat
    requires Shape(p)
  {
    Work(p) + if p.producer.Joined? then 0 else 1
  }

  /** After `finish` no step of either thread, spurious wake-ups included, fails
      to use up the measure. */
  lemma DrainShrinks(p: Pipe, z: Serial, s: Step, p1: Pipe, z1: Serial)
    requires Inv(p, z) && p.buf.done && Next(p, z, s, p1, z1)
    ensures Inv(p1, z1) && p1.buf.done && z1.out == z.out
    ensures DrainMeasure(p1) < DrainMeasure(p)
  {
    if ConsumerStep(s) {
      WorkShrinks(p, z, s, p1, z1);
    } else {
      StepKeeps(p, z, s, p1, z1);
    }
  }

  ghost predicate CanMove(p: Pipe)
  {
    exists s :: Enabled(p, s)
  }

  /** Every continuation after `finish` is at most `DrainMeasure` steps long;
      one that cannot be extended has joined, with the file complete. */
  lemma {:induction false} DrainsAndJoins(p: Pipe, z: Serial, steps: seq<Step>, p1: Pipe, z1: Serial)
    requires Inv(p, z) && p.buf.done && Run(p, z, steps, p1, z1)
    ensures |steps| <= DrainMeasure(p)
    ensures z1.out == z.out
    ensures CanMove(p1) || (p1.producer.Joined? && p1.file == z.out)
    decreases |steps|
  {
    if steps == [] {
      if p.consumer.Polling? || p.consumer.Writing? {
        assert Enabled(p, NextConsumerStep(p));
      } else if p.producer.Finished? {
        assert Enabled(p, Join);
      }
    } else {
      DrainShrinks(p, z, steps[0], Apply(p, steps[0]), Mirror(z, steps[0]));
      DrainsAndJoins(Apply(p, steps[0]), Mirror(z, steps[0]), steps[1..], p1, z1);
    }
  }

  /** From every reachable state in which `finish` has been called. */
  lemma JoinReturns(capacity: nat, file: Bytes, before: seq<Step>, p: Pipe, z: Serial,
                    after: seq<Step>, p1: Pipe, z1: Serial)
    requires Reachable(capacity, file, before, p, z) && p.buf.done
    requires Run(p, z, after, p1, z1)
    ensures Shape(p) && |after| <= DrainMeasure(p)
    ensures CanMove(p1) || (p1.producer.Joined? && p1.file == z.out)
  {
    ReachableInv(capacity, file, before, p, z);
    DrainsAndJoins(p, z, after, p1, z1);
  }
}
